/**
 * The two schema description parsers. The source database reports indexes and
 * uniqueness constraints only as one-line descriptions; the label and the
 * property are recovered from the text by two fixed patterns, matched against
 * the whole description:
 *
 *   constraints:  ^CONSTRAINT ON \( .+:(.+) \) ASSERT .+\.(.+) IS UNIQUE$
 *   indexes:      ^INDEX ON :(.+)\((.+)\)$   plus exactly one '(' and one ')'
 *
 * Each parser is given here as a function with a declarative description of
 * what the pattern accepts and which groups it captures, and the lemmas prove
 * the function agrees with that description.
 */
module SchemaDescriptions {
  import opened Wrappers

  datatype LabelProperty = LabelProperty(labelName: string, propertyKey: string)

  // ---------------------------------------------------------------------------
  // Text primitives
  // ---------------------------------------------------------------------------

  /** The characters Java's `.` does not match when DOTALL is off. */
  predicate IsLineTerminator(c: char) {
    c == '\n' || c == '\r' || c == '\U{85}' || c == '\U{2028}' || c == '\U{2029}'
  }

  predicate SingleLine(s: string) {
    forall k :: 0 <= k < |s| ==> !IsLineTerminator(s[k])
  }

  /** Text `w` occurs in `s` starting at position `p`. */
  predicate OccursAt(s: string, w: string, p: int) {
    0 <= p && p + |w| <= |s| && s[p..p + |w|] == w
  }

  /** The right-most start of `w` in `s` within positions `lo` to `hi`, if any. */
  function LastOccurrence(s: string, w: string, lo: int, hi: int): (r: Option<nat>)
    ensures r.Some? ==> lo <= r.value <= hi && OccursAt(s, w, r.value)
    ensures r.Some? ==> forall p :: r.value < p <= hi ==> !OccursAt(s, w, p)
    ensures r.None? ==> forall p :: lo <= p <= hi ==> !OccursAt(s, w, p)
    decreases hi - lo
  {
    if hi < lo then None
    else if OccursAt(s, w, hi) then Some(hi)
    else LastOccurrence(s, w, lo, hi - 1)
  }

  /** `StringUtils.countMatches(s, c)` for a one-character pattern. */
  function Count(s: string, c: char): nat {
    if s == [] then 0 else (if s[0] == c then 1 else 0) + Count(s[1..], c)
  }

  lemma {:induction false} CountConcat(a: string, b: string, c: char)
    ensures Count(a + b, c) == Count(a, c) + Count(b, c)
  {
    if a == [] {
      assert a + b == b;
    } else {
      assert (a + b)[1..] == a[1..] + b;
      CountConcat(a[1..], b, c);
    }
  }

  lemma {:induction false} CountZero(s: string, c: char)
    ensures Count(s, c) == 0 <==> forall k :: 0 <= k < |s| ==> s[k] != c
  {
    if s != [] {
      CountZero(s[1..], c);
      assert forall k :: 1 <= k < |s| ==> s[k] == s[1..][k - 1];
    }
  }

  /** Two different occurrences of `c` make the count at least two. */
  lemma {:induction false} CountTwoOccurrences(s: string, c: char, p: nat, q: nat)
    requires p < q < |s| && s[p] == c && s[q] == c
    ensures Count(s, c) >= 2
  {
    if p == 0 {
      CountAtLeastOne(s[1..], c, q - 1);
    } else {
      CountTwoOccurrences(s[1..], c, p - 1, q - 1);
    }
  }

  lemma {:induction false} CountAtLeastOne(s: string, c: char, p: nat)
    requires p < |s| && s[p] == c
    ensures Count(s, c) >= 1
  {
    if p > 0 {
      CountAtLeastOne(s[1..], c, p - 1);
    }
  }

  lemma SingleLineConcat(a: string, b: string)
    ensures SingleLine(a + b) <==> SingleLine(a) && SingleLine(b)
  {
    if SingleLine(a) && SingleLine(b) {
      forall k | 0 <= k < |a + b| ensures !IsLineTerminator((a + b)[k]) {
        if k >= |a| {
          assert (a + b)[k] == b[k - |a|];
        }
      }
    }
    if SingleLine(a + b) {
      forall k | 0 <= k < |a| ensures !IsLineTerminator(a[k]) {
        assert a[k] == (a + b)[k];
      }
      forall k | 0 <= k < |b| ensures !IsLineTerminator(b[k]) {
        assert b[k] == (a + b)[|a| + k];
      }
    }
  }

  // ---------------------------------------------------------------------------
  // Label-property index descriptions
  // ---------------------------------------------------------------------------

  const IndexPrefix := "INDEX ON :"

  /** The text an index with these two names would be described by. */
  function IndexText(labelName: string, propertyKey: string): string {
    IndexPrefix + labelName + "(" + propertyKey + ")"
  }

  /**
   * `^INDEX ON :(.+)\((.+)\)$` matches `d` with `labelName` and `propertyKey`
   * as its two groups: both non-empty and free of line terminators.
   */
  ghost predicate IndexShape(d: string, labelName: string, propertyKey: string) {
    && d == IndexText(labelName, propertyKey)
    && labelName != [] && propertyKey != []
    && SingleLine(labelName) && SingleLine(propertyKey)
  }

  /** The paren check that rules out names holding parentheses. */
  ghost predicate OneParenPair(d: string) {
    Count(d, '(') == 1 && Count(d, ')') == 1
  }

  /**
   * Parses an index description: the label lies between the prefix and the one
   * '(' and the property between it and the closing ')' at the end. Any
   * other text is an error carrying the description.
   */
  function ParseIndexDescription(d: string): (r: Result<LabelProperty, string>)
    ensures r.Err? ==> r.error == d
  {
    var n := |IndexPrefix|;
    if |d| < n + 4 || d[..n] != IndexPrefix || d[|d| - 1] != ')' || !SingleLine(d)
       || Count(d, '(') != 1 || Count(d, ')') != 1
    then Err(d)
    else match LastOccurrence(d, "(", n + 1, |d| - 3)
      case None => Err(d)
      case Some(p) => Ok(LabelProperty(d[n..p], d[p + 1..|d| - 1]))
  }

  /** Text free of `c` adds nothing to the count of `c`. */
  lemma CountSkipsFree(x: string, y: string, c: char)
    requires forall k :: 0 <= k < |x| ==> x[k] != c
    ensures Count(x + y, c) == Count(y, c)
  {
    CountZero(x, c);
    CountConcat(x, y, c);
  }

  /** Where the pieces of an index text lie, and what it counts. */
  lemma IndexTextPieces(labelName: string, propertyKey: string)
    ensures var d, n, m := IndexText(labelName, propertyKey), |IndexPrefix|, |labelName|;
      && |d| == n + m + |propertyKey| + 2
      && d[..n] == IndexPrefix
      && d[n..n + m] == labelName
      && d[n + m] == '('
      && d[n + m + 1..|d| - 1] == propertyKey
      && d[|d| - 1] == ')'
      && Count(d, '(') == Count(labelName, '(') + Count(propertyKey, '(') + 1
      && Count(d, ')') == Count(labelName, ')') + Count(propertyKey, ')') + 1
      && (SingleLine(d) <==> SingleLine(labelName) && SingleLine(propertyKey))
  {
    var tail := "(" + propertyKey + ")";
    assert IndexText(labelName, propertyKey) == IndexPrefix + (labelName + tail);
    IndexTextLayout(labelName, tail, propertyKey);
    IndexTextCounts(labelName, tail, propertyKey, '(');
    IndexTextCounts(labelName, tail, propertyKey, ')');
    IndexTextSingleLine(labelName, tail, propertyKey);
  }

  lemma IndexTextSingleLine(labelName: string, tail: string, propertyKey: string)
    requires tail == "(" + propertyKey + ")"
    ensures SingleLine(IndexPrefix + (labelName + tail)) <==> SingleLine(labelName) && SingleLine(propertyKey)
  {
    SingleLineConcat(IndexPrefix, labelName + tail);
    SingleLineConcat(labelName, tail);
    SingleLineConcat("(" + propertyKey, ")");
    SingleLineConcat("(", propertyKey);
  }

  lemma IndexTextLayout(labelName: string, tail: string, propertyKey: string)
    requires tail == "(" + propertyKey + ")"
    ensures var d, n, m := IndexPrefix + (labelName + tail), |IndexPrefix|, |labelName|;
      && |d| == n + m + |propertyKey| + 2
      && d[..n] == IndexPrefix
      && d[n..n + m] == labelName
      && d[n + m] == '('
      && d[n + m + 1..|d| - 1] == propertyKey
      && d[|d| - 1] == ')'
  {
    var d := IndexPrefix + (labelName + tail);
    assert d[..|IndexPrefix|] == IndexPrefix;
    assert d[|IndexPrefix|..|IndexPrefix| + |labelName|] == labelName;
    assert d[|IndexPrefix| + |labelName| + 1..|d| - 1] == propertyKey;
  }

  lemma IndexTextCounts(labelName: string, tail: string, propertyKey: string, c: char)
    requires tail == "(" + propertyKey + ")" && (c == '(' || c == ')')
    ensures Count(IndexPrefix + (labelName + tail), c) == Count(labelName, c) + Count(propertyKey, c) + 1
  {
    CountSkipsFree(IndexPrefix, labelName + tail, c);
    CountConcat(labelName, tail, c);
    CountConcat("(" + propertyKey, ")", c);
    assert ("(" + propertyKey)[1..] == propertyKey;
  }

  /** Whatever the parser accepts has the pattern's shape and one pair of parens. */
  lemma ParseIndexSound(d: string)
    requires ParseIndexDescription(d).Ok?
    ensures IndexShape(d, ParseIndexDescription(d).value.labelName, ParseIndexDescription(d).value.propertyKey)
    ensures OneParenPair(d)
  {
    var n := |IndexPrefix|;
    var p := LastOccurrence(d, "(", n + 1, |d| - 3).value;
    var labelName, propertyKey := d[n..p], d[p + 1..|d| - 1];
    assert d[p..p + 1] == "(";
    assert d == d[..n] + labelName + [d[p]] + propertyKey + [d[|d| - 1]];
    assert SingleLine(labelName) by {
      forall k | 0 <= k < |labelName| ensures !IsLineTerminator(labelName[k]) {
        assert labelName[k] == d[n + k];
      }
    }
    assert SingleLine(propertyKey) by {
      forall k | 0 <= k < |propertyKey| ensures !IsLineTerminator(propertyKey[k]) {
        assert propertyKey[k] == d[p + 1 + k];
      }
    }
  }

  /**
   * Every description of the pattern's shape with one pair of parens is
   * accepted, with exactly the two groups as label and property.
   */
  lemma ParseIndexComplete(d: string, labelName: string, propertyKey: string)
    requires IndexShape(d, labelName, propertyKey) && OneParenPair(d)
    ensures ParseIndexDescription(d) == Ok(LabelProperty(labelName, propertyKey))
  {
    var n := |IndexPrefix|;
    var p := n + |labelName|;
    IndexTextPieces(labelName, propertyKey);
    assert d[p..p + 1] == "(";
    var found := LastOccurrence(d, "(", n + 1, |d| - 3);
    assert OccursAt(d, "(", p);
    assert found.Some?;
    var q := found.value;
    assert d[q..q + 1] == "(";
    if q != p {
      CountTwoOccurrences(d, '(', p, q);
    }
  }

  /**
   * The parser accepts an index text exactly when both names are non-empty,
   * one line, and free of parentheses; it then returns the two names.
   */
  lemma ParseIndexText(labelName: string, propertyKey: string)
    ensures ParseIndexDescription(IndexText(labelName, propertyKey)).Ok? <==>
      && labelName != [] && propertyKey != []
      && SingleLine(labelName) && SingleLine(propertyKey)
      && Count(labelName + propertyKey, '(') == 0 && Count(labelName + propertyKey, ')') == 0
    ensures ParseIndexDescription(IndexText(labelName, propertyKey)).Ok? ==>
      ParseIndexDescription(IndexText(labelName, propertyKey)).value == LabelProperty(labelName, propertyKey)
  {
    if ParseIndexDescription(IndexText(labelName, propertyKey)).Ok? {
      IndexTextAcceptedNames(labelName, propertyKey);
    }
    if && labelName != [] && propertyKey != []
       && SingleLine(labelName) && SingleLine(propertyKey)
       && Count(labelName + propertyKey, '(') == 0 && Count(labelName + propertyKey, ')') == 0
    {
      IndexTextAccepted(labelName, propertyKey);
    }
  }

  /** An accepted index text has names that meet the pattern and the paren check. */
  lemma IndexTextAcceptedNames(labelName: string, propertyKey: string)
    requires ParseIndexDescription(IndexText(labelName, propertyKey)).Ok?
    ensures && labelName != [] && propertyKey != []
      && SingleLine(labelName) && SingleLine(propertyKey)
      && Count(labelName + propertyKey, '(') == 0 && Count(labelName + propertyKey, ')') == 0
  {
    IndexTextPieces(labelName, propertyKey);
    AcceptedNames(IndexText(labelName, propertyKey), labelName, propertyKey);
  }

  /** The same, for any accepted text laid out as an index text. */
  lemma AcceptedNames(d: string, labelName: string, propertyKey: string)
    requires ParseIndexDescription(d).Ok?
    requires |d| == |IndexPrefix| + |labelName| + |propertyKey| + 2
    requires d[|IndexPrefix| + |labelName|] == '('
    requires Count(d, '(') == Count(labelName, '(') + Count(propertyKey, '(') + 1
    requires Count(d, ')') == Count(labelName, ')') + Count(propertyKey, ')') + 1
    requires SingleLine(d) <==> SingleLine(labelName) && SingleLine(propertyKey)
    ensures && labelName != [] && propertyKey != []
      && SingleLine(labelName) && SingleLine(propertyKey)
      && Count(labelName + propertyKey, '(') == 0 && Count(labelName + propertyKey, ')') == 0
  {
    CountConcat(labelName, propertyKey, '(');
    CountConcat(labelName, propertyKey, ')');
    ParseIndexChecks(d);
    AcceptedNamesNonEmpty(d, |labelName|, |propertyKey|);
  }

  /** What the parser checks of every description it accepts. */
  lemma ParseIndexChecks(d: string)
    requires ParseIndexDescription(d).Ok?
    ensures SingleLine(d) && OneParenPair(d)
  {
  }

  /** An accepted text with its one '(' right after the label has a non-empty label and property. */
  lemma AcceptedNamesNonEmpty(d: string, m: nat, l: nat)
    requires ParseIndexDescription(d).Ok? && Count(d, '(') == 1
    requires |d| == |IndexPrefix| + m + l + 2 && d[|IndexPrefix| + m] == '('
    ensures m != 0 && l != 0
  {
    var n := |IndexPrefix|;
    var p := LastOccurrence(d, "(", n + 1, |d| - 3).value;
    assert d[p..p + 1] == "(";
    if m == 0 {
      CountTwoOccurrences(d, '(', n + m, p);
    } else if l == 0 {
      CountTwoOccurrences(d, '(', p, n + m);
    }
  }

  /** An index text whose names meet the pattern and the paren check is accepted. */
  lemma IndexTextAccepted(labelName: string, propertyKey: string)
    requires && labelName != [] && propertyKey != []
      && SingleLine(labelName) && SingleLine(propertyKey)
      && Count(labelName + propertyKey, '(') == 0 && Count(labelName + propertyKey, ')') == 0
    ensures ParseIndexDescription(IndexText(labelName, propertyKey)) == Ok(LabelProperty(labelName, propertyKey))
  {
    IndexTextPieces(labelName, propertyKey);
    CountConcat(labelName, propertyKey, '(');
    CountConcat(labelName, propertyKey, ')');
    ParseIndexComplete(IndexText(labelName, propertyKey), labelName, propertyKey);
  }

  /** A name made of letters is one line and has no parentheses. */
  lemma LetterNameFacts(s: string)
    requires forall k :: 0 <= k < |s| ==> 'A' <= s[k] <= 'z'
    ensures Count(s, '(') == 0 && Count(s, ')') == 0 && SingleLine(s)
  {
    CountZero(s, '(');
    CountZero(s, ')');
  }

  lemma ParseIndexExample(d: string)
    requires d == "INDEX ON :Person(name)"
    ensures ParseIndexDescription(d) == Ok(LabelProperty("Person", "name"))
  {
    LetterNameFacts("Person");
    LetterNameFacts("name");
    assert d == IndexText("Person", "name");
    IndexTextPieces("Person", "name");
    ParseIndexComplete(d, "Person", "name");
  }

  /**
   * A label or property holding a parenthesis is refused rather than split in
   * the wrong place, and the error carries the description.
   */
  lemma ParseIndexRejectsParenInName(labelName: string, propertyKey: string, k: nat)
    requires k < |labelName + propertyKey|
    requires (labelName + propertyKey)[k] == '(' || (labelName + propertyKey)[k] == ')'
    ensures ParseIndexDescription(IndexText(labelName, propertyKey)) == Err(IndexText(labelName, propertyKey))
  {
    CountAtLeastOne(labelName + propertyKey, (labelName + propertyKey)[k], k);
    ParseIndexText(labelName, propertyKey);
  }

  /** The label `Weird(Label` is refused. */
  lemma ParseIndexRejectsExtraParen(d: string)
    requires d == "INDEX ON :Weird(Label(name)"
    ensures ParseIndexDescription(d) == Err(d)
  {
    assert d[15] == '(' && d[21] == '(';
    CountTwoOccurrences(d, '(', 15, 21);
    if ParseIndexDescription(d).Ok? {
      ParseIndexSound(d);
    }
  }

  /**
   * The pattern alone would accept `INDEX ON :a(b)(c)`, splitting it as label
   * `a(b)` and property `c`; the paren check refuses it.
   */
  lemma ParseIndexParenCheckMatters(d: string)
    requires d == "INDEX ON :a(b)(c)"
    ensures IndexShape(d, "a(b)", "c")
    ensures ParseIndexDescription(d) == Err(d)
  {
    assert d == IndexPrefix + "a(b)(c)";
    assert "a(b)(c)" == "a(b)" + "(" + "c" + ")";
    assert d[11] == '(' && d[14] == '(';
    CountTwoOccurrences(d, '(', 11, 14);
    if ParseIndexDescription(d).Ok? {
      ParseIndexSound(d);
    }
  }

  // ---------------------------------------------------------------------------
  // Uniqueness constraint descriptions
  // ---------------------------------------------------------------------------

  const ConstraintPrefix := "CONSTRAINT ON ( "
  const AssertInfix := " ) ASSERT "
  const UniqueSuffix := " IS UNIQUE"

  /**
   * `(i, j, k)` is a way for `^CONSTRAINT ON \( .+:(.+) \) ASSERT .+\.(.+) IS UNIQUE$`
   * to match `d`: `d[16..i]` is the first `.+`, `d[i]` the ':', `d[i+1..j]`
   * the label group, `d[j..j+10]` the text " ) ASSERT ", `d[j+10..k]` the
   * second `.+`, `d[k]` the '.', and `d[k+1..|d|-10]` the propertyKey group,
   * followed by " IS UNIQUE". Every piece is non-empty, and no character of
   * the text is a line terminator.
   */
  ghost predicate ConstraintSplit(d: string, i: int, j: int, k: int) {
    && SingleLine(d)
    && OccursAt(d, ConstraintPrefix, 0)
    && |ConstraintPrefix| < i && OccursAt(d, ":", i)
    && i + 1 < j && OccursAt(d, AssertInfix, j)
    && j + |AssertInfix| < k && OccursAt(d, ".", k)
    && k + 1 < |d| - |UniqueSuffix| && OccursAt(d, UniqueSuffix, |d| - |UniqueSuffix|)
  }

  /**
   * The order in which a backtracking matcher tries the splits: each `.+` is
   * greedy, the left-most one deciding first, so the split `(i, j, k)` is
   * tried before `(i', j', k')` when it is lexicographically larger.
   */
  ghost predicate TriedNoLaterThan(i': int, j': int, k': int, i: int, j: int, k: int) {
    i' < i || (i' == i && (j' < j || (j' == j && k' <= k)))
  }

  /**
   * The right-to-left scan for the split: the last '.' that leaves room for the
   * propertyKey, the last " ) ASSERT " before it, the last ':' before that. It
   * yields a split at least as far right in every position as any other.
   */
  function FindConstraintSplit(d: string): (r: Option<(nat, nat, nat)>)
    ensures r.Some? ==> ConstraintSplit(d, r.value.0, r.value.1, r.value.2)
    ensures r.Some? ==> forall i, j, k :: ConstraintSplit(d, i, j, k) ==>
      i <= r.value.0 && j <= r.value.1 && k <= r.value.2
    ensures r.None? ==> forall i, j, k :: !ConstraintSplit(d, i, j, k)
  {
    if !SingleLine(d) || !OccursAt(d, ConstraintPrefix, 0)
       || !OccursAt(d, UniqueSuffix, |d| - |UniqueSuffix|)
    then None
    else match LastOccurrence(d, ".", 0, |d| - |UniqueSuffix| - 2)
      case None => None
      case Some(k) =>
        match LastOccurrence(d, AssertInfix, 0, k - |AssertInfix| - 1)
        case None => None
        case Some(j) =>
          match LastOccurrence(d, ":", |ConstraintPrefix| + 1, j - 2)
          case None => None
          case Some(i) => Some((i, j, k))
  }

  /**
   * Parses a uniqueness constraint description into the two groups of the
   * split the matcher settles on; any other text is an error carrying it.
   */
  function ParseConstraintDescription(d: string): (r: Result<LabelProperty, string>)
    ensures r.Err? ==> r.error == d
  {
    match FindConstraintSplit(d)
    case None => Err(d)
    case Some((i, j, k)) => Ok(LabelProperty(d[i + 1..j], d[k + 1..|d| - |UniqueSuffix|]))
  }

  /**
   * A split takes the text apart into the pattern's literal and variable
   * pieces: the part up to the label's end, and the rest.
   */
  lemma ConstraintSplitPieces(d: string, i: int, j: int, k: int)
    requires ConstraintSplit(d, i, j, k)
    ensures d == (ConstraintPrefix + d[16..i] + ":" + d[i + 1..j])
               + (AssertInfix + d[j + 10..k] + "." + d[k + 1..|d| - 10] + UniqueSuffix)
  {
    FrontPieces(d, i, j);
    BackPieces(d, j, k);
    assert d == d[..j] + d[j..];
  }

  lemma FrontPieces(d: string, i: int, j: int)
    requires 16 < i && i + 1 < j <= |d|
    requires OccursAt(d, ConstraintPrefix, 0) && OccursAt(d, ":", i)
    ensures d[..j] == ConstraintPrefix + d[16..i] + ":" + d[i + 1..j]
  {
    assert d[..16] == ConstraintPrefix;
    assert d[i..i + 1] == ":";
    assert d[..j] == d[..16] + d[16..i] + d[i..i + 1] + d[i + 1..j];
  }

  lemma BackPieces(d: string, j: int, k: int)
    requires 0 <= j && j + 10 < k && k + 1 < |d| - 10
    requires OccursAt(d, AssertInfix, j) && OccursAt(d, ".", k) && OccursAt(d, UniqueSuffix, |d| - 10)
    ensures d[j..] == AssertInfix + d[j + 10..k] + "." + d[k + 1..|d| - 10] + UniqueSuffix
  {
    assert d[j..j + 10] == AssertInfix;
    assert d[k..k + 1] == ".";
    assert d[|d| - 10..] == UniqueSuffix;
    assert d[j..] == d[j..j + 10] + d[j + 10..k] + d[k..k + 1] + d[k + 1..|d| - 10] + d[|d| - 10..];
  }

  /** The parser accepts exactly the descriptions the pattern matches. */
  lemma ParseConstraintAcceptsIffMatch(d: string)
    ensures ParseConstraintDescription(d).Ok? <==> exists i, j, k :: ConstraintSplit(d, i, j, k)
  {
    if ParseConstraintDescription(d).Ok? {
      var t := FindConstraintSplit(d).value;
      assert ConstraintSplit(d, t.0, t.1, t.2);
    }
  }

  /**
   * The parser returns the groups of the split a leftmost-first, greedy
   * matcher finds first: the one tried no later than any other.
   */
  lemma ParseConstraintIsGreedy(d: string, i: int, j: int, k: int)
    requires ConstraintSplit(d, i, j, k)
    requires forall i', j', k' :: ConstraintSplit(d, i', j', k') ==> TriedNoLaterThan(i', j', k', i, j, k)
    ensures ParseConstraintDescription(d) == Ok(LabelProperty(d[i + 1..j], d[k + 1..|d| - 10]))
  {
    var r := FindConstraintSplit(d);
    assert r.Some?;
    var t := r.value;
    assert i <= t.0 && j <= t.1 && k <= t.2;
    assert ConstraintSplit(d, t.0, t.1, t.2);
    assert TriedNoLaterThan(t.0, t.1, t.2, i, j, k);
    ParseFoundSplit(d, i, j, k);
  }

  /** The description a constraint would have, built from the four variable pieces. */
  function ConstraintText(a: string, labelName: string, b: string, propertyKey: string): string {
    ConstraintPrefix + a + ":" + labelName + AssertInfix + b + "." + propertyKey + UniqueSuffix
  }

  /** Where the pieces of a constraint text lie. */
  lemma ConstraintTextLayout(a: string, labelName: string, b: string, propertyKey: string)
    ensures var d := ConstraintText(a, labelName, b, propertyKey);
      var i := 16 + |a|;
      var j := i + 1 + |labelName|;
      var k := j + 10 + |b|;
      && |d| == k + 1 + |propertyKey| + 10
      && d[..16] == ConstraintPrefix && d[16..i] == a && d[i..i + 1] == ":"
      && d[i + 1..j] == labelName && d[j..j + 10] == AssertInfix && d[j + 10..k] == b
      && d[k..k + 1] == "." && d[k + 1..|d| - 10] == propertyKey && d[|d| - 10..] == UniqueSuffix
  {
    var front := ConstraintPrefix + a + ":" + labelName;
    var back := AssertInfix + b + "." + propertyKey + UniqueSuffix;
    assert ConstraintText(a, labelName, b, propertyKey) == front + back;
    FrontLayout(a, labelName, front);
    BackLayout(b, propertyKey, back);
    var d := front + back;
    assert d[..|front|] == front && d[|front|..] == back;
  }

  lemma FrontLayout(a: string, labelName: string, front: string)
    requires front == ConstraintPrefix + a + ":" + labelName
    ensures var i := 16 + |a|;
      && |front| == i + 1 + |labelName|
      && front[..16] == ConstraintPrefix && front[16..i] == a && front[i..i + 1] == ":"
      && front[i + 1..] == labelName
  {
  }

  lemma BackLayout(b: string, propertyKey: string, back: string)
    requires back == AssertInfix + b + "." + propertyKey + UniqueSuffix
    ensures var k := 10 + |b|;
      && |back| == k + 1 + |propertyKey| + 10
      && back[..10] == AssertInfix && back[10..k] == b && back[k..k + 1] == "."
      && back[k + 1..|back| - 10] == propertyKey && back[|back| - 10..] == UniqueSuffix
  {
  }

  /** No '.' lies inside the property. */
  lemma NoDotInProperty(d: string, k: nat, propertyKey: string)
    requires k + 1 + |propertyKey| + 10 == |d|
    requires d[k + 1..|d| - 10] == propertyKey && '.' !in propertyKey
    ensures forall q :: k < q < |d| - 10 ==> !OccursAt(d, ".", q)
  {
    forall q | k < q < |d| - 10 ensures !OccursAt(d, ".", q) {
      assert d[q] == d[k + 1..|d| - 10][q - k - 1];
    }
  }

  /** No " ) ASSERT " starts after `j` and ends before `k` when the text in between has no ')'. */
  lemma NoAssertInBetween(d: string, j: nat, k: nat, b: string)
    requires j + 10 + |b| == k <= |d|
    requires d[j..j + 10] == AssertInfix && d[j + 10..k] == b && ')' !in b
    ensures forall q :: j < q && q + 10 < k ==> !OccursAt(d, AssertInfix, q)
  {
    forall q | j < q && q + 10 < k ensures !OccursAt(d, AssertInfix, q) {
      if q + 1 < j + 10 {
        assert d[q + 1] == d[j..j + 10][q + 1 - j];
      } else {
        assert d[q + 1] == d[j + 10..k][q + 1 - j - 10];
      }
      assert d[q..q + 10][1] == d[q + 1] != ')';
    }
  }

  /** No ':' lies inside the label. */
  lemma NoColonInLabel(d: string, i: nat, j: nat, labelName: string)
    requires i + 1 + |labelName| == j <= |d|
    requires d[i + 1..j] == labelName && ':' !in labelName
    ensures forall q :: i < q < j ==> !OccursAt(d, ":", q)
  {
    forall q | i < q < j ensures !OccursAt(d, ":", q) {
      assert d[q] == d[i + 1..j][q - i - 1];
    }
  }

  /**
   * When the label holds no ':', the property no '.', and the text between
   * " ) ASSERT " and the '.' no ')', the constraint text splits in only one
   * way, and the parser returns its label and property.
   */
  lemma ParseConstraintText(a: string, labelName: string, b: string, propertyKey: string)
    requires a != [] && labelName != [] && b != [] && propertyKey != []
    requires SingleLine(a) && SingleLine(labelName) && SingleLine(b) && SingleLine(propertyKey)
    requires ':' !in labelName && ')' !in b && '.' !in propertyKey
    ensures ParseConstraintDescription(ConstraintText(a, labelName, b, propertyKey))
         == Ok(LabelProperty(labelName, propertyKey))
  {
    var d := ConstraintText(a, labelName, b, propertyKey);
    var i := 16 + |a|;
    var j := i + 1 + |labelName|;
    var k := j + 10 + |b|;
    ConstraintTextLayout(a, labelName, b, propertyKey);
    ConstraintTextSingleLine(a, labelName, b, propertyKey);
    NoDotInProperty(d, k, propertyKey);
    NoAssertInBetween(d, j, k, b);
    NoColonInLabel(d, i, j, labelName);
    SplitFromLayout(d, i, j, k);
    ParseOnlySplit(d, i, j, k);
  }

  /** The literal pieces at their places make a split. */
  lemma SplitFromLayout(d: string, i: int, j: int, k: int)
    requires SingleLine(d) && 16 < i && i + 1 < j && j + 10 < k && k + 1 < |d| - 10
    requires d[..16] == ConstraintPrefix && d[i..i + 1] == ":" && d[j..j + 10] == AssertInfix
    requires d[k..k + 1] == "." && d[|d| - 10..] == UniqueSuffix
    ensures ConstraintSplit(d, i, j, k)
  {
  }

  /** A split with no separator to the right of any of its three is the one the parser takes. */
  lemma ParseOnlySplit(d: string, i: int, j: int, k: int)
    requires ConstraintSplit(d, i, j, k)
    requires forall q :: k < q < |d| - 10 ==> !OccursAt(d, ".", q)
    requires forall q :: j < q && q + 10 < k ==> !OccursAt(d, AssertInfix, q)
    requires forall q :: i < q < j ==> !OccursAt(d, ":", q)
    ensures ParseConstraintDescription(d) == Ok(LabelProperty(d[i + 1..j], d[k + 1..|d| - 10]))
  {
    OnlySplitBelow(d, i, j, k);
    FindRightmostSplit(d, i, j, k);
    ParseFoundSplit(d, i, j, k);
  }

  /** The scan finds the split that lies right of every other. */
  lemma FindRightmostSplit(d: string, i: int, j: int, k: int)
    requires ConstraintSplit(d, i, j, k)
    requires forall i', j', k' :: ConstraintSplit(d, i', j', k') ==> i' <= i && j' <= j && k' <= k
    ensures FindConstraintSplit(d) == Some((i, j, k))
  {
    RightmostIsUnique(d, i, j, k, FindConstraintSplit(d));
  }

  /** Any answer meeting the scan's contract names the right-most split. */
  lemma RightmostIsUnique(d: string, i: int, j: int, k: int, r: Option<(nat, nat, nat)>)
    requires ConstraintSplit(d, i, j, k)
    requires forall i', j', k' :: ConstraintSplit(d, i', j', k') ==> i' <= i && j' <= j && k' <= k
    requires r.Some? ==> ConstraintSplit(d, r.value.0, r.value.1, r.value.2)
    requires r.Some? ==> forall i', j', k' :: ConstraintSplit(d, i', j', k') ==>
      i' <= r.value.0 && j' <= r.value.1 && k' <= r.value.2
    requires r.None? ==> forall i', j', k' :: !ConstraintSplit(d, i', j', k')
    ensures r == Some((i, j, k))
  {
    assert r.Some?;
    var t := r.value;
    assert i <= t.0 && j <= t.1 && k <= t.2;
    assert t.0 <= i && t.1 <= j && t.2 <= k;
  }

  /** The parser returns the groups of the split the scan finds. */
  lemma ParseFoundSplit(d: string, i: int, j: int, k: int)
    requires 0 <= i < j && k < |d| - 10
    requires FindConstraintSplit(d) == Some((i, j, k))
    ensures ParseConstraintDescription(d) == Ok(LabelProperty(d[i + 1..j], d[k + 1..|d| - 10]))
  {
  }

  /** A text without later separators splits nowhere to the right of `(i, j, k)`. */
  lemma OnlySplitBelow(d: string, i: int, j: int, k: int)
    requires forall q :: k < q < |d| - 10 ==> !OccursAt(d, ".", q)
    requires forall q :: j < q && q + 10 < k ==> !OccursAt(d, AssertInfix, q)
    requires forall q :: i < q < j ==> !OccursAt(d, ":", q)
    ensures forall i', j', k' :: ConstraintSplit(d, i', j', k') ==> i' <= i && j' <= j && k' <= k
  {
  }

  lemma ConstraintTextSingleLine(a: string, labelName: string, b: string, propertyKey: string)
    requires SingleLine(a) && SingleLine(labelName) && SingleLine(b) && SingleLine(propertyKey)
    ensures SingleLine(ConstraintText(a, labelName, b, propertyKey))
  {
    var x1 := ConstraintPrefix + a;
    var x2 := x1 + ":";
    var x3 := x2 + labelName;
    var x4 := x3 + AssertInfix;
    var x5 := x4 + b;
    var x6 := x5 + ".";
    var x7 := x6 + propertyKey;
    SingleLineConcat(ConstraintPrefix, a);
    SingleLineConcat(x1, ":");
    SingleLineConcat(x2, labelName);
    SingleLineConcat(x3, AssertInfix);
    SingleLineConcat(x4, b);
    SingleLineConcat(x5, ".");
    SingleLineConcat(x6, propertyKey);
    SingleLineConcat(x7, UniqueSuffix);
  }

  lemma ParseConstraintExample(d: string)
    requires d == "CONSTRAINT ON ( n:Person ) ASSERT n.email IS UNIQUE"
    ensures ParseConstraintDescription(d) == Ok(LabelProperty("Person", "email"))
  {
    var a, labelName, b, propertyKey := "n", "Person", "n", "email";
    ConstraintExampleText(d, a, labelName, b, propertyKey);
    ConstraintExamplePieces(a, labelName, b, propertyKey);
    ParseConstraintText(a, labelName, b, propertyKey);
  }

  /**
   * The example text, assembled from its pieces. The equality of a long
   * literal with a concatenation is proved in halves, each in a lemma of its
   * own, so that no proof holds the whole literal and the parser at once.
   */
  lemma ConstraintExampleText(d: string, a: string, labelName: string, b: string, propertyKey: string)
    requires d == "CONSTRAINT ON ( n:Person ) ASSERT n.email IS UNIQUE"
    requires a == "n" && labelName == "Person" && b == "n" && propertyKey == "email"
    ensures d == ConstraintText(a, labelName, b, propertyKey)
  {
    var front, back := "CONSTRAINT ON ( n:Person", " ) ASSERT n.email IS UNIQUE";
    ConstraintExampleHalves(d, front, back);
    ConstraintExampleFront(front, a, labelName);
    ConstraintExampleBack(back, b, propertyKey);
  }

  lemma ConstraintExampleHalves(d: string, front: string, back: string)
    requires d == "CONSTRAINT ON ( n:Person ) ASSERT n.email IS UNIQUE"
    requires front == "CONSTRAINT ON ( n:Person" && back == " ) ASSERT n.email IS UNIQUE"
    ensures d == front + back
  {
  }

  lemma ConstraintExampleFront(front: string, a: string, labelName: string)
    requires front == "CONSTRAINT ON ( n:Person" && a == "n" && labelName == "Person"
    ensures front == ConstraintPrefix + a + ":" + labelName
  {
  }

  lemma ConstraintExampleBack(back: string, b: string, propertyKey: string)
    requires back == " ) ASSERT n.email IS UNIQUE" && b == "n" && propertyKey == "email"
    ensures back == AssertInfix + b + "." + propertyKey + UniqueSuffix
  {
  }

  /** The example's pieces meet the side conditions of ParseConstraintText. */
  lemma ConstraintExamplePieces(a: string, labelName: string, b: string, propertyKey: string)
    requires a == "n" && labelName == "Person" && b == "n" && propertyKey == "email"
    ensures SingleLine(a) && SingleLine(labelName) && SingleLine(b) && SingleLine(propertyKey)
    ensures ':' !in labelName && ')' !in b && '.' !in propertyKey
  {
  }

  /**
   * The greedy first `.+` swallows every ':' but the last, and the greedy
   * second `.+` every '.' but the last: a label `a:b` and a property `x.y`
   * come back as `b` and `y`.
   */
  lemma ParseConstraintSplitsAtLastSeparators(d: string)
    requires d == "CONSTRAINT ON ( n:a:b ) ASSERT n.x.y IS UNIQUE"
    ensures ParseConstraintDescription(d) == Ok(LabelProperty("b", "y"))
  {
    var a, labelName, b, propertyKey := "n:a", "b", "n.x", "y";
    SeparatorsExampleText(d, a, labelName, b, propertyKey);
    SeparatorsExamplePieces(a, labelName, b, propertyKey);
    ParseConstraintText(a, labelName, b, propertyKey);
  }

  lemma SeparatorsExampleText(d: string, a: string, labelName: string, b: string, propertyKey: string)
    requires d == "CONSTRAINT ON ( n:a:b ) ASSERT n.x.y IS UNIQUE"
    requires a == "n:a" && labelName == "b" && b == "n.x" && propertyKey == "y"
    ensures d == ConstraintText(a, labelName, b, propertyKey)
  {
    var front, back := "CONSTRAINT ON ( n:a:b", " ) ASSERT n.x.y IS UNIQUE";
    SeparatorsExampleHalves(d, front, back);
    SeparatorsExampleFront(front, a, labelName);
    SeparatorsExampleBack(back, b, propertyKey);
  }

  lemma SeparatorsExampleHalves(d: string, front: string, back: string)
    requires d == "CONSTRAINT ON ( n:a:b ) ASSERT n.x.y IS UNIQUE"
    requires front == "CONSTRAINT ON ( n:a:b" && back == " ) ASSERT n.x.y IS UNIQUE"
    ensures d == front + back
  {
  }

  lemma SeparatorsExampleFront(front: string, a: string, labelName: string)
    requires front == "CONSTRAINT ON ( n:a:b" && a == "n:a" && labelName == "b"
    ensures front == ConstraintPrefix + a + ":" + labelName
  {
  }

  lemma SeparatorsExampleBack(back: string, b: string, propertyKey: string)
    requires back == " ) ASSERT n.x.y IS UNIQUE" && b == "n.x" && propertyKey == "y"
    ensures back == AssertInfix + b + "." + propertyKey + UniqueSuffix
  {
  }

  lemma SeparatorsExamplePieces(a: string, labelName: string, b: string, propertyKey: string)
    requires a == "n:a" && labelName == "b" && b == "n.x" && propertyKey == "y"
    ensures SingleLine(a) && SingleLine(labelName) && SingleLine(b) && SingleLine(propertyKey)
    ensures ':' !in labelName && ')' !in b && '.' !in propertyKey
  {
  }
}

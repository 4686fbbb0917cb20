/**
 * The property value coercer: the function that turns a property value as the
 * source database's driver hands it over into the representation the batch
 * inserter stores (a scalar as it is, a list as a primitive array).
 */
module PropertyValues {
  import opened Wrappers

  newtype int32 = x: int | -0x8000_0000 <= x < 0x8000_0000
  newtype int64 = x: int | -0x8000_0000_0000_0000 <= x < 0x8000_0000_0000_0000

  /** A 64-bit floating-point value, kept as its bit pattern: it is only ever copied. */
  datatype Float64 = Float64(bits: bv64)
  /** A 32-bit floating-point value, kept as its bit pattern. */
  datatype Float32 = Float32(bits: bv32)

  /** A Java object as `Value.asObject()` returns it, by its runtime class. */
  datatype Elem =
    | Str(s: string)
    | Long(l: int64)
    | Integer(i: int32)
    | Double(d: Float64)
    | Float(f: Float32)
    | Boolean(b: bool)
    | Other(className: string)  // maps, nodes, nested lists and every other class

  /** A property value: anything that is not a `java.util.List`, or a list. */
  datatype Value = Scalar(x: Elem) | List(items: seq<Elem>)

  /** What the coercer hands to the inserter: the scalar itself or a primitive array. */
  datatype Prop =
    | Unchanged(x: Elem)
    | IntArr(ints: seq<int32>)
    | StrArr(strs: seq<string>)
    | LongArr(longs: seq<int64>)
    | DoubleArr(doubles: seq<Float64>)
    | BoolArr(bools: seq<bool>)

  /** The length of a primitive array; a scalar counts as one. */
  function Length(p: Prop): nat {
    match p
    case Unchanged(_) => 1
    case IntArr(a) => |a|
    case StrArr(a) => |a|
    case LongArr(a) => |a|
    case DoubleArr(a) => |a|
    case BoolArr(a) => |a|
  }

  /**
   * The exceptions the coercer raises. `ArrayStore` is what copying a list
   * into a `String[]` raises on an element that is not a String, `ClassCast`
   * what unboxing an element to `long` or `double` raises on an element of
   * another class. The position and class name each carries are this
   * model's own diagnostic: Java's exceptions do not report the position,
   * and an `ArrayStoreException` names at most the array types.
   */
  datatype CoerceError =
    | UnsupportedArrayElementType(typeName: string)
    | ArrayStore(index: nat, typeName: string)
    | ClassCast(index: nat, typeName: string)

  /** The canonical Java class name of an element, as the error message prints it. */
  function ClassName(e: Elem): string {
    match e
    case Str(_) => "java.lang.String"
    case Long(_) => "java.lang.Long"
    case Integer(_) => "java.lang.Integer"
    case Double(_) => "java.lang.Double"
    case Float(_) => "java.lang.Float"
    case Boolean(_) => "java.lang.Boolean"
    case Other(name) => name
  }

  /** The element-by-element conversions and the class each accepts. */
  datatype ArrayKind = Strings | Longs | Doubles | Booleans

  predicate Fits(e: Elem, kind: ArrayKind) {
    match kind
    case Strings => e.Str?
    case Longs => e.Long?
    case Doubles => e.Double?
    case Booleans => e.Boolean?
  }

  ghost predicate AllFit(items: seq<Elem>, kind: ArrayKind) {
    forall k :: 0 <= k < |items| ==> Fits(items[k], kind)
  }

  /** `i` is the first position of `items` whose element the conversion rejects. */
  ghost predicate FirstMisfitAt(items: seq<Elem>, kind: ArrayKind, i: nat) {
    i < |items| && !Fits(items[i], kind) &&
    forall k :: 0 <= k < i ==> Fits(items[k], kind)
  }

  /** The position at which an element-by-element conversion of `items` stops, if any. */
  function FirstMisfit(items: seq<Elem>, kind: ArrayKind): (r: Option<nat>)
    ensures r.None? <==> AllFit(items, kind)
    ensures r.Some? ==> FirstMisfitAt(items, kind, r.value)
  {
    if items == [] then None
    else if !Fits(items[0], kind) then Some(0)
    else match FirstMisfit(items[1..], kind)
      case None => None
      case Some(i) => Some(i + 1)
  }

  /** `list.toArray(new String[0])`. */
  function ToStringArray(items: seq<Elem>): (r: Result<seq<string>, CoerceError>)
    ensures r.Ok? <==> AllFit(items, Strings)
    ensures r.Ok? ==> |r.value| == |items| && forall k :: 0 <= k < |items| ==> items[k] == Str(r.value[k])
    ensures r.Err? ==>
      r.error.ArrayStore? && FirstMisfitAt(items, Strings, r.error.index) && r.error.typeName == ClassName(items[r.error.index])
  {
    match FirstMisfit(items, Strings)
    case Some(i) => Err(ArrayStore(i, ClassName(items[i])))
    case None => Ok(seq(|items|, k requires 0 <= k < |items| => items[k].s))
  }

  /** `list.stream().mapToLong(l -> (long) l).toArray()`. */
  function MapToLong(items: seq<Elem>): (r: Result<seq<int64>, CoerceError>)
    ensures r.Ok? <==> AllFit(items, Longs)
    ensures r.Ok? ==> |r.value| == |items| && forall k :: 0 <= k < |items| ==> items[k] == Long(r.value[k])
    ensures r.Err? ==>
      r.error.ClassCast? && FirstMisfitAt(items, Longs, r.error.index) && r.error.typeName == ClassName(items[r.error.index])
  {
    match FirstMisfit(items, Longs)
    case Some(i) => Err(ClassCast(i, ClassName(items[i])))
    case None => Ok(seq(|items|, k requires 0 <= k < |items| => items[k].l))
  }

  /** `list.stream().mapToDouble(d -> (double) d).toArray()`. */
  function MapToDouble(items: seq<Elem>): (r: Result<seq<Float64>, CoerceError>)
    ensures r.Ok? <==> AllFit(items, Doubles)
    ensures r.Ok? ==> |r.value| == |items| && forall k :: 0 <= k < |items| ==> items[k] == Double(r.value[k])
    ensures r.Err? ==>
      r.error.ClassCast? && FirstMisfitAt(items, Doubles, r.error.index) && r.error.typeName == ClassName(items[r.error.index])
  {
    match FirstMisfit(items, Doubles)
    case Some(i) => Err(ClassCast(i, ClassName(items[i])))
    case None => Ok(seq(|items|, k requires 0 <= k < |items| => items[k].d))
  }

  /** `out[i] = (boolean) list.get(i)` for every `i`: the boolean copy the loop was meant to make. */
  function MapToBoolean(items: seq<Elem>): (r: Result<seq<bool>, CoerceError>)
    ensures r.Ok? <==> AllFit(items, Booleans)
    ensures r.Ok? ==> |r.value| == |items| && forall k :: 0 <= k < |items| ==> items[k] == Boolean(r.value[k])
    ensures r.Err? ==>
      r.error.ClassCast? && FirstMisfitAt(items, Booleans, r.error.index) && r.error.typeName == ClassName(items[r.error.index])
  {
    match FirstMisfit(items, Booleans)
    case Some(i) => Err(ClassCast(i, ClassName(items[i])))
    case None => Ok(seq(|items|, k requires 0 <= k < |items| => items[k].b))
  }

  /**
   * The coercer as a specification: the rules in order, the kind of the first
   * list element selecting the branch. The boolean branch copies the FIRST
   * element into every slot, as the code does.
   */
  function Coerce(v: Value): (r: Result<Prop, CoerceError>)
    ensures r.Err? ==> v.List? && v.items != []
  {
    match v
    case Scalar(x) => Ok(Unchanged(x))
    case List(items) =>
      if items == [] then Ok(IntArr([]))
      else match items[0]
        case Str(_) =>
          (match ToStringArray(items) case Ok(a) => Ok(StrArr(a)) case Err(e) => Err(e))
        case Long(_) | Integer(_) =>
          (match MapToLong(items) case Ok(a) => Ok(LongArr(a)) case Err(e) => Err(e))
        case Double(_) | Float(_) =>
          (match MapToDouble(items) case Ok(a) => Ok(DoubleArr(a)) case Err(e) => Err(e))
        case Boolean(b) => Ok(BoolArr(seq(|items|, _ => b)))
        case Other(_) => Err(UnsupportedArrayElementType(ClassName(items[0])))
  }

  /** The coercer as the code runs it; the boolean branch fills a fresh array in a loop. */
  method ToPrimitivePropertyType(v: Value) returns (r: Result<Prop, CoerceError>)
    ensures r == Coerce(v)
  {
    if !v.List? {
      return Ok(Unchanged(v.x));
    }
    var list := v.items;
    if |list| == 0 {
      return Ok(IntArr([]));
    }
    var head := list[0];
    if head.Str? {
      var a := ToStringArray(list);
      return if a.Ok? then Ok(StrArr(a.value)) else Err(a.error);
    }
    if head.Long? || head.Integer? {
      var a := MapToLong(list);
      return if a.Ok? then Ok(LongArr(a.value)) else Err(a.error);
    }
    if head.Double? || head.Float? {
      var a := MapToDouble(list);
      return if a.Ok? then Ok(DoubleArr(a.value)) else Err(a.error);
    }
    if head.Boolean? {
      var out := new bool[|list|];
      for i := 0 to |list|
        invariant forall k :: 0 <= k < i ==> out[k] == head.b
      {
        out[i] := list[0].b;
      }
      assert out[..] == seq(|list|, _ => head.b);
      return Ok(BoolArr(out[..]));
    }
    return Err(UnsupportedArrayElementType(ClassName(head)));
  }

  // ---------------------------------------------------------------------------
  // Properties of the coercer
  // ---------------------------------------------------------------------------

  /** A list always becomes an array, and one of the list's length. */
  lemma CoerceKeepsLength(items: seq<Elem>)
    ensures Coerce(List(items)).Ok? ==>
      !Coerce(List(items)).value.Unchanged? && Length(Coerce(List(items)).value) == |items|
    ensures CoerceAsIntended(List(items)).Ok? ==>
      !CoerceAsIntended(List(items)).value.Unchanged? && Length(CoerceAsIntended(List(items)).value) == |items|
  {
  }

  /** A value that is not a list is passed through unchanged. */
  lemma CoerceScalarIdentity(x: Elem)
    ensures Coerce(Scalar(x)) == Ok(Unchanged(x))
  {
  }

  /** The empty list becomes the empty int array, whatever element type was meant. */
  lemma CoerceEmptyList()
    ensures Coerce(List([])) == Ok(IntArr([]))
  {
  }

  /**
   * A String-headed list becomes a String array holding the elements in order,
   * exactly when every element is a String; otherwise the copy fails at the
   * first element that is not.
   */
  lemma CoerceStringList(items: seq<Elem>)
    requires items != [] && items[0].Str?
    ensures Coerce(List(items)).Ok? <==> AllFit(items, Strings)
    ensures Coerce(List(items)).Ok? ==>
      var p := Coerce(List(items)).value;
      p.StrArr? && |p.strs| == |items| &&
      forall k :: 0 <= k < |items| ==> items[k] == Str(p.strs[k])
    ensures Coerce(List(items)).Err? ==>
      var e := Coerce(List(items)).error;
      e.ArrayStore? && FirstMisfitAt(items, Strings, e.index) &&
      e.typeName == ClassName(items[e.index])
  {
  }

  /**
   * A Long-headed list becomes a long array holding the elements in order,
   * exactly when every element is a Long; otherwise unboxing fails at the
   * first element that is not one.
   */
  lemma CoerceLongList(items: seq<Elem>)
    requires items != [] && items[0].Long?
    ensures Coerce(List(items)).Ok? <==> AllFit(items, Longs)
    ensures Coerce(List(items)).Ok? ==>
      var p := Coerce(List(items)).value;
      p.LongArr? && |p.longs| == |items| &&
      forall k :: 0 <= k < |items| ==> items[k] == Long(p.longs[k])
    ensures Coerce(List(items)).Err? ==>
      var e := Coerce(List(items)).error;
      e.ClassCast? && FirstMisfitAt(items, Longs, e.index) &&
      e.typeName == ClassName(items[e.index])
  {
  }

  /**
   * A Double-headed list becomes a double array holding the elements in order,
   * exactly when every element is a Double; otherwise unboxing fails at the
   * first element that is not one.
   */
  lemma CoerceDoubleList(items: seq<Elem>)
    requires items != [] && items[0].Double?
    ensures Coerce(List(items)).Ok? <==> AllFit(items, Doubles)
    ensures Coerce(List(items)).Ok? ==>
      var p := Coerce(List(items)).value;
      p.DoubleArr? && |p.doubles| == |items| &&
      forall k :: 0 <= k < |items| ==> items[k] == Double(p.doubles[k])
    ensures Coerce(List(items)).Err? ==>
      var e := Coerce(List(items)).error;
      e.ClassCast? && FirstMisfitAt(items, Doubles, e.index) &&
      e.typeName == ClassName(items[e.index])
  {
  }

  /**
   * An Integer-headed or Float-headed list passes the first-element test of the
   * long or double branch, but unboxing its first element already fails: no
   * widening ever happens.
   */
  lemma CoerceNarrowHeadFails(items: seq<Elem>)
    requires items != [] && (items[0].Integer? || items[0].Float?)
    ensures Coerce(List(items)) == Err(ClassCast(0, ClassName(items[0])))
  {
  }

  /**
   * A Boolean-headed list becomes a boolean array of the same length in which
   * every slot holds the first element's value; the other elements are never
   * looked at.
   */
  lemma CoerceBooleanList(items: seq<Elem>)
    requires items != [] && items[0].Boolean?
    ensures Coerce(List(items)).Ok?
    ensures Coerce(List(items)).value.BoolArr?
    ensures |Coerce(List(items)).value.bools| == |items|
    ensures forall k :: 0 <= k < |items| ==> Coerce(List(items)).value.bools[k] == items[0].b
  {
  }

  /** The boolean result depends on the head and the length of the list only. */
  lemma CoerceBooleanIgnoresTail(a: seq<Elem>, b: seq<Elem>)
    requires a != [] && a[0].Boolean?
    requires |a| == |b| && b[0] == a[0]
    ensures Coerce(List(a)) == Coerce(List(b))
  {
  }

  /** The defect on the smallest interesting input: `[false, true, true]`. */
  lemma CoerceBooleanExample()
    ensures Coerce(List([Boolean(false), Boolean(true), Boolean(true)]))
         == Ok(BoolArr([false, false, false]))
  {
    var items := [Boolean(false), Boolean(true), Boolean(true)];
    assert seq(|items|, _ => false) == [false, false, false];
  }

  /** A head of any other class is rejected with an error naming that class. */
  lemma CoerceUnsupportedHead(items: seq<Elem>)
    requires items != [] && items[0].Other?
    ensures Coerce(List(items)) == Err(UnsupportedArrayElementType(items[0].className))
  {
  }

  // ---------------------------------------------------------------------------
  // The coercer as intended
  // ---------------------------------------------------------------------------

  /**
   * The coercer with the boolean branch copying element `i` into slot `i`;
   * every other value is coerced as before.
   */
  function CoerceAsIntended(v: Value): (r: Result<Prop, CoerceError>)
    ensures r.Err? ==> v.List? && v.items != []
  {
    if v.List? && v.items != [] && v.items[0].Boolean? then
      match MapToBoolean(v.items)
      case Ok(a) => Ok(BoolArr(a))
      case Err(e) => Err(e)
    else Coerce(v)
  }

  /**
   * A Boolean-headed list becomes a boolean array holding the elements in
   * order, exactly when every element is a Boolean; otherwise the cast fails
   * at the first element that is not.
   */
  lemma CoerceAsIntendedBooleanList(items: seq<Elem>)
    requires items != [] && items[0].Boolean?
    ensures CoerceAsIntended(List(items)).Ok? <==> AllFit(items, Booleans)
    ensures CoerceAsIntended(List(items)).Ok? ==>
      var p := CoerceAsIntended(List(items)).value;
      p.BoolArr? && |p.bools| == |items| &&
      forall k :: 0 <= k < |items| ==> items[k] == Boolean(p.bools[k])
    ensures CoerceAsIntended(List(items)).Err? ==>
      var e := CoerceAsIntended(List(items)).error;
      e.ClassCast? && FirstMisfitAt(items, Booleans, e.index) &&
      e.typeName == ClassName(items[e.index])
  {
  }

  /** The corrected coercer keeps `[false, true, true]` as it is. */
  lemma CoerceAsIntendedBooleanExample()
    ensures CoerceAsIntended(List([Boolean(false), Boolean(true), Boolean(true)]))
         == Ok(BoolArr([false, true, true]))
  {
    var items := [Boolean(false), Boolean(true), Boolean(true)];
    assert FirstMisfit(items, Booleans).None?;
    assert seq(|items|, k requires 0 <= k < |items| => items[k].b) == [false, true, true];
  }

  /** On `[false, true, true]` the coercer as written and the coercer as intended part ways. */
  lemma BooleanCopyDiffers()
    ensures Coerce(List([Boolean(false), Boolean(true), Boolean(true)]))
         != CoerceAsIntended(List([Boolean(false), Boolean(true), Boolean(true)]))
  {
    CoerceBooleanExample();
    CoerceAsIntendedBooleanExample();
    assert [false, false, false][1] != [false, true, true][1];
  }

  /** Outside Boolean-headed lists the two coercers agree. */
  lemma CoerceAsIntendedElsewhere(v: Value)
    requires !(v.List? && v.items != [] && v.items[0].Boolean?)
    ensures CoerceAsIntended(v) == Coerce(v)
  {
  }

  // ---------------------------------------------------------------------------
  // Property maps
  // ---------------------------------------------------------------------------

  /** One entry of an entity's property map, in the driver's iteration order. */
  datatype Property = Property(key: string, value: Value)
  datatype CoercedProperty = CoercedProperty(key: string, value: Prop)

  /** `i` is the first entry whose value the coercer rejects. */
  ghost predicate FirstFailingProperty(ps: seq<Property>, i: nat) {
    i < |ps| && Coerce(ps[i].value).Err? &&
    forall k :: 0 <= k < i ==> Coerce(ps[k].value).Ok?
  }

  /**
   * `entity.asMap(toPrimitivePropertyType)`: every value coerced under its own
   * key, or the exception of the first entry that cannot be coerced.
   */
  function CoerceProperties(ps: seq<Property>): (r: Result<seq<CoercedProperty>, CoerceError>)
    ensures r.Ok? <==> forall k :: 0 <= k < |ps| ==> Coerce(ps[k].value).Ok?
    ensures r.Ok? ==> (
      && |r.value| == |ps|
      && forall k :: 0 <= k < |ps| ==>
           r.value[k].key == ps[k].key && Coerce(ps[k].value) == Ok(r.value[k].value))
    ensures r.Err? ==>
      exists i: nat :: FirstFailingProperty(ps, i) && Coerce(ps[i].value) == Err(r.error)
  {
    if ps == [] then Ok([])
    else match Coerce(ps[0].value)
      case Err(e) =>
        assert FirstFailingProperty(ps, 0);
        Err(e)
      case Ok(p) =>
        match CoerceProperties(ps[1..])
        case Err(e) =>
          assert exists j: nat :: FirstFailingProperty(ps, j) && Coerce(ps[j].value) == Err(e) by {
            var i: nat :| FirstFailingProperty(ps[1..], i) && Coerce(ps[1..][i].value) == Err(e);
            assert FirstFailingProperty(ps, i + 1);
          }
          Err(e)
        case Ok(rest) => Ok([CoercedProperty(ps[0].key, p)] + rest)
  }
}

/**
 * The migration driver: it reads every node, then every relationship, then
 * every index and then every constraint of the origin database, and it
 * replays each record as a request to the batch inserter. Any stage can stop
 * the run by raising an error, and the inserter is shut down in every case.
 *
 * Each stage is specified by `Drain`, a fold over the stage's records that
 * keeps the requests made so far and stops at the first error; each import
 * method is proved to append exactly `Drain`'s requests to the inserter's log.
 */
module Pipeline {
  import opened Wrappers
  import opened PropertyValues
  import opened SchemaDescriptions
  import opened BatchInsertion

  /** A node as the origin database returns it. */
  datatype NodeRecord = NodeRecord(id: int64, labels: seq<string>, properties: seq<Property>)

  /** A relationship as the origin database returns it. */
  datatype RelationshipRecord =
    RelationshipRecord(startId: int64, endId: int64, relType: string, properties: seq<Property>)

  /** A row of the origin database's index listing. */
  datatype IndexRecord = IndexRecord(description: string, indexType: string)

  /** A row of the origin database's constraint listing. */
  datatype ConstraintRecord = ConstraintRecord(description: string)

  /** The errors that abort a migration. */
  datatype MigrationError =
    | PropertyError(cause: CoerceError)
    | IndexDescriptionError(description: string)
    | ConstraintDescriptionError(description: string)

  /** What handling one record does: one request, nothing, or an error. */
  type Outcome = Result<Option<Event>, MigrationError>

  /** The requests a stage (or a whole migration) makes and the error that stopped it, if any. */
  datatype Run = Run(events: seq<Event>, failure: Option<MigrationError>)

  /** One step of a stage: nothing happens once an error has been raised. */
  function Next(prev: Run, outcome: Outcome): Run {
    if prev.failure.Some? then prev
    else match outcome
      case Err(e) => Run(prev.events, Some(e))
      case Ok(None) => prev
      case Ok(Some(event)) => Run(prev.events + [event], None)
  }

  /** A stage that handles `records` in order, each with `step`. */
  function Drain<R>(records: seq<R>, step: R -> Outcome): (r: Run)
    ensures |r.events| <= |records|
    decreases |records|
  {
    if records == [] then Run([], None)
    else Next(Drain(records[..|records| - 1], step), step(records[|records| - 1]))
  }

  ghost predicate FirstFailure<R>(records: seq<R>, step: R -> Outcome, i: int) {
    && 0 <= i < |records|
    && step(records[i]).Err?
    && forall k :: 0 <= k < i ==> step(records[k]).Ok?
  }

  /** Every record that is handled without error makes a request. */
  ghost predicate EmitsFor<R>(records: seq<R>, step: R -> Outcome) {
    forall k :: 0 <= k < |records| && step(records[k]).Ok? ==> step(records[k]).value.Some?
  }

  lemma DrainSnoc<R>(records: seq<R>, step: R -> Outcome, i: nat)
    requires i < |records|
    ensures Drain(records[..i + 1], step) == Next(Drain(records[..i], step), step(records[i]))
  {
    assert records[..i + 1][..i] == records[..i];
  }

  /** Once a record has raised an error, the rest of the stage does nothing. */
  lemma {:induction false} DrainSticky<R>(records: seq<R>, step: R -> Outcome, n: nat)
    requires n <= |records|
    requires Drain(records[..n], step).failure.Some?
    ensures Drain(records, step) == Drain(records[..n], step)
    decreases |records| - n
  {
    if n == |records| {
      assert records[..n] == records;
    } else {
      var init := records[..|records| - 1];
      assert init[..n] == records[..n];
      DrainSticky(init, step, n);
    }
  }

  /** A stage succeeds exactly when every record is handled without error. */
  lemma {:induction false} DrainSucceeds<R>(records: seq<R>, step: R -> Outcome)
    ensures Drain(records, step).failure.None? <==> forall k :: 0 <= k < |records| ==> step(records[k]).Ok?
    decreases |records|
  {
    if records != [] {
      var n := |records|;
      var init := records[..n - 1];
      DrainSucceeds(init, step);
      if Drain(init, step).failure.Some? {
        var k :| 0 <= k < |init| && step(init[k]).Err?;
        assert records[k] == init[k];
      } else if step(records[n - 1]).Ok? {
        forall k | 0 <= k < n ensures step(records[k]).Ok? {
          if k < n - 1 { assert records[k] == init[k]; }
        }
      }
    }
  }

  /**
   * A stage that fails stops at the first failing record, keeping the
   * requests made before it and reporting that record's error.
   */
  lemma {:induction false} DrainStopsAtFirstFailure<R>(records: seq<R>, step: R -> Outcome)
    ensures Drain(records, step).failure.Some? ==>
      exists i :: FirstFailure(records, step, i) &&
        Drain(records, step) == Run(Drain(records[..i], step).events, Some(step(records[i]).error))
    decreases |records|
  {
    if records != [] {
      var n := |records|;
      var init := records[..n - 1];
      DrainStopsAtFirstFailure(init, step);
      var prev := Drain(init, step);
      if prev.failure.Some? {
        var i :| FirstFailure(init, step, i) &&
          prev == Run(Drain(init[..i], step).events, Some(step(init[i]).error));
        assert init[..i] == records[..i];
        assert FirstFailure(records, step, i);
      } else if step(records[n - 1]).Err? {
        DrainSucceeds(init, step);
        assert FirstFailure(records, step, n - 1);
      }
    }
  }

  /**
   * For a stage whose records each make one request: the i-th request comes
   * from the i-th record, in order, and an error is raised by the record
   * right after the last request.
   */
  lemma {:induction false} DrainEmitting<R>(records: seq<R>, step: R -> Outcome)
    requires EmitsFor(records, step)
    ensures var run := Drain(records, step);
      && |run.events| <= |records|
      && (forall k :: 0 <= k < |run.events| ==> step(records[k]) == Ok(Some(run.events[k])))
      && (run.failure.None? ==> |run.events| == |records|)
      && (run.failure.Some? ==> |run.events| < |records| && step(records[|run.events|]) == Err(run.failure.value))
    decreases |records|
  {
    if records != [] {
      var n := |records|;
      var init := records[..n - 1];
      assert EmitsFor(init, step) by {
        forall k | 0 <= k < |init| ensures step(init[k]).Ok? ==> step(init[k]).value.Some? {
          assert init[k] == records[k];
        }
      }
      DrainEmitting(init, step);
      var prev := Drain(init, step);
      forall k | 0 <= k < |prev.events| ensures init[k] == records[k] { }
      if prev.failure.None? && step(records[n - 1]).Ok? {
        assert step(records[n - 1]).value.Some?;
      }
    }
  }

  /** Events tagged by the stage that makes them; the shutdown comes last. */
  function Rank(e: Event): nat {
    match e
    case NodeCreated(_, _, _) => 0
    case RelationshipCreated(_, _, _, _) => 1
    case DeferredIndexCreated(_, _) => 2
    case DeferredConstraintCreated(_, _) => 3
    case ShutDown => 4
  }

  /** Requests appear stage by stage: never a request of an earlier stage after one of a later stage. */
  ghost predicate StageOrdered(log: seq<Event>) {
    forall i, j :: 0 <= i < j < |log| ==> Rank(log[i]) <= Rank(log[j])
  }

  /** Every request `step` can make belongs to the stage `rank`. */
  ghost predicate EmitsOnly<R(!new)>(step: R -> Outcome, rank: nat) {
    forall r :: step(r).Ok? && step(r).value.Some? ==> Rank(step(r).value.value) == rank
  }

  lemma {:induction false} DrainRank<R(!new)>(records: seq<R>, step: R -> Outcome, rank: nat)
    requires EmitsOnly(step, rank)
    ensures forall e :: e in Drain(records, step).events ==> Rank(e) == rank
    decreases |records|
  {
    if records != [] {
      DrainRank(records[..|records| - 1], step, rank);
    }
  }

  // ---------------------------------------------------------------------
  // The four stages
  // ---------------------------------------------------------------------

  /** A node is created under its origin id, with its labels and its coerced properties. */
  function NodeStep(node: NodeRecord): (r: Outcome)
    ensures r.Ok? <==> CoerceProperties(node.properties).Ok?
    ensures r.Ok? ==>
      && r.value.Some? && r.value.value.NodeCreated?
      && r.value.value.id == node.id && r.value.value.labels == node.labels
      && |r.value.value.properties| == |node.properties|
      && forall k :: 0 <= k < |node.properties| ==> r.value.value.properties[k].key == node.properties[k].key
    ensures r.Ok? ==> CoerceProperties(node.properties) == Ok(r.value.value.properties)
    ensures r.Err? ==> r.error == PropertyError(CoerceProperties(node.properties).error)
  {
    match CoerceProperties(node.properties)
    case Err(e) => Err(PropertyError(e))
    case Ok(ps) => Ok(Some(NodeCreated(node.id, ps, node.labels)))
  }

  /** A relationship is created between its origin endpoint ids, with its coerced properties. */
  function RelationshipStep(rel: RelationshipRecord): (r: Outcome)
    ensures r.Ok? <==> CoerceProperties(rel.properties).Ok?
    ensures r.Ok? ==>
      && r.value.Some? && r.value.value.RelationshipCreated?
      && r.value.value.startId == rel.startId && r.value.value.endId == rel.endId
      && r.value.value.relType == rel.relType
      && |r.value.value.properties| == |rel.properties|
      && forall k :: 0 <= k < |rel.properties| ==> r.value.value.properties[k].key == rel.properties[k].key
    ensures r.Ok? ==> CoerceProperties(rel.properties) == Ok(r.value.value.properties)
    ensures r.Err? ==> r.error == PropertyError(CoerceProperties(rel.properties).error)
  {
    match CoerceProperties(rel.properties)
    case Err(e) => Err(PropertyError(e))
    case Ok(ps) => Ok(Some(RelationshipCreated(rel.startId, rel.endId, rel.relType, ps)))
  }

  const LabelPropertyIndexType := "node_label_property"
  const UniquePropertyIndexType := "node_unique_property"

  /**
   * A label-property index is parsed and scheduled; an index of any other
   * type (a uniqueness index, which its constraint brings back, or a type
   * the migration does not know) is passed over.
   */
  function IndexStep(index: IndexRecord): (r: Outcome)
    ensures index.indexType != LabelPropertyIndexType ==> r == Ok(None)
    ensures index.indexType == LabelPropertyIndexType ==>
      (r.Ok? <==> ParseIndexDescription(index.description).Ok?)
    ensures index.indexType == LabelPropertyIndexType && r.Ok? ==> r.value.Some?
    ensures r.Ok? && r.value.Some? ==>
      && r.value.value.DeferredIndexCreated?
      && ParseIndexDescription(index.description) == Ok(LabelProperty(r.value.value.labelName, r.value.value.propertyKey))
    ensures r.Err? ==> r.error == IndexDescriptionError(index.description)
  {
    if index.indexType == LabelPropertyIndexType then
      match ParseIndexDescription(index.description)
      case Err(d) => Err(IndexDescriptionError(d))
      case Ok(lp) => Ok(Some(DeferredIndexCreated(lp.labelName, lp.propertyKey)))
    else Ok(None)
  }

  /** A constraint is parsed and scheduled; a description of any other form is an error. */
  function ConstraintStep(constraint: ConstraintRecord): (r: Outcome)
    ensures r.Ok? <==> ParseConstraintDescription(constraint.description).Ok?
    ensures r.Ok? ==>
      && r.value.Some? && r.value.value.DeferredConstraintCreated?
      && ParseConstraintDescription(constraint.description)
           == Ok(LabelProperty(r.value.value.labelName, r.value.value.propertyKey))
    ensures r.Err? ==> r.error == ConstraintDescriptionError(constraint.description)
  {
    match ParseConstraintDescription(constraint.description)
    case Err(d) => Err(ConstraintDescriptionError(d))
    case Ok(lp) => Ok(Some(DeferredConstraintCreated(lp.labelName, lp.propertyKey)))
  }

  /** The label-property indexes among `indexes`, in their order. */
  function LabelPropertyIndexes(indexes: seq<IndexRecord>): (r: seq<IndexRecord>)
    ensures |r| <= |indexes|
    ensures forall k :: 0 <= k < |r| ==> r[k].indexType == LabelPropertyIndexType && r[k] in indexes
    ensures forall x :: x in indexes && x.indexType == LabelPropertyIndexType ==> x in r
    decreases |indexes|
  {
    if indexes == [] then []
    else
      var init := indexes[..|indexes| - 1];
      var last := indexes[|indexes| - 1];
      assert indexes == init + [last];
      LabelPropertyIndexes(init) + (if last.indexType == LabelPropertyIndexType then [last] else [])
  }

  /** Selecting from two listings one after the other is selecting from each. */
  lemma {:induction false} LabelPropertyIndexesConcat(x: seq<IndexRecord>, y: seq<IndexRecord>)
    ensures LabelPropertyIndexes(x + y) == LabelPropertyIndexes(x) + LabelPropertyIndexes(y)
    decreases |y|
  {
    if y == [] {
      assert x + y == x;
    } else {
      var init := y[..|y| - 1];
      var last := y[|y| - 1];
      assert (x + y)[..|x + y| - 1] == x + init;
      assert (x + y)[|x + y| - 1] == last;
      LabelPropertyIndexesConcat(x, init);
    }
  }

  /** A single index is selected exactly when it is a label-property index. */
  lemma LabelPropertyIndexesOne(index: IndexRecord)
    ensures LabelPropertyIndexes([index]) == if index.indexType == LabelPropertyIndexType then [index] else []
  {
    assert [index][..0] == [];
  }

  /**
   * The node stage creates the nodes in stream order, each under the id, with
   * the labels and with the coerced properties of its record; it succeeds
   * exactly when every node's properties coerce, and otherwise it stops at
   * the first node whose properties do not, having created the nodes before it.
   */
  lemma NodeImportFaithful(nodes: seq<NodeRecord>)
    ensures var run := Drain(nodes, NodeStep);
      && |run.events| <= |nodes|
      && (forall k :: 0 <= k < |run.events| ==>
            && run.events[k].NodeCreated?
            && run.events[k].id == nodes[k].id
            && run.events[k].labels == nodes[k].labels
            && CoerceProperties(nodes[k].properties) == Ok(run.events[k].properties))
      && (run.failure.None? <==> forall k :: 0 <= k < |nodes| ==> CoerceProperties(nodes[k].properties).Ok?)
      && (run.failure.None? ==> |run.events| == |nodes|)
      && (run.failure.Some? ==>
            && CoerceProperties(nodes[|run.events|].properties).Err?
            && run.failure == Some(PropertyError(CoerceProperties(nodes[|run.events|].properties).error)))
  {
    DrainEmitting(nodes, NodeStep);
    DrainSucceeds(nodes, NodeStep);
  }

  /**
   * The relationship stage creates the relationships in stream order, each
   * between the endpoint ids, with the type and the coerced properties of its
   * record, and stops at the first relationship whose properties do not coerce.
   */
  lemma RelationshipImportFaithful(rels: seq<RelationshipRecord>)
    ensures var run := Drain(rels, RelationshipStep);
      && |run.events| <= |rels|
      && (forall k :: 0 <= k < |run.events| ==>
            && run.events[k].RelationshipCreated?
            && run.events[k].startId == rels[k].startId
            && run.events[k].endId == rels[k].endId
            && run.events[k].relType == rels[k].relType
            && CoerceProperties(rels[k].properties) == Ok(run.events[k].properties))
      && (run.failure.None? <==> forall k :: 0 <= k < |rels| ==> CoerceProperties(rels[k].properties).Ok?)
      && (run.failure.None? ==> |run.events| == |rels|)
      && (run.failure.Some? ==>
            && CoerceProperties(rels[|run.events|].properties).Err?
            && run.failure == Some(PropertyError(CoerceProperties(rels[|run.events|].properties).error)))
  {
    DrainEmitting(rels, RelationshipStep);
    DrainSucceeds(rels, RelationshipStep);
  }

  /** Passing over the indexes of other types changes nothing: the stage behaves as if it only saw the label-property ones. */
  lemma {:induction false} IndexImportSkipsOtherTypes(indexes: seq<IndexRecord>)
    ensures Drain(indexes, IndexStep) == Drain(LabelPropertyIndexes(indexes), IndexStep)
    decreases |indexes|
  {
    if indexes != [] {
      var init := indexes[..|indexes| - 1];
      var last := indexes[|indexes| - 1];
      IndexImportSkipsOtherTypes(init);
      var sel := LabelPropertyIndexes(init);
      if last.indexType == LabelPropertyIndexType {
        assert LabelPropertyIndexes(indexes) == sel + [last];
        assert (sel + [last])[..|sel|] == sel;
      } else {
        assert LabelPropertyIndexes(indexes) == sel;
      }
    }
  }

  /**
   * The index stage schedules one index per label-property index, in order,
   * with the label and property its description names; it stops at the first
   * label-property index whose description cannot be read, and that error
   * carries the description.
   */
  lemma IndexImportFaithful(indexes: seq<IndexRecord>)
    ensures var sel := LabelPropertyIndexes(indexes);
      var run := Drain(indexes, IndexStep);
      && |run.events| <= |sel|
      && (forall k :: 0 <= k < |run.events| ==>
            && run.events[k].DeferredIndexCreated?
            && ParseIndexDescription(sel[k].description)
                 == Ok(LabelProperty(run.events[k].labelName, run.events[k].propertyKey)))
      && (run.failure.None? ==> |run.events| == |sel|)
      && (run.failure.Some? ==>
            && |run.events| < |sel|
            && ParseIndexDescription(sel[|run.events|].description).Err?
            && run.failure == Some(IndexDescriptionError(sel[|run.events|].description)))
  {
    var sel := LabelPropertyIndexes(indexes);
    IndexImportSkipsOtherTypes(indexes);
    DrainEmitting(sel, IndexStep);
  }

  /** An index listing holding only uniqueness indexes schedules nothing and raises nothing. */
  lemma {:induction false} UniqueIndexesSkipped(indexes: seq<IndexRecord>)
    requires forall k :: 0 <= k < |indexes| ==> indexes[k].indexType == UniquePropertyIndexType
    ensures Drain(indexes, IndexStep) == Run([], None)
    decreases |indexes|
  {
    if indexes != [] {
      var init := indexes[..|indexes| - 1];
      assert forall k :: 0 <= k < |init| ==> init[k] == indexes[k];
      UniqueIndexesSkipped(init);
    }
  }

  /**
   * The constraint stage schedules one constraint per record, in order, with
   * the label and property its description names; it stops at the first
   * description it cannot read, keeping the constraints already scheduled.
   */
  lemma ConstraintImportFaithful(constraints: seq<ConstraintRecord>)
    ensures var run := Drain(constraints, ConstraintStep);
      && |run.events| <= |constraints|
      && (forall k :: 0 <= k < |run.events| ==>
            && run.events[k].DeferredConstraintCreated?
            && ParseConstraintDescription(constraints[k].description)
                 == Ok(LabelProperty(run.events[k].labelName, run.events[k].propertyKey)))
      && (run.failure.None? <==>
            forall k :: 0 <= k < |constraints| ==> ParseConstraintDescription(constraints[k].description).Ok?)
      && (run.failure.None? ==> |run.events| == |constraints|)
      && (run.failure.Some? ==>
            && ParseConstraintDescription(constraints[|run.events|].description).Err?
            && run.failure == Some(ConstraintDescriptionError(constraints[|run.events|].description)))
  {
    DrainEmitting(constraints, ConstraintStep);
    DrainSucceeds(constraints, ConstraintStep);
  }

  // ---------------------------------------------------------------------
  // The whole migration
  // ---------------------------------------------------------------------

  /** Runs `next` after `first` unless `first` raised an error. */
  function Then(first: Run, next: Run): Run {
    if first.failure.Some? then first else Run(first.events + next.events, next.failure)
  }

  /** The requests of the four stages, in the order the migration runs them. */
  function Migration(nodes: seq<NodeRecord>, rels: seq<RelationshipRecord>,
                     indexes: seq<IndexRecord>, constraints: seq<ConstraintRecord>): (r: Run)
    ensures r.failure.None? <==>
      && Drain(nodes, NodeStep).failure.None? && Drain(rels, RelationshipStep).failure.None?
      && Drain(indexes, IndexStep).failure.None? && Drain(constraints, ConstraintStep).failure.None?
    ensures r.failure.Some? ==>
      r.failure in {Drain(nodes, NodeStep).failure, Drain(rels, RelationshipStep).failure,
                    Drain(indexes, IndexStep).failure, Drain(constraints, ConstraintStep).failure}
  {
    Then(Then(Then(Drain(nodes, NodeStep), Drain(rels, RelationshipStep)),
              Drain(indexes, IndexStep)),
         Drain(constraints, ConstraintStep))
  }

  /** Every request in `events` belongs to the stage `rank`. */
  ghost predicate RanksAre(events: seq<Event>, rank: nat) {
    forall e :: e in events ==> Rank(e) == rank
  }

  lemma NodeStepRank()
    ensures EmitsOnly(NodeStep, 0)
  {
  }

  lemma RelationshipStepRank()
    ensures EmitsOnly(RelationshipStep, 1)
  {
  }

  lemma IndexStepRank()
    ensures EmitsOnly(IndexStep, 2)
  {
  }

  lemma ConstraintStepRank()
    ensures EmitsOnly(ConstraintStep, 3)
  {
  }

  /** Each stage makes only requests of its own kind. */
  lemma StageRanks(nodes: seq<NodeRecord>, rels: seq<RelationshipRecord>,
                   indexes: seq<IndexRecord>, constraints: seq<ConstraintRecord>)
    ensures RanksAre(Drain(nodes, NodeStep).events, 0)
    ensures RanksAre(Drain(rels, RelationshipStep).events, 1)
    ensures RanksAre(Drain(indexes, IndexStep).events, 2)
    ensures RanksAre(Drain(constraints, ConstraintStep).events, 3)
  {
    NodeStepRank();
    DrainRank(nodes, NodeStep, 0);
    RelationshipStepRank();
    DrainRank(rels, RelationshipStep, 1);
    IndexStepRank();
    DrainRank(indexes, IndexStep, 2);
    ConstraintStepRank();
    DrainRank(constraints, ConstraintStep, 3);
  }

  lemma ThenOrdered(first: Run, next: Run, rank: nat)
    requires StageOrdered(first.events)
    requires forall e :: e in first.events ==> Rank(e) < rank
    requires RanksAre(next.events, rank)
    ensures StageOrdered(Then(first, next).events)
    ensures forall e :: e in Then(first, next).events ==> Rank(e) <= rank
  {
    if first.failure.None? {
      var log := first.events + next.events;
      forall i, j | 0 <= i < j < |log| ensures Rank(log[i]) <= Rank(log[j]) {
        if j < |first.events| {
        } else if i < |first.events| {
          assert log[i] in first.events;
          assert log[j] == next.events[j - |first.events|];
        } else {
          assert log[i] == next.events[i - |first.events|];
          assert log[j] == next.events[j - |first.events|];
        }
      }
    }
  }

  /** Four stages run one after the other and followed by a shutdown write their requests stage by stage. */
  lemma FourStagesOrdered(a: Run, b: Run, c: Run, d: Run)
    requires RanksAre(a.events, 0) && RanksAre(b.events, 1)
    requires RanksAre(c.events, 2) && RanksAre(d.events, 3)
    ensures var log := Then(Then(Then(a, b), c), d).events + [ShutDown];
      && StageOrdered(log)
      && log[|log| - 1] == ShutDown
      && forall k :: 0 <= k < |log| - 1 ==> log[k] != ShutDown
  {
    ThenOrdered(a, b, 1);
    ThenOrdered(Then(a, b), c, 2);
    ThenOrdered(Then(Then(a, b), c), d, 3);
    var events := Then(Then(Then(a, b), c), d).events;
    var log := events + [ShutDown];
    forall k | 0 <= k < |log| - 1 ensures Rank(log[k]) <= 3 {
      assert log[k] in events;
    }
  }

  /**
   * Nodes come before relationships, relationships before indexes and
   * indexes before constraints, and the shutdown is the last request and
   * the only one, whether the migration succeeds or not.
   */
  lemma MigrationStageOrdered(nodes: seq<NodeRecord>, rels: seq<RelationshipRecord>,
                              indexes: seq<IndexRecord>, constraints: seq<ConstraintRecord>)
    ensures var log := Migration(nodes, rels, indexes, constraints).events + [ShutDown];
      && StageOrdered(log)
      && log[|log| - 1] == ShutDown
      && forall k :: 0 <= k < |log| - 1 ==> log[k] != ShutDown
  {
    StageRanks(nodes, rels, indexes, constraints);
    FourStagesOrdered(Drain(nodes, NodeStep), Drain(rels, RelationshipStep),
                      Drain(indexes, IndexStep), Drain(constraints, ConstraintStep));
  }

  /** The migration succeeds exactly when every stage does; a failing stage stops the later ones. */
  lemma MigrationOutcome(nodes: seq<NodeRecord>, rels: seq<RelationshipRecord>,
                         indexes: seq<IndexRecord>, constraints: seq<ConstraintRecord>)
    ensures var m := Migration(nodes, rels, indexes, constraints);
      && (m.failure.None? <==>
            && (forall k :: 0 <= k < |nodes| ==> NodeStep(nodes[k]).Ok?)
            && (forall k :: 0 <= k < |rels| ==> RelationshipStep(rels[k]).Ok?)
            && (forall k :: 0 <= k < |indexes| ==> IndexStep(indexes[k]).Ok?)
            && (forall k :: 0 <= k < |constraints| ==> ConstraintStep(constraints[k]).Ok?))
      && (Drain(nodes, NodeStep).failure.Some? ==> m == Drain(nodes, NodeStep))
      && (m.failure.None? ==>
            m.events == Drain(nodes, NodeStep).events + Drain(rels, RelationshipStep).events
                        + Drain(indexes, IndexStep).events + Drain(constraints, ConstraintStep).events)
  {
    DrainSucceeds(nodes, NodeStep);
    DrainSucceeds(rels, RelationshipStep);
    DrainSucceeds(indexes, IndexStep);
    DrainSucceeds(constraints, ConstraintStep);
  }

  /** After a successful first stage, the log holds its requests, then the second stage's, then requests of later stages only. */
  lemma FourStagesPrefix(a: Run, b: Run, c: Run, d: Run)
    requires a.failure.None?
    requires RanksAre(c.events, 2) && RanksAre(d.events, 3)
    ensures var log := Then(Then(Then(a, b), c), d).events;
      && |a.events| + |b.events| <= |log|
      && (forall k :: 0 <= k < |a.events| ==> log[k] == a.events[k])
      && (forall k :: 0 <= k < |b.events| ==> log[|a.events| + k] == b.events[k])
      && (forall j :: |a.events| + |b.events| <= j < |log| ==> Rank(log[j]) >= 2)
  {
    var ab := Then(a, b);
    var abc := Then(ab, c);
    var log := Then(abc, d).events;
    var tail := if ab.failure.Some? then []
                else if abc.failure.Some? then c.events
                else c.events + d.events;
    assert log == a.events + b.events + tail;
    forall j | |a.events| + |b.events| <= j < |log| ensures Rank(log[j]) >= 2 {
      assert log[j] in tail;
    }
  }

  /** The ids of the nodes in the origin database. */
  ghost function NodeIds(nodes: seq<NodeRecord>): set<int64> {
    set n | n in nodes :: n.id
  }

  /** `events` holds a node creation for every id in `ids`. */
  ghost predicate CreatesAll(events: seq<Event>, ids: set<int64>) {
    forall id :: id in ids ==> exists i :: 0 <= i < |events| && events[i].NodeCreated? && events[i].id == id
  }

  /** Every relationship in `events` joins ids in `ids`. */
  ghost predicate JoinsOnly(events: seq<Event>, ids: set<int64>) {
    forall k :: 0 <= k < |events| && events[k].RelationshipCreated? ==>
      events[k].startId in ids && events[k].endId in ids
  }

  /** A node stage that succeeds creates every node of the origin database. */
  lemma NodeStageCreatesAll(nodes: seq<NodeRecord>)
    requires Drain(nodes, NodeStep).failure.None?
    ensures CreatesAll(Drain(nodes, NodeStep).events, NodeIds(nodes))
  {
    var events := Drain(nodes, NodeStep).events;
    NodeImportFaithful(nodes);
    forall id | id in NodeIds(nodes)
      ensures exists i :: 0 <= i < |events| && events[i].NodeCreated? && events[i].id == id
    {
      var n :| n in nodes && n.id == id;
      var i :| 0 <= i < |nodes| && nodes[i] == n;
      assert events[i].id == id;
    }
  }

  /** The relationship stage only writes relationships between endpoints of the origin's relationships. */
  lemma RelationshipStageJoins(rels: seq<RelationshipRecord>, ids: set<int64>)
    requires forall k :: 0 <= k < |rels| ==> rels[k].startId in ids && rels[k].endId in ids
    ensures JoinsOnly(Drain(rels, RelationshipStep).events, ids)
  {
    RelationshipImportFaithful(rels);
  }

  /** Four stages where the first creates every node a relationship of the second joins. */
  lemma EndpointsPrecede(a: Run, b: Run, c: Run, d: Run, ids: set<int64>)
    requires RanksAre(a.events, 0) && RanksAre(b.events, 1)
    requires RanksAre(c.events, 2) && RanksAre(d.events, 3)
    requires a.failure.None? ==> CreatesAll(a.events, ids)
    requires JoinsOnly(b.events, ids)
    ensures var log := Then(Then(Then(a, b), c), d).events;
      forall j :: 0 <= j < |log| && log[j].RelationshipCreated? ==>
        && (exists i :: 0 <= i < j && log[i].NodeCreated? && log[i].id == log[j].startId)
        && (exists i :: 0 <= i < j && log[i].NodeCreated? && log[i].id == log[j].endId)
  {
    var log := Then(Then(Then(a, b), c), d).events;
    ThenPaths(a, b, c, d);
    if a.failure.Some? {
      forall j | 0 <= j < |log| ensures Rank(log[j]) == 0 {
        assert log[j] in a.events;
      }
    } else {
      FourStagesPrefix(a, b, c, d);
      forall j | 0 <= j < |log| && log[j].RelationshipCreated?
        ensures exists i :: 0 <= i < j && log[i].NodeCreated? && log[i].id == log[j].startId
        ensures exists i :: 0 <= i < j && log[i].NodeCreated? && log[i].id == log[j].endId
      {
        assert Rank(log[j]) == 1;
        var m := j - |a.events|;
        assert log[j] == b.events[m];
        var s :| 0 <= s < |a.events| && a.events[s].NodeCreated? && a.events[s].id == log[j].startId;
        assert log[s] == a.events[s];
        var e :| 0 <= e < |a.events| && a.events[e].NodeCreated? && a.events[e].id == log[j].endId;
        assert log[e] == a.events[e];
      }
    }
  }

  /**
   * When every relationship joins nodes of the origin database, each
   * relationship the migration creates is preceded by the creation of both
   * its endpoints: the node stage has completed before the first
   * relationship is written.
   */
  lemma RelationshipsFollowTheirNodes(nodes: seq<NodeRecord>, rels: seq<RelationshipRecord>,
                                      indexes: seq<IndexRecord>, constraints: seq<ConstraintRecord>)
    requires forall k :: 0 <= k < |rels| ==> rels[k].startId in NodeIds(nodes) && rels[k].endId in NodeIds(nodes)
    ensures var log := Migration(nodes, rels, indexes, constraints).events;
      forall j :: 0 <= j < |log| && log[j].RelationshipCreated? ==>
        && (exists i :: 0 <= i < j && log[i].NodeCreated? && log[i].id == log[j].startId)
        && (exists i :: 0 <= i < j && log[i].NodeCreated? && log[i].id == log[j].endId)
  {
    StageRanks(nodes, rels, indexes, constraints);
    if Drain(nodes, NodeStep).failure.None? {
      NodeStageCreatesAll(nodes);
    }
    RelationshipStageJoins(rels, NodeIds(nodes));
    EndpointsPrecede(Drain(nodes, NodeStep), Drain(rels, RelationshipStep),
                     Drain(indexes, IndexStep), Drain(constraints, ConstraintStep), NodeIds(nodes));
  }

  // ---------------------------------------------------------------------
  // The import methods
  // ---------------------------------------------------------------------

  /** Reads every node of the origin database and creates it in the store. */
  method ImportNodes(inserter: Inserter, nodes: seq<NodeRecord>) returns (failure: Option<MigrationError>)
    modifies inserter
    ensures inserter.log == old(inserter.log) + Drain(nodes, NodeStep).events
    ensures failure == Drain(nodes, NodeStep).failure
  {
    var i := 0;
    while i < |nodes|
      invariant 0 <= i <= |nodes|
      invariant Drain(nodes[..i], NodeStep).failure.None?
      invariant inserter.log == old(inserter.log) + Drain(nodes[..i], NodeStep).events
    {
      var node := nodes[i];
      var properties := CoerceProperties(node.properties);
      DrainSnoc(nodes, NodeStep, i);
      if properties.Err? {
        DrainSticky(nodes, NodeStep, i + 1);
        return Some(PropertyError(properties.error));
      }
      inserter.CreateNode(node.id, properties.value, node.labels);
      i := i + 1;
    }
    assert nodes[..i] == nodes;
    return None;
  }

  /** Reads every relationship of the origin database and creates it in the store. */
  method ImportRelationships(inserter: Inserter, rels: seq<RelationshipRecord>) returns (failure: Option<MigrationError>)
    modifies inserter
    ensures inserter.log == old(inserter.log) + Drain(rels, RelationshipStep).events
    ensures failure == Drain(rels, RelationshipStep).failure
  {
    var i := 0;
    while i < |rels|
      invariant 0 <= i <= |rels|
      invariant Drain(rels[..i], RelationshipStep).failure.None?
      invariant inserter.log == old(inserter.log) + Drain(rels[..i], RelationshipStep).events
    {
      var rel := rels[i];
      var properties := CoerceProperties(rel.properties);
      DrainSnoc(rels, RelationshipStep, i);
      if properties.Err? {
        DrainSticky(rels, RelationshipStep, i + 1);
        return Some(PropertyError(properties.error));
      }
      inserter.CreateRelationship(rel.startId, rel.endId, rel.relType, properties.value);
      i := i + 1;
    }
    assert rels[..i] == rels;
    return None;
  }

  /** Reads the origin database's index listing and schedules its label-property indexes. */
  method ImportIndexes(inserter: Inserter, indexes: seq<IndexRecord>) returns (failure: Option<MigrationError>)
    modifies inserter
    ensures inserter.log == old(inserter.log) + Drain(indexes, IndexStep).events
    ensures failure == Drain(indexes, IndexStep).failure
  {
    var i := 0;
    while i < |indexes|
      invariant 0 <= i <= |indexes|
      invariant Drain(indexes[..i], IndexStep).failure.None?
      invariant inserter.log == old(inserter.log) + Drain(indexes[..i], IndexStep).events
    {
      var index := indexes[i];
      DrainSnoc(indexes, IndexStep, i);
      if index.indexType == LabelPropertyIndexType {
        var parsed := ParseIndexDescription(index.description);
        if parsed.Err? {
          DrainSticky(indexes, IndexStep, i + 1);
          return Some(IndexDescriptionError(index.description));
        }
        inserter.CreateDeferredIndex(parsed.value.labelName, parsed.value.propertyKey);
      } else if index.indexType == UniquePropertyIndexType {
        // Brought back by the constraint stage.
      }
      i := i + 1;
    }
    assert indexes[..i] == indexes;
    return None;
  }

  /** Reads the origin database's constraint listing and schedules every uniqueness constraint. */
  method ImportConstraints(inserter: Inserter, constraints: seq<ConstraintRecord>) returns (failure: Option<MigrationError>)
    modifies inserter
    ensures inserter.log == old(inserter.log) + Drain(constraints, ConstraintStep).events
    ensures failure == Drain(constraints, ConstraintStep).failure
  {
    var i := 0;
    while i < |constraints|
      invariant 0 <= i <= |constraints|
      invariant Drain(constraints[..i], ConstraintStep).failure.None?
      invariant inserter.log == old(inserter.log) + Drain(constraints[..i], ConstraintStep).events
    {
      var description := constraints[i].description;
      var parsed := ParseConstraintDescription(description);
      DrainSnoc(constraints, ConstraintStep, i);
      if parsed.Err? {
        DrainSticky(constraints, ConstraintStep, i + 1);
        return Some(ConstraintDescriptionError(description));
      }
      inserter.CreateDeferredConstraint(parsed.value.labelName, parsed.value.propertyKey);
      i := i + 1;
    }
    assert constraints[..i] == constraints;
    return None;
  }

  /** How four stages run one after the other combine, depending on which stage fails first. */
  lemma ThenPaths(a: Run, b: Run, c: Run, d: Run)
    ensures var m := Then(Then(Then(a, b), c), d);
      && (a.failure.Some? ==> m == a)
      && (a.failure.None? && b.failure.Some? ==> m == Run(a.events + b.events, b.failure))
      && (a.failure.None? && b.failure.None? && c.failure.Some? ==>
            m == Run(a.events + b.events + c.events, c.failure))
      && (a.failure.None? && b.failure.None? && c.failure.None? ==>
            m == Run(a.events + b.events + c.events + d.events, d.failure))
  {
  }

  /** Regrouping a log; a separate step keeps `ImportAll`'s proof from searching for it. */
  lemma AppendAssociates(x: seq<Event>, y: seq<Event>, z: seq<Event>)
    ensures x + (y + z) == x + y + z
  {
  }

  /** Runs the four stages in order on an open inserter until one raises an error. */
  method ImportAll(inserter: Inserter, nodes: seq<NodeRecord>, rels: seq<RelationshipRecord>,
                   indexes: seq<IndexRecord>, constraints: seq<ConstraintRecord>)
    returns (failure: Option<MigrationError>)
    modifies inserter
    ensures inserter.log == old(inserter.log) + Migration(nodes, rels, indexes, constraints).events
    ensures failure == Migration(nodes, rels, indexes, constraints).failure
  {
    ghost var a, b := Drain(nodes, NodeStep), Drain(rels, RelationshipStep);
    ghost var c, d := Drain(indexes, IndexStep), Drain(constraints, ConstraintStep);
    ghost var log0 := inserter.log;
    ThenPaths(a, b, c, d);
    failure := ImportNodes(inserter, nodes);
    if failure.Some? {
      return;
    }
    failure := ImportRelationships(inserter, rels);
    AppendAssociates(log0, a.events, b.events);
    if failure.Some? {
      return;
    }
    failure := ImportIndexes(inserter, indexes);
    AppendAssociates(log0, a.events + b.events, c.events);
    if failure.Some? {
      return;
    }
    failure := ImportConstraints(inserter, constraints);
    AppendAssociates(log0, a.events + b.events + c.events, d.events);
  }

  /**
   * Opens an inserter on an empty store, runs the four stages in order until
   * one raises an error, and shuts the inserter down whatever happened.
   */
  method RunMigration(nodes: seq<NodeRecord>, rels: seq<RelationshipRecord>,
                      indexes: seq<IndexRecord>, constraints: seq<ConstraintRecord>)
    returns (inserter: Inserter, failure: Option<MigrationError>)
    ensures fresh(inserter)
    ensures inserter.log == Migration(nodes, rels, indexes, constraints).events + [ShutDown]
    ensures failure == Migration(nodes, rels, indexes, constraints).failure
  {
    inserter := new Inserter();
    ghost var events := Migration(nodes, rels, indexes, constraints).events;
    failure := ImportAll(inserter, nodes, rels, indexes, constraints);
    assert [] + events == events;
    inserter.Shutdown();
  }
}

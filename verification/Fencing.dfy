/**
 The fencing projections (src/fencing/projections.ts) and the coordinator's use of them
 (`batchFor` and `validReadback` in src/commands/recovery.ts).

 One aggregate run is spread over a root row and one child row per unit. A commitment is SHA-256 over
 domain-separated canonical JSON; it is modelled as the constructor of its domain applied to the
 committed value, so commitments are equal exactly when domain and value are.
 */
module Fencing {
  import opened Wrappers
  import opened Collections
  import opened Text

  const MAX_ROWS := 64
  const MAX_SAFE_INTEGER := 9007199254740991

  datatype Scope = Scope(store: Text, repository: Text, branch: Text)

  /** `body` stands for the canonical text of the fields the fencing layer never looks into. */
  datatype Unit = Unit(id: Text, revision: nat, body: Text)

  datatype Run = Run(revision: nat, holder: Text, scope: Scope, units: map<Text, Unit>, body: Text)

  datatype Commitment =
    | OfRun(run: Run)
    | OfUnit(unit: Unit)
    | OfChangedRows(rows: seq<ChangedRow>)

  datatype ChildRow = ChildRow(unitId: Text, commitment: Commitment, revision: nat)

  datatype Checkpoint = Checkpoint(aggregateRevision: nat, changedRows: Commitment, root: Commitment)

  datatype Root = Root(
    run: Run,
    aggregateCommitment: Commitment,
    aggregateRevision: nat,
    checkpoint: Checkpoint,
    childRows: seq<ChildRow>,
    holder: Text,
    scope: Scope)

  datatype Child = Child(unitId: Text, unit: Unit, commitment: Commitment, revision: nat, holder: Text, scope: Scope)

  datatype ChangedRow = ChangedRow(
    unitId: Text,
    expectedCommitment: Commitment,
    expectedRevision: nat,
    nextCommitment: Commitment,
    nextRevision: nat)

  datatype ExpectedRow = ExpectedRow(unitId: Text, commitment: Commitment, revision: nat)

  datatype Batch = Batch(
    changedRows: seq<ChangedRow>,
    checkpoint: Checkpoint,
    expectedAggregateCommitment: Commitment,
    expectedAggregateRevision: nat,
    expectedChildren: seq<ExpectedRow>,
    expectedHolder: Text,
    holder: Text,
    nextChildren: seq<Child>,
    nextRoot: Root,
    retired: seq<ExpectedRow>,
    scope: Scope)

  datatype Readback = Readback(root: Root, children: seq<Child>)

  /** What the schema and the reducer's invariants ask of a run, as far as fencing depends on it. */
  predicate RunOk(run: Run) {
    && run.revision <= MAX_SAFE_INTEGER
    && |run.units| <= MAX_ROWS
    && forall id :: id in run.units ==> run.units[id].id == id && run.units[id].revision <= MAX_SAFE_INTEGER
  }

  function ChildRows(run: Run): (rows: seq<ChildRow>)
    ensures |rows| == |run.units|
    ensures forall i :: 0 <= i < |rows| ==>
              && rows[i].unitId == Listing(run.units.Keys)[i] && rows[i].unitId in run.units
              && rows[i] == ChildRow(rows[i].unitId, OfUnit(run.units[rows[i].unitId]), run.units[rows[i].unitId].revision)
  {
    var ids := Listing(run.units.Keys);
    seq(|ids|, i requires 0 <= i < |ids| => ChildRow(ids[i], OfUnit(run.units[ids[i]]), run.units[ids[i]].revision))
  }

  function MakeRoot(run: Run): Root {
    Root(run, OfRun(run), run.revision, Checkpoint(run.revision, OfChangedRows([]), OfRun(run)), ChildRows(run), run.holder, run.scope)
  }

  function WithBatchCheckpoint(root: Root, rows: seq<ChangedRow>): Root {
    root.(checkpoint := Checkpoint(root.aggregateRevision, OfChangedRows(rows), root.aggregateCommitment))
  }

  function MakeChild(root: Root, unitId: Text): Option<Child> {
    if unitId !in root.run.units then None
    else
      var unit := root.run.units[unitId];
      Some(Child(unitId, unit, OfUnit(unit), unit.revision, root.holder, root.scope))
  }

  predicate ValidRoot(root: Root) {
    && RunOk(root.run)
    && root.scope == root.run.scope
    && root.holder == root.run.holder
    && root.aggregateRevision == root.run.revision
    && root.aggregateCommitment == OfRun(root.run)
    && root.childRows == ChildRows(root.run)
    && root.checkpoint.aggregateRevision == root.aggregateRevision
    && root.checkpoint.root == root.aggregateCommitment
  }

  predicate ValidChild(child: Child) {
    && child.unit.id == child.unitId
    && child.unit.revision == child.revision
    && child.commitment == OfUnit(child.unit)
  }

  // ---------------------------------------------------------------- batches

  function FindRow(rows: seq<ChildRow>, unitId: Text): (row: Option<ChildRow>)
    ensures row.Some? ==> row.value in rows && row.value.unitId == unitId
    ensures row.None? ==> forall r :: r in rows ==> r.unitId != unitId
  {
    if rows == [] then None
    else if rows[0].unitId == unitId then Some(rows[0])
    else FindRow(rows[1..], unitId)
  }

  /** The rows of retired units, in the order of the root's child rows. */
  function RetiredRows(rows: seq<ChildRow>, next: Run): (out: seq<ExpectedRow>)
    ensures forall e :: e in out <==> e.unitId !in next.units && ChildRow(e.unitId, e.commitment, e.revision) in rows
  {
    if rows == [] then []
    else
      assert rows == [rows[0]] + rows[1..];
      var rest := RetiredRows(rows[1..], next);
      if rows[0].unitId in next.units then rest
      else [ExpectedRow(rows[0].unitId, rows[0].commitment, rows[0].revision)] + rest
  }

  function ChangedIds(before: Run, next: Run): set<Text> {
    set id | id in next.units && !(id in before.units && before.units[id] == next.units[id])
  }

  function ChangedRowFor(before: Root, next: Root, unitId: Text): Option<ChangedRow> {
    var prior, child := FindRow(before.childRows, unitId), MakeChild(next, unitId);
    if prior.None? || child.None? then None
    else Some(ChangedRow(unitId, prior.value.commitment, prior.value.revision, child.value.commitment, child.value.revision))
  }

  function ChangedRowsFor(before: Root, next: Root, ids: seq<Text>): (rows: Option<seq<ChangedRow>>)
    ensures rows.Some? <==> forall id :: id in ids ==> ChangedRowFor(before, next, id).Some?
    ensures rows.Some? ==> |rows.value| == |ids|
    ensures rows.Some? ==> forall i :: 0 <= i < |ids| ==> Some(rows.value[i]) == ChangedRowFor(before, next, ids[i])
  {
    if ids == [] then Some([])
    else
      assert ids == [ids[0]] + ids[1..];
      var head, rest := ChangedRowFor(before, next, ids[0]), ChangedRowsFor(before, next, ids[1..]);
      if head.Some? && rest.Some? then Some([head.value] + rest.value) else None
  }

  function BatchFor(before: Root, nextRun: Run): Option<Batch> {
    var nextBase := MakeRoot(nextRun);
    var found := ChangedRowsFor(before, nextBase, Listing(ChangedIds(before.run, nextRun)));
    if found.None? then None
    else
      var rows := found.value;
      var next := WithBatchCheckpoint(nextBase, rows);
      Some(Batch(
        rows,
        Checkpoint(next.aggregateRevision, OfChangedRows(rows), next.aggregateCommitment),
        before.aggregateCommitment,
        before.aggregateRevision,
        seq(|rows|, i requires 0 <= i < |rows| => ExpectedRow(rows[i].unitId, rows[i].expectedCommitment, rows[i].expectedRevision)),
        before.holder,
        next.holder,
        seq(|rows|, i requires 0 <= i < |rows| =>
              assert ChangedRowFor(before, nextBase, rows[i].unitId).Some?;
              MakeChild(next, rows[i].unitId).value),
        next,
        RetiredRows(before.childRows, nextRun),
        next.scope))
  }

  /** validateMutationBatch for batches without continuation or release evidence. */
  predicate ValidBatch(b: Batch) {
    && |b.changedRows| <= MAX_ROWS && |b.retired| <= MAX_ROWS
    && ValidRoot(b.nextRoot)
    && b.scope == b.nextRoot.scope && b.holder == b.nextRoot.holder
    && b.checkpoint == b.nextRoot.checkpoint
    && b.expectedHolder == b.holder
    && b.nextRoot.aggregateRevision == b.expectedAggregateRevision + 1
    && b.expectedAggregateCommitment != b.nextRoot.aggregateCommitment
    && (forall i, j :: 0 <= i < j < |b.changedRows| ==> Less(b.changedRows[i].unitId, b.changedRows[j].unitId))
    && |b.expectedChildren| == |b.changedRows| == |b.nextChildren|
    && (forall i :: 0 <= i < |b.changedRows| ==> ValidChangedRow(b, b.changedRows[i], b.expectedChildren[i], b.nextChildren[i]))
    && (forall i, j :: 0 <= i < j < |b.retired| ==> Less(b.retired[i].unitId, b.retired[j].unitId))
    && (forall r :: r in b.retired ==>
          && (forall c :: c in b.changedRows ==> c.unitId != r.unitId)
          && FindRow(b.nextRoot.childRows, r.unitId).None?)
    && b.checkpoint == Checkpoint(b.nextRoot.aggregateRevision, OfChangedRows(b.changedRows), b.nextRoot.aggregateCommitment)
  }

  predicate ValidChangedRow(b: Batch, row: ChangedRow, expected: ExpectedRow, child: Child) {
    var rootRow := FindRow(b.nextRoot.childRows, row.unitId);
    && expected.unitId == child.unitId == row.unitId
    && rootRow.Some?
    && ValidChild(child)
    && expected.revision == row.expectedRevision && expected.commitment == row.expectedCommitment
    && row.nextRevision == row.expectedRevision + 1
    && child.revision == row.nextRevision && child.commitment == row.nextCommitment
    && rootRow.value.revision == row.nextRevision && rootRow.value.commitment == row.nextCommitment
    && child.scope == b.scope && child.holder == b.holder
    && row.unitId in b.nextRoot.run.units && child.unit == b.nextRoot.run.units[row.unitId]
  }

  /** The contract the fencing layer demands of one reducer step. */
  predicate LegalStep(before: Run, next: Run) {
    && RunOk(next)
    && next.revision == before.revision + 1
    && next.holder == before.holder
    && (forall id :: id in ChangedIds(before, next) ==> id in before.units && next.units[id].revision == before.units[id].revision + 1)
  }

  lemma ChildRowFound(run: Run, id: Text)
    ensures FindRow(ChildRows(run), id) ==
            if id in run.units then Some(ChildRow(id, OfUnit(run.units[id]), run.units[id].revision)) else None
  {
    var rows, ids := ChildRows(run), Listing(run.units.Keys);
    if id in run.units {
      assert id in ids;
      var i :| 0 <= i < |ids| && ids[i] == id;
      assert rows[i] in rows && rows[i].unitId == id;
    }
  }

  lemma {:induction false} RetiredInOrder(rows: seq<ChildRow>, next: Run)
    requires forall i, j :: 0 <= i < j < |rows| ==> Less(rows[i].unitId, rows[j].unitId)
    ensures var out := RetiredRows(rows, next);
            && |out| <= |rows|
            && forall i, j :: 0 <= i < j < |out| ==> Less(out[i].unitId, out[j].unitId)
  {
    if rows != [] {
      RetiredInOrder(rows[1..], next);
      var rest, out := RetiredRows(rows[1..], next), RetiredRows(rows, next);
      forall i, j | 0 <= i < j < |out|
        ensures Less(out[i].unitId, out[j].unitId)
      {
        if i == 0 && rows[0].unitId !in next.units {
          assert out[j] == rest[j - 1] && rest[j - 1] in rest;
          var r := ChildRow(out[j].unitId, out[j].commitment, out[j].revision);
          assert r in rows[1..];
          var k :| 0 <= k < |rows| - 1 && rows[1..][k] == r;
          assert Less(rows[0].unitId, rows[k + 1].unitId);
        }
      }
    }
  }

  /** batchFor gives up exactly when a changed unit has no row to move from. */
  lemma BatchExists(before: Root, next: Run)
    requires ValidRoot(before)
    ensures BatchFor(before, next).Some? <==> ChangedIds(before.run, next) <= before.run.units.Keys
  {
    var ids := Listing(ChangedIds(before.run, next));
    forall id | id in ids
      ensures ChangedRowFor(before, MakeRoot(next), id).Some? <==> id in before.run.units
    {
      ChildRowFound(before.run, id);
    }
    if ChangedIds(before.run, next) <= before.run.units.Keys {
      assert forall id :: id in ids ==> ChangedRowFor(before, MakeRoot(next), id).Some?;
    }
  }

  /** The rows of a batch, unit by unit. */
  lemma BatchRows(before: Root, next: Run, i: nat)
    requires ValidRoot(before) && BatchFor(before, next).Some?
    requires i < |BatchFor(before, next).value.changedRows|
    ensures var b := BatchFor(before, next).value;
            var id := Listing(ChangedIds(before.run, next))[i];
            && |b.changedRows| == |Listing(ChangedIds(before.run, next))|
            && id in ChangedIds(before.run, next) && id in before.run.units
            && b.changedRows[i] == ChangedRow(id, OfUnit(before.run.units[id]), before.run.units[id].revision,
                                              OfUnit(next.units[id]), next.units[id].revision)
            && b.nextChildren[i] == Child(id, next.units[id], OfUnit(next.units[id]), next.units[id].revision, next.holder, next.scope)
            && b.expectedChildren[i] == ExpectedRow(id, OfUnit(before.run.units[id]), before.run.units[id].revision)
  {
    var id := Listing(ChangedIds(before.run, next))[i];
    assert id in Listing(ChangedIds(before.run, next));
    ChildRowFound(before.run, id);
  }

  lemma BatchRowValid(before: Root, next: Run, i: nat)
    requires ValidRoot(before) && BatchFor(before, next).Some? && RunOk(next)
    requires i < |BatchFor(before, next).value.changedRows|
    ensures var b := BatchFor(before, next).value;
            var id := b.changedRows[i].unitId;
            && id == Listing(ChangedIds(before.run, next))[i] && id in before.run.units && id in next.units
            && (ValidChangedRow(b, b.changedRows[i], b.expectedChildren[i], b.nextChildren[i]) <==>
                next.units[id].revision == before.run.units[id].revision + 1)
  {
    BatchRows(before, next, i);
    ChildRowFound(next, BatchFor(before, next).value.changedRows[i].unitId);
  }

  lemma BatchRowsInOrder(before: Root, next: Run)
    requires ValidRoot(before) && BatchFor(before, next).Some?
    ensures var rows := BatchFor(before, next).value.changedRows;
            && |rows| == |ChangedIds(before.run, next)|
            && forall i, j :: 0 <= i < j < |rows| ==> Less(rows[i].unitId, rows[j].unitId)
  {
    var rows := BatchFor(before, next).value.changedRows;
    forall i, j | 0 <= i < j < |rows|
      ensures Less(rows[i].unitId, rows[j].unitId)
    {
      BatchRows(before, next, i);
      BatchRows(before, next, j);
    }
  }

  lemma LegalStepIsAccepted(before: Root, next: Run)
    requires ValidRoot(before) && LegalStep(before.run, next)
    ensures BatchFor(before, next).Some? && ValidBatch(BatchFor(before, next).value)
  {
    BatchExists(before, next);
    var b := BatchFor(before, next).value;
    BatchRowsInOrder(before, next);
    RetiredInOrder(before.childRows, next);
    RetiredAreGone(before, next);
    ChangedFitTheLimit(before.run, next);
    forall i | 0 <= i < |b.changedRows|
      ensures ValidChangedRow(b, b.changedRows[i], b.expectedChildren[i], b.nextChildren[i])
    {
      BatchRowValid(before, next, i);
      assert Listing(ChangedIds(before.run, next))[i] in Listing(ChangedIds(before.run, next));
    }
  }

  lemma AcceptedStepIsLegal(before: Root, next: Run)
    requires ValidRoot(before) && BatchFor(before, next).Some? && ValidBatch(BatchFor(before, next).value)
    ensures LegalStep(before.run, next)
  {
    BatchExists(before, next);
    var b := BatchFor(before, next).value;
    var ids := Listing(ChangedIds(before.run, next));
    forall id | id in ChangedIds(before.run, next)
      ensures id in before.run.units && next.units[id].revision == before.run.units[id].revision + 1
    {
      assert id in ids;
      var i :| 0 <= i < |ids| && ids[i] == id;
      BatchRowsInOrder(before, next);
      BatchRowValid(before, next, i);
    }
  }

  /**
   For every loaded root and every next run, the batch the coordinator builds is accepted by the
   validator exactly when the step meets the reducer contract.
   */
  lemma BatchAcceptedExactlyForLegalSteps(before: Root, next: Run)
    requires ValidRoot(before)
    ensures (BatchFor(before, next).Some? && ValidBatch(BatchFor(before, next).value)) <==> LegalStep(before.run, next)
  {
    if LegalStep(before.run, next) {
      LegalStepIsAccepted(before, next);
    }
    if BatchFor(before, next).Some? && ValidBatch(BatchFor(before, next).value) {
      AcceptedStepIsLegal(before, next);
    }
  }

  lemma RetiredAreGone(before: Root, next: Run)
    requires ValidRoot(before) && BatchFor(before, next).Some?
    ensures var b := BatchFor(before, next).value;
            forall r :: r in b.retired ==>
              && (forall c :: c in b.changedRows ==> c.unitId != r.unitId)
              && FindRow(b.nextRoot.childRows, r.unitId).None?
  {
    var b := BatchFor(before, next).value;
    forall r | r in b.retired
      ensures forall c :: c in b.changedRows ==> c.unitId != r.unitId
      ensures FindRow(b.nextRoot.childRows, r.unitId).None?
    {
      ChildRowFound(next, r.unitId);
      forall c | c in b.changedRows
        ensures c.unitId != r.unitId
      {
        var i :| 0 <= i < |b.changedRows| && b.changedRows[i] == c;
        BatchRows(before, next, i);
      }
    }
  }

  lemma ChangedFitTheLimit(before: Run, next: Run)
    requires RunOk(next)
    ensures |ChangedIds(before, next)| <= MAX_ROWS
  {
    SubsetSize(ChangedIds(before, next), next.units.Keys);
  }

  // ---------------------------------------------------------------- what validation leaves open

  /** A valid root is its run's own, but for the rows its checkpoint speaks of. */
  lemma ValidRootIsExact(root: Root)
    ensures ValidRoot(root) <==>
            RunOk(root.run) && root == MakeRoot(root.run).(checkpoint := MakeRoot(root.run).checkpoint.(changedRows := root.checkpoint.changedRows))
  {
  }

  /** A valid child is its unit's own, but for the holder and scope it is kept under. */
  lemma ValidChildIsExact(child: Child)
    ensures ValidChild(child) <==> child == Child(child.unit.id, child.unit, OfUnit(child.unit), child.unit.revision, child.holder, child.scope)
  {
  }

  /** Numbers stay safe integers and a run within 64 units, so no step follows the last revision. */
  lemma NoStepPastTheLimits(before: Run, next: Run)
    requires LegalStep(before, next)
    ensures before.revision < 9007199254740991 && |next.units| <= 64
    ensures forall id :: id in ChangedIds(before, next) ==> id in before.units && before.units[id].revision < 9007199254740991
  {
  }

  function UnitsOf(rows: seq<ChangedRow>): (ids: seq<Text>)
    ensures |ids| == |rows| && forall i :: 0 <= i < |rows| ==> ids[i] == rows[i].unitId
  {
    seq(|rows|, i requires 0 <= i < |rows| => rows[i].unitId)
  }

  /** Exactly the units that differ have a row: one the step leaves alone is neither read nor written. */
  lemma OnlyDifferingUnitsHaveRows(before: Root, next: Run, id: Text)
    requires ValidRoot(before) && BatchFor(before, next).Some?
    ensures id in UnitsOf(BatchFor(before, next).value.changedRows) <==>
            id in next.units && id in before.run.units && before.run.units[id] != next.units[id]
  {
    BatchExists(before, next);
    var rows, ids := BatchFor(before, next).value.changedRows, Listing(ChangedIds(before.run, next));
    forall i | 0 <= i < |rows|
      ensures UnitsOf(rows)[i] == ids[i]
    {
      BatchRows(before, next, i);
    }
    BatchRowsInOrder(before, next);
    assert UnitsOf(rows) == ids;
  }

  /** A batch speaks of the loaded root: its commitment, its revision, its holder and the rows of the units that move or go. */
  ghost predicate SpeaksOf(before: Root, b: Batch) {
    && b.expectedAggregateCommitment == before.aggregateCommitment
    && b.expectedAggregateRevision == before.aggregateRevision && b.expectedHolder == before.holder
    && (forall id :: id in UnitsOf(b.changedRows) <==> id in ChangedIds(before.run, b.nextRoot.run))
    && (forall row :: row in b.changedRows ==>
          && row.unitId in before.run.units
          && row.expectedCommitment == OfUnit(before.run.units[row.unitId])
          && row.expectedRevision == before.run.units[row.unitId].revision)
    && b.retired == RetiredRows(before.childRows, b.nextRoot.run)
  }

  lemma ValidRowIsTheBuiltOne(before: Root, b: Batch, i: nat)
    requires ValidRoot(before) && ValidBatch(b) && SpeaksOf(before, b) && i < |b.changedRows|
    ensures var id := b.changedRows[i].unitId; var next := b.nextRoot.run;
            && id in next.units && id in before.run.units
            && b.changedRows[i] == ChangedRow(id, OfUnit(before.run.units[id]), before.run.units[id].revision, OfUnit(next.units[id]), next.units[id].revision)
            && b.nextChildren[i] == Child(id, next.units[id], OfUnit(next.units[id]), next.units[id].revision, next.holder, next.scope)
            && b.expectedChildren[i] == ExpectedRow(id, OfUnit(before.run.units[id]), before.run.units[id].revision)
  {
    assert b.changedRows[i] in b.changedRows;
    assert ValidChangedRow(b, b.changedRows[i], b.expectedChildren[i], b.nextChildren[i]);
    ChildRowFound(b.nextRoot.run, b.changedRows[i].unitId);
  }

  lemma ValidRowsAreInPlace(before: Root, b: Batch)
    requires ValidRoot(before) && ValidBatch(b) && SpeaksOf(before, b)
    ensures BatchFor(before, b.nextRoot.run).Some?
    ensures UnitsOf(b.changedRows) == Listing(ChangedIds(before.run, b.nextRoot.run))
  {
    forall id | id in ChangedIds(before.run, b.nextRoot.run)
      ensures id in before.run.units
    {
      assert id in UnitsOf(b.changedRows);
      var i :| 0 <= i < |b.changedRows| && UnitsOf(b.changedRows)[i] == id;
      assert b.changedRows[i] in b.changedRows;
    }
    BatchExists(before, b.nextRoot.run);
    AscendingIsUnique(UnitsOf(b.changedRows), Listing(ChangedIds(before.run, b.nextRoot.run)));
  }

  predicate SameAt(a: Batch, b: Batch, i: nat) {
    && i < |a.changedRows| == |a.nextChildren| == |a.expectedChildren|
    && |b.changedRows| == |b.nextChildren| == |b.expectedChildren| == |a.changedRows|
    && a.changedRows[i] == b.changedRows[i] && a.nextChildren[i] == b.nextChildren[i] && a.expectedChildren[i] == b.expectedChildren[i]
  }

  lemma SameRows(a: Batch, b: Batch)
    requires |a.changedRows| == |a.nextChildren| == |a.expectedChildren| == |b.changedRows| == |b.nextChildren| == |b.expectedChildren|
    requires forall i: nat :: i < |a.changedRows| ==> SameAt(a, b, i)
    ensures a.changedRows == b.changedRows && a.nextChildren == b.nextChildren && a.expectedChildren == b.expectedChildren
  {
    forall i: nat | i < |a.changedRows|
      ensures a.changedRows[i] == b.changedRows[i] && a.nextChildren[i] == b.nextChildren[i] && a.expectedChildren[i] == b.expectedChildren[i]
    {
      assert SameAt(a, b, i);
    }
  }

  lemma ValidRowIsBuilt(before: Root, b: Batch, i: nat)
    requires ValidRoot(before) && ValidBatch(b) && SpeaksOf(before, b) && i < |b.changedRows|
    requires BatchFor(before, b.nextRoot.run).Some? && UnitsOf(b.changedRows) == Listing(ChangedIds(before.run, b.nextRoot.run))
    ensures SameAt(b, BatchFor(before, b.nextRoot.run).value, i)
  {
    BatchRowsInOrder(before, b.nextRoot.run);
    ValidRowIsTheBuiltOne(before, b, i);
    BatchRows(before, b.nextRoot.run, i);
    assert UnitsOf(b.changedRows)[i] == b.changedRows[i].unitId;
  }

  /** The fields of the built batch that no row enters. */
  lemma BuiltFields(before: Root, next: Run)
    requires ValidRoot(before) && BatchFor(before, next).Some?
    ensures var built := BatchFor(before, next).value;
            && |built.changedRows| == |built.nextChildren| == |built.expectedChildren| == |ChangedIds(before.run, next)|
            && built.nextRoot == WithBatchCheckpoint(MakeRoot(next), built.changedRows)
            && built.checkpoint == built.nextRoot.checkpoint
            && built.expectedAggregateCommitment == before.aggregateCommitment && built.expectedAggregateRevision == before.aggregateRevision
            && built.expectedHolder == before.holder && built.holder == next.holder && built.scope == next.scope
            && built.retired == RetiredRows(before.childRows, next)
  {
    BatchRowsInOrder(before, next);
  }

  lemma ValidFields(before: Root, b: Batch)
    requires ValidBatch(b) && SpeaksOf(before, b)
    ensures b.nextRoot == WithBatchCheckpoint(MakeRoot(b.nextRoot.run), b.changedRows) && b.checkpoint == b.nextRoot.checkpoint
    ensures b.holder == b.nextRoot.run.holder && b.scope == b.nextRoot.run.scope
    ensures |b.changedRows| == |b.nextChildren| == |b.expectedChildren|
  {
    ValidRootIsExact(b.nextRoot);
  }

  /**
   Validation leaves nothing open: a batch that validates and speaks of a loaded root is, field by field, the
   batch the coordinator builds from that root.
   */
  lemma ValidBatchIsTheBuiltOne(before: Root, b: Batch)
    requires ValidRoot(before) && ValidBatch(b) && SpeaksOf(before, b)
    ensures BatchFor(before, b.nextRoot.run) == Some(b)
  {
    ValidRowsAreInPlace(before, b);
    var built := BatchFor(before, b.nextRoot.run).value;
    BuiltFields(before, b.nextRoot.run);
    ValidFields(before, b);
    assert |b.changedRows| == |UnitsOf(b.changedRows)| == |built.changedRows|;
    forall i: nat | i < |b.changedRows|
      ensures SameAt(b, built, i)
    {
      ValidRowIsBuilt(before, b, i);
    }
    SameRows(b, built);
  }

  // ---------------------------------------------------------------- readbacks

  predicate ChildMatches(root: Root, child: Child, row: ChildRow) {
    && child.unitId == row.unitId
    && ValidChild(child)
    && child.commitment == row.commitment && child.revision == row.revision
    && row.unitId in root.run.units && child.unit == root.run.units[row.unitId]
    && child.holder == root.holder && child.scope == root.scope
  }

  function FindChild(children: seq<Child>, unitId: Text): (child: Option<Child>)
    ensures child.Some? ==> child.value in children && child.value.unitId == unitId
    ensures child.None? ==> forall c :: c in children ==> c.unitId != unitId
  {
    if children == [] then None
    else if children[0].unitId == unitId then Some(children[0])
    else FindChild(children[1..], unitId)
  }

  /** validReadback; None is the source's undefined. */
  function ValidReadback(rb: Readback, scope: Scope): Option<Run> {
    if && ValidRoot(rb.root) && rb.root.scope == scope
       && |rb.children| == |rb.root.childRows|
       && forall row :: row in rb.root.childRows ==>
            var child := FindChild(rb.children, row.unitId);
            child.Some? && ChildMatches(rb.root, child.value, row)
    then Some(rb.root.run)
    else None
  }

  /** The one set of children a valid root admits, in the order of its child rows. */
  function ChildrenOf(root: Root): (children: seq<Child>)
    requires ValidRoot(root)
    ensures |children| == |root.childRows|
    ensures forall i :: 0 <= i < |children| ==> Some(children[i]) == MakeChild(root, root.childRows[i].unitId)
  {
    seq(|root.childRows|, i requires 0 <= i < |root.childRows| => MakeChild(root, root.childRows[i].unitId).value)
  }

  ghost predicate SameElements<T(!new)>(a: seq<T>, b: seq<T>) {
    |a| == |b| && forall x :: x in a <==> x in b
  }

  lemma MatchIsTheChild(root: Root, child: Child, row: ChildRow)
    requires ValidRoot(root) && row in root.childRows && child.unitId == row.unitId
    ensures ChildMatches(root, child, row) <==> Some(child) == MakeChild(root, row.unitId)
  {
  }

  lemma AcceptedChildrenAreTheRoots(rb: Readback, scope: Scope)
    requires ValidReadback(rb, scope).Some?
    ensures SameElements(rb.children, ChildrenOf(rb.root))
  {
    var rows, want := rb.root.childRows, ChildrenOf(rb.root);
    forall x | x in want
      ensures x in rb.children
    {
      var i :| 0 <= i < |want| && want[i] == x;
      assert rows[i] in rows;
      MatchIsTheChild(rb.root, FindChild(rb.children, rows[i].unitId).value, rows[i]);
    }
    DistinctUnits(want, rows, Listing(rb.root.run.units.Keys));
    CoverIsSame(want, rb.children);
  }

  lemma TheRootsChildrenAreAccepted(rb: Readback, row: ChildRow)
    requires ValidRoot(rb.root) && SameElements(rb.children, ChildrenOf(rb.root)) && row in rb.root.childRows
    ensures FindChild(rb.children, row.unitId).Some? && ChildMatches(rb.root, FindChild(rb.children, row.unitId).value, row)
  {
    var rows, want, ids := rb.root.childRows, ChildrenOf(rb.root), Listing(rb.root.run.units.Keys);
    var i :| 0 <= i < |rows| && rows[i] == row;
    assert want[i] in rb.children && want[i].unitId == row.unitId;
    var c := FindChild(rb.children, row.unitId).value;
    assert c in want;
    var j :| 0 <= j < |want| && want[j] == c;
    assert ids[i] == row.unitId == ids[j];
    if i < j { LessIsStrict(ids[i], ids[j]); } else if j < i { LessIsStrict(ids[j], ids[i]); }
    MatchIsTheChild(rb.root, c, row);
  }

  /**
   A readback is accepted exactly when its root is valid in scope and its children are, in any order,
   the ones the root itself determines; the run it yields is then the root's.
   */
  lemma ReadbackIsExact(rb: Readback, scope: Scope)
    ensures ValidReadback(rb, scope).Some? <==>
            ValidRoot(rb.root) && rb.root.scope == scope && SameElements(rb.children, ChildrenOf(rb.root))
  {
    if ValidReadback(rb, scope).Some? {
      AcceptedChildrenAreTheRoots(rb, scope);
    }
    if ValidRoot(rb.root) && SameElements(rb.children, ChildrenOf(rb.root)) {
      forall row | row in rb.root.childRows
        ensures FindChild(rb.children, row.unitId).Some? && ChildMatches(rb.root, FindChild(rb.children, row.unitId).value, row)
      {
        TheRootsChildrenAreAccepted(rb, row);
      }
    }
  }

  lemma DistinctUnits(want: seq<Child>, rows: seq<ChildRow>, ids: seq<Text>)
    requires |want| == |rows| == |ids| && Ascending(ids)
    requires forall i :: 0 <= i < |ids| ==> want[i].unitId == rows[i].unitId == ids[i]
    ensures forall i, j :: 0 <= i < j < |want| ==> want[i] != want[j]
  {
    forall i, j | 0 <= i < j < |want|
      ensures want[i] != want[j]
    {
      LessIsStrict(ids[i], ids[j]);
    }
  }

  /** As many places as distinct required elements leave no room for another one. */
  lemma {:induction false} CoverIsSame<T(!new)>(want: seq<T>, got: seq<T>)
    requires |want| == |got|
    requires forall i, j :: 0 <= i < j < |want| ==> want[i] != want[j]
    requires forall x :: x in want ==> x in got
    ensures forall x :: x in got ==> x in want
  {
    if want != [] {
      assert want[0] in want;
      var k :| 0 <= k < |got| && got[k] == want[0];
      var less := got[..k] + got[k + 1..];
      forall x | x in want[1..]
        ensures x in less
      {
        var i :| 0 <= i < |want| - 1 && want[1..][i] == x;
        assert want[i + 1] == x && want[0] != x && x in want;
        var j :| 0 <= j < |got| && got[j] == x;
        assert j != k;
        assert j < k ==> less[j] == x;
        assert j > k ==> less[j - 1] == x;
      }
      CoverIsSame(want[1..], less);
      forall x | x in got
        ensures x in want
      {
        var j :| 0 <= j < |got| && got[j] == x;
        assert j < k ==> less[j] == x;
        assert j > k ==> less[j - 1] == x;
        assert j == k ==> x == want[0];
        assert x in less ==> x in want[1..];
      }
    }
  }
}

/**
 Auditing a checkpoint (`matchesRowDelta`, `matchesProjectionRow` and `stepRows` in
 src/adapters/beads-embedded/dolt-projections.ts): the rows a commit is about to carry are exactly the
 rows one step writes, proved from the diff alone or from two readbacks without the lost batch.
 */
module RowDiff {
  import opened Wrappers
  import opened Collections
  import opened Text
  import opened Fencing
  import opened RowStore
  import opened RowReads

  /** One entry of data_diff; an inserted or deleted row lacks a side. */
  datatype RowChange = RowChange(from: Option<(Text, Row)>, to: Option<(Text, Row)>)

  datatype TableChange = TableChange(name: Text, rows: seq<RowChange>)

  const ISSUES: Text := [105, 115, 115, 117, 101, 115]

  predicate Digit(c: CodeUnit) {
    48 <= c <= 57
  }

  /** Four digits, two, two, and a time: the format the matcher demands of updated_at. */
  predicate Timestamp(t: Text) {
    && |t| == 19
    && t[4] == 45 && t[7] == 45 && t[10] == 32 && t[13] == 58 && t[16] == 58
    && forall i :: 0 <= i < 19 && i !in {4, 7, 10, 13, 16} ==> Digit(t[i])
  }

  /** The commitment a stored projection proves for itself. */
  function ProvenCommitment(projection: Projection): Option<Commitment> {
    match projection
    case RootProjection(root) => if ValidRoot(root) then Some(root.aggregateCommitment) else None
    case ChildProjection(child) => if ValidChild(child) then Some(child.commitment) else None
    case Unreadable(_, _) => None
  }

  /** matchesProjectionRow */
  predicate MatchesRow(from: Row, to: Row, w: WriteRow) {
    && from.columns == to.columns
    && Timestamp(from.updatedAt) && Timestamp(to.updatedAt)
    && from.metadata == to.metadata
    && from.sce.Sealed? && from.sce.envelope.commitment == w.expected
    && ProvenCommitment(from.sce.envelope.projection) == Some(w.expected)
    && to.sce == Sealed(w.next)
    && from.sce != to.sce
  }

  predicate MatchesChange(change: RowChange, rows: seq<WriteRow>) {
    && change.from.Some? && change.to.Some?
    && change.from.value.0 == change.to.value.0
    && var w := LastWrite(rows, change.from.value.0);
       w.Some? && MatchesRow(change.from.value.1, change.to.value.1, w.value)
  }

  /** new Map(rows.map(row => [row.issueId, row])).get(bead): a later row replaces an earlier one. */
  function LastWrite(rows: seq<WriteRow>, bead: Text): (w: Option<WriteRow>)
    ensures w.Some? ==> w.value in rows && w.value.bead == bead
    ensures w.None? ==> forall x :: x in rows ==> x.bead != bead
  {
    if rows == [] then None
    else if rows[|rows| - 1].bead == bead then Some(rows[|rows| - 1])
    else
      assert rows == rows[..|rows| - 1] + [rows[|rows| - 1]];
      LastWrite(rows[..|rows| - 1], bead)
  }

  /** The bead a change is about. */
  function ChangeBead(change: RowChange): Text {
    if change.from.Some? then change.from.value.0
    else if change.to.Some? then change.to.value.0 else []
  }

  function ChangeBeads(changes: seq<RowChange>): (beads: seq<Text>)
    ensures |beads| == |changes|
    ensures forall i :: 0 <= i < |changes| ==> beads[i] == ChangeBead(changes[i])
  {
    seq(|changes|, i requires 0 <= i < |changes| => ChangeBead(changes[i]))
  }

  predicate AllMatch(changes: seq<RowChange>, rows: seq<WriteRow>) {
    forall c :: c in changes ==> MatchesChange(c, rows)
  }

  /** What matchesRowDelta decides: as many changes as rows, each a different row's, no row twice. */
  predicate MatchesDelta(rows: seq<WriteRow>, diff: seq<TableChange>) {
    && |diff| == 1 && diff[0].name == ISSUES
    && |diff[0].rows| == |rows|
    && AllMatch(diff[0].rows, rows)
    && AllDistinct(ChangeBeads(diff[0].rows))
    && AllDistinct(Beads(rows))
  }

  lemma MatchedBead(change: RowChange, rows: seq<WriteRow>)
    requires MatchesChange(change, rows)
    ensures ChangeBead(change) in Beads(rows)
  {
    BeadsMembers(rows, ChangeBead(change));
  }

  predicate Scanned(changes: seq<RowChange>, rows: seq<WriteRow>, seen: set<Text>) {
    && AllMatch(changes, rows)
    && AllDistinct(ChangeBeads(changes))
    && seen == (set x | x in ChangeBeads(changes))
  }

  lemma OneMoreChange(changes: seq<RowChange>, change: RowChange, rows: seq<WriteRow>, seen: set<Text>)
    requires Scanned(changes, rows, seen) && MatchesChange(change, rows) && ChangeBead(change) !in seen
    ensures Scanned(changes + [change], rows, seen + {ChangeBead(change)})
  {
    assert ChangeBeads(changes + [change]) == ChangeBeads(changes) + [ChangeBead(change)];
    OneMoreDistinct(ChangeBeads(changes), ChangeBead(change));
  }

  lemma OneMoreDistinct(beads: seq<Text>, bead: Text)
    requires AllDistinct(beads) && bead !in beads
    ensures AllDistinct(beads + [bead])
    ensures (set x | x in beads + [bead]) == (set x | x in beads) + {bead}
  {
    assert forall i :: 0 <= i < |beads| ==> beads[i] in beads;
  }

  lemma RepeatIsNotApart(changes: seq<RowChange>, i: nat)
    requires i < |changes| && ChangeBead(changes[i]) in ChangeBeads(changes[..i])
    ensures !AllDistinct(ChangeBeads(changes))
  {
    var prior, all := ChangeBeads(changes[..i]), ChangeBeads(changes);
    var k :| 0 <= k < i && prior[k] == ChangeBead(changes[i]);
    assert all[k] == all[i];
  }

  /** matchesRowDelta as the source runs it, with its `seen` set. */
  method MatchesRowDelta(rows: seq<WriteRow>, diff: seq<TableChange>) returns (ok: bool)
    ensures ok <==> MatchesDelta(rows, diff)
  {
    if |diff| != 1 || diff[0].name != ISSUES || |diff[0].rows| != |rows| { return false; }
    var changes := diff[0].rows;
    var expected := set x | x in Beads(rows);
    var seen: set<Text> := {};
    for i := 0 to |changes|
      invariant Scanned(changes[..i], rows, seen)
    {
      var change := changes[i];
      if !MatchesChange(change, rows) { return false; }
      var bead := change.from.value.0;
      if bead in seen {
        RepeatIsNotApart(changes, i);
        return false;
      }
      OneMoreChange(changes[..i], change, rows, seen);
      assert changes[..i + 1] == changes[..i] + [change];
      seen := seen + {bead};
    }
    assert changes[..|changes|] == changes;
    SeenAll(rows, changes, seen);
    ok := |seen| == |expected|;
  }

  /** As many distinct expected beads as rows means that no two rows share one. */
  lemma SeenAll(rows: seq<WriteRow>, changes: seq<RowChange>, seen: set<Text>)
    requires Scanned(changes, rows, seen) && |changes| == |rows|
    ensures |seen| == |set x | x in Beads(rows)| && AllDistinct(Beads(rows))
  {
    var expected := set x | x in Beads(rows);
    DistinctSize(ChangeBeads(changes));
    MatchedBeads(changes, rows);
    SubsetSize(seen, expected);
    SizeBoundsDistinct(Beads(rows));
  }

  lemma MatchedBeads(changes: seq<RowChange>, rows: seq<WriteRow>)
    requires AllMatch(changes, rows)
    ensures forall x :: x in ChangeBeads(changes) ==> x in Beads(rows)
  {
    forall x | x in ChangeBeads(changes)
      ensures x in Beads(rows)
    {
      var i :| 0 <= i < |changes| && ChangeBeads(changes)[i] == x;
      MatchedBead(changes[i], rows);
    }
  }

  lemma {:induction false} SizeBoundsDistinct(beads: seq<Text>)
    ensures |set x | x in beads| <= |beads|
    ensures |set x | x in beads| == |beads| ==> AllDistinct(beads)
  {
    if beads != [] {
      var rest := beads[1..];
      SizeBoundsDistinct(rest);
      assert beads == [beads[0]] + rest;
      assert (set x | x in beads) == {beads[0]} + set x | x in rest;
      if |set x | x in beads| == |beads| {
        assert beads[0] !in rest;
        forall i, j | 0 <= i < j < |beads|
          ensures beads[i] != beads[j]
        {
          assert beads[j] == rest[j - 1];
          if i > 0 { assert beads[i] == rest[i - 1]; }
        }
      }
    }
  }

  // ---------------------------------------------------------------- what a real diff proves

  function Lookup(table: Table, bead: Text): Option<(Text, Row)> {
    if bead in table then Some((bead, table[bead])) else None
  }

  function Moved(was: Table, now: Table): set<Text> {
    set x | x in was.Keys + now.Keys && Lookup(was, x) != Lookup(now, x)
  }

  predicate IsChange(was: Table, now: Table, change: RowChange) {
    var bead := ChangeBead(change);
    bead in Moved(was, now) && change == RowChange(Lookup(was, bead), Lookup(now, bead))
  }

  /** `changes` is the diff between two states of the table: one entry for each row that differs. */
  predicate IsDiff(was: Table, now: Table, changes: seq<RowChange>) {
    && (forall c :: c in changes ==> IsChange(was, now, c))
    && (forall x :: x in Moved(was, now) ==> x in ChangeBeads(changes))
    && AllDistinct(ChangeBeads(changes))
  }

  /** The committed rows the step names move to what the step writes, and nothing else moves at all. */
  predicate OnlyTheseMoved(was: Table, now: Table, rows: seq<WriteRow>) {
    && AllDistinct(Beads(rows))
    && was.Keys == now.Keys
    && (forall w :: w in rows ==> w.bead in was && MatchesRow(was[w.bead], now[w.bead], w))
    && (forall x :: x in was && x !in Beads(rows) ==> was[x] == now[x])
  }

  lemma LastWriteFinds(rows: seq<WriteRow>, w: WriteRow)
    requires AllDistinct(Beads(rows)) && w in rows
    ensures LastWrite(rows, w.bead) == Some(w)
  {
    var i :| 0 <= i < |rows| && rows[i] == w;
    var j :| 0 <= j < |rows| && Some(rows[j]) == LastWrite(rows, w.bead);
    if i != j {
      assert Beads(rows)[if i < j then i else j] != Beads(rows)[if i < j then j else i];
    }
  }

  /** As many distinct changes as rows, each naming a row: every row is named. */
  lemma EveryRowIsNamed(changes: seq<RowChange>, rows: seq<WriteRow>)
    requires AllMatch(changes, rows) && |changes| == |rows| && AllDistinct(ChangeBeads(changes)) && AllDistinct(Beads(rows))
    ensures forall x :: x in Beads(rows) <==> x in ChangeBeads(changes)
  {
    var a, b := set x | x in ChangeBeads(changes), set x | x in Beads(rows);
    MatchedBeads(changes, rows);
    DistinctSize(ChangeBeads(changes));
    DistinctSize(Beads(rows));
    SubsetOfSameSize(a, b);
    forall x
      ensures x in Beads(rows) <==> x in ChangeBeads(changes)
    {
      assert x in Beads(rows) <==> x in b;
    }
  }

  lemma NamedRowMatches(was: Table, now: Table, rows: seq<WriteRow>, changes: seq<RowChange>, w: WriteRow)
    requires (forall c :: c in changes ==> IsChange(was, now, c)) && AllMatch(changes, rows)
    requires AllDistinct(Beads(rows)) && w in rows && w.bead in ChangeBeads(changes)
    ensures w.bead in was && w.bead in now && MatchesRow(was[w.bead], now[w.bead], w)
  {
    var i :| 0 <= i < |changes| && ChangeBeads(changes)[i] == w.bead;
    assert changes[i] in changes;
    LastWriteFinds(rows, w);
  }

  lemma UnnamedRowStays(was: Table, now: Table, rows: seq<WriteRow>, changes: seq<RowChange>, x: Text)
    requires IsDiff(was, now, changes) && AllMatch(changes, rows) && x !in Beads(rows)
    ensures Lookup(was, x) == Lookup(now, x)
  {
    MatchedBeads(changes, rows);
    assert x !in Moved(was, now);
  }

  lemma AcceptedOnlyMoves(was: Table, now: Table, rows: seq<WriteRow>, changes: seq<RowChange>)
    requires IsDiff(was, now, changes) && MatchesDelta(rows, [TableChange(ISSUES, changes)])
    ensures OnlyTheseMoved(was, now, rows)
  {
    EveryRowIsNamed(changes, rows);
    forall w | w in rows
      ensures w.bead in was && w.bead in now && MatchesRow(was[w.bead], now[w.bead], w)
    {
      BeadsMembers(rows, w.bead);
      NamedRowMatches(was, now, rows, changes, w);
    }
    forall x
      ensures x in was <==> x in now
      ensures x in was && x !in Beads(rows) ==> x in now && was[x] == now[x]
    {
      BeadsMembers(rows, x);
      if x !in Beads(rows) { UnnamedRowStays(was, now, rows, changes, x); }
    }
  }

  lemma MovedRowsAreNamed(was: Table, now: Table, rows: seq<WriteRow>, x: Text)
    requires OnlyTheseMoved(was, now, rows)
    ensures x in Moved(was, now) <==> x in Beads(rows)
  {
    BeadsMembers(rows, x);
    if x in Beads(rows) {
      var w :| w in rows && w.bead == x;
      assert MatchesRow(was[x], now[x], w);
    }
  }

  lemma RealChangeMatches(was: Table, now: Table, rows: seq<WriteRow>, change: RowChange)
    requires OnlyTheseMoved(was, now, rows) && IsChange(was, now, change)
    ensures MatchesChange(change, rows)
  {
    var x := ChangeBead(change);
    MovedRowsAreNamed(was, now, rows, x);
    BeadsMembers(rows, x);
    var w :| w in rows && w.bead == x;
    LastWriteFinds(rows, w);
  }

  lemma ChangesCountRows(was: Table, now: Table, rows: seq<WriteRow>, changes: seq<RowChange>)
    requires IsDiff(was, now, changes) && OnlyTheseMoved(was, now, rows)
    ensures |changes| == |rows|
  {
    forall x
      ensures x in ChangeBeads(changes) <==> x in Beads(rows)
    {
      MovedRowsAreNamed(was, now, rows, x);
      if x in ChangeBeads(changes) {
        var i :| 0 <= i < |changes| && ChangeBeads(changes)[i] == x;
        assert changes[i] in changes;
      }
    }
    DistinctSize(ChangeBeads(changes));
    DistinctSize(Beads(rows));
    assert (set x | x in ChangeBeads(changes)) == (set x | x in Beads(rows));
  }

  lemma OnlyMovesAreAccepted(was: Table, now: Table, rows: seq<WriteRow>, changes: seq<RowChange>)
    requires IsDiff(was, now, changes) && OnlyTheseMoved(was, now, rows)
    ensures MatchesDelta(rows, [TableChange(ISSUES, changes)])
  {
    forall c | c in changes
      ensures MatchesChange(c, rows)
    {
      RealChangeMatches(was, now, rows, c);
    }
    ChangesCountRows(was, now, rows, changes);
  }

  /**
   The matcher accepts the diff between a committed and a working table exactly when the named rows, and
   no others, moved from their expected commitments to what the step writes.
   */
  lemma AcceptedExactlyWhenOnlyTheseMoved(was: Table, now: Table, rows: seq<WriteRow>, changes: seq<RowChange>)
    requires IsDiff(was, now, changes)
    ensures MatchesDelta(rows, [TableChange(ISSUES, changes)]) <==> OnlyTheseMoved(was, now, rows)
  {
    if MatchesDelta(rows, [TableChange(ISSUES, changes)]) { AcceptedOnlyMoves(was, now, rows, changes); }
    if OnlyTheseMoved(was, now, rows) { OnlyMovesAreAccepted(was, now, rows, changes); }
  }

  /** A table with the timestamps of another. */
  function Timed(table: Table, clock: Table): Table {
    map x | x in table :: if x in clock then table[x].(updatedAt := clock[x].updatedAt) else table[x]
  }

  lemma NamedTermsHold(was: Table, now: Table, rows: seq<WriteRow>)
    requires OnlyTheseMoved(was, now, rows)
    ensures AllHold(was, RowTerms(rows)) && DistinctBeads(RowTerms(rows))
  {
    var terms := RowTerms(rows);
    forall t | t in terms
      ensures Met(was, t)
    {
      var i :| 0 <= i < |rows| && terms[i] == t;
      assert rows[i] in rows;
    }
    forall i, j | 0 <= i < j < |terms|
      ensures terms[i].bead != terms[j].bead
    {
      assert Beads(rows)[i] != Beads(rows)[j];
    }
  }

  /** An accepted delta turns the committed table into the one the UPDATE writes, up to updated_at. */
  lemma AcceptedDeltaIsTheUpdate(was: Table, now: Table, rows: seq<WriteRow>, changes: seq<RowChange>)
    requires IsDiff(was, now, changes) && MatchesDelta(rows, [TableChange(ISSUES, changes)])
    ensures AllHold(was, RowTerms(rows)) && DistinctBeads(RowTerms(rows))
    ensures now == Timed(Updated(was, rows, RowTerms(rows)), now)
  {
    AcceptedOnlyMoves(was, now, rows, changes);
    NamedTermsHold(was, now, rows);
    CountedUpdateIsAllOrNothing(was, rows, RowTerms(rows));
    forall x | x in was
      ensures now[x] == Timed(Written(was, rows), now)[x]
    {
      BeadsMembers(rows, x);
      if x in Beads(rows) {
        var w :| w in rows && w.bead == x;
        assert MatchesRow(was[x], now[x], FindWrite(rows, x).value);
      }
    }
  }

  /** The diff a landed step really leaves behind is accepted. */
  lemma LandedStepIsAccepted(m: Mapping, was: Table, now: Table, before: Root, next: Run, changes: seq<RowChange>)
    requires Encodes(m, was, before) && LegalStep(before.run, next) && next.scope == before.run.scope
    requires BatchFor(before, next).Some? && Rows(m, BatchFor(before, next).value).Some?
    requires var rows := Rows(m, BatchFor(before, next).value).value;
             && now == Timed(Stepped(m, was, before, next), now)
             && (forall x :: x in was && x in now && x in Beads(rows) ==> Timestamp(was[x].updatedAt) && Timestamp(now[x].updatedAt))
             && (forall x :: x in was && x in now && x !in Beads(rows) ==> was[x].updatedAt == now[x].updatedAt)
    requires IsDiff(was, now, changes)
    ensures MatchesDelta(Rows(m, BatchFor(before, next).value).value, [TableChange(ISSUES, changes)])
  {
    var rows := Rows(m, BatchFor(before, next).value).value;
    var after := Stepped(m, was, before, next);
    StepKeepsTheKeys(m, was, before, next);
    RowsOfAStepApart(m, was, before, next);
    forall w | w in rows
      ensures w.bead in was && w.bead in now && MatchesRow(was[w.bead], now[w.bead], w)
    {
      BeadsMembers(rows, w.bead);
      RowLands(m, was, before, next, w);
    }
    forall x | x in was && x !in Beads(rows)
      ensures was[x] == now[x]
    {
      UnwrittenStays(m, was, before, next, x);
    }
    OnlyMovesAreAccepted(was, now, rows, changes);
  }

  lemma StepKeepsTheKeys(m: Mapping, was: Table, before: Root, next: Run)
    ensures Stepped(m, was, before, next).Keys == was.Keys
  {
  }

  lemma RowsOfAStepApart(m: Mapping, was: Table, before: Root, next: Run)
    requires Encodes(m, was, before) && BatchFor(before, next).Some?
    ensures Rows(m, BatchFor(before, next).value).Some? && AllDistinct(Beads(Rows(m, BatchFor(before, next).value).value))
  {
    EncodedBeadsAreApart(m, was, before);
    BatchExists(before, next);
    RowsApart(m, before, next);
    ApartBeads(Rows(m, BatchFor(before, next).value).value);
  }

  /** Where a step lands, each of its rows turns the committed value into the next one and keeps the rest. */
  lemma RowLands(m: Mapping, was: Table, before: Root, next: Run, w: WriteRow)
    requires Encodes(m, was, before) && LegalStep(before.run, next) && next.scope == before.run.scope
    requires BatchFor(before, next).Some? && Rows(m, BatchFor(before, next).value).Some? && w in Rows(m, BatchFor(before, next).value).value
    ensures var after := Stepped(m, was, before, next);
            && w.bead in was && w.bead in after && after[w.bead] == was[w.bead].(sce := Sealed(w.next)) && was[w.bead] != after[w.bead]
            && was[w.bead].sce.Sealed? && was[w.bead].sce.envelope.commitment == w.expected
            && ProvenCommitment(was[w.bead].sce.envelope.projection) == Some(w.expected)
  {
    var b := BatchFor(before, next).value;
    var rows := Rows(m, b).value;
    RowMoves(m, was, before, next, w);
    StepTermsHold(m, was, before, next);
    CountedUpdateIsAllOrNothing(was, rows, WriteStatement(m, b).value.terms);
    EncodedBeadsAreApart(m, was, before);
    BatchExists(before, next);
    RowsApart(m, before, next);
    FindWriteFinds(rows, w);
    ExpectedIsStored(m, was, before, next, w);
  }

  lemma ExpectedIsStored(m: Mapping, was: Table, before: Root, next: Run, w: WriteRow)
    requires Encodes(m, was, before) && BatchFor(before, next).Some?
    requires Rows(m, BatchFor(before, next).value).Some? && w in Rows(m, BatchFor(before, next).value).value
    ensures w.bead in was && Proves(was[w.bead], w.expected)
  {
    var b := BatchFor(before, next).value;
    RowIsRootOrMove(m, before, next, w);
    if w != RootWrite(m, b) {
      var id :| id in ChangedIds(before.run, b.nextRoot.run) && id in before.run.units && w == MoveOf(m, before.run, b.nextRoot, id);
      UnitIsStored(m, was, before, id);
    } else {
      RootIsStored(m, was, before);
    }
  }

  predicate Proves(row: Row, commitment: Commitment) {
    && row.sce.Sealed? && row.sce.envelope.commitment == commitment
    && ProvenCommitment(row.sce.envelope.projection) == Some(commitment)
  }

  lemma UnitIsStored(m: Mapping, was: Table, before: Root, id: Text)
    requires Encodes(m, was, before) && id in before.run.units
    ensures m.beadOf(id).value in was && Proves(was[m.beadOf(id).value], OfUnit(before.run.units[id]))
  {
    assert Carries(was, m.beadOf(id).value, ChildSeal(MakeChild(before, id).value));
  }

  lemma RootIsStored(m: Mapping, was: Table, before: Root)
    requires Encodes(m, was, before)
    ensures m.rootBead in was && Proves(was[m.rootBead], before.aggregateCommitment)
  {
  }

  // ---------------------------------------------------------------- the rows of a lost batch

  predicate UnitsOnce(children: seq<Child>) {
    (forall c :: c in children ==> ValidChild(c)) && DistinctBy(children, ChildUnit)
  }

  function StepMove(m: Mapping, prior: seq<Child>, child: Child): Option<WriteRow> {
    var previous, bead := FindChild(prior, child.unitId), m.beadOf(child.unitId);
    if previous.None? || bead.None? then None else Some(WriteRow(bead.value, previous.value.commitment, ChildSeal(child)))
  }

  /** The rows of the children whose commitment moved; a child without a committed row is no step at all. */
  function StepMoves(m: Mapping, prior: seq<Child>, children: seq<Child>): Option<seq<WriteRow>> {
    if children == [] then Some([])
    else
      var last, rest := children[|children| - 1], StepMoves(m, prior, children[..|children| - 1]);
      var move := StepMove(m, prior, last);
      if rest.None? || move.None? then None
      else if move.value.expected == last.commitment then rest
      else Some(rest.value + [move.value])
  }

  /** stepRows */
  function StepRowsAt(m: Mapping, before: Readback, after: Readback): Option<seq<WriteRow>> {
    var moves := StepMoves(m, before.children, after.children);
    if || !ValidRoot(before.root) || !ValidRoot(after.root)
       || !UnitsOnce(before.children) || !UnitsOnce(after.children) || moves.None?
    then None
    else
      var rows := [WriteRow(m.rootBead, before.root.aggregateCommitment, RootSeal(after.root))] + moves.value;
      if AllDistinct(Beads(rows)) then Some(SortBy(rows, WriteBead)) else None
  }

  /** A unit that moved between the two runs, with a row in both. */
  predicate UnitMoved(before: Run, next: Run, id: Text) {
    id in before.units && id in next.units && before.units[id] != next.units[id]
  }

  predicate IsStepMove(m: Mapping, before: Run, next: Root, children: seq<Child>, w: WriteRow)
    requires Mapped(m, before)
  {
    exists c :: c in children && UnitMoved(before, next.run, c.unitId) && w == MoveOf(m, before, next, c.unitId)
  }

  lemma StepMoveMore(m: Mapping, before: Run, next: Root, children: seq<Child>, last: Child, w: WriteRow)
    requires Mapped(m, before)
    ensures IsStepMove(m, before, next, children + [last], w) <==>
            || IsStepMove(m, before, next, children, w)
            || (UnitMoved(before, next.run, last.unitId) && w == MoveOf(m, before, next, last.unitId))
  {
    var now := children + [last];
    assert last in now;
    if IsStepMove(m, before, next, children, w) {
      var c :| c in children && UnitMoved(before, next.run, c.unitId) && w == MoveOf(m, before, next, c.unitId);
      assert c in now;
    }
  }

  /** The prior of a rebuilt child is the child of the earlier run. */
  predicate IsChildOf(before: Root, next: Root, c: Child) {
    c.unitId in before.run.units && MakeChild(next, c.unitId) == Some(c)
  }

  lemma StepMoveIs(m: Mapping, before: Root, next: Root, c: Child)
    requires ValidRoot(before) && Mapped(m, before.run) && IsChildOf(before, next, c)
    ensures var move := StepMove(m, ChildrenOf(before), c);
            && move == Some(MoveOf(m, before.run, next, c.unitId))
            && (move.value.expected == c.commitment <==> !UnitMoved(before.run, next.run, c.unitId))
  {
    PriorChildFound(before, c.unitId);
  }

  lemma PriorChildFound(root: Root, id: Text)
    requires ValidRoot(root) && id in root.run.units
    ensures FindChild(ChildrenOf(root), id) == MakeChild(root, id)
  {
    var i := UnitAt(root.run, id);
    OnlyChildOfItsUnit(root, ChildrenOf(root), i);
  }

  lemma StepMovesCons(m: Mapping, prior: seq<Child>, children: seq<Child>, last: Child)
    ensures StepMoves(m, prior, children + [last]) ==
            var rest, move := StepMoves(m, prior, children), StepMove(m, prior, last);
            if rest.None? || move.None? then None
            else if move.value.expected == last.commitment then rest
            else Some(rest.value + [move.value])
  {
    assert (children + [last])[..|children|] == children;
  }

  ghost predicate AreStepMoves(m: Mapping, before: Root, next: Root, children: seq<Child>, moves: seq<WriteRow>)
    requires Mapped(m, before.run)
  {
    DistinctBy(moves, WriteBead) && forall w :: IsStepMove(m, before.run, next, children, w) <==> w in moves
  }

  lemma OneMoreMove(m: Mapping, before: Root, next: Root, children: seq<Child>, last: Child, moves: seq<WriteRow>)
    requires ValidRoot(before) && Mapped(m, before.run)
    requires AreStepMoves(m, before, next, children, moves)
    requires IsChildOf(before, next, last) && UnitMoved(before.run, next.run, last.unitId)
    requires forall c :: c in children ==> c.unitId != last.unitId
    ensures AreStepMoves(m, before, next, children + [last], moves + [MoveOf(m, before.run, next, last.unitId)])
  {
    var move := MoveOf(m, before.run, next, last.unitId);
    forall w
      ensures IsStepMove(m, before.run, next, children + [last], w) <==> w in moves + [move]
    {
      StepMoveMore(m, before.run, next, children, last, w);
    }
    forall i | 0 <= i < |moves|
      ensures WriteBead(moves[i]) != WriteBead(move)
    {
      assert moves[i] in moves;
    }
    forall i, j | 0 <= i < j < |moves| + 1
      ensures WriteBead((moves + [move])[i]) != WriteBead((moves + [move])[j])
    {
      if j < |moves| { assert WriteBead(moves[i]) != WriteBead(moves[j]); }
    }
  }

  lemma OneMoreStill(m: Mapping, before: Root, next: Root, children: seq<Child>, last: Child, moves: seq<WriteRow>)
    requires Mapped(m, before.run) && AreStepMoves(m, before, next, children, moves)
    requires !UnitMoved(before.run, next.run, last.unitId)
    ensures AreStepMoves(m, before, next, children + [last], moves)
  {
    forall w
      ensures IsStepMove(m, before.run, next, children + [last], w) <==> w in moves
    {
      StepMoveMore(m, before.run, next, children, last, w);
    }
  }

  lemma LastIsNew(children: seq<Child>, last: Child)
    requires DistinctBy(children + [last], ChildUnit)
    ensures DistinctBy(children, ChildUnit) && forall c :: c in children ==> c.unitId != last.unitId
  {
    var now := children + [last];
    forall i, j | 0 <= i < j < |children|
      ensures ChildUnit(children[i]) != ChildUnit(children[j])
    {
      assert ChildUnit(now[i]) != ChildUnit(now[j]);
    }
    forall i | 0 <= i < |children|
      ensures children[i].unitId != last.unitId
    {
      assert ChildUnit(now[i]) != ChildUnit(now[|children|]);
    }
  }

  lemma {:induction false} StepMovesAre(m: Mapping, before: Root, next: Root, children: seq<Child>)
    requires ValidRoot(before) && Mapped(m, before.run) && DistinctBy(children, ChildUnit)
    requires forall c :: c in children ==> IsChildOf(before, next, c)
    ensures var moves := StepMoves(m, ChildrenOf(before), children);
            moves.Some? && AreStepMoves(m, before, next, children, moves.value)
  {
    if children == [] {
    } else {
      var rest, last := children[..|children| - 1], children[|children| - 1];
      assert children == rest + [last];
      LastIsNew(rest, last);
      StepMovesAre(m, before, next, rest);
      var moves := StepMoves(m, ChildrenOf(before), rest).value;
      assert IsChildOf(before, next, last);
      StepMoveIs(m, before, next, last);
      StepMovesCons(m, ChildrenOf(before), rest, last);
      if UnitMoved(before.run, next.run, last.unitId) {
        OneMoreMove(m, before, next, rest, last, moves);
      } else {
        OneMoreStill(m, before, next, rest, last, moves);
      }
    }
  }

  lemma StepMovesAreTheBatchs(m: Mapping, before: Root, next: Root, w: WriteRow)
    requires ValidRoot(before) && ValidRoot(next) && Mapped(m, before.run)
    requires ChangedIds(before.run, next.run) <= before.run.units.Keys
    ensures IsStepMove(m, before.run, next, ChildrenOf(next), w) <==> IsMove(m, before.run, next, w)
  {
    var children := ChildrenOf(next);
    if IsMove(m, before.run, next, w) {
      var id :| id in ChangedIds(before.run, next.run) && id in before.run.units && w == MoveOf(m, before.run, next, id);
      var i := UnitAt(next.run, id);
      assert children[i] in children && children[i].unitId == id;
    }
    if IsStepMove(m, before.run, next, children, w) {
      var c :| c in children && UnitMoved(before.run, next.run, c.unitId) && w == MoveOf(m, before.run, next, c.unitId);
      assert c.unitId in ChangedIds(before.run, next.run);
    }
  }

  lemma ChildrenAreOnce(root: Root)
    requires ValidRoot(root)
    ensures UnitsOnce(ChildrenOf(root))
  {
    ChildrenInOrder(root);
    forall c | c in ChildrenOf(root)
      ensures ValidChild(c)
    {
      var i :| 0 <= i < |root.childRows| && ChildrenOf(root)[i] == c;
    }
  }

  lemma NextChildrenHavePriors(before: Root, next: Root)
    requires ValidRoot(before) && ValidRoot(next) && ChangedIds(before.run, next.run) <= before.run.units.Keys
    ensures forall c :: c in ChildrenOf(next) ==> IsChildOf(before, next, c)
  {
    forall c | c in ChildrenOf(next)
      ensures IsChildOf(before, next, c)
    {
      var i :| 0 <= i < |next.childRows| && ChildrenOf(next)[i] == c;
      assert c.unitId in ChangedIds(before.run, next.run) || c.unitId in before.run.units;
    }
  }

  lemma SameSetSameRows(root: WriteRow, moves: seq<WriteRow>, batch: seq<WriteRow>)
    requires DistinctBy(moves, WriteBead) && DistinctBy([root] + batch, WriteBead)
    requires forall w :: w in moves <==> w in batch
    ensures AllDistinct(Beads([root] + moves)) && SortBy([root] + moves, WriteBead) == SortBy([root] + batch, WriteBead)
  {
    DistinctByCons(root, batch, WriteBead);
    DistinctByCons(root, moves, WriteBead);
    ApartBeads([root] + moves);
    SortByIsUnique([root] + moves, [root] + batch, WriteBead);
  }

  /**
   For every legal step, the rows rebuilt from just the committed and the uncommitted readback are the
   rows of the batch that was lost.
   */
  lemma StepRowsAreTheLostBatch(m: Mapping, table: Table, before: Root, next: Run)
    requires Encodes(m, table, before) && LegalStep(before.run, next)
    ensures BatchFor(before, next).Some?
    ensures var b := BatchFor(before, next).value;
            && ValidRoot(b.nextRoot) && Rows(m, b).Some?
            && StepRowsAt(m, Readback(before, ChildrenOf(before)), Readback(b.nextRoot, ChildrenOf(b.nextRoot))) == Rows(m, b)
  {
    LegalStepIsAccepted(before, next);
    BatchExists(before, next);
    EncodedBeadsAreApart(m, table, before);
    RowsApart(m, before, next);
    RowsOfABatch(m, before, next);
    var b := BatchFor(before, next).value;
    StepRowsMatch(m, before, b.nextRoot, RootWrite(m, b), ChildWrites(m, b, b.changedRows).value);
    ExpectedAreListed(before, next);
  }

  lemma StepRowsMatch(m: Mapping, before: Root, next: Root, root: WriteRow, batch: seq<WriteRow>)
    requires ValidRoot(before) && ValidRoot(next) && Mapped(m, before.run)
    requires ChangedIds(before.run, next.run) <= before.run.units.Keys
    requires AreMoves(m, before.run, next, Listing(ChangedIds(before.run, next.run)), batch)
    requires root == WriteRow(m.rootBead, before.aggregateCommitment, RootSeal(next))
    requires DistinctBy([root] + batch, WriteBead)
    ensures StepRowsAt(m, Readback(before, ChildrenOf(before)), Readback(next, ChildrenOf(next))) ==
            Some(SortBy([root] + batch, WriteBead))
  {
    ChildrenAreOnce(before);
    ChildrenAreOnce(next);
    NextChildrenHavePriors(before, next);
    StepMovesAre(m, before, next, ChildrenOf(next));
    var moves := StepMoves(m, ChildrenOf(before), ChildrenOf(next)).value;
    forall w
      ensures w in moves <==> w in batch
    {
      StepMovesAreTheBatchs(m, before, next, w);
      MovesAreMoves(m, before.run, next, batch, w);
    }
    SameSetSameRows(root, moves, batch);
  }

  // ---------------------------------------------------------------- stepRows as the source runs it

  ghost predicate Indexed(children: seq<Child>, prior: map<Text, Child>) {
    && UnitsOnce(children)
    && (forall id :: id in prior <==> FindChild(children, id).Some?)
    && (forall id :: id in prior ==> FindChild(children, id) == Some(prior[id]))
  }

  lemma {:induction false} FindChildAppend(children: seq<Child>, last: Child, id: Text)
    ensures FindChild(children + [last], id) ==
            if FindChild(children, id).Some? then FindChild(children, id)
            else if last.unitId == id then Some(last) else None
  {
    if children != [] {
      FindChildAppend(children[1..], last, id);
      assert (children + [last])[1..] == children[1..] + [last];
    }
  }

  lemma UnitsOnceAppend(children: seq<Child>, last: Child)
    requires UnitsOnce(children)
    ensures UnitsOnce(children + [last]) <==> ValidChild(last) && FindChild(children, last.unitId).None?
  {
    var now := children + [last];
    assert now[|children|] == last;
    if FindChild(children, last.unitId).Some? {
      var i :| 0 <= i < |children| && children[i] == FindChild(children, last.unitId).value;
      assert ChildUnit(now[i]) == ChildUnit(now[|children|]);
    } else if ValidChild(last) {
      forall i, j | 0 <= i < j < |now|
        ensures ChildUnit(now[i]) != ChildUnit(now[j])
      {
        assert now[i] == children[i] && children[i] in children;
        if j < |children| { assert ChildUnit(children[i]) != ChildUnit(children[j]); }
      }
    }
  }

  lemma UnitsOncePrefix(children: seq<Child>, i: nat)
    requires i <= |children| && UnitsOnce(children)
    ensures UnitsOnce(children[..i])
  {
    forall j, k | 0 <= j < k < i
      ensures ChildUnit(children[..i][j]) != ChildUnit(children[..i][k])
    {
      assert ChildUnit(children[j]) != ChildUnit(children[k]);
    }
  }

  /** The first loop: committed children by unit, or nothing when one is invalid or repeated. */
  method IndexChildren(children: seq<Child>) returns (prior: Option<map<Text, Child>>)
    ensures prior.Some? <==> UnitsOnce(children)
    ensures prior.Some? ==> Indexed(children, prior.value)
  {
    var index: map<Text, Child> := map[];
    for i := 0 to |children|
      invariant Indexed(children[..i], index)
    {
      var child := children[i];
      assert children[..i + 1] == children[..i] + [child];
      UnitsOnceAppend(children[..i], child);
      if !ValidChild(child) || child.unitId in index {
        if UnitsOnce(children) { UnitsOncePrefix(children, i + 1); }
        return None;
      }
      forall id
        ensures FindChild(children[..i + 1], id) == if id == child.unitId then Some(child) else FindChild(children[..i], id)
      {
        FindChildAppend(children[..i], child, id);
      }
      index := index[child.unitId := child];
    }
    assert children[..|children|] == children;
    prior := Some(index);
  }

  lemma {:induction false} StepMovesStay(m: Mapping, prior: seq<Child>, children: seq<Child>, i: nat)
    requires i <= |children| && StepMoves(m, prior, children[..i]).None?
    ensures StepMoves(m, prior, children).None?
    decreases |children| - i
  {
    if i < |children| {
      assert children[..i + 1] == children[..i] + [children[i]];
      StepMovesCons(m, prior, children[..i], children[i]);
      StepMovesStay(m, prior, children, i + 1);
    } else {
      assert children[..i] == children;
    }
  }

  method StepRows(m: Mapping, before: Readback, after: Readback) returns (r: Option<seq<WriteRow>>)
    ensures r == StepRowsAt(m, before, after)
  {
    if !ValidRoot(before.root) || !ValidRoot(after.root) { return None; }
    var prior := IndexChildren(before.children);
    if prior.None? { return None; }
    var moves := MovedChildren(m, before.children, prior.value, after.children);
    if moves.None? { return None; }
    var rows := [WriteRow(m.rootBead, before.root.aggregateCommitment, RootSeal(after.root))] + moves.value;
    r := if AllDistinct(Beads(rows)) then Some(SortBy(rows, WriteBead)) else None;
  }

  /** The second loop: the uncommitted children that moved. */
  method MovedChildren(m: Mapping, ghost committed: seq<Child>, prior: map<Text, Child>, children: seq<Child>)
      returns (r: Option<seq<WriteRow>>)
    requires Indexed(committed, prior)
    ensures r == if UnitsOnce(children) then StepMoves(m, committed, children) else None
  {
    var rows: seq<WriteRow>, seen: set<Text> := [], {};
    for i := 0 to |children|
      invariant UnitsOnce(children[..i]) && StepMoves(m, committed, children[..i]) == Some(rows)
      invariant forall id :: id in seen <==> FindChild(children[..i], id).Some?
    {
      var child := children[i];
      assert children[..i + 1] == children[..i] + [child];
      UnitsOnceAppend(children[..i], child);
      StepMovesCons(m, committed, children[..i], child);
      if !ValidChild(child) || child.unitId in seen {
        if UnitsOnce(children) { UnitsOncePrefix(children, i + 1); }
        return None;
      }
      forall id
        ensures FindChild(children[..i + 1], id).Some? <==> id in seen || id == child.unitId
      {
        FindChildAppend(children[..i], child, id);
      }
      seen := seen + {child.unitId};
      var bead := m.beadOf(child.unitId);
      if child.unitId !in prior || bead.None? {
        StepMovesStay(m, committed, children, i + 1);
        return None;
      }
      var previous := prior[child.unitId];
      if previous.commitment == child.commitment { continue; }
      rows := rows + [WriteRow(bead.value, previous.commitment, ChildSeal(child))];
    }
    assert children[..|children|] == children;
    r := Some(rows);
  }
}

/**
 The row store of the embedded topology (src/adapters/beads-embedded/dolt-projections.ts).

 A table maps bead identifiers to rows; the projection of the fencing layer lives under the `sce`
 key of a row's metadata. One counted UPDATE moves a whole batch or nothing; readers rebuild the
 aggregate from the rows; the diff matcher audits what a checkpoint is about to carry.
 */
module RowStore {
  import opened Wrappers
  import opened Text
  import opened Fencing

  datatype Projection =
    | RootProjection(root: Root)
    | ChildProjection(child: Child)
    | Unreadable(revision: Option<nat>, source: Text)

  datatype Envelope = Envelope(commitment: Commitment, projection: Projection)

  /** The value under metadata's `sce` key: an envelope, nothing, or something JSON paths may still read. */
  datatype Sce =
    | Missing
    | Malformed(commitment: Option<Commitment>, revision: Option<nat>, source: Text)
    | Sealed(envelope: Envelope)

  /** One pinned bd issue row: its plain columns, its timestamp, the other metadata keys, and `sce`. */
  datatype Row = Row(columns: map<Text, Text>, updatedAt: Text, metadata: map<Text, Text>, sce: Sce)

  type Table = map<Text, Row>

  /** rootIssueId and childIssueId: which bead carries the root and which carries a unit. */
  datatype Mapping = Mapping(rootBead: Text, beadOf: Text -> Option<Text>)

  datatype WriteRow = WriteRow(bead: Text, expected: Commitment, next: Envelope)

  /** One term of the counted predicate; retired rows are also held to their revision. */
  datatype Term = Term(bead: Text, commitment: Commitment, revision: Option<nat>)

  // ---------------------------------------------------------------- the counted UPDATE

  /** JSON_EXTRACT(metadata, '$.sce.commitment') */
  function StoredCommitment(sce: Sce): Option<Commitment> {
    match sce
    case Missing => None
    case Malformed(commitment, _, _) => commitment
    case Sealed(envelope) => Some(envelope.commitment)
  }

  /** JSON_EXTRACT(metadata, '$.sce.projection.revision'): a root projection has no such key. */
  function StoredRevision(sce: Sce): Option<nat> {
    match sce
    case Missing => None
    case Malformed(_, revision, _) => revision
    case Sealed(Envelope(_, RootProjection(_))) => None
    case Sealed(Envelope(_, ChildProjection(child))) => Some(child.revision)
    case Sealed(Envelope(_, Unreadable(revision, _))) => revision
  }

  predicate Holds(t: Term, row: Row) {
    StoredCommitment(row.sce) == Some(t.commitment) && (t.revision.Some? ==> StoredRevision(row.sce) == t.revision)
  }

  /** SELECT COUNT(*) FROM issues WHERE term OR term OR ...: each row counts once. */
  function Counted(table: Table, terms: seq<Term>): set<Text> {
    set id | id in table && exists t :: t in terms && t.bead == id && Holds(t, table[id])
  }

  function FindWrite(writes: seq<WriteRow>, bead: Text): (w: Option<WriteRow>)
    ensures w.Some? ==> w.value in writes && w.value.bead == bead
    ensures w.None? ==> forall x :: x in writes ==> x.bead != bead
  {
    if writes == [] then None
    else if writes[0].bead == bead then Some(writes[0])
    else FindWrite(writes[1..], bead)
  }

  /** SET metadata = CASE id WHEN bead THEN JSON_SET(metadata, '$.sce', next) ... */
  function Written(table: Table, writes: seq<WriteRow>): Table {
    map id | id in table ::
      var w := FindWrite(writes, id);
      if w.Some? then table[id].(sce := Sealed(w.value.next)) else table[id]
  }

  function Updated(table: Table, writes: seq<WriteRow>, terms: seq<Term>): Table {
    if |Counted(table, terms)| == |terms| then Written(table, writes) else table
  }

  predicate AllHold(table: Table, terms: seq<Term>) {
    forall t :: t in terms ==> Met(table, t)
  }

  predicate DistinctBeads(terms: seq<Term>) {
    forall i, j :: 0 <= i < j < |terms| ==> terms[i].bead != terms[j].bead
  }

  predicate Met(table: Table, t: Term) {
    t.bead in table && Holds(t, table[t.bead])
  }

  lemma CountedCons(table: Table, t: Term, rest: seq<Term>)
    ensures Counted(table, [t] + rest) == Counted(table, rest) + if Met(table, t) then {t.bead} else {}
  {
    forall id
      ensures id in Counted(table, [t] + rest) <==> id in Counted(table, rest) || (id == t.bead && Met(table, t))
    {
      if id in Counted(table, [t] + rest) {
        var u :| u in [t] + rest && u.bead == id && Holds(u, table[id]);
        assert u == t || u in rest;
      }
      if id in Counted(table, rest) {
        var u :| u in rest && u.bead == id && Holds(u, table[id]);
        assert u in [t] + rest;
      }
      if id == t.bead && Met(table, t) {
        assert t in [t] + rest;
      }
    }
  }

  lemma CountedBeads(table: Table, terms: seq<Term>, id: Text)
    requires AllHold(table, terms)
    ensures id in Counted(table, terms) <==> exists i :: 0 <= i < |terms| && terms[i].bead == id
  {
    if exists i :: 0 <= i < |terms| && terms[i].bead == id {
      var i :| 0 <= i < |terms| && terms[i].bead == id;
      assert terms[i] in terms;
    }
  }

  lemma {:induction false} CountBounds(table: Table, terms: seq<Term>)
    ensures |Counted(table, terms)| <= |terms|
    ensures |Counted(table, terms)| == |terms| <==> AllHold(table, terms) && DistinctBeads(terms)
  {
    if terms == [] {
      assert Counted(table, terms) == {};
    } else {
      var t, rest := terms[0], terms[1..];
      assert terms == [t] + rest;
      CountBounds(table, rest);
      CountedCons(table, t, rest);
      DistinctBeadsCons(t, rest);
      assert AllHold(table, terms) <==> Met(table, t) && AllHold(table, rest);
      if AllHold(table, rest) {
        CountedBeads(table, rest, t.bead);
      }
    }
  }

  lemma DistinctBeadsCons(t: Term, rest: seq<Term>)
    ensures DistinctBeads([t] + rest) <==> DistinctBeads(rest) && forall i :: 0 <= i < |rest| ==> rest[i].bead != t.bead
  {
    var terms := [t] + rest;
    assert forall i :: 0 <= i < |rest| ==> terms[i + 1] == rest[i];
    if DistinctBeads(terms) {
      forall i, j | 0 <= i < j < |rest|
        ensures rest[i].bead != rest[j].bead
      {
        assert terms[i + 1].bead != terms[j + 1].bead;
      }
      forall i | 0 <= i < |rest|
        ensures rest[i].bead != t.bead
      {
        assert terms[0].bead != terms[i + 1].bead;
      }
    }
    if DistinctBeads(rest) && forall i :: 0 <= i < |rest| ==> rest[i].bead != t.bead {
      forall i, j | 0 <= i < j < |terms|
        ensures terms[i].bead != terms[j].bead
      {
        assert terms[j] == rest[j - 1];
        if i > 0 { assert terms[i] == rest[i - 1]; }
      }
    }
  }

  /**
   The counted UPDATE takes effect exactly when every changed and retired row holds its expected value
   and no two of them share a bead; otherwise it changes nothing at all.
   */
  lemma CountedUpdateIsAllOrNothing(table: Table, writes: seq<WriteRow>, terms: seq<Term>)
    ensures Updated(table, writes, terms) ==
            if AllHold(table, terms) && DistinctBeads(terms) then Written(table, writes) else table
  {
    CountBounds(table, terms);
  }

  // ---------------------------------------------------------------- the rows of a batch

  function RootSeal(root: Root): Envelope {
    Envelope(root.aggregateCommitment, RootProjection(root))
  }

  function ChildSeal(child: Child): Envelope {
    Envelope(child.commitment, ChildProjection(child))
  }

  function WriteBead(w: WriteRow): Text {
    w.bead
  }

  function RootWrite(m: Mapping, b: Batch): WriteRow {
    WriteRow(m.rootBead, b.expectedAggregateCommitment, RootSeal(b.nextRoot))
  }

  function ChildWrite(m: Mapping, b: Batch, row: ChangedRow): Option<WriteRow> {
    var child, bead := FindChild(b.nextChildren, row.unitId), m.beadOf(row.unitId);
    if child.None? || bead.None? then None
    else Some(WriteRow(bead.value, row.expectedCommitment, ChildSeal(child.value)))
  }

  function ChildWrites(m: Mapping, b: Batch, rows: seq<ChangedRow>): (out: Option<seq<WriteRow>>)
    ensures out.Some? <==> forall row :: row in rows ==> ChildWrite(m, b, row).Some?
    ensures out.Some? ==> |out.value| == |rows|
    ensures out.Some? ==> forall i :: 0 <= i < |rows| ==> Some(out.value[i]) == ChildWrite(m, b, rows[i])
  {
    if rows == [] then Some([])
    else
      assert rows == [rows[0]] + rows[1..];
      var head, rest := ChildWrite(m, b, rows[0]), ChildWrites(m, b, rows[1..]);
      if head.Some? && rest.Some? then Some([head.value] + rest.value) else None
  }

  function Rows(m: Mapping, b: Batch): Option<seq<WriteRow>> {
    var children := ChildWrites(m, b, b.changedRows);
    if children.None? then None else Some(SortBy([RootWrite(m, b)] + children.value, WriteBead))
  }

  function RowTerms(rows: seq<WriteRow>): seq<Term> {
    seq(|rows|, i requires 0 <= i < |rows| => Term(rows[i].bead, rows[i].expected, None))
  }

  function RetiredTerms(m: Mapping, retired: seq<ExpectedRow>): (out: Option<seq<Term>>)
    ensures out.Some? <==> forall r :: r in retired ==> m.beadOf(r.unitId).Some?
    ensures out.Some? ==> |out.value| == |retired|
    ensures out.Some? ==> forall i :: 0 <= i < |retired| ==>
              && m.beadOf(retired[i].unitId).Some?
              && out.value[i] == Term(m.beadOf(retired[i].unitId).value, retired[i].commitment, Some(retired[i].revision))
  {
    if retired == [] then Some([])
    else
      assert retired == [retired[0]] + retired[1..];
      var bead, rest := m.beadOf(retired[0].unitId), RetiredTerms(m, retired[1..]);
      if bead.Some? && rest.Some? then
        Some([Term(bead.value, retired[0].commitment, Some(retired[0].revision))] + rest.value)
      else None
  }

  datatype Statement = Statement(writes: seq<WriteRow>, terms: seq<Term>)

  /** writeStatement: duplicates are refused here only when something retires; the count catches the rest. */
  function WriteStatement(m: Mapping, b: Batch): Option<Statement> {
    var rows, retired := Rows(m, b), RetiredTerms(m, b.retired);
    if rows.None? || retired.None? then None
    else
      var terms := RowTerms(rows.value) + retired.value;
      if b.retired != [] && !DistinctBeads(terms) then None else Some(Statement(rows.value, terms))
  }

  // ---------------------------------------------------------------- what a table encodes

  predicate Carries(table: Table, bead: Text, envelope: Envelope) {
    bead in table && table[bead].sce == Sealed(envelope)
  }

  /** Every unit of the run has a bead, and no two units share one. */
  predicate Mapped(m: Mapping, run: Run) {
    && (forall id :: id in run.units ==> m.beadOf(id).Some?)
    && (forall a, b :: a in run.units && b in run.units && a != b ==> m.beadOf(a) != m.beadOf(b))
  }

  /** The rows of the table are exactly this aggregate; other beads, retired ones included, are inert. */
  predicate Encodes(m: Mapping, table: Table, root: Root) {
    && ValidRoot(root)
    && Mapped(m, root.run)
    && Carries(table, m.rootBead, RootSeal(root))
    && forall id :: id in root.run.units ==> Carries(table, m.beadOf(id).value, ChildSeal(MakeChild(root, id).value))
  }

  lemma EncodedBeadsAreApart(m: Mapping, table: Table, root: Root)
    requires Encodes(m, table, root)
    ensures forall id :: id in root.run.units ==> m.beadOf(id).value != m.rootBead
  {
  }

  /** The write a changed unit stands for. */
  function MoveOf(m: Mapping, before: Run, next: Root, id: Text): WriteRow
    requires id in before.units && id in next.run.units && m.beadOf(id).Some?
  {
    WriteRow(m.beadOf(id).value, OfUnit(before.units[id]), ChildSeal(MakeChild(next, id).value))
  }

  lemma ChangedChildFound(before: Root, next: Run, i: nat)
    requires ValidRoot(before) && BatchFor(before, next).Some?
    requires i < |BatchFor(before, next).value.changedRows|
    ensures var b := BatchFor(before, next).value;
            FindChild(b.nextChildren, b.changedRows[i].unitId) == MakeChild(b.nextRoot, b.changedRows[i].unitId)
  {
    var b := BatchFor(before, next).value;
    BatchRows(before, next, i);
    forall j | 0 <= j < |b.nextChildren|
      ensures MakeChild(b.nextRoot, b.nextChildren[j].unitId) == Some(b.nextChildren[j])
    {
      BatchRows(before, next, j);
    }
    OnlyChildOfItsUnit(b.nextRoot, b.nextChildren, i);
  }

  lemma OnlyChildOfItsUnit(root: Root, children: seq<Child>, i: nat)
    requires i < |children| && forall j :: 0 <= j < |children| ==> MakeChild(root, children[j].unitId) == Some(children[j])
    ensures FindChild(children, children[i].unitId) == MakeChild(root, children[i].unitId)
  {
    assert children[i] in children;
    var found := FindChild(children, children[i].unitId).value;
    var j :| 0 <= j < |children| && children[j] == found;
  }

  /** Row by row, the moves of a list of units. */
  predicate AreMoves(m: Mapping, before: Run, next: Root, ids: seq<Text>, moves: seq<WriteRow>)
    requires Mapped(m, before)
  {
    && |moves| == |ids|
    && forall i :: 0 <= i < |ids| ==>
         ids[i] in before.units && ids[i] in next.run.units && moves[i] == MoveOf(m, before, next, ids[i])
  }

  /** The rows of a batch: the root, and one move for each changed unit. */
  lemma RowsOfABatch(m: Mapping, before: Root, next: Run)
    requires ValidRoot(before) && Mapped(m, before.run) && BatchFor(before, next).Some?
    ensures var b := BatchFor(before, next).value;
            && b.nextRoot.run == next
            && ChildWrites(m, b, b.changedRows).Some?
            && AreMoves(m, before.run, b.nextRoot, Listing(ChangedIds(before.run, next)), ChildWrites(m, b, b.changedRows).value)
  {
    var b := BatchFor(before, next).value;
    BatchRowsInOrder(before, next);
    forall i | 0 <= i < |b.changedRows|
      ensures ChildWrite(m, b, b.changedRows[i]).Some?
      ensures var id := Listing(ChangedIds(before.run, next))[i];
              id in before.run.units && id in next.units && ChildWrite(m, b, b.changedRows[i]) == Some(MoveOf(m, before.run, b.nextRoot, id))
    {
      BatchRows(before, next, i);
      ChangedChildFound(before, next, i);
    }
  }

  predicate IsMove(m: Mapping, before: Run, next: Root, w: WriteRow)
    requires Mapped(m, before)
  {
    exists id :: id in ChangedIds(before, next.run) && id in before.units && w == MoveOf(m, before, next, id)
  }

  lemma MovesAreMoves(m: Mapping, before: Run, next: Root, moves: seq<WriteRow>, w: WriteRow)
    requires Mapped(m, before) && AreMoves(m, before, next, Listing(ChangedIds(before, next.run)), moves)
    ensures w in moves <==> IsMove(m, before, next, w)
  {
    var ids := Listing(ChangedIds(before, next.run));
    if IsMove(m, before, next, w) {
      var id :| id in ChangedIds(before, next.run) && id in before.units && w == MoveOf(m, before, next, id);
      assert id in ids;
      var i :| 0 <= i < |ids| && ids[i] == id;
      assert moves[i] in moves;
    }
    if w in moves {
      var i :| 0 <= i < |moves| && moves[i] == w;
      assert ids[i] in ids;
    }
  }

  lemma MovesAreApart(m: Mapping, before: Run, next: Root, ids: seq<Text>, moves: seq<WriteRow>)
    requires Mapped(m, before) && AreMoves(m, before, next, ids, moves) && Ascending(ids)
    ensures DistinctBy(moves, WriteBead)
  {
    forall i, j | 0 <= i < j < |moves|
      ensures WriteBead(moves[i]) != WriteBead(moves[j])
    {
      LessIsStrict(ids[i], ids[j]);
    }
  }

  lemma RowIsRootOrMove(m: Mapping, before: Root, next: Run, w: WriteRow)
    requires ValidRoot(before) && Mapped(m, before.run) && BatchFor(before, next).Some?
    ensures var b := BatchFor(before, next).value;
            Rows(m, b).Some? && (w in Rows(m, b).value <==> w == RootWrite(m, b) || IsMove(m, before.run, b.nextRoot, w))
  {
    RowsOfABatch(m, before, next);
    var b := BatchFor(before, next).value;
    MovesAreMoves(m, before.run, b.nextRoot, ChildWrites(m, b, b.changedRows).value, w);
  }

  lemma MovesAvoid(m: Mapping, before: Run, next: Root, moves: seq<WriteRow>, bead: Text)
    requires Mapped(m, before) && AreMoves(m, before, next, Listing(ChangedIds(before, next.run)), moves)
    requires forall id :: id in ChangedIds(before, next.run) ==> m.beadOf(id) != Some(bead)
    ensures forall w :: w in moves ==> WriteBead(w) != bead
  {
    var ids := Listing(ChangedIds(before, next.run));
    forall i | 0 <= i < |moves|
      ensures moves[i].bead != bead
    {
      assert ids[i] in ids;
    }
  }

  /** No two rows of a batch share a bead, once the root's bead is no unit's. */
  lemma RowsApart(m: Mapping, before: Root, next: Run)
    requires ValidRoot(before) && Mapped(m, before.run) && BatchFor(before, next).Some?
    requires forall id :: id in ChangedIds(before.run, next) ==> m.beadOf(id) != Some(m.rootBead)
    ensures var b := BatchFor(before, next).value;
            && Rows(m, b).Some? && DistinctBy(Rows(m, b).value, WriteBead)
            && DistinctBy([RootWrite(m, b)] + ChildWrites(m, b, b.changedRows).value, WriteBead)
  {
    RowsOfABatch(m, before, next);
    var b := BatchFor(before, next).value;
    var moves := ChildWrites(m, b, b.changedRows).value;
    MovesAvoid(m, before.run, b.nextRoot, moves, m.rootBead);
    MovesAreApart(m, before.run, b.nextRoot, Listing(ChangedIds(before.run, next)), moves);
    DistinctByCons(RootWrite(m, b), moves, WriteBead);
    SortBySorts([RootWrite(m, b)] + moves, WriteBead);
  }

  lemma RetiredApart(m: Mapping, before: Root, next: Run)
    requires ValidRoot(before) && Mapped(m, before.run) && BatchFor(before, next).Some?
    ensures var b := BatchFor(before, next).value;
            && RetiredTerms(m, b.retired).Some? && DistinctBeads(RetiredTerms(m, b.retired).value)
  {
    var b := BatchFor(before, next).value;
    RetiredInOrder(before.childRows, next);
    forall r | r in b.retired
      ensures r.unitId in before.run.units
    {
      var row := ChildRow(r.unitId, r.commitment, r.revision);
      assert row in before.childRows;
    }
    var terms := RetiredTerms(m, b.retired).value;
    forall i, j | 0 <= i < j < |terms|
      ensures terms[i].bead != terms[j].bead
    {
      assert b.retired[i] in b.retired && b.retired[j] in b.retired;
      LessIsStrict(b.retired[i].unitId, b.retired[j].unitId);
    }
  }

  /** What a retired row is held to: the row it still has, of a unit the next run drops. */
  lemma RetiredRowIs(m: Mapping, before: Root, next: Run, r: ExpectedRow)
    requires ValidRoot(before) && BatchFor(before, next).Some? && r in BatchFor(before, next).value.retired
    ensures r.unitId in before.run.units && r.unitId !in next.units
    ensures r.commitment == OfUnit(before.run.units[r.unitId]) && r.revision == before.run.units[r.unitId].revision
  {
    var row := ChildRow(r.unitId, r.commitment, r.revision);
    assert row in before.childRows;
  }

  lemma RetiredApartFromRow(m: Mapping, table: Table, before: Root, next: Run, w: WriteRow, r: ExpectedRow)
    requires Encodes(m, table, before) && BatchFor(before, next).Some?
    requires var b := BatchFor(before, next).value; Rows(m, b).Some? && w in Rows(m, b).value && r in b.retired
    ensures m.beadOf(r.unitId) != Some(w.bead)
  {
    RetiredRowIs(m, before, next, r);
    RowIsRootOrMove(m, before, next, w);
    RowsOfABatch(m, before, next);
    EncodedBeadsAreApart(m, table, before);
  }

  lemma JoinedApart(rows: seq<WriteRow>, retired: seq<Term>)
    requires DistinctBy(rows, WriteBead) && DistinctBeads(retired)
    requires forall i, j :: 0 <= i < |rows| && 0 <= j < |retired| ==> rows[i].bead != retired[j].bead
    ensures DistinctBeads(RowTerms(rows) + retired)
  {
    var terms := RowTerms(rows) + retired;
    forall i, j | 0 <= i < j < |terms|
      ensures terms[i].bead != terms[j].bead
    {
      if j < |rows| {
        assert WriteBead(rows[i]) != WriteBead(rows[j]);
      } else if i >= |rows| {
        assert terms[i] == retired[i - |rows|] && terms[j] == retired[j - |rows|];
      }
    }
  }

  lemma TermsApart(m: Mapping, table: Table, before: Root, next: Run)
    requires Encodes(m, table, before) && BatchFor(before, next).Some?
    ensures var b := BatchFor(before, next).value;
            && Rows(m, b).Some? && RetiredTerms(m, b.retired).Some?
            && DistinctBeads(RowTerms(Rows(m, b).value) + RetiredTerms(m, b.retired).value)
  {
    EncodedBeadsAreApart(m, table, before);
    BatchExists(before, next);
    RowsApart(m, before, next);
    RetiredApart(m, before, next);
    var b := BatchFor(before, next).value;
    var rows, retired := Rows(m, b).value, RetiredTerms(m, b.retired).value;
    forall i, j | 0 <= i < |rows| && 0 <= j < |retired|
      ensures rows[i].bead != retired[j].bead
    {
      RetiredApartFromRow(m, table, before, next, rows[i], b.retired[j]);
    }
    JoinedApart(rows, retired);
  }

  // ---------------------------------------------------------------- one step of the aggregate

  lemma ChangedRowsDependOnTheRows(a: Root, b: Root, next: Root, ids: seq<Text>)
    requires a.childRows == b.childRows
    ensures ChangedRowsFor(a, next, ids) == ChangedRowsFor(b, next, ids)
  {
    forall id | id in ids
      ensures ChangedRowFor(a, next, id) == ChangedRowFor(b, next, id)
    {
    }
  }

  /** The batch speaks of the loaded root only through its run. */
  lemma BatchDependsOnTheRun(a: Root, b: Root, next: Run)
    requires ValidRoot(a) && ValidRoot(b) && a.run == b.run
    ensures BatchFor(a, next) == BatchFor(b, next)
  {
    ChangedRowsDependOnTheRows(a, b, MakeRoot(next), Listing(ChangedIds(a.run, next)));
  }

  lemma FindWriteFinds(rows: seq<WriteRow>, w: WriteRow)
    requires DistinctBy(rows, WriteBead) && w in rows
    ensures FindWrite(rows, w.bead) == Some(w)
  {
    var i :| 0 <= i < |rows| && rows[i] == w;
    var j :| 0 <= j < |rows| && Some(rows[j]) == FindWrite(rows, w.bead);
    if i != j {
      assert WriteBead(rows[if i < j then i else j]) != WriteBead(rows[if i < j then j else i]);
    }
  }

  lemma RowTermMet(m: Mapping, table: Table, before: Root, next: Run, w: WriteRow)
    requires Encodes(m, table, before) && BatchFor(before, next).Some?
    requires var b := BatchFor(before, next).value; Rows(m, b).Some? && w in Rows(m, b).value
    ensures Met(table, Term(w.bead, w.expected, None))
  {
    RowIsRootOrMove(m, before, next, w);
  }

  lemma RetiredTermMet(m: Mapping, table: Table, before: Root, next: Run, r: ExpectedRow)
    requires Encodes(m, table, before) && BatchFor(before, next).Some? && r in BatchFor(before, next).value.retired
    ensures m.beadOf(r.unitId).Some? && Met(table, Term(m.beadOf(r.unitId).value, r.commitment, Some(r.revision)))
  {
    RetiredRowIs(m, before, next, r);
  }

  lemma StepTermsHold(m: Mapping, table: Table, before: Root, next: Run)
    requires Encodes(m, table, before) && BatchFor(before, next).Some?
    ensures var s := WriteStatement(m, BatchFor(before, next).value);
            s.Some? && AllHold(table, s.value.terms) && DistinctBeads(s.value.terms)
  {
    TermsApart(m, table, before, next);
    var b := BatchFor(before, next).value;
    RowTermsMet(m, table, before, next);
    RetiredTermsMet(m, table, before, next);
    JoinedHold(table, RowTerms(Rows(m, b).value), RetiredTerms(m, b.retired).value);
  }

  lemma JoinedHold(table: Table, a: seq<Term>, b: seq<Term>)
    requires AllHold(table, a) && AllHold(table, b)
    ensures AllHold(table, a + b)
  {
  }

  lemma RowTermsMet(m: Mapping, table: Table, before: Root, next: Run)
    requires Encodes(m, table, before) && BatchFor(before, next).Some? && Rows(m, BatchFor(before, next).value).Some?
    ensures AllHold(table, RowTerms(Rows(m, BatchFor(before, next).value).value))
  {
    var rows := Rows(m, BatchFor(before, next).value).value;
    forall t | t in RowTerms(rows)
      ensures Met(table, t)
    {
      var i :| 0 <= i < |rows| && RowTerms(rows)[i] == t;
      RowTermMet(m, table, before, next, rows[i]);
    }
  }

  lemma RetiredTermsMet(m: Mapping, table: Table, before: Root, next: Run)
    requires Encodes(m, table, before) && BatchFor(before, next).Some? && RetiredTerms(m, BatchFor(before, next).value.retired).Some?
    ensures AllHold(table, RetiredTerms(m, BatchFor(before, next).value.retired).value)
  {
    var retired := BatchFor(before, next).value.retired;
    var terms := RetiredTerms(m, retired).value;
    forall t | t in terms
      ensures Met(table, t)
    {
      var i :| 0 <= i < |terms| && terms[i] == t;
      RetiredTermMet(m, table, before, next, retired[i]);
    }
  }

  lemma WrittenCarries(m: Mapping, table: Table, before: Root, next: Run, id: Text)
    requires Encodes(m, table, before) && BatchFor(before, next).Some? && LegalStep(before.run, next) && next.scope == before.run.scope
    requires id in next.units
    ensures var b := BatchFor(before, next).value;
            && Rows(m, b).Some? && m.beadOf(id).Some?
            && Carries(Written(table, Rows(m, b).value), m.beadOf(id).value, ChildSeal(MakeChild(b.nextRoot, id).value))
  {
    var b := BatchFor(before, next).value;
    EncodedBeadsAreApart(m, table, before);
    BatchExists(before, next);
    RowsApart(m, before, next);
    RowsOfABatch(m, before, next);
    var rows, bead := Rows(m, b).value, m.beadOf(id).value;
    EncodedBeadsAreApart(m, table, before);
    if id in ChangedIds(before.run, next) {
      var w := MoveOf(m, before.run, b.nextRoot, id);
      assert IsMove(m, before.run, b.nextRoot, w);
      RowIsRootOrMove(m, before, next, w);
      FindWriteFinds(rows, w);
    } else if FindWrite(rows, bead).Some? {
      RowIsRootOrMove(m, before, next, FindWrite(rows, bead).value);
      assert false;
    }
  }

  /** The table after the UPDATE for one step; no statement is sent when none can be built. */
  function Stepped(m: Mapping, table: Table, before: Root, next: Run): Table {
    var b := BatchFor(before, next);
    if b.None? then table
    else
      var s := WriteStatement(m, b.value);
      if s.None? then table else Updated(table, s.value.writes, s.value.terms)
  }

  lemma FreshStepLands(m: Mapping, table: Table, before: Root, next: Run)
    requires Encodes(m, table, before) && LegalStep(before.run, next) && next.scope == before.run.scope
    ensures BatchFor(before, next).Some? && Encodes(m, Stepped(m, table, before, next), BatchFor(before, next).value.nextRoot)
  {
    LegalStepIsAccepted(before, next);
    StepTermsHold(m, table, before, next);
    var b := BatchFor(before, next).value;
    var s := WriteStatement(m, b).value;
    CountedUpdateIsAllOrNothing(table, s.writes, s.terms);
    var after := Written(table, s.writes);
    assert Stepped(m, table, before, next) == after;
    forall id | id in next.units
      ensures m.beadOf(id).Some? && Carries(after, m.beadOf(id).value, ChildSeal(MakeChild(b.nextRoot, id).value))
    {
      WrittenCarries(m, table, before, next, id);
    }
    RootWritten(m, table, before, next);
    NextIsMapped(m, before.run, next);
  }

  lemma NextIsMapped(m: Mapping, before: Run, next: Run)
    requires Mapped(m, before) && LegalStep(before, next)
    ensures Mapped(m, next)
  {
    forall id | id in next.units
      ensures id in before.units
    {
      assert id in ChangedIds(before, next) || id in before.units;
    }
  }

  lemma RootWritten(m: Mapping, table: Table, before: Root, next: Run)
    requires Encodes(m, table, before) && BatchFor(before, next).Some?
    ensures var b := BatchFor(before, next).value;
            Rows(m, b).Some? && Carries(Written(table, Rows(m, b).value), m.rootBead, RootSeal(b.nextRoot))
  {
    var b := BatchFor(before, next).value;
    EncodedBeadsAreApart(m, table, before);
    BatchExists(before, next);
    RowsApart(m, before, next);
    RowIsRootOrMove(m, before, next, RootWrite(m, b));
    FindWriteFinds(Rows(m, b).value, RootWrite(m, b));
  }

  lemma RootTermIsCounted(m: Mapping, b: Batch)
    requires WriteStatement(m, b).Some?
    ensures Term(m.rootBead, b.expectedAggregateCommitment, None) in WriteStatement(m, b).value.terms
  {
    var s := WriteStatement(m, b).value;
    assert RootWrite(m, b) in s.writes;
    var i :| 0 <= i < |s.writes| && s.writes[i] == RootWrite(m, b);
    assert s.terms[i] == Term(m.rootBead, b.expectedAggregateCommitment, None);
  }

  lemma MovedRootRefuses(m: Mapping, table: Table, stored: Root, b: Batch)
    requires Encodes(m, table, stored) && stored.aggregateCommitment != b.expectedAggregateCommitment
    requires WriteStatement(m, b).Some?
    ensures var s := WriteStatement(m, b).value; Updated(table, s.writes, s.terms) == table
  {
    var s := WriteStatement(m, b).value;
    CountedUpdateIsAllOrNothing(table, s.writes, s.terms);
    RootTermIsCounted(m, b);
    assert !Met(table, Term(m.rootBead, b.expectedAggregateCommitment, None));
  }

  lemma StaleStepIsRefused(m: Mapping, table: Table, stored: Root, before: Root, next: Run)
    requires Encodes(m, table, stored) && ValidRoot(before) && stored.run != before.run
    ensures Stepped(m, table, before, next) == table
  {
    var b := BatchFor(before, next);
    if b.Some? && WriteStatement(m, b.value).Some? {
      MovedRootRefuses(m, table, stored, b.value);
    }
  }

  /**
   For a table that encodes a run, the UPDATE built for a legal step from `before` is a compare-and-swap
   on the whole aggregate: it makes the table encode the next run when the stored run is the one the
   batch was built from, and changes nothing when it is any other run.
   */
  lemma UpdateIsCompareAndSwap(m: Mapping, table: Table, stored: Root, before: Root, next: Run)
    requires Encodes(m, table, stored) && ValidRoot(before) && LegalStep(before.run, next) && next.scope == before.run.scope
    ensures BatchFor(before, next).Some?
    ensures stored.run == before.run ==> Encodes(m, Stepped(m, table, before, next), BatchFor(before, next).value.nextRoot)
    ensures stored.run != before.run ==> Stepped(m, table, before, next) == table
  {
    LegalStepIsAccepted(before, next);
    if stored.run == before.run {
      BatchDependsOnTheRun(stored, before, next);
      FreshStepLands(m, table, stored, next);
    } else {
      StaleStepIsRefused(m, table, stored, before, next);
    }
  }

  /** No row but the root's and the changed units' moves: retired rows and foreign beads stay as they were. */
  lemma OnlyTheStepIsWritten(m: Mapping, table: Table, before: Root, next: Run, bead: Text)
    requires Encodes(m, table, before) && LegalStep(before.run, next) && bead in table && bead != m.rootBead
    requires forall id :: id in ChangedIds(before.run, next) && m.beadOf(id).Some? ==> m.beadOf(id).value != bead
    ensures bead in Stepped(m, table, before, next) && Stepped(m, table, before, next)[bead] == table[bead]
  {
    LegalStepIsAccepted(before, next);
    var b := BatchFor(before, next).value;
    RowsOfABatch(m, before, next);
    var rows := Rows(m, b).value;
    if FindWrite(rows, bead).Some? {
      RowIsRootOrMove(m, before, next, FindWrite(rows, bead).value);
      assert false;
    }
  }

  // ---------------------------------------------------------------- any batch, any table

  predicate Keeps(m: Mapping, table: Table, unitId: Text, commitment: Commitment, revision: Option<nat>) {
    var bead := m.beadOf(unitId);
    && bead.Some? && bead.value in table
    && StoredCommitment(table[bead.value].sce) == Some(commitment)
    && (revision.Some? ==> StoredRevision(table[bead.value].sce) == revision)
  }

  /** The beads a batch names: the root's, the changed units', the retired units'. */
  function NamedBeads(m: Mapping, b: Batch): (beads: seq<Option<Text>>)
    ensures |beads| == 1 + |b.changedRows| + |b.retired|
  {
    [Some(m.rootBead)] + seq(|b.changedRows|, i requires 0 <= i < |b.changedRows| => m.beadOf(b.changedRows[i].unitId))
                       + seq(|b.retired|, i requires 0 <= i < |b.retired| => m.beadOf(b.retired[i].unitId))
  }

  predicate BeadsApart(beads: seq<Option<Text>>) {
    forall i, j :: 0 <= i < j < |beads| ==> beads[i] != beads[j]
  }

  /** Every row the batch was built from is still as it was, and no two of them are one bead. */
  predicate StillLoaded(m: Mapping, table: Table, b: Batch) {
    && m.rootBead in table && StoredCommitment(table[m.rootBead].sce) == Some(b.expectedAggregateCommitment)
    && (forall row :: row in b.changedRows ==> Keeps(m, table, row.unitId, row.expectedCommitment, None))
    && (forall r :: r in b.retired ==> Keeps(m, table, r.unitId, r.commitment, Some(r.revision)))
    && BeadsApart(NamedBeads(m, b))
  }

  /** A statement can be built: each row has a bead and what to write, and with a retirement the beads are apart. */
  predicate Writable(m: Mapping, b: Batch) {
    && (forall row :: row in b.changedRows ==> m.beadOf(row.unitId).Some? && exists c :: c in b.nextChildren && c.unitId == row.unitId)
    && (forall r :: r in b.retired ==> m.beadOf(r.unitId).Some?)
    && (b.retired != [] ==> BeadsApart(NamedBeads(m, b)))
  }

  /** What becomes of one row: the root's and the changed units' get their next projection, no other changes. */
  ghost predicate Moves(m: Mapping, b: Batch, bead: Text, was: Row, now: Row) {
    && now == was.(sce := now.sce)
    && (bead == m.rootBead ==> now.sce == Sealed(Envelope(b.nextRoot.aggregateCommitment, RootProjection(b.nextRoot))))
    && (forall row :: row in b.changedRows && m.beadOf(row.unitId) == Some(bead) ==>
          exists c :: c in b.nextChildren && c.unitId == row.unitId && now.sce == Sealed(Envelope(c.commitment, ChildProjection(c))))
    && (bead != m.rootBead && (forall row :: row in b.changedRows ==> m.beadOf(row.unitId) != Some(bead)) ==> now == was)
  }

  ghost predicate AllMoved(m: Mapping, b: Batch, was: Table, now: Table) {
    now.Keys == was.Keys && forall bead :: bead in was ==> Moves(m, b, bead, was[bead], now[bead])
  }

  lemma ChildWriteIs(m: Mapping, b: Batch, row: ChangedRow)
    ensures ChildWrite(m, b, row).Some? <==> m.beadOf(row.unitId).Some? && exists c :: c in b.nextChildren && c.unitId == row.unitId
    ensures ChildWrite(m, b, row).Some? ==>
              var w := ChildWrite(m, b, row).value;
              && m.beadOf(row.unitId) == Some(w.bead) && w.expected == row.expectedCommitment
              && exists c :: c in b.nextChildren && c.unitId == row.unitId && w.next == Envelope(c.commitment, ChildProjection(c))
  {
  }

  lemma WritesOfABatch(m: Mapping, b: Batch, w: WriteRow)
    requires Rows(m, b).Some?
    ensures w in Rows(m, b).value <==> w == RootWrite(m, b) || exists row :: row in b.changedRows && ChildWrite(m, b, row) == Some(w)
  {
    var moves := ChildWrites(m, b, b.changedRows).value;
    assert w in Rows(m, b).value <==> w == RootWrite(m, b) || w in moves;
    if w in moves {
      var i :| 0 <= i < |moves| && moves[i] == w;
      assert b.changedRows[i] in b.changedRows;
    }
    if exists row :: row in b.changedRows && ChildWrite(m, b, row) == Some(w) {
      var row :| row in b.changedRows && ChildWrite(m, b, row) == Some(w);
      var i :| 0 <= i < |b.changedRows| && b.changedRows[i] == row;
      assert moves[i] == w;
    }
  }

  lemma WriteIsMet(m: Mapping, table: Table, b: Batch, row: ChangedRow)
    requires ChildWrite(m, b, row).Some?
    ensures var w := ChildWrite(m, b, row).value;
            Met(table, Term(w.bead, w.expected, None)) <==> Keeps(m, table, row.unitId, row.expectedCommitment, None)
  {
    ChildWriteIs(m, b, row);
  }

  lemma RowTermsHold(m: Mapping, table: Table, b: Batch)
    requires Rows(m, b).Some?
    ensures AllHold(table, RowTerms(Rows(m, b).value)) <==>
            && Met(table, Term(m.rootBead, b.expectedAggregateCommitment, None))
            && forall row :: row in b.changedRows ==> Keeps(m, table, row.unitId, row.expectedCommitment, None)
  {
    var rows := Rows(m, b).value;
    var terms := RowTerms(rows);
    assert RootWrite(m, b) in rows by { WritesOfABatch(m, b, RootWrite(m, b)); }
    if AllHold(table, terms) {
      TermOfWrite(rows, RootWrite(m, b));
      forall row | row in b.changedRows
        ensures Keeps(m, table, row.unitId, row.expectedCommitment, None)
      {
        var w := ChildWrite(m, b, row).value;
        WritesOfABatch(m, b, w);
        TermOfWrite(rows, w);
        WriteIsMet(m, table, b, row);
      }
    }
    if Met(table, Term(m.rootBead, b.expectedAggregateCommitment, None))
       && forall row :: row in b.changedRows ==> Keeps(m, table, row.unitId, row.expectedCommitment, None) {
      forall t | t in terms
        ensures Met(table, t)
      {
        var i :| 0 <= i < |rows| && terms[i] == t;
        WritesOfABatch(m, b, rows[i]);
        if rows[i] != RootWrite(m, b) {
          var row :| row in b.changedRows && ChildWrite(m, b, row) == Some(rows[i]);
          WriteIsMet(m, table, b, row);
        }
      }
    }
  }

  lemma TermOfWrite(rows: seq<WriteRow>, w: WriteRow)
    requires w in rows
    ensures Term(w.bead, w.expected, None) in RowTerms(rows)
  {
    var i :| 0 <= i < |rows| && rows[i] == w;
    assert RowTerms(rows)[i] == Term(w.bead, w.expected, None);
  }

  lemma RetiredTermsHold(m: Mapping, table: Table, b: Batch)
    requires RetiredTerms(m, b.retired).Some?
    ensures AllHold(table, RetiredTerms(m, b.retired).value) <==>
            forall r :: r in b.retired ==> Keeps(m, table, r.unitId, r.commitment, Some(r.revision))
  {
    var terms := RetiredTerms(m, b.retired).value;
    if AllHold(table, terms) {
      forall r | r in b.retired
        ensures Keeps(m, table, r.unitId, r.commitment, Some(r.revision))
      {
        var i :| 0 <= i < |b.retired| && b.retired[i] == r;
        assert terms[i] in terms;
      }
    }
    if forall r :: r in b.retired ==> Keeps(m, table, r.unitId, r.commitment, Some(r.revision)) {
      forall t | t in terms
        ensures Met(table, t)
      {
        var i :| 0 <= i < |terms| && terms[i] == t;
        assert b.retired[i] in b.retired;
      }
    }
  }

  lemma JoinedTermsHold(table: Table, a: seq<Term>, b: seq<Term>)
    ensures AllHold(table, a + b) <==> AllHold(table, a) && AllHold(table, b)
  {
    if AllHold(table, a + b) {
      assert forall t :: t in a ==> t in a + b;
      assert forall t :: t in b ==> t in a + b;
    }
  }

  /** Distinctness of a list in two parts. */
  lemma ApartInParts(a: seq<Term>, b: seq<Term>)
    ensures DistinctBeads(a + b) <==>
            DistinctBeads(a) && DistinctBeads(b) && forall t, u :: t in a && u in b ==> t.bead != u.bead
  {
    var ab := a + b;
    if DistinctBeads(ab) {
      forall i, j | 0 <= i < j < |a|
        ensures a[i].bead != a[j].bead
      {
        assert ab[i].bead != ab[j].bead;
      }
      forall i, j | 0 <= i < j < |b|
        ensures b[i].bead != b[j].bead
      {
        assert ab[|a| + i].bead != ab[|a| + j].bead;
      }
      forall t, u | t in a && u in b
        ensures t.bead != u.bead
      {
        var i :| 0 <= i < |a| && a[i] == t;
        var j :| 0 <= j < |b| && b[j] == u;
        assert ab[i].bead != ab[|a| + j].bead;
      }
    }
    if DistinctBeads(a) && DistinctBeads(b) && forall t, u :: t in a && u in b ==> t.bead != u.bead {
      forall i, j | 0 <= i < j < |ab|
        ensures ab[i].bead != ab[j].bead
      {
        if j < |a| {
          assert a[i].bead != a[j].bead;
        } else if i >= |a| {
          assert b[i - |a|].bead != b[j - |a|].bead;
        } else {
          assert a[i] in a && b[j - |a|] in b;
        }
      }
    }
  }

  lemma RowTermsApart(rows: seq<WriteRow>)
    ensures DistinctBeads(RowTerms(rows)) <==> DistinctBy(rows, WriteBead)
  {
    if DistinctBeads(RowTerms(rows)) {
      forall i, j | 0 <= i < j < |rows|
        ensures WriteBead(rows[i]) != WriteBead(rows[j])
      {
        assert RowTerms(rows)[i].bead != RowTerms(rows)[j].bead;
      }
    }
    if DistinctBy(rows, WriteBead) {
      forall i, j | 0 <= i < j < |rows|
        ensures RowTerms(rows)[i].bead != RowTerms(rows)[j].bead
      {
        assert WriteBead(rows[i]) != WriteBead(rows[j]);
      }
    }
  }

  /** Sorting the rows does not matter to whether the beads differ. */
  lemma SortingKeepsApart(rows: seq<WriteRow>, retired: seq<Term>)
    ensures DistinctBeads(RowTerms(SortBy(rows, WriteBead)) + retired) <==> DistinctBeads(RowTerms(rows) + retired)
  {
    var sorted := SortBy(rows, WriteBead);
    SortBySorts(rows, WriteBead);
    RowTermsApart(rows);
    RowTermsApart(sorted);
    ApartInParts(RowTerms(rows), retired);
    ApartInParts(RowTerms(sorted), retired);
    SameTerms(rows, sorted);
  }

  lemma SameTerms(a: seq<WriteRow>, b: seq<WriteRow>)
    requires forall w :: w in a <==> w in b
    ensures forall t :: t in RowTerms(a) <==> t in RowTerms(b)
  {
    forall t | t in RowTerms(a)
      ensures t in RowTerms(b)
    {
      var i :| 0 <= i < |a| && RowTerms(a)[i] == t;
      assert a[i] in b;
      TermOfWrite(b, a[i]);
    }
    forall t | t in RowTerms(b)
      ensures t in RowTerms(a)
    {
      var i :| 0 <= i < |b| && RowTerms(b)[i] == t;
      assert b[i] in a;
      TermOfWrite(a, b[i]);
    }
  }

  lemma UnsortedBeads(m: Mapping, b: Batch)
    requires Rows(m, b).Some? && RetiredTerms(m, b.retired).Some?
    ensures DistinctBeads(RowTerms([RootWrite(m, b)] + ChildWrites(m, b, b.changedRows).value) + RetiredTerms(m, b.retired).value) <==>
            BeadsApart(NamedBeads(m, b))
  {
    var terms := RowTerms([RootWrite(m, b)] + ChildWrites(m, b, b.changedRows).value) + RetiredTerms(m, b.retired).value;
    var beads := NamedBeads(m, b);
    assert |terms| == |beads|;
    forall i | 0 <= i < |beads|
      ensures beads[i] == Some(terms[i].bead)
    {
      if 0 < i <= |b.changedRows| { ChildWriteIs(m, b, b.changedRows[i - 1]); }
    }
    if DistinctBeads(terms) {
      forall i, j | 0 <= i < j < |beads|
        ensures beads[i] != beads[j]
      {
        assert terms[i].bead != terms[j].bead;
      }
    }
    if BeadsApart(beads) {
      forall i, j | 0 <= i < j < |terms|
        ensures terms[i].bead != terms[j].bead
      {
        assert beads[i] != beads[j];
      }
    }
  }

  /** A statement is built exactly for the batches that can be written. */
  lemma StatementIsBuilt(m: Mapping, b: Batch)
    ensures WriteStatement(m, b).Some? <==> Writable(m, b)
  {
    forall row | row in b.changedRows
      ensures ChildWrite(m, b, row).Some? <==> m.beadOf(row.unitId).Some? && exists c :: c in b.nextChildren && c.unitId == row.unitId
    {
      ChildWriteIs(m, b, row);
    }
    if Rows(m, b).Some? && RetiredTerms(m, b.retired).Some? {
      SortingKeepsApart([RootWrite(m, b)] + ChildWrites(m, b, b.changedRows).value, RetiredTerms(m, b.retired).value);
      UnsortedBeads(m, b);
    }
  }

  /** The counted guard of a batch's statement, in the batch's own terms. */
  lemma GuardIsStillLoaded(m: Mapping, table: Table, b: Batch)
    requires WriteStatement(m, b).Some?
    ensures var s := WriteStatement(m, b).value;
            |Counted(table, s.terms)| == |s.terms| <==> StillLoaded(m, table, b)
  {
    var s, retired := WriteStatement(m, b).value, RetiredTerms(m, b.retired).value;
    CountBounds(table, s.terms);
    JoinedTermsHold(table, RowTerms(s.writes), retired);
    RowTermsHold(m, table, b);
    RetiredTermsHold(m, table, b);
    SortingKeepsApart([RootWrite(m, b)] + ChildWrites(m, b, b.changedRows).value, retired);
    UnsortedBeads(m, b);
  }

  lemma RowsAreDistinct(m: Mapping, b: Batch)
    requires WriteStatement(m, b).Some? && BeadsApart(NamedBeads(m, b))
    ensures DistinctBy(WriteStatement(m, b).value.writes, WriteBead)
  {
    var s, retired := WriteStatement(m, b).value, RetiredTerms(m, b.retired).value;
    SortingKeepsApart([RootWrite(m, b)] + ChildWrites(m, b, b.changedRows).value, retired);
    UnsortedBeads(m, b);
    ApartInParts(RowTerms(s.writes), retired);
    RowTermsApart(s.writes);
  }

  lemma WrittenMoves(m: Mapping, b: Batch, table: Table, bead: Text)
    requires WriteStatement(m, b).Some? && BeadsApart(NamedBeads(m, b)) && bead in table
    ensures Moves(m, b, bead, table[bead], Written(table, WriteStatement(m, b).value.writes)[bead])
  {
    var rows := WriteStatement(m, b).value.writes;
    RowsAreDistinct(m, b);
    if bead == m.rootBead {
      WritesOfABatch(m, b, RootWrite(m, b));
      FindWriteFinds(rows, RootWrite(m, b));
    }
    forall row | row in b.changedRows && m.beadOf(row.unitId) == Some(bead)
      ensures exists c :: c in b.nextChildren && c.unitId == row.unitId
                          && Written(table, rows)[bead].sce == Sealed(Envelope(c.commitment, ChildProjection(c)))
    {
      var w := ChildWrite(m, b, row).value;
      ChildWriteIs(m, b, row);
      WritesOfABatch(m, b, w);
      FindWriteFinds(rows, w);
    }
    if FindWrite(rows, bead).Some? {
      WritesOfABatch(m, b, FindWrite(rows, bead).value);
      if bead != m.rootBead {
        var row :| row in b.changedRows && ChildWrite(m, b, row) == FindWrite(rows, bead);
        ChildWriteIs(m, b, row);
      }
    }
  }

  /**
   For any table and any batch that yields a statement, the UPDATE is one compare-and-swap on every row the
   batch names: it writes the next projections, and nothing else, exactly when the root's row, each changed
   unit's and each retired unit's are still as they were loaded and are all different beads; otherwise it
   changes nothing.
   */
  lemma StatementIsCompareAndSwap(m: Mapping, table: Table, b: Batch)
    requires WriteStatement(m, b).Some?
    ensures var s := WriteStatement(m, b).value; var after := Updated(table, s.writes, s.terms);
            if StillLoaded(m, table, b) then AllMoved(m, b, table, after) else after == table
  {
    var s := WriteStatement(m, b).value;
    GuardIsStillLoaded(m, table, b);
    if StillLoaded(m, table, b) {
      forall bead | bead in table
        ensures Moves(m, b, bead, table[bead], Written(table, s.writes)[bead])
      {
        WrittenMoves(m, b, table, bead);
      }
    }
  }
}

/**
 Reading the aggregate back (`load`, `projectionRows` and `discoverAt` in
 src/adapters/beads-embedded/dolt-projections.ts) and the store object that performs a mutation.
 */
module RowReads {
  import opened Wrappers
  import opened Collections
  import opened Text
  import opened Fencing
  import opened RowStore

  datatype Loaded = Unavailable | Absent | Ambiguous | Observed(readback: Readback)

  datatype Record = Record(bead: Text, sce: Sce)

  /** SELECT id, sce FROM issues WHERE id IN (ids) ORDER BY id. */
  function Select(table: Table, ids: set<Text>): (records: seq<Record>)
    ensures |records| == |ids * table.Keys|
    ensures forall i :: 0 <= i < |records| ==>
              records[i].bead in table && records[i] == Record(Listing(ids * table.Keys)[i], table[records[i].bead].sce)
  {
    var found := Listing(ids * table.Keys);
    assert forall i :: 0 <= i < |found| ==> found[i] in found;
    seq(|found|, i requires 0 <= i < |found| => Record(found[i], table[found[i]].sce))
  }

  predicate FromTable(table: Table, records: seq<Record>) {
    forall i :: 0 <= i < |records| ==> records[i].bead in table && records[i].sce == table[records[i].bead].sce
  }

  predicate Apart(records: seq<Record>) {
    forall i, j :: 0 <= i < j < |records| ==> records[i].bead != records[j].bead
  }

  lemma SelectedOnce(table: Table, ids: set<Text>)
    ensures var records := Select(table, ids);
            && (forall i :: 0 <= i < |records| ==> records[i].bead in ids)
            && FromTable(table, records) && Apart(records)
            && (forall id :: id in ids && id in table ==> exists i :: 0 <= i < |records| && records[i].bead == id)
  {
    var records, found := Select(table, ids), Listing(ids * table.Keys);
    forall i | 0 <= i < |records|
      ensures records[i].bead in ids
    {
      assert found[i] in found;
    }
    forall i, j | 0 <= i < j < |records|
      ensures records[i].bead != records[j].bead
    {
      LessIsStrict(found[i], found[j]);
    }
    forall id | id in ids && id in table
      ensures exists i :: 0 <= i < |records| && records[i].bead == id
    {
      assert id in found;
      var i :| 0 <= i < |found| && found[i] == id;
      assert records[i].bead == id;
    }
  }

  /** The root an envelope seals, when the fencing layer accepts it. */
  function SealedRoot(sce: Sce): Option<Root> {
    match sce
    case Sealed(Envelope(commitment, RootProjection(root))) =>
      if ValidRoot(root) && root.aggregateCommitment == commitment then Some(root) else None
    case _ => None
  }

  function SealedChild(sce: Sce): Option<Child> {
    match sce
    case Sealed(Envelope(commitment, ChildProjection(child))) =>
      if ValidChild(child) && child.commitment == commitment then Some(child) else None
    case _ => None
  }

  /**
   What a load must answer: an unsealed root bead is positive absence, rows that are exactly one
   aggregate are that aggregate with its children in unit order, and anything else is ambiguous.
   */
  function LoadAt(m: Mapping, table: Table): Loaded {
    if m.rootBead !in table then Ambiguous
    else if table[m.rootBead].sce.Missing? then Absent
    else
      var root := SealedRoot(table[m.rootBead].sce);
      if root.Some? && Encodes(m, table, root.value) then Observed(Readback(root.value, ChildrenOf(root.value)))
      else Ambiguous
  }

  function ChildBeads(m: Mapping, rows: seq<ChildRow>): (beads: Option<seq<Text>>)
    ensures beads.Some? <==> forall row :: row in rows ==> m.beadOf(row.unitId).Some?
    ensures beads.Some? ==> |beads.value| == |rows|
    ensures beads.Some? ==> forall i :: 0 <= i < |rows| ==> Some(beads.value[i]) == m.beadOf(rows[i].unitId)
  {
    if rows == [] then Some([])
    else
      assert rows == [rows[0]] + rows[1..];
      var bead, rest := m.beadOf(rows[0].unitId), ChildBeads(m, rows[1..]);
      if bead.Some? && rest.Some? then Some([bead.value] + rest.value) else None
  }

  predicate AllDistinct(beads: seq<Text>) {
    forall i, j :: 0 <= i < j < |beads| ==> beads[i] != beads[j]
  }

  function ChildUnit(child: Child): Text {
    child.unitId
  }

  /** The row a child record must be for the root to vouch for it. */
  predicate Accepted(m: Mapping, root: Root, record: Record) {
    var child := SealedChild(record.sce);
    && child.Some?
    && child.value.unitId in root.run.units
    && m.beadOf(child.value.unitId) == Some(record.bead)
    && child == MakeChild(root, child.value.unitId)
  }

  lemma UnitAt(run: Run, id: Text) returns (i: nat)
    requires id in run.units
    ensures i < |run.units| && Listing(run.units.Keys)[i] == id
  {
    var ids := Listing(run.units.Keys);
    assert id in ids;
    i :| 0 <= i < |ids| && ids[i] == id;
  }

  lemma MappedHasDistinctBeads(m: Mapping, root: Root)
    requires ValidRoot(root) && Mapped(m, root.run)
    ensures ChildBeads(m, root.childRows).Some? && AllDistinct(ChildBeads(m, root.childRows).value)
  {
    var rows, ids := root.childRows, Listing(root.run.units.Keys);
    assert forall i :: 0 <= i < |rows| ==> rows[i].unitId in root.run.units;
    var beads := ChildBeads(m, rows).value;
    forall i, j | 0 <= i < j < |beads|
      ensures beads[i] != beads[j]
    {
      assert rows[i].unitId == ids[i] && rows[j].unitId == ids[j];
      LessIsStrict(ids[i], ids[j]);
    }
  }

  lemma DistinctBeadsAreMapped(m: Mapping, root: Root)
    requires ValidRoot(root) && ChildBeads(m, root.childRows).Some? && AllDistinct(ChildBeads(m, root.childRows).value)
    ensures Mapped(m, root.run)
  {
    var beads := ChildBeads(m, root.childRows).value;
    forall id | id in root.run.units
      ensures m.beadOf(id).Some?
    {
      var i := UnitAt(root.run, id);
      assert root.childRows[i] in root.childRows;
    }
    forall a, b | a in root.run.units && b in root.run.units && a != b
      ensures m.beadOf(a) != m.beadOf(b)
    {
      var i := UnitAt(root.run, a);
      var j := UnitAt(root.run, b);
      assert Some(beads[i]) == m.beadOf(a) && Some(beads[j]) == m.beadOf(b);
      if i < j { assert beads[i] != beads[j]; } else { assert beads[j] != beads[i]; }
    }
  }

  lemma BeadsOfUnits(m: Mapping, root: Root, bead: Text)
    requires ValidRoot(root) && ChildBeads(m, root.childRows).Some?
    ensures bead in ChildBeads(m, root.childRows).value <==> exists id :: id in root.run.units && m.beadOf(id) == Some(bead)
  {
    var rows, beads := root.childRows, ChildBeads(m, root.childRows).value;
    if bead in beads {
      var i :| 0 <= i < |beads| && beads[i] == bead;
      assert rows[i].unitId in root.run.units && m.beadOf(rows[i].unitId) == Some(bead);
    }
    if exists id :: id in root.run.units && m.beadOf(id) == Some(bead) {
      var id :| id in root.run.units && m.beadOf(id) == Some(bead);
      BeadOfUnit(m, root, id);
    }
  }

  lemma BeadOfUnit(m: Mapping, root: Root, id: Text)
    requires ValidRoot(root) && ChildBeads(m, root.childRows).Some? && id in root.run.units
    ensures m.beadOf(id).Some? && m.beadOf(id).value in ChildBeads(m, root.childRows).value
  {
    var i := UnitAt(root.run, id);
    assert root.childRows[i].unitId == id;
    assert Some(ChildBeads(m, root.childRows).value[i]) == m.beadOf(id);
  }

  /** In a table that encodes the root, every record of its beads is accepted. */
  lemma EncodedRecordIsAccepted(m: Mapping, table: Table, root: Root, record: Record)
    requires Encodes(m, table, root) && ChildBeads(m, root.childRows).Some?
    requires record.bead in ChildBeads(m, root.childRows).value && record.bead in table && record.sce == table[record.bead].sce
    ensures Accepted(m, root, record)
  {
    BeadsOfUnits(m, root, record.bead);
    var id :| id in root.run.units && m.beadOf(id) == Some(record.bead);
    assert Carries(table, record.bead, ChildSeal(MakeChild(root, id).value));
  }

  predicate Covers(m: Mapping, root: Root, records: seq<Record>) {
    forall id :: id in root.run.units ==> exists i :: 0 <= i < |records| && Some(records[i].bead) == m.beadOf(id)
  }

  predicate AllAccepted(m: Mapping, root: Root, records: seq<Record>, children: seq<Child>) {
    && |children| == |records|
    && forall i :: 0 <= i < |records| ==> Accepted(m, root, records[i]) && SealedChild(records[i].sce) == Some(children[i])
  }

  lemma {:induction false} DistinctSize(beads: seq<Text>)
    requires AllDistinct(beads)
    ensures |set b | b in beads| == |beads|
  {
    if beads != [] {
      DistinctSize(beads[1..]);
      assert beads == [beads[0]] + beads[1..];
      assert (set b | b in beads) == {beads[0]} + set b | b in beads[1..];
    }
  }

  predicate AllStored(table: Table, beads: seq<Text>) {
    forall b :: b in beads ==> b in table
  }

  /** As many records as beads: none of the beads is missing from the table. */
  lemma SelectionSize(table: Table, beads: seq<Text>)
    requires AllDistinct(beads)
    ensures |Select(table, set b | b in beads)| == |beads| <==> AllStored(table, beads)
  {
    var ids := set b | b in beads;
    DistinctSize(beads);
    if |ids * table.Keys| == |beads| {
      SubsetOfSameSize(ids * table.Keys, ids);
      forall b | b in beads
        ensures b in table
      {
        assert b in ids;
      }
    }
    if AllStored(table, beads) {
      assert ids * table.Keys == ids;
    }
  }

  lemma StoredBeadsCover(m: Mapping, table: Table, root: Root)
    requires ValidRoot(root) && ChildBeads(m, root.childRows).Some? && AllStored(table, ChildBeads(m, root.childRows).value)
    ensures Covers(m, root, Select(table, set b | b in ChildBeads(m, root.childRows).value))
  {
    var beads := ChildBeads(m, root.childRows).value;
    var ids := set b | b in beads;
    SelectedOnce(table, ids);
    forall id | id in root.run.units
      ensures exists i :: 0 <= i < |Select(table, ids)| && Some(Select(table, ids)[i].bead) == m.beadOf(id)
    {
      var k := UnitAt(root.run, id);
      assert beads[k] in ids && Some(beads[k]) == m.beadOf(id);
    }
  }

  /** The records of the second query: one for each bead the root refers to. */
  predicate Ready(m: Mapping, table: Table, root: Root, records: seq<Record>) {
    && ChildBeads(m, root.childRows).Some?
    && FromTable(table, records) && Apart(records) && Covers(m, root, records)
    && forall i :: 0 <= i < |records| ==> records[i].bead in ChildBeads(m, root.childRows).value
  }

  lemma SelectionIsReady(m: Mapping, table: Table, root: Root)
    requires ValidRoot(root) && ChildBeads(m, root.childRows).Some? && AllStored(table, ChildBeads(m, root.childRows).value)
    ensures Ready(m, table, root, Select(table, set b | b in ChildBeads(m, root.childRows).value))
  {
    StoredBeadsCover(m, table, root);
    SelectedOnce(table, set b | b in ChildBeads(m, root.childRows).value);
  }

  lemma EncodedBeadsAreStored(m: Mapping, table: Table, root: Root)
    requires Encodes(m, table, root) && ChildBeads(m, root.childRows).Some?
    ensures AllStored(table, ChildBeads(m, root.childRows).value)
  {
    forall b | b in ChildBeads(m, root.childRows).value
      ensures b in table
    {
      BeadsOfUnits(m, root, b);
    }
  }

  /** Conversely, a sealed root whose beads are all there and all accepted is encoded. */
  lemma AcceptedRecordsEncode(m: Mapping, table: Table, root: Root, records: seq<Record>, children: seq<Child>)
    requires ValidRoot(root) && Mapped(m, root.run) && Carries(table, m.rootBead, RootSeal(root))
    requires FromTable(table, records)
    requires AllAccepted(m, root, records, children) && Covers(m, root, records)
    ensures Encodes(m, table, root)
  {
    forall id | id in root.run.units
      ensures Carries(table, m.beadOf(id).value, ChildSeal(MakeChild(root, id).value))
    {
      var i :| 0 <= i < |records| && Some(records[i].bead) == m.beadOf(id);
      assert Accepted(m, root, records[i]);
      assert SealedChild(records[i].sce).value.unitId == id;
    }
  }

  lemma AcceptedChildIsTheRoots(m: Mapping, root: Root, records: seq<Record>, children: seq<Child>, c: Child)
    requires ValidRoot(root) && Mapped(m, root.run)
    requires AllAccepted(m, root, records, children) && Covers(m, root, records)
    ensures c in children <==> c in ChildrenOf(root)
  {
    var want := ChildrenOf(root);
    if c in children {
      var i :| 0 <= i < |children| && children[i] == c;
      assert Accepted(m, root, records[i]);
      var k := UnitAt(root.run, c.unitId);
      assert want[k] == c;
    }
    if c in want {
      var k :| 0 <= k < |want| && want[k] == c;
      assert c.unitId in root.run.units;
      var i :| 0 <= i < |records| && Some(records[i].bead) == m.beadOf(c.unitId);
      assert Accepted(m, root, records[i]);
      assert children[i] == c;
    }
  }

  lemma AcceptedChildrenAreDistinct(m: Mapping, root: Root, records: seq<Record>, children: seq<Child>)
    requires Mapped(m, root.run) && AllAccepted(m, root, records, children)
    requires Apart(records)
    ensures DistinctBy(children, ChildUnit)
  {
    forall i, j | 0 <= i < j < |children|
      ensures ChildUnit(children[i]) != ChildUnit(children[j])
    {
      assert Accepted(m, root, records[i]) && Accepted(m, root, records[j]);
    }
  }

  /** Sorting the accepted children by unit gives the root's own list. */
  lemma AcceptedChildrenSort(m: Mapping, root: Root, records: seq<Record>, children: seq<Child>)
    requires ValidRoot(root) && Mapped(m, root.run)
    requires AllAccepted(m, root, records, children) && Covers(m, root, records)
    requires Apart(records)
    ensures SortBy(children, ChildUnit) == ChildrenOf(root)
  {
    AcceptedChildrenAreDistinct(m, root, records, children);
    ChildrenInOrder(root);
    forall c
      ensures c in children <==> c in ChildrenOf(root)
    {
      AcceptedChildIsTheRoots(m, root, records, children, c);
    }
    SortByIsUnique(children, ChildrenOf(root), ChildUnit);
    SortedStays(ChildrenOf(root), ChildUnit);
  }

  lemma ChildrenInOrder(root: Root)
    requires ValidRoot(root)
    ensures DistinctBy(ChildrenOf(root), ChildUnit) && OrderedBy(ChildrenOf(root), ChildUnit)
  {
    var want, ids := ChildrenOf(root), Listing(root.run.units.Keys);
    forall i, j | 0 <= i < j < |want|
      ensures ChildUnit(want[i]) != ChildUnit(want[j]) && !Less(ChildUnit(want[j]), ChildUnit(want[i]))
    {
      LessIsStrict(ids[i], ids[j]);
    }
  }

  lemma MissingRowIsAmbiguous(m: Mapping, table: Table, root: Root)
    requires m.rootBead in table && SealedRoot(table[m.rootBead].sce) == Some(root)
    requires ChildBeads(m, root.childRows).Some? && AllDistinct(ChildBeads(m, root.childRows).value)
    requires !AllStored(table, ChildBeads(m, root.childRows).value)
    ensures LoadAt(m, table) == Ambiguous
  {
    if Encodes(m, table, root) {
      EncodedBeadsAreStored(m, table, root);
    }
  }

  lemma AcceptedRowsLoad(m: Mapping, table: Table, root: Root, records: seq<Record>, children: seq<Child>)
    requires m.rootBead in table && SealedRoot(table[m.rootBead].sce) == Some(root) && Mapped(m, root.run)
    requires FromTable(table, records) && Apart(records) && Covers(m, root, records)
    requires AllAccepted(m, root, records, children)
    ensures LoadAt(m, table) == Observed(Readback(root, SortBy(children, ChildUnit)))
  {
    AcceptedRecordsEncode(m, table, root, records, children);
    AcceptedChildrenSort(m, root, records, children);
  }

  lemma RefusedRecordIsAmbiguous(m: Mapping, table: Table, root: Root, record: Record)
    requires m.rootBead in table && SealedRoot(table[m.rootBead].sce) == Some(root)
    requires ChildBeads(m, root.childRows).Some? && record.bead in ChildBeads(m, root.childRows).value
    requires record.bead in table && record.sce == table[record.bead].sce && !Accepted(m, root, record)
    ensures LoadAt(m, table) == Ambiguous
  {
    if Encodes(m, table, root) {
      EncodedRecordIsAccepted(m, table, root, record);
    }
  }

  lemma NoUnitsLoad(m: Mapping, table: Table, root: Root)
    requires m.rootBead in table && SealedRoot(table[m.rootBead].sce) == Some(root) && |root.childRows| == 0
    ensures LoadAt(m, table) == Observed(Readback(root, []))
  {
    assert root.run.units.Keys == {};
    assert Encodes(m, table, root);
  }

  lemma UnmappedIsAmbiguous(m: Mapping, table: Table, root: Root)
    requires m.rootBead in table && SealedRoot(table[m.rootBead].sce) == Some(root)
    requires ChildBeads(m, root.childRows).None? || !AllDistinct(ChildBeads(m, root.childRows).value)
    ensures LoadAt(m, table) == Ambiguous
  {
    if Mapped(m, root.run) {
      MappedHasDistinctBeads(m, root);
    }
  }

  /** DoltProjectionPersistence.load; each of the two queries may fail to be served. */
  method Load(m: Mapping, table: Table, rootServed: bool, childrenServed: bool) returns (r: Loaded)
    ensures r == LoadAt(m, table) || r.Unavailable?
    ensures rootServed && childrenServed ==> r == LoadAt(m, table)
    ensures !rootServed ==> r.Unavailable?
  {
    if !rootServed { return Unavailable; }
    if m.rootBead !in table { return Ambiguous; }
    if table[m.rootBead].sce.Missing? { return Absent; }
    var sealed := SealedRoot(table[m.rootBead].sce);
    if sealed.None? { return Ambiguous; }
    var root := sealed.value;
    var found := ChildBeads(m, root.childRows);
    if found.None? || !AllDistinct(found.value) {
      UnmappedIsAmbiguous(m, table, root);
      return Ambiguous;
    }
    var beads := found.value;
    if |beads| == 0 {
      NoUnitsLoad(m, table, root);
      return Observed(Readback(root, []));
    }
    DistinctBeadsAreMapped(m, root);
    r := LoadChildren(m, table, root, beads, childrenServed);
  }

  /** The second query of a load, over the beads the root refers to. */
  method LoadChildren(m: Mapping, table: Table, root: Root, beads: seq<Text>, served: bool) returns (r: Loaded)
    requires m.rootBead in table && SealedRoot(table[m.rootBead].sce) == Some(root) && Mapped(m, root.run)
    requires ChildBeads(m, root.childRows) == Some(beads) && AllDistinct(beads)
    ensures r == if served then LoadAt(m, table) else Unavailable
  {
    if !served { return Unavailable; }
    var records := Select(table, set b | b in beads);
    SelectionSize(table, beads);
    if |records| != |beads| {
      MissingRowIsAmbiguous(m, table, root);
      return Ambiguous;
    }
    SelectionIsReady(m, table, root);
    r := ReadChildren(m, table, root, beads, records);
  }

  predicate SeenSoFar(records: seq<Record>, seen: set<Text>) {
    && |seen| == |records|
    && forall b :: b in seen ==> exists k :: 0 <= k < |records| && records[k].bead == b
  }

  predicate ReadSoFar(m: Mapping, root: Root, records: seq<Record>, seen: set<Text>, children: seq<Child>) {
    AllAccepted(m, root, records, children) && SeenSoFar(records, seen)
  }

  lemma OneMoreSeen(records: seq<Record>, record: Record, seen: set<Text>)
    requires Apart(records + [record]) && SeenSoFar(records, seen)
    ensures SeenSoFar(records + [record], seen + {record.bead})
  {
    var now := records + [record];
    assert now[|records|] == record;
    forall b | b in seen
      ensures b != record.bead && exists k :: 0 <= k < |now| && now[k].bead == b
    {
      var k :| 0 <= k < |records| && records[k].bead == b;
      assert now[k].bead == b;
    }
  }

  lemma OneMoreAccepted(m: Mapping, root: Root, records: seq<Record>, record: Record, children: seq<Child>)
    requires AllAccepted(m, root, records, children) && Accepted(m, root, record)
    ensures AllAccepted(m, root, records + [record], children + [SealedChild(record.sce).value])
  {
  }

  lemma OneMoreRead(m: Mapping, root: Root, records: seq<Record>, i: nat, seen: set<Text>, children: seq<Child>)
    requires i < |records| && Apart(records) && ReadSoFar(m, root, records[..i], seen, children) && Accepted(m, root, records[i])
    ensures ReadSoFar(m, root, records[..i + 1], seen + {records[i].bead}, children + [SealedChild(records[i].sce).value])
  {
    assert records[..i + 1] == records[..i] + [records[i]];
    OneMoreSeen(records[..i], records[i], seen);
    OneMoreAccepted(m, root, records[..i], records[i], children);
  }

  lemma AllRead(m: Mapping, table: Table, root: Root, records: seq<Record>, seen: set<Text>, children: seq<Child>)
    requires m.rootBead in table && SealedRoot(table[m.rootBead].sce) == Some(root) && Mapped(m, root.run)
    requires Ready(m, table, root, records)
    requires ReadSoFar(m, root, records[..|records|], seen, children)
    ensures LoadAt(m, table) == Observed(Readback(root, SortBy(children, ChildUnit)))
    ensures |children| == |seen| == |records|
  {
    assert records[..|records|] == records;
    AcceptedRowsLoad(m, table, root, records, children);
  }

  /** The loop over the child records, with its `seen` and `children` accumulators. */
  method ReadChildren(m: Mapping, table: Table, root: Root, beads: seq<Text>, records: seq<Record>) returns (r: Loaded)
    requires m.rootBead in table && SealedRoot(table[m.rootBead].sce) == Some(root) && Mapped(m, root.run)
    requires ChildBeads(m, root.childRows) == Some(beads) && |records| == |beads|
    requires Ready(m, table, root, records)
    ensures r == LoadAt(m, table)
  {
    var seen: set<Text>, children: seq<Child> := {}, [];
    for i := 0 to |records|
      invariant ReadSoFar(m, root, records[..i], seen, children)
    {
      if records[i].bead in seen || !Accepted(m, root, records[i]) {
        SeenTwiceNever(m, root, records, i, seen, children);
        RefusedRecordIsAmbiguous(m, table, root, records[i]);
        return Ambiguous;
      }
      OneMoreRead(m, root, records, i, seen, children);
      seen := seen + {records[i].bead};
      children := children + [SealedChild(records[i].sce).value];
    }
    AllRead(m, table, root, records, seen, children);
    r := if |children| != |root.childRows| || |seen| != |beads| then Ambiguous
         else Observed(Readback(root, SortBy(children, ChildUnit)));
  }

  lemma SeenTwiceNever(m: Mapping, root: Root, records: seq<Record>, i: nat, seen: set<Text>, children: seq<Child>)
    requires i < |records| && Apart(records) && ReadSoFar(m, root, records[..i], seen, children)
    ensures records[i].bead !in seen
  {
  }

  /** Observed is exactness: the answer is the one aggregate the rows encode, never a near miss. */
  lemma LoadIsExact(m: Mapping, table: Table, rb: Readback)
    ensures LoadAt(m, table) == Observed(rb) <==> Encodes(m, table, rb.root) && rb.children == ChildrenOf(rb.root)
  {
  }

  /** A load of an encoded run passes the coordinator's readback check and yields that run. */
  lemma LoadYieldsTheRun(m: Mapping, table: Table, root: Root)
    requires Encodes(m, table, root)
    ensures LoadAt(m, table).Observed? && ValidReadback(LoadAt(m, table).readback, root.scope) == Some(root.run)
  {
    assert LoadAt(m, table) == Observed(Readback(root, ChildrenOf(root)));
    OwnReadback(root);
  }

  lemma OwnReadback(root: Root)
    requires ValidRoot(root)
    ensures ValidReadback(Readback(root, ChildrenOf(root)), root.scope) == Some(root.run)
  {
    ReadbackIsExact(Readback(root, ChildrenOf(root)), root.scope);
  }

  /** Whatever happens to one UPDATE, the next load returns exactly the run before it or the run after it. */
  lemma StepThenLoad(m: Mapping, table: Table, stored: Root, before: Root, next: Run)
    requires Encodes(m, table, stored) && ValidRoot(before) && LegalStep(before.run, next) && next.scope == before.run.scope
    ensures var after := LoadAt(m, Stepped(m, table, before, next));
            after.Observed? && ValidReadback(after.readback, stored.scope) ==
                               Some(if stored.run == before.run then next else stored.run)
  {
    UpdateIsCompareAndSwap(m, table, stored, before, next);
    LoadYieldsTheRun(m, table, stored);
    if stored.run == before.run {
      LoadYieldsTheRun(m, Stepped(m, table, before, next), BatchFor(before, next).value.nextRoot);
    }
  }

  // ---------------------------------------------------------------- discovery

  datatype Gathered = Gathered(root: Option<Root>, children: seq<Child>)

  function ChildOf(m: Mapping, record: Record): Option<Child> {
    var child := SealedChild(record.sce);
    if child.Some? && m.beadOf(child.value.unitId) == Some(record.bead) then child else None
  }

  function Gather(m: Mapping, records: seq<Record>): Option<Gathered> {
    if records == [] then Some(Gathered(None, []))
    else
      var last, prior := records[|records| - 1], Gather(m, records[..|records| - 1]);
      if prior.None? then None
      else if last.bead == m.rootBead then
        var root := SealedRoot(last.sce);
        if root.None? then None else Some(prior.value.(root := root))
      else
        var child := ChildOf(m, last);
        if child.None? then None else Some(prior.value.(children := prior.value.children + [child.value]))
  }

  function Beads(rows: seq<WriteRow>): (beads: seq<Text>)
    ensures |beads| == |rows|
    ensures forall i :: 0 <= i < |rows| ==> beads[i] == rows[i].bead
  {
    seq(|rows|, i requires 0 <= i < |rows| => rows[i].bead)
  }

  /** projectionRows: the batch's own rows as they are in the table, or nothing when any is not readable. */
  function ActualAt(m: Mapping, table: Table, b: Batch): Option<Readback> {
    var rows := Rows(m, b);
    if rows.None? || !AllDistinct(Beads(rows.value)) then None
    else
      var records := Select(table, set x | x in Beads(rows.value));
      var read := Gather(m, records);
      if || |records| != |rows.value| || read.None? || read.value.root.None?
         || |read.value.children| != |b.changedRows|
      then None
      else Some(Readback(read.value.root.value, SortBy(read.value.children, ChildUnit)))
  }

  lemma GatherNext(m: Mapping, records: seq<Record>, i: nat)
    requires i < |records|
    ensures Gather(m, records[..i + 1]) ==
            var prior := Gather(m, records[..i]);
            if prior.None? then None
            else if records[i].bead == m.rootBead then
              var root := SealedRoot(records[i].sce);
              if root.None? then None else Some(prior.value.(root := root))
            else
              var child := ChildOf(m, records[i]);
              if child.None? then None else Some(prior.value.(children := prior.value.children + [child.value]))
  {
    assert records[..i + 1][..i] == records[..i] && records[..i + 1][i] == records[i];
  }

  method GatherRecords(m: Mapping, records: seq<Record>) returns (r: Option<Gathered>)
    ensures r == Gather(m, records)
  {
    var root: Option<Root>, children: seq<Child> := None, [];
    for i := 0 to |records|
      invariant Gather(m, records[..i]) == Some(Gathered(root, children))
    {
      var record := records[i];
      GatherNext(m, records, i);
      if Gather(m, records[..i + 1]).None? { GatherStays(m, records, i + 1); }
      if record.bead == m.rootBead {
        var candidate := SealedRoot(record.sce);
        if candidate.None? { return None; }
        root := candidate;
        continue;
      }
      var child := ChildOf(m, record);
      if child.None? { return None; }
      children := children + [child.value];
    }
    assert records[..|records|] == records;
    r := Some(Gathered(root, children));
  }

  lemma {:induction false} GatherStays(m: Mapping, records: seq<Record>, i: nat)
    requires i <= |records| && Gather(m, records[..i]).None?
    ensures Gather(m, records).None?
    decreases |records| - i
  {
    if i < |records| {
      assert records[..i + 1][..i] == records[..i];
      GatherStays(m, records, i + 1);
    } else {
      assert records[..i] == records;
    }
  }

  datatype Discovery = Unknown | NotApplied | Applied | Unclear

  function Commitments(children: seq<Child>): seq<Commitment> {
    seq(|children|, i requires 0 <= i < |children| => children[i].commitment)
  }

  function Expected(rows: seq<ExpectedRow>): seq<Commitment> {
    seq(|rows|, i requires 0 <= i < |rows| => rows[i].commitment)
  }

  /** discoverAt on a served query; Unknown is the source's undefined. */
  function DiscoverAt(m: Mapping, table: Table, b: Batch): Discovery {
    if !ValidBatch(b) then Unknown
    else
      var actual := ActualAt(m, table, b);
      if actual.None? then Unknown
      else if actual.value.root == b.nextRoot && actual.value.children == b.nextChildren then Applied
      else if && actual.value.root.aggregateCommitment == b.expectedAggregateCommitment
              && Commitments(actual.value.children) == Expected(b.expectedChildren) then NotApplied
      else Unclear
  }

  /** A record an encoded root accounts for: its own row, or the row of one of its units. */
  predicate Readable(m: Mapping, root: Root, record: Record) {
    if record.bead == m.rootBead then SealedRoot(record.sce) == Some(root) else ChildOf(m, record).Some?
  }

  predicate AllReadable(m: Mapping, root: Root, records: seq<Record>) {
    forall i :: 0 <= i < |records| ==> Readable(m, root, records[i])
  }

  predicate ReadFrom(m: Mapping, records: seq<Record>, c: Child) {
    exists i :: 0 <= i < |records| && records[i].bead != m.rootBead && ChildOf(m, records[i]) == Some(c)
  }

  predicate HasRoot(m: Mapping, records: seq<Record>) {
    exists i :: 0 <= i < |records| && records[i].bead == m.rootBead
  }

  lemma ReadFromMore(m: Mapping, records: seq<Record>, record: Record, c: Child)
    ensures ReadFrom(m, records + [record], c) <==>
            ReadFrom(m, records, c) || (record.bead != m.rootBead && ChildOf(m, record) == Some(c))
  {
    var now := records + [record];
    assert now[|records|] == record;
    if ReadFrom(m, records, c) {
      var i :| 0 <= i < |records| && records[i].bead != m.rootBead && ChildOf(m, records[i]) == Some(c);
      assert now[i] == records[i];
    }
  }

  /** Gathering readable records gives the root once and each child once. */
  lemma {:induction false} GatherReads(m: Mapping, root: Root, records: seq<Record>)
    requires Apart(records) && AllReadable(m, root, records)
    ensures Gather(m, records).Some?
    ensures Gather(m, records).value.root == if HasRoot(m, records) then Some(root) else None
    ensures forall c :: c in Gather(m, records).value.children <==> ReadFrom(m, records, c)
    ensures DistinctBy(Gather(m, records).value.children, ChildUnit)
    ensures |Gather(m, records).value.children| == |records| - if HasRoot(m, records) then 1 else 0
  {
    if records != [] {
      var n := |records| - 1;
      var prior, last := records[..n], records[n];
      assert records == prior + [last];
      GatherReads(m, root, prior);
      assert Readable(m, root, last);
      GatherOneMore(m, root, prior, last);
    }
  }

  lemma GatherOneMore(m: Mapping, root: Root, records: seq<Record>, last: Record)
    requires Apart(records + [last]) && Readable(m, root, last)
    requires var g := Gather(m, records);
             && g.Some? && g.value.root == (if HasRoot(m, records) then Some(root) else None)
             && (forall c :: c in g.value.children <==> ReadFrom(m, records, c)) && DistinctBy(g.value.children, ChildUnit)
             && |g.value.children| == |records| - if HasRoot(m, records) then 1 else 0
    ensures var g := Gather(m, records + [last]);
            && g.Some? && g.value.root == (if HasRoot(m, records + [last]) then Some(root) else None)
            && (forall c :: c in g.value.children <==> ReadFrom(m, records + [last], c)) && DistinctBy(g.value.children, ChildUnit)
            && |g.value.children| == |records| + 1 - if HasRoot(m, records + [last]) then 1 else 0
  {
    var now := records + [last];
    assert now[..|records|] == records && now[|records|] == last;
    HasRootMore(m, records, last);
    if HasRoot(m, records) {
      var k :| 0 <= k < |records| && records[k].bead == m.rootBead;
      assert now[k].bead != now[|records|].bead;
    }
    forall c
      ensures ReadFrom(m, now, c) <==> ReadFrom(m, records, c) || (last.bead != m.rootBead && ChildOf(m, last) == Some(c))
    {
      ReadFromMore(m, records, last, c);
    }
    if last.bead != m.rootBead {
      var prior, child := Gather(m, records).value.children, ChildOf(m, last).value;
      assert Gather(m, now).value.children == prior + [child];
      forall i | 0 <= i < |prior|
        ensures prior[i].unitId != child.unitId
      {
        assert prior[i] in prior;
        var k :| 0 <= k < |records| && ChildOf(m, records[k]) == Some(prior[i]);
        assert now[k].bead != now[|records|].bead;
      }
      forall i, j | 0 <= i < j < |prior| + 1
        ensures ChildUnit((prior + [child])[i]) != ChildUnit((prior + [child])[j])
      {
        if j < |prior| { assert ChildUnit(prior[i]) != ChildUnit(prior[j]); }
      }
    }
  }

  lemma HasRootMore(m: Mapping, records: seq<Record>, last: Record)
    ensures HasRoot(m, records + [last]) <==> HasRoot(m, records) || last.bead == m.rootBead
  {
    var now := records + [last];
    assert now[|records|] == last;
    if HasRoot(m, records) {
      var i :| 0 <= i < |records| && records[i].bead == m.rootBead;
      assert now[i] == records[i];
    }
  }

  /** Records that could be gathered were all well sealed, each at its own bead. */
  lemma {:induction false} GatheredAreSealed(m: Mapping, records: seq<Record>, i: nat)
    requires Gather(m, records).Some? && i < |records|
    ensures if records[i].bead == m.rootBead then SealedRoot(records[i].sce).Some? else ChildOf(m, records[i]).Some?
    decreases |records|
  {
    if i < |records| - 1 { GatheredAreSealed(m, records[..|records| - 1], i); }
  }

  /** A row of the table that can be read: the root's sealed root, or a sealed child kept at its own unit's bead. */
  predicate RowReadable(m: Mapping, table: Table, bead: Text) {
    && bead in table
    && if bead == m.rootBead then SealedRoot(table[bead].sce).Some? else ChildOf(m, Record(bead, table[bead].sce)).Some?
  }

  predicate RowsReadable(m: Mapping, table: Table, beads: seq<Text>) {
    AllDistinct(beads) && forall x :: x in beads ==> RowReadable(m, table, x)
  }

  predicate StoredChild(m: Mapping, table: Table, beads: seq<Text>, c: Child) {
    exists x :: x in beads && x != m.rootBead && x in table && ChildOf(m, Record(x, table[x].sce)) == Some(c)
  }

  /** The readback is the sealed root and the sealed children of these beads, one for each bead, in unit order. */
  ghost predicate ReadsExactly(m: Mapping, table: Table, beads: seq<Text>, rb: Readback) {
    && m.rootBead in table && SealedRoot(table[m.rootBead].sce) == Some(rb.root)
    && |rb.children| == |beads| - 1
    && (forall c :: c in rb.children <==> StoredChild(m, table, beads, c))
    && DistinctBy(rb.children, ChildUnit) && OrderedBy(rb.children, ChildUnit)
  }

  lemma RootIsARow(m: Mapping, b: Batch)
    requires Rows(m, b).Some?
    ensures m.rootBead in Beads(Rows(m, b).value) && |Rows(m, b).value| == |b.changedRows| + 1
  {
    var written := [RootWrite(m, b)] + ChildWrites(m, b, b.changedRows).value;
    assert written[0] in written;
    assert RootWrite(m, b) in Rows(m, b).value;
    BeadsMembers(Rows(m, b).value, m.rootBead);
  }

  lemma StoredIsReadFrom(m: Mapping, table: Table, beads: seq<Text>, c: Child)
    ensures StoredChild(m, table, beads, c) <==> ReadFrom(m, Select(table, set x | x in beads), c)
  {
    var ids := set x | x in beads;
    var records := Select(table, ids);
    SelectedOnce(table, ids);
    if StoredChild(m, table, beads, c) {
      var x :| x in beads && x != m.rootBead && x in table && ChildOf(m, Record(x, table[x].sce)) == Some(c);
      var i :| 0 <= i < |records| && records[i].bead == x;
      assert records[i] == Record(x, table[x].sce);
    }
    if ReadFrom(m, records, c) {
      var i :| 0 <= i < |records| && records[i].bead != m.rootBead && ChildOf(m, records[i]) == Some(c);
      assert records[i].bead in beads && records[i] == Record(records[i].bead, table[records[i].bead].sce);
    }
  }

  lemma ReadableRowsAreGathered(m: Mapping, table: Table, beads: seq<Text>)
    requires RowsReadable(m, table, beads) && m.rootBead in beads
    ensures var records := Select(table, set x | x in beads);
            var read := Gather(m, records);
            && |records| == |beads| && read.Some? && read.value.root.Some? && |read.value.children| == |beads| - 1
            && ReadsExactly(m, table, beads, Readback(read.value.root.value, SortBy(read.value.children, ChildUnit)))
  {
    assert RowReadable(m, table, m.rootBead);
    var root := SealedRoot(table[m.rootBead].sce).value;
    forall x | x in beads
      ensures x in table && Readable(m, root, Record(x, table[x].sce))
    {
      assert RowReadable(m, table, x);
    }
    ReadableSelection(m, table, root, beads);
    var records := Select(table, set x | x in beads);
    GatherReads(m, root, records);
    SortBySorts(Gather(m, records).value.children, ChildUnit);
    forall c
      ensures c in Gather(m, records).value.children <==> StoredChild(m, table, beads, c)
    {
      StoredIsReadFrom(m, table, beads, c);
    }
  }

  lemma GatheredRowsAreReadable(m: Mapping, table: Table, beads: seq<Text>)
    requires AllDistinct(beads)
    requires var records := Select(table, set x | x in beads); |records| == |beads| && Gather(m, records).Some?
    ensures RowsReadable(m, table, beads)
  {
    var ids := set x | x in beads;
    var records := Select(table, ids);
    SelectionSize(table, beads);
    SelectedOnce(table, ids);
    forall x | x in beads
      ensures RowReadable(m, table, x)
    {
      var i :| 0 <= i < |records| && records[i].bead == x;
      GatheredAreSealed(m, records, i);
    }
  }

  /**
   The readback of a batch's rows exists exactly when every one of its beads is distinct, present and well
   sealed, and then it is exactly what those rows seal.
   */
  lemma ActualIsExact(m: Mapping, table: Table, b: Batch)
    ensures Rows(m, b).None? ==> ActualAt(m, table, b).None?
    ensures Rows(m, b).Some? ==>
              var beads := Beads(Rows(m, b).value);
              && (ActualAt(m, table, b).Some? <==> RowsReadable(m, table, beads))
              && (ActualAt(m, table, b).Some? ==> ReadsExactly(m, table, beads, ActualAt(m, table, b).value))
  {
    if Rows(m, b).Some? {
      var beads := Beads(Rows(m, b).value);
      RootIsARow(m, b);
      if RowsReadable(m, table, beads) { ReadableRowsAreGathered(m, table, beads); }
      if ActualAt(m, table, b).Some? { GatheredRowsAreReadable(m, table, beads); }
    }
  }

  /** Nothing else reads exactly. */
  lemma ExactReadbackIsUnique(m: Mapping, table: Table, beads: seq<Text>, a: Readback, b: Readback)
    requires ReadsExactly(m, table, beads, a) && ReadsExactly(m, table, beads, b)
    ensures a == b
  {
    forall c
      ensures c in a.children <==> c in b.children
    {
      assert c in a.children <==> StoredChild(m, table, beads, c);
    }
    SortedAs(a.children, b.children);
    SortedStays(a.children, ChildUnit);
  }

  /** projectionRows, one pass over the records: some exactly when all the rows can be read, and then exactly those. */
  method ProjectionRows(m: Mapping, table: Table, b: Batch) returns (r: Option<Readback>)
    ensures r == ActualAt(m, table, b)
    ensures Rows(m, b).None? ==> r.None?
    ensures Rows(m, b).Some? ==>
              var beads := Beads(Rows(m, b).value);
              (r.Some? <==> RowsReadable(m, table, beads)) && (r.Some? ==> ReadsExactly(m, table, beads, r.value))
  {
    ActualIsExact(m, table, b);
    var rows := Rows(m, b);
    if rows.None? || !AllDistinct(Beads(rows.value)) { return None; }
    var records := Select(table, set x | x in Beads(rows.value));
    if |records| != |rows.value| { return None; }
    var read := GatherRecords(m, records);
    r := if read.None? || read.value.root.None? || |read.value.children| != |b.changedRows| then None
         else Some(Readback(read.value.root.value, SortBy(read.value.children, ChildUnit)));
  }

  /** The children a run keeps for a list of units. */
  function ChildrenFor(root: Root, ids: seq<Text>): (out: seq<Child>)
    requires forall id :: id in ids ==> id in root.run.units
    ensures |out| == |ids|
    ensures forall i :: 0 <= i < |ids| ==> Some(out[i]) == MakeChild(root, ids[i])
  {
    seq(|ids|, i requires 0 <= i < |ids| => MakeChild(root, ids[i]).value)
  }

  /** What a batch may be looked up against: its rows are mapped apart, and its units are the root's. */
  predicate Watches(m: Mapping, before: Root, next: Run, root: Root) {
    && ValidRoot(before) && Mapped(m, before.run) && BatchFor(before, next).Some?
    && ChangedIds(before.run, next) <= before.run.units.Keys
    && ChangedIds(before.run, next) <= root.run.units.Keys
  }

  lemma WatchedRows(m: Mapping, table: Table, before: Root, next: Run, root: Root)
    requires Watches(m, before, next, root) && Encodes(m, table, root)
    ensures var b := BatchFor(before, next).value;
            && Rows(m, b).Some? && DistinctBy(Rows(m, b).value, WriteBead)
  {
    EncodedBeadsAreApart(m, table, root);
    RowsApart(m, before, next);
  }

  predicate IsWatchedBead(m: Mapping, before: Run, next: Run, bead: Text) {
    bead == m.rootBead || exists id :: id in ChangedIds(before, next) && m.beadOf(id) == Some(bead)
  }

  lemma WatchedBead(m: Mapping, before: Root, next: Run, root: Root, w: WriteRow)
    requires Watches(m, before, next, root)
    requires var b := BatchFor(before, next).value; Rows(m, b).Some? && w in Rows(m, b).value
    ensures IsWatchedBead(m, before.run, next, w.bead)
  {
    var b := BatchFor(before, next).value;
    RowIsRootOrMove(m, before, next, w);
    RowsOfABatch(m, before, next);
    if w != RootWrite(m, b) {
      var id :| id in ChangedIds(before.run, next) && id in before.run.units && w == MoveOf(m, before.run, b.nextRoot, id);
      assert m.beadOf(id) == Some(w.bead);
    }
  }

  lemma EncodedRow(m: Mapping, table: Table, root: Root, id: Text)
    requires Encodes(m, table, root) && id in root.run.units
    ensures var bead := m.beadOf(id).value;
            bead in table && bead != m.rootBead && ChildOf(m, Record(bead, table[bead].sce)) == MakeChild(root, id)
  {
    var bead := m.beadOf(id).value;
    EncodedBeadsAreApart(m, table, root);
    assert Carries(table, bead, ChildSeal(MakeChild(root, id).value));
  }

  lemma WatchedBeadIsReadable(m: Mapping, table: Table, before: Run, next: Run, root: Root, bead: Text)
    requires Encodes(m, table, root) && ChangedIds(before, next) <= root.run.units.Keys && IsWatchedBead(m, before, next, bead)
    ensures bead in table && Readable(m, root, Record(bead, table[bead].sce))
  {
    if bead != m.rootBead {
      var id :| id in ChangedIds(before, next) && m.beadOf(id) == Some(bead);
      EncodedRow(m, table, root, id);
    }
  }

  lemma WatchedUnit(m: Mapping, table: Table, before: Root, next: Run, root: Root, id: Text)
    requires Watches(m, before, next, root) && Encodes(m, table, root) && id in ChangedIds(before.run, next)
    ensures var b := BatchFor(before, next).value;
            Rows(m, b).Some? && m.beadOf(id).Some? && exists w :: w in Rows(m, b).value && w.bead == m.beadOf(id).value
  {
    var b := BatchFor(before, next).value;
    RowsOfABatch(m, before, next);
    var w := MoveOf(m, before.run, b.nextRoot, id);
    assert IsMove(m, before.run, b.nextRoot, w);
    RowIsRootOrMove(m, before, next, w);
  }

  lemma BeadsMembers(rows: seq<WriteRow>, bead: Text)
    ensures bead in Beads(rows) <==> exists w :: w in rows && w.bead == bead
  {
    if bead in Beads(rows) {
      var i :| 0 <= i < |rows| && Beads(rows)[i] == bead;
      assert rows[i] in rows;
    }
    if exists w :: w in rows && w.bead == bead {
      var w :| w in rows && w.bead == bead;
      var i :| 0 <= i < |rows| && rows[i] == w;
      assert Beads(rows)[i] == bead;
    }
  }

  predicate AllWatched(m: Mapping, before: Run, next: Run, beads: seq<Text>) {
    && (forall x :: x in beads ==> IsWatchedBead(m, before, next, x))
    && m.rootBead in beads
    && forall id :: id in ChangedIds(before, next) ==> m.beadOf(id).Some? && m.beadOf(id).value in beads
  }

  lemma RowBeadIsWatched(m: Mapping, before: Root, next: Run, root: Root, bead: Text)
    requires Watches(m, before, next, root)
    requires var b := BatchFor(before, next).value; Rows(m, b).Some? && bead in Beads(Rows(m, b).value)
    ensures IsWatchedBead(m, before.run, next, bead)
  {
    var rows := Rows(m, BatchFor(before, next).value).value;
    BeadsMembers(rows, bead);
    var w :| w in rows && w.bead == bead;
    WatchedBead(m, before, next, root, w);
  }

  lemma WatchedBeadIsARow(m: Mapping, table: Table, before: Root, next: Run, root: Root)
    requires Watches(m, before, next, root) && Encodes(m, table, root)
    ensures var b := BatchFor(before, next).value;
            && Rows(m, b).Some? && m.rootBead in Beads(Rows(m, b).value)
            && forall id :: id in ChangedIds(before.run, next) ==> m.beadOf(id).Some? && m.beadOf(id).value in Beads(Rows(m, b).value)
  {
    var b := BatchFor(before, next).value;
    WatchedRows(m, table, before, next, root);
    RowIsRootOrMove(m, before, next, RootWrite(m, b));
    BeadsMembers(Rows(m, b).value, m.rootBead);
    forall id | id in ChangedIds(before.run, next)
      ensures m.beadOf(id).Some? && m.beadOf(id).value in Beads(Rows(m, b).value)
    {
      WatchedUnit(m, table, before, next, root, id);
      BeadsMembers(Rows(m, b).value, m.beadOf(id).value);
    }
  }

  lemma ApartBeads(rows: seq<WriteRow>)
    requires DistinctBy(rows, WriteBead)
    ensures AllDistinct(Beads(rows))
  {
    forall i, j | 0 <= i < j < |rows|
      ensures Beads(rows)[i] != Beads(rows)[j]
    {
      assert WriteBead(rows[i]) != WriteBead(rows[j]);
    }
  }

  /** The beads of a batch's rows: the root's bead and the changed units'. */
  lemma WatchedBeads(m: Mapping, table: Table, before: Root, next: Run, root: Root)
    requires Watches(m, before, next, root) && Encodes(m, table, root)
    ensures var b := BatchFor(before, next).value;
            && Rows(m, b).Some? && AllDistinct(Beads(Rows(m, b).value))
            && AllWatched(m, before.run, next, Beads(Rows(m, b).value))
  {
    WatchedRows(m, table, before, next, root);
    ApartBeads(Rows(m, BatchFor(before, next).value).value);
    WatchedBeadIsARow(m, table, before, next, root);
    forall x | x in Beads(Rows(m, BatchFor(before, next).value).value)
      ensures IsWatchedBead(m, before.run, next, x)
    {
      RowBeadIsWatched(m, before, next, root, x);
    }
  }

  lemma WatchedSelection(m: Mapping, table: Table, before: Run, next: Run, root: Root, beads: seq<Text>)
    requires Encodes(m, table, root) && ChangedIds(before, next) <= root.run.units.Keys
    requires AllDistinct(beads) && AllWatched(m, before, next, beads)
    ensures var records := Select(table, set x | x in beads);
            |records| == |beads| && Apart(records) && AllReadable(m, root, records) && HasRoot(m, records)
  {
    forall x | x in beads
      ensures x in table && Readable(m, root, Record(x, table[x].sce))
    {
      WatchedBeadIsReadable(m, table, before, next, root, x);
    }
    ReadableSelection(m, table, root, beads);
  }

  lemma ReadableSelection(m: Mapping, table: Table, root: Root, beads: seq<Text>)
    requires AllDistinct(beads) && m.rootBead in beads
    requires forall x :: x in beads ==> x in table && Readable(m, root, Record(x, table[x].sce))
    ensures var records := Select(table, set x | x in beads);
            |records| == |beads| && Apart(records) && AllReadable(m, root, records) && HasRoot(m, records)
  {
    SelectionSize(table, beads);
    SelectedOnce(table, set x | x in beads);
  }

  predicate IsWatchedChild(before: Run, next: Run, root: Root, c: Child) {
    c.unitId in ChangedIds(before, next) && MakeChild(root, c.unitId) == Some(c)
  }

  lemma GatheredIsWatched(m: Mapping, table: Table, before: Run, next: Run, root: Root, record: Record)
    requires Encodes(m, table, root) && ChangedIds(before, next) <= root.run.units.Keys
    requires IsWatchedBead(m, before, next, record.bead) && record.bead != m.rootBead
    requires record.bead in table && record.sce == table[record.bead].sce
    ensures ChildOf(m, record).Some? && IsWatchedChild(before, next, root, ChildOf(m, record).value)
  {
    var id :| id in ChangedIds(before, next) && m.beadOf(id) == Some(record.bead);
    EncodedRow(m, table, root, id);
  }

  lemma WatchedIsGathered(m: Mapping, table: Table, root: Root, beads: seq<Text>, id: Text)
    requires Encodes(m, table, root) && id in root.run.units && m.beadOf(id).value in beads
    ensures ReadFrom(m, Select(table, set x | x in beads), MakeChild(root, id).value)
  {
    var ids := set x | x in beads;
    EncodedRow(m, table, root, id);
    SelectedOnce(table, ids);
    var i :| 0 <= i < |Select(table, ids)| && Select(table, ids)[i].bead == m.beadOf(id).value;
    assert ChildOf(m, Select(table, ids)[i]) == MakeChild(root, id);
  }

  lemma GatheredChild(m: Mapping, table: Table, before: Run, next: Run, root: Root, records: seq<Record>, c: Child)
    requires Encodes(m, table, root) && ChangedIds(before, next) <= root.run.units.Keys
    requires FromTable(table, records) && ReadFrom(m, records, c)
    requires forall i :: 0 <= i < |records| ==> IsWatchedBead(m, before, next, records[i].bead)
    ensures IsWatchedChild(before, next, root, c)
  {
    var i :| 0 <= i < |records| && records[i].bead != m.rootBead && ChildOf(m, records[i]) == Some(c);
    GatheredIsWatched(m, table, before, next, root, records[i]);
  }

  lemma WatchedRecords(m: Mapping, table: Table, before: Run, next: Run, beads: seq<Text>)
    requires AllWatched(m, before, next, beads)
    ensures var records := Select(table, set x | x in beads);
            FromTable(table, records) && forall i :: 0 <= i < |records| ==> IsWatchedBead(m, before, next, records[i].bead)
  {
    SelectedOnce(table, set x | x in beads);
  }

  lemma WatchedChildren(m: Mapping, table: Table, before: Run, next: Run, root: Root, beads: seq<Text>, c: Child)
    requires Encodes(m, table, root) && ChangedIds(before, next) <= root.run.units.Keys && AllWatched(m, before, next, beads)
    ensures ReadFrom(m, Select(table, set x | x in beads), c) <==> IsWatchedChild(before, next, root, c)
  {
    var records := Select(table, set x | x in beads);
    if ReadFrom(m, records, c) {
      WatchedRecords(m, table, before, next, beads);
      GatheredChild(m, table, before, next, root, records, c);
    }
    if IsWatchedChild(before, next, root, c) {
      WatchedIsGathered(m, table, root, beads, c.unitId);
    }
  }

  lemma ListedChildren(root: Root, ids: seq<Text>)
    requires Ascending(ids) && forall id :: id in ids ==> id in root.run.units
    ensures DistinctBy(ChildrenFor(root, ids), ChildUnit) && OrderedBy(ChildrenFor(root, ids), ChildUnit)
    ensures forall c :: c in ChildrenFor(root, ids) <==> c.unitId in ids && MakeChild(root, c.unitId) == Some(c)
  {
    var out := ChildrenFor(root, ids);
    forall i, j | 0 <= i < j < |ids|
      ensures ChildUnit(out[i]) != ChildUnit(out[j]) && !Less(ChildUnit(out[j]), ChildUnit(out[i]))
    {
      LessIsStrict(ids[i], ids[j]);
    }
    forall id | id in ids
      ensures MakeChild(root, id).value in out
    {
      var i :| 0 <= i < |ids| && ids[i] == id;
      assert out[i] == MakeChild(root, id).value;
    }
  }

  /** The readback of a batch's rows over an encoded root: that root and its children for the changed units. */
  lemma ActualOfAnEncodedRoot(m: Mapping, table: Table, before: Root, next: Run, root: Root)
    requires Watches(m, before, next, root) && Encodes(m, table, root)
    ensures var ids := Listing(ChangedIds(before.run, next));
            && (forall id :: id in ids ==> id in root.run.units)
            && ActualAt(m, table, BatchFor(before, next).value) == Some(Readback(root, ChildrenFor(root, ids)))
  {
    var b, ids := BatchFor(before, next).value, Listing(ChangedIds(before.run, next));
    WatchedBeads(m, table, before, next, root);
    BatchRowsInOrder(before, next);
    GatheredRows(m, table, before.run, next, root, Beads(Rows(m, b).value));
  }

  lemma GatheredRows(m: Mapping, table: Table, before: Run, next: Run, root: Root, beads: seq<Text>)
    requires Encodes(m, table, root) && ChangedIds(before, next) <= root.run.units.Keys
    requires AllDistinct(beads) && AllWatched(m, before, next, beads)
    ensures var ids := Listing(ChangedIds(before, next));
            var records := Select(table, set x | x in beads);
            var read := Gather(m, records);
            && (forall id :: id in ids ==> id in root.run.units)
            && |records| == |beads| && read.Some? && read.value.root == Some(root)
            && |read.value.children| == |ids|
            && SortBy(read.value.children, ChildUnit) == ChildrenFor(root, ids)
  {
    WatchedSelection(m, table, before, next, root, beads);
    var records := Select(table, set x | x in beads);
    GatherReads(m, root, records);
    var ids := Listing(ChangedIds(before, next));
    forall c
      ensures c in Gather(m, records).value.children <==> c in ChildrenFor(root, ids)
    {
      ListedChildren(root, ids);
      WatchedChildren(m, table, before, next, root, beads, c);
    }
    ListedChildren(root, ids);
    SortedAs(Gather(m, records).value.children, ChildrenFor(root, ids));
  }

  lemma SortedAs(got: seq<Child>, want: seq<Child>)
    requires DistinctBy(got, ChildUnit) && DistinctBy(want, ChildUnit) && OrderedBy(want, ChildUnit)
    requires forall c :: c in got <==> c in want
    ensures SortBy(got, ChildUnit) == want && |got| == |want|
  {
    SortByIsUnique(got, want, ChildUnit);
    SortedStays(want, ChildUnit);
  }

  lemma ChangedAreListed(before: Root, next: Run, i: nat)
    requires ValidRoot(before) && BatchFor(before, next).Some? && i < |BatchFor(before, next).value.changedRows|
    ensures var b, ids := BatchFor(before, next).value, Listing(ChangedIds(before.run, next));
            && |ids| == |b.changedRows| == |b.nextChildren| == |b.expectedChildren|
            && ids[i] in before.run.units
            && Some(b.nextChildren[i]) == MakeChild(b.nextRoot, ids[i])
            && b.expectedChildren[i].commitment == OfUnit(before.run.units[ids[i]])
  {
    BatchRows(before, next, i);
  }

  lemma ListedAre(root: Root, ids: seq<Text>, children: seq<Child>)
    requires |children| == |ids| && forall id :: id in ids ==> id in root.run.units
    requires forall i :: 0 <= i < |ids| ==> Some(children[i]) == MakeChild(root, ids[i])
    ensures children == ChildrenFor(root, ids)
  {
  }

  lemma NextChildrenAreListed(before: Root, next: Run)
    requires ValidRoot(before) && BatchFor(before, next).Some?
    ensures var b, ids := BatchFor(before, next).value, Listing(ChangedIds(before.run, next));
            && b.nextRoot.run == next && (forall id :: id in ids ==> id in next.units && id in before.run.units)
            && b.nextChildren == ChildrenFor(b.nextRoot, ids)
  {
    var b, ids := BatchFor(before, next).value, Listing(ChangedIds(before.run, next));
    BatchExists(before, next);
    BatchRowsInOrder(before, next);
    forall i | 0 <= i < |ids|
      ensures Some(b.nextChildren[i]) == MakeChild(b.nextRoot, ids[i])
    {
      ChangedAreListed(before, next, i);
    }
    ListedAre(b.nextRoot, ids, b.nextChildren);
  }

  lemma ExpectedAreListed(before: Root, next: Run)
    requires ValidRoot(before) && BatchFor(before, next).Some?
    ensures var b, ids := BatchFor(before, next).value, Listing(ChangedIds(before.run, next));
            && (forall id :: id in ids ==> id in before.run.units)
            && Expected(b.expectedChildren) == Commitments(ChildrenFor(before, ids))
            && b.expectedAggregateCommitment == OfRun(before.run)
  {
    var b, ids := BatchFor(before, next).value, Listing(ChangedIds(before.run, next));
    BatchExists(before, next);
    BatchRowsInOrder(before, next);
    forall i | 0 <= i < |ids|
      ensures b.expectedChildren[i].commitment == OfUnit(before.run.units[ids[i]])
    {
      ChangedAreListed(before, next, i);
    }
    ExpectedAre(before, ids, b.expectedChildren);
  }

  lemma ExpectedAre(root: Root, ids: seq<Text>, rows: seq<ExpectedRow>)
    requires |rows| == |ids| && forall id :: id in ids ==> id in root.run.units
    requires forall i :: 0 <= i < |ids| ==> rows[i].commitment == OfUnit(root.run.units[ids[i]])
    ensures Expected(rows) == Commitments(ChildrenFor(root, ids))
  {
  }

  lemma CommitmentsFollowTheRun(a: Root, b: Root, ids: seq<Text>)
    requires a.run == b.run && forall id :: id in ids ==> id in a.run.units
    ensures Commitments(ChildrenFor(a, ids)) == Commitments(ChildrenFor(b, ids))
  {
  }

  lemma NotAppliedExactly(m: Mapping, table: Table, stored: Root, before: Root, next: Run)
    requires Encodes(m, table, stored) && ValidRoot(before) && Watches(m, before, next, stored)
    requires ValidBatch(BatchFor(before, next).value) && stored != BatchFor(before, next).value.nextRoot
    ensures DiscoverAt(m, table, BatchFor(before, next).value) == if stored.run == before.run then NotApplied else Unclear
  {
    ActualOfAnEncodedRoot(m, table, before, next, stored);
    ExpectedAreListed(before, next);
    if stored.run == before.run {
      CommitmentsFollowTheRun(stored, before, Listing(ChangedIds(before.run, next)));
    }
  }

  lemma AppliedExactly(m: Mapping, table: Table, before: Root, next: Run)
    requires BatchFor(before, next).Some? && ValidBatch(BatchFor(before, next).value)
    requires Encodes(m, table, BatchFor(before, next).value.nextRoot)
    requires Watches(m, before, next, BatchFor(before, next).value.nextRoot)
    ensures DiscoverAt(m, table, BatchFor(before, next).value) == Applied
  {
    ActualOfAnEncodedRoot(m, table, before, next, BatchFor(before, next).value.nextRoot);
    NextChildrenAreListed(before, next);
  }

  /**
   Over any table that encodes a root, discovery of a legal step's batch says Applied exactly when the
   stored root is the step's own and NotApplied exactly when the stored run is the one before the step;
   only a third run is unclear.
   */
  lemma DiscoveryIsExact(m: Mapping, table: Table, stored: Root, before: Root, next: Run)
    requires Encodes(m, table, stored) && ValidRoot(before) && LegalStep(before.run, next) && Mapped(m, before.run)
    requires ChangedIds(before.run, next) <= stored.run.units.Keys
    ensures BatchFor(before, next).Some?
    ensures DiscoverAt(m, table, BatchFor(before, next).value) ==
            if stored == BatchFor(before, next).value.nextRoot then Applied
            else if stored.run == before.run then NotApplied else Unclear
  {
    LegalStepIsAccepted(before, next);
    BatchExists(before, next);
    if stored == BatchFor(before, next).value.nextRoot {
      AppliedExactly(m, table, before, next);
    } else {
      NotAppliedExactly(m, table, stored, before, next);
    }
  }

  /** Before the step discovery answers NotApplied, after it Applied, and never Unclear. */
  lemma DiscoveryFollowsTheStep(m: Mapping, table: Table, before: Root, next: Run)
    requires Encodes(m, table, before) && LegalStep(before.run, next) && next.scope == before.run.scope
    ensures BatchFor(before, next).Some?
    ensures DiscoverAt(m, table, BatchFor(before, next).value) == NotApplied
    ensures DiscoverAt(m, Stepped(m, table, before, next), BatchFor(before, next).value) == Applied
  {
    UpdateIsCompareAndSwap(m, table, before, before, next);
    BatchExists(before, next);
    NextChildrenAreListed(before, next);
    DiscoveryIsExact(m, table, before, before, next);
    DiscoveryIsExact(m, Stepped(m, table, before, next), BatchFor(before, next).value.nextRoot, before, next);
  }

  // ---------------------------------------------------------------- the store

  datatype Mutation = Quarantined | Stale | Done

  /** ROW_COUNT(): the rows an UPDATE really changed. */
  function Affected(was: Table, now: Table): nat {
    |set id | id in was && id in now && was[id] != now[id]|
  }

  /** The readback a mutation must see before it may claim to have been applied. */
  predicate ReadsBack(m: Mapping, table: Table, b: Batch) {
    var actual := ActualAt(m, table, b);
    actual.Some? && actual.value.root == b.nextRoot && actual.value.children == SortBy(b.nextChildren, ChildUnit)
  }

  method ReadBack(m: Mapping, table: Table, b: Batch) returns (ok: bool)
    ensures ok <==> ReadsBack(m, table, b)
  {
    var actual := ProjectionRows(m, table, b);
    ok := actual == Some(Readback(b.nextRoot, SortBy(b.nextChildren, ChildUnit)));
  }

  class Store {
    const m: Mapping
    var table: Table

    constructor (m: Mapping, table: Table)
      ensures this.m == m && this.table == table
    {
      this.m, this.table := m, table;
    }

    /**
     DoltProjectionPersistence.mutate. The engine may run the statement and lose the answer, or fail the
     readback; the rows move exactly when all of them are as they were loaded, and only an answer that was
     counted and read back is reported as applied.
     */
    method Mutate(b: Batch, reached: bool, answered: bool, readServed: bool) returns (r: Mutation)
      modifies this
      ensures r.Quarantined? <==> !ValidBatch(b) || !Writable(m, b)
      ensures r.Quarantined? <==> !ValidBatch(b) || WriteStatement(m, b).None?
      ensures !reached || r.Quarantined? ==> table == old(table)
      ensures reached && !r.Quarantined? ==>
                table == Updated(old(table), WriteStatement(m, b).value.writes, WriteStatement(m, b).value.terms)
      ensures reached && !r.Quarantined? ==>
                if StillLoaded(m, old(table), b) then AllMoved(m, b, old(table), table) else table == old(table)
      ensures r.Done? ==> StillLoaded(m, old(table), b) && AllMoved(m, b, old(table), table)
      ensures r.Done? <==> && !r.Quarantined? && reached && answered && readServed
                           && Affected(old(table), table) == |b.changedRows| + 1 && ReadsBack(m, table, b)
    {
      StatementIsBuilt(m, b);
      if !ValidBatch(b) { return Quarantined; }
      var statement := WriteStatement(m, b);
      if statement.None? { return Quarantined; }
      var was := table;
      if reached { table := Updated(table, statement.value.writes, statement.value.terms); }
      StatementIsCompareAndSwap(m, was, b);
      NothingAffected(was);
      if !reached || !answered || Affected(was, table) != |b.changedRows| + 1 { return Stale; }
      if !readServed { return Stale; }
      var readBack := ReadBack(m, table, b);
      r := if readBack then Done else Stale;
    }

    /**
     One aggregate step through the store: build the batch from the loaded root and mutate. Over a table
     that encodes a run, the table ends encoding that run or the next one whatever is lost, and Done is
     answered only for a step that took effect.
     */
    method Step(before: Root, next: Run, reached: bool, answered: bool, readServed: bool, ghost stored: Root) returns (r: Mutation)
      requires ValidRoot(before) && LegalStep(before.run, next) && next.scope == before.run.scope
      requires Encodes(m, table, stored)
      modifies this
      ensures BatchFor(before, next).Some?
      ensures reached && stored.run == before.run ==> Encodes(m, table, BatchFor(before, next).value.nextRoot)
      ensures !reached || stored.run != before.run ==> table == old(table)
      ensures r.Done? ==> reached && stored.run == before.run
      ensures reached && answered && readServed && stored.run == before.run ==> r.Done?
    {
      StepIsSettled(m, table, stored, before, next);
      var b := BatchFor(before, next).value;
      r := Mutate(b, reached, answered, readServed);
    }
  }

  /** Everything a mutation built for a legal step can come to over a table that encodes a run. */
  lemma StepIsSettled(m: Mapping, table: Table, stored: Root, before: Root, next: Run)
    requires Encodes(m, table, stored) && ValidRoot(before) && LegalStep(before.run, next) && next.scope == before.run.scope
    ensures BatchFor(before, next).Some? && ValidBatch(BatchFor(before, next).value)
    ensures var b, after := BatchFor(before, next).value, Stepped(m, table, before, next);
            && (WriteStatement(m, b).Some? ==>
                  after == Updated(table, WriteStatement(m, b).value.writes, WriteStatement(m, b).value.terms))
            && (stored.run == before.run ==>
                  && WriteStatement(m, b).Some? && Encodes(m, after, b.nextRoot)
                  && Affected(table, after) == |b.changedRows| + 1 && ReadsBack(m, after, b))
            && (stored.run != before.run ==> after == table && Affected(table, after) == 0)
  {
    LegalStepIsAccepted(before, next);
    UpdateIsCompareAndSwap(m, table, stored, before, next);
    if stored.run == before.run {
      SteppedDependsOnTheRun(m, table, stored, before, next);
      StepTermsHold(m, table, stored, next);
      StepAffects(m, table, stored, next);
      StepReadsBack(m, table, stored, next);
    } else {
      NothingAffected(table);
    }
  }

  lemma SteppedDependsOnTheRun(m: Mapping, table: Table, a: Root, b: Root, next: Run)
    requires ValidRoot(a) && ValidRoot(b) && a.run == b.run
    ensures BatchFor(a, next) == BatchFor(b, next) && Stepped(m, table, a, next) == Stepped(m, table, b, next)
  {
    BatchDependsOnTheRun(a, b, next);
  }

  lemma NothingAffected(table: Table)
    ensures Affected(table, table) == 0
  {
    assert (set id | id in table && id in table && table[id] != table[id]) == {};
  }

  /** A step that lands changes the root's row and each changed unit's row, and is read back as it was written. */
  lemma StepAffects(m: Mapping, table: Table, before: Root, next: Run)
    requires Encodes(m, table, before) && LegalStep(before.run, next) && next.scope == before.run.scope
    ensures BatchFor(before, next).Some?
    ensures Affected(table, Stepped(m, table, before, next)) == |BatchFor(before, next).value.changedRows| + 1
  {
    UpdateIsCompareAndSwap(m, table, before, before, next);
    BatchExists(before, next);
    var b := BatchFor(before, next).value;
    var after := Stepped(m, table, before, next);
    EncodedBeadsAreApart(m, table, before);
    RowsApart(m, before, next);
    var rows := Rows(m, b).value;
    ApartBeads(rows);
    DistinctSize(Beads(rows));
    var moved := set id | id in table && id in after && table[id] != after[id];
    forall id
      ensures id in moved <==> id in Beads(rows)
    {
      BeadsMembers(rows, id);
      if id in Beads(rows) {
        var w :| w in rows && w.bead == id;
        RowMoves(m, table, before, next, w);
      } else if id in table {
        UnwrittenStays(m, table, before, next, id);
      }
    }
    assert moved == set x | x in Beads(rows);
    RowsOfABatch(m, before, next);
  }

  lemma RowMoves(m: Mapping, table: Table, before: Root, next: Run, w: WriteRow)
    requires Encodes(m, table, before) && LegalStep(before.run, next) && next.scope == before.run.scope
    requires BatchFor(before, next).Some? && Rows(m, BatchFor(before, next).value).Some? && w in Rows(m, BatchFor(before, next).value).value
    ensures var after := Stepped(m, table, before, next);
            w.bead in table && w.bead in after && table[w.bead] != after[w.bead]
  {
    UpdateIsCompareAndSwap(m, table, before, before, next);
    var b := BatchFor(before, next).value;
    RowIsRootOrMove(m, before, next, w);
    RowsOfABatch(m, before, next);
    if w != RootWrite(m, b) {
      var id :| id in ChangedIds(before.run, next) && id in before.run.units && w == MoveOf(m, before.run, b.nextRoot, id);
      assert Carries(table, w.bead, ChildSeal(MakeChild(before, id).value));
      assert Carries(Stepped(m, table, before, next), w.bead, ChildSeal(MakeChild(b.nextRoot, id).value));
    }
  }

  lemma UnwrittenStays(m: Mapping, table: Table, before: Root, next: Run, bead: Text)
    requires Encodes(m, table, before) && LegalStep(before.run, next) && bead in table
    requires BatchFor(before, next).Some? && Rows(m, BatchFor(before, next).value).Some?
    requires bead !in Beads(Rows(m, BatchFor(before, next).value).value)
    ensures bead in Stepped(m, table, before, next) && Stepped(m, table, before, next)[bead] == table[bead]
  {
    UnnamedStays(table, Rows(m, BatchFor(before, next).value).value, bead);
    SteppedIsOneUpdate(m, table, before, next);
  }

  lemma UnnamedStays(table: Table, rows: seq<WriteRow>, bead: Text)
    requires bead in table && bead !in Beads(rows)
    ensures Written(table, rows)[bead] == table[bead]
  {
    BeadsMembers(rows, bead);
    assert FindWrite(rows, bead).None?;
  }

  lemma SteppedIsOneUpdate(m: Mapping, table: Table, before: Root, next: Run)
    requires BatchFor(before, next).Some? && Rows(m, BatchFor(before, next).value).Some?
    ensures Stepped(m, table, before, next) in {table, Written(table, Rows(m, BatchFor(before, next).value).value)}
  {
  }

  lemma StepReadsBack(m: Mapping, table: Table, before: Root, next: Run)
    requires Encodes(m, table, before) && LegalStep(before.run, next) && next.scope == before.run.scope
    ensures BatchFor(before, next).Some?
    ensures ReadsBack(m, Stepped(m, table, before, next), BatchFor(before, next).value)
  {
    UpdateIsCompareAndSwap(m, table, before, before, next);
    BatchExists(before, next);
    NextChildrenAreListed(before, next);
    var b := BatchFor(before, next).value;
    ActualOfAnEncodedRoot(m, Stepped(m, table, before, next), before, next, b.nextRoot);
    ListedChildren(b.nextRoot, Listing(ChangedIds(before.run, next)));
    SortedStays(b.nextChildren, ChildUnit);
  }
}

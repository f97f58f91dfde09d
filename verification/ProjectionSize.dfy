/**
 The stored size of a projection (`projectionStorageByteLength` in src/protocol/projection.ts): what
 compaction saves, in bytes of UTF-8 of the canonical text.
 */
module ProjectionSize {
  import opened Wrappers
  import opened Collections
  import opened Text
  import opened Canonical
  import opened ProjectionCodec

  // ---------------------------------------------------------------- bytes of a text

  /** A surrogate pair takes four bytes, two for each half. */
  function UnitBytes(c: CodeUnit): nat {
    if c < 0x80 then 1 else if c < 0x800 || High(c) || Low(c) then 2 else 3
  }

  function Bytes(t: Text): nat {
    if t == [] then 0 else UnitBytes(t[0]) + Bytes(t[1..])
  }

  /** The bytes of one Unicode scalar value, as section 3 of RFC 3629 gives them. */
  function Utf8(scalar: int): seq<nat>
    requires Scalar(scalar)
  {
    if scalar < 0x80 then [scalar]
    else if scalar < 0x800 then [0xC0 + scalar / 0x40, 0x80 + scalar % 0x40]
    else if scalar < 0x1_0000 then [0xE0 + scalar / 0x1000, 0x80 + scalar / 0x40 % 0x40, 0x80 + scalar % 0x40]
    else [0xF0 + scalar / 0x4_0000, 0x80 + scalar / 0x1000 % 0x40, 0x80 + scalar / 0x40 % 0x40, 0x80 + scalar % 0x40]
  }

  function Utf8Text(scalars: seq<int>): seq<nat>
    requires forall i :: 0 <= i < |scalars| ==> Scalar(scalars[i])
  {
    if scalars == [] then [] else Utf8(scalars[0]) + Utf8Text(scalars[1..])
  }

  /** Counting UTF-16 code units one by one gives the length of the text's UTF-8 encoding. */
  lemma {:induction false} BytesAreUtf8(scalars: seq<int>)
    requires forall i :: 0 <= i < |scalars| ==> Scalar(scalars[i])
    ensures Bytes(Encoded(scalars)) == |Utf8Text(scalars)|
  {
    if scalars != [] {
      var units := Utf16(scalars[0]);
      BytesOfBoth(units, Encoded(scalars[1..]));
      BytesAreUtf8(scalars[1..]);
      assert Bytes(units) == |Utf8(scalars[0])| by {
        assert Bytes(units[1..]) == if |units| == 1 then 0 else UnitBytes(units[1]);
      }
    }
  }

  lemma {:induction false} BytesOfBoth(a: Text, b: Text)
    ensures Bytes(a + b) == Bytes(a) + Bytes(b)
  {
    if a == [] {
      assert a + b == b;
    } else {
      assert (a + b)[1..] == a[1..] + b;
      BytesOfBoth(a[1..], b);
    }
  }

  lemma {:induction false} BytesAtLeast(t: Text)
    ensures Bytes(t) >= |t|
  {
    if t != [] { BytesAtLeast(t[1..]); }
  }

  // ---------------------------------------------------------------- bytes of a value

  /** The size of a value, read off its structure: member order does not enter. */
  function Size(v: Json): nat
    decreases v
  {
    match v
    case Null => 4
    case Boolean(b) => if b then 4 else 5
    case Number(token) => Bytes(token)
    case NegativeZero => 1
    case NonFinite => 0
    case String(s) => Bytes(Quoted(s))
    case Array(items) => if items == [] then 2 else 1 + ItemWeights(items)
    case Hole => 0
    case Object(members) => if members == [] then 2 else 1 + Weights(members)
  }

  /** Each item with the comma or bracket that follows it. */
  function ItemWeights(items: seq<Json>): nat
    decreases items
  {
    if items == [] then 0 else Size(items[0]) + 1 + ItemWeights(items[1..])
  }

  function Weight(m: Member): nat
    decreases m
  {
    Bytes(Quoted(m.key)) + 1 + Size(m.value) + 1
  }

  function Weights(ms: seq<Member>): nat
    decreases ms
  {
    if ms == [] then 0 else Weight(ms[0]) + Weights(ms[1..])
  }

  lemma {:induction false} WeightsOfBoth(a: seq<Member>, b: seq<Member>)
    ensures Weights(a + b) == Weights(a) + Weights(b)
  {
    if a == [] {
      assert a + b == b;
    } else {
      assert (a + b)[1..] == a[1..] + b;
      WeightsOfBoth(a[1..], b);
    }
  }

  lemma {:induction false} WeightsOfInsert(m: Member, sorted: seq<Member>, key: Member -> Text)
    ensures Weights(InsertBy(m, sorted, key)) == Weight(m) + Weights(sorted)
  {
    if sorted == [] || Less(key(m), key(sorted[0])) {
      assert ([m] + sorted)[1..] == sorted;
    } else {
      WeightsOfInsert(m, sorted[1..], key);
      var out := InsertBy(m, sorted[1..], key);
      assert ([sorted[0]] + out)[1..] == out;
    }
  }

  lemma {:induction false} WeightsOfSorted(ms: seq<Member>, key: Member -> Text)
    ensures Weights(SortBy(ms, key)) == Weights(ms)
  {
    if ms != [] {
      WeightsOfSorted(ms[1..], key);
      WeightsOfInsert(ms[0], SortBy(ms[1..], key), key);
    }
  }

  function TailBytes(texts: seq<Text>): nat {
    if texts == [] then 0 else 1 + Bytes(texts[0]) + TailBytes(texts[1..])
  }

  lemma {:induction false} BytesOfTail(texts: seq<Text>)
    ensures Bytes(Tail(texts)) == TailBytes(texts)
  {
    if texts != [] {
      BytesOfTail(texts[1..]);
      BytesOfBoth([COMMA] + texts[0], Tail(texts[1..]));
      BytesOfBoth([COMMA], texts[0]);
    }
  }

  lemma BytesOfBracketed(open: CodeUnit, texts: seq<Text>, close: CodeUnit)
    requires open < 0x80 && close < 0x80
    ensures Bytes([open] + Joined(texts) + [close]) == if texts == [] then 2 else 1 + TailBytes(texts)
  {
    BytesOfBoth([open] + Joined(texts), [close]);
    BytesOfBoth([open], Joined(texts));
    if texts != [] {
      BytesOfBoth(texts[0], Tail(texts[1..]));
      BytesOfTail(texts[1..]);
    }
  }

  /** The size of a value is the length of its canonical text in UTF-8. */
  lemma {:induction false} SizeIsTextLength(v: Json)
    requires CanonicalJson(v).Some?
    ensures Bytes(CanonicalJson(v).value) == Size(v)
    decreases v, 1, 0
  {
    match v
    case Array(items) =>
      ItemsSize(items, v);
      BytesOfBracketed(OPEN_ARRAY, ItemTexts(items, v).value, CLOSE_ARRAY);
    case Object(members) =>
      var entries := Sorted(members);
      WeightsOfSorted(members, (m: Member) => m.key);
      MembersSize(entries, v);
      BytesOfBracketed(OPEN_OBJECT, MemberTexts(entries, v).value, CLOSE_OBJECT);
    case _ =>
  }

  lemma {:induction false} ItemsSize(items: seq<Json>, context: Json)
    requires Inside(items, context) && ItemTexts(items, context).Some?
    ensures TailBytes(ItemTexts(items, context).value) == ItemWeights(items)
    decreases context, 0, |items|
  {
    if items != [] {
      InsideTail(items, context);
      SizeIsTextLength(items[0]);
      ItemsSize(items[1..], context);
    }
  }

  lemma {:induction false} MembersSize(entries: seq<Member>, context: Json)
    requires (forall m :: m in entries ==> m.value < context) && MemberTexts(entries, context).Some?
    ensures TailBytes(MemberTexts(entries, context).value) == Weights(entries)
    decreases context, 0, |entries|
  {
    if entries != [] {
      SizeIsTextLength(entries[0].value);
      MembersSize(entries[1..], context);
      var text := CanonicalJson(entries[0].value).value;
      BytesOfBoth(Quoted(entries[0].key) + [COLON], text);
      BytesOfBoth(Quoted(entries[0].key), [COLON]);
    }
  }

  // ---------------------------------------------------------------- records as JSON

  function Ascii(s: string): (t: Text)
    ensures |t| == |s|
  {
    seq(|s|, i requires 0 <= i < |s| => if s[i] < 128 as char then s[i] as CodeUnit else 63)
  }

  const VERSION: Text := [118, 101, 114, 115, 105, 111, 110]
  const TARGET_ID: Text := [116, 97, 114, 103, 101, 116, 73, 100]
  const TWO: Token := [50]
  const THREE: Token := [51]

  function Optional(key: Text, value: Option<Json>): seq<Member> {
    if value.Some? then [Member(key, value.value)] else []
  }

  function TextOrNull(t: Option<Text>): Json {
    if t.Some? then String(t.value) else Null
  }

  function OptionalNumber(t: Option<Token>): Option<Json> {
    if t.Some? then Some(Number(t.value)) else None
  }

  function OptionalText(t: Option<Text>): Option<Json> {
    if t.Some? then Some(String(t.value)) else None
  }

  function StatusJson(s: GateStatus): Json {
    String(match s case Pending => Ascii("pending") case Observed => Ascii("observed") case Voided => Ascii("voided"))
  }

  function SourceJson(s: Source): Json {
    Object([Member(Ascii("blobOid"), String(s.blobOid)), Member(Ascii("byteCount"), Number(s.byteCount)),
            Member(Ascii("path"), String(s.path)), Member(Ascii("sha256"), String(s.sha256))])
  }

  function DefinitionJson(d: Definition): Json {
    Object(d.rest + [Member(Ascii("originUnitId"), TextOrNull(d.originUnitId)), Member(Ascii("target"), d.target),
                     Member(TARGET_ID, String(d.targetId))])
  }

  function ObservationStatuses(artifactStatus: Text, sidecarStatus: Text): seq<Member> {
    [Member(Ascii("artifactStatus"), String(artifactStatus)), Member(Ascii("sidecarStatus"), String(sidecarStatus))]
  }

  function ObservationJson(o: Observation): Json {
    Object(ObservationStatuses(o.artifactStatus, o.sidecarStatus) +
           [Member(Ascii("artifactByteCount"), Number(o.artifactByteCount)), Member(Ascii("artifactSha256"), String(o.artifactSha256)),
            Member(Ascii("sidecarByteCount"), Number(o.sidecarByteCount)), Member(Ascii("sidecarSha256"), String(o.sidecarSha256))])
  }

  /** The members a materialisation and its compact form share. */
  function ItemMembers(rest: seq<Member>, sidecarByteCount: Option<Token>, sidecarSha256: Option<Text>, source: Source): seq<Member> {
    rest + Optional(Ascii("sidecarByteCount"), OptionalNumber(sidecarByteCount))
         + Optional(Ascii("sidecarSha256"), OptionalText(sidecarSha256)) + [Member(Ascii("source"), SourceJson(source))]
  }

  function OptionalObservation(o: Option<Observation>): Option<Json> {
    if o.Some? then Some(ObservationJson(o.value)) else None
  }

  function OptionalStatuses(o: Option<CompactObservation>): Option<Json> {
    if o.Some? then Some(Object(ObservationStatuses(o.value.artifactStatus, o.value.sidecarStatus))) else None
  }

  function MaterialisationJson(i: Materialisation): Json {
    Object(ItemMembers(i.rest, i.sidecarByteCount, i.sidecarSha256, i.source)
           + Optional(Ascii("observation"), OptionalObservation(i.observation))
           + [Member(Ascii("originUnitId"), TextOrNull(i.originUnitId)), Member(Ascii("sourceOid"), String(i.sourceOid)),
              Member(Ascii("target"), i.target), Member(TARGET_ID, String(i.targetId))])
  }

  function CompactItemJson(i: CompactMaterialisation): Json {
    Object(ItemMembers(i.rest, i.sidecarByteCount, i.sidecarSha256, i.source)
           + Optional(Ascii("observation"), OptionalStatuses(i.observation)))
  }

  function ResolutionMembers(rest: seq<Member>, capacities: Option<Json>, sourceOid: Text, status: GateStatus): seq<Member> {
    rest + [Member(Ascii("sourceOid"), String(sourceOid)), Member(Ascii("status"), StatusJson(status))]
         + Optional(Ascii("capacities"), capacities)
  }

  function OptionalSources(sources: Option<seq<Source>>): Option<Json> {
    if sources.Some? then Some(Array(Each(sources.value, SourceJson))) else None
  }

  function ResolutionJson(r: Resolution): Json {
    Object(ResolutionMembers(r.rest, r.capacities, r.sourceOid, r.status)
           + Optional(Ascii("sources"), OptionalSources(r.sources)) + [Member(TARGET_ID, String(r.targetId))])
  }

  function CompactResolutionJson(r: CompactResolution): Json {
    Object(ResolutionMembers(r.rest, r.capacities, r.sourceOid, r.status))
  }

  function RetiredResolutionJson(r: RetiredResolution): Json {
    Object(ResolutionMembers(r.rest, None, r.sourceOid, r.status))
  }

  function TargetMembers(definition: Definition, rest: seq<Member>, items: seq<Json>, resolution: Option<Json>): seq<Member> {
    rest + [Member(Ascii("definition"), DefinitionJson(definition)), Member(Ascii("materialisations"), Array(items))]
         + Optional(Ascii("resolution"), resolution)
  }

  function EvidenceJson(t: Evidence): Json {
    match t
    case Live(definition, rest, materialisations, resolution) =>
      Object(TargetMembers(definition, rest, Each(materialisations, MaterialisationJson),
                           if resolution.Some? then Some(ResolutionJson(resolution.value)) else None))
    case Version2(definition, rest, items, kept) =>
      Object(TargetMembers(definition, rest, Each(items, CompactItemJson),
                           if kept.Some? then Some(CompactResolutionJson(kept.value)) else None)
             + [Member(VERSION, Number(TWO))])
    case Version3(definition, rest, items, retired) =>
      Object(TargetMembers(definition, rest, Each(items, CompactItemJson), Some(RetiredResolutionJson(retired)))
             + [Member(VERSION, Number(THREE))])
  }

  function InputJson(x: Input): Json {
    Object(x.rest + [Member(Ascii("targetEvidence"), Array(Each(x.evidence, EvidenceJson)))])
  }

  // ---------------------------------------------------------------- what compaction saves

  lemma WeightOfOne(m: Member)
    ensures Weights([m]) == Weight(m)
  {
    assert [m][1..] == [];
  }

  lemma SizeOfMembers(a: seq<Member>, b: seq<Member>)
    requires a != []
    ensures Size(Object(a + b)) == Size(Object(a)) + Weights(b)
  {
    WeightsOfBoth(a, b);
  }

  lemma WeightOfOptional(key: Text, small: Option<Json>, large: Option<Json>)
    requires small.Some? ==> large.Some? && Size(small.value) <= Size(large.value)
    ensures Weights(Optional(key, small)) <= Weights(Optional(key, large))
  {
    if small.Some? { WeightOfOne(Member(key, small.value)); }
    if large.Some? { WeightOfOne(Member(key, large.value)); }
  }

  /** The compact form of a materialisation is never the longer one. */
  lemma ItemShrinks(i: Materialisation)
    ensures Size(CompactItemJson(CompactItem(i))) <= Size(MaterialisationJson(i))
  {
    var shared := ItemMembers(i.rest, i.sidecarByteCount, i.sidecarSha256, i.source);
    var key := Ascii("observation");
    var small, large := OptionalStatuses(CompactItem(i).observation), OptionalObservation(i.observation);
    if i.observation.Some? {
      var o := i.observation.value;
      SizeOfMembers(ObservationStatuses(o.artifactStatus, o.sidecarStatus),
                    [Member(Ascii("artifactByteCount"), Number(o.artifactByteCount)), Member(Ascii("artifactSha256"), String(o.artifactSha256)),
                     Member(Ascii("sidecarByteCount"), Number(o.sidecarByteCount)), Member(Ascii("sidecarSha256"), String(o.sidecarSha256))]);
    }
    WeightOfOptional(key, small, large);
    SizeOfMembers(shared, Optional(key, small));
    SizeOfMembers(shared, Optional(key, large));
    SizeOfMembers(shared + Optional(key, large),
                  [Member(Ascii("originUnitId"), TextOrNull(i.originUnitId)), Member(Ascii("sourceOid"), String(i.sourceOid)),
                   Member(Ascii("target"), i.target), Member(TARGET_ID, String(i.targetId))]);
  }

  lemma {:induction false} ItemsShrink(items: seq<Materialisation>)
    ensures ItemWeights(Each(CompactItems(items), CompactItemJson)) <= ItemWeights(Each(items, MaterialisationJson))
  {
    if items != [] {
      ItemShrinks(items[0]);
      ItemsShrink(items[1..]);
      assert Each(items, MaterialisationJson)[1..] == Each(items[1..], MaterialisationJson);
      assert Each(CompactItems(items), CompactItemJson)[1..] == Each(CompactItems(items[1..]), CompactItemJson);
    }
  }

  lemma ArrayShrinks(items: seq<Materialisation>)
    ensures Size(Array(Each(CompactItems(items), CompactItemJson))) <= Size(Array(Each(items, MaterialisationJson)))
  {
    ItemsShrink(items);
  }

  lemma BytesOfVersion()
    ensures Weight(Member(VERSION, Number(TWO))) == 12 && Weight(Member(VERSION, Number(THREE))) == 12
  {
    QuotedPlain(VERSION);
    BytesOfAscii(TWO);
    BytesOfAscii(THREE);
    assert Size(Number(TWO)) == 1 && Size(Number(THREE)) == 1;
  }

  /** A code unit JSON prints as itself. */
  predicate Plain(c: CodeUnit) {
    32 <= c < 128 && c != 34 && c != 92
  }

  lemma {:induction false} BytesOfAscii(t: Text)
    requires forall i :: 0 <= i < |t| ==> t[i] < 0x80
    ensures Bytes(t) == |t|
  {
    if t != [] { BytesOfAscii(t[1..]); }
  }

  lemma {:induction false} EscapedPlain(t: Text)
    requires forall i :: 0 <= i < |t| ==> Plain(t[i])
    ensures Escaped(t) == t
  {
    if t != [] {
      EscapedPlain(t[1..]);
      assert t == [t[0]] + t[1..];
    }
  }

  lemma QuotedPlain(t: Text)
    requires forall i :: 0 <= i < |t| ==> Plain(t[i])
    ensures Bytes(Quoted(t)) == |t| + 2
  {
    EscapedPlain(t);
    BytesOfAscii(Quoted(t));
  }

  lemma QuotedAtLeast(t: Text)
    requires t != []
    ensures Bytes(Quoted(t)) >= 3
  {
    assert |Escaped(t)| >= |Escape(t[0])| >= 1;
    BytesAtLeast(Quoted(t));
  }

  lemma ResolutionShrinks(r: Resolution)
    requires r.targetId != []
    ensures Size(ResolutionJson(r)) >= Size(Object(ResolutionMembers(r.rest, r.capacities, r.sourceOid, r.status))) + 15
  {
    var shared := ResolutionMembers(r.rest, r.capacities, r.sourceOid, r.status);
    var sources := Optional(Ascii("sources"), OptionalSources(r.sources));
    var id := Member(TARGET_ID, String(r.targetId));
    SizeOfMembers(shared, sources);
    SizeOfMembers(shared + sources, [id]);
    WeightOfOne(id);
    WeightOfTargetId(r.targetId);
  }

  lemma WeightOfTargetId(id: Text)
    requires id != []
    ensures Weight(Member(TARGET_ID, String(id))) >= 15
  {
    QuotedPlain(TARGET_ID);
    QuotedAtLeast(id);
  }

  lemma SizeOfFour(a: seq<Member>, d: Member, m: Member, o: seq<Member>)
    ensures Size(Object(a + [d, m] + o)) == 1 + Weights(a) + Weight(d) + Weight(m) + Weights(o)
  {
    WeightsOfFour(a, d, m, o);
    SizeOfSome(a + [d, m] + o);
  }

  lemma SizeOfSome(ms: seq<Member>)
    requires |ms| > 0
    ensures Size(Object(ms)) == 1 + Weights(ms)
  {
  }

  lemma WeightsOfFour(a: seq<Member>, d: Member, m: Member, o: seq<Member>)
    ensures Weights(a + [d, m] + o) == Weights(a) + Weight(d) + Weight(m) + Weights(o)
  {
    WeightsOfBoth(a + [d, m], o);
    WeightsOfBoth(a, [d, m]);
    WeightsOfTwo(d, m);
  }

  lemma WeightsOfTwo(d: Member, m: Member)
    ensures Weights([d, m]) == Weight(d) + Weight(m)
  {
    assert [d, m][1..] == [m];
    WeightOfOne(m);
  }

  /** Two targets that differ in their items and resolution only. */
  lemma TargetSizes(definition: Definition, rest: seq<Member>, a: seq<Json>, b: seq<Json>, p: Json, q: Json)
    requires Size(Array(a)) <= Size(Array(b)) && Size(p) + 15 <= Size(q)
    ensures Size(Object(TargetMembers(definition, rest, a, Some(p)))) + 15 <= Size(Object(TargetMembers(definition, rest, b, Some(q))))
  {
    var d := Member(Ascii("definition"), DefinitionJson(definition));
    var key, resolution := Ascii("materialisations"), Ascii("resolution");
    SizeOfFour(rest, d, Member(key, Array(a)), Optional(resolution, Some(p)));
    SizeOfFour(rest, d, Member(key, Array(b)), Optional(resolution, Some(q)));
    WeightOfOne(Member(resolution, p));
    WeightOfOne(Member(resolution, q));
  }

  lemma VersionAdds(members: seq<Member>, version: Token)
    requires members != [] && version in {TWO, THREE}
    ensures Size(Object(members + [Member(VERSION, Number(version))])) == Size(Object(members)) + 12
  {
    BytesOfVersion();
    SizeOfMembers(members, [Member(VERSION, Number(version))]);
    WeightOfOne(Member(VERSION, Number(version)));
  }

  lemma ResolvedDifference(t: Evidence)
    requires t.Live? && Compactable(t) && t.definition.targetId != [] && t.resolution.Some?
    ensures Size(EvidenceJson(CompactShape(t))) + 3 <= Size(EvidenceJson(t))
  {
    var r := t.resolution.value;
    var small, large := Each(CompactItems(t.materialisations), CompactItemJson), Each(t.materialisations, MaterialisationJson);
    var kept := Object(ResolutionMembers(r.rest, r.capacities, r.sourceOid, r.status));
    ArrayShrinks(t.materialisations);
    ResolutionShrinks(r);
    TargetSizes(t.definition, t.rest, small, large, kept, ResolutionJson(r));
    VersionAdds(TargetMembers(t.definition, t.rest, small, Some(kept)), if r.capacities.None? then THREE else TWO);
  }

  lemma UnresolvedDifference(t: Evidence)
    requires t.Live? && Compactable(t) && t.resolution.None?
    ensures Size(EvidenceJson(CompactShape(t))) == Size(EvidenceJson(t)) + 12
  {
    assert Each(CompactItems(t.materialisations), CompactItemJson) == Each(t.materialisations, MaterialisationJson);
    VersionAdds(TargetMembers(t.definition, t.rest, [], None), TWO);
  }

  /**
   Compaction makes the text of a compactable live target at least three bytes shorter when it has a
   resolution, and exactly twelve bytes longer when it has none.
   */
  lemma TargetDifference(t: Evidence)
    requires t.Live? && Compactable(t) && t.definition.targetId != []
    ensures t.resolution.Some? ==> Size(EvidenceJson(CompactShape(t))) + 3 <= Size(EvidenceJson(t))
    ensures t.resolution.None? ==> Size(EvidenceJson(CompactShape(t))) == Size(EvidenceJson(t)) + 12
  {
    if t.resolution.Some? { ResolvedDifference(t); } else { UnresolvedDifference(t); }
  }

  /** The byte difference entry by entry, summed. */
  function Differences(from: seq<Evidence>, to: seq<Evidence>): int
    requires |from| == |to|
  {
    if from == [] then 0
    else Size(EvidenceJson(to[0])) - Size(EvidenceJson(from[0])) + Differences(from[1..], to[1..])
  }

  lemma {:induction false} WeightsDiffer(from: seq<Evidence>, to: seq<Evidence>)
    requires |from| == |to|
    ensures ItemWeights(Each(to, EvidenceJson)) == ItemWeights(Each(from, EvidenceJson)) + Differences(from, to)
  {
    if from != [] {
      WeightsDiffer(from[1..], to[1..]);
      assert Each(from, EvidenceJson)[1..] == Each(from[1..], EvidenceJson);
      assert Each(to, EvidenceJson)[1..] == Each(to[1..], EvidenceJson);
    }
  }

  /** The differences add up: nothing else of the projection changes size. */
  lemma ProjectionDifference(x: Input)
    requires Compacted(x).Some?
    ensures Size(InputJson(Compacted(x).value)) == Size(InputJson(x)) + Differences(x.evidence, Compacted(x).value.evidence)
  {
    var c := Compacted(x).value;
    var key := Ascii("targetEvidence");
    var a, b := Member(key, Array(Each(x.evidence, EvidenceJson))), Member(key, Array(Each(c.evidence, EvidenceJson)));
    WeightsDiffer(x.evidence, c.evidence);
    SizeWithLast(x.rest, a);
    SizeWithLast(x.rest, b);
  }

  lemma SizeWithLast(rest: seq<Member>, m: Member)
    ensures Size(Object(rest + [m])) == 1 + Weights(rest) + Weight(m)
  {
    WeightsOfBoth(rest, [m]);
    WeightOfOne(m);
  }

  function Count(ts: seq<Evidence>, resolved: bool): nat {
    if ts == [] then 0 else Count(ts[1..], resolved) + if ts[0].Live? && (ts[0].resolution.Some? <==> resolved) then 1 else 0
  }

  lemma {:induction false} DifferencesBounded(from: seq<Evidence>, to: seq<Evidence>)
    requires |from| == |to|
    requires forall i :: 0 <= i < |from| ==> CompactTarget(from[i]) == Some(to[i]) && from[i].definition.targetId != []
    ensures Differences(from, to) <= 12 * Count(from, false) - 3 * Count(from, true)
  {
    if from != [] {
      DifferencesBounded(from[1..], to[1..]);
      if from[0].Live? { TargetDifference(from[0]); }
    }
  }

  /** projectionStorageByteLength */
  function StorageBytes(x: Input): Option<nat> {
    var stored := if Compacted(x).Some? then Compacted(x).value else x;
    var text := CanonicalJson(InputJson(stored));
    if text.None? then None else Some(Bytes(text.value))
  }

  /** What a compactable projection occupies when stored, against the length of its own text. */
  lemma StorageIsBounded(x: Input)
    requires Compacted(x).Some? && forall t :: t in x.evidence ==> t.definition.targetId != []
    requires CanonicalJson(InputJson(x)).Some? && StorageBytes(x).Some?
    ensures StorageBytes(x).value <= Bytes(CanonicalJson(InputJson(x)).value) + 12 * Count(x.evidence, false) - 3 * Count(x.evidence, true)
  {
    var c := Compacted(x).value;
    ProjectionDifference(x);
    SizeIsTextLength(InputJson(x));
    SizeIsTextLength(InputJson(c));
    forall i | 0 <= i < |x.evidence|
      ensures x.evidence[i].definition.targetId != []
    {
      assert x.evidence[i] in x.evidence;
    }
    DifferencesBounded(x.evidence, c.evidence);
  }
}

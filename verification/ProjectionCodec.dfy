/**
 The provenance projection codec (src/protocol/projection.ts): the frozen evidence of a gate is stored
 without what its target definition and resolution already fix, and hydration puts it back.

 `rest` of a record is the fields the codec copies without looking at them.
 */
module ProjectionCodec {
  import opened Wrappers
  import opened Text
  import opened Canonical

  datatype GateStatus = Pending | Observed | Voided

  datatype Source = Source(blobOid: Text, byteCount: Token, path: Text, sha256: Text)

  datatype Definition = Definition(rest: seq<Member>, originUnitId: Option<Text>, target: Json, targetId: Text)

  datatype Observation = Observation(
    artifactByteCount: Token, artifactSha256: Text, artifactStatus: Text,
    sidecarByteCount: Token, sidecarSha256: Text, sidecarStatus: Text)

  datatype CompactObservation = CompactObservation(artifactStatus: Text, sidecarStatus: Text)

  datatype Materialisation = Materialisation(
    rest: seq<Member>, observation: Option<Observation>, originUnitId: Option<Text>,
    sidecarByteCount: Option<Token>, sidecarSha256: Option<Text>,
    source: Source, sourceOid: Text, target: Json, targetId: Text)

  datatype CompactMaterialisation = CompactMaterialisation(
    rest: seq<Member>, observation: Option<CompactObservation>,
    sidecarByteCount: Option<Token>, sidecarSha256: Option<Text>, source: Source)

  datatype Resolution = Resolution(
    rest: seq<Member>, capacities: Option<Json>, sourceOid: Text, sources: Option<seq<Source>>, status: GateStatus, targetId: Text)

  datatype CompactResolution = CompactResolution(rest: seq<Member>, capacities: Option<Json>, sourceOid: Text, status: GateStatus)

  /** The version-3 resolution has no field for the live budget at all. */
  datatype RetiredResolution = RetiredResolution(rest: seq<Member>, sourceOid: Text, status: GateStatus)

  datatype Evidence =
    | Live(definition: Definition, rest: seq<Member>, materialisations: seq<Materialisation>, resolution: Option<Resolution>)
    | Version2(definition: Definition, rest: seq<Member>, items: seq<CompactMaterialisation>, kept: Option<CompactResolution>)
    | Version3(definition: Definition, rest: seq<Member>, items: seq<CompactMaterialisation>, retired: RetiredResolution)

  datatype Input = Input(rest: seq<Member>, evidence: seq<Evidence>)

  // ---------------------------------------------------------------- compaction

  function CompactItem(item: Materialisation): CompactMaterialisation {
    CompactMaterialisation(
      item.rest,
      if item.observation.None? then None
      else Some(CompactObservation(item.observation.value.artifactStatus, item.observation.value.sidecarStatus)),
      item.sidecarByteCount, item.sidecarSha256, item.source)
  }

  function CompactItems(items: seq<Materialisation>): (out: seq<CompactMaterialisation>)
    ensures |out| == |items|
    ensures forall i :: 0 <= i < |items| ==> out[i] == CompactItem(items[i])
  {
    seq(|items|, i requires 0 <= i < |items| => CompactItem(items[i]))
  }

  /** compactTargetEvidenceShape: the version is decided by what there is to drop. */
  function CompactShape(t: Evidence): Evidence
    requires t.Live?
  {
    var items := CompactItems(t.materialisations);
    if t.resolution.None? then Version2(t.definition, t.rest, items, None)
    else
      var r := t.resolution.value;
      if r.capacities.None? then Version3(t.definition, t.rest, items, RetiredResolution(r.rest, r.sourceOid, r.status))
      else Version2(t.definition, t.rest, items, Some(CompactResolution(r.rest, r.capacities, r.sourceOid, r.status)))
  }

  predicate CompactableItem(item: Materialisation, definition: Definition, sourceOid: Text) {
    && item.targetId == definition.targetId && item.originUnitId == definition.originUnitId
    && item.sourceOid == sourceOid && item.target == definition.target
    && (item.observation.Some? ==>
          var o := item.observation.value;
          && item.sidecarByteCount == Some(o.sidecarByteCount) && item.sidecarSha256 == Some(o.sidecarSha256)
          && o.artifactByteCount == item.source.byteCount && o.artifactSha256 == item.source.sha256)
  }

  function SourcesOf(items: seq<Materialisation>): (out: seq<Source>)
    ensures |out| == |items|
    ensures forall i :: 0 <= i < |items| ==> out[i] == items[i].source
  {
    seq(|items|, i requires 0 <= i < |items| => items[i].source)
  }

  predicate Compactable(t: Evidence)
    requires t.Live?
  {
    if t.resolution.None? then t.materialisations == []
    else
      var r := t.resolution.value;
      && (r.sources.Some? <==> r.status == Observed)
      && r.targetId == t.definition.targetId
      && (r.sources.Some? ==> r.sources.value == SourcesOf(t.materialisations))
      && forall item :: item in t.materialisations ==> CompactableItem(item, t.definition, r.sourceOid)
  }

  function CompactTarget(t: Evidence): Option<Evidence> {
    if !t.Live? then Some(t)
    else if Compactable(t) then Some(CompactShape(t)) else None
  }

  /** Every element through f, or nothing when one of them gives nothing. */
  function Through<T, U>(xs: seq<T>, f: T -> Option<U>): (out: Option<seq<U>>)
    ensures out.Some? <==> forall x :: x in xs ==> f(x).Some?
    ensures out.Some? ==> |out.value| == |xs|
    ensures out.Some? ==> forall i :: 0 <= i < |xs| ==> f(xs[i]) == Some(out.value[i])
  {
    if xs == [] then Some([])
    else
      var last, rest := f(xs[|xs| - 1]), Through(xs[..|xs| - 1], f);
      assert xs == xs[..|xs| - 1] + [xs[|xs| - 1]];
      if last.Some? && rest.Some? then Some(rest.value + [last.value]) else None
  }

  lemma ThroughNext<T, U>(xs: seq<T>, i: nat, f: T -> Option<U>, done: seq<U>)
    requires i < |xs| && Through(xs[..i], f) == Some(done)
    ensures Through(xs[..i + 1], f) == if f(xs[i]).Some? then Some(done + [f(xs[i]).value]) else None
  {
    assert xs[..i + 1][..i] == xs[..i];
  }

  lemma ThroughStops<T, U>(xs: seq<T>, i: nat, f: T -> Option<U>)
    requires i < |xs| && f(xs[i]).None?
    ensures Through(xs, f).None?
  {
    assert xs[i] in xs;
  }

  function Compacted(input: Input): Option<Input> {
    var evidence := Through(input.evidence, CompactTarget);
    if evidence.None? then None else Some(input.(evidence := evidence.value))
  }

  /** compactProvenanceInput */
  method CompactProvenanceInput(input: Input) returns (r: Option<Input>)
    ensures r == Compacted(input)
  {
    var targetEvidence: seq<Evidence> := [];
    for i := 0 to |input.evidence|
      invariant Through(input.evidence[..i], CompactTarget) == Some(targetEvidence)
    {
      var target := input.evidence[i];
      ThroughNext(input.evidence, i, CompactTarget, targetEvidence);
      if !target.Live? {
        targetEvidence := targetEvidence + [target];
        continue;
      }
      if !Compactable(target) {
        ThroughStops(input.evidence, i, CompactTarget);
        return None;
      }
      targetEvidence := targetEvidence + [CompactShape(target)];
    }
    assert input.evidence[..|input.evidence|] == input.evidence;
    r := Some(input.(evidence := targetEvidence));
  }

  // ---------------------------------------------------------------- hydration

  function HydrateItem(item: CompactMaterialisation, definition: Definition, sourceOid: Text): Option<Materialisation> {
    if item.observation.Some? && (item.sidecarByteCount.None? || item.sidecarSha256.None?) then None
    else
      Some(Materialisation(
        item.rest,
        if item.observation.None? then None
        else Some(Observation(item.source.byteCount, item.source.sha256, item.observation.value.artifactStatus,
                              item.sidecarByteCount.value, item.sidecarSha256.value, item.observation.value.sidecarStatus)),
        definition.originUnitId, item.sidecarByteCount, item.sidecarSha256,
        item.source, sourceOid, definition.target, definition.targetId))
  }

  function Hydrator(definition: Definition, sourceOid: Text): CompactMaterialisation -> Option<Materialisation> {
    item => HydrateItem(item, definition, sourceOid)
  }

  function Rebuilt(t: Evidence, items: seq<Materialisation>, rest: seq<Member>, capacities: Option<Json>, sourceOid: Text, status: GateStatus): Evidence {
    Live(t.definition, t.rest, items,
         Some(Resolution(rest, capacities, sourceOid, if status == Observed then Some(SourcesOf(items)) else None, status, t.definition.targetId)))
  }

  function HydrateTarget(t: Evidence): (out: Option<Evidence>)
    ensures out.Some? ==> out.value.Live?
  {
    match t
    case Live(_, _, _, _) => Some(t)
    case Version2(definition, rest, items, None) => if items == [] then Some(Live(definition, rest, [], None)) else None
    case Version2(definition, _, items, Some(r)) =>
      var hydrated := Through(items, Hydrator(definition, r.sourceOid));
      if hydrated.None? then None else Some(Rebuilt(t, hydrated.value, r.rest, r.capacities, r.sourceOid, r.status))
    case Version3(definition, _, items, r) =>
      var hydrated := Through(items, Hydrator(definition, r.sourceOid));
      if hydrated.None? then None else Some(Rebuilt(t, hydrated.value, r.rest, None, r.sourceOid, r.status))
  }

  /** What the schema of the hydrated view asks beyond the record types: live arms, no empty source list. */
  predicate ViewOk(input: Input) {
    forall t :: t in input.evidence ==> t.Live? && (t.resolution.Some? ==> t.resolution.value.sources != Some([]))
  }

  function Hydrated(input: Input): Option<Input> {
    var evidence := Through(input.evidence, HydrateTarget);
    if evidence.None? then None
    else
      var view := input.(evidence := evidence.value);
      if ViewOk(view) then Some(view) else None
  }

  /** hydrateProvenanceInput */
  method HydrateProvenanceInput(input: Input) returns (r: Option<Input>)
    ensures r == Hydrated(input)
  {
    var targetEvidence: seq<Evidence> := [];
    for i := 0 to |input.evidence|
      invariant Through(input.evidence[..i], HydrateTarget) == Some(targetEvidence)
    {
      ThroughNext(input.evidence, i, HydrateTarget, targetEvidence);
      var hydrated := HydrateTargetEvidence(input.evidence[i]);
      if hydrated.None? {
        ThroughStops(input.evidence, i, HydrateTarget);
        return None;
      }
      targetEvidence := targetEvidence + [hydrated.value];
    }
    assert input.evidence[..|input.evidence|] == input.evidence;
    var view := input.(evidence := targetEvidence);
    r := if ViewOk(view) then Some(view) else None;
  }

  /** hydrateTargetEvidence, with its loop over the stored entries. */
  method HydrateTargetEvidence(t: Evidence) returns (r: Option<Evidence>)
    ensures r == HydrateTarget(t)
  {
    if t.Live? { return Some(t); }
    if t.Version2? && t.kept.None? {
      return if t.items == [] then Some(Live(t.definition, t.rest, [], None)) else None;
    }
    var sourceOid := if t.Version2? then t.kept.value.sourceOid else t.retired.sourceOid;
    var hydrated: seq<Materialisation> := [];
    for i := 0 to |t.items|
      invariant Through(t.items[..i], Hydrator(t.definition, sourceOid)) == Some(hydrated)
    {
      ThroughNext(t.items, i, Hydrator(t.definition, sourceOid), hydrated);
      var entry := HydrateItem(t.items[i], t.definition, sourceOid);
      if entry.None? {
        ThroughStops(t.items, i, Hydrator(t.definition, sourceOid));
        return None;
      }
      hydrated := hydrated + [entry.value];
    }
    assert t.items[..|t.items|] == t.items;
    r := Some(if t.Version2? then Rebuilt(t, hydrated, t.kept.value.rest, t.kept.value.capacities, sourceOid, t.kept.value.status)
              else Rebuilt(t, hydrated, t.retired.rest, None, sourceOid, t.retired.status));
  }

  // ---------------------------------------------------------------- the round trip

  predicate IsLive(input: Input) {
    forall t :: t in input.evidence ==> t.Live?
  }

  lemma ItemRoundTrip(item: Materialisation, definition: Definition, sourceOid: Text)
    requires CompactableItem(item, definition, sourceOid)
    ensures HydrateItem(CompactItem(item), definition, sourceOid) == Some(item)
  {
  }

  lemma ItemsRoundTrip(items: seq<Materialisation>, definition: Definition, sourceOid: Text)
    requires forall item :: item in items ==> CompactableItem(item, definition, sourceOid)
    ensures Through(CompactItems(items), Hydrator(definition, sourceOid)) == Some(items)
  {
    var f := Hydrator(definition, sourceOid);
    forall i | 0 <= i < |items|
      ensures f(CompactItems(items)[i]) == Some(items[i])
    {
      assert items[i] in items;
      ItemRoundTrip(items[i], definition, sourceOid);
    }
    ThroughIs(CompactItems(items), f, items);
  }

  lemma ThroughIs<T, U>(xs: seq<T>, f: T -> Option<U>, ys: seq<U>)
    requires |xs| == |ys| && forall i :: 0 <= i < |xs| ==> f(xs[i]) == Some(ys[i])
    ensures Through(xs, f) == Some(ys)
  {
    forall x | x in xs
      ensures f(x).Some?
    {
      var i :| 0 <= i < |xs| && xs[i] == x;
    }
    assert Through(xs, f).value == ys;
  }

  lemma TargetRoundTrip(t: Evidence)
    requires t.Live? && Compactable(t)
    ensures HydrateTarget(CompactShape(t)) == Some(t)
  {
    if t.resolution.Some? {
      ItemsRoundTrip(t.materialisations, t.definition, t.resolution.value.sourceOid);
    }
  }

  /** Hydrating the compact form of a live projection gives it back, all of it, whenever compaction is willing. */
  lemma RoundTrip(x: Input)
    requires ViewOk(x) && Compacted(x).Some?
    ensures Hydrated(Compacted(x).value) == Some(x)
  {
    var c := Compacted(x).value;
    forall i | 0 <= i < |x.evidence|
      ensures HydrateTarget(c.evidence[i]) == Some(x.evidence[i])
    {
      assert x.evidence[i] in x.evidence;
      assert CompactTarget(x.evidence[i]) == Some(c.evidence[i]);
      TargetRoundTrip(x.evidence[i]);
    }
    ThroughIs(c.evidence, HydrateTarget, x.evidence);
  }

  /** A version-2 entry whose resolution has no budget left: the form compaction no longer writes. */
  predicate Superseded(t: Evidence) {
    t.Version2? && t.kept.Some? && t.kept.value.capacities.None?
  }

  function Upgraded(t: Evidence): Evidence {
    if Superseded(t) then Version3(t.definition, t.rest, t.items, RetiredResolution(t.kept.value.rest, t.kept.value.sourceOid, t.kept.value.status))
    else t
  }

  lemma HydratedItemIsCompactable(item: CompactMaterialisation, definition: Definition, sourceOid: Text)
    requires HydrateItem(item, definition, sourceOid).Some?
    ensures var full := HydrateItem(item, definition, sourceOid).value;
            CompactableItem(full, definition, sourceOid) && CompactItem(full) == item
  {
  }

  lemma HydratedItemsAreCompactable(items: seq<CompactMaterialisation>, definition: Definition, sourceOid: Text)
    requires Through(items, Hydrator(definition, sourceOid)).Some?
    ensures var full := Through(items, Hydrator(definition, sourceOid)).value;
            && (forall item :: item in full ==> CompactableItem(item, definition, sourceOid))
            && CompactItems(full) == items
  {
    var f := Hydrator(definition, sourceOid);
    var full := Through(items, f).value;
    forall i | 0 <= i < |items|
      ensures CompactableItem(full[i], definition, sourceOid) && CompactItem(full[i]) == items[i]
    {
      assert f(items[i]) == Some(full[i]);
      HydratedItemIsCompactable(items[i], definition, sourceOid);
    }
  }

  lemma TargetRecompacts(t: Evidence)
    requires !t.Live? && HydrateTarget(t).Some?
    ensures CompactTarget(HydrateTarget(t).value) == Some(Upgraded(t))
  {
    if t.Version3? {
      HydratedItemsAreCompactable(t.items, t.definition, t.retired.sourceOid);
    } else if t.kept.Some? {
      HydratedItemsAreCompactable(t.items, t.definition, t.kept.value.sourceOid);
    }
  }

  function UpgradedAll(ts: seq<Evidence>): (out: seq<Evidence>)
    ensures |out| == |ts|
    ensures forall i :: 0 <= i < |ts| ==> out[i] == Upgraded(ts[i])
  {
    seq(|ts|, i requires 0 <= i < |ts| => Upgraded(ts[i]))
  }

  /**
   A fully compact projection that hydrates re-compacts to itself exactly when no entry is a version-2
   resolution without a budget; each such entry comes back as its version-3 form.
   */
  lemma Recompaction(y: Input)
    requires (forall t :: t in y.evidence ==> !t.Live?) && Hydrated(y).Some?
    ensures Compacted(Hydrated(y).value) == Some(y.(evidence := UpgradedAll(y.evidence)))
    ensures Compacted(Hydrated(y).value) == Some(y) <==> forall t :: t in y.evidence ==> !Superseded(t)
  {
    var x := Hydrated(y).value;
    forall i | 0 <= i < |y.evidence|
      ensures CompactTarget(x.evidence[i]) == Some(UpgradedAll(y.evidence)[i])
    {
      assert y.evidence[i] in y.evidence;
      assert HydrateTarget(y.evidence[i]) == Some(x.evidence[i]);
      TargetRecompacts(y.evidence[i]);
    }
    ThroughIs(x.evidence, CompactTarget, UpgradedAll(y.evidence));
    if UpgradedAll(y.evidence) == y.evidence {
      forall t | t in y.evidence
        ensures !Superseded(t)
      {
        var i :| 0 <= i < |y.evidence| && y.evidence[i] == t;
        assert Upgraded(y.evidence[i]) == y.evidence[i];
      }
    }
    if forall t :: t in y.evidence ==> !Superseded(t) {
      assert UpgradedAll(y.evidence) == y.evidence;
    }
  }

  /** projectionEncodingIsCanonical, on values: canonical texts agree exactly when values do. */
  predicate EncodingIsCanonical(input: Input, hydrated: Input) {
    input == hydrated || Compacted(hydrated) == Some(input)
  }

  /** What a reader accepts as the stored form of a view. */
  predicate Accepts(stored: Input, view: Input) {
    Hydrated(stored) == Some(view) && EncodingIsCanonical(stored, view)
  }

  lemma LiveHydratesToItself(x: Input)
    requires ViewOk(x)
    ensures Hydrated(x) == Some(x)
  {
    ThroughIs(x.evidence, HydrateTarget, x.evidence);
  }

  /** A view has one stored encoding, or two when it can be compacted: no half-compacted form is accepted. */
  lemma AtMostTwoEncodings(stored: Input, view: Input)
    requires ViewOk(view)
    ensures Accepts(stored, view) <==> stored == view || Some(stored) == Compacted(view)
  {
    LiveHydratesToItself(view);
    if Some(stored) == Compacted(view) {
      RoundTrip(view);
    }
  }

  lemma CompactionIsIdempotent(x: Input)
    requires Compacted(x).Some?
    ensures Compacted(Compacted(x).value) == Compacted(x)
  {
    var c := Compacted(x).value;
    forall i | 0 <= i < |c.evidence|
      ensures CompactTarget(c.evidence[i]) == Some(c.evidence[i])
    {
      assert CompactTarget(x.evidence[i]) == Some(c.evidence[i]);
    }
    ThroughIs(c.evidence, CompactTarget, c.evidence);
  }

  // ---------------------------------------------------------------- freezing

  /** frozenTargetEvidence */
  function Frozen(t: Evidence): Evidence
    requires t.Live?
  {
    if t.resolution.None? || t.resolution.value.capacities.None? then t
    else t.(resolution := Some(t.resolution.value.(capacities := None)))
  }

  /**
   Freezing drops the live budget and nothing else: a frozen target is as compactable as the live one,
   its compact form never holds a superseded entry, and hydrates back to the frozen target.
   */
  lemma FreezingIsStable(t: Evidence)
    requires t.Live?
    ensures Compactable(Frozen(t)) <==> Compactable(t)
    ensures Compactable(t) ==> HydrateTarget(CompactShape(Frozen(t))) == Some(Frozen(t))
    ensures !Superseded(CompactShape(Frozen(t))) && Upgraded(CompactShape(t)) == CompactShape(t)
    ensures t.resolution.Some? ==> CompactShape(Frozen(t)).Version3?
  {
    if Compactable(t) {
      TargetRoundTrip(Frozen(t));
    }
  }
}

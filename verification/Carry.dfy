/**
 Provenance carries: a new run takes over the deferred provenance of a released one
 (`planProvenanceCarryFromProjection` in src/commands/production-recovery.ts, `executeProvenanceCarryClaim`
 in src/adapters/beads-embedded/index.ts with the claim CAS of dolt-projections.ts, and the reducer).

 Several runs claim at once: each look, each CAS and each observation is one move, and moves of different
 runs interleave in any order. What a store call meets is a parameter of its move.
 A root bead carries one run. Commitments are the values they commit; an ancestor digest is the pair it
 digests.
 */
module Carry {
  import opened Wrappers
  import opened Collections
  import opened Text

  const LINEAGE_LIMIT := 128

  datatype Ancestor = Ancestor(root: Text, runId: Text)

  datatype Stage = Preparing | Working | Released

  /**
   `intent` is the journaled claim of a predecessor, `pending` the imported lineage before the first wave,
   and `lineage` the gate's, while there is a gate.
   */
  datatype Run = Run(
    runId: Text, scope: Text, stage: Stage, revision: nat,
    unsettled: bool, deferred: bool, snapshotOk: bool, integrationKnown: bool,
    intent: Option<Intent>, pending: Option<seq<Ancestor>>, lineage: Option<seq<Ancestor>>, lineageCommitment: seq<Ancestor>, rest: Text)

  datatype Intent = Intent(predecessor: Text, exportId: Export)

  /** The export id commits the predecessor's final aggregate. */
  datatype Export = Export(run: Run)

  datatype Record = Record(exportId: Export, predecessor: Text, claimant: Text)

  datatype Root = Root(run: Run, claims: map<Export, Record>)

  datatype Refusal =
    | NotFound | ScopeMismatch | NotReleased | EffectsUnsettled | ProvenanceNotDeferred
    | SnapshotInvalid | LineageInvalid | LineageLimitExceeded | ProjectionInvalid

  datatype Plan = Planned(lineage: seq<Ancestor>, exportId: Export) | Refused(reason: Refusal)

  predicate NoDuplicates(lineage: seq<Ancestor>) {
    forall i, j :: 0 <= i < j < |lineage| ==> lineage[i] != lineage[j]
  }

  function AncestorsOf(run: Run): seq<Ancestor> {
    if run.lineage.Some? then run.lineage.value else []
  }

  /** planProvenanceCarryFromProjection */
  function PlanCarry(predecessorRoot: Text, currentRoot: Text, current: Run, predecessor: Run): Plan {
    var ancestors := AncestorsOf(predecessor);
    var own := Ancestor(predecessorRoot, predecessor.runId);
    if predecessorRoot == currentRoot then Refused(LineageInvalid)
    else if predecessor.scope != current.scope then Refused(ScopeMismatch)
    else if predecessor.stage != Released then Refused(NotReleased)
    else if predecessor.unsettled then Refused(EffectsUnsettled)
    else if predecessor.lineage.None? || !predecessor.deferred then Refused(ProvenanceNotDeferred)
    else if !predecessor.snapshotOk then Refused(SnapshotInvalid)
    else if !NoDuplicates(ancestors) || predecessor.lineageCommitment != ancestors then Refused(LineageInvalid)
    else if |ancestors| >= LINEAGE_LIMIT then Refused(LineageLimitExceeded)
    else if Ancestor(currentRoot, current.runId) in ancestors || own in ancestors || predecessor.runId == current.runId then Refused(LineageInvalid)
    else if !predecessor.integrationKnown then Refused(ProjectionInvalid)
    else Planned(ancestors + [own], Export(predecessor))
  }

  /** A planned lineage is duplicate-free, within the limit, ends in the predecessor and never meets the claimant. */
  lemma PlannedLineageIsSound(predecessorRoot: Text, currentRoot: Text, current: Run, predecessor: Run)
    requires PlanCarry(predecessorRoot, currentRoot, current, predecessor).Planned?
    ensures var l := PlanCarry(predecessorRoot, currentRoot, current, predecessor).lineage;
            && NoDuplicates(l) && 0 < |l| <= LINEAGE_LIMIT
            && l[|l| - 1] == Ancestor(predecessorRoot, predecessor.runId)
            && Ancestor(currentRoot, current.runId) !in l
  {
    var ancestors, own := AncestorsOf(predecessor), Ancestor(predecessorRoot, predecessor.runId);
    var l := ancestors + [own];
    forall i, j | 0 <= i < j < |l|
      ensures l[i] != l[j]
    {
      assert i < |ancestors| && ancestors[i] in ancestors;
    }
  }

  /** What a carry asks of the two runs, in the order it is asked, with the refusal each failure is given. */
  function Requirements(predecessorRoot: Text, currentRoot: Text, current: Run, predecessor: Run): seq<(bool, Refusal)> {
    var lineage := AncestorsOf(predecessor);
    var theirs, ours := Ancestor(predecessorRoot, predecessor.runId), Ancestor(currentRoot, current.runId);
    [ (predecessorRoot != currentRoot, LineageInvalid),
      (predecessor.scope == current.scope, ScopeMismatch),
      (predecessor.stage.Released?, NotReleased),
      (!predecessor.unsettled, EffectsUnsettled),
      (predecessor.lineage.Some? && predecessor.deferred, ProvenanceNotDeferred),
      (predecessor.snapshotOk, SnapshotInvalid),
      (NoDuplicates(lineage) && predecessor.lineageCommitment == lineage, LineageInvalid),
      (|lineage| < 128, LineageLimitExceeded),
      (theirs !in lineage && ours !in lineage && predecessor.runId != current.runId, LineageInvalid),
      (predecessor.integrationKnown, ProjectionInvalid) ]
  }

  predicate FirstFailure(requirements: seq<(bool, Refusal)>, k: int) {
    0 <= k < |requirements| && !requirements[k].0 && forall j :: 0 <= j < k ==> requirements[j].0
  }

  /** A carry is planned exactly when every requirement is met, and refused for the first that is not. */
  lemma PlannedExactly(predecessorRoot: Text, currentRoot: Text, current: Run, predecessor: Run)
    ensures var plan := PlanCarry(predecessorRoot, currentRoot, current, predecessor);
            var requirements := Requirements(predecessorRoot, currentRoot, current, predecessor);
            && (plan.Planned? <==> forall k :: 0 <= k < |requirements| ==> requirements[k].0)
            && (plan.Planned? ==> plan == Planned(AncestorsOf(predecessor) + [Ancestor(predecessorRoot, predecessor.runId)], Export(predecessor)))
            && (forall k :: FirstFailure(requirements, k) ==> plan == Refused(requirements[k].1))
            && (plan.Refused? ==> exists k :: FirstFailure(requirements, k))
  {
    var requirements := Requirements(predecessorRoot, currentRoot, current, predecessor);
    FirstFailureExists(requirements, |requirements|);
    assert AllMet(requirements, 10) <==> forall k :: 0 <= k < |requirements| ==> requirements[k].0;
    forall k | FirstFailure(requirements, k)
      ensures PlanCarry(predecessorRoot, currentRoot, current, predecessor) == Refused(requirements[k].1)
    {
      assert AllMet(requirements, k) && !requirements[k].0;
    }
  }

  /** The first n requirements, one by one. */
  predicate AllMet(requirements: seq<(bool, Refusal)>, n: nat)
    requires |requirements| == 10 && n <= 10
  {
    && (n > 0 ==> requirements[0].0) && (n > 1 ==> requirements[1].0) && (n > 2 ==> requirements[2].0) && (n > 3 ==> requirements[3].0)
    && (n > 4 ==> requirements[4].0) && (n > 5 ==> requirements[5].0) && (n > 6 ==> requirements[6].0) && (n > 7 ==> requirements[7].0)
    && (n > 8 ==> requirements[8].0) && (n > 9 ==> requirements[9].0)
  }

  lemma {:induction false} FirstFailureExists(requirements: seq<(bool, Refusal)>, n: nat)
    requires n <= |requirements|
    ensures (forall k :: 0 <= k < n ==> requirements[k].0) || exists k :: FirstFailure(requirements, k)
  {
    if n > 0 {
      FirstFailureExists(requirements, n - 1);
      if (forall k :: 0 <= k < n - 1 ==> requirements[k].0) && !requirements[n - 1].0 {
        assert FirstFailure(requirements, n - 1);
      }
    }
  }

  // ---------------------------------------------------------------- claims

  /** The run at `c` has claimed the deferred provenance of the run at `p`. */
  predicate Claims(roots: map<Text, Root>, c: Text, p: Text) {
    && c in roots && p in roots
    && exists e :: e in roots[p].claims && roots[p].claims[e].claimant == roots[c].run.runId
  }

  predicate RunIdsUnique(roots: map<Text, Root>) {
    forall c, d :: c in roots && d in roots && c != d ==> roots[c].run.runId != roots[d].run.runId
  }

  ghost predicate ClaimsOk(roots: map<Text, Root>, released: seq<Text>) {
    && RunIdsUnique(roots)
    && (forall p {:trigger roots[p].claims} :: p in roots ==> |roots[p].claims| <= 1)
    && (forall r {:trigger r in released} :: r in released <==> r in roots && roots[r].run.stage == Released)
    && (forall i, j :: 0 <= i < j < |released| ==> released[i] != released[j])
    && (forall c, p :: Claims(roots, c, p) ==> p in released && (c in released ==> Before(released, p, c)))
  }

  predicate Before(order: seq<Text>, a: Text, b: Text) {
    exists i, j :: 0 <= i < j < |order| && order[i] == a && order[j] == b
  }

  /** What an importing run took over. */
  datatype Taken = Taken(predecessor: Text, lineage: seq<Ancestor>)

  predicate Bounded(lineage: seq<Ancestor>) {
    NoDuplicates(lineage) && |lineage| <= LINEAGE_LIMIT
  }

  /** A final run of the same scope whose effects are settled and whose provenance was deferred. */
  predicate LeftBehind(predecessor: Run, current: Run) {
    && predecessor.scope == current.scope && predecessor.stage == Released && !predecessor.unsettled
    && predecessor.deferred && predecessor.snapshotOk && predecessor.integrationKnown
  }

  ghost predicate Imported(roots: map<Text, Root>, c: Text, taken: Taken) {
    && Claims(roots, c, taken.predecessor) && LeftBehind(roots[taken.predecessor].run, roots[c].run)
    && taken.lineage == AncestorsOf(roots[taken.predecessor].run) + [Ancestor(taken.predecessor, roots[taken.predecessor].run.runId)]
    && Bounded(taken.lineage)
  }

  /** A pending lineage is the imported one; a gate's lineage is the imported one or empty. */
  ghost predicate LineageOk(roots: map<Text, Root>, imports: map<Text, Taken>, c: Text)
    requires c in roots
  {
    var run := roots[c].run;
    && (run.pending.Some? ==> c in imports && run.pending.value == imports[c].lineage && run.stage == Preparing)
    && (c in imports && run.stage == Preparing ==> run.pending.Some?)
    && (run.stage == Preparing ==> run.lineage.None?)
    && (run.lineage.Some? ==> run.lineageCommitment == run.lineage.value
                              && (run.lineage.value == [] || (c in imports && run.lineage.value == imports[c].lineage)))
    && (c in imports ==> Imported(roots, c, imports[c]))
  }

  /** A journaled claim names a released predecessor that can be planned for it. */
  predicate IntentOk(roots: map<Text, Root>, c: Text)
    requires c in roots
  {
    var run := roots[c].run;
    run.intent.Some? ==>
      var p := run.intent.value.predecessor;
      && run.stage != Released
      && p in roots && roots[p].run.stage == Released && run.intent.value.exportId == Export(roots[p].run)
      && PlanCarry(p, c, run, roots[p].run).Planned?
  }

  /** What has been seen of a claim is true of the table. */
  predicate Reports(roots: map<Text, Root>, c: Text, outcome: Outcome)
    requires c in roots && roots[c].run.intent.Some?
  {
    var p, exportId := roots[c].run.intent.value.predecessor, roots[c].run.intent.value.exportId;
    match outcome
    case ImportedCarry(lineage) =>
      Claims(roots, c, p) && PlanCarry(p, c, roots[c].run, roots[p].run) == Planned(lineage, Export(roots[p].run))
    case AlreadyClaimed(claimant) =>
      p in roots && roots[p].claims == map[exportId := Record(exportId, p, claimant)] && claimant != roots[c].run.runId
    case _ => true
  }

  /** The outcomes an execution reports as observed. */
  predicate Settled(outcome: Outcome) {
    outcome.ImportedCarry? || outcome.AlreadyClaimed? || outcome.PredecessorRefused?
  }

  /** An execution of the claim runs only while its intent is journaled. */
  predicate PhaseOk(roots: map<Text, Root>, phases: map<Text, Phase>, c: Text)
    requires c in phases
  {
    c in roots && roots[c].run.intent.Some? && (phases[c].Found? ==> Settled(phases[c].outcome) && Reports(roots, c, phases[c].outcome))
  }

  /** Everything about one root. */
  ghost predicate RootOk(roots: map<Text, Root>, imports: map<Text, Taken>, phases: map<Text, Phase>, c: Text)
    requires c in roots
  {
    LineageOk(roots, imports, c) && IntentOk(roots, c) && (c in phases ==> PhaseOk(roots, phases, c))
  }

  ghost predicate Consistent(roots: map<Text, Root>, released: seq<Text>, imports: map<Text, Taken>, phases: map<Text, Phase>) {
    && ClaimsOk(roots, released)
    && imports.Keys <= roots.Keys && phases.Keys <= roots.Keys
    && forall c {:trigger RootOk(roots, imports, phases, c)} :: c in roots ==> RootOk(roots, imports, phases, c)
  }

  /** One claim per predecessor: a second run cannot hold one. */
  lemma ClaimedOnce(roots: map<Text, Root>, released: seq<Text>, c: Text, d: Text, p: Text)
    requires ClaimsOk(roots, released) && Claims(roots, c, p) && Claims(roots, d, p)
    ensures c == d
  {
    var claims := roots[p].claims;
    var e :| e in claims && claims[e].claimant == roots[c].run.runId;
    var f :| f in claims && claims[f].claimant == roots[d].run.runId;
    AtMostOne(claims.Keys, e, f);
  }

  predicate IsPath(roots: map<Text, Root>, path: seq<Text>) {
    forall i :: 0 <= i < |path| - 1 ==> Claims(roots, path[i], path[i + 1])
  }

  lemma BeforeIsIrreflexive(order: seq<Text>, a: Text)
    requires forall i, j :: 0 <= i < j < |order| ==> order[i] != order[j]
    ensures !Before(order, a, a)
  {
  }

  lemma BeforeIsTransitive(order: seq<Text>, a: Text, b: Text, c: Text)
    requires forall i, j :: 0 <= i < j < |order| ==> order[i] != order[j]
    requires Before(order, a, b) && Before(order, b, c)
    ensures Before(order, a, c)
  {
    var i, j :| 0 <= i < j < |order| && order[i] == a && order[j] == b;
    var k, l :| 0 <= k < l < |order| && order[k] == b && order[l] == c;
    assert j == k;
  }

  /** Along a path of claims, what a released run reaches was released before it. */
  lemma {:induction false} PathsGoBack(roots: map<Text, Root>, released: seq<Text>, path: seq<Text>)
    requires ClaimsOk(roots, released) && IsPath(roots, path) && |path| >= 2 && path[0] in released
    ensures Before(released, path[|path| - 1], path[0])
  {
    assert Claims(roots, path[0], path[1]);
    if |path| > 2 {
      var rest := path[1..];
      forall i | 0 <= i < |rest| - 1
        ensures Claims(roots, rest[i], rest[i + 1])
      {
        assert Claims(roots, path[i + 1], path[i + 2]);
      }
      PathsGoBack(roots, released, rest);
      BeforeIsTransitive(released, path[|path| - 1], path[1], path[0]);
    }
  }

  /** The claim relation has no cycle of any length. */
  lemma NoCycle(roots: map<Text, Root>, released: seq<Text>, path: seq<Text>)
    requires ClaimsOk(roots, released) && IsPath(roots, path) && |path| >= 2
    ensures path[0] != path[|path| - 1]
  {
    if path[0] == path[|path| - 1] {
      assert Claims(roots, path[|path| - 2], path[|path| - 1]);
      PathsGoBack(roots, released, path);
      BeforeIsIrreflexive(released, path[0]);
      assert false;
    }
  }

  // ---------------------------------------------------------------- one run changes

  /** The run at one unreleased root has changed, but neither its identity nor the claims recorded there. */
  predicate RunReplaced(was: map<Text, Root>, now: map<Text, Root>, current: Text) {
    && current in was && was[current].run.stage != Released
    && current in now && now == was[current := now[current]]
    && now[current].claims == was[current].claims
    && now[current].run.runId == was[current].run.runId && now[current].run.scope == was[current].run.scope
  }

  lemma SameClaims(was: map<Text, Root>, now: map<Text, Root>, current: Text)
    requires RunReplaced(was, now, current)
    ensures forall c, p :: Claims(now, c, p) <==> Claims(was, c, p)
  {
    forall c, p
      ensures Claims(now, c, p) <==> Claims(was, c, p)
    {
      assert p in was ==> p in now && now[p].claims == was[p].claims;
      assert c in was ==> c in now && now[c].run.runId == was[c].run.runId;
    }
  }

  lemma ReleasedLater(wasReleased: seq<Text>, released: seq<Text>, current: Text, c: Text, p: Text)
    requires p in wasReleased && (c in wasReleased ==> Before(wasReleased, p, c))
    requires released == wasReleased || released == wasReleased + [current]
    ensures p in released && (c in released ==> Before(released, p, c))
  {
    var i :| 0 <= i < |wasReleased| && wasReleased[i] == p;
    assert released[i] == p;
    if c in wasReleased {
      var k, l :| 0 <= k < l < |wasReleased| && wasReleased[k] == p && wasReleased[l] == c;
      assert released[k] == p && released[l] == c;
    } else if c in released {
      assert released[|wasReleased|] == c;
    }
  }

  /** The release order grows by a root that is released. */
  predicate ReleasedNext(wasReleased: seq<Text>, now: map<Text, Root>, released: seq<Text>, current: Text) {
    current in now && released == if now[current].run.stage == Released then wasReleased + [current] else wasReleased
  }

  lemma ReplacedClaims(was: map<Text, Root>, wasReleased: seq<Text>, now: map<Text, Root>, released: seq<Text>, current: Text)
    requires ClaimsOk(was, wasReleased) && RunReplaced(was, now, current) && ReleasedNext(wasReleased, now, released, current)
    ensures ClaimsOk(now, released)
  {
    SameClaims(was, now, current);
    assert current !in wasReleased;
    forall r
      ensures r in released <==> r in now && now[r].run.stage == Released
    {
      assert r in wasReleased <==> r in was && was[r].run.stage == Released;
    }
    forall c, p | Claims(was, c, p)
      ensures p in released && (c in released ==> Before(released, p, c))
    {
      ReleasedLater(wasReleased, released, current, c, p);
    }
  }

  /** What others carry, intend and have seen rests on released roots, and so on none that changes. */
  lemma OthersStand(was: map<Text, Root>, wasReleased: seq<Text>, imports: map<Text, Taken>, phases: map<Text, Phase>,
                    now: map<Text, Root>, current: Text, c: Text)
    requires ClaimsOk(was, wasReleased) && RunReplaced(was, now, current) && c in was && c != current
    requires RootOk(was, imports, phases, c)
    ensures RootOk(now, imports, phases, c)
  {
    SameClaims(was, now, current);
    if c in imports { assert Claims(was, c, imports[c].predecessor) && imports[c].predecessor in wasReleased; }
  }

  lemma SameEntriesStand(roots: map<Text, Root>, wasImports: map<Text, Taken>, wasPhases: map<Text, Phase>,
                         imports: map<Text, Taken>, phases: map<Text, Phase>, c: Text)
    requires c in roots && RootOk(roots, wasImports, wasPhases, c)
    requires (c in imports <==> c in wasImports) && (c in imports ==> imports[c] == wasImports[c])
    requires (c in phases <==> c in wasPhases) && (c in phases ==> phases[c] == wasPhases[c])
    ensures RootOk(roots, imports, phases, c)
  {
  }

  /** Only the entries of one root may differ. */
  ghost predicate ElsewhereSame(wasImports: map<Text, Taken>, wasPhases: map<Text, Phase>, imports: map<Text, Taken>, phases: map<Text, Phase>, current: Text) {
    && (forall c :: c != current ==> (c in imports <==> c in wasImports) && (c in imports ==> imports[c] == wasImports[c]))
    && (forall c :: c != current ==> (c in phases <==> c in wasPhases) && (c in phases ==> phases[c] == wasPhases[c]))
  }

  /** A change of one run keeps everything when it keeps what concerns that run. */
  lemma ReplacingKeeps(was: map<Text, Root>, wasReleased: seq<Text>, wasImports: map<Text, Taken>, wasPhases: map<Text, Phase>,
                       now: map<Text, Root>, released: seq<Text>, imports: map<Text, Taken>, phases: map<Text, Phase>, current: Text)
    requires Consistent(was, wasReleased, wasImports, wasPhases) && RunReplaced(was, now, current)
    requires ReleasedNext(wasReleased, now, released, current)
    requires ElsewhereSame(wasImports, wasPhases, imports, phases, current)
    requires RootOk(now, imports, phases, current)
    ensures Consistent(now, released, imports, phases)
  {
    ReplacedClaims(was, wasReleased, now, released, current);
    forall c | c in now
      ensures RootOk(now, imports, phases, c)
    {
      if c != current {
        OthersStand(was, wasReleased, wasImports, wasPhases, now, current, c);
        SameEntriesStand(now, wasImports, wasPhases, imports, phases, c);
      }
    }
  }

  /** A step of a run that touches neither its claim nor its carry. */
  lemma OwnStepStands(was: map<Text, Root>, wasReleased: seq<Text>, imports: map<Text, Taken>, phases: map<Text, Phase>,
                      now: map<Text, Root>, current: Text)
    requires ClaimsOk(was, wasReleased) && RunReplaced(was, now, current) && RootOk(was, imports, phases, current)
    requires now[current].run.intent == was[current].run.intent && (now[current].run.intent.Some? ==> now[current].run.stage != Released)
    requires LineageFits(now[current].run, current in imports, if current in imports then imports[current].lineage else [])
    ensures RootOk(now, imports, phases, current)
  {
    SameClaims(was, now, current);
    if current in imports { assert Claims(was, current, imports[current].predecessor); }
  }

  /** The part of a lineage's legality that looks at the run alone. */
  predicate LineageFits(run: Run, imported: bool, lineage: seq<Ancestor>) {
    && (run.pending.Some? ==> imported && run.pending.value == lineage && run.stage == Preparing)
    && (imported && run.stage == Preparing ==> run.pending.Some?)
    && (run.stage == Preparing ==> run.lineage.None?)
    && (run.lineage.Some? ==> run.lineageCommitment == run.lineage.value
                              && (run.lineage.value == [] || (imported && run.lineage.value == lineage)))
  }

  /** A wave plan: the first wave's gate takes over the pending lineage, a later one keeps it or starts empty. */
  predicate PlansWave(run: Run, next: Run) {
    var deferred := run.lineage.Some? && run.deferred;
    var software := next.lineage.None?;
    && next.stage == Working && next.pending.None?
    && (software ==> !deferred && run.pending.None?)
    && (!software ==>
          && next.lineage.value == (if deferred then run.lineage.value else if run.pending.Some? then run.pending.value else [])
          && next.lineageCommitment == next.lineage.value)
  }

  /** Any other step leaves lineage and carry alone; a release has no carry and no claim outstanding, and is final. */
  predicate StepsOn(run: Run, next: Run) {
    && next.pending == run.pending && next.lineage == run.lineage && next.lineageCommitment == run.lineageCommitment
    && (next.stage == run.stage || (next.stage == Released && run.pending.None? && run.intent.None?))
  }

  predicate LegalNext(run: Run, next: Run) {
    && run.stage != Released && next.runId == run.runId && next.scope == run.scope && next.intent == run.intent
    && (PlansWave(run, next) || StepsOn(run, next))
  }

  /**
   What a run carries is never dropped on the way: a deferred gate's lineage stays, a pending one stays or
   becomes the gate's, and a gate starts empty only with nothing carried; a release leaves nothing open.
   */
  lemma CarryIsNotDropped(run: Run, next: Run)
    requires LegalNext(run, next)
    ensures run.lineage.Some? && run.deferred ==> next.lineage == run.lineage
    ensures run.lineage.None? && run.pending.Some? ==> next.lineage == run.pending || (next.pending == run.pending && next.lineage.None?)
    ensures next.lineage != run.lineage ==> next.stage == Working && next.pending.None? && !(run.lineage.Some? && run.deferred)
    ensures next.lineage != run.lineage && next.lineage.Some? ==>
              next.lineage.value == (if run.pending.Some? then run.pending.value else []) && next.lineageCommitment == next.lineage.value
    ensures next.lineage != run.lineage && next.lineage.None? ==> run.pending.None?
    ensures next.pending != run.pending ==> next.pending.None?
    ensures next.stage.Released? ==> next.pending.None? && next.intent.None?
    ensures run.stage != Preparing ==> next.stage != Preparing
    ensures !run.stage.Released? && next.runId == run.runId && next.scope == run.scope && next.intent == run.intent
  {
  }

  lemma LegalNextFits(run: Run, next: Run, imported: bool, lineage: seq<Ancestor>)
    requires LegalNext(run, next) && LineageFits(run, imported, lineage)
    ensures LineageFits(next, imported, lineage)
  {
  }

  lemma ProceedKeeps(was: map<Text, Root>, released: seq<Text>, imports: map<Text, Taken>, phases: map<Text, Phase>, current: Text, next: Run)
    requires Consistent(was, released, imports, phases) && current in was && LegalNext(was[current].run, next)
    ensures Consistent(was[current := Root(next, was[current].claims)],
                       if next.stage == Released then released + [current] else released, imports, phases)
  {
    var now := was[current := Root(next, was[current].claims)];
    assert RootOk(was, imports, phases, current);
    LegalNextFits(was[current].run, next, current in imports, if current in imports then imports[current].lineage else []);
    OwnStepStands(was, released, imports, phases, now, current);
    ReplacingKeeps(was, released, imports, phases, now, if next.stage == Released then released + [current] else released, imports, phases, current);
  }

  /** A run about which nothing is claimed, carried or planned yet may journal the claim of a predecessor. */
  predicate MayPlan(roots: map<Text, Root>, current: Text, predecessor: Text) {
    && current in roots && BeforeFirstWave(roots[current].run) && roots[current].run.intent.None?
    && predecessor in roots && PlanCarry(predecessor, current, roots[current].run, roots[predecessor].run).Planned?
  }

  /** The reducer's guard on every carry event. */
  predicate BeforeFirstWave(run: Run) {
    run.stage == Preparing && run.pending.None? && run.lineage.None?
  }

  function WithIntent(roots: map<Text, Root>, current: Text, predecessor: Text): map<Text, Root>
    requires current in roots && predecessor in roots
  {
    var root := roots[current];
    roots[current := Root(root.run.(intent := Some(Intent(predecessor, Export(roots[predecessor].run)))), root.claims)]
  }

  lemma PlanKeeps(was: map<Text, Root>, released: seq<Text>, imports: map<Text, Taken>, phases: map<Text, Phase>, current: Text, predecessor: Text)
    requires Consistent(was, released, imports, phases) && MayPlan(was, current, predecessor)
    ensures Consistent(WithIntent(was, current, predecessor), released, imports, phases)
  {
    var now := WithIntent(was, current, predecessor);
    assert RootOk(was, imports, phases, current);
    assert now[predecessor] == was[predecessor];
    ReplacingKeeps(was, released, imports, phases, now, released, imports, phases, current);
  }

  function WithoutIntent(roots: map<Text, Root>, current: Text, pending: Option<seq<Ancestor>>): map<Text, Root>
    requires current in roots
  {
    roots[current := Root(roots[current].run.(intent := None, pending := pending), roots[current].claims)]
  }

  lemma RefusalKeeps(was: map<Text, Root>, released: seq<Text>, imports: map<Text, Taken>, phases: map<Text, Phase>, current: Text)
    requires Consistent(was, released, imports, phases) && current in was && BeforeFirstWave(was[current].run)
    ensures Consistent(WithoutIntent(was, current, None), released, imports, phases - {current})
  {
    assert RootOk(was, imports, phases, current);
    ReplacingKeeps(was, released, imports, phases, WithoutIntent(was, current, None), released, imports, phases - {current}, current);
  }

  lemma ImportKeeps(was: map<Text, Root>, released: seq<Text>, imports: map<Text, Taken>, phases: map<Text, Phase>, current: Text, lineage: seq<Ancestor>)
    requires Consistent(was, released, imports, phases) && current in was && BeforeFirstWave(was[current].run)
    requires was[current].run.intent.Some? && Reports(was, current, ImportedCarry(lineage))
    ensures current !in imports
    ensures var predecessor := was[current].run.intent.value.predecessor;
            Consistent(WithoutIntent(was, current, Some(lineage)), released, imports[current := Taken(predecessor, lineage)], phases - {current})
  {
    assert RootOk(was, imports, phases, current);
    var predecessor := was[current].run.intent.value.predecessor;
    var now, taken := WithoutIntent(was, current, Some(lineage)), Taken(predecessor, lineage);
    PlannedLineageIsSound(predecessor, current, was[current].run, was[predecessor].run);
    SameClaims(was, now, current);
    assert now[predecessor] == was[predecessor];
    assert Imported(now, current, taken);
    ReplacingKeeps(was, released, imports, phases, now, released, imports[current := taken], phases - {current}, current);
  }

  lemma PhaseKeeps(roots: map<Text, Root>, released: seq<Text>, imports: map<Text, Taken>, was: map<Text, Phase>, phases: map<Text, Phase>, current: Text)
    requires Consistent(roots, released, imports, was) && current in roots
    requires phases == was - {current} || (current in phases && phases == was[current := phases[current]] && PhaseOk(roots, phases, current))
    ensures Consistent(roots, released, imports, phases)
  {
    forall c | c in roots
      ensures RootOk(roots, imports, phases, c)
    {
      assert RootOk(roots, imports, was, c);
    }
  }

  // ---------------------------------------------------------------- a claim is added

  /** The table after a claim, and the one claim it adds. */
  predicate AddsClaim(was: map<Text, Root>, now: map<Text, Root>, current: Text, predecessor: Text) {
    && current in was && predecessor in was && was[predecessor].claims == map[]
    && predecessor in now && now == was[predecessor := now[predecessor]] && now[predecessor].run == was[predecessor].run
    && now[predecessor].claims == map[Export(was[predecessor].run) := Record(Export(was[predecessor].run), predecessor, was[current].run.runId)]
  }

  lemma OneMoreClaim(was: map<Text, Root>, now: map<Text, Root>, current: Text, predecessor: Text, c: Text, p: Text)
    requires AddsClaim(was, now, current, predecessor) && RunIdsUnique(was)
    ensures Claims(now, c, p) <==> Claims(was, c, p) || (c == current && p == predecessor)
  {
    assert p in was ==> p in now && (p != predecessor ==> now[p].claims == was[p].claims);
    assert c in was ==> c in now && now[c].run == was[c].run;
    if c == current && p == predecessor {
      assert Export(was[predecessor].run) in now[predecessor].claims;
    }
  }

  lemma ClaimKeepsClaims(was: map<Text, Root>, released: seq<Text>, now: map<Text, Root>, current: Text, predecessor: Text)
    requires ClaimsOk(was, released) && AddsClaim(was, now, current, predecessor)
    requires was[current].run.stage != Released && was[predecessor].run.stage == Released
    ensures ClaimsOk(now, released)
  {
    assert |now[predecessor].claims| == 1;
    assert forall c :: c in was ==> now[c].run == was[c].run;
    forall c, p | Claims(now, c, p)
      ensures p in released && (c in released ==> Before(released, p, c))
    {
      OneMoreClaim(was, now, current, predecessor, c, p);
    }
  }

  lemma ClaimKeepsRoot(was: map<Text, Root>, imports: map<Text, Taken>, phases: map<Text, Phase>, now: map<Text, Root>, current: Text, predecessor: Text, c: Text)
    requires RunIdsUnique(was) && AddsClaim(was, now, current, predecessor) && c in was && RootOk(was, imports, phases, c)
    ensures RootOk(now, imports, phases, c)
  {
    assert now[c].run == was[c].run;
    if c in imports { OneMoreClaim(was, now, current, predecessor, c, imports[c].predecessor); }
    if was[c].run.intent.Some? {
      var p := was[c].run.intent.value.predecessor;
      assert now[p].run == was[p].run;
      OneMoreClaim(was, now, current, predecessor, c, p);
    }
  }

  lemma ClaimKeeps(was: map<Text, Root>, released: seq<Text>, imports: map<Text, Taken>, phases: map<Text, Phase>,
                   now: map<Text, Root>, current: Text, predecessor: Text)
    requires Consistent(was, released, imports, phases) && AddsClaim(was, now, current, predecessor)
    requires was[current].run.stage != Released && was[predecessor].run.stage == Released
    ensures Consistent(now, released, imports, phases)
  {
    ClaimKeepsClaims(was, released, now, current, predecessor);
    forall c | c in now
      ensures RootOk(now, imports, phases, c)
    {
      ClaimKeepsRoot(was, imports, phases, now, current, predecessor, c);
    }
  }

  /** A new root with a fresh run: nothing refers to it yet. */
  ghost predicate Begins(was: map<Text, Root>, now: map<Text, Root>, root: Text, run: Run) {
    MayBegin(was, root, run) && now == was[root := Root(run, map[])]
  }

  predicate MayBegin(was: map<Text, Root>, root: Text, run: Run) {
    && root !in was
    && run.stage == Preparing && run.intent.None? && run.pending.None? && run.lineage.None?
    && forall r :: r in was ==> was[r].run.runId != run.runId && Unclaimed(was[r].claims, run.runId)
  }

  predicate Unclaimed(claims: map<Export, Record>, runId: Text) {
    forall e :: e in claims ==> claims[e].claimant != runId
  }

  lemma BeginClaims(was: map<Text, Root>, now: map<Text, Root>, root: Text, run: Run, c: Text, p: Text)
    requires Begins(was, now, root, run)
    ensures Claims(now, c, p) <==> Claims(was, c, p)
  {
    assert p in was ==> now[p] == was[p];
    assert c in was ==> now[c] == was[c];
  }

  lemma BeginKeepsClaims(was: map<Text, Root>, released: seq<Text>, now: map<Text, Root>, root: Text, run: Run)
    requires ClaimsOk(was, released) && Begins(was, now, root, run)
    ensures ClaimsOk(now, released)
  {
    forall c, p | Claims(now, c, p)
      ensures p in released && (c in released ==> Before(released, p, c))
    {
      BeginClaims(was, now, root, run, c, p);
    }
  }

  lemma BeginKeepsRoot(was: map<Text, Root>, imports: map<Text, Taken>, phases: map<Text, Phase>, now: map<Text, Root>, root: Text, run: Run, c: Text)
    requires Begins(was, now, root, run) && c in was && RootOk(was, imports, phases, c)
    ensures RootOk(now, imports, phases, c)
  {
    if c in imports { BeginClaims(was, now, root, run, c, imports[c].predecessor); }
    if was[c].run.intent.Some? { BeginClaims(was, now, root, run, c, was[c].run.intent.value.predecessor); }
  }

  lemma BeginKeeps(was: map<Text, Root>, released: seq<Text>, imports: map<Text, Taken>, phases: map<Text, Phase>, now: map<Text, Root>, root: Text, run: Run)
    requires Consistent(was, released, imports, phases) && Begins(was, now, root, run)
    ensures Consistent(now, released, imports, phases)
  {
    BeginKeepsClaims(was, released, now, root, run);
    forall c | c in now
      ensures RootOk(now, imports, phases, c)
    {
      if c != root { BeginKeepsRoot(was, imports, phases, now, root, run, c); }
    }
  }

  // ---------------------------------------------------------------- the store

  datatype Outcome =
    | ImportedCarry(lineage: seq<Ancestor>)
    | AlreadyClaimed(claimant: Text)
    | PredecessorRefused(reason: Refusal)
    | NoClaim
    | Ambiguous
    | Unavailable

  /** How far an execution of a claim has come. */
  datatype Phase = Inspected | Called(stale: bool) | Found(outcome: Outcome)

  /** Which look at the predecessor it is: before the claim, after a claim that was stale, after one that was applied. */
  datatype Glance = First | AfterStale | AfterApplied

  datatype Answer = Applied | Stale | NoAnswer

  /** What a look at the predecessor meets: whether it is served, and whether a competitor's claim is durable. */
  datatype Weather = Weather(served: bool, competitorDurable: bool)

  datatype Move =
    | Starts(root: Text, run: Run)
    | Proceeds(root: Text, next: Run)
    | Plans(root: Text, predecessor: Text)
    | Inspects(root: Text, w: Weather)
    | Calls(root: Text, reached: bool, answered: bool)
    | ReadsBack(root: Text, durable: bool, w: Weather)
    | Settles(root: Text, lands: bool)
    | Loses(root: Text)

  /** A recorded claim is never changed, and an import never undone. */
  ghost predicate Keeps(was: map<Text, Root>, wasImports: map<Text, Taken>, now: map<Text, Root>, imports: map<Text, Taken>) {
    && (forall p :: p in was ==> p in now && (was[p].claims != map[] ==> now[p].claims == was[p].claims))
    && (forall c :: c in wasImports ==> c in imports && imports[c] == wasImports[c])
  }

  lemma SingletonClaims(claims: map<Export, Record>, e: Export)
    requires |claims| <= 1 && e in claims
    ensures claims == map[e := claims[e]]
  {
    forall f | f in claims
      ensures f == e
    {
      assert |claims.Keys| == |claims|;
      AtMostOne(claims.Keys, e, f);
    }
  }

  /** classifyCarryClaims: nobody's, this run's own record, a well-formed one of another run, or nothing usable. */
  method Classify(claims: map<Export, Record>, predecessor: Text, exportId: Export, claimant: Text, lineage: seq<Ancestor>) returns (r: Outcome)
    ensures r.NoClaim? <==> claims == map[]
    ensures r.ImportedCarry? <==> claims == map[exportId := Record(exportId, predecessor, claimant)]
    ensures r.ImportedCarry? ==> r.lineage == lineage
    ensures r.AlreadyClaimed? <==>
              exists other :: other != claimant && claims == map[exportId := Record(exportId, predecessor, other)]
    ensures r.AlreadyClaimed? ==> r.claimant != claimant && claims == map[exportId := Record(exportId, predecessor, r.claimant)]
    ensures r.NoClaim? || r.ImportedCarry? || r.AlreadyClaimed? || r == PredecessorRefused(ProjectionInvalid)
  {
    if |claims| > 1 { return PredecessorRefused(ProjectionInvalid); }
    if claims == map[] { return NoClaim; }
    var e :| e in claims;
    SingletonClaims(claims, e);
    var record := claims[e];
    assert exportId in map[exportId := record];
    if e != exportId || record.exportId != exportId || record.predecessor != predecessor {
      return PredecessorRefused(ProjectionInvalid);
    }
    if record != Record(exportId, predecessor, claimant) { return AlreadyClaimed(record.claimant); }
    r := ImportedCarry(lineage);
  }

  /** The plan of a journaled claim as the table stands. */
  function PlanNow(roots: map<Text, Root>, current: Text): Plan
    requires current in roots && roots[current].run.intent.Some?
  {
    var predecessor := roots[current].run.intent.value.predecessor;
    if predecessor in roots then PlanCarry(predecessor, current, roots[current].run, roots[predecessor].run) else Refused(NotFound)
  }

  /** It would be planned, but no longer as it was journaled. */
  predicate Replanned(roots: map<Text, Root>, current: Text)
    requires current in roots && roots[current].run.intent.Some?
  {
    PlanNow(roots, current).Planned? && PlanNow(roots, current).exportId != roots[current].run.intent.value.exportId
  }

  /** What a look may answer: the truth, and, when it is served a claim that can still be planned, all of it. */
  ghost predicate Answers(roots: map<Text, Root>, current: Text, glance: Glance, w: Weather, r: Outcome)
    requires current in roots && roots[current].run.intent.Some?
  {
    && Reports(roots, current, r)
    && (!w.served ==> r == Unavailable)
    && (w.served && PlanNow(roots, current).Refused? ==>
          r == if glance.First? then PredecessorRefused(PlanNow(roots, current).reason) else Ambiguous)
    && (w.served && !glance.AfterApplied? && Replanned(roots, current) ==> r == Ambiguous)
    && (w.served && IntentOk(roots, current) ==>
          var p := roots[current].run.intent.value.predecessor;
          && (r.NoClaim? <==> roots[p].claims == map[])
          && (r.ImportedCarry? <==> IsClaimOf(roots[p], p, roots[current].run.runId))
          && forall other :: other != roots[current].run.runId && IsClaimOf(roots[p], p, other) ==>
               r == if glance.AfterApplied? || w.competitorDurable then AlreadyClaimed(other) else Ambiguous)
  }

  /** The one claim on a root is this run's, well formed. */
  predicate IsClaimOf(root: Root, p: Text, claimant: Text) {
    root.claims == map[Export(root.run) := Record(Export(root.run), p, claimant)]
  }

  /** An observed outcome taken by the reducer. */
  ghost predicate Observes(was: map<Text, Root>, wasImports: map<Text, Taken>, roots: map<Text, Root>, imports: map<Text, Taken>, current: Text, outcome: Outcome)
    requires current in was && was[current].run.intent.Some?
  {
    var predecessor := was[current].run.intent.value.predecessor;
    if outcome.ImportedCarry? then
      && current !in wasImports && imports == wasImports[current := Taken(predecessor, outcome.lineage)]
      && roots == WithoutIntent(was, current, Some(outcome.lineage)) && Claims(roots, current, predecessor)
    else
      imports == wasImports && roots == WithoutIntent(was, current, None)
  }

  lemma ImportObserved(was: map<Text, Root>, released: seq<Text>, imports: map<Text, Taken>, phases: map<Text, Phase>, current: Text, lineage: seq<Ancestor>)
    requires Consistent(was, released, imports, phases) && Running(was, phases, current) && phases[current] == Found(ImportedCarry(lineage))
    requires BeforeFirstWave(was[current].run)
    ensures var now, next := WithoutIntent(was, current, Some(lineage)), imports[current := Taken(was[current].run.intent.value.predecessor, lineage)];
            && Consistent(now, released, next, phases - {current})
            && Observes(was, imports, now, next, current, ImportedCarry(lineage)) && Keeps(was, imports, now, next)
  {
    PhasesRun(was, released, imports, phases, current);
    ImportKeeps(was, released, imports, phases, current, lineage);
    SameClaims(was, WithoutIntent(was, current, Some(lineage)), current);
  }

  /** An execution is under way for a claim journaled in a run of the store. */
  predicate Running(roots: map<Text, Root>, phases: map<Text, Phase>, c: Text) {
    c in phases && c in roots && roots[c].run.intent.Some? && roots[c].run.intent.value.predecessor in roots
  }

  lemma PhasesRun(roots: map<Text, Root>, released: seq<Text>, imports: map<Text, Taken>, phases: map<Text, Phase>, c: Text)
    requires Consistent(roots, released, imports, phases) && c in phases
    ensures Running(roots, phases, c) && RootOk(roots, imports, phases, c)
  {
    assert RootOk(roots, imports, phases, c);
  }

  /** An execution that has come to an observed outcome keeps it; any other ends. */
  function WithFound(phases: map<Text, Phase>, current: Text, found: Outcome): map<Text, Phase> {
    if Settled(found) then phases[current := Found(found)] else phases - {current}
  }

  class Store {
    var roots: map<Text, Root>
    /** Executions of journaled claims, by the claiming root; a lost process drops its own. */
    var phases: map<Text, Phase>
    /** Released roots, in the order of their release. */
    ghost var released: seq<Text>
    /** What each importing run took over. */
    ghost var imports: map<Text, Taken>

    constructor ()
      ensures Inv() && roots == map[]
    {
      roots, phases, released, imports := map[], map[], [], map[];
    }

    ghost predicate Inv()
      reads this
    {
      Consistent(roots, released, imports, phases)
    }

    /** A new run at a new root. */
    method Begin(root: Text, run: Run) returns (ok: bool)
      requires Inv()
      modifies this`roots
      ensures Inv() && Keeps(old(roots), imports, roots, imports)
      ensures ok <==> MayBegin(old(roots), root, run)
      ensures roots == if ok then old(roots)[root := Root(run, map[])] else old(roots)
    {
      if !MayBegin(roots, root, run) { return false; }
      BeginKeeps(roots, released, imports, phases, roots[root := Root(run, map[])], root, run);
      roots := roots[root := Root(run, map[])];
      ok := true;
    }

    /** One step of a run's reducer, as far as its carry goes. */
    method Proceed(current: Text, next: Run) returns (ok: bool)
      requires Inv() && current in roots
      modifies this`roots, this`released
      ensures Inv() && Keeps(old(roots), imports, roots, imports)
      ensures ok <==> LegalNext(old(roots)[current].run, next)
      ensures roots == if ok then old(roots)[current := Root(next, old(roots)[current].claims)] else old(roots)
    {
      if !LegalNext(roots[current].run, next) { return false; }
      ProceedKeeps(roots, released, imports, phases, current, next);
      if next.stage == Released { released := released + [current]; }
      roots := roots[current := Root(next, roots[current].claims)];
      ok := true;
    }

    /** prepareProvenanceCarryClaim and the claim intent: the plan is journaled before anything is claimed. */
    method Plan(current: Text, predecessor: Text) returns (ok: bool)
      requires Inv()
      modifies this`roots
      ensures Inv() && Keeps(old(roots), imports, roots, imports)
      ensures ok <==> MayPlan(old(roots), current, predecessor)
      ensures roots == if ok then WithIntent(old(roots), current, predecessor) else old(roots)
    {
      if !MayPlan(roots, current, predecessor) { return false; }
      PlanKeeps(roots, released, imports, phases, current, predecessor);
      roots := WithIntent(roots, current, predecessor);
      ok := true;
    }

    /** inspectCarryPredecessor and classifyCarryClaims for a journaled claim. */
    method Look(current: Text, glance: Glance, w: Weather) returns (r: Outcome)
      requires current in roots && roots[current].run.intent.Some?
      ensures Answers(roots, current, glance, w, r)
    {
      if !w.served { return Unavailable; }
      var run := roots[current].run;
      var predecessor := run.intent.value.predecessor;
      if predecessor !in roots { return if glance.First? then PredecessorRefused(NotFound) else Ambiguous; }
      var plan := PlanCarry(predecessor, current, run, roots[predecessor].run);
      if plan.Refused? { return if glance.First? then PredecessorRefused(plan.reason) else Ambiguous; }
      if !glance.AfterApplied? && plan.exportId != run.intent.value.exportId { return Ambiguous; }
      r := Classify(roots[predecessor].claims, predecessor, run.intent.value.exportId, run.runId, plan.lineage);
      if r.AlreadyClaimed? && !glance.AfterApplied? && !w.competitorDurable { r := Ambiguous; }
    }

    /** The first look of executeProvenanceCarryClaim, and of its reconciliation. */
    method Inspect(current: Text, w: Weather)
      requires Inv()
      modifies this`phases
      ensures Inv()
      ensures current !in roots || roots[current].run.intent.None? || current in old(phases) ==> phases == old(phases)
      ensures current in roots && roots[current].run.intent.Some? && current !in old(phases) ==>
                exists r :: Answers(roots, current, First, w, r)
                            && phases == if r.NoClaim? then old(phases)[current := Inspected] else WithFound(old(phases), current, r)
    {
      if current !in roots || roots[current].run.intent.None? || current in phases { return; }
      var found := Look(current, First, w);
      ghost var was := phases;
      phases := if found.NoClaim? then phases[current := Inspected] else WithFound(phases, current, found);
      PhaseKeeps(roots, released, imports, was, phases, current);
    }

    /**
     claimCarry: one UPDATE that writes the claim exactly while the predecessor is still the aggregate the
     plan was made from and holds no claim.
     */
    method ClaimCarry(current: Text, reached: bool, answered: bool) returns (answer: Answer)
      requires Inv() && current in roots && roots[current].run.intent.Some?
      modifies this`roots
      ensures Inv()
      ensures var intent := old(roots)[current].run.intent.value;
              var free := intent.predecessor in old(roots) && Export(old(roots)[intent.predecessor].run) == intent.exportId
                          && old(roots)[intent.predecessor].claims == map[];
              && (reached && free ==> AddsClaim(old(roots), roots, current, intent.predecessor))
              && (!(reached && free) ==> roots == old(roots))
              && answer == if !reached || !answered then NoAnswer else if free then Applied else Stale
    {
      if !reached { return NoAnswer; }
      var intent := roots[current].run.intent.value;
      var predecessor := intent.predecessor;
      var free := predecessor in roots && Export(roots[predecessor].run) == intent.exportId && roots[predecessor].claims == map[];
      if free {
        var record := Record(intent.exportId, predecessor, roots[current].run.runId);
        ghost var was := roots;
        assert RootOk(was, imports, phases, current);
        roots := roots[predecessor := Root(roots[predecessor].run, map[intent.exportId := record])];
        ClaimKeeps(was, released, imports, phases, roots, current, predecessor);
      }
      answer := if !answered then NoAnswer else if free then Applied else Stale;
    }

    /** The claim of an execution that has seen none. Others may have claimed since. */
    method Call(current: Text, reached: bool, answered: bool)
      requires Inv()
      modifies this`roots, this`phases
      ensures Inv() && Keeps(old(roots), imports, roots, imports)
      ensures !(Running(old(roots), old(phases), current) && old(phases)[current].Inspected?) ==> roots == old(roots) && phases == old(phases)
      ensures Running(old(roots), old(phases), current) && old(phases)[current].Inspected? ==>
                var p := old(roots)[current].run.intent.value.predecessor;
                var free := old(roots)[p].claims == map[];
                && (reached && free ==> AddsClaim(old(roots), roots, current, p))
                && (!(reached && free) ==> roots == old(roots))
                && phases == if reached && answered then old(phases)[current := Called(!free)] else old(phases) - {current}
    {
      if current !in phases || !phases[current].Inspected? { return; }
      PhasesRun(roots, released, imports, phases, current);
      var answer := ClaimCarry(current, reached, answered);
      ghost var was := phases;
      phases := if answer.NoAnswer? then phases - {current} else phases[current := Called(answer.Stale?)];
      PhaseKeeps(roots, released, imports, was, phases, current);
    }

    /** The look after the call: only what is read back is believed, whoever's claim it is. */
    method ReadBack(current: Text, durable: bool, w: Weather)
      requires Inv()
      modifies this`phases
      ensures Inv()
      ensures !(Running(roots, old(phases), current) && old(phases)[current].Called?) ==> phases == old(phases)
      ensures Running(roots, old(phases), current) && old(phases)[current].Called? ==>
                var glance := if old(phases)[current].stale then AfterStale else AfterApplied;
                if glance.AfterApplied? && !durable then phases == old(phases) - {current}
                else exists r :: Answers(roots, current, glance, w, r) && phases == WithFound(old(phases), current, r)
    {
      if current !in phases || !phases[current].Called? { return; }
      PhasesRun(roots, released, imports, phases, current);
      var stale := phases[current].stale;
      var found := Unavailable;
      if stale || durable {
        found := Look(current, if stale then AfterStale else AfterApplied, w);
      }
      ghost var was := phases;
      phases := WithFound(phases, current, found);
      PhaseKeeps(roots, released, imports, was, phases, current);
    }

    /**
     The reducer takes the observation: an imported carry becomes pending before the first wave, once; any
     other outcome ends the claim. Afterwards the carry lifecycle refuses it.
     */
    method Settle(current: Text, lands: bool) returns (ok: bool)
      requires Inv()
      modifies this
      ensures Inv() && Keeps(old(roots), old(imports), roots, imports)
      ensures ok <==> lands && Running(old(roots), old(phases), current) && old(phases)[current].Found? && BeforeFirstWave(old(roots)[current].run)
      ensures !ok ==> roots == old(roots) && imports == old(imports) && phases == old(phases)
      ensures ok ==> phases == old(phases) - {current} && Observes(old(roots), old(imports), roots, imports, current, old(phases)[current].outcome)
    {
      if !lands || current !in phases || !phases[current].Found? { return false; }
      PhasesRun(roots, released, imports, phases, current);
      if !BeforeFirstWave(roots[current].run) { return false; }
      var outcome := phases[current].outcome;
      if outcome.ImportedCarry? {
        TakeImport(current, outcome.lineage);
      } else {
        TakeRefusal(current);
      }
      ok := true;
    }

    method TakeRefusal(current: Text)
      requires Inv() && Running(roots, phases, current) && BeforeFirstWave(roots[current].run)
      modifies this`roots, this`phases
      ensures Inv() && Keeps(old(roots), imports, roots, imports)
      ensures phases == old(phases) - {current} && roots == WithoutIntent(old(roots), current, None)
    {
      RefusalKeeps(roots, released, imports, phases, current);
      roots, phases := WithoutIntent(roots, current, None), phases - {current};
    }

    method TakeImport(current: Text, lineage: seq<Ancestor>)
      requires Inv() && Running(roots, phases, current) && phases[current] == Found(ImportedCarry(lineage)) && BeforeFirstWave(roots[current].run)
      modifies this
      ensures Inv() && Keeps(old(roots), old(imports), roots, imports)
      ensures phases == old(phases) - {current} && Observes(old(roots), old(imports), roots, imports, current, ImportedCarry(lineage))
    {
      ImportObserved(roots, released, imports, phases, current, lineage);
      imports := imports[current := Taken(roots[current].run.intent.value.predecessor, lineage)];
      roots, phases := WithoutIntent(roots, current, Some(lineage)), phases - {current};
    }

    /** The process of an execution is lost; its intent stays journaled. */
    method Lose(current: Text)
      requires Inv()
      modifies this`phases
      ensures Inv() && phases == old(phases) - {current}
    {
      if current !in phases {
        assert phases == phases - {current};
        return;
      }
      PhaseKeeps(roots, released, imports, phases, phases - {current}, current);
      phases := phases - {current};
    }

    /** One move of a history. */
    method Act(move: Move)
      requires Inv()
      modifies this
      ensures Inv() && Keeps(old(roots), old(imports), roots, imports)
    {
      var ok: bool;
      match move
      case Starts(root, run) => ok := Begin(root, run);
      case Proceeds(root, next) => if root in roots { ok := Proceed(root, next); }
      case Plans(root, predecessor) => ok := Plan(root, predecessor);
      case Inspects(root, w) => Inspect(root, w);
      case Calls(root, reached, answered) => Call(root, reached, answered);
      case ReadsBack(root, durable, w) => ReadBack(root, durable, w);
      case Settles(root, lands) => ok := Settle(root, lands);
      case Loses(root) => Lose(root);
    }

    /** Two calls after two looks that saw no claim: the first takes it, the second is stale. */
    method CallTwice(first: Text, second: Text)
      requires Inv() && Contend(first, second)
      modifies this`roots, this`phases
      ensures Inv()
      ensures first in phases && phases[first] == Called(false) && second in phases && phases[second] == Called(true)
      ensures SameRun(old(roots), roots, first) && SameRun(old(roots), roots, second)
      ensures var p := old(roots)[first].run.intent.value.predecessor; p in roots && IsClaimOf(roots[p], p, old(roots)[first].run.runId)
    {
      PhasesRun(roots, released, imports, phases, first);
      PhasesRun(roots, released, imports, phases, second);
      Call(first, true, true);
      Call(second, true, true);
    }

    predicate SameRun(was: map<Text, Root>, now: map<Text, Root>, c: Text) {
      c in was && c in now && now[c].run == was[c].run
    }

    /** Two executions that have both seen no claim on the same predecessor. */
    predicate Contend(first: Text, second: Text)
      reads this
    {
      && first != second
      && Running(roots, phases, first) && phases[first].Inspected? && Running(roots, phases, second) && phases[second].Inspected?
      && roots[second].run.intent == roots[first].run.intent
      && roots[roots[first].run.intent.value.predecessor].claims == map[]
    }

    /**
     Two runs that have both seen no claim on the same predecessor: the first call takes it, the second is
     stale, and each reads back whose claim it is.
     */
    method Race(first: Text, second: Text)
      requires Inv() && Contend(first, second)
      modifies this`roots, this`phases
      ensures Inv()
      ensures first in phases && phases[first].Found? && phases[first].outcome.ImportedCarry?
      ensures second in phases && phases[second] == Found(AlreadyClaimed(old(roots)[first].run.runId))
    {
      CallTwice(first, second);
      PhasesRun(roots, released, imports, phases, first);
      PhasesRun(roots, released, imports, phases, second);
      assert roots[first].run.runId != roots[second].run.runId;
      ReadBack(second, true, Weather(true, true));
      ReadBack(first, true, Weather(true, true));
    }

    /**
     Any interleaving of runs beginning, working, releasing and claiming, each look, call and observation a
     move of its own that may be lost: a predecessor is claimed by at most one run and for good, every
     lineage is duplicate-free with at most 128 entries, every import is of a settled and deferred run of the
     same scope, and no run reaches itself by claims.
     */
    method History(moves: seq<Move>)
      requires Inv()
      modifies this
      ensures Inv() && Keeps(old(roots), old(imports), roots, imports)
      ensures forall c, d, p :: Claims(roots, c, p) && Claims(roots, d, p) ==> c == d
      ensures forall c :: c in roots && roots[c].run.pending.Some? ==> Bounded(roots[c].run.pending.value)
      ensures forall c :: c in roots && roots[c].run.lineage.Some? ==> Bounded(roots[c].run.lineage.value)
      ensures forall c :: c in imports ==>
                c in roots && Imported(roots, c, imports[c]) && LeftBehind(roots[imports[c].predecessor].run, roots[c].run)
      ensures forall path :: IsPath(roots, path) && |path| >= 2 ==> path[0] != path[|path| - 1]
    {
      for k := 0 to |moves|
        invariant Inv() && Keeps(old(roots), old(imports), roots, imports)
      {
        Act(moves[k]);
      }
      forall c, d, p | Claims(roots, c, p) && Claims(roots, d, p)
        ensures c == d
      {
        ClaimedOnce(roots, released, c, d, p);
      }
      forall c | c in roots
        ensures LineageOk(roots, imports, c)
      {
        assert RootOk(roots, imports, phases, c);
      }
      forall path | IsPath(roots, path) && |path| >= 2
        ensures path[0] != path[|path| - 1]
      {
        NoCycle(roots, released, path);
      }
    }
  }

  // ---------------------------------------------------------------- a race, from an empty store

  function NewRun(runId: Text): Run {
    Run(runId, [], Preparing, 0, false, false, true, true, None, None, None, [], [])
  }

  /** A run that deferred its provenance at its first gate and was then released. */
  function DeferredRun(runId: Text): Run {
    NewRun(runId).(stage := Released, deferred := true, lineage := Some([]))
  }

  lemma DeferredRunSteps(p: Text)
    ensures LegalNext(NewRun(p), DeferredRun(p).(stage := Working)) && LegalNext(DeferredRun(p).(stage := Working), DeferredRun(p))
  {
  }

  method DeferAndRelease(p: Text) returns (store: Store)
    ensures fresh(store) && store.Inv() && store.phases == map[] && store.roots == map[p := Root(DeferredRun(p), map[])]
  {
    store := new Store();
    DeferredRunSteps(p);
    var begun := store.Begin(p, NewRun(p));
    assert store.roots == map[p := Root(NewRun(p), map[])];
    var planned := store.Proceed(p, DeferredRun(p).(stage := Working));
    assert store.roots == map[p := Root(DeferredRun(p).(stage := Working), map[])];
    var released := store.Proceed(p, DeferredRun(p));
  }

  function ClaimingRun(c: Text, p: Text): Run {
    NewRun(c).(intent := Some(Intent(p, Export(DeferredRun(p)))))
  }

  /** A new run journals the claim of the released one. */
  method Claimant(store: Store, c: Text, p: Text)
    requires store.Inv() && MayBegin(store.roots, c, NewRun(c)) && c != p
    requires p in store.roots && store.roots[p] == Root(DeferredRun(p), map[])
    modifies store
    ensures store.Inv()
    ensures store.roots == old(store.roots)[c := Root(ClaimingRun(c, p), map[])] && store.phases == old(store.phases)
  {
    var begun := store.Begin(c, NewRun(c));
    assert PlanCarry(p, c, NewRun(c), DeferredRun(p)).Planned?;
    var planned := store.Plan(c, p);
  }

  /** Its execution looks and sees no claim. */
  method Contender(store: Store, c: Text, p: Text)
    requires store.Inv() && MayBegin(store.roots, c, NewRun(c)) && c != p && c !in store.phases
    requires p in store.roots && store.roots[p] == Root(DeferredRun(p), map[])
    modifies store
    ensures store.Inv()
    ensures store.roots == old(store.roots)[c := Root(ClaimingRun(c, p), map[])] && store.phases == old(store.phases)[c := Inspected]
  {
    Claimant(store, c, p);
    assert RootOk(store.roots, store.imports, store.phases, c);
    store.Inspect(c, Weather(true, true));
  }

  /** Such a race happens: the run that calls second is told who holds the claim. */
  method SecondCallerIsTold(p: Text, first: Text, second: Text) returns (store: Store)
    requires p != first && p != second && first != second
    ensures fresh(store) && store.Inv()
    ensures first in store.phases && store.phases[first].Found? && store.phases[first].outcome.ImportedCarry?
    ensures second in store.phases && store.phases[second] == Found(AlreadyClaimed(first))
  {
    store := DeferAndRelease(p);
    Contender(store, first, p);
    Contender(store, second, p);
    store.Race(first, second);
  }
}

/**
 Keyed provenance commits (src/adapters/git/provenance.ts, with `findCommitByTrailer` and
 `integrateLocalFastForward` of src/adapters/git/index.ts) over an abstract Git history.

 Commits are numbered in creation order. Between any two steps of an execution the process may be lost
 and other actors may fast-forward the integration branch, by anything that carries no commit with the
 key. The merge lands or does not; a subprocess does not outlive its process.
 */
module Provenance {
  import opened Wrappers
  import opened Text

  const DISCOVERY_DEPTH := 64

  type Oid = nat

  /** `records` stands for the provenance records in the commit's tree. */
  datatype Commit = Commit(parents: seq<Oid>, key: Option<Text>, records: Text)

  datatype Effect = Effect(key: Text, base: Oid, records: Text)

  // ---------------------------------------------------------------- history

  predicate Acyclic(cs: seq<Commit>) {
    forall i :: 0 <= i < |cs| ==> forall p :: p in cs[i].parents ==> p < i
  }

  /** A commit and its ancestors. */
  function Reach(cs: seq<Commit>, c: Oid): (out: set<Oid>)
    requires Acyclic(cs) && c < |cs|
    ensures c in out && forall x :: x in out ==> x <= c
    decreases c
  {
    {c} + set p, x | p in cs[c].parents && x in Reach(cs, p) :: x
  }

  lemma {:induction false} ReachIsClosed(cs: seq<Commit>, c: Oid, x: Oid, p: Oid)
    requires Acyclic(cs) && c < |cs| && x in Reach(cs, c) && p in cs[x].parents
    ensures p in Reach(cs, c)
    decreases c
  {
    if x != c {
      var q :| q in cs[c].parents && x in Reach(cs, q);
      ReachIsClosed(cs, q, x, p);
      assert p in Reach(cs, q);
    } else {
      assert p in Reach(cs, p);
    }
  }

  lemma {:induction false} ReachStays(cs: seq<Commit>, more: seq<Commit>, c: Oid)
    requires Acyclic(cs) && Acyclic(cs + more) && c < |cs|
    ensures Reach(cs + more, c) == Reach(cs, c)
    decreases c
  {
    forall p | p in cs[c].parents
      ensures Reach(cs + more, p) == Reach(cs, p)
    {
      ReachStays(cs, more, p);
    }
  }

  predicate Keyed(c: Commit, key: Text) {
    c.key == Some(key)
  }

  predicate InHistory(cs: seq<Commit>, head: Oid, key: Text)
    requires Acyclic(cs) && head < |cs|
  {
    exists c :: c in Reach(cs, head) && Keyed(cs[c], key)
  }

  // ---------------------------------------------------------------- the bounded walk

  predicate Known(cs: seq<Commit>, oids: seq<Oid>) {
    forall i :: 0 <= i < |oids| ==> oids[i] < |cs|
  }

  /** rev-list --topo-order: all of the history, each commit once, none before a child of it. */
  ghost predicate IsTopoOrder(cs: seq<Commit>, head: Oid, order: seq<Oid>)
    requires Acyclic(cs) && head < |cs|
  {
    && Known(cs, order)
    && (forall x :: x in order <==> x in Reach(cs, head))
    && (forall i, j :: 0 <= i < j < |order| ==> order[i] != order[j])
    && (forall i, j :: 0 <= i < j < |order| ==> order[i] !in cs[order[j]].parents)
  }

  function Window(order: seq<Oid>): seq<Oid> {
    if |order| <= DISCOVERY_DEPTH then order else order[..DISCOVERY_DEPTH]
  }

  datatype Discovery = Found(oid: Oid) | Absent | Unreadable

  /** The first commit of the window with the trailer. */
  function FirstKeyed(cs: seq<Commit>, window: seq<Oid>, key: Text): (c: Option<Oid>)
    requires Known(cs, window)
    ensures c.Some? ==> c.value in window && c.value < |cs| && Keyed(cs[c.value], key)
    ensures c.None? ==> forall i :: 0 <= i < |window| ==> !Keyed(cs[window[i]], key)
  {
    if window == [] then None
    else if Keyed(cs[window[0]], key) then Some(window[0])
    else FirstKeyed(cs, window[1..], key)
  }

  /** findCommitByTrailer: absence is claimed only by a window that met the base or is the whole history. */
  function FindCommitByTrailer(cs: seq<Commit>, order: seq<Oid>, base: Oid, key: Text): Discovery
    requires Known(cs, order)
  {
    var window := Window(order);
    var found := FirstKeyed(cs, window, key);
    if found.Some? then Found(found.value)
    else if base in window || |window| < DISCOVERY_DEPTH then Absent
    else Unreadable
  }

  /**
   When every keyed commit is built on the base, the bounded walk never mistakes: it claims absence only
   of a key that is not in the history, and finds only a commit that is.
   */
  lemma DiscoveryIsSound(cs: seq<Commit>, head: Oid, order: seq<Oid>, base: Oid, key: Text)
    requires Acyclic(cs) && head < |cs| && IsTopoOrder(cs, head, order)
    requires forall i :: 0 <= i < |cs| && Keyed(cs[i], key) ==> cs[i].parents == [base]
    ensures FindCommitByTrailer(cs, order, base, key) == Absent ==> !InHistory(cs, head, key)
    ensures FindCommitByTrailer(cs, order, base, key).Found? ==>
              var c := FindCommitByTrailer(cs, order, base, key).oid; c in Reach(cs, head) && Keyed(cs[c], key)
  {
    var window := Window(order);
    if FindCommitByTrailer(cs, order, base, key) == Absent {
      forall c | c in Reach(cs, head)
        ensures !Keyed(cs[c], key)
      {
        if Keyed(cs[c], key) {
          KeyedIsInWindow(cs, head, order, base, c);
        }
      }
    }
  }

  lemma KeyedIsInWindow(cs: seq<Commit>, head: Oid, order: seq<Oid>, base: Oid, c: Oid)
    requires Acyclic(cs) && head < |cs| && IsTopoOrder(cs, head, order)
    requires c in Reach(cs, head) && cs[c].parents == [base]
    requires base in Window(order) || |Window(order)| < DISCOVERY_DEPTH
    ensures c in Window(order)
  {
    var window := Window(order);
    assert c in order;
    var i :| 0 <= i < |order| && order[i] == c;
    if base in window {
      var j :| 0 <= j < |window| && window[j] == base;
      assert order[j] == base;
      assert base in cs[c].parents;
      assert order[j] in cs[order[i]].parents;
      assert i <= j;
    }
    assert window[i] == c;
  }

  /** The first commits of the listing hold neither the base nor the key, and there may be more. */
  predicate Exhausted(cs: seq<Commit>, order: seq<Oid>, base: Oid, key: Text)
    requires Known(cs, order)
  {
    |order| >= DISCOVERY_DEPTH && forall i :: 0 <= i < DISCOVERY_DEPTH ==> order[i] != base && !Keyed(cs[order[i]], key)
  }

  /** The window can fill up before it reaches the base: then nothing is claimed. */
  lemma ExhaustedWindowClaimsNothing(cs: seq<Commit>, order: seq<Oid>, base: Oid, key: Text)
    requires Known(cs, order)
    ensures FindCommitByTrailer(cs, order, base, key) == Unreadable <==> Exhausted(cs, order, base, key)
  {
    if |order| >= DISCOVERY_DEPTH {
      assert Window(order) == order[..DISCOVERY_DEPTH];
    }
  }

  function Descending(s: set<Oid>, n: nat): (out: seq<Oid>)
    ensures forall x :: x in out <==> x in s && x < n
    ensures forall i :: 0 <= i < |out| ==> out[i] < n
    ensures forall i, j :: 0 <= i < j < |out| ==> out[j] < out[i]
  {
    if n == 0 then [] else (if n - 1 in s then [n - 1] else []) + Descending(s, n - 1)
  }

  /** A topological order always exists: newest first is one. */
  lemma NewestFirstIsTopological(cs: seq<Commit>, head: Oid)
    requires Acyclic(cs) && head < |cs|
    ensures IsTopoOrder(cs, head, Descending(Reach(cs, head), |cs|))
  {
  }

  // ---------------------------------------------------------------- fast-forwards by others

  /** Commits another actor brings, and where it moves the integration branch, if one pushes at all. */
  datatype Push = Nobody | Push(commits: seq<Commit>, head: Oid)

  /** The commits with the key that the history holds. */
  function KeyedSet(cs: seq<Commit>, head: Oid, key: Text): set<Oid>
    requires Acyclic(cs) && head < |cs|
  {
    set c | c in Reach(cs, head) && Keyed(cs[c], key)
  }

  /** A fast-forward that carries nothing with the key. */
  predicate Advances(cs: seq<Commit>, head: Oid, push: Push, key: Text)
    requires Acyclic(cs) && head < |cs|
  {
    && push.Push? && Acyclic(cs + push.commits) && push.head < |cs + push.commits|
    && head in Reach(cs + push.commits, push.head)
    && (forall c :: c in push.commits ==> !Keyed(c, key))
    && forall x :: x in Reach(cs + push.commits, push.head) ==> x in Reach(cs, head) || !Keyed((cs + push.commits)[x], key)
  }

  /** The history and the branch once another actor has tried a push. */
  function AfterPush(cs: seq<Commit>, head: Oid, push: Push, key: Text): (r: (seq<Commit>, Oid))
    requires Acyclic(cs) && head < |cs|
    ensures Acyclic(r.0) && r.1 < |r.0| && cs <= r.0
  {
    if Advances(cs, head, push, key) then (cs + push.commits, push.head) else (cs, head)
  }

  lemma {:induction false} ReachTransitive(cs: seq<Commit>, a: Oid, b: Oid)
    requires Acyclic(cs) && b < |cs| && a in Reach(cs, b)
    ensures Reach(cs, a) <= Reach(cs, b)
    decreases b
  {
    if a != b {
      var p :| p in cs[b].parents && a in Reach(cs, p);
      ReachTransitive(cs, a, p);
      forall x | x in Reach(cs, a)
        ensures x in Reach(cs, b)
      {
        assert x in Reach(cs, p);
      }
    }
  }

  lemma AdvanceKeepsKeyed(cs: seq<Commit>, head: Oid, push: Push, key: Text)
    requires Acyclic(cs) && head < |cs| && Advances(cs, head, push, key)
    ensures KeyedSet(cs + push.commits, push.head, key) == KeyedSet(cs, head, key)
    ensures Reach(cs, head) <= Reach(cs + push.commits, push.head)
  {
    var new_ := cs + push.commits;
    ReachStays(cs, push.commits, head);
    ReachTransitive(new_, head, push.head);
    forall c
      ensures c in KeyedSet(new_, push.head, key) <==> c in KeyedSet(cs, head, key)
    {
      if c in KeyedSet(new_, push.head, key) {
        assert c in Reach(cs, head) && new_[c] == cs[c];
      }
      if c in KeyedSet(cs, head, key) {
        assert new_[c] == cs[c];
      }
    }
  }

  // ---------------------------------------------------------------- one attempt

  datatype Worktree = Worktree(head: Oid, clean: bool, records: Text)

  datatype Result =
    | Committed(oid: Oid)
    | WorktreeRefused
    | ReproducibilityFailed
    | BaseAdvanced(to: Oid)
    | IntegrationRefused

  datatype Outcome = Observed(result: Result) | AbsentOutcome | Ambiguous | Unavailable | Lost

  /** Keyed commits are built on the base alone, and at most one is in the history. */
  ghost predicate AttemptOk(cs: seq<Commit>, head: Oid, e: Effect) {
    && Acyclic(cs) && head < |cs|
    && e.base in Reach(cs, head)
    && (forall i :: 0 <= i < |cs| && Keyed(cs[i], e.key) ==> cs[i].parents == [e.base])
    && forall c, d :: c in KeyedSet(cs, head, e.key) && d in KeyedSet(cs, head, e.key) ==> c == d
  }

  lemma KeyedIsOlder(cs: seq<Commit>, more: seq<Commit>, key: Text, i: nat)
    requires (forall c :: c in more ==> !Keyed(c, key)) && i < |cs + more|
    ensures Keyed((cs + more)[i], key) ==> i < |cs|
  {
    if i >= |cs| { assert (cs + more)[i] in more; }
  }

  lemma KeyedIsAboveTheBase(cs: seq<Commit>, e: Effect, x: Oid)
    requires Acyclic(cs) && x < |cs| && (Keyed(cs[x], e.key) ==> cs[x].parents == [e.base])
    ensures Keyed(cs[x], e.key) ==> e.base < x
  {
    if Keyed(cs[x], e.key) { assert e.base in cs[x].parents; }
  }

  lemma AdvanceKeepsAttemptOk(cs: seq<Commit>, head: Oid, push: Push, e: Effect)
    requires AttemptOk(cs, head, e) && Advances(cs, head, push, e.key)
    ensures AttemptOk(cs + push.commits, push.head, e)
  {
    AdvanceKeepsKeyed(cs, head, push, e.key);
    var new_ := cs + push.commits;
    forall i | 0 <= i < |new_| && Keyed(new_[i], e.key)
      ensures new_[i].parents == [e.base]
    {
      KeyedIsOlder(cs, push.commits, e.key, i);
    }
  }

  lemma BuildKeepsAcyclic(cs: seq<Commit>, c: Commit)
    requires Acyclic(cs) && forall p :: p in c.parents ==> p < |cs|
    ensures Acyclic(cs + [c])
  {
    var new_ := cs + [c];
    forall i | 0 <= i < |new_|
      ensures forall p :: p in new_[i].parents ==> p < i
    {
      assert i < |cs| ==> new_[i] == cs[i];
    }
  }

  /** A commit nobody points at changes nothing. */
  lemma BuildKeepsAttemptOk(cs: seq<Commit>, head: Oid, e: Effect, c: Commit)
    requires AttemptOk(cs, head, e) && c.parents == [e.base]
    ensures AttemptOk(cs + [c], head, e) && KeyedSet(cs + [c], head, e.key) == KeyedSet(cs, head, e.key)
  {
    BuildKeepsAcyclic(cs, c);
    ReachStays(cs, [c], head);
    KeyedStays(cs, c, head, e.key);
  }

  lemma KeyedStays(cs: seq<Commit>, c: Commit, head: Oid, key: Text)
    requires Acyclic(cs) && Acyclic(cs + [c]) && head < |cs| && Reach(cs + [c], head) == Reach(cs, head)
    ensures KeyedSet(cs + [c], head, key) == KeyedSet(cs, head, key)
  {
    forall x | x in Reach(cs, head)
      ensures (cs + [c])[x] == cs[x]
    {
    }
  }

  /** Moving the branch from the base to a commit built on it lands exactly that one. */
  lemma LandingKeepsAttemptOk(cs: seq<Commit>, e: Effect, built: Oid)
    requires AttemptOk(cs, e.base, e) && built < |cs| && cs[built].parents == [e.base] && Keyed(cs[built], e.key)
    ensures AttemptOk(cs, built, e) && KeyedSet(cs, built, e.key) == {built}
  {
    assert e.base in cs[built].parents;
    assert e.base in Reach(cs, e.base);
    assert e.base in Reach(cs, built);
    forall x | x in Reach(cs, built) && x != built
      ensures !Keyed(cs[x], e.key)
    {
      assert x in Reach(cs, e.base);
      KeyedIsAboveTheBase(cs, e, x);
    }
  }

  lemma {:induction false} HasChild(cs: seq<Commit>, head: Oid, x: Oid) returns (c: Oid)
    requires Acyclic(cs) && head < |cs| && x in Reach(cs, head) && x != head
    ensures c in Reach(cs, head) && c < |cs| && x in cs[c].parents
    decreases head
  {
    var p :| p in cs[head].parents && x in Reach(cs, p);
    if x == p {
      c := head;
    } else {
      c := HasChild(cs, p, x);
      assert c in Reach(cs, p);
    }
  }

  /** A listing begins with the branch itself: everything else has a child before it. */
  lemma HeadIsListedFirst(cs: seq<Commit>, head: Oid, order: seq<Oid>)
    requires Acyclic(cs) && head < |cs| && IsTopoOrder(cs, head, order)
    ensures order != [] && order[0] == head
  {
    assert head in order;
    if order[0] != head {
      assert order[0] in order;
      var c := HasChild(cs, head, order[0]);
    }
  }

  /** While the branch is at the base, the bounded walk answers that the key is absent. */
  lemma BaseIsFound(cs: seq<Commit>, e: Effect, order: seq<Oid>)
    requires AttemptOk(cs, e.base, e) && IsTopoOrder(cs, e.base, order)
    ensures FindCommitByTrailer(cs, order, e.base, e.key) == Absent
  {
    HeadIsListedFirst(cs, e.base, order);
    assert Window(order)[0] == e.base;
    NothingLandedAtBase(cs, e);
    DiscoveryIsSound(cs, e.base, order, e.base, e.key);
  }

  /** While the branch is at the base, no keyed commit is in the history. */
  lemma NothingLandedAtBase(cs: seq<Commit>, e: Effect)
    requires AttemptOk(cs, e.base, e)
    ensures KeyedSet(cs, e.base, e.key) == {}
  {
    forall x | x in Reach(cs, e.base)
      ensures !Keyed(cs[x], e.key)
    {
      KeyedIsAboveTheBase(cs, e, x);
    }
  }

  lemma BuiltIsAboveTheBase(cs: seq<Commit>, e: Effect, built: Oid)
    requires Acyclic(cs) && built < |cs| && cs[built].parents == [e.base]
    ensures e.base < built
  {
    assert e.base in cs[built].parents;
  }

  /** The branch is an ancestor of a commit built on the base only when it is the base. */
  lemma FastForwardMeansBase(cs: seq<Commit>, head: Oid, e: Effect, built: Oid)
    requires AttemptOk(cs, head, e) && built < |cs| && cs[built].parents == [e.base] && head in Reach(cs, built) && head != built
    ensures head == e.base
  {
    assert head in Reach(cs, e.base);
  }

  /** The integration profile of a run. */
  datatype Profile = LocalFastForward | RemoteFastForward

  datatype Readback = Answered | BranchMissing | NoAnswer

  /** What a remote landing meets: the remote, the readback before, the push and how it ends, the readbacks after. */
  datatype Weather = Weather(configured: bool, before: Readback, pushLands: bool, pushTerminal: bool, pushExitsZero: bool, after: Readback, headReadable: bool)

  /** What building meets: the worktree listing, a foreign worktree, losses, the generator, the writing of the tree. */
  datatype Building = Building(readable: bool, foreign: bool, lostEarly: bool, kept: bool, tampered: Text, written: bool, lostLate: bool, generated: bool)

  /** What the reproducibility check meets, and the worktree its command leaves. */
  datatype Checking = Checking(lost: bool, succeeded: bool, left: (seq<Commit>, Oid) -> Worktree)

  /** What a local merge meets: the reading of a moved base, the tree's state, losses, the merge itself, the readback. */
  datatype Merging = Merging(advancedRead: bool, clean: bool, lostBefore: bool, willing: bool, lostAfter: bool, readable: bool, terminal: bool)

  /** What one attempt meets, with a push another actor may make before each of its steps. */
  datatype Attempt = Attempt(bound: bool, served: bool, rooted: bool, building: Building, checking: Checking, merging: Merging, weather: Weather,
                             pushes: nat -> Push)

  /** The push finds the branch at the base and lands, and another actor builds on it before a readback that answers. */
  predicate Overtaken(cs: seq<Commit>, head: Oid, e: Effect, built: Oid, first: Push, second: Push, w: Weather)
    requires Acyclic(cs) && head < |cs| && built < |cs|
  {
    var (meanwhile, met) := AfterPush(cs, head, first, e.key);
    && w.configured && w.before.Answered? && head == e.base
    && w.pushLands && met == e.base
    && w.after.Answered? && AfterPush(meanwhile, built, second, e.key).1 !in {built, e.base} && w.headReadable
  }

  /** A local merge moves the branch: it is at the base before and after whatever the first push does. */
  predicate Merges(cs: seq<Commit>, head: Oid, e: Effect, first: Push, m: Merging)
    requires Acyclic(cs) && head < |cs|
  {
    head == e.base && m.clean && !m.lostBefore && m.willing && AfterPush(cs, head, first, e.key).1 == e.base
  }

  /** A remote push moves the branch. */
  predicate PushLands(cs: seq<Commit>, head: Oid, e: Effect, first: Push, w: Weather)
    requires Acyclic(cs) && head < |cs|
  {
    w.configured && w.before.Answered? && head == e.base && w.pushLands && AfterPush(cs, head, first, e.key).1 == e.base
  }

  /** An attempt's commit was pushed and overtaken, and that is how the history has come to be as it is. */
  ghost predicate PushedAndOvertaken(was: seq<Commit>, cs: seq<Commit>, head: Oid, e: Effect, first: Push, second: Push, w: Weather) {
    exists before: seq<Commit>, built: Oid ::
      && was <= before && AttemptOk(before, e.base, e) && BuiltOn(before, e, built)
      && Overtaken(before, e.base, e, built, first, second, w)
      && (cs, head) == AfterPush(AfterPush(before, e.base, first, e.key).0, built, second, e.key)
  }

  lemma OvertakenSince(earlier: seq<Commit>, was: seq<Commit>, cs: seq<Commit>, head: Oid, e: Effect, first: Push, second: Push, w: Weather)
    requires earlier <= was
    ensures PushedAndOvertaken(was, cs, head, e, first, second, w) ==> PushedAndOvertaken(earlier, cs, head, e, first, second, w)
  {
  }

  /** A commit of this attempt: on the base, with the key. */
  predicate BuiltOn(cs: seq<Commit>, e: Effect, built: Oid) {
    built < |cs| && cs[built].parents == [e.base] && Keyed(cs[built], e.key)
  }

  /** git status: a clean worktree holds what its commit holds. */
  predicate WorktreeOk(cs: seq<Commit>, t: Worktree) {
    t.head < |cs| && (t.clean ==> t.records == cs[t.head].records)
  }

  /** A worktree an earlier attempt of this effect has left with its commit. */
  predicate Resumable(cs: seq<Commit>, t: Worktree, e: Effect) {
    t.clean && t.head != e.base && t.head < |cs| && BuiltOn(cs, e, t.head) && t.records == e.records
  }

  /** The landing meets nothing that stops it. */
  predicate WayIsClear(profile: Profile, m: Merging, w: Weather) {
    if profile.LocalFastForward? then m.clean && !m.lostBefore && m.willing && !m.lostAfter && m.readable
    else w.configured && w.before.Answered? && w.pushLands && w.after.Answered?
  }

  /** Nothing stands between a free base and a landed commit. */
  ghost predicate Undisturbed(profile: Profile, a: Attempt) {
    a.bound && a.served && a.rooted && Prepares(a) && WayIsClear(profile, a.merging, a.weather)
  }

  /** Nobody pushes, nothing is lost or unreadable, the generator keeps the records and the check leaves the commit as it is. */
  ghost predicate Prepares(a: Attempt) {
    && (forall k :: a.pushes(k).Nobody?)
    && a.building.readable && !a.building.foreign && !a.building.lostEarly && a.building.kept
    && a.building.written && !a.building.lostLate && a.building.generated
    && !a.checking.lost && a.checking.succeeded
    && (forall cs: seq<Commit>, built: Oid :: built < |cs| ==> a.checking.left(cs, built) == Worktree(built, true, cs[built].records))
  }

  /** No worktree yet, a clean one at the base, or one to resume. */
  predicate Startable(cs: seq<Commit>, worktree: Option<Worktree>, e: Effect) {
    worktree.Some? ==> Resumable(cs, worktree.value, e) || (worktree.value.clean && worktree.value.head == e.base)
  }

  class Repository {
    const listing: (seq<Commit>, Oid) -> seq<Oid>
    var commits: seq<Commit>
    var head: Oid
    var worktree: Option<Worktree>

    constructor (listing: (seq<Commit>, Oid) -> seq<Oid>, commits: seq<Commit>, head: Oid, worktree: Option<Worktree>)
      ensures this.listing == listing && this.commits == commits && this.head == head && this.worktree == worktree
    {
      this.listing, this.commits, this.head, this.worktree := listing, commits, head, worktree;
    }

    ghost predicate Inv(e: Effect)
      reads this
    {
      && AttemptOk(commits, head, e)
      && (worktree.Some? ==> WorktreeOk(commits, worktree.value))
      && forall cs: seq<Commit>, h: Oid :: Acyclic(cs) && h < |cs| ==> IsTopoOrder(cs, h, listing(cs, h))
    }

    /** Every landed commit with the key holds the effect's records. */
    ghost predicate RecordsLanded(e: Effect)
      requires Inv(e)
      reads this
    {
      forall c :: c in Landed(e) ==> commits[c].records == e.records
    }

    /** The attempt's commit is in the history, with its records, and within reach of the bounded walk. */
    ghost predicate Findable(e: Effect)
      requires Inv(e)
      reads this
    {
      Landed(e) != {} && RecordsLanded(e) && !Exhausted(commits, listing(commits, head), e.base, e.key)
    }

    ghost function Landed(e: Effect): set<Oid>
      requires Inv(e)
      reads this
    {
      KeyedSet(commits, head, e.key)
    }

    /** Another actor may fast-forward here. */
    method Others(ghost e: Effect, key: Text, push: Push)
      requires Inv(e) && key == e.key
      modifies this`commits, this`head
      ensures Inv(e) && Landed(e) == old(Landed(e))
      ensures (commits, head) == AfterPush(old(commits), old(head), push, key)
    {
      if Advances(commits, head, push, key) {
        AdvanceKeepsKeyed(commits, head, push, key);
        AdvanceKeepsAttemptOk(commits, head, push, e);
        commits, head := commits + push.commits, push.head;
      }
    }

    /** discoverLanded */
    method DiscoverLanded(e: Effect, served: bool) returns (d: Discovery)
      requires Inv(e)
      ensures d.Found? ==> d.oid in Landed(e) && commits[d.oid].records == e.records
      ensures d.Absent? ==> Landed(e) == {}
      ensures !served ==> d.Unreadable?
      ensures served && head == e.base ==> d.Absent?
      ensures served ==> (d.Unreadable? <==> Exhausted(commits, listing(commits, head), e.base, e.key) || !RecordsLanded(e))
    {
      if !served { return Unreadable; }
      var order := listing(commits, head);
      DiscoveryIsSound(commits, head, order, e.base, e.key);
      if head == e.base { BaseIsFound(commits, e, order); }
      ExhaustedWindowClaimsNothing(commits, order, e.base, e.key);
      d := FindCommitByTrailer(commits, order, e.base, e.key);
      if d.Found? && (commits[d.oid].parents[0] != e.base || commits[d.oid].records != e.records) {
        d := Unreadable;
      }
    }

    /** reconcileProvenanceCommit */
    method Reconcile(e: Effect, bound: bool, served: bool) returns (r: Outcome)
      requires Inv(e)
      ensures r.Observed? ==> r.result.Committed? && r.result.oid in Landed(e)
      ensures r.AbsentOutcome? ==> Landed(e) == {}
      ensures !bound || !served ==> r.Ambiguous?
      ensures bound && served && head == e.base ==> r.AbsentOutcome?
    {
      if !bound { return Ambiguous; }
      var landed := DiscoverLanded(e, served);
      r := match landed
        case Found(oid) => Observed(Committed(oid))
        case Absent => AbsentOutcome
        case Unreadable => Ambiguous;
    }

    /** The attempt's own commit: the one already in its worktree, or a new one on the base. */
    method Build(e: Effect, b: Building) returns (built: Option<Oid>, r: Outcome)
      requires Inv(e) && Landed(e) == {}
      modifies this`commits, this`worktree
      ensures Inv(e) && Landed(e) == {} && head == old(head)
      ensures old(commits) <= commits
      ensures built.Some? ==> worktree.Some? && BuiltOn(commits, e, built.value)
      ensures built.None? ==> (r.Observed? ==> !r.result.Committed?) && !r.AbsentOutcome?
      ensures built.Some? ==> worktree.value.head == built.value && worktree.value.clean
      ensures old(worktree).Some? && !(old(worktree).value.clean && old(worktree).value.head == e.base) ==>
                && commits == old(commits) && worktree == old(worktree)
                && (built.Some? <==> b.readable && !b.foreign && Resumable(commits, worktree.value, e))
                && (built.None? ==> r == if b.readable then Observed(WorktreeRefused) else Ambiguous)
      ensures old(worktree).None? || (old(worktree).value.clean && old(worktree).value.head == e.base) ==>
                && (built.Some? <==> b.readable && !b.foreign && !b.lostEarly && b.written && !b.lostLate && b.generated)
                && (built.Some? ==> commits == old(commits) + [Commit([e.base], Some(e.key), if b.kept then e.records else b.tampered)]
                                    && built.value == |old(commits)|)
    {
      built, r := None, Ambiguous;
      if !b.readable { return; }
      if b.foreign { r := Observed(WorktreeRefused); return; }
      if worktree.Some? {
        var existing := worktree.value;
        if !existing.clean { r := Observed(WorktreeRefused); return; }
        if existing.head != e.base {
          var commit := commits[existing.head];
          if commit.parents != [e.base] || !Keyed(commit, e.key) || existing.records != e.records {
            r := Observed(WorktreeRefused);
            return;
          }
          built := Some(existing.head);
          return;
        }
      } else {
        worktree := Some(Worktree(e.base, true, commits[e.base].records));
      }
      built, r := BuildNew(e, b);
    }

    /** Records written, the generator run, the tree committed on the base, and the worktree pointed at the commit. */
    method BuildNew(e: Effect, b: Building) returns (built: Option<Oid>, r: Outcome)
      requires Inv(e) && Landed(e) == {}
      modifies this`commits, this`worktree
      ensures Inv(e) && Landed(e) == {} && head == old(head)
      ensures old(commits) <= commits
      ensures built.Some? <==> !b.lostEarly && b.written && !b.lostLate && b.generated
      ensures built.Some? ==>
                && commits == old(commits) + [Commit([e.base], Some(e.key), if b.kept then e.records else b.tampered)]
                && built.value == |old(commits)| && BuiltOn(commits, e, built.value)
                && worktree == Some(Worktree(built.value, true, commits[built.value].records))
      ensures built.None? ==> r == if b.lostEarly || (b.written && b.lostLate) then Lost
                                   else if !b.written then Ambiguous else Observed(ReproducibilityFailed)
      ensures b.lostEarly || !b.written ==> commits == old(commits)
      ensures worktree == if b.lostEarly then old(worktree)
                          else if !b.written || b.lostLate then Some(Worktree(e.base, false, if b.kept then e.records else b.tampered))
                          else Some(Worktree(|old(commits)|, true, if b.kept then e.records else b.tampered))
    {
      built, r := None, Ambiguous;
      if b.lostEarly { r := Lost; return; }
      var records := if b.kept then e.records else b.tampered;
      worktree := Some(Worktree(e.base, false, records));
      if !b.written { return; }
      BuildKeepsAttemptOk(commits, head, e, Commit([e.base], Some(e.key), records));
      commits := commits + [Commit([e.base], Some(e.key), records)];
      if b.lostLate { r := Lost; return; }
      var oid := |commits| - 1;
      worktree := Some(Worktree(oid, true, records));
      if !b.generated { r := Observed(ReproducibilityFailed); return; }
      built := Some(oid);
    }

    /**
     The reproducibility command, which may leave any worktree behind, and the drift tests after it; any of
     them refuses before landing.
     */
    method Check(e: Effect, built: Oid, c: Checking) returns (refusal: Option<Outcome>)
      requires Inv(e)
      modifies this`worktree
      ensures Inv(e)
      ensures refusal.Some? ==> refusal.value in {Observed(ReproducibilityFailed), Ambiguous, Lost}
      ensures refusal.None? ==> built < |commits| && commits[built].records == e.records
      ensures var left := c.left(commits, built);
              && (refusal.None? <==> !c.lost && c.succeeded && WorktreeOk(commits, left) && left.head == built && left.clean && left.records == e.records)
              && (WorktreeOk(commits, left) && left.head == built && !(left.clean && left.records == e.records) && !c.lost ==>
                    refusal == Some(Observed(ReproducibilityFailed)))
    {
      if c.lost { return Some(Lost); }
      var left := c.left(commits, built);
      worktree := if WorktreeOk(commits, left) then Some(left) else None;
      if !c.succeeded { return Some(Observed(ReproducibilityFailed)); }
      if worktree.None? || worktree.value.head != built { return Some(Ambiguous); }
      if !worktree.value.clean || worktree.value.records != e.records { return Some(Observed(ReproducibilityFailed)); }
      refusal := None;
    }

    /** integrateLocalFastForward and what the attempt makes of its answer. */
    method Land(e: Effect, built: Oid, first: Push, second: Push, m: Merging) returns (r: Outcome)
      requires Inv(e) && Landed(e) == {} && BuiltOn(commits, e, built)
      modifies this`commits, this`head
      ensures Inv(e) && old(commits) <= commits
      ensures Landed(e) == {built} <==> Merges(old(commits), old(head), e, first, m)
      ensures Landed(e) == {} <==> !Merges(old(commits), old(head), e, first, m)
      ensures r == Observed(Committed(built)) <==>
                && Merges(old(commits), old(head), e, first, m) && !m.lostAfter && m.readable
                && AfterPush(AfterPush(old(commits), old(head), first, e.key).0, built, second, e.key).1 == built
      ensures r.Observed? && r.result.Committed? ==> r.result.oid == built
      ensures r.Observed? && !r.result.Committed? ==> Landed(e) == {}
      ensures old(head) != e.base ==> r == if m.advancedRead then Observed(BaseAdvanced(old(head))) else Ambiguous
      ensures old(head) == e.base && !m.clean ==> r == Observed(IntegrationRefused)
      ensures !r.AbsentOutcome?
    {
      if head != e.base { return if m.advancedRead then Observed(BaseAdvanced(head)) else Ambiguous; }
      if !m.clean { return Observed(IntegrationRefused); }
      Others(e, e.key, first);
      assert commits[built] == old(commits)[built];
      if m.lostBefore { return Lost; }
      MergeNeedsTheBase(e, built);
      var exitsZero := head in Reach(commits, built) && m.willing;
      if exitsZero {
        LandingKeepsAttemptOk(commits, e, built);
        head := built;
      }
      if m.lostAfter { return Lost; }
      Others(e, e.key, second);
      LandedIsNotHeadUnless(e, built, exitsZero);
      if m.readable && head == built {
        HeadIsLanded(e);
        return Observed(Committed(built));
      }
      if !m.readable || m.terminal || exitsZero { return Ambiguous; }
      r := Observed(IntegrationRefused);
    }

    /** git merge --ff-only can move the branch to the built commit only from the base. */
    lemma MergeNeedsTheBase(e: Effect, built: Oid)
      requires Inv(e) && Landed(e) == {} && BuiltOn(commits, e, built)
      ensures head in Reach(commits, built) <==> head == e.base
    {
      LandedIsNotHead(e, built);
      if head in Reach(commits, built) { FastForwardMeansBase(commits, head, e, built); }
      assert e.base in commits[built].parents && e.base in Reach(commits, e.base);
    }

    lemma LandedIsNotHeadUnless(e: Effect, built: Oid, landed: bool)
      requires Inv(e) && built < |commits| && Keyed(commits[built], e.key) && (Landed(e) == if landed then {built} else {})
      ensures head == built ==> landed
    {
      if head == built { HeadIsLanded(e); }
    }

    /** What GIT_MOVED_BASE becomes: the head the branch has moved to, when it can be read. */
    method MovedBase(readable: bool, base: Oid) returns (r: Outcome)
      ensures r == if readable && head != base then Observed(BaseAdvanced(head)) else Ambiguous
    {
      r := if !readable || head == base then Ambiguous else Observed(BaseAdvanced(head));
    }

    /**
     integrateRemoteFastForward: a push guarded by the base, then a readback of the remote branch. A readback
     that finds a third head is reported as a moved base even when the push landed and was then built upon,
     so an observed refusal hides a landed commit exactly when the attempt was overtaken.
     */
    method LandRemote(e: Effect, built: Oid, first: Push, second: Push, w: Weather) returns (r: Outcome)
      requires Inv(e) && BuiltOn(commits, e, built)
      modifies this`commits, this`head
      ensures Inv(e) && !r.AbsentOutcome? && old(commits) <= commits
      ensures old(Landed(e)) == {} ==>
                && (Landed(e) == {} || Landed(e) == {built})
                && (r.Observed? && r.result.Committed? ==> r.result.oid == built && Landed(e) == {built})
                && (Landed(e) == {built} <==> PushLands(old(commits), old(head), e, first, w))
                && (r == Observed(Committed(built)) <==>
                      && PushLands(old(commits), old(head), e, first, w) && w.after.Answered?
                      && AfterPush(AfterPush(old(commits), old(head), first, e.key).0, built, second, e.key).1 == built)
                && (r.Observed? && !r.result.Committed? && Landed(e) == {built} <==> Overtaken(old(commits), old(head), e, built, first, second, w))
      ensures Overtaken(old(commits), old(head), e, built, first, second, w) ==>
                && r == Observed(BaseAdvanced(head))
                && (commits, head) == AfterPush(AfterPush(old(commits), e.base, first, e.key).0, built, second, e.key)
    {
      if !w.configured { return Observed(IntegrationRefused); }
      if w.before.NoAnswer? { return Ambiguous; }
      if w.before.BranchMissing? { return Observed(IntegrationRefused); }
      BuiltIsAboveTheBase(commits, e, built);
      if head == built {
        HeadIsLanded(e);
        return Observed(Committed(built));
      }
      if head != e.base {
        r := MovedBase(w.headReadable, e.base);
        return;
      }
      PushRemote(e, built, first, w.pushLands);
      r := ReadRemote(e, built, second, w);
    }

    /** guardedPush: the remote branch moves to the built commit only from the base. */
    method PushRemote(e: Effect, built: Oid, first: Push, lands: bool)
      requires Inv(e) && BuiltOn(commits, e, built) && head == e.base
      modifies this`commits, this`head
      ensures Inv(e) && BuiltOn(commits, e, built) && e.base < built
      ensures var (meanwhile, met) := AfterPush(old(commits), old(head), first, e.key);
              && commits == meanwhile
              && head == (if lands && met == e.base then built else met)
              && Landed(e) == (if lands && met == e.base then {built} else {})
              && (head == built <==> lands && met == e.base)
    {
      BuiltIsAboveTheBase(commits, e, built);
      NothingLandedAtBase(commits, e);
      Others(e, e.key, first);
      if head == built { HeadIsLanded(e); }
      if lands && head == e.base {
        LandingKeepsAttemptOk(commits, e, built);
        head := built;
      }
    }

    /** The readback of the remote branch after a push, whether it landed or not. */
    method ReadRemote(e: Effect, built: Oid, second: Push, w: Weather) returns (r: Outcome)
      requires Inv(e) && BuiltOn(commits, e, built) && Landed(e) == if head == built then {built} else {}
      modifies this`commits, this`head
      ensures Inv(e) && Landed(e) == old(Landed(e))
      ensures (commits, head) == AfterPush(old(commits), old(head), second, e.key)
      ensures old(head) == built ==> head != e.base
      ensures head == built ==> old(head) == built
      ensures r == if w.after.NoAnswer? then Ambiguous
                   else if w.after.Answered? && head == built then Observed(Committed(built))
                   else if w.after.Answered? && head != e.base then (if w.headReadable then Observed(BaseAdvanced(head)) else Ambiguous)
                   else if w.after.BranchMissing? || w.pushTerminal || w.pushExitsZero then Ambiguous
                   else Observed(IntegrationRefused)
    {
      Others(e, e.key, second);
      LandedIsNotHeadUnless(e, built, old(head) == built);
      if head == e.base { NothingLandedAtBase(commits, e); }
      if w.after.NoAnswer? { return Ambiguous; }
      if w.after.Answered? && head == built { return Observed(Committed(built)); }
      if w.after.Answered? && head != e.base {
        r := MovedBase(w.headReadable, e.base);
        return;
      }
      if w.after.BranchMissing? || w.pushTerminal || w.pushExitsZero { return Ambiguous; }
      r := Observed(IntegrationRefused);
    }

    lemma LandedIsNotHead(e: Effect, built: Oid)
      requires Inv(e) && Landed(e) == {} && built < |commits| && Keyed(commits[built], e.key)
      ensures head != built
    {
      if head == built { HeadIsLanded(e); }
    }

    lemma HeadIsLanded(e: Effect)
      requires Inv(e) && Keyed(commits[head], e.key)
      ensures head in Landed(e)
    {
    }

    /** The landing of the run's integration profile. */
    method Integrate(e: Effect, profile: Profile, built: Oid, first: Push, second: Push, m: Merging, w: Weather) returns (r: Outcome)
      requires Inv(e) && Landed(e) == {} && BuiltOn(commits, e, built)
      modifies this`commits, this`head
      ensures Inv(e) && !r.AbsentOutcome? && old(commits) <= commits
      ensures Landed(e) == {} || Landed(e) == {built}
      ensures r.Observed? && r.result.Committed? ==> Landed(e) == {r.result.oid}
      ensures r.Observed? && !r.result.Committed? && Landed(e) != {} ==>
                profile.RemoteFastForward? && r.result.BaseAdvanced? && PushedAndOvertaken(old(commits), commits, head, e, first, second, w)
      ensures first.Nobody? && second.Nobody? && old(head) == e.base && WayIsClear(profile, m, w) ==> r == Observed(Committed(built))
    {
      if profile.LocalFastForward? {
        r := Land(e, built, first, second, m);
      } else {
        r := LandRemote(e, built, first, second, w);
      }
    }

    /** executeProvenanceCommit */
    method Execute(e: Effect, profile: Profile, a: Attempt) returns (r: Outcome)
      requires Inv(e)
      modifies this
      ensures Inv(e)
      ensures old(Landed(e)) <= Landed(e)
      ensures r.Observed? && r.result.Committed? ==> Landed(e) == {r.result.oid} && commits[r.result.oid].records == e.records
      ensures old(RecordsLanded(e)) ==> RecordsLanded(e)
      ensures r.Observed? && !r.result.Committed? && Landed(e) != {} ==>
                profile.RemoteFastForward? && r.result.BaseAdvanced?
                && PushedAndOvertaken(old(commits), commits, head, e, a.pushes(3), a.pushes(4), a.weather)
      ensures !r.AbsentOutcome?
      ensures !a.bound ==> r == Unavailable && commits == old(commits) && head == old(head) && worktree == old(worktree)
      // A landed commit is found again; without one, an attempt that cannot start builds nothing.
      ensures a.bound && a.served && old(Findable(e)) ==> r.Observed? && r.result.Committed?
      ensures !a.rooted && old(Landed(e)) == {} ==> r in {Unavailable, Ambiguous} && worktree == old(worktree) && Landed(e) == {}
      // Nothing in the way, the attempt lands its commit.
      ensures Undisturbed(profile, a) && old(head) == e.base && Startable(old(commits), old(worktree), e) ==> r.Observed? && r.result.Committed?
    {
      if !a.bound { return Unavailable; }
      var landed := DiscoverLanded(e, a.served);
      if landed.Found? { return Observed(Committed(landed.oid)); }
      if landed.Unreadable? { return Ambiguous; }
      Others(e, e.key, a.pushes(0));
      if !a.rooted { return Unavailable; }
      r := Proceed(e, profile, a);
    }

    /** The attempt's commit, built or resumed and checked. */
    method Prepare(e: Effect, a: Attempt) returns (built: Option<Oid>, r: Outcome)
      requires Inv(e) && Landed(e) == {}
      modifies this
      ensures Inv(e) && Landed(e) == {} && old(commits) <= commits
      ensures built.Some? ==> BuiltOn(commits, e, built.value) && commits[built.value].records == e.records
      ensures built.None? ==> !(r.Observed? && r.result.Committed?) && !r.AbsentOutcome?
      ensures Prepares(a) && Startable(old(commits), old(worktree), e) ==> built.Some? && head == old(head)
    {
      built, r := Build(e, a.building);
      if built.None? { return; }
      Others(e, e.key, a.pushes(1));
      var refusal := Check(e, built.value, a.checking);
      if refusal.Some? { return None, refusal.value; }
      Others(e, e.key, a.pushes(2));
    }

    /** An attempt from its worktree on: build, check, land. */
    method Proceed(e: Effect, profile: Profile, a: Attempt) returns (r: Outcome)
      requires Inv(e) && Landed(e) == {}
      modifies this
      ensures Inv(e) && old(commits) <= commits
      ensures r.Observed? && r.result.Committed? ==> Landed(e) == {r.result.oid} && commits[r.result.oid].records == e.records
      ensures RecordsLanded(e)
      ensures r.Observed? && !r.result.Committed? && Landed(e) != {} ==>
                profile.RemoteFastForward? && r.result.BaseAdvanced?
                && PushedAndOvertaken(old(commits), commits, head, e, a.pushes(3), a.pushes(4), a.weather)
      ensures !r.AbsentOutcome?
      ensures Undisturbed(profile, a) && old(head) == e.base && Startable(old(commits), old(worktree), e) ==> r.Observed? && r.result.Committed?
    {
      var built;
      built, r := Prepare(e, a);
      if built.None? { return; }
      ghost var before := commits;
      r := Integrate(e, profile, built.value, a.pushes(3), a.pushes(4), a.merging, a.weather);
      OvertakenSince(old(commits), before, commits, head, e, a.pushes(3), a.pushes(4), a.weather);
    }

    /**
     Any schedule of attempts and resumes of one effect, lost anywhere, with others landing in between: the
     history ends with at most one commit with the key, its first parent is the journaled base, it holds the
     effect's records, and one that landed is never lost.
     */
    method History(e: Effect, profile: Profile, attempts: seq<Attempt>)
      requires Inv(e)
      modifies this
      ensures Inv(e) && old(Landed(e)) <= Landed(e)
      ensures old(RecordsLanded(e)) ==> RecordsLanded(e)
      ensures forall c, d :: c in Landed(e) && d in Landed(e) ==> c == d
      ensures forall c :: c in Landed(e) ==> commits[c].parents == [e.base]
    {
      for k := 0 to |attempts|
        invariant Inv(e) && old(Landed(e)) <= Landed(e)
        invariant old(RecordsLanded(e)) ==> RecordsLanded(e)
      {
        var outcome := Execute(e, profile, attempts[k]);
      }
    }
  }

  /** A listing that satisfies the assumption on rev-list. */
  function NewestFirst(cs: seq<Commit>, head: Oid): seq<Oid> {
    if Acyclic(cs) && head < |cs| then Descending(Reach(cs, head), |cs|) else []
  }

  /**
   The remote refusal is not always true: a push lands, another actor builds on it before the readback, and
   the attempt reports an advanced base although its own keyed commit is in the history.
   */
  method RemoteRefusalHidesALanding(key: Text) returns (repository: Repository, r: Outcome)
    ensures var e := Effect(key, 0, []);
            && fresh(repository) && repository.Inv(e)
            && r == Observed(BaseAdvanced(2)) && repository.Landed(e) == {1}
  {
    var e := Effect(key, 0, []);
    var cs := [Commit([], None, []), Commit([0], Some(key), [])];
    repository := new Repository(NewestFirst, cs, 0, None);
    forall h: Oid, ds: seq<Commit> | Acyclic(ds) && h < |ds|
      ensures IsTopoOrder(ds, h, NewestFirst(ds, h))
    {
      NewestFirstIsTopological(ds, h);
    }
    assert Reach(cs, 0) == {0};
    assert KeyedSet(cs, 0, key) == {};
    var second := Push([Commit([1], None, [])], 2);
    SecondBuildsOnFirst(cs, second, key);
    assert AfterPush(cs, 0, Push([], 2), key) == (cs, 0);
    r := repository.LandRemote(e, 1, Push([], 2), second, Weather(true, Answered, true, false, true, Answered, true));
  }

  lemma SecondBuildsOnFirst(cs: seq<Commit>, second: Push, key: Text)
    requires cs == [Commit([], None, []), Commit([0], Some(key), [])]
    requires second == Push([Commit([1], None, [])], 2)
    ensures Acyclic(cs) && Advances(cs, 1, second, key)
  {
    var all := cs + second.commits;
    assert all == [Commit([], None, []), Commit([0], Some(key), []), Commit([1], None, [])];
    assert Reach(cs, 0) == {0};
    assert 0 in cs[1].parents && 1 in all[2].parents;
    assert Reach(all, 1) == {1} + Reach(all, 0);
    assert 1 in Reach(all, 1);
    assert forall x :: x in Reach(all, 2) ==> x == 2 || x in Reach(all, 1);
    ReachStays(cs, second.commits, 1);
  }
}

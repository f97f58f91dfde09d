/**
 The crash-safe command coordinator (src/commands/recovery.ts).

 A command loads the authoritative run, reconciles every durable effect, persists an intent, acts once
 and persists the observation. The process may be lost between any two of these steps (`Lost`), the
 store and the adapter may answer anything their contracts allow, and the reducer is any function that
 meets the contract the coordinator relies on.
 */
module Recovery {
  import opened Wrappers
  import opened Text

  // ---------------------------------------------------------------- runs, events and the reducer

  datatype Kind =
    | ControllerAcquire | ControllerRelease | BranchCreate | WorktreeCreate
    | CandidateCollect | CandidateRefresh | Publish | Integrate
    | OtherKind(name: Text)

  datatype Status = Intended | Ambiguous | Observed

  datatype Entry = Entry(id: Text, kind: Kind, slotTransition: bool, status: Status)

  /**
   `issued` is every effect id the run has ever journaled, entries compacted since included; `rest`
   stands for everything of a run the coordinator does not look into.
   */
  datatype Run = Run(revision: nat, holder: Text, scope: Text, journal: seq<Entry>, issued: set<Text>, rest: Text)

  datatype Effect = Effect(id: Text, kind: Kind, slotTransition: bool)

  datatype Event =
    | Observation(effectId: Text, kind: Kind, expectedRevision: nat, body: Text)
    | Ambiguity(effectId: Text, kind: Kind, expectedRevision: nat, body: Text)
    | Command(expectedRevision: nat, body: Text)

  /** `compacted` names the observed entries a command drops from the journal. */
  datatype Reduction = Reduction(next: Run, effect: Option<Effect>, compacted: set<Text>)

  predicate Outstanding(e: Entry) {
    e.status == Intended || e.status == Ambiguous
  }

  function Ids(journal: seq<Entry>): set<Text> {
    set i | 0 <= i < |journal| :: journal[i].id
  }

  predicate IdsDistinct(journal: seq<Entry>) {
    forall i, j :: 0 <= i < j < |journal| ==> journal[i].id != journal[j].id
  }

  predicate IsOutstanding(run: Run, id: Text) {
    exists i :: 0 <= i < |run.journal| && run.journal[i].id == id && Outstanding(run.journal[i])
  }

  predicate RunOk(run: Run) {
    IdsDistinct(run.journal) && Ids(run.journal) <= run.issued
  }

  /** What an event makes of an entry already in the journal. */
  function StatusAfter(entry: Entry, event: Event): Status {
    match event
    case Observation(id, _, _, _) => if id == entry.id then Observed else entry.status
    case Ambiguity(id, _, _, _) => if id == entry.id then Ambiguous else entry.status
    case Command(_, _) => entry.status
  }

  function Without(journal: seq<Entry>, compacted: set<Text>): (kept: seq<Entry>)
    ensures forall e :: e in kept <==> e in journal && e.id !in compacted
  {
    if journal == [] then []
    else
      var last, rest := journal[|journal| - 1], Without(journal[..|journal| - 1], compacted);
      assert journal == journal[..|journal| - 1] + [last];
      if last.id in compacted then rest else rest + [last]
  }

  function Emitted(effect: Option<Effect>): seq<Entry> {
    if effect.Some? then [Entry(effect.value.id, effect.value.kind, effect.value.slotTransition, Intended)] else []
  }

  /**
   The reducer's contract: one revision at a time, holder and scope constant; an observation or an
   ambiguity touches its own outstanding entry and nothing else; a command leaves every outstanding
   entry alone, may compact observed ones, and emits at most one effect, journaled under a fresh id.
   */
  predicate LegalReduction(run: Run, event: Event, r: Reduction) {
    && event.expectedRevision == run.revision
    && r.next.revision == run.revision + 1
    && r.next.holder == run.holder && r.next.scope == run.scope
    && if event.Command? then
         && (forall i :: 0 <= i < |run.journal| && run.journal[i].id in r.compacted ==> run.journal[i].status == Observed)
         && r.next.journal == Without(run.journal, r.compacted) + Emitted(r.effect)
         && (if r.effect.Some? then
               r.effect.value.id !in run.issued && r.next.issued == run.issued + {r.effect.value.id}
             else r.next.issued == run.issued)
       else
         && IsOutstanding(run, event.effectId)
         && r.effect.None? && r.next.issued == run.issued
         && |r.next.journal| == |run.journal|
         && forall i :: 0 <= i < |run.journal| ==>
              r.next.journal[i] == run.journal[i].(status := StatusAfter(run.journal[i], event))
  }

  type Reducer = (Run, Event) -> Option<Reduction>

  ghost predicate ReducerOk(reduce: Reducer) {
    forall run, event :: reduce(run, event).Some? ==> LegalReduction(run, event, reduce(run, event).value)
  }

  lemma {:induction false} WithoutKeepsDistinct(journal: seq<Entry>, compacted: set<Text>)
    requires IdsDistinct(journal)
    ensures IdsDistinct(Without(journal, compacted)) && Ids(Without(journal, compacted)) <= Ids(journal)
  {
    var kept := Without(journal, compacted);
    forall id | id in Ids(kept)
      ensures id in Ids(journal)
    {
      var i :| 0 <= i < |kept| && kept[i].id == id;
      assert kept[i] in journal;
    }
    if journal != [] {
      var n := |journal| - 1;
      var rest := journal[..n];
      WithoutKeepsDistinct(rest, compacted);
      var r := Without(rest, compacted);
      forall i | 0 <= i < |r|
        ensures r[i].id != journal[n].id
      {
        assert r[i] in rest;
        var k :| 0 <= k < n && rest[k] == r[i];
        assert journal[k].id != journal[n].id;
      }
    }
  }

  lemma CommandKeepsRunOk(run: Run, event: Event, r: Reduction)
    requires LegalReduction(run, event, r) && RunOk(run) && event.Command?
    ensures RunOk(r.next)
  {
    var kept, next := Without(run.journal, r.compacted), r.next.journal;
    WithoutKeepsDistinct(run.journal, r.compacted);
    forall i, j | 0 <= i < j < |next|
      ensures next[i].id != next[j].id
    {
      assert kept[i].id in Ids(kept);
    }
    forall id | id in Ids(next)
      ensures id in r.next.issued
    {
      var i :| 0 <= i < |next| && next[i].id == id;
      if i < |kept| { assert kept[i].id in Ids(kept); }
    }
  }

  lemma ReductionKeepsRunOk(run: Run, event: Event, r: Reduction)
    requires LegalReduction(run, event, r) && RunOk(run)
    ensures RunOk(r.next)
  {
    if event.Command? {
      CommandKeepsRunOk(run, event, r);
    } else {
      forall id | id in Ids(r.next.journal)
        ensures id in Ids(run.journal)
      {
        var i :| 0 <= i < |r.next.journal| && r.next.journal[i].id == id;
        assert run.journal[i].id == id;
      }
    }
  }

  predicate Emits(r: Reduction, id: Text) {
    r.effect.Some? && r.effect.value.id == id
  }

  lemma CommandOutstanding(run: Run, event: Event, r: Reduction, id: Text)
    requires LegalReduction(run, event, r) && event.Command?
    ensures IsOutstanding(r.next, id) <==> IsOutstanding(run, id) || Emits(r, id)
  {
    var kept, next := Without(run.journal, r.compacted), r.next.journal;
    if IsOutstanding(r.next, id) {
      var i :| 0 <= i < |next| && next[i].id == id && Outstanding(next[i]);
      if i < |kept| {
        assert next[i] in kept && next[i] in run.journal;
      }
    }
    if IsOutstanding(run, id) {
      var i :| 0 <= i < |run.journal| && run.journal[i].id == id && Outstanding(run.journal[i]);
      assert run.journal[i] in kept;
      var k :| 0 <= k < |kept| && kept[k] == run.journal[i];
      assert next[k] == kept[k];
    }
    if Emits(r, id) {
      assert next[|kept|].id == id;
    }
  }

  /** A reduction settles exactly the effect its observation names, and opens exactly the one it emits. */
  lemma ReductionSettlesExactly(run: Run, event: Event, r: Reduction, id: Text)
    requires LegalReduction(run, event, r) && RunOk(run)
    ensures IsOutstanding(r.next, id) <==>
            (IsOutstanding(run, id) && !(event.Observation? && event.effectId == id)) || Emits(r, id)
  {
    if event.Command? {
      CommandOutstanding(run, event, r, id);
    } else {
      var next := r.next.journal;
      if IsOutstanding(r.next, id) {
        var i :| 0 <= i < |next| && next[i].id == id && Outstanding(next[i]);
        var j :| 0 <= j < |run.journal| && run.journal[j].id == event.effectId && Outstanding(run.journal[j]);
        assert i != j ==> run.journal[i].id != run.journal[j].id;
        assert Outstanding(run.journal[i]);
      }
      if IsOutstanding(run, id) && !(event.Observation? && event.effectId == id) {
        var i :| 0 <= i < |run.journal| && run.journal[i].id == id && Outstanding(run.journal[i]);
        assert Outstanding(next[i]) && next[i].id == id;
      }
    }
  }

  /** The same entries in the same places; only statuses may differ. */
  predicate SamePlaces(a: seq<Entry>, b: seq<Entry>) {
    |a| == |b| && forall i :: 0 <= i < |a| ==> b[i] == a[i].(status := b[i].status)
  }

  /** Nothing that was in the journal moved, except possibly entry i. */
  predicate OnlyMoves(a: seq<Entry>, b: seq<Entry>, i: nat) {
    |a| == |b| && forall j :: 0 <= j < |a| && j != i ==> b[j] == a[j]
  }

  // ---------------------------------------------------------------- answers

  /** isRecoverableEffect */
  predicate Recoverable(e: Effect) {
    if e.kind.OtherKind? then false
    else if e.kind == ControllerAcquire || e.kind == ControllerRelease then e.slotTransition
    else true
  }

  datatype Answer =
    | Absent
    | Unclear(hash: Text)
    | ToolRequest(markAmbiguous: bool)
    | Unavailable
    | Seen(event: Event)
    | Threw
    | LostMidway

  /** What the adapter does with one act: whether it takes effect, and what it says. */
  datatype Acting = Acting(applied: bool, says: Answer)

  /** What one write of the run meets: the batch, losses, whether it lands, and what is answered and read back. */
  datatype StoreWeather = StoreWeather(
    batchBuilt: bool, lostBefore: bool, lands: bool, lostAfter: bool, refusal: Option<Stop>, answered: bool, served: bool)

  /** What a command meets before its own work: topology proof, lock, load, validation, and its planners. */
  datatype Gate = Gate(proven: bool, held: bool, load: Option<Stop>, invalid: Option<Stop>, refused: bool, plan: Option<Stop>, prepare: Option<Stop>)

  /**
   What one command meets. The adapter answers by effect, to a discovery, to an act and to an acknowledgement;
   the process may be lost before an act; the store answers by the revision a write moves from.
   */
  datatype World = World(
    gate: Gate, discover: Text -> Answer, lostBeforeAct: Text -> bool, act: Text -> Acting, acknowledge: Answer, writes: nat -> StoreWeather)

  predicate Smooth(w: StoreWeather) {
    w.batchBuilt && !w.lostBefore && w.lands && !w.lostAfter && w.refusal.None? && w.answered && w.served
  }

  /** The write takes effect, whatever is answered of it. */
  predicate Writes(w: StoreWeather) {
    w.batchBuilt && !w.lostBefore && w.lands
  }

  datatype Stop =
    | Blocked | Unclaimed | AmbiguousStop | Corrupt | Held | Uninitialized | StaleStop | UnavailableStop | Quarantined

  datatype Outcome =
    | Continue(run: Run)
    | Delivered(run: Run)
    | Stopped(why: Stop)
    | Lost

  /** The recoverable kinds, and the controller transitions only with their slot evidence. */
  lemma RecoverableExactly(e: Effect)
    ensures Recoverable(e) <==>
            || e.kind in {BranchCreate, WorktreeCreate, CandidateCollect, CandidateRefresh, Publish, Integrate}
            || (e.kind in {ControllerAcquire, ControllerRelease} && e.slotTransition)
  {
  }

  /** observationFor: an event about this very effect, moved to the current revision. */
  function ObservationFor(run: Run, entry: Entry, event: Event): Option<Event> {
    if event.Command? || event.effectId != entry.id || event.kind != entry.kind then None
    else Some(event.(expectedRevision := run.revision))
  }

  function AmbiguousEvent(run: Run, entry: Entry, hash: Text): Event {
    Ambiguity(entry.id, entry.kind, run.revision, hash)
  }

  /** A raw refusal of a publication is a plain event the coordinator never takes from a command. */
  datatype Request =
    | Ordinary(event: Event)
    | RawRefusal(event: Event)
    | Acknowledgement
    | CarryClaim
    | PublicationRecovery

  /** What a truthful adapter can be taken to say of an act. */
  function Reported(acting: Acting): Answer {
    if acting.says.Absent? || (acting.says.Seen? && (!acting.applied || acting.says.event.Ambiguity?)) then Unavailable else acting.says
  }

  /** What a retry makes of its act: a request made by hand, or a throw, is only unclear. */
  function AfterActing(acting: Acting): Answer {
    var said := Reported(acting);
    if said.ToolRequest? || said.Threw? then Unclear([]) else said
  }

  predicate HasStatus(run: Run, id: Text, status: Status) {
    exists i :: 0 <= i < |run.journal| && run.journal[i].id == id && run.journal[i].status == status
  }

  // ---------------------------------------------------------------- the coordinator

  class Coordinator {
    const reduce: Reducer
    /** effectFor(entry, run) !== undefined */
    const rehydrates: (Run, Entry) -> bool
    const canExecute: Effect -> bool
    const canReconcile: Effect -> bool
    /** The authority-approved aggregate used only when both rows are absent. */
    const initialRun: Option<Run>

    /** The authoritative store; None while both rows are absent. */
    var stored: Option<Run>
    /** How often each external act has really been applied. */
    var acts: map<Text, nat>
    /** The calls of execute, by effect. */
    ghost var tried: multiset<Text>
    /** Effects whose own observation has been persisted. */
    ghost var settled: set<Text>

    constructor (reduce: Reducer, rehydrates: (Run, Entry) -> bool, canExecute: Effect -> bool, canReconcile: Effect -> bool,
                 initialRun: Option<Run>)
      requires ReducerOk(reduce)
      ensures Inv() && stored == None && acts == map[]
      ensures this.reduce == reduce && this.rehydrates == rehydrates && this.canExecute == canExecute && this.canReconcile == canReconcile
      ensures this.initialRun == initialRun
    {
      this.reduce, this.rehydrates, this.canExecute, this.canReconcile := reduce, rehydrates, canExecute, canReconcile;
      this.initialRun := initialRun;
      stored, acts, tried, settled := None, map[], multiset{}, {};
    }

    function Applied(id: Text): nat
      reads this`acts
    {
      if id in acts then acts[id] else 0
    }

    /**
     No act has been applied twice, every applied act was journaled first, and an effect ever journaled
     is outstanding exactly until its own observation is persisted.
     */
    ghost predicate Inv()
      reads this
    {
      && ReducerOk(reduce)
      && (forall id :: id in acts ==> acts[id] <= 1 && stored.Some? && id in stored.value.issued)
      && (stored.Some? ==>
            && RunOk(stored.value)
            && forall id :: id in stored.value.issued ==> (IsOutstanding(stored.value, id) <==> id !in settled))
      && (forall id :: id in settled ==> stored.Some? && id in stored.value.issued)
    }

    predicate JournaledOutstanding(id: Text)
      reads this
    {
      stored.Some? && IsOutstanding(stored.value, id)
    }

    /**
     The adapter's discovery: `absent` and `observed` are truthful, and what is observed is never an ambiguity
     event, which only the coordinator makes; everything else may be said at any time.
     */
    method Discover(effect: Effect, says: Answer) returns (answer: Answer)
      ensures answer == Told(effect.id, says)
      ensures answer.Absent? ==> Applied(effect.id) == 0
      ensures answer.Seen? ==> Applied(effect.id) > 0 && !answer.event.Ambiguity?
    {
      answer := says;
      if (says.Absent? && Applied(effect.id) > 0) || (says.Seen? && (Applied(effect.id) == 0 || says.event.Ambiguity?)) {
        answer := Unavailable;
      }
    }

    /** What a truthful adapter can be taken to say of an effect that is not being acted on. */
    function Told(id: Text, says: Answer): Answer
      reads this`acts
    {
      if (says.Absent? && Applied(id) > 0) || (says.Seen? && (Applied(id) == 0 || says.event.Ambiguity?)) then Unavailable else says
    }

    /**
     The one external act. It may be called only for an effect the store already journals as outstanding,
     that the adapter admits, and whose act has not been applied; it may be lost or throw either side of
     the act, and answers `observed` only for an act it applied.
     */
    method Execute(effect: Effect, acting: Acting) returns (answer: Answer)
      requires JournaledOutstanding(effect.id)
      requires Applied(effect.id) == 0
      requires Recoverable(effect) || canExecute(effect) || canReconcile(effect)
      modifies this`acts, this`tried
      ensures acts == if acting.applied then old(acts)[effect.id := 1] else old(acts)
      ensures answer == Reported(acting)
      ensures tried == old(tried) + multiset{effect.id}
      ensures answer.Seen? ==> Applied(effect.id) == 1 && !answer.event.Ambiguity?
      ensures !answer.Absent?
    {
      tried := tried + multiset{effect.id};
      if acting.applied { acts := acts[effect.id := 1]; }
      answer := acting.says;
      if answer.Absent? || (answer.Seen? && (!acting.applied || answer.event.Ambiguity?)) { answer := Unavailable; }
    }

    /**
     persist: a compare-and-set whose answer is believed only after a load reads back the very run that
     was to be stored. The write may land or not whatever the answer is.
     */
    method PersistEvent(run: Run, event: Event, w: StoreWeather) returns (r: Outcome)
      requires Inv() && stored == Some(run)
      modifies this`stored, this`settled
      ensures Inv() && old(settled) <= settled
      ensures if reduce(run, event).Some? && Writes(w)
              then stored == Some(reduce(run, event).value.next) && settled == old(settled) + if event.Observation? then {event.effectId} else {}
              else stored == old(stored) && settled == old(settled)
      ensures r == if reduce(run, event).None? then Stopped(Corrupt)
                   else if !w.batchBuilt then Stopped(Quarantined)
                   else if w.lostBefore || w.lostAfter then Lost
                   else if w.refusal.Some? then Stopped(w.refusal.value)
                   else if Smooth(w) then Continue(reduce(run, event).value.next) else Stopped(Quarantined)
      ensures stored.Some? && run.issued <= stored.value.issued
      ensures r.Continue? ==> stored == Some(r.run)
      ensures r.Continue? && event.Observation? ==> event.effectId in settled
    {
      var reduction := reduce(run, event);
      if reduction.None? { return Stopped(Corrupt); }
      if !w.batchBuilt { return Stopped(Quarantined); }
      if w.lostBefore { return Lost; }
      if w.lands {
        Land(run, event, reduction.value);
      }
      if w.lostAfter { return Lost; }
      if w.refusal.Some? { return Stopped(w.refusal.value); }
      if !w.answered || !w.served { return Stopped(Quarantined); }
      NextIsAnother(run, event, reduction.value);
      if stored != Some(reduction.value.next) { return Stopped(Quarantined); }
      r := Continue(reduction.value.next);
    }

    lemma NextIsAnother(run: Run, event: Event, reduction: Reduction)
      requires ReducerOk(reduce) && reduce(run, event) == Some(reduction)
      ensures reduction.next != run
    {
      assert LegalReduction(run, event, reduction);
    }

    /** The store takes the next revision. */
    method Land(run: Run, event: Event, reduction: Reduction)
      requires Inv() && stored == Some(run) && LegalReduction(run, event, reduction)
      modifies this`stored, this`settled
      ensures Inv()
      ensures stored == Some(reduction.next)
      ensures settled == old(settled) + if event.Observation? then {event.effectId} else {}
    {
      stored := Some(reduction.next);
      settled := settled + if event.Observation? then {event.effectId} else {};
      ReductionKeepsRunOk(run, event, reduction);
      forall id | id in reduction.next.issued
        ensures IsOutstanding(reduction.next, id) <==> id !in settled
      {
        ReductionSettlesExactly(run, event, reduction, id);
      }
      forall id | id in settled
        ensures id in reduction.next.issued
      {
        if event.Observation? && id == event.effectId {
          var i :| 0 <= i < |run.journal| && run.journal[i].id == id && Outstanding(run.journal[i]);
          assert id in Ids(run.journal);
        }
      }
    }

    /** An observation or ambiguity of one entry: that entry may move, no other does. */
    method PersistEntryEvent(current: Run, i: nat, event: Event, w: StoreWeather) returns (r: Outcome)
      requires Inv() && stored == Some(current) && i < |current.journal|
      requires !event.Command? && event.effectId == current.journal[i].id
      modifies this`stored, this`settled
      ensures Inv() && old(settled) <= settled
      ensures stored.Some? && current.issued <= stored.value.issued
      ensures OnlyMoves(current.journal, stored.value.journal, i) && SamePlaces(current.journal, stored.value.journal)
      ensures !r.Delivered?
      ensures r.Continue? ==> stored == Some(r.run) && r.run.journal[i].status == if event.Observation? then Observed else Ambiguous
      ensures r.Continue? && event.Observation? ==> event.effectId in settled
      ensures event.Observation? ==> stored.value.journal[i].status in {current.journal[i].status, Observed}
      ensures stored == old(stored) ||
              (stored.value.revision == current.revision + 1
               && stored.value.journal[i] == current.journal[i].(status := if event.Observation? then Observed else Ambiguous))
      ensures r.Continue? ==> stored.value.revision == current.revision + 1
      ensures !event.Observation? ==> settled == old(settled)
      ensures r.Continue? <==> reduce(current, event).Some? && Smooth(w)
    {
      r := PersistEvent(current, event, w);
      forall j | 0 <= j < |current.journal| && j != i
        ensures stored.value.journal[j] == current.journal[j]
      {
        assert current.journal[if i < j then i else j].id != current.journal[if i < j then j else i].id;
      }
    }

    /**
     One entry of the reconcile loop. Continue means the loop goes on: the entry is observed, or a state
     query leaves it as it was. A tool request is delivered as it is, or once its mark is stored.
     */
    method ReconcileEntry(current: Run, i: nat, stateQuery: bool, world: World) returns (r: Outcome)
      requires Inv() && stored == Some(current) && i < |current.journal| && Outstanding(current.journal[i])
      modifies this
      ensures Inv()
      ensures stored.Some? && current.issued <= stored.value.issued && old(settled) <= settled
      ensures OnlyMoves(current.journal, stored.value.journal, i) && SamePlaces(current.journal, stored.value.journal)
      ensures old(tried) <= tried
      ensures r.Continue? ==> stored == Some(r.run)
      ensures r.Continue? && !stateQuery ==> current.journal[i].id in settled
      ensures r.Continue? && stateQuery && r.run.journal[i].status == Ambiguous ==> current.journal[i].status == Ambiguous
      ensures stateQuery && current.journal[i].status == Intended && stored.value.journal[i].status == Ambiguous ==>
                tried[current.journal[i].id] > old(tried[current.journal[i].id])
      ensures !Reconcilable(current, i) ==> r == Stopped(Blocked) && stored == old(stored) && tried == old(tried)
      ensures Reconcilable(current, i) ==> Answered(old(stored), stored, current, i, stateQuery, old(ToldOf(current, i, world)), r)
      ensures !(Reconcilable(current, i) && old(ToldOf(current, i, world)).Absent?) ==> tried == old(tried) && acts == old(acts)
      ensures Reconcilable(current, i) && Settles(current, i, old(ToldOf(current, i, world)), world) ==> r.Continue?
    {
      var entry := current.journal[i];
      if !rehydrates(current, entry) { return Stopped(Blocked); }
      var effect := Effect(entry.id, entry.kind, entry.slotTransition);
      if !Recoverable(effect) && !canReconcile(effect) { return Stopped(Blocked); }
      var answer := Discover(effect, world.discover(entry.id));
      if answer.LostMidway? || answer.Threw? { return Lost; }
      if answer.Unavailable? { return Stopped(UnavailableStop); }
      if answer.ToolRequest? {
        if !answer.markAmbiguous { return Delivered(current); }
        if stateQuery { return Continue(current); }
        r := DeliverMarked(current, i, world.writes(current.revision));
        return;
      }
      if entry.status == Ambiguous && answer.Unclear? { return Stopped(AmbiguousStop); }
      if stateQuery && answer.Unclear? { return Continue(current); }
      r := SettleEntry(current, i, effect, answer, world);
    }

    /** A manual request goes out only once the store says that it may have been answered. */
    method DeliverMarked(current: Run, i: nat, w: StoreWeather) returns (r: Outcome)
      requires Inv() && stored == Some(current) && i < |current.journal|
      modifies this`stored, this`settled
      ensures Inv() && settled == old(settled) && !r.Continue?
      ensures stored.Some? && current.issued <= stored.value.issued
      ensures stored == old(stored) || MarkedAmbiguous(current, stored, i)
      ensures OnlyMoves(current.journal, stored.value.journal, i) && SamePlaces(current.journal, stored.value.journal)
      ensures r.Delivered? ==> stored == Some(r.run) && MarkedAmbiguous(current, stored, i)
      ensures r.Delivered? <==> Smooth(w) && reduce(current, AmbiguousEvent(current, current.journal[i], [])).Some?
    {
      var delivered := PersistEntryEvent(current, i, AmbiguousEvent(current, current.journal[i], []), w);
      r := if delivered.Continue? then Delivered(delivered.run) else delivered;
    }

    /** An answer that settles an entry, or the act that positive absence allows, and what is stored of it. */
    method SettleEntry(current: Run, i: nat, effect: Effect, answer: Answer, world: World) returns (r: Outcome)
      requires Inv() && stored == Some(current) && i < |current.journal| && Outstanding(current.journal[i])
      requires effect == Effect(current.journal[i].id, current.journal[i].kind, current.journal[i].slotTransition)
      requires Recoverable(effect) || canReconcile(effect)
      requires answer.Absent? || answer.Unclear? || answer.Seen?
      requires (answer.Absent? ==> Applied(effect.id) == 0) && (answer.Seen? ==> !answer.event.Ambiguity?)
      modifies this
      ensures Inv() && !r.Delivered?
      ensures stored.Some? && current.issued <= stored.value.issued && old(settled) <= settled && old(tried) <= tried
      ensures OnlyMoves(current.journal, stored.value.journal, i) && SamePlaces(current.journal, stored.value.journal)
      ensures r.Continue? ==> stored == Some(r.run) && effect.id in settled && r.run.journal[i].status == Observed
      ensures !answer.Absent? ==> tried == old(tried) && acts == old(acts)
      ensures answer.Unclear? ==> !r.Continue? && (stored == old(stored) || MarkedAmbiguous(current, stored, i))
      ensures answer.Seen? ==> stored == old(stored) || stored.value.journal[i].status == Observed
      ensures answer.Absent? && world.lostBeforeAct(effect.id) ==> r.Lost? && stored == old(stored) && tried == old(tried) && acts == old(acts)
      ensures answer.Absent? && !world.lostBeforeAct(effect.id) ==>
                tried == old(tried) + multiset{effect.id} && Retried(old(stored), stored, current, i, AfterActing(world.act(effect.id)), r)
      ensures answer.Absent? && stored.value.journal[i] == current.journal[i].(status := Ambiguous) && current.journal[i].status == Intended ==>
                tried[effect.id] > old(tried[effect.id])
      ensures Settles(current, i, answer, world) ==> r.Continue?
    {
      var entry := current.journal[i];
      var settled := answer;
      if answer.Absent? {
        settled := Retry(current, i, effect, world.act(effect.id), world.lostBeforeAct(effect.id));
        if settled.LostMidway? { return Lost; }
        if settled.Unavailable? { return Stopped(UnavailableStop); }
      }
      var event := if settled.Seen? then ObservationFor(current, entry, settled.event)
                   else Some(AmbiguousEvent(current, entry, if settled.Unclear? then settled.hash else []));
      if event.None? { return Stopped(Corrupt); }
      var persisted := PersistEntryEvent(current, i, event.value, world.writes(current.revision));
      if persisted.Continue? && !settled.Seen? { return Stopped(AmbiguousStop); }
      r := persisted;
    }

    /** The effect can be rehydrated from its entry, and the adapter can reconcile it. */
    predicate Reconcilable(run: Run, i: nat)
      requires i < |run.journal|
    {
      var entry := run.journal[i];
      var effect := Effect(entry.id, entry.kind, entry.slotTransition);
      rehydrates(run, entry) && (Recoverable(effect) || canReconcile(effect))
    }

    /** What the adapter says of an entry that is being reconciled. */
    function ToldOf(run: Run, i: nat, world: World): Answer
      requires i < |run.journal|
      reads this`acts
    {
      Told(run.journal[i].id, world.discover(run.journal[i].id))
    }

    /** The effect is observed, or absent and its act is; the reducer takes the observation and the store its write. */
    predicate Settles(run: Run, i: nat, told: Answer, world: World)
      requires i < |run.journal|
    {
      var entry := run.journal[i];
      var said := if told.Absent? then AfterActing(world.act(entry.id)) else told;
      && (told.Absent? ==> !world.lostBeforeAct(entry.id))
      && said.Seen? && ObservationFor(run, entry, said.event).Some?
      && reduce(run, ObservationFor(run, entry, said.event).value).Some? && Smooth(world.writes(run.revision))
    }

    /** Answer by answer, what becomes of the entry and of the loop. */
    predicate Answered(was: Option<Run>, now: Option<Run>, current: Run, i: nat, stateQuery: bool, told: Answer, r: Outcome)
      requires i < |current.journal|
    {
      match told
      case LostMidway => r == Lost && now == was
      case Threw => r == Lost && now == was
      case Unavailable => r == Stopped(UnavailableStop) && now == was
      case ToolRequest(markAmbiguous) =>
        if !markAmbiguous then r == Delivered(current) && now == was
        else if stateQuery then r == Continue(current) && now == was
        else !r.Continue? && (now == was || MarkedAmbiguous(current, now, i)) && (r.Delivered? ==> now == Some(r.run) && MarkedAmbiguous(current, now, i))
      case Unclear(_) =>
        if current.journal[i].status == Ambiguous then r == Stopped(AmbiguousStop) && now == was
        else if stateQuery then r == Continue(current) && now == was
        else !r.Continue? && !r.Delivered? && (now == was || MarkedAmbiguous(current, now, i))
      case Absent => !r.Delivered?
      case Seen(_) => !r.Delivered? && (now == was || (now.Some? && |now.value.journal| == |current.journal| && now.value.journal[i].status == Observed))
    }

    /** What becomes of an entry whose act was made again. */
    predicate Retried(was: Option<Run>, now: Option<Run>, current: Run, i: nat, said: Answer, r: Outcome)
      requires i < |current.journal|
    {
      match said
      case Unavailable => r == Stopped(UnavailableStop) && now == was
      case Seen(_) => now == was || (now.Some? && |now.value.journal| == |current.journal| && now.value.journal[i].status == Observed)
      case Unclear(_) => !r.Continue? && (now == was || MarkedAmbiguous(current, now, i))
      case _ => r.Lost? && now == was
    }

    /** One revision on, with that entry ambiguous. */
    predicate MarkedAmbiguous(current: Run, now: Option<Run>, i: nat)
      requires i < |current.journal|
    {
      && now.Some? && now.value.revision == current.revision + 1
      && |now.value.journal| == |current.journal|
      && now.value.journal[i] == current.journal[i].(status := Ambiguous)
    }

    /** Positive absence is the sole authority to act again; a thrown or delivered act is ambiguous. */
    method Retry(current: Run, i: nat, effect: Effect, acting: Acting, lost: bool) returns (settled: Answer)
      requires Inv() && stored == Some(current) && i < |current.journal| && Outstanding(current.journal[i])
      requires effect.id == current.journal[i].id && Applied(effect.id) == 0
      requires Recoverable(effect) || canReconcile(effect)
      modifies this`acts, this`tried
      ensures Inv()
      ensures old(tried) <= tried && tried[effect.id] >= old(tried[effect.id])
      ensures settled.Seen? || settled.Unclear? || settled.Unavailable? || settled.LostMidway?
      ensures settled.Seen? || settled.Unclear? ==> tried[effect.id] > old(tried[effect.id])
      ensures settled.Seen? ==> !settled.event.Ambiguity?
      ensures if lost then settled.LostMidway? && tried == old(tried) && acts == old(acts)
              else settled == AfterActing(acting) && tried == old(tried) + multiset{effect.id}
    {
      assert effect.id in Ids(current.journal);
      if lost { return LostMidway; }
      settled := Execute(effect, acting);
      if settled.ToolRequest? || settled.Threw? { settled := Unclear([]); }
    }

    /**
     reconcile: every effect outstanding when it starts is discovered, retried only on positive absence,
     and settled or reported. A state query writes no ambiguity of its own making but for an act it made.
     */
    method Reconcile(run: Run, stateQuery: bool, world: World) returns (r: Outcome)
      requires Inv() && stored == Some(run)
      modifies this
      ensures Inv()
      ensures stored.Some? && run.issued <= stored.value.issued && old(settled) <= settled
      ensures SamePlaces(run.journal, stored.value.journal)
      ensures old(tried) <= tried
      ensures r.Continue? ==> stored == Some(r.run)
      ensures r.Continue? && !stateQuery ==>
                forall i :: 0 <= i < |run.journal| && Outstanding(run.journal[i]) ==> run.journal[i].id in settled
      ensures stateQuery ==>
                forall i :: 0 <= i < |run.journal| && run.journal[i].status == Intended && stored.value.journal[i].status == Ambiguous ==>
                  tried[run.journal[i].id] > old(tried[run.journal[i].id])
      ensures r.Delivered? ==> stored == Some(r.run) && exists i :: DeliveredFor(run, r.run, i, stateQuery, world)
      // When every outstanding effect can be observed and nothing is in the way, the run comes back.
      ensures AllObservable(run, world, old(acts)) ==> r.Continue?
      ensures Quiet(run) ==> r == Continue(run) && settled == old(settled) && acts == old(acts) && tried == old(tried)
    {
      ghost var observable, quiet := AllObservable(run, world, acts), Quiet(run);
      var current := run;
      for i := 0 to |run.journal|
        invariant Inv() && stored == Some(current)
        invariant old(tried) <= tried
        invariant run.issued <= current.issued && old(settled) <= settled && SamePlaces(run.journal, current.journal)
        invariant forall j :: i <= j < |run.journal| ==> current.journal[j] == run.journal[j]
        invariant forall j :: 0 <= j < i && Outstanding(run.journal[j]) && !stateQuery ==> run.journal[j].id in settled
        invariant forall j :: 0 <= j < i && stateQuery && run.journal[j].status == Intended ==> current.journal[j].status != Ambiguous
        invariant observable ==> acts == old(acts)
        invariant quiet ==> current == run && settled == old(settled) && acts == old(acts) && tried == old(tried)
      {
        if !Outstanding(run.journal[i]) { continue; }
        if observable { ObservableSettles(run, current, i, world); }
        var step := ReconcileEntry(current, i, stateQuery, world);
        if !step.Continue? {
          assert step.Delivered? ==> DeliveredFor(run, step.run, i, stateQuery, world);
          return step;
        }
        current := step.run;
      }
      r := Continue(current);
    }

    /** The reducer takes every observation of an outstanding effect, and every write goes through. */
    ghost predicate Receptive(world: World) {
      && (forall run: Run, event: Event :: event.Observation? && event.expectedRevision == run.revision && IsOutstanding(run, event.effectId) ==>
            reduce(run, event).Some?)
      && forall revision: nat :: Smooth(world.writes(revision))
    }

    /** No effect of the run is outstanding. */
    predicate Quiet(run: Run) {
      forall i :: 0 <= i < |run.journal| ==> !Outstanding(run.journal[i])
    }

    /** Every outstanding effect has been applied, and its adapter observes it. */
    ghost predicate AllObservable(run: Run, world: World, applied: map<Text, nat>) {
      && Receptive(world)
      && forall i :: 0 <= i < |run.journal| && Outstanding(run.journal[i]) ==> Observable(run.journal[i], world, applied)
    }

    ghost predicate Observable(entry: Entry, world: World, applied: map<Text, nat>) {
      && (forall run: Run :: rehydrates(run, entry))
      && (Recoverable(Effect(entry.id, entry.kind, entry.slotTransition)) || canReconcile(Effect(entry.id, entry.kind, entry.slotTransition)))
      && entry.id in applied && applied[entry.id] > 0
      && world.discover(entry.id).Seen? && world.discover(entry.id).event.Observation?
      && world.discover(entry.id).event.effectId == entry.id && world.discover(entry.id).event.kind == entry.kind
    }

    lemma ObservableSettles(run: Run, current: Run, i: nat, world: World)
      requires i < |run.journal| == |current.journal| && current.journal[i] == run.journal[i] && Outstanding(run.journal[i])
      requires AllObservable(run, world, acts)
      ensures Reconcilable(current, i) && Settles(current, i, ToldOf(current, i, world), world) && !ToldOf(current, i, world).Absent?
    {
      assert Observable(run.journal[i], world, acts);
      assert IsOutstanding(current, current.journal[i].id);
    }

    /** A tool request delivered for an entry that was outstanding: with a mark it is ambiguous, without it is as it was. */
    predicate DeliveredFor(run: Run, now: Run, i: int, stateQuery: bool, world: World) {
      && 0 <= i < |run.journal| && |now.journal| == |run.journal| && Outstanding(run.journal[i])
      && var says := world.discover(run.journal[i].id);
         && says.ToolRequest?
         && now.journal[i] == (if says.markAmbiguous then run.journal[i].(status := Ambiguous) else run.journal[i])
         && (says.markAmbiguous ==> !stateQuery)
    }

    /** The event reduces, and the adapter admits the effect it emits, if any. */
    predicate Admits(run: Run, event: Event) {
      var reduction := reduce(run, event);
      reduction.Some? && (reduction.value.effect.Some? ==> Recoverable(reduction.value.effect.value) || canExecute(reduction.value.effect.value))
    }

    /** An admitted event: persisted as an intent, acted on once, and the outcome persisted. */
    method Apply(run: Run, event: Event, world: World) returns (r: Outcome)
      requires Inv() && stored == Some(run) && Admits(run, event)
      modifies this
      ensures Inv()
      ensures stored.Some? && run.issued <= stored.value.issued && old(settled) <= settled
      ensures old(tried) <= tried
      ensures r.Continue? || r.Delivered? ==> stored == Some(r.run)
      ensures r.Continue? && reduce(run, event).value.effect.Some? ==>
                var id := reduce(run, event).value.effect.value.id; Applied(id) == 1 && id in settled
      ensures r.Delivered? ==> DeliveredNew(reduce(run, event).value, r.run, world)
      // Only an intent that was read back is acted on.
      ensures !Smooth(world.writes(run.revision)) ==> !r.Continue? && acts == old(acts) && tried == old(tried)
      ensures Smooth(world.writes(run.revision)) ==>
                var intent := reduce(run, event).value;
                && (intent.effect.None? ==> r == Continue(intent.next) && acts == old(acts) && tried == old(tried))
                && (intent.effect.Some? && world.lostBeforeAct(intent.effect.value.id) ==>
                      r == Lost && stored == Some(intent.next) && acts == old(acts) && tried == old(tried))
                && (intent.effect.Some? && !world.lostBeforeAct(intent.effect.value.id) ==>
                      tried == old(tried) + multiset{intent.effect.value.id})
      ensures Carried(run, event, world) ==> r.Continue?
    {
      var emitted := reduce(run, event).value.effect;
      var intent := PersistEvent(run, event, world.writes(run.revision));
      if !intent.Continue? || !emitted.Some? { return intent; }
      if world.lostBeforeAct(emitted.value.id) { return Lost; }
      var i := |intent.run.journal| - 1;
      assert LegalReduction(run, event, reduce(run, event).value);
      r := ActOnce(intent.run, i, emitted.value, world.act(emitted.value.id), world.writes(intent.run.revision));
    }

    /**
     The command's own event: reduced, admitted and applied. An effect the adapter does not admit is refused
     before anything is written. `prepared` is what the topology's planner makes of a controller event
     without a slot transition.
     */
    method Submit(run: Run, submitted: Event, prepared: Option<Event>, world: World) returns (r: Outcome)
      requires Inv() && stored == Some(run)
      modifies this
      ensures Inv()
      ensures stored.Some? && run.issued <= stored.value.issued && old(settled) <= settled
      ensures old(tried) <= tried
      ensures r.Continue? || r.Delivered? ==> stored == Some(r.run)
      ensures var event := if prepared.Some? then prepared.value else submitted;
              && (!Admits(run, event) ==> r.Stopped? && stored == old(stored) && settled == old(settled) && acts == old(acts) && tried == old(tried))
              && (r.Continue? && reduce(run, event).value.effect.Some? ==>
                    var id := reduce(run, event).value.effect.value.id; Applied(id) == 1 && id in settled)
              && (r.Delivered? ==> reduce(run, event).Some? && DeliveredNew(reduce(run, event).value, r.run, world))
              && (world.gate.refused ==> r == Stopped(Blocked))
              && (!world.gate.refused && submitted.expectedRevision != run.revision ==> r == Stopped(StaleStop) && stored == old(stored))
              && (!world.gate.refused && submitted.expectedRevision == run.revision && world.gate.prepare.Some? ==>
                    r == Stopped(world.gate.prepare.value) && stored == old(stored))
              // Nothing in the way, the command is applied.
              && (GoesThrough(run, submitted, event, world) ==> r.Continue?)
    {
      if world.gate.refused { return Stopped(Blocked); }
      if submitted.expectedRevision != run.revision { return Stopped(StaleStop); }
      if world.gate.prepare.Some? { return Stopped(world.gate.prepare.value); }
      var event := if prepared.Some? then prepared.value else submitted;
      var reduction := reduce(run, event);
      if !reduction.Some? { return Stopped(Blocked); }
      var emitted := reduction.value.effect;
      if emitted.Some? && !Recoverable(emitted.value) && !canExecute(emitted.value) { return Stopped(Blocked); }
      r := Apply(run, event, world);
    }

    /** Nothing of the command's own is in the way of its event, and the event goes through. */
    predicate GoesThrough(run: Run, submitted: Event, event: Event, world: World) {
      && !world.gate.refused && submitted.expectedRevision == run.revision && world.gate.prepare.None?
      && Carried(run, event, world)
    }

    /** Admitted, written, acted on, observed, and the observation taken and written. */
    predicate Carried(run: Run, event: Event, world: World) {
      && Admits(run, event) && Smooth(world.writes(run.revision))
      && var intent := reduce(run, event).value;
         (intent.effect.Some? && intent.next.journal != [] ==>
            && !world.lostBeforeAct(intent.effect.value.id)
            && ObservedAct(intent.next, |intent.next.journal| - 1, world.act(intent.effect.value.id), world.writes(intent.next.revision)))
    }

    /** The act takes effect and is observed, the reducer takes the observation and the store its write. */
    predicate ObservedAct(intent: Run, i: nat, acting: Acting, w: StoreWeather)
      requires i < |intent.journal|
    {
      && Reported(acting).Seen? && ObservationFor(intent, intent.journal[i], acting.says.event).Some?
      && reduce(intent, ObservationFor(intent, intent.journal[i], acting.says.event).value).Some? && Smooth(w)
    }

    /** A tool request delivered for the command's own effect: with a mark it is ambiguous one revision on, without it is the intent. */
    predicate DeliveredNew(intent: Reduction, now: Run, world: World) {
      && intent.effect.Some?
      && var said := Reported(world.act(intent.effect.value.id));
         && said.ToolRequest?
         && |intent.next.journal| > 0
         && if said.markAmbiguous then MarkedAmbiguous(intent.next, Some(now), |intent.next.journal| - 1) else now == intent.next
    }

    /**
     After the intent is durable: act, and persist what was seen. A tool request that must be marked is
     delivered only once the mark is stored; any other leaves the intent as it is.
     */
    method ActOnce(intent: Run, i: nat, effect: Effect, acting: Acting, w: StoreWeather) returns (r: Outcome)
      requires Inv() && stored == Some(intent) && i < |intent.journal|
      requires intent.journal[i] == Entry(effect.id, effect.kind, effect.slotTransition, Intended)
      requires Applied(effect.id) == 0
      requires Recoverable(effect) || canExecute(effect)
      modifies this
      ensures Inv()
      ensures stored.Some? && intent.issued <= stored.value.issued && old(settled) <= settled
      ensures old(tried) <= tried
      ensures r.Continue? || r.Delivered? ==> stored == Some(r.run)
      ensures r.Continue? ==> Applied(effect.id) == 1 && effect.id in settled
      ensures r.Delivered? ==> Reported(acting).ToolRequest?
      ensures Reported(acting) == ToolRequest(false) ==> r == Delivered(intent) && stored == old(stored)
      ensures Reported(acting) == ToolRequest(true) ==>
                && !r.Continue? && (stored == old(stored) || MarkedAmbiguous(intent, stored, i))
                && (r.Delivered? ==> MarkedAmbiguous(intent, Some(r.run), i))
      ensures Reported(acting).Unavailable? ==> r == Stopped(UnavailableStop) && stored == old(stored)
      ensures Reported(acting).LostMidway? ==> r == Lost && stored == old(stored)
      ensures Reported(acting).Unclear? || Reported(acting).Threw? ==>
                !r.Continue? && (stored == old(stored) || MarkedAmbiguous(intent, stored, i))
      ensures tried == old(tried) + multiset{effect.id}
      ensures r.Continue? <==> ObservedAct(intent, i, acting, w)
    {
      assert effect.id in Ids(intent.journal);
      var entry := intent.journal[i];
      var acted := Execute(effect, acting);
      if acted.LostMidway? { return Lost; }
      if acted.Unavailable? { return Stopped(UnavailableStop); }
      if acted.ToolRequest? {
        if !acted.markAmbiguous { return Delivered(intent); }
        r := DeliverMarked(intent, i, w);
        return;
      }
      var event := if acted.Seen? then ObservationFor(intent, entry, acted.event)
                   else Some(AmbiguousEvent(intent, entry, if acted.Unclear? then acted.hash else []));
      if event.None? { return Stopped(Corrupt); }
      var settled := PersistEntryEvent(intent, i, event.value, w);
      r := if settled.Continue? && !acted.Seen? then Stopped(AmbiguousStop) else settled;
    }

    /** The adapter's acknowledgement: like an observation, it is never an ambiguity event. */
    method Acknowledged(says: Answer) returns (answer: Answer)
      ensures answer == if says.Seen? && says.event.Ambiguity? then Unavailable else says
    {
      answer := says;
      if answer.Seen? && answer.event.Ambiguity? { answer := Unavailable; }
    }

    /** A host acknowledgement settles one journaled effect and acts on nothing. */
    method Acknowledge(run: Run, says: Answer, w: StoreWeather) returns (r: Outcome)
      requires Inv() && stored == Some(run)
      modifies this`stored, this`settled
      ensures Inv()
      ensures stored.Some? && run.issued <= stored.value.issued && old(settled) <= settled
      ensures r.Continue? || r.Delivered? ==> stored == Some(r.run)
      ensures r.Continue? ==> exists id :: IsOutstanding(run, id) && id !in old(settled) && settled == old(settled) + {id}
      ensures r.Delivered? <==> says.ToolRequest?
      ensures says.Unavailable? || (says.Seen? && says.event.Ambiguity?) ==> r == Stopped(UnavailableStop) && stored == old(stored)
      ensures says.Threw? ==> r == Stopped(AmbiguousStop) && stored == old(stored)
      ensures says.LostMidway? ==> r == Lost && stored == old(stored)
      ensures says.Absent? || says.Unclear? ==> r == Stopped(Blocked) && stored == old(stored)
      ensures r.Delivered? ==> r.run == run && stored == old(stored) && settled == old(settled)
    {
      var answer := Acknowledged(says);
      if answer.Unavailable? { return Stopped(UnavailableStop); }
      if answer.ToolRequest? { return Delivered(run); }
      if answer.Threw? { return Stopped(AmbiguousStop); }
      if answer.LostMidway? { return Lost; }
      if !answer.Seen? || answer.event.Command? { return Stopped(Blocked); }
      if answer.event.effectId !in Ids(run.journal) { return Stopped(Blocked); }
      var i :| 0 <= i < |run.journal| && run.journal[i].id == answer.event.effectId;
      var event := ObservationFor(run, run.journal[i], answer.event);
      if event.None? { return Stopped(Corrupt); }
      r := PersistEvent(run, event.value, w);
    }

    /**
     Bootstrap of absent rows: the one write that is believed on the store's own answer, and that writes
     nothing but the first controller_acquire intent.
     */
    method Bootstrap(event: Event, w: StoreWeather) returns (r: Outcome)
      requires Inv() && stored == None
      modifies this`stored
      ensures Inv() && !r.Delivered?
      ensures stored.Some? ==>
                && stored.value.revision == 1 && |stored.value.journal| == 1 && stored.value.issued == Ids(stored.value.journal)
                && stored.value.journal[0].kind == ControllerAcquire && stored.value.journal[0].status == Intended
      ensures r.Continue? ==> stored == Some(r.run)
      ensures initialRun.None? ==> r == Stopped(Uninitialized) && stored == None
      ensures stored.Some? ==> w.lands && !w.lostBefore && initialRun.Some? && reduce(initialRun.value, event).Some?
                               && stored == Some(reduce(initialRun.value, event).value.next)
      ensures initialRun.Some? && Acquires(initialRun.value, event) ==>
                && (stored.Some? <==> w.lands && !w.lostBefore)
                && (r.Continue? <==> w.lands && !w.lostBefore && !w.lostAfter && w.refusal.None? && w.answered)
    {
      if initialRun.None? { return Stopped(Uninitialized); }
      var initial := initialRun.value;
      if !event.Command? || event.expectedRevision != initial.revision { return Stopped(Corrupt); }
      var reduction := reduce(initial, event);
      if reduction.None? { return Stopped(Corrupt); }
      var next := reduction.value.next;
      if initial.revision != 0 || initial.issued != {} { return Stopped(Corrupt); }
      if |next.journal| != |initial.journal| + 1 || next.journal[|initial.journal|].kind != ControllerAcquire {
        return Stopped(Corrupt);
      }
      if next.revision != 1 || |next.journal| != 1 || next.journal[0].status != Intended || !next.journal[0].slotTransition {
        return Stopped(Corrupt);
      }
      if w.lostBefore { return Lost; }
      if w.lands { stored := Some(next); }
      if w.lostAfter { return Lost; }
      if w.refusal.Some? { return Stopped(w.refusal.value); }
      if !w.lands || !w.answered { return Stopped(Quarantined); }
      r := Continue(next);
    }

    /** The first event takes a fresh run to its first revision with one controller_acquire intent. */
    predicate Acquires(initial: Run, event: Event) {
      && event.Command? && event.expectedRevision == initial.revision == 0 && initial.issued == {} && initial.journal == []
      && reduce(initial, event).Some?
      && var next := reduce(initial, event).value.next;
         next.revision == 1 && |next.journal| == 1 && next.journal[0].kind == ControllerAcquire
         && next.journal[0].status == Intended && next.journal[0].slotTransition
    }

    lemma OldDelivery(run: Run, now: Run, stateQuery: bool, world: World)
      requires exists i :: DeliveredFor(run, now, i, stateQuery, world)
      ensures exists id :: DeliveredIn(now, world, id)
    {
      var i :| DeliveredFor(run, now, i, stateQuery, world);
      assert Outstanding(now.journal[i]);
      assert DeliveredIn(now, world, run.journal[i].id);
    }

    lemma NewDelivery(run: Run, event: Event, now: Run, world: World)
      requires ReducerOk(reduce) && reduce(run, event).Some? && DeliveredNew(reduce(run, event).value, now, world)
      ensures exists id :: DeliveredIn(now, world, id)
    {
      var intent := reduce(run, event).value;
      var k := |intent.next.journal| - 1;
      assert LegalReduction(run, event, intent);
      assert event.Command? && intent.next.journal[k] == Emitted(intent.effect)[0];
      assert now.journal[k].id == intent.effect.value.id && Outstanding(now.journal[k]);
      assert DeliveredIn(now, world, intent.effect.value.id);
    }

    /** A delivered tool request is one the adapter made of an effect outstanding in the store, marked if it asked for it. */
    predicate DeliveredIn(now: Run, world: World, id: Text) {
      && IsOutstanding(now, id)
      && (|| (world.discover(id).ToolRequest? && (world.discover(id).markAmbiguous ==> HasStatus(now, id, Ambiguous)))
          || (Reported(world.act(id)).ToolRequest?
              && HasStatus(now, id, if Reported(world.act(id)).markAmbiguous then Ambiguous else Intended)))
    }

    /** What turns a command away before anything of the store is looked at. */
    function Barred(gate: Gate): Option<Stop> {
      if !gate.proven then Some(UnavailableStop) else if gate.held then Some(Held) else gate.load
    }

    /** recoverAndRun, under the operation lock; `plan` and `prepared` are what the planners answer when they plan. */
    method RecoverAndRun(request: Option<Request>, asksState: bool, plan: Event, prepared: Option<Event>, world: World) returns (r: Outcome)
      requires Inv()
      modifies this
      ensures Inv()
      ensures old(stored).Some? ==> stored.Some? && old(stored).value.issued <= stored.value.issued
      ensures old(settled) <= settled && old(tried) <= tried
      ensures r.Continue? || r.Delivered? ==> stored == Some(r.run)
      ensures r.Delivered? && request != Some(Acknowledgement) ==> exists id :: DeliveredIn(r.run, world, id)
      ensures Barred(world.gate).Some? ==> r == Stopped(Barred(world.gate).value) && stored == old(stored) && tried == old(tried)
      ensures Barred(world.gate).None? && old(stored).None? && (request.None? || !request.value.Ordinary?) ==> r == Stopped(Uninitialized) && stored == None
      ensures Barred(world.gate).None? && old(stored).Some? && world.gate.invalid.Some? ==>
                r == Stopped(world.gate.invalid.value) && stored == old(stored) && tried == old(tried)
      ensures old(stored).Some? && request.Some? && request.value.RawRefusal? ==> r.Stopped? && stored == old(stored) && tried == old(tried)
      ensures r.Delivered? && request == Some(Acknowledgement) ==> world.acknowledge.ToolRequest? && stored == old(stored)
      ensures old(stored).Some? && r.Continue? && !(asksState && request.None?) && (request.None? || request.value.Ordinary? || request.value.CarryClaim?) ==>
                forall i :: 0 <= i < |old(stored).value.journal| && Outstanding(old(stored).value.journal[i]) ==>
                  old(stored).value.journal[i].id in settled
      ensures old(stored).Some? && asksState && request.None? ==>
                && |stored.value.journal| == |old(stored).value.journal|
                && forall i :: 0 <= i < |stored.value.journal| && old(stored).value.journal[i].status == Intended
                               && stored.value.journal[i].status == Ambiguous ==>
                  tried[old(stored).value.journal[i].id] > old(tried)[old(stored).value.journal[i].id]
      // A quiet run is handed back as it is, and takes an ordinary command that nothing is in the way of.
      ensures old(stored).Some? && Quiet(old(stored).value) && Barred(world.gate).None? && world.gate.invalid.None? ==>
                && (request.None? ==> r == Continue(old(stored).value) && stored == old(stored) && acts == old(acts) && tried == old(tried))
                && (request.Some? && request.value.Ordinary?
                    && GoesThrough(old(stored).value, request.value.event, if prepared.Some? then prepared.value else request.value.event, world) ==>
                      r.Continue?)
    {
      var stateQuery := asksState && request.None?;
      if !world.gate.proven { return Stopped(UnavailableStop); }
      if world.gate.held { return Stopped(Held); }
      if world.gate.load.Some? { return Stopped(world.gate.load.value); }
      if stored.None? {
        if request.None? || !request.value.Ordinary? { return Stopped(Uninitialized); }
        var created := Bootstrap(request.value.event, world.writes(0));
        if !created.Continue? { return created; }
        if world.gate.invalid.Some? { return Stopped(world.gate.invalid.value); }
        r := Reconcile(created.run, stateQuery, world);
        if r.Delivered? { OldDelivery(created.run, r.run, stateQuery, world); }
        return;
      }
      if world.gate.invalid.Some? { return Stopped(world.gate.invalid.value); }
      var run := stored.value;
      var reconciled := Continue(run);
      if request.None? || request.value.Ordinary? || request.value.CarryClaim? {
        reconciled := Reconcile(run, stateQuery, world);
        if reconciled.Delivered? { OldDelivery(run, reconciled.run, stateQuery, world); }
      }
      if !reconciled.Continue? || request.None? { return reconciled; }
      if request.value.Acknowledgement? {
        r := Acknowledge(reconciled.run, world.acknowledge, world.writes(reconciled.run.revision));
      } else if request.value.RawRefusal? {
        r := Stopped(Blocked);
      } else {
        if !request.value.Ordinary? && world.gate.plan.Some? { return Stopped(world.gate.plan.value); }
        var event := if request.value.Ordinary? then request.value.event else plan;
        r := Submit(reconciled.run, event, prepared, world);
        if r.Delivered? { NewDelivery(reconciled.run, if prepared.Some? then prepared.value else event, r.run, world); }
      }
    }

    /**
     Any history of commands, each of which may be lost anywhere: no external act is ever applied twice,
     every applied act was journaled, and an effect stays outstanding until its own observation lands.
     */
    method History(requests: seq<(Option<Request>, bool, Event, Option<Event>, World)>)
      requires Inv()
      modifies this
      ensures Inv() && old(settled) <= settled
      ensures forall id :: Applied(id) <= 1
      ensures forall id :: Applied(id) == 1 ==> JournaledOutstanding(id) || id in settled
      ensures old(stored).Some? ==> stored.Some? && forall id :: id in old(stored).value.issued ==> JournaledOutstanding(id) || id in settled
    {
      for k := 0 to |requests|
        invariant Inv() && old(settled) <= settled
        invariant old(stored).Some? ==> stored.Some? && old(stored).value.issued <= stored.value.issued
      {
        var outcome := RecoverAndRun(requests[k].0, requests[k].1, requests[k].2, requests[k].3, requests[k].4);
      }
    }
  }
}

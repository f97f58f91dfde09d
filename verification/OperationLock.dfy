/**
 The operation lock (src/fencing/operation-lock.ts) as a state machine whose steps are the file-system
 calls of `acquire` and `release`, interleaved in any order by any number of processes, each of which
 may crash between any two of them.

 A captured inode is re-checked and unlinked in one step, inode identities are never reused, and
 binding and listening are one step. A crash closes the process's server and leaves the files.
 */
module OperationLock {
  import opened Wrappers

  const MAX_ACQUIRE_ATTEMPTS := 4

  type Pid = nat
  type Inode = nat

  /** The socket file; `ready` once its mode is 0600, without which a capture is invalid. */
  datatype Socket = Socket(inode: Inode, ready: bool)

  /** The state file; created exclusively and then filled, invalid to a capture in between. */
  datatype File = File(inode: Inode, complete: bool)

  datatype Status = Acquired | Held | Quarantined | Unavailable | Released | HolderMismatch

  /** Where a process is; the comment names the call it makes next. */
  datatype Phase =
    | Idle
    | CaptureSocket(attempt: nat)
    | CaptureState(attempt: nat, found: Option<Inode>)
    | Probe(attempt: nat, socket: Inode, stale: Option<Inode>)
    | DropSocket(attempt: nat, socket: Inode, stale: Option<Inode>)
    | DropState(attempt: nat, file: Inode)
    | Bind(attempt: nat)
    | Chmod(own: Inode)
    | CaptureOwn(own: Inode)
    | CreateState(own: Inode, socket: Inode)
    | FillState(own: Inode, socket: Inode, created: Inode)
    | CaptureWritten(own: Inode, socket: Inode)
    | Abandon(own: Inode, found: Option<Inode>)
    | AbandonSocket(socket: Inode)
    | Holding(own: Inode, socket: Inode, file: Inode)
    | RecaptureSocket(own: Inode, socket: Inode, file: Inode)
    | RecaptureState(own: Inode, socket: Inode, file: Inode, seen: Option<Inode>)
    | Close(own: Inode, socket: Inode, file: Inode)
    | ReleaseSocket(socket: Inode, file: Inode)
    | ReleaseState(file: Inode)
    | Refused(own: Inode, status: Status)
    | Done(answer: Status)

  /** Go is the ordinary outcome of a call; Odd and Fail are whatever else the call may do. */
  datatype Choice = Go | Odd | Fail | Crash

  /** What the processes share: the two paths, the sockets with a listening server, the next inode. */
  datatype Files = Files(socket: Option<Socket>, file: Option<File>, live: set<Inode>, nextInode: Inode)

  datatype State = State(files: Files, procs: map<Pid, Phase>)

  function PhaseOf(s: State, p: Pid): Phase {
    if p in s.procs then s.procs[p] else Idle
  }

  /** The socket this process has bound and not closed. */
  function Owned(phase: Phase): Option<Inode> {
    match phase
    case Chmod(own) => Some(own)
    case CaptureOwn(own) => Some(own)
    case CreateState(own, _) => Some(own)
    case FillState(own, _, _) => Some(own)
    case CaptureWritten(own, _) => Some(own)
    case Abandon(own, _) => Some(own)
    case Holding(own, _, _) => Some(own)
    case RecaptureSocket(own, _, _) => Some(own)
    case RecaptureState(own, _, _, _) => Some(own)
    case Close(own, _, _) => Some(own)
    case Refused(own, _) => Some(own)
    case _ => None
  }

  /** A socket inode the process is about to unlink: its probe failed, or the process closed it. */
  function Condemned(phase: Phase): Option<Inode> {
    match phase
    case DropSocket(_, socket, _) => Some(socket)
    case AbandonSocket(socket) => Some(socket)
    case ReleaseSocket(socket, _) => Some(socket)
    case _ => None
  }

  /** A socket inode the process has captured but not probed. */
  function Captured(phase: Phase): Option<Inode> {
    match phase
    case CaptureState(_, socket) => socket
    case Probe(_, socket, _) => Some(socket)
    case CreateState(_, socket) => Some(socket)
    case FillState(_, socket, _) => Some(socket)
    case CaptureWritten(_, socket) => Some(socket)
    case Abandon(_, socket) => socket
    case Holding(_, socket, _) => Some(socket)
    case RecaptureSocket(_, socket, _) => Some(socket)
    case RecaptureState(_, socket, _, _) => Some(socket)
    case Close(_, socket, _) => Some(socket)
    case _ => None
  }

  function Retry(attempt: nat): Phase {
    if attempt + 1 < MAX_ACQUIRE_ATTEMPTS then CaptureSocket(attempt + 1) else Done(Unavailable)
  }

  /** removeSocket: revalidate the inode at the path and unlink it, in one step. */
  function UnlinkSocket(f: Files, expected: Inode): Files {
    if f.socket == Some(Socket(expected, true)) then f.(socket := None) else f
  }

  /** Why removeSocket refuses, if it does. */
  function SocketChanged(f: Files, expected: Inode): Option<Status> {
    if f.socket.None? then None
    else if !f.socket.value.ready then Some(Quarantined)
    else if f.socket.value.inode != expected then Some(Unavailable)
    else None
  }

  function UnlinkState(f: Files, expected: Inode): Files {
    if f.file == Some(File(expected, true)) then f.(file := None) else f
  }

  function StateChanged(f: Files, expected: Inode): Option<Status> {
    if f.file.None? then None
    else if !f.file.value.complete then Some(Quarantined)
    else if f.file.value.inode != expected then Some(Unavailable)
    else None
  }

  /** A removal takes exactly the expected, finished file off its path, and says why not of any other. */
  lemma RemovalsAreExact(f: Files, expected: Inode)
    ensures UnlinkSocket(f, expected) != f <==> f.socket == Some(Socket(expected, true))
    ensures SocketChanged(f, expected).None? <==> UnlinkSocket(f, expected).socket.None?
    ensures SocketChanged(f, expected) == Some(Quarantined) <==> exists i :: f.socket == Some(Socket(i, false))
    ensures SocketChanged(f, expected) == Some(Unavailable) <==> exists i :: i != expected && f.socket == Some(Socket(i, true))
    ensures UnlinkState(f, expected) != f <==> f.file == Some(File(expected, true))
    ensures StateChanged(f, expected).None? <==> UnlinkState(f, expected).file.None?
    ensures StateChanged(f, expected) == Some(Quarantined) <==> exists i :: f.file == Some(File(i, false))
    ensures StateChanged(f, expected) == Some(Unavailable) <==> exists i :: i != expected && f.file == Some(File(i, true))
  {
    if f.socket.Some? { assert f.socket == Some(Socket(f.socket.value.inode, f.socket.value.ready)); }
    if f.file.Some? { assert f.file == Some(File(f.file.value.inode, f.file.value.complete)); }
  }

  /** server.close(): the kernel stops listening, and the runtime may also unlink the path by name. */
  function Closed(f: Files, own: Inode, unlinks: bool): Files {
    f.(live := f.live - {own}, socket := if unlinks then None else f.socket)
  }

  function SocketInode(f: Files): Option<Inode> {
    if f.socket.Some? then Some(f.socket.value.inode) else None
  }

  function FileInode(f: Files): Option<Inode> {
    if f.file.Some? then Some(f.file.value.inode) else None
  }

  /** What a call does to the files. */
  function Touched(f: Files, phase: Phase, c: Choice): Files {
    if c == Crash then
      if Owned(phase).Some? then f.(live := f.live - {Owned(phase).value}) else f
    else
      match phase
      case DropSocket(_, socket, _) => UnlinkSocket(f, socket)
      case AbandonSocket(socket) => UnlinkSocket(f, socket)
      case ReleaseSocket(socket, _) => UnlinkSocket(f, socket)
      case DropState(_, file) => UnlinkState(f, file)
      case ReleaseState(file) => UnlinkState(f, file)
      case Bind(_) =>
        if f.socket.Some? || c == Odd then f
        else Files(Some(Socket(f.nextInode, false)), f.file, f.live + {f.nextInode}, f.nextInode + 1)
      case Chmod(_) => if c == Odd || f.socket.None? then f else f.(socket := Some(f.socket.value.(ready := true)))
      case CreateState(_, _) =>
        if c == Odd || f.file.Some? then f else f.(file := Some(File(f.nextInode, false)), nextInode := f.nextInode + 1)
      case FillState(_, _, created) =>
        if c == Go && f.file == Some(File(created, false)) then f.(file := Some(File(created, true))) else f
      case Abandon(own, _) => Closed(f, own, c == Odd)
      case Close(own, _, _) => if c == Fail then f else Closed(f, own, c == Odd)
      case _ => f
  }

  /** Where the call leaves the process, by what it finds. */
  function Next(f: Files, phase: Phase, c: Choice): Phase {
    if c == Crash then Idle
    else
      match phase
      case Idle => CaptureSocket(0)
      case Done(_) => Idle
      case CaptureSocket(attempt) =>
        if f.socket.Some? && !f.socket.value.ready then Done(Quarantined)
        else CaptureState(attempt, SocketInode(f))
      case CaptureState(attempt, found) =>
        if f.file.Some? && !f.file.value.complete then Done(Quarantined)
        else if found.Some? then Probe(attempt, found.value, FileInode(f))
        else if f.file.Some? then DropState(attempt, f.file.value.inode)
        else Bind(attempt)
      case Probe(attempt, socket, stale) =>
        if c == Odd then Done(Unavailable)
        else if f.socket.Some? && f.socket.value.inode in f.live then Done(Held)
        else DropSocket(attempt, socket, stale)
      case DropSocket(attempt, socket, stale) =>
        var changed := SocketChanged(f, socket);
        if changed.Some? then Done(changed.value)
        else if c == Odd then Done(Unavailable)
        else if stale.Some? then DropState(attempt, stale.value) else Retry(attempt)
      case DropState(attempt, file) =>
        var changed := StateChanged(f, file);
        if changed.Some? then Done(changed.value) else if c == Odd then Done(Unavailable) else Retry(attempt)
      case Bind(attempt) =>
        if f.socket.Some? then Retry(attempt) else if c == Odd then Done(Unavailable) else Chmod(f.nextInode)
      case Chmod(own) => if c == Odd || f.socket.None? then Abandon(own, None) else CaptureOwn(own)
      case CaptureOwn(own) =>
        if f.socket.None? || !f.socket.value.ready then Abandon(own, None) else CreateState(own, f.socket.value.inode)
      case CreateState(own, socket) =>
        if c == Odd || f.file.Some? then Abandon(own, Some(socket)) else FillState(own, socket, f.nextInode)
      case FillState(own, socket, created) => if c == Go then CaptureWritten(own, socket) else Abandon(own, Some(socket))
      case CaptureWritten(own, socket) =>
        if f.file.None? || !f.file.value.complete then Abandon(own, Some(socket)) else Holding(own, socket, f.file.value.inode)
      case Abandon(_, found) => if found.Some? then AbandonSocket(found.value) else Done(Quarantined)
      case AbandonSocket(socket) => Done(if SocketChanged(f, socket) == Some(Quarantined) then Quarantined else Unavailable)
      case Holding(own, socket, file) => RecaptureSocket(own, socket, file)
      case RecaptureSocket(own, socket, file) =>
        if f.socket.Some? && !f.socket.value.ready then Refused(own, Quarantined) else RecaptureState(own, socket, file, SocketInode(f))
      case RecaptureState(own, socket, file, seen) =>
        if f.file.Some? && !f.file.value.complete then Refused(own, Quarantined)
        else if seen == Some(socket) && f.file == Some(File(file, true)) then Close(own, socket, file)
        else Refused(own, HolderMismatch)
      case Close(own, socket, file) => if c == Fail then Refused(own, Unavailable) else ReleaseSocket(socket, file)
      case ReleaseSocket(socket, file) =>
        var changed := SocketChanged(f, socket);
        if changed.Some? then Done(if changed == Some(Quarantined) then Quarantined else HolderMismatch)
        else if c == Odd then Done(HolderMismatch) else ReleaseState(file)
      case ReleaseState(file) =>
        var changed := StateChanged(f, file);
        if changed.Some? then Done(if changed == Some(Quarantined) then Quarantined else HolderMismatch)
        else if c == Odd then Done(HolderMismatch) else Done(Released)
      case Refused(own, status) => Refused(own, status)
  }

  function Step(s: State, p: Pid, c: Choice): State {
    State(Touched(s.files, PhaseOf(s, p), c), s.procs[p := Next(s.files, PhaseOf(s, p), c)])
  }

  const EMPTY: State := State(Files(None, None, {}, 0), map[])

  /** A behaviour: any schedule of any processes, from an empty lock directory. */
  function Run(schedule: seq<(Pid, Choice)>): State {
    if schedule == [] then EMPTY
    else
      var n := |schedule| - 1;
      Step(Run(schedule[..n]), schedule[n].0, schedule[n].1)
  }

  // ---------------------------------------------------------------- the invariant

  /** A live socket is at the path, and every inode in sight was issued. */
  predicate FilesOk(f: Files) {
    && (forall i :: i in f.live ==> f.socket.Some? && f.socket.value.inode == i)
    && (f.socket.Some? ==> f.socket.value.inode < f.nextInode)
  }

  /** What is true of one process's own knowledge. */
  predicate Sound(f: Files, phase: Phase) {
    && (Owned(phase).Some? ==> Owned(phase).value in f.live)
    && (Condemned(phase).Some? ==> Condemned(phase).value !in f.live && Condemned(phase).value < f.nextInode)
    && (Captured(phase).Some? ==> Captured(phase).value < f.nextInode)
    && (Owned(phase).Some? && Captured(phase).Some? ==>
          Captured(phase) == Owned(phase) && f.socket == Some(Socket(Owned(phase).value, true)))
  }

  predicate Owns(s: State, p: Pid) {
    Owned(PhaseOf(s, p)).Some?
  }

  ghost predicate Inv(s: State) {
    && FilesOk(s.files)
    && (forall p :: Sound(s.files, PhaseOf(s, p)))
    && (forall p, q :: Owns(s, p) && Owns(s, q) ==> p == q)
  }

  lemma CallKeepsFiles(f: Files, phase: Phase, c: Choice)
    requires FilesOk(f) && Sound(f, phase)
    ensures FilesOk(Touched(f, phase, c))
  {
  }

  lemma CallKeepsItself(f: Files, phase: Phase, c: Choice)
    requires FilesOk(f) && Sound(f, phase)
    ensures Sound(Touched(f, phase, c), Next(f, phase, c))
  {
    var next := Next(f, phase, c);
    assert Owned(next).Some? ==> phase.Bind? || Owned(phase) == Owned(next);
    assert Condemned(next).Some? ==> phase.Probe? || phase.Abandon? || phase.Close?;
  }

  /** No call of one process spoils what another knows, if they do not both own a live socket. */
  lemma CallKeepsOthers(f: Files, phase: Phase, c: Choice, other: Phase)
    requires FilesOk(f) && Sound(f, phase) && Sound(f, other)
    requires !(Owned(phase).Some? && Owned(other).Some?)
    ensures Sound(Touched(f, phase, c), other)
  {
  }

  /** A process comes to own a socket only by binding a path at which nothing is live. */
  lemma OwnershipIsNew(f: Files, phase: Phase, c: Choice, other: Phase)
    requires FilesOk(f) && Sound(f, other) && Owned(phase).None? && Owned(Next(f, phase, c)).Some?
    ensures Owned(other).None?
  {
  }

  lemma StepKeepsInv(s: State, p: Pid, c: Choice)
    requires Inv(s)
    ensures Inv(Step(s, p, c))
  {
    var t, phase := Step(s, p, c), PhaseOf(s, p);
    CallKeepsFiles(s.files, phase, c);
    forall q
      ensures Sound(t.files, PhaseOf(t, q))
    {
      if q == p {
        CallKeepsItself(s.files, phase, c);
      } else {
        assert Owns(s, p) && Owns(s, q) ==> p == q;
        CallKeepsOthers(s.files, phase, c, PhaseOf(s, q));
      }
    }
    forall q | Owns(t, p) && Owns(t, q)
      ensures p == q
    {
      if q != p {
        assert Owns(s, q) && PhaseOf(t, q) == PhaseOf(s, q);
        assert !Owns(s, p);
        OwnershipIsNew(s.files, phase, c, PhaseOf(s, q));
      }
    }
    forall q, r | q != p && r != p && Owns(t, q) && Owns(t, r)
      ensures q == r
    {
      assert Owns(s, q) && Owns(s, r);
    }
  }

  lemma {:induction false} RunKeepsInv(schedule: seq<(Pid, Choice)>)
    ensures Inv(Run(schedule))
  {
    if schedule != [] {
      var n := |schedule| - 1;
      RunKeepsInv(schedule[..n]);
      StepKeepsInv(Run(schedule[..n]), schedule[n].0, schedule[n].1);
    }
  }

  /** In the lock: acquire has returned it and the socket is not closed yet. */
  predicate Holds(phase: Phase) {
    phase.Holding? || phase.RecaptureSocket? || phase.RecaptureState? || phase.Close? || phase.Refused?
  }

  /**
   Mutual exclusion, whatever the schedule and wherever processes crash: at most one process holds the
   lock, and its own socket is live at the path all the while.
   */
  lemma MutualExclusion(schedule: seq<(Pid, Choice)>, p: Pid, q: Pid)
    requires Holds(PhaseOf(Run(schedule), p))
    ensures Holds(PhaseOf(Run(schedule), q)) ==> p == q
    ensures var f := Run(schedule).files;
            f.socket.Some? && f.live == {f.socket.value.inode} && Owned(PhaseOf(Run(schedule), p)) == Some(f.socket.value.inode)
  {
    RunKeepsInv(schedule);
    var s := Run(schedule);
    assert Sound(s.files, PhaseOf(s, p));
    assert Owns(s, p);
    if Holds(PhaseOf(s, q)) { assert Owns(s, q); }
  }

  /** No call, of any process in any reachable state, takes a live socket it does not own off the path. */
  lemma NoForeignSocketIsUnlinked(schedule: seq<(Pid, Choice)>, p: Pid, c: Choice)
    ensures var f, g := Run(schedule).files, Touched(Run(schedule).files, PhaseOf(Run(schedule), p), c);
            f.socket.Some? && f.socket.value.inode in f.live && SocketInode(g) != SocketInode(f) ==>
              Owned(PhaseOf(Run(schedule), p)) == SocketInode(f)
  {
    RunKeepsInv(schedule);
    assert Sound(Run(schedule).files, PhaseOf(Run(schedule), p));
  }

  // ---------------------------------------------------------------- one process on its own

  /** n ordinary calls of p with nobody interfering. */
  function Alone(s: State, p: Pid, n: nat): State
    decreases n
  {
    if n == 0 then s else Alone(Step(s, p, Go), p, n - 1)
  }

  lemma {:induction false} AloneAgain(s: State, p: Pid, m: nat, n: nat)
    ensures Alone(s, p, m + n) == Alone(Alone(s, p, m), p, n)
    decreases m
  {
    if m > 0 {
      AloneAgain(Step(s, p, Go), p, m - 1, n);
    }
  }

  lemma AloneTwo(s: State, p: Pid)
    ensures Alone(s, p, 1) == Step(s, p, Go)
    ensures Alone(s, p, 2) == Step(Step(s, p, Go), p, Go)
  {
    assert Alone(s, p, 2) == Alone(Step(s, p, Go), p, 1);
  }

  predicate OthersStay(s: State, t: State, p: Pid) {
    t.procs.Keys == s.procs.Keys + {p} && forall q :: q in s.procs && q != p ==> t.procs[q] == s.procs[q]
  }

  lemma StepLeavesOthers(s: State, p: Pid, c: Choice)
    ensures OthersStay(s, Step(s, p, c), p)
  {
  }

  lemma {:induction false} AloneLeavesOthers(s: State, p: Pid, n: nat)
    requires n > 0
    ensures OthersStay(s, Alone(s, p, n), p)
    decreases n
  {
    StepLeavesOthers(s, p, Go);
    if n > 1 { AloneLeavesOthers(Step(s, p, Go), p, n - 1); }
  }

  lemma CleanBind(s: State, p: Pid, attempt: nat)
    requires PhaseOf(s, p) == CaptureSocket(attempt) && s.files.socket.None? && s.files.file.None?
    ensures var i, t := s.files.nextInode, Alone(s, p, 4);
            && PhaseOf(t, p) == CaptureOwn(i)
            && t.files == Files(Some(Socket(i, true)), None, s.files.live + {i}, i + 1)
  {
    var s2 := Alone(s, p, 2);
    AloneTwo(s, p);
    assert PhaseOf(Step(s, p, Go), p) == CaptureState(attempt, None);
    assert PhaseOf(s2, p) == Bind(attempt) && s2.files == s.files;
    AloneFour(s, p);
    assert PhaseOf(Alone(s, p, 3), p) == Chmod(s.files.nextInode);
  }

  lemma CleanWrite(s: State, p: Pid, own: Inode)
    requires PhaseOf(s, p) == CaptureOwn(own) && s.files.socket == Some(Socket(own, true)) && s.files.file.None?
    ensures var i, t := s.files.nextInode, Alone(s, p, 4);
            && PhaseOf(t, p) == Holding(own, own, i)
            && t.files == s.files.(file := Some(File(i, true)), nextInode := i + 1)
  {
    AloneTwo(s, p);
    assert PhaseOf(Step(s, p, Go), p) == CreateState(own, own);
    assert PhaseOf(Alone(s, p, 2), p) == FillState(own, own, s.files.nextInode);
    AloneFour(s, p);
    assert PhaseOf(Alone(s, p, 3), p) == CaptureWritten(own, own);
  }

  /** From an empty directory an undisturbed acquire succeeds in eight calls. */
  lemma CleanAcquire(s: State, p: Pid, attempt: nat)
    requires PhaseOf(s, p) == CaptureSocket(attempt) && s.files.socket.None? && s.files.file.None?
    ensures var i, t := s.files.nextInode, Alone(s, p, 8);
            && PhaseOf(t, p) == Holding(i, i, i + 1)
            && t.files == Files(Some(Socket(i, true)), Some(File(i + 1, true)), s.files.live + {i}, i + 2)
            && OthersStay(s, t, p)
  {
    CleanBind(s, p, attempt);
    CleanWrite(Alone(s, p, 4), p, s.files.nextInode);
    AloneAgain(s, p, 4, 4);
    AloneLeavesOthers(s, p, 8);
  }

  /** What a crash can leave behind that no later acquire clears. */
  predicate LeftUnfinished(f: Files) {
    (f.socket.Some? && !f.socket.value.ready) || (f.file.Some? && !f.file.value.complete)
  }

  lemma AloneFour(s: State, p: Pid)
    ensures Alone(s, p, 3) == Step(Alone(s, p, 2), p, Go)
    ensures Alone(s, p, 4) == Step(Alone(s, p, 3), p, Go)
  {
    AloneAgain(s, p, 2, 1);
    AloneAgain(s, p, 3, 1);
    AloneTwo(Alone(s, p, 2), p);
    AloneTwo(Alone(s, p, 3), p);
  }

  lemma AloneSix(s: State, p: Pid)
    ensures Alone(s, p, 5) == Step(Alone(s, p, 4), p, Go)
    ensures Alone(s, p, 6) == Step(Alone(s, p, 5), p, Go)
  {
    AloneAgain(s, p, 4, 1);
    AloneAgain(s, p, 5, 1);
    AloneTwo(Alone(s, p, 4), p);
    AloneTwo(Alone(s, p, 5), p);
  }

  /** An undisturbed acquire clears whatever finished files a crash left, within one attempt. */
  lemma LeftoversAreCleared(s: State, p: Pid) returns (k: nat, attempt: nat)
    requires PhaseOf(s, p) == Idle && s.files.live == {} && !LeftUnfinished(s.files)
    ensures PhaseOf(Alone(s, p, k), p) == CaptureSocket(attempt)
    ensures Alone(s, p, k).files == s.files.(socket := None, file := None)
  {
    AloneTwo(s, p);
    AloneFour(s, p);
    AloneSix(s, p);
    if s.files.socket.None? {
      if s.files.file.None? {
        k, attempt := 1, 0;
      } else {
        k, attempt := 4, 1;
        assert PhaseOf(Alone(s, p, 3), p) == DropState(0, s.files.file.value.inode);
      }
    } else {
      assert PhaseOf(Alone(s, p, 4), p) == DropSocket(0, s.files.socket.value.inode, FileInode(s.files));
      k, attempt := if s.files.file.None? then 5 else 6, 1;
    }
  }

  lemma {:induction false} UnfinishedIsForever(s: State, p: Pid, n: nat)
    requires LeftUnfinished(s.files)
    requires
      || PhaseOf(s, p) in {Idle, CaptureSocket(0), Done(Quarantined)}
      || (PhaseOf(s, p) == CaptureState(0, SocketInode(s.files)) && s.files.file.Some? && !s.files.file.value.complete)
    ensures !PhaseOf(Alone(s, p, n), p).Holding? && Alone(s, p, n).files == s.files
    decreases n
  {
    if n > 0 {
      UnfinishedIsForever(Step(s, p, Go), p, n - 1);
    }
  }

  /** What a crash left unfinished is answered at the first capture that meets it. */
  lemma UnfinishedIsQuarantined(s: State, p: Pid)
    requires LeftUnfinished(s.files) && PhaseOf(s, p) == Idle
    ensures PhaseOf(Alone(s, p, if s.files.socket.Some? && !s.files.socket.value.ready then 2 else 3), p) == Done(Quarantined)
  {
    AloneTwo(s, p);
    AloneFour(s, p);
  }

  /** An undisturbed acquire that meets a live socket answers held, and touches nothing. */
  lemma HeldByALiveSocket(s: State, p: Pid)
    requires Inv(s) && PhaseOf(s, p) == Idle && s.files.live != {} && !LeftUnfinished(s.files)
    ensures PhaseOf(Alone(s, p, 4), p) == Done(Held) && Alone(s, p, 4).files == s.files
  {
    AloneTwo(s, p);
    AloneFour(s, p);
    var i :| i in s.files.live;
    assert PhaseOf(Alone(s, p, 3), p) == Probe(0, i, FileInode(s.files));
  }

  lemma HeldAnswer(f: Files, phase: Phase, c: Choice)
    ensures Next(f, phase, c) == Done(Held) <==>
            phase.Probe? && c in {Go, Fail} && f.socket.Some? && f.socket.value.inode in f.live
  {
  }

  /** Held is answered exactly by a probe that finds a live socket at the path. */
  lemma HeldIsTruthful(schedule: seq<(Pid, Choice)>, p: Pid, c: Choice)
    ensures var s := Run(schedule);
            Next(s.files, PhaseOf(s, p), c) == Done(Held) <==>
              PhaseOf(s, p).Probe? && c in {Go, Fail} && s.files.socket.Some? && s.files.live == {s.files.socket.value.inode}
  {
    RunKeepsInv(schedule);
    var f := Run(schedule).files;
    HeldAnswer(f, PhaseOf(Run(schedule), p), c);
    if f.socket.Some? && f.socket.value.inode in f.live {
      assert f.live == {f.socket.value.inode};
    }
  }

  predicate GetsTheLock(s: State, p: Pid, n: nat) {
    PhaseOf(Alone(s, p, n), p).Holding?
  }

  lemma AcquireSucceeds(s: State, p: Pid) returns (n: nat)
    requires PhaseOf(s, p) == Idle && s.files.live == {} && !LeftUnfinished(s.files)
    ensures GetsTheLock(s, p, n)
  {
    var k, attempt := LeftoversAreCleared(s, p);
    n := k + 8;
    AloneAgain(s, p, k, 8);
    assert PhaseOf(Alone(Alone(s, p, k), p, 8), p).Holding? by {
      CleanAcquire(Alone(s, p, k), p, attempt);
    }
  }

  /**
   After any crashes, with no live socket left, an undisturbed acquire gets the lock if and only if no
   crash fell between a bind and its chmod or between creating a state file and filling it; then it is
   quarantined.
   */
  lemma AcquireAfterCrashes(s: State, p: Pid)
    requires PhaseOf(s, p) == Idle && s.files.live == {}
    ensures (exists n :: GetsTheLock(s, p, n)) <==> !LeftUnfinished(s.files)
    ensures LeftUnfinished(s.files) ==> exists n :: PhaseOf(Alone(s, p, n), p) == Done(Quarantined)
  {
    if LeftUnfinished(s.files) {
      UnfinishedIsQuarantined(s, p);
      forall n
        ensures !GetsTheLock(s, p, n)
      {
        UnfinishedIsForever(s, p, n);
      }
    } else {
      var n := AcquireSucceeds(s, p);
    }
  }

  /** A release with nobody interfering, whose close may also unlink the path, or fail. */
  function ReleasedAlone(s: State, p: Pid, close: Choice): State {
    Alone(Step(Alone(s, p, 3), p, close), p, 2)
  }

  /**
   An undisturbed release by a holder is reported as released, and clears both files, exactly when the
   state file it captured is still there and the close succeeds, whether or not that unlinks the path.
   Otherwise nothing changes and the socket stays live: an unfinished state file is quarantined, any other
   is a mismatch, and a failed close is unavailable.
   */
  lemma ReleaseAlone(s: State, p: Pid, close: Choice)
    requires Inv(s) && PhaseOf(s, p).Holding? && close != Crash
    ensures var held := PhaseOf(s, p); var t := ReleasedAlone(s, p, close);
            if s.files.file == Some(File(held.file, true)) && close != Fail
            then PhaseOf(t, p) == Done(Released) && t.files == s.files.(socket := None, file := None, live := {})
            else t.files == s.files
                 && PhaseOf(t, p) == Refused(held.own, if s.files.file == Some(File(held.file, true)) then Unavailable
                                                       else if s.files.file.Some? && !s.files.file.value.complete then Quarantined
                                                       else HolderMismatch)
  {
    RecaptureAlone(s, p);
    var t := Step(Alone(s, p, 3), p, close);
    AloneTwo(t, p);
    if s.files.file == Some(File(PhaseOf(s, p).file, true)) && close != Fail {
      assert PhaseOf(Step(t, p, Go), p).ReleaseState?;
    } else {
      assert PhaseOf(t, p).Refused? && t.files == s.files;
    }
  }

  /** The two recaptures of a release: the holder's own socket is there, so the state file decides. */
  lemma RecaptureAlone(s: State, p: Pid)
    requires Inv(s) && PhaseOf(s, p).Holding?
    ensures var held := PhaseOf(s, p); var t := Alone(s, p, 3);
            && t.files == s.files && s.files.live == {held.own} && s.files.socket == Some(Socket(held.own, true))
            && PhaseOf(t, p) == if s.files.file == Some(File(held.file, true)) then Close(held.own, held.own, held.file)
                                else Refused(held.own, if s.files.file.Some? && !s.files.file.value.complete then Quarantined else HolderMismatch)
  {
    var held := PhaseOf(s, p);
    assert Sound(s.files, held);
    AloneTwo(s, p);
    AloneFour(s, p);
    assert PhaseOf(Alone(s, p, 2), p) == RecaptureState(held.own, held.socket, held.file, Some(held.socket));
  }

  function Calls(p: Pid, n: nat): seq<(Pid, Choice)> {
    seq(n, i => (p, Go))
  }

  lemma RunOneMore(schedule: seq<(Pid, Choice)>, p: Pid, c: Choice)
    ensures Run(schedule + [(p, c)]) == Step(Run(schedule), p, c)
  {
    assert (schedule + [(p, c)])[..|schedule|] == schedule;
  }

  lemma AloneLast(s: State, p: Pid, n: nat)
    ensures Alone(s, p, n + 1) == Step(Alone(s, p, n), p, Go)
  {
    AloneAgain(s, p, n, 1);
    AloneTwo(Alone(s, p, n), p);
  }

  lemma {:induction false} RunAlone(schedule: seq<(Pid, Choice)>, p: Pid, n: nat)
    ensures Run(schedule + Calls(p, n)) == Alone(Run(schedule), p, n)
    decreases n
  {
    if n == 0 {
      assert schedule + Calls(p, n) == schedule;
    } else {
      RunAlone(schedule, p, n - 1);
      assert schedule + Calls(p, n) == (schedule + Calls(p, n - 1)) + [(p, Go)];
      RunOneMore(schedule + Calls(p, n - 1), p, Go);
      AloneLast(Run(schedule), p, n - 1);
    }
  }

  /** Two reads by a contender of an empty directory, up to and including the socket. */
  lemma ContenderStarts()
    ensures var s := Alone(EMPTY, 0, 2);
            s.files == EMPTY.files && PhaseOf(s, 0) == CaptureState(0, None) && PhaseOf(s, 1) == Idle
  {
    AloneTwo(EMPTY, 0);
  }

  lemma HolderFollows(s: State)
    requires s.files == EMPTY.files && PhaseOf(s, 0) == CaptureState(0, None) && PhaseOf(s, 1) == Idle
    ensures var t := Alone(s, 1, 9);
            && PhaseOf(t, 0) == CaptureState(0, None) && PhaseOf(t, 1) == Holding(0, 0, 1)
            && t.files.file == Some(File(1, true))
  {
    AloneAgain(s, 1, 1, 8);
    AloneTwo(s, 1);
    var u := Step(s, 1, Go);
    assert u.files == EMPTY.files && PhaseOf(u, 1) == CaptureSocket(0) && PhaseOf(u, 0) == CaptureState(0, None);
    CleanAcquire(u, 1, 0);
  }

  lemma ContenderReads() returns (schedule: seq<(Pid, Choice)>)
    ensures PhaseOf(Run(schedule), 0) == CaptureState(0, None) && PhaseOf(Run(schedule), 1) == Holding(0, 0, 1)
    ensures Run(schedule).files.file == Some(File(1, true))
  {
    var a := [] + Calls(0, 2);
    schedule := a + Calls(1, 9);
    RunAlone([], 0, 2);
    ContenderStarts();
    RunAlone(a, 1, 9);
    HolderFollows(Run(a));
  }

  /** A contender that reads the socket before the bind and the state after it removes the holder's state file. */
  lemma ContenderTakesTheState() returns (schedule: seq<(Pid, Choice)>)
    ensures PhaseOf(Run(schedule), 1) == Holding(0, 0, 1) && Run(schedule).files.file == None
    ensures forall close :: close != Crash ==>
              PhaseOf(ReleasedAlone(Run(schedule), 1, close), 1) == Refused(0, HolderMismatch)
  {
    var b := ContenderReads();
    schedule := b + Calls(0, 2);
    RunAlone(b, 0, 2);
    AloneTwo(Run(b), 0);
    assert PhaseOf(Step(Run(b), 0, Go), 0) == DropState(0, 1);
    AloneLeavesOthers(Run(b), 0, 2);
    RunKeepsInv(schedule);
    forall close | close != Crash
      ensures PhaseOf(ReleasedAlone(Run(schedule), 1, close), 1) == Refused(0, HolderMismatch)
    {
      ReleaseAlone(Run(schedule), 1, close);
    }
  }

  /** A crash between bind and chmod leaves a path every later acquire quarantines. */
  lemma CrashBeforeChmod() returns (schedule: seq<(Pid, Choice)>)
    ensures Run(schedule).files.live == {} && LeftUnfinished(Run(schedule).files)
    ensures forall p :: PhaseOf(Run(schedule), p) == Idle && PhaseOf(Alone(Run(schedule), p, 2), p) == Done(Quarantined)
  {
    var a := [] + Calls(0, 4);
    schedule := a + [(0, Crash)];
    RunAlone([], 0, 4);
    RunOneMore(a, 0, Crash);
    BindsOnTheFourthCall(EMPTY, 0);
    AloneLeavesOthers(EMPTY, 0, 4);
    forall p
      ensures PhaseOf(Run(schedule), p) == Idle && PhaseOf(Alone(Run(schedule), p, 2), p) == Done(Quarantined)
    {
      UnfinishedIsQuarantined(Run(schedule), p);
    }
  }

  lemma BindsOnTheFourthCall(s: State, p: Pid)
    requires s.files == EMPTY.files && PhaseOf(s, p) == Idle
    ensures PhaseOf(Alone(s, p, 4), p) == Chmod(0) && Alone(s, p, 4).files == Files(Some(Socket(0, false)), None, {0}, 1)
  {
    AloneTwo(s, p);
    assert PhaseOf(Alone(s, p, 2), p) == CaptureState(0, None) && Alone(s, p, 2).files == s.files;
    AloneFour(s, p);
  }
}

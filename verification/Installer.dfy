/**
 The crash-recoverable installer of the packaged skill set (src/install/index.ts).

 Four entries (three skill directories and the install manifest) move between a destination,
 a stage and a backup directory under a journal with four phases. Every change of the file system
 is one atomic step that costs one unit of the process's `budget`: a process with `Steps(n)` left is
 lost just before its (n+1)-th step, so a statement about every budget is a statement about a loss
 at every point. `Settled` is the installed set a later, uninterrupted recovery would leave.
 */
module Installer {
  import opened Wrappers

  // The order of [...SKILL_NAMES, INSTALL_MANIFEST].
  datatype Name = Engineer | Feedback | Knowledge | Record

  function Order(): (names: seq<Name>)
    ensures |names| == 4
  {
    [Engineer, Feedback, Knowledge, Record]
  }

  /** Position in that order: the loops below have handled exactly the names of smaller index. */
  function Index(n: Name): (i: nat)
    ensures i < 4 && Order()[i] == n
  {
    match n case Engineer => 0 case Feedback => 1 case Knowledge => 2 case Record => 3
  }

  lemma IndexOfOrder(i: nat)
    requires i < 4
    ensures Index(Order()[i]) == i
  {
  }

  type Tree = map<string, string>  // relative path to content digest

  datatype Manifest = Manifest(engineer: Tree, feedback: Tree, knowledge: Tree)

  // A manifest file that does not parse, a symbolic link or a file where a directory belongs is Foreign.
  datatype Entry = Skill(files: Tree) | ManifestFile(manifest: Manifest) | Foreign

  type Directory = map<Name, Entry>

  function Wanted(m: Manifest, n: Name): Entry {
    match n
    case Engineer => Skill(m.engineer)
    case Feedback => Skill(m.feedback)
    case Knowledge => Skill(m.knowledge)
    case Record => ManifestFile(m)
  }

  /** Exactly the four entries of one manifest. */
  function SetOf(m: Manifest): (s: Directory)
    ensures forall n: Name :: n in s && s[n] == Wanted(m, n)
  {
    map n: Name :: Wanted(m, n)
  }

  /** Every name is there. */
  predicate Whole(dir: Directory) {
    forall n: Name :: n in dir
  }

  /** What the installer accepts as its own: nothing at all, or exactly one recorded set. */
  ghost predicate Owned(dir: Directory) {
    dir == map[] || exists m :: dir == SetOf(m)
  }

  function PriorSet(previous: Option<Manifest>): Directory {
    if previous.Some? then SetOf(previous.value) else map[]
  }

  /** validateInstalled: the recorded manifest is the expected one and every tree matches it. */
  predicate ValidInstalled(dir: Directory, m: Manifest) {
    && Record in dir && dir[Record] == ManifestFile(m)
    && Engineer in dir && dir[Engineer] == Skill(m.engineer)
    && Feedback in dir && dir[Feedback] == Skill(m.feedback)
    && Knowledge in dir && dir[Knowledge] == Skill(m.knowledge)
  }

  lemma ValidInstalledIsExact(dir: Directory, m: Manifest)
    ensures ValidInstalled(dir, m) <==> dir == SetOf(m)
  {
    if ValidInstalled(dir, m) {
      forall n: Name
        ensures n in dir && n in SetOf(m) && dir[n] == SetOf(m)[n]
      {
        match n { case Engineer => case Feedback => case Knowledge => case Record => }
      }
      assert dir.Keys == SetOf(m).Keys;
    }
  }

  datatype Operation = Install | Uninstall

  datatype Phase = Staged | BackingUp | Swapping | Committed

  datatype Journal = Journal(
    operation: Operation,
    phase: Phase,
    manifest: Manifest,
    previous: Option<Manifest>,
    stage: nat,
    backup: nat)

  /** Directory names are random identifiers in the source; here `nextId` is above every name in use. */
  datatype Disk = Disk(
    dest: Directory,
    dirs: map<nat, Directory>,
    journal: Option<Journal>,
    preserved: seq<(Name, Entry)>,
    nextId: nat)

  predicate Fresh(d: Disk) {
    forall id :: id in d.dirs ==> id < d.nextId
  }

  /** Each entry of the old set is in exactly one place: intact in the backup, or else intact in the destination. */
  predicate OldSetSafe(d: Disk, backup: nat, prior: Manifest) {
    && backup in d.dirs
    && forall n: Name ::
         if n in d.dirs[backup] then d.dirs[backup][n] == Wanted(prior, n)
         else n in d.dest && d.dest[n] == Wanted(prior, n)
  }

  /** What holds while an install transaction is journaled. */
  predicate InstallOk(d: Disk, j: Journal) {
    && j.stage != j.backup
    && match j.previous
       case None =>
         && (j.backup in d.dirs ==> d.dirs[j.backup] == map[])
         && (j.phase == Staged ==> d.dest == map[])
       case Some(prior) =>
         || (j.phase == Committed && d.dest == SetOf(j.manifest))
         || (OldSetSafe(d, j.backup, prior) && (j.phase == Staged ==> d.dirs[j.backup] == map[]))
         || (j.backup !in d.dirs && d.dest == SetOf(prior) && j.phase in {Staged, Committed})
  }

  /** What holds while an uninstall transaction is journaled. */
  predicate UninstallOk(d: Disk, j: Journal) {
    && j.previous == Some(j.manifest)
    && j.stage != j.backup
    && j.stage !in d.dirs
    && (j.phase == BackingUp ==> OldSetSafe(d, j.backup, j.manifest))
    && (j.phase == Committed ==>
          || d.dest == map[]
          || (d.dest == SetOf(j.manifest) && (j.backup in d.dirs ==> d.dirs[j.backup] == map[])))
    && j.phase in {BackingUp, Committed}
  }

  /** The invariant of every state a crash can leave behind. */
  predicate Recoverable(d: Disk) {
    && Fresh(d)
    && (d.journal.Some? ==>
          if d.journal.value.operation == Install
          then InstallOk(d, d.journal.value)
          else UninstallOk(d, d.journal.value))
  }

  /** The installed set that recovery of this disk settles on. */
  function Settled(d: Disk): Directory {
    if d.journal.None? then d.dest
    else
      var j := d.journal.value;
      if j.operation == Install then
        if ValidInstalled(d.dest, j.manifest) then d.dest else PriorSet(j.previous)
      else if j.phase == Committed then d.dest
      else PriorSet(j.previous)
  }

  predicate Submap(a: Directory, b: Directory) {
    forall n :: n in a ==> n in b && a[n] == b[n]
  }

  /** A destination that is part of another directory can validate only as that whole directory. */
  lemma SubmapValid(a: Directory, b: Directory, m: Manifest)
    requires Submap(a, b) && ValidInstalled(a, m)
    ensures a == b == SetOf(m)
  {
    ValidInstalledIsExact(a, m);
    ValidInstalledIsExact(b, m);
  }

  /** What a rollback starts from: the old set is safe, or it is back in place and the backup already gone. */
  predicate RollbackReady(d: Disk, j: Journal) {
    match j.previous
    case None => j.backup in d.dirs ==> d.dirs[j.backup] == map[]
    case Some(prior) => OldSetSafe(d, j.backup, prior) || (j.backup !in d.dirs && d.dest == SetOf(prior))
  }

  /** A journaled transaction from which the rollback of the source is entered. */
  predicate CanRollBack(d: Disk, j: Journal) {
    && Recoverable(d) && d.journal == Some(j) && RollbackReady(d, j)
    && (j.operation == Uninstall ==> j.phase == BackingUp)
  }

  /** Wherever restoreBackup stops, the disk is recoverable and still settles on the same set, or on the prior one. */
  lemma RestoreSettles(before: Disk, after: Disk, j: Journal)
    requires CanRollBack(before, j) && j.phase != Staged
    requires after == before.(dest := after.dest, dirs := after.dirs, preserved := after.preserved, journal := after.journal)
    requires after.dirs.Keys == before.dirs.Keys
    requires RollbackReady(after, j)
    requires after.journal == Some(j) || (after.journal == Some(j.(phase := Committed)) && after.dest == PriorSet(j.previous))
    requires after.journal != Some(j) && j.backup in after.dirs ==> after.dirs[j.backup] == map[]
    requires Submap(after.dest, before.dest) || Submap(after.dest, PriorSet(j.previous))
    ensures Recoverable(after)
    ensures Settled(after) == PriorSet(j.previous) || Settled(after) == Settled(before)
  {
    if j.operation == Install && ValidInstalled(after.dest, j.manifest) {
      SubmapValid(after.dest, if Submap(after.dest, before.dest) then before.dest else PriorSet(j.previous), j.manifest);
    }
  }

  /** Only the destination and one directory differ, and what is preserved. */
  predicate GatherFrame(a: Disk, b: Disk, backup: nat) {
    && b == a.(dest := b.dest, dirs := b.dirs, preserved := b.preserved)
    && b.dirs.Keys == a.dirs.Keys
    && forall k :: k in b.dirs && k != backup ==> b.dirs[k] == a.dirs[k]
  }

  /** Every entry of one destination is still somewhere: in the other, in the backup, or among the preserved. */
  predicate NothingDeleted(a: Disk, b: Disk, backup: nat) {
    && a.preserved <= b.preserved
    && forall n: Name :: n in a.dest ==>
         || (n in b.dest && b.dest[n] == a.dest[n])
         || (backup in b.dirs && n in b.dirs[backup] && b.dirs[backup][n] == a.dest[n])
         || (n, a.dest[n]) in b.preserved
  }

  predicate EntryGathered(a: Disk, b: Disk, backup: nat, n: Name) {
    && GatherFrame(a, b, backup) && backup in b.dirs
    && b.dest == a.dest - {n} && n in b.dirs[backup] && Submap(a.dirs[backup], b.dirs[backup])
    && (if n in a.dirs[backup] then b.preserved == a.preserved + (if n in a.dest then [(n, a.dest[n])] else [])
        else n in a.dest && b.dirs[backup][n] == a.dest[n] && b.preserved == a.preserved)
  }

  /** One entry of a destination is moved aside. */
  lemma PreservingKeeps(a: Disk, b: Disk, c: Disk, backup: nat, n: Name)
    requires NothingDeleted(a, b, backup) && c.dirs == b.dirs
    requires c.dest == b.dest - {n} && c.preserved == b.preserved + if n in b.dest then [(n, b.dest[n])] else []
    ensures NothingDeleted(a, c, backup)
  {
    forall x: Name | x in a.dest && (x, a.dest[x]) in b.preserved
      ensures (x, a.dest[x]) in c.preserved
    {
      var k :| 0 <= k < |b.preserved| && b.preserved[k] == (x, a.dest[x]);
      assert c.preserved[k] == b.preserved[k];
    }
    if n in b.dest { assert c.preserved[|b.preserved|] == (n, b.dest[n]); }
  }

  /** The first i names are in the backup and out of the destination. */
  predicate Gathered(a: Disk, b: Disk, backup: nat, i: nat) {
    && GatherFrame(a, b, backup) && Submap(b.dest, a.dest) && NothingDeleted(a, b, backup)
    && (forall n: Name :: n in b.dest <==> n in a.dest && i <= Index(n))
    && (forall n: Name :: Index(n) < i ==> backup in b.dirs && n in b.dirs[backup])
  }

  lemma GatheredKeeps(a: Disk, b: Disk, c: Disk, backup: nat, i: nat)
    requires i < 4 && Gathered(a, b, backup, i) && EntryGathered(b, c, backup, Order()[i])
    ensures NothingDeleted(a, c, backup)
  {
    forall n: Name | n in a.dest
      ensures (n in c.dest && c.dest[n] == a.dest[n]) || (n in c.dirs[backup] && c.dirs[backup][n] == a.dest[n]) || (n, a.dest[n]) in c.preserved
    {
      if n in b.dest && b.dest[n] == a.dest[n] && n == Order()[i] && n in b.dirs[backup] {
        assert c.preserved[|b.preserved|] == (n, a.dest[n]);
      }
      if (n, a.dest[n]) in b.preserved {
        var k :| 0 <= k < |b.preserved| && b.preserved[k] == (n, a.dest[n]);
        assert c.preserved[k] == b.preserved[k];
      }
    }
  }

  lemma GatheredOneMore(a: Disk, b: Disk, c: Disk, backup: nat, i: nat)
    requires i < 4 && Gathered(a, b, backup, i) && EntryGathered(b, c, backup, Order()[i])
    ensures Gathered(a, c, backup, i + 1)
  {
    IndexOfOrder(i);
    GatheredKeeps(a, b, c, backup, i);
    forall n: Name | n != Order()[i]
      ensures Index(n) != i
    {
    }
  }

  predicate SameElsewhere(a: Disk, b: Disk, id: nat) {
    && b.journal == a.journal && b.nextId == a.nextId && b.preserved == a.preserved
    && b.dirs.Keys == a.dirs.Keys
    && forall k :: k in a.dirs && k != id ==> b.dirs[k] == a.dirs[k]
  }

  /** The backing-up loop after its first `i` names. */
  predicate PartlyBackedUp(d: Disk, j: Journal, i: nat) {
    && Fresh(d) && d.journal == Some(j) && j.stage != j.backup && j.backup in d.dirs
    && var prior := PriorSet(j.previous);
    && Submap(d.dest, prior) && Submap(d.dirs[j.backup], prior)
    && forall n :: n in prior ==> (n in d.dirs[j.backup] <==> Index(n) < i) && (n in d.dest <==> i <= Index(n))
  }

  lemma PartlyBackedUpIsSafe(d: Disk, j: Journal, i: nat)
    requires PartlyBackedUp(d, j, i) && j.phase == BackingUp
    requires j.operation == Install || (j.previous == Some(j.manifest) && j.stage !in d.dirs)
    ensures CanRollBack(d, j)
    ensures Settled(d) in {PriorSet(j.previous), SetOf(j.manifest)}
    ensures j.operation == Uninstall ==> Settled(d) == PriorSet(j.previous)
  {
    ValidInstalledIsExact(d.dest, j.manifest);
    assert j.previous.None? ==> forall n :: n !in d.dirs[j.backup];
  }

  lemma StagedIsSafe(d: Disk, j: Journal)
    requires PartlyBackedUp(d, j, 0) && j.operation == Install && j.phase == Staged
    ensures Recoverable(d) && d.dest == PriorSet(j.previous) && d.dirs[j.backup] == map[]
    ensures Settled(d) in {PriorSet(j.previous), SetOf(j.manifest)}
  {
    ValidInstalledIsExact(d.dest, j.manifest);
    assert forall n :: n in d.dirs[j.backup] ==> n in PriorSet(j.previous);
  }

  /** The swapping loop after its first `i` names. */
  predicate PartlySwapped(d: Disk, j: Journal, i: nat) {
    && Fresh(d) && d.journal == Some(j) && j.stage != j.backup && j.backup in d.dirs && j.stage in d.dirs
    && d.dirs[j.backup] == PriorSet(j.previous)
    && Submap(d.dest, SetOf(j.manifest)) && Submap(d.dirs[j.stage], SetOf(j.manifest))
    && forall n: Name :: (n in d.dest <==> Index(n) < i) && (n in d.dirs[j.stage] <==> i <= Index(n))
  }

  lemma PartlySwappedIsSafe(d: Disk, j: Journal, i: nat)
    requires PartlySwapped(d, j, i) && j.phase == Swapping && j.operation == Install
    ensures CanRollBack(d, j)
    ensures Settled(d) in {PriorSet(j.previous), SetOf(j.manifest)}
  {
    ValidInstalledIsExact(d.dest, j.manifest);
  }

  /** The end of both loops: nothing is left behind. */
  lemma FullyMoved(dir: Directory, gone: Directory, all: Directory)
    requires Submap(dir, all) && Submap(gone, all)
    requires forall n :: n in all ==> (n in dir <==> Index(n) < 4) && (n in gone <==> 4 <= Index(n))
    ensures dir == all && gone == map[]
  {
    assert forall n :: n in all ==> Index(n) < 4 && n in dir && n !in gone;
    assert forall n :: n in gone ==> n in all;
  }

  /** An uninstall that has journaled its start and moved nothing. */
  predicate UninstallBegun(d: Disk) {
    d.journal.Some? &&
    var j := d.journal.value;
    j.operation == Uninstall && j.phase == BackingUp && j.previous.Some? && d.dest == SetOf(j.previous.value)
    && j.backup in d.dirs && d.dirs[j.backup] == map[]
  }

  /** None of these hooks throws. */
  ghost predicate Quiet(fault: nat -> bool, from: nat, to: nat) {
    forall k: nat :: from <= k < to ==> !fault(k)
  }

  /** The last hook of an install throws, and no other. */
  ghost predicate OnlyLastFails(fault: nat -> bool) {
    fault(16) && forall k: nat :: k < 16 ==> !fault(k)
  }

  /** The two rollback windows from which recovery can only throw. */
  predicate Stuck(d: Disk) {
    d.journal.Some? &&
    var j := d.journal.value;
    if j.operation == Install then
      && j.previous.Some? && j.phase != Staged
      && j.backup !in d.dirs && !ValidInstalled(d.dest, j.manifest)
    else
      j.phase == Committed && d.dest != map[]
  }

  /** A stuck transaction has lost nothing: the whole old set is installed and nothing else is. */
  lemma StuckLosesNothing(d: Disk)
    requires Recoverable(d) && Stuck(d)
    ensures d.journal.value.previous.Some?
    ensures d.dest == SetOf(d.journal.value.previous.value) == Settled(d)
  {
    ValidInstalledIsExact(d.dest, d.journal.value.manifest);
  }

  /** The prior set in the backup, the new one in the destination, nothing left in the stage. */
  predicate AllSwapped(d: Disk, j: Journal) {
    && j.previous.Some? && j.phase == Swapping && j.stage != j.backup && j.stage in d.dirs && j.backup in d.dirs
    && d.dirs[j.stage] == map[] && Whole(d.dest)
  }

  /** The prior set back in place and the backup gone, with the journal still there. */
  predicate RolledBack(d: Disk, j: Journal) {
    d.journal == Some(j.(phase := Committed)) && j.previous.Some? && d.dest == SetOf(j.previous.value) && j.backup !in d.dirs
  }

  datatype Budget = Unlimited | Steps(left: nat)

  function Spend(b: Budget): Budget {
    if b.Unlimited? || b.left == 0 then b else Steps(b.left - 1)
  }

  /** At least n more steps, and what is left after them. */
  predicate Affords(b: Budget, n: nat) {
    b.Steps? && b.left >= n
  }

  function After(b: Budget, n: nat): Budget
    requires Affords(b, n)
  {
    Steps(b.left - n)
  }

  /** Done returned, Threw raised an error in a live process, Lost is the loss of the process. */
  datatype Outcome = Done | Threw | Lost

  class Host {
    var disk: Disk
    var budget: Budget

    constructor (disk: Disk, budget: Budget)
      ensures this.disk == disk && this.budget == budget
    {
      this.disk := disk;
      this.budget := budget;
    }

    /** One atomic step is about to happen, unless the process is lost first. */
    method Tick() returns (alive: bool)
      modifies this`budget
      ensures alive == (old(budget) != Steps(0))
      ensures budget == Spend(old(budget))
    {
      alive := budget != Steps(0);
      budget := Spend(budget);
    }

    method WriteJournal(j: Journal) returns (out: Outcome)
      modifies this
      ensures out == if old(budget) == Steps(0) then Lost else Done
      ensures disk == if out.Done? then old(disk).(journal := Some(j)) else old(disk)
      ensures budget == Spend(old(budget))
    {
      var alive := Tick();
      if !alive { return Lost; }
      disk := disk.(journal := Some(j));
      return Done;
    }

    method RemoveJournal() returns (out: Outcome)
      modifies this
      ensures out == if old(budget) == Steps(0) then Lost else Done
      ensures disk == if out.Done? then old(disk).(journal := None) else old(disk)
      ensures budget == Spend(old(budget))
    {
      var alive := Tick();
      if !alive { return Lost; }
      disk := disk.(journal := None);
      return Done;
    }

    method MakeDirectory() returns (out: Outcome, id: nat)
      modifies this
      ensures id == old(disk).nextId
      ensures out == if old(budget) == Steps(0) then Lost else Done
      ensures disk == if out.Lost? then old(disk)
                      else old(disk).(dirs := old(disk).dirs[id := map[]], nextId := id + 1)
      ensures budget == Spend(old(budget))
    {
      id := disk.nextId;
      var alive := Tick();
      if !alive { return Lost, id; }
      disk := disk.(dirs := disk.dirs[id := map[]], nextId := id + 1);
      return Done, id;
    }

    method PutStaged(id: nat, n: Name, e: Entry) returns (out: Outcome)
      requires id in disk.dirs
      modifies this
      ensures out == if old(budget) == Steps(0) then Lost else Done
      ensures disk == if out.Lost? then old(disk)
                      else old(disk).(dirs := old(disk).dirs[id := old(disk).dirs[id][n := e]])
      ensures budget == Spend(old(budget))
    {
      var alive := Tick();
      if !alive { return Lost; }
      disk := disk.(dirs := disk.dirs[id := disk.dirs[id][n := e]]);
      return Done;
    }

    /** Rename destination/n to directory/n. The target name must be free; a missing directory fails the rename. */
    method RenameOut(n: Name, id: nat) returns (out: Outcome)
      requires n in disk.dest
      requires id in disk.dirs ==> n !in disk.dirs[id]
      modifies this
      ensures out == if id !in old(disk).dirs then Threw else if old(budget) == Steps(0) then Lost else Done
      ensures disk == if out.Done?
                      then old(disk).(dest := old(disk).dest - {n},
                                      dirs := old(disk).dirs[id := old(disk).dirs[id][n := old(disk).dest[n]]])
                      else old(disk)
      ensures budget == if id in old(disk).dirs then Spend(old(budget)) else old(budget)
    {
      if id !in disk.dirs { return Threw; }
      var alive := Tick();
      if !alive { return Lost; }
      disk := disk.(dest := disk.dest - {n}, dirs := disk.dirs[id := disk.dirs[id][n := disk.dest[n]]]);
      return Done;
    }

    /** Rename directory/n to destination/n. The target name must be free; a missing source fails the rename. */
    method RenameIn(id: nat, n: Name) returns (out: Outcome)
      requires n !in disk.dest
      modifies this
      ensures out == if id !in old(disk).dirs || n !in old(disk).dirs[id] then Threw
                     else if old(budget) == Steps(0) then Lost else Done
      ensures disk == if out.Done?
                      then old(disk).(dest := old(disk).dest[n := old(disk).dirs[id][n]],
                                      dirs := old(disk).dirs[id := old(disk).dirs[id] - {n}])
                      else old(disk)
      ensures budget == if out.Threw? then old(budget) else Spend(old(budget))
    {
      if id !in disk.dirs || n !in disk.dirs[id] { return Threw; }
      var alive := Tick();
      if !alive { return Lost; }
      disk := disk.(dest := disk.dest[n := disk.dirs[id][n]], dirs := disk.dirs[id := disk.dirs[id] - {n}]);
      return Done;
    }

    /** preserveForRecovery: move an entry aside under a fresh name, never delete it. */
    method Preserve(n: Name) returns (out: Outcome)
      modifies this
      ensures out == if n in old(disk).dest && old(budget) == Steps(0) then Lost else Done
      ensures disk == if n in old(disk).dest && out.Done?
                      then old(disk).(dest := old(disk).dest - {n},
                                      preserved := old(disk).preserved + [(n, old(disk).dest[n])])
                      else old(disk)
      ensures budget == if n in old(disk).dest then Spend(old(budget)) else old(budget)
    {
      if n !in disk.dest { return Done; }
      var alive := Tick();
      if !alive { return Lost; }
      disk := disk.(dest := disk.dest - {n}, preserved := disk.preserved + [(n, disk.dest[n])]);
      return Done;
    }

    /** Replace the contents of one directory: a single unlink inside it. */
    method Unlink(id: nat, dir: Directory) returns (out: Outcome)
      requires id in disk.dirs
      modifies this
      ensures out == if old(budget) == Steps(0) then Lost else Done
      ensures disk == if out.Lost? then old(disk) else old(disk).(dirs := old(disk).dirs[id := dir])
      ensures budget == Spend(old(budget))
    {
      var alive := Tick();
      if !alive { return Lost; }
      disk := disk.(dirs := disk.dirs[id := dir]);
      return Done;
    }

    /** One entry of a directory being removed: its files, then its name. */
    method RemoveEntry(id: nat, n: Name) returns (out: Outcome)
      requires id in disk.dirs && n in disk.dirs[id]
      modifies this
      ensures out.Done? || (out.Lost? && !old(budget).Unlimited?)
      ensures id in disk.dirs && disk == old(disk).(dirs := old(disk).dirs[id := disk.dirs[id]])
      ensures out.Done? ==> disk.dirs[id] == old(disk).dirs[id] - {n}
      ensures old(budget).Unlimited? ==> budget.Unlimited?
      ensures old(budget) == Steps(0) ==> budget == Steps(0)
    {
      out := RemoveFiles(id, n);
      if out.Lost? { return; }
      ghost var between := disk.dirs[id];
      out := Unlink(id, disk.dirs[id] - {n});
      Overridden(old(disk).dirs, id, between, disk.dirs[id]);
    }

    /** rm -r: files go one by one in any order, so a lost process can leave any part of the directory. */
    method RemoveDirectory(id: nat) returns (out: Outcome)
      modifies this
      ensures out.Done? || (out.Lost? && !old(budget).Unlimited?)
      ensures out.Done? ==> disk == old(disk).(dirs := old(disk).dirs - {id})
      ensures out.Lost? ==>
                && id in old(disk).dirs && id in disk.dirs
                && disk == old(disk).(dirs := old(disk).dirs[id := disk.dirs[id]])
                && (old(disk).dirs[id] == map[] ==> disk == old(disk))
      ensures old(budget).Unlimited? ==> budget.Unlimited?
      ensures old(budget) == Steps(0) ==> budget == Steps(0)
      ensures id !in old(disk).dirs ==> out.Done? && budget == old(budget)
      ensures id in old(disk).dirs && old(disk).dirs[id] == map[] ==>
                out.Lost? == (old(budget) == Steps(0)) && budget == Spend(old(budget))
    {
      if id !in disk.dirs {
        assert disk.dirs - {id} == disk.dirs;
        return Done;
      }
      var left := disk.dirs[id];
      SameValue(disk.dirs, id);
      while left != map[]
        invariant disk == old(disk).(dirs := old(disk).dirs[id := left])
        invariant old(budget).Unlimited? ==> budget.Unlimited?
        invariant old(budget) == Steps(0) ==> budget == Steps(0)
        invariant old(disk).dirs[id] == map[] ==> left == map[] && budget == old(budget)
        decreases |left|
      {
        var n :| n in left;
        assert left.Keys == (left - {n}).Keys + {n};
        out := RemoveEntry(id, n);
        Overridden(old(disk).dirs, id, left, disk.dirs[id]);
        if out.Lost? { return; }
        left := left - {n};
      }
      var alive := Tick();
      if !alive { return Lost; }
      assert disk.dirs - {id} == old(disk).dirs - {id};
      disk := disk.(dirs := disk.dirs - {id});
      return Done;
    }

    /** The files of one skill directory inside `id`, unlinked one by one. */
    method RemoveFiles(id: nat, n: Name) returns (out: Outcome)
      requires id in disk.dirs && n in disk.dirs[id]
      modifies this
      ensures out.Done? || (out.Lost? && !old(budget).Unlimited?)
      ensures id in disk.dirs && disk == old(disk).(dirs := old(disk).dirs[id := disk.dirs[id]])
      ensures disk.dirs[id] - {n} == old(disk).dirs[id] - {n}
      ensures old(budget).Unlimited? ==> budget.Unlimited?
      ensures old(budget) == Steps(0) ==> budget == Steps(0)
    {
      SameValue(disk.dirs, id);
      if !disk.dirs[id][n].Skill? {
        return Done;
      }
      ghost var dir := disk.dirs[id];
      var files := disk.dirs[id][n].files;
      while files != map[]
        invariant id in disk.dirs
        invariant disk == old(disk).(dirs := old(disk).dirs[id := disk.dirs[id]])
        invariant disk.dirs[id] - {n} == dir - {n}
        invariant old(budget).Unlimited? ==> budget.Unlimited?
        invariant old(budget) == Steps(0) ==> budget == Steps(0)
        decreases |files|
      {
        var path :| path in files;
        assert files.Keys == (files - {path}).Keys + {path};
        files := files - {path};
        ghost var was := disk.dirs[id];
        out := Unlink(id, disk.dirs[id][n := Skill(files)]);
        if out.Lost? { return; }
        Overridden(old(disk).dirs, id, was, disk.dirs[id]);
        assert disk.dirs[id] - {n} == was - {n};
      }
      return Done;
    }

    /** The shared tail of cleanCommitted and cleanRollback: stage, backup, then the journal. */
    method Dispose(j: Journal) returns (out: Outcome)
      modifies this
      ensures out.Done? || (out.Lost? && !old(budget).Unlimited?)
      ensures old(budget).Unlimited? ==> budget.Unlimited?
      ensures old(budget) == Steps(0) ==> out.Lost?
      ensures out.Done? ==> disk == old(disk).(dirs := old(disk).dirs - {j.stage} - {j.backup}, journal := None)
      ensures out.Lost? ==>
                && disk == old(disk).(dirs := disk.dirs)
                && disk.dirs.Keys <= old(disk).dirs.Keys
                && (j.backup in disk.dirs && j.stage != j.backup && old(disk).dirs[j.backup] == map[] ==>
                      disk.dirs[j.backup] == map[])
      ensures j.stage in old(disk).dirs && j.backup in old(disk).dirs && j.stage != j.backup ==>
                old(disk).dirs[j.stage] == map[] && old(disk).dirs[j.backup] == map[] && old(budget) == Steps(2) ==>
                  out.Lost? && disk == old(disk).(dirs := old(disk).dirs - {j.stage} - {j.backup})
    {
      out := RemoveDirectory(j.stage);
      if out.Lost? { return; }
      out := RemoveDirectory(j.backup);
      if out.Lost? { return; }
      out := RemoveJournal();
    }

    method CleanCommitted(j: Journal) returns (out: Outcome)
      modifies this
      ensures out.Threw? <==>
                if j.operation == Install then !ValidInstalled(old(disk).dest, j.manifest) else old(disk).dest != map[]
      ensures out.Threw? ==> disk == old(disk)
      ensures out.Done? ==> disk == old(disk).(dirs := old(disk).dirs - {j.stage} - {j.backup}, journal := None)
      ensures out.Lost? ==>
                && disk == old(disk).(dirs := disk.dirs)
                && disk.dirs.Keys <= old(disk).dirs.Keys
                && (j.backup in disk.dirs && j.stage != j.backup && old(disk).dirs[j.backup] == map[] ==>
                      disk.dirs[j.backup] == map[])
      ensures old(budget).Unlimited? ==> budget.Unlimited? && !out.Lost?
    {
      if j.operation == Install {
        if !ValidInstalled(disk.dest, j.manifest) { return Threw; }
      } else {
        if disk.dest != map[] { return Threw; }
      }
      out := Dispose(j);
    }

    method CleanRollback(j: Journal) returns (out: Outcome)
      modifies this
      ensures out.Threw? <==> old(disk).dest != PriorSet(j.previous)
      ensures out.Threw? ==> disk == old(disk)
      ensures old(budget) == Steps(0) ==> !out.Done?
      ensures out.Done? ==> disk == old(disk).(dirs := old(disk).dirs - {j.stage} - {j.backup}, journal := None)
      ensures out.Lost? ==>
                && disk == old(disk).(dirs := disk.dirs)
                && disk.dirs.Keys <= old(disk).dirs.Keys
                && (j.backup in disk.dirs && j.stage != j.backup && old(disk).dirs[j.backup] == map[] ==>
                      disk.dirs[j.backup] == map[])
      ensures old(budget).Unlimited? ==> budget.Unlimited? && !out.Lost?
      ensures !out.Threw? && j.stage in old(disk).dirs && j.backup in old(disk).dirs && j.stage != j.backup ==>
                old(disk).dirs[j.stage] == map[] && old(disk).dirs[j.backup] == map[] && old(budget) == Steps(2) ==>
                  out.Lost? && disk == old(disk).(dirs := old(disk).dirs - {j.stage} - {j.backup})
    {
      if j.previous.Some? {
        ValidInstalledIsExact(disk.dest, j.previous.value);
        if !ValidInstalled(disk.dest, j.previous.value) { return Threw; }
      } else {
        if disk.dest != map[] { return Threw; }
      }
      out := Dispose(j);
    }

    /** First loop of restoreBackup with a prior set: the backup becomes the sole rollback source. */
    method GatherBackup(j: Journal, prior: Manifest) returns (out: Outcome)
      modifies this
      ensures old(budget).Unlimited? ==> budget.Unlimited? && !out.Lost?
      ensures disk == old(disk).(dest := disk.dest, dirs := disk.dirs, preserved := disk.preserved)
      ensures disk.dirs.Keys == old(disk).dirs.Keys
      ensures forall k :: k in disk.dirs && k != j.backup ==> disk.dirs[k] == old(disk).dirs[k]
      ensures Submap(disk.dest, old(disk).dest) && NothingDeleted(old(disk), disk, j.backup)
      ensures out.Done? ==> j.backup in disk.dirs && disk.dest == map[] && forall n: Name :: n in disk.dirs[j.backup]
      ensures OldSetSafe(old(disk), j.backup, prior) ==> !out.Threw? && OldSetSafe(disk, j.backup, prior)
      ensures j.backup !in old(disk).dirs && old(disk).dest == SetOf(prior) ==> out.Threw? && disk == old(disk)
      ensures j.backup in old(disk).dirs && Whole(old(disk).dest) && Affords(old(budget), 4) ==> out.Done? && budget == After(old(budget), 4)
    {
      for i := 0 to 4
        invariant old(budget).Unlimited? ==> budget.Unlimited?
        invariant Gathered(old(disk), disk, j.backup, i)
        invariant OldSetSafe(old(disk), j.backup, prior) ==> OldSetSafe(disk, j.backup, prior)
        invariant j.backup !in old(disk).dirs ==> i == 0 && disk == old(disk)
        invariant j.backup in old(disk).dirs && Whole(old(disk).dest) && Affords(old(budget), 4) ==> budget == After(old(budget), i)
      {
        IndexOfOrder(i);
        ghost var was := disk;
        out := GatherEntry(j, prior, Order()[i]);
        if !out.Done? { return; }
        GatheredOneMore(old(disk), was, disk, j.backup, i);
      }
      assert disk.dest == map[] by {
        assert forall n :: n in disk.dest ==> Index(n) < 4;
      }
      assert Index(Record) < 4;
      return Done;
    }

    /** One entry of that loop: what the backup has is preserved from the destination, what it lacks joins it. */
    method GatherEntry(j: Journal, prior: Manifest, n: Name) returns (out: Outcome)
      modifies this
      ensures old(budget).Unlimited? ==> budget.Unlimited? && !out.Lost?
      ensures !out.Done? ==> disk == old(disk)
      ensures out.Done? ==> EntryGathered(old(disk), disk, j.backup, n)
      ensures OldSetSafe(old(disk), j.backup, prior) ==> !out.Threw? && OldSetSafe(disk, j.backup, prior)
      ensures j.backup !in old(disk).dirs ==> out.Threw?
      ensures j.backup in old(disk).dirs && n in old(disk).dest && Affords(old(budget), 1) ==> out.Done? && budget == After(old(budget), 1)
    {
      if j.backup in disk.dirs && n in disk.dirs[j.backup] {
        out := Preserve(n);
        assert n !in old(disk).dest ==> old(disk).dest - {n} == old(disk).dest;
      } else if n in disk.dest {
        out := RenameOut(n, j.backup);
      } else {
        out := Threw;
      }
    }

    /** First loop of restoreBackup without a prior set: nothing of the new set stays installed. */
    method ClearDestination(ghost backup: nat) returns (out: Outcome)
      modifies this
      ensures out.Done? || (out.Lost? && !old(budget).Unlimited?)
      ensures old(budget).Unlimited? ==> budget.Unlimited?
      ensures disk == old(disk).(dest := disk.dest, preserved := disk.preserved)
      ensures Submap(disk.dest, old(disk).dest) && NothingDeleted(old(disk), disk, backup)
      ensures out.Done? ==> disk.dest == map[]
    {
      for i := 0 to 4
        invariant old(budget).Unlimited? ==> budget.Unlimited?
        invariant disk == old(disk).(dest := disk.dest, preserved := disk.preserved)
        invariant Submap(disk.dest, old(disk).dest) && NothingDeleted(old(disk), disk, backup)
        invariant forall n: Name :: Index(n) < i ==> n !in disk.dest
      {
        IndexOfOrder(i);
        ghost var was := disk;
        out := Preserve(Order()[i]);
        if out.Lost? { return; }
        PreservingKeeps(old(disk), was, disk, backup, Order()[i]);
      }
      assert disk.dest == map[] by {
        assert forall n :: n in disk.dest ==> Index(n) < 4;
      }
      return Done;
    }

    /** Returning an empty destination's backup deletes nothing that was kept. */
    lemma ReturningKeeps(a: Disk, b: Disk, c: Disk, backup: nat)
      requires NothingDeleted(a, b, backup) && b.dest == map[] && c.preserved == b.preserved
      requires backup !in b.dirs ==> c == b
      requires backup in b.dirs ==> c.dirs == b.dirs[backup := b.dirs[backup] - c.dest.Keys] && Submap(c.dest, b.dirs[backup])
      ensures NothingDeleted(a, c, backup)
    {
    }

    /** Second loop of restoreBackup: every entry the backup holds returns to its free name. */
    method ReturnBackup(j: Journal) returns (out: Outcome)
      requires disk.dest == map[]
      modifies this
      ensures out.Done? || (out.Lost? && !old(budget).Unlimited?)
      ensures old(budget).Unlimited? ==> budget.Unlimited?
      ensures disk == old(disk).(dest := disk.dest, dirs := disk.dirs)
      ensures j.backup !in old(disk).dirs ==> out.Done? && disk == old(disk)
      ensures j.backup in old(disk).dirs ==>
                && disk.dirs == old(disk).dirs[j.backup := old(disk).dirs[j.backup] - disk.dest.Keys]
                && Submap(disk.dest, old(disk).dirs[j.backup])
                && (out.Done? ==> disk.dest == old(disk).dirs[j.backup])
                && (Whole(old(disk).dirs[j.backup]) && Affords(old(budget), 4) ==> out.Done? && budget == After(old(budget), 4))
    {
      if j.backup !in disk.dirs {
        return Done;
      }
      ghost var saved := disk.dirs[j.backup];
      assert saved - disk.dest.Keys == saved;
      SameValue(disk.dirs, j.backup);
      for i := 0 to 4
        invariant old(budget).Unlimited? ==> budget.Unlimited?
        invariant disk == old(disk).(dest := disk.dest, dirs := old(disk).dirs[j.backup := saved - disk.dest.Keys])
        invariant Submap(disk.dest, saved)
        invariant forall n: Name :: n in disk.dest <==> Index(n) < i && n in saved
        invariant Whole(saved) && Affords(old(budget), 4) ==> budget == After(old(budget), i)
      {
        var n := Order()[i];
        IndexOfOrder(i);
        ghost var was := disk;
        if n in disk.dirs[j.backup] {
          out := RenameIn(j.backup, n);
          if out.Lost? { return; }
          Overridden(old(disk).dirs, j.backup, saved - was.dest.Keys, saved - was.dest.Keys - {n});
          assert saved - was.dest.Keys - {n} == saved - disk.dest.Keys;
        }
      }
      assert disk.dest == saved by {
        assert forall n :: n in saved ==> Index(n) < 4;
      }
      return Done;
    }

    /** The first half of restoreBackup: the destination is emptied, and a prior set is whole in the backup. */
    method Gather(j: Journal) returns (out: Outcome)
      modifies this
      ensures old(budget).Unlimited? ==> budget.Unlimited? && !out.Lost?
      ensures disk == old(disk).(dest := disk.dest, dirs := disk.dirs, preserved := disk.preserved)
      ensures disk.dirs.Keys == old(disk).dirs.Keys
      ensures forall k :: k in disk.dirs && k != j.backup ==> disk.dirs[k] == old(disk).dirs[k]
      ensures Submap(disk.dest, old(disk).dest) && NothingDeleted(old(disk), disk, j.backup)
      ensures out.Done? ==> disk.dest == map[]
      ensures out.Done? && j.previous.Some? ==> j.backup in disk.dirs && disk.dirs[j.backup] == SetOf(j.previous.value)
      ensures j.previous.None? ==> disk.dirs == old(disk).dirs
      ensures RollbackReady(old(disk), j) ==>
                && (out.Threw? <==> j.previous.Some? && j.backup !in old(disk).dirs)
                && (out.Threw? ==> disk == old(disk))
                && (!out.Threw? ==> RollbackReady(disk, j))
                && (j.previous.Some? && j.backup in old(disk).dirs && Whole(old(disk).dest) && Affords(old(budget), 4) ==>
                      out.Done? && budget == After(old(budget), 4))
    {
      match j.previous {
        case Some(prior) =>
          out := GatherBackup(j, prior);
          if !out.Done? { return; }
          ValidInstalledIsExact(disk.dirs[j.backup], prior);
          if !ValidInstalled(disk.dirs[j.backup], prior) { return Threw; }
        case None =>
          out := ClearDestination(j.backup);
      }
    }

    method RestoreBackup(j: Journal) returns (out: Outcome)
      requires disk.journal == Some(j)
      modifies this
      ensures old(budget).Unlimited? ==> budget.Unlimited? && !out.Lost?
      // The journal survives every failure, so the evidence of an unfinished rollback is never dropped.
      ensures disk == old(disk).(dest := disk.dest, dirs := disk.dirs, preserved := disk.preserved, journal := disk.journal)
      ensures disk.journal == Some(if out.Done? then j.(phase := Committed) else j)
      ensures disk.dirs.Keys == old(disk).dirs.Keys
      ensures forall k :: k in disk.dirs && k != j.backup ==> disk.dirs[k] == old(disk).dirs[k]
      ensures out.Done? ==> disk.dest == PriorSet(j.previous)
      // What the destination held is not deleted: it is installed, in the backup, or moved aside.
      ensures NothingDeleted(old(disk), disk, j.backup)
      ensures RollbackReady(old(disk), j) ==>
                && (out.Threw? <==> j.previous.Some? && j.backup !in old(disk).dirs)
                && (out.Threw? ==> disk == old(disk))
                && (!out.Threw? ==> RollbackReady(disk, j))
                && (j.backup in disk.dirs && out.Done? ==> disk.dirs[j.backup] == map[])
                && (Submap(disk.dest, old(disk).dest) || Submap(disk.dest, PriorSet(j.previous)))
                && (j.previous.Some? && j.backup in old(disk).dirs && Whole(old(disk).dest) && Affords(old(budget), 9) ==>
                      out.Done? && budget == After(old(budget), 9))
    {
      out := Gather(j);
      if !out.Done? { return; }
      ghost var gathered := disk;
      out := ReturnBackup(j);
      ReturningKeeps(old(disk), gathered, disk, j.backup);
      if out.Lost? { return; }
      if disk.dest != PriorSet(j.previous) { return Threw; }
      assert j.backup in disk.dirs ==> disk.dirs[j.backup] == gathered.dirs[j.backup] - gathered.dirs[j.backup].Keys == map[];
      out := WriteJournal(j.(phase := Committed));
    }

    /** The rollback shared by `recover` and the catch block of `installSkills`. */
    method RollBack(j: Journal) returns (out: Outcome)
      requires disk.journal == Some(j)
      modifies this
      ensures old(budget).Unlimited? ==> budget.Unlimited? && !out.Lost?
      ensures out.Threw? ==> disk.journal.Some?
      ensures out.Done? ==> disk.journal.None?
      ensures CanRollBack(old(disk), j) ==>
                && Recoverable(disk)
                && (out.Threw? <==> j.previous.Some? && j.phase != Staged && j.backup !in old(disk).dirs)
                && (out.Threw? ==> disk == old(disk))
                && (out.Done? ==> disk.journal.None? && disk.dest == PriorSet(j.previous))
                && (out.Lost? ==> Settled(disk) == PriorSet(j.previous) || Settled(disk) == Settled(old(disk)))
                && (AllSwapped(old(disk), j) && old(budget) == Steps(11) ==> out.Lost? && RolledBack(disk, j))
    {
      ghost var before := disk;
      if j.phase == Staged {
        out := CleanRollback(j);
        return;
      }
      out := RestoreBackup(j);
      if CanRollBack(before, j) {
        RestoreSettles(before, disk, j);
      }
      if !out.Done? { return; }
      out := CleanRollback(j);
    }

    method Recover() returns (out: Outcome)
      modifies this
      ensures old(budget).Unlimited? ==> budget.Unlimited? && !out.Lost?
      ensures out.Done? ==> disk.journal.None?
      ensures out.Threw? ==> disk.journal.Some?
      ensures old(disk).journal.None? ==> out.Done? && disk == old(disk) && budget == old(budget)
      ensures UninstallBegun(old(disk)) && old(budget) == Steps(9) ==>
                out.Lost? && disk.journal.Some? && disk.journal.value == old(disk).journal.value.(phase := Committed) && disk.dest == old(disk).dest
      ensures Recoverable(old(disk)) ==>
                && Recoverable(disk)
                && Settled(disk) == Settled(old(disk))
                && (out.Threw? <==> Stuck(old(disk)))
                && (out.Threw? ==> disk == old(disk))
    {
      if disk.journal.None? {
        return Done;
      }
      var j := disk.journal.value;
      if j.operation == Install {
        ValidInstalledIsExact(disk.dest, j.manifest);
        if ValidInstalled(disk.dest, j.manifest) {
          var committed := j.(phase := Committed);
          out := WriteJournal(committed);
          if out.Lost? { return; }
          // The tree was validated on the line above, so this cannot fall into the catch block.
          out := CleanCommitted(committed);
          return;
        }
        out := RollBack(j);
        return;
      }
      if j.phase == Committed {
        out := CleanCommitted(j);
        return;
      }
      ghost var before := disk;
      out := RestoreBackup(j);
      if CanRollBack(before, j) {
        RestoreSettles(before, disk, j);
      }
      if !out.Done? { return; }
      out := CleanRollback(j);
    }

    /** readManifest followed by assertOwnedOrAbsent: the destination is empty or exactly one recorded set. */
    method ReadOwned() returns (out: Outcome, previous: Option<Manifest>)
      ensures out.Done? <==> Owned(disk.dest)
      ensures out.Done? ==> disk.dest == PriorSet(previous)
      ensures !out.Lost?
    {
      previous := None;
      if Record in disk.dest {
        match disk.dest[Record] {
          case ManifestFile(m) =>
            previous := Some(m);
            ValidInstalledIsExact(disk.dest, m);
            out := if ValidInstalled(disk.dest, m) then Done else Threw;
          case _ =>
            out := Threw;
        }
      } else {
        out := if disk.dest == map[] then Done else Threw;
      }
    }

    /** Stage the new set beside the installed one, make the backup directory, and journal the transaction. */
    method Stage(next: Manifest, previous: Option<Manifest>) returns (out: Outcome, j: Journal)
      requires disk.journal.None?
      modifies this
      ensures out.Done? || (out.Lost? && !old(budget).Unlimited?)
      ensures old(budget).Unlimited? ==> budget.Unlimited?
      ensures disk.dest == old(disk).dest && (Fresh(old(disk)) ==> Fresh(disk))
      ensures out.Lost? ==> disk.journal.None?
      ensures out.Done? ==>
                && disk.journal == Some(j)
                && j == Journal(Install, Staged, next, previous, j.stage, j.backup) && j.stage != j.backup
                && j.stage in disk.dirs && disk.dirs[j.stage] == SetOf(next)
                && j.backup in disk.dirs && disk.dirs[j.backup] == map[]
      ensures Affords(old(budget), 7) ==> out.Done? && budget == After(old(budget), 7)
    {
      j := Journal(Install, Staged, next, previous, disk.nextId, disk.nextId + 1);
      var stage: nat;
      out, stage := MakeDirectory();
      if out.Lost? { return; }
      for i := 0 to 4
        invariant old(budget).Unlimited? ==> budget.Unlimited?
        invariant disk.journal.None? && disk.dest == old(disk).dest && (Fresh(old(disk)) ==> Fresh(disk))
        invariant disk.nextId == stage + 1
        invariant Affords(old(budget), 7) ==> budget == After(old(budget), 1 + i)
        invariant stage in disk.dirs && Submap(disk.dirs[stage], SetOf(next))
        invariant forall n: Name :: Index(n) < i ==> n in disk.dirs[stage]
      {
        var n := Order()[i];
        IndexOfOrder(i);
        out := PutStaged(stage, n, Wanted(next, n));
        if out.Lost? { return; }
      }
      assert disk.dirs[stage] == SetOf(next) by {
        assert forall n :: n in SetOf(next) ==> Index(n) < 4;
      }
      var backup: nat;
      out, backup := MakeDirectory();
      if out.Lost? { return; }
      out := WriteJournal(j);
    }

    /** A hook of the forward path threw: roll back, then rethrow. */
    method Abort(j: Journal) returns (out: Outcome)
      requires disk.journal == Some(j) && CanRollBack(disk, j)
      requires j.phase != Staged && (j.previous.Some? ==> j.backup in disk.dirs)
      modifies this
      ensures !out.Done? && Recoverable(disk)
      ensures old(budget).Unlimited? ==> budget.Unlimited? && !out.Lost?
      ensures out.Threw? ==> disk.journal.None? && disk.dest == PriorSet(j.previous)
      ensures out.Lost? ==> Settled(disk) == PriorSet(j.previous) || Settled(disk) == Settled(old(disk))
      ensures AllSwapped(old(disk), j) && old(budget) == Steps(11) ==> out.Lost? && RolledBack(disk, j)
    {
      out := RollBack(j);
      if out.Done? { out := Threw; }
    }

    /** The backing-up loop of installSkills: present entries move to the backup, absent ones are skipped. */
    method BackUpPresent(j: Journal, fault: nat -> bool) returns (out: Outcome)
      requires PartlyBackedUp(disk, j, 0) && j.operation == Install && j.phase == BackingUp
      modifies this
      ensures out.Done? ==> PartlyBackedUp(disk, j, 4) && SameElsewhere(old(disk), disk, j.backup)
      ensures !out.Done? ==> Recoverable(disk)
      ensures old(budget).Unlimited? ==> budget.Unlimited? && !out.Lost?
      ensures out.Threw? ==> disk.journal.None? && disk.dest == PriorSet(j.previous) && exists k: nat :: fault(k)
      ensures out.Lost? ==> Settled(disk) in {PriorSet(j.previous), SetOf(j.manifest)}
      ensures j.previous.Some? && OnlyLastFails(fault) && Affords(old(budget), 4) ==> out.Done? && budget == After(old(budget), 4)
      ensures old(budget).Unlimited? ==> (out.Done? <==> j.previous.None? || Quiet(fault, 0, 8))
    {
      ghost var unlimited, clear := budget.Unlimited?, j.previous.Some? && OnlyLastFails(fault) && Affords(budget, 4);
      for i := 0 to 4
        invariant unlimited ==> j.previous.None? || Quiet(fault, 0, 2 * i)
        invariant unlimited ==> budget.Unlimited?
        invariant PartlyBackedUp(disk, j, i) && SameElsewhere(old(disk), disk, j.backup)
        invariant clear ==> budget == After(old(budget), i)
      {
        out := BackUpEntry(j, i, fault);
        if !out.Done? { return; }
      }
      return Done;
    }

    /** One entry of that loop, with its two hooks. */
    method BackUpEntry(j: Journal, i: nat, fault: nat -> bool) returns (out: Outcome)
      requires i < 4 && PartlyBackedUp(disk, j, i) && j.operation == Install && j.phase == BackingUp
      modifies this
      ensures out.Done? ==> PartlyBackedUp(disk, j, i + 1) && SameElsewhere(old(disk), disk, j.backup)
      ensures !out.Done? ==> Recoverable(disk)
      ensures old(budget).Unlimited? ==> budget.Unlimited? && !out.Lost?
      ensures out.Threw? ==> disk.journal.None? && disk.dest == PriorSet(j.previous) && exists k: nat :: fault(k)
      ensures out.Lost? ==> Settled(disk) in {PriorSet(j.previous), SetOf(j.manifest)}
      ensures j.previous.Some? && !fault(2 * i) && !fault(2 * i + 1) && Affords(old(budget), 1) ==> out.Done? && budget == After(old(budget), 1)
      ensures old(budget).Unlimited? ==> (out.Done? <==> j.previous.None? || (!fault(2 * i) && !fault(2 * i + 1)))
    {
      var n := Order()[i];
      IndexOfOrder(i);
      PartlyBackedUpIsSafe(disk, j, i);
      if n in disk.dest {
        if fault(2 * i) { out := Abort(j); return; }
        out := RenameOut(n, j.backup);
        if out.Lost? { return; }
        PartlyBackedUpIsSafe(disk, j, i + 1);
        if fault(2 * i + 1) { out := Abort(j); return; }
      }
      return Done;
    }

    /** The swapping loop of installSkills: every staged entry moves to its free name in the destination. */
    method SwapIn(j: Journal, fault: nat -> bool) returns (out: Outcome)
      requires PartlySwapped(disk, j, 0) && j.operation == Install && j.phase == Swapping
      modifies this
      ensures out.Done? ==> PartlySwapped(disk, j, 4)
      ensures !out.Done? ==> Recoverable(disk)
      ensures old(budget).Unlimited? ==> budget.Unlimited? && !out.Lost?
      ensures out.Threw? ==> disk.journal.None? && disk.dest == PriorSet(j.previous) && exists k: nat :: fault(k)
      ensures out.Lost? ==> Settled(disk) in {PriorSet(j.previous), SetOf(j.manifest)}
      ensures OnlyLastFails(fault) && Affords(old(budget), 4) ==> out.Done? && budget == After(old(budget), 4)
      ensures old(budget).Unlimited? ==> (out.Done? <==> Quiet(fault, 8, 16))
    {
      for i := 0 to 4
        invariant old(budget).Unlimited? ==> Quiet(fault, 8, 8 + 2 * i)
        invariant old(budget).Unlimited? ==> budget.Unlimited?
        invariant PartlySwapped(disk, j, i)
        invariant OnlyLastFails(fault) && Affords(old(budget), 4) ==> budget == After(old(budget), i)
      {
        out := SwapEntry(j, i, fault);
        if !out.Done? { return; }
      }
      return Done;
    }

    /** One entry of that loop, with its two hooks. */
    method SwapEntry(j: Journal, i: nat, fault: nat -> bool) returns (out: Outcome)
      requires i < 4 && PartlySwapped(disk, j, i) && j.operation == Install && j.phase == Swapping
      modifies this
      ensures out.Done? ==> PartlySwapped(disk, j, i + 1)
      ensures !out.Done? ==> Recoverable(disk)
      ensures old(budget).Unlimited? ==> budget.Unlimited? && !out.Lost?
      ensures out.Threw? ==> disk.journal.None? && disk.dest == PriorSet(j.previous) && exists k: nat :: fault(k)
      ensures out.Lost? ==> Settled(disk) in {PriorSet(j.previous), SetOf(j.manifest)}
      ensures !fault(8 + 2 * i) && !fault(9 + 2 * i) && Affords(old(budget), 1) ==> out.Done? && budget == After(old(budget), 1)
      ensures old(budget).Unlimited? ==> (out.Done? <==> !fault(8 + 2 * i) && !fault(9 + 2 * i))
    {
      var n := Order()[i];
      IndexOfOrder(i);
      PartlySwappedIsSafe(disk, j, i);
      if fault(8 + 2 * i) { out := Abort(j); return; }
      out := RenameIn(j.stage, n);
      if out.Lost? { return; }
      PartlySwappedIsSafe(disk, j, i + 1);
      if fault(9 + 2 * i) { out := Abort(j); return; }
    }

    /** The end of installSkills: validate the swapped set, commit, clean up. */
    method CommitInstall(j: Journal, fault: nat -> bool) returns (out: Outcome)
      requires PartlySwapped(disk, j, 4) && j.operation == Install && j.phase == Swapping
      modifies this
      ensures Recoverable(disk)
      ensures old(budget).Unlimited? ==> budget.Unlimited? && !out.Lost?
      ensures out.Done? ==> disk.journal.None? && disk.dest == SetOf(j.manifest)
      ensures out.Threw? ==> disk.journal.None? && disk.dest == PriorSet(j.previous) && exists k: nat :: fault(k)
      ensures out.Lost? ==> Settled(disk) in {PriorSet(j.previous), SetOf(j.manifest)}
      ensures j.previous.Some? && OnlyLastFails(fault) && old(budget) == Steps(11) ==> out.Lost? && RolledBack(disk, j)
      ensures old(budget).Unlimited? ==> (out.Done? <==> !fault(16))
    {
      FullyMoved(disk.dest, disk.dirs[j.stage], SetOf(j.manifest));
      PartlySwappedIsSafe(disk, j, 4);
      ValidInstalledIsExact(disk.dest, j.manifest);
      if !ValidInstalled(disk.dest, j.manifest) || fault(16) {
        out := Abort(j);
        return;
      }
      var committed := j.(phase := Committed);
      out := WriteJournal(committed);
      if out.Lost? { return; }
      out := CleanCommitted(committed);
    }

    /** The journaled part of installSkills, from the staged journal to the return or the rethrow. */
    method Transact(staged: Journal, fault: nat -> bool) returns (out: Outcome)
      requires PartlyBackedUp(disk, staged, 0) && staged.operation == Install && staged.phase == Staged
      requires staged.stage in disk.dirs && disk.dirs[staged.stage] == SetOf(staged.manifest)
      modifies this
      ensures Recoverable(disk)
      ensures old(budget).Unlimited? ==> budget.Unlimited? && !out.Lost?
      ensures out.Done? ==> disk.journal.None? && disk.dest == SetOf(staged.manifest)
      ensures out.Threw? ==> disk.journal.None? && disk.dest == PriorSet(staged.previous) && exists k: nat :: fault(k)
      ensures out.Lost? ==> Settled(disk) in {PriorSet(staged.previous), SetOf(staged.manifest)}
      ensures staged.previous.Some? && OnlyLastFails(fault) && old(budget) == Steps(21) ==> out.Lost? && RolledBack(disk, staged)
      ensures old(budget).Unlimited? ==> (out.Done? <==> Quiet(fault, if staged.previous.None? then 8 else 0, 17))
    {
      StagedIsSafe(disk, staged);
      var j := staged.(phase := BackingUp);
      out := WriteJournal(j);
      if out.Lost? { return; }
      out := BackUpPresent(j, fault);
      if !out.Done? { return; }
      FullyMoved(disk.dirs[j.backup], disk.dest, PriorSet(j.previous));
      PartlyBackedUpIsSafe(disk, j, 4);
      j := j.(phase := Swapping);
      out := WriteJournal(j);
      if out.Lost? { return; }
      assert PartlySwapped(disk, j, 0);
      out := SwapIn(j, fault);
      if !out.Done? { return; }
      out := CommitInstall(j, fault);
    }

    /**
     installSkills: `fault(k)` says whether the k-th hook throws (two per backup move, two per swap
     move, then the one after validation). Whatever happens, the settled set is the old or the new one.
     */
    method InstallSkills(next: Manifest, fault: nat -> bool) returns (out: Outcome)
      requires Recoverable(disk)
      modifies this
      ensures Recoverable(disk)
      ensures old(budget).Unlimited? ==> budget.Unlimited? && !out.Lost?
      ensures out.Done? ==> disk.journal.None? && Settled(disk) == SetOf(next)
      ensures out.Threw? ==> Settled(disk) == Settled(old(disk))
      ensures out.Threw? && !Stuck(old(disk)) ==> disk.journal.None?
      ensures Stuck(old(disk)) ==> out.Threw? && disk == old(disk)
      ensures Settled(disk) == Settled(old(disk)) || Settled(disk) == SetOf(next)
      ensures old(budget).Unlimited? && !Stuck(old(disk)) ==>
                (out.Done? <==> Owned(Settled(old(disk))) && Quiet(fault, if Settled(old(disk)) == map[] then 8 else 0, 17))
      ensures old(disk).journal.None? && Owned(old(disk).dest) && old(disk).dest != map[] && OnlyLastFails(fault) && old(budget) == Steps(28) ==>
                disk.journal.Some? && disk.journal.value.manifest == next && disk.journal.value.operation == Install
                && RolledBack(disk, disk.journal.value) && disk.dest == old(disk).dest
    {
      out := Recover();
      if !out.Done? { return; }
      var previous;
      out, previous := ReadOwned();
      if out.Threw? { return; }
      assert previous.Some? ==> Record in disk.dest;
      var j;
      out, j := Stage(next, previous);
      if out.Lost? { return; }
      out := Transact(j, fault);
    }

    /** The backing-up loop of uninstallSkills: here every entry must be present. */
    method BackUpAll(j: Journal, fault: nat -> bool) returns (out: Outcome)
      requires PartlyBackedUp(disk, j, 0)
      requires j.operation == Uninstall && j.phase == BackingUp && j.previous == Some(j.manifest) && j.stage !in disk.dirs
      modifies this
      ensures out.Done? ==> PartlyBackedUp(disk, j, 4) && SameElsewhere(old(disk), disk, j.backup)
      ensures !out.Done? ==> CanRollBack(disk, j) && (j.backup in disk.dirs)
      ensures old(budget).Unlimited? ==> budget.Unlimited? && !out.Lost?
      ensures !out.Done? ==> Settled(disk) == SetOf(j.manifest)
      ensures out.Threw? ==> exists k: nat :: fault(k)
      ensures old(budget) == Steps(0) && !fault(0) ==> out.Lost? && disk == old(disk)
      ensures old(budget).Unlimited? ==> (out.Done? <==> Quiet(fault, 0, 8))
    {
      ghost var unlimited, stopped := budget.Unlimited?, budget == Steps(0) && !fault(0);
      for i := 0 to 4
        invariant unlimited ==> budget.Unlimited? && Quiet(fault, 0, 2 * i)
        invariant stopped ==> i == 0 && disk == old(disk) && budget == Steps(0)
        invariant PartlyBackedUp(disk, j, i) && SameElsewhere(old(disk), disk, j.backup)
      {
        out := TakeAway(j, i, fault);
        if !out.Done? { return; }
      }
      return Done;
    }

    /** One entry of that loop, with its two hooks. */
    method TakeAway(j: Journal, i: nat, fault: nat -> bool) returns (out: Outcome)
      requires i < 4 && PartlyBackedUp(disk, j, i)
      requires j.operation == Uninstall && j.phase == BackingUp && j.previous == Some(j.manifest) && j.stage !in disk.dirs
      modifies this
      ensures out.Done? ==> PartlyBackedUp(disk, j, i + 1) && SameElsewhere(old(disk), disk, j.backup)
      ensures !out.Done? ==> CanRollBack(disk, j) && (j.backup in disk.dirs) && Settled(disk) == SetOf(j.manifest)
      ensures out.Threw? ==> exists k: nat :: fault(k)
      ensures old(budget) == Steps(0) && !fault(2 * i) ==> out.Lost? && disk == old(disk)
      ensures old(budget).Unlimited? ==> budget.Unlimited? && !out.Lost? && (out.Done? <==> !fault(2 * i) && !fault(2 * i + 1))
    {
      IndexOfOrder(i);
      PartlyBackedUpIsSafe(disk, j, i);
      if fault(2 * i) { return Threw; }
      out := RenameOut(Order()[i], j.backup);
      if out.Lost? { return; }
      PartlyBackedUpIsSafe(disk, j, i + 1);
      if fault(2 * i + 1) { return Threw; }
      return Done;
    }

    /** The journaled part of uninstallSkills. */
    method TransactUninstall(j: Journal, fault: nat -> bool) returns (out: Outcome)
      requires PartlyBackedUp(disk, j, 0)
      requires j.operation == Uninstall && j.phase == BackingUp && j.previous == Some(j.manifest) && j.stage !in disk.dirs
      modifies this
      ensures Recoverable(disk)
      ensures old(budget).Unlimited? ==> budget.Unlimited? && !out.Lost?
      ensures out.Done? ==> disk.journal.None? && disk.dest == map[]
      ensures out.Threw? ==> disk.journal.None? && disk.dest == SetOf(j.manifest) && exists k: nat :: fault(k)
      ensures out.Lost? ==> Settled(disk) in {SetOf(j.manifest), map[]}
      ensures old(budget) == Steps(0) && !fault(0) ==> out.Lost? && disk == old(disk)
      ensures old(budget).Unlimited? ==> (out.Done? <==> Quiet(fault, 0, 8))
    {
      out := BackUpAll(j, fault);
      if out.Lost? { return; }
      if out.Threw? {
        out := Recover();
        if out.Done? { out := Threw; }
        return;
      }
      FullyMoved(disk.dirs[j.backup], disk.dest, PriorSet(j.previous));
      PartlyBackedUpIsSafe(disk, j, 4);
      var committed := j.(phase := Committed);
      out := WriteJournal(committed);
      if out.Lost? { return; }
      out := CleanCommitted(committed);
    }

    /** uninstallSkills: the settled set is the installed one until the commit is durable, then it is empty. */
    method UninstallSkills(fault: nat -> bool) returns (out: Outcome)
      requires Recoverable(disk)
      modifies this
      ensures Recoverable(disk)
      ensures old(budget).Unlimited? ==> budget.Unlimited? && !out.Lost?
      ensures out.Done? ==> disk.journal.None? && Settled(disk) == map[]
      ensures out.Threw? ==> Settled(disk) == Settled(old(disk))
      ensures out.Threw? && !Stuck(old(disk)) ==> disk.journal.None?
      ensures Stuck(old(disk)) ==> out.Threw? && disk == old(disk)
      ensures Settled(disk) == Settled(old(disk)) || Settled(disk) == map[]
      ensures old(budget).Unlimited? && !Stuck(old(disk)) ==>
                (out.Done? <==> Owned(Settled(old(disk))) && Settled(old(disk)) != map[] && Quiet(fault, 0, 8))
      ensures old(disk).journal.None? && Owned(old(disk).dest) && old(disk).dest != map[] && !fault(0) && old(budget) == Steps(2) ==>
                UninstallBegun(disk) && disk.dest == old(disk).dest
    {
      out := Recover();
      if !out.Done? { return; }
      var recorded;
      out, recorded := ReadOwned();
      if out.Threw? { return; }
      if recorded.None? { return Threw; }
      var m := recorded.value;
      assert Record in SetOf(m);
      // No uninstall ever makes a stage, so its name is one that is not in use.
      var j := Journal(Uninstall, BackingUp, m, Some(m), disk.nextId + 1, disk.nextId);
      var backup: nat;
      out, backup := MakeDirectory();
      if out.Lost? { return; }
      out := WriteJournal(j);
      if out.Lost? { return; }
      out := TransactUninstall(j, fault);
    }

    /** Any history of installs and uninstalls, each lost or failing wherever its budget and hooks say. */
    method History(calls: seq<Call>)
      requires Recoverable(disk)
      modifies this
      ensures Recoverable(disk)
      ensures Settled(disk) in Intended(calls, Settled(old(disk)))
      ensures Stuck(old(disk)) ==> disk == old(disk)
    {
      for i := 0 to |calls|
        invariant Recoverable(disk)
        invariant Settled(disk) in Intended(calls[..i], Settled(old(disk)))
        invariant Stuck(old(disk)) ==> disk == old(disk)
      {
        assert calls[..i + 1] == calls[..i] + [calls[i]];
        IntendedGrows(calls[..i], calls[i], Settled(old(disk)));
        budget := calls[i].budget;
        if calls[i].InstallCall? {
          var out := InstallSkills(calls[i].next, calls[i].fault);
        } else {
          var out := UninstallSkills(calls[i].fault);
        }
      }
      assert calls[..|calls|] == calls;
    }
  }

  datatype Call =
    | InstallCall(next: Manifest, fault: nat -> bool, budget: Budget)
    | UninstallCall(fault: nat -> bool, budget: Budget)

  /** The sets some call of the history asked for, and the one it started with. */
  ghost function Intended(calls: seq<Call>, start: Directory): set<Directory> {
    if calls == [] then {start}
    else
      var last := calls[|calls| - 1];
      Intended(calls[..|calls| - 1], start) + {if last.InstallCall? then SetOf(last.next) else map[]}
  }

  lemma IntendedGrows(calls: seq<Call>, call: Call, start: Directory)
    ensures Intended(calls + [call], start) ==
            Intended(calls, start) + {if call.InstallCall? then SetOf(call.next) else map[]}
  {
    assert (calls + [call])[..|calls|] == calls;
  }

  predicate HeldIn(dir: Directory, m: Manifest, n: Name) {
    n in dir && dir[n] == Wanted(m, n)
  }

  /**
   Until the new set is committed in the destination, or an uninstall is committed, every entry of the
   prior set is intact in exactly one of two places: the backup, or a destination name the backup lacks.
   */
  lemma PriorSetInExactlyOnePlace(d: Disk, j: Journal, prior: Manifest)
    requires Recoverable(d) && d.journal == Some(j) && j.previous == Some(prior)
    ensures || (j.phase == Committed && d.dest == if j.operation == Install then SetOf(j.manifest) else map[])
            || forall n: Name ::
                 var inBackup := j.backup in d.dirs && n in d.dirs[j.backup];
                 (inBackup && HeldIn(d.dirs[j.backup], prior, n)) != (!inBackup && HeldIn(d.dest, prior, n))
  {
  }

  /**
   Window (a) is reachable: an upgrade whose last hook throws rolls back, and the process is lost after its
   28th step, between removing the backup and removing the journal. Every later recovery throws.
   */
  method InstallRollbackWindow(older: Manifest, newer: Manifest) returns (h: Host, retried: Outcome)
    requires older != newer
    ensures fresh(h) && Recoverable(h.disk) && Stuck(h.disk)
    ensures h.disk.dest == SetOf(older) && retried.Threw?
  {
    h := new Host(Disk(SetOf(older), map[], None, [], 0), Steps(28));
    assert Record in SetOf(older);
    DistinctManifests(older, newer);
    var lost := h.InstallSkills(newer, k => k == 16);
    ValidInstalledIsExact(h.disk.dest, newer);
    h.budget := Unlimited;
    retried := h.Recover();
  }

  /**
   Window (b) is reachable: an uninstall is lost after its second step, before it moves anything; the
   recovery rolls back, journals `committed` with the old set in place, and is lost right there, after its
   ninth step. Every later recovery reads a committed uninstall and throws.
   */
  method UninstallRollbackWindow(m: Manifest) returns (h: Host, retried: Outcome)
    ensures fresh(h) && Recoverable(h.disk) && Stuck(h.disk)
    ensures h.disk.dest == SetOf(m) && retried.Threw?
  {
    h := new Host(Disk(SetOf(m), map[], None, [], 0), Steps(2));
    assert Record in SetOf(m);
    var lost := h.UninstallSkills(k => false);
    h.budget := Steps(9);
    var again := h.Recover();
    h.budget := Unlimited;
    retried := h.Recover();
  }

  lemma DistinctManifests(a: Manifest, b: Manifest)
    requires a != b
    ensures SetOf(a) != SetOf(b)
  {
    assert SetOf(a)[Record] != SetOf(b)[Record];
  }

  lemma SameValue<K, V>(m: map<K, V>, k: K)
    requires k in m
    ensures m[k := m[k]] == m
  {
  }

  lemma Overridden<K, V>(m: map<K, V>, k: K, v: V, w: V)
    ensures m[k := v][k := w] == m[k := w]
  {
  }
}

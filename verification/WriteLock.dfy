/** The index write lock (lock.rs). */
module WriteLock {
  // Interleaved steps of any number of processes, on any number of hosts, each of which may die at
  // any step. A lock is a directory with the owner's pid, host and heartbeat; every change of it
  // happens under an `flock` that the kernel releases when its holder dies.
  import opened Common

  /** A live process: host names and pids are unique together among live processes only, so
      a pid may come back once its process has died. */
  datatype Process = Process(host: string, pid: nat)

  const MAX_PID: nat := 0x7FFF_FFFF

  /** The lock directory: its files, each present or not, and whether it is younger than the
      grace period for a directory without a readable pid. */
  datatype LockDir = LockDir(pid: Option<nat>, host: Option<string>, heartbeat: bool, young: bool)

  /** Where a process stands in `try_acquire` or `drop`. Every position from `Create` to
      `Leave` is inside the `flock` critical section. */
  datatype Position =
    | Idle
    | AwaitGuard                                        // flock(guard) of try_acquire
    | Create                                            // create_dir
    | ReadHost                                          // inspect: host file
    | ReadPid(host: Option<string>)                     // inspect: pid file
    | Judge(host: Option<string>, pid: Option<nat>)     // inspect: age or liveness
    | Reclaim                                           // remove_dir_all of a dead lock
    | Recreate                                          // create_dir after a reclaim
    | WritePid
    | WriteHost
    | WriteHeartbeat
    | Leave(acquired: bool)                             // the guard is dropped
    | Holding                                           // an IndexLock is alive
    | AwaitDrop                                         // flock(guard) of drop
    | Dropping                                          // remove_dir_all of the own lock
    | LeaveDrop

  datatype State = Machine(live: map<Process, Position>, guard: Option<Process>, dir: Option<LockDir>)

  datatype File = PidFile | HostFile | HeartbeatFile

  datatype Action =
    | Spawn(p: Process)
    | Die(p: Process)              // crash or exit: the kernel drops the guard, the directory stays
    | Age                          // the directory outgrows the grace period
    | BeginAcquire(p: Process)
    | BeginDrop(p: Process)
    | DropUnguarded(p: Process)    // the guard of a drop fails: the directory goes without it
    | Heartbeat(p: Process)
    | RemoveFile(p: Process, file: File)  // remove_dir_all deletes the files in any order
    | Advance(p: Process)                 // the one next step of `p`
    | Fail(p: Process)                    // an I/O error ends `try_acquire` or `drop` early

  const NO_FILES := LockDir(None, None, false, true)

  /** `read_pid`: values that `kill` would not read as one process count as unreadable. */
  function Readable(pid: Option<nat>): Option<nat> {
    if pid.Some? && 0 < pid.value <= MAX_PID then pid else None
  }

  /** `inspect`, from what was read: true when the owner is provably gone. Without a readable
      pid that takes a directory past the grace period; with one, a dead process of this host. */
  predicate ProvablyGone(me: Process, host: Option<string>, pid: Option<nat>, young: bool, live: set<Process>) {
    match Readable(pid)
    case None => !young
    case Some(n) => (host.None? || host.value == me.host) && Process(me.host, n) !in live
  }

  predicate InCritical(pos: Position) {
    !pos.Idle? && !pos.AwaitGuard? && !pos.Holding? && !pos.AwaitDrop?
  }

  /** Positions in which the process owns the lock: acquired, and not yet removing it. */
  predicate Owns(pos: Position) {
    pos.Holding? || pos.AwaitDrop? || pos == Leave(true)
  }

  function At(s: State, p: Process, pos: Position): State {
    s.(live := s.live[p := pos])
  }

  function Without(d: LockDir, file: File): LockDir {
    match file
    case PidFile => d.(pid := None, young := true)
    case HostFile => d.(host := None, young := true)
    case HeartbeatFile => d.(heartbeat := false, young := true)
  }

  predicate Empty(d: LockDir) {
    d.pid.None? && d.host.None? && !d.heartbeat
  }

  /** The next step of `p` from its position; a step that must wait changes nothing. */
  function Progress(s: State, p: Process): State
    requires p in s.live
  {
    match s.live[p]
    case Idle => s
    case AwaitGuard => if s.guard.Some? then s else At(s, p, Create).(guard := Some(p))
    case Create => if s.dir.None? then At(s, p, WritePid).(dir := Some(NO_FILES)) else At(s, p, ReadHost)
    case ReadHost => At(s, p, ReadPid(if s.dir.Some? then s.dir.value.host else None))
    case ReadPid(host) => At(s, p, Judge(host, if s.dir.Some? then s.dir.value.pid else None))
    case Judge(host, pid) =>
      if s.dir.None? || ProvablyGone(p, host, pid, s.dir.value.young, s.live.Keys) then At(s, p, Reclaim)
      else At(s, p, Leave(false))
    case Reclaim =>
      if s.dir.None? then At(s, p, Recreate)
      else if Empty(s.dir.value) then At(s, p, Recreate).(dir := None)
      else s
    case Recreate => if s.dir.None? then At(s, p, WritePid).(dir := Some(NO_FILES)) else At(s, p, Leave(false))
    case WritePid =>
      if s.dir.None? then At(s, p, Leave(false))
      else At(s, p, WriteHost).(dir := Some(s.dir.value.(pid := Some(p.pid), young := true)))
    case WriteHost =>
      if s.dir.None? then At(s, p, Leave(false))
      else At(s, p, WriteHeartbeat).(dir := Some(s.dir.value.(host := Some(p.host), young := true)))
    case WriteHeartbeat =>
      if s.dir.None? then At(s, p, Leave(false))
      else At(s, p, Leave(true)).(dir := Some(s.dir.value.(heartbeat := true, young := true)))
    case Leave(acquired) => At(s, p, if acquired then Holding else Idle).(guard := None)
    case Holding => s
    case AwaitDrop => if s.guard.Some? then s else At(s, p, Dropping).(guard := Some(p))
    case Dropping =>
      if s.dir.None? then At(s, p, LeaveDrop)
      else if Empty(s.dir.value) then At(s, p, LeaveDrop).(dir := None)
      else s
    case LeaveDrop => At(s, p, Idle).(guard := None)
  }

  /** Where an I/O error sends a process: an acquirer gives up, a dropper stops removing. */
  function Failed(pos: Position): Position {
    if pos.Dropping? then LeaveDrop
    else if InCritical(pos) && !pos.Leave? && !pos.LeaveDrop? then Leave(false)
    else pos
  }

  /** Every action is possible at every time; one that does not apply changes nothing. */
  function Next(s: State, a: Action): State {
    match a
    case Spawn(p) => if p in s.live || p.pid == 0 || p.pid > MAX_PID then s else At(s, p, Idle)
    case Die(p) => s.(live := s.live - {p}, guard := if s.guard == Some(p) then None else s.guard)
    case Age => if s.dir.None? then s else s.(dir := Some(s.dir.value.(young := false)))
    case BeginAcquire(p) => if p in s.live && s.live[p].Idle? then At(s, p, AwaitGuard) else s
    case BeginDrop(p) => if p in s.live && s.live[p].Holding? then At(s, p, AwaitDrop) else s
    case DropUnguarded(p) => if p in s.live && s.live[p].AwaitDrop? then At(s, p, Idle).(dir := None) else s
    case Heartbeat(p) =>
      if p in s.live && s.live[p].Holding? && s.dir.Some? then s.(dir := Some(s.dir.value.(heartbeat := true))) else s
    case RemoveFile(p, file) =>
      if p in s.live && (s.live[p].Reclaim? || s.live[p].Dropping?) && s.dir.Some? then
        s.(dir := Some(Without(s.dir.value, file)))
      else s
    case Advance(p) => if p in s.live then Progress(s, p) else s
    case Fail(p) => if p in s.live then At(s, p, Failed(s.live[p])) else s
  }

  function Run(s: State, actions: seq<Action>): State {
    if actions == [] then s else Next(Run(s, actions[..|actions| - 1]), actions[|actions| - 1])
  }

  const START := Machine(map[], None, None)

  // ── The invariant ──────────────────────────────────────────────────────────

  /** The directory names `p` as its owner. */
  predicate Names(s: State, p: Process) {
    s.dir.Some? && s.dir.value.pid == Some(p.pid) && s.dir.value.host == Some(p.host)
  }

  /** What a process inside the critical section knows about the directory. */
  ghost predicate Knows(s: State, p: Process, pos: Position) {
    match pos
    case ReadPid(host) => s.dir.None? || host == s.dir.value.host
    case Judge(host, pid) => s.dir.None? || (host == s.dir.value.host && pid == s.dir.value.pid)
    case WriteHost => s.dir.None? || s.dir.value.pid == Some(p.pid)
    case WriteHeartbeat => s.dir.None? || Names(s, p)
    case _ => true
  }

  /** Positions that may only be reached while nobody owns the lock. */
  predicate Exclusive(pos: Position) {
    pos.Reclaim? || pos.Recreate? || pos.WritePid? || pos.WriteHost? || pos.WriteHeartbeat? || pos.Dropping?
  }

  ghost predicate Inv(s: State) {
    && (forall p | p in s.live :: 0 < p.pid <= MAX_PID)
    && (s.guard.Some? ==> s.guard.value in s.live && InCritical(s.live[s.guard.value]))
    && (forall p | p in s.live && InCritical(s.live[p]) :: s.guard == Some(p))
    && (forall p | p in s.live && Owns(s.live[p]) :: Names(s, p))
    && (forall p | p in s.live :: Knows(s, p, s.live[p]))
    && (forall p, q | p in s.live && q in s.live && Exclusive(s.live[p]) :: !Owns(s.live[q]))
  }

  /** One process moved to `pos`, and with it perhaps the guard and the directory. */
  lemma MoveKeepsInv(s: State, s': State, p: Process, pos: Position)
    requires Inv(s) && 0 < p.pid <= MAX_PID
    requires s'.live == s.live[p := pos]
    requires InCritical(pos) ==> s'.guard == Some(p)
    requires !InCritical(pos) ==> s'.guard == if s.guard == Some(p) then None else s.guard
    requires InCritical(pos) && !(p in s.live && InCritical(s.live[p])) ==> s.guard.None?
    requires s'.dir == s.dir || (p in s.live && InCritical(pos) && Exclusive(s.live[p])) || (InCritical(pos) && s.dir.None?)
    requires p in s.live || !InCritical(pos)
    requires Owns(pos) ==> Names(s', p)
    requires Knows(s', p, pos)
    requires Exclusive(pos) ==> forall q | q in s.live && q != p :: !Owns(s.live[q])
    requires Exclusive(pos) ==> !Owns(pos)
    requires Owns(pos) ==> forall q | q in s.live && q != p :: !Exclusive(s.live[q])
    ensures Inv(s')
  {
    forall q | q in s'.live && q != p
      ensures Knows(s', q, s'.live[q])
      ensures Owns(s'.live[q]) ==> Names(s', q)
    {
      assert Knows(s, q, s.live[q]);
    }
  }

  /** A verdict of "provably gone" is right: no live process owns the lock. */
  lemma GoneMeansUnowned(s: State, p: Process)
    requires Inv(s) && p in s.live && s.live[p].Judge? && Progress(s, p).live[p].Reclaim?
    ensures forall q | q in s.live :: !Owns(s.live[q])
  {
    forall q | q in s.live
      ensures !Owns(s.live[q])
    {
      assert Knows(s, p, s.live[p]);
      assert Owns(s.live[q]) ==> Names(s, q);
    }
  }

  lemma ProgressKeepsInv(s: State, p: Process)
    requires Inv(s) && p in s.live
    ensures Inv(Progress(s, p))
  {
    var s' := Progress(s, p);
    var pos := s.live[p];
    assert Knows(s, p, pos);
    if pos.Judge? {
      if s'.live[p].Reclaim? {
        GoneMeansUnowned(s, p);
      }
      MoveKeepsInv(s, s', p, s'.live[p]);
    } else {
      StraightProgressKeepsInv(s, p);
    }
  }

  lemma StraightProgressKeepsInv(s: State, p: Process)
    requires Inv(s) && p in s.live && !s.live[p].Judge?
    ensures Inv(Progress(s, p))
  {
    var pos := s.live[p];
    if Exclusive(pos) {
      ExclusiveProgressKeepsInv(s, p);
    } else if Owns(pos) || pos.LeaveDrop? {
      OwnerProgressKeepsInv(s, p);
    } else {
      var s' := Progress(s, p);
      assert Knows(s, p, pos);
      MoveKeepsInv(s, s', p, s'.live[p]);
    }
  }

  lemma ExclusiveProgressKeepsInv(s: State, p: Process)
    requires Inv(s) && p in s.live && Exclusive(s.live[p])
    ensures Inv(Progress(s, p))
  {
    var s' := Progress(s, p);
    assert Knows(s, p, s.live[p]);
    MoveKeepsInv(s, s', p, s'.live[p]);
  }

  lemma OwnerProgressKeepsInv(s: State, p: Process)
    requires Inv(s) && p in s.live && (Owns(s.live[p]) || s.live[p].LeaveDrop?)
    ensures Inv(Progress(s, p))
  {
    var s' := Progress(s, p);
    MoveKeepsInv(s, s', p, s'.live[p]);
  }

  lemma DirectoryTouched(s: State, s': State)
    requires Inv(s) && s' == s.(dir := s'.dir) && s.dir.Some? && s'.dir.Some?
    requires s'.dir.value.pid == s.dir.value.pid && s'.dir.value.host == s.dir.value.host
    ensures Inv(s')
  {
    forall q | q in s'.live
      ensures Knows(s', q, s'.live[q])
      ensures Owns(s'.live[q]) ==> Names(s', q)
    {
      assert Knows(s, q, s.live[q]);
    }
  }

  lemma DieKeepsInv(s: State, p: Process)
    requires Inv(s)
    ensures Inv(Next(s, Die(p)))
  {
    var s' := Next(s, Die(p));
    forall q | q in s'.live
      ensures Knows(s', q, s'.live[q])
      ensures Owns(s'.live[q]) ==> Names(s', q)
    {
      assert Knows(s, q, s.live[q]);
    }
  }

  lemma RemoveFileKeepsInv(s: State, p: Process, file: File)
    requires Inv(s)
    ensures Inv(Next(s, RemoveFile(p, file)))
  {
    var s' := Next(s, RemoveFile(p, file));
    if s' != s {
      assert s'.live == s.live[p := s.live[p]];
      MoveKeepsInv(s, s', p, s.live[p]);
    }
  }

  lemma FailKeepsInv(s: State, p: Process)
    requires Inv(s)
    ensures Inv(Next(s, Fail(p)))
  {
    if p in s.live {
      assert Knows(s, p, s.live[p]);
      MoveKeepsInv(s, Next(s, Fail(p)), p, Failed(s.live[p]));
    }
  }

  lemma OneOwner(s: State, p: Process, q: Process)
    requires Inv(s) && p in s.live && q in s.live && Owns(s.live[p]) && Owns(s.live[q])
    ensures p == q
  {
    assert Names(s, p) && Names(s, q);
  }

  /** Whoever holds the guard meanwhile finds the directory gone. */
  lemma DropUnguardedKeepsInv(s: State, p: Process)
    requires Inv(s)
    ensures Inv(Next(s, DropUnguarded(p)))
  {
    if p in s.live && s.live[p].AwaitDrop? {
      forall q | q in s.live && Owns(s.live[q])
        ensures q == p
      {
        OneOwner(s, p, q);
      }
    }
  }

  lemma OutsideStepKeepsInv(s: State, a: Action)
    requires Inv(s) && (a.Spawn? || a.BeginAcquire? || a.BeginDrop?)
    ensures Inv(Next(s, a))
  {
    var s' := Next(s, a);
    if s' != s {
      assert s'.live == s.live[a.p := s'.live[a.p]];
      MoveKeepsInv(s, s', a.p, s'.live[a.p]);
    }
  }

  lemma StepKeepsInv(s: State, a: Action)
    requires Inv(s)
    ensures Inv(Next(s, a))
  {
    match a
    case Die(p) => DieKeepsInv(s, p);
    case Age =>
      if s.dir.Some? {
        DirectoryTouched(s, Next(s, a));
      }
    case Heartbeat(p) =>
      if Next(s, a) != s {
        DirectoryTouched(s, Next(s, a));
      }
    case Advance(p) =>
      if p in s.live {
        ProgressKeepsInv(s, p);
      }
    case RemoveFile(p, file) => RemoveFileKeepsInv(s, p, file);
    case Fail(p) => FailKeepsInv(s, p);
    case DropUnguarded(p) => DropUnguardedKeepsInv(s, p);
    case _ => OutsideStepKeepsInv(s, a);
  }

  lemma {:induction false} RunKeepsInv(s: State, actions: seq<Action>)
    requires Inv(s)
    ensures Inv(Run(s, actions))
  {
    if actions != [] {
      RunKeepsInv(s, actions[..|actions| - 1]);
      StepKeepsInv(Run(s, actions[..|actions| - 1]), actions[|actions| - 1]);
    }
  }

  // ── Safety ─────────────────────────────────────────────────────────────────

  /** In every run, at most one live process owns the lock. */
  lemma MutualExclusion(actions: seq<Action>, p: Process, q: Process)
    ensures var s := Run(START, actions);
            p in s.live && q in s.live && Owns(s.live[p]) && Owns(s.live[q]) ==> p == q
  {
    RunKeepsInv(START, actions);
  }

  /** In every run, no action of another process changes who the directory names while its
      owner is alive: neither a reclaim nor a drop nor a failed acquire takes it away. */
  lemma OwnerKeepsDirectory(actions: seq<Action>, a: Action, p: Process)
    requires var s := Run(START, actions); p in s.live && Owns(s.live[p])
    requires a != Die(p) && a != BeginDrop(p) && a != DropUnguarded(p) && a != Advance(p)
    ensures var s := Run(START, actions);
            && Names(s, p) && Names(Next(s, a), p)
            && p in Next(s, a).live && Next(s, a).live[p] == s.live[p]
  {
    RunKeepsInv(START, actions);
    OwnerStays(Run(START, actions), a, p);
  }

  lemma OwnerStays(s: State, a: Action, p: Process)
    requires Inv(s) && p in s.live && Owns(s.live[p])
    requires a != Die(p) && a != BeginDrop(p) && a != DropUnguarded(p) && a != Advance(p)
    ensures Names(s, p) && Names(Next(s, a), p)
    ensures p in Next(s, a).live && Next(s, a).live[p] == s.live[p]
  {
    if a.Advance? && a.p in s.live {
      OwnerOutlastsProgress(s, a.p, p);
    } else if a.DropUnguarded? && a.p in s.live && Owns(s.live[a.p]) {
      OneOwner(s, a.p, p);
    }
  }

  lemma OwnerOutlastsProgress(s: State, q: Process, p: Process)
    requires Inv(s) && p in s.live && Owns(s.live[p]) && q in s.live && q != p
    ensures Names(Progress(s, q), p)
  {
    assert !Exclusive(s.live[q]);
  }

  /** What `remove_lock` does, whoever owns the lock. */
  function ForceRemove(s: State): State {
    s.(dir := None)
  }

  /** `n` steps of `p` with nobody else in between. */
  function Advances(s: State, p: Process, n: nat): State
    requires p in s.live
    decreases n
  {
    if n == 0 then s
    else
      assert p in Progress(s, p).live;
      Advances(Progress(s, p), p, n - 1)
  }

  lemma MetadataIsWritten(s: State, p: Process)
    requires p in s.live && s.live[p].WritePid? && s.dir.Some?
    ensures Advances(s, p, 3).live == s.live[p := Leave(true)]
  {
    var s1 := Progress(s, p);
    assert s1.live == s.live[p := WriteHost] && s1.dir.Some?;
    var s2 := Progress(s1, p);
    assert s2.live == s.live[p := WriteHeartbeat] && s2.dir.Some?;
    assert Advances(s1, p, 2) == Advances(s2, p, 1) == Advances(Progress(s2, p), p, 0);
  }

  lemma AbsentLockIsTaken(s: State, p: Process)
    requires p in s.live && s.live[p].AwaitGuard? && s.guard.None? && s.dir.None?
    ensures Advances(s, p, 5).live == s.live[p := Leave(true)]
  {
    var s1 := Progress(s, p);
    assert s1 == Machine(s.live[p := Create], Some(p), None);
    var s2 := Progress(s1, p);
    assert s2 == Machine(s.live[p := WritePid], Some(p), Some(NO_FILES));
    assert Advances(s, p, 5) == Advances(s1, p, 4) == Advances(s2, p, 3);
    MetadataIsWritten(s2, p);
  }

  /** Forced removal is outside the protocol: right after it a waiting process acquires the
      lock while the previous owner still holds it. */
  lemma ForcedRemovalBreaksExclusion(s: State, owner: Process, other: Process)
    requires Inv(s) && s.guard.None?
    requires owner in s.live && s.live[owner].Holding? && other in s.live && s.live[other].AwaitGuard?
    ensures var s' := Advances(ForceRemove(s), other, 5);
            owner in s'.live && other in s'.live && Owns(s'.live[owner]) && Owns(s'.live[other])
  {
    AbsentLockIsTaken(ForceRemove(s), other);
  }

  // ── One acquire, start to end ──────────────────────────────────────────────

  /** Whether `try_acquire` by `me` would take the lock as it stands. */
  predicate Available(s: State, me: Process) {
    s.dir.None? || ProvablyGone(me, s.dir.value.host, s.dir.value.pid, s.dir.value.young, s.live.Keys)
  }

  ghost predicate OnlyBy(p: Process, actions: seq<Action>) {
    forall a | a in actions :: a == Advance(p) || (a.RemoveFile? && a.p == p)
  }

  class IndexDir {
    var live: map<Process, Position>
    var guard: Option<Process>
    var dir: Option<LockDir>

    ghost function Snapshot(): State
      reads this
    {
      Machine(live, guard, dir)
    }

    constructor ()
      ensures Snapshot() == START
    {
      live, guard, dir := map[], None, None;
    }

    method Do(a: Action, ghost start: State, ghost trace: seq<Action>) returns (ghost trace': seq<Action>)
      requires Snapshot() == Run(start, trace)
      modifies this
      ensures Snapshot() == Next(old(Snapshot()), a)
      ensures trace' == trace + [a] && Snapshot() == Run(start, trace')
    {
      var s := Next(Machine(live, guard, dir), a);
      live, guard, dir := s.live, s.guard, s.dir;
      trace' := trace + [a];
      assert trace'[..|trace|] == trace;
    }

    /** `try_acquire` once the guard is free, with no other process in between: it takes the
        lock exactly when the directory is absent or its owner is provably gone, and what it
        does is a run of the protocol. A refused acquire leaves the directory as it was. */
    method TryAcquire(me: Process) returns (acquired: bool, ghost trace: seq<Action>)
      requires me in live && live[me].AwaitGuard? && guard.None?
      modifies this
      ensures OnlyBy(me, trace) && Snapshot() == Run(old(Snapshot()), trace)
      ensures acquired <==> Available(old(Snapshot()), me)
      ensures Snapshot() == if acquired then
                           Machine(old(live)[me := Holding], None, Some(LockDir(Some(me.pid), Some(me.host), true, true)))
                         else old(Snapshot()).(live := old(live)[me := Idle])
    {
      ghost var start := Snapshot();
      var present := dir.Some?;
      trace := CreateDir(me, start);
      if present {
        trace := Inspect(me, start, trace);
        if live[me].Leave? {
          trace := DropGuard(me, start, trace);
          return false, trace;
        }
        trace := Recreate(me, start, trace);
      }
      assert live == old(live)[me := WritePid];
      trace := WriteMetadata(me, start, trace);
      acquired := true;
    }

    /** `create_dir` under the guard. */
    method CreateDir(me: Process, ghost start: State) returns (ghost trace: seq<Action>)
      requires Snapshot() == start && me in live && live[me].AwaitGuard? && guard.None?
      modifies this
      ensures OnlyBy(me, trace) && Snapshot() == Run(start, trace)
      ensures guard == Some(me) && dir == Some(if old(dir).Some? then old(dir).value else NO_FILES)
      ensures live == old(live)[me := if old(dir).Some? then ReadHost else WritePid]
    {
      trace := Do(Advance(me), start, []);
      assert live == old(live)[me := Create];
      trace := Do(Advance(me), start, trace);
    }

    /** `inspect`: the host file, the pid file, then the verdict. */
    method Inspect(me: Process, ghost start: State, ghost before: seq<Action>) returns (ghost trace: seq<Action>)
      requires Snapshot() == Run(start, before) && OnlyBy(me, before)
      requires me in live && live[me].ReadHost? && dir.Some?
      modifies this
      ensures OnlyBy(me, trace) && Snapshot() == Run(start, trace)
      ensures guard == old(guard) && dir == old(dir)
      ensures live == old(live)[me := if Available(old(Snapshot()), me) then Position.Reclaim else Leave(false)]
    {
      trace := Do(Advance(me), start, before);
      trace := Do(Advance(me), start, trace);
      assert live.Keys == old(live).Keys;
      trace := Do(Advance(me), start, trace);
    }

    /** `remove_dir_all` of a dead lock, then `create_dir` again. */
    method Recreate(me: Process, ghost start: State, ghost before: seq<Action>) returns (ghost trace: seq<Action>)
      requires Snapshot() == Run(start, before) && OnlyBy(me, before)
      requires me in live && live[me].Reclaim? && dir.Some?
      modifies this
      ensures OnlyBy(me, trace) && Snapshot() == Run(start, trace)
      ensures guard == old(guard) && dir == Some(NO_FILES)
      ensures live == old(live)[me := WritePid]
    {
      trace := RemoveDirAll(me, start, before);
      trace := Do(Advance(me), start, trace);
      assert live == old(live)[me := Position.Recreate] && dir.None?;
      trace := Do(Advance(me), start, trace);
    }

    method RemoveDirAll(me: Process, ghost start: State, ghost before: seq<Action>) returns (ghost trace: seq<Action>)
      requires Snapshot() == Run(start, before) && OnlyBy(me, before)
      requires me in live && live[me].Reclaim? && dir.Some?
      modifies this
      ensures OnlyBy(me, trace) && Snapshot() == Run(start, trace)
      ensures live == old(live) && guard == old(guard) && dir.Some? && Empty(dir.value)
    {
      trace := Do(RemoveFile(me, PidFile), start, before);
      trace := Do(RemoveFile(me, HostFile), start, trace);
      trace := Do(RemoveFile(me, HeartbeatFile), start, trace);
    }

    method WriteMetadata(me: Process, ghost start: State, ghost before: seq<Action>) returns (ghost trace: seq<Action>)
      requires Snapshot() == Run(start, before) && OnlyBy(me, before)
      requires me in live && live[me].WritePid? && guard == Some(me) && dir == Some(NO_FILES)
      modifies this
      ensures OnlyBy(me, trace) && Snapshot() == Run(start, trace)
      ensures live == old(live)[me := Holding] && guard.None?
      ensures dir == Some(LockDir(Some(me.pid), Some(me.host), true, true))
    {
      trace := Do(Advance(me), start, before);
      assert live == old(live)[me := Position.WriteHost];
      trace := Do(Advance(me), start, trace);
      assert live == old(live)[me := Position.WriteHeartbeat];
      trace := Do(Advance(me), start, trace);
      assert live == old(live)[me := Leave(true)];
      trace := DropGuard(me, start, trace);
    }

    /** The guard goes at the end of `try_acquire`, whatever came of it. */
    method DropGuard(me: Process, ghost start: State, ghost before: seq<Action>) returns (ghost trace: seq<Action>)
      requires Snapshot() == Run(start, before) && OnlyBy(me, before)
      requires me in live && live[me].Leave? && guard == Some(me)
      modifies this
      ensures OnlyBy(me, trace) && Snapshot() == Run(start, trace)
      ensures live == old(live)[me := if old(live)[me].acquired then Holding else Idle] && guard.None? && dir == old(dir)
    {
      trace := Do(Advance(me), start, before);
    }
  }

  /** In every run, when the owner of the lock dies, the next acquire on its host takes the
      lock over, provided no new process there has come up with its pid; an acquire on
      another host never does. */
  lemma CrashedOwnerIsReclaimed(actions: seq<Action>, owner: Process, me: Process)
    requires var s := Run(START, actions); owner in s.live && Owns(s.live[owner])
    ensures var crashed := Next(Run(START, actions), Die(owner));
            && (Available(crashed, me) <==> me.host == owner.host)
            && !Available(Next(crashed, Spawn(owner)), me)
  {
    RunKeepsInv(START, actions);
    assert Names(Run(START, actions), owner);
  }
}

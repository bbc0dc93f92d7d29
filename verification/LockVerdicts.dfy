/** Verdicts on a lock. */
module LockVerdicts {
  // What an acquire makes of each kind of lock directory it can find, under every interleaving
  // (inspect and try_acquire in lock.rs).
  import opened Common
  import opened WriteLock
  import opened LockReclaim

  /** `me` has the guard and is about to create the directory. */
  predicate AtCreate(s: State, me: Process) {
    me in s.live && s.guard == Some(me) && s.live[me].Create?
  }

  /** No pid that `kill` would take for one process. */
  predicate Unidentified(d: LockDir) {
    d.pid.None? || d.pid.value == 0 || d.pid.value > 0x7FFF_FFFF
  }

  predicate Identifies(d: LockDir, n: nat) {
    d.pid == Some(n) && 0 < n <= 0x7FFF_FFFF
  }

  /** A missing host file is taken for this host. */
  predicate OfHost(d: LockDir, host: string) {
    d.host.None? || d.host.value == host
  }

  // ── Locks that are taken over ──────────────────────────────────────────────

  /** `me` gets the lock after twelve steps of its own at most, and has one to take until then. */
  ghost predicate Gets(s: State, actions: seq<Action>, me: Process) {
    && (EffectiveSteps(s, actions, me) >= 12 ==> AcquiredBy(s, actions, me))
    && (AcquiredBy(s, actions, me) || exists a :: Effective(Run(s, actions), a, me))
  }

  /** In every run, a directory without a readable pid that is past the grace period is taken over. */
  lemma AbandonedLockIsReplaced(before: seq<Action>, actions: seq<Action>, me: Process)
    requires var s := Run(START, before);
             AtCreate(s, me) && s.dir.Some? && Unidentified(s.dir.value) && !s.dir.value.young
    requires forall a | a in actions :: a != Die(me) && a != Fail(me)
    ensures Gets(Run(START, before), actions, me)
  {
    GoneOwnerIsReplaced(before, actions, me, None);
  }

  /** So is one that names a dead process of this host, or a dead one and no host. */
  lemma DeadOwnersLockIsReplaced(before: seq<Action>, actions: seq<Action>, me: Process, n: nat)
    requires var s := Run(START, before);
             && AtCreate(s, me) && s.dir.Some? && Identifies(s.dir.value, n) && OfHost(s.dir.value, me.host)
             && Process(me.host, n) !in s.live
    requires forall a | a in actions :: a != Die(me) && a != Fail(me) && a != Spawn(Process(me.host, n))
    ensures Gets(Run(START, before), actions, me)
  {
    GoneOwnerIsReplaced(before, actions, me, Some(n));
  }

  // ── Locks that are respected ───────────────────────────────────────────────

  /** The directory is still the one found: all of it when nobody is named, the names otherwise. */
  predicate Same(s: State, d: LockDir) {
    && s.dir.Some? && s.dir.value.pid == d.pid && s.dir.value.host == d.host
    && (Unidentified(d) ==> s.dir.value == d)
  }

  predicate Holds(s: State, me: Process, d: LockDir) {
    Same(s, d) && !ProvablyGone(me, d.host, d.pid, s.dir.value.young, s.live.Keys)
  }

  /** `me` holds the guard and is on its way to a refusal. */
  predicate Refusing(s: State, me: Process, d: LockDir) {
    && me in s.live && s.guard == Some(me) && Holds(s, me, d)
    && match s.live[me] {
         case Create => true
         case ReadHost => true
         case ReadPid(host) => host == d.host
         case Judge(host, pid) => host == d.host && pid == d.pid
         case Leave(acquired) => !acquired
         case _ => false
       }
  }

  function Left(s: State, me: Process): nat
    requires me in s.live
  {
    match s.live[me]
    case Create => 5
    case ReadHost => 4
    case ReadPid(_) => 3
    case Judge(_, _) => 2
    case _ => 1
  }

  /** What could turn the verdict: nobody ages an unidentified directory, nobody named of this host
      dies, and nobody removes a directory without the guard. */
  predicate Unturned(a: Action, me: Process, d: LockDir) {
    && a != Die(me) && a != Fail(me)
    && (Unidentified(d) ==> a != Age)
    && (!Unidentified(d) ==> !a.DropUnguarded? && (OfHost(d, me.host) ==> a != Die(Process(me.host, d.pid.value))))
  }

  /** `me` was turned away and the directory is still there. */
  predicate Refused(s: State, me: Process, d: LockDir) {
    me in s.live && s.live[me].Idle? && Same(s, d)
  }

  ghost predicate RefusedBy(s: State, actions: seq<Action>, me: Process, d: LockDir) {
    exists i: nat :: i <= |actions| && Refused(Run(s, actions[..i]), me, d)
  }

  lemma UnidentifiedIsUnowned(s: State, d: LockDir)
    requires Inv(s) && Same(s, d) && Unidentified(d)
    ensures forall q | q in s.live :: !Owns(s.live[q])
  {
    forall q | q in s.live
      ensures !Owns(s.live[q])
    {
      assert Owns(s.live[q]) ==> Names(s, q);
    }
  }

  /** Other processes leave the directory and the verdict alone. */
  lemma OthersKeepVerdict(s: State, a: Action, me: Process, d: LockDir)
    requires Inv(s) && Refusing(s, me, d) && Unturned(a, me, d) && a != Advance(me)
    ensures Refusing(Next(s, a), me, d) && Next(s, a).live[me] == s.live[me]
  {
    if Unidentified(d) {
      UnidentifiedIsUnowned(s, d);
    }
    if (a.Advance? || a.RemoveFile?) && a.p in s.live && a.p != me {
      OthersWait(s, me, a.p);
    }
  }

  lemma OwnStepRefuses(s: State, me: Process, d: LockDir)
    requires Refusing(s, me, d)
    ensures var s' := Progress(s, me);
            Refused(s', me, d) || (Refusing(s', me, d) && Left(s', me) + 1 == Left(s, me))
    ensures Effective(s, Advance(me), me)
  {
    assert Progress(s, me).live[me] != s.live[me];
  }

  lemma RefusedLater(s: State, actions: seq<Action>, me: Process, d: LockDir)
    requires actions != [] && RefusedBy(s, actions[..|actions| - 1], me, d)
    ensures RefusedBy(s, actions, me, d)
  {
    var init := actions[..|actions| - 1];
    var i: nat :| i <= |init| && Refused(Run(s, init[..i]), me, d);
    assert init[..i] == actions[..i];
  }

  lemma {:induction false} RefusalRun(s: State, actions: seq<Action>, me: Process, d: LockDir)
    requires Inv(s) && Refusing(s, me, d) && forall a | a in actions :: Unturned(a, me, d)
    ensures var s' := Run(s, actions);
            RefusedBy(s, actions, me, d) || (Refusing(s', me, d) && EffectiveSteps(s, actions, me) + Left(s', me) <= Left(s, me))
  {
    if actions != [] {
      var n := |actions| - 1;
      var before, a := Run(s, actions[..n]), actions[n];
      RefusalRun(s, actions[..n], me, d);
      RunKeepsInv(s, actions[..n]);
      if RefusedBy(s, actions[..n], me, d) {
        RefusedLater(s, actions, me, d);
      } else if a == Advance(me) {
        OwnStepRefuses(before, me, d);
        assert actions[..|actions|] == actions;
      } else {
        OthersKeepVerdict(before, a, me, d);
      }
    }
  }

  /** `me` is turned away after five steps of its own at most, has one to take until then, and the
      directory stays. */
  ghost predicate IsRefused(s: State, actions: seq<Action>, me: Process, d: LockDir) {
    && (EffectiveSteps(s, actions, me) >= 5 ==> RefusedBy(s, actions, me, d))
    && (RefusedBy(s, actions, me, d) || (Same(Run(s, actions), d) && exists a :: Effective(Run(s, actions), a, me)))
  }

  lemma HeldLockIsRespected(before: seq<Action>, actions: seq<Action>, me: Process)
    requires var s := Run(START, before); AtCreate(s, me) && s.dir.Some? && Holds(s, me, s.dir.value)
    requires var d := Run(START, before).dir.value; forall a | a in actions :: Unturned(a, me, d)
    ensures IsRefused(Run(START, before), actions, me, Run(START, before).dir.value)
  {
    var s := Run(START, before);
    RunKeepsInv(START, before);
    RefusalRun(s, actions, me, s.dir.value);
    if !RefusedBy(s, actions, me, s.dir.value) {
      OwnStepRefuses(Run(s, actions), me, s.dir.value);
    }
  }

  /** In every run, a directory without a readable pid is left alone during the grace period. */
  lemma YoungLockIsRespected(before: seq<Action>, actions: seq<Action>, me: Process)
    requires var s := Run(START, before);
             AtCreate(s, me) && s.dir.Some? && Unidentified(s.dir.value) && s.dir.value.young
    requires forall a | a in actions :: a != Die(me) && a != Fail(me) && a != Age
    ensures IsRefused(Run(START, before), actions, me, Run(START, before).dir.value)
  {
    HeldLockIsRespected(before, actions, me);
  }

  /** So is one that names a process of another host, whatever happened to it, until it removes the
      directory itself. */
  lemma ForeignLockIsRespected(before: seq<Action>, actions: seq<Action>, me: Process, n: nat)
    requires var s := Run(START, before);
             AtCreate(s, me) && s.dir.Some? && Identifies(s.dir.value, n) && !OfHost(s.dir.value, me.host)
    requires forall a | a in actions :: a != Die(me) && a != Fail(me) && !a.DropUnguarded?
    ensures IsRefused(Run(START, before), actions, me, Run(START, before).dir.value)
  {
    HeldLockIsRespected(before, actions, me);
  }

  /** And one that names a live process of this host, or a live one and no host. */
  lemma LiveOwnersLockIsRespected(before: seq<Action>, actions: seq<Action>, me: Process, n: nat)
    requires var s := Run(START, before);
             && AtCreate(s, me) && s.dir.Some? && Identifies(s.dir.value, n) && OfHost(s.dir.value, me.host)
             && Process(me.host, n) in s.live
    requires forall a | a in actions ::
               a != Die(me) && a != Fail(me) && !a.DropUnguarded? && a != Die(Process(me.host, n))
    ensures IsRefused(Run(START, before), actions, me, Run(START, before).dir.value)
  {
    HeldLockIsRespected(before, actions, me);
  }

  // ── A crash before the pid is written ──────────────────────────────────────

  lemma RunMore(s: State, actions: seq<Action>, a: Action)
    ensures Run(s, actions + [a]) == Next(Run(s, actions), a)
  {
    assert (actions + [a])[..|actions|] == actions;
  }

  /** In every run, when a process dies between creating the directory and writing its pid, and a
      process that waits for the guard gets it: past the grace period it gets the lock, under every
      interleaving; before that it is turned away with the directory as it was. */
  lemma CrashBeforePid(before: seq<Action>, p: Process, me: Process, actions: seq<Action>)
    requires var s := Run(START, before);
             && p in s.live && s.guard == Some(p) && s.live[p].WritePid?
             && s.dir.Some? && s.dir.value.pid.None? && s.dir.value.young
             && me in s.live && s.live[me].AwaitGuard?
    requires forall a | a in actions :: a != Die(me) && a != Fail(me)
    ensures Gets(Run(START, before + [Die(p)] + [Age] + [Advance(me)]), actions, me)
    ensures Age !in actions ==>
              IsRefused(Run(START, before + [Die(p)] + [Advance(me)]), actions, me, Run(START, before).dir.value)
  {
    RunMore(START, before, Die(p));
    RunMore(START, before + [Die(p)], Age);
    RunMore(START, before + [Die(p)] + [Age], Advance(me));
    RunMore(START, before + [Die(p)], Advance(me));
    AbandonedLockIsReplaced(before + [Die(p)] + [Age] + [Advance(me)], actions, me);
    if Age !in actions {
      YoungLockIsRespected(before + [Die(p)] + [Advance(me)], actions, me);
    }
  }

  // ── Beginnings and ends ────────────────────────────────────────────────────

  /** Any host's process may come up under a pid in range, and one that is idle may start to wait. */
  lemma ProcessesBegin(s: State, p: Process)
    requires 0 < p.pid <= 0x7FFF_FFFF && p !in s.live
    ensures Next(s, Spawn(p)) == s.(live := s.live[p := Idle])
    ensures Next(Next(s, Spawn(p)), BeginAcquire(p)) == s.(live := s.live[p := AwaitGuard])
  {
    assert s.live[p := Idle][p := AwaitGuard] == s.live[p := AwaitGuard];
  }

  /** A directory is young and empty when it is made. */
  lemma NewDirectoryIsYoung(s: State, p: Process)
    requires p in s.live && (s.live[p].Create? || s.live[p].Recreate?) && s.dir.None?
    ensures Next(s, Advance(p)) == s.(live := s.live[p := WritePid], dir := Some(LockDir(None, None, false, true)))
  {
  }

  /** A heartbeat of the owner writes its file and nothing else. */
  lemma HeartbeatIsWritten(s: State, p: Process)
    requires p in s.live && s.live[p].Holding? && s.dir.Some?
    ensures Next(s, Heartbeat(p)) == s.(dir := Some(s.dir.value.(heartbeat := true)))
  {
  }

  /** An I/O error while acquiring, wherever it happens, ends without the lock and without the guard,
      and leaves the directory as it is then. */
  lemma FailedAcquireLetsGo(before: seq<Action>, p: Process)
    requires var s := Run(START, before);
             && p in s.live && InCritical(s.live[p]) && !s.live[p].Dropping? && !s.live[p].Leave? && !s.live[p].LeaveDrop?
    ensures var s := Run(START, before);
            Run(START, before + [Fail(p)] + [Advance(p)]) == Machine(s.live[p := Idle], None, s.dir)
  {
    RunMore(START, before, Fail(p));
    RunMore(START, before + [Fail(p)], Advance(p));
    var s := Run(START, before);
    assert s.live[p := Leave(false)][p := Idle] == s.live[p := Idle];
  }

  /** The steps of a drop that nobody disturbs. */
  function DropSteps(p: Process): seq<Action> {
    [BeginDrop(p)] + [Advance(p)] + [RemoveFile(p, PidFile)] + [RemoveFile(p, HostFile)] + [RemoveFile(p, HeartbeatFile)]
    + [Advance(p)] + [Advance(p)]
  }

  lemma DropBegins(s: State, p: Process)
    requires p in s.live && s.live[p].Holding? && s.guard.None?
    ensures Next(Next(s, BeginDrop(p)), Advance(p)) == Machine(s.live[p := Dropping], Some(p), s.dir)
  {
    assert s.live[p := AwaitDrop][p := Dropping] == s.live[p := Dropping];
  }

  lemma FilesGo(s: State, p: Process)
    requires p in s.live && s.live[p].Dropping? && s.dir.Some?
    ensures Next(Next(Next(s, RemoveFile(p, PidFile)), RemoveFile(p, HostFile)), RemoveFile(p, HeartbeatFile))
         == s.(dir := Some(LockDir(None, None, false, true)))
  {
  }

  lemma DropEnds(s: State, p: Process)
    requires p in s.live && s.live[p].Dropping? && s.guard == Some(p) && s.dir == Some(LockDir(None, None, false, true))
    ensures Next(Next(s, Advance(p)), Advance(p)) == Machine(s.live[p := Idle], None, None)
  {
    assert s.live[p := LeaveDrop][p := Idle] == s.live[p := Idle];
  }

  lemma RunsDrop(s: State, p: Process)
    ensures Run(s, DropSteps(p)) ==
              var begun := Next(Next(s, BeginDrop(p)), Advance(p));
              var gone := Next(Next(Next(begun, RemoveFile(p, PidFile)), RemoveFile(p, HostFile)), RemoveFile(p, HeartbeatFile));
              Next(Next(gone, Advance(p)), Advance(p))
  {
    var two := [BeginDrop(p)] + [Advance(p)];
    var five := two + [RemoveFile(p, PidFile)] + [RemoveFile(p, HostFile)] + [RemoveFile(p, HeartbeatFile)];
    RunOnce(s, BeginDrop(p));
    RunMore(s, [BeginDrop(p)], Advance(p));
    RunMore(s, two, RemoveFile(p, PidFile));
    RunMore(s, two + [RemoveFile(p, PidFile)], RemoveFile(p, HostFile));
    RunMore(s, two + [RemoveFile(p, PidFile)] + [RemoveFile(p, HostFile)], RemoveFile(p, HeartbeatFile));
    RunMore(s, five, Advance(p));
    RunMore(s, five + [Advance(p)], Advance(p));
  }

  /** A drop removes the directory and gives up lock and guard. */
  lemma DropReleases(s: State, p: Process)
    requires p in s.live && s.live[p].Holding? && s.guard.None? && s.dir.Some?
    ensures Run(s, DropSteps(p)) == Machine(s.live[p := Idle], None, None)
  {
    RunsDrop(s, p);
    DropBegins(s, p);
    var begun := Machine(s.live[p := Dropping], Some(p), s.dir);
    FilesGo(begun, p);
    DropEnds(begun.(dir := Some(LockDir(None, None, false, true))), p);
    assert s.live[p := Dropping][p := Idle] == s.live[p := Idle];
  }

  lemma RunOnce(s: State, a: Action)
    ensures Run(s, [a]) == Next(s, a)
  {
    assert [a][..0] == [];
    assert Run(s, [a][..0]) == s;
  }

  /** Without the guard too. */
  lemma UnguardedDropReleases(s: State, p: Process)
    requires p in s.live && s.live[p].Holding?
    ensures Next(Next(s, BeginDrop(p)), DropUnguarded(p)) == s.(live := s.live[p := Idle], dir := None)
  {
    assert s.live[p := AwaitDrop][p := Idle] == s.live[p := Idle];
  }
}

/** A dead owner's lock is taken over. */
module LockReclaim {
  // Once a process holds the guard and finds a lock whose owner is provably gone, its own steps
  // end with the lock, whatever every other process does in between (lock.rs).
  import opened Common
  import opened WriteLock

  /** The directory as `me` must judge it: the owner provably gone, `named` being its pid. */
  predicate Gone(s: State, me: Process, named: Option<nat>) {
    && s.dir.Some? && Readable(s.dir.value.pid) == named
    && ProvablyGone(me, s.dir.value.host, s.dir.value.pid, s.dir.value.young, s.live.Keys)
  }

  /** `me` holds the guard and is on its way to the lock. */
  predicate OnPath(s: State, me: Process, named: Option<nat>) {
    && me in s.live && s.guard == Some(me)
    && match s.live[me] {
         case Create => s.dir.None? || Gone(s, me, named)
         case ReadHost => Gone(s, me, named)
         case ReadPid(host) => Gone(s, me, named) && host == s.dir.value.host
         case Judge(host, pid) => Gone(s, me, named) && host == s.dir.value.host && pid == s.dir.value.pid
         case Reclaim => true
         case Recreate => s.dir.None?
         case WritePid => s.dir.Some?
         case WriteHost => s.dir.Some?
         case WriteHeartbeat => s.dir.Some?
         case Leave(acquired) => acquired
         case _ => false
       }
  }

  /** Files `remove_dir_all` still has to delete. */
  function Files(dir: Option<LockDir>): nat {
    if dir.None? then 0
    else
      (if dir.value.pid.Some? then 1 else 0) + (if dir.value.host.Some? then 1 else 0)
      + (if dir.value.heartbeat then 1 else 0)
  }

  /** How many steps of its own `me` is away from the lock at most. */
  function Rank(s: State, me: Process): nat
    requires me in s.live
  {
    match s.live[me]
    case Create => 12
    case ReadHost => 11
    case ReadPid(_) => 10
    case Judge(_, _) => 9
    case Reclaim => 5 + Files(s.dir)
    case Recreate => 4
    case WritePid => 3
    case WriteHost => 2
    case WriteHeartbeat => 1
    case _ => 0
  }

  predicate HasFile(s: State, file: File) {
    s.dir.Some? && match file {
      case PidFile => s.dir.value.pid.Some?
      case HostFile => s.dir.value.host.Some?
      case HeartbeatFile => s.dir.value.heartbeat
    }
  }

  /** A step of `me` that does something: it moves on, or deletes a file that is there. */
  predicate Effective(s: State, a: Action, me: Process) {
    me in s.live && match a {
      case Advance(p) => p == me && Progress(s, me) != s
      case RemoveFile(p, file) => p == me && s.live[me].Reclaim? && HasFile(s, file)
      case _ => false
    }
  }

  /** Neither does `me` die or fail, nor does a process come up with the dead owner's pid. */
  predicate Undisturbed(a: Action, me: Process, named: Option<nat>) {
    a != Die(me) && a != Fail(me) && (named.Some? ==> a != Spawn(Process(me.host, named.value)))
  }

  predicate Acquired(s: State, me: Process) {
    me in s.live && s.live[me] == Leave(true)
  }

  // ── One step ───────────────────────────────────────────────────────────────

  lemma GoneIsUnowned(s: State, me: Process, named: Option<nat>)
    requires Inv(s) && Gone(s, me, named)
    ensures forall q | q in s.live :: !Owns(s.live[q])
  {
    forall q | q in s.live
      ensures !Owns(s.live[q])
    {
      assert Owns(s.live[q]) ==> Names(s, q);
    }
  }

  lemma PathIsUnowned(s: State, me: Process, named: Option<nat>)
    requires Inv(s) && OnPath(s, me, named) && !Acquired(s, me)
    ensures forall q | q in s.live :: !Owns(s.live[q])
  {
    if Gone(s, me, named) {
      GoneIsUnowned(s, me, named);
    } else if s.dir.None? {
      assert forall q :: !Names(s, q);
    }
  }

  /** A process that neither has nor gets the guard cannot touch the directory. */
  lemma OthersWait(s: State, me: Process, q: Process)
    requires Inv(s) && s.guard == Some(me) && q in s.live && q != me
    ensures Progress(s, q) == s
    ensures !s.live[q].Reclaim? && !s.live[q].Dropping?
  {
    assert !InCritical(s.live[q]);
  }

  /** What any other action leaves of the directory. */
  predicate Untouched(s: State, s': State) {
    match s.dir
    case None => s'.dir.None?
    case Some(d) => s'.dir.Some? && s'.dir.value == d.(young := s'.dir.value.young) && (s'.dir.value.young ==> d.young)
  }

  lemma OtherActions(s: State, a: Action, me: Process, named: Option<nat>)
    requires Inv(s) && OnPath(s, me, named) && !Acquired(s, me)
    requires a != Advance(me) && !(a.RemoveFile? && a.p == me) && a != Die(me) && a != Fail(me)
    ensures var s' := Next(s, a);
            && me in s'.live && s'.live[me] == s.live[me] && s'.guard == s.guard && Untouched(s, s')
            && (a.Spawn? || s'.live.Keys <= s.live.Keys)
  {
    PathIsUnowned(s, me, named);
    if a.Advance? && a.p in s.live {
      OthersWait(s, me, a.p);
    } else if a.RemoveFile? && a.p in s.live {
      OthersWait(s, me, a.p);
    }
  }

  lemma OthersKeepPath(s: State, a: Action, me: Process, named: Option<nat>)
    requires Inv(s) && OnPath(s, me, named) && !Acquired(s, me) && Undisturbed(a, me, named)
    requires a != Advance(me) && !(a.RemoveFile? && a.p == me)
    ensures OnPath(Next(s, a), me, named) && Rank(Next(s, a), me) == Rank(s, me)
  {
    OtherActions(s, a, me, named);
    var s' := Next(s, a);
    assert Files(s'.dir) == Files(s.dir);
    if Gone(s, me, named) {
      GoneStays(s, s', a, me, named);
    }
  }

  lemma GoneStays(s: State, s': State, a: Action, me: Process, named: Option<nat>)
    requires Gone(s, me, named) && Untouched(s, s') && Undisturbed(a, me, named) && s' == Next(s, a)
    requires a.Spawn? || s'.live.Keys <= s.live.Keys
    ensures Gone(s', me, named)
  {
  }

  /** Every step of `me` that does something brings it nearer, and no step takes it away. */
  lemma OwnStep(s: State, a: Action, me: Process, named: Option<nat>)
    requires OnPath(s, me, named) && !Acquired(s, me) && (a == Advance(me) || (a.RemoveFile? && a.p == me))
    ensures OnPath(Next(s, a), me, named)
    ensures Rank(Next(s, a), me) + (if Effective(s, a, me) then 1 else 0) <= Rank(s, me)
  {
    if a.RemoveFile? {
      FileRemoved(s, a.file);
    }
  }

  lemma FileRemoved(s: State, file: File)
    ensures s.dir.Some? ==>
              Files(Some(Without(s.dir.value, file))) + (if HasFile(s, file) then 1 else 0) == Files(s.dir)
  {
  }

  /** Until it has the lock, `me` always has a step that does something. */
  lemma SomeStepIsEffective(s: State, me: Process, named: Option<nat>) returns (a: Action)
    requires OnPath(s, me, named) && !Acquired(s, me)
    ensures (a == Advance(me) || (a.RemoveFile? && a.p == me)) && Effective(s, a, me)
  {
    if s.live[me].Reclaim? && s.dir.Some? && !Empty(s.dir.value) {
      var d := s.dir.value;
      a := RemoveFile(me, if d.pid.Some? then PidFile else if d.host.Some? then HostFile else HeartbeatFile);
    } else {
      a := Advance(me);
      assert Progress(s, me).live[me] != s.live[me];
    }
  }

  // ── Every interleaving ─────────────────────────────────────────────────────

  /** The steps of a run in which `me` does something. */
  function EffectiveSteps(s: State, actions: seq<Action>, me: Process): nat {
    if actions == [] then 0
    else
      var n := |actions| - 1;
      EffectiveSteps(s, actions[..n], me) + if Effective(Run(s, actions[..n]), actions[n], me) then 1 else 0
  }

  ghost predicate AcquiredBy(s: State, actions: seq<Action>, me: Process) {
    exists i: nat :: i <= |actions| && Acquired(Run(s, actions[..i]), me)
  }

  lemma AcquiredLater(s: State, actions: seq<Action>, me: Process)
    requires actions != [] && AcquiredBy(s, actions[..|actions| - 1], me)
    ensures AcquiredBy(s, actions, me)
  {
    var init := actions[..|actions| - 1];
    var i: nat :| i <= |init| && Acquired(Run(s, init[..i]), me);
    assert init[..i] == actions[..i];
  }

  lemma {:induction false} PathRun(s: State, actions: seq<Action>, me: Process, named: Option<nat>)
    requires Inv(s) && OnPath(s, me, named) && forall a | a in actions :: Undisturbed(a, me, named)
    ensures var s' := Run(s, actions);
            AcquiredBy(s, actions, me) ||
            (OnPath(s', me, named) && EffectiveSteps(s, actions, me) + Rank(s', me) <= Rank(s, me))
  {
    if actions != [] {
      var n := |actions| - 1;
      var before, a := Run(s, actions[..n]), actions[n];
      PathRun(s, actions[..n], me, named);
      if AcquiredBy(s, actions[..n], me) {
        AcquiredLater(s, actions, me);
      } else {
        assert actions[..n][..n] == actions[..n];
        RunKeepsInv(s, actions[..n]);
        if a == Advance(me) || (a.RemoveFile? && a.p == me) {
          OwnStep(before, a, me, named);
        } else {
          OthersKeepPath(before, a, me, named);
        }
      }
    }
  }

  /** In every run, once a process holds the guard while the lock is there for the taking, it gets
      the lock after at most twelve steps of its own, under every interleaving in which it
      neither dies nor fails and the dead owner's pid does not come back; and until then it
      always has such a step to take. */
  lemma GoneOwnerIsReplaced(before: seq<Action>, actions: seq<Action>, me: Process, named: Option<nat>)
    requires var s := Run(START, before);
             && me in s.live && s.guard == Some(me) && s.live[me].Create?
             && (s.dir.None? || Gone(s, me, named))
    requires forall a | a in actions :: Undisturbed(a, me, named)
    ensures var s := Run(START, before);
            && (EffectiveSteps(s, actions, me) >= 12 ==> AcquiredBy(s, actions, me))
            && (AcquiredBy(s, actions, me) || exists a :: Effective(Run(s, actions), a, me))
  {
    var s := Run(START, before);
    RunKeepsInv(START, before);
    PathRun(s, actions, me, named);
    if !AcquiredBy(s, actions, me) {
      var s' := Run(s, actions);
      assert actions[..|actions|] == actions;
      var a := SomeStepIsEffective(s', me, named);
      RankIsPositive(s', me, named);
    }
  }

  lemma RankIsPositive(s: State, me: Process, named: Option<nat>)
    requires OnPath(s, me, named) && !Acquired(s, me)
    ensures Rank(s, me) > 0
  {
  }

  /** A lock that names a dead process of the same host is such a lock. */
  lemma DeadOwnerIsGone(s: State, me: Process, pid: nat)
    requires s.dir.Some? && s.dir.value.pid == Some(pid) && s.dir.value.host == Some(me.host)
    requires 0 < pid <= MAX_PID
    ensures Gone(s, me, Some(pid)) <==> Process(me.host, pid) !in s.live
  {
  }
}

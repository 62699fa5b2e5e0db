/** The accounting of task.c and the timers of fd.c over whole runs. */
module TaskCount {
  import opened TaskLocks
  import opened TaskModel
  import opened TaskPlaces
  import opened TaskResume

  /** The live tasks that are not system tasks. */
  function Users(loc: map<Task, Loc>, system: set<Task>): set<Task> {
    set t | t in loc && t !in system
  }

  /** How many of the tasks in `q` are not system tasks. */
  function UsersIn(q: seq<Task>, system: set<Task>): nat {
    if q == [] then 0 else (if q[0] in system then 0 else 1) + UsersIn(q[1..], system)
  }

  /** taskcount counts the live non-system tasks, and one more while any of them sleeps. */
  ghost predicate Counted(s: State) {
    && s.taskcount == |Users(s.loc, s.system)| + (if s.sleepingcounted > 0 then 1 else 0)
    && s.sleepingcounted == UsersIn(s.sleeping, s.system)
    && forall t :: t in s.system ==> t < s.nextid
  }

  ghost predicate Sorted(q: seq<Task>, alarm: map<Task, nat>) {
    forall i, j :: 0 <= i < j < |q| ==> AlarmIn(alarm, q[i]) <= AlarmIn(alarm, q[j])
  }

  lemma {:induction false} UsersInConcat(a: seq<Task>, b: seq<Task>, system: set<Task>)
    ensures UsersIn(a + b, system) == UsersIn(a, system) + UsersIn(b, system)
  {
    if a == [] {
      assert a + b == b;
    } else {
      assert (a + b)[1..] == a[1..] + b;
      UsersInConcat(a[1..], b, system);
    }
  }

  lemma {:induction false} UsersInGrown(q: seq<Task>, system: set<Task>, t: Task)
    requires t !in q
    ensures UsersIn(q, system + {t}) == UsersIn(q, system)
  {
    if q != [] { UsersInGrown(q[1..], system, t); }
  }

  lemma {:induction false} UsersInSome(q: seq<Task>, system: set<Task>) returns (t: Task)
    requires UsersIn(q, system) > 0
    ensures t in q && t !in system
  {
    if q[0] !in system { t := q[0]; } else { t := UsersInSome(q[1..], system); }
  }

  /** A step that neither creates nor ends tasks nor touches the sleep queue. */
  ghost predicate Uncounted(s: State, s': State) {
    && s'.loc.Keys == s.loc.Keys && s'.system == s.system && s'.sleeping == s.sleeping && s'.alarm == s.alarm &&
      s'.nextid == s.nextid
    && s'.taskcount == s.taskcount && s'.sleepingcounted == s.sleepingcounted
  }

  lemma UncountedKeeps(s: State, s': State)
    requires Counted(s) && Uncounted(s, s')
    ensures Counted(s')
  {
    assert Users(s'.loc, s'.system) == Users(s.loc, s.system);
  }

  lemma CreateCounted(s: State)
    requires Sound(s) && Counted(s)
    ensures Counted(CreateStep(s)) && CreateStep(s).sleeping == s.sleeping
  {
    NewIsUnlisted(s);
    assert Users(CreateStep(s).loc, s.system) == Users(s.loc, s.system) + {s.nextid};
  }

  lemma SystemCounted(s: State, t: Task)
    requires Sound(s) && Counted(s) && s.running == Some(t)
    ensures Counted(SystemStep(s, t))
  {
    RunningIsUnlisted(s, t);
    assert t !in On(s, Sleepers);
    UsersInGrown(s.sleeping, s.system, t);
    assert Users(s.loc, s.system + {t}) == if t in s.system then Users(s.loc, s.system)
      else Users(s.loc, s.system) - {t};
  }

  lemma ExitCounted(s: State, t: Task)
    requires Sound(s) && Counted(s) && s.running == Some(t)
    ensures Counted(ExitStep(s, t))
  {
    RunningIsUnlisted(s, t);
    assert Users(s.loc - {t}, s.system) == Users(s.loc, s.system) - {t};
  }

  lemma DelayCounted(s: State, t: Task, ms: nat, now: nat)
    requires Sound(s) && Counted(s) && s.running == Some(t)
    ensures Counted(DelayStep(s, t, ms, now))
  {
    var s', i := DelayStep(s, t, ms, now), SleepPlace(s, (now + ms * MILLISECOND) % TWO_64);
    RunningIsUnlisted(s, t);
    assert s.sleeping == s.sleeping[..i] + s.sleeping[i..];
    UsersInConcat(s.sleeping[..i], s.sleeping[i..], s.system);
    UsersInConcat(s.sleeping[..i] + [t], s.sleeping[i..], s.system);
    UsersInConcat(s.sleeping[..i], [t], s.system);
    assert Users(s'.loc, s.system) == Users(s.loc, s.system);
  }

  lemma WakeOneCounted(s: State)
    requires Sound(s) && Counted(s) && s.sleeping != []
    ensures Counted(WakeOne(s))
  {
    assert Exact(On(s, Sleepers), s.loc, Sleepers);
    assert s.sleeping[0] in s.loc by { assert Look(0); assert s.sleeping[0] in On(s, Sleepers); }
    assert Users(WakeOne(s).loc, s.system) == Users(s.loc, s.system);
  }

  lemma {:induction false} WakeCounted(s: State, now: nat)
    requires Sound(s) && Counted(s)
    ensures Counted(WakeSleepers(s, now))
    decreases |s.sleeping|
  {
    if s.sleeping != [] && now >= Alarm(s, s.sleeping[0]) {
      WakeOneSound(s);
      WakeOneCounted(s);
      WakeCounted(WakeOne(s), now);
    }
  }

  lemma MovedUncounted(s: State, s': State, p: Place, ts: seq<Task>)
    requires Sound(s) && Moved(s, s', p, ts)
    ensures s'.loc.Keys == s.loc.Keys
  {
    MovedFrom(s, s', p, ts);
  }

  lemma QLockUncounted(s: State, t: Task, l: nat, block: bool)
    requires Sound(s) && s.running == Some(t)
    ensures Uncounted(s, QLockStep(s, t, l, block))
  {
    RunningIsUnlisted(s, t);
  }

  lemma RLockUncounted(s: State, t: Task, l: nat, block: bool)
    requires Sound(s) && s.running == Some(t)
    ensures Uncounted(s, RLockStep(s, t, l, block))
  {
    RunningIsUnlisted(s, t);
  }

  lemma WLockUncounted(s: State, t: Task, l: nat, block: bool)
    requires Sound(s) && s.running == Some(t)
    ensures Uncounted(s, WLockStep(s, t, l, block))
  {
    RunningIsUnlisted(s, t);
  }

  lemma QUnlockUncounted(s: State, t: Task, l: nat)
    requires Sound(s) && s.running == Some(t) && Ql(s, l).owner == Some(t)
    ensures Uncounted(s, QUnlockStep(s, l))
  {
    LockOk(s, l);
    QUnlockPlaces(s, l);
    MovedUncounted(s, QUnlockStep(s, l), LockQ(l), Unlock(Ql(s, l)).ready);
  }

  lemma RUnlockUncounted(s: State, t: Task, l: nat)
    requires Sound(s) && s.running == Some(t) && t in Rw(s, l).holders
    ensures Uncounted(s, RwReleaseStep(s, l, RUnlock(Rw(s, l), t)))
  {
    LockOk(s, l);
    RUnlockPlaces(s, t, l);
    MovedUncounted(s, RwReleaseStep(s, l, RUnlock(Rw(s, l), t)), WriteQ(l), RUnlock(Rw(s, l), t).ready);
  }

  lemma WUnlockUncounted(s: State, t: Task, l: nat)
    requires Sound(s) && s.running == Some(t) && Rw(s, l).writer == Some(t)
    ensures Uncounted(s, RwReleaseStep(s, l, WUnlock(Rw(s, l))))
  {
    LockOk(s, l);
    WUnlockPlaces(s, l);
    MovedUncounted(s, RwReleaseStep(s, l, WUnlock(Rw(s, l))), if Rw(s, l).rwaiting != [] then ReadQ(l) else WriteQ(l),
                   WUnlock(Rw(s, l)).ready);
  }

  lemma LockCallUncounted(s: State, t: Task, l: Label)
    requires Sound(s) && s.running == Some(t) && Matched(s, l)
    requires l.Qlock? || l.Qunlock? || l.Rlock? || l.Wlock? || l.Runlock? || l.Wunlock?
    ensures Uncounted(s, Call(s, t, l))
  {
    match l
    case Qunlock(l) => QUnlockUncounted(s, t, l);
    case Runlock(l) => RUnlockUncounted(s, t, l);
    case Wunlock(l) => WUnlockUncounted(s, t, l);
    case Qlock(l, block) => QLockUncounted(s, t, l, block);
    case Rlock(l, block) => RLockUncounted(s, t, l, block);
    case Wlock(l, block) => WLockUncounted(s, t, l, block);
  }

  lemma SleepUncounted(s: State, t: Task, r: nat)
    requires Sound(s) && s.running == Some(t) && (r in s.lockof ==> Ql(s, s.lockof[r]).owner == Some(t))
    ensures Uncounted(s, SleepStep(s, t, r))
  {
    RunningIsUnlisted(s, t);
    if r in s.lockof {
      var s1, l := Leave(s.(rdv := s.rdv[r := Rdv(s, r) + [t]]), t, At(RendezQ(r)), InSleep(r)), s.lockof[r];
      RendezPlaces(s, t, r);
      LockOk(s1, l);
      QUnlockPlaces(s1, l);
      MovedFrom(s1, QUnlockStep(s1, l), LockQ(l), Unlock(Ql(s1, l)).ready);
    }
  }

  lemma WakeupUncounted(s: State, r: nat, all: bool)
    requires Sound(s)
    ensures Uncounted(s, WakeupStep(s, r, all))
  {
    var q := Rdv(s, r);
    var n := if all || q == [] then |q| else 1;
    var s' := MakeReady(s.(rdv := s.rdv[r := q[n..]]), q[..n]);
    WakePlaces(s, r, n);
    MovedUncounted(s, s', RendezQ(r), q[..n]);
  }

  lemma DispatchUncounted(s: State)
    requires Sound(s) && s.running == None
    ensures Uncounted(s, DispatchStep(s))
  {
    if s.taskcount != 0 && s.runq != [] { StartedSound(s); }
  }

  lemma TaskCallCounted(s: State, t: Task, l: Label)
    requires Sound(s) && Counted(s) && s.running == Some(t) && Matched(s, l)
    requires !(l.Qlock? || l.Qunlock? || l.Rlock? || l.Wlock? || l.Runlock? || l.Wunlock?)
    ensures Counted(Call(s, t, l))
  {
    RunningIsUnlisted(s, t);
    match l
    case Sleep(r) => SleepUncounted(s, t, r); UncountedKeeps(s, SleepStep(s, t, r));
    case Wakeup(r, all) => WakeupUncounted(s, r, all); UncountedKeeps(s, WakeupStep(s, r, all));
    case Yield => UncountedKeeps(s, YieldStep(s, t));
    case Delay(ms, now) =>
      FdTaskSound(s);
      if !s.fdstarted { CreateCounted(s); }
      DelayCounted(WithFdTask(s), t, ms, now);
    case Create => CreateCounted(s);
    case System => SystemCounted(s, t);
    case Exit => ExitCounted(s, t);
    case Park => UncountedKeeps(s, Leave(s, t, Parked, Plain));
    case Ready(u) => UncountedKeeps(s, MakeReady(s, [u]));
    case Wake(now) => WakeCounted(s, now);
    case Dispatch =>
  }

  lemma StepCounted(s: State, l: Label)
    requires Sound(s) && Counted(s) && Matched(s, l)
    ensures Counted(Step(s, l))
  {
    if s.outcome == Going {
      if l == Dispatch {
        if s.running.None? {
          DispatchUncounted(s);
          UncountedKeeps(s, DispatchStep(s));
        }
      } else if s.running.Some? {
        var t := s.running.value;
        if l.Qlock? || l.Qunlock? || l.Rlock? || l.Wlock? || l.Runlock? || l.Wunlock? {
          LockCallUncounted(s, t, l);
          UncountedKeeps(s, Call(s, t, l));
        } else {
          TaskCallCounted(s, t, l);
        }
      }
    }
  }

  lemma {:induction false} RunCounted(lockof: map<nat, nat>, run: seq<Label>)
    requires MatchedRun(Init(lockof), run)
    ensures Counted(Run(Init(lockof), run))
  {
    if run == [] {
      assert Users(Init(lockof).loc, {}) == {1};
    } else {
      var before := run[..|run| - 1];
      RunSound(lockof, before);
      RunCounted(lockof, before);
      StepCounted(Run(Init(lockof), before), run[|run| - 1]);
    }
  }

  lemma NoneLeft(s: State)
    requires Sound(s) && Counted(s)
    ensures s.taskcount == 0 <==> Users(s.loc, s.system) == {}
  {
    if s.sleepingcounted > 0 {
      var t := UsersInSome(s.sleeping, s.system);
      assert Exact(On(s, Sleepers), s.loc, Sleepers);
      assert t in s.loc by { assert Look(0); assert t in On(s, Sleepers); }
      assert t in Users(s.loc, s.system);
    }
  }

  lemma DispatchExits(s: State)
    requires s.outcome == Going && s.running == None
    ensures DispatchStep(s).outcome == Exited <==> s.taskcount == 0
  {
    if s.taskcount != 0 && s.runq != [] {
      ResumedGoesOn(Started(s), s.runq[0], if s.runq[0] in s.cont then s.cont[s.runq[0]] else Plain);
    }
  }

  lemma ResumedGoesOn(s: State, t: Task, c: Cont)
    requires s.outcome == Going
    ensures Resumed(s, t, c).outcome != Exited
  {
  }

  /** In every run, taskcount is zero exactly when no task is left but system tasks. So the
      scheduler ends the program normally only then, and not while a task sleeps. */
  lemma ExitsOnlyWhenDone(lockof: map<nat, nat>, run: seq<Label>)
    requires MatchedRun(Init(lockof), run)
    ensures var s := Run(Init(lockof), run);
      s.taskcount == |Users(s.loc, s.system)| + if s.sleepingcounted > 0 then 1 else 0
    ensures var s := Run(Init(lockof), run); s.taskcount == 0 <==> Users(s.loc, s.system) == {}
    ensures var s := Run(Init(lockof), run);
      s.outcome == Going && s.running == None ==> (DispatchStep(s).outcome == Exited <==> Users(s.loc, s.system) == {})
  {
    RunSound(lockof, run);
    RunCounted(lockof, run);
    var s := Run(Init(lockof), run);
    NoneLeft(s);
    if s.outcome == Going && s.running == None { DispatchExits(s); }
  }
}

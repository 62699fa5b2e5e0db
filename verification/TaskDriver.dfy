/** The steps of the runtime carried out on its linked lists: from any reachable state, what
    the code does to `next` and `prev` leaves the lists of the state that the model reaches. */
module TaskDriver {
  import opened TaskLocks
  import opened TaskModel
  import opened TaskPlaces
  import opened TaskResume
  import opened TaskCount
  import opened TaskEffects
  import R = TaskRuntime

  /** All lists are linked and apart, and they are those of state `s`. */
  ghost predicate Agrees(r: R.Runtime, s: State)
    reads r, r.lists.Values, r.tasks.Values
  {
    r.Valid() && R.Holds(r.content, r.tasks, s)
  }

  lemma RunningTask(r: R.Runtime, s: State, t: Task)
    requires R.Holds(r.content, r.tasks, s) && Sound(s) && s.running == Some(t)
    ensures t in r.tasks && forall p {:trigger On(s, p)} :: t !in On(s, p)
  {
    RunningIsUnlisted(s, t);
    assert Look(0);
  }

  method QLock(r: R.Runtime, s: State, t: Task, l: nat, block: bool)
    requires Agrees(r, s) && Sound(s) && s.running == Some(t)
    modifies r`lists, r`content, r.lists.Values, r.tasks.Values`next, r.tasks.Values`prev
    ensures Agrees(r, QLockStep(s, t, l, block))
    ensures r.Grown()
  {
    QLockDoes(s, t, l, block);
    if Lock(Ql(s, l), t, block).answer == Waits {
      RunningTask(r, s, t);
      r.Enqueue(LockQ(l), t, s, QLockStep(s, t, l, block));
    } else {
      R.HoldsSame(r.content, r.tasks, s, QLockStep(s, t, l, block));
    }
  }

  method QUnlock(r: R.Runtime, s: State, l: nat)
    requires Agrees(r, s) && Unlock(Ql(s, l)).ok
    modifies r`lists, r`content, r.lists.Values, r.tasks.Values`next, r.tasks.Values`prev
    ensures Agrees(r, QUnlockStep(s, l))
    ensures r.Grown()
  {
    QUnlockDoes(s, l);
    r.Ready(LockQ(l), |Unlock(Ql(s, l)).ready|, s, QUnlockStep(s, l));
  }

  method RLockCall(r: R.Runtime, s: State, t: Task, l: nat, block: bool)
    requires Agrees(r, s) && Sound(s) && s.running == Some(t)
    modifies r`lists, r`content, r.lists.Values, r.tasks.Values`next, r.tasks.Values`prev
    ensures Agrees(r, RLockStep(s, t, l, block))
    ensures r.Grown()
  {
    RLockDoes(s, t, l, block);
    if RLock(Rw(s, l), t, block).answer == Waits {
      RunningTask(r, s, t);
      r.Enqueue(ReadQ(l), t, s, RLockStep(s, t, l, block));
    } else {
      R.HoldsSame(r.content, r.tasks, s, RLockStep(s, t, l, block));
    }
  }

  method WLockCall(r: R.Runtime, s: State, t: Task, l: nat, block: bool)
    requires Agrees(r, s) && Sound(s) && s.running == Some(t)
    modifies r`lists, r`content, r.lists.Values, r.tasks.Values`next, r.tasks.Values`prev
    ensures Agrees(r, WLockStep(s, t, l, block))
    ensures r.Grown()
  {
    WLockDoes(s, t, l, block);
    if WLock(Rw(s, l), t, block).answer == Waits {
      RunningTask(r, s, t);
      r.Enqueue(WriteQ(l), t, s, WLockStep(s, t, l, block));
    } else {
      R.HoldsSame(r.content, r.tasks, s, WLockStep(s, t, l, block));
    }
  }

  method RUnlockCall(r: R.Runtime, s: State, t: Task, l: nat)
    requires Agrees(r, s)
    modifies r`lists, r`content, r.lists.Values, r.tasks.Values`next, r.tasks.Values`prev
    ensures Agrees(r, RwReleaseStep(s, l, RUnlock(Rw(s, l), t)))
    ensures r.Grown()
  {
    RUnlockDoes(s, t, l);
    r.Ready(WriteQ(l), |RUnlock(Rw(s, l), t).ready|, s, RwReleaseStep(s, l, RUnlock(Rw(s, l), t)));
  }

  method WUnlockCall(r: R.Runtime, s: State, l: nat)
    requires Agrees(r, s) && WUnlock(Rw(s, l)).ok
    modifies r`lists, r`content, r.lists.Values, r.tasks.Values`next, r.tasks.Values`prev
    ensures Agrees(r, RwReleaseStep(s, l, WUnlock(Rw(s, l))))
    ensures r.Grown()
  {
    WUnlockDoes(s, l);
    var p := if Rw(s, l).rwaiting != [] then ReadQ(l) else WriteQ(l);
    r.Ready(p, |WUnlock(Rw(s, l)).ready|, s, RwReleaseStep(s, l, WUnlock(Rw(s, l))));
  }

  lemma ReleaseOk(s: State, t: Task, l: Label)
    requires Sound(s) && s.running == Some(t) && Matched(s, l)
    ensures l.Qunlock? ==> Unlock(Ql(s, l.l)).ok
    ensures l.Wunlock? ==> WUnlock(Rw(s, l.l)).ok
  {
    if l.Wunlock? {
      LockOk(s, l.l);
      NoReaders(Rw(s, l.l));
    }
  }

  /** The calls of qlock.c */
  method LockCall(r: R.Runtime, s: State, t: Task, l: Label)
    requires Agrees(r, s) && Sound(s) && s.running == Some(t) && Matched(s, l)
    requires l.Qlock? || l.Qunlock? || l.Rlock? || l.Wlock? || l.Runlock? || l.Wunlock?
    modifies r`lists, r`content, r.lists.Values, r.tasks.Values`next, r.tasks.Values`prev
    ensures Agrees(r, Call(s, t, l))
    ensures r.Grown()
  {
    ReleaseOk(s, t, l);
    match l
    case Qlock(l, block) => QLock(r, s, t, l, block);
    case Qunlock(l) => QUnlock(r, s, l);
    case Rlock(l, block) => RLockCall(r, s, t, l, block);
    case Wlock(l, block) => WLockCall(r, s, t, l, block);
    case Runlock(l) => RUnlockCall(r, s, t, l);
    case Wunlock(l) => WUnlockCall(r, s, l);
  }

  /** tasksleep: the task is on the list before it unlocks. */
  method SleepCall(r: R.Runtime, s: State, t: Task, rv: nat)
    requires Agrees(r, s) && Sound(s) && s.running == Some(t) && Matched(s, Sleep(rv))
    modifies r`lists, r`content, r.lists.Values, r.tasks.Values`next, r.tasks.Values`prev
    ensures Agrees(r, SleepStep(s, t, rv))
    ensures r.Grown()
  {
    ListedDoes(s, t, rv);
    RunningTask(r, s, t);
    r.Enqueue(RendezQ(rv), t, s, Listed(s, t, rv));
    if rv in s.lockof {
      QUnlock(r, Listed(s, t, rv), s.lockof[rv]);
    }
  }

  method WakeupCall(r: R.Runtime, s: State, rv: nat, all: bool)
    requires Agrees(r, s)
    modifies r`lists, r`content, r.lists.Values, r.tasks.Values`next, r.tasks.Values`prev
    ensures Agrees(r, WakeupStep(s, rv, all))
    ensures r.Grown()
  {
    WakeupDoes(s, rv, all);
    r.Ready(RendezQ(rv), if all || Rdv(s, rv) == [] then |Rdv(s, rv)| else 1, s, WakeupStep(s, rv, all));
  }

  method YieldCall(r: R.Runtime, s: State, t: Task)
    requires Agrees(r, s) && Sound(s) && s.running == Some(t)
    modifies r`lists, r`content, r.lists.Values, r.tasks.Values`next, r.tasks.Values`prev
    ensures Agrees(r, YieldStep(s, t))
    ensures r.Grown()
  {
    YieldDoes(s, t);
    RunningTask(r, s, t);
    r.Enqueue(RunQ, t, s, YieldStep(s, t));
  }

  lemma ParkedTask(r: R.Runtime, s: State, u: Task)
    requires R.Holds(r.content, r.tasks, s) && Sound(s) && u in s.loc && s.loc[u] == Parked
    ensures u in r.tasks && forall p {:trigger On(s, p)} :: u !in On(s, p)
  {
    assert Look(0);
    forall p ensures u !in On(s, p) { assert Exact(On(s, p), s.loc, p); }
  }

  method ReadyCall(r: R.Runtime, s: State, u: Task)
    requires Agrees(r, s) && Sound(s) && u in s.loc && s.loc[u] == Parked
    modifies r`lists, r`content, r.lists.Values, r.tasks.Values`next, r.tasks.Values`prev
    ensures Agrees(r, MakeReady(s, [u]))
    ensures r.Grown()
  {
    ReadyDoes(s, u);
    ParkedTask(r, s, u);
    r.Enqueue(RunQ, u, s, MakeReady(s, [u]));
  }

  /** The calls that change no list */
  lemma QuietCall(r: R.Runtime, s: State, t: Task, l: Label)
    requires R.Holds(r.content, r.tasks, s) && (l.System? || l.Exit? || l.Park? || l.Dispatch?)
    ensures R.Holds(r.content, r.tasks, Call(s, t, l))
  {
    match l
    case System => SystemDoes(s, t); R.HoldsSame(r.content, r.tasks, s, SystemStep(s, t));
    case Exit => ExitDoes(s, t); R.HoldsSame(r.content, r.tasks, s, ExitStep(s, t));
    case Park => ParkDoes(s, t); R.HoldsSame(r.content, r.tasks, s, Leave(s, t, Parked, Plain));
    case Dispatch =>
  }

  /** One turn of the scheduler */
  method TakeTurn(r: R.Runtime, s: State)
    requires Agrees(r, s) && Sound(s) && s.running == None && s.taskcount != 0 && s.runq != []
    modifies r`lists, r`content, r.lists.Values, r.tasks.Values`next, r.tasks.Values`prev
    ensures Agrees(r, DispatchStep(s))
    ensures r.Grown()
  {
    StartedDoes(s);
    StartedSound(s);
    var t := r.Pop(s, Started(s));
    var c := s.cont[s.runq[0]];
    if c.InSleep? && c.r in s.lockof {
      QLock(r, Started(s), s.runq[0], s.lockof[c.r], true);
    } else {
      ResumedDoes(s);
      R.HoldsSame(r.content, r.tasks, Started(s), DispatchStep(s));
    }
  }

  method CreateCall(r: R.Runtime, s: State)
    requires Agrees(r, s) && s.nextid > 0
    modifies r, r.lists.Values, r.tasks.Values`next, r.tasks.Values`prev
    ensures Agrees(r, CreateStep(s)) && s.nextid in r.tasks && fresh(r.tasks[s.nextid])
    ensures s.nextid !in old(r.tasks) && r.tasks == old(r.tasks)[s.nextid := r.tasks[s.nextid]]
    ensures r.Grown()
  {
    CreateDoes(s);
    r.Create(s, CreateStep(s), s.nextid);
  }

  method FdTaskCall(r: R.Runtime, s: State)
    requires Agrees(r, s) && s.nextid > 0
    modifies r, r.lists.Values, r.tasks.Values`next, r.tasks.Values`prev
    ensures Agrees(r, WithFdTask(s)) && r.Grown()
    ensures fresh(r.tasks.Values - old(r.tasks.Values))
    ensures forall n :: n in old(r.tasks) ==> n in r.tasks && r.tasks[n] == old(r.tasks[n])
  {
    if !s.fdstarted {
      CreateDoes(s);
      r.Create(s, WithFdTask(s), s.nextid);
    }
  }

  /** taskdelay once fdtask exists */
  method DelayCall(r: R.Runtime, s: State, t: Task, ms: nat, now: nat)
    requires Agrees(r, s) && r.Alarmed(s) && Sound(s) && s.running == Some(t)
    modifies r`lists, r`content, r.lists.Values, r.tasks.Values`next, r.tasks.Values`prev, r.tasks.Values`alarmtime
    ensures Agrees(r, DelayStep(s, t, ms, now)) && r.Alarmed(DelayStep(s, t, ms, now))
    ensures r.Grown()
  {
    RunningTask(r, s, t);
    DelayDoes(s, t, ms, now);
    var when := (now + ms * MILLISECOND) % TWO_64;
    assert r.tasks[t].id == t by { assert Look(0); }
    assert t !in On(s, Sleepers);
    ghost var s' := DelayStep(s, t, ms, now);
    SleepersAfter(s, t, ms, now);
    r.FallAsleep(r.tasks[t], when, s, s');
    forall n | n in s'.sleeping ensures n in r.tasks && r.tasks[n].alarmtime == Alarm(s', n) {
      if n != t {
        assert n in s.sleeping && n in r.tasks;
        assert r.tasks[n].id == n && r.tasks[t].id == t by { assert Look(0); }
      }
    }
  }

  lemma SleepersAfter(s: State, t: Task, ms: nat, now: nat)
    ensures var s' := DelayStep(s, t, ms, now);
      && Alarm(s', t) == (now + ms * MILLISECOND) % TWO_64
      && forall n :: n in s'.sleeping ==> n == t || (n in s.sleeping && Alarm(s', n) == Alarm(s, n))
  {
  }

  method WakeRound(r: R.Runtime, s: State)
    requires Agrees(r, s) && r.Alarmed(s) && s.sleeping != []
    modifies r`lists, r`content, r.lists.Values, r.tasks.Values`next, r.tasks.Values`prev
    ensures Agrees(r, WakeOne(s)) && r.Alarmed(WakeOne(s)) && r.Grown()
  {
    WakeOneDoes(s);
    r.Ready(Sleepers, 1, s, WakeOne(s));
    r.AlarmedStays(s);
    assert forall n :: n in WakeOne(s).sleeping ==> n in s.sleeping;
  }

  /** fdtask's wake loop */
  method WakeCall(r: R.Runtime, s: State, now: nat)
    requires Agrees(r, s) && r.Alarmed(s)
    modifies r`lists, r`content, r.lists.Values, r.tasks.Values`next, r.tasks.Values`prev
    ensures Agrees(r, WakeSleepers(s, now)) && r.Alarmed(WakeSleepers(s, now))
    ensures r.Grown()
  {
    var u := s;
    var due := r.HeadIsDue(now, u);
    while due
      invariant Agrees(r, u) && r.Alarmed(u) && WakeSleepers(u, now) == WakeSleepers(s, now)
      invariant due <==> u.sleeping != [] && now >= Alarm(u, u.sleeping[0])
      invariant r.Grown() && r.tasks == old(r.tasks)
      decreases |u.sleeping|
    {
      WakeRound(r, u);
      u := WakeOne(u);
      due := r.HeadIsDue(now, u);
    }
  }

  lemma SleepersSame(r: R.Runtime, s: State, s': State)
    requires r.Alarmed(s) && s'.sleeping == s.sleeping && s'.alarm == s.alarm
    ensures r.Alarmed(s')
  {
  }

  /** The calls that wait or make ready, without the sleep queue */
  method WaitCall(r: R.Runtime, s: State, t: Task, l: Label)
    requires Agrees(r, s) && Sound(s) && s.running == Some(t) && Matched(s, l)
    requires l.Sleep? || l.Wakeup? || l.Yield? || l.Ready?
    modifies r`lists, r`content, r.lists.Values, r.tasks.Values`next, r.tasks.Values`prev
    ensures Agrees(r, Call(s, t, l)) && r.Grown()
  {
    match l
    case Sleep(rv) => SleepCall(r, s, t, rv);
    case Wakeup(rv, all) => WakeupCall(r, s, rv, all);
    case Yield => YieldCall(r, s, t);
    case Ready(u) => ReadyCall(r, s, u);
  }

  predicate IsLockCall(l: Label) {
    l.Qlock? || l.Qunlock? || l.Rlock? || l.Wlock? || l.Runlock? || l.Wunlock?
  }

  predicate IsWaitCall(l: Label) {
    l.Sleep? || l.Wakeup? || l.Yield? || l.Ready?
  }

  lemma AlarmsAlone(s: State, t: Task, l: Label)
    requires Sound(s) && s.running == Some(t) && Matched(s, l) && (IsLockCall(l) || IsWaitCall(l))
    ensures Call(s, t, l).sleeping == s.sleeping && Call(s, t, l).alarm == s.alarm
  {
    if IsLockCall(l) {
      LockCallUncounted(s, t, l);
    } else if l.Sleep? {
      SleepUncounted(s, t, l.r);
    } else if l.Wakeup? {
      WakeupUncounted(s, l.r, l.all);
    }
  }

  /** Calls that leave the sleep queue alone */
  method TimelessCall(r: R.Runtime, s: State, t: Task, l: Label)
    requires Agrees(r, s) && r.Alarmed(s) && Sound(s) && s.running == Some(t) && Matched(s, l)
    requires IsLockCall(l) || IsWaitCall(l)
    modifies r`lists, r`content, r.lists.Values, r.tasks.Values`next, r.tasks.Values`prev
    ensures Agrees(r, Call(s, t, l)) && r.Alarmed(Call(s, t, l)) && r.Grown()
  {
    AlarmsAlone(s, t, l);
    if IsLockCall(l) {
      LockCall(r, s, t, l);
    } else {
      WaitCall(r, s, t, l);
    }
    r.AlarmedStays(s);
    SleepersSame(r, s, Call(s, t, l));
  }

  lemma TurnTimeless(s: State)
    requires Sound(s) && s.running == None
    ensures DispatchStep(s).sleeping == s.sleeping && DispatchStep(s).alarm == s.alarm
  {
    DispatchUncounted(s);
  }

  /** One turn of the scheduler, or its end */
  method Schedule(r: R.Runtime, s: State)
    requires Agrees(r, s) && r.Alarmed(s) && Sound(s) && s.running == None
    modifies r`lists, r`content, r.lists.Values, r.tasks.Values`next, r.tasks.Values`prev
    ensures Agrees(r, DispatchStep(s)) && r.Alarmed(DispatchStep(s)) && r.Grown()
  {
    if s.taskcount != 0 && s.runq != [] {
      TakeTurn(r, s);
    } else {
      EndDoes(s);
      R.HoldsSame(r.content, r.tasks, s, DispatchStep(s));
    }
    r.AlarmedStays(s);
    TurnTimeless(s);
    SleepersSame(r, s, DispatchStep(s));
  }

  lemma NumbersArePositive(s: State)
    requires Sound(s)
    ensures s.nextid > 0
  {
    assert Look(0);
  }

  method MakeTask(r: R.Runtime, s: State)
    requires Agrees(r, s) && r.Alarmed(s) && Sound(s)
    modifies r, r.lists.Values, r.tasks.Values`next, r.tasks.Values`prev
    ensures Agrees(r, CreateStep(s)) && r.Alarmed(CreateStep(s)) && r.Grown()
    ensures fresh(r.tasks.Values - old(r.tasks.Values))
  {
    NumbersArePositive(s);
    CreateCall(r, s);
    r.AlarmedGrows(s);
    SleepersSame(r, s, CreateStep(s));
  }

  method MakeFdTask(r: R.Runtime, s: State)
    requires Agrees(r, s) && r.Alarmed(s) && Sound(s)
    modifies r, r.lists.Values, r.tasks.Values`next, r.tasks.Values`prev
    ensures Agrees(r, WithFdTask(s)) && r.Alarmed(WithFdTask(s)) && r.Grown()
    ensures fresh(r.tasks.Values - old(r.tasks.Values))
  {
    NumbersArePositive(s);
    FdTaskCall(r, s);
    r.AlarmedGrows(s);
    SleepersSame(r, s, WithFdTask(s));
  }

  /** taskdelay, whose first call makes the task that polls */
  method MakeAndDelay(r: R.Runtime, s: State, t: Task, ms: nat, now: nat)
    requires Agrees(r, s) && r.Alarmed(s) && Sound(s) && s.running == Some(t)
    modifies r, r.lists.Values, r.tasks.Values
    ensures var s' := DelayStep(WithFdTask(s), t, ms, now); Agrees(r, s') && r.Alarmed(s')
    ensures r.Grown() && fresh(r.tasks.Values - old(r.tasks.Values))
  {
    MakeFdTask(r, s);
    FdTaskSound(s);
    DelayCall(r, WithFdTask(s), t, ms, now);
  }

  lemma QuietTimeless(s: State, t: Task, l: Label)
    requires l.System? || l.Exit? || l.Park? || l.Dispatch?
    ensures Call(s, t, l).sleeping == s.sleeping && Call(s, t, l).alarm == s.alarm
  {
  }

  /** Any call of the running task */
  method DoCall(r: R.Runtime, s: State, t: Task, l: Label)
    requires Agrees(r, s) && r.Alarmed(s) && Sound(s) && s.running == Some(t) && Matched(s, l)
    modifies r, r.lists.Values, r.tasks.Values
    ensures Agrees(r, Call(s, t, l)) && r.Alarmed(Call(s, t, l)) && r.Grown()
    ensures fresh(r.tasks.Values - old(r.tasks.Values))
  {
    if IsLockCall(l) || IsWaitCall(l) {
      TimelessCall(r, s, t, l);
    } else if l.Create? {
      MakeTask(r, s);
    } else if l.Delay? {
      MakeAndDelay(r, s, t, l.ms, l.now);
    } else if l.Wake? {
      WakeCall(r, s, l.now);
    } else {
      QuietCall(r, s, t, l);
      QuietTimeless(s, t, l);
      SleepersSame(r, s, Call(s, t, l));
    }
  }

  /** One step of the runtime */
  method Do(r: R.Runtime, s: State, l: Label)
    requires Agrees(r, s) && r.Alarmed(s) && Sound(s) && Matched(s, l)
    modifies r, r.lists.Values, r.tasks.Values
    ensures Agrees(r, Step(s, l)) && r.Alarmed(Step(s, l))
    ensures r.Grown() && fresh(r.tasks.Values - old(r.tasks.Values))
  {
    if s.outcome != Going {
      return;
    }
    if l == Dispatch {
      if s.running.None? {
        Schedule(r, s);
      }
    } else if s.running.Some? {
      DoCall(r, s, s.running.value, l);
    }
  }

  lemma PrefixMatched(s: State, run: seq<Label>, k: nat)
    requires MatchedRun(s, run) && k < |run|
    ensures MatchedRun(s, run[..k]) && Matched(Run(s, run[..k]), run[k])
    ensures Run(s, run[..k + 1]) == Step(Run(s, run[..k]), run[k])
    decreases |run|
  {
    assert run[..k + 1][..k] == run[..k] && run[..|run|] == run;
    if k + 1 < |run| {
      var front := run[..|run| - 1];
      assert front[..k] == run[..k] && front[k] == run[k];
      PrefixMatched(s, front, k);
    }
  }

  /** The lists and the tasks are younger than the call. */
  twostate predicate AllNew(new r: R.Runtime)
    reads r
  {
    (forall p {:trigger r.lists[p]} :: p in r.lists ==> fresh(r.lists[p])) && fresh(r.tasks.Values)
  }

  method Start(lockof: map<nat, nat>) returns (r: R.Runtime)
    ensures fresh(r) && AllNew(r)
    ensures Agrees(r, Init(lockof)) && r.Alarmed(Init(lockof))
  {
    r := new R.Runtime();
    var s := Empty(lockof);
    assert R.Holds(r.content, r.tasks, s) by { NothingListed(r.content, r.tasks, s); }
    CreateCall(r, s);
  }

  lemma NothingListed(m: R.Content, tasks: map<nat, R.H.Task>, s: State)
    requires m == map[] && tasks == map[] && s == Empty(s.lockof)
    ensures R.Holds(m, tasks, s)
  {
    forall p ensures R.H.Ids(R.ListAt(m, p)) == On(s, p) {
      assert R.ListAt(m, p) == [];
    }
  }

  /** Step `k` of a run */
  method Next(r: R.Runtime, s: State, lockof: map<nat, nat>, run: seq<Label>, k: nat) returns (s': State)
    requires MatchedRun(Init(lockof), run) && k < |run|
    requires s == Run(Init(lockof), run[..k]) && Agrees(r, s) && r.Alarmed(s)
    modifies r, r.lists.Values, r.tasks.Values
    ensures s' == Run(Init(lockof), run[..k + 1]) && Agrees(r, s') && r.Alarmed(s')
    ensures r.Grown() && fresh(r.tasks.Values - old(r.tasks.Values))
  {
    PrefixMatched(Init(lockof), run, k);
    RunSound(lockof, run[..k]);
    Do(r, s, run[k]);
    s' := Step(s, run[k]);
  }

  /** Every run of matched calls can be carried out on the lists, and in the state it reaches
      all of them are linked both ways and no two share a task. */
  method Simulate(lockof: map<nat, nat>, run: seq<Label>) returns (r: R.Runtime, s: State)
    requires MatchedRun(Init(lockof), run)
    ensures s == Run(Init(lockof), run) && fresh(r) && Agrees(r, s) && r.Alarmed(s)
  {
    r := Start(lockof);
    s := Init(lockof);
    assert run[..0] == [];
    for k := 0 to |run|
      invariant fresh(r) && AllNew(r)
      invariant s == Run(Init(lockof), run[..k]) && Agrees(r, s) && r.Alarmed(s)
    {
      s := Next(r, s, lockof, run, k);
    }
    assert run[..|run|] == run;
  }

  /** What agreement means for any two lists */
  lemma EveryListLinked(r: R.Runtime, s: State, p: Place, q: Place)
    requires Agrees(r, s)
    ensures if p in r.lists then r.lists[p].Valid() && R.H.Ids(r.lists[p].q) == On(s, p) else On(s, p) == []
    ensures p != q && p in r.lists && q in r.lists ==>
      r.lists[p] != r.lists[q] && forall t :: t in r.lists[p].q ==> t !in r.lists[q].q
  {
    R.HoldsAt(r.content, r.tasks, s, p);
    if p in r.lists {
      assert r.Linked(p);
      if q in r.lists && p != q {
        assert r.Linked(q);
        r.Apart(p);
        R.NotShared(r.content, p, q);
      }
    }
  }
}

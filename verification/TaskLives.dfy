/** The life of a task over whole runs: created, parked, asleep, a system task, exited. */
module TaskLives {
  import opened TaskLocks
  import opened TaskModel
  import opened TaskPlaces
  import opened TaskResume
  import opened TaskCount
  import opened TaskTheorems
  import opened TaskRuns
  import opened TaskEffects
  import opened TaskAnswers

  // ----- who is on no list -----

  ghost predicate Off(s: State, u: Task) {
    forall p {:trigger On(s, p)} :: u !in On(s, p)
  }

  lemma OffAdded(s: State, s': State, p: Place, t: Task, u: Task)
    requires Off(s, u) && (Added(s, s', p, t) || Same(s, s')) && u != t
    ensures Off(s', u)
  {
    forall q ensures u !in On(s', q) { assert u !in On(s, q); }
  }

  lemma OffSame(s: State, s': State, u: Task)
    requires Off(s, u) && Same(s, s')
    ensures Off(s', u)
  {
    forall q ensures u !in On(s', q) { assert u !in On(s, q); }
  }

  lemma OffBorn(s: State, s': State, u: Task)
    requires Off(s, u) && Born(s, s') && u < s.nextid
    ensures Off(s', u)
  {
    forall q ensures u !in On(s', q) { assert u !in On(s, q); }
  }

  lemma NotInParts(q: seq<Task>, n: nat, rest: seq<Task>, u: Task)
    requires u !in q && n <= |q| && q == q[..n] + rest
    ensures u !in q[..n] && u !in rest
  {
    assert forall k :: 0 <= k < |rest| ==> rest[k] == q[n + k];
  }

  lemma OffReadied(s: State, s': State, p: Place, n: nat, u: Task)
    requires Off(s, u) && Readied(s, s', p, n)
    ensures Off(s', u)
  {
    assert u !in On(s, p) && u !in On(s, RunQ);
    NotInParts(On(s, p), n, On(s', p), u);
    forall q ensures u !in On(s', q) {
      if q != p && q != RunQ { assert u !in On(s, q); }
    }
  }

  lemma OffInserted(s: State, s': State, k: nat, t: Task, u: Task)
    requires Off(s, u) && Inserted(s, s', k, t) && u != t
    ensures Off(s', u)
  {
    assert u !in On(s, Sleepers);
    forall q ensures u !in On(s', q) { assert u !in On(s, q); }
  }

  lemma OffPopped(s: State, s': State, u: Task)
    requires Off(s, u) && Popped(s, s')
    ensures Off(s', u)
  {
    assert u !in On(s, RunQ);
    forall q ensures u !in On(s', q) { assert u !in On(s, q); }
  }

  lemma OffQUnlock(s: State, l: nat, u: Task)
    requires Off(s, u)
    ensures Off(QUnlockStep(s, l), u) && QUnlockStep(s, l).nextid >= s.nextid
  {
    if Unlock(Ql(s, l)).ok {
      QUnlockDoes(s, l);
      OffReadied(s, QUnlockStep(s, l), LockQ(l), |Unlock(Ql(s, l)).ready|, u);
    } else {
      forall q ensures u !in On(QUnlockStep(s, l), q) { assert u !in On(s, q); }
    }
  }

  lemma OffQLock(s: State, t: Task, l: nat, block: bool, u: Task)
    requires Off(s, u) && u != t
    ensures Off(QLockStep(s, t, l, block), u) && QLockStep(s, t, l, block).nextid >= s.nextid
  {
    QLockDoes(s, t, l, block);
    OffAdded(s, QLockStep(s, t, l, block), LockQ(l), t, u);
  }

  lemma OffWUnlock(s: State, l: nat, u: Task)
    requires Off(s, u)
    ensures Off(RwReleaseStep(s, l, WUnlock(Rw(s, l))), u) && RwReleaseStep(s, l, WUnlock(Rw(s, l))).nextid >= s.nextid
  {
    var s' := RwReleaseStep(s, l, WUnlock(Rw(s, l)));
    if WUnlock(Rw(s, l)).ok {
      WUnlockDoes(s, l);
      OffReadied(s, s', if Rw(s, l).rwaiting != [] then ReadQ(l) else WriteQ(l), |WUnlock(Rw(s, l)).ready|, u);
    } else {
      forall q ensures u !in On(s', q) { assert u !in On(s, q); }
    }
  }

  lemma OffLockCall(s: State, t: Task, l: Label, u: Task)
    requires Off(s, u) && u != t
    requires l.Qlock? || l.Qunlock? || l.Rlock? || l.Wlock? || l.Runlock? || l.Wunlock?
    ensures Off(Call(s, t, l), u) && Call(s, t, l).nextid >= s.nextid
  {
    match l
    case Qlock(l, block) => OffQLock(s, t, l, block, u);
    case Qunlock(l) => OffQUnlock(s, l, u);
    case Rlock(l, block) =>
      RLockDoes(s, t, l, block);
      OffAdded(s, RLockStep(s, t, l, block), ReadQ(l), t, u);
    case Wlock(l, block) =>
      WLockDoes(s, t, l, block);
      OffAdded(s, WLockStep(s, t, l, block), WriteQ(l), t, u);
    case Runlock(l) =>
      RUnlockDoes(s, t, l);
      OffReadied(s, RwReleaseStep(s, l, RUnlock(Rw(s, l), t)), WriteQ(l), |RUnlock(Rw(s, l), t).ready|, u);
    case Wunlock(l) => OffWUnlock(s, l, u);
  }

  lemma OffSleep(s: State, t: Task, r: nat, u: Task)
    requires Off(s, u) && u != t
    ensures Off(SleepStep(s, t, r), u) && SleepStep(s, t, r).nextid >= s.nextid
  {
    ListedDoes(s, t, r);
    OffAdded(s, Listed(s, t, r), RendezQ(r), t, u);
    if r in s.lockof { OffQUnlock(Listed(s, t, r), s.lockof[r], u); }
  }

  lemma OffWaitCall(s: State, t: Task, l: Label, u: Task)
    requires Off(s, u) && u != t && l != Ready(u)
    requires l.Sleep? || l.Wakeup? || l.Yield? || l.Park? || l.Ready?
    ensures Off(Call(s, t, l), u) && Call(s, t, l).nextid >= s.nextid
  {
    match l
    case Sleep(r) => OffSleep(s, t, r, u);
    case Wakeup(r, all) =>
      WakeupDoes(s, r, all);
      OffReadied(s, WakeupStep(s, r, all), RendezQ(r), if all || Rdv(s, r) == [] then |Rdv(s, r)| else 1, u);
    case Yield =>
      YieldDoes(s, t);
      OffAdded(s, YieldStep(s, t), RunQ, t, u);
    case Park =>
      ParkDoes(s, t);
      OffAdded(s, Leave(s, t, Parked, Plain), RunQ, t, u);
    case Ready(v) =>
      ReadyDoes(s, v);
      OffAdded(s, MakeReady(s, [v]), RunQ, v, u);
  }

  lemma {:induction false} OffWake(s: State, now: nat, u: Task)
    requires Off(s, u)
    ensures Off(WakeSleepers(s, now), u) && WakeSleepers(s, now).nextid >= s.nextid
    decreases |s.sleeping|
  {
    if s.sleeping != [] && now >= Alarm(s, s.sleeping[0]) {
      WakeOneDoes(s);
      OffReadied(s, WakeOne(s), Sleepers, 1, u);
      OffWake(WakeOne(s), now, u);
    }
  }

  lemma OffDelay(s: State, t: Task, ms: nat, now: nat, u: Task)
    requires Off(s, u) && u != t && u < s.nextid
    ensures Off(DelayStep(WithFdTask(s), t, ms, now), u) && DelayStep(WithFdTask(s), t, ms, now).nextid >= s.nextid
  {
    CreateDoes(s);
    if !s.fdstarted { OffBorn(s, WithFdTask(s), u); }
    var s1 := WithFdTask(s);
    DelayDoes(s1, t, ms, now);
    OffInserted(s1, DelayStep(s1, t, ms, now), SleepPlace(s1, (now + ms * MILLISECOND) % TWO_64), t, u);
  }

  lemma OffTaskCall(s: State, t: Task, l: Label, u: Task)
    requires Off(s, u) && u != t && u < s.nextid
    requires l.Create? || l.System? || l.Exit? || l.Delay? || l.Dispatch? || l.Wake?
    ensures Off(Call(s, t, l), u) && Call(s, t, l).nextid >= s.nextid
  {
    match l
    case Create => CreateDoes(s); OffBorn(s, CreateStep(s), u);
    case System => SystemDoes(s, t); OffAdded(s, SystemStep(s, t), RunQ, t, u);
    case Exit => ExitDoes(s, t); OffAdded(s, ExitStep(s, t), RunQ, t, u);
    case Delay(ms, now) => OffDelay(s, t, ms, now, u);
    case Wake(now) => OffWake(s, now, u);
    case Dispatch =>
  }

  lemma OffDispatch(s: State, u: Task)
    requires Off(s, u)
    ensures Off(DispatchStep(s), u) && DispatchStep(s).nextid >= s.nextid
  {
    if s.taskcount != 0 && s.runq != [] {
      StartedDoes(s);
      OffPopped(s, Started(s), u);
      assert u !in On(s, RunQ);
      var c := if s.runq[0] in s.cont then s.cont[s.runq[0]] else Plain;
      if c.InSleep? && c.r in s.lockof {
        OffQLock(Started(s), s.runq[0], s.lockof[c.r], true, u);
      } else {
        ResumedDoes(s);
        OffAdded(Started(s), DispatchStep(s), RunQ, s.runq[0], u);
      }
    } else {
      EndDoes(s);
      OffSame(s, DispatchStep(s), u);
    }
  }

  lemma OffStep(s: State, l: Label, u: Task)
    requires Off(s, u) && s.running != Some(u) && u < s.nextid && l != Ready(u)
    ensures Off(Step(s, l), u) && Step(s, l).running != Some(u) && Step(s, l).nextid >= s.nextid
    ensures Unmoved(s, Step(s, l), u)
  {
    assert u !in On(s, RunQ);
    StepUnmoved(s, l, u);
    if s.outcome == Going {
      if l == Dispatch {
        if s.running.None? { OffDispatch(s, u); }
      } else if s.running.Some? {
        var t := s.running.value;
        if l.Sleep? || l.Wakeup? || l.Yield? || l.Park? || l.Ready? {
          OffWaitCall(s, t, l, u);
        } else if l.Create? || l.System? || l.Exit? || l.Delay? || l.Wake? {
          OffTaskCall(s, t, l, u);
        } else {
          OffLockCall(s, t, l, u);
        }
      }
    }
  }

  /** A task that is on no list and does not run comes back only by taskready. */
  lemma {:induction false} OffStays(s: State, run: seq<Label>, u: Task)
    requires Off(s, u) && s.running != Some(u) && u < s.nextid && forall k :: 0 <= k < |run| ==> run[k] != Ready(u)
    ensures Off(Run(s, run), u) && Run(s, run).running != Some(u) && Run(s, run).nextid >= s.nextid
    ensures u in s.cont ==> u in Run(s, run).cont
  {
    if run != [] {
      var before := run[..|run| - 1];
      OffStays(s, before, u);
      OffStep(Run(s, before), run[|run| - 1], u);
    }
  }

  lemma KeysMatch(s: State, u: Task)
    requires Sound(s)
    ensures u in s.loc <==> u in s.cont
  {
    assert Look(0);
  }

  /** A task that waits for a channel or a descriptor stays parked until somebody readies it,
      and then it is last on the run queue. */
  lemma ParkedWaits(lockof: map<nat, nat>, before: seq<Label>, t: Task, run: seq<Label>)
    requires MatchedRun(Init(lockof), before)
    requires var s := Run(Init(lockof), before); s.outcome == Going && s.running == Some(t)
    requires MatchedRun(Step(Run(Init(lockof), before), Park), run) && forall k :: 0 <= k < |run| ==> run[k] != Ready(t)
    ensures var s := Run(Step(Run(Init(lockof), before), Park), run);
      t in s.loc && s.loc[t] == Parked && s.running != Some(t)
      && (s.outcome == Going && s.running.Some? ==> Step(s, Ready(t)).runq == s.runq + [t])
  {
    var s := Run(Init(lockof), before);
    RunSound(lockof, before);
    StepSound(s, Park);
    Parks(s, t);
    ParkedStays(Step(s, Park), run, t);
    ReadyIsLast(Run(Step(s, Park), run), t);
  }

  lemma ParkedStays(s: State, run: seq<Label>, u: Task)
    requires Sound(s) && MatchedRun(s, run) && Off(s, u) && s.running != Some(u) && u < s.nextid && u in s.cont
    requires forall k :: 0 <= k < |run| ==> run[k] != Ready(u)
    ensures var s' := Run(s, run); u in s'.loc && s'.loc[u] == Parked && s'.running != Some(u)
  {
    var s' := Run(s, run);
    OffStays(s, run, u);
    SoundOn(s, run);
    KeysMatch(s', u);
    InOnePlace(s', RunQ, RunQ, u);
    assert forall p :: u !in On(s', p);
  }

  lemma ReadyIsLast(s: State, u: Task)
    ensures s.outcome == Going && s.running.Some? ==> Step(s, Ready(u)).runq == s.runq + [u]
  {
  }

  lemma Parks(s: State, t: Task)
    requires Sound(s) && s.outcome == Going && s.running == Some(t)
    ensures var s' := Step(s, Park); Off(s', t) && s'.running == None && t < s'.nextid && t in s'.cont
  {
    RunningIsUnlisted(s, t);
    ParkDoes(s, t);
    OffSame(s, Leave(s, t, Parked, Plain), t);
  }

  lemma Ends(s: State, t: Task)
    requires Sound(s) && s.outcome == Going && s.running == Some(t)
    ensures var s' := Step(s, Exit); Off(s', t) && s'.running == None && t < s'.nextid && t !in s'.loc
  {
    RunningIsUnlisted(s, t);
    ExitDoes(s, t);
    OffSame(s, ExitStep(s, t), t);
  }

  /** A task that called taskexit is gone: nothing that happens later runs it or lists it. */
  lemma ExitedIsGone(lockof: map<nat, nat>, before: seq<Label>, t: Task, run: seq<Label>)
    requires MatchedRun(Init(lockof), before)
    requires var s := Run(Init(lockof), before); s.outcome == Going && s.running == Some(t)
    requires MatchedRun(Step(Run(Init(lockof), before), Exit), run)
    ensures var s := Run(Step(Run(Init(lockof), before), Exit), run);
      t !in s.loc && s.running != Some(t) && Off(s, t)
  {
    var s := Run(Init(lockof), before);
    RunSound(lockof, before);
    StepSound(s, Exit);
    Ends(s, t);
    GoneStays(Step(s, Exit), run, t);
  }

  lemma {:induction false} GoneStays(s: State, run: seq<Label>, u: Task)
    requires Sound(s) && MatchedRun(s, run) && Off(s, u) && s.running != Some(u) && u < s.nextid && u !in s.loc
    ensures var s' := Run(s, run); Off(s', u) && s'.running != Some(u) && u < s'.nextid && u !in s'.loc
  {
    if run != [] {
      var before, l := run[..|run| - 1], run[|run| - 1];
      GoneStays(s, before, u);
      var s1 := Run(s, before);
      SoundOn(s, before);
      StepLives(s1, l);
      if l == Ready(u) {
        assert s1.running == None;
        assert Step(s1, l) == s1;
      } else {
        OffStep(s1, l, u);
      }
    }
  }

  // ----- tasksleep -----

  /** tasksleep puts the caller last on the rendez and lets go of its lock, which the first
      task that waits for it gets at once. */
  lemma SleepReleasesLock(s: State, t: Task, r: nat)
    requires Sound(s) && s.outcome == Going && s.running == Some(t) && Matched(s, Sleep(r)) && r in s.lockof
    ensures var s', l := Step(s, Sleep(r)), s.lockof[r];
      && s'.running == None && Rdv(s', r) == Rdv(s, r) + [t]
      && (Ql(s, l).waiting == [] ==> Ql(s', l).owner == None && s'.runq == s.runq)
      && (Ql(s, l).waiting != [] ==>
            Ql(s', l).owner == Some(Ql(s, l).waiting[0]) && s'.runq == s.runq + [Ql(s, l).waiting[0]])
  {
  }

  // ----- calls that get what they ask for -----

  /** qlock and canqlock: a free mutex is the caller's, who goes on; else who may not wait
      goes on with nothing changed, and who may wait is last on the list. */
  lemma MutexAttempt(s: State, t: Task, l: nat, block: bool)
    ensures var s', free := QLockStep(s, t, l, block), Ql(s, l).owner == None;
      && s'.running == (if free || !block then s.running else None)
      && Ql(s', l).owner == (if free then Some(t) else Ql(s, l).owner)
      && Ql(s', l).waiting == Ql(s, l).waiting + (if free || !block then [] else [t])
  {
    LockAnswers(Ql(s, l), t, block);
  }

  lemma ReadAttempt(s: State, t: Task, l: nat, block: bool)
    ensures var s', free := RLockStep(s, t, l, block), Rw(s, l).writer == None && Rw(s, l).wwaiting == [];
      && s'.running == (if free || !block then s.running else None)
      && Rw(s', l).holders == Rw(s, l).holders + (if free then multiset{t} else multiset{})
      && Rw(s', l).rwaiting == Rw(s, l).rwaiting + (if free || !block then [] else [t])
  {
    RLockAnswers(Rw(s, l), t, block);
  }

  lemma WriteAttempt(s: State, t: Task, l: nat, block: bool)
    requires RwInv(Rw(s, l))
    ensures var s', free := WLockStep(s, t, l, block), Rw(s, l).writer == None && Rw(s, l).holders == multiset{};
      && s'.running == (if free || !block then s.running else None)
      && Rw(s', l).writer == (if free then Some(t) else Rw(s, l).writer)
      && Rw(s', l).wwaiting == Rw(s, l).wwaiting + (if free || !block then [] else [t])
  {
    WLockAnswers(Rw(s, l), t, block);
    WLockStays(s, t, l, block);
  }

  lemma WLockStays(s: State, t: Task, l: nat, block: bool)
    ensures var s', r := WLockStep(s, t, l, block), WLock(Rw(s, l), t, block);
      Rw(s', l) == r.l && s'.running == if r.answer == Waits then None else s.running
  {
    RwIsSet(s, l, WLock(Rw(s, l), t, block).l);
  }

  lemma RwIsSet(s: State, l: nat, l': RwLock)
    ensures Rw(s.(rw := s.rw[l := l']), l) == l'
  {
  }

  lemma RUnlockStays(s: State, t: Task, l: nat)
    ensures var s' := RwReleaseStep(s, l, RUnlock(Rw(s, l), t));
      Rw(s', l) == RUnlock(Rw(s, l), t).l && s'.running == s.running && s'.outcome == s.outcome
  {
  }

  lemma WriteStays(s: State, t: Task, l: nat, block: bool)
    requires s.outcome == Going && s.running == Some(t)
    ensures Step(s, Wlock(l, block)) == WLockStep(s, t, l, block)
    ensures Step(s, Runlock(l)) == RwReleaseStep(s, l, RUnlock(Rw(s, l), t))
  {
  }

  lemma LeavesAndWrites(s: State, t: Task, l: nat, block: bool)
    requires Sound(s) && s.outcome == Going && s.running == Some(t)
    requires Rw(s, l).holders == multiset{t} && Rw(s, l).wwaiting == []
    ensures var s' := Step(Step(s, Runlock(l)), Wlock(l, block)); s'.running == Some(t) && Rw(s', l).writer == Some(t)
  {
    LockOk(s, l);
    RUnlockLetsOut(Rw(s, l), t);
    RUnlockKeeps(Rw(s, l), t);
    var s1 := Step(s, Runlock(l));
    WriteStays(s, t, l, block);
    RUnlockStays(s, t, l);
    WriteStays(s1, t, l, block);
    WriteAttempt(s1, t, l, block);
    assert multiset{t} - multiset{t} == multiset{};
  }

  /** A reader that is alone, with no writer waiting, can leave and come back as the writer. */
  lemma ReaderBecomesWriter(lockof: map<nat, nat>, run: seq<Label>, t: Task, l: nat, block: bool)
    requires MatchedRun(Init(lockof), run)
    requires var s := Run(Init(lockof), run);
      s.outcome == Going && s.running == Some(t) && Rw(s, l).holders == multiset{t} && Rw(s, l).wwaiting == []
    ensures MatchedRun(Init(lockof), run + [Runlock(l), Wlock(l, block)])
    ensures var s' := Run(Init(lockof), run + [Runlock(l), Wlock(l, block)]);
      s'.running == Some(t) && Rw(s', l).writer == Some(t)
  {
    var s := Run(Init(lockof), run);
    RunSound(lockof, run);
    LeavesAndWrites(s, t, l, block);
    TwoMore(Init(lockof), run, Runlock(l), Wlock(l, block));
  }

  lemma TwoMore(s: State, run: seq<Label>, l: Label, m: Label)
    requires MatchedRun(s, run) && Matched(Run(s, run), l) && Matched(Step(Run(s, run), l), m)
    ensures MatchedRun(s, run + [l, m]) && Run(s, run + [l, m]) == Step(Step(Run(s, run), l), m)
  {
    OneMore(s, run, l);
    OneMore(s, run + [l], m);
    assert run + [l] + [m] == run + [l, m];
  }

  // ----- who is left -----

  /** The task that makes call `what` in a step, if it is made. */
  function Making(s: State, l: Label, what: Label): set<Task> {
    if l == what && s.outcome == Going && s.running.Some? then {s.running.value} else {}
  }

  /** The tasks that have made call `what` in a run */
  function Made(s: State, run: seq<Label>, what: Label): set<Task> {
    if run == [] then {}
    else Made(s, run[..|run| - 1], what) + Making(Run(s, run[..|run| - 1]), run[|run| - 1], what)
  }

  /** The first call of taskdelay makes the task that polls; taskcreate makes one each time. */
  function Births(s: State, l: Label): nat {
    if s.outcome == Going && s.running.Some? && (l == Create || (l.Delay? && !s.fdstarted)) then 1 else 0
  }

  /** New tasks live, those that exit do not, and only the caller becomes a system task. */
  ghost predicate Lives(s: State, s': State, l: Label) {
    && s'.system == s.system + Making(s, l, System) && s'.nextid == s.nextid + Births(s, l)
    && forall u :: u in s'.loc <==> (u in s.loc || s.nextid <= u < s'.nextid) && u !in Making(s, l, Exit)
  }

  lemma UncountedLives(s: State, s': State, l: Label)
    requires Uncounted(s, s') && Making(s, l, System) == Making(s, l, Exit) == {} && Births(s, l) == 0
    ensures Lives(s, s', l)
  {
  }

  lemma {:induction false} WakeUncounts(s: State, now: nat)
    requires Sound(s)
    ensures var s' := WakeSleepers(s, now); s'.loc.Keys == s.loc.Keys && s'.system == s.system && s'.nextid == s.nextid
    decreases |s.sleeping|
  {
    if s.sleeping != [] && now >= Alarm(s, s.sleeping[0]) {
      WakeOneSound(s);
      assert Exact(On(s, Sleepers), s.loc, Sleepers);
      assert s.sleeping[0] in s.loc by { assert Look(0); assert s.sleeping[0] in On(s, Sleepers); }
      WakeUncounts(WakeOne(s), now);
    }
  }

  lemma YieldUncounted(s: State, t: Task)
    requires t in s.loc
    ensures Uncounted(s, YieldStep(s, t)) && Uncounted(s, Leave(s, t, Parked, Plain))
  {
  }

  lemma ReadyUncounted(s: State, u: Task)
    requires u in s.loc
    ensures Uncounted(s, MakeReady(s, [u]))
  {
  }

  lemma WaitCallUncounted(s: State, t: Task, l: Label)
    requires Sound(s) && s.running == Some(t) && Matched(s, l)
    requires l.Sleep? || l.Wakeup? || l.Yield? || l.Park? || l.Ready?
    ensures Uncounted(s, Call(s, t, l))
  {
    RunningIsUnlisted(s, t);
    YieldUncounted(s, t);
    match l
    case Sleep(r) => SleepUncounted(s, t, r);
    case Wakeup(r, all) => WakeupUncounted(s, r, all);
    case Ready(u) => ReadyUncounted(s, u);
    case _ =>
  }

  lemma CreateLives(s: State)
    requires s.outcome == Going && s.running.Some?
    ensures Lives(s, CreateStep(s), Create)
  {
  }

  lemma SystemLives(s: State, t: Task)
    requires s.outcome == Going && s.running == Some(t)
    ensures Lives(s, SystemStep(s, t), System)
  {
  }

  lemma ExitLives(s: State, t: Task)
    requires s.outcome == Going && s.running == Some(t)
    ensures Lives(s, ExitStep(s, t), Exit)
  {
  }

  lemma SleeperLives(s: State, t: Task, ms: nat, now: nat)
    requires t in s.loc
    ensures var s' := DelayStep(s, t, ms, now);
      s'.system == s.system && s'.nextid == s.nextid && s'.loc.Keys == s.loc.Keys && s'.runq == s.runq
      && s'.fdstarted == s.fdstarted
  {
  }

  lemma FdTaskLives(s: State, ms: nat, now: nat)
    requires s.outcome == Going && s.running.Some?
    ensures Lives(s, WithFdTask(s), Delay(ms, now))
  {
  }

  lemma LivesOn(s: State, s1: State, s': State, l: Label)
    requires Lives(s, s1, l) && s'.system == s1.system && s'.nextid == s1.nextid && s'.loc.Keys == s1.loc.Keys
    ensures Lives(s, s', l)
  {
    assert forall u :: u in s'.loc <==> u in s'.loc.Keys;
  }

  lemma DelayLives(s: State, t: Task, ms: nat, now: nat)
    requires t in s.loc && s.outcome == Going && s.running == Some(t)
    ensures Lives(s, DelayStep(WithFdTask(s), t, ms, now), Delay(ms, now))
  {
    FdTaskLives(s, ms, now);
    SleeperLives(WithFdTask(s), t, ms, now);
    LivesOn(s, WithFdTask(s), DelayStep(WithFdTask(s), t, ms, now), Delay(ms, now));
  }

  /** taskdelay makes the task that polls if it is the first call, and no task otherwise. */
  lemma FdTaskOnce(s: State, t: Task, ms: nat, now: nat)
    requires t in s.loc
    ensures var s' := DelayStep(WithFdTask(s), t, ms, now);
      s'.fdstarted && s'.runq == s.runq + if s.fdstarted then [] else [s.nextid]
  {
    SleeperLives(WithFdTask(s), t, ms, now);
  }

  lemma TaskCallLives(s: State, t: Task, l: Label)
    requires Sound(s) && s.outcome == Going && s.running == Some(t)
    requires l.Create? || l.System? || l.Exit? || l.Delay?
    ensures Lives(s, Call(s, t, l), l)
  {
    match l
    case Create => CreateLives(s);
    case System => SystemLives(s, t);
    case Exit => ExitLives(s, t);
    case Delay(ms, now) => RunningIsUnlisted(s, t); DelayLives(s, t, ms, now);
  }

  lemma StepLives(s: State, l: Label)
    requires Sound(s) && Matched(s, l)
    ensures Lives(s, Step(s, l), l)
  {
    if s.outcome == Going && l == Dispatch && s.running.None? {
      DispatchUncounted(s);
      UncountedLives(s, DispatchStep(s), l);
    } else if s.outcome == Going && l != Dispatch && s.running.Some? {
      var t := s.running.value;
      if l.Wake? {
        WakeUncounts(s, l.now);
      } else if l.Sleep? || l.Wakeup? || l.Yield? || l.Park? || l.Ready? {
        WaitCallUncounted(s, t, l);
        UncountedLives(s, Call(s, t, l), l);
      } else if l.Create? || l.System? || l.Exit? || l.Delay? {
        TaskCallLives(s, t, l);
      } else {
        LockCallUncounted(s, t, l);
        UncountedLives(s, Call(s, t, l), l);
      }
    } else {
      UncountedLives(s, s, l);
    }
  }

  /** In every run the live tasks are those that were created and have not called taskexit,
      and the system tasks are those that have called tasksystem. */
  lemma {:induction false} LiveUntilExit(lockof: map<nat, nat>, run: seq<Label>)
    requires MatchedRun(Init(lockof), run)
    ensures var s := Run(Init(lockof), run);
      && s.system == Made(Init(lockof), run, System)
      && (forall u :: u in s.loc <==> 0 < u < s.nextid && u !in Made(Init(lockof), run, Exit))
      && forall u :: u in Made(Init(lockof), run, Exit) ==> u < s.nextid
  {
    if run == [] {
      assert Init(lockof).loc.Keys == {1};
    } else {
      var before, l := run[..|run| - 1], run[|run| - 1];
      LiveUntilExit(lockof, before);
      RunSound(lockof, before);
      StepLives(Run(Init(lockof), before), l);
      ExitsKnown(Run(Init(lockof), before), l, Made(Init(lockof), before, Exit));
    }
  }

  lemma ExitsKnown(s: State, l: Label, gone: set<Task>)
    requires Sound(s) && forall u :: u in s.loc <==> 0 < u < s.nextid && u !in gone
    requires Lives(s, Step(s, l), l) && forall u :: u in gone ==> u < s.nextid
    ensures var s' := Step(s, l);
      && (forall u :: u in s'.loc <==> 0 < u < s'.nextid && u !in gone + Making(s, l, Exit))
      && forall u :: u in gone + Making(s, l, Exit) ==> u < s'.nextid
  {
    if s.running.Some? { RunningIsUnlisted(s, s.running.value); }
    assert s.nextid > 0 by { assert Look(0); }
  }

  /** The scheduler ends the program normally exactly when every task that was ever created
      has called taskexit or tasksystem. */
  lemma EndsWhenAllAreDone(lockof: map<nat, nat>, run: seq<Label>)
    requires MatchedRun(Init(lockof), run)
    requires var s := Run(Init(lockof), run); s.outcome == Going && s.running == None
    ensures var s0, s := Init(lockof), Run(Init(lockof), run);
      DispatchStep(s).outcome == Exited <==>
        forall u :: 0 < u < s.nextid ==> u in Made(s0, run, Exit) || u in Made(s0, run, System)
  {
    ExitsOnlyWhenDone(lockof, run);
    LiveUntilExit(lockof, run);
    var s := Run(Init(lockof), run);
    if Users(s.loc, s.system) != {} {
      var u :| u in Users(s.loc, s.system);
      assert u in s.loc && u !in s.system;
    }
    forall u | 0 < u < s.nextid && u !in Made(Init(lockof), run, Exit) && u !in Made(Init(lockof), run, System)
      ensures u in Users(s.loc, s.system)
    {
      assert u in s.loc;
    }
  }

  // ----- when nothing can run -----

  lemma DispatchEnds(s: State)
    requires s.outcome == Going && s.running == None
    ensures DispatchStep(s).outcome == Stalled <==> s.taskcount != 0 && s.runq == []
  {
    if s.taskcount != 0 && s.runq != [] {
      ResumedNotStalled(Started(s), s.runq[0], if s.runq[0] in s.cont then s.cont[s.runq[0]] else Plain);
    }
  }

  lemma ResumedNotStalled(s: State, t: Task, c: Cont)
    requires s.outcome == Going
    ensures Resumed(s, t, c).outcome != Stalled
  {
  }

  /** The scheduler gives up exactly when a task is left that is no system task and every
      live task waits: on a lock, a rendez or the sleep queue, or parked. */
  lemma StallsWhenAllWait(lockof: map<nat, nat>, run: seq<Label>)
    requires MatchedRun(Init(lockof), run)
    requires var s := Run(Init(lockof), run); s.outcome == Going && s.running == None
    ensures var s := Run(Init(lockof), run);
      DispatchStep(s).outcome == Stalled <==>
        Users(s.loc, s.system) != {} && forall u :: u in s.loc ==> IsHeld(s, u)
  {
    var s := Run(Init(lockof), run);
    RunSound(lockof, run);
    ExitsOnlyWhenDone(lockof, run);
    DispatchEnds(s);
    if s.runq == [] {
      forall u | u in s.loc ensures IsHeld(s, u) { InOnePlace(s, RunQ, RunQ, u); }
    } else {
      InOnePlace(s, RunQ, RunQ, s.runq[0]);
      QueuedDoesNotWait(s, s.runq[0]);
    }
  }

  ghost predicate IsHeld(s: State, u: Task)
    requires u in s.loc
  {
    s.loc[u] == Parked || (s.loc[u].At? && s.loc[u].p != RunQ && u in On(s, s.loc[u].p))
  }

  lemma QueuedDoesNotWait(s: State, u: Task)
    requires Sound(s) && u in s.runq
    ensures u in s.loc && !IsHeld(s, u)
  {
    assert u in On(s, RunQ);
    ExactMeans(On(s, RunQ), s.loc, RunQ, u) by { assert Exact(On(s, RunQ), s.loc, RunQ); }
  }
}

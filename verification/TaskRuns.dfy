/** What a waiting task may rely on from the call that makes it wait to its resumption, over
    whole runs: the order of turns, the lock of a rendez, and the time of an alarm. */
module TaskRuns {
  import opened TaskLocks
  import opened TaskModel
  import opened TaskPlaces
  import opened TaskResume
  import opened TaskTheorems
  import opened TaskCount
  import opened TaskTimers

  /** The runtime stays sound in a matched run from any sound state. */
  lemma {:induction false} SoundOn(s: State, run: seq<Label>)
    requires Sound(s) && MatchedRun(s, run)
    ensures Sound(Run(s, run))
  {
    if run != [] {
      SoundOn(s, run[..|run| - 1]);
      StepSound(Run(s, run[..|run| - 1]), run[|run| - 1]);
    }
  }

  // ----- what a call leaves alone -----

  /** Task `u` still has the rest of its call to do, and the alarm it set, and was not started. */
  ghost predicate Unmoved(s: State, s': State, u: Task) {
    && s'.lockof == s.lockof && Alarm(s', u) == Alarm(s, u)
    && (s.running != Some(u) ==> s'.running != Some(u))
    && (u in s.cont ==> u in s'.cont && s'.cont[u] == s.cont[u])
  }

  lemma ReadyUnmoved(s: State, ts: seq<Task>, u: Task)
    ensures Unmoved(s, MakeReady(s, ts), u)
  {
  }

  lemma QLockUnmoved(s: State, t: Task, l: nat, block: bool, u: Task)
    requires u != t
    ensures Unmoved(s, QLockStep(s, t, l, block), u)
  {
  }

  lemma QUnlockUnmoved(s: State, l: nat, u: Task)
    ensures Unmoved(s, QUnlockStep(s, l), u)
  {
    var r := Unlock(Ql(s, l));
    ReadyUnmoved(s.(ql := s.ql[l := r.l]), r.ready, u);
  }

  lemma RLockUnmoved(s: State, t: Task, l: nat, block: bool, u: Task)
    requires u != t
    ensures Unmoved(s, RLockStep(s, t, l, block), u)
  {
  }

  lemma WLockUnmoved(s: State, t: Task, l: nat, block: bool, u: Task)
    requires u != t
    ensures Unmoved(s, WLockStep(s, t, l, block), u)
  {
  }

  lemma RwReleaseUnmoved(s: State, l: nat, r: RwRelease, u: Task)
    ensures Unmoved(s, RwReleaseStep(s, l, r), u)
  {
  }

  lemma LockCallUnmoved(s: State, t: Task, l: Label, u: Task)
    requires l.Qlock? || l.Qunlock? || l.Rlock? || l.Wlock? || l.Runlock? || l.Wunlock?
    requires u != t
    ensures Unmoved(s, Call(s, t, l), u)
  {
    match l
    case Qlock(l, block) => QLockUnmoved(s, t, l, block, u);
    case Rlock(l, block) => RLockUnmoved(s, t, l, block, u);
    case Wlock(l, block) => WLockUnmoved(s, t, l, block, u);
    case Qunlock(l) => QUnlockUnmoved(s, l, u);
    case Runlock(l) => RwReleaseUnmoved(s, l, RUnlock(Rw(s, l), t), u);
    case Wunlock(l) => RwReleaseUnmoved(s, l, WUnlock(Rw(s, l)), u);
  }

  lemma SleepUnmoved(s: State, t: Task, r: nat, u: Task)
    requires u != t
    ensures Unmoved(s, SleepStep(s, t, r), u)
  {
    var s1 := Leave(s.(rdv := s.rdv[r := Rdv(s, r) + [t]]), t, At(RendezQ(r)), InSleep(r));
    if r in s.lockof { QUnlockUnmoved(s1, s.lockof[r], u); }
  }

  lemma WakeupUnmoved(s: State, r: nat, all: bool, u: Task)
    ensures Unmoved(s, WakeupStep(s, r, all), u)
  {
  }

  lemma WaitUnmoved(s: State, t: Task, l: Label, u: Task)
    requires l.Sleep? || l.Wakeup? || l.Yield? || l.Park? || l.Ready?
    requires u != t
    ensures Unmoved(s, Call(s, t, l), u)
  {
    match l
    case Sleep(r) => SleepUnmoved(s, t, r, u);
    case Wakeup(r, all) => WakeupUnmoved(s, r, all, u);
    case _ =>
  }

  lemma CreateUnmoved(s: State, u: Task)
    requires u < s.nextid
    ensures Unmoved(s, CreateStep(s), u) && Unmoved(s, WithFdTask(s), u)
  {
  }

  lemma DelayUnmoved(s: State, t: Task, ms: nat, now: nat, u: Task)
    requires u != t
    ensures Unmoved(s, DelayStep(s, t, ms, now), u)
  {
  }

  lemma SystemUnmoved(s: State, t: Task, u: Task)
    ensures Unmoved(s, SystemStep(s, t), u)
  {
  }

  lemma ExitUnmoved(s: State, t: Task, u: Task)
    requires u != t
    ensures Unmoved(s, ExitStep(s, t), u)
  {
  }

  lemma DelayCallUnmoved(s: State, t: Task, ms: nat, now: nat, u: Task)
    requires u != t && u < s.nextid
    ensures Unmoved(s, DelayStep(WithFdTask(s), t, ms, now), u)
  {
    CreateUnmoved(s, u);
    DelayUnmoved(WithFdTask(s), t, ms, now, u);
  }

  lemma TaskCallUnmoved(s: State, t: Task, l: Label, u: Task)
    requires l.Create? || l.System? || l.Exit? || l.Delay? || l.Dispatch?
    requires u != t && u < s.nextid
    ensures Unmoved(s, Call(s, t, l), u)
  {
    match l
    case Create => CreateUnmoved(s, u);
    case Delay(ms, now) => DelayCallUnmoved(s, t, ms, now, u);
    case System => SystemUnmoved(s, t, u);
    case Exit => ExitUnmoved(s, t, u);
    case Dispatch =>
  }

  lemma {:induction false} WakeUnmoved(s: State, now: nat, u: Task)
    ensures Unmoved(s, WakeSleepers(s, now), u)
    decreases |s.sleeping|
  {
    if s.sleeping != [] && now >= Alarm(s, s.sleeping[0]) { WakeUnmoved(WakeOne(s), now, u); }
  }

  lemma StartedUnmoved(s: State, u: Task)
    requires s.runq != [] && s.runq[0] != u
    ensures Unmoved(s, Started(s), u)
  {
  }

  lemma ResumedUnmoved(s: State, t: Task, c: Cont, u: Task)
    requires u != t
    ensures Unmoved(s, Resumed(s, t, c), u)
  {
    if c.InSleep? && c.r in s.lockof { QLockUnmoved(s, t, s.lockof[c.r], true, u); }
  }

  lemma DispatchUnmoved(s: State, u: Task)
    requires s.runq == [] || s.runq[0] != u
    ensures Unmoved(s, DispatchStep(s), u)
  {
    if s.taskcount != 0 && s.runq != [] {
      StartedUnmoved(s, u);
      ResumedUnmoved(Started(s), s.runq[0], if s.runq[0] in s.cont then s.cont[s.runq[0]] else Plain, u);
    }
  }

  lemma CallUnmoved(s: State, t: Task, l: Label, u: Task)
    requires u != t && u < s.nextid
    ensures Unmoved(s, Call(s, t, l), u)
  {
    if l.Wake? {
      WakeUnmoved(s, l.now, u);
    } else if l.Create? || l.System? || l.Exit? || l.Delay? || l.Dispatch? {
      TaskCallUnmoved(s, t, l, u);
    } else if l.Sleep? || l.Wakeup? || l.Yield? || l.Park? || l.Ready? {
      WaitUnmoved(s, t, l, u);
    } else {
      LockCallUnmoved(s, t, l, u);
    }
  }

  lemma StepUnmoved(s: State, l: Label, u: Task)
    requires s.running != Some(u) && u < s.nextid && !(l == Dispatch && Next(s, u))
    ensures Unmoved(s, Step(s, l), u)
  {
    if s.outcome == Going && l == Dispatch && s.running.None? {
      if s.taskcount != 0 { DispatchUnmoved(s, u); }
    } else if s.outcome == Going && l != Dispatch && s.running.Some? {
      CallUnmoved(s, s.running.value, l, u);
    }
  }

  // ----- turns -----

  /** The tasks that the scheduler resumes in a run, in order */
  function Ran(s: State, run: seq<Label>): seq<Task> {
    if run == [] then []
    else
      Ran(s, run[..|run| - 1]) + Turned(Run(s, run[..|run| - 1]), run[|run| - 1])
  }

  predicate Resumes(s: State) {
    s.outcome == Going && s.running == None && s.taskcount != 0 && s.runq != []
  }

  lemma StepTurns(s: State, l: Label)
    ensures l == Dispatch && Resumes(s) ==> Step(s, l).runq == s.runq[1..]
    ensures !(l == Dispatch && Resumes(s)) ==> s.runq <= Step(s, l).runq
  {
    if l == Dispatch {
      if Resumes(s) { DispatchFrame(s); }
    } else if s.outcome == Going && s.running.Some? {
      CallAppends(s, s.running.value, l);
    }
  }

  /** The task that a step resumes, if it resumes one */
  function Turned(s: State, l: Label): seq<Task> {
    if l == Dispatch && Resumes(s) then [s.runq[0]] else []
  }

  lemma TurnTaken(q: seq<Task>, ran: seq<Task>, r: seq<Task>, now: seq<Task>, r': seq<Task>)
    requires q <= ran + r
    requires if now == [] then r <= r' else r != [] && now == [r[0]] && r' == r[1..]
    ensures q <= ran + now + r'
  {
    if now == [] {
      assert ran + now == ran;
    } else {
      assert ran + r == ran + now + r';
    }
  }

  /** The tasks on the run queue are the first to be resumed, in their order. */
  lemma {:induction false} QueuedRunFirst(s: State, run: seq<Label>)
    ensures s.runq <= Ran(s, run) + Run(s, run).runq
  {
    if run != [] {
      var before, l := run[..|run| - 1], run[|run| - 1];
      QueuedRunFirst(s, before);
      OneTurnMore(s.runq, Ran(s, before), Run(s, before), l);
    }
  }

  lemma OneTurnMore(q: seq<Task>, ran: seq<Task>, s: State, l: Label)
    requires q <= ran + s.runq
    ensures q <= ran + Turned(s, l) + Step(s, l).runq
  {
    StepTurns(s, l);
    TurnTaken(q, ran, s.runq, Turned(s, l), Step(s, l).runq);
  }

  lemma FirstIn(q: seq<Task>, t: Task, ran: seq<Task>, r: seq<Task>)
    requires q + [t] <= ran + r && r != [] && r[0] == t && t !in q && t !in ran
    ensures ran == q
  {
    var all := ran + r;
    assert forall k :: 0 <= k < |q| ==> (q + [t])[k] == all[k] == q[k];
    assert all[|q|] == t && all[|ran|] == t;
    assert |q| <= |ran|;
    assert forall k :: 0 <= k < |ran| ==> all[k] == ran[k];
  }

  lemma IdKnown(s: State, t: Task)
    requires Sound(s) && t in s.cont
    ensures t < s.nextid && t in s.loc
  {
    assert Look(0);
  }

  /** Until it is resumed, a task that waits keeps the rest of its call. */
  lemma {:induction false} KeepsWaiting(s: State, run: seq<Label>, t: Task)
    requires Sound(s) && MatchedRun(s, run) && t in s.cont && s.running != Some(t) && t !in Ran(s, run)
    ensures Unmoved(s, Run(s, run), t)
  {
    if run != [] {
      var before, l := run[..|run| - 1], run[|run| - 1];
      KeepsWaiting(s, before, t);
      SoundOn(s, before);
      IdKnown(Run(s, before), t);
      StepUnmoved(Run(s, before), l, t);
    }
  }

  /** From a call of taskyield to the caller's next turn, the scheduler resumes exactly the
      tasks that were on the run queue, in their order; taskyield returns their number. */
  lemma YieldLetsOthersRun(lockof: map<nat, nat>, before: seq<Label>, t: Task, run: seq<Label>)
    requires MatchedRun(Init(lockof), before)
    requires var s := Run(Init(lockof), before); s.outcome == Going && s.running == Some(t)
    requires MatchedRun(Step(Run(Init(lockof), before), Yield), run)
    requires var s1 := Step(Run(Init(lockof), before), Yield); t !in Ran(s1, run) && Next(Run(s1, run), t)
    ensures var s := Run(Init(lockof), before); Ran(Step(s, Yield), run) == s.runq
    ensures var s := Run(Init(lockof), before);
      var s2 := Run(Step(s, Yield), run);
      t in s2.cont && s2.cont[t] == InYield(s.nswitch, |s.runq|) && YieldResult(s2, s.nswitch) == |s.runq|
  {
    var s := Run(Init(lockof), before);
    var s1 := Step(s, Yield);
    RunSound(lockof, before);
    YieldBegins(s, t);
    SoundOn(s1, run);
    KeepsWaiting(s1, run, t);
    QueuedRunFirst(s1, run);
    FirstIn(s.runq, t, Ran(s1, run), Run(s1, run).runq);
    StartedSound(Run(s1, run));
  }

  lemma YieldBegins(s: State, t: Task)
    requires Sound(s) && s.outcome == Going && s.running == Some(t)
    ensures var s1 := Step(s, Yield);
      && Sound(s1) && s1.running == None && s1.runq == s.runq + [t] && t !in s.runq
      && t in s1.cont && s1.cont[t] == InYield(s.nswitch, |s.runq|)
  {
    RunningIsUnlisted(s, t);
    assert t !in On(s, RunQ);
    StepSound(s, Yield);
  }

  // ----- tasksleep -----

  /** Task `t` is in tasksleep on `r`, whose lock is `l`. */
  ghost predicate Asleep(s: State, t: Task, r: nat, l: nat) {
    && r in s.lockof && s.lockof[r] == l && s.running != Some(t)
    && t in s.cont && (s.cont[t] == InSleep(r) || s.cont[t] == Want(LockQ(l)))
  }

  lemma WakingStep(s: State, t: Task, r: nat, l: nat)
    requires Sound(s) && Asleep(s, t, r, l) && Next(s, t)
    ensures var s' := DispatchStep(s); if s'.running == Some(t) then Ql(s', l).owner == Some(t) else Asleep(s', t, r, l)
  {
    StartedSound(s);
    if s.cont[t] == InSleep(r) { LocksAgain(Started(s), t, l); }
  }

  lemma SleepingStep(s: State, label_: Label, t: Task, r: nat, l: nat)
    requires Sound(s) && Matched(s, label_) && Asleep(s, t, r, l)
    ensures var s' := Step(s, label_); if s'.running == Some(t) then Ql(s', l).owner == Some(t) else Asleep(s', t, r, l)
  {
    if label_ == Dispatch && Next(s, t) {
      WakingStep(s, t, r, l);
    } else {
      IdKnown(s, t);
      StepUnmoved(s, label_, t);
    }
  }

  lemma {:induction false} StaysAsleep(s: State, run: seq<Label>, t: Task, r: nat, l: nat)
    requires Sound(s) && MatchedRun(s, run) && Asleep(s, t, r, l)
    requires forall k :: 0 <= k < |run| ==> Run(s, run[..k]).running != Some(t)
    ensures var s' := Run(s, run); if s'.running == Some(t) then Ql(s', l).owner == Some(t) else Asleep(s', t, r, l)
  {
    if run != [] {
      var before := run[..|run| - 1];
      forall k | 0 <= k < |before| ensures Run(s, before[..k]).running != Some(t) {
        assert before[..k] == run[..k];
      }
      assert Run(s, run[..|run| - 1]).running != Some(t);
      StaysAsleep(s, before, t, r, l);
      SoundOn(s, before);
      SleepingStep(Run(s, before), run[|run| - 1], t, r, l);
    }
  }

  /** When a task that called tasksleep runs again, it holds the lock of the rendez. */
  lemma SleeperComesBackWithLock(lockof: map<nat, nat>, before: seq<Label>, t: Task, r: nat, run: seq<Label>)
    requires MatchedRun(Init(lockof), before)
    requires var s := Run(Init(lockof), before);
      s.outcome == Going && s.running == Some(t) && Matched(s, Sleep(r)) && r in s.lockof
    requires MatchedRun(Step(Run(Init(lockof), before), Sleep(r)), run)
    requires var s1 := Step(Run(Init(lockof), before), Sleep(r));
      Run(s1, run).running == Some(t) && forall k :: 0 <= k < |run| ==> Run(s1, run[..k]).running != Some(t)
    ensures var s := Run(Init(lockof), before); Ql(Run(Step(s, Sleep(r)), run), s.lockof[r]).owner == Some(t)
  {
    var s := Run(Init(lockof), before);
    RunSound(lockof, before);
    StepSound(s, Sleep(r));
    FallsAsleep(s, t, r);
    StaysAsleep(Step(s, Sleep(r)), run, t, r, s.lockof[r]);
  }

  lemma FallsAsleep(s: State, t: Task, r: nat)
    requires s.outcome == Going && s.running == Some(t) && r in s.lockof
    ensures Asleep(Step(s, Sleep(r)), t, r, s.lockof[r])
  {
    var s1 := Leave(s.(rdv := s.rdv[r := Rdv(s, r) + [t]]), t, At(RendezQ(r)), InSleep(r));
    QUnlockUnmoved(s1, s.lockof[r], t);
    assert Step(s, Sleep(r)) == QUnlockStep(s1, s.lockof[r]);
  }

  // ----- taskdelay -----

  lemma SleeperIsWaiting(s: State, t: Task)
    requires Sound(s) && t in s.sleeping
    ensures s.running != Some(t) && t < s.nextid && !Next(s, t)
    ensures forall i, j :: 0 <= i < j < |s.sleeping| ==> s.sleeping[i] != s.sleeping[j]
  {
    InOnePlace(s, Sleepers, RunQ, t);
    assert t in On(s, Sleepers);
    assert Look(0);
  }

  lemma {:induction false} SleepsOn(s: State, run: seq<Label>, t: Task)
    requires Sound(s) && AlarmsFit(s) && MatchedRun(s, run)
    requires forall k :: 0 <= k <= |run| ==> t in Run(s, run[..k]).sleeping
    ensures Sound(Run(s, run)) && AlarmsFit(Run(s, run)) && t in Run(s, run).sleeping
    ensures Alarm(Run(s, run), t) == Alarm(s, t)
  {
    assert run[..|run|] == run;
    if run != [] {
      var before := run[..|run| - 1];
      forall k | 0 <= k <= |before| ensures t in Run(s, before[..k]).sleeping {
        assert before[..k] == run[..k];
      }
      SleepsOn(s, before, t);
      SleeperIsWaiting(Run(s, before), t);
      StepUnmoved(Run(s, before), run[|run| - 1], t);
      StepSound(Run(s, before), run[|run| - 1]);
      StepAlarms(Run(s, before), run[|run| - 1]);
    }
  }

  lemma WakesWhenDue(s: State, now: nat, t: Task)
    requires Sound(s) && AlarmsFit(s) && t in s.sleeping
    ensures t !in WakeSleepers(s, now).sleeping <==> Alarm(s, t) <= now
  {
    var n := WakesExactly(s, now);
    SleeperIsWaiting(s, t);
    var i :| 0 <= i < |s.sleeping| && s.sleeping[i] == t;
    if i >= n { assert s.sleeping[n..][i - n] == t; }
  }

  /** A task that called taskdelay and still sleeps is woken by fdtask exactly if its alarm
      has come; and that is not before its time exactly if the sum of the clock and the delay
      fits in 64 bits. */
  lemma DelayEndsOnTime(lockof: map<nat, nat>, before: seq<Label>, t: Task, ms: nat, now: nat, run: seq<Label>,
      then_: nat, s: State, s1: State)
    requires MatchedRun(Init(lockof), before) && now < TWO_64 && then_ < TWO_64
    requires s == Run(Init(lockof), before) && s.outcome == Going && s.running == Some(t)
    requires s1 == Step(s, Delay(ms, now)) && MatchedRun(s1, run)
    requires forall k :: 0 <= k <= |run| ==> t in Run(s1, run[..k]).sleeping
    ensures t !in WakeSleepers(Run(s1, run), then_).sleeping <==> (now + ms * MILLISECOND) % TWO_64 <= then_
    ensures t !in WakeSleepers(Run(s1, run), then_).sleeping ==>
      (now + ms * MILLISECOND <= then_ <==> now + ms * MILLISECOND < TWO_64)
  {
    DelayFrom(lockof, before, t, ms, now, s, s1);
    DueFrom(s1, run, t, now + ms * MILLISECOND, then_);
  }

  lemma DelayFrom(lockof: map<nat, nat>, before: seq<Label>, t: Task, ms: nat, now: nat, s: State, s1: State)
    requires MatchedRun(Init(lockof), before) && s == Run(Init(lockof), before)
    requires s.outcome == Going && s.running == Some(t) && s1 == Step(s, Delay(ms, now))
    ensures Sound(s1) && AlarmsFit(s1) && Alarm(s1, t) == (now + ms * MILLISECOND) % TWO_64
  {
    RunSound(lockof, before);
    SleepQueueSorted(lockof, before);
    DelayBegins(s, t, ms, now);
  }

  lemma DueFrom(s: State, run: seq<Label>, t: Task, due: nat, then_: nat)
    requires Sound(s) && AlarmsFit(s) && MatchedRun(s, run) && Alarm(s, t) == due % TWO_64 && then_ < TWO_64
    requires forall k :: 0 <= k <= |run| ==> t in Run(s, run[..k]).sleeping
    ensures t !in WakeSleepers(Run(s, run), then_).sleeping <==> due % TWO_64 <= then_
    ensures t !in WakeSleepers(Run(s, run), then_).sleeping ==> (due <= then_ <==> due < TWO_64)
  {
    EndsWhenDue(s, run, t, then_);
    EarlyIfWrapped(due, then_);
  }

  lemma EndsWhenDue(s: State, run: seq<Label>, t: Task, then_: nat)
    requires Sound(s) && AlarmsFit(s) && MatchedRun(s, run)
    requires forall k :: 0 <= k <= |run| ==> t in Run(s, run[..k]).sleeping
    ensures t !in WakeSleepers(Run(s, run), then_).sleeping <==> Alarm(s, t) <= then_
  {
    SleepsOn(s, run, t);
    WakesWhenDue(Run(s, run), then_, t);
  }

  lemma DelayBegins(s: State, t: Task, ms: nat, now: nat)
    requires Sound(s) && AlarmsFit(s) && s.outcome == Going && s.running == Some(t)
    ensures var s1 := Step(s, Delay(ms, now));
      Sound(s1) && AlarmsFit(s1) && Alarm(s1, t) == (now + ms * MILLISECOND) % TWO_64
  {
    StepSound(s, Delay(ms, now));
    StepAlarms(s, Delay(ms, now));
  }

  lemma EarlyIfWrapped(due: nat, now: nat)
    requires now < TWO_64
    ensures due % TWO_64 <= now ==> (due <= now <==> due < TWO_64)
  {
  }

  // ----- two runs near the wrap of the clock -----

  lemma OneMore(s: State, run: seq<Label>, l: Label)
    requires MatchedRun(s, run) && Matched(Run(s, run), l)
    ensures MatchedRun(s, run + [l]) && Run(s, run + [l]) == Step(Run(s, run), l)
  {
    assert (run + [l])[..|run|] == run;
  }

  /** main's task runs, alone. */
  function Alone(): (s: State)
    ensures s.outcome == Going && s.running == Some(1) && s.runq == [] && s.sleeping == [] && s.rdv == map[]
    ensures !s.fdstarted && s.nextid == 2 && s.system == {}
  {
    Started(Init(map[]))
  }

  lemma FirstTask()
    ensures MatchedRun(Init(map[]), [Dispatch]) && Run(Init(map[]), [Dispatch]) == Alone()
  {
    OneMore(Init(map[]), [], Dispatch);
    assert [] + [Dispatch] == [Dispatch];
  }

  function Sleeping(ms: nat, now: nat): State {
    DelayStep(WithFdTask(Alone()), 1, ms, now)
  }

  /** The run in which main's task falls asleep; fdtask is about to run. */
  lemma AsleepAfter(ms: nat, now: nat)
    ensures MatchedRun(Init(map[]), [Dispatch, Delay(ms, now)])
    ensures Run(Init(map[]), [Dispatch, Delay(ms, now)]) == Sleeping(ms, now)
  {
    FirstTask();
    OneMore(Init(map[]), [Dispatch], Delay(ms, now));
    assert [Dispatch] + [Delay(ms, now)] == [Dispatch, Delay(ms, now)];
  }

  lemma FirstSleeper(ms: nat, now: nat)
    ensures var s := Sleeping(ms, now);
      && s.outcome == Going && s.running == None && s.taskcount == 3 && s.sleeping == [1] && s.runq == [2]
      && Alarm(s, 1) == (now + ms * MILLISECOND) % TWO_64 && 2 in s.cont && s.cont[2] == Plain
  {
    var s := WithFdTask(Alone());
    assert s.runq == [2] && s.sleeping == [] && s.taskcount == 2;
  }

  /** Two milliseconds before the wrap a delay of one millisecond: fdtask polls past the alarm. */
  lemma PollsTooLong() returns (now: nat, s: State)
    ensures now == TWO_64 - 2 * MILLISECOND && MatchedRun(Init(map[]), [Dispatch, Delay(1, now)])
    ensures s == Run(Init(map[]), [Dispatch, Delay(1, now)]) && s.sleeping == [1]
    ensures now + PollTimeout(s, now) * MILLISECOND > Alarm(s, 1)
  {
    now := TWO_64 - 2 * MILLISECOND;
    s := OneAsleep(1, now);
    TooLong(s, now);
  }

  lemma OneAsleep(ms: nat, now: nat) returns (s: State)
    ensures MatchedRun(Init(map[]), [Dispatch, Delay(ms, now)]) && s == Run(Init(map[]), [Dispatch, Delay(ms, now)])
    ensures s.sleeping == [1] && Alarm(s, 1) == (now + ms * MILLISECOND) % TWO_64
  {
    s := Sleeping(ms, now);
    AsleepAfter(ms, now);
    FirstSleeper(ms, now);
  }

  lemma TooLong(s: State, now: nat)
    requires s.sleeping == [1] && now == TWO_64 - 2 * MILLISECOND && Alarm(s, 1) == (now + 1 * MILLISECOND) % TWO_64
    ensures now + PollTimeout(s, now) * MILLISECOND > Alarm(s, 1)
  {
  }

  /** fdtask runs while main's task sleeps. */
  lemma FdTaskRuns(ms: nat, now: nat) returns (s: State)
    ensures MatchedRun(Init(map[]), [Dispatch, Delay(ms, now), Dispatch])
    ensures s == Run(Init(map[]), [Dispatch, Delay(ms, now), Dispatch]) && s.outcome == Going && s.running == Some(2)
    ensures s.sleeping == [1] && Alarm(s, 1) == (now + ms * MILLISECOND) % TWO_64
  {
    AsleepAfter(ms, now);
    FirstSleeper(ms, now);
    OneMore(Init(map[]), [Dispatch, Delay(ms, now)], Dispatch);
    assert [Dispatch, Delay(ms, now)] + [Dispatch] == [Dispatch, Delay(ms, now), Dispatch];
    s := FdTaskStarts(Sleeping(ms, now));
  }

  lemma FdTaskStarts(s: State) returns (s': State)
    requires s.outcome == Going && s.running == None && s.taskcount != 0 && s.runq == [2] && 2 in s.cont
    requires s.cont[2] == Plain
    ensures s' == Step(s, Dispatch) && s'.outcome == Going && s'.running == Some(2)
    ensures s'.sleeping == s.sleeping && s'.alarm == s.alarm
  {
    s' := Started(s);
  }

  /** Just before the wrap a delay of one millisecond: fdtask wakes the sleeper at once. */
  lemma WakesTooEarly() returns (now: nat, s: State)
    ensures now == TWO_64 - 1 && MatchedRun(Init(map[]), [Dispatch, Delay(1, now), Dispatch])
    ensures s == Run(Init(map[]), [Dispatch, Delay(1, now), Dispatch]) && s.running == Some(2) && s.sleeping == [1]
    ensures Step(s, Wake(now)).sleeping == []
  {
    now := TWO_64 - 1;
    s := FdTaskRuns(1, now);
    OneWakes(s, now);
  }

  lemma OneWakes(s: State, now: nat)
    requires s.outcome == Going && s.running.Some? && s.sleeping == [1] && Alarm(s, 1) <= now
    ensures Step(s, Wake(now)).sleeping == []
  {
    assert Step(s, Wake(now)) == WakeSleepers(s, now) == WakeSleepers(WakeOne(s), now);
  }
}

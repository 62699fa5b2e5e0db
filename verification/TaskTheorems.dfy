/** What holds in every run in which calls are matched. */
module TaskTheorems {
  import opened TaskLocks
  import opened TaskModel
  import opened TaskPlaces
  import opened TaskResume

  lemma ExactMeans(q: seq<Task>, loc: map<Task, Loc>, p: Place, t: Task)
    requires Exact(q, loc, p)
    ensures NoDup(q) && (t in q <==> t in loc && loc[t] == At(p))
  {
    assert Look(0);
  }

  lemma KnownMeans(s: State, t: Task)
    requires Known(s)
    ensures t in s.loc && s.loc[t] == Running <==> s.running == Some(t)
  {
    assert Look(0);
  }

  lemma InOnePlace(s: State, p: Place, q: Place, t: Task)
    requires Disciplined(s)
    ensures NoDup(On(s, p)) && (t in On(s, p) && t in On(s, q) ==> p == q)
    ensures t in On(s, p) ==> t in s.loc && s.running != Some(t)
    ensures t in s.loc ==> s.running == Some(t) || s.loc[t] == Parked || (s.loc[t].At? && t in On(s, s.loc[t].p))
  {
    KnownMeans(s, t);
    ExactMeans(On(s, p), s.loc, p, t);
    ExactMeans(On(s, q), s.loc, q, t);
    if t in s.loc && s.loc[t].At? { ExactMeans(On(s, s.loc[t].p), s.loc, s.loc[t].p, t); }
  }

  /** A task is on one list at most, and once, although all lists use its `next` and `prev`;
      the running task is on none; who is on no list runs or is parked; and no list holds
      a task that has exited. */
  lemma EachTaskInOnePlace(lockof: map<nat, nat>, run: seq<Label>, p: Place, q: Place, t: Task)
    requires MatchedRun(Init(lockof), run)
    ensures var s := Run(Init(lockof), run);
      && NoDup(On(s, p))
      && (t in On(s, p) && t in On(s, q) ==> p == q)
      && (t in On(s, p) ==> t in s.loc && s.running != Some(t))
      && (t in s.loc ==> s.running == Some(t) || s.loc[t] == Parked || (s.loc[t].At? && t in On(s, s.loc[t].p)))
  {
    RunSound(lockof, run);
    InOnePlace(Run(Init(lockof), run), p, q, t);
  }

  /** No abort is reached. Waiting tasks wait for an owner, and a mutex is granted in the
      order of asking. */
  lemma MutexesHandOff(lockof: map<nat, nat>, run: seq<Label>, l: nat)
    requires MatchedRun(Init(lockof), run)
    ensures var s := Run(Init(lockof), run);
      && s.outcome != Aborted
      && (Ql(s, l).waiting != [] ==> Ql(s, l).owner.Some?)
      && Ql(s, l).asked == Ql(s, l).granted + Ql(s, l).waiting
  {
    RunSound(lockof, run);
    LockOk(Run(Init(lockof), run), l);
    assert Inside(0);
  }

  /** The task that the scheduler is about to resume. */
  ghost predicate Next(s: State, t: Task) {
    s.outcome == Going && s.running == None && s.taskcount != 0 && s.runq != [] && s.runq[0] == t
  }

  /** A task that comes back from qlock, rlock or wlock after waiting has the lock. */
  lemma WaiterComesBackWithLock(lockof: map<nat, nat>, run: seq<Label>, t: Task, p: Place)
    requires MatchedRun(Init(lockof), run)
    requires var s := Run(Init(lockof), run); Next(s, t) && t in s.cont && s.cont[t] == Want(p)
    ensures var s' := DispatchStep(Run(Init(lockof), run)); s'.running == Some(t) && Holds(s'.ql, s'.rw, p, t)
  {
    RunSound(lockof, run);
    StartedSound(Run(Init(lockof), run));
  }

  lemma LocksAgain(s: State, t: Task, l: nat)
    requires s.running == Some(t)
    ensures Relocked(s, QLockStep(s, t, l, true), t, l)
  {
  }

  ghost predicate Relocked(s: State, s': State, t: Task, l: nat) {
    if Ql(s, l).owner == None then s'.running == Some(t) && Ql(s', l).owner == Some(t)
    else s'.running == None && t in Ql(s', l).waiting && t in s'.cont && s'.cont[t] == Want(LockQ(l))
  }

  // What the lock calls leave alone.

  lemma ReadyFrame(s: State, ts: seq<Task>)
    ensures s.runq <= MakeReady(s, ts).runq && MakeReady(s, ts).rdv == s.rdv
  {
  }

  lemma QLockFrame(s: State, t: Task, l: nat, block: bool)
    ensures QLockStep(s, t, l, block).runq == s.runq && QLockStep(s, t, l, block).rdv == s.rdv
  {
  }

  lemma RLockFrame(s: State, t: Task, l: nat, block: bool)
    ensures RLockStep(s, t, l, block).runq == s.runq && RLockStep(s, t, l, block).rdv == s.rdv
  {
  }

  lemma WLockFrame(s: State, t: Task, l: nat, block: bool)
    ensures WLockStep(s, t, l, block).runq == s.runq && WLockStep(s, t, l, block).rdv == s.rdv
  {
  }

  lemma QUnlockFrame(s: State, l: nat)
    ensures s.runq <= QUnlockStep(s, l).runq && QUnlockStep(s, l).rdv == s.rdv
  {
    var r := Unlock(Ql(s, l));
    ReadyFrame(s.(ql := s.ql[l := r.l]), r.ready);
  }

  lemma RwReleaseFrame(s: State, l: nat, r: RwRelease)
    ensures s.runq <= RwReleaseStep(s, l, r).runq && RwReleaseStep(s, l, r).rdv == s.rdv
  {
  }

  lemma LockCallFrame(s: State, t: Task, l: Label)
    requires l.Qlock? || l.Qunlock? || l.Rlock? || l.Wlock? || l.Runlock? || l.Wunlock?
    ensures s.runq <= Call(s, t, l).runq && Call(s, t, l).rdv == s.rdv
  {
    match l
    case Qlock(l, block) => QLockFrame(s, t, l, block);
    case Rlock(l, block) => RLockFrame(s, t, l, block);
    case Wlock(l, block) => WLockFrame(s, t, l, block);
    case Qunlock(l) => QUnlockFrame(s, l);
    case Runlock(l) => RwReleaseFrame(s, l, RUnlock(Rw(s, l), t));
    case Wunlock(l) => RwReleaseFrame(s, l, WUnlock(Rw(s, l)));
  }

  lemma ResumedFrame(s: State, t: Task, c: Cont)
    ensures Resumed(s, t, c).runq == s.runq && Resumed(s, t, c).rdv == s.rdv
  {
    if c.InSleep? && c.r in s.lockof { QLockFrame(s, t, s.lockof[c.r], true); }
  }

  lemma SleepFrame(s: State, t: Task, r: nat)
    ensures s.runq <= SleepStep(s, t, r).runq && SleepStep(s, t, r).rdv == s.rdv[r := Rdv(s, r) + [t]]
  {
    var s1 := Leave(s.(rdv := s.rdv[r := Rdv(s, r) + [t]]), t, At(RendezQ(r)), InSleep(r));
    if r in s.lockof { QUnlockFrame(s1, s.lockof[r]); }
  }

  lemma WakeupFrame(s: State, r: nat, all: bool)
    ensures s.runq <= WakeupStep(s, r, all).runq
    ensures forall r' :: r' != r ==> Rdv(WakeupStep(s, r, all), r') == Rdv(s, r')
  {
  }

  lemma YieldFrame(s: State, t: Task)
    ensures s.runq <= YieldStep(s, t).runq && YieldStep(s, t).rdv == s.rdv
  {
  }

  lemma CreateFrame(s: State)
    ensures s.runq <= CreateStep(s).runq && CreateStep(s).rdv == s.rdv
    ensures s.runq <= WithFdTask(s).runq && WithFdTask(s).rdv == s.rdv
  {
  }

  lemma DelayFrame(s: State, t: Task, ms: nat, now: nat)
    ensures DelayStep(s, t, ms, now).runq == s.runq && DelayStep(s, t, ms, now).rdv == s.rdv
  {
  }

  lemma DelayCallFrame(s: State, t: Task, ms: nat, now: nat)
    ensures var s' := DelayStep(WithFdTask(s), t, ms, now); s.runq <= s'.runq && s'.rdv == s.rdv
  {
    CreateFrame(s);
    DelayFrame(WithFdTask(s), t, ms, now);
  }

  lemma ExitFrame(s: State, t: Task)
    ensures ExitStep(s, t).runq == s.runq && ExitStep(s, t).rdv == s.rdv
    ensures SystemStep(s, t).runq == s.runq && SystemStep(s, t).rdv == s.rdv
    ensures Leave(s, t, Parked, Plain).runq == s.runq && Leave(s, t, Parked, Plain).rdv == s.rdv
  {
  }

  lemma WaitCallAppends(s: State, t: Task, l: Label)
    requires l.Sleep? || l.Wakeup? || l.Yield?
    ensures s.runq <= Call(s, t, l).runq
  {
    match l
    case Sleep(r) => SleepFrame(s, t, r);
    case Wakeup(r, all) => WakeupFrame(s, r, all);
    case Yield => YieldFrame(s, t);
  }

  lemma TimerCallAppends(s: State, t: Task, l: Label)
    requires l.Delay? || l.Wake?
    ensures s.runq <= Call(s, t, l).runq
  {
    if l.Wake? { WakeAppends(s, l.now); } else { DelayCallFrame(s, t, l.ms, l.now); }
  }

  lemma TaskCallAppends(s: State, t: Task, l: Label)
    requires l.Create? || l.System? || l.Exit? || l.Park? || l.Ready? || l.Dispatch?
    ensures s.runq <= Call(s, t, l).runq
  {
    match l
    case Create => CreateFrame(s);
    case System => ExitFrame(s, t);
    case Exit => ExitFrame(s, t);
    case Park => ExitFrame(s, t);
    case Ready(u) => ReadyFrame(s, [u]);
    case Dispatch =>
  }

  lemma CallAppends(s: State, t: Task, l: Label)
    ensures s.runq <= Call(s, t, l).runq
  {
    if l.Sleep? || l.Wakeup? || l.Yield? {
      WaitCallAppends(s, t, l);
    } else if l.Delay? || l.Wake? {
      TimerCallAppends(s, t, l);
    } else if l.Create? || l.System? || l.Exit? || l.Park? || l.Ready? || l.Dispatch? {
      TaskCallAppends(s, t, l);
    } else {
      LockCallFrame(s, t, l);
    }
  }

  lemma DispatchFrame(s: State)
    requires s.taskcount != 0 && s.runq != []
    ensures DispatchStep(s).runq == s.runq[1..] && DispatchStep(s).rdv == s.rdv
  {
    ResumedFrame(Started(s), s.runq[0], if s.runq[0] in s.cont then s.cont[s.runq[0]] else Plain);
  }

  /** The queue behind a yielding task only grows at its end: whatever happens, the run
      queue stays as it is, loses its head to the scheduler, or gets tasks appended. */
  lemma RunQueueIsFifo(s: State, l: Label)
    ensures s.runq <= Step(s, l).runq || (l == Dispatch && s.runq != [] && Step(s, l).runq == s.runq[1..])
  {
    if s.outcome == Going {
      if l == Dispatch {
        if s.running.None? && s.taskcount != 0 && s.runq != [] { DispatchFrame(s); }
      } else if s.running.Some? {
        CallAppends(s, s.running.value, l);
      }
    }
  }

  lemma {:induction false} WakeAppends(s: State, now: nat)
    ensures s.runq <= WakeSleepers(s, now).runq
    decreases |s.sleeping|
  {
    if s.sleeping != [] && now >= Alarm(s, s.sleeping[0]) { WakeAppends(WakeOne(s), now); }
  }

  /** Reader/writer locks: a writer is alone, waiting readers have a writer to wait for,
      waiting writers have somebody inside to wait for, and both wait only so long. */
  lemma ReadersAndWriters(lockof: map<nat, nat>, run: seq<Label>, l: nat)
    requires MatchedRun(Init(lockof), run)
    ensures var l := Rw(Run(Init(lockof), run), l);
      && l.readers == |l.holders| && (l.writer.Some? ==> l.readers == 0)
      && (l.rwaiting != [] ==> l.writer.Some? || l.wwaiting != [])
      && (l.wwaiting != [] ==> l.writer.Some? || l.readers > 0)
      && (forall t :: t in l.rwaiting ==> ReaderBound(l, t))
      && (forall k :: 0 <= k < |l.wwaiting| ==> WriterBound(l, k))
  {
    RunSound(lockof, run);
    LockOk(Run(Init(lockof), run), l);
    assert Inside(0);
  }

  // ----- no missed wakeup -----

  /** When tasksleep has let go of the lock its task is on the list of the rendez. */
  lemma SleepsListed(s: State, t: Task, r: nat)
    ensures Rdv(SleepStep(s, t, r), r) == Rdv(s, r) + [t]
  {
    SleepFrame(s, t, r);
  }

  lemma WakeupTakes(s: State, r: nat, all: bool)
    ensures var s' := WakeupStep(s, r, all);
      if all || Rdv(s, r) == [] then Rdv(s', r) == [] && s'.runq == s.runq + Rdv(s, r)
      else Rdv(s', r) == Rdv(s, r)[1..] && s'.runq == s.runq + [Rdv(s, r)[0]]
  {
    var q := Rdv(s, r);
    if q != [] && !all { assert q[..1] == [q[0]]; }
  }

  lemma WaitCallKeepsRendez(s: State, t: Task, l: Label, r: nat)
    requires l.Sleep? || (l.Wakeup? && l.r != r) || l.Yield?
    ensures Rdv(s, r) <= Rdv(Call(s, t, l), r)
  {
    match l
    case Sleep(r') => SleepFrame(s, t, r');
    case Wakeup(r', all) => WakeupFrame(s, r', all);
    case Yield => YieldFrame(s, t);
  }

  lemma TimerCallKeepsRendez(s: State, t: Task, l: Label, r: nat)
    requires l.Delay? || l.Wake?
    ensures Rdv(s, r) <= Rdv(Call(s, t, l), r)
  {
    if l.Wake? { WakeKeepsRendez(s, l.now, r); } else { DelayCallFrame(s, t, l.ms, l.now); }
  }

  lemma TaskCallKeepsRendez(s: State, t: Task, l: Label, r: nat)
    requires l.Create? || l.System? || l.Exit? || l.Park? || l.Ready? || l.Dispatch?
    ensures Rdv(Call(s, t, l), r) == Rdv(s, r)
  {
    match l
    case Create => CreateFrame(s);
    case System => ExitFrame(s, t);
    case Exit => ExitFrame(s, t);
    case Park => ExitFrame(s, t);
    case Ready(u) => ReadyFrame(s, [u]);
    case Dispatch =>
  }

  lemma CallKeepsRendez(s: State, t: Task, l: Label, r: nat)
    requires !(l.Wakeup? && l.r == r)
    ensures Rdv(s, r) <= Rdv(Call(s, t, l), r)
  {
    if l.Sleep? || l.Wakeup? || l.Yield? {
      WaitCallKeepsRendez(s, t, l, r);
    } else if l.Delay? || l.Wake? {
      TimerCallKeepsRendez(s, t, l, r);
    } else if l.Create? || l.System? || l.Exit? || l.Park? || l.Ready? || l.Dispatch? {
      TaskCallKeepsRendez(s, t, l, r);
    } else {
      LockCallFrame(s, t, l);
    }
  }

  /** Nothing but a wakeup takes a sleeper off its list: a wakeup that comes after the
      unlock in tasksleep cannot miss the sleeper. */
  lemma OnlyWakeupWakes(s: State, l: Label, r: nat)
    requires !(l.Wakeup? && l.r == r)
    ensures Rdv(s, r) <= Rdv(Step(s, l), r)
  {
    if s.outcome == Going && l == Dispatch && s.running.None? {
      assert Step(s, l) == DispatchStep(s);
      DispatchKeepsRendez(s);
    } else if s.outcome == Going && l != Dispatch && s.running.Some? {
      assert Step(s, l) == Call(s, s.running.value, l);
      CallKeepsRendez(s, s.running.value, l, r);
    } else {
      assert Step(s, l) == s;
    }
  }

  lemma DispatchKeepsRendez(s: State)
    ensures DispatchStep(s).rdv == s.rdv
  {
    if s.taskcount != 0 && s.runq != [] { DispatchFrame(s); }
  }

  lemma {:induction false} WakeKeepsRendez(s: State, now: nat, r: nat)
    ensures Rdv(WakeSleepers(s, now), r) == Rdv(s, r)
    decreases |s.sleeping|
  {
    if s.sleeping != [] && now >= Alarm(s, s.sleeping[0]) { WakeKeepsRendez(WakeOne(s), now, r); }
  }

  /** From the unlock in tasksleep on, the sleeper stays on the list of the rendez until
      somebody calls taskwakeup or taskwakeupall on it: no wakeup misses it. */
  lemma {:induction false} SleeperWaitsForWakeup(s: State, t: Task, r: nat, run: seq<Label>)
    requires s.outcome == Going && s.running == Some(t)
    requires forall k :: 0 <= k < |run| ==> !(run[k].Wakeup? && run[k].r == r)
    ensures Rdv(s, r) + [t] <= Rdv(Run(Step(s, Sleep(r)), run), r)
  {
    if run == [] {
      assert Step(s, Sleep(r)) == SleepStep(s, t, r);
      SleepsListed(s, t, r);
    } else {
      var n := |run| - 1;
      SleeperWaitsForWakeup(s, t, r, run[..n]);
      OnlyWakeupWakes(Run(Step(s, Sleep(r)), run[..n]), run[n], r);
    }
  }

  /** A wakeup after the unlock in tasksleep reaches the sleeper: taskwakeupall readies it with
      those before it, and taskwakeup readies who has slept longest, so that the sleeper's
      turn comes after those before it. */
  lemma WakeupReachesSleeper(s: State, t: Task, r: nat, run: seq<Label>, all: bool)
    requires s.outcome == Going && s.running == Some(t)
    requires forall k :: 0 <= k < |run| ==> !(run[k].Wakeup? && run[k].r == r)
    requires var s2 := Run(Step(s, Sleep(r)), run); s2.outcome == Going && s2.running.Some?
    ensures var q, s2 := Rdv(s, r) + [t], Run(Step(s, Sleep(r)), run);
      var s3 := Step(s2, Wakeup(r, all));
      if all then s2.runq + q <= s3.runq && Rdv(s3, r) == []
      else s3.runq == s2.runq + [q[0]] && q[1..] <= Rdv(s3, r)
  {
    SleeperWaitsForWakeup(s, t, r, run);
    WakeupReaches(Run(Step(s, Sleep(r)), run), Rdv(s, r) + [t], r, all);
  }

  lemma WakeupReaches(s: State, q: seq<Task>, r: nat, all: bool)
    requires s.outcome == Going && s.running.Some? && q != [] && q <= Rdv(s, r)
    ensures var s' := Step(s, Wakeup(r, all));
      if all then s.runq + q <= s'.runq && Rdv(s', r) == [] else s'.runq == s.runq + [q[0]] && q[1..] <= Rdv(s', r)
  {
    assert Step(s, Wakeup(r, all)) == WakeupStep(s, r, all);
    WakeupTakes(s, r, all);
    LongestFirst(s.runq, q, Rdv(s, r));
  }

  lemma LongestFirst(runq: seq<Task>, q: seq<Task>, sleepers: seq<Task>)
    requires q <= sleepers && q != []
    ensures sleepers != [] && q[0] == sleepers[0] && q[1..] <= sleepers[1..] && runq + q <= runq + sleepers
  {
  }
}

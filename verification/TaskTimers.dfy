/** The sleep queue over whole runs: sorted by alarm time, woken exactly on time, and never
    slept over by fdtask. */
module TaskTimers {
  import opened TaskLocks
  import opened TaskModel
  import opened TaskPlaces
  import opened TaskResume
  import opened TaskCount

  lemma InsertSorted(q: seq<Task>, alarm: map<Task, nat>, t: Task, when: nat, i: nat)
    requires Sorted(q, alarm) && t !in q && i <= |q|
    requires forall k :: 0 <= k < i ==> AlarmIn(alarm, q[k]) < when
    requires i < |q| ==> when <= AlarmIn(alarm, q[i])
    ensures Sorted(q[..i] + [t] + q[i..], alarm[t := when])
  {
    var r, alarm' := q[..i] + [t] + q[i..], alarm[t := when];
    forall a, b | 0 <= a < b < |r| ensures AlarmIn(alarm', r[a]) <= AlarmIn(alarm', r[b]) {
      PlaceOf(q, t, i, a);
      PlaceOf(q, t, i, b);
      if a == i && i < b - 1 { assert AlarmIn(alarm, q[i]) <= AlarmIn(alarm, q[b - 1]); }
    }
  }

  lemma DelaySorted(s: State, t: Task, ms: nat, now: nat)
    requires Sorted(s.sleeping, s.alarm) && t !in s.sleeping
    ensures Sorted(DelayStep(s, t, ms, now).sleeping, DelayStep(s, t, ms, now).alarm)
  {
    var when := (now + ms * MILLISECOND) % TWO_64;
    InsertSorted(s.sleeping, s.alarm, t, when, SleepPlace(s, when));
  }

  lemma PlaceOf(q: seq<Task>, t: Task, i: nat, k: nat)
    requires i <= |q| && k <= |q| && t !in q
    ensures (q[..i] + [t] + q[i..])[k] == if k < i then q[k] else if k == i then t else q[k - 1]
    ensures k != i ==> (q[..i] + [t] + q[i..])[k] != t
  {
  }

  /** Some of the first sleepers have moved to the run queue. */
  ghost predicate Woken(s: State, s': State, n: nat) {
    && n <= |s.sleeping| && s'.sleeping == s.sleeping[n..] && s'.runq == s.runq + s.sleeping[..n] && s'.alarm == s.alarm
  }

  /** The first `n` of the tasks in `q`, and no others, are due. */
  ghost predicate Due(q: seq<Task>, alarm: map<Task, nat>, now: nat, n: nat) {
    n <= |q| && forall k :: 0 <= k < |q| ==> (k < n <==> AlarmIn(alarm, q[k]) <= now)
  }

  lemma DueMore(q: seq<Task>, alarm: map<Task, nat>, now: nat, n: nat)
    requires q != [] && AlarmIn(alarm, q[0]) <= now && Due(q[1..], alarm, now, n)
    ensures Due(q, alarm, now, n + 1)
  {
    forall k | 0 <= k < |q| ensures k < n + 1 <==> AlarmIn(alarm, q[k]) <= now {
      if k > 0 { assert q[k] == q[1..][k - 1]; }
    }
  }

  lemma NoneDue(q: seq<Task>, alarm: map<Task, nat>, now: nat)
    requires Sorted(q, alarm) && (q != [] ==> now < AlarmIn(alarm, q[0]))
    ensures Due(q, alarm, now, 0)
  {
  }

  lemma TailSorted(q: seq<Task>, alarm: map<Task, nat>)
    requires Sorted(q, alarm) && q != []
    ensures Sorted(q[1..], alarm)
  {
  }

  /** The wake loop readies exactly the sleepers whose alarm time has come, in the order of
      their alarms, and none early. */
  lemma {:induction false} WakesExactly(s: State, now: nat) returns (n: nat)
    requires Sorted(s.sleeping, s.alarm)
    ensures Woken(s, WakeSleepers(s, now), n) && Sorted(WakeSleepers(s, now).sleeping, s.alarm)
    ensures Due(s.sleeping, s.alarm, now, n)
    decreases |s.sleeping|
  {
    if s.sleeping != [] && now >= Alarm(s, s.sleeping[0]) {
      TailSorted(s.sleeping, s.alarm);
      var n1 := WakesExactly(WakeOne(s), now);
      n := n1 + 1;
      WokenMore(s, WakeSleepers(s, now), n1);
      DueMore(s.sleeping, s.alarm, now, n1);
    } else {
      n := 0;
      NoneDue(s.sleeping, s.alarm, now);
    }
  }

  lemma WokenMore(s: State, s': State, n: nat)
    requires s.sleeping != [] && Woken(WakeOne(s), s', n)
    ensures Woken(s, s', n + 1)
  {
    var q := s.sleeping;
    assert q[..n + 1] == [q[0]] + q[1..][..n];
    assert s.runq + q[..n + 1] == s.runq + [q[0]] + q[1..][..n];
    assert q[n + 1..] == q[1..][n..];
  }

  /** The poll timeout is forever exactly when nobody sleeps and never more than five
      seconds. It does not pass the earliest alarm, except for clock readings so high that
      `now` plus five seconds does not fit in 64 bits, when it always does. */
  lemma PollsInTime(s: State, now: nat)
    requires now < TWO_64 && forall k :: 0 <= k < |s.sleeping| ==> Alarm(s, s.sleeping[k]) < TWO_64
    ensures PollTimeout(s, now) <= 5000
    ensures PollTimeout(s, now) == -1 <==> s.sleeping == []
    ensures s.sleeping != [] && Alarm(s, s.sleeping[0]) <= now ==> PollTimeout(s, now) == 0
    ensures s.sleeping != [] && now < Alarm(s, s.sleeping[0]) ==>
      (now + PollTimeout(s, now) * MILLISECOND <= Alarm(s, s.sleeping[0]) <==> now + FIVE_SECONDS < TWO_64)
  {
  }

  /** The poll ends in the millisecond in which the earliest alarm comes, if that is at most
      five seconds ahead and the clock does not wrap before, and lasts five seconds if not. */
  lemma PollsExactly(s: State, now: nat)
    requires s.sleeping != [] && now < Alarm(s, s.sleeping[0]) < TWO_64
    ensures var r, alarm := PollTimeout(s, now), Alarm(s, s.sleeping[0]);
      if alarm <= now + FIVE_SECONDS < TWO_64 then now + r * MILLISECOND <= alarm < now + (r + 1) * MILLISECOND
      else r == 5000
  {
  }

  ghost predicate AlarmsFit(s: State) {
    && Sorted(s.sleeping, s.alarm)
    && forall t :: t in s.alarm ==> s.alarm[t] < TWO_64
  }

  lemma DelayAlarms(s: State, t: Task, ms: nat, now: nat)
    requires Sound(s) && AlarmsFit(s) && s.running == Some(t)
    ensures AlarmsFit(DelayStep(WithFdTask(s), t, ms, now))
  {
    RunningIsUnlisted(s, t);
    assert t !in On(s, Sleepers);
    DelaySorted(WithFdTask(s), t, ms, now);
  }

  lemma WakeAlarms(s: State, now: nat)
    requires AlarmsFit(s)
    ensures AlarmsFit(WakeSleepers(s, now))
  {
    var n := WakesExactly(s, now);
  }

  lemma TaskCallAlarms(s: State, t: Task, l: Label)
    requires Sound(s) && AlarmsFit(s) && s.running == Some(t) && Matched(s, l)
    requires !(l.Qlock? || l.Qunlock? || l.Rlock? || l.Wlock? || l.Runlock? || l.Wunlock?)
    ensures AlarmsFit(Call(s, t, l))
  {
    match l
    case Sleep(r) => SleepUncounted(s, t, r);
    case Wakeup(r, all) => WakeupUncounted(s, r, all);
    case Delay(ms, now) => DelayAlarms(s, t, ms, now);
    case Wake(now) => WakeAlarms(s, now);
    case _ =>
  }

  lemma StepAlarms(s: State, l: Label)
    requires Sound(s) && AlarmsFit(s) && Matched(s, l)
    ensures AlarmsFit(Step(s, l))
  {
    if s.outcome == Going {
      if l == Dispatch {
        if s.running.None? { DispatchUncounted(s); }
      } else if s.running.Some? {
        if l.Qlock? || l.Qunlock? || l.Rlock? || l.Wlock? || l.Runlock? || l.Wunlock? {
          LockCallUncounted(s, s.running.value, l);
        } else {
          TaskCallAlarms(s, s.running.value, l);
        }
      }
    }
  }

  /** In every run the sleep queue is sorted by alarm time. */
  lemma {:induction false} SleepQueueSorted(lockof: map<nat, nat>, run: seq<Label>)
    requires MatchedRun(Init(lockof), run)
    ensures AlarmsFit(Run(Init(lockof), run))
  {
    if run != [] {
      var before := run[..|run| - 1];
      RunSound(lockof, before);
      SleepQueueSorted(lockof, before);
      StepAlarms(Run(Init(lockof), before), run[|run| - 1]);
    }
  }
}

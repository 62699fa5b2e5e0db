/** What each step of the runtime does to the lists of tasks: it appends, inserts, or moves
    tasks from the head of a list to the run queue. */
module TaskEffects {
  import opened TaskLocks
  import opened TaskModel

  /** No list changes. */
  ghost predicate Same(s: State, s': State) {
    && s'.nextid == s.nextid && forall p {:trigger On(s', p)} :: On(s', p) == On(s, p)
  }

  /** addtask of `t` to list `p` */
  ghost predicate Added(s: State, s': State, p: Place, t: Task) {
    && s'.nextid == s.nextid && forall q {:trigger On(s', q)} :: On(s', q) == On(s, q) + if q == p then [t] else []
  }

  /** A new task is appended to the run queue. */
  ghost predicate Born(s: State, s': State) {
    && s'.nextid == s.nextid + 1
    && forall q {:trigger On(s', q)} :: On(s', q) == On(s, q) + if q == RunQ then [s.nextid] else []
  }

  /** The first `n` tasks of list `p` move to the run queue. */
  ghost predicate Readied(s: State, s': State, p: Place, n: nat) {
    && p != RunQ && n <= |On(s, p)| && s'.nextid == s.nextid
    && On(s, p) == On(s, p)[..n] + On(s', p) && On(s', RunQ) == On(s, RunQ) + On(s, p)[..n]
    && forall q {:trigger On(s', q)} :: q != p && q != RunQ ==> On(s', q) == On(s, q)
  }

  /** `t` enters the sleep queue in place `k`. */
  ghost predicate Inserted(s: State, s': State, k: nat, t: Task) {
    && k <= |s.sleeping| && s'.nextid == s.nextid && On(s', Sleepers) == s.sleeping[..k] + [t] + s.sleeping[k..]
    && forall q {:trigger On(s', q)} :: q != Sleepers ==> On(s', q) == On(s, q)
  }

  /** The scheduler takes the head of the run queue. */
  ghost predicate Popped(s: State, s': State) {
    && s.runq != [] && s'.nextid == s.nextid && On(s', RunQ) == s.runq[1..]
    && forall q {:trigger On(s', q)} :: q != RunQ ==> On(s', q) == On(s, q)
  }

  lemma QLockDoes(s: State, t: Task, l: nat, block: bool)
    ensures var s' := QLockStep(s, t, l, block);
      if Lock(Ql(s, l), t, block).answer == Waits then Added(s, s', LockQ(l), t) else Same(s, s')
  {
  }

  lemma QUnlockDoes(s: State, l: nat)
    requires Unlock(Ql(s, l)).ok
    ensures Readied(s, QUnlockStep(s, l), LockQ(l), |Unlock(Ql(s, l)).ready|)
  {
  }

  lemma RLockDoes(s: State, t: Task, l: nat, block: bool)
    ensures var s' := RLockStep(s, t, l, block);
      if RLock(Rw(s, l), t, block).answer == Waits then Added(s, s', ReadQ(l), t) else Same(s, s')
  {
  }

  lemma WLockDoes(s: State, t: Task, l: nat, block: bool)
    ensures var s' := WLockStep(s, t, l, block);
      if WLock(Rw(s, l), t, block).answer == Waits then Added(s, s', WriteQ(l), t) else Same(s, s')
  {
  }

  /** A release of a reader/writer lock that lets in the head of one of its lists */
  lemma WritersAdmitted(s: State, l: nat, r: RwRelease)
    requires r.ok && r.l.rwaiting == Rw(s, l).rwaiting && Rw(s, l).wwaiting == r.ready + r.l.wwaiting
    ensures Readied(s, RwReleaseStep(s, l, r), WriteQ(l), |r.ready|)
  {
    assert Rw(s, l).wwaiting[..|r.ready|] == r.ready;
  }

  lemma ReadersAdmitted(s: State, l: nat, r: RwRelease)
    requires r.ok && r.l.wwaiting == Rw(s, l).wwaiting && Rw(s, l).rwaiting == r.ready + r.l.rwaiting
    ensures Readied(s, RwReleaseStep(s, l, r), ReadQ(l), |r.ready|)
  {
    assert Rw(s, l).rwaiting[..|r.ready|] == r.ready;
  }

  lemma RUnlockDoes(s: State, t: Task, l: nat)
    ensures Readied(s, RwReleaseStep(s, l, RUnlock(Rw(s, l), t)), WriteQ(l), |RUnlock(Rw(s, l), t).ready|)
  {
    WritersAdmitted(s, l, RUnlock(Rw(s, l), t));
  }

  lemma WUnlockDoes(s: State, l: nat)
    requires WUnlock(Rw(s, l)).ok
    ensures var p := if Rw(s, l).rwaiting != [] then ReadQ(l) else WriteQ(l);
      Readied(s, RwReleaseStep(s, l, WUnlock(Rw(s, l))), p, |WUnlock(Rw(s, l)).ready|)
  {
    if Rw(s, l).rwaiting != [] {
      ReadersAdmitted(s, l, WUnlock(Rw(s, l)));
    } else {
      WritersAdmitted(s, l, WUnlock(Rw(s, l)));
    }
  }

  function Listed(s: State, t: Task, r: nat): State {
    Leave(s.(rdv := s.rdv[r := Rdv(s, r) + [t]]), t, At(RendezQ(r)), InSleep(r))
  }

  lemma ListedDoes(s: State, t: Task, r: nat)
    ensures Added(s, Listed(s, t, r), RendezQ(r), t)
  {
  }

  lemma WakeupDoes(s: State, r: nat, all: bool)
    ensures Readied(s, WakeupStep(s, r, all), RendezQ(r), if all || Rdv(s, r) == [] then |Rdv(s, r)| else 1)
  {
  }

  lemma YieldDoes(s: State, t: Task)
    ensures Added(s, YieldStep(s, t), RunQ, t)
  {
  }

  lemma CreateDoes(s: State)
    ensures Born(s, CreateStep(s)) && (!s.fdstarted ==> Born(s, WithFdTask(s)))
  {
  }

  lemma ReadyDoes(s: State, u: Task)
    ensures Added(s, MakeReady(s, [u]), RunQ, u)
  {
  }

  lemma SystemDoes(s: State, t: Task)
    ensures Same(s, SystemStep(s, t))
  {
  }

  lemma ExitDoes(s: State, t: Task)
    ensures Same(s, ExitStep(s, t))
  {
  }

  lemma ParkDoes(s: State, t: Task)
    ensures Same(s, Leave(s, t, Parked, Plain))
  {
  }

  lemma DelayDoes(s: State, t: Task, ms: nat, now: nat)
    ensures Inserted(s, DelayStep(s, t, ms, now), SleepPlace(s, (now + ms * MILLISECOND) % TWO_64), t)
  {
  }

  lemma WakeOneDoes(s: State)
    requires s.sleeping != []
    ensures Readied(s, WakeOne(s), Sleepers, 1)
  {
  }

  lemma StartedDoes(s: State)
    requires s.runq != []
    ensures Popped(s, Started(s))
  {
  }

  /** The rest of the call that the scheduler resumed, unless it takes a lock */
  lemma ResumedDoes(s: State)
    requires s.runq != [] && s.taskcount != 0
    requires s.runq[0] in s.cont ==> !(s.cont[s.runq[0]].InSleep? && s.cont[s.runq[0]].r in s.lockof)
    ensures Same(Started(s), DispatchStep(s))
  {
  }

  lemma EndDoes(s: State)
    requires s.taskcount == 0 || s.runq == []
    ensures Same(s, DispatchStep(s))
  {
  }
}

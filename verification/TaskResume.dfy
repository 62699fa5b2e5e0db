/** What a task finds when it is resumed: a lock it waited for is its own, and taskyield
    counts the tasks that went before it. */
module TaskResume {
  import opened TaskLocks
  import opened TaskModel
  import opened TaskPlaces

  type QLocks = map<nat, QLock>
  type RwLocks = map<nat, RwLock>

  /** Task `t` has the lock whose list is `p`. */
  ghost predicate Holds(ql: QLocks, rw: RwLocks, p: Place, t: Task) {
    match p
    case LockQ(l) => QlIn(ql, l).owner == Some(t)
    case ReadQ(l) => t in RwIn(rw, l).holders
    case WriteQ(l) => RwIn(rw, l).writer == Some(t)
    case _ => false
  }

  /** A task that wants a lock is on the lock's list, or on the run queue and the lock is
      its own already. */
  ghost predicate Kept(s: State, t: Task)
    requires t in s.loc && t in s.cont
  {
    var at := s.loc[t];
    match s.cont[t]
    case Plain => at == Running || at == Parked || at == At(RunQ)
    case Want(p) => (p.LockQ? || p.ReadQ? || p.WriteQ?) && (at == At(p) || (at == At(RunQ) && Holds(s.ql, s.rw, p, t)))
    case InSleep(r) => at == At(RendezQ(r)) || at == At(RunQ)
    case InYield(_, _) => at == At(RunQ)
    case InDelay => at == At(Sleepers) || at == At(RunQ)
  }

  ghost predicate Promises(s: State) {
    forall i {:trigger Look(i)} :: Look(i) ==> s.loc.Keys == s.cont.Keys && forall t :: t in s.loc ==> Kept(s, t)
  }

  ghost predicate LocksOk(ql: QLocks, rw: RwLocks) {
    forall i {:trigger Look(i)} :: Look(i) ==> (forall l :: QInv(QlIn(ql, l))) && (forall l :: RwInv(RwIn(rw, l)))
  }

  /** No ready task loses a lock. */
  ghost predicate HoldsStay(loc: map<Task, Loc>, ql: QLocks, rw: RwLocks, ql': QLocks, rw': RwLocks) {
    forall i {:trigger Look(i)} :: Look(i) ==>
      forall u, p :: u in loc && loc[u] == At(RunQ) && Holds(ql, rw, p, u) ==> Holds(ql', rw', p, u)
  }

  /** The task in place `i` of the run queue, if it is in taskyield: the turns taken since
      the call plus its place is the length the run queue had. */
  ghost predicate Turn(s: State, i: nat)
    requires i < |s.runq|
  {
    var t := s.runq[i];
    t in s.cont && s.cont[t].InYield? ==> s.nswitch - s.cont[t].n + i == s.cont[t].queued
  }

  ghost predicate Turns(s: State) {
    forall i {:trigger Look(i)} :: Look(i) ==> forall k :: 0 <= k < |s.runq| ==> Turn(s, k)
  }

  ghost predicate Sound(s: State) {
    Disciplined(s) && Promises(s) && LocksOk(s.ql, s.rw) && Turns(s) && s.outcome != Aborted
  }

  // ----- facts about single tasks and locks -----

  lemma RunningIsUnlisted(s: State, t: Task)
    requires Disciplined(s) && Promises(s) && s.running == Some(t)
    ensures t in s.loc && t in s.cont && s.loc[t] == Running && t < s.nextid && s.cont[t] == Plain
    ensures s.loc.Keys == s.cont.Keys
    ensures forall p :: t !in On(s, p)
  {
    assert t in s.loc && s.loc[t] == Running && t < s.nextid && s.loc.Keys == s.cont.Keys && Kept(s, t) by {
      assert Look(0);
    }
    forall p ensures t !in On(s, p) {
      assert Exact(On(s, p), s.loc, p);
      assert Look(0);
    }
  }

  lemma LockOk(s: State, l: nat)
    requires LocksOk(s.ql, s.rw)
    ensures QInv(Ql(s, l)) && RwInv(Rw(s, l))
  {
    assert Look(0);
  }

  /** A mutex changes hands only if no ready task has it. */
  lemma SetQLock(loc: map<Task, Loc>, ql: QLocks, rw: RwLocks, l: nat, l': QLock)
    requires LocksOk(ql, rw) && QInv(l')
    requires var o := QlIn(ql, l).owner; o.Some? && o.value in loc && loc[o.value] == At(RunQ) ==> l'.owner == o
    ensures LocksOk(ql[l := l'], rw) && HoldsStay(loc, ql, rw, ql[l := l'], rw)
  {
    var ql' := ql[l := l'];
    assert LocksOk(ql', rw) by {
      assert Look(0);
      forall k ensures QInv(QlIn(ql', k)) { assert QInv(QlIn(ql, k)); }
    }
  }

  lemma SetRwLock(loc: map<Task, Loc>, ql: QLocks, rw: RwLocks, l: nat, l': RwLock)
    requires LocksOk(ql, rw) && RwInv(l')
    requires var w := RwIn(rw, l).writer; w.Some? && w.value in loc && loc[w.value] == At(RunQ) ==> l'.writer == w
    requires forall u :: u in RwIn(rw, l).holders && u in loc && loc[u] == At(RunQ) ==> u in l'.holders
    ensures LocksOk(ql, rw[l := l']) && HoldsStay(loc, ql, rw, ql, rw[l := l'])
  {
    var rw' := rw[l := l'];
    assert LocksOk(ql, rw') by {
      assert Look(0);
      forall k ensures RwInv(RwIn(rw', k)) { assert RwInv(RwIn(rw, k)); }
    }
  }

  // ----- moving between lists -----

  lemma MovedFrom(s: State, s': State, p: Place, ts: seq<Task>)
    requires Disciplined(s) && Moved(s, s', p, ts)
    ensures forall t :: t in ts ==> t in s.loc && s.loc[t] == At(p)
  {
    assert Exact(On(s, p), s.loc, p);
    SuffixExact(ts, On(s', p), s.loc, p);
  }

  lemma KeptMoved(s: State, s': State, p: Place, ts: seq<Task>, t: Task)
    requires t in s.loc && t in s.cont && Kept(s, t) && p != RunQ
    requires s'.loc == Placed(s.loc, ts) && s'.cont == s.cont && HoldsStay(s.loc, s.ql, s.rw, s'.ql, s'.rw)
    requires t in ts ==> s.loc[t] == At(p) && (s.cont[t] == Want(p) ==> Holds(s'.ql, s'.rw, p, t))
    ensures Kept(s', t)
  {
    if t !in ts {
      assert Look(0);
    }
  }

  lemma PromisesMoved(s: State, s': State, p: Place, ts: seq<Task>)
    requires Disciplined(s) && Promises(s) && Moved(s, s', p, ts) && HoldsStay(s.loc, s.ql, s.rw, s'.ql, s'.rw)
    requires forall t :: t in ts && t in s.cont && s.cont[t] == Want(p) ==> Holds(s'.ql, s'.rw, p, t)
    ensures Promises(s')
  {
    MovedFrom(s, s', p, ts);
    assert s.loc.Keys == s.cont.Keys && forall t :: t in s.loc ==> Kept(s, t) by { assert Look(0); }
    forall t | t in s'.loc ensures Kept(s', t) {
      KeptMoved(s, s', p, ts, t);
    }
    assert s'.loc.Keys == s.loc.Keys;
  }

  /** Tasks that become ready are not in taskyield, and those before them keep their place. */
  lemma TurnsMoved(s: State, s': State, p: Place, ts: seq<Task>)
    requires Disciplined(s) && Promises(s) && Turns(s) && Moved(s, s', p, ts) && s'.nswitch == s.nswitch
    ensures Turns(s')
  {
    MovedFrom(s, s', p, ts);
    forall k | 0 <= k < |s'.runq| ensures Turn(s', k) {
      var t := s'.runq[k];
      if k < |s.runq| {
        assert Turn(s, k) by { assert Look(0); }
      } else {
        assert t == ts[k - |s.runq|] && t in ts;
        assert Kept(s, t) by { assert Look(0); }
      }
    }
  }

  /** The running task changes its place or continuation, and the other tasks keep theirs. */
  lemma PromisesAlone(s: State, s': State, t: Task)
    requires Promises(s) && HoldsStay(s.loc, s.ql, s.rw, s'.ql, s'.rw) && t in s.loc
    requires s'.loc.Keys == s.loc.Keys == s'.cont.Keys
    requires forall u :: u in s.loc && u in s.cont && u != t ==> s'.loc[u] == s.loc[u] && s'.cont[u] == s.cont[u]
    requires Kept(s', t)
    ensures Promises(s')
  {
    assert s.loc.Keys == s.cont.Keys by { assert Look(0); }
    forall u | u in s'.loc ensures Kept(s', u) {
      if u != t {
        assert Look(0);
        assert Kept(s, u);
      }
    }
  }

  /** The run queue stays and its tasks keep their continuations. */
  lemma TurnsStay(s: State, s': State)
    requires Turns(s) && s'.runq == s.runq && s'.nswitch == s.nswitch
    requires forall u :: u in s.runq && u in s'.cont ==> u in s.cont && s'.cont[u] == s.cont[u]
    ensures Turns(s')
  {
    forall k | 0 <= k < |s'.runq| ensures Turn(s', k) {
      assert Turn(s, k) by { assert Look(0); }
      assert s.runq[k] in s.runq;
    }
  }

  // ----- locks -----

  /** The running task leaves for a place off the run queue. */
  lemma LeaverSound(s: State, s': State, t: Task, at: Loc, c: Cont)
    requires Sound(s) && s.running == Some(t) && HoldsStay(s.loc, s.ql, s.rw, s'.ql, s'.rw)
    requires s'.loc == s.loc[t := at] && s'.cont == s.cont[t := c] && s'.runq == s.runq && s'.nswitch == s.nswitch
    requires t in s'.loc && t in s'.cont && Kept(s', t)
    ensures Promises(s') && Turns(s')
  {
    RunningIsUnlisted(s, t);
    assert t !in On(s, RunQ);
    PromisesAlone(s, s', t);
    TurnsStay(s, s');
  }

  /** The running task goes on. */
  lemma GoerSound(s: State, s': State)
    requires Sound(s) && HoldsStay(s.loc, s.ql, s.rw, s'.ql, s'.rw)
    requires s'.loc == s.loc && s'.cont == s.cont && s'.runq == s.runq && s'.nswitch == s.nswitch
    ensures Promises(s') && Turns(s')
  {
    forall t | t in s'.loc ensures s'.loc.Keys == s'.cont.Keys && Kept(s', t) {
      assert Look(0);
      assert Kept(s, t);
    }
    assert s'.loc.Keys == s'.cont.Keys by { assert Look(0); }
    TurnsStay(s, s');
  }

  /** An attempt to lock changes one lock; then the task waits, or it goes on. */
  lemma AnswerSound(s: State, s1: State, t: Task, p: Place, waits: bool)
    requires Sound(s) && s.running == Some(t) && s1 == s.(ql := s1.ql, rw := s1.rw)
    requires LocksOk(s1.ql, s1.rw) && HoldsStay(s.loc, s.ql, s.rw, s1.ql, s1.rw)
    requires p.LockQ? || p.ReadQ? || p.WriteQ?
    requires Disciplined(if waits then Leave(s1, t, At(p), Want(p)) else s1)
    ensures Sound(if waits then Leave(s1, t, At(p), Want(p)) else s1)
  {
    if waits {
      LeaverSound(s, Leave(s1, t, At(p), Want(p)), t, At(p), Want(p));
    } else {
      GoerSound(s, s1);
    }
  }

  lemma QLockKept(s: State, t: Task, l: nat, block: bool)
    requires Sound(s) && s.running == Some(t)
    ensures var s' := QLockStep(s, t, l, block);
      LocksOk(s'.ql, s'.rw) && HoldsStay(s.loc, s.ql, s.rw, s'.ql, s'.rw)
  {
    LockOk(s, l);
    LockKeeps(Ql(s, l), t, block);
    SetQLock(s.loc, s.ql, s.rw, l, Lock(Ql(s, l), t, block).l);
  }

  lemma QLockSound(s: State, t: Task, l: nat, block: bool)
    requires Sound(s) && s.running == Some(t)
    ensures Sound(QLockStep(s, t, l, block))
  {
    QLockPlaces(s, t, l, block);
    QLockKept(s, t, l, block);
    var r := Lock(Ql(s, l), t, block);
    AnswerSound(s, s.(ql := s.ql[l := r.l]), t, LockQ(l), r.answer == Waits);
  }

  lemma RwUnlisted(s: State, t: Task, l: nat)
    requires Sound(s) && s.running == Some(t)
    ensures t !in Rw(s, l).rwaiting && t !in Rw(s, l).wwaiting
  {
    RunningIsUnlisted(s, t);
    assert t !in On(s, ReadQ(l)) && t !in On(s, WriteQ(l));
  }

  lemma RLockKept(s: State, t: Task, l: nat, block: bool)
    requires Sound(s) && s.running == Some(t)
    ensures var s' := RLockStep(s, t, l, block);
      LocksOk(s'.ql, s'.rw) && HoldsStay(s.loc, s.ql, s.rw, s'.ql, s'.rw)
  {
    LockOk(s, l);
    RwUnlisted(s, t, l);
    RLockKeeps(Rw(s, l), t, block);
    SetRwLock(s.loc, s.ql, s.rw, l, RLock(Rw(s, l), t, block).l);
  }

  lemma RLockSound(s: State, t: Task, l: nat, block: bool)
    requires Sound(s) && s.running == Some(t)
    ensures Sound(RLockStep(s, t, l, block))
  {
    RLockPlaces(s, t, l, block);
    RLockKept(s, t, l, block);
    var r := RLock(Rw(s, l), t, block);
    AnswerSound(s, s.(rw := s.rw[l := r.l]), t, ReadQ(l), r.answer == Waits);
  }

  lemma WLockKept(s: State, t: Task, l: nat, block: bool)
    requires Sound(s) && s.running == Some(t)
    ensures var s' := WLockStep(s, t, l, block);
      LocksOk(s'.ql, s'.rw) && HoldsStay(s.loc, s.ql, s.rw, s'.ql, s'.rw)
  {
    LockOk(s, l);
    RwUnlisted(s, t, l);
    WLockKeeps(Rw(s, l), t, block);
    SetRwLock(s.loc, s.ql, s.rw, l, WLock(Rw(s, l), t, block).l);
  }

  lemma WLockSound(s: State, t: Task, l: nat, block: bool)
    requires Sound(s) && s.running == Some(t)
    ensures Sound(WLockStep(s, t, l, block))
  {
    WLockPlaces(s, t, l, block);
    WLockKept(s, t, l, block);
    var r := WLock(Rw(s, l), t, block);
    AnswerSound(s, s.(rw := s.rw[l := r.l]), t, WriteQ(l), r.answer == Waits);
  }

  /** An unlock by the owner, which is not on the run queue. */
  lemma QUnlockSound(s: State, l: nat, t: Task)
    requires Sound(s) && Ql(s, l).owner == Some(t) && (t in s.loc ==> s.loc[t] != At(RunQ))
    ensures Sound(QUnlockStep(s, l))
  {
    var s', ts := QUnlockStep(s, l), Unlock(Ql(s, l)).ready;
    LockOk(s, l);
    QUnlockPlaces(s, l);
    UnlockKeeps(Ql(s, l));
    SetQLock(s.loc, s.ql, s.rw, l, Unlock(Ql(s, l)).l);
    PromisesMoved(s, s', LockQ(l), ts);
    TurnsMoved(s, s', LockQ(l), ts);
  }

  lemma RUnlockSound(s: State, t: Task, l: nat)
    requires Sound(s) && s.running == Some(t) && t in Rw(s, l).holders
    ensures Sound(RwReleaseStep(s, l, RUnlock(Rw(s, l), t)))
  {
    var r := RUnlock(Rw(s, l), t);
    var s' := RwReleaseStep(s, l, r);
    LockOk(s, l);
    RunningIsUnlisted(s, t);
    RUnlockPlaces(s, t, l);
    RUnlockKeeps(Rw(s, l), t);
    assert r.l.writer.None? || Rw(s, l).writer.None? by { assert Inside(0); }
    SetRwLock(s.loc, s.ql, s.rw, l, r.l);
    PromisesMoved(s, s', WriteQ(l), r.ready);
    TurnsMoved(s, s', WriteQ(l), r.ready);
  }

  lemma WUnlockSound(s: State, t: Task, l: nat)
    requires Sound(s) && s.running == Some(t) && Rw(s, l).writer == Some(t)
    ensures Sound(RwReleaseStep(s, l, WUnlock(Rw(s, l))))
  {
    var r, p := WUnlock(Rw(s, l)), if Rw(s, l).rwaiting != [] then ReadQ(l) else WriteQ(l);
    var s' := RwReleaseStep(s, l, r);
    LockOk(s, l);
    RunningIsUnlisted(s, t);
    WUnlockPlaces(s, l);
    WUnlockKeeps(Rw(s, l));
    NoReaders(Rw(s, l));
    SetRwLock(s.loc, s.ql, s.rw, l, r.l);
    PromisesMoved(s, s', p, r.ready);
    TurnsMoved(s, s', p, r.ready);
  }

  // ----- rendez -----

  lemma SleepSound(s: State, t: Task, r: nat)
    requires Sound(s) && s.running == Some(t) && (r in s.lockof ==> Ql(s, s.lockof[r]).owner == Some(t))
    ensures Sound(SleepStep(s, t, r))
  {
    var s1 := Leave(s.(rdv := s.rdv[r := Rdv(s, r) + [t]]), t, At(RendezQ(r)), InSleep(r));
    RunningIsUnlisted(s, t);
    assert t !in On(s, RunQ);
    RendezPlaces(s, t, r);
    PromisesAlone(s, s1, t);
    TurnsStay(s, s1);
    if r in s.lockof { QUnlockSound(s1, s.lockof[r], t); }
  }

  lemma WakeupSound(s: State, r: nat, all: bool)
    requires Sound(s)
    ensures Sound(WakeupStep(s, r, all))
  {
    var q := Rdv(s, r);
    var n := if all || q == [] then |q| else 1;
    var s' := WakeupStep(s, r, all);
    WakePlaces(s, r, n);
    ReadyAfter(s, s', RendezQ(r), q[..n]);
  }

  /** Tasks from a list that is no lock's list become ready. */
  lemma ReadyAfter(s: State, s': State, p: Place, ts: seq<Task>)
    requires Disciplined(s) && Promises(s) && Turns(s) && Moved(s, s', p, ts) && s'.nswitch == s.nswitch
    requires p.RendezQ? || p == Sleepers
    requires HoldsStay(s.loc, s.ql, s.rw, s'.ql, s'.rw)
    ensures Promises(s') && Turns(s')
  {
    MovedFrom(s, s', p, ts);
    forall t | t in ts && t in s.cont ensures s.cont[t] != Want(p) {
      assert Kept(s, t) by { assert Look(0); }
    }
    PromisesMoved(s, s', p, ts);
    TurnsMoved(s, s', p, ts);
  }

  // ----- task.c and the timers -----

  /** One more task goes to the end of the run queue. */
  lemma TurnsAppended(s: State, s': State, t: Task)
    requires Turns(s) && s'.runq == s.runq + [t] && s'.nswitch == s.nswitch
    requires forall u :: u in s.runq && u in s'.cont ==> u in s.cont && s'.cont[u] == s.cont[u]
    requires Turn(s', |s.runq|)
    ensures Turns(s')
  {
    forall k | 0 <= k < |s'.runq| ensures Turn(s', k) {
      if k < |s.runq| {
        assert Turn(s, k) by { assert Look(0); }
        assert s.runq[k] in s.runq;
      }
    }
  }

  lemma SameHolds(loc: map<Task, Loc>, ql: QLocks, rw: RwLocks)
    ensures HoldsStay(loc, ql, rw, ql, rw)
  {
  }

  lemma YieldSound(s: State, t: Task)
    requires Sound(s) && s.running == Some(t)
    ensures Sound(YieldStep(s, t))
  {
    RunningIsUnlisted(s, t);
    assert t !in On(s, RunQ);
    YieldPlaces(s, t);
    SameHolds(s.loc, s.ql, s.rw);
    PromisesAlone(s, YieldStep(s, t), t);
    TurnsAppended(s, YieldStep(s, t), t);
  }

  /** Task `u`, which is on no list and in no call, is ready. */
  lemma JoinsPromises(s: State, s': State, u: Task)
    requires Promises(s) && s'.ql == s.ql && s'.rw == s.rw
    requires s'.loc == s.loc[u := At(RunQ)] && s'.cont == s.cont[u := Plain]
    ensures Promises(s')
  {
    assert s.loc.Keys == s.cont.Keys by { assert Look(0); }
    forall v | v in s'.loc ensures Kept(s', v) {
      if v != u { assert Kept(s, v) by { assert Look(0); } }
    }
  }

  lemma CreateSound(s: State)
    requires Sound(s)
    ensures Sound(CreateStep(s))
  {
    var s', u := CreateStep(s), s.nextid;
    CreatePlaces(s);
    assert s'.loc == s.loc[u := At(RunQ)];
    JoinsPromises(s, s', u);
    NewIsUnlisted(s);
    TurnsAppended(s, s', u);
  }

  lemma NewIsUnlisted(s: State)
    requires Disciplined(s)
    ensures s.nextid !in s.loc && s.nextid !in s.cont && s.nextid !in s.runq
    ensures forall u :: u in s.runq ==> u in s.loc && u in s.cont
  {
    assert Exact(On(s, RunQ), s.loc, RunQ);
    assert Look(0);
  }

  lemma ReadySound(s: State, u: Task)
    requires Sound(s) && u in s.loc && s.loc[u] == Parked
    ensures Sound(MakeReady(s, [u]))
  {
    var s' := MakeReady(s, [u]);
    ReadyPlaces(s, u);
    assert u in s.cont && Kept(s, u) by { assert Look(0); }
    assert s.cont == s.cont[u := Plain];
    assert s'.loc == s.loc[u := At(RunQ)];
    JoinsPromises(s, s', u);
    TurnsAppended(s, s', u);
  }

  lemma ParkSound(s: State, t: Task)
    requires Sound(s) && s.running == Some(t)
    ensures Sound(Leave(s, t, Parked, Plain))
  {
    GonePlaces(s, t);
    SameHolds(s.loc, s.ql, s.rw);
    LeaverSound(s, Leave(s, t, Parked, Plain), t, Parked, Plain);
  }

  lemma ExitSound(s: State, t: Task)
    requires Sound(s) && s.running == Some(t)
    ensures Sound(ExitStep(s, t))
  {
    var s' := ExitStep(s, t);
    GonePlaces(s, t);
    RunningIsUnlisted(s, t);
    assert t !in On(s, RunQ);
    assert s'.loc.Keys == s'.cont.Keys;
    forall u | u in s'.loc ensures Kept(s', u) {
      assert Kept(s, u) by { assert Look(0); }
    }
    TurnsStay(s, s');
  }

  lemma DelaySound(s: State, t: Task, ms: nat, now: nat)
    requires Sound(s) && s.running == Some(t)
    ensures Sound(DelayStep(s, t, ms, now))
  {
    DelayPlaces(s, t, ms, now);
    SameHolds(s.loc, s.ql, s.rw);
    LeaverSound(s, DelayStep(s, t, ms, now), t, At(Sleepers), InDelay);
  }

  lemma WakeOneSound(s: State)
    requires Sound(s) && s.sleeping != []
    ensures Sound(WakeOne(s))
  {
    WakeOnePlaces(s);
    SameHolds(s.loc, s.ql, s.rw);
    ReadyAfter(s, WakeOne(s), Sleepers, [s.sleeping[0]]);
  }

  lemma {:induction false} WakeSound(s: State, now: nat)
    requires Sound(s)
    ensures Sound(WakeSleepers(s, now))
    decreases |s.sleeping|
  {
    if s.sleeping != [] && now >= Alarm(s, s.sleeping[0]) {
      WakeOneSound(s);
      WakeSound(WakeOne(s), now);
    }
  }

  lemma StartedSound(s: State)
    requires Sound(s) && s.running == None && s.runq != []
    ensures Sound(Started(s)) && s.runq[0] in s.loc && s.runq[0] in s.cont && Kept(s, s.runq[0])
    ensures s.loc[s.runq[0]] == At(RunQ) && Turn(s, 0)
  {
    var s', t := Started(s), s.runq[0];
    assert Exact(On(s, RunQ), s.loc, RunQ);
    HeadExact(s.runq, s.loc);
    assert forall p :: p != RunQ ==> On(s', p) == On(s, p);
    StartPlaces(s, s');
    SameHolds(s.loc, s.ql, s.rw);
    assert s.loc.Keys == s.cont.Keys && Kept(s, t) && Turn(s, 0) by { assert Look(0); }
    PromisesAlone(s, s', t);
    forall k | 0 <= k < |s'.runq| ensures Turn(s', k) {
      assert s'.runq[k] == s.runq[k + 1];
      var k' := k + 1;
      assert Turn(s, k') by { assert Look(0); }
    }
  }

  /** Fields that the invariant does not mention change. */
  lemma OthersSound(s: State, s': State)
    requires Sound(s) && s'.outcome != Aborted
    requires s' == s.(system := s'.system, taskcount := s'.taskcount, fdstarted := s'.fdstarted, outcome := s'.outcome)
    ensures Sound(s')
  {
    SameKeeps(s, s');
    SameHolds(s.loc, s.ql, s.rw);
    GoerSound(s, s');
  }

  /** A task resumed in qlock, rlock or wlock has the lock: the abort in _qlock is not
      reached. A task resumed in tasksleep has its lock or waits for it again. */
  lemma DispatchSound(s: State)
    requires Sound(s) && s.running == None
    ensures Sound(DispatchStep(s))
  {
    if s.taskcount == 0 {
      OthersSound(s, s.(outcome := Exited));
    } else if s.runq == [] {
      OthersSound(s, s.(outcome := Stalled));
    } else {
      StartedSound(s);
      var t, s1 := s.runq[0], Started(s);
      match s.cont[t]
      case InSleep(r) => if r in s.lockof { QLockSound(s1, t, s.lockof[r], true); }
      case _ =>
    }
  }

  lemma SystemSound(s: State, t: Task)
    requires Sound(s)
    ensures Sound(SystemStep(s, t))
  {
    if t !in s.system { OthersSound(s, s.(system := s.system + {t}, taskcount := s.taskcount - 1)); }
  }

  lemma FdTaskSound(s: State)
    requires Sound(s)
    ensures Sound(WithFdTask(s)) && WithFdTask(s).running == s.running
  {
    if !s.fdstarted {
      CreateSound(s);
      OthersSound(CreateStep(s), WithFdTask(s));
    }
  }

  lemma TimedDelaySound(s: State, t: Task, ms: nat, now: nat)
    requires Sound(s) && s.running == Some(t)
    ensures Sound(DelayStep(WithFdTask(s), t, ms, now))
  {
    FdTaskSound(s);
    DelaySound(WithFdTask(s), t, ms, now);
  }

  lemma LockCallSound(s: State, t: Task, l: Label)
    requires Sound(s) && s.running == Some(t) && Matched(s, l)
    requires l.Qlock? || l.Qunlock? || l.Rlock? || l.Wlock? || l.Runlock? || l.Wunlock?
    ensures Sound(Call(s, t, l))
  {
    match l
    case Qlock(l, block) => QLockSound(s, t, l, block);
    case Qunlock(l) => RunningIsUnlisted(s, t); QUnlockSound(s, l, t);
    case Rlock(l, block) => RLockSound(s, t, l, block);
    case Wlock(l, block) => WLockSound(s, t, l, block);
    case Runlock(l) => RUnlockSound(s, t, l);
    case Wunlock(l) => WUnlockSound(s, t, l);
  }

  lemma TimerCallSound(s: State, t: Task, l: Label)
    requires Sound(s) && s.running == Some(t) && Matched(s, l)
    requires l.Sleep? || l.Wakeup? || l.Yield? || l.Delay? || l.Wake?
    ensures Sound(Call(s, t, l))
  {
    match l
    case Sleep(r) => SleepSound(s, t, r);
    case Wakeup(r, all) => WakeupSound(s, r, all);
    case Yield => YieldSound(s, t);
    case Delay(ms, now) => TimedDelaySound(s, t, ms, now);
    case Wake(now) => WakeSound(s, now);
  }

  lemma TaskCallSound(s: State, t: Task, l: Label)
    requires Sound(s) && s.running == Some(t) && Matched(s, l)
    requires l.Create? || l.System? || l.Exit? || l.Park? || l.Ready? || l.Dispatch?
    ensures Sound(Call(s, t, l))
  {
    match l
    case Create => CreateSound(s);
    case System => SystemSound(s, t);
    case Exit => ExitSound(s, t);
    case Park => ParkSound(s, t);
    case Ready(u) => ReadySound(s, u);
    case Dispatch =>
  }

  lemma CallSound(s: State, t: Task, l: Label)
    requires Sound(s) && s.running == Some(t) && Matched(s, l)
    ensures Sound(Call(s, t, l))
  {
    if l.Sleep? || l.Wakeup? || l.Yield? || l.Delay? || l.Wake? {
      TimerCallSound(s, t, l);
    } else if l.Create? || l.System? || l.Exit? || l.Park? || l.Ready? || l.Dispatch? {
      TaskCallSound(s, t, l);
    } else {
      LockCallSound(s, t, l);
    }
  }

  lemma StepSound(s: State, l: Label)
    requires Sound(s) && Matched(s, l)
    ensures Sound(Step(s, l))
  {
    if s.outcome == Going {
      if l == Dispatch {
        if s.running.None? { DispatchSound(s); }
      } else if s.running.Some? {
        CallSound(s, s.running.value, l);
      }
    }
  }

  lemma InitSound(lockof: map<nat, nat>)
    ensures Sound(Init(lockof))
  {
    var s := Empty(lockof);
    forall p ensures Exact(On(s, p), s.loc, p) { }
    CreateSound(s);
  }

  lemma {:induction false} RunSound(lockof: map<nat, nat>, run: seq<Label>)
    requires MatchedRun(Init(lockof), run)
    ensures Sound(Run(Init(lockof), run))
  {
    if run == [] {
      InitSound(lockof);
    } else {
      RunSound(lockof, run[..|run| - 1]);
      StepSound(Run(Init(lockof), run[..|run| - 1]), run[|run| - 1]);
    }
  }
}

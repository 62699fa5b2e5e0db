/** The list discipline: all lists share one pair of link fields, so a task may be on one
    list at a time, and on none while it runs. */
module TaskPlaces {
  import opened TaskLocks
  import opened TaskModel

  ghost predicate NoDup(q: seq<Task>) {
    forall i, j :: 0 <= i < j < |q| ==> q[i] != q[j]
  }

  // A marker without content: what is stated for all marked numbers stays folded until a
  // proof writes the mark.
  ghost predicate Look(i: int) { true }

  /** List `q` holds, once each, the live tasks that are at place `p`. */
  ghost predicate Exact(q: seq<Task>, loc: map<Task, Loc>, p: Place) {
    forall i {:trigger Look(i)} :: Look(i) ==> NoDup(q) && forall t :: t in q <==> t in loc && loc[t] == At(p)
  }

  /** The running task is where the scheduler put it, and ids count up from 1. */
  ghost predicate Known(s: State) {
    forall i {:trigger Look(i)} :: Look(i) ==>
      && (forall t :: t in s.loc && s.loc[t] == Running <==> s.running == Some(t))
      && s.nextid > 0 && (forall t :: t in s.loc ==> 0 < t < s.nextid)
      && s.loc.Keys == s.cont.Keys
  }

  ghost predicate Disciplined(s: State) {
    (forall p {:trigger Exact(On(s, p), s.loc, p)} :: Exact(On(s, p), s.loc, p)) && Known(s)
  }

  // ----- one list -----

  lemma SuffixExact(ts: seq<Task>, rest: seq<Task>, loc: map<Task, Loc>, p: Place)
    requires Exact(ts + rest, loc, p) && p != RunQ
    ensures Exact(rest, Placed(loc, ts), p) && forall t :: t in ts ==> t in loc && loc[t] == At(p)
  {
    assert Look(0);
    var q := ts + rest;
    assert forall k :: 0 <= k < |ts| ==> ts[k] == q[k];
    forall i, j | 0 <= i < j < |rest| ensures rest[i] != rest[j] {
      assert rest[i] == q[|ts| + i] && rest[j] == q[|ts| + j];
    }
    forall t | t in rest ensures t !in ts {
      var j :| 0 <= j < |rest| && rest[j] == t;
      assert q[|ts| + j] == t;
    }
    assert forall t :: t in q <==> t in ts || t in rest;
  }

  lemma AppendExact(q: seq<Task>, ts: seq<Task>, rest: seq<Task>, loc: map<Task, Loc>, p: Place)
    requires Exact(q, loc, RunQ) && Exact(ts + rest, loc, p) && p != RunQ
    ensures Exact(q + ts, Placed(loc, ts), RunQ)
  {
    SuffixExact(ts, rest, loc, p);
    assert Look(0);
    var r := q + ts;
    forall i, j | 0 <= i < j < |r| ensures r[i] != r[j] {
      if |q| <= j { assert r[j] == (ts + rest)[j - |q|] && r[j] in ts; }
      if |q| <= i { assert r[i] == (ts + rest)[i - |q|]; } else { assert r[i] in q; }
    }
    assert forall t :: t in r <==> t in q || t in ts;
  }

  lemma OtherExact(q: seq<Task>, ts: seq<Task>, loc: map<Task, Loc>, p: Place)
    requires Exact(q, loc, p) && p != RunQ && forall t :: t in ts ==> t in loc && loc[t] != At(p)
    ensures Exact(q, Placed(loc, ts), p)
  {
    assert Look(0);
  }

  lemma InsertExact(q: seq<Task>, i: nat, t: Task, loc: map<Task, Loc>, p: Place)
    requires Exact(q, loc, p) && i <= |q| && (t in loc ==> loc[t] != At(p))
    ensures Exact(q[..i] + [t] + q[i..], loc[t := At(p)], p)
  {
    assert Look(0);
    assert q == q[..i] + q[i..];
    forall u ensures u in q[..i] + [t] + q[i..] <==> u in q || u == t { }
  }

  lemma BystanderExact(q: seq<Task>, t: Task, loc: map<Task, Loc>, at: Loc, p: Place)
    requires Exact(q, loc, p) && at != At(p) && (t in loc ==> loc[t] != At(p))
    ensures Exact(q, loc[t := at], p) && Exact(q, loc - {t}, p)
  {
    assert Look(0);
  }

  // ----- all lists -----

  /** The tasks `ts` have moved from the head of list `p` to the end of the run queue. */
  ghost predicate Moved(s: State, s': State, p: Place, ts: seq<Task>) {
    && p != RunQ && On(s, p) == ts + On(s', p)
    && s'.runq == s.runq + ts
    && (forall q :: q != p && q != RunQ ==> On(s', q) == On(s, q))
    && s'.loc == Placed(s.loc, ts)
    && s'.running == s.running && s'.nextid == s.nextid && s'.cont == s.cont
  }

  lemma MovedKeeps(s: State, s': State, p: Place, ts: seq<Task>)
    requires Disciplined(s) && Moved(s, s', p, ts)
    ensures Disciplined(s')
  {
    var rest := On(s', p);
    assert Exact(On(s, p), s.loc, p) && Exact(On(s, RunQ), s.loc, RunQ);
    SuffixExact(ts, rest, s.loc, p);
    AppendExact(s.runq, ts, rest, s.loc, p);
    forall q ensures Exact(On(s', q), s'.loc, q) {
      if q != p && q != RunQ {
        assert Exact(On(s, q), s.loc, q);
        OtherExact(On(s, q), ts, s.loc, q);
      }
    }
    assert Known(s') by { assert Look(0); }
  }

  /** The running task `t` has left for list `p`, in place `i`. */
  ghost predicate Joined(s: State, s': State, t: Task, p: Place, i: nat) {
    && s.running == Some(t) && s'.running == None
    && i <= |On(s, p)| && On(s', p) == On(s, p)[..i] + [t] + On(s, p)[i..]
    && (forall q :: q != p ==> On(s', q) == On(s, q))
    && s'.loc == s.loc[t := At(p)] && s'.cont.Keys == s.cont.Keys + {t} && s'.nextid == s.nextid
  }

  lemma JoinedKeeps(s: State, s': State, t: Task, p: Place, i: nat)
    requires Disciplined(s) && Joined(s, s', t, p, i)
    ensures Disciplined(s')
  {
    assert t in s.loc && s.loc[t] == Running by { assert Look(0); }
    forall q ensures Exact(On(s', q), s'.loc, q) {
      assert Exact(On(s, q), s.loc, q);
      if q == p { InsertExact(On(s, q), i, t, s.loc, q); } else { BystanderExact(On(s, q), t, s.loc, At(p), q); }
    }
    assert Known(s') by { assert Look(0); }
  }

  /** Nothing but fields that the discipline does not mention has changed. */
  lemma SameKeeps(s: State, s': State)
    requires Disciplined(s) && s'.loc == s.loc && s'.running == s.running && s'.nextid == s.nextid
    requires s'.cont == s.cont && forall p :: On(s', p) == On(s, p)
    ensures Disciplined(s')
  {
    forall p ensures Exact(On(s', p), s'.loc, p) { assert Exact(On(s, p), s.loc, p); }
    assert Known(s') by { assert Look(0); }
  }

  // ----- the steps -----

  lemma QLockPlaces(s: State, t: Task, l: nat, block: bool)
    requires Disciplined(s) && s.running == Some(t)
    ensures Disciplined(QLockStep(s, t, l, block))
  {
    var s', q := QLockStep(s, t, l, block), On(s, LockQ(l));
    if Lock(Ql(s, l), t, block).answer == Waits {
      assert On(s', LockQ(l)) == q[..|q|] + [t] + q[|q|..];
      JoinedKeeps(s, s', t, LockQ(l), |q|);
    } else {
      SameKeeps(s, s');
    }
  }

  lemma QUnlockPlaces(s: State, l: nat)
    requires Disciplined(s) && QInv(Ql(s, l)) && Unlock(Ql(s, l)).ok
    ensures Disciplined(QUnlockStep(s, l)) && Moved(s, QUnlockStep(s, l), LockQ(l), Unlock(Ql(s, l)).ready)
  {
    UnlockKeeps(Ql(s, l));
    MovedKeeps(s, QUnlockStep(s, l), LockQ(l), Unlock(Ql(s, l)).ready);
  }

  lemma SetRwKeeps(s: State, l: nat, l': RwLock)
    requires Disciplined(s) && l'.rwaiting == Rw(s, l).rwaiting && l'.wwaiting == Rw(s, l).wwaiting
    ensures Disciplined(s.(rw := s.rw[l := l']))
  {
    SameKeeps(s, s.(rw := s.rw[l := l']));
  }

  lemma RLockPlaces(s: State, t: Task, l: nat, block: bool)
    requires Disciplined(s) && s.running == Some(t)
    ensures Disciplined(RLockStep(s, t, l, block))
  {
    var s', q := RLockStep(s, t, l, block), On(s, ReadQ(l));
    if RLock(Rw(s, l), t, block).answer == Waits {
      assert On(s', ReadQ(l)) == q[..|q|] + [t] + q[|q|..];
      JoinedKeeps(s, s', t, ReadQ(l), |q|);
    } else {
      SetRwKeeps(s, l, RLock(Rw(s, l), t, block).l);
    }
  }

  lemma WLockPlaces(s: State, t: Task, l: nat, block: bool)
    requires Disciplined(s) && s.running == Some(t)
    ensures Disciplined(WLockStep(s, t, l, block))
  {
    var s', q := WLockStep(s, t, l, block), On(s, WriteQ(l));
    if WLock(Rw(s, l), t, block).answer == Waits {
      assert On(s', WriteQ(l)) == q[..|q|] + [t] + q[|q|..];
      JoinedKeeps(s, s', t, WriteQ(l), |q|);
    } else {
      SetRwKeeps(s, l, WLock(Rw(s, l), t, block).l);
    }
  }

  lemma RUnlockPlaces(s: State, t: Task, l: nat)
    requires Disciplined(s) && RwInv(Rw(s, l)) && t in Rw(s, l).holders
    ensures var s' := RwReleaseStep(s, l, RUnlock(Rw(s, l), t));
      Disciplined(s') && Moved(s, s', WriteQ(l), RUnlock(Rw(s, l), t).ready)
  {
    RUnlockKeeps(Rw(s, l), t);
    WriterReleasePlaces(s, l, RUnlock(Rw(s, l), t));
  }

  /** A release that lets waiting writers in takes them off the head of their list. */
  lemma WriterReleasePlaces(s: State, l: nat, r: RwRelease)
    requires Disciplined(s) && r.ok
    requires r.l.rwaiting == Rw(s, l).rwaiting && r.ready + r.l.wwaiting == Rw(s, l).wwaiting
    ensures Disciplined(RwReleaseStep(s, l, r)) && Moved(s, RwReleaseStep(s, l, r), WriteQ(l), r.ready)
  {
    MovedKeeps(s, RwReleaseStep(s, l, r), WriteQ(l), r.ready);
  }

  lemma ReaderReleasePlaces(s: State, l: nat, r: RwRelease)
    requires Disciplined(s) && r.ok
    requires r.l.wwaiting == Rw(s, l).wwaiting && r.ready + r.l.rwaiting == Rw(s, l).rwaiting
    ensures Disciplined(RwReleaseStep(s, l, r)) && Moved(s, RwReleaseStep(s, l, r), ReadQ(l), r.ready)
  {
    MovedKeeps(s, RwReleaseStep(s, l, r), ReadQ(l), r.ready);
  }

  lemma WUnlockPlaces(s: State, l: nat)
    requires Disciplined(s) && RwInv(Rw(s, l)) && Rw(s, l).writer.Some?
    ensures WUnlock(Rw(s, l)).ok
    ensures var s' := RwReleaseStep(s, l, WUnlock(Rw(s, l)));
      Disciplined(s') && Moved(s, s', if Rw(s, l).rwaiting != [] then ReadQ(l) else WriteQ(l), WUnlock(Rw(s, l)).ready)
  {
    WUnlockKeeps(Rw(s, l));
    var r := WUnlock(Rw(s, l));
    assert Rw(s, l).rwaiting != [] ==> r.ready + r.l.rwaiting == r.ready;
    if Rw(s, l).rwaiting != [] {
      ReaderReleasePlaces(s, l, r);
    } else {
      WriterReleasePlaces(s, l, r);
    }
  }

  lemma RendezPlaces(s: State, t: Task, r: nat)
    requires Disciplined(s) && s.running == Some(t)
    ensures Disciplined(Leave(s.(rdv := s.rdv[r := Rdv(s, r) + [t]]), t, At(RendezQ(r)), InSleep(r)))
  {
    var s', q := Leave(s.(rdv := s.rdv[r := Rdv(s, r) + [t]]), t, At(RendezQ(r)), InSleep(r)), Rdv(s, r);
    assert On(s', RendezQ(r)) == q[..|q|] + [t] + q[|q|..];
    JoinedKeeps(s, s', t, RendezQ(r), |q|);
  }

  /** The first `n` sleepers of a rendez become ready. */
  lemma WakePlaces(s: State, r: nat, n: nat)
    requires Disciplined(s) && n <= |Rdv(s, r)|
    ensures var s' := MakeReady(s.(rdv := s.rdv[r := Rdv(s, r)[n..]]), Rdv(s, r)[..n]);
      Disciplined(s') && Moved(s, s', RendezQ(r), Rdv(s, r)[..n])
  {
    var q := Rdv(s, r);
    var s' := MakeReady(s.(rdv := s.rdv[r := q[n..]]), q[..n]);
    assert On(s, RendezQ(r)) == q[..n] + q[n..];
    MovedKeeps(s, s', RendezQ(r), q[..n]);
  }

  lemma YieldPlaces(s: State, t: Task)
    requires Disciplined(s) && s.running == Some(t)
    ensures Disciplined(YieldStep(s, t))
  {
    var q := s.runq;
    assert q[..|q|] + [t] + q[|q|..] == q + [t];
    JoinedKeeps(s, YieldStep(s, t), t, RunQ, |q|);
  }

  lemma CreatePlaces(s: State)
    requires Disciplined(s)
    ensures Disciplined(CreateStep(s))
  {
    var s', t := CreateStep(s), s.nextid;
    assert t !in s.loc by { assert Look(0); }
    assert s'.loc == s.loc[t := At(RunQ)];
    forall p ensures Exact(On(s', p), s'.loc, p) {
      assert Exact(On(s, p), s.loc, p);
      UnlistedExact(s, s', p, t);
    }
    assert Known(s') by { assert Look(0); }
  }

  /** Task `t` is on no list and goes to the end of the run queue. */
  lemma UnlistedExact(s: State, s': State, p: Place, t: Task)
    requires Exact(On(s, p), s.loc, p) && (t in s.loc ==> s.loc[t] == Parked)
    requires s'.loc == s.loc[t := At(RunQ)]
    requires On(s', p) == if p == RunQ then s.runq + [t] else On(s, p)
    ensures Exact(On(s', p), s'.loc, p)
  {
    var q := s.runq;
    if p == RunQ {
      assert q[..|q|] + [t] + q[|q|..] == q + [t];
      InsertExact(q, |q|, t, s.loc, p);
    } else {
      BystanderExact(On(s, p), t, s.loc, At(RunQ), p);
    }
  }

  lemma DelayPlaces(s: State, t: Task, ms: nat, now: nat)
    requires Disciplined(s) && s.running == Some(t)
    ensures Disciplined(DelayStep(s, t, ms, now))
  {
    JoinedKeeps(s, DelayStep(s, t, ms, now), t, Sleepers, SleepPlace(s, (now + ms * MILLISECOND) % TWO_64));
  }

  lemma WakeOnePlaces(s: State)
    requires Disciplined(s) && s.sleeping != []
    ensures Disciplined(WakeOne(s)) && Moved(s, WakeOne(s), Sleepers, [s.sleeping[0]])
  {
    assert s.sleeping == [s.sleeping[0]] + s.sleeping[1..];
    MovedKeeps(s, WakeOne(s), Sleepers, [s.sleeping[0]]);
  }

  /** The scheduler takes the head of the run queue off the list before it runs the task. */
  lemma StartPlaces(s: State, s': State)
    requires Disciplined(s) && s.running == None && s.runq != []
    requires s'.runq == s.runq[1..] && s'.running == Some(s.runq[0]) && s'.loc == s.loc[s.runq[0] := Running]
    requires s'.cont == s.cont[s.runq[0] := Plain] && s'.nextid == s.nextid
    requires forall p :: p != RunQ ==> On(s', p) == On(s, p)
    ensures Disciplined(s')
  {
    var t := s.runq[0];
    assert Exact(On(s, RunQ), s.loc, RunQ);
    HeadExact(s.runq, s.loc);
    forall p ensures Exact(On(s', p), s'.loc, p) {
      assert Exact(On(s, p), s.loc, p);
      if p != RunQ { BystanderExact(On(s, p), t, s.loc, Running, p); }
    }
    assert Known(s') by { assert Look(0); }
  }

  lemma HeadExact(q: seq<Task>, loc: map<Task, Loc>)
    requires q != [] && Exact(q, loc, RunQ)
    ensures q[0] in loc && loc[q[0]] == At(RunQ) && Exact(q[1..], loc[q[0] := Running], RunQ)
  {
    assert Look(0);
    assert q == [q[0]] + q[1..] && q[0] in q;
    forall u ensures u in q[1..] <==> u in q && u != q[0] { }
  }

  /** A parked task becomes ready. */
  lemma ReadyPlaces(s: State, u: Task)
    requires Disciplined(s) && u in s.loc && s.loc[u] == Parked
    ensures Disciplined(MakeReady(s, [u]))
  {
    var s' := MakeReady(s, [u]);
    assert s'.loc == s.loc[u := At(RunQ)];
    forall p ensures Exact(On(s', p), s'.loc, p) {
      assert Exact(On(s, p), s.loc, p);
      UnlistedExact(s, s', p, u);
    }
    assert Known(s') by { assert Look(0); }
  }

  /** The running task parks or ends. */
  lemma GonePlaces(s: State, t: Task)
    requires Disciplined(s) && s.running == Some(t)
    ensures Disciplined(Leave(s, t, Parked, Plain)) && Disciplined(ExitStep(s, t))
  {
    var s1, s2 := Leave(s, t, Parked, Plain), ExitStep(s, t);
    assert t in s.loc && s.loc[t] == Running by { assert Look(0); }
    forall p ensures Exact(On(s1, p), s1.loc, p) && Exact(On(s2, p), s2.loc, p) {
      assert Exact(On(s, p), s.loc, p);
      assert On(s1, p) == On(s, p) == On(s2, p);
      BystanderExact(On(s, p), t, s.loc, Parked, p);
    }
    assert Known(s1) && Known(s2) by { assert Look(0); }
  }
}

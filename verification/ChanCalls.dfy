/** Every call of chanalt commits exactly one of its operations, or none if it would have
    had to block: the bookkeeping of calls, wakeups and commits over whole runs. */
module ChanCalls {
  import opened ChanModel
  import opened ChanQueues

  /** The alts that call `id` has committed, in order. */
  function CommitsOf(log: seq<Commit>, id: nat): seq<nat> {
    if log == [] then []
    else
      var e := log[|log| - 1];
      CommitsOf(log[..|log| - 1], id) + if e.id == id then [e.i] else []
  }

  /** The commits a call has made when it has the given status. */
  function Expected(st: Status): seq<nat> {
    match st
    case Waiting(_) => []
    case WouldBlock => []
    case Woken(_, i) => [i]
    case Returned(i) => [i]
  }

  /** A log entry names an alt of a call that was made, with its channel and operation. */
  ghost predicate Genuine(calls: seq<seq<Alt>>, e: Commit) {
    e.id < |calls| && e.i < |calls[e.id]| && calls[e.id][e.i].c == e.c && calls[e.id][e.i].op == e.op
  }

  /** Call `id` has committed what its status says, and waits or is woken where it says. */
  ghost predicate Accounted(s: State, id: nat) {
    && id in s.status && CommitsOf(s.log, id) == Expected(s.status[id])
    && match s.status[id]
       case Waiting(t) => t in s.blocked && s.blocked[t].id == id
       case Woken(t, i) => Ready(t, id, i) in s.runq
       case _ => true
  }

  /** A blocked task has one call under way, and that call waits. */
  ghost predicate BlockedOk(s: State, t: Task)
    requires t in s.blocked
  {
    var id := s.blocked[t].id;
    id < |s.calls| && s.calls[id] == s.blocked[t].alts && id in s.status && s.status[id] == Waiting(t)
  }

  /** An entry of the run queue belongs to a woken call of a task that no longer waits. */
  ghost predicate ReadyOk(s: State, r: Ready) {
    r.id < |s.calls| && r.id in s.status && s.status[r.id] == Woken(r.t, r.i) && r.t !in s.blocked
  }

  /** The books are right for all calls but the one in progress, `now`. */
  ghost predicate BookedBut(s: State, now: nat) {
    && (forall id: nat :: id < |s.calls| && id != now ==> Accounted(s, id))
    && (forall n :: 0 <= n < |s.log| ==> Genuine(s.calls, s.log[n]))
    && (forall t :: t in s.blocked ==> BlockedOk(s, t))
    && (forall n :: 0 <= n < |s.runq| ==> ReadyOk(s, s.runq[n]))
    && (forall m, n :: 0 <= m < n < |s.runq| ==> s.runq[m].t != s.runq[n].t)
    && (forall id :: id in s.status ==> id < |s.calls|)
  }

  ghost predicate Booked(s: State) {
    BookedBut(s, |s.calls|)
  }

  lemma CommitsOne(log: seq<Commit>, e: Commit, id: nat)
    ensures CommitsOf(log + [e], id) == CommitsOf(log, id) + if e.id == id then [e.i] else []
  {
    assert (log + [e])[..|log|] == log;
  }

  lemma CommitsTwo(log: seq<Commit>, e: Commit, f: Commit, id: nat)
    ensures CommitsOf(log + [e, f], id) == CommitsOf(log, id)
      + (if e.id == id then [e.i] else []) + (if f.id == id then [f.i] else [])
  {
    assert log + [e, f] == (log + [e]) + [f];
    CommitsOne(log, e, id);
    CommitsOne(log + [e], f, id);
  }

  lemma {:induction false} NoCommitsYet(log: seq<Commit>, calls: seq<seq<Alt>>, id: nat)
    requires id >= |calls| && forall n :: 0 <= n < |log| ==> Genuine(calls, log[n])
    ensures CommitsOf(log, id) == []
  {
    if log != [] { NoCommitsYet(log[..|log| - 1], calls, id); }
  }

  /** A commit without a partner. */
  lemma SingleCommit(s: State, s': State, now: nat, e: Commit)
    requires BookedBut(s, now) && e.id == now && Genuine(s.calls, e)
    requires s'.calls == s.calls && s'.blocked == s.blocked && s'.runq == s.runq && s'.status == s.status
    requires s'.log == s.log + [e]
    ensures BookedBut(s', now) && CommitsOf(s'.log, now) == CommitsOf(s.log, now) + [e.i]
  {
    CommitsOne(s.log, e, now);
    forall id: nat | id < |s'.calls| && id != now ensures Accounted(s', id) {
      CommitsOne(s.log, e, id);
      assert Accounted(s, id);
    }
    forall t | t in s'.blocked ensures BlockedOk(s', t) {
      assert BlockedOk(s, t);
    }
    forall n | 0 <= n < |s'.runq| ensures ReadyOk(s', s'.runq[n]) {
      assert ReadyOk(s, s.runq[n]);
    }
  }

  /** A commit with a partner ends the partner's wait and no other. */
  lemma PairCommit(s: State, s': State, now: nat, i: nat, e: Commit, f: Commit, r: Ready)
    requires BookedBut(s, now) && r.t in s.blocked && r.id == s.blocked[r.t].id && r.id != now
    requires Genuine(s.calls, e) && Genuine(s.calls, f)
    requires (e.id == now && e.i == i && f.id == r.id && f.i == r.i) ||
      (f.id == now && f.i == i && e.id == r.id && e.i == r.i)
    requires s'.calls == s.calls && s'.blocked == s.blocked - {r.t} && s'.runq == s.runq + [r]
    requires s'.status == s.status[r.id := Woken(r.t, r.i)] && s'.log == s.log + [e, f]
    ensures BookedBut(s', now) && CommitsOf(s'.log, now) == CommitsOf(s.log, now) + [i]
  {
    assert BlockedOk(s, r.t);
    CommitsTwo(s.log, e, f, now);
    forall id: nat | id < |s'.calls| && id != now ensures Accounted(s', id) {
      CommitsTwo(s.log, e, f, id);
      assert Accounted(s, id);
      if id == r.id { assert r == s'.runq[|s.runq|]; }
    }
    forall t | t in s'.blocked ensures BlockedOk(s', t) {
      assert BlockedOk(s, t);
    }
    forall n | 0 <= n < |s'.runq| ensures ReadyOk(s', s'.runq[n]) {
      if n < |s.runq| { assert ReadyOk(s, s.runq[n]); }
    }
  }

  lemma ExecWithBooked(s: State, now: nat, i: nat, a: Alt, p: AltRef)
    requires Sound(s) && BookedBut(s, now) && now < |s.calls| && now !in s.status && CommitsOf(s.log, now) == []
    requires i < |s.calls[now]| && s.calls[now][i] == a && a.c < |s.chans| && a.op != Nop && CanExec(s.chans, a)
    requires p in s.chans[a.c].Queue(Other(a.op))
    ensures var s' := ExecWith(s, now, i, a, p);
      BookedBut(s', now) && CommitsOf(s'.log, now) == [i] && s'.calls == s.calls && now !in s'.status
  {
    ExecWithSound(s, now, i, a, p);
    PartnerIsWaiting(s, a, p);
    assert BlockedOk(s, p.t);
    var s', r := ExecWith(s, now, i, a, p), Ready(p.t, s.blocked[p.t].id, p.i);
    var e, f := s'.log[|s.log|], s'.log[|s.log| + 1];
    PairCommit(s, s', now, i, e, f, r);
  }

  lemma ExecBooked(s: State, now: nat, i: nat, k: nat)
    requires Sound(s) && BookedBut(s, now) && now < |s.calls| && now !in s.status && CommitsOf(s.log, now) == []
    requires ValidAlts(s.chans, s.calls[now]) && i < |s.calls[now]| && CanExec(s.chans, s.calls[now][i])
    ensures var s' := Exec(s, now, s.calls[now], i, k);
      BookedBut(s', now) && CommitsOf(s'.log, now) == [i] && s'.calls == s.calls && now !in s'.status
  {
    var a := s.calls[now][i];
    var q := s.chans[a.c].Queue(Other(a.op));
    if q == [] {
      var s' := Exec(s, now, s.calls[now], i, k);
      SingleCommit(s, s', now, s'.log[|s.log|]);
    } else {
      ExecWithBooked(s, now, i, a, q[k % |q|]);
    }
  }

  /** A call begins: nothing else changes. */
  lemma OpenCall(s: State, alts: seq<Alt>)
    requires Booked(s)
    ensures var s1 := s.(calls := s.calls + [alts]);
      BookedBut(s1, |s.calls|) && |s.calls| !in s1.status && CommitsOf(s1.log, |s.calls|) == []
  {
    var s1 := s.(calls := s.calls + [alts]);
    NoCommitsYet(s.log, s.calls, |s.calls|);
    forall id: nat | id < |s1.calls| && id != |s.calls| ensures Accounted(s1, id) {
      assert Accounted(s, id);
    }
    forall n | 0 <= n < |s1.log| ensures Genuine(s1.calls, s1.log[n]) {
      assert Genuine(s.calls, s.log[n]);
    }
    forall t | t in s1.blocked ensures BlockedOk(s1, t) {
      assert BlockedOk(s, t);
    }
    forall n | 0 <= n < |s1.runq| ensures ReadyOk(s1, s1.runq[n]) {
      assert ReadyOk(s, s.runq[n]);
    }
  }

  /** Closing the books on a call that returns at once. */
  lemma CloseCall(s: State, now: nat, s': State, st: Status)
    requires BookedBut(s, now) && |s.calls| == now + 1 && now !in s.status
    requires CommitsOf(s.log, now) == Expected(st) && (st.Returned? || st.WouldBlock?)
    requires s' == s.(status := s.status[now := st])
    ensures Booked(s')
  {
    forall id: nat | id < |s'.calls| ensures Accounted(s', id) {
      if id != now { assert Accounted(s, id); }
    }
    forall t | t in s'.blocked ensures BlockedOk(s', t) {
      assert BlockedOk(s, t);
    }
    forall n | 0 <= n < |s'.runq| ensures ReadyOk(s', s'.runq[n]) {
      assert ReadyOk(s, s.runq[n]);
    }
  }

  /** Closing the books on a call that blocks. */
  lemma BlockCall(s: State, now: nat, s': State, t: Task, chans: seq<Chan>)
    requires BookedBut(s, now) && |s.calls| == now + 1 && now !in s.status && CommitsOf(s.log, now) == []
    requires CanRun(s, t)
    requires s' == s.(chans := chans, blocked := s.blocked[t := Call(now, s.calls[now])],
      status := s.status[now := Waiting(t)])
    ensures Booked(s')
  {
    forall id: nat | id < |s'.calls| ensures Accounted(s', id) {
      if id != now { assert Accounted(s, id); }
    }
    forall u | u in s'.blocked ensures BlockedOk(s', u) {
      if u != t { assert BlockedOk(s, u); }
    }
    forall n | 0 <= n < |s'.runq| ensures ReadyOk(s', s'.runq[n]) {
      assert ReadyOk(s, s.runq[n]);
    }
  }

  lemma ReturningBooked(s: State, t: Task, alts: seq<Alt>, canblock: bool, j: nat, k: nat)
    requires Sound(s) && Booked(s) && ValidAlts(s.chans, alts) && CountCan(s.chans, alts) > 0
    ensures Booked(ChanAlt(s, t, alts, canblock, j, k))
  {
    var id, i := |s.calls|, Pick(s.chans, alts, j % CountCan(s.chans, alts));
    var s1 := s.(calls := s.calls + [alts]);
    OpenCall(s, alts);
    ExecBooked(s1, id, i, k);
    CloseCall(Exec(s1, id, alts, i, k), id, ChanAlt(s, t, alts, canblock, j, k), Returned(i));
  }

  lemma WaitingBooked(s: State, t: Task, alts: seq<Alt>, canblock: bool, j: nat, k: nat)
    requires Sound(s) && Booked(s) && CanRun(s, t) && ValidAlts(s.chans, alts) && CountCan(s.chans, alts) == 0
    ensures Booked(ChanAlt(s, t, alts, canblock, j, k))
  {
    var id, s1 := |s.calls|, s.(calls := s.calls + [alts]);
    OpenCall(s, alts);
    if canblock {
      BlockCall(s1, id, ChanAlt(s, t, alts, canblock, j, k), t, QueueFrom(s.chans, t, alts, 0));
    } else {
      CloseCall(s1, id, ChanAlt(s, t, alts, canblock, j, k), WouldBlock);
    }
  }

  lemma ChanAltBooked(s: State, t: Task, alts: seq<Alt>, canblock: bool, j: nat, k: nat)
    requires Sound(s) && Booked(s) && CanRun(s, t) && ValidAlts(s.chans, alts)
    ensures Booked(ChanAlt(s, t, alts, canblock, j, k))
  {
    if CountCan(s.chans, alts) > 0 {
      ReturningBooked(s, t, alts, canblock, j, k);
    } else {
      WaitingBooked(s, t, alts, canblock, j, k);
    }
  }

  lemma ResumeBooked(s: State)
    requires Booked(s) && s.runq != []
    ensures Booked(Resume(s))
  {
    var s', r := Resume(s), s.runq[0];
    assert ReadyOk(s, r);
    forall id: nat | id < |s'.calls| ensures Accounted(s', id) {
      assert Accounted(s, id);
      if id != r.id && s.status[id].Woken? {
        var n :| 0 <= n < |s.runq| && s.runq[n] == Ready(s.status[id].t, id, s.status[id].i);
        assert s'.runq[n - 1] == s.runq[n];
      }
    }
    forall t | t in s'.blocked ensures BlockedOk(s', t) {
      assert BlockedOk(s, t);
    }
    forall n | 0 <= n < |s'.runq| ensures ReadyOk(s', s'.runq[n]) {
      assert ReadyOk(s, s.runq[n + 1]);
      assert s.runq[0].t != s.runq[n + 1].t;
    }
  }

  lemma StepBooked(s: State, l: Label)
    requires Sound(s) && Booked(s)
    ensures Booked(Step(s, l))
  {
    match l
    case Alts(t, alts, canblock, j, k) =>
      if CanRun(s, t) && ValidAlts(s.chans, alts) { ChanAltBooked(s, t, alts, canblock, j, k); }
    case Dispatch =>
      if s.runq != [] { ResumeBooked(s); }
    case Poke(addr, x) =>
      var s' := Step(s, l);
      forall id: nat | id < |s'.calls| ensures Accounted(s', id) { assert Accounted(s, id); }
      forall t | t in s'.blocked ensures BlockedOk(s', t) { assert BlockedOk(s, t); }
      forall n | 0 <= n < |s'.runq| ensures ReadyOk(s', s'.runq[n]) { assert ReadyOk(s, s.runq[n]); }
  }

  lemma {:induction false} RunBooked(sizes: seq<nat>, run: seq<Label>)
    ensures Booked(Run(Init(sizes), run))
  {
    if run != [] {
      var before := run[..|run| - 1];
      RunBooked(sizes, before);
      RunSound(sizes, before);
      StepBooked(Run(Init(sizes), before), run[|run| - 1]);
    }
  }

  /** In every run, for every call: while it waits it has committed nothing; once woken or
      returned with index `i` it has committed alt `i` and nothing else; if it gave up
      rather than block it has committed nothing. A task waits in at most one call, the
      woken ones stand once each in the run queue, and only waiting calls have queued alts. */
  lemma ExactlyOneCommit(sizes: seq<nat>, run: seq<Label>)
    ensures var s := Run(Init(sizes), run);
      && (forall id: nat :: id < |s.calls| ==> Accounted(s, id))
      && (forall n :: 0 <= n < |s.log| ==> Genuine(s.calls, s.log[n]))
      && (forall m, n :: 0 <= m < n < |s.runq| ==> s.runq[m].t != s.runq[n].t)
      && (forall n :: 0 <= n < |s.runq| ==> ReadyOk(s, s.runq[n]))
      && (forall ch, p :: ch in s.chans && (p in ch.asend || p in ch.arecv) ==>
            p.t in s.blocked && BlockedOk(s, p.t))
  {
    RunBooked(sizes, run);
    RunSound(sizes, run);
    var s := Run(Init(sizes), run);
    forall t | t in s.blocked ensures BlockedOk(s, t) { }
    forall ch, p | ch in s.chans && (p in ch.asend || p in ch.arecv)
      ensures p.t in s.blocked && BlockedOk(s, p.t)
    {
      var c :| 0 <= c < |s.chans| && s.chans[c] == ch;
      assert ExactForAll(ch.Queue(Snd), s.blocked, c, Snd) && ExactForAll(ch.Queue(Rcv), s.blocked, c, Rcv);
      assert p.t in s.blocked;
      assert BlockedOk(s, p.t);
    }
  }
}

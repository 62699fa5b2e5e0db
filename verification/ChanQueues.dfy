/** The wait queues of all channels mirror the blocked calls exactly, and no communication
    is missed: the inductive invariant behind altcopy and altdequeue. */
module ChanQueues {
  import opened ChanModel

  ghost predicate NoDup(q: seq<AltRef>) {
    forall i, j :: 0 <= i < j < |q| ==> q[i] != q[j]
  }

  /** `p` is an alt of a blocked call that waits to do `op` on channel `c`. */
  ghost predicate IsWaiting(blocked: map<Task, Call>, p: AltRef, c: nat, op: Op) {
    p.t in blocked && p.i < |blocked[p.t].alts| && blocked[p.t].alts[p.i].op == op && blocked[p.t].alts[p.i].c == c
  }

  /** The queue holds each waiting alt once and nothing else; of task `t`, only the alts
      `lo` to `hi` (the others are dequeued already, or not queued yet). */
  ghost predicate Exact(q: seq<AltRef>, blocked: map<Task, Call>, c: nat, op: Op, t: Task, lo: nat, hi: nat) {
    && NoDup(q)
    && forall p :: p in q <==> IsWaiting(blocked, p, c, op) && (p.t == t ==> lo <= p.i < hi)
  }

  ghost predicate Queues(chans: seq<Chan>, blocked: map<Task, Call>, t: Task, lo: nat, hi: nat) {
    forall c, op :: 0 <= c < |chans| && op != Nop ==> Exact(chans[c].Queue(op), blocked, c, op, t, lo, hi)
  }

  ghost predicate ExactForAll(q: seq<AltRef>, blocked: map<Task, Call>, c: nat, op: Op) {
    NoDup(q) && forall p :: p in q <==> IsWaiting(blocked, p, c, op)
  }

  /** Before and after every step all queues are exact for all tasks. */
  ghost predicate QueuesMatch(chans: seq<Chan>, blocked: map<Task, Call>) {
    forall c, op :: 0 <= c < |chans| && op != Nop ==> ExactForAll(chans[c].Queue(op), blocked, c, op)
  }

  /** No communication is missed on this channel. */
  ghost predicate NothingMissed(ch: Chan) {
    && |ch.buf| <= ch.bufsize
    && if ch.bufsize == 0 then forall p, q :: p in ch.asend && q in ch.arecv ==> p.t == q.t
       else (ch.asend != [] ==> |ch.buf| == ch.bufsize) && (ch.arecv != [] ==> ch.buf == [])
  }

  ghost predicate Sound(s: State) {
    && !s.aborted
    && (forall t :: t in s.blocked ==> ValidAlts(s.chans, s.blocked[t].alts))
    && QueuesMatch(s.chans, s.blocked)
    && (forall c :: 0 <= c < |s.chans| ==> NothingMissed(s.chans[c]))
  }

  // ----- dequeueing -----

  lemma DelArrayRemoves(q: seq<AltRef>, k: nat)
    requires k < |q| && NoDup(q)
    ensures NoDup(DelArray(q, k))
    ensures forall p :: p in DelArray(q, k) <==> p in q && p != q[k]
    ensures |DelArray(q, k)| == |q| - 1
    ensures forall i :: 0 <= i < |q| - 1 ==> DelArray(q, k)[i] == q[if i == k then |q| - 1 else i]
  {
    var r, last := DelArray(q, k), |q| - 1;
    forall p | p in q && p != q[k] ensures p in r {
      var i :| 0 <= i < |q| && q[i] == p;
      assert if i == last then r[k] == p else r[i] == p;
    }
    forall p | p in r ensures p in q && p != q[k] {
      var i :| 0 <= i < |r| && r[i] == p;
      assert p == if i == k then q[last] else q[i];
    }
  }

  /** Queues only lose entries, and buffers stay. */
  ghost predicate Shrunk(after: seq<Chan>, before: seq<Chan>) {
    && |after| == |before|
    && forall c :: 0 <= c < |before| ==>
         && after[c].bufsize == before[c].bufsize && after[c].buf == before[c].buf
         && (forall p :: p in after[c].asend ==> p in before[c].asend)
         && (forall p :: p in after[c].arecv ==> p in before[c].arecv)
  }

  /** Dequeueing one alt. */
  lemma DequeueOne(chans: seq<Chan>, blocked: map<Task, Call>, t: Task, i: nat, k: nat)
    requires t in blocked && i < |blocked[t].alts| && ValidAlts(chans, blocked[t].alts)
    requires blocked[t].alts[i].op != Nop
    requires var q := chans[blocked[t].alts[i].c].Queue(blocked[t].alts[i].op); k < |q| && q[k] == AltRef(t, i)
    requires Queues(chans, blocked, t, i, |blocked[t].alts|)
    ensures var a := blocked[t].alts[i];
      var chans' := chans[a.c := chans[a.c].WithQueue(a.op, DelArray(chans[a.c].Queue(a.op), k))];
      Queues(chans', blocked, t, i + 1, |blocked[t].alts|) && Shrunk(chans', chans)
  {
    var a, hi := blocked[t].alts[i], |blocked[t].alts|;
    var q := chans[a.c].Queue(a.op);
    var chans' := chans[a.c := chans[a.c].WithQueue(a.op, DelArray(q, k))];
    assert Exact(q, blocked, a.c, a.op, t, i, hi);
    DelArrayRemoves(q, k);
    forall c, op | 0 <= c < |chans'| && op != Nop ensures Exact(chans'[c].Queue(op), blocked, c, op, t, i + 1, hi) {
      assert Exact(chans[c].Queue(op), blocked, c, op, t, i, hi);
    }
  }

  /** altalldequeue finds every entry, so it never aborts. */
  lemma {:induction false} DequeueSucceeds(chans: seq<Chan>, blocked: map<Task, Call>, t: Task, i: nat)
    requires t in blocked && i <= |blocked[t].alts| && ValidAlts(chans, blocked[t].alts)
    requires Queues(chans, blocked, t, i, |blocked[t].alts|)
    ensures var r := DequeueFrom(chans, t, blocked[t].alts, i);
      r.Ok? && Queues(r.chans, blocked, t, |blocked[t].alts|, |blocked[t].alts|) && Shrunk(r.chans, chans)
    decreases |blocked[t].alts| - i
  {
    var alts := blocked[t].alts;
    if i < |alts| {
      var a := alts[i];
      if a.op == Nop {
        forall c, op | 0 <= c < |chans| && op != Nop
          ensures Exact(chans[c].Queue(op), blocked, c, op, t, i + 1, |alts|)
        {
          assert Exact(chans[c].Queue(op), blocked, c, op, t, i, |alts|);
        }
        DequeueSucceeds(chans, blocked, t, i + 1);
      } else {
        var ch := chans[a.c];
        var q := ch.Queue(a.op);
        assert Exact(q, blocked, a.c, a.op, t, i, |alts|);
        assert IsWaiting(blocked, AltRef(t, i), a.c, a.op);
        var k := IndexOf(q, AltRef(t, i));
        DequeueOne(chans, blocked, t, i, k);
        DequeueSucceeds(chans[a.c := ch.WithQueue(a.op, DelArray(q, k))], blocked, t, i + 1);
      }
    }
  }

  /** Once all alts of `t` are dequeued, the queues match the other blocked calls. */
  lemma DequeuedMatches(chans: seq<Chan>, blocked: map<Task, Call>, t: Task)
    requires t in blocked && Queues(chans, blocked, t, |blocked[t].alts|, |blocked[t].alts|)
    ensures QueuesMatch(chans, blocked - {t})
  {
    forall c, op | 0 <= c < |chans| && op != Nop ensures ExactForAll(chans[c].Queue(op), blocked - {t}, c, op) {
      assert Exact(chans[c].Queue(op), blocked, c, op, t, |blocked[t].alts|, |blocked[t].alts|);
      forall p ensures p in chans[c].Queue(op) <==> IsWaiting(blocked - {t}, p, c, op) {
      }
    }
  }

  /** Buffer contents do not matter to the queues. */
  lemma BufferIsNotQueued(chans: seq<Chan>, blocked: map<Task, Call>, c: nat, buf: seq<Elem>)
    requires c < |chans| && QueuesMatch(chans, blocked)
    ensures QueuesMatch(chans[c := chans[c].(buf := buf)], blocked)
  {
    var chans' := chans[c := chans[c].(buf := buf)];
    forall d, op | 0 <= d < |chans'| && op != Nop ensures ExactForAll(chans'[d].Queue(op), blocked, d, op) {
      assert ExactForAll(chans[d].Queue(op), blocked, d, op);
    }
  }

  lemma DequeueAll(chans: seq<Chan>, blocked: map<Task, Call>, t: Task)
    requires t in blocked && ValidAlts(chans, blocked[t].alts) && QueuesMatch(chans, blocked)
    ensures var r := DequeueFrom(chans, t, blocked[t].alts, 0);
      r.Ok? && QueuesMatch(r.chans, blocked - {t}) && Shrunk(r.chans, chans)
  {
    forall c, op | 0 <= c < |chans| && op != Nop
      ensures Exact(chans[c].Queue(op), blocked, c, op, t, 0, |blocked[t].alts|)
    {
      assert ExactForAll(chans[c].Queue(op), blocked, c, op);
    }
    DequeueSucceeds(chans, blocked, t, 0);
    DequeuedMatches(DequeueFrom(chans, t, blocked[t].alts, 0).chans, blocked, t);
  }

  // ----- queueing -----

  /** `after` is `before` with alts `from`, `from + 1`, ... of `t` queued. */
  ghost predicate Grown(after: seq<Chan>, before: seq<Chan>, t: Task, alts: seq<Alt>, from: nat) {
    && |after| == |before|
    && forall c :: 0 <= c < |before| ==>
         && after[c].bufsize == before[c].bufsize && after[c].buf == before[c].buf
         && (forall p :: p in after[c].asend ==> p in before[c].asend || Queued(p, t, alts, c, Snd, from))
         && (forall p :: p in after[c].arecv ==> p in before[c].arecv || Queued(p, t, alts, c, Rcv, from))
  }

  ghost predicate Queued(p: AltRef, t: Task, alts: seq<Alt>, c: nat, op: Op, from: nat) {
    p.t == t && from <= p.i < |alts| && alts[p.i].c == c && alts[p.i].op == op
  }

  lemma QueueOne(chans: seq<Chan>, blocked: map<Task, Call>, t: Task, i: nat)
    requires t in blocked && i < |blocked[t].alts| && ValidAlts(chans, blocked[t].alts)
    requires blocked[t].alts[i].op != Nop && Queues(chans, blocked, t, 0, i)
    ensures var a := blocked[t].alts[i];
      Queues(chans[a.c := chans[a.c].WithQueue(a.op, chans[a.c].Queue(a.op) + [AltRef(t, i)])], blocked, t, 0, i + 1)
  {
    var a := blocked[t].alts[i];
    var q := chans[a.c].Queue(a.op);
    var chans' := chans[a.c := chans[a.c].WithQueue(a.op, q + [AltRef(t, i)])];
    forall c, op | 0 <= c < |chans'| && op != Nop ensures Exact(chans'[c].Queue(op), blocked, c, op, t, 0, i + 1) {
      assert Exact(chans[c].Queue(op), blocked, c, op, t, 0, i);
      if c == a.c && op == a.op {
        assert chans'[c].Queue(op) == q + [AltRef(t, i)];
        assert AltRef(t, i) !in q;
      } else {
        assert chans'[c].Queue(op) == chans[c].Queue(op);
      }
    }
  }

  lemma {:induction false} QueueingMatches(chans: seq<Chan>, blocked: map<Task, Call>, t: Task, i: nat)
    requires t in blocked && i <= |blocked[t].alts| && ValidAlts(chans, blocked[t].alts)
    requires Queues(chans, blocked, t, 0, i)
    ensures var r := QueueFrom(chans, t, blocked[t].alts, i);
      Queues(r, blocked, t, 0, |blocked[t].alts|) && Grown(r, chans, t, blocked[t].alts, i)
    decreases |blocked[t].alts| - i
  {
    var alts := blocked[t].alts;
    if i < |alts| {
      var a := alts[i];
      if a.op == Nop {
        forall c, op | 0 <= c < |chans| && op != Nop ensures Exact(chans[c].Queue(op), blocked, c, op, t, 0, i + 1) {
          assert Exact(chans[c].Queue(op), blocked, c, op, t, 0, i);
        }
        QueueingMatches(chans, blocked, t, i + 1);
      } else {
        QueueOne(chans, blocked, t, i);
        QueueingMatches(chans[a.c := chans[a.c].WithQueue(a.op, chans[a.c].Queue(a.op) + [AltRef(t, i)])], blocked,
          t, i + 1);
      }
    }
  }

  lemma QueueAll(chans: seq<Chan>, blocked: map<Task, Call>, t: Task, call: Call)
    requires t !in blocked && ValidAlts(chans, call.alts) && QueuesMatch(chans, blocked)
    ensures var r := QueueFrom(chans, t, call.alts, 0);
      QueuesMatch(r, blocked[t := call]) && Grown(r, chans, t, call.alts, 0)
  {
    var blocked' := blocked[t := call];
    forall c, op | 0 <= c < |chans| && op != Nop ensures Exact(chans[c].Queue(op), blocked', c, op, t, 0, 0) {
      assert ExactForAll(chans[c].Queue(op), blocked, c, op);
      forall p ensures p in chans[c].Queue(op) <==> IsWaiting(blocked', p, c, op) && (p.t == t ==> 0 <= p.i < 0) {
        assert IsWaiting(blocked, p, c, op) ==> p.t != t;
      }
    }
    QueueingMatches(chans, blocked', t, 0);
    var r := QueueFrom(chans, t, call.alts, 0);
    forall c, op | 0 <= c < |r| && op != Nop ensures ExactForAll(r[c].Queue(op), blocked', c, op) {
      assert Exact(r[c].Queue(op), blocked', c, op, t, 0, |call.alts|);
    }
  }

  // ----- every step keeps the invariant -----

  lemma ShrinkingMissesNothing(after: seq<Chan>, before: seq<Chan>, c: nat)
    requires Shrunk(after, before) && c < |before| && NothingMissed(before[c])
    ensures NothingMissed(after[c])
  {
    if after[c].asend != [] { assert after[c].asend[0] in before[c].asend; }
    if after[c].arecv != [] { assert after[c].arecv[0] in before[c].arecv; }
  }

  /** With a partner waiting, the buffer is empty if the partner receives and full if it
      sends: altcopy either copies directly or replaces the oldest element. */
  lemma PartnerDecidesCopy(ch: Chan, a: Alt, mem: map<nat, Elem>, s: Side, r: Side)
    requires NothingMissed(ch) && a.op != Nop && ch.Queue(Other(a.op)) != []
    requires ch.bufsize == 0 || (a.op == Snd && |ch.buf| < ch.bufsize) || (a.op == Rcv && |ch.buf| > 0)
    requires s.Some? && r.Some?
    ensures var buf' := Copy(ch.buf, mem, s, r).buf;
      NothingMissed(ch.(buf := buf')) && |buf'| == |ch.buf|
    ensures a.op == Snd ==> ch.buf == []
    ensures a.op == Rcv ==> |ch.buf| == ch.bufsize
  {
    assert a.op == Snd ==> ch.arecv != [];
    assert a.op == Rcv ==> ch.asend != [];
  }

  /** The waiting partner is a blocked alt for the opposite operation on the same channel. */
  lemma PartnerIsWaiting(s: State, a: Alt, p: AltRef)
    requires Sound(s) && a.c < |s.chans| && a.op != Nop && p in s.chans[a.c].Queue(Other(a.op))
    ensures !Dangling(s, p) && IsWaiting(s.blocked, p, a.c, Other(a.op))
  {
    assert ExactForAll(s.chans[a.c].Queue(Other(a.op)), s.blocked, a.c, Other(a.op));
  }

  lemma ExecWithSound(s: State, id: nat, i: nat, a: Alt, p: AltRef)
    requires Sound(s) && a.c < |s.chans| && a.op != Nop && CanExec(s.chans, a)
    requires p in s.chans[a.c].Queue(Other(a.op))
    ensures var s' := ExecWith(s, id, i, a, p); Sound(s') && s'.blocked == s.blocked - {p.t} && |s'.chans| == |s.chans|
  {
    PartnerIsWaiting(s, a, p);
    var ch, call := s.chans[a.c], s.blocked[p.t];
    var b := call.alts[p.i];
    var snd, rcv := Some(if a.op == Snd then a.v else b.v), Some(if a.op == Snd then b.v else a.v);
    var buf' := Copy(ch.buf, s.mem, snd, rcv).buf;
    assert NothingMissed(ch);
    PartnerDecidesCopy(ch, a, s.mem, snd, rcv);
    var chans1 := s.chans[a.c := ch.(buf := buf')];
    BufferIsNotQueued(s.chans, s.blocked, a.c, buf');
    DequeueAll(chans1, s.blocked, p.t);
    var chans2 := DequeueFrom(chans1, p.t, call.alts, 0).chans;
    forall c | 0 <= c < |chans2| ensures NothingMissed(chans2[c]) {
      assert NothingMissed(s.chans[c]);
      ShrinkingMissesNothing(chans2, chans1, c);
    }
  }

  lemma ExecSound(s: State, id: nat, alts: seq<Alt>, i: nat, k: nat)
    requires Sound(s) && ValidAlts(s.chans, alts) && i < |alts| && CanExec(s.chans, alts[i])
    ensures Sound(Exec(s, id, alts, i, k)) && |Exec(s, id, alts, i, k).chans| == |s.chans|
  {
    var a := alts[i];
    var ch := s.chans[a.c];
    var q := ch.Queue(Other(a.op));
    assert NothingMissed(ch);
    if q == [] {
      var r := Copy(ch.buf, s.mem, SideOf(Snd, a), SideOf(Rcv, a));
      BufferIsNotQueued(s.chans, s.blocked, a.c, r.buf);
      var s' := Exec(s, id, alts, i, k);
      forall c | 0 <= c < |s'.chans| ensures NothingMissed(s'.chans[c]) {
        assert NothingMissed(s.chans[c]);
      }
    } else {
      ExecWithSound(s, id, i, a, q[k % |q|]);
    }
  }

  lemma {:induction false} NoneCan(chans: seq<Chan>, alts: seq<Alt>, i: nat)
    requires ValidAlts(chans, alts) && CountCan(chans, alts) == 0 && i < |alts|
    ensures !CanExec(chans, alts[i])
  {
    if i < |alts| - 1 { NoneCan(chans, alts[..|alts| - 1], i); }
  }

  /** A call blocks only when none of its alts could proceed, so waiting misses nothing. */
  lemma BlockingMissesNothing(s: State, t: Task, alts: seq<Alt>, c: nat)
    requires Sound(s) && ValidAlts(s.chans, alts) && CountCan(s.chans, alts) == 0 && c < |s.chans|
    requires Grown(QueueFrom(s.chans, t, alts, 0), s.chans, t, alts, 0)
    ensures NothingMissed(QueueFrom(s.chans, t, alts, 0)[c])
  {
    var ch, ch' := s.chans[c], QueueFrom(s.chans, t, alts, 0)[c];
    assert NothingMissed(ch);
    forall p, op | Queued(p, t, alts, c, op, 0) && op != Nop ensures !CanExec(s.chans, Alt(c, op, Nil)) {
      NoneCan(s.chans, alts, p.i);
    }
    if ch.bufsize == 0 {
      forall p, q | p in ch'.asend && q in ch'.arecv ensures p.t == q.t { }
    } else {
      if ch'.asend != [] && ch.asend == [] { assert Queued(ch'.asend[0], t, alts, c, Snd, 0); }
      if ch'.arecv != [] && ch.arecv == [] { assert Queued(ch'.arecv[0], t, alts, c, Rcv, 0); }
    }
  }

  lemma ChanAltSound(s: State, t: Task, alts: seq<Alt>, canblock: bool, j: nat, k: nat)
    requires Sound(s) && ValidAlts(s.chans, alts) && t !in s.blocked
    ensures Sound(ChanAlt(s, t, alts, canblock, j, k)) && |ChanAlt(s, t, alts, canblock, j, k).chans| == |s.chans|
  {
    var id, ncan := |s.calls|, CountCan(s.chans, alts);
    var s1 := s.(calls := s.calls + [alts]);
    if ncan > 0 {
      ExecSound(s1, id, alts, Pick(s.chans, alts, j % ncan), k);
    } else if canblock {
      QueueAll(s.chans, s.blocked, t, Call(id, alts));
      forall c | 0 <= c < |s.chans| ensures NothingMissed(QueueFrom(s.chans, t, alts, 0)[c]) {
        BlockingMissesNothing(s, t, alts, c);
      }
    }
  }

  lemma StepSound(s: State, l: Label)
    requires Sound(s)
    ensures Sound(Step(s, l)) && |Step(s, l).chans| == |s.chans|
  {
    match l
    case Alts(t, alts, canblock, j, k) =>
      if CanRun(s, t) && ValidAlts(s.chans, alts) { ChanAltSound(s, t, alts, canblock, j, k); }
    case Dispatch =>
    case Poke(addr, x) =>
  }

  /** Every reachable state is sound. */
  lemma {:induction false} RunSound(sizes: seq<nat>, run: seq<Label>)
    ensures Sound(Run(Init(sizes), run)) && |Run(Init(sizes), run).chans| == |sizes|
  {
    if run != [] {
      RunSound(sizes, run[..|run| - 1]);
      StepSound(Run(Init(sizes), run[..|run| - 1]), run[|run| - 1]);
    }
  }
}

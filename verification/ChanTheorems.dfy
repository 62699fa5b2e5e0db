/** What every run of the channel state machine guarantees. */
module ChanTheorems {
  import opened ChanModel
  import opened ChanQueues

  // ----- conservation and FIFO order -----

  /** The elements that operations `op` moved through channel `c`, in commit order. */
  function Moved(log: seq<Commit>, c: nat, op: Op): seq<Elem> {
    if log == [] then []
    else
      var e := log[|log| - 1];
      Moved(log[..|log| - 1], c, op) + if e.c == c && e.op == op then [e.elem] else []
  }

  ghost predicate Conserved(s: State) {
    forall c :: 0 <= c < |s.chans| ==> Moved(s.log, c, Rcv) + s.chans[c].buf == Moved(s.log, c, Snd)
  }

  lemma MovedOne(log: seq<Commit>, e: Commit, c: nat, op: Op)
    ensures Moved(log + [e], c, op) == Moved(log, c, op) + if e.c == c && e.op == op then [e.elem] else []
  {
    assert (log + [e])[..|log|] == log;
  }

  lemma MovedTwo(log: seq<Commit>, e: Commit, f: Commit, c: nat, op: Op)
    ensures Moved(log + [e, f], c, op) == Moved(log, c, op)
      + (if e.c == c && e.op == op then [e.elem] else []) + (if f.c == c && f.op == op then [f.elem] else [])
  {
    assert log + [e, f] == (log + [e]) + [f];
    MovedOne(log, e, c, op);
    MovedOne(log + [e], f, c, op);
  }

  /** altcopy, seen from the buffer: what comes in at the back goes out at the front. */
  lemma CopyConserves(buf: seq<Elem>, mem: map<nat, Elem>, s: Side, r: Side, snd: seq<Elem>, rcv: seq<Elem>)
    requires (r.Some? && s.None? ==> buf != []) && rcv + buf == snd
    ensures var x := Copy(buf, mem, s, r);
      (rcv + if r.Some? then [x.received] else []) + x.buf == snd + if s.Some? then [x.sent] else []
  {
    var x := Copy(buf, mem, s, r);
    if r.Some? && buf != [] { assert buf == [buf[0]] + buf[1..]; }
  }

  /** What a commit with a partner does to the buffers and the log. */
  lemma ExecWithEffect(s: State, id: nat, i: nat, a: Alt, p: AltRef)
    returns (snd: Side, rcv: Side, e: Commit, f: Commit)
    requires Sound(s) && a.c < |s.chans| && a.op != Nop && CanExec(s.chans, a)
    requires p in s.chans[a.c].Queue(Other(a.op))
    ensures snd.Some? && rcv.Some? && e.c == f.c == a.c
    ensures var s', r := ExecWith(s, id, i, a, p), Copy(s.chans[a.c].buf, s.mem, snd, rcv);
      && !s'.aborted && s'.log == s.log + [e, f] && |s'.chans| == |s.chans|
      && (if e.op == Snd then f.op == Rcv && e.elem == r.sent && f.elem == r.received
          else e.op == Rcv && f.op == Snd && f.elem == r.sent && e.elem == r.received)
      && forall c :: 0 <= c < |s.chans| ==> s'.chans[c].buf == if c == a.c then r.buf else s.chans[c].buf
  {
    ExecWithSound(s, id, i, a, p);
    PartnerIsWaiting(s, a, p);
    var s', ch := ExecWith(s, id, i, a, p), s.chans[a.c];
    var b := s.blocked[p.t].alts[p.i];
    snd, rcv := Some(if a.op == Snd then a.v else b.v), Some(if a.op == Snd then b.v else a.v);
    var chans1 := s.chans[a.c := ch.(buf := Copy(ch.buf, s.mem, snd, rcv).buf)];
    BufferIsNotQueued(s.chans, s.blocked, a.c, chans1[a.c].buf);
    DequeueAll(chans1, s.blocked, p.t);
    e, f := s'.log[|s.log|], s'.log[|s.log| + 1];
  }

  lemma PairConserves(log: seq<Commit>, e: Commit, f: Commit, c: nat, buf: seq<Elem>, mem: map<nat, Elem>, snd: Side,
      rcv: Side)
    requires snd.Some? && rcv.Some? && e.c == f.c == c
    requires var r := Copy(buf, mem, snd, rcv);
      if e.op == Snd then f.op == Rcv && e.elem == r.sent && f.elem == r.received
      else e.op == Rcv && f.op == Snd && f.elem == r.sent && e.elem == r.received
    requires Moved(log, c, Rcv) + buf == Moved(log, c, Snd)
    ensures Moved(log + [e, f], c, Rcv) + Copy(buf, mem, snd, rcv).buf == Moved(log + [e, f], c, Snd)
  {
    MovedTwo(log, e, f, c, Snd);
    MovedTwo(log, e, f, c, Rcv);
    CopyConserves(buf, mem, snd, rcv, Moved(log, c, Snd), Moved(log, c, Rcv));
  }

  lemma PairKeepsConserved(s: State, s': State, k: nat, e: Commit, f: Commit, buf: seq<Elem>)
    requires Conserved(s) && k < |s.chans| && e.c == f.c == k
    requires s'.log == s.log + [e, f] && |s'.chans| == |s.chans|
    requires forall c :: 0 <= c < |s.chans| ==> s'.chans[c].buf == if c == k then buf else s.chans[c].buf
    requires Moved(s.log + [e, f], k, Rcv) + buf == Moved(s.log + [e, f], k, Snd)
    ensures Conserved(s')
  {
    forall c | 0 <= c < |s'.chans| ensures Moved(s'.log, c, Rcv) + s'.chans[c].buf == Moved(s'.log, c, Snd) {
      if c != k {
        MovedTwo(s.log, e, f, c, Rcv);
        MovedTwo(s.log, e, f, c, Snd);
      }
    }
  }

  lemma ExecWithConserves(s: State, id: nat, i: nat, a: Alt, p: AltRef)
    requires Sound(s) && Conserved(s) && a.c < |s.chans| && a.op != Nop && CanExec(s.chans, a)
    requires p in s.chans[a.c].Queue(Other(a.op))
    ensures Conserved(ExecWith(s, id, i, a, p))
  {
    var snd, rcv, e, f := ExecWithEffect(s, id, i, a, p);
    var buf := s.chans[a.c].buf;
    PairConserves(s.log, e, f, a.c, buf, s.mem, snd, rcv);
    PairKeepsConserved(s, ExecWith(s, id, i, a, p), a.c, e, f, Copy(buf, s.mem, snd, rcv).buf);
  }

  lemma ExecConserves(s: State, id: nat, alts: seq<Alt>, i: nat, k: nat)
    requires Sound(s) && Conserved(s) && ValidAlts(s.chans, alts) && i < |alts| && CanExec(s.chans, alts[i])
    ensures Conserved(Exec(s, id, alts, i, k))
  {
    var a := alts[i];
    var ch := s.chans[a.c];
    var q := ch.Queue(Other(a.op));
    if q == [] {
      var s' := Exec(s, id, alts, i, k);
      forall c | 0 <= c < |s'.chans| ensures Moved(s'.log, c, Rcv) + s'.chans[c].buf == Moved(s'.log, c, Snd) {
        MovedOne(s.log, s'.log[|s.log|], c, Snd);
        MovedOne(s.log, s'.log[|s.log|], c, Rcv);
        CopyConserves(ch.buf, s.mem, SideOf(Snd, a), SideOf(Rcv, a), Moved(s.log, a.c, Snd), Moved(s.log, a.c, Rcv));
      }
    } else {
      ExecWithConserves(s, id, i, a, q[k % |q|]);
    }
  }

  lemma StepConserves(s: State, l: Label)
    requires Sound(s) && Conserved(s)
    ensures Conserved(Step(s, l))
  {
    match l
    case Alts(t, alts, canblock, j, k) =>
      if CanRun(s, t) && ValidAlts(s.chans, alts) {
        var ncan := CountCan(s.chans, alts);
        if ncan > 0 {
          ExecConserves(s.(calls := s.calls + [alts]), |s.calls|, alts, Pick(s.chans, alts, j % ncan), k);
        } else if canblock {
          QueueAll(s.chans, s.blocked, t, Call(|s.calls|, alts));
        }
      }
    case Dispatch =>
    case Poke(addr, x) =>
  }

  /** In every run, on every channel: the values received, followed by the values still
      buffered, are the values sent, in order. Nothing is lost, duplicated or reordered. */
  lemma {:induction false} ChannelsConserve(sizes: seq<nat>, run: seq<Label>, c: nat)
    requires c < |sizes|
    ensures var s := Run(Init(sizes), run);
      |s.chans| == |sizes| && Moved(s.log, c, Rcv) + s.chans[c].buf == Moved(s.log, c, Snd)
  {
    RunConserves(sizes, run);
    RunSound(sizes, run);
  }

  lemma {:induction false} RunConserves(sizes: seq<nat>, run: seq<Label>)
    ensures Conserved(Run(Init(sizes), run))
  {
    if run != [] {
      var before := run[..|run| - 1];
      RunConserves(sizes, before);
      RunSound(sizes, before);
      StepConserves(Run(Init(sizes), before), run[|run| - 1]);
    }
  }

  // ----- no missed communication -----

  /** Alt `a` of the blocked task `t` cannot proceed, or could only with other alts of `t`. */
  ghost predicate StuckOrItself(s: State, t: Task, a: Alt) {
    a.op != Nop ==> a.c < |s.chans| && (CanExec(s.chans, a) ==>
      s.chans[a.c].bufsize == 0 && forall p :: p in s.chans[a.c].Queue(Other(a.op)) ==> p.t == t)
  }

  /** In every run: a sender waits on a buffered channel only while the buffer is full, a
      receiver only while it is empty, and on an unbuffered channel a sender and a receiver
      wait together only inside one call. Hence no waiting alt could proceed, unless its
      only partners belong to its own call; and no abort is ever reached. */
  lemma NoMissedCommunication(sizes: seq<nat>, run: seq<Label>)
    ensures var s := Run(Init(sizes), run);
      && !s.aborted
      && (forall ch :: ch in s.chans && ch.bufsize > 0 && ch.asend != [] ==> |ch.buf| == ch.bufsize)
      && (forall ch :: ch in s.chans && ch.bufsize > 0 && ch.arecv != [] ==> ch.buf == [])
      && (forall ch, p, q :: ch in s.chans && ch.bufsize == 0 && p in ch.asend && q in ch.arecv ==> p.t == q.t)
      && (forall t, i :: t in s.blocked && 0 <= i < |s.blocked[t].alts| ==> StuckOrItself(s, t, s.blocked[t].alts[i]))
  {
    RunSound(sizes, run);
    var s := Run(Init(sizes), run);
    forall c | 0 <= c < |s.chans| ensures NothingMissed(s.chans[c]) { }
    forall t, i | t in s.blocked && 0 <= i < |s.blocked[t].alts| && s.blocked[t].alts[i].op != Nop
      ensures var a := s.blocked[t].alts[i]; a.c < |s.chans| && AltRef(t, i) in s.chans[a.c].Queue(a.op)
    {
      var a := s.blocked[t].alts[i];
      assert ValidAlts(s.chans, s.blocked[t].alts);
      assert ExactForAll(s.chans[a.c].Queue(a.op), s.blocked, a.c, a.op);
      assert IsWaiting(s.blocked, AltRef(t, i), a.c, a.op);
    }
  }
}

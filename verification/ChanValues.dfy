/** Which values move, what memory holds afterwards, and what a call of chanalt answers. */
module ChanValues {
  import opened ChanModel
  import opened ChanQueues
  import opened ChanCalls

  // ----- memory -----

  lemma ReadsBack(mem: map<nat, Elem>, v: Ptr, x: Elem, w: Ptr)
    ensures Read(Write(mem, v, x), w) == if w.Ptr? && v == w then x else Read(mem, w)
    ensures w.Ptr? && w.addr in mem ==> Read(mem, w) == mem[w.addr]
    ensures w.Nil? ==> Read(mem, w) == ZERO
  {
  }

  /** Memory changes only where `v` points, and there to `x`. */
  ghost predicate Stored(mem: map<nat, Elem>, mem': map<nat, Elem>, v: Ptr, x: Elem) {
    forall w :: Read(mem', w) == if w.Ptr? && v == w then x else Read(mem, w)
  }

  lemma WriteStores(mem: map<nat, Elem>, v: Ptr, x: Elem)
    ensures Stored(mem, Write(mem, v, x), v, x)
  {
    forall w ensures Read(Write(mem, v, x), w) == if w.Ptr? && v == w then x else Read(mem, w) {
      ReadsBack(mem, v, x, w);
    }
  }

  // ----- altexec -----

  /** A send with nobody waiting puts what its pointer holds at the end of the buffer; a
      receive takes the oldest element to where its pointer points. */
  lemma AltAlone(s: State, id: nat, alts: seq<Alt>, i: nat, k: nat)
    requires Sound(s) && ValidAlts(s.chans, alts) && i < |alts| && CanExec(s.chans, alts[i])
    requires s.chans[alts[i].c].Queue(Other(alts[i].op)) == []
    ensures var s', a := Exec(s, id, alts, i, k), alts[i];
      var buf, buf' := s.chans[a.c].buf, s'.chans[a.c].buf;
      if a.op == Snd then
        buf' == buf + [Read(s.mem, a.v)] && s'.mem == s.mem
        && s'.log == s.log + [Commit(id, i, a.c, Snd, Read(s.mem, a.v))]
      else
        buf == [s'.log[|s.log|].elem] + buf' && Stored(s.mem, s'.mem, a.v, buf[0])
        && s'.log == s.log + [Commit(id, i, a.c, Rcv, buf[0])]
    ensures var s', a := Exec(s, id, alts, i, k), alts[i];
      s'.blocked == s.blocked && s'.runq == s.runq && s'.chans == s.chans[a.c := s'.chans[a.c]]
  {
    var a := alts[i];
    if a.op == Rcv {
      var buf := s.chans[a.c].buf;
      assert buf == [buf[0]] + buf[1..];
      WriteStores(s.mem, a.v, buf[0]);
    }
  }

  /** The pointers of the sender and the receiver when alt `a` meets the waiting alt `b` */
  function SenderOf(a: Alt, b: Alt): Ptr {
    if a.op == Snd then a.v else b.v
  }

  function ReceiverOf(a: Alt, b: Alt): Ptr {
    if a.op == Snd then b.v else a.v
  }

  /** The commits of the two */
  function Sent(id: nat, i: nat, a: Alt, other: Call, p: AltRef, x: Elem): Commit {
    if a.op == Snd then Commit(id, i, a.c, Snd, x) else Commit(other.id, p.i, a.c, Snd, x)
  }

  function Received(id: nat, i: nat, a: Alt, other: Call, p: AltRef, x: Elem): Commit {
    if a.op == Snd then Commit(other.id, p.i, a.c, Rcv, x) else Commit(id, i, a.c, Rcv, x)
  }

  /** With a partner and an empty buffer the value goes straight across. With a full buffer
      the receiver gets the oldest element, and then the sender's value, as it is by then,
      enters at the end. Only the partner goes on the run queue, at its end. */
  lemma AltPaired(s: State, id: nat, i: nat, a: Alt, p: AltRef)
    requires Sound(s) && a.c < |s.chans| && a.op != Nop && CanExec(s.chans, a)
    requires p in s.chans[a.c].Queue(Other(a.op))
    ensures p.t in s.blocked && p.i < |s.blocked[p.t].alts|
    ensures s.blocked[p.t].alts[p.i].op == Other(a.op) && s.blocked[p.t].alts[p.i].c == a.c
    ensures var s' := ExecWith(s, id, i, a, p);
      && s'.blocked == s.blocked - {p.t} && s'.runq == s.runq + [Ready(p.t, s.blocked[p.t].id, p.i)]
      && |s'.chans| == |s.chans| && s'.calls == s.calls
    ensures var s', other := ExecWith(s, id, i, a, p), s.blocked[p.t];
      var buf, b := s.chans[a.c].buf, other.alts[p.i];
      var x := Read(s.mem, SenderOf(a, b));
      buf == [] ==>
        && s'.log == s.log + [Sent(id, i, a, other, p, x), Received(id, i, a, other, p, x)]
        && s'.chans[a.c].buf == [] && Stored(s.mem, s'.mem, ReceiverOf(a, b), x)
    ensures var s', other := ExecWith(s, id, i, a, p), s.blocked[p.t];
      var buf, b := s.chans[a.c].buf, other.alts[p.i];
      var x := Read(s'.mem, SenderOf(a, b));
      buf != [] ==>
        && s'.log == s.log + [Received(id, i, a, other, p, buf[0]), Sent(id, i, a, other, p, x)]
        && buf + [x] == [buf[0]] + s'.chans[a.c].buf && Stored(s.mem, s'.mem, ReceiverOf(a, b), buf[0])
  {
    PartnerIsWaiting(s, a, p);
    ExecWithSound(s, id, i, a, p);
    var s', ch, b := ExecWith(s, id, i, a, p), s.chans[a.c], s.blocked[p.t].alts[p.i];
    var snd, rcv := Some(SenderOf(a, b)), Some(ReceiverOf(a, b));
    var chans1 := s.chans[a.c := ch.(buf := Copy(ch.buf, s.mem, snd, rcv).buf)];
    BufferIsNotQueued(s.chans, s.blocked, a.c, chans1[a.c].buf);
    DequeueAll(chans1, s.blocked, p.t);
    if ch.buf == [] {
      WriteStores(s.mem, ReceiverOf(a, b), Read(s.mem, SenderOf(a, b)));
    } else {
      WriteStores(s.mem, ReceiverOf(a, b), ch.buf[0]);
      assert ch.buf == [ch.buf[0]] + ch.buf[1..];
    }
  }

  /** The alt that `a` meets when rand() yields `k` */
  function Partner(s: State, a: Alt, k: nat): AltRef
    requires a.op != Nop ==> a.c < |s.chans|
    requires a.op != Nop && s.chans[a.c].Queue(Other(a.op)) != []
  {
    var q := s.chans[a.c].Queue(Other(a.op));
    q[k % |q|]
  }

  /** What a commit leaves behind: a receiving alt finds the oldest buffered value, or the
      waiting sender's if the buffer is empty; a sending alt with a waiting receiver has
      handed that receiver its value; and any other sender's value is last in the buffer. */
  lemma CommitDelivers(s: State, id: nat, alts: seq<Alt>, i: nat, k: nat)
    requires Sound(s) && ValidAlts(s.chans, alts) && i < |alts| && CanExec(s.chans, alts[i])
    ensures s.chans[alts[i].c].Queue(Other(alts[i].op)) != [] ==> !Dangling(s, Partner(s, alts[i], k))
    ensures |Exec(s, id, alts, i, k).chans| == |s.chans|
    ensures var s', a, buf := Exec(s, id, alts, i, k), alts[i], s.chans[alts[i].c].buf;
      a.op == Rcv && a.v.Ptr? && buf != [] ==> Read(s'.mem, a.v) == buf[0]
    ensures var s', a := Exec(s, id, alts, i, k), alts[i];
      s.chans[a.c].Queue(Other(a.op)) == [] && a.op == Snd ==>
        s'.chans[a.c].buf == s.chans[a.c].buf + [Read(s.mem, a.v)]
    ensures var s', a, buf := Exec(s, id, alts, i, k), alts[i], s.chans[alts[i].c].buf;
      s.chans[a.c].Queue(Other(a.op)) != [] ==>
        var p := Partner(s, a, k);
        var v := s.blocked[p.t].alts[p.i].v;
        && (a.op == Rcv && a.v.Ptr? && buf == [] ==> Read(s'.mem, a.v) == Read(s.mem, v))
        && (a.op == Rcv && buf != [] ==> [buf[0]] + s'.chans[a.c].buf == buf + [Read(s'.mem, v)])
        && (a.op == Snd && v.Ptr? ==> Read(s'.mem, v) == Read(s.mem, a.v))
  {
    var a := alts[i];
    ExecSound(s, id, alts, i, k);
    if s.chans[a.c].Queue(Other(a.op)) == [] {
      AltAlone(s, id, alts, i, k);
    } else {
      AltPaired(s, id, i, a, Partner(s, a, k));
      assert NothingMissed(s.chans[a.c]);
    }
  }

  // ----- over runs -----

  function PointerOf(s: State, e: Commit): Ptr
    requires e.id < |s.calls| && e.i < |s.calls[e.id]|
  {
    s.calls[e.id][e.i].v
  }

  /** The commits from place `n` of the log on are those of one step from `s`: a received
      value is in memory where the receiver wanted it, and a sent one is what the sender's
      pointer held, at the end of the step if a receiver was served before it. */
  ghost predicate Carried(s: State, s': State) {
    && s.log <= s'.log && (forall n :: 0 <= n < |s'.log| ==> Genuine(s'.calls, s'.log[n]))
    && (forall n :: |s.log| <= n < |s'.log| && s'.log[n].op == Rcv && PointerOf(s', s'.log[n]).Ptr? ==>
          Read(s'.mem, PointerOf(s', s'.log[n])) == s'.log[n].elem)
    && (forall n :: |s.log| <= n < |s'.log| && s'.log[n].op == Snd ==>
          s'.log[n].elem == Read(if n == |s.log| then s.mem else s'.mem, PointerOf(s', s'.log[n])))
  }

  /** A call changes memory only where it receives. */
  ghost predicate OnlyReceived(s: State, s': State)
    requires Carried(s, s')
  {
    forall w :: Read(s'.mem, w) != Read(s.mem, w) ==>
      exists n :: |s.log| <= n < |s'.log| && s'.log[n].op == Rcv && PointerOf(s', s'.log[n]) == w
  }

  lemma TwoCarry(s: State, s': State, e: Commit, f: Commit)
    requires s'.log == s.log + [e, f] && s'.calls == s.calls
    requires forall n :: 0 <= n < |s.log| ==> Genuine(s.calls, s.log[n])
    requires Genuine(s.calls, e) && Genuine(s.calls, f)
    requires if e.op == Snd then
        f.op == Rcv && e.elem == Read(s.mem, PointerOf(s, e)) && Stored(s.mem, s'.mem, PointerOf(s, f), f.elem)
      else
        e.op == Rcv && f.op == Snd && f.elem == Read(s'.mem, PointerOf(s, f))
        && Stored(s.mem, s'.mem, PointerOf(s, e), e.elem)
    ensures Carried(s, s') && OnlyReceived(s, s')
  {
    var n := |s.log|;
    assert s'.log[n] == e && s'.log[n + 1] == f && forall m :: 0 <= m < n ==> s'.log[m] == s.log[m];
    var r := if e.op == Rcv then n else n + 1;
    assert s'.log[r].op == Rcv;
  }

  lemma PairCarries(s: State, id: nat, i: nat, a: Alt, p: AltRef)
    requires Sound(s) && BookedBut(s, id) && id < |s.calls| && i < |s.calls[id]| && s.calls[id][i] == a
    requires a.c < |s.chans| && a.op != Nop && CanExec(s.chans, a) && p in s.chans[a.c].Queue(Other(a.op))
    ensures Carried(s, ExecWith(s, id, i, a, p)) && OnlyReceived(s, ExecWith(s, id, i, a, p))
  {
    AltPaired(s, id, i, a, p);
    assert BlockedOk(s, p.t);
    var s', n := ExecWith(s, id, i, a, p), |s.log|;
    TwoCarry(s, s', s'.log[n], s'.log[n + 1]);
  }

  lemma ExecCarries(s: State, id: nat, i: nat, k: nat)
    requires Sound(s) && BookedBut(s, id) && id < |s.calls| && i < |s.calls[id]|
    requires ValidAlts(s.chans, s.calls[id]) && CanExec(s.chans, s.calls[id][i])
    ensures Carried(s, Exec(s, id, s.calls[id], i, k)) && OnlyReceived(s, Exec(s, id, s.calls[id], i, k))
  {
    var a := s.calls[id][i];
    var q := s.chans[a.c].Queue(Other(a.op));
    if q == [] {
      AltAlone(s, id, s.calls[id], i, k);
      var s', n := Exec(s, id, s.calls[id], i, k), |s.log|;
      assert s'.log == s.log + [s'.log[n]] && Genuine(s'.calls, s'.log[n]);
      assert forall m :: 0 <= m < n ==> s'.log[m] == s.log[m];
      assert Carried(s, s') && PointerOf(s', s'.log[n]) == a.v;
    } else {
      PairCarries(s, id, i, a, q[k % |q|]);
    }
  }

  /** A call that finds an executable alt does what altexec does. */
  lemma CallExecutes(s: State, t: Task, alts: seq<Alt>, canblock: bool, j: nat, k: nat)
    requires !s.aborted && CanRun(s, t) && ValidAlts(s.chans, alts) && CountCan(s.chans, alts) > 0
    ensures var s', i := Step(s, Alts(t, alts, canblock, j, k)), Pick(s.chans, alts, j % CountCan(s.chans, alts));
      var e := Exec(s.(calls := s.calls + [alts]), |s.calls|, alts, i, k);
      && s'.log == e.log && s'.mem == e.mem && s'.calls == e.calls && s'.runq == e.runq && s'.chans == e.chans
      && s'.blocked == e.blocked && s'.status == e.status[|s.calls| := Returned(i)]
  {
  }

  lemma CallCarries(s: State, t: Task, alts: seq<Alt>, canblock: bool, j: nat, k: nat)
    requires Sound(s) && Booked(s) && CanRun(s, t) && ValidAlts(s.chans, alts) && CountCan(s.chans, alts) > 0
    ensures var s' := Step(s, Alts(t, alts, canblock, j, k)); Carried(s, s') && OnlyReceived(s, s')
  {
    OpenCall(s, alts);
    CallExecutes(s, t, alts, canblock, j, k);
    var s1, i := s.(calls := s.calls + [alts]), Pick(s.chans, alts, j % CountCan(s.chans, alts));
    ExecCarries(s1, |s.calls|, i, k);
    SameCarried(s, Step(s, Alts(t, alts, canblock, j, k)), s1, Exec(s1, |s.calls|, alts, i, k));
  }

  lemma SameCarried(s: State, s': State, s1: State, e: State)
    requires s1.log == s.log && s1.mem == s.mem && e.log == s'.log && e.mem == s'.mem && e.calls == s'.calls
    requires Carried(s1, e) && OnlyReceived(s1, e)
    ensures Carried(s, s') && OnlyReceived(s, s')
  {
    forall w | Read(s'.mem, w) != Read(s.mem, w)
      ensures exists n :: |s.log| <= n < |s'.log| && s'.log[n].op == Rcv && PointerOf(s', s'.log[n]) == w
    {
      var n :| |s1.log| <= n < |e.log| && e.log[n].op == Rcv && PointerOf(e, e.log[n]) == w;
      assert s'.log[n].op == Rcv && PointerOf(s', s'.log[n]) == w;
    }
  }

  /** Steps that commit nothing */
  lemma NothingCarried(s: State, l: Label)
    requires Sound(s) && Booked(s)
    requires l.Alts? && CanRun(s, l.t) && ValidAlts(s.chans, l.alts) ==> CountCan(s.chans, l.alts) == 0
    ensures Step(s, l).log == s.log && s.calls <= Step(s, l).calls && (!l.Poke? ==> Step(s, l).mem == s.mem)
  {
  }

  lemma NoneCarries(s: State, s': State)
    requires Booked(s) && s'.log == s.log && s.calls <= s'.calls
    ensures Carried(s, s') && (s'.mem == s.mem ==> OnlyReceived(s, s'))
  {
    forall n | 0 <= n < |s'.log| ensures Genuine(s'.calls, s'.log[n]) { assert Genuine(s.calls, s.log[n]); }
  }

  /** In every run, at every step: sent values come from the senders' memory, received values
      are in the receivers' memory when the step is over, and no other memory changes but
      where a task writes. */
  lemma ValuesAreCarried(sizes: seq<nat>, run: seq<Label>, l: Label)
    ensures var s := Run(Init(sizes), run); var s' := Step(s, l);
      Carried(s, s') && if l.Poke? then Stored(s.mem, s'.mem, Ptr(l.addr), l.x) else OnlyReceived(s, s')
  {
    var s := Run(Init(sizes), run);
    RunSound(sizes, run);
    RunBooked(sizes, run);
    if l.Alts? && CanRun(s, l.t) && ValidAlts(s.chans, l.alts) && CountCan(s.chans, l.alts) > 0 {
      CallCarries(s, l.t, l.alts, l.canblock, l.j, l.k);
    } else {
      NothingCarried(s, l);
      NoneCarries(s, Step(s, l));
      if l.Poke? { WriteStores(s.mem, Ptr(l.addr), l.x); }
    }
  }

  // ----- what a call answers -----

  lemma {:induction false} SomeCan(chans: seq<Chan>, alts: seq<Alt>)
    requires ValidAlts(chans, alts)
    ensures CountCan(chans, alts) > 0 <==> exists i :: 0 <= i < |alts| && CanExec(chans, alts[i])
  {
    if CountCan(chans, alts) > 0 {
      var i := Pick(chans, alts, 0);
      assert CanExec(chans, alts[i]);
    } else {
      forall i | 0 <= i < |alts| ensures !CanExec(chans, alts[i]) { NoneCan(chans, alts, i); }
    }
  }

  /** Whether alt `a` could move a value now: a buffered channel has room for a send or an
      element for a receive, an unbuffered one has somebody waiting at the other end. */
  ghost predicate CouldMove(s: State, a: Alt)
    requires a.op != Nop ==> a.c < |s.chans|
  {
    && (a.op == Snd ==> if s.chans[a.c].bufsize > 0 then |s.chans[a.c].buf| < s.chans[a.c].bufsize
                        else exists t, i :: IsWaiting(s.blocked, AltRef(t, i), a.c, Rcv))
    && (a.op == Rcv ==> if s.chans[a.c].bufsize > 0 then s.chans[a.c].buf != []
                        else exists t, i :: IsWaiting(s.blocked, AltRef(t, i), a.c, Snd))
    && a.op != Nop
  }

  lemma CanExecMeans(s: State, a: Alt)
    requires Sound(s) && (a.op != Nop ==> a.c < |s.chans|)
    ensures CanExec(s.chans, a) <==> CouldMove(s, a)
  {
    if a.op != Nop && s.chans[a.c].bufsize == 0 {
      var q := s.chans[a.c].Queue(Other(a.op));
      assert ExactForAll(q, s.blocked, a.c, Other(a.op));
      if q != [] { assert q[0] in q && IsWaiting(s.blocked, AltRef(q[0].t, q[0].i), a.c, Other(a.op)); }
    }
  }

  /** In every run, a call returns at once with an alt that could move a value, the one that
      the random number selects among these, exactly if there is one; if there is none, it
      refuses exactly if it may not block, and waits otherwise. */
  lemma CallAnswers(sizes: seq<nat>, run: seq<Label>, t: Task, alts: seq<Alt>, canblock: bool, j: nat, k: nat)
    requires var s := Run(Init(sizes), run); CanRun(s, t) && ValidAlts(s.chans, alts)
    ensures var s := Run(Init(sizes), run);
      var s', ready := Step(s, Alts(t, alts, canblock, j, k)), exists i :: 0 <= i < |alts| && CouldMove(s, alts[i]);
      && s'.calls == s.calls + [alts] && |s.calls| in s'.status
      && var st := s'.status[|s.calls|];
         if ready then
           CountCan(s.chans, alts) > 0 && st.Returned? && st.i < |alts| && CouldMove(s, alts[st.i])
           && CountCan(s.chans, alts[..st.i]) == j % CountCan(s.chans, alts) && t !in s'.blocked
         else if canblock then st == Waiting(t) && t in s'.blocked && s'.blocked[t] == Call(|s.calls|, alts)
         else st == WouldBlock && s'.blocked == s.blocked && s'.chans == s.chans && s'.log == s.log
  {
    var s := Run(Init(sizes), run);
    RunSound(sizes, run);
    SomeCan(s.chans, alts);
    forall i | 0 <= i < |alts| ensures CanExec(s.chans, alts[i]) <==> CouldMove(s, alts[i]) {
      CanExecMeans(s, alts[i]);
    }
    var ncan := CountCan(s.chans, alts);
    if ncan > 0 {
      var i := Pick(s.chans, alts, j % ncan);
      CallExecutes(s, t, alts, canblock, j, k);
      ExecStays(s.(calls := s.calls + [alts]), |s.calls|, alts, i, k);
      assert CanExec(s.chans, alts[i]);
    }
  }

  /** altexec blocks nobody and makes no call. */
  lemma ExecStays(s: State, id: nat, alts: seq<Alt>, i: nat, k: nat)
    requires Sound(s) && ValidAlts(s.chans, alts) && i < |alts| && CanExec(s.chans, alts[i])
    ensures var s' := Exec(s, id, alts, i, k); s'.calls == s.calls && s'.blocked.Keys <= s.blocked.Keys
    ensures s.runq <= Exec(s, id, alts, i, k).runq
  {
    var a := alts[i];
    var q := s.chans[a.c].Queue(Other(a.op));
    if q != [] { AltPaired(s, id, i, a, q[k % |q|]); }
  }

  /** Woken tasks are resumed in the order in which they were woken, and a resumed call
      returns the index that was committed. */
  lemma ResumedInOrder(sizes: seq<nat>, run: seq<Label>, l: Label)
    ensures var s := Run(Init(sizes), run); var s' := Step(s, l);
      if l.Dispatch? && s.runq != [] then
        s.runq == [s.runq[0]] + s'.runq && s'.status == s.status[s.runq[0].id := Returned(s.runq[0].i)]
      else s.runq <= s'.runq
  {
    RunSound(sizes, run);
    StepInOrder(Run(Init(sizes), run), l);
  }

  lemma StepInOrder(s: State, l: Label)
    requires Sound(s)
    ensures var s' := Step(s, l);
      if l.Dispatch? && s.runq != [] then
        s.runq == [s.runq[0]] + s'.runq && s'.status == s.status[s.runq[0].id := Returned(s.runq[0].i)]
      else s.runq <= s'.runq
  {
    if l.Alts? {
      if CanRun(s, l.t) && ValidAlts(s.chans, l.alts) && CountCan(s.chans, l.alts) > 0 {
        CallExecutes(s, l.t, l.alts, l.canblock, l.j, l.k);
        var i := Pick(s.chans, l.alts, l.j % CountCan(s.chans, l.alts));
        ExecStays(s.(calls := s.calls + [l.alts]), |s.calls|, l.alts, i, l.k);
      } else {
        assert Step(s, l).runq == s.runq;
      }
    }
  }

  // ----- the sizes of channels -----

  ghost predicate Sized(chans: seq<Chan>, sizes: seq<nat>) {
    |chans| == |sizes| && forall c :: 0 <= c < |sizes| ==> chans[c].bufsize == sizes[c] && |chans[c].buf| <= sizes[c]
  }

  lemma ExecWithSized(s: State, id: nat, i: nat, a: Alt, p: AltRef, sizes: seq<nat>)
    requires Sound(s) && a.c < |s.chans| && a.op != Nop && CanExec(s.chans, a) && Sized(s.chans, sizes)
    requires p in s.chans[a.c].Queue(Other(a.op))
    ensures Sized(ExecWith(s, id, i, a, p).chans, sizes)
  {
    AltPaired(s, id, i, a, p);
    ExecWithSound(s, id, i, a, p);
    var ch, b := s.chans[a.c], s.blocked[p.t].alts[p.i];
    var r := Copy(ch.buf, s.mem, Some(SenderOf(a, b)), Some(ReceiverOf(a, b)));
    var chans1 := s.chans[a.c := ch.(buf := r.buf)];
    BufferIsNotQueued(s.chans, s.blocked, a.c, r.buf);
    DequeueAll(chans1, s.blocked, p.t);
    forall c | 0 <= c < |sizes|
      ensures var x := ExecWith(s, id, i, a, p).chans[c]; x.bufsize == sizes[c] && |x.buf| <= sizes[c]
    {
      assert NothingMissed(ExecWith(s, id, i, a, p).chans[c]);
    }
  }

  lemma StepSized(s: State, l: Label, sizes: seq<nat>)
    requires Sound(s) && Sized(s.chans, sizes)
    ensures Sized(Step(s, l).chans, sizes)
  {
    if l.Alts? && CanRun(s, l.t) && ValidAlts(s.chans, l.alts) {
      var ncan, s1 := CountCan(s.chans, l.alts), s.(calls := s.calls + [l.alts]);
      if ncan > 0 {
        var i := Pick(s.chans, l.alts, l.j % ncan);
        var a := l.alts[i];
        var q := s.chans[a.c].Queue(Other(a.op));
        if q != [] { ExecWithSized(s1, |s.calls|, i, a, q[l.k % |q|], sizes); }
      } else if l.canblock {
        QueueAll(s.chans, s.blocked, l.t, Call(|s.calls|, l.alts));
      }
    }
  }

  /** In every run a channel keeps its size and never holds more. */
  lemma {:induction false} SizesStay(sizes: seq<nat>, run: seq<Label>)
    ensures Sized(Run(Init(sizes), run).chans, sizes)
  {
    if run != [] {
      RunSound(sizes, run[..|run| - 1]);
      SizesStay(sizes, run[..|run| - 1]);
      StepSized(Run(Init(sizes), run[..|run| - 1]), run[|run| - 1], sizes);
    }
  }
}

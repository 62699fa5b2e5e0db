/** channel.c in its own form: channels with a ring buffer and wait arrays that are updated
    in place. Each method is proved against the state machine. */
module Channels {
  import opened ChanModel
  import opened ChanQueues

  /** The `n` elements of the ring `a` from position `off` on. */
  function Window(a: seq<Elem>, off: nat, n: nat): (w: seq<Elem>)
    requires n <= |a| && (off < |a| || off == n == 0)
    ensures |w| == n
  {
    seq(n, k requires 0 <= k < n => a[(off + k) % |a|])
  }

  lemma ModSmall(x: nat, n: nat)
    requires 0 < n && x < 2 * n
    ensures x % n == if x < n then x else x - n
  {
  }

  lemma WindowTake(a: seq<Elem>, off: nat, n: nat)
    requires 0 < n <= |a| && off < |a|
    ensures Window(a, off, n) == [a[off]] + Window(a, if off + 1 == |a| then 0 else off + 1, n - 1)
  {
    var off' := if off + 1 == |a| then 0 else off + 1;
    forall k | 0 <= k < n ensures Window(a, off, n)[k] == ([a[off]] + Window(a, off', n - 1))[k] {
      ModSmall(off + k, |a|);
      if k > 0 { ModSmall(off' + k - 1, |a|); }
    }
  }

  lemma WindowPut(a: seq<Elem>, off: nat, n: nat, x: Elem)
    requires n < |a| && off < |a|
    ensures Window(a[(off + n) % |a| := x], off, n + 1) == Window(a, off, n) + [x]
  {
    ModSmall(off + n, |a|);
    forall k | 0 <= k < n + 1
      ensures Window(a[(off + n) % |a| := x], off, n + 1)[k] == (Window(a, off, n) + [x])[k]
    {
      ModSmall(off + k, |a|);
    }
  }

  class Channel {
    const bufsize: nat
    const buf: array<Elem>
    var nbuf: nat
    var off: nat
    var asend: seq<AltRef>
    var arecv: seq<AltRef>

    ghost predicate Valid()
      reads this
    {
      buf.Length == bufsize && nbuf <= bufsize && (if bufsize == 0 then off == 0 else off < bufsize)
    }

    /** The buffered elements, oldest first. */
    ghost function Contents(): (s: seq<Elem>)
      requires Valid()
      reads this, buf
    {
      Window(buf[..], off, nbuf)
    }

    ghost function Abs(): Chan
      requires Valid()
      reads this, buf
    {
      Chan(bufsize, Contents(), asend, arecv)
    }

    /** chancreate */
    constructor (bufsize: nat)
      ensures Valid() && Abs() == Chan(bufsize, [], [], []) && fresh(buf)
    {
      this.bufsize := bufsize;
      buf := new Elem[bufsize];
      nbuf, off := 0, 0;
      asend, arecv := [], [];
    }

    /** The front half of altcopy: the receiver removes the oldest element. */
    method Take() returns (x: Elem)
      requires Valid() && nbuf > 0
      modifies this`nbuf, this`off
      ensures Valid() && old(Contents()) == [x] + Contents()
    {
      WindowTake(buf[..], off, nbuf);
      x := buf[off];
      nbuf := nbuf - 1;
      off := off + 1;
      if off == bufsize {
        off := 0;
      }
    }

    /** The back half: the sender puts an element in. */
    method Put(x: Elem)
      requires Valid() && nbuf < bufsize
      modifies this`nbuf, buf
      ensures Valid() && Contents() == old(Contents()) + [x]
    {
      WindowPut(buf[..], off, nbuf, x);
      ghost var after := buf[..][(off + nbuf) % bufsize := x];
      buf[(off + nbuf) % bufsize] := x;
      assert buf[..] == after;
      nbuf := nbuf + 1;
    }

    function Queue(op: Op): seq<AltRef>
      reads this
    {
      match op case Snd => asend case Rcv => arecv case Nop => []
    }

    /** altcanexec */
    predicate AltCanExec(op: Op)
      reads this
    {
      op != Nop &&
      if bufsize == 0 then Queue(Other(op)) != []
      else match op case Snd => nbuf < bufsize case Rcv => nbuf > 0
    }

    /** altqueue with addarray */
    method AltQueue(op: Op, p: AltRef)
      requires Valid() && op != Nop
      modifies this`asend, this`arecv
      ensures Valid() && Abs() == old(Abs()).WithQueue(op, old(Queue(op)) + [p])
    {
      if op == Snd {
        asend := asend + [p];
      } else {
        arecv := arecv + [p];
      }
    }

    /** altdequeue with delarray; a missing entry is where the source aborts. */
    method AltDequeue(op: Op, p: AltRef) returns (found: bool)
      requires Valid() && op != Nop
      modifies this`asend, this`arecv
      ensures found <==> p in old(Queue(op))
      ensures Valid() && Abs() ==
        if found then old(Abs()).WithQueue(op, DelArray(old(Queue(op)), IndexOf(old(Queue(op)), p))) else old(Abs())
    {
      var a := Queue(op);
      var i := 0;
      while i < |a|
        invariant 0 <= i <= |a| && p !in a[..i]
      {
        if a[i] == p {
          IndexIs(a, p, i);
          var n := |a| - 1;
          a := a[i := a[n]][..n];
          if op == Snd { asend := a; } else { arecv := a; }
          return true;
        }
        i := i + 1;
      }
      return false;
    }
  }

  lemma {:induction false} IndexIs(q: seq<AltRef>, p: AltRef, i: nat)
    requires i < |q| && q[i] == p && p !in q[..i]
    ensures IndexOf(q, p) == i
  {
    if i > 0 {
      assert q[0] in q[..i];
      assert forall k :: 0 <= k < i - 1 ==> q[1..][k] == q[..i][k + 1];
      IndexIs(q[1..], p, i - 1);
    }
  }

  // A marker without content: what is stated for all marked numbers stays folded until a
  // proof writes the mark.
  ghost predicate Unfold(i: int) { true }

  /** The invariant of the state machine. */
  ghost predicate Inv(s: State) {
    forall i {:trigger Unfold(i)} :: Unfold(i) ==> Sound(s)
  }

  /** What altexec may rely on: the alt's channel has data or room when the alt is tried
      alone, and a waiting partner exists and is dequeued without abort. */
  lemma InvServes(s: State, id: nat, alts: seq<Alt>, i: nat, k: nat)
    requires Inv(s) && ValidAlts(s.chans, alts) && i < |alts| && CanExec(s.chans, alts[i])
    ensures var a := alts[i];
      var ch := s.chans[a.c];
      a.op == Rcv && ch.asend == [] ==> ch.buf != []
    ensures var a := alts[i];
      var ch := s.chans[a.c];
      a.op == Snd && ch.arecv == [] ==> |ch.buf| < ch.bufsize
  {
  }

  lemma InvServesPair(s: State, id: nat, i: nat, a: Alt, p: AltRef)
    requires Inv(s) && a.c < |s.chans| && a.op != Nop && CanExec(s.chans, a)
    requires p in s.chans[a.c].Queue(Other(a.op))
    ensures !Dangling(s, p) && Inv(ExecWith(s, id, i, a, p)) && !ExecWith(s, id, i, a, p).aborted
    ensures |s.chans[a.c].buf| != 0 ==> a.op == Rcv
    ensures |ExecWith(s, id, i, a, p).chans| == |s.chans|
  {
    assert Unfold(0);
    ExecWithSound(s, id, i, a, p);
    PartnerIsWaiting(s, a, p);
    assert NothingMissed(s.chans[a.c]);
  }

  lemma InvChanAlt(s: State, t: Task, alts: seq<Alt>, canblock: bool, j: nat, k: nat)
    requires Inv(s) && ValidAlts(s.chans, alts) && CanRun(s, t)
    ensures Inv(ChanModel.ChanAlt(s, t, alts, canblock, j, k)) && Inv(s.(calls := s.calls + [alts]))
  {
    assert Unfold(0);
    ChanAltSound(s, t, alts, canblock, j, k);
  }

  lemma InvResume(s: State)
    requires Inv(s) && s.runq != []
    ensures Inv(Resume(s))
  {
    assert Unfold(0);
    SoundIgnores(s, Resume(s));
  }

  // How the branches of chanalt and altexec end, as whole states.

  lemma EndsReturning(s: State, t: Task, alts: seq<Alt>, canblock: bool, j: nat, k: nat, i: nat, s2: State)
    requires ValidAlts(s.chans, alts) && CountCan(s.chans, alts) > 0
    requires i == Pick(s.chans, alts, j % CountCan(s.chans, alts))
    requires s2 == Exec(s.(calls := s.calls + [alts]), |s.calls|, alts, i, k)
    ensures ChanModel.ChanAlt(s, t, alts, canblock, j, k) == s2.(status := s2.status[|s.calls| := Returned(i)])
  {
  }

  lemma EndsRefusing(s: State, t: Task, alts: seq<Alt>, j: nat, k: nat)
    requires ValidAlts(s.chans, alts) && CountCan(s.chans, alts) == 0
    ensures ChanModel.ChanAlt(s, t, alts, false, j, k) ==
      s.(calls := s.calls + [alts], status := s.status[|s.calls| := WouldBlock])
  {
  }

  lemma EndsWaiting(s: State, t: Task, alts: seq<Alt>, j: nat, k: nat)
    requires ValidAlts(s.chans, alts) && CountCan(s.chans, alts) == 0
    ensures ChanModel.ChanAlt(s, t, alts, true, j, k) ==
      s.(calls := s.calls + [alts], chans := QueueFrom(s.chans, t, alts, 0),
         blocked := s.blocked[t := Call(|s.calls|, alts)], status := s.status[|s.calls| := Waiting(t)])
  {
  }

  lemma EndsPaired(s: State, id: nat, i: nat, a: Alt, p: AltRef, snd: Side, rcv: Side, r: Copied, chans: seq<Chan>,
      log: seq<Commit>)
    requires a.c < |s.chans| && a.op != Nop && !Dangling(s, p)
    requires var b := s.blocked[p.t].alts[p.i];
      if a.op == Snd then snd == Some(a.v) && rcv == Some(b.v) else snd == Some(b.v) && rcv == Some(a.v)
    requires r == Copy(s.chans[a.c].buf, s.mem, snd, rcv)
    requires DequeueFrom(s.chans[a.c := s.chans[a.c].(buf := r.buf)], p.t, s.blocked[p.t].alts, 0) == Ok(chans)
    requires var call := s.blocked[p.t];
      var sender := if a.op == Snd then Commit(id, i, a.c, Snd, r.sent) else Commit(call.id, p.i, a.c, Snd, r.sent);
      var receiver := if a.op == Snd then Commit(call.id, p.i, a.c, Rcv, r.received)
        else Commit(id, i, a.c, Rcv, r.received);
      log == s.log + if s.chans[a.c].buf == [] then [sender, receiver] else [receiver, sender]
    ensures ExecWith(s, id, i, a, p) ==
      s.(chans := chans, mem := r.mem, blocked := s.blocked - {p.t},
         runq := s.runq + [Ready(p.t, s.blocked[p.t].id, p.i)],
         status := s.status[s.blocked[p.t].id := Woken(p.t, p.i)], log := log)
  {
  }

  /** An alt array on the stack of the task that called chanalt; `xalt` is a[0].xalt - a. */
  datatype Frame = Frame(id: nat, alts: seq<Alt>, xalt: nat)

  /** The frames are those of the blocked calls and of the tasks made ready; in these, xalt is
      the alt that was committed. */
  ghost predicate FramesOk(stacks: map<Task, Frame>, runq: seq<Task>, blocked: map<Task, Call>, ready: seq<Ready>) {
    forall i {:trigger Unfold(i)} :: Unfold(i) ==>
      && (forall t :: t in blocked ==> t in stacks && Call(stacks[t].id, stacks[t].alts) == blocked[t])
      && |ready| == |runq|
      && (forall n :: 0 <= n < |runq| ==>
        runq[n] in stacks && ready[n] == Ready(runq[n], stacks[runq[n]].id, stacks[runq[n]].xalt))
      && (forall n :: 0 <= n < |runq| ==> runq[n] !in blocked)
      && (forall m, n :: 0 <= m < n < |runq| ==> runq[m] != runq[n])
  }

  lemma NoFrames()
    ensures FramesOk(map[], [], map[], [])
  {
  }

  lemma FrameOf(stacks: map<Task, Frame>, runq: seq<Task>, blocked: map<Task, Call>, ready: seq<Ready>, t: Task)
    requires FramesOk(stacks, runq, blocked, ready) && t in blocked
    ensures t in stacks && stacks[t].id == blocked[t].id && stacks[t].alts == blocked[t].alts
  {
    assert Unfold(0);
  }

  lemma FrameParks(stacks: map<Task, Frame>, runq: seq<Task>, blocked: map<Task, Call>, ready: seq<Ready>, t: Task,
      f: Frame)
    requires FramesOk(stacks, runq, blocked, ready) && t !in blocked && forall n :: 0 <= n < |ready| ==> ready[n].t != t
    ensures FramesOk(stacks[t := f], runq, blocked[t := Call(f.id, f.alts)], ready)
  {
    assert Unfold(0);
    assert forall n :: 0 <= n < |runq| ==> ready[n].t == runq[n] != t;
  }

  lemma FrameWakes(stacks: map<Task, Frame>, runq: seq<Task>, blocked: map<Task, Call>, ready: seq<Ready>, t: Task,
      i: nat)
    requires FramesOk(stacks, runq, blocked, ready) && t in blocked && t in stacks
    ensures FramesOk(stacks[t := stacks[t].(xalt := i)], runq + [t], blocked - {t},
      ready + [Ready(t, blocked[t].id, i)])
  {
    assert Unfold(0);
  }

  lemma FrameReturns(stacks: map<Task, Frame>, runq: seq<Task>, blocked: map<Task, Call>, ready: seq<Ready>)
    requires FramesOk(stacks, runq, blocked, ready) && ready != []
    ensures runq != [] && runq[0] in stacks && ready[0] == Ready(runq[0], stacks[runq[0]].id, stacks[runq[0]].xalt)
    ensures FramesOk(stacks - {runq[0]}, runq[1..], blocked, ready[1..])
  {
    assert Unfold(0);
  }

  /** The global side of channel.c: memory, the alt arrays on the stacks of blocked tasks
      and the run queue that taskready appends to. */
  class Runtime {
    const chans: seq<Channel>
    var stacks: map<Task, Frame>
    var runq: seq<Task>
    var mem: map<nat, Elem>
    var calls: seq<seq<Alt>>  // numbers the calls; the source keeps no such record
    ghost var blocked: map<Task, Call>
    ghost var ready: seq<Ready>
    ghost var status: map<nat, Status>
    ghost var log: seq<Commit>

    ghost predicate Valid()
      reads this, chans
    {
      && (forall i :: 0 <= i < |chans| ==> chans[i].Valid())
      && (forall i, j :: 0 <= i < j < |chans| ==> chans[i] != chans[j] && chans[i].buf != chans[j].buf)
      && FramesOk(stacks, runq, blocked, ready)
    }

    ghost function Buffers(): set<object> {
      set c: Channel | c in chans :: c.buf
    }

    ghost function AbsChans(): (r: seq<Chan>)
      requires Valid()
      reads this, chans, Buffers()
      ensures |r| == |chans|
    {
      seq(|chans|, i requires 0 <= i < |chans| && chans[i].Valid() reads this, chans, Buffers() => chans[i].Abs())
    }

    ghost function Abs(): State
      requires Valid()
      reads this, chans, Buffers()
    {
      State(AbsChans(), blocked, ready, mem, calls, status, log, false)
    }

    /** chancreate, once for every size */
    constructor (sizes: seq<nat>)
      ensures Valid() && fresh(chans) && fresh(Buffers()) && Abs() == Init(sizes) && Inv(Abs())
    {
      var cs: seq<Channel> := [];
      for n := 0 to |sizes|
        invariant |cs| == n && fresh(cs)
        invariant forall i :: 0 <= i < n ==>
          cs[i].Valid() && cs[i].Abs() == Chan(sizes[i], [], [], []) && fresh(cs[i].buf)
        invariant forall i, j :: 0 <= i < j < n ==> cs[i] != cs[j] && cs[i].buf != cs[j].buf
      {
        var c := new Channel(sizes[n]);
        cs := cs + [c];
      }
      chans := cs;
      stacks, runq, mem := map[], [], map[];
      blocked, ready := map[], [];
      calls, status, log := [], map[], [];
      NoFrames();
      new;
      assert |AbsChans()| == |sizes| && forall i :: 0 <= i < |sizes| ==> AbsChans()[i] == Chan(sizes[i], [], [], []);
      assert AbsChans() == Init(sizes).chans;
    }

    /** altcopy */
    method AltCopy(c: Channel, s: Side, r: Side) returns (sent: Elem, received: Elem)
      requires c.Valid() && (r.Some? && s.None? ==> c.nbuf > 0)
      requires s.Some? && !(r.Some? && c.nbuf == 0) ==> r.Some? || c.nbuf < c.bufsize
      modifies this`mem, c`nbuf, c`off, c.buf
      ensures c.Valid() && Copied(c.Contents(), mem, sent, received) == Copy(old(c.Contents()), old(mem), s, r)
    {
      sent, received := ZERO, ZERO;
      if s.Some? && r.Some? && c.nbuf == 0 {
        sent := Read(mem, s.v);
        received := sent;
        mem := Write(mem, r.v, sent);
        return;
      }
      if r.Some? {
        received := c.Take();
        mem := Write(mem, r.v, received);
      }
      if s.Some? {
        sent := Read(mem, s.v);
        c.Put(sent);
      }
    }

    /** altcopy on channel `k`, seen from the whole state */
    method CopyOn(k: nat, s: Side, r: Side) returns (sent: Elem, received: Elem)
      requires Valid() && k < |chans| && (r.Some? && s.None? ==> chans[k].nbuf > 0)
      requires s.Some? && !(r.Some? && chans[k].nbuf == 0) ==> r.Some? || chans[k].nbuf < chans[k].bufsize
      modifies this`mem, chans, Buffers()
      ensures Valid() && sent == Copy(old(AbsChans())[k].buf, old(mem), s, r).sent
      ensures received == Copy(old(AbsChans())[k].buf, old(mem), s, r).received
      ensures mem == Copy(old(AbsChans())[k].buf, old(mem), s, r).mem
      ensures AbsChans() == old(AbsChans())[k := old(AbsChans())[k].(
        buf := Copy(old(AbsChans())[k].buf, old(mem), s, r).buf)]
    {
      sent, received := AltCopy(chans[k], s, r);
      OnlyChannel(k);
    }

    /** Changing one channel changes one entry of the abstract state. */
    twostate lemma OnlyChannel(k: nat)
      requires old(Valid()) && FramesOk(stacks, runq, blocked, ready) && k < |chans| && chans[k].Valid()
      requires forall i :: 0 <= i < |chans| && i != k ==> unchanged(chans[i]) && unchanged(chans[i].buf)
      ensures Valid() && AbsChans() == old(AbsChans())[k := chans[k].Abs()]
    {
    }

    /** altalldequeue; `ok` is false where the source aborts. */
    method AltAllDequeue(t: Task, alts: seq<Alt>) returns (ok: bool)
      requires Valid() && ValidAlts(AbsChans(), alts)
      modifies chans
      ensures Valid() && DequeueFrom(old(AbsChans()), t, alts, 0) == if ok then Ok(AbsChans()) else Aborted
    {
      ghost var goal := DequeueFrom(AbsChans(), t, alts, 0);
      for i := 0 to |alts|
        invariant Valid() && DequeueFrom(AbsChans(), t, alts, i) == goal
      {
        if alts[i].op != Nop {
          ghost var before := AbsChans();
          label L:
          var found := chans[alts[i].c].AltDequeue(alts[i].op, AltRef(t, i));
          OnlyChannel@L(alts[i].c);
          if !found {
            return false;
          }
        }
      }
      return true;
    }

    /** Records what became of a call. */
    ghost method Settle(id: nat, st: Status)
      requires Valid()
      modifies this`status
      ensures Valid() && Abs() == old(Abs()).(status := old(status)[id := st])
    {
      status := status[id := st];
    }

    /** The task switch of chanalt: the call stays on the task's stack. */
    method Park(t: Task, id: nat, alts: seq<Alt>)
      requires Valid() && t !in blocked && forall n :: 0 <= n < |ready| ==> ready[n].t != t
      modifies this`stacks, this`blocked, this`status
      ensures Valid()
      ensures Abs() == old(Abs()).(blocked := old(blocked)[t := Call(id, alts)],
        status := old(status)[id := Waiting(t)])
    {
      FrameParks(stacks, runq, blocked, ready, t, Frame(id, alts, 0));
      stacks := stacks[t := Frame(id, alts, 0)];
      blocked := blocked[t := Call(id, alts)];
      status := status[id := Waiting(t)];
    }

    /** The partner's call is over: its first alt records which one was committed, and its task
        goes on the run queue. */
    method Wake(p: AltRef, ghost id: nat, ghost entries: seq<Commit>)
      requires Valid() && p.t in blocked && blocked[p.t].id == id
      modifies this`stacks, this`runq, this`blocked, this`ready, this`status, this`log
      ensures Valid()
      ensures Abs() == old(Abs()).(blocked := old(blocked) - {p.t}, runq := old(ready) + [Ready(p.t, id, p.i)],
                                   status := old(status)[id := Woken(p.t, p.i)], log := old(log) + entries)
    {
      FrameOf(stacks, runq, blocked, ready, p.t);
      FrameWakes(stacks, runq, blocked, ready, p.t, p.i);
      stacks := stacks[p.t := stacks[p.t].(xalt := p.i)];
      runq := runq + [p.t];
      blocked, ready := blocked - {p.t}, ready + [Ready(p.t, id, p.i)];
      status := status[id := Woken(p.t, p.i)];
      log := log + entries;
    }

    /** altexec on alt `i`; `k` is the outcome of rand(). Under the invariant the partner
        exists and altalldequeue does not abort. */
    method AltExec(id: nat, alts: seq<Alt>, i: nat, k: nat)
      requires Valid() && Inv(Abs()) && ValidAlts(AbsChans(), alts) && i < |alts| && CanExec(AbsChans(), alts[i])
      modifies this, chans, Buffers()
      ensures Valid() && Abs() == Exec(old(Abs()), id, alts, i, k)
    {
      ghost var s := Abs();
      var a := alts[i];
      InvServes(s, id, alts, i, k);
      var q := chans[a.c].Queue(Other(a.op));
      if q != [] {
        Pair(id, i, a, q[k % |q|]);
      } else {
        var sent, received := CopyOn(a.c, SideOf(Snd, a), SideOf(Rcv, a));
        log := log + [Commit(id, i, a.c, a.op, if a.op == Snd then sent else received)];
      }
    }

    /** The branch of altexec with a waiting partner. */
    method Pair(id: nat, i: nat, a: Alt, p: AltRef)
      requires Valid() && Inv(Abs()) && a.op != Nop && a.c < |chans| && CanExec(AbsChans(), a)
      requires p in chans[a.c].Queue(Other(a.op))
      modifies this, chans, Buffers()
      ensures Valid() && Abs() == ExecWith(old(Abs()), id, i, a, p)
    {
      ghost var s := Abs();
      InvServesPair(s, id, i, a, p);
      FrameOf(stacks, runq, blocked, ready, p.t);
      var call := stacks[p.t];
      var b := call.alts[p.i];
      ghost var direct := chans[a.c].nbuf == 0;
      var snd, rcv := Some(if a.op == Snd then a.v else b.v), Some(if a.op == Snd then b.v else a.v);
      ghost var copied := Copy(s.chans[a.c].buf, s.mem, snd, rcv);
      var sent, received := CopyOn(a.c, snd, rcv);
      var ok := AltAllDequeue(p.t, call.alts);
      assert ok;
      ghost var cs := AbsChans();
      ghost var sender := if a.op == Snd then Commit(id, i, a.c, Snd, sent) else Commit(call.id, p.i, a.c, Snd, sent);
      ghost var receiver := if a.op == Snd then Commit(call.id, p.i, a.c, Rcv, received)
        else Commit(id, i, a.c, Rcv, received);
      ghost var s2 := Abs();
      assert s2 == s.(chans := cs, mem := copied.mem);
      ghost var entries := if direct then [sender, receiver] else [receiver, sender];
      Wake(p, call.id, entries);
      EndsPaired(s, id, i, a, p, snd, rcv, copied, cs, s.log + entries);
    }

    /** chanalt's first loop */
    method Count(alts: seq<Alt>) returns (ncan: nat)
      requires Valid() && ValidAlts(AbsChans(), alts)
      ensures AbsChans() == old(AbsChans()) && ncan == CountCan(old(AbsChans()), alts)
    {
      ghost var cs := AbsChans();
      ncan := 0;
      for i := 0 to |alts|
        invariant ncan == CountCan(cs, alts[..i])
      {
        CanNowIsCanExec(alts[i]);
        CountOne(cs, alts, i);
        if CanNow(alts[i]) {
          ncan := ncan + 1;
        }
      }
      assert alts[..|alts|] == alts;
    }

    predicate CanNow(a: Alt)
      requires a.op != Nop ==> a.c < |chans|
      reads this, chans
    {
      a.op != Nop && chans[a.c].AltCanExec(a.op)
    }

    lemma CanNowIsCanExec(a: Alt)
      requires Valid() && (a.op != Nop ==> a.c < |chans|)
      ensures CanNow(a) == CanExec(AbsChans(), a)
    {
    }

    /** chanalt's second loop counts the executable alts down to the chosen one. */
    method Choose(alts: seq<Alt>, j0: nat) returns (i: nat)
      requires Valid() && ValidAlts(AbsChans(), alts) && j0 < CountCan(AbsChans(), alts)
      ensures AbsChans() == old(AbsChans()) && i == Pick(old(AbsChans()), alts, j0)
    {
      ghost var cs := AbsChans();
      assert alts[..|alts|] == alts;
      var j := j0;
      for n := 0 to |alts|
        invariant 0 <= j && j0 == j + CountCan(cs, alts[..n])
      {
        CanNowIsCanExec(alts[n]);
        CountOne(cs, alts, n);
        if CanNow(alts[n]) {
          if j == 0 {
            PickIs(cs, alts, j0, n);
            return n;
          }
          j := j - 1;
        }
      }
      assert false;
    }

    /** chanalt's last loop */
    method QueueAlts(t: Task, alts: seq<Alt>)
      requires Valid() && ValidAlts(AbsChans(), alts)
      modifies chans
      ensures Valid() && AbsChans() == QueueFrom(old(AbsChans()), t, alts, 0)
    {
      ghost var goal := QueueFrom(AbsChans(), t, alts, 0);
      for i := 0 to |alts|
        invariant Valid() && QueueFrom(AbsChans(), t, alts, i) == goal
      {
        if alts[i].op != Nop {
          label L:
          chans[alts[i].c].AltQueue(alts[i].op, AltRef(t, i));
          OnlyChannel@L(alts[i].c);
        }
      }
    }

    /** chanalt called by task `t`, up to its return or its task switch; `rand0` and `rand1`
        are the outcomes of rand(). `waits` says that the task switched away, else `r` is
        the result. */
    method ChanAlt(t: Task, alts: seq<Alt>, canblock: bool, rand0: nat, rand1: nat) returns (waits: bool, r: int)
      requires Valid() && Inv(Abs()) && CanRun(Abs(), t) && ValidAlts(AbsChans(), alts)
      modifies this, chans, Buffers()
      ensures Valid() && Inv(Abs())
      ensures Abs() == ChanModel.ChanAlt(old(Abs()), t, alts, canblock, rand0, rand1)
      ensures status[|old(calls)|] == if waits then Waiting(t) else if r < 0 then WouldBlock else Returned(r)
    {
      ghost var s := Abs();
      var id := |calls|;
      InvChanAlt(s, t, alts, canblock, rand0, rand1);
      calls := calls + [alts];
      assert AbsChans() == s.chans;
      var ncan := Count(alts);
      if ncan > 0 {
        var i := Choose(alts, rand0 % ncan);
        AltExec(id, alts, i, rand1);
        ghost var s2 := Abs();
        EndsReturning(s, t, alts, canblock, rand0, rand1, i, s2);
        Settle(id, Returned(i));
        waits, r := false, i;
      } else if !canblock {
        Settle(id, WouldBlock);
        EndsRefusing(s, t, alts, rand0, rand1);
        waits, r := false, -1;
      } else {
        QueueAlts(t, alts);
        Park(t, id, alts);
        EndsWaiting(s, t, alts, rand0, rand1);
        waits, r := true, 0;
      }
    }

    /** The scheduler takes the next task; its chanalt returns the position of the alt that
        its partner recorded. */
    method Dispatch() returns (t: Task, r: nat)
      requires Valid() && Inv(Abs()) && ready != []
      modifies this`stacks, this`runq, this`ready, this`status
      ensures Valid() && Inv(Abs()) && Abs() == Resume(old(Abs())) && old(ready)[0].t == t && old(ready)[0].i == r
    {
      ghost var s := Abs();
      InvResume(s);
      FrameReturns(stacks, runq, blocked, ready);
      t := runq[0];
      r := stacks[t].xalt;
      ghost var id := ready[0].id;
      stacks, runq := stacks - {t}, runq[1..];
      ready, status := ready[1..], status[id := Returned(r)];
      assert AbsChans() == s.chans;
    }
  }

  lemma CountOne(chans: seq<Chan>, alts: seq<Alt>, i: nat)
    requires ValidAlts(chans, alts) && i < |alts|
    ensures CountCan(chans, alts[..i + 1]) == CountCan(chans, alts[..i]) + if CanExec(chans, alts[i]) then 1 else 0
  {
    assert alts[..i + 1][..i] == alts[..i];
  }

  /** The invariant is about channels and blocked calls only. */
  lemma SoundIgnores(s: State, s': State)
    requires Sound(s) && s'.chans == s.chans && s'.blocked == s.blocked && !s'.aborted
    ensures Sound(s')
  {
  }

  lemma {:induction false} CountGrows(chans: seq<Chan>, alts: seq<Alt>, i: nat)
    requires ValidAlts(chans, alts) && i <= |alts|
    ensures CountCan(chans, alts[..i]) <= CountCan(chans, alts)
  {
    if i < |alts| {
      CountGrows(chans, alts[..|alts| - 1], i);
      assert alts[..|alts| - 1][..i] == alts[..i];
    } else {
      assert alts[..i] == alts;
    }
  }

  /** The executable alt with `j` executable ones before it is the one picked. */
  lemma {:induction false} PickIs(chans: seq<Chan>, alts: seq<Alt>, j: nat, i: nat)
    requires ValidAlts(chans, alts) && i < |alts| && CanExec(chans, alts[i]) && CountCan(chans, alts[..i]) == j
    ensures j < CountCan(chans, alts) && Pick(chans, alts, j) == i
  {
    var n := |alts| - 1;
    if i < n {
      assert alts[..n][..i] == alts[..i];
      PickIs(chans, alts[..n], j, i);
    }
  }
}

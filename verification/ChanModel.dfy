/** Channel communication (channel.c) as a state machine over atomic steps: each step
    is what a task does from one task switch to the next. */
module ChanModel {
  type Task = nat
  type Elem = int

  /** What zeroed memory holds. */
  const ZERO: Elem := 0

  datatype Ptr = Nil | Ptr(addr: nat)

  datatype Op = Snd | Rcv | Nop

  /** One case of a chanalt: send from or receive into `v` on channel `c`. */
  datatype Alt = Alt(c: nat, op: Op, v: Ptr)

  /** The address of `alts[i]` in the alt array of the call that task `t` is blocked in. */
  datatype AltRef = AltRef(t: Task, i: nat)

  /** A channel; `buf` is the ring buffer read from the oldest element. */
  datatype Chan = Chan(bufsize: nat, buf: seq<Elem>, asend: seq<AltRef>, arecv: seq<AltRef>) {
    function Queue(op: Op): seq<AltRef> {
      match op case Snd => asend case Rcv => arecv case Nop => []
    }

    function WithQueue(op: Op, q: seq<AltRef>): Chan {
      match op case Snd => this.(asend := q) case Rcv => this.(arecv := q) case Nop => this
    }
  }

  /** A chanalt in progress: `id` counts calls. */
  datatype Call = Call(id: nat, alts: seq<Alt>)

  /** A task put back on the run queue by the commit of its alt `i`. */
  datatype Ready = Ready(t: Task, id: nat, i: nat)

  /** One operation carried out: alt `i` of call `id` moved `elem` through channel `c`. */
  datatype Commit = Commit(id: nat, i: nat, c: nat, op: Op, elem: Elem)

  /** What became of a call. */
  datatype Status = Waiting(t: Task) | Woken(t: Task, i: nat) | Returned(i: nat) | WouldBlock

  datatype State = State(
    chans: seq<Chan>,
    blocked: map<Task, Call>,
    runq: seq<Ready>,
    mem: map<nat, Elem>,
    calls: seq<seq<Alt>>,     // every call so far
    status: map<nat, Status>, // and what became of it
    log: seq<Commit>,         // every operation so far, in order
    aborted: bool)            // an abort() was reached

  // ----- operations -----

  function Other(op: Op): Op {
    match op case Snd => Rcv case Rcv => Snd case Nop => Nop
  }

  predicate ValidAlts(chans: seq<Chan>, alts: seq<Alt>) {
    forall i :: 0 <= i < |alts| && alts[i].op != Nop ==> alts[i].c < |chans|
  }

  /** altcanexec */
  predicate CanExec(chans: seq<Chan>, a: Alt)
    requires a.op != Nop ==> a.c < |chans|
  {
    match a.op
    case Nop => false
    case _ =>
      var ch := chans[a.c];
      if ch.bufsize == 0 then ch.Queue(Other(a.op)) != []
      else if a.op == Snd then |ch.buf| < ch.bufsize
      else |ch.buf| > 0
  }

  function CountCan(chans: seq<Chan>, alts: seq<Alt>): nat
    requires ValidAlts(chans, alts)
  {
    if alts == [] then 0
    else CountCan(chans, alts[..|alts| - 1]) + if CanExec(chans, alts[|alts| - 1]) then 1 else 0
  }

  /** The `j`-th executable alt. */
  function Pick(chans: seq<Chan>, alts: seq<Alt>, j: nat): (i: nat)
    requires ValidAlts(chans, alts) && j < CountCan(chans, alts)
    ensures i < |alts| && CanExec(chans, alts[i]) && CountCan(chans, alts[..i]) == j
  {
    var n := |alts| - 1;
    if j < CountCan(chans, alts[..n]) then
      var i := Pick(chans, alts[..n], j);
      assert alts[..n][..i] == alts[..i];
      i
    else n
  }

  function Read(mem: map<nat, Elem>, v: Ptr): Elem {
    if v.Nil? then ZERO else if v.addr in mem then mem[v.addr] else ZERO
  }

  function Write(mem: map<nat, Elem>, v: Ptr, x: Elem): map<nat, Elem> {
    if v.Nil? then mem else mem[v.addr := x]
  }

  datatype Side = None | Some(v: Ptr)

  datatype Copied = Copied(buf: seq<Elem>, mem: map<nat, Elem>, sent: Elem, received: Elem)

  /** altcopy: sender, receiver, or both, against the buffer. */
  function Copy(buf: seq<Elem>, mem: map<nat, Elem>, s: Side, r: Side): Copied
    requires r.Some? && s.None? ==> buf != []
  {
    if s.Some? && r.Some? && buf == [] then
      var x := Read(mem, s.v);
      Copied(buf, Write(mem, r.v, x), x, x)
    else
      var mem' := if r.Some? then Write(mem, r.v, buf[0]) else mem;
      var buf' := if r.Some? then buf[1..] else buf;
      var x := if s.Some? then Read(mem', s.v) else ZERO;
      Copied(if s.Some? then buf' + [x] else buf', mem', x, if r.Some? then buf[0] else ZERO)
  }

  /** The first position of `p`, or the length. */
  function IndexOf(q: seq<AltRef>, p: AltRef): (i: nat)
    ensures i <= |q| && (i < |q| ==> q[i] == p) && (i == |q| ==> p !in q)
  {
    if q == [] then 0 else if q[0] == p then 0 else 1 + IndexOf(q[1..], p)
  }

  /** delarray: the last entry takes the place of entry `i`. */
  function DelArray(q: seq<AltRef>, i: nat): seq<AltRef>
    requires i < |q|
  {
    q[i := q[|q| - 1]][..|q| - 1]
  }

  datatype Dequeued = Aborted | Ok(chans: seq<Chan>)

  /** altalldequeue from alt `i` on; a missing entry aborts. */
  function DequeueFrom(chans: seq<Chan>, t: Task, alts: seq<Alt>, i: nat): Dequeued
    requires ValidAlts(chans, alts) && i <= |alts|
    decreases |alts| - i
  {
    if i == |alts| then Ok(chans)
    else if alts[i].op == Nop then DequeueFrom(chans, t, alts, i + 1)
    else
      var ch, op := chans[alts[i].c], alts[i].op;
      var k := IndexOf(ch.Queue(op), AltRef(t, i));
      if k == |ch.Queue(op)| then Aborted
      else DequeueFrom(chans[alts[i].c := ch.WithQueue(op, DelArray(ch.Queue(op), k))], t, alts, i + 1)
  }

  /** Queueing of alts `i`, `i + 1`, ... of a call that blocks. */
  function QueueFrom(chans: seq<Chan>, t: Task, alts: seq<Alt>, i: nat): (r: seq<Chan>)
    requires ValidAlts(chans, alts) && i <= |alts|
    ensures |r| == |chans|
    decreases |alts| - i
  {
    if i == |alts| then chans
    else if alts[i].op == Nop then QueueFrom(chans, t, alts, i + 1)
    else
      var ch, op := chans[alts[i].c], alts[i].op;
      QueueFrom(chans[alts[i].c := ch.WithQueue(op, ch.Queue(op) + [AltRef(t, i)])], t, alts, i + 1)
  }

  function SideOf(op: Op, a: Alt): Side {
    if a.op == op then Some(a.v) else None
  }

  /** altexec on alt `i` of call `id`; `k` is the random choice of a waiting partner. */
  function Exec(s: State, id: nat, alts: seq<Alt>, i: nat, k: nat): State
    requires ValidAlts(s.chans, alts) && i < |alts| && CanExec(s.chans, alts[i])
  {
    var a := alts[i];
    var ch := s.chans[a.c];
    var q := ch.Queue(Other(a.op));
    if q == [] then
      var r := Copy(ch.buf, s.mem, SideOf(Snd, a), SideOf(Rcv, a));
      s.(chans := s.chans[a.c := ch.(buf := r.buf)], mem := r.mem,
         log := s.log + [Commit(id, i, a.c, a.op, if a.op == Snd then r.sent else r.received)])
    else
      ExecWith(s, id, i, a, q[k % |q|])
  }

  /** A waiting entry that points at no blocked alt; using it is undefined in C. */
  predicate Dangling(s: State, p: AltRef) {
    p.t !in s.blocked || p.i >= |s.blocked[p.t].alts| || !ValidAlts(s.chans, s.blocked[p.t].alts)
  }

  /** altexec of alt `a` with the waiting partner `p`. */
  function ExecWith(s: State, id: nat, i: nat, a: Alt, p: AltRef): State
    requires a.c < |s.chans| && a.op != Nop
  {
    if Dangling(s, p) then s.(aborted := true)
    else
      var ch, call := s.chans[a.c], s.blocked[p.t];
      var b := call.alts[p.i];
      var r := Copy(ch.buf, s.mem, Some(if a.op == Snd then a.v else b.v), Some(if a.op == Snd then b.v else a.v));
      var sender := if a.op == Snd then Commit(id, i, a.c, Snd, r.sent) else Commit(call.id, p.i, a.c, Snd, r.sent);
      var receiver := if a.op == Snd then Commit(call.id, p.i, a.c, Rcv, r.received)
        else Commit(id, i, a.c, Rcv, r.received);
      match DequeueFrom(s.chans[a.c := ch.(buf := r.buf)], p.t, call.alts, 0)
      case Aborted => s.(aborted := true)
      case Ok(chans) =>
        s.(chans := chans, mem := r.mem, blocked := s.blocked - {p.t},
           runq := s.runq + [Ready(p.t, call.id, p.i)], status := s.status[call.id := Woken(p.t, p.i)],
           log := s.log + if ch.buf == [] then [sender, receiver] else [receiver, sender])
  }

  /** chanalt up to its return or its task switch; `j` and `k` are the two random choices. */
  function ChanAlt(s: State, t: Task, alts: seq<Alt>, canblock: bool, j: nat, k: nat): State
    requires ValidAlts(s.chans, alts)
  {
    var id, ncan := |s.calls|, CountCan(s.chans, alts);
    var s := s.(calls := s.calls + [alts]);
    if ncan > 0 then
      var i := Pick(s.chans, alts, j % ncan);
      var s := Exec(s, id, alts, i, k);
      s.(status := s.status[id := Returned(i)])
    else if !canblock then
      s.(status := s.status[id := WouldBlock])
    else
      s.(chans := QueueFrom(s.chans, t, alts, 0), blocked := s.blocked[t := Call(id, alts)],
         status := s.status[id := Waiting(t)])
  }

  /** The scheduler runs the task at the head of the queue: its chanalt returns `xalt - a`. */
  function Resume(s: State): State
    requires s.runq != []
  {
    s.(runq := s.runq[1..], status := s.status[s.runq[0].id := Returned(s.runq[0].i)])
  }

  // ----- runs -----

  datatype Label =
    | Alts(t: Task, alts: seq<Alt>, canblock: bool, j: nat, k: nat)  // a task calls chanalt
    | Dispatch                                                       // the scheduler resumes a task
    | Poke(addr: nat, x: Elem)                                       // a task writes to memory

  /** A task can act when it is neither blocked nor waiting on the run queue. */
  predicate CanRun(s: State, t: Task) {
    t !in s.blocked && forall n :: 0 <= n < |s.runq| ==> s.runq[n].t != t
  }

  /** One atomic step. A label that is not enabled changes nothing. */
  function Step(s: State, l: Label): State {
    if s.aborted then s
    else
      match l
      case Alts(t, alts, canblock, j, k) =>
        if CanRun(s, t) && ValidAlts(s.chans, alts) then ChanAlt(s, t, alts, canblock, j, k) else s
      case Dispatch => if s.runq != [] then Resume(s) else s
      case Poke(addr, x) => s.(mem := s.mem[addr := x])
  }

  function Run(s: State, run: seq<Label>): State {
    if run == [] then s else Step(Run(s, run[..|run| - 1]), run[|run| - 1])
  }

  /** Freshly created channels with the given buffer sizes. */
  function Init(sizes: seq<nat>): State {
    State(seq(|sizes|, c requires 0 <= c < |sizes| => Chan(sizes[c], [], [], [])), map[], [], map[], [], map[], [],
      false)
  }
}

/** The task runtime (task.c, qlock.c, rendez.c and the timers of fd.c) as a state machine.
    A step is one call of the running task, up to its return or its task switch, or one
    turn of the scheduler up to where the resumed task gets back to its own code. */
module TaskModel {
  import opened TaskLocks

  const TWO_64: nat := 0x1_0000_0000_0000_0000
  const MILLISECOND: nat := 1_000_000
  const FIVE_SECONDS: nat := 5_000_000_000

  /** The lists that share the `next` and `prev` fields of a task. */
  datatype Place = RunQ | LockQ(l: nat) | ReadQ(l: nat) | WriteQ(l: nat) | RendezQ(r: nat) | Sleepers

  /** Where a live task is. A parked task waits for a channel or a file descriptor. */
  datatype Loc = Running | At(p: Place) | Parked

  /** What a task that is not running still has to do in the call it made. */
  datatype Cont =
    | Plain
    | Want(p: Place)                 // it waits for the lock whose list is `p`
    | InSleep(r: nat)                // tasksleep takes the lock again
    | InYield(n: nat, queued: nat)   // `n` is tasknswitch and `queued` the length of the run queue at the call
    | InDelay

  datatype Outcome = Going | Exited | Stalled | Aborted

  datatype State = State(
    loc: map<Task, Loc>, cont: map<Task, Cont>, running: Option<Task>, runq: seq<Task>,
    ql: map<nat, QLock>, rw: map<nat, RwLock>, rdv: map<nat, seq<Task>>,
    lockof: map<nat, nat>,     // the lock of a rendez, if it has one
    sleeping: seq<Task>, alarm: map<Task, nat>, system: set<Task>,
    taskcount: int, sleepingcounted: int, nswitch: nat, nextid: nat, fdstarted: bool, outcome: Outcome)

  // Locks and lists that were never used are zero.

  function QlIn(ql: map<nat, QLock>, l: nat): QLock {
    if l in ql then ql[l] else FREE_Q
  }

  function RwIn(rw: map<nat, RwLock>, l: nat): RwLock {
    if l in rw then rw[l] else FREE_RW
  }

  function Ql(s: State, l: nat): QLock {
    QlIn(s.ql, l)
  }

  function Rw(s: State, l: nat): RwLock {
    RwIn(s.rw, l)
  }

  function Rdv(s: State, r: nat): seq<Task> {
    if r in s.rdv then s.rdv[r] else []
  }

  function AlarmIn(alarm: map<Task, nat>, t: Task): nat {
    if t in alarm then alarm[t] else 0
  }

  function Alarm(s: State, t: Task): nat {
    AlarmIn(s.alarm, t)
  }

  /** The tasks on a list, from head to tail. */
  function On(s: State, p: Place): seq<Task> {
    match p
    case RunQ => s.runq
    case LockQ(l) => Ql(s, l).waiting
    case ReadQ(l) => Rw(s, l).rwaiting
    case WriteQ(l) => Rw(s, l).wwaiting
    case RendezQ(r) => Rdv(s, r)
    case Sleepers => s.sleeping
  }

  function Placed(loc: map<Task, Loc>, ts: seq<Task>): map<Task, Loc> {
    loc + map t | t in ts :: At(RunQ)
  }

  /** taskready, for one task after the other */
  function MakeReady(s: State, ts: seq<Task>): State {
    s.(runq := s.runq + ts, loc := Placed(s.loc, ts))
  }

  /** The running task switches away. */
  function Leave(s: State, t: Task, at: Loc, c: Cont): State {
    s.(running := None, loc := s.loc[t := at], cont := s.cont[t := c])
  }

  // ----- qlock.c and rendez.c -----

  function QLockStep(s: State, t: Task, l: nat, block: bool): State {
    var r := Lock(Ql(s, l), t, block);
    var s := s.(ql := s.ql[l := r.l]);
    if r.answer == Waits then Leave(s, t, At(LockQ(l)), Want(LockQ(l))) else s
  }

  function QUnlockStep(s: State, l: nat): State {
    var r := Unlock(Ql(s, l));
    if r.ok then MakeReady(s.(ql := s.ql[l := r.l]), r.ready) else s.(outcome := Aborted)
  }

  function RLockStep(s: State, t: Task, l: nat, block: bool): State {
    var r := RLock(Rw(s, l), t, block);
    var s := s.(rw := s.rw[l := r.l]);
    if r.answer == Waits then Leave(s, t, At(ReadQ(l)), Want(ReadQ(l))) else s
  }

  function WLockStep(s: State, t: Task, l: nat, block: bool): State {
    var r := WLock(Rw(s, l), t, block);
    var s := s.(rw := s.rw[l := r.l]);
    if r.answer == Waits then Leave(s, t, At(WriteQ(l)), Want(WriteQ(l))) else s
  }

  function RwReleaseStep(s: State, l: nat, r: RwRelease): State {
    if r.ok then MakeReady(s.(rw := s.rw[l := r.l]), r.ready) else s.(outcome := Aborted)
  }

  /** tasksleep up to its task switch: first the task is on the list, then it unlocks. */
  function SleepStep(s: State, t: Task, r: nat): State {
    var s := Leave(s.(rdv := s.rdv[r := Rdv(s, r) + [t]]), t, At(RendezQ(r)), InSleep(r));
    if r in s.lockof then QUnlockStep(s, s.lockof[r]) else s
  }

  /** _taskwakeup */
  function WakeupStep(s: State, r: nat, all: bool): State {
    var q := Rdv(s, r);
    var n := if all || q == [] then |q| else 1;
    MakeReady(s.(rdv := s.rdv[r := q[n..]]), q[..n])
  }

  // ----- task.c -----

  function YieldStep(s: State, t: Task): State {
    Leave(s.(runq := s.runq + [t]), t, At(RunQ), InYield(s.nswitch, |s.runq|))
  }

  function CreateStep(s: State): State {
    var t := s.nextid;
    MakeReady(s.(nextid := t + 1, taskcount := s.taskcount + 1, cont := s.cont[t := Plain]), [t])
  }

  function SystemStep(s: State, t: Task): State {
    if t in s.system then s else s.(system := s.system + {t}, taskcount := s.taskcount - 1)
  }

  /** taskexit, and the scheduler's part of it */
  function ExitStep(s: State, t: Task): State {
    s.(running := None, loc := s.loc - {t}, cont := s.cont - {t},
       taskcount := if t in s.system then s.taskcount else s.taskcount - 1)
  }

  /** The scheduler switches to the task at the head of the run queue. */
  function Started(s: State): State
    requires s.runq != []
  {
    var t := s.runq[0];
    s.(runq := s.runq[1..], running := Some(t), nswitch := s.nswitch + 1, loc := s.loc[t := Running],
      cont := s.cont[t := Plain])
  }

  /** The rest of the call that task `t` was in. */
  function Resumed(s: State, t: Task, c: Cont): State {
    match c
    case Want(LockQ(l)) => if Ql(s, l).owner == Some(t) then s else s.(outcome := Aborted)
    case InSleep(r) => if r in s.lockof then QLockStep(s, t, s.lockof[r], true) else s
    case _ => s
  }

  /** One turn of taskscheduler, and the rest of the call that the chosen task was in. */
  function DispatchStep(s: State): State {
    if s.taskcount == 0 then s.(outcome := Exited)
    else if s.runq == [] then s.(outcome := Stalled)
    else Resumed(Started(s), s.runq[0], if s.runq[0] in s.cont then s.cont[s.runq[0]] else Plain)
  }

  /** What taskyield returns when the task at the head of the run queue is resumed. */
  function YieldResult(s: State, n: nat): int {
    (s.nswitch + 1) - n - 1
  }

  // ----- timers of fd.c -----

  /** The loop that looks for the place of a new sleeper. */
  function SleepPlace(s: State, when: nat): (i: nat)
    ensures i <= |s.sleeping|
    ensures forall k :: 0 <= k < i ==> Alarm(s, s.sleeping[k]) < when
    ensures i < |s.sleeping| ==> when <= Alarm(s, s.sleeping[i])
  {
    SleepPlaceFrom(s, when, 0)
  }

  function SleepPlaceFrom(s: State, when: nat, i: nat): (r: nat)
    requires i <= |s.sleeping|
    ensures i <= r <= |s.sleeping|
    ensures forall k :: i <= k < r ==> Alarm(s, s.sleeping[k]) < when
    ensures r < |s.sleeping| ==> when <= Alarm(s, s.sleeping[r])
    decreases |s.sleeping| - i
  {
    if i < |s.sleeping| && Alarm(s, s.sleeping[i]) < when then SleepPlaceFrom(s, when, i + 1) else i
  }

  /** The first call of taskdelay creates the fd task. */
  function WithFdTask(s: State): State {
    if s.fdstarted then s else CreateStep(s).(fdstarted := true)
  }

  /** taskdelay once the fd task exists; nsec() is unsigned with 64 bits. */
  function DelayStep(s: State, t: Task, ms: nat, now: nat): State {
    var when := (now + ms * MILLISECOND) % TWO_64;
    var i := SleepPlace(s, when);
    var counted := t !in s.system;
    Leave(s.(sleeping := s.sleeping[..i] + [t] + s.sleeping[i..], alarm := s.alarm[t := when],
             sleepingcounted := if counted then s.sleepingcounted + 1 else s.sleepingcounted,
             taskcount := if counted && s.sleepingcounted == 0 then s.taskcount + 1 else s.taskcount),
          t, At(Sleepers), InDelay)
  }

  /** One round of fdtask's wake loop. */
  function WakeOne(s: State): State
    requires s.sleeping != []
  {
    var t := s.sleeping[0];
    var counted := t !in s.system;
    MakeReady(s.(sleeping := s.sleeping[1..],
                 sleepingcounted := if counted then s.sleepingcounted - 1 else s.sleepingcounted,
                 taskcount := if counted && s.sleepingcounted == 1 then s.taskcount - 1 else s.taskcount), [t])
  }

  function WakeSleepers(s: State, now: nat): State
    decreases |s.sleeping|
  {
    if s.sleeping != [] && now >= Alarm(s, s.sleeping[0]) then WakeSleepers(WakeOne(s), now) else s
  }

  /** The timeout in milliseconds that fdtask passes to epoll_wait; -1 is forever. */
  function PollTimeout(s: State, now: nat): int {
    if s.sleeping == [] then -1
    else
      var alarm := Alarm(s, s.sleeping[0]);
      if now >= alarm then 0
      else if (now + FIVE_SECONDS) % TWO_64 >= alarm then (alarm - now) / MILLISECOND
      else 5000
  }

  // ----- runs -----

  datatype Label =
    | Qlock(l: nat, block: bool)
    | Qunlock(l: nat)
    | Rlock(l: nat, block: bool)
    | Wlock(l: nat, block: bool)
    | Runlock(l: nat)
    | Wunlock(l: nat)
    | Sleep(r: nat)
    | Wakeup(r: nat, all: bool)
    | Yield
    | Delay(ms: nat, now: nat)
    | Create
    | System
    | Exit
    | Park                 // the task switch of chanalt and fdwait
    | Ready(u: Task)       // taskready by a partner in chanalt or by fdtask
    | Wake(now: nat)       // the wake loop of fdtask
    | Dispatch

  /** A call by the running task `t`. */
  function Call(s: State, t: Task, l: Label): State {
    match l
    case Qlock(l, block) => QLockStep(s, t, l, block)
    case Qunlock(l) => QUnlockStep(s, l)
    case Rlock(l, block) => RLockStep(s, t, l, block)
    case Wlock(l, block) => WLockStep(s, t, l, block)
    case Runlock(l) => RwReleaseStep(s, l, RUnlock(Rw(s, l), t))
    case Wunlock(l) => RwReleaseStep(s, l, WUnlock(Rw(s, l)))
    case Sleep(r) => SleepStep(s, t, r)
    case Wakeup(r, all) => WakeupStep(s, r, all)
    case Yield => YieldStep(s, t)
    case Delay(ms, now) => DelayStep(WithFdTask(s), t, ms, now)
    case Create => CreateStep(s)
    case System => SystemStep(s, t)
    case Exit => ExitStep(s, t)
    case Park => Leave(s, t, Parked, Plain)
    case Ready(u) => MakeReady(s, [u])
    case Wake(now) => WakeSleepers(s, now)
    case Dispatch => s
  }

  /** A label that is not enabled changes nothing. */
  function Step(s: State, l: Label): State {
    if s.outcome != Going then s
    else if l == Dispatch then if s.running.None? then DispatchStep(s) else s
    else if s.running.Some? then Call(s, s.running.value, l)
    else s
  }

  function Run(s: State, run: seq<Label>): State {
    if run == [] then s else Step(Run(s, run[..|run| - 1]), run[|run| - 1])
  }

  /** Calls are matched: a task releases only what it holds, and readies only tasks that
      wait for a channel or a file descriptor. */
  predicate Matched(s: State, l: Label) {
    s.running.Some? ==>
      match l
      case Qunlock(l) => Ql(s, l).owner == s.running
      case Sleep(r) => r in s.lockof ==> Ql(s, s.lockof[r]).owner == s.running
      case Runlock(l) => s.running.value in Rw(s, l).holders
      case Wunlock(l) => Rw(s, l).writer == s.running
      case Ready(u) => u in s.loc && s.loc[u] == Parked
      case _ => true
  }

  predicate MatchedRun(s: State, run: seq<Label>) {
    run == [] || (MatchedRun(s, run[..|run| - 1]) && Matched(Run(s, run[..|run| - 1]), run[|run| - 1]))
  }

  function Empty(lockof: map<nat, nat>): State {
    State(map[], map[], None, [], map[], map[], map[], lockof, [], map[], {}, 0, 0, 0, 1, false, Going)
  }

  /** After main has created the first task. */
  function Init(lockof: map<nat, nat>): State {
    CreateStep(Empty(lockof))
  }
}

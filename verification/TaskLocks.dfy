/** The mutex and the reader/writer lock of qlock.c: what each call does to the lock and
    which waiting tasks it makes ready. */
module TaskLocks {
  type Task = nat

  datatype Option<T> = None | Some(value: T)

  /** What an attempt to lock comes to. */
  datatype Answer = Got | Refused | Waits

  // A marker without content: the invariants below stay folded until a proof writes the mark.
  ghost predicate Inside(i: int) { true }

  // ----- QLock -----

  /** `asked` and `granted` record, in order, the tasks that had to wait and those of them
      that were given the lock. */
  datatype QLock = QLock(owner: Option<Task>, waiting: seq<Task>, asked: seq<Task>, granted: seq<Task>)

  datatype QTry = QTry(l: QLock, answer: Answer)

  /** A release, unless the source aborts, and the tasks it makes ready. */
  datatype QRelease = QRelease(ok: bool, l: QLock, ready: seq<Task>)

  const FREE_Q := QLock(None, [], [], [])

  /** _qlock up to its return or its task switch */
  function Lock(l: QLock, t: Task, block: bool): QTry {
    if l.owner.None? then QTry(l.(owner := Some(t)), Got)
    else if !block then QTry(l, Refused)
    else QTry(l.(waiting := l.waiting + [t], asked := l.asked + [t]), Waits)
  }

  /** qunlock */
  function Unlock(l: QLock): QRelease {
    if l.owner.None? then QRelease(false, l, [])
    else if l.waiting == [] then QRelease(true, l.(owner := None), [])
    else
      var t := l.waiting[0];
      QRelease(true, l.(owner := Some(t), waiting := l.waiting[1..], granted := l.granted + [t]), [t])
  }

  /** Waiting tasks wait for an owner, and the lock is granted in the order of asking. */
  ghost predicate QInv(l: QLock) {
    forall i {:trigger Inside(i)} :: Inside(i) ==> Served(l)
  }

  ghost predicate Served(l: QLock) {
    && (l.waiting != [] ==> l.owner.Some?)
    && l.asked == l.granted + l.waiting
  }

  lemma LockKeeps(l: QLock, t: Task, block: bool)
    requires QInv(l)
    ensures QInv(Lock(l, t, block).l)
    ensures Lock(l, t, block).answer == Got ==> l.waiting == []
  {
    assert Inside(0);
    assert l.asked + [t] == l.granted + (l.waiting + [t]);
  }

  lemma UnlockKeeps(l: QLock)
    requires QInv(l) && Unlock(l).ok
    ensures QInv(Unlock(l).l)
    ensures Unlock(l).ready + Unlock(l).l.waiting == l.waiting
    ensures if l.waiting == [] then Unlock(l).l.owner == None else Unlock(l).l.owner == Some(l.waiting[0])
  {
    assert Inside(0);
    if l.waiting != [] {
      assert l.waiting == [l.waiting[0]] + l.waiting[1..];
      assert l.granted + l.waiting == l.granted + [l.waiting[0]] + l.waiting[1..];
    }
  }

  // ----- RWLock -----

  /** What a task finds when it starts to wait: the writer grants and reader batches so far
      and the number of writers waiting before it. */
  datatype Mark = Mark(grants: nat, batches: nat, ahead: nat)

  /** The last five fields are history: who holds a read lock, how often a writer was let
      in, how often one or more readers were let in, how many such batches there had been
      when the latest writer was let in, and the marks of waiting tasks. */
  datatype RwLock = RwLock(
    readers: int, writer: Option<Task>, rwaiting: seq<Task>, wwaiting: seq<Task>,
    holders: multiset<Task>, grants: nat, batches: nat, last: nat, since: map<Task, Mark>)

  datatype RwTry = RwTry(l: RwLock, answer: Answer)

  datatype RwRelease = RwRelease(ok: bool, l: RwLock, ready: seq<Task>)

  const FREE_RW := RwLock(0, None, [], [], multiset{}, 0, 0, 0, map[])

  function MarkNow(l: RwLock): Mark {
    Mark(l.grants, l.batches, |l.wwaiting|)
  }

  /** _rlock */
  function RLock(l: RwLock, t: Task, block: bool): RwTry {
    if l.writer.None? && l.wwaiting == [] then
      RwTry(l.(readers := l.readers + 1, holders := l.holders + multiset{t}, batches := l.batches + 1), Got)
    else if !block then RwTry(l, Refused)
    else RwTry(l.(rwaiting := l.rwaiting + [t], since := l.since[t := MarkNow(l)]), Waits)
  }

  /** _wlock */
  function WLock(l: RwLock, t: Task, block: bool): RwTry {
    if l.writer.None? && l.readers == 0 then
      RwTry(l.(writer := Some(t), grants := l.grants + 1, last := l.batches), Got)
    else if !block then RwTry(l, Refused)
    else RwTry(l.(wwaiting := l.wwaiting + [t], since := l.since[t := MarkNow(l)]), Waits)
  }

  function GrantWriter(l: RwLock): RwRelease
    requires l.wwaiting != []
  {
    RwRelease(true, l.(writer := Some(l.wwaiting[0]), wwaiting := l.wwaiting[1..], grants := l.grants + 1,
      last := l.batches),
              [l.wwaiting[0]])
  }

  /** runlock by task `t` */
  function RUnlock(l: RwLock, t: Task): RwRelease {
    var l := l.(readers := l.readers - 1, holders := l.holders - multiset{t});
    if l.readers == 0 && l.wwaiting != [] then GrantWriter(l) else RwRelease(true, l, [])
  }

  /** All waiting readers are let in. */
  function AdmitReaders(l: RwLock): RwLock {
    if l.rwaiting == [] then l
    else l.(readers := l.readers + |l.rwaiting|, holders := multiset(l.rwaiting), rwaiting := [],
      batches := l.batches + 1)
  }

  /** Nobody is inside: all waiting readers are let in, or else the first waiting writer. */
  function AdmitNext(l: RwLock): RwRelease {
    if l.rwaiting != [] then RwRelease(true, AdmitReaders(l), l.rwaiting)
    else if l.wwaiting != [] then GrantWriter(l)
    else RwRelease(true, l, [])
  }

  /** wunlock */
  function WUnlock(l: RwLock): RwRelease {
    if l.writer.None? || l.readers != 0 then RwRelease(false, l, []) else AdmitNext(l.(writer := None))
  }

  /** A waiting reader sees at most one more writer let in, and only while that writer is
      still inside. */
  ghost predicate ReaderBound(l: RwLock, t: Task) {
    && t in l.since
    && l.since[t].grants <= l.grants <= l.since[t].grants + if l.writer.Some? then 1 else 0
  }

  /** The waiting writer in place `k` has seen exactly the writers ahead of it let in, and
      at most one batch of readers for each of them and one more: at most one since the
      latest writer was let in, and none while that writer is inside. */
  ghost predicate WriterBound(l: RwLock, k: nat)
    requires k < |l.wwaiting|
  {
    var t := l.wwaiting[k];
    && t in l.since
    && l.grants - l.since[t].grants == l.since[t].ahead - k
    && var more := if l.writer.Some? then 0 else 1;
    && 0 <= l.batches - l.since[t].batches <= l.since[t].ahead - k + more
    && l.batches <= Later(l.since[t].batches, l.last) + more
  }

  function Later(a: nat, b: nat): nat {
    if a < b then b else a
  }

  ghost predicate RwInv(l: RwLock) {
    forall i {:trigger Inside(i)} :: Inside(i) ==> Fair(l)
  }

  ghost predicate Fair(l: RwLock) {
    && l.readers == |l.holders|
    && (l.writer.Some? ==> l.readers == 0)
    && (l.rwaiting != [] ==> l.writer.Some? || l.wwaiting != [])
    && (l.wwaiting != [] ==> l.writer.Some? || l.readers > 0)
    && (forall t :: t in l.rwaiting ==> ReaderBound(l, t))
    && (forall k :: 0 <= k < |l.wwaiting| ==> WriterBound(l, k))
  }

  lemma RLockKeeps(l: RwLock, t: Task, block: bool)
    requires RwInv(l) && t !in l.rwaiting && t !in l.wwaiting
    ensures RwInv(RLock(l, t, block).l)
  {
    assert Inside(0);
    var l' := RLock(l, t, block).l;
    forall u | u in l'.rwaiting ensures ReaderBound(l', u) {
      assert u != t ==> ReaderBound(l, u);
    }
    forall k | 0 <= k < |l'.wwaiting| ensures WriterBound(l', k) {
      assert WriterBound(l, k);
      assert l.wwaiting[k] != t;
    }
  }

  lemma WLockKeeps(l: RwLock, t: Task, block: bool)
    requires RwInv(l) && t !in l.rwaiting && t !in l.wwaiting
    ensures RwInv(WLock(l, t, block).l)
    ensures WLock(l, t, block).answer == Got ==> l.rwaiting == [] && l.wwaiting == []
  {
    assert Inside(0);
    var l' := WLock(l, t, block).l;
    forall u | u in l'.rwaiting ensures ReaderBound(l', u) {
      assert ReaderBound(l, u);
    }
    forall k | 0 <= k < |l'.wwaiting| ensures WriterBound(l', k) {
      if k < |l.wwaiting| {
        assert WriterBound(l, k);
        assert l.wwaiting[k] != t;
      }
    }
  }

  /** Letting in the first waiting writer when nobody is inside. */
  lemma GrantKeeps(l: RwLock)
    requires l.wwaiting != [] && l.writer.None? && l.readers == |l.holders| == 0
    requires forall t :: t in l.rwaiting ==> ReaderBound(l, t)
    requires forall k :: 0 <= k < |l.wwaiting| ==> WriterBound(l, k)
    ensures RwInv(GrantWriter(l).l)
  {
    var l' := GrantWriter(l).l;
    forall u | u in l'.rwaiting ensures ReaderBound(l', u) {
      assert ReaderBound(l, u);
    }
    forall k | 0 <= k < |l'.wwaiting| ensures WriterBound(l', k) {
      assert WriterBound(l, k + 1);
    }
  }

  lemma RUnlockKeeps(l: RwLock, t: Task)
    requires RwInv(l) && t in l.holders
    ensures RUnlock(l, t).ok && RwInv(RUnlock(l, t).l)
    ensures var r := RUnlock(l, t); r.l.rwaiting == l.rwaiting && r.ready + r.l.wwaiting == l.wwaiting
  {
    assert Inside(0);
    var l1 := l.(readers := l.readers - 1, holders := l.holders - multiset{t});
    assert |l1.holders| == |l.holders| - 1;
    forall u | u in l1.rwaiting ensures ReaderBound(l1, u) {
      assert ReaderBound(l, u);
    }
    forall k | 0 <= k < |l1.wwaiting| ensures WriterBound(l1, k) {
      assert WriterBound(l, k);
    }
    if l1.readers == 0 && l1.wwaiting != [] { GrantKeeps(l1); }
  }

  lemma NoReaders(l: RwLock)
    requires RwInv(l) && l.writer.Some?
    ensures l.readers == 0 && l.holders == multiset{} && WUnlock(l).ok
  {
    assert Inside(0);
  }

  lemma WUnlockKeeps(l: RwLock)
    requires RwInv(l) && l.writer.Some?
    ensures WUnlock(l).ok && RwInv(WUnlock(l).l)
    ensures var r := WUnlock(l);
      if l.rwaiting != [] then r.ready == l.rwaiting && r.l.rwaiting == [] && r.l.wwaiting == l.wwaiting
      else r.l.rwaiting == [] && r.ready + r.l.wwaiting == l.wwaiting
  {
    assert Inside(0);
    if l.rwaiting != [] {
      var l' := WUnlock(l).l;
      forall k | 0 <= k < |l'.wwaiting| ensures WriterBound(l', k) {
        assert WriterBound(l, k);
      }
    } else if l.wwaiting != [] {
      WUnlockToWriter(l);
    }
  }

  lemma WUnlockToWriter(l: RwLock)
    requires RwInv(l) && l.writer.Some? && l.rwaiting == [] && l.wwaiting != []
    ensures WUnlock(l).ok && RwInv(WUnlock(l).l)
  {
    assert Inside(0);
    var l1 := l.(writer := None);
    forall k | 0 <= k < |l1.wwaiting| ensures WriterBound(l1, k) {
      assert WriterBound(l, k);
    }
    GrantKeeps(l1);
  }
}

/** What the calls of qlock.c answer and leave behind, one call and one after the other. */
module TaskAnswers {
  import opened TaskLocks

  // ----- the mutex -----

  /** An attempt gets a free mutex and no other; it is refused only if it may not wait. */
  lemma LockAnswers(l: QLock, t: Task, block: bool)
    ensures var r := Lock(l, t, block);
      && (r.answer == Got <==> l.owner == None) && (r.answer == Refused <==> l.owner != None && !block)
      && r.l.owner == (if r.answer == Got then Some(t) else l.owner)
      && r.l.waiting == l.waiting + (if r.answer == Waits then [t] else [])
      && (r.answer == Refused ==> r.l == l)
  {
  }

  /** An unlock undoes a lock that did not wait. */
  lemma UnlockUndoesLock(l: QLock, t: Task, block: bool)
    requires QInv(l) && Lock(l, t, block).answer == Got
    ensures Unlock(Lock(l, t, block).l) == QRelease(true, l, [])
  {
    assert Inside(0);
  }

  function UnlockTimes(l: QLock, n: nat): QLock {
    if n == 0 then l else Unlock(UnlockTimes(l, n - 1)).l
  }

  /** The tasks that wait get the mutex one after the other, in their order, one for each
      unlock; the unlock after the last of them leaves it free. */
  lemma {:induction false} EachWaiterInTurn(l: QLock, n: nat)
    requires l.owner.Some? && n <= |l.waiting|
    ensures var l' := UnlockTimes(l, n);
      && l'.owner == (if n == 0 then l.owner else Some(l.waiting[n - 1])) && l'.waiting == l.waiting[n..]
      && Unlock(l').ok && Unlock(l').ready == (if n < |l.waiting| then [l.waiting[n]] else [])
    ensures n == |l.waiting| ==> Unlock(UnlockTimes(l, n)).l.owner == None
    ensures n == |l.waiting| ==> forall t, block :: Lock(Unlock(UnlockTimes(l, n)).l, t, block).answer == Got
  {
    if n > 0 {
      EachWaiterInTurn(l, n - 1);
      assert l.waiting[n - 1..][1..] == l.waiting[n..];
    }
  }

  /** Only an unlock of a free mutex aborts. */
  lemma UnlockAborts(l: QLock)
    ensures Unlock(l).ok <==> l.owner != None
  {
  }

  // ----- the reader/writer lock -----

  /** A reader gets in if no writer is inside or waits; nothing else changes then. */
  lemma RLockAnswers(l: RwLock, t: Task, block: bool)
    ensures var r := RLock(l, t, block);
      && (r.answer == Got <==> l.writer == None && l.wwaiting == []) && (r.answer == Refused ==> !block && r.l == l)
      && (r.answer == Waits ==> block)
      && r.l.holders == l.holders + (if r.answer == Got then multiset{t} else multiset{})
      && r.l.readers == l.readers + (if r.answer == Got then 1 else 0)
      && r.l.rwaiting == l.rwaiting + (if r.answer == Waits then [t] else [])
      && r.l.wwaiting == l.wwaiting && r.l.writer == l.writer
  {
  }

  /** A writer gets in if nobody is inside. */
  lemma WLockAnswers(l: RwLock, t: Task, block: bool)
    requires RwInv(l)
    ensures var r := WLock(l, t, block);
      && (r.answer == Got <==> l.writer == None && l.holders == multiset{})
      && (r.answer == Refused ==> !block && r.l == l) && (r.answer == Waits ==> block)
      && r.l.writer == (if r.answer == Got then Some(t) else l.writer)
      && r.l.wwaiting == l.wwaiting + (if r.answer == Waits then [t] else [])
      && r.l.rwaiting == l.rwaiting && r.l.readers == l.readers && r.l.holders == l.holders
  {
    assert Inside(0);
  }

  /** runlock lets the reader out. The last one lets in the first waiting writer, or leaves
      the lock free for the next writer that asks; before that, writers are kept out. */
  lemma RUnlockLetsOut(l: RwLock, t: Task)
    requires RwInv(l) && t in l.holders
    ensures var r := RUnlock(l, t);
      && r.ok && r.l.holders == l.holders - multiset{t} && r.l.readers == l.readers - 1 == |r.l.holders|
      && r.l.rwaiting == l.rwaiting
    ensures var r := RUnlock(l, t);
      if l.holders == multiset{t} && l.wwaiting != [] then
        r.l.writer == Some(l.wwaiting[0]) && r.ready == [l.wwaiting[0]] && [l.wwaiting[0]] + r.l.wwaiting == l.wwaiting
      else r.l.writer == None && r.ready == [] && r.l.wwaiting == l.wwaiting
    ensures l.wwaiting == [] ==>
      forall u, block :: WLock(RUnlock(l, t).l, u, block).answer == Got <==> l.holders == multiset{t}
  {
    assert Inside(0);
    var rest := l.holders - multiset{t};
    assert l.holders == rest + multiset{t} && |l.holders| == |rest| + 1;
    assert |rest| == 0 <==> rest == multiset{};
    assert l.holders == multiset{t} <==> rest == multiset{};
  }

  /** wunlock lets the writer out and all waiting readers in, or else the first waiting
      writer, or else leaves the lock free. It aborts unless a writer is alone inside. */
  lemma WUnlockLetsOut(l: RwLock)
    requires RwInv(l)
    ensures WUnlock(l).ok <==> l.writer != None
    ensures var r := WUnlock(l);
      l.writer != None ==>
        if l.rwaiting != [] then
          r.l.writer == None && r.l.holders == multiset(l.rwaiting) && r.l.readers == |l.rwaiting| &&
            r.ready == l.rwaiting
          && r.l.rwaiting == [] && r.l.wwaiting == l.wwaiting
        else if l.wwaiting != [] then
          r.l.writer == Some(l.wwaiting[0]) && r.l.holders == multiset{} && r.ready == [l.wwaiting[0]]
          && [l.wwaiting[0]] + r.l.wwaiting == l.wwaiting
        else
          r.l.writer == None && r.l.holders == multiset{} && r.l.readers == 0 && r.ready == []
          && forall u, block :: WLock(r.l, u, block).answer == RLock(r.l, u, block).answer == Got
  {
    assert Inside(0);
  }

  // ----- coming and going -----

  /** The tasks of `ts` call canrlock one after the other. */
  function EnterAll(l: RwLock, ts: seq<Task>): RwLock {
    if ts == [] then l else RLock(EnterAll(l, ts[..|ts| - 1]), ts[|ts| - 1], false).l
  }

  function LeaveAll(l: RwLock, ts: seq<Task>): RwLock {
    if ts == [] then l else RUnlock(LeaveAll(l, ts[..|ts| - 1]), ts[|ts| - 1]).l
  }

  /** Nobody waits, and no writer is inside. */
  ghost predicate Reading(l: RwLock, inside: multiset<Task>) {
    l.writer == None && l.rwaiting == l.wwaiting == [] && l.holders == inside && l.readers == |inside|
  }

  lemma {:induction false} EnterAllReads(l: RwLock, ts: seq<Task>, inside: multiset<Task>)
    requires Reading(l, inside)
    ensures Reading(EnterAll(l, ts), inside + multiset(ts))
  {
    if ts == [] {
      assert inside + multiset(ts) == inside;
    } else {
      EnterAllReads(l, ts[..|ts| - 1], inside);
      assert ts == ts[..|ts| - 1] + [ts[|ts| - 1]];
      assert inside + multiset(ts) == inside + multiset(ts[..|ts| - 1]) + multiset{ts[|ts| - 1]};
    }
  }

  lemma {:induction false} LeaveAllReads(l: RwLock, ts: seq<Task>, inside: multiset<Task>)
    requires Reading(l, inside) && multiset(ts) <= inside
    ensures Reading(LeaveAll(l, ts), inside - multiset(ts))
  {
    if ts == [] {
      assert inside - multiset(ts) == inside;
    } else {
      var front, t := ts[..|ts| - 1], ts[|ts| - 1];
      assert ts == front + [t];
      assert multiset(ts) == multiset(front) + multiset{t};
      LeaveAllReads(l, front, inside);
      var rest := inside - multiset(front);
      assert t in rest && inside - multiset(ts) == rest - multiset{t};
      assert |rest - multiset{t}| == |rest| - 1;
    }
  }

  /** A writer gets in after readers have come and gone, in any order, exactly if all of
      them have gone. */
  lemma ReadersComeAndGo(ins: seq<Task>, outs: seq<Task>, t: Task)
    requires multiset(outs) <= multiset(ins)
    ensures WLock(LeaveAll(EnterAll(FREE_RW, ins), outs), t, false).answer == Got <==> multiset(ins) == multiset(outs)
  {
    EnterAllReads(FREE_RW, ins, multiset{});
    assert multiset{} + multiset(ins) == multiset(ins);
    LeaveAllReads(EnterAll(FREE_RW, ins), outs, multiset(ins));
    var rest := multiset(ins) - multiset(outs);
    assert multiset(ins) == multiset(outs) + rest;
    assert |rest| == 0 <==> rest == multiset{};
  }
}

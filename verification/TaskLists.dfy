/** The intrusive lists of task.c and the code of qlock.c, rendez.c and fd.c that works on
    them, in its own form; the methods are proved against the functions of the model. */
module TaskLists {
  import L = TaskLocks

  class Task {
    const id: nat
    var next: Task?
    var prev: Task?
    var alarmtime: nat
    var system: bool

    constructor (id: nat)
      ensures this.id == id && next == null && prev == null && alarmtime == 0 && !system
    {
      this.id := id;
      next, prev, alarmtime, system := null, null, 0, false;
    }
  }

  // Markers without content: what is stated for all marked numbers stays folded until a
  // proof writes the mark.
  ghost predicate Link(i: int) { true }

  ghost predicate Elems(i: int) { true }

  ghost predicate NoDup(q: seq<Task>) {
    forall k {:trigger Elems(k)} :: Elems(k) ==> forall i, j :: 0 <= i < j < |q| ==> q[i] != q[j]
  }

  ghost predicate Apart(a: seq<Task>, b: seq<Task>) {
    forall k {:trigger Elems(k)} :: Elems(k) ==> forall i, j :: 0 <= i < |a| && 0 <= j < |b| ==> a[i] != b[j]
  }

  /** `q` is the list from `head` to `tail`, linked both ways. */
  ghost predicate Linked(q: seq<Task>, head: Task?, tail: Task?)
    reads q
  {
    forall k {:trigger Link(k)} :: Link(k) ==>
      && (forall i :: 0 <= i < |q| - 1 ==> q[i].next == q[i + 1])
      && (forall i :: 0 < i < |q| ==> q[i].prev == q[i - 1])
      && if q == [] then head == tail == null
         else head == q[0] && tail == q[|q| - 1] && head.prev == null && tail.next == null
  }

  class Tasklist {
    var head: Task?
    var tail: Task?
    ghost var q: seq<Task>

    ghost predicate Valid()
      reads this, q
    {
      NoDup(q) && Linked(q, head, tail)
    }

    constructor ()
      ensures Valid() && q == []
    {
      head, tail, q := null, null, [];
    }

    lemma Head()
      requires Valid()
      ensures if q == [] then head == null else head == q[0]
    {
      assert Link(0);
    }

    /** addtask */
    method AddTask(t: Task)
      requires Valid() && t !in q
      modifies this, q`next, q`prev, t`next, t`prev
      ensures Valid() && q == old(q) + [t]
    {
      assert Link(0) && Elems(0);
      if tail != null {
        tail.next := t;
        t.prev := tail;
      } else {
        head := t;
        t.prev := null;
      }
      tail := t;
      t.next := null;
      q := q + [t];
    }

    /** deltask */
    method DelTask(t: Task, ghost i: nat)
      requires Valid() && i < |q| && q[i] == t
      modifies this, q`next, q`prev
      ensures Valid() && q == old(q)[..i] + old(q)[i + 1..]
    {
      assert Link(0) && Elems(0);
      assert if i == 0 then t.prev == null else t.prev == q[i - 1];
      assert if i == |q| - 1 then t.next == null else t.next == q[i + 1];
      if t.prev != null {
        t.prev.next := t.next;
      } else {
        head := t.next;
      }
      if t.next != null {
        t.next.prev := t.prev;
      } else {
        tail := t.prev;
      }
      q := q[..i] + q[i + 1..];
      assert NoDup(q);
    }
  }

  // ----- two lists -----

  ghost predicate Separate(a: Tasklist, b: Tasklist)
    reads a, b
  {
    a != b && Apart(a.q, b.q) && Apart(b.q, a.q)
  }

  lemma MoveApart(a: seq<Task>, b: seq<Task>)
    requires a != [] && NoDup(a) && Apart(a, b)
    ensures a[0] !in b && Apart(a[1..], b + [a[0]]) && Apart(b + [a[0]], a[1..])
  {
    assert Elems(0);
  }

  lemma ApartSame(a: seq<Task>, b: seq<Task>)
    requires Apart(a, b)
    ensures forall t :: t in a ==> t !in b
    ensures forall t :: t in b ==> t !in a
  {
    assert Elems(0);
  }

  twostate lemma Stays(l: Tasklist)
    requires old(l.Valid()) && unchanged(l) && forall u: Task :: u in l.q ==> unchanged(u`next) && unchanged(u`prev)
    ensures l.Valid()
  {
    forall i | 0 <= i < |l.q| ensures l.q[i].next == old(l.q[i].next) && l.q[i].prev == old(l.q[i].prev) {
      var u: Task := l.q[i];
      assert u in l.q && unchanged(u`next) && unchanged(u`prev);
    }
    assert old(Linked(l.q, l.head, l.tail));
    assert Link(0);
  }

  /** deltask of the head of a list and taskready of it */
  method ReadyHead(from: Tasklist, runqueue: Tasklist) returns (t: Task)
    requires from.Valid() && runqueue.Valid() && Separate(from, runqueue) && from.head != null
    modifies from, from.q`next, from.q`prev, runqueue, runqueue.q`next, runqueue.q`prev
    ensures from.Valid() && runqueue.Valid() && Separate(from, runqueue)
    ensures old(from.q) == [t] + from.q && runqueue.q == old(runqueue.q) + [t]
  {
    from.Head();
    t := from.head;
    MoveApart(from.q, runqueue.q);
    ApartSame(from.q, runqueue.q);
    from.DelTask(t, 0);
    Stays(runqueue);
    ApartSame(from.q, runqueue.q + [t]);
    label Deleted:
    runqueue.AddTask(t);
    Stays@Deleted(from);
  }

  lemma ThirdApart(c: seq<Task>, a: seq<Task>, b: seq<Task>, a': seq<Task>, t: Task)
    requires Apart(c, a) && Apart(c, b) && a == [t] + a'
    ensures Apart(c, a') && Apart(c, b + [t]) && Apart(a', c) && Apart(b + [t], c)
  {
    assert Elems(0);
    forall i, j | 0 <= i < |c| && 0 <= j < |a'| ensures c[i] != a'[j] {
      assert a'[j] == a[j + 1];
    }
    assert forall i :: 0 <= i < |c| ==> c[i] != a[0];
  }

  /** A third list, if there is one, has nothing in common with the other two. */
  ghost predicate Beside(other: Tasklist?, from: Tasklist, runqueue: Tasklist)
    reads from, runqueue, other, if other == null then {} else set t | t in other.q
  {
    other != null ==> other.Valid() && Separate(other, from) && Separate(other, runqueue)
  }

  /** A third list notices nothing when a task moves between two others. */
  method ReadyHeadBeside(from: Tasklist, runqueue: Tasklist, ghost other: Tasklist?) returns (t: Task)
    requires from.Valid() && runqueue.Valid() && Separate(from, runqueue) && from.head != null
    requires Beside(other, from, runqueue)
    modifies from, from.q`next, from.q`prev, runqueue, runqueue.q`next, runqueue.q`prev
    ensures from.Valid() && runqueue.Valid() && Separate(from, runqueue)
    ensures Beside(other, from, runqueue)
    ensures old(from.q) == [t] + from.q && runqueue.q == old(runqueue.q) + [t]
  {
    if other != null {
      ApartSame(other.q, from.q);
      ApartSame(other.q, runqueue.q);
    }
    t := ReadyHead(from, runqueue);
    if other != null {
      Stays(other);
      ThirdApart(other.q, old(from.q), old(runqueue.q), from.q, t);
    }
  }

  /** The loop of _taskwakeup, and with `all` that of wunlock over the waiting readers: it
      readies one task, or all. */
  method ReadyMany(from: Tasklist, runqueue: Tasklist, all: bool, ghost other: Tasklist?) returns (n: nat)
    requires from.Valid() && runqueue.Valid() && Separate(from, runqueue) && Beside(other, from, runqueue)
    modifies from, from.q`next, from.q`prev, runqueue, runqueue.q`next, runqueue.q`prev
    ensures from.Valid() && runqueue.Valid() && Separate(from, runqueue) && Beside(other, from, runqueue)
    ensures n == if all || old(from.q) == [] then |old(from.q)| else 1
    ensures from.q == old(from.q)[n..] && runqueue.q == old(runqueue.q) + old(from.q)[..n]
  {
    ghost var q := from.q;
    n := 0;
    from.Head();
    while (n != 1 || all) && from.head != null
      invariant from.Valid() && runqueue.Valid() && Separate(from, runqueue) && Beside(other, from, runqueue)
      invariant n <= |q| && (n <= 1 || all) && from.q == q[n..] && runqueue.q == old(runqueue.q) + q[..n]
      invariant from.q == [] <==> from.head == null
      decreases |from.q|
    {
      ghost var q1, r1 := from.q, runqueue.q;
      var t := ReadyHeadBeside(from, runqueue, other);
      OneMore(q, n, q1, from.q, old(runqueue.q), r1, t);
      n := n + 1;
      from.Head();
    }
  }

  lemma OneMore(q: seq<Task>, n: nat, q1: seq<Task>, q2: seq<Task>, r: seq<Task>, r1: seq<Task>, t: Task)
    requires n <= |q| && q1 == q[n..] && q1 == [t] + q2 && r1 == r + q[..n]
    ensures n < |q| && q2 == q[n + 1..] && r1 + [t] == r + q[..n + 1]
  {
    assert q[n] == q1[0] == t;
    assert q[n + 1..] == q1[1..] == q2;
    assert q[..n + 1] == q[..n] + [t];
  }

  lemma AddedApart(a: seq<Task>, b: seq<Task>, t: Task)
    requires Apart(a, b) && t !in b
    ensures Apart(a + [t], b) && Apart(b, a + [t])
  {
    assert Elems(0);
  }

  function Ids(q: seq<Task>): seq<nat> {
    seq(|q|, i requires 0 <= i < |q| => q[i].id)
  }

  lemma IdsConcat(a: seq<Task>, b: seq<Task>)
    ensures Ids(a + b) == Ids(a) + Ids(b)
  {
  }

  // ----- qlock.c -----

  class QLock {
    var owner: Task?
    const waiting: Tasklist
    ghost var asked: seq<nat>
    ghost var granted: seq<nat>

    constructor ()
      ensures waiting.Valid() && fresh(waiting) && Abs() == L.FREE_Q
    {
      owner := null;
      waiting := new Tasklist();
      asked, granted := [], [];
    }

    ghost function Abs(): L.QLock
      reads this, waiting
    {
      L.QLock(if owner == null then L.None else L.Some(owner.id), Ids(waiting.q), asked, granted)
    }

    /** _qlock; after `Waits` the task switches away. */
    method Lock(t: Task, block: bool) returns (r: L.Answer)
      requires waiting.Valid() && t !in waiting.q
      modifies this`owner, this`asked, waiting, waiting.q`next, waiting.q`prev, t`next, t`prev
      ensures waiting.Valid() && L.QTry(Abs(), r) == L.Lock(old(Abs()), t.id, block)
      ensures waiting.q == old(waiting.q) + if r == L.Waits then [t] else []
    {
      if owner == null {
        owner := t;
        return L.Got;
      }
      if !block {
        return L.Refused;
      }
      IdsConcat(waiting.q, [t]);
      waiting.AddTask(t);
      asked := asked + [t.id];
      return L.Waits;
    }

    /** qunlock; `ok` is false where the source aborts. A third list notices nothing. */
    method Unlock(runqueue: Tasklist, ghost other: Tasklist?) returns (ok: bool)
      requires waiting.Valid() && runqueue.Valid() && Separate(waiting, runqueue) && Beside(other, waiting, runqueue)
      modifies this`owner, this`granted, waiting, waiting.q`next, waiting.q`prev, runqueue, runqueue.q`next,
        runqueue.q`prev
      ensures waiting.Valid() && runqueue.Valid() && Separate(waiting, runqueue) && Beside(other, waiting, runqueue)
      ensures var r := L.Unlock(old(Abs()));
        ok == r.ok && Abs() == r.l && Ids(runqueue.q) == Ids(old(runqueue.q)) + r.ready
    {
      if owner == null {
        return false;
      }
      waiting.Head();
      if waiting.head != null {
        var t := ReadyHeadBeside(waiting, runqueue, other);
        Grant(t, runqueue, other);
        IdsConcat([t], waiting.q);
        IdsConcat(old(runqueue.q), [t]);
      } else {
        Grant(null, runqueue, other);
      }
      return true;
    }

    method Grant(t: Task?, runqueue: Tasklist, ghost other: Tasklist?)
      requires waiting.Valid() && runqueue.Valid() && Separate(waiting, runqueue) && Beside(other, waiting, runqueue)
      modifies this`owner, this`granted
      ensures waiting.Valid() && runqueue.Valid() && Separate(waiting, runqueue) && Beside(other, waiting, runqueue)
      ensures owner == t && granted == if t == null then old(granted) else old(granted) + [t.id]
    {
      owner := t;
      granted := if t == null then granted else granted + [t.id];
    }
  }

  class RWLock {
    var readers: int
    var writer: Task?
    const rwaiting: Tasklist
    const wwaiting: Tasklist
    ghost var holders: multiset<nat>
    ghost var grants: nat
    ghost var batches: nat
    ghost var last: nat
    ghost var since: map<nat, L.Mark>

    constructor ()
      ensures Valid() && fresh(rwaiting) && fresh(wwaiting) && Abs() == L.FREE_RW
    {
      readers, writer := 0, null;
      rwaiting := new Tasklist();
      wwaiting := new Tasklist();
      holders, grants, batches, last, since := multiset{}, 0, 0, 0, map[];
    }

    ghost predicate Valid()
      reads rwaiting, rwaiting.q, wwaiting, wwaiting.q
    {
      rwaiting.Valid() && wwaiting.Valid() && Separate(rwaiting, wwaiting)
    }

    ghost function Abs(): L.RwLock
      reads this, rwaiting, wwaiting
    {
      L.RwLock(readers, if writer == null then L.None else L.Some(writer.id), Ids(rwaiting.q), Ids(wwaiting.q),
               holders, grants, batches, last, since)
    }

    /** _rlock */
    method RLock(t: Task, block: bool) returns (r: L.Answer)
      requires Valid() && t !in rwaiting.q && t !in wwaiting.q
      modifies this, rwaiting, rwaiting.q`next, rwaiting.q`prev, t`next, t`prev
      ensures Valid() && L.RwTry(Abs(), r) == L.RLock(old(Abs()), t.id, block)
    {
      wwaiting.Head();
      if writer == null && wwaiting.head == null {
        readers := readers + 1;
        holders, batches := holders + multiset{t.id}, batches + 1;
        return L.Got;
      }
      if !block {
        return L.Refused;
      }
      IdsConcat(rwaiting.q, [t]);
      since := since[t.id := L.MarkNow(Abs())];
      ApartSame(rwaiting.q, wwaiting.q);
      AddedApart(rwaiting.q, wwaiting.q, t);
      rwaiting.AddTask(t);
      Stays(wwaiting);
      return L.Waits;
    }

    /** _wlock */
    method WLock(t: Task, block: bool) returns (r: L.Answer)
      requires Valid() && t !in rwaiting.q && t !in wwaiting.q
      modifies this, wwaiting, wwaiting.q`next, wwaiting.q`prev, t`next, t`prev
      ensures Valid() && L.RwTry(Abs(), r) == L.WLock(old(Abs()), t.id, block)
    {
      if writer == null && readers == 0 {
        writer := t;
        grants, last := grants + 1, batches;
        return L.Got;
      }
      if !block {
        return L.Refused;
      }
      IdsConcat(wwaiting.q, [t]);
      since := since[t.id := L.MarkNow(Abs())];
      ApartSame(rwaiting.q, wwaiting.q);
      AddedApart(wwaiting.q, rwaiting.q, t);
      wwaiting.AddTask(t);
      Stays(rwaiting);
      return L.Waits;
    }

    /** The first waiting writer is let in. */
    method GrantWriter(runqueue: Tasklist)
      requires Valid() && runqueue.Valid() && Separate(rwaiting, runqueue) && Separate(wwaiting, runqueue)
      requires wwaiting.head != null
      modifies this`writer, this`grants, this`last, wwaiting, wwaiting.q`next, wwaiting.q`prev,
               runqueue, runqueue.q`next, runqueue.q`prev
      ensures Valid() && runqueue.Valid() && Separate(rwaiting, runqueue) && Separate(wwaiting, runqueue)
      ensures old(wwaiting.q) != []
      ensures var r := L.GrantWriter(old(Abs())); Abs() == r.l && Ids(runqueue.q) == Ids(old(runqueue.q)) + r.ready
    {
      wwaiting.Head();
      writer := wwaiting.head;
      var t := ReadyHeadBeside(wwaiting, runqueue, rwaiting);
      IdsConcat([t], wwaiting.q);
      IdsConcat(old(runqueue.q), [t]);
      grants, last := grants + 1, batches;
    }

    /** runlock by task `t` */
    method RUnlock(t: Task, runqueue: Tasklist)
      requires Valid() && runqueue.Valid() && Separate(rwaiting, runqueue) && Separate(wwaiting, runqueue)
      modifies this, wwaiting, wwaiting.q`next, wwaiting.q`prev, runqueue, runqueue.q`next, runqueue.q`prev
      ensures Valid() && runqueue.Valid() && Separate(rwaiting, runqueue) && Separate(wwaiting, runqueue)
      ensures var r := L.RUnlock(old(Abs()), t.id); Abs() == r.l && Ids(runqueue.q) == Ids(old(runqueue.q)) + r.ready
    {
      readers := readers - 1;
      holders := holders - multiset{t.id};
      wwaiting.Head();
      if readers == 0 && wwaiting.head != null {
        GrantWriter(runqueue);
      }
    }

    /** wunlock's loop over the waiting readers */
    method AdmitReaders(runqueue: Tasklist)
      requires Valid() && runqueue.Valid() && Separate(rwaiting, runqueue) && Separate(wwaiting, runqueue)
      modifies this`readers, this`holders, this`batches, rwaiting, rwaiting.q`next, rwaiting.q`prev,
               runqueue, runqueue.q`next, runqueue.q`prev
      ensures Valid() && runqueue.Valid() && Separate(rwaiting, runqueue) && Separate(wwaiting, runqueue)
      ensures Abs() == L.AdmitReaders(old(Abs())) && runqueue.q == old(runqueue.q) + old(rwaiting.q)
    {
      ghost var waiters := Ids(rwaiting.q);
      var n := ReadyMany(rwaiting, runqueue, true, wwaiting);
      assert Abs() == old(Abs()).(rwaiting := []);
      CountReaders(n, runqueue, waiters);
    }

    method CountReaders(n: nat, runqueue: Tasklist, ghost waiters: seq<nat>)
      requires Valid() && runqueue.Valid() && Separate(rwaiting, runqueue) && Separate(wwaiting, runqueue)
      modifies this`readers, this`holders, this`batches
      ensures Valid() && runqueue.Valid() && Separate(rwaiting, runqueue) && Separate(wwaiting, runqueue)
      ensures Abs() == if n == 0 then old(Abs())
        else old(Abs()).(readers := old(readers) + n, holders := multiset(waiters), batches := old(batches) + 1)
    {
      readers := readers + n;
      if n > 0 {
        holders, batches := multiset(waiters), batches + 1;
      }
    }

    /** wunlock once nobody is inside */
    method AdmitNext(runqueue: Tasklist)
      requires Valid() && runqueue.Valid() && Separate(rwaiting, runqueue) && Separate(wwaiting, runqueue)
      requires writer == null && readers == 0
      modifies this, rwaiting, rwaiting.q`next, rwaiting.q`prev, wwaiting, wwaiting.q`next, wwaiting.q`prev,
               runqueue, runqueue.q`next, runqueue.q`prev
      ensures Valid() && runqueue.Valid() && Separate(rwaiting, runqueue) && Separate(wwaiting, runqueue)
      ensures var r := L.AdmitNext(old(Abs())); Abs() == r.l && Ids(runqueue.q) == Ids(old(runqueue.q)) + r.ready
    {
      IdsConcat(runqueue.q, rwaiting.q);
      AdmitReaders(runqueue);
      wwaiting.Head();
      if readers == 0 && wwaiting.head != null {
        GrantWriter(runqueue);
      }
    }

    /** wunlock; `ok` is false where the source aborts. */
    method WUnlock(runqueue: Tasklist) returns (ok: bool)
      requires Valid() && runqueue.Valid() && Separate(rwaiting, runqueue) && Separate(wwaiting, runqueue)
      modifies this, rwaiting, rwaiting.q`next, rwaiting.q`prev, wwaiting, wwaiting.q`next, wwaiting.q`prev,
               runqueue, runqueue.q`next, runqueue.q`prev
      ensures Valid() && runqueue.Valid() && Separate(rwaiting, runqueue) && Separate(wwaiting, runqueue)
      ensures var r := L.WUnlock(old(Abs()));
        ok == r.ok && (ok ==> Abs() == r.l && Ids(runqueue.q) == Ids(old(runqueue.q)) + r.ready)
    {
      if writer == null {
        return false;
      }
      writer := null;
      if readers != 0 {
        return false;
      }
      AdmitNext(runqueue);
      return true;
    }
  }

  // ----- rendez.c -----

  class Rendez {
    const l: QLock?
    const waiting: Tasklist

    constructor (l: QLock?)
      ensures this.l == l && waiting.Valid() && fresh(waiting) && waiting.q == []
    {
      this.l := l;
      waiting := new Tasklist();
    }

    /** The first step of tasksleep: the task goes on the list. */
    method Enlist(t: Task, runqueue: Tasklist)
      requires waiting.Valid() && t !in waiting.q && t !in runqueue.q && runqueue.Valid() && Separate(waiting, runqueue)
      requires l != null ==>
        t !in l.waiting.q && l.waiting.Valid() && Separate(l.waiting, runqueue) && Separate(waiting, l.waiting)
      modifies waiting, waiting.q`next, waiting.q`prev, t`next, t`prev
      ensures waiting.Valid() && waiting.q == old(waiting.q) + [t] && runqueue.Valid() && Separate(waiting, runqueue)
      ensures l != null ==> l.waiting.Valid() && Separate(waiting, l.waiting)
    {
      ApartSame(waiting.q, runqueue.q);
      AddedApart(waiting.q, runqueue.q, t);
      if l != null {
        ApartSame(waiting.q, l.waiting.q);
        AddedApart(waiting.q, l.waiting.q, t);
      }
      waiting.AddTask(t);
      Stays(runqueue);
      if l != null {
        Stays(l.waiting);
      }
    }

    /** tasksleep up to its task switch; `ok` is false where qunlock aborts. */
    method TaskSleep(t: Task, runqueue: Tasklist) returns (ok: bool)
      requires waiting.Valid() && t !in waiting.q && t !in runqueue.q && runqueue.Valid() && Separate(waiting, runqueue)
      requires l != null ==>
        t !in l.waiting.q && l.waiting.Valid() && Separate(l.waiting, runqueue) && Separate(waiting, l.waiting)
      modifies waiting, waiting.q`next, waiting.q`prev, t`next, t`prev
      modifies runqueue, runqueue.q`next, runqueue.q`prev
      modifies if l == null then {} else {l, l.waiting}
      modifies (if l == null then [] else l.waiting.q)`next, (if l == null then [] else l.waiting.q)`prev
      ensures waiting.Valid() && waiting.q == old(waiting.q) + [t] && runqueue.Valid() && Separate(waiting, runqueue)
      ensures l == null ==> ok && runqueue.q == old(runqueue.q)
      ensures l != null ==> var r := L.Unlock(old(l.Abs()));
        ok == r.ok && l.Abs() == r.l && Ids(runqueue.q) == Ids(old(runqueue.q)) + r.ready
    {
      Enlist(t, runqueue);
      ok := true;
      if l != null {
        ok := l.Unlock(runqueue, waiting);
      }
    }

    /** _taskwakeup */
    method TaskWakeup(all: bool, runqueue: Tasklist) returns (n: nat)
      requires waiting.Valid() && runqueue.Valid() && Separate(waiting, runqueue)
      modifies waiting, waiting.q`next, waiting.q`prev, runqueue, runqueue.q`next, runqueue.q`prev
      ensures waiting.Valid() && runqueue.Valid() && Separate(waiting, runqueue)
      ensures n == if all || old(waiting.q) == [] then |old(waiting.q)| else 1
      ensures waiting.q == old(waiting.q)[n..] && runqueue.q == old(runqueue.q) + old(waiting.q)[..n]
    {
      n := ReadyMany(waiting, runqueue, all, null);
    }
  }
}

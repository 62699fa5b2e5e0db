/** taskdelay and the wake loop of fdtask in their own form: a search for the place of the
    new sleeper, an insertion in the middle of a list, and a loop that readies who is due. */
module TaskClock {
  import opened TaskLists
  import TaskModel

  /** How many of the tasks in `q` are not system tasks. */
  ghost function Users(q: seq<Task>): nat
    reads q`system
  {
    if q == [] then 0 else (if q[0].system then 0 else 1) + Users(q[1..])
  }

  lemma {:induction false} UsersConcat(a: seq<Task>, b: seq<Task>)
    ensures Users(a + b) == Users(a) + Users(b)
  {
    if a == [] {
      assert a + b == b;
    } else {
      assert (a + b)[1..] == a[1..] + b;
      UsersConcat(a[1..], b);
    }
  }

  ghost predicate Sorted(q: seq<Task>)
    reads q`alarmtime
  {
    forall u {:trigger Elems(u)} :: Elems(u) ==> forall i, j :: 0 <= i < j < |q| ==> q[i].alarmtime <= q[j].alarmtime
  }

  function Plus(sleeping: int): int {
    if sleeping > 0 then 1 else 0
  }

  /** Puts `t` before `at`, or at the end if `at` is null: the pointer surgery of taskdelay. */
  method InsertBefore(l: Tasklist, t: Task, at: Task?, ghost i: nat)
    requires l.Valid() && t !in l.q && i <= |l.q| && at == (if i < |l.q| then l.q[i] else null)
    modifies l, l.q`next, l.q`prev, t`next, t`prev
    ensures l.Valid() && l.q == old(l.q)[..i] + [t] + old(l.q)[i..]
  {
    assert Link(0) && Elems(0);
    assert l.q != [] ==> l.tail == l.q[|l.q| - 1];
    assert 0 < i < |l.q| ==> at.prev == l.q[i - 1];
    if at != null {
      t.prev := at.prev;
      t.next := at;
    } else {
      t.prev := l.tail;
      t.next := null;
    }
    if t.prev != null {
      t.prev.next := t;
    } else {
      l.head := t;
    }
    if t.next != null {
      t.next.prev := t;
    } else {
      l.tail := t;
    }
    ghost var r := l.q[..i] + [t] + l.q[i..];
    assert forall k :: 0 <= k < i ==> r[k] == l.q[k];
    assert r[i] == t;
    forall k | i < k < |r| ensures r[k] == l.q[k - 1] { }
    forall k | 0 <= k < |r| - 1 ensures r[k].next == r[k + 1] && r[k + 1].prev == r[k] {
      if k + 1 < i {
        assert l.q[k].next == l.q[k + 1];
      } else if k > i {
        assert l.q[k - 1].next == r[k + 1];
      }
    }
    assert Linked(r, l.head, l.tail) by {
      forall k | 0 < k < |r| ensures r[k].prev == r[k - 1] {
        var j := k - 1;
        assert r[j].next == r[j + 1] && r[j + 1].prev == r[j];
      }
    }
    NoDupWith(l.q, t, i);
    l.q := r;
  }

  lemma NoDupWith(q: seq<Task>, t: Task, i: nat)
    requires NoDup(q) && i <= |q| && t !in q
    ensures NoDup(q[..i] + [t] + q[i..])
  {
    assert Elems(0);
  }

  /** The loop that looks for the place of a sleeper that wakes at `when`. */
  method FindPlace(l: Tasklist, when: nat) returns (at: Task?, ghost i: nat)
    requires l.Valid()
    ensures i <= |l.q| && at == if i < |l.q| then l.q[i] else null
    ensures forall k :: 0 <= k < i ==> l.q[k].alarmtime < when
    ensures at != null ==> when <= at.alarmtime
  {
    assert Link(0);
    i, at := 0, l.head;
    while at != null && at.alarmtime < when
      invariant i <= |l.q| && at == if i < |l.q| then l.q[i] else null
      invariant forall k :: 0 <= k < i ==> l.q[k].alarmtime < when
      decreases |l.q| - i
    {
      at := at.next;
      i := i + 1;
    }
  }

  /** One more entry in its place keeps the order. */
  lemma SortedWith(q: seq<Task>, t: Task, i: nat)
    requires Sorted(q) && i <= |q|
    requires forall k :: 0 <= k < i ==> q[k].alarmtime < t.alarmtime
    requires i < |q| ==> t.alarmtime <= q[i].alarmtime
    ensures Sorted(q[..i] + [t] + q[i..])
  {
    assert Elems(0);
    var r := q[..i] + [t] + q[i..];
    forall a, b | 0 <= a < b < |r| ensures r[a].alarmtime <= r[b].alarmtime {
      if a == i && i < b - 1 { assert q[i].alarmtime <= q[b - 1].alarmtime; }
    }
  }

  lemma HeadLeaves(q: seq<Task>, rest: seq<Task>)
    requires q != [] && rest == q[1..]
    ensures q == [q[0]] + rest && (Sorted(q) ==> Sorted(rest))
    ensures Users(q) == (if q[0].system then 0 else 1) + Users(rest)
  {
    assert Elems(0);
  }

  class Clock {
    const sleeping: Tasklist
    const runqueue: Tasklist
    var sleepingcounted: int
    var taskcount: int

    ghost predicate Valid()
      reads this, sleeping, sleeping.q, runqueue, runqueue.q
    {
      && sleeping.Valid() && runqueue.Valid() && Separate(sleeping, runqueue)
      && Sorted(sleeping.q) && sleepingcounted == Users(sleeping.q)
    }

    constructor ()
      ensures Valid() && sleeping.q == runqueue.q == [] && taskcount == 0
      ensures fresh(sleeping) && fresh(runqueue)
    {
      sleeping := new Tasklist();
      runqueue := new Tasklist();
      sleepingcounted, taskcount := 0, 0;
    }

    method SetAlarm(t: Task, when: nat)
      requires sleeping.Valid() && Sorted(sleeping.q) && t !in sleeping.q
      modifies t`alarmtime
      ensures sleeping.Valid() && Sorted(sleeping.q) && t.alarmtime == when
    {
      t.alarmtime := when;
      Stays(sleeping);
    }

    /** The sleeper goes before `at`, which is in place `i`. */
    method Enter(t: Task, at: Task?, ghost i: nat)
      requires sleeping.Valid() && runqueue.Valid() && Separate(sleeping, runqueue)
      requires t !in sleeping.q && t !in runqueue.q
      requires i <= |sleeping.q| && at == (if i < |sleeping.q| then sleeping.q[i] else null)
      modifies sleeping, sleeping.q`next, sleeping.q`prev, t`next, t`prev
      ensures sleeping.Valid() && runqueue.Valid() && Separate(sleeping, runqueue)
      ensures sleeping.q == old(sleeping.q)[..i] + [t] + old(sleeping.q)[i..]
    {
      ApartSame(sleeping.q, runqueue.q);
      InsertApart(sleeping.q, runqueue.q, t, i);
      InsertBefore(sleeping, t, at, i);
      Stays(runqueue);
    }

    /** The list part of taskdelay. */
    method Enqueue(t: Task, when: nat) returns (ghost i: nat)
      requires sleeping.Valid() && runqueue.Valid() && Separate(sleeping, runqueue) && Sorted(sleeping.q)
      requires t !in sleeping.q && t !in runqueue.q
      modifies sleeping, sleeping.q`next, sleeping.q`prev, t`next, t`prev, t`alarmtime
      ensures sleeping.Valid() && runqueue.Valid() && Separate(sleeping, runqueue) && Sorted(sleeping.q)
      ensures t.alarmtime == when && i <= |old(sleeping.q)|
      ensures sleeping.q == old(sleeping.q)[..i] + [t] + old(sleeping.q)[i..]
      ensures forall k :: 0 <= k < i ==> sleeping.q[k].alarmtime < when
      ensures i < |old(sleeping.q)| ==> when <= old(sleeping.q)[i].alarmtime
    {
      ghost var q := sleeping.q;
      ApartSame(q, runqueue.q);
      SetAlarm(t, when);
      Stays(runqueue);
      var at;
      at, i := FindPlace(sleeping, when);
      Enter(t, at, i);
      SortedWith(q, t, i);
    }

    /** taskdelay up to its task switch; the clock has 64 bits. */
    method TaskDelay(t: Task, ms: nat, now: nat) returns (ghost i: nat)
      requires Valid() && t !in sleeping.q && t !in runqueue.q
      modifies this, sleeping, sleeping.q`next, sleeping.q`prev, t`next, t`prev, t`alarmtime
      ensures Valid() && t.alarmtime == (now + ms * TaskModel.MILLISECOND) % TaskModel.TWO_64 && i <= |old(sleeping.q)|
      ensures sleeping.q == old(sleeping.q)[..i] + [t] + old(sleeping.q)[i..]
      ensures forall k :: 0 <= k < i ==> sleeping.q[k].alarmtime < t.alarmtime
      ensures i < |old(sleeping.q)| ==> t.alarmtime <= old(sleeping.q)[i].alarmtime
      ensures taskcount - Plus(sleepingcounted) == old(taskcount - Plus(sleepingcounted))
    {
      ghost var q := sleeping.q;
      i := Enqueue(t, (now + ms * TaskModel.MILLISECOND) % TaskModel.TWO_64);
      UsersWith(q, t, i);
      CountSleeper(t);
    }

    method CountSleeper(t: Task)
      requires sleepingcounted >= 0
      modifies this`sleepingcounted, this`taskcount
      ensures sleepingcounted == old(sleepingcounted) + if t.system then 0 else 1
      ensures taskcount - Plus(sleepingcounted) == old(taskcount - Plus(sleepingcounted))
    {
      if !t.system {
        if sleepingcounted == 0 {
          taskcount := taskcount + 1;
        }
        sleepingcounted := sleepingcounted + 1;
      }
    }

    method UncountSleeper(t: Task)
      requires sleepingcounted >= if t.system then 0 else 1
      modifies this`sleepingcounted, this`taskcount
      ensures sleepingcounted == old(sleepingcounted) - if t.system then 0 else 1
      ensures taskcount - Plus(sleepingcounted) == old(taskcount - Plus(sleepingcounted))
    {
      if !t.system {
        sleepingcounted := sleepingcounted - 1;
        if sleepingcounted == 0 {
          taskcount := taskcount - 1;
        }
      }
    }

    /** One round of fdtask's wake loop. */
    method WakeOne() returns (t: Task)
      requires Valid() && sleeping.head != null
      modifies this, sleeping, sleeping.q`next, sleeping.q`prev, runqueue, runqueue.q`next, runqueue.q`prev
      ensures Valid() && old(sleeping.q) == [t] + sleeping.q && runqueue.q == old(runqueue.q) + [t]
      ensures taskcount - Plus(sleepingcounted) == old(taskcount - Plus(sleepingcounted))
    {
      ghost var q := sleeping.q;
      sleeping.Head();
      t := ReadyHead(sleeping, runqueue);
      HeadLeaves(q, sleeping.q);
      UncountSleeper(t);
    }

    /** fdtask's wake loop readies exactly the sleepers that are due, in order. */
    method Wake(now: nat) returns (ghost n: nat)
      requires Valid()
      modifies this, sleeping, sleeping.q`next, sleeping.q`prev, runqueue, runqueue.q`next, runqueue.q`prev
      ensures Valid() && n <= |old(sleeping.q)|
      ensures sleeping.q == old(sleeping.q)[n..] && runqueue.q == old(runqueue.q) + old(sleeping.q)[..n]
      ensures forall k :: 0 <= k < |old(sleeping.q)| ==> (k < n <==> old(sleeping.q)[k].alarmtime <= now)
      ensures taskcount - Plus(sleepingcounted) == old(taskcount - Plus(sleepingcounted))
    {
      ghost var q, r := sleeping.q, runqueue.q;
      n := 0;
      sleeping.Head();
      while sleeping.head != null && now >= sleeping.head.alarmtime
        invariant Valid() && n <= |q| && sleeping.q == q[n..] && runqueue.q == r + q[..n]
        invariant sleeping.head == if sleeping.q == [] then null else sleeping.q[0]
        invariant forall k :: 0 <= k < n ==> q[k].alarmtime <= now
        invariant taskcount - Plus(sleepingcounted) == old(taskcount - Plus(sleepingcounted))
        decreases |sleeping.q|
      {
        ghost var q1, r1 := sleeping.q, runqueue.q;
        var t := WakeOne();
        OneMore(q, n, q1, sleeping.q, r, r1, t);
        assert q[n] == t;
        n := n + 1;
        sleeping.Head();
      }
      NotDue(q, n, sleeping.q, now);
    }
  }

  lemma NotDue(q: seq<Task>, n: nat, rest: seq<Task>, now: nat)
    requires n <= |q| && rest == q[n..] && Sorted(rest) && (rest != [] ==> now < rest[0].alarmtime)
    ensures forall k :: n <= k < |q| ==> now < q[k].alarmtime
  {
    assert Elems(0);
    forall k | n <= k < |q| ensures now < q[k].alarmtime {
      assert q[k] == rest[k - n];
    }
  }

  lemma UsersWith(q: seq<Task>, t: Task, i: nat)
    requires i <= |q|
    ensures Users(q[..i] + [t] + q[i..]) == Users(q) + if t.system then 0 else 1
  {
    assert q == q[..i] + q[i..];
    UsersConcat(q[..i], q[i..]);
    UsersConcat(q[..i] + [t], q[i..]);
    UsersConcat(q[..i], [t]);
  }

  lemma InsertApart(q: seq<Task>, r: seq<Task>, t: Task, i: nat)
    requires Apart(q, r) && Apart(r, q) && i <= |q| && t !in r
    ensures Apart(q[..i] + [t] + q[i..], r) && Apart(r, q[..i] + [t] + q[i..])
  {
    ApartSame(q, r);
    var p := q[..i] + [t] + q[i..];
    assert forall k :: 0 <= k < |p| ==> p[k] == t || p[k] in q;
  }
}

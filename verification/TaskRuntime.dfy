/** All task lists at once: every list is linked both ways and no two share a task, and the
    steps of the runtime, carried out on the `next` and `prev` fields, keep it so. */
module TaskRuntime {
  import opened TaskLocks
  import opened TaskModel
  import opened TaskPlaces
  import opened TaskEffects
  import H = TaskLists
  import TaskClock

  /** Which tasks are on which list */
  type Content = map<Place, seq<H.Task>>

  ghost predicate NoneShared(m: Content) {
    forall i {:trigger Look(i)} :: Look(i) ==>
      forall p, q, j, k :: p in m && q in m && 0 <= j < |m[p]| && 0 <= k < |m[q]| && m[p][j] == m[q][k] ==>
        p == q && j == k
  }

  /** The tasks on the lists are those that were created, each with its own number. */
  ghost predicate Numbered(m: Content, tasks: map<nat, H.Task>) {
    forall i {:trigger Look(i)} :: Look(i) ==>
      forall p, j :: p in m && 0 <= j < |m[p]| ==> m[p][j].id in tasks && tasks[m[p][j].id] == m[p][j]
  }

  ghost predicate Unlisted(m: Content, t: H.Task) {
    forall p, j :: p in m && 0 <= j < |m[p]| ==> m[p][j] != t
  }

  /** What is on the other lists is neither on list `p` nor `t`. */
  lemma Elsewhere(m: Content, p: Place, t: H.Task?)
    requires NoneShared(m) && p in m && (t == null || Unlisted(m, t))
    ensures forall q, j {:trigger m[q][j]} :: q in m && q != p && 0 <= j < |m[q]| ==> m[q][j] !in m[p] && m[q][j] != t
  {
    assert Look(0);
  }

  lemma KnownAt(m: Content, tasks: map<nat, H.Task>, p: Place)
    requires Numbered(m, tasks) && p in m
    ensures forall j {:trigger m[p][j]} :: 0 <= j < |m[p]| ==>
      m[p][j].id in tasks && tasks[m[p][j].id] == m[p][j] && m[p][j] in tasks.Values
  {
    assert Look(0);
  }

  lemma NotShared(m: Content, p: Place, q: Place)
    requires NoneShared(m) && p in m && q in m && p != q
    ensures forall j, k {:trigger m[p][j], m[q][k]} :: 0 <= j < |m[p]| && 0 <= k < |m[q]| ==> m[p][j] != m[q][k]
    ensures forall t :: t in m[p] ==> t !in m[q]
  {
    assert Look(0);
  }

  /** `t` enters list `p` in place `i`. */
  lemma Entered(m: Content, tasks: map<nat, H.Task>, p: Place, i: nat, t: H.Task)
    requires NoneShared(m) && Numbered(m, tasks) && Unlisted(m, t) && p in m && i <= |m[p]| && t.id in tasks
    requires tasks[t.id] == t
    ensures var m' := m[p := m[p][..i] + [t] + m[p][i..]]; NoneShared(m') && Numbered(m', tasks)
  {
    assert Look(0);
  }

  /** The head of list `p` leaves it. */
  lemma Left(m: Content, tasks: map<nat, H.Task>, p: Place)
    requires NoneShared(m) && Numbered(m, tasks) && p in m && m[p] != []
    ensures var m' := m[p := m[p][1..]]; NoneShared(m') && Numbered(m', tasks) && Unlisted(m', m[p][0])
  {
    assert Look(0);
  }

  lemma Opened(m: Content, tasks: map<nat, H.Task>, p: Place)
    requires NoneShared(m) && Numbered(m, tasks) && p !in m
    ensures NoneShared(m[p := []]) && Numbered(m[p := []], tasks)
  {
    assert Look(0);
  }

  /** deltask of the head of a list */
  method DelHead(l: H.Tasklist) returns (t: H.Task)
    requires l.Valid() && l.q != []
    modifies l, l.q`next, l.q`prev
    ensures l.Valid() && l.q == old(l.q)[1..] && t == old(l.q)[0]
  {
    l.Head();
    t := l.head;
    l.DelTask(t, 0);
  }

  ghost function ListAt(m: Content, p: Place): seq<H.Task> {
    if p in m then m[p] else []
  }

  /** The lists are those of state `s` of the runtime. */
  ghost predicate Holds(m: Content, tasks: map<nat, H.Task>, s: State) {
    forall i {:trigger Look(i)} :: Look(i) ==>
      && (forall n :: n in tasks <==> 0 < n < s.nextid)
      && (forall n :: n in tasks ==> tasks[n].id == n)
      && (forall p {:trigger On(s, p)} :: H.Ids(ListAt(m, p)) == On(s, p))
  }

  lemma HoldsAt(m: Content, tasks: map<nat, H.Task>, s: State, p: Place)
    requires Holds(m, tasks, s)
    ensures H.Ids(ListAt(m, p)) == On(s, p) && |ListAt(m, p)| == |On(s, p)|
  {
    assert Look(0);
  }

  lemma HoldsSame(m: Content, tasks: map<nat, H.Task>, s: State, s': State)
    requires Holds(m, tasks, s) && Same(s, s')
    ensures Holds(m, tasks, s')
  {
    assert Look(0);
    forall p ensures H.Ids(ListAt(m, p)) == On(s', p) { assert On(s', p) == On(s, p); }
  }

  lemma HoldsOpened(m: Content, tasks: map<nat, H.Task>, s: State, p: Place)
    requires Holds(m, tasks, s) && p !in m
    ensures Holds(m[p := []], tasks, s)
  {
    assert Look(0);
    forall q ensures H.Ids(ListAt(m[p := []], q)) == On(s, q) {
      assert ListAt(m[p := []], q) == ListAt(m, q);
      assert H.Ids(ListAt(m, q)) == On(s, q);
    }
  }

  lemma HoldsAdded(m: Content, tasks: map<nat, H.Task>, s: State, s': State, p: Place, n: nat)
    requires Holds(m, tasks, s) && Added(s, s', p, n) && n in tasks && p in m
    ensures Holds(m[p := m[p] + [tasks[n]]], tasks, s')
  {
    assert Look(0);
    var m' := m[p := m[p] + [tasks[n]]];
    forall q ensures H.Ids(ListAt(m', q)) == On(s', q) {
      assert H.Ids(ListAt(m, q)) == On(s, q);
      assert On(s', q) == On(s, q) + if q == p then [n] else [];
      if q == p { H.IdsConcat(m[p], [tasks[n]]); }
    }
  }

  lemma NotListed(m: Content, tasks: map<nat, H.Task>, s: State, n: nat)
    requires Holds(m, tasks, s) && n in tasks && forall p {:trigger On(s, p)} :: n !in On(s, p)
    ensures Unlisted(m, tasks[n]) && tasks[n].id == n
  {
    assert Look(0);
    forall p, j | p in m && 0 <= j < |m[p]| ensures m[p][j] != tasks[n] {
      assert H.Ids(ListAt(m, p)) == On(s, p);
      assert H.Ids(m[p])[j] == m[p][j].id;
    }
  }

  lemma HoldsBorn(m: Content, tasks: map<nat, H.Task>, s: State, s': State, t: H.Task)
    requires Holds(m, tasks, s) && Born(s, s') && t.id == s.nextid > 0 && RunQ in m
    ensures Holds(m[RunQ := m[RunQ] + [t]], tasks[t.id := t], s')
  {
    assert Look(0);
    var m' := m[RunQ := m[RunQ] + [t]];
    forall q ensures H.Ids(ListAt(m', q)) == On(s', q) {
      assert H.Ids(ListAt(m, q)) == On(s, q);
      assert On(s', q) == On(s, q) + if q == RunQ then [s.nextid] else [];
      if q == RunQ { H.IdsConcat(m[RunQ], [t]); }
    }
  }

  lemma HoldsInserted(m: Content, tasks: map<nat, H.Task>, s: State, s': State, i: nat, n: nat)
    requires Holds(m, tasks, s) && Inserted(s, s', i, n) && n in tasks && Sleepers in m && i <= |m[Sleepers]|
    ensures Holds(m[Sleepers := m[Sleepers][..i] + [tasks[n]] + m[Sleepers][i..]], tasks, s')
  {
    assert Look(0);
    var q := m[Sleepers];
    var m' := m[Sleepers := q[..i] + [tasks[n]] + q[i..]];
    forall p ensures H.Ids(ListAt(m', p)) == On(s', p) {
      assert H.Ids(ListAt(m, p)) == On(s, p);
      if p != Sleepers { assert On(s', p) == On(s, p); }
    }
  }

  lemma HoldsPopped(m: Content, tasks: map<nat, H.Task>, s: State, s': State)
    requires Holds(m, tasks, s) && Popped(s, s') && RunQ in m && m[RunQ] != []
    ensures Holds(m[RunQ := m[RunQ][1..]], tasks, s')
  {
    assert Look(0);
    var m' := m[RunQ := m[RunQ][1..]];
    forall p ensures H.Ids(ListAt(m', p)) == On(s', p) {
      assert H.Ids(ListAt(m, p)) == On(s, p);
      if p != RunQ { assert On(s', p) == On(s, p); }
    }
  }

  /** The first `n` tasks of list `p` have moved to the run queue. */
  ghost predicate After(m: Content, m': Content, p: Place, n: nat) {
    forall i {:trigger Look(i)} :: Look(i) ==>
      && p in m && RunQ in m && p != RunQ && p in m' && n <= |m[p]|
      && m[p] == m[p][..n] + m'[p] && m' == m[p := m'[p]][RunQ := m[RunQ] + m[p][..n]]
  }

  lemma HoldsReadied(m: Content, m': Content, tasks: map<nat, H.Task>, s: State, s': State, p: Place, n: nat)
    requires Holds(m, tasks, s) && Readied(s, s', p, n) && After(m, m', p, n)
    ensures Holds(m', tasks, s')
  {
    assert Look(0);
    forall q ensures H.Ids(ListAt(m', q)) == On(s', q) {
      assert H.Ids(ListAt(m, q)) == On(s, q) && H.Ids(ListAt(m, p)) == On(s, p);
      if q == RunQ {
        H.IdsConcat(m[RunQ], m[p][..n]);
      } else if q == p {
        H.IdsConcat(m[p][..n], m'[p]);
      } else {
        assert On(s', q) == On(s, q);
      }
    }
  }

  lemma ReadiedFits(m: Content, tasks: map<nat, H.Task>, s: State, s': State, p: Place, n: nat)
    requires Holds(m, tasks, s) && Readied(s, s', p, n) && p in m
    ensures p != RunQ && n <= |m[p]|
  {
    HoldsAt(m, tasks, s, p);
  }

  lemma AfterOne(m: Content, p: Place, t: H.Task, rest: seq<H.Task>)
    requires p in m && RunQ in m && p != RunQ && m[p] == [t] + rest
    ensures After(m, m[p := rest][RunQ := m[RunQ] + [t]], p, 1)
  {
    assert m[p][..1] == [t];
  }

  lemma AfterOneMore(m: Content, m1: Content, m2: Content, p: Place, n: nat)
    requires After(m, m1, p, n) && After(m1, m2, p, 1)
    ensures After(m, m2, p, n + 1)
  {
    assert Look(0);
    assert m1[p][0] == m[p][n] && m[p][..n + 1] == m[p][..n] + m1[p][..1];
    assert m[p] == m[p][..n + 1] + m2[p];
    assert m2[RunQ] == m[RunQ] + m[p][..n + 1];
  }

  lemma AfterNone(m: Content, p: Place)
    requires p in m && RunQ in m && p != RunQ
    ensures After(m, m, p, 0)
  {
    assert m[p] == m[p][..0] + m[p] && m[RunQ] + m[p][..0] == m[RunQ];
  }

  lemma AfterLeaves(m: Content, m': Content, p: Place, n: nat)
    requires After(m, m', p, n)
    ensures p in m && p in m' && RunQ in m' && n + |m'[p]| == |m[p]|
  {
    assert Look(0);
  }

  lemma NotYet(m: Content, tasks: map<nat, H.Task>, s: State, n: nat)
    requires Holds(m, tasks, s) && n >= s.nextid
    ensures n !in tasks
  {
    assert Look(0);
  }

  lemma NewTask(m: Content, tasks: map<nat, H.Task>, s: State, t: H.Task)
    requires Holds(m, tasks, s) && Numbered(m, tasks) && t.id == s.nextid && forall n :: n in tasks ==> tasks[n] != t
    ensures Numbered(m, tasks[t.id := t]) && Unlisted(m, t)
  {
    assert Look(0);
  }

  class Runtime {
    var lists: map<Place, H.Tasklist>  // the lists that were ever used; the others are zero
    var tasks: map<nat, H.Task>
    ghost var content: Content

    ghost predicate Linked(p: Place)
      requires p in lists && p in content
      reads this, lists[p], content[p]
    {
      lists[p].q == content[p] && lists[p].Valid()
    }

    ghost predicate Distinct()
      reads this
    {
      && lists.Keys == content.Keys
      && forall i {:trigger Look(i)} :: Look(i) ==>
        forall p, q :: p in lists && q in lists && lists[p] == lists[q] ==> p == q
    }

    lemma Apart(p: Place)
      requires Distinct() && p in lists
      ensures forall q {:trigger lists[q]} :: q in lists && q != p ==> lists[q] != lists[p]
    {
      assert Look(0);
    }

    ghost predicate Valid()
      reads this, lists.Values, tasks.Values
    {
      && Distinct() && NoneShared(content) && Numbered(content, tasks)
      && forall p {:trigger Linked(p)} :: p in lists ==> (KnownAt(content, tasks, p); Linked(p))
    }

    /** Every list is an old one or a new one. */
    twostate predicate Grown()
      reads this
    {
      forall p {:trigger lists[p]} :: p in lists ==> (p in old(lists) && lists[p] == old(lists)[p]) || fresh(lists[p])
    }

    constructor ()
      ensures Valid() && lists == map[] && tasks == map[]
    {
      lists, tasks, content := map[], map[], map[];
    }

    /** The list at place `p`, which is empty if it was never used */
    method Get(p: Place) returns (l: H.Tasklist)
      requires Valid()
      modifies this`lists, this`content
      ensures Valid() && p in lists && lists[p] == l
      ensures content == if p in old(content) then old(content) else old(content)[p := []]
      ensures if p in old(lists) then lists == old(lists) else fresh(l) && lists == old(lists)[p := l]
    {
      if p !in lists {
        Opened(content, tasks, p);
        l := new H.Tasklist();
        lists, content := lists[p := l], content[p := []];
        assert Linked(p);
        forall q | q in lists && q != p ensures Linked(q) { assert old(Linked(q)); }
      }
      l := lists[p];
    }

    /** addtask on a list that is in use */
    method AddTo(p: Place, t: H.Task)
      requires Valid() && p in lists && Unlisted(content, t) && t.id in tasks && tasks[t.id] == t
      modifies lists[p], content[p]`next, content[p]`prev, t`next, t`prev, this`content
      ensures Valid() && content == old(content)[p := old(content)[p] + [t]]
    {
      ghost var m, q0 := content, content[p];
      assert Linked(p);
      Entered(m, tasks, p, |q0|, t);
      Elsewhere(m, p, t);
      assert q0[..|q0|] + [t] + q0[|q0|..] == q0 + [t];
      Apart(p);
      lists[p].AddTask(t);
      OthersLinked(p);
      Record(p, q0 + [t]);
    }

    /** Only list `p` and its tasks were touched, and a task that was on no list. */
    twostate lemma OthersLinked(p: Place)
      requires old(Valid()) && lists == old(lists) && p in lists && content == old(content)
      requires forall q {:trigger lists[q]} :: q in lists && q != p ==> unchanged(lists[q])
      requires forall q, j {:trigger content[q][j]} :: q in content && q != p && 0 <= j < |content[q]| ==>
        var u: H.Task := content[q][j]; unchanged(u`next) && unchanged(u`prev)
      ensures forall q {:trigger Linked(q)} :: q in lists && q != p ==> Linked(q)
    {
      forall q | q in lists && q != p ensures Linked(q) {
        assert old(Linked(q));
        H.Stays(lists[q]);
      }
    }

    /** What list `p` holds now */
    ghost method Record(p: Place, now: seq<H.Task>)
      requires Distinct() && p in lists && lists[p].q == now && lists[p].Valid()
      requires NoneShared(content[p := now]) && Numbered(content[p := now], tasks)
      requires forall q {:trigger Linked(q)} :: q in lists && q != p ==> Linked(q)
      modifies this`content
      ensures Valid() && content == old(content)[p := now]
    {
      content := content[p := now];
      assert Linked(p);
      forall q | q in lists && q != p ensures Linked(q) { assert old(Linked(q)); }
    }

    /** taskdelay's insertion */
    method InsertTo(p: Place, t: H.Task, at: H.Task?, ghost i: nat)
      requires Valid() && p in lists && Unlisted(content, t) && t.id in tasks && tasks[t.id] == t
      requires i <= |content[p]| && at == if i < |content[p]| then content[p][i] else null
      modifies lists[p], content[p]`next, content[p]`prev, t`next, t`prev, this`content
      ensures Valid() && content == old(content)[p := old(content)[p][..i] + [t] + old(content)[p][i..]]
    {
      ghost var m, q0 := content, content[p];
      assert Linked(p);
      Entered(m, tasks, p, i, t);
      Elsewhere(m, p, t);
      assert t !in q0;
      Apart(p);
      TaskClock.InsertBefore(lists[p], t, at, i);
      OthersLinked(p);
      Record(p, q0[..i] + [t] + q0[i..]);
    }

    /** The head of a list leaves it. */
    method TakeHead(p: Place) returns (t: H.Task)
      requires Valid() && p in lists && content[p] != []
      modifies lists[p], content[p]`next, content[p]`prev, this`content
      ensures Valid() && t == old(content)[p][0] && content == old(content)[p := old(content)[p][1..]]
      ensures Unlisted(content, t) && t.id in tasks && tasks[t.id] == t
    {
      ghost var q0 := content[p];
      assert Linked(p);
      Left(content, tasks, p);
      KnownAt(content, tasks, p);
      Elsewhere(content, p, null);
      Apart(p);
      t := DelHead(lists[p]);
      OthersLinked(p);
      Record(p, q0[1..]);
    }

    // ----- the steps of the runtime -----

    /** addtask of task `n`, which is on no list */
    method Enqueue(p: Place, n: nat, ghost s: State, ghost s': State)
      requires Valid() && Holds(content, tasks, s) && Added(s, s', p, n) && n in tasks
      requires forall q {:trigger On(s, q)} :: n !in On(s, q)
      modifies this`lists, this`content, lists.Values, tasks.Values`next, tasks.Values`prev
      ensures Valid() && Holds(content, tasks, s') && Grown()
    {
      var l := Open(p, s);
      NotListed(content, tasks, s, n);
      KnownAt(content, tasks, p);
      HoldsAdded(content, tasks, s, s', p, n);
      AddTo(p, tasks[n]);
    }

    method Open(p: Place, ghost s: State) returns (l: H.Tasklist)
      requires Valid() && Holds(content, tasks, s)
      modifies this`lists, this`content
      ensures Valid() && Holds(content, tasks, s) && p in lists && lists[p] == l
      ensures p in content && Grown() && old(lists.Keys) <= lists.Keys
    {
      if p !in content { HoldsOpened(content, tasks, s, p); }
      l := Get(p);
    }

    /** deltask of the head of a list and taskready of it */
    method MoveHead(p: Place)
      requires Valid() && p != RunQ && p in lists && RunQ in lists && content[p] != []
      modifies this`content, lists[p], lists[RunQ], tasks.Values`next, tasks.Values`prev
      ensures Valid() && After(old(content), content, p, 1)
    {
      KnownAt(content, tasks, p);
      KnownAt(content, tasks, RunQ);
      assert content[p] == [content[p][0]] + content[p][1..];
      AfterOne(content, p, content[p][0], content[p][1..]);
      var t := TakeHead(p);
      AddTo(RunQ, t);
    }

    method MoveHeads(p: Place, n: nat)
      requires Valid() && p != RunQ && p in lists && RunQ in lists && n <= |content[p]|
      modifies this`content, lists[p], lists[RunQ], tasks.Values`next, tasks.Values`prev
      ensures Valid() && After(old(content), content, p, n)
    {
      ghost var m := content;
      AfterNone(m, p);
      for k := 0 to n
        invariant Valid() && After(m, content, p, k)
      {
        ghost var m1 := content;
        AfterLeaves(m, m1, p, k);
        MoveHead(p);
        AfterOneMore(m, m1, content, p, k);
      }
    }

    method OpenBoth(p: Place, n: nat, ghost s: State, ghost s': State)
      requires Valid() && Holds(content, tasks, s) && Readied(s, s', p, n)
      modifies this`lists, this`content
      ensures Valid() && Holds(content, tasks, s) && p in lists && RunQ in lists && Grown()
      ensures p != RunQ && n <= |content[p]|
    {
      var l := Open(p, s);
      l := Open(RunQ, s);
      ReadiedFits(content, tasks, s, s', p, n);
    }

    /** The first `n` tasks of a list are made ready, one after the other. */
    method Ready(p: Place, n: nat, ghost s: State, ghost s': State)
      requires Valid() && Holds(content, tasks, s) && Readied(s, s', p, n)
      modifies this`lists, this`content, lists.Values, tasks.Values`next, tasks.Values`prev
      ensures Valid() && Holds(content, tasks, s') && Grown()
    {
      OpenBoth(p, n, s, s');
      ghost var m := content;
      MoveHeads(p, n);
      HoldsReadied(m, content, tasks, s, s', p, n);
    }

    /** The scheduler takes the task at the head of the run queue. */
    method Pop(ghost s: State, ghost s': State) returns (t: H.Task)
      requires Valid() && Holds(content, tasks, s) && Popped(s, s')
      modifies this`lists, this`content, lists.Values, tasks.Values`next, tasks.Values`prev
      ensures Valid() && Holds(content, tasks, s') && Grown() && t.id == s.runq[0]
    {
      var runqueue := Open(RunQ, s);
      HoldsAt(content, tasks, s, RunQ);
      KnownAt(content, tasks, RunQ);
      HoldsPopped(content, tasks, s, s');
      t := TakeHead(RunQ);
    }

    /** taskcreate */
    method Create(ghost s: State, ghost s': State, n: nat)
      requires Valid() && Holds(content, tasks, s) && Born(s, s') && n == s.nextid > 0
      modifies this, lists.Values, tasks.Values`next, tasks.Values`prev
      ensures Valid() && Holds(content, tasks, s') && Grown()
      ensures n in tasks && fresh(tasks[n]) && tasks == old(tasks)[n := tasks[n]] && n !in old(tasks)
    {
      var runqueue := Open(RunQ, s);
      KnownAt(content, tasks, RunQ);
      var t := new H.Task(n);
      HoldsBorn(content, tasks, s, s', t);
      Register(t, s);
      AddTo(RunQ, t);
    }

    /** The task goes into the table of all tasks. */
    method Register(t: H.Task, ghost s: State)
      requires Valid() && Holds(content, tasks, s) && t.id == s.nextid && forall n :: n in tasks ==> tasks[n] != t
      modifies this`tasks
      ensures Valid() && Unlisted(content, t) && tasks == old(tasks)[t.id := t]
      ensures t.id !in old(tasks)
    {
      NewTask(content, tasks, s, t);
      NotYet(content, tasks, s, t.id);
      tasks := tasks[t.id := t];
      forall q | q in lists ensures Linked(q) { assert old(Linked(q)); }
    }

    /** The alarm times of the sleepers are those of state `s`. */
    ghost predicate Alarmed(s: State)
      reads this, tasks.Values
    {
      forall n {:trigger n in s.sleeping} :: n in s.sleeping ==> n in tasks && tasks[n].alarmtime == Alarm(s, n)
    }

    twostate lemma AlarmedStays(s: State)
      requires old(Alarmed(s)) && tasks == old(tasks)
      requires forall n :: n in tasks ==> tasks[n].alarmtime == old(tasks[n].alarmtime)
      ensures Alarmed(s)
    {
    }

    /** New tasks do not matter to those that sleep. */
    twostate lemma AlarmedGrows(s: State)
      requires old(Alarmed(s)) && forall n :: n in old(tasks) ==> n in tasks && tasks[n] == old(tasks)[n]
      requires forall n :: n in old(tasks) ==> old(tasks)[n].alarmtime == old(tasks[n].alarmtime)
      ensures Alarmed(s)
    {
    }

    lemma SleeperAt(s: State, j: nat)
      requires Holds(content, tasks, s) && Numbered(content, tasks) && Sleepers in content && Alarmed(s)
      requires j < |content[Sleepers]|
      ensures j < |s.sleeping| == |content[Sleepers]| && content[Sleepers][j].alarmtime == Alarm(s, s.sleeping[j])
    {
      HoldsAt(content, tasks, s, Sleepers);
      KnownAt(content, tasks, Sleepers);
      assert H.Ids(content[Sleepers])[j] == content[Sleepers][j].id;
      assert On(s, Sleepers) == s.sleeping && s.sleeping[j] in s.sleeping;
    }

    /** The search of taskdelay ends where the model says. */
    lemma SamePlace(s: State, when: nat, i: nat)
      requires Holds(content, tasks, s) && Numbered(content, tasks) && Sleepers in content && Alarmed(s)
      requires i <= |content[Sleepers]|
      requires forall k :: 0 <= k < i ==> content[Sleepers][k].alarmtime < when
      requires i < |content[Sleepers]| ==> when <= content[Sleepers][i].alarmtime
      ensures i == SleepPlace(s, when)
    {
      var j := SleepPlace(s, when);
      HoldsAt(content, tasks, s, Sleepers);
      assert |s.sleeping| == |content[Sleepers]|;
      if i < j { SleeperAt(s, i); }
      if j < i { SleeperAt(s, j); }
    }

    /** taskdelay of a task that is on no list */
    method FallAsleep(t: H.Task, when: nat, ghost s: State, ghost s': State)
      requires Valid() && Holds(content, tasks, s) && Alarmed(s) && Inserted(s, s', SleepPlace(s, when), t.id)
      requires t.id in tasks && tasks[t.id] == t && forall q {:trigger On(s, q)} :: t.id !in On(s, q)
      modifies this`lists, this`content, lists.Values, tasks.Values`next, tasks.Values`prev, t`alarmtime
      ensures Valid() && Holds(content, tasks, s') && Grown() && t.alarmtime == when
    {
      var at, i := Search(when, s);
      NotListed(content, tasks, s, t.id);
      KnownAt(content, tasks, Sleepers);
      HoldsInserted(content, tasks, s, s', i, t.id);
      SetAlarm(t, when);
      InsertTo(Sleepers, t, at, i);
    }

    method Search(when: nat, ghost s: State) returns (at: H.Task?, ghost i: nat)
      requires Valid() && Holds(content, tasks, s) && Alarmed(s)
      modifies this`lists, this`content
      ensures Valid() && Holds(content, tasks, s) && Grown()
      ensures Sleepers in lists && i == SleepPlace(s, when) <= |content[Sleepers]|
      ensures at == if i < |content[Sleepers]| then content[Sleepers][i] else null
    {
      var l := Open(Sleepers, s);
      assert Linked(Sleepers);
      at, i := TaskClock.FindPlace(l, when);
      SamePlace(s, when, i);
    }

    method SetAlarm(t: H.Task, when: nat)
      requires Valid() && Unlisted(content, t)
      modifies t`alarmtime
      ensures Valid() && t.alarmtime == when
    {
      t.alarmtime := when;
      forall q | q in lists ensures Linked(q) { assert old(Linked(q)); }
    }

    /** The test of the wake loop */
    method HeadIsDue(now: nat, ghost s: State) returns (due: bool)
      requires Valid() && Holds(content, tasks, s) && Alarmed(s)
      modifies this`lists, this`content
      ensures Valid() && Holds(content, tasks, s) && Alarmed(s) && Grown()
      ensures due <==> s.sleeping != [] && now >= Alarm(s, s.sleeping[0])
    {
      var l := Open(Sleepers, s);
      assert Linked(Sleepers);
      l.Head();
      HoldsAt(content, tasks, s, Sleepers);
      assert |s.sleeping| == |content[Sleepers]|;
      if l.head == null {
        return false;
      }
      SleeperAt(s, 0);
      due := now >= l.head.alarmtime;
    }
  }
}

/** Surgery on the doubly linked lists of utlist.h: each macro keeps the whole shape of the list
    (DL: the head's prev is the tail and the tail's next is NULL; CDL: a closed ring). */
module UtListOps {
  import opened UtList

  function Insert<T>(q: seq<T>, i: nat, x: T): seq<T>
    requires i <= |q|
  {
    q[..i] + [x] + q[i..]
  }

  lemma NoDupFrom(s: seq<Node>)
    requires forall i, j :: 0 <= i < j < |s| ==> s[i] != s[j]
    ensures NoDup(s)
  {
  }

  lemma InsertNoDup(q: seq<Node>, i: nat, x: Node)
    requires NoDup(q) && i <= |q| && x !in q
    ensures NoDup(Insert(q, i, x))
  {
    NoDupMeansDistinct(q);
    NoDupFrom(Insert(q, i, x));
  }

  lemma CutNoDup(q: seq<Node>, i: nat)
    requires NoDup(q) && i < |q|
    ensures NoDup(Cut(q, i))
  {
    NoDupMeansDistinct(q);
    NoDupFrom(Cut(q, i));
  }

  lemma UpdateNoDup(q: seq<Node>, i: nat, x: Node)
    requires NoDup(q) && i < |q| && x !in q
    ensures NoDup(q[i := x])
  {
    NoDupMeansDistinct(q);
    NoDupFrom(q[i := x]);
  }

  lemma JoinNoDup(q: seq<Node>, r: seq<Node>)
    requires NoDup(q) && NoDup(r) && forall i, j :: 0 <= i < |q| && 0 <= j < |r| ==> q[i] != r[j]
    ensures NoDup(q + r)
  {
    NoDupMeansDistinct(q);
    NoDupMeansDistinct(r);
    NoDupFrom(q + r);
  }

  ghost predicate Nexts(s: seq<Node>)
    reads s
  {
    forall i {:trigger s[i].next} :: 0 <= i < |s| - 1 ==> s[i].next == s[i + 1]
  }

  ghost predicate Prevs(s: seq<Node>)
    reads s
  {
    forall i {:trigger s[i].prev} :: 0 < i < |s| ==> s[i].prev == s[i - 1]
  }

  lemma ShapedDL(s: seq<Node>, head: Node)
    requires s != [] && NoDup(s) && Nexts(s) && Prevs(s)
    requires head == s[0] && s[0].prev == s[|s| - 1] && s[|s| - 1].next == null
    ensures IsDL(s, head)
  {
  }

  lemma ShapedCDL(s: seq<Node>, head: Node)
    requires s != [] && NoDup(s) && Nexts(s) && Prevs(s)
    requires head == s[0] && s[0].prev == s[|s| - 1] && s[|s| - 1].next == head
    ensures IsCDL(s, head)
  {
  }

  /** The links of s are in order except at place i, where there is room for another node. */
  ghost predicate Gap(s: seq<Node>, i: nat)
    reads s
  {
    && (forall k {:trigger s[k].next} :: 0 <= k < |s| - 1 && k + 1 != i ==> s[k].next == s[k + 1])
    && (forall k {:trigger s[k].prev} :: 0 < k < |s| && k != i ==> s[k].prev == s[k - 1])
  }

  lemma InsertNext(s: seq<Node>, i: nat, x: Node, k: nat)
    requires i <= |s| && Gap(s, i) && k < |s|
    requires i > 0 ==> s[i - 1].next == x
    requires i < |s| ==> x.next == s[i]
    ensures Insert(s, i, x)[k].next == Insert(s, i, x)[k + 1]
  {
    var r := Insert(s, i, x);
    if k < i - 1 {
      assert r[k] == s[k] && r[k + 1] == s[k + 1];
    } else if k == i - 1 {
      assert r[k] == s[k] && r[k + 1] == x;
    } else if k == i {
      assert r[k] == x && r[k + 1] == s[k];
    } else {
      assert r[k] == s[k - 1] && r[k + 1] == s[k];
    }
  }

  lemma InsertPrev(s: seq<Node>, i: nat, x: Node, k: nat)
    requires i <= |s| && Gap(s, i) && 0 < k <= |s|
    requires i > 0 ==> x.prev == s[i - 1]
    requires i < |s| ==> s[i].prev == x
    ensures Insert(s, i, x)[k].prev == Insert(s, i, x)[k - 1]
  {
    var r := Insert(s, i, x);
    if k < i {
      assert r[k] == s[k] && r[k - 1] == s[k - 1];
    } else if k == i {
      assert r[k] == x && r[k - 1] == s[k - 1];
    } else if k == i + 1 {
      assert r[k] == s[k - 1] && r[k - 1] == x;
    } else {
      assert r[k] == s[k - 1] && r[k - 1] == s[k - 2];
    }
  }

  lemma InsertLinks(s: seq<Node>, i: nat, x: Node)
    requires i <= |s| && Gap(s, i)
    requires i > 0 ==> s[i - 1].next == x && x.prev == s[i - 1]
    requires i < |s| ==> s[i].prev == x && x.next == s[i]
    ensures Nexts(Insert(s, i, x)) && Prevs(Insert(s, i, x))
  {
    forall k | 0 <= k < |s| ensures Insert(s, i, x)[k].next == Insert(s, i, x)[k + 1] { InsertNext(s, i, x, k); }
    forall k | 0 < k <= |s| ensures Insert(s, i, x)[k].prev == Insert(s, i, x)[k - 1] { InsertPrev(s, i, x, k); }
  }

  lemma InsertEnds(s: seq<Node>, i: nat, x: Node)
    requires i <= |s|
    ensures var r := Insert(s, i, x);
      && |r| == |s| + 1 && r[0] == (if i == 0 then x else s[0]) && r[|s|] == if i == |s| then x else s[|s| - 1]
  {
  }

  lemma InsertDL(s: seq<Node>, i: nat, x: Node, head: Node)
    requires i <= |s| && NoDup(s) && x !in s && Gap(s, i)
    requires i > 0 ==> s[i - 1].next == x && x.prev == s[i - 1]
    requires i < |s| ==> s[i].prev == x && x.next == s[i]
    requires head == (if i == 0 then x else s[0])
    requires var last := if i == |s| then x else s[|s| - 1]; head.prev == last && last.next == null
    ensures IsDL(Insert(s, i, x), head)
  {
    InsertNoDup(s, i, x);
    InsertLinks(s, i, x);
    InsertEnds(s, i, x);
    ShapedDL(Insert(s, i, x), head);
  }

  lemma InsertCDL(s: seq<Node>, i: nat, x: Node, head: Node)
    requires i <= |s| && NoDup(s) && x !in s && Gap(s, i)
    requires i > 0 ==> s[i - 1].next == x && x.prev == s[i - 1]
    requires i < |s| ==> s[i].prev == x && x.next == s[i]
    requires head == (if i == 0 then x else s[0])
    requires var last := if i == |s| then x else s[|s| - 1]; head.prev == last && last.next == head
    ensures IsCDL(Insert(s, i, x), head)
  {
    InsertNoDup(s, i, x);
    InsertLinks(s, i, x);
    InsertEnds(s, i, x);
    ShapedCDL(Insert(s, i, x), head);
  }

  /** The links of s are in order except around place i. */
  ghost predicate Loose(s: seq<Node>, i: nat)
    reads s
  {
    && (forall k {:trigger s[k].next} :: 0 <= k < |s| - 1 && k + 1 != i && k != i ==> s[k].next == s[k + 1])
    && (forall k {:trigger s[k].prev} :: 0 < k < |s| && k != i && k != i + 1 ==> s[k].prev == s[k - 1])
  }

  lemma CutLinks(s: seq<Node>, i: nat)
    requires i < |s| && Loose(s, i)
    requires 0 < i < |s| - 1 ==> s[i - 1].next == s[i + 1] && s[i + 1].prev == s[i - 1]
    ensures Nexts(Cut(s, i)) && Prevs(Cut(s, i))
  {
    var r := Cut(s, i);
    forall k | 0 <= k < |r| - 1 ensures r[k].next == r[k + 1] {
      assert r[k] == s[if k < i then k else k + 1] && r[k + 1] == s[if k + 1 < i then k + 1 else k + 2];
    }
    forall k | 0 < k < |r| ensures r[k].prev == r[k - 1] {
      assert r[k] == s[if k < i then k else k + 1] && r[k - 1] == s[if k - 1 < i then k - 1 else k];
    }
  }

  lemma UpdateLinks(s: seq<Node>, i: nat, x: Node)
    requires i < |s| && Loose(s, i)
    requires i > 0 ==> s[i - 1].next == x && x.prev == s[i - 1]
    requires i < |s| - 1 ==> s[i + 1].prev == x && x.next == s[i + 1]
    ensures Nexts(s[i := x]) && Prevs(s[i := x])
  {
    var r := s[i := x];
    forall k | 0 <= k < |r| - 1 ensures r[k].next == r[k + 1] {
      assert r[k] == (if k == i then x else s[k]) && r[k + 1] == if k + 1 == i then x else s[k + 1];
    }
    forall k | 0 < k < |r| ensures r[k].prev == r[k - 1] {
      assert r[k] == (if k == i then x else s[k]) && r[k - 1] == if k - 1 == i then x else s[k - 1];
    }
  }

  lemma JoinLinks(s: seq<Node>, t: seq<Node>)
    requires s != [] && t != [] && Nexts(s) && Nexts(t) && Prevs(s) && Prevs(t)
    requires s[|s| - 1].next == t[0] && t[0].prev == s[|s| - 1]
    ensures Nexts(s + t) && Prevs(s + t)
  {
    var r := s + t;
    forall k | 0 <= k < |r| - 1 ensures r[k].next == r[k + 1] {
      assert k >= |s| ==> r[k] == t[k - |s|] && r[k + 1] == t[k - |s| + 1];
    }
    forall k | 0 < k < |r| ensures r[k].prev == r[k - 1] {
      assert k > |s| ==> r[k] == t[k - |s|] && r[k - 1] == t[k - |s| - 1];
    }
  }

  /** The place before i, going round */
  ghost function Before<T>(q: seq<T>, i: nat): nat
    requires i < |q|
  {
    if i == 0 then |q| - 1 else i - 1
  }

  /** The place after i, going round */
  ghost function Behind<T>(q: seq<T>, i: nat): nat
    requires i < |q|
  {
    if i == |q| - 1 then 0 else i + 1
  }

  /** DL_PREPEND .. DL_PREPEND_ELEM. q is the list. */
  class DList {
    var head: Node?
    ghost var q: seq<Node>

    constructor ()
      ensures Valid() && q == []
    {
      head, q := null, [];
    }

    ghost predicate Valid()
      reads this, q
    {
      IsDL(q, head)
    }

    /** What the shape says, unfolded */
    lemma Links()
      requires Valid()
      ensures NoDup(q) && Nexts(q) && Prevs(q) && (head == null <==> q == [])
      ensures q != [] ==> head == q[0] && q[0] in q && q[|q| - 1] in q
      ensures q != [] ==> q[0].prev == q[|q| - 1] && q[|q| - 1].next == null
    {
      assert Shape(0);
    }

    /** A node and its neighbours */
    lemma Around(i: nat)
      requires Valid() && i < |q|
      ensures q[i].next == (if i == |q| - 1 then null else q[i + 1])
      ensures q[i].prev == q[Before(q, i)] && head == q[0] && (q[i] == head <==> i == 0)
    {
      assert Shape(0);
      Apart(0);
    }

    lemma Apart(i: nat)
      requires Valid() && i < |q|
      ensures forall k :: 0 <= k < |q| && k != i ==> q[k] != q[i]
    {
      assert NoDup(q) by { assert Shape(0); }
      assert At(i);
      forall k | 0 <= k < |q| && k != i ensures q[k] != q[i] { assert At(k); }
    }

    method Prepend(add: Node)
      requires Valid() && add !in q
      modifies this, q, add
      ensures Valid() && q == [add] + old(q)
    {
      ghost var s := q;
      Links();
      if s != [] { Apart(0); }
      add.next := head;
      if head != null {
        add.prev := head.prev;
        head.prev := add;
      } else {
        add.prev := add;
      }
      head := add;
      q := Insert(s, 0, add);
      assert forall k {:trigger s[k].prev} :: 0 <= k < |s| && k != 0 ==> s[k].prev == old(s[k].prev);
      assert forall k {:trigger s[k].next} :: 0 <= k < |s| && true ==> s[k].next == old(s[k].next);
      assert Gap(s, 0);
      InsertDL(s, 0, add, add);
    }

    method Append(add: Node)
      requires Valid() && add !in q
      modifies this, q, add
      ensures Valid() && q == old(q) + [add]
    {
      ghost var s := q;
      Links();
      if s != [] { Apart(0); Apart(|s| - 1); }
      if head != null {
        add.prev := head.prev;
        head.prev.next := add;
        head.prev := add;
        add.next := null;
      } else {
        head := add;
        head.prev := head;
        head.next := null;
      }
      q := Insert(s, |s|, add);
      assert forall k {:trigger s[k].prev} :: 0 <= k < |s| && k != 0 ==> s[k].prev == old(s[k].prev);
      assert forall k {:trigger s[k].next} :: 0 <= k < |s| && k != |s| - 1 ==> s[k].next == old(s[k].next);
      assert Gap(s, |s|);
      InsertDL(s, |s|, add, head);
    }

    /** The second list becomes the end of this one and is a list no more. */
    method Concat(other: DList)
      requires Valid() && other.Valid() && other != this
      requires forall i, j :: 0 <= i < |q| && 0 <= j < |other.q| ==> q[i] != other.q[j]
      modifies this, q, other.q
      ensures Valid() && q == old(q) + old(other.q)
    {
      ghost var s, t := q, other.q;
      Links();
      other.Links();
      JoinNoDup(s, t);
      var head2 := other.head;
      if head2 != null {
        if head != null {
          Join(other);
        } else {
          head := head2;
          q := t;
          assert s + t == t;
        }
      } else {
        assert s + t == s;
      }
    }

    method Join(other: DList)
      requires Valid() && other.Valid() && other != this && q != [] && other.q != [] && NoDup(q + other.q)
      requires forall i, j :: 0 <= i < |q| && 0 <= j < |other.q| ==> q[i] != other.q[j]
      modifies this, q, other.q
      ensures Valid() && q == old(q) + old(other.q)
    {
      ghost var s, t := q, other.q;
      Links();
      other.Links();
      Apart(0);
      Apart(|s| - 1);
      other.Apart(0);
      var head2 := other.head;
      var tmp := head2.prev;
      head2.prev := head.prev;
      head.prev.next := head2;
      head.prev := tmp;
      q := s + t;
      assert forall k {:trigger s[k].prev} :: 0 < k < |s| ==> s[k].prev == old(s[k].prev);
      assert forall k {:trigger s[k].next} :: 0 <= k < |s| - 1 ==> s[k].next == old(s[k].next);
      assert forall k {:trigger t[k].prev} :: 0 < k < |t| ==> t[k].prev == old(t[k].prev);
      assert forall k {:trigger t[k].next} :: 0 <= k < |t| ==> t[k].next == old(t[k].next);
      JoinLinks(s, t);
      assert q[0] == s[0] && q[|q| - 1] == t[|t| - 1];
      ShapedDL(q, head);
    }

    method Delete(del: Node, ghost i: nat)
      requires Valid() && i < |q| && q[i] == del
      modifies this, q
      ensures Valid() && q == Cut(old(q), i)
    {
      ghost var s, p, n := q, Before(q, i), Behind(q, i);
      Links();
      Around(i);
      Apart(i);
      Apart(p);
      Apart(n);
      CutNoDup(s, i);
      if del.prev == del {
        head := null;
      } else if del == head {
        del.next.prev := del.prev;
        head := del.next;
      } else {
        del.prev.next := del.next;
        if del.next != null {
          del.next.prev := del.prev;
        } else {
          head.prev := del.prev;
        }
      }
      q := Cut(s, i);
      assert forall k {:trigger s[k].prev} :: 0 <= k < |s| && k != n ==> s[k].prev == old(s[k].prev);
      assert forall k {:trigger s[k].next} :: 0 <= k < |s| && k != p ==> s[k].next == old(s[k].next);
      assert Loose(s, i);
      CutLinks(s, i);
      if |s| > 1 { ShapedDL(q, head); }
    }

    method ReplaceElem(el: Node, add: Node, ghost i: nat)
      requires Valid() && i < |q| && q[i] == el && add !in q
      modifies this, q, add
      ensures Valid() && q == old(q)[i := add]
    {
      ghost var s, p, n := q, Before(q, i), Behind(q, i);
      Links();
      Around(i);
      Apart(i);
      Apart(p);
      Apart(n);
      UpdateNoDup(s, i, add);
      if head == el {
        head := add;
        add.next := el.next;
        if el.next == null {
          add.prev := add;
        } else {
          add.prev := el.prev;
          add.next.prev := add;
        }
      } else {
        add.next := el.next;
        add.prev := el.prev;
        add.prev.next := add;
        if el.next == null {
          head.prev := add;
        } else {
          add.next.prev := add;
        }
      }
      q := s[i := add];
      assert forall k {:trigger s[k].prev} :: 0 <= k < |s| && k != n ==> s[k].prev == old(s[k].prev);
      assert forall k {:trigger s[k].next} :: 0 <= k < |s| && k != p ==> s[k].next == old(s[k].next);
      assert Loose(s, i);
      UpdateLinks(s, i, add);
      ShapedDL(q, head);
    }

    method PrependElem(el: Node, add: Node, ghost i: nat)
      requires Valid() && i < |q| && q[i] == el && add !in q
      modifies this, q, add
      ensures Valid() && q == Insert(old(q), i, add)
    {
      ghost var s, p := q, Before(q, i);
      Links();
      Around(i);
      Apart(i);
      Apart(p);
      add.next := el;
      add.prev := el.prev;
      el.prev := add;
      if head == el {
        head := add;
      } else {
        add.prev.next := add;
      }
      q := Insert(s, i, add);
      assert forall k {:trigger s[k].prev} :: 0 <= k < |s| && k != i ==> s[k].prev == old(s[k].prev);
      assert forall k {:trigger s[k].next} :: 0 <= k < |s| && k != p ==> s[k].next == old(s[k].next);
      assert Gap(s, i);
      assert s[|s| - 1] != add;
      if i == 0 {
        assert add.prev == s[p];
      } else {
        assert s[0].prev == s[|s| - 1];
      }
      InsertDL(s, i, add, head);
    }
  }

  /** CDL_PREPEND .. CDL_PREPEND_ELEM */
  class CList {
    var head: Node?
    ghost var q: seq<Node>

    constructor ()
      ensures Valid() && q == []
    {
      head, q := null, [];
    }

    ghost predicate Valid()
      reads this, q
    {
      IsCDL(q, head)
    }

    /** What the shape says, unfolded */
    lemma Links()
      requires Valid()
      ensures NoDup(q) && Nexts(q) && Prevs(q) && (head == null <==> q == [])
      ensures q != [] ==> head == q[0] && q[0] in q && q[|q| - 1] in q
      ensures q != [] ==> q[0].prev == q[|q| - 1] && q[|q| - 1].next == q[0]
    {
      assert Shape(0);
    }

    /** A node and its neighbours */
    lemma Around(i: nat)
      requires Valid() && i < |q|
      ensures q[i].next == (if i == |q| - 1 then q[0] else q[i + 1])
      ensures q[i].prev == q[Before(q, i)] && head == q[0] && (q[i] == head <==> i == 0)
    {
      assert Shape(0);
      Apart(0);
    }

    lemma Apart(i: nat)
      requires Valid() && i < |q|
      ensures forall k :: 0 <= k < |q| && k != i ==> q[k] != q[i]
    {
      assert NoDup(q) by { assert Shape(0); }
      assert At(i);
      forall k | 0 <= k < |q| && k != i ensures q[k] != q[i] { assert At(k); }
    }

    method Prepend(add: Node)
      requires Valid() && add !in q
      modifies this, q, add
      ensures Valid() && q == [add] + old(q)
    {
      ghost var s := q;
      Links();
      if s != [] { Apart(0); Apart(|s| - 1); }
      if head != null {
        add.prev := head.prev;
        add.next := head;
        head.prev := add;
        add.prev.next := add;
      } else {
        add.prev := add;
        add.next := add;
      }
      head := add;
      q := Insert(s, 0, add);
      assert forall k {:trigger s[k].prev} :: 0 <= k < |s| && k != 0 ==> s[k].prev == old(s[k].prev);
      assert forall k {:trigger s[k].next} :: 0 <= k < |s| && k != |s| - 1 ==> s[k].next == old(s[k].next);
      assert Gap(s, 0);
      InsertCDL(s, 0, add, add);
    }

    method Delete(del: Node, ghost i: nat)
      requires Valid() && i < |q| && q[i] == del
      modifies this, q
      ensures Valid() && q == Cut(old(q), i)
    {
      ghost var s, p, n := q, Before(q, i), Behind(q, i);
      Links();
      Around(i);
      Apart(i);
      Apart(p);
      Apart(n);
      CutNoDup(s, i);
      if head == del && head.next == head {
        head := null;
      } else {
        del.next.prev := del.prev;
        del.prev.next := del.next;
        if del == head {
          head := del.next;
        }
      }
      q := Cut(s, i);
      assert forall k {:trigger s[k].prev} :: 0 <= k < |s| && k != n ==> s[k].prev == old(s[k].prev);
      assert forall k {:trigger s[k].next} :: 0 <= k < |s| && k != p ==> s[k].next == old(s[k].next);
      assert Loose(s, i);
      CutLinks(s, i);
      if |s| > 1 { ShapedCDL(q, head); }
    }

    method ReplaceElem(el: Node, add: Node, ghost i: nat)
      requires Valid() && i < |q| && q[i] == el && add !in q
      modifies this, q, add
      ensures Valid() && q == old(q)[i := add]
    {
      ghost var s, p, n := q, Before(q, i), Behind(q, i);
      Links();
      Around(i);
      Apart(i);
      Apart(p);
      Apart(n);
      UpdateNoDup(s, i, add);
      if el.next == el {
        add.next := add;
        add.prev := add;
        head := add;
      } else {
        add.next := el.next;
        add.prev := el.prev;
        add.next.prev := add;
        add.prev.next := add;
        if head == el {
          head := add;
        }
      }
      q := s[i := add];
      assert forall k {:trigger s[k].prev} :: 0 <= k < |s| && k != n ==> s[k].prev == old(s[k].prev);
      assert forall k {:trigger s[k].next} :: 0 <= k < |s| && k != p ==> s[k].next == old(s[k].next);
      assert Loose(s, i);
      UpdateLinks(s, i, add);
      ShapedCDL(q, head);
    }

    method PrependElem(el: Node, add: Node, ghost i: nat)
      requires Valid() && i < |q| && q[i] == el && add !in q
      modifies this, q, add
      ensures Valid() && q == Insert(old(q), i, add)
    {
      ghost var s, p := q, Before(q, i);
      Links();
      Around(i);
      Apart(i);
      Apart(p);
      add.next := el;
      add.prev := el.prev;
      el.prev := add;
      add.prev.next := add;
      if head == el {
        head := add;
      }
      q := Insert(s, i, add);
      assert forall k {:trigger s[k].prev} :: 0 <= k < |s| && k != i ==> s[k].prev == old(s[k].prev);
      assert forall k {:trigger s[k].next} :: 0 <= k < |s| && k != p ==> s[k].next == old(s[k].next);
      assert Gap(s, i);
      assert s[|s| - 1] != add;
      if i == 0 {
        assert add.prev == s[p];
      } else {
        assert s[0].prev == s[|s| - 1];
      }
      InsertCDL(s, i, add, head);
    }
  }
}

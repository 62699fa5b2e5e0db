/** The application order of a hash: the doubly linked list through all its elements, with a
    tail, and HASH_SRT, which sorts it in place. */
module UtHashApp {
  import opened MergeSort
  import opened UtList
  import Ops = UtListOps

  class AppList {
    var head: Node?
    var tail: Node?
    ghost var q: seq<Node>

    constructor ()
      ensures Valid() && q == []
    {
      head, tail, q := null, null, [];
    }

    ghost predicate Valid()
      reads this, q
    {
      IsApp(q, head, tail)
    }

    /** The list part of HASH_ADD_KEYPTR */
    method Append(add: Node)
      requires Valid() && add !in q
      modifies this, q`next, add`next, add`prev
      ensures Valid() && q == old(q) + [add]
    {
      assert Shape(0);
      add.next := null;
      if head == null {
        head := add;
        add.prev := null;
      } else {
        tail.next := add;
        add.prev := tail;
      }
      tail := add;
      NoDupAppend(q, add);
      q := q + [add];
    }

    lemma Ends(del: Node, i: nat)
      requires Valid() && i < |q| && q[i] == del
      ensures del.prev == (if i == 0 then null else q[i - 1]) && del.next == if i == |q| - 1 then null else q[i + 1]
      ensures head == q[0] && tail == q[|q| - 1] && NoDup(q)
    {
      assert Shape(0);
    }

    /** The list part of HASH_DELETE; `i` is the place of the element. */
    method Remove(del: Node, ghost i: nat)
      requires Valid() && i < |q| && q[i] == del
      modifies this, q`next, q`prev
      ensures Valid() && q == old(q)[..i] + old(q)[i + 1..]
    {
      ghost var s := q;
      Ends(del, i);
      Chain();
      Apart(i);
      if i > 0 { Apart(i - 1); }
      if i < |q| - 1 { Apart(i + 1); }
      if del == tail {
        tail := del.prev;
      }
      if del.prev != null {
        del.prev.next := del.next;
      } else {
        head := del.next;
      }
      if del.next != null {
        del.next.prev := del.prev;
      }
      q := Cut(s, i);
      assert forall k {:trigger s[k].prev} :: 0 <= k < |s| && k != i + 1 ==> s[k].prev == old(s[k].prev);
      assert forall k {:trigger s[k].next} :: 0 <= k < |s| && k + 1 != i ==> s[k].next == old(s[k].next);
      assert Ops.Loose(s, i);
      Ops.CutLinks(s, i);
      Ops.CutNoDup(s, i);
      Closed(q, head, tail);
    }

    lemma Chain()
      requires Valid()
      ensures Ops.Nexts(q) && Ops.Prevs(q)
      ensures q != [] ==> head == q[0] && tail == q[|q| - 1] && q[0].prev == null && q[|q| - 1].next == null
    {
      assert Shape(0);
    }

    lemma Apart(i: nat)
      requires Valid() && i < |q|
      ensures forall k :: 0 <= k < |q| && k != i ==> q[k] != q[i]
    {
      assert NoDup(q) by { assert Shape(0); }
      assert At(i);
      forall k | 0 <= k < |q| && k != i ensures q[k] != q[i] { assert At(k); }
    }

    /** The head of an empty hash is NULL. */
    method Clear()
      modifies this
      ensures Valid() && q == []
    {
      head, tail, q := null, null, [];
    }

    /** HASH_SRT. `passes` counts the passes over the list. */
    method Sort(cmp: (Node, Node) -> int) returns (ghost passes: nat)
      requires Valid()
      modifies this, q
      ensures Valid() && q == if old(q) == [] then [] else Passes(old(q), 1, cmp)
      ensures TotalPreorder(old(q), cmp) ==> StableSorting(q, old(q), cmp)
      ensures passes <= 1 || Pow2(passes - 1) < |old(q)|
    {
      ghost var s := q;
      passes := 0;
      if head != null {
        var list, last, r, n := SortPasses(UtList.App, head, tail, cmp, q);
        head, tail, q, passes := list, last, r, n;
      }
      SortedStably(q, s, cmp);
    }
  }

  lemma Closed(q: seq<Node>, head: Node?, tail: Node?)
    requires NoDup(q) && Ops.Nexts(q) && Ops.Prevs(q)
    requires if q == [] then head == tail == null
      else head == q[0] && tail == q[|q| - 1] && q[0].prev == null && q[|q| - 1].next == null
    ensures IsApp(q, head, tail)
  {
  }
}

/** halloc.c and hlist.h in their own form: blocks in intrusive lists of children, where
    `prev` points at a cell. */
module HallocHeap {
  import opened HallocModel

  // A marker without content: the shape of a list stays folded until a proof writes it.
  ghost predicate Listed(i: int) { true }

  ghost predicate Whole(i: int) { true }

  function CellBefore(q: seq<Block>, p: Block, i: nat): Cell
    requires i <= |q|
  {
    if i == 0 then Cell(true, p) else Cell(false, q[i - 1])
  }

  function After(q: seq<Block>, i: nat): Block?
    requires i < |q|
  {
    if i + 1 < |q| then q[i + 1] else null
  }

  function FirstOf(q: seq<Block>): Block? {
    if q == [] then null else q[0]
  }

  /** `q` is the list of the children of `p`, as far as the blocks are not released. */
  ghost predicate IsKids(q: seq<Block>, p: Block)
    reads p, q
  {
    forall u {:trigger Listed(u)} :: Listed(u) ==>
      && NoDup(q) && (p.alive ==> p.first == Held(FirstOf(q)))
      && (forall i {:trigger q[i].parent} :: 0 <= i < |q| ==> q[i].parent == p)
      && (forall i {:trigger q[i].prev} :: 0 <= i < |q| && q[i].alive ==> q[i].prev == Held(CellBefore(q, p, i)))
      && (forall i {:trigger q[i].next} :: 0 <= i < |q| && q[i].alive ==> q[i].next == Held(After(q, i)))
  }

  /** A block without a parent: its `prev` points at its own `next`. */
  ghost predicate IsRoot(b: Block)
    reads b
  {
    b.parent == null && (b.alive ==> b.next == Held(null) && b.prev == Held(Cell(false, b)))
  }

  datatype KidsAt = KidsAt(q: seq<Block>, p: Block)

  twostate lemma KidsStay(c: KidsAt)
    requires old(IsKids(c.q, c.p)) && c.p.first == old(c.p.first) && c.p.alive == old(c.p.alive)
    requires forall i :: 0 <= i < |c.q| ==> SameLinks(c.q[i])
    ensures IsKids(c.q, c.p)
  {
    assert Listed(0);
  }

  twostate predicate SameLinks(b: Block)
    reads b
  {
    b.next == old(b.next) && b.prev == old(b.prev) && b.parent == old(b.parent) && b.alive == old(b.alive)
  }

  /** A list that may be touched: nothing in it was released. */
  ghost predicate AllAlive(q: seq<Block>, p: Block)
    reads p, q
  {
    p.alive && forall x :: x in q ==> x.alive
  }

  /** hlist_add of a block without a parent */
  method HlistAdd(p: Block, b: Block, ghost q: seq<Block>)
    requires IsKids(q, p) && IsRoot(b) && b != p && b.alive && AllAlive(q, p)
    modifies p`first, b`next, b`prev, b`parent, q`prev
    ensures IsKids([b] + q, p)
  {
    assert Listed(0);
    var next := p.first.v;
    b.next := Held(next);
    if next != null {
      next.prev := Held(Cell(false, b));
    }
    p.first := Held(b);
    b.prev := Held(Cell(true, p));
    b.parent := p;
    ghost var r := [b] + q;
    forall i | 0 <= i < |r|
      ensures r[i].parent == p && r[i].prev == Held(CellBefore(r, p, i)) && r[i].next == Held(After(r, i))
    {
      if i > 0 { assert r[i] == q[i - 1] && q[i - 1] != b; }
    }
    assert NoDup(r);
  }

  /** hlist_del of the child of `p` in place `i`, or of a block without a parent */
  method HlistDel(b: Block, ghost p: Block?, ghost q: seq<Block>, ghost i: nat)
    requires Removable(b, p, q, i)
    modifies (if p == null then {} else {p})`first, q`next, q`prev, q`parent
    ensures IsRoot(b) && (p != null ==> IsKids(Cut(q, i), p))
  {
    Bypass(b, p, q, i);
    b.prev := Held(Cell(false, b));
    b.next := Held(null);
    b.parent := null;
    if p != null {
      CutKids(q, p, i);
    }
  }

  function Cut(q: seq<Block>, i: nat): seq<Block>
    requires i < |q|
  {
    q[..i] + q[i + 1..]
  }

  /** Where a block is: in the list of its parent, or alone. */
  ghost predicate Removable(b: Block, p: Block?, q: seq<Block>, i: nat)
    reads p, q, b
  {
    && b.alive && i < |q| && q[i] == b
    && if p == null then IsRoot(b) && q == [b] else IsKids(q, p) && AllAlive(q, p)
  }

  /** When the child in place `i` is out, the others' `prev` skips it. */
  ghost predicate Backed(q: seq<Block>, p: Block, i: nat)
    requires i < |q|
    reads q
  {
    && (forall l {:trigger q[l].parent} :: 0 <= l < |q| && l != i ==> q[l].parent == p)
    && (forall l {:trigger q[l].prev} :: 0 <= l < |q| && l != i ==>
          q[l].prev == Held(CellBefore(q, p, if l == i + 1 then i else l)))
  }

  ghost predicate Forwarded(q: seq<Block>, i: nat)
    requires i < |q|
    reads q
  {
    forall l {:trigger q[l].next} :: 0 <= l < |q| && l != i ==> q[l].next == Held(After(q, if l + 1 == i then i else l))
  }

  /** The neighbours of a block are made to point past it. The tail sentinel has a `prev` that
      nobody reads. */
  method Bypass(b: Block, ghost p: Block?, ghost q: seq<Block>, ghost i: nat)
    requires Removable(b, p, q, i)
    modifies (if p == null then {} else {p})`first, q`next, q`prev
    ensures p != null ==> NoDup(q) && Backed(q, p, i) && Forwarded(q, i)
    ensures p != null ==> p.first == Held(if i == 0 then After(q, 0) else FirstOf(q))
  {
    assert p != null ==> NoDup(q) && p.first == Held(FirstOf(q)) && Backward(q, p) && Onward(q) by { assert Listed(0); }
    assert b.next.v == After(q, i);
    assert b.prev == Held(if p == null then Cell(false, b) else CellBefore(q, p, i));
    var next := b.next.v;
    if next != null {
      next.prev := Held(b.prev.v);
    }
    assert p != null ==> Backed(q, p, i);
    WriteNext(b.prev.v, next, p, q, i);
    assert p != null ==> Backed(q, p, i);
  }

  ghost predicate Backward(q: seq<Block>, p: Block)
    reads q
  {
    && (forall i {:trigger q[i].parent} :: 0 <= i < |q| ==> q[i].parent == p)
    && (forall i {:trigger q[i].prev} :: 0 <= i < |q| ==> q[i].prev == Held(CellBefore(q, p, i)))
  }

  ghost predicate Onward(q: seq<Block>)
    reads q
  {
    forall i {:trigger q[i].next} :: 0 <= i < |q| ==> q[i].next == Held(After(q, i))
  }

  /** The write through `prev`. */
  method WriteNext(c: Cell, next: Block?, ghost p: Block?, ghost q: seq<Block>, ghost i: nat)
    requires c.owner != null && i < |q| && next == After(q, i)
    requires if p == null then c == Cell(false, q[i]) else NoDup(q) && Onward(q) && c == CellBefore(q, p, i)
    modifies (if c.head then {c.owner} else {})`first, (if c.head then {} else {c.owner})`next
    ensures p != null ==> Forwarded(q, i) && (c.head ==> c.owner.first == Held(next))
  {
    if c.head {
      c.owner.first := Held(next);
    } else {
      c.owner.next := Held(next);
    }
  }

  lemma CutKids(q: seq<Block>, p: Block, i: nat)
    requires NoDup(q) && i < |q| && Backed(q, p, i) && Forwarded(q, i)
    requires p.first == Held(if i == 0 then After(q, 0) else FirstOf(q))
    ensures IsKids(Cut(q, i), p)
  {
    var r := Cut(q, i);
    forall k | 0 <= k < |r|
      ensures r[k].parent == p && r[k].prev == Held(CellBefore(r, p, k)) && r[k].next == Held(After(r, k))
    {
      var l := if k < i then k else k + 1;
      assert r[k] == q[l];
      assert k > 0 ==> r[k - 1] == q[if k - 1 < i then k - 1 else k];
      assert k + 1 < |r| ==> r[k + 1] == q[if k + 1 < i then k + 1 else k + 2];
    }
    CutNoDup(q, i);
  }

  lemma CutNoDup(q: seq<Block>, i: nat)
    requires NoDup(q) && i < |q|
    ensures NoDup(q[..i] + q[i + 1..])
  {
  }

  // ----- the hierarchy -----

  /** Every list of children is in order. */
  ghost predicate AllKids(k: Kids)
    reads k.Keys
  {
    forall b {:trigger k[b]} :: b in k ==> (forall c :: c in k[b] ==> c in k.Keys) && IsKids(k[b], b)
  }

  /** Every block knows its parent or has none. */
  ghost predicate Parented(k: Kids)
    reads k.Keys
  {
    forall b {:trigger b.parent} :: b in k ==> if b.parent == null then IsRoot(b) else b.parent in k && b in k[b.parent]
  }

  /** A block is live and in the hierarchy, or it was released, once, and nothing is left of
      it. */
  ghost predicate AccountedFor(k: Kids, released: seq<Block>)
    reads k.Keys, released
  {
    && (forall b {:trigger b.alive} :: b in k ==> b.alive)
    && NoDup(released) && forall x {:trigger x in released} :: x in released ==> x !in k && IsGone(x)
  }

  ghost predicate IsGone(b: Block)
    reads b
  {
    !b.alive && b.next.Gone? && b.prev.Gone? && b.first.Gone?
  }

  datatype Change = Change(k: Kids, p: Block, b: Block)

  /** Only the children of `p`, its own list and `b`, which is in no other list, have been
      touched. */
  twostate lemma OtherKidsStay(c: Change)
    requires old(AllKids(c.k)) && Tidy(c.k) && c.p in c.k
    requires forall x: Block {:trigger x in c.k} :: x in c.k && x !in c.k[c.p] && x != c.b ==> SameLinks(x)
    requires forall y {:trigger c.k[y]} :: y in c.k && y != c.p ==> c.b !in c.k[y]
    requires forall x: Block {:trigger x.first} :: x in c.k && x != c.p ==>
      x.first == old(x.first) && x.alive == old(x.alive)
    ensures forall x :: x in c.k && x != c.p ==> IsKids(c.k[x], x)
  {
    forall x | x in c.k && x != c.p ensures IsKids(c.k[x], x) {
      assert old(IsKids(c.k[x], x));
      forall i | 0 <= i < |c.k[x]| ensures SameLinks(c.k[x][i]) {
        assert c.k[x][i] in c.k[x] && c.k[x][i] in c.k;
      }
      KidsStay(KidsAt(c.k[x], x));
    }
  }

  datatype Removal = Removal(k: Kids, p: Block, b: Block, i: nat)

  /** The child in place `i` of `p` has become a root. */
  twostate lemma ParentedAfterCut(c: Removal)
    requires c.p in c.k && c.i < |c.k[c.p]| && c.k[c.p][c.i] == c.b && Tidy(c.k)
    requires old(Parented(c.k)) && IsRoot(c.b)
    requires IsKids(Cut(c.k[c.p], c.i), c.p)
    requires forall x: Block {:trigger x in c.k} :: x in c.k && x !in c.k[c.p] ==> SameLinks(x)
    ensures Parented(c.k[c.p := Cut(c.k[c.p], c.i)])
  {
    var q := c.k[c.p];
    var r := Cut(q, c.i);
    assert Listed(0);
    forall x | x in c.k && x != c.b
      ensures x.parent == null ==> IsRoot(x)
      ensures x.parent != null ==> x.parent in c.k && x in (if x.parent == c.p then r else c.k[x.parent])
    {
      if x in q {
        var l :| 0 <= l < |q| && q[l] == x;
        var m := if l < c.i then l else l - 1;
        assert r[m] == x && r[m].parent == c.p;
      } else {
        assert SameLinks(x);
      }
    }
  }

  lemma CutAllKids(k: Kids, p: Block, i: nat)
    requires p in k && i < |k[p]| && IsKids(Cut(k[p], i), p)
    requires forall x {:trigger k[x]} :: x in k ==>
      (forall c :: c in k[x] ==> c in k.Keys) && (x != p ==> IsKids(k[x], x))
    ensures AllKids(k[p := Cut(k[p], i)])
  {
  }

  /** Where block `b` is in the hierarchy: child `i` of `p`, or a root. */
  ghost predicate Located(b: Block, k: Kids, p: Block?, i: nat)
    reads b, p, if p in k then k[p] else []
  {
    && b in k && b.alive
    && if p == null then IsRoot(b) && i == 0 && forall y {:trigger k[y]} :: y in k ==> b !in k[y]
       else p in k && i < |k[p]| && k[p][i] == b && AllAlive(k[p], p)
  }

  ghost function Beside(b: Block, k: Kids, p: Block?): seq<Block> {
    if p in k then k[p] else [b]
  }

  ghost function Removed(k: Kids, p: Block?, i: nat): Kids
    requires p != null ==> p in k && i < |k[p]|
  {
    if p == null then k else k[p := Cut(k[p], i)]
  }

  /** A block has been released: the other blocks are as they were. */
  twostate lemma ReleaseStays(c: Change)
    requires old(AllKids(c.k)) && old(Parented(c.k)) && !c.b.alive && c.b.parent == old(c.b.parent)
    requires forall x: Block {:trigger x in c.k} :: x in c.k && x != c.b ==> SameLinks(x) && x.first == old(x.first)
    ensures AllKids(c.k) && Parented(c.k)
  {
    forall x | x in c.k ensures IsKids(c.k[x], x) {
      assert old(IsKids(c.k[x], x));
      forall i | 0 <= i < |c.k[x]| ensures c.k[x][i] == c.b || SameLinks(c.k[x][i]) {
        assert c.k[x][i] in c.k[x] && c.k[x][i] in c.k;
      }
      assert x == c.b || (SameLinks(x) && x.first == old(x.first));
      assert Listed(0);
    }
    forall x | x in c.k ensures if x.parent == null then IsRoot(x) else x.parent in c.k && x in c.k[x.parent] {
      assert x == c.b || SameLinks(x);
    }
  }

  /** Every pointer is what it was. */
  twostate lemma AllStay(k: Kids)
    requires old(AllKids(k)) && old(Parented(k))
    requires forall x: Block {:trigger x in k} :: x in k ==> SameLinks(x) && x.first == old(x.first)
    ensures AllKids(k) && Parented(k)
  {
    forall x | x in k ensures IsKids(k[x], x) {
      assert old(IsKids(k[x], x));
      forall i | 0 <= i < |k[x]| ensures SameLinks(k[x][i]) {
        assert k[x][i] in k[x] && k[x][i] in k;
      }
      KidsStay(KidsAt(k[x], x));
    }
    forall x | x in k ensures if x.parent == null then IsRoot(x) else x.parent in k && x in k[x.parent] {
      assert SameLinks(x);
    }
  }

  /** A block leaves its list, if it is in one, seen from all lists. */
  method Unlist(b: Block, ghost k: Kids, ghost p: Block?, ghost i: nat)
    requires Tidy(k) && AllKids(k) && Parented(k) && Located(b, k, p, i)
    modifies (if p == null then {} else {p})`first, Beside(b, k, p)`next, Beside(b, k, p)`prev, Beside(b, k, p)`parent
    ensures AllKids(Removed(k, p, i)) && Parented(Removed(k, p, i)) && IsRoot(b)
  {
    ghost var q := Beside(b, k, p);
    assert p != null ==> IsKids(q, p) && b in q;
    HlistDel(b, p, q, i);
    if p == null {
      assert forall x: Block | x in k :: SameLinks(x) && x.first == old(x.first);
      AllStay(k);
    } else {
      forall x: Block | x in k && x !in k[p] ensures SameLinks(x) { }
      assert forall y :: y in k && y != p && b in k[y] ==> b in k[p];
      OtherKidsStay(Change(k, p, b));
      ParentedAfterCut(Removal(k, p, b, i));
      CutAllKids(k, p, i);
    }
  }

  /** The root `b` has become the first child of `p`. */
  twostate lemma ParentedAfterAdd(c: Change)
    requires c.p in c.k && c.b in c.k && old(Parented(c.k)) && c.b.parent == c.p
    requires forall x :: x in c.k[c.p] ==> x.parent == c.p
    requires forall x: Block {:trigger x in c.k} :: x in c.k && x !in c.k[c.p] && x != c.b ==> SameLinks(x)
    ensures Parented(c.k[c.p := [c.b] + c.k[c.p]])
  {
    forall x | x in c.k && x !in c.k[c.p] && x != c.b
      ensures if x.parent == null then IsRoot(x) else x.parent in c.k && x in c.k[x.parent]
    {
      assert SameLinks(x);
    }
  }

  lemma AddAllKids(k: Kids, p: Block, b: Block)
    requires p in k && b in k && IsKids([b] + k[p], p)
    requires forall x {:trigger k[x]} :: x in k ==>
      (forall c :: c in k[x] ==> c in k.Keys) && (x != p ==> IsKids(k[x], x))
    ensures AllKids(k[p := [b] + k[p]])
  {
  }

  /** A root enters a list, seen from all lists. */
  method Relist(b: Block, p: Block, ghost k: Kids)
    requires Tidy(k) && AllKids(k) && Parented(k) && b in k && p in k && IsRoot(b) && b != p
    requires b.alive && AllAlive(k[p], p) && forall y {:trigger k[y]} :: y in k ==> b !in k[y]
    modifies k.Keys`first, k.Keys`next, k.Keys`prev, k.Keys`parent
    ensures AllKids(k[p := [b] + k[p]]) && Parented(k[p := [b] + k[p]])
  {
    assert IsKids(k[p], p);
    HlistAdd(p, b, k[p]);
    forall x: Block | x in k && x !in k[p] && x != b ensures SameLinks(x) { }
    forall x | x in k[p] ensures x.parent == p {
      var i :| 0 <= i < |k[p]| && k[p][i] == x;
      var r := [b] + k[p];
      assert r[i + 1].parent == p by { assert Listed(0); }
    }
    assert b.parent == p by {
      assert Listed(0);
      assert ([b] + k[p])[0].parent == p;
    }
    OtherKidsStay(Change(k, p, b));
    ParentedAfterAdd(Change(k, p, b));
    AddAllKids(k, p, b);
  }

  class Hierarchy {
    ghost var kids: Kids
    ghost var rank: Rank
    ghost var released: seq<Block>

    constructor ()
      ensures Valid() && kids == map[] && released == []
    {
      kids, rank, released := map[], map[], [];
    }

    ghost predicate Ordered()
      reads this
    {
      Ranked(kids, rank) && Tidy(kids)
    }

    /** The pointers agree with the hierarchy. */
    ghost predicate Linked()
      requires Ordered()
      reads this, kids.Keys
    {
      forall u {:trigger Whole(u)} :: Whole(u) ==> AllKids(kids) && Parented(kids)
    }

    ghost predicate Valid()
      reads this, kids.Keys, released
    {
      Ordered() && Linked() && Accounted()
    }

    ghost predicate Accounted()
      reads this, kids.Keys, released
    {
      AccountedFor(kids, released)
    }

    /** The hierarchy is now `k`. */
    ghost method Become(k: Kids, r: Rank)
      requires AccountedFor(k, released) && Ranked(k, r) && Tidy(k) && AllKids(k) && Parented(k)
      modifies this`kids, this`rank
      ensures Valid() && kids == k && rank == r
    {
      kids, rank := k, r;
    }

    /** halloc without a block: a new one, without parent and children */
    method New() returns (b: Block)
      requires Valid()
      modifies this
      ensures Valid() && fresh(b) && kids == old(kids)[b := []] && released == old(released)
    {
      b := new Block();
      Enter(b);
    }

    /** A new block becomes a root without children. */
    ghost method Enter(b: Block)
      requires Valid() && b !in kids && b !in released && IsRoot(b) && b.first == Held(null) && b.alive
      modifies this
      ensures Valid() && kids == old(kids)[b := []] && released == old(released)
    {
      assert AllKids(kids) && Parented(kids) by { assert Whole(0); }
      EnterOrdered(b);
      EnterLinked(b);
      kids, rank := kids[b := []], rank[b := 0];
    }

    lemma EnterLinked(b: Block)
      requires AllKids(kids) && Parented(kids) && b !in kids && IsRoot(b) && b.first == Held(null)
      ensures AllKids(kids[b := []]) && Parented(kids[b := []])
    {
      assert IsKids([], b);
    }

    lemma EnterOrdered(b: Block)
      requires Ordered() && b !in kids
      ensures Ranked(kids[b := []], rank[b := 0]) && Tidy(kids[b := []])
    {
    }

    /** _relate: is `b` below `p`? */
    method Relate(b: Block, p: Block) returns (related: bool)
      requires Valid() && p in kids
      ensures related <==> b in Below(kids, rank, p)
      decreases rank[p], 1
    {
      ghost var q, n := kids[p], 0;
      var i := Head(p);
      while i != null
        invariant n <= |q| && i == if n < |q| then q[n] else null
        invariant b !in BelowTo(kids, rank, p, n)
        decreases |q| - n
      {
        var below, next := RelateChild(b, p, i, n);
        if below {
          return true;
        }
        i := next;
        n := n + 1;
      }
      return false;
    }

    method Head(p: Block) returns (i: Block?)
      requires Valid() && p in kids
      ensures i == FirstOf(kids[p])
    {
      FirstChild(p);
      i := p.first.v;
    }

    /** One round of the loop of _relate */
    method RelateChild(b: Block, ghost p: Block, q: Block, ghost n: nat) returns (below: bool, next: Block?)
      requires Valid() && p in kids && n < |kids[p]| && kids[p][n] == q
      requires b !in BelowTo(kids, rank, p, n)
      ensures below <==> b in BelowTo(kids, rank, p, n + 1)
      ensures below ==> b in Below(kids, rank, p)
      ensures next == After(kids[p], n)
      decreases rank[p], 0
    {
      NextChild(p, n);
      below := q == b;
      if !below {
        below := Relate(b, q);
      }
      next := q.next.v;
      BelowNextHas(p, n, b);
    }

    /** The next child and what is below it come next in the order of release. */
    lemma BelowNext(p: Block, n: nat)
      requires Ordered() && p in kids && n < |kids[p]|
      ensures kids[p][n] in kids && rank[kids[p][n]] < rank[p]
      ensures BelowTo(kids, rank, p, n + 1) == BelowTo(kids, rank, p, n) + Below(kids, rank, kids[p][n]) + [kids[p][n]]
      ensures forall x :: x in BelowTo(kids, rank, p, n + 1) ==> x in Below(kids, rank, p)
    {
      assert kids[p][n] in kids[p];
      BelowPrefix(p, n + 1, |kids[p]|);
    }

    lemma FirstChild(p: Block)
      requires Ordered() && Linked() && p in kids
      ensures p.alive ==> p.first == Held(FirstOf(kids[p]))
    {
      assert Whole(0);
      assert IsKids(kids[p], p);
      assert Listed(0);
    }

    lemma NextChild(p: Block, n: nat)
      requires Ordered() && Linked() && p in kids && n < |kids[p]|
      ensures kids[p][n] in kids && rank[kids[p][n]] < rank[p] 
      ensures kids[p][n].alive ==> kids[p][n].next == Held(After(kids[p], n))
      ensures kids[p][n].parent == p
    {
      assert Whole(0);
      assert IsKids(kids[p], p) && kids[p][n] in kids[p];
      assert Listed(0);
    }

    lemma BelowNextHas(p: Block, n: nat, b: Block)
      requires Ordered() && p in kids && n < |kids[p]|
      ensures kids[p][n] in kids && rank[kids[p][n]] < rank[p]
      ensures b in BelowTo(kids, rank, p, n + 1) <==>
        b in BelowTo(kids, rank, p, n) || b in Below(kids, rank, kids[p][n]) || b == kids[p][n]
      ensures b in BelowTo(kids, rank, p, n + 1) ==> b in Below(kids, rank, p)
    {
      BelowNext(p, n);
    }

    lemma {:induction false} BelowPrefix(p: Block, n: nat, m: nat)
      requires Ordered() && p in kids && n <= m <= |kids[p]|
      ensures forall x :: x in BelowTo(kids, rank, p, n) ==> x in BelowTo(kids, rank, p, m)
      decreases m
    {
      if n < m {
        assert kids[p][m - 1] in kids[p];
        BelowPrefix(p, n, m - 1);
      }
    }

    /** hlist_del; for a block without a parent it writes back what is there. */
    method Detach(b: Block)
      requires Ordered() && Linked() && b in kids && b.alive
      requires b.parent != null ==> b.parent in kids && AllAlive(kids[b.parent], b.parent)
      modifies this`kids, kids.Keys`first, kids.Keys`next, kids.Keys`prev, kids.Keys`parent
      ensures Ordered() && Linked() && kids == HallocModel.Detach(old(kids), b) && IsRoot(b)
      ensures (old(Accounted()) ==> Accounted()) && (old(Releasing()) ==> Releasing())
    {
      ghost var p, i := Where(b);
      DetachedIs(b, p, i);
      UnlistHere(b, p, i);
      Rearrange(Removed(kids, p, i));
    }

    lemma DetachedIs(b: Block, p: Block?, i: nat)
      requires Ordered() && Located(b, kids, p, i)
      ensures var k := Removed(kids, p, i);
        k == HallocModel.Detach(kids, b) && k.Keys == kids.Keys && Ranked(k, rank) && Tidy(k)
    {
      DetachOk(kids, rank, b);
      if p == null { DetachNone(kids, b); } else { DetachIs(kids, b, p, i); }
    }

    /** Only live blocks are touched. */
    method UnlistHere(b: Block, ghost p: Block?, ghost i: nat)
      requires Ordered() && Linked() && Located(b, kids, p, i)
      modifies kids.Keys`first, kids.Keys`next, kids.Keys`prev, kids.Keys`parent
      ensures AllKids(Removed(kids, p, i)) && Parented(Removed(kids, p, i)) && IsRoot(b)
      ensures (old(Accounted()) ==> Accounted()) && (old(Releasing()) ==> Releasing())
    {
      ghost var q := Beside(b, kids, p);
      assert AllKids(kids) && Parented(kids) by { assert Whole(0); }
      assert forall x :: x in q ==> x.alive && x in kids;
      Unlist(b, kids, p, i);
      forall x | x in released && old(IsGone(x)) ensures IsGone(x) {
        assert x !in q && x != p;
      }
    }

    ghost method Rearrange(k: Kids)
      requires k.Keys == kids.Keys && Ranked(k, rank) && Tidy(k) && AllKids(k) && Parented(k)
      modifies this`kids
      ensures Ordered() && Linked() && kids == k
      ensures old(Accounted()) ==> Accounted()
      ensures old(Releasing()) ==> Releasing()
    {
      kids := k;
    }

    lemma Where(b: Block) returns (p: Block?, i: nat)
      requires Ordered() && Linked() && b in kids && b.alive
      requires b.parent != null ==> b.parent in kids && AllAlive(kids[b.parent], b.parent)
      ensures p == b.parent && Located(b, kids, p, i)
    {
      Whose(b);
      p, i := b.parent, 0;
      if p != null {
        var p', i' := WhoseChild(b);
        i := i';
      }
    }

    /** A block without a parent is in no list. */
    lemma Whose(b: Block)
      requires Ordered() && Linked() && b in kids
      ensures b.parent == null ==> IsRoot(b) && forall q :: q in kids ==> b !in kids[q]
    {
      assert Whole(0);
      if b.parent == null {
        forall q | q in kids ensures b !in kids[q] {
          assert IsKids(kids[q], q);
          assert Listed(0);
          assert forall i :: 0 <= i < |kids[q]| ==> kids[q][i].parent == q;
        }
      }
    }

    lemma WhoseChild(b: Block) returns (p: Block, i: nat)
      requires Ordered() && Linked() && b in kids && b.parent != null
      ensures b.parent == p && p in kids && i < |kids[p]| && kids[p][i] == b
    {
      assert Whole(0);
      p := b.parent;
      i :| 0 <= i < |kids[p]| && kids[p][i] == b;
    }

    lemma ParentAlive(b: Block)
      requires Valid() && b in kids
      ensures b.parent != null ==> b.parent in kids && AllAlive(kids[b.parent], b.parent)
    {
      assert Whole(0);
    }

    /** hlist_add to the children of `p` */
    method AddChild(b: Block, p: Block)
      requires Valid() && b in kids && p in kids && IsRoot(b) && !InTree(kids, rank, b, p)
      modifies this`kids, this`rank, kids.Keys`first, kids.Keys`next, kids.Keys`prev, kids.Keys`parent
      ensures Valid() && kids == old(kids)[p := [b] + old(kids)[p]]
    {
      assert AllKids(kids) && Parented(kids) && AllAlive(kids[p], p) by { assert Whole(0); }
      Whose(b);
      DetachNone(kids, b);
      AttachOk(kids, rank, b, p);
      Relist(b, p, kids);
      Become(kids[p := [b] + kids[p]], Raised(kids, rank, b));
    }

    /** hattach; `ok` is false where one of its assertions fails. */
    method Hattach(b: Block, p: Block?) returns (ok: bool)
      requires Valid() && b in kids && (p != null ==> p in kids)
      modifies this`kids, this`rank, kids.Keys`first, kids.Keys`next, kids.Keys`prev, kids.Keys`parent
      ensures Valid()
      ensures ok <==> p == null || !InTree(old(kids), old(rank), b, p)
      ensures kids == if p == null || !ok then HallocModel.Detach(old(kids), b) else HallocModel.Attach(old(kids), b, p)
      ensures !ok ==> (kids == old(kids) <==> forall q :: q in old(kids) ==> b !in old(kids)[q])
    {
      DetachChangesNothing(kids, b);
      ghost var k := kids;
      DetachBelow(k, rank, b, b, |k[b]|);
      ParentAlive(b);
      Detach(b);
      if p == null {
        return true;
      }
      if b == p {
        return false;
      }
      var related := Relate(p, b);
      if related {
        return false;
      }
      AddChild(b, p);
      return true;
    }

    // ----- release -----

    /** The dead blocks are the released ones. */
    ghost predicate Releasing()
      reads this, kids.Keys, released
    {
      && NoDup(released) && (forall x {:trigger x in released} :: x in released ==> IsGone(x))
      && forall b {:trigger b.alive} :: b in kids ==> (b.alive <==> b !in released)
    }

    /** allocator(q, 0): nothing of the block can be read afterwards. */
    method Release(q: Block)
      requires Ordered() && Linked() && Releasing() && q in kids && q !in released
      modifies this`released, q`alive, q`next, q`prev, q`first
      ensures Ordered() && Linked() && Releasing() && released == old(released) + [q] && IsGone(q)
    {
      assert AllKids(kids) && Parented(kids) by { assert Whole(0); }
      q.next, q.prev, q.first := Gone, Gone, Gone;
      q.alive := false;
      released := released + [q];
      ReleaseStays(Change(kids, q, q));
    }

    /** _free_children: what is below `p` is released, children first, each block once. A
        released block holds nothing, so that none is read. */
    method FreeChildren(p: Block)
      requires Ordered() && Linked() && Releasing() && p in kids && p !in released
      requires Untouched(Below(kids, rank, p))
      modifies this`released, kids.Keys`alive, kids.Keys`next, kids.Keys`prev, kids.Keys`first
      ensures Ordered() && Linked() && Releasing() && released == old(released) + Below(kids, rank, p)
      decreases rank[p], 1
    {
      ghost var q, n := kids[p], 0;
      FirstChild(p);
      var i := p.first.v;
      var tmp: Block? := null;
      if i != null {
        tmp := NextOf(p, 0, i, old(released));
      }
      while i != null
        invariant Ordered() && Linked() && Releasing() && n <= |q|
        invariant i == (if n < |q| then q[n] else null) && tmp == if n + 1 < |q| then q[n + 1] else null
        invariant released == old(released) + BelowTo(kids, rank, p, n)
        decreases |q| - n
      {
        FreeChild(p, n, i, old(released));
        i := tmp;
        n := n + 1;
        tmp := null;
        if i != null {
          tmp := NextOf(p, n, i, old(released));
        }
      }
    }

    /** The loop reads the next child before it releases this one. */
    method NextOf(ghost p: Block, ghost n: nat, i: Block, ghost before: seq<Block>) returns (next: Block?)
      requires Ordered() && Linked() && Releasing() && p in kids && n < |kids[p]| && kids[p][n] == i
      requires released == before + BelowTo(kids, rank, p, n)
      requires forall x :: x in Below(kids, rank, p) ==> x !in before
      ensures next == After(kids[p], n)
    {
      NextChild(p, n);
      NotYet(p, n, before);
      next := i.next.v;
    }

    /** Nothing in `s` was released. */
    ghost predicate Untouched(s: seq<Block>)
      reads this
    {
      forall x :: x in s ==> x !in released
    }

    /** With the first `n` children released, the next one and what is below it is not. */
    lemma NotYet(p: Block, n: nat, before: seq<Block>)
      requires Ordered() && p in kids && n < |kids[p]|
      requires released == before + BelowTo(kids, rank, p, n)
      requires forall x :: x in Below(kids, rank, p) ==> x !in before
      ensures kids[p][n] in kids && kids[p][n] !in released && Untouched(Below(kids, rank, kids[p][n]))
    {
      BelowNext(p, n);
      BelowOnce(kids, rank, p, n + 1);
      var a, c := BelowTo(kids, rank, p, n), kids[p][n];
      var b, s := Below(kids, rank, c), BelowTo(kids, rank, p, n + 1);
      Disjoint(a, b, c);
      forall x | x in b ensures x !in released { assert x in s; }
      assert c in s;
    }

    lemma Disjoint(a: seq<Block>, b: seq<Block>, c: Block)
      requires NoDup(a + b + [c])
      ensures c !in a && forall x :: x in b ==> x !in a
    {
      var s := a + b + [c];
      forall i | 0 <= i < |a| ensures a[i] != c {
        assert s[i] == a[i] && s[|a| + |b|] == c && s[i] != s[|a| + |b|];
      }
      forall x | x in b ensures x !in a {
        var j :| 0 <= j < |b| && b[j] == x;
        forall i | 0 <= i < |a| ensures a[i] != x {
          assert s[i] == a[i] && s[|a| + j] == x && s[i] != s[|a| + j];
        }
      }
    }

    /** One round of the loop of _free_children */
    method FreeChild(ghost p: Block, ghost n: nat, q: Block, ghost before: seq<Block>)
      requires Ordered() && Linked() && Releasing() && p in kids && n < |kids[p]| && kids[p][n] == q
      requires released == before + BelowTo(kids, rank, p, n)
      requires forall x :: x in Below(kids, rank, p) ==> x !in before
      modifies this`released, kids.Keys`alive, kids.Keys`next, kids.Keys`prev, kids.Keys`first
      ensures Ordered() && Linked() && Releasing() && released == before + BelowTo(kids, rank, p, n + 1)
      decreases rank[p], 0
    {
      BelowNext(p, n);
      NotYet(p, n, before);
      ghost var a, d := BelowTo(kids, rank, p, n), Below(kids, rank, q);
      FreeChildren(q);
      BelowSelf(q);
      Release(q);
      assert before + a + d + [q] == before + (a + d + [q]);
    }

    lemma BelowSelf(q: Block)
      requires Ordered() && q in kids
      ensures q !in Below(kids, rank, q)
    {
      BelowRanked(kids, rank, q, |kids[q]|);
    }

    /** halloc of a block with length 0: the block goes with all that is below it, children
        first and each once; the rest of the hierarchy stays, without `b`. */
    method Free(b: Block)
      requires Valid() && b in kids
      modifies this, kids.Keys
      ensures Valid() && released == old(released) + Below(old(kids), old(rank), b) + [b]
      ensures kids == Remaining(old(kids), old(rank), b)
    {
      ghost var k := kids;
      BelowRanked(kids, rank, b, |kids[b]|);
      FreeChildren(b);
      Outside(b, old(released));
      BelowSelf(b);
      Detach(b);
      Release(b);
      Shrink(b, k, old(released));
    }

    /** The parent and the siblings of `b` are not among what is below `b`. */
    lemma Outside(b: Block, before: seq<Block>)
      requires Ordered() && Linked() && Releasing() && b in kids && released == before + Below(kids, rank, b)
      requires forall x :: x in before ==> x !in kids
      ensures b.parent != null ==> b.parent in kids && AllAlive(kids[b.parent], b.parent)
    {
      if b.parent != null {
        var p, i := WhoseChild(b);
        BelowRanked(kids, rank, b, |kids[b]|);
        assert kids[p][i] in kids[p];
        forall c | c in kids[p] ensures c in kids && c !in Below(kids, rank, b) {
          if c in Below(kids, rank, b) {
            var q := ParentInTree(kids, rank, b, |kids[b]|, c);
          }
        }
      }
    }

    /** The released blocks leave the hierarchy. */
    ghost method Shrink(b: Block, k: Kids, before: seq<Block>)
      requires Ranked(k, rank) && Tidy(k) && b in k
      requires Ordered() && Linked() && kids == HallocModel.Detach(k, b)
      requires Releasing() && released == before + Below(k, rank, b) + [b] && forall x :: x in before ==> x !in k
      modifies this`kids, this`rank
      ensures Valid() && kids == Remaining(k, old(rank), b)
    {
      assert AllKids(kids) && Parented(kids) by { assert Whole(0); }
      RemainingRanked(k, rank, b);
      RemainingTidy(k, rank, b);
      RemainingLinked(b, k);
      RemainingAccounted(b, k, before);
      Become(Remaining(k, rank, b), RemainingRank(k, rank, b));
    }

    lemma RemainingAccounted(b: Block, k: Kids, before: seq<Block>)
      requires Ranked(k, rank) && b in k && kids.Keys == k.Keys
      requires Releasing() && released == before + Below(k, rank, b) + [b] && forall x :: x in before ==> x !in k
      ensures AccountedFor(Remaining(k, rank, b), released)
    {
    }

    lemma RemainingLinked(b: Block, k: Kids)
      requires Ranked(k, rank) && Tidy(k) && b in k && kids == HallocModel.Detach(k, b)
      requires AllKids(kids) && Parented(kids)
      ensures AllKids(Remaining(k, rank, b)) && Parented(Remaining(k, rank, b))
    {
      var k' := Remaining(k, rank, b);
      forall x | x in k' ensures (forall c :: c in k'[x] ==> c in k'.Keys) && IsKids(k'[x], x) {
        assert k'[x] == kids[x];
        forall c | c in k'[x] ensures c in k'.Keys { RemainingHas(k, rank, b, x, c); }
      }
      forall x | x in k' ensures if x.parent == null then IsRoot(x) else x.parent in k' && x in k'[x.parent] {
        if x.parent != null {
          var p := x.parent;
          assert x in kids[p];
          DetachHas(k, b, p, x);
          EdgeStays(k, rank, b, p, x);
        }
      }
    }
  }
}

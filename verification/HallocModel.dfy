/** The hierarchy of halloc.c: which blocks are children of which, what a release takes with
    it and in what order, and when attaching keeps the hierarchy free of cycles. */
module HallocModel {
  /** The cell that points at a block: the children cell or the `next` cell of its owner. */
  datatype Cell = Cell(head: bool, owner: Block?)

  /** A word of a block: what it holds is gone once the block is released, and nothing can be
      read from it then. */
  datatype Word<T> = Gone | Held(v: T)

  /** A block control header. */
  class Block {
    var next: Word<Block?>
    var prev: Word<Cell>
    var first: Word<Block?>
    ghost var parent: Block?
    ghost var alive: bool

    constructor ()
      ensures next == first == Held(null) && parent == null && alive && prev == Held(Cell(false, this))
    {
      next, first, parent, alive, prev := Held(null), Held(null), null, true, Gone;
      new;
      prev := Held(Cell(false, this));
    }
  }

  type Kids = map<Block, seq<Block>>
  type Rank = map<Block, nat>

  ghost predicate NoDup(q: seq<Block>) {
    forall i, j :: 0 <= i < j < |q| ==> q[i] != q[j]
  }

  /** The children of live blocks are live, and ranks go down from parent to child: there is
      no cycle. */
  ghost predicate Ranked(k: Kids, r: Rank) {
    && k.Keys == r.Keys
    && forall a, c {:trigger c in k[a]} :: a in k && c in k[a] ==> c in k && r[c] < r[a]
  }

  /** A block is in one list of children at most, and once. */
  ghost predicate Tidy(k: Kids) {
    && (forall a :: a in k ==> NoDup(k[a]))
    && forall a, b, c {:trigger c in k[a], c in k[b]} :: a in k && b in k && c in k[a] && c in k[b] ==> a == b
  }

  /** The blocks that go when the first `i` children of `b` are released, in the order of
      _free_children: below each child first, then the child. */
  ghost function BelowTo(k: Kids, r: Rank, b: Block, i: nat): seq<Block>
    requires Ranked(k, r) && b in k && i <= |k[b]|
    decreases r[b], i
  {
    if i == 0 then []
    else
      var c := k[b][i - 1];
      assert c in k[b];
      BelowTo(k, r, b, i - 1) + BelowTo(k, r, c, |k[c]|) + [c]
  }

  ghost function Below(k: Kids, r: Rank, b: Block): seq<Block>
    requires Ranked(k, r) && b in k
  {
    BelowTo(k, r, b, |k[b]|)
  }

  /** `b` and what is below it. */
  ghost predicate InTree(k: Kids, r: Rank, b: Block, x: Block)
    requires Ranked(k, r) && b in k
  {
    x == b || x in Below(k, r, b)
  }

  // ----- Below is the set of descendants -----

  lemma {:induction false} BelowRanked(k: Kids, r: Rank, b: Block, i: nat)
    requires Ranked(k, r) && b in k && i <= |k[b]|
    ensures forall x :: x in BelowTo(k, r, b, i) ==> x in k && r[x] < r[b]
    decreases r[b], i
  {
    if i > 0 {
      var c := k[b][i - 1];
      assert c in k[b];
      BelowRanked(k, r, b, i - 1);
      BelowRanked(k, r, c, |k[c]|);
    }
  }

  /** Children are below, and so are children of blocks that are below. */
  lemma {:induction false} BelowClosed(k: Kids, r: Rank, b: Block, i: nat)
    requires Ranked(k, r) && b in k && i <= |k[b]|
    ensures forall j :: 0 <= j < i ==> k[b][j] in BelowTo(k, r, b, i)
    ensures forall x, c :: x in BelowTo(k, r, b, i) && x in k && c in k[x] ==> c in BelowTo(k, r, b, i)
    decreases r[b], i
  {
    if i > 0 {
      var c := k[b][i - 1];
      assert c in k[b];
      BelowClosed(k, r, b, i - 1);
      BelowClosed(k, r, c, |k[c]|);
    }
  }

  /** Nothing else is below: `s` is any set that has the children of `b` and is closed. */
  lemma {:induction false} BelowLeast(k: Kids, r: Rank, b: Block, i: nat, s: set<Block>)
    requires Ranked(k, r) && b in k && i <= |k[b]|
    requires forall c :: c in k[b] ==> c in s
    requires forall x, c :: x in s && x in k && c in k[x] ==> c in s
    ensures forall x :: x in BelowTo(k, r, b, i) ==> x in s
    decreases r[b], i
  {
    if i > 0 {
      var c := k[b][i - 1];
      assert c in k[b];
      BelowLeast(k, r, b, i - 1, s);
      BelowLeast(k, r, c, |k[c]|, s);
    }
  }

  /** A block below `b` has its parent in the tree of `b`. */
  lemma {:induction false} ParentInTree(k: Kids, r: Rank, b: Block, i: nat, x: Block) returns (q: Block)
    requires Ranked(k, r) && b in k && i <= |k[b]| && x in BelowTo(k, r, b, i)
    ensures q in k && x in k[q] && (q == b || q in BelowTo(k, r, b, i))
    decreases r[b], i
  {
    var c := k[b][i - 1];
    assert c in k[b];
    if x in BelowTo(k, r, b, i - 1) {
      q := ParentInTree(k, r, b, i - 1, x);
    } else if x == c {
      q := b;
    } else {
      q := ParentInTree(k, r, c, |k[c]|, x);
    }
  }

  ghost function Gap(r: Rank, a: Block, x: Block): nat {
    if a in r && x in r && r[x] <= r[a] then r[a] - r[x] else 0
  }

  /** A block in the trees of `a` and of `b`: one tree is part of the other. */
  lemma {:induction false} Nested(k: Kids, r: Rank, a: Block, b: Block, x: Block)
    requires Ranked(k, r) && Tidy(k) && a in k && b in k && InTree(k, r, a, x) && InTree(k, r, b, x)
    ensures InTree(k, r, b, a) || InTree(k, r, a, b)
    decreases Gap(r, a, x)
  {
    BelowRanked(k, r, a, |k[a]|);
    BelowRanked(k, r, b, |k[b]|);
    if x != a && x != b {
      var q := ParentInTree(k, r, a, |k[a]|, x);
      var q' := ParentInTree(k, r, b, |k[b]|, x);
      assert q == q';
      Nested(k, r, a, b, q);
    }
  }

  /** The trees of two siblings have nothing in common. */
  lemma SiblingsApart(k: Kids, r: Rank, b: Block, c: Block, d: Block, x: Block)
    requires Ranked(k, r) && Tidy(k) && b in k && c in k[b] && d in k[b] && c != d
    requires InTree(k, r, c, x)
    ensures !InTree(k, r, d, x)
  {
    if InTree(k, r, d, x) {
      Nested(k, r, c, d, x);
      if InTree(k, r, d, c) { NotBelowSibling(k, r, b, d, c); } else { NotBelowSibling(k, r, b, c, d); }
    }
  }

  lemma NotBelowSibling(k: Kids, r: Rank, b: Block, c: Block, d: Block)
    requires Ranked(k, r) && Tidy(k) && b in k && c in k[b] && d in k[b] && c != d
    ensures d !in Below(k, r, c)
  {
    if d in Below(k, r, c) {
      var q := ParentInTree(k, r, c, |k[c]|, d);
      BelowRanked(k, r, c, |k[c]|);
    }
  }

  /** Nothing is released twice. */
  lemma {:induction false} BelowOnce(k: Kids, r: Rank, b: Block, i: nat)
    requires Ranked(k, r) && Tidy(k) && b in k && i <= |k[b]|
    ensures NoDup(BelowTo(k, r, b, i))
    ensures forall x :: x in BelowTo(k, r, b, i) ==> exists j :: 0 <= j < i && k[b][j] in k && InTree(k, r, k[b][j], x)
    decreases r[b], i
  {
    if i > 0 {
      var c := k[b][i - 1];
      assert c in k[b];
      BelowOnce(k, r, b, i - 1);
      BelowOnce(k, r, c, |k[c]|);
      BelowRanked(k, r, c, |k[c]|);
      var p, q := BelowTo(k, r, b, i - 1), Below(k, r, c);
      forall x | x in p ensures x !in q && x != c {
        var j :| 0 <= j < i - 1 && k[b][j] in k && InTree(k, r, k[b][j], x);
        assert k[b][j] in k[b] && k[b][j] != c;
        SiblingsApart(k, r, b, k[b][j], c, x);
      }
      NoDupParts(p, q, c);
      assert InTree(k, r, k[b][i - 1], c);
    }
  }

  lemma NoDupParts(p: seq<Block>, q: seq<Block>, c: Block)
    requires NoDup(p) && NoDup(q) && c !in q && forall x :: x in p ==> x !in q && x != c
    ensures NoDup(p + q + [c])
  {
    var s := p + q + [c];
    forall i, j | 0 <= i < j < |s| ensures s[i] != s[j] {
      assert i < |p| ==> s[i] in p;
      assert |p| <= j < |p| + |q| ==> s[j] in q;
      assert |p| <= i < |p| + |q| ==> s[i] in q;
    }
  }

  /** Children go before their parents. */
  lemma {:induction false} ChildrenFirst(k: Kids, r: Rank, b: Block, i: nat, n: nat, c: Block)
    requires Ranked(k, r) && b in k && i <= |k[b]| && n < |BelowTo(k, r, b, i)|
    requires BelowTo(k, r, b, i)[n] in k && c in k[BelowTo(k, r, b, i)[n]]
    ensures c in BelowTo(k, r, b, i)[..n]
    decreases r[b], i
  {
    var d := k[b][i - 1];
    assert d in k[b];
    var p, q, s := BelowTo(k, r, b, i - 1), Below(k, r, d), BelowTo(k, r, b, i);
    if n < |p| {
      ChildrenFirst(k, r, b, i - 1, n, c);
      assert s[..n] == p[..n];
    } else if n < |p| + |q| {
      ChildrenFirst(k, r, d, |k[d]|, n - |p|, c);
      assert s[..n] == p + q[..n - |p|];
    } else {
      BelowClosed(k, r, d, |k[d]|);
      assert s[..n] == p + q;
    }
  }

  // ----- hattach -----

  function Without(q: seq<Block>, b: Block): seq<Block> {
    if q == [] then [] else if q[0] == b then q[1..] else [q[0]] + Without(q[1..], b)
  }

  lemma {:induction false} WithoutHas(q: seq<Block>, b: Block, c: Block)
    requires NoDup(q)
    ensures c in Without(q, b) <==> c in q && c != b
  {
    if q != [] {
      assert q == [q[0]] + q[1..] && NoDup(q[1..]);
      WithoutHas(q[1..], b, c);
      assert q[0] !in q[1..];
    }
  }

  lemma {:induction false} WithoutNoDup(q: seq<Block>, b: Block)
    requires NoDup(q)
    ensures NoDup(Without(q, b))
  {
    if q != [] {
      assert q == [q[0]] + q[1..] && NoDup(q[1..]) && q[0] !in q[1..];
      WithoutNoDup(q[1..], b);
      WithoutHas(q[1..], b, q[0]);
    }
  }

  /** hlist_del: `b` leaves the list it is in. */
  ghost function Detach(k: Kids, b: Block): Kids {
    map q | q in k :: Without(k[q], b)
  }

  /** hattach to a parent */
  ghost function Attach(k: Kids, b: Block, p: Block): Kids
    requires p in k
  {
    Detach(k, b)[p := [b] + Detach(k, b)[p]]
  }

  lemma DetachHas(k: Kids, b: Block, q: Block, c: Block)
    requires Tidy(k) && q in k
    ensures c in Detach(k, b)[q] <==> c in k[q] && c != b
  {
    WithoutHas(k[q], b, c);
  }

  lemma DetachOk(k: Kids, r: Rank, b: Block)
    requires Ranked(k, r) && Tidy(k)
    ensures Ranked(Detach(k, b), r) && Tidy(Detach(k, b))
  {
    var k' := Detach(k, b);
    forall a, c | a in k' && c in k'[a] ensures c in k' && r[c] < r[a] {
      DetachHas(k, b, a, c);
    }
    DetachTidy(k, b);
  }

  lemma DetachTidy(k: Kids, b: Block)
    requires Tidy(k)
    ensures Tidy(Detach(k, b))
  {
    var k' := Detach(k, b);
    forall a | a in k' ensures NoDup(k'[a]) { WithoutNoDup(k[a], b); }
    forall x, y, c | x in k' && y in k' && c in k'[x] && c in k'[y] ensures x == y {
      DetachHas(k, b, x, c);
      DetachHas(k, b, y, c);
      assert c in k[x] && c in k[y];
    }
  }

  lemma {:induction false} WithoutAt(q: seq<Block>, b: Block, i: nat)
    requires NoDup(q) && i < |q| && q[i] == b
    ensures Without(q, b) == q[..i] + q[i + 1..]
  {
    if i > 0 {
      assert q[0] != q[i] && NoDup(q[1..]);
      WithoutAt(q[1..], b, i - 1);
    }
  }

  lemma {:induction false} WithoutNone(q: seq<Block>, b: Block)
    requires b !in q
    ensures Without(q, b) == q
  {
    if q != [] { WithoutNone(q[1..], b); }
  }

  /** Detaching changes one list, or none. */
  lemma DetachIs(k: Kids, b: Block, p: Block, i: nat)
    requires Tidy(k) && p in k && i < |k[p]| && k[p][i] == b
    ensures Detach(k, b) == k[p := k[p][..i] + k[p][i + 1..]]
  {
    WithoutAt(k[p], b, i);
    forall q | q in k && q != p ensures Without(k[q], b) == k[q] {
      assert b in k[p];
      WithoutNone(k[q], b);
    }
  }

  lemma DetachNone(k: Kids, b: Block)
    requires forall q :: q in k ==> b !in k[q]
    ensures Detach(k, b) == k
  {
    forall q | q in k ensures Without(k[q], b) == k[q] { WithoutNone(k[q], b); }
  }

  /** Detaching changes nothing exactly if the block has no parent. */
  lemma DetachChangesNothing(k: Kids, b: Block)
    requires Tidy(k)
    ensures Detach(k, b) == k <==> forall q :: q in k ==> b !in k[q]
  {
    if forall q :: q in k ==> b !in k[q] {
      DetachNone(k, b);
    } else {
      var q :| q in k && b in k[q];
      DetachHas(k, b, q, b);
      assert b !in Detach(k, b)[q];
    }
  }

  /** Attaching `b`, a child of `a`, below its own child `c` is refused, and `b` is no child
      of `a` any more. */
  lemma RefusedAttachLoses(a: Block, b: Block, c: Block) returns (k: Kids, r: Rank)
    requires a != b && b != c && c != a
    ensures k == map[a := [b], b := [c], c := []] && Ranked(k, r) && Tidy(k)
    ensures InTree(k, r, b, c) && Detach(k, b) == k[a := []]
  {
    k, r := map[a := [b], b := [c], c := []], map[a := 2, b := 1, c := 0];
    assert Ranked(k, r) && Tidy(k);
    BelowClosed(k, r, b, 1);
    assert k[b][0] in BelowTo(k, r, b, 1);
    OnlyChildLeaves(k, a, b);
  }

  lemma OnlyChildLeaves(k: Kids, a: Block, b: Block)
    requires Tidy(k) && a in k && k[a] == [b]
    ensures Detach(k, b) == k[a := []]
  {
    DetachIs(k, b, a, 0);
    assert [b][..0] + [b][1..] == [];
  }

  /** Detaching `b` leaves what is below it, and below anything in its tree. */
  lemma {:induction false} DetachBelow(k: Kids, r: Rank, b: Block, x: Block, i: nat)
    requires Ranked(k, r) && Tidy(k) && b in k && x in k && r[x] <= r[b] && i <= |k[x]|
    ensures Ranked(Detach(k, b), r) && Detach(k, b)[x] == k[x]
    ensures BelowTo(Detach(k, b), r, x, i) == BelowTo(k, r, x, i)
    decreases r[x], i
  {
    DetachOk(k, r, b);
    assert b !in k[x];
    WithoutNone(k[x], b);
    if i > 0 {
      var c := k[x][i - 1];
      assert c in k[x];
      DetachBelow(k, r, b, x, i - 1);
      DetachBelow(k, r, b, c, |k[c]|);
    }
  }

  /** Ranks after `b` was attached: everything outside its tree moves up. */
  ghost function Raised(k: Kids, r: Rank, b: Block): Rank
    requires Ranked(k, r) && b in k
  {
    map x | x in k :: if InTree(k, r, b, x) then r[x] else r[x] + r[b] + 1
  }

  /** The attached block is the first child; no other list changes but the one it was in. */
  lemma AttachesFirst(k: Kids, b: Block, p: Block)
    requires Tidy(k) && p in k
    ensures var k' := Attach(k, b, p);
      && k'.Keys == k.Keys && k'[p] != [] && k'[p][0] == b && (b !in k[p] ==> k'[p] == [b] + k[p])
      && forall q :: q in k && q != p && b !in k[q] ==> k'[q] == k[q]
  {
    forall q | q in k && b !in k[q] ensures Without(k[q], b) == k[q] { WithoutNone(k[q], b); }
  }

  lemma AttachRanked(k: Kids, r: Rank, b: Block, p: Block)
    requires Ranked(k, r) && Tidy(k) && b in k && p in k && !InTree(k, r, b, p)
    ensures Ranked(Attach(k, b, p), Raised(k, r, b))
  {
    var k', r' := Attach(k, b, p), Raised(k, r, b);
    forall a, c | a in k' && c in k'[a] ensures c in k' && r'[c] < r'[a] {
      DetachHas(k, b, a, c);
      if c != b {
        EdgeStays(k, r, b, a, c);
      }
    }
  }

  lemma AttachTidy(k: Kids, b: Block, p: Block)
    requires Tidy(k) && b in k && p in k
    ensures Tidy(Attach(k, b, p))
  {
    var k' := Attach(k, b, p);
    forall a | a in k' ensures NoDup(k'[a]) {
      WithoutNoDup(k[a], b);
      DetachHas(k, b, a, b);
    }
    forall x, y, c | x in k' && y in k' && c in k'[x] && c in k'[y] ensures x == y {
      DetachHas(k, b, x, c);
      DetachHas(k, b, y, c);
      if c != b {
        assert c in k[x] && c in k[y];
      }
    }
  }

  /** Attaching below a block outside the tree of `b` keeps the hierarchy in order. */
  lemma AttachOk(k: Kids, r: Rank, b: Block, p: Block)
    requires Ranked(k, r) && Tidy(k) && b in k && p in k && !InTree(k, r, b, p)
    ensures Ranked(Attach(k, b, p), Raised(k, r, b)) && Tidy(Attach(k, b, p))
  {
    AttachRanked(k, r, b, p);
    AttachTidy(k, b, p);
  }

  /** An edge to another block than `b` is inside the tree of `b` or outside it. */
  lemma EdgeStays(k: Kids, r: Rank, b: Block, a: Block, c: Block)
    requires Ranked(k, r) && Tidy(k) && b in k && a in k && c in k[a] && c != b
    ensures InTree(k, r, b, a) <==> InTree(k, r, b, c)
  {
    BelowClosed(k, r, b, |k[b]|);
    if InTree(k, r, b, a) && a == b {
      var j :| 0 <= j < |k[b]| && k[b][j] == c;
    }
    if InTree(k, r, b, c) {
      var q := ParentInTree(k, r, b, |k[b]|, c);
      assert q == a;
    }
  }

  /** Attaching below `b` itself or a descendant of it makes a cycle: no ranks exist then.
      With AttachOk: the hierarchy stays in order exactly if the two assertions of hattach
      hold. */
  lemma AttachBreaks(k: Kids, r: Rank, b: Block, p: Block, r': Rank)
    requires Ranked(k, r) && Tidy(k) && b in k && p in k && Ranked(Attach(k, b, p), r')
    ensures !InTree(k, r, b, p)
  {
    var k' := Attach(k, b, p);
    assert b in k'[p] && r'[b] < r'[p];
    forall x, c | x in k && c in k[x] && c != b ensures c in k'[x] {
      DetachHas(k, b, x, c);
    }
    if p in Below(k, r, b) { BelowGoesDown(k, r, b, k', r'); }
  }

  /** In any ranks for a hierarchy that keeps the edges below `b`, what is below `b` is
      ranked below it. */
  lemma BelowGoesDown(k: Kids, r: Rank, b: Block, k': Kids, r': Rank)
    requires Ranked(k, r) && b in k && Ranked(k', r') && k'.Keys == k.Keys
    requires forall x, c {:trigger c in k[x]} :: x in k && c in k[x] && c != b ==> c in k'[x]
    ensures forall x :: x in Below(k, r, b) ==> x in k && r'[x] < r'[b]
  {
    BelowRanked(k, r, b, |k[b]|);
    BelowClosed(k, r, b, |k[b]|);
    var s := set x | x in k && x in Below(k, r, b) && r'[x] < r'[b];
    forall c | c in k[b] ensures c in s {
      assert r[c] < r[b] && c in k'[b];
      var j :| 0 <= j < |k[b]| && k[b][j] == c;
    }
    forall x, c | x in s && x in k && c in k[x] ensures c in s {
      assert r[c] < r[x] && c in k'[x];
    }
    BelowLeast(k, r, b, |k[b]|, s);
  }

  // ----- release -----

  /** What remains when `b` and all that is below it are gone. */
  ghost function Remaining(k: Kids, r: Rank, b: Block): Kids
    requires Ranked(k, r) && b in k
  {
    map q | q in k && !InTree(k, r, b, q) :: Without(k[q], b)
  }

  ghost function RemainingRank(k: Kids, r: Rank, b: Block): Rank
    requires Ranked(k, r) && b in k
  {
    map q | q in k && !InTree(k, r, b, q) :: r[q]
  }

  /** No remaining block has a released child, and except for `b` itself no remaining block
      loses a child. */
  lemma RemainingHas(k: Kids, r: Rank, b: Block, q: Block, c: Block)
    requires Ranked(k, r) && Tidy(k) && b in k && q in Remaining(k, r, b)
    ensures c in Remaining(k, r, b)[q] <==> c in k[q] && c != b
    ensures c in Remaining(k, r, b)[q] ==> c in Remaining(k, r, b)
    ensures b !in k[q] ==> Remaining(k, r, b)[q] == k[q]
    ensures forall x :: x in Remaining(k, r, b) <==> x in k && !InTree(k, r, b, x)
  {
    WithoutHas(k[q], b, c);
    if b !in k[q] { WithoutNone(k[q], b); }
    if c in Remaining(k, r, b)[q] {
      assert c in k[q];
      EdgeStays(k, r, b, q, c);
    }
  }

  lemma RemainingRanked(k: Kids, r: Rank, b: Block)
    requires Ranked(k, r) && Tidy(k) && b in k
    ensures Ranked(Remaining(k, r, b), RemainingRank(k, r, b))
  {
    var k', r' := Remaining(k, r, b), RemainingRank(k, r, b);
    forall a, c | a in k' && c in k'[a] ensures c in k' && r'[c] < r'[a] {
      RemainingHas(k, r, b, a, c);
      assert c in k[a];
    }
  }

  lemma RemainingTidy(k: Kids, r: Rank, b: Block)
    requires Ranked(k, r) && Tidy(k) && b in k
    ensures Tidy(Remaining(k, r, b))
  {
    var k' := Remaining(k, r, b);
    forall a | a in k' ensures NoDup(k'[a]) { WithoutNoDup(k[a], b); }
    forall x, y, c | x in k' && y in k' && c in k'[x] && c in k'[y] ensures x == y {
      RemainingHas(k, r, b, x, c);
      RemainingHas(k, r, b, y, c);
      assert c in k[x] && c in k[y];
    }
  }
}

/** The linked lists of utlist.h and their in-place merge sorts. */
module UtList {
  import opened MergeSort

  class Node {
    var next: Node?
    var prev: Node?
  }

  // Markers without content. A fact stated for all marked `i` stays folded until a proof
  // writes the mark, which keeps pointers, list algebra and list shapes apart.
  ghost predicate At(i: int) { true }

  ghost predicate Algebra(i: int) { true }

  ghost predicate Shape(i: int) { true }

  ghost predicate NoDup(s: seq<Node>) {
    forall i, j {:trigger At(i), At(j)} :: At(i) && At(j) && 0 <= i < j < |s| ==> s[i] != s[j]
  }

  lemma NoDupMeansDistinct(s: seq<Node>)
    requires NoDup(s)
    ensures forall i, j :: 0 <= i < j < |s| ==> s[i] != s[j]
  {
    forall i, j | 0 <= i < j < |s| ensures s[i] != s[j] {
      assert At(i) && At(j);
    }
  }

  /** A list without its node at place i */
  function Cut<T>(q: seq<T>, i: nat): seq<T>
    requires i < |q|
  {
    q[..i] + q[i + 1..]
  }

  lemma NoDupAppend(s: seq<Node>, e: Node)
    requires NoDup(s) && e !in s
    ensures NoDup(s + [e])
  {
    NoDupMeansDistinct(s);
  }

  ghost predicate Among(r: seq<Node>, s: seq<Node>) {
    forall k :: 0 <= k < |r| ==> r[k] in s
  }

  /** `next` leads from each node of `s[lo..hi]` to the following one. */
  ghost predicate Forward(s: seq<Node>, lo: int, hi: int)
    requires 0 <= lo && hi <= |s|
    reads s
  {
    forall i :: lo <= i < hi - 1 ==> s[i].next == s[i + 1]
  }

  ghost predicate Backward(s: seq<Node>)
    reads s
  {
    forall i :: 0 < i < |s| ==> s[i].prev == s[i - 1]
  }

  /** The chain a pass has built from a first node up to `tail`, whose `next` is still to be
      set; in doubly linked lists it is linked both ways and the first node has no predecessor. */
  ghost predicate Built(doubly: bool, r: seq<Node>, list: Node?, tail: Node?)
    reads r
  {
    && NoDup(r) && Forward(r, 0, |r|) && (doubly ==> Backward(r))
    && (r == [] ==> list == null && tail == null)
    && (r != [] ==> list == r[0] && tail == r[|r| - 1] && (doubly ==> r[0].prev == null))
  }

  /** The nodes `s[lo..]` not yet taken, reached from `q`; `stop` is where the last one points. */
  ghost predicate Pending(s: seq<Node>, lo: int, q: Node?, stop: Node?)
    requires 0 <= lo <= |s|
    reads s
  {
    && Forward(s, lo, |s|)
    && (lo == |s| ==> q == null)
    && (lo < |s| ==> q == s[lo] && s[|s| - 1].next == stop)
  }

  /** The state of a merge: `r` is built; `s[i..hi]` and `s[j..]` are still to be taken,
      from `p` and from `q`. */
  ghost predicate Merging(doubly: bool, s: seq<Node>, i: int, hi: int, j: int, p: Node?, q: Node?, stop: Node?,
                          r: seq<Node>, list: Node?, tail: Node?)
    requires 0 <= i <= hi <= j <= |s|
    reads s, r
  {
    && (i < hi ==> p == s[i]) && (j < |s| ==> q == s[j]) && (j == |s| ==> q == null)
    && forall u {:trigger Shape(u)} :: Shape(u) ==>
      && Built(doubly, r, list, tail) && (forall x :: x in r ==> x in s)
      && (forall k :: i <= k < hi || j <= k < |s| ==> s[k] !in r)
      && Forward(s, i, hi) && Pending(s, j, q, stop)
  }

  /** `e` follows the last node of the chain. */
  method Hang(doubly: bool, e: Node, list0: Node?, tail0: Node?, ghost r: seq<Node>) returns (list: Node, tail: Node)
    requires Built(doubly, r, list0, tail0) && e !in r
    modifies (if tail0 == null then {} else {tail0})`next, (if doubly then {e} else {})`prev
    ensures Built(doubly, r + [e], list, tail)
  {
    NoDupMeansDistinct(r);
    NoDupAppend(r, e);
    if tail0 != null {
      tail0.next := e;
      list := list0;
    } else {
      list := e;
    }
    if doubly {
      e.prev := tail0;
    }
    tail := e;
  }

  /** Appends `e`, which has just been taken, to the chain built so far. */
  method Append(doubly: bool, e: Node, list0: Node?, tail0: Node?, stop: Node?, p: Node?, q: Node?,
                ghost s: seq<Node>, ghost i: int, ghost hi: int, ghost j: int, ghost r: seq<Node>)
    returns (list: Node, tail: Node)
    requires 0 <= i <= hi <= j <= |s|
    requires Merging(doubly, s, i, hi, j, p, q, stop, r, list0, tail0)
    requires e in s && e !in r && forall k :: i <= k < hi || j <= k < |s| ==> s[k] != e
    modifies s`next, (if doubly then s else [])`prev
    ensures Merging(doubly, s, i, hi, j, p, q, stop, r + [e], list, tail)
  {
    assert Shape(0);
    assert tail0 != null ==> tail0 in r;
    list, tail := Hang(doubly, e, list0, tail0, r);
    assert forall k {:trigger s[k].next} :: i <= k < hi || j <= k < |s| ==> s[k].next == old(s[k].next);
  }

  /** With `r` built and `s[i..hi]` and `s[j..end]` still to be merged, the merge will produce `all`. */
  ghost predicate MergeGoal(all: seq<Node>, r: seq<Node>, s: seq<Node>, i: int, hi: int, j: int, end: int,
                            cmp: (Node, Node) -> int)
    requires 0 <= i <= hi <= j <= end <= |s|
  {
    forall u {:trigger Algebra(u)} :: Algebra(u) ==> all == r + Merge(s[i..hi], s[j..end], cmp)
  }

  /** With `r` built and `s[lo..]` still to be merged in runs of `k`, the pass will produce `all`. */
  ghost predicate PassGoal(all: seq<Node>, r: seq<Node>, s: seq<Node>, lo: int, k: nat, cmp: (Node, Node) -> int)
    requires 0 <= lo <= |s| && k > 0
  {
    forall u {:trigger Algebra(u)} :: Algebra(u) ==> all == r + Pass(s[lo..], k, cmp)
  }

  /** Passes over `s` that start with runs of `k` will produce `all`. */
  ghost predicate SortGoal(all: seq<Node>, s: seq<Node>, k: nat, cmp: (Node, Node) -> int)
    requires k > 0
  {
    forall u {:trigger Algebra(u)} :: Algebra(u) ==> all == Passes(s, k, cmp)
  }

  /** The merge takes from the second run exactly when the first is used up, or both
      have a node left and the second's is smaller. */
  lemma MergeTakes(all: seq<Node>, r: seq<Node>, s: seq<Node>, i: int, hi: int, j: int, end: int, second: bool,
                   cmp: (Node, Node) -> int)
    requires 0 <= i <= hi <= j <= end <= |s| && (i < hi || j < end)
    requires second == (i == hi || (j < end && cmp(s[i], s[j]) > 0))
    requires MergeGoal(all, r, s, i, hi, j, end, cmp)
    ensures second ==> MergeGoal(all, r + [s[j]], s, i, hi, j + 1, end, cmp)
    ensures !second ==> MergeGoal(all, r + [s[i]], s, i + 1, hi, j, end, cmp)
  {
    assert Algebra(0);
    assert j < end ==> s[j..end] == [s[j]] + s[j + 1..end] && s[j..end][1..] == s[j + 1..end];
    assert i < hi ==> s[i..hi] == [s[i]] + s[i + 1..hi] && s[i..hi][1..] == s[i + 1..hi];
  }

  lemma MergeDone(all: seq<Node>, r: seq<Node>, s: seq<Node>, hi: int, end: int, cmp: (Node, Node) -> int)
    requires 0 <= hi <= end <= |s| && MergeGoal(all, r, s, hi, hi, end, end, cmp)
    ensures r == all
  {
    assert Algebra(0);
  }

  lemma RunsOfTail(s: seq<Node>, lo: int, hi: int, end: int)
    requires 0 <= lo <= hi <= end <= |s|
    ensures s[lo..][..hi - lo] == s[lo..hi] && s[lo..][hi - lo..end - lo] == s[hi..end]
    ensures s[lo..][end - lo..] == s[end..]
  {
  }

  /** The first two runs a pass has left are merged next. */
  lemma PassStep(all: seq<Node>, r: seq<Node>, s: seq<Node>, lo: int, hi: int, end: int, k: nat,
      cmp: (Node, Node) -> int)
    returns (merged: seq<Node>)
    requires 0 <= lo < |s| && k > 0 && hi == lo + Min(k, |s| - lo) && end == Min(hi + k, |s|)
    requires PassGoal(all, r, s, lo, k, cmp)
    ensures MergeGoal(merged, r, s, lo, hi, hi, end, cmp) && PassGoal(all, merged, s, end, k, cmp)
  {
    var m, t, rest := Merge(s[lo..hi], s[hi..end], cmp), s[lo..], Pass(s[end..], k, cmp);
    merged := r + m;
    assert all == r + Pass(t, k, cmp) by { assert Algebra(0); }
    assert Pass(t, k, cmp) == m + rest by {
      RunsOfTail(s, lo, hi, end);
      PassOpens(t, k, hi - lo, end - lo, cmp);
    }
    assert all == merged + rest by { JoinAssoc(r, m, rest); }
  }

  lemma PassOpens(t: seq<Node>, k: nat, p: nat, q: nat, cmp: (Node, Node) -> int)
    requires t != [] && k > 0 && p == Min(k, |t|) && q == Min(2 * k, |t|)
    ensures Pass(t, k, cmp) == Merge(t[..p], t[p..q], cmp) + Pass(t[q..], k, cmp)
  {
  }

  lemma JoinAssoc(a: seq<Node>, b: seq<Node>, c: seq<Node>)
    ensures a + (b + c) == (a + b) + c
  {
  }

  lemma PassDone(all: seq<Node>, r: seq<Node>, s: seq<Node>, k: nat, cmp: (Node, Node) -> int)
    requires k > 0 && PassGoal(all, r, s, |s|, k, cmp)
    ensures r == all
  {
    assert Algebra(0);
  }

  /** A pass is the last one when it leaves a single run. */
  lemma SortStep(all: seq<Node>, s: seq<Node>, k: nat, cmp: (Node, Node) -> int) returns (passed: seq<Node>)
    requires k > 0 && SortGoal(all, s, k, cmp)
    ensures PassGoal(passed, [], s, 0, k, cmp) && |passed| == |s|
    ensures if |s| <= 2 * k then passed == all else SortGoal(all, passed, 2 * k, cmp)
  {
    assert Algebra(0);
    passed := Pass(s, k, cmp);
    assert s[0..] == s && [] + passed == passed;
    PassPermutes(s, k, cmp);
  }

  lemma SortStart(s: seq<Node>, cmp: (Node, Node) -> int) returns (all: seq<Node>)
    ensures all == Passes(s, 1, cmp) && SortGoal(all, s, 1, cmp)
  {
    all := Passes(s, 1, cmp);
  }

  lemma SortedStably(all: seq<Node>, s: seq<Node>, cmp: (Node, Node) -> int)
    requires all == if s == [] then [] else Passes(s, 1, cmp)
    ensures TotalPreorder(s, cmp) ==> StableSorting(all, s, cmp)
  {
    if TotalPreorder(s, cmp) && s != [] { SortIsStable(s, cmp); }
  }

  /** Takes the next node of the first run. */
  method TakeFirst(doubly: bool, p0: Node, q: Node?, stop: Node?, list0: Node?, tail0: Node?,
                   ghost s: seq<Node>, ghost i: int, ghost hi: int, ghost j: int, ghost r: seq<Node>)
    returns (p: Node?, list: Node, tail: Node)
    requires 0 <= i < hi <= j <= |s| && NoDup(s) && (forall k :: 0 < k < |s| ==> s[k] != stop)
    requires Merging(doubly, s, i, hi, j, p0, q, stop, r, list0, tail0)
    modifies s`next, (if doubly then s else [])`prev
    ensures Merging(doubly, s, i + 1, hi, j, p, q, stop, r + [s[i]], list, tail)
  {
    assert Shape(0);
    NoDupMeansDistinct(s);
    assert i + 1 < hi ==> s[i].next == s[i + 1];
    p := p0.next;
    if p == stop { p := null; }
    assert p0 == s[i] && p0 !in r && (i + 1 < hi ==> p == s[i + 1]);
    list, tail := Append(doubly, p0, list0, tail0, stop, p, q, s, i + 1, hi, j, r);
  }

  /** Takes the next node of the second run. */
  method TakeSecond(doubly: bool, q0: Node, p: Node?, stop: Node?, list0: Node?, tail0: Node?,
                    ghost s: seq<Node>, ghost i: int, ghost hi: int, ghost j: int, ghost r: seq<Node>)
    returns (q: Node?, list: Node, tail: Node)
    requires 0 <= i <= hi <= j < |s| && NoDup(s) && (forall k :: 0 < k < |s| ==> s[k] != stop)
    requires Merging(doubly, s, i, hi, j, p, q0, stop, r, list0, tail0)
    modifies s`next, (if doubly then s else [])`prev
    ensures Merging(doubly, s, i, hi, j + 1, p, q, stop, r + [s[j]], list, tail)
  {
    assert Shape(0);
    NoDupMeansDistinct(s);
    assert j + 1 < |s| ==> s[j].next == s[j + 1];
    q := q0.next;
    if q == stop { q := null; }
    assert q0 == s[j] && q0 !in r && Pending(s, j + 1, q, stop);
    list, tail := Append(doubly, q0, list0, tail0, stop, p, q, s, i, hi, j + 1, r);
  }

  /** One round of a merge: the choice of the run to take from, and the taking. */
  method TakeNext(doubly: bool, p0: Node?, psize0: nat, q0: Node?, qsize0: nat, stop: Node?, list0: Node?, tail0: Node?,
                  cmp: (Node, Node) -> int,
                  ghost all: seq<Node>,
                  ghost s: seq<Node>, ghost i: int, ghost hi: int, ghost j: int, ghost end: int, ghost r: seq<Node>)
    returns (p: Node?, psize: nat, q: Node?, qsize: nat, list: Node, tail: Node,
             ghost i': int, ghost j': int, ghost r': seq<Node>)
    requires 0 <= i <= hi <= j <= end <= |s| && NoDup(s) && (forall k :: 0 < k < |s| ==> s[k] != stop)
    requires psize0 == hi - i && (qsize0 > 0 && q0 != null <==> j < end)
    requires psize0 > 0 || (qsize0 > 0 && q0 != null)
    requires Merging(doubly, s, i, hi, j, p0, q0, stop, r, list0, tail0) && MergeGoal(all, r, s, i, hi, j, end, cmp)
    modifies s`next, (if doubly then s else [])`prev
    ensures i <= i' <= hi <= j <= j' <= end && i' + j' == i + j + 1
    ensures psize == hi - i' && qsize == qsize0 - (j' - j)
    ensures Merging(doubly, s, i', hi, j', p, q, stop, r', list, tail) && MergeGoal(all, r', s, i', hi, j', end, cmp)
  {
    p, psize, q, qsize, i', j' := p0, psize0, q0, qsize0, i, j;
    var second: bool;
    if psize == 0 {
      second := true;
    } else if qsize == 0 || q == null {
      second := false;
    } else if cmp(p, q) <= 0 {
      second := false;
    } else {
      second := true;
    }
    MergeTakes(all, r, s, i, hi, j, end, second, cmp);
    if second {
      r', j', qsize := r + [s[j]], j + 1, qsize - 1;
      q, list, tail := TakeSecond(doubly, q, p, stop, list0, tail0, s, i, hi, j, r);
    } else {
      r', i', psize := r + [s[i]], i + 1, psize - 1;
      p, list, tail := TakeFirst(doubly, p, q, stop, list0, tail0, s, i, hi, j, r);
    }
  }

  /** Merges the run of `psize` nodes at `p` with the run of at most `insize` nodes at `q`:
      in `s`, the first is `s[lo..hi]` and the second `s[hi..end]`. */
  method MergeRuns(doubly: bool, p0: Node?, psize0: nat, q0: Node?, insize: nat, stop: Node?, list0: Node?,
                   tail0: Node?, cmp: (Node, Node) -> int, ghost all: seq<Node>,
                   ghost s: seq<Node>, ghost lo: int, ghost hi: int, ghost end: int, ghost r0: seq<Node>)
    returns (list: Node?, tail: Node?, q: Node?)
    requires 0 <= lo <= hi <= |s| && NoDup(s) && (forall k :: 0 < k < |s| ==> s[k] != stop)
    requires psize0 == hi - lo && Merging(doubly, s, lo, hi, hi, p0, q0, stop, r0, list0, tail0)
    requires end == Min(hi + insize, |s|) && MergeGoal(all, r0, s, lo, hi, hi, end, cmp)
    modifies s`next, (if doubly then s else [])`prev
    ensures Merging(doubly, s, end, end, end, q, q, stop, all, list, tail)
  {
    var p, psize, qsize := p0, psize0, insize;
    list, tail, q := list0, tail0, q0;
    ghost var i, j, r := lo, hi, r0;
    while psize > 0 || (qsize > 0 && q != null)
      invariant lo <= i <= hi <= j <= end && psize == hi - i && qsize == hi + insize - j
      invariant Merging(doubly, s, i, hi, j, p, q, stop, r, list, tail) && MergeGoal(all, r, s, i, hi, j, end, cmp)
      decreases hi - i + end - j
    {
      p, psize, q, qsize, list, tail, i, j,
        r := TakeNext(doubly, p, psize, q, qsize, stop, list, tail, cmp, all, s, i, hi, j, end, r);
    }
    MergeDone(all, r, s, hi, end, cmp);
  }

  /** Steps over a run of at most `insize` nodes: where the next run starts, and how many were passed. */
  method Split(p: Node, insize: nat, stop: Node?, ghost s: seq<Node>, ghost lo: int) returns (q: Node?, psize: nat)
    requires 0 <= lo < |s| && insize > 0 && Pending(s, lo, p, stop) && forall k :: 0 < k < |s| ==> s[k] != stop
    ensures psize == Min(insize, |s| - lo) && Pending(s, lo + psize, q, stop)
  {
    q, psize := p, 0;
    for i := 0 to insize
      invariant psize == i <= |s| - lo && Pending(s, lo + psize, q, stop)
      invariant q != null || i == 0
    {
      psize := psize + 1;
      assert lo + i < |s| - 1 ==> s[lo + i].next == s[lo + i + 1];
      q := if q.next == stop then null else q.next;
      if q == null { break; }
    }
  }

  /** Splits off the next run and merges it with the one after it. */
  method MergeNextRuns(doubly: bool, p0: Node, insize: nat, stop: Node?, list0: Node?, tail0: Node?,
                       cmp: (Node, Node) -> int, ghost all: seq<Node>,
                       ghost s: seq<Node>, ghost lo: int, ghost r0: seq<Node>)
    returns (p: Node?, list: Node?, tail: Node?, ghost r: seq<Node>, ghost end: int)
    requires insize > 0 && 0 <= lo < |s| && NoDup(s) && forall k :: 0 < k < |s| ==> s[k] != stop
    requires Merging(doubly, s, lo, lo, lo, p0, p0, stop, r0, list0, tail0) && PassGoal(all, r0, s, lo, insize, cmp)
    modifies s`next, (if doubly then s else [])`prev
    ensures end == Min(lo + 2 * insize, |s|)
    ensures Merging(doubly, s, end, end, end, p, p, stop, r, list, tail) && PassGoal(all, r, s, end, insize, cmp)
  {
    assert Pending(s, lo, p0, stop) by { assert Shape(0); }
    var q, psize := Split(p0, insize, stop, s, lo);
    ghost var hi := lo + psize;
    end := Min(hi + insize, |s|);
    r := PassStep(all, r0, s, lo, hi, end, insize, cmp);
    list, tail, p := MergeRuns(doubly, p0, psize, q, insize, stop, list0, tail0, cmp, r, s, lo, hi, end, r0);
  }

  /** One pass over the list: merges neighbouring runs of `insize` nodes. `stop` is where
      the last node points: NULL, or the old head when the list is circular. */
  method MergePass(doubly: bool, head: Node, insize: nat, stop: Node?, cmp: (Node, Node) -> int,
      ghost all: seq<Node>, ghost s: seq<Node>)
    returns (list: Node, tail: Node, nmerges: nat)
    requires insize > 0 && s != [] && NoDup(s) && Pending(s, 0, head, stop)
    requires forall k :: 0 < k < |s| ==> s[k] != stop
    requires PassGoal(all, [], s, 0, insize, cmp) && |all| == |s|
    modifies s`next, (if doubly then s else [])`prev
    ensures Built(doubly, all, list, tail) && Among(all, s)
    ensures nmerges <= 1 <==> |s| <= 2 * insize
  {
    var p: Node?, list': Node?, tail': Node? := head, null, null;
    nmerges := 0;
    ghost var lo, r := 0, [];
    while p != null
      invariant 0 <= lo <= |s| && Merging(doubly, s, lo, lo, lo, p, p, stop, r, list', tail')
      invariant PassGoal(all, r, s, lo, insize, cmp)
      invariant if nmerges == 0 then lo == 0 else if nmerges == 1 then lo == Min(2 * insize, |s|) else lo > 2 * insize
      decreases |s| - lo
    {
      nmerges := nmerges + 1;
      p, list', tail', r, lo := MergeNextRuns(doubly, p, insize, stop, list', tail', cmp, all, s, lo, r);
    }
    PassDone(all, r, s, insize, cmp);
    assert Built(doubly, all, list', tail') && Among(all, s) by { assert Shape(0); }
    list, tail := list', tail';
  }

  /** A doubly linked list: the head's `prev` is the tail, the tail's `next` is NULL. */
  ghost predicate IsDL(s: seq<Node>, head: Node?)
    reads s
  {
    (head == null <==> s == []) && forall u {:trigger Shape(u)} :: Shape(u) ==>
      && NoDup(s) && Forward(s, 0, |s|) && Backward(s)
      && (s != [] ==> head == s[0] && s[0].prev == s[|s| - 1] && s[|s| - 1].next == null)
  }

  /** A circular doubly linked list: the tail's `next` is the head. */
  ghost predicate IsCDL(s: seq<Node>, head: Node?)
    reads s
  {
    (head == null <==> s == []) && forall u {:trigger Shape(u)} :: Shape(u) ==>
      && NoDup(s) && Forward(s, 0, |s|) && Backward(s)
      && (s != [] ==> head == s[0] && s[0].prev == s[|s| - 1] && s[|s| - 1].next == s[0])
  }

  /** A singly linked list: `prev` is no part of it. */
  ghost predicate IsLL(s: seq<Node>, head: Node?)
    reads s
  {
    (head == null <==> s == []) && forall u {:trigger Shape(u)} :: Shape(u) ==>
      && NoDup(s) && Forward(s, 0, |s|) && (s != [] ==> head == s[0] && s[|s| - 1].next == null)
  }

  /** The application order of a hash: NULL at both ends, and `tail` is kept. */
  ghost predicate IsApp(s: seq<Node>, head: Node?, tail: Node?)
    reads s
  {
    (head == null <==> s == []) && forall u {:trigger Shape(u)} :: Shape(u) ==>
      && NoDup(s) && Forward(s, 0, |s|) && Backward(s)
      && if s == [] then tail == null
         else head == s[0] && tail == s[|s| - 1] && s[0].prev == null && s[|s| - 1].next == null
  }

  /** The macro that sorts: LL_SORT, DL_SORT, CDL_SORT or HASH_SRT */
  datatype Kind = LL | DL | CDL | App

  ghost predicate IsList(kind: Kind, s: seq<Node>, head: Node?, tail: Node?)
    reads s
  {
    match kind
    case LL => IsLL(s, head)
    case DL => IsDL(s, head)
    case CDL => IsCDL(s, head)
    case App => IsApp(s, head, tail)
  }

  ghost function Pow2(n: nat): nat {
    if n == 0 then 1 else 2 * Pow2(n - 1)
  }

  /** After `passes` passes the runs are `insize` long, and each pass but the first was needed. */
  ghost predicate Needed(passes: nat, insize: nat, n: nat) {
    forall u {:trigger Algebra(u)} :: Algebra(u) ==> insize == Pow2(passes) && (passes <= 1 || Pow2(passes - 1) < n)
  }

  lemma NeededStep(passes: nat, insize: nat, n: nat)
    requires Needed(passes, insize, n) && (passes == 0 || insize < n)
    ensures Needed(passes + 1, insize * 2, n)
  {
    assert Algebra(0);
  }

  lemma NeededBound(passes: nat, insize: nat, n: nat)
    requires Needed(passes, insize, n)
    ensures passes <= 1 || Pow2(passes - 1) < n
  {
    assert Algebra(0);
  }

  lemma Unfolded(kind: Kind, s: seq<Node>, head: Node, tail: Node?)
    requires s != [] && IsList(kind, s, head, tail)
    ensures NoDup(s) && Pending(s, 0, head, if kind == CDL then head else null) && head == s[0]
    ensures forall k :: 0 < k < |s| ==> s[k] != head
  {
    assert Shape(0);
    NoDupMeansDistinct(s);
  }

  /** One pass of the sort restores the whole shape of the list. */
  method SortPass(kind: Kind, head: Node, tail0: Node?, insize: nat, cmp: (Node, Node) -> int,
                  ghost goal: seq<Node>, ghost s: seq<Node>)
    returns (list: Node, tail: Node, nmerges: nat, ghost r: seq<Node>)
    requires insize > 0 && s != [] && IsList(kind, s, head, tail0) && SortGoal(goal, s, insize, cmp)
    modifies s`next, (if kind == LL then [] else s)`prev
    ensures IsList(kind, r, list, tail) && |r| == |s| && Among(r, s)
    ensures nmerges <= 1 <==> |s| <= 2 * insize
    ensures if nmerges <= 1 then r == goal else SortGoal(goal, r, 2 * insize, cmp)
  {
    Unfolded(kind, s, head, tail0);
    r := SortStep(goal, s, insize, cmp);
    var oldhead := head;
    list, tail, nmerges := MergePass(kind != LL, head, insize, if kind == CDL then oldhead else null, cmp, r, s);
    CloseUp(kind, list, tail, r);
  }

  /** The ends of the list after a pass */
  method CloseUp(kind: Kind, list: Node, tail: Node, ghost r: seq<Node>)
    requires r != [] && Built(kind != LL, r, list, tail)
    modifies {tail}`next, (if kind == LL then {} else {list})`prev
    ensures IsList(kind, r, list, tail)
  {
    NoDupMeansDistinct(r);
    if kind == DL || kind == CDL {
      list.prev := tail;
    }
    tail.next := if kind == CDL then list else null;
  }

  /** The loop of the sort; `passes` counts the passes over the list. */
  method SortPasses(kind: Kind, head: Node, tail: Node?, cmp: (Node, Node) -> int, ghost s: seq<Node>)
    returns (list: Node, last: Node?, ghost r: seq<Node>, ghost passes: nat)
    requires s != [] && IsList(kind, s, head, tail)
    modifies s`next, (if kind == LL then [] else s)`prev
    ensures IsList(kind, r, list, last) && r == Passes(s, 1, cmp)
    ensures passes <= 1 || Pow2(passes - 1) < |s|
  {
    list, last, r, passes := head, tail, s, 0;
    var insize, looping := 1, true;
    ghost var goal := SortStart(s, cmp);
    while looping
      invariant insize > 0 && |r| == |s| && IsList(kind, r, list, last) && Among(r, s)
      invariant Needed(passes, insize, |s|) && (looping && passes > 0 ==> insize < |s|)
      invariant if looping then SortGoal(goal, r, insize, cmp) else r == goal
      decreases looping, |s| - insize
    {
      var nmerges, t;
      list, t, nmerges, r := SortPass(kind, list, last, insize, cmp, goal, r);
      last := t;
      if nmerges <= 1 {
        looping := false;
      }
      NeededStep(passes, insize, |s|);
      insize := insize * 2;
      passes := passes + 1;
    }
    NeededBound(passes, insize, |s|);
  }

  /** LL_SORT. `passes` counts the passes over the list. */
  method LLSort(head: Node?, cmp: (Node, Node) -> int, ghost s: seq<Node>)
    returns (list: Node?, ghost r: seq<Node>, ghost passes: nat)
    requires IsLL(s, head)
    modifies s`next
    ensures IsLL(r, list) && r == if s == [] then [] else Passes(s, 1, cmp)
    ensures TotalPreorder(s, cmp) ==> StableSorting(r, s, cmp)
    ensures passes <= 1 || Pow2(passes - 1) < |s|
  {
    list, r, passes := head, s, 0;
    if list != null {
      var l, _, r', n := SortPasses(LL, list, null, cmp, s);
      list, r, passes := l, r', n;
    }
    SortedStably(r, s, cmp);
  }

  /** DL_SORT. */
  method DLSort(head: Node?, cmp: (Node, Node) -> int, ghost s: seq<Node>)
    returns (list: Node?, ghost r: seq<Node>, ghost passes: nat)
    requires IsDL(s, head)
    modifies s
    ensures IsDL(r, list) && r == if s == [] then [] else Passes(s, 1, cmp)
    ensures TotalPreorder(s, cmp) ==> StableSorting(r, s, cmp)
    ensures passes <= 1 || Pow2(passes - 1) < |s|
  {
    list, r, passes := head, s, 0;
    if list != null {
      var l, _, r', n := SortPasses(DL, list, null, cmp, s);
      list, r, passes := l, r', n;
    }
    SortedStably(r, s, cmp);
  }

  /** CDL_SORT. */
  method CDLSort(head: Node?, cmp: (Node, Node) -> int, ghost s: seq<Node>)
    returns (list: Node?, ghost r: seq<Node>, ghost passes: nat)
    requires IsCDL(s, head)
    modifies s
    ensures IsCDL(r, list) && r == if s == [] then [] else Passes(s, 1, cmp)
    ensures TotalPreorder(s, cmp) ==> StableSorting(r, s, cmp)
    ensures passes <= 1 || Pow2(passes - 1) < |s|
  {
    list, r, passes := head, s, 0;
    if list != null {
      var l, _, r', n := SortPasses(CDL, list, null, cmp, s);
      list, r, passes := l, r', n;
    }
    SortedStably(r, s, cmp);
  }
}

/** HASH_EXPAND_BUCKETS in its own form: every handle is moved from the old bucket array to
    the head of its chain in the new one. */
module UtHashExpand {
  import opened UtHash
  import opened UtHashHeap

  ghost function SetOf(q: seq<Handle>): set<Handle> {
    set h | h in q
  }

  /** What is left of a chain when `k` handles have been moved; `thh` is the next one. */
  ghost predicate Rest(q: seq<Handle>, k: nat, thh: Handle?, b: object, j: nat)
    reads q
  {
    && k <= |q| && thh == (if k < |q| then q[k] else null)
    && forall u {:trigger Chained(u)} :: Chained(u) ==>
      && Distinct(q)
      && (forall i :: k <= i < |q| ==> q[i].home == b && q[i].at == j)
      && (forall i :: k <= i < |q| - 1 ==> q[i].hh_next == q[i + 1])
      && (k < |q| ==> q[|q| - 1].hh_next == null)
  }

  lemma RestStarts(q: seq<Handle>, head: Handle?, b: object, j: nat)
    requires IsChain(q, head, b, j)
    ensures Rest(q, 0, head, b, j)
  {
    assert Chained(0);
  }

  lemma RestNext(q: seq<Handle>, k: nat, thh: Handle, b: object, j: nat)
    requires Rest(q, k, thh, b, j)
    ensures k < |q| && q[k] == thh && thh.home == b && thh.at == j
    ensures thh.hh_next == if k + 1 < |q| then q[k + 1] else null
    ensures forall i :: k < i < |q| ==> q[i].home == b && q[i] != thh
  {
    assert Chained(0);
  }

  datatype RestAt = RestAt(q: seq<Handle>, k: nat, next: Handle?, b: object, j: nat)

  /** The handle in place `k` has been moved, the ones after it are as they were. */
  twostate lemma RestMoves(r: RestAt)
    requires r.k < |r.q| && old(Rest(r.q, r.k, r.q[r.k], r.b, r.j))
    requires r.next == if r.k + 1 < |r.q| then r.q[r.k + 1] else null
    requires forall i :: r.k < i < |r.q| ==> Same(r.q[i])
    ensures Rest(r.q, r.k + 1, r.next, r.b, r.j)
  {
    assert Chained(0);
  }

  lemma {:induction false} PlaceAllConcat(nb: seq<Bucket>, ideal: nat, a: seq<Elem>, b: seq<Elem>)
    requires |nb| > 0 && ideal > 0
    ensures PlaceAll(nb, ideal, a + b) == PlaceAll(PlaceAll(nb, ideal, a), ideal, b)
    ensures Overfull(nb, ideal, a + b) == Overfull(nb, ideal, a) + Overfull(PlaceAll(nb, ideal, a), ideal, b)
  {
    if b == [] {
      assert a + b == a;
    } else {
      assert (a + b)[..|a + b| - 1] == a + b[..|b| - 1];
      PlaceAllConcat(nb, ideal, a, b[..|b| - 1]);
    }
  }

  lemma PlaceAllOne(nb: seq<Bucket>, ideal: nat, q: seq<Elem>, e: Elem)
    requires |nb| > 0 && ideal > 0
    ensures PlaceAll(nb, ideal, q + [e]) == Place(PlaceAll(nb, ideal, q), ideal, e)
    ensures Overfull(nb, ideal, q + [e]) ==
      Overfull(nb, ideal, q) + if PlaceAll(nb, ideal, q)[ToBkt(e.hashv, |nb|)].count + 1 > ideal then 1 else 0
  {
    assert (q + [e])[..|q + [e]| - 1] == q;
  }

  /** The old and the new bucket array share nothing. */
  ghost predicate Apart(src: Buckets, dst: Buckets) {
    && src != dst && src.heads != dst.heads
    && src.counts != dst.counts && src.mults != dst.mults && src.counts != dst.mults && src.mults != dst.counts
  }

  lemma HandlesAfterLink(b: Buckets, chains: seq<seq<Handle>>, j: nat, h: Handle, hs: set<Handle>)
    requires j < |chains| && b.chains == chains[j := [h] + chains[j]]
    requires hs == set k, i | 0 <= k < |chains| && 0 <= i < |chains[k]| :: chains[k][i]
    ensures b.Handles() == hs + {h}
  {
    forall x ensures x in b.Handles() <==> x in hs || x == h {
      if x == h { assert b.chains[j][0] == h; }
      if x in hs {
        var k, i :| 0 <= k < |chains| && 0 <= i < |chains[k]| && chains[k][i] == x;
        if k == j { assert b.chains[k][i + 1] == x; } else { assert b.chains[k][i] == x; }
      }
      if x in b.Handles() {
        var k, i :| 0 <= k < |b.chains| && 0 <= i < |b.chains[k]| && b.chains[k][i] == x;
        if k == j { if i > 0 { assert chains[k][i - 1] == x; } } else { assert chains[k][i] == x; }
      }
    }
  }

  lemma HandlesHome(b: Buckets)
    requires b.Shaped() && b.Valid()
    ensures forall h :: h in b.Handles() ==> h.home == b
  {
    forall h | h in b.Handles() ensures h.home == b {
      var j, i :| 0 <= j < |b.chains| && 0 <= i < |b.chains[j]| && b.chains[j][i] == h;
      ChainHomes(b.chains[j], b.heads[j], b, j);
    }
  }

  /** Moves the handle `thh` into the new buckets. */
  method MoveOne(dst: Buckets, ideal: nat, thh: Handle) returns (over: bool)
    requires dst.Shaped() && dst.Valid() && |dst.chains| > 0 && ideal > 0 && thh.home != dst
    modifies dst, dst.heads, dst.counts, dst.mults, dst.Handles(), thh
    ensures dst.Shaped() && dst.Valid() && dst.Abs() == Place(old(dst.Abs()), ideal, thh.e)
    ensures dst.Handles() == old(dst.Handles()) + {thh}
    ensures over == (old(dst.Abs())[ToBkt(thh.e.hashv, |old(dst.chains)|)].count + 1 > ideal)
  {
    ghost var chains, hs, j := dst.chains, dst.Handles(), ToBkt(thh.e.hashv, |dst.chains|);
    forall i | 0 <= i < |chains[j]| ensures chains[j][i] in hs { }
    over := dst.PlaceOne(ideal, thh);
    HandlesAfterLink(dst, chains, j, thh, hs);
  }

  /** Moves the next handle of a chain and finds the one after it. */
  method MoveNext(src: Buckets, dst: Buckets, ideal: nat, thh: Handle, ghost q: seq<Handle>, ghost k: nat, ghost i: nat)
    returns (nxt: Handle?, over: bool)
    requires Rest(q, k, thh, src, i) && src != dst
    requires dst.Shaped() && dst.Valid() && |dst.chains| > 0 && ideal > 0
    modifies dst, dst.heads, dst.counts, dst.mults, dst.Handles(), thh
    ensures Rest(q, k + 1, nxt, src, i)
    ensures dst.Shaped() && dst.Valid() && dst.Abs() == Place(old(dst.Abs()), ideal, thh.e)
    ensures dst.Handles() == old(dst.Handles()) + {thh}
    ensures over == (old(dst.Abs())[ToBkt(thh.e.hashv, |old(dst.chains)|)].count + 1 > ideal)
  {
    RestNext(q, k, thh, src, i);
    HandlesHome(dst);
    nxt := thh.hh_next;
    label L:
    over := MoveOne(dst, ideal, thh);
    forall m | k < m < |q| ensures Same@L(q[m]) { }
    RestMoves@L(RestAt(q, k, nxt, src, i));
  }

  lemma TakeOne(q: seq<Handle>, k: nat, h: Handle, hs: set<Handle>)
    requires k < |q| && q[k] == h
    ensures Elems(q[..k + 1]) == Elems(q[..k]) + [h.e]
    ensures hs + SetOf(q[..k]) + {h} == hs + SetOf(q[..k + 1])
  {
    assert q[..k + 1] == q[..k] + [h];
  }

  /** The inner loop of HASH_EXPAND_BUCKETS: the whole chain of old bucket `i` moves. */
  method MoveChain(src: Buckets, dst: Buckets, ideal: nat, i: nat) returns (over: nat)
    requires src.Shaped() && i < |src.chains| && IsChain(src.chains[i], src.heads[i], src, i)
    requires dst.Shaped() && dst.Valid() && |dst.chains| > 0 && ideal > 0 && Apart(src, dst)
    modifies dst, dst.heads, dst.counts, dst.mults, dst.Handles(), src.chains[i]
    ensures dst.Shaped() && dst.Valid() && |dst.chains| == |old(dst.chains)|
    ensures dst.Abs() == PlaceAll(old(dst.Abs()), ideal, Elems(src.chains[i]))
    ensures over == Overfull(old(dst.Abs()), ideal, Elems(src.chains[i]))
    ensures dst.Handles() == old(dst.Handles()) + SetOf(src.chains[i])
  {
    ghost var q, base, hs, k := src.chains[i], dst.Abs(), dst.Handles(), 0;
    RestStarts(q, src.heads[i], src, i);
    var thh := src.heads[i];
    over := 0;
    while thh != null
      invariant dst.Shaped() && dst.Valid() && |dst.chains| == |base| && Rest(q, k, thh, src, i)
      invariant dst.Abs() == PlaceAll(base, ideal, Elems(q[..k])) && over == Overfull(base, ideal, Elems(q[..k]))
      invariant dst.Handles() == hs + SetOf(q[..k])
      decreases |q| - k
    {
      RestNext(q, k, thh, src, i);
      var nxt, o := MoveNext(src, dst, ideal, thh, q, k, i);
      TakeOne(q, k, thh, hs);
      PlaceAllOne(base, ideal, Elems(q[..k]), thh.e);
      over := over + if o then 1 else 0;
      thh, k := nxt, k + 1;
    }
    assert q[..k] == q;
  }

  /** The old chains from `i` on have not been touched. */
  ghost predicate Unmoved(src: Buckets, i: nat)
    requires src.Shaped()
    reads src, src.heads, src.Handles()
  {
    forall k {:trigger src.chains[k]} :: i <= k < |src.chains| ==> IsChain(src.chains[k], src.heads[k], src, k)
  }

  datatype Later = Later(src: Buckets, i: nat, m: nat)

  twostate lemma {:induction false} LaterStay(l: Later)
    requires l.src.Shaped() && old(l.src.Shaped() && Unmoved(l.src, l.i)) && l.i <= l.m <= |l.src.chains|
    requires l.src.chains == old(l.src.chains) && l.src.heads[..] == old(l.src.heads[..])
    requires forall k :: l.i < k < |l.src.chains| ==> Sames(l.src.chains[k])
    ensures forall k :: l.i < k < l.m ==> IsChain(l.src.chains[k], l.src.heads[k], l.src, k)
    decreases l.m
  {
    if l.m > l.i + 1 {
      LaterStay(l.(m := l.m - 1));
      var k := l.m - 1;
      assert l.src.heads[..][k] == old(l.src.heads[..])[k];
      assert old(IsChain(l.src.chains[k], l.src.heads[k], l.src, k));
      ChainStays(ChainAt(l.src.chains[k], l.src.heads[k], l.src, k));
    }
  }

  twostate predicate Sames(q: seq<Handle>)
    reads q
  {
    forall i :: 0 <= i < |q| ==> Same(q[i])
  }

  lemma LaterElsewhere(src: Buckets, dst: Buckets, i: nat, k: nat)
    requires src.Shaped() && Unmoved(src, i) && i < k < |src.chains| && dst.Shaped() && dst.Valid() && src != dst
    ensures forall m :: 0 <= m < |src.chains[k]| ==>
      src.chains[k][m] !in src.chains[i] && src.chains[k][m] !in dst.Handles()
  {
    ChainHomes(src.chains[k], src.heads[k], src, k);
    ChainHomes(src.chains[i], src.heads[i], src, i);
    HandlesHome(dst);
  }

  /** One round of the outer loop. */
  method MoveBucket(src: Buckets, dst: Buckets, ideal: nat, i: nat) returns (over: nat)
    requires src.Shaped() && i < |src.chains| && Unmoved(src, i)
    requires dst.Shaped() && dst.Valid() && |dst.chains| > 0 && ideal > 0 && Apart(src, dst)
    modifies dst, dst.heads, dst.counts, dst.mults, dst.Handles(), src.chains[i]
    ensures src.Shaped() && Unmoved(src, i + 1) && dst.Shaped() && dst.Valid() && |dst.chains| == |old(dst.chains)|
    ensures dst.Abs() == PlaceAll(old(dst.Abs()), ideal, Elems(src.chains[i]))
    ensures over == Overfull(old(dst.Abs()), ideal, Elems(src.chains[i]))
    ensures dst.Handles() == old(dst.Handles()) + SetOf(src.chains[i])
  {
    forall k | i < k < |src.chains| ensures SetOf(src.chains[k]) !! (SetOf(src.chains[i]) + dst.Handles()) {
      LaterElsewhere(src, dst, i, k);
    }
    over := MoveChain(src, dst, ideal, i);
    forall k | i < k < |src.chains| ensures Sames(src.chains[k]) {
      forall m | 0 <= m < |src.chains[k]| ensures Same(src.chains[k][m]) {
        assert src.chains[k][m] in SetOf(src.chains[k]);
      }
    }
    LaterStay(Later(src, i, |src.chains|));
  }

  /** The first `i` old buckets have been moved into the new ones, which began as `base`. */
  ghost predicate Progress(src: Buckets, dst: Buckets, ideal: nat, base: seq<Bucket>, i: nat, nonideal: nat)
    requires src.Shaped() && dst.Shaped()
    reads src, src.heads, src.Handles(), dst, dst.heads, dst.counts, dst.mults, dst.Handles()
  {
    && i <= |src.chains| && |base| > 0 && ideal > 0 && Unmoved(src, i) && dst.Valid() && |dst.chains| == |base|
    && dst.Abs() == PlaceAll(base, ideal, Elems(Walk(src.chains, i)))
    && nonideal == Overfull(base, ideal, Elems(Walk(src.chains, i)))
    && dst.Handles() == SetOf(Walk(src.chains, i))
  }

  method MoveStep(src: Buckets, dst: Buckets, ideal: nat, i: nat, ghost base: seq<Bucket>, ghost nonideal: nat)
    returns (over: nat)
    requires src.Shaped() && dst.Shaped() && Apart(src, dst) && i < |src.chains|
    requires Progress(src, dst, ideal, base, i, nonideal)
    modifies dst, dst.heads, dst.counts, dst.mults, src.Handles()
    ensures src.Shaped() && dst.Shaped() && Progress(src, dst, ideal, base, i + 1, nonideal + over)
  {
    WalkHandles(src, i);
    over := MoveBucket(src, dst, ideal, i);
    WalkOne(base, ideal, src.chains, i);
  }

  /** The loops of HASH_EXPAND_BUCKETS */
  method MoveAll(src: Buckets, dst: Buckets, ideal: nat) returns (nonideal: nat)
    requires src.Shaped() && src.Valid() && dst.Shaped() && dst.Valid() && Apart(src, dst)
    requires |dst.chains| > 0 && ideal > 0 && dst.Handles() == {}
    modifies dst, dst.heads, dst.counts, dst.mults, src.Handles()
    ensures dst.Shaped() && dst.Valid() && |dst.chains| == |old(dst.chains)|
    ensures dst.Abs() == PlaceAll(old(dst.Abs()), ideal, Flat(old(src.Abs())))
    ensures nonideal == Overfull(old(dst.Abs()), ideal, Flat(old(src.Abs())))
    ensures dst.Handles() == old(src.Handles())
  {
    ghost var base, n := dst.Abs(), |src.chains|;
    WalkIsFlat(src, n);
    WalkHandles(src, n);
    nonideal := 0;
    for i := 0 to src.heads.Length
      invariant src.Shaped() && dst.Shaped() && Progress(src, dst, ideal, base, i, nonideal)
    {
      var over := MoveStep(src, dst, ideal, i, base, nonideal);
      nonideal := nonideal + over;
    }
  }

  lemma WalkOne(base: seq<Bucket>, ideal: nat, chains: seq<seq<Handle>>, i: nat)
    requires |base| > 0 && ideal > 0 && i < |chains|
    ensures var a, b := Elems(Walk(chains, i)), Elems(chains[i]);
      && PlaceAll(base, ideal, Elems(Walk(chains, i + 1))) == PlaceAll(PlaceAll(base, ideal, a), ideal, b)
      && Overfull(base, ideal, Elems(Walk(chains, i + 1))) == Overfull(base, ideal, a) +
        Overfull(PlaceAll(base, ideal, a), ideal, b)
    ensures SetOf(Walk(chains, i + 1)) == SetOf(Walk(chains, i)) + SetOf(chains[i])
  {
    ElemsConcat(Walk(chains, i), chains[i]);
    PlaceAllConcat(base, ideal, Elems(Walk(chains, i)), Elems(chains[i]));
  }

  /** The handles met in a walk are handles of the bucket array; a whole walk meets all. */
  lemma {:induction false} WalkHandles(b: Buckets, m: nat)
    requires m <= |b.chains|
    ensures SetOf(Walk(b.chains, m)) == set j, i | 0 <= j < m && 0 <= i < |b.chains[j]| :: b.chains[j][i]
  {
    if m > 0 {
      WalkHandles(b, m - 1);
      assert SetOf(Walk(b.chains, m)) == SetOf(Walk(b.chains, m - 1)) + SetOf(b.chains[m - 1]);
    }
  }
}

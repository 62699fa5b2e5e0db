/** The integrity of the buckets: what HASH_FSCK checks, kept by every operation and by the
    doubling of the number of buckets. */
module UtHashTable {
  import opened MergeSort
  import opened UtHash

  /** A bucket's count is right, and it holds only elements that belong there. */
  ghost predicate BucketOk(b: Bucket, j: nat, n: nat)
    requires n > 0
  {
    b.count == |b.chain| && forall e :: e in b.chain ==> ToBkt(e.hashv, n) == j
  }

  ghost predicate BucketsOk(bs: seq<Bucket>) {
    |bs| > 0 && forall j :: 0 <= j < |bs| ==> BucketOk(bs[j], j, |bs|)
  }

  /** The elements in the first `m` buckets. */
  ghost function ContentTo(bs: seq<Bucket>, m: nat): multiset<Elem>
    requires m <= |bs|
  {
    if m == 0 then multiset{} else ContentTo(bs, m - 1) + multiset(bs[m - 1].chain)
  }

  ghost function Content(bs: seq<Bucket>): multiset<Elem> {
    ContentTo(bs, |bs|)
  }

  /** The buckets of a table: as many as a power of two, all in order, and together they
      hold the elements `items` and no others. */
  ghost predicate TableOk(t: Table, items: multiset<Elem>) {
    && |t.buckets| == Pow2(t.log2) && BucketsOk(t.buckets)
    && t.numItems == |items| && Content(t.buckets) == items
  }

  // ----- selecting and reversing -----

  function Reverse(q: seq<Elem>): seq<Elem> {
    if q == [] then [] else [q[|q| - 1]] + Reverse(q[..|q| - 1])
  }

  /** The elements of `q` that belong into bucket `j` of `n`, in order. */
  function Select(q: seq<Elem>, j: nat, n: nat): seq<Elem>
    requires n > 0
  {
    if q == [] then [] else Select(q[..|q| - 1], j, n) + if ToBkt(q[|q| - 1].hashv, n) == j then [q[|q| - 1]] else []
  }

  lemma ReverseAppend(q: seq<Elem>, e: Elem)
    ensures Reverse(q + [e]) == [e] + Reverse(q)
  {
    assert (q + [e])[..|q|] == q;
  }

  lemma {:induction false} SelectConcat(a: seq<Elem>, b: seq<Elem>, j: nat, n: nat)
    requires n > 0
    ensures Select(a + b, j, n) == Select(a, j, n) + Select(b, j, n)
  {
    if b == [] {
      assert a + b == a;
    } else {
      assert (a + b)[..|a + b| - 1] == a + b[..|b| - 1];
      SelectConcat(a, b[..|b| - 1], j, n);
    }
  }

  lemma {:induction false} SelectNone(q: seq<Elem>, j: nat, n: nat)
    requires n > 0 && forall e :: e in q ==> ToBkt(e.hashv, n) != j
    ensures Select(q, j, n) == []
  {
    if q != [] { SelectNone(q[..|q| - 1], j, n); }
  }

  function Blank(n: nat): seq<Bucket> {
    seq(n, _ => EMPTY)
  }

  lemma PlaceAt(nb: seq<Bucket>, ideal: nat, e: Elem, j: nat)
    requires j < |nb| && ideal > 0
    ensures Place(nb, ideal, e)[j] ==
      if ToBkt(e.hashv, |nb|) != j then nb[j]
      else Bucket([e] + nb[j].chain, nb[j].count + 1, Factor(nb[j].count + 1, ideal, nb[j].mult))
  {
  }

  /** What HASH_EXPAND_BUCKETS builds: each new chain holds the elements of its bucket, the
      last one met first; counts are right and overfull chains get their multiplier. */
  lemma {:induction false} Placed(n: nat, ideal: nat, q: seq<Elem>, j: nat)
    requires j < n && ideal > 0
    ensures var b := PlaceAll(Blank(n), ideal, q)[j];
      && b.chain == Reverse(Select(q, j, n)) && b.count == |b.chain|
      && b.mult == (if b.count > ideal then b.count / ideal else 0)
  {
    if q != [] {
      var q', e := q[..|q| - 1], q[|q| - 1];
      Placed(n, ideal, q', j);
      PlaceAt(PlaceAll(Blank(n), ideal, q'), ideal, e, j);
      if ToBkt(e.hashv, n) == j {
        ReverseAppend(Select(q', j, n), e);
        assert Select(q, j, n) == Select(q', j, n) + [e];
      } else {
        assert Select(q, j, n) == Select(q', j, n);
      }
    }
  }

  lemma {:induction false} SelectIn(q: seq<Elem>, j: nat, n: nat)
    requires n > 0
    ensures forall e :: e in Select(q, j, n) ==> ToBkt(e.hashv, n) == j
  {
    if q != [] { SelectIn(q[..|q| - 1], j, n); }
  }

  lemma {:induction false} ReverseSame(q: seq<Elem>)
    ensures |Reverse(q)| == |q| && multiset(Reverse(q)) == multiset(q) && forall e :: e in Reverse(q) <==> e in q
  {
    if q != [] {
      ReverseSame(q[..|q| - 1]);
      assert q == q[..|q| - 1] + [q[|q| - 1]];
      assert forall e :: e in Reverse(q) <==> e in multiset(Reverse(q));
    }
  }

  lemma PlacedOk(n: nat, ideal: nat, q: seq<Elem>)
    requires n > 0 && ideal > 0
    ensures BucketsOk(PlaceAll(Blank(n), ideal, q))
  {
    var nb := PlaceAll(Blank(n), ideal, q);
    forall j | 0 <= j < n ensures BucketOk(nb[j], j, n) {
      PlacedBucketOk(n, ideal, q, j);
    }
  }

  lemma PlacedBucketOk(n: nat, ideal: nat, q: seq<Elem>, j: nat)
    requires j < n && ideal > 0
    ensures BucketOk(PlaceAll(Blank(n), ideal, q)[j], j, n)
  {
    Placed(n, ideal, q, j);
    SelectIn(q, j, n);
    ReverseSame(Select(q, j, n));
  }

  // ----- walks over all buckets -----

  lemma {:induction false} ContentIsFlat(bs: seq<Bucket>, m: nat)
    requires m <= |bs|
    ensures ContentTo(bs, m) == multiset(FlatTo(bs, m))
  {
    if m > 0 { ContentIsFlat(bs, m - 1); }
  }

  lemma Cancel(a: multiset<Elem>, a': multiset<Elem>, c: multiset<Elem>, c': multiset<Elem>, d: multiset<Elem>)
    requires a' + c == a + c'
    ensures (a' + d) + c == (a + d) + c'
  {
    assert (a' + d) + c == (a' + c) + d;
    assert (a + d) + c' == (a + c') + d;
  }

  /** Changing one bucket changes its part of the content. */
  lemma {:induction false} ContentUpdate(bs: seq<Bucket>, j: nat, b: Bucket, m: nat)
    requires j < |bs| && m <= |bs|
    ensures m <= j ==> ContentTo(bs[j := b], m) == ContentTo(bs, m)
    ensures m > j ==> ContentTo(bs[j := b], m) + multiset(bs[j].chain) == ContentTo(bs, m) + multiset(b.chain)
  {
    if m > 0 {
      ContentUpdate(bs, j, b, m - 1);
      if m - 1 > j {
        Cancel(ContentTo(bs, m - 1), ContentTo(bs[j := b], m - 1), multiset(bs[j].chain), multiset(b.chain),
               multiset(bs[m - 1].chain));
      }
    }
  }

  lemma {:induction false} BlankContent(n: nat, m: nat)
    requires m <= n
    ensures ContentTo(Blank(n), m) == multiset{}
  {
    if m > 0 { BlankContent(n, m - 1); }
  }

  lemma {:induction false} InContent(bs: seq<Bucket>, m: nat, e: Elem)
    requires m <= |bs|
    ensures e in ContentTo(bs, m) <==> exists j :: 0 <= j < m && e in bs[j].chain
  {
    if m > 0 { InContent(bs, m - 1, e); }
  }

  lemma PushContent(bs: seq<Bucket>, j: nat, b: Bucket, e: Elem)
    requires j < |bs| && b.chain == [e] + bs[j].chain
    ensures Content(bs[j := b]) == Content(bs) + multiset{e}
  {
    ContentUpdate(bs, j, b, |bs|);
    assert multiset(b.chain) == multiset{e} + multiset(bs[j].chain);
    Cancels(Content(bs[j := b]), Content(bs), multiset(bs[j].chain), multiset{e}, multiset(b.chain));
  }

  lemma Cancels(a': multiset<Elem>, a: multiset<Elem>, c: multiset<Elem>, e: multiset<Elem>, c': multiset<Elem>)
    requires a' + c == a + c' && c' == e + c
    ensures a' == a + e
  {
    assert (a + e) + c == a + c';
    assert a' == (a' + c) - c;
    assert a + e == ((a + e) + c) - c;
  }

  lemma PlaceContent(nb: seq<Bucket>, ideal: nat, e: Elem)
    requires |nb| > 0 && ideal > 0
    ensures Content(Place(nb, ideal, e)) == Content(nb) + multiset{e}
  {
    var j := ToBkt(e.hashv, |nb|);
    PushContent(nb, j, Place(nb, ideal, e)[j], e);
  }

  lemma {:induction false} PlacedContent(nb: seq<Bucket>, ideal: nat, q: seq<Elem>)
    requires |nb| > 0 && ideal > 0
    ensures Content(PlaceAll(nb, ideal, q)) == Content(nb) + multiset(q)
  {
    if q != [] {
      var q', e := q[..|q| - 1], q[|q| - 1];
      PlacedContent(nb, ideal, q');
      PlaceContent(PlaceAll(nb, ideal, q'), ideal, e);
      assert q == q' + [e];
    }
  }

  // ----- elements in overfull positions -----

  /** How many elements stand deeper in their chain than `ideal`. */
  function Excess(bs: seq<Bucket>, ideal: nat): nat {
    if bs == [] then 0
    else Excess(bs[..|bs| - 1], ideal) + if bs[|bs| - 1].count > ideal then bs[|bs| - 1].count - ideal else 0
  }

  lemma {:induction false} ExcessUpdate(bs: seq<Bucket>, ideal: nat, j: nat, b: Bucket)
    requires j < |bs| && b.count == bs[j].count + 1
    ensures Excess(bs[j := b], ideal) == Excess(bs, ideal) + if b.count > ideal then 1 else 0
  {
    var n := |bs| - 1;
    if j < n {
      ExcessUpdate(bs[..n], ideal, j, b);
      assert bs[j := b][..n] == bs[..n][j := b];
    } else {
      assert bs[j := b][..n] == bs[..n];
    }
  }

  lemma {:induction false} ExcessBlank(n: nat, ideal: nat)
    ensures Excess(Blank(n), ideal) == 0
  {
    if n > 0 {
      assert Blank(n)[..n - 1] == Blank(n - 1);
      ExcessBlank(n - 1, ideal);
    }
  }

  /** nonideal_items counts the elements deeper than ideal, summed over the buckets. */
  lemma {:induction false} OverfullIsExcess(n: nat, ideal: nat, q: seq<Elem>)
    requires n > 0 && ideal > 0
    ensures Overfull(Blank(n), ideal, q) == Excess(PlaceAll(Blank(n), ideal, q), ideal)
  {
    if q == [] {
      ExcessBlank(n, ideal);
    } else {
      var q', e := q[..|q| - 1], q[|q| - 1];
      OverfullIsExcess(n, ideal, q');
      var b := PlaceAll(Blank(n), ideal, q');
      var j := ToBkt(e.hashv, n);
      ExcessUpdate(b, ideal, j, Place(b, ideal, e)[j]);
    }
  }

  // ----- bucket i splits into i and i + n -----

  /** With twice as many buckets, a hash value that belonged into bucket `i` of `n` belongs
      into `i` or into `i + n`. */
  lemma {:induction false} BucketHalves(h: nat, k: nat)
    ensures ToBkt(h, Pow2(k + 1)) == ToBkt(h, Pow2(k)) || ToBkt(h, Pow2(k + 1)) == ToBkt(h, Pow2(k)) + Pow2(k)
    decreases k
  {
    ToBktOdd(h, k);
    if k > 0 {
      ToBktOdd(h, k - 1);
      BucketHalves(h / 2, k - 1);
    }
  }

  lemma ToBktOdd(h: nat, k: nat)
    ensures ToBkt(h, Pow2(k + 1)) == h % 2 + 2 * ToBkt(h / 2, Pow2(k))
  {
    AndOdd(h, Pow2(k));
  }

  /** The old bucket that new bucket `j` is filled from. */
  function Origin(j: nat, n: nat): int {
    if j < n then j else j - n
  }

  lemma SelectFlatStep(bs: seq<Bucket>, m: nat, j: nat, n: nat)
    requires 0 < m <= |bs| && n > 0
    ensures Select(FlatTo(bs, m), j, n) == Select(FlatTo(bs, m - 1), j, n) + Select(bs[m - 1].chain, j, n)
  {
    SelectConcat(FlatTo(bs, m - 1), bs[m - 1].chain, j, n);
  }

  lemma {:induction false} SelectFlatNone(bs: seq<Bucket>, m: nat, j: nat, n: nat)
    requires m <= |bs| && n > 0 && forall l :: 0 <= l < m ==> Select(bs[l].chain, j, n) == []
    ensures Select(FlatTo(bs, m), j, n) == []
  {
    if m > 0 {
      SelectFlatNone(bs, m - 1, j, n);
      SelectFlatStep(bs, m, j, n);
    }
  }

  /** In a walk over the first `m` buckets, if no bucket but `i` has elements for `j`, then
      `j` gets what bucket `i` has for it. */
  lemma {:induction false} SelectFlat(bs: seq<Bucket>, m: nat, i: nat, j: nat, n: nat)
    requires i < m <= |bs| && n > 0
    requires forall l :: 0 <= l < |bs| && l != i ==> Select(bs[l].chain, j, n) == []
    ensures Select(FlatTo(bs, m), j, n) == Select(bs[i].chain, j, n)
    decreases m
  {
    SelectFlatStep(bs, m, j, n);
    if i == m - 1 {
      SelectFlatNone(bs, m - 1, j, n);
    } else {
      SelectFlat(bs, m - 1, i, j, n);
      assert Select(bs[i].chain, j, n) + [] == Select(bs[i].chain, j, n);
    }
  }

  lemma NotFrom(bs: seq<Bucket>, k: nat, l: nat, i: nat, j: nat, n: nat)
    requires |bs| == Pow2(k) && BucketsOk(bs) && l < |bs| && n == Pow2(k + 1) && i == Origin(j, |bs|) && l != i
    ensures Select(bs[l].chain, j, n) == []
  {
    assert BucketOk(bs[l], l, |bs|);
    forall e | e in bs[l].chain ensures ToBkt(e.hashv, n) != j { BucketHalves(e.hashv, k); }
    SelectNone(bs[l].chain, j, n);
  }

  /** Expansion: the chain of new bucket `j` is the part of its origin that belongs
      there, reversed; no other element moves there. */
  lemma ExpandSplits(t: Table, items: multiset<Elem>, j: nat)
    requires TableOk(t, items) && Ideal(t.numItems, t.log2) > 0 && j < 2 * |t.buckets|
    ensures var n := |t.buckets|;
      Expand(t).buckets[j].chain == Reverse(Select(t.buckets[Origin(j, n)].chain, j, 2 * n))
  {
    var n, ideal := |t.buckets|, Ideal(t.numItems, t.log2);
    assert Pow2(t.log2 + 1) == 2 * n;
    Placed(2 * n, ideal, Flat(t.buckets), j);
    var i := Origin(j, n);
    forall l | 0 <= l < n && l != i ensures Select(t.buckets[l].chain, j, 2 * n) == [] {
      NotFrom(t.buckets, t.log2, l, i, j, 2 * n);
    }
    SelectFlat(t.buckets, n, i, j, 2 * n);
  }

  lemma IdealPositive(items: nat, log2: nat)
    requires items > 0
    ensures Ideal(items, log2) > 0
  {
    IdealIsCeiling(items, log2);
    CeilingByRemainder(items, Pow2(log2 + 1));
    Division(items, Pow2(log2 + 1));
  }

  lemma ExpandOk(t: Table, items: multiset<Elem>)
    requires TableOk(t, items) && Ideal(t.numItems, t.log2) > 0
    ensures TableOk(Expand(t), items)
  {
    var n, ideal, q := 2 * |t.buckets|, Ideal(t.numItems, t.log2), Flat(t.buckets);
    assert Expand(t).buckets == PlaceAll(Blank(n), ideal, q);
    PlacedOk(n, ideal, q);
    PlacedContent(Blank(n), ideal, q);
    BlankContent(n, n);
    ContentIsFlat(t.buckets, |t.buckets|);
  }

  /** A chain longer than ideal has the quotient for its multiplier, any other has none. */
  ghost predicate WellRated(b: Bucket, ideal: nat) {
    ideal > 0 && b.count == |b.chain| && b.mult == if b.count > ideal then b.count / ideal else 0
  }

  lemma Rated(t: Table)
    requires |t.buckets| > 0 && Ideal(t.numItems, t.log2) > 0
    ensures forall j :: 0 <= j < |Expand(t).buckets| ==> WellRated(Expand(t).buckets[j], Expand(t).ideal)
  {
    var n, ideal := 2 * |t.buckets|, Ideal(t.numItems, t.log2);
    assert Expand(t).buckets == PlaceAll(Blank(n), ideal, Flat(t.buckets));
    forall j | 0 <= j < n ensures WellRated(Expand(t).buckets[j], ideal) { Placed(n, ideal, Flat(t.buckets), j); }
  }

  /** HASH_EXPAND_BUCKETS keeps the elements and the integrity of the table, doubles the
      buckets, and leaves the right statistics. */
  lemma ExpandKeeps(t: Table, items: multiset<Elem>)
    requires TableOk(t, items) && t.numItems > 0
    ensures Ideal(t.numItems, t.log2) > 0 && TableOk(Expand(t), items) && |Expand(t).buckets| == 2 * |t.buckets|
    ensures Expand(t).ideal == CeilDiv(t.numItems, |Expand(t).buckets|)
    ensures Expand(t).nonideal == Excess(Expand(t).buckets, Expand(t).ideal)
    ensures forall j :: 0 <= j < |Expand(t).buckets| ==> WellRated(Expand(t).buckets[j], Expand(t).ideal)
  {
    IdealPositive(t.numItems, t.log2);
    Rated(t);
    IdealIsCeiling(t.numItems, t.log2);
    ExpandOk(t, items);
    assert Expand(t).buckets == PlaceAll(Blank(2 * |t.buckets|), Ideal(t.numItems, t.log2), Flat(t.buckets));
    OverfullIsExcess(2 * |t.buckets|, Ideal(t.numItems, t.log2), Flat(t.buckets));
  }
}

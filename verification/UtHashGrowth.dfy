/** When the number of buckets doubles, and when it never will again. */
module UtHashGrowth {
  import opened UtHash
  import opened UtHashTable
  import opened UtHashRuns

  /** An add doubles the buckets exactly if expansion is still allowed and the chain has
      grown to ten times one more than its multiplier. */
  lemma AddDoublesWhen(t: Table, e: Elem)
    requires |t.buckets| == Pow2(t.log2) && t.numItems > 0
    ensures Ideal(t.numItems, t.log2) > 0
    ensures var b, t' := t.buckets[ToBkt(e.hashv, |t.buckets|)], AddToBkt(t, e);
      t'.log2 == t.log2 + if !t.noexpand && b.count + 1 >= 10 * (b.mult + 1) then 1 else 0
  {
    IdealPositive(t.numItems, t.log2);
  }

  /** After an expansion: a chain that is longer than ideal, with `c` elements, makes the next
      expansion when it has grown to ten times `c / ideal + 1`, any other at ten. */
  lemma NextDoubling(t: Table, items: multiset<Elem>, e: Elem)
    requires TableOk(t, items) && t.numItems > 0
    ensures Ideal(t.numItems, t.log2) > 0
    ensures var t1 := Expand(t);
      && |t1.buckets| == 2 * |t.buckets| && Ideal(t1.numItems + 1, t1.log2) > 0
      && var b := t1.buckets[ToBkt(e.hashv, |t1.buckets|)];
         var limit := if |b.chain| > t1.ideal then 10 * (|b.chain| / t1.ideal + 1) else 10;
         t1.ideal > 0
         && AddToBkt(t1.(numItems := t1.numItems + 1), e).log2
            == t1.log2 + if !t1.noexpand && |b.chain| + 1 >= limit then 1 else 0
  {
    ExpandKeeps(t, items);
    var t1 := Expand(t);
    AddDoublesWhen(t1.(numItems := t1.numItems + 1), e);
    assert WellRated(t1.buckets[ToBkt(e.hashv, |t1.buckets|)], t1.ideal);
  }

  /** An expansion that leaves more than half of the elements deeper than ideal was in vain;
      after two of these in a row the table stops expanding. */
  lemma TwoInVain(t: Table, items: multiset<Elem>)
    requires TableOk(t, items) && t.numItems > 0
    ensures Ideal(t.numItems, t.log2) > 0
    ensures var t1 := Expand(t);
      var vain := Excess(t1.buckets, t1.ideal) > t.numItems / 2;
      && t1.ineff == (if vain then t.ineff + 1 else 0)
      && (t1.noexpand <==> t.noexpand || (vain && t.ineff >= 1))
  {
    ExpandKeeps(t, items);
    ShrIsDiv(t.numItems, 1);
    assert Pow2(1) == 2 * Pow2(0) == 2;
  }

  /** A table that has stopped expanding keeps its number of buckets. */
  lemma {:induction false} StopsForGood(h: Hash, es: seq<Elem>)
    requires HashOk(h) && h.Hash? && h.tbl.noexpand && NoDup(Items(h) + es)
    ensures var h' := AddMore(h, es);
      HashOk(h') && h'.Hash? && Items(h') == Items(h) + es && h'.tbl.noexpand && h'.tbl.log2 == h.tbl.log2
  {
    if es == [] {
      assert Items(h) + es == Items(h);
    } else {
      var before, e := es[..|es| - 1], es[|es| - 1];
      assert Items(h) + es == Items(h) + before + [e];
      NoDupPrefix(Items(h) + before, e);
      StopsForGood(h, before);
      AddKeeps(AddMore(h, before), e);
    }
  }

  function AddMore(h: Hash, es: seq<Elem>): Hash {
    if es == [] then h else Step(AddMore(h, es[..|es| - 1]), AddElem(es[|es| - 1]))
  }

  lemma NoDupPrefix(q: seq<Elem>, e: Elem)
    requires NoDup(q + [e])
    ensures NoDup(q) && e !in q
  {
    var r := q + [e];
    assert forall i :: 0 <= i < |q| ==> r[i] == q[i] && r[i] != r[|q|];
  }

  // ----- a new table -----

  /** As long as no bucket of 32 has ten elements: the table has not been expanded, and each
      chain holds the elements of its bucket, the latest first. */
  ghost predicate Initial(h: Hash, es: seq<Elem>) {
    && HashOk(h) && Items(h) == es
    && (h.Hash? ==> |h.tbl.buckets| == 32 && h.tbl.log2 == 5 && !h.tbl.noexpand && h.tbl.ineff == 0
                    && forall j :: 0 <= j < 32 ==> Fresh(h.tbl.buckets[j], es, j))
  }

  ghost predicate Fresh(b: Bucket, es: seq<Elem>, j: nat) {
    b == Bucket(Reverse(Select(es, j, 32)), |Select(es, j, 32)|, 0)
  }

  ghost predicate Sparse(es: seq<Elem>) {
    forall j :: 0 <= j < 32 ==> |Select(es, j, 32)| < 10
  }

  lemma Pow32()
    ensures Pow2(5) == 32 && Pow2(6) == 64 && NewTable().log2 == 5 && |NewTable().buckets| == 32
  {
    assert Pow2(0) == 1 && Pow2(1) == 2 && Pow2(2) == 4 && Pow2(3) == 8 && Pow2(4) == 16;
  }

  lemma SelectMore(es: seq<Elem>, e: Elem, j: nat)
    ensures Select(es + [e], j, 32) == Select(es, j, 32) + if ToBkt(e.hashv, 32) == j then [e] else []
    ensures Reverse(Select(es + [e], j, 32)) == (if ToBkt(e.hashv, 32) == j then [e] else []) +
      Reverse(Select(es, j, 32))
  {
    assert (es + [e])[..|es|] == es;
    ReverseAppend(Select(es, j, 32), e);
    assert Select(es, j, 32) + [] == Select(es, j, 32);
  }

  /** The table that the next element goes into */
  function Before(h: Hash): Table {
    if h.Null? then NewTable() else h.tbl
  }

  lemma BeforeFresh(h: Hash, es: seq<Elem>)
    requires Initial(h, es) && (es == [] ==> h == Null)
    ensures var t := Before(h);
      |t.buckets| == 32 && t.log2 == 5 && !t.noexpand && forall j :: 0 <= j < 32 ==> Fresh(t.buckets[j], es, j)
  {
    Pow32();
  }

  /** The first ten elements of one bucket make the table double; nine do not. */
  lemma TenthDoubles(h: Hash, es: seq<Elem>, e: Elem)
    requires Initial(h, es) && NoDup(es + [e]) && (es == [] ==> h == Null)
    ensures var h', k := Step(h, AddElem(e)), |Select(es + [e], ToBkt(e.hashv, 32), 32)|;
      && HashOk(h') && h'.Hash? && Items(h') == es + [e]
      && h'.tbl.log2 == (if k >= 10 then 6 else 5) && (k < 10 ==> Initial(h', es + [e]))
  {
    NoDupPrefix(es, e);
    AddKeeps(h, e);
    BeforeFresh(h, es);
    var t, i := Before(h), ToBkt(e.hashv, 32);
    Pow32();
    AddDoublesWhen(t.(numItems := t.numItems + 1), e);
    assert Fresh(t.buckets[i], es, i);
    SelectMore(es, e, i);
    var h' := Step(h, AddElem(e));
    if |Select(es + [e], i, 32)| < 10 {
      forall j | 0 <= j < 32 ensures Fresh(h'.tbl.buckets[j], es + [e], j) {
        assert Fresh(t.buckets[j], es, j);
        SelectMore(es, e, j);
      }
    }
  }

  /** A hash that got the elements `es` still has its 32 buckets exactly if no bucket ever
      had ten; the next element doubles them exactly if it is the tenth of its bucket. */
  lemma {:induction false} NewTableGrows(es: seq<Elem>)
    requires NoDup(es) && Sparse(es)
    ensures Initial(AddMore(Null, es), es) && (es == [] <==> AddMore(Null, es) == Null)
  {
    if es != [] {
      var before, e := es[..|es| - 1], es[|es| - 1];
      assert es == before + [e];
      NoDupPrefix(before, e);
      forall j | 0 <= j < 32 ensures |Select(before, j, 32)| < 10 { SelectMore(before, e, j); }
      NewTableGrows(before);
      TenthDoubles(AddMore(Null, before), before, e);
    }
  }

  lemma FirstDoubling(es: seq<Elem>, e: Elem)
    requires NoDup(es + [e]) && Sparse(es)
    ensures var h := AddMore(Null, es + [e]);
      h.Hash? && h.tbl.log2 == if |Select(es + [e], ToBkt(e.hashv, 32), 32)| == 10 then 6 else 5
  {
    NoDupPrefix(es, e);
    NewTableGrows(es);
    TenthDoubles(AddMore(Null, es), es, e);
    SelectMore(es, e, ToBkt(e.hashv, 32));
    assert (es + [e])[..|es|] == es;
  }

  // ----- colliding elements -----

  lemma {:induction false} SelectAll(q: seq<Elem>, j: nat, n: nat)
    requires n > 0 && forall e :: e in q ==> ToBkt(e.hashv, n) == j
    ensures Select(q, j, n) == q
  {
    if q != [] {
      SelectAll(q[..|q| - 1], j, n);
      assert q == q[..|q| - 1] + [q[|q| - 1]];
    }
  }

  lemma Zero(n: nat)
    requires n > 0
    ensures ToBkt(0, n) == 0
  {
  }

  /** A table whose elements are all in bucket 0 and stay there has, once expanded, all of
      them in bucket 0 and their number over the ideal as multiplier there. */
  lemma CollidingExpand(t: Table, items: multiset<Elem>)
    requires TableOk(t, items) && t.numItems > 0 && |t.buckets[0].chain| == t.numItems
    requires forall e :: e in t.buckets[0].chain ==> e.hashv == 0
    ensures Ideal(t.numItems, t.log2) > 0 && |Expand(t).buckets| > 0 && Expand(t).ideal > 0
    ensures var b := Expand(t).buckets[0];
      |b.chain| == t.numItems && b.mult == if t.numItems > Expand(t).ideal then t.numItems / Expand(t).ideal else 0
  {
    ExpandKeeps(t, items);
    ExpandSplits(t, items, 0);
    var q := t.buckets[0].chain;
    Zero(2 * |t.buckets|);
    SelectAll(q, 0, 2 * |t.buckets|);
    ReverseSame(q);
    assert WellRated(Expand(t).buckets[0], Expand(t).ideal);
  }

  lemma {:induction false} SelectZeros(es: seq<Elem>, j: nat)
    requires forall e :: e in es ==> e.hashv == 0
    ensures Select(es, j, 32) == if j == 0 then es else []
  {
    Zero(32);
    if j == 0 { SelectAll(es, 0, 32); } else { SelectNone(es, j, 32); }
  }

  lemma AddOneMore(h: Hash, es: seq<Elem>, e: Elem)
    ensures AddMore(h, es + [e]) == Step(AddMore(h, es), AddElem(e))
  {
    assert (es + [e])[..|es|] == es;
  }

  ghost predicate AllZero(es: seq<Elem>) {
    forall e :: e in es ==> e.hashv == 0
  }

  /** Eleven elements with the same hash value: the tenth doubles the buckets and gives their
      bucket the multiplier ten, so that the eleventh does not double them again. */
  lemma ElevenAlike(nine: seq<Elem>, tenth: Elem, last: Elem)
    requires |nine| == 9 && NoDup(nine + [tenth] + [last]) && AllZero(nine + [tenth] + [last])
    ensures var h := AddMore(Null, nine + [tenth]);
      h.Hash? && h.tbl.log2 == 6 && |h.tbl.buckets| == 64 && h.tbl.buckets[0].mult == 10
    ensures var h := AddMore(Null, nine + [tenth] + [last]); h.Hash? && h.tbl.log2 == 6
  {
    NoDupPrefix(nine + [tenth], last);
    assert AllZero(nine + [tenth]) && last in nine + [tenth] + [last];
    TenAlike(nine, tenth);
    AddOneMore(Null, nine + [tenth], last);
    EleventhStays(AddMore(Null, nine + [tenth]), last);
  }

  lemma EleventhStays(h: Hash, e: Elem)
    requires HashOk(h) && h.Hash? && h.tbl.log2 == 6 && |h.tbl.buckets| == 64 && e.hashv == 0
    requires h.tbl.buckets[0].mult == 10 && h.tbl.buckets[0].count == 10
    ensures Step(h, AddElem(e)).Hash? && Step(h, AddElem(e)).tbl.log2 == 6
  {
    Zero(64);
    AddDoublesWhen(h.tbl.(numItems := h.tbl.numItems + 1), e);
  }

  lemma TenAlike(nine: seq<Elem>, tenth: Elem)
    requires |nine| == 9 && NoDup(nine + [tenth]) && AllZero(nine + [tenth])
    ensures var h := AddMore(Null, nine + [tenth]);
      && HashOk(h) && h.Hash? && h.tbl.log2 == 6 && |h.tbl.buckets| == 64
      && h.tbl.buckets[0].mult == 10 && h.tbl.buckets[0].count == 10
  {
    NoDupPrefix(nine, tenth);
    assert forall e :: e in nine ==> e in nine + [tenth];
    forall j | 0 <= j < 32 ensures |Select(nine, j, 32)| < 10 { SelectZeros(nine, j); }
    NewTableGrows(nine);
    AddOneMore(Null, nine, tenth);
    TenthCollides(AddMore(Null, nine), nine, tenth);
  }

  lemma TenthCollides(h: Hash, es: seq<Elem>, e: Elem)
    requires Initial(h, es) && h.Hash? && |es| == 9 && NoDup(es + [e]) && AllZero(es + [e])
    ensures var h' := Step(h, AddElem(e));
      && HashOk(h') && h'.Hash? && h'.tbl.log2 == 6 && |h'.tbl.buckets| == 64
      && h'.tbl.buckets[0].mult == 10 && h'.tbl.buckets[0].count == 10
  {
    NoDupPrefix(es, e);
    AddKeeps(h, e);
    var t := TenthPushed(h, es, e);
    TenRated(t, multiset(es) + multiset{e});
  }

  lemma NineThere(h: Hash, es: seq<Elem>)
    requires Initial(h, es) && h.Hash? && |es| == 9 && AllZero(es)
    ensures var b := h.tbl.buckets[0]; |b.chain| == b.count == 9 && b.mult == 0 && AllZero(b.chain)
  {
    assert Fresh(h.tbl.buckets[0], es, 0);
    SelectZeros(es, 0);
    ReverseSame(es);
  }

  /** The table when the tenth element is in and the expansion is to begin */
  function Pushed(t: Table, e: Elem): Table
    requires |t.buckets| > 0
  {
    var b := t.buckets[0];
    t.(numItems := t.numItems + 1, buckets := t.buckets[0 := Bucket([e] + b.chain, b.count + 1, b.mult)])
  }

  lemma StepExpands(h: Hash, e: Elem)
    requires h.Hash? && |h.tbl.buckets| == 32 && !h.tbl.noexpand && e.hashv == 0
    requires h.tbl.buckets[0].count == 9 && h.tbl.buckets[0].mult == 0
    ensures var t := Pushed(h.tbl, e);
      Ideal(t.numItems, t.log2) > 0 && Step(h, AddElem(e)) == Hash(h.items + [e], Expand(t))
  {
    IdealPositive(h.tbl.numItems + 1, h.tbl.log2);
    Zero(32);
  }

  lemma TenthPushed(h: Hash, es: seq<Elem>, e: Elem) returns (t: Table)
    requires Initial(h, es) && h.Hash? && |es| == 9 && e !in es && AllZero(es + [e])
    ensures TableOk(t, multiset(es) + multiset{e}) && t.numItems == 10 && t.log2 == 5
    ensures |t.buckets[0].chain| == 10 && AllZero(t.buckets[0].chain)
    ensures Ideal(t.numItems, t.log2) > 0 && Step(h, AddElem(e)) == Hash(es + [e], Expand(t))
  {
    assert e in es + [e] && forall x :: x in es ==> x in es + [e];
    NineThere(h, es);
    StepExpands(h, e);
    Zero(32);
    PushKeeps(h.tbl, multiset(es), e);
    t := Pushed(h.tbl, e);
  }

  lemma TenRated(t: Table, items: multiset<Elem>)
    requires TableOk(t, items) && t.numItems == 10 && t.log2 == 5
    requires |t.buckets[0].chain| == 10 && AllZero(t.buckets[0].chain)
    ensures Ideal(t.numItems, t.log2) > 0
    ensures var t1 := Expand(t);
      t1.log2 == 6 && |t1.buckets| == 64 && t1.buckets[0].mult == 10 && t1.buckets[0].count == 10
  {
    Pow32();
    CollidingExpand(t, items);
    ExpandKeeps(t, items);
    assert CeilDiv(10, 64) == 1;
    assert WellRated(Expand(t).buckets[0], Expand(t).ideal);
  }

  lemma PushKeeps(t: Table, items: multiset<Elem>, e: Elem)
    requires TableOk(t, items) && ToBkt(e.hashv, |t.buckets|) == 0
    ensures TableOk(Pushed(t, e), items + multiset{e})
  {
    var b := t.buckets[0];
    assert BucketOk(b, 0, |t.buckets|);
    var b' := Bucket([e] + b.chain, b.count + 1, b.mult);
    SetBucket(t.buckets, 0, b');
    PushContent(t.buckets, 0, b', e);
  }
}

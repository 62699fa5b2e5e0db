/** The bucket chains of uthash.h in their own form: handles linked by hh_prev and hh_next,
    rewritten in place. */
module UtHashHeap {
  import opened UtHash
  import opened UtList

  // A marker without content: the shape of a chain stays folded until a proof writes it.
  ghost predicate Chained(i: int) { true }

  /** The hash handle of element `e`; `link` holds its place in application order. */
  class Handle {
    const e: Elem
    const link: Node
    var hh_prev: Handle?
    var hh_next: Handle?
    ghost var home: object?  // the bucket array it is in, if any,
    ghost var at: nat        // and the bucket

    constructor (e: Elem, link: Node)
      ensures this.e == e && this.link == link && home == null
    {
      this.e, this.link := e, link;
      hh_prev, hh_next, home, at := null, null, null, 0;
    }
  }

  ghost function Elems(q: seq<Handle>): seq<Elem> {
    seq(|q|, i requires 0 <= i < |q| => q[i].e)
  }

  ghost predicate Distinct(q: seq<Handle>) {
    forall i, j :: 0 <= i < j < |q| ==> q[i] != q[j]
  }

  /** `q` is the chain from `head`, linked both ways; its handles are in bucket `j` of `b`. */
  ghost predicate IsChain(q: seq<Handle>, head: Handle?, b: object, j: nat)
    reads q
  {
    forall u {:trigger Chained(u)} :: Chained(u) ==>
      && Distinct(q)
      && (forall i :: 0 <= i < |q| ==> q[i].home == b && q[i].at == j)
      && (forall i :: 0 <= i < |q| - 1 ==> q[i].hh_next == q[i + 1])
      && (forall i :: 0 < i < |q| ==> q[i].hh_prev == q[i - 1])
      && if q == [] then head == null
         else head == q[0] && head.hh_prev == null && q[|q| - 1].hh_next == null
  }

  lemma ChainHomes(q: seq<Handle>, head: Handle?, b: object, j: nat)
    requires IsChain(q, head, b, j)
    ensures forall i :: 0 <= i < |q| ==> q[i].home == b && q[i].at == j
    ensures if q == [] then head == null else head == q[0]
  {
    assert Chained(0);
  }

  ghost predicate Elsewhere(r: seq<Handle>, h: Handle, q: seq<Handle>) {
    forall i :: 0 <= i < |r| ==> r[i] != h && r[i] !in q
  }

  twostate predicate Same(h: Handle)
    reads h
  {
    h.hh_prev == old(h.hh_prev) && h.hh_next == old(h.hh_next) && h.home == old(h.home) && h.at == old(h.at)
  }

  // Parameters of the two-state lemmas below.
  datatype ChainAt = ChainAt(q: seq<Handle>, head: Handle?, b: object, j: nat)
  datatype Change = Change(j: nat, h: Handle, m: nat)

  /** A chain none of whose handles has been touched. */
  twostate lemma ChainStays(c: ChainAt)
    requires old(IsChain(c.q, c.head, c.b, c.j)) && forall i :: 0 <= i < |c.q| ==> Same(c.q[i])
    ensures IsChain(c.q, c.head, c.b, c.j)
  {
    assert Chained(0);
  }

  /** A handle that was in no chain of `c.b` has been linked in front of the chain. */
  lemma ChainGrows(q: seq<Handle>, h: Handle, b: object, j: nat)
    requires Distinct(q) && h !in q && h.home == b && h.at == j && h.hh_prev == null
    requires h.hh_next == if q == [] then null else q[0]
    requires forall i :: 0 <= i < |q| ==> q[i].home == b && q[i].at == j
    requires forall i :: 0 <= i < |q| - 1 ==> q[i].hh_next == q[i + 1]
    requires forall i :: 0 < i < |q| ==> q[i].hh_prev == q[i - 1]
    requires q != [] ==> q[0].hh_prev == h && q[|q| - 1].hh_next == null
    ensures IsChain([h] + q, h, b, j)
  {
    var r := [h] + q;
    assert forall i :: 0 < i < |r| ==> r[i] == q[i - 1];
    forall i | 0 < i < |r| ensures r[i].hh_prev == r[i - 1] { }
    forall i | 0 <= i < |r| - 1 ensures r[i].hh_next == r[i + 1] { }
  }

  /** The pointers of HASH_DEL_IN_BKT */
  method CutOut(head0: Handle?, h: Handle, ghost q: seq<Handle>, ghost i: nat, ghost b: object, ghost j: nat)
    returns (head: Handle?)
    requires IsChain(q, head0, b, j) && i < |q| && q[i] == h
    modifies q
    ensures IsChain(q[..i] + q[i + 1..], head, b, j) && h.home == null
  {
    assert Chained(0);
    assert if i == 0 then h.hh_prev == null else h.hh_prev == q[i - 1];
    assert if i == |q| - 1 then h.hh_next == null else h.hh_next == q[i + 1];
    head := head0;
    if head == h {
      head := h.hh_next;
    }
    if h.hh_prev != null {
      h.hh_prev.hh_next := h.hh_next;
    }
    if h.hh_next != null {
      h.hh_next.hh_prev := h.hh_prev;
    }
    h.home := null;
    ghost var r := q[..i] + q[i + 1..];
    assert forall k :: 0 <= k < i ==> r[k] == q[k];
    assert forall k :: i <= k < |r| ==> r[k] == q[k + 1];
    forall k | 0 <= k < |r| - 1 ensures r[k].hh_next == r[k + 1] && r[k + 1].hh_prev == r[k] {
      if k + 1 < i {
        assert q[k].hh_next == q[k + 1];
      } else if k >= i {
        assert q[k + 1].hh_next == q[k + 2];
      }
    }
    forall k | 0 < k < |r| ensures r[k].hh_prev == r[k - 1] {
      var l := k - 1;
      assert r[l].hh_next == r[l + 1] && r[l + 1].hh_prev == r[l];
    }
  }

  /** A bucket array; the three fields of a bucket are kept in three arrays. */
  class Buckets {
    const heads: array<Handle?>
    const counts: array<int>
    const mults: array<int>
    ghost var chains: seq<seq<Handle>>

    constructor (n: nat)
      ensures Shaped() && |chains| == n && Valid() && Abs() == seq(n, _ => EMPTY) && Handles() == {}
      ensures fresh(heads) && fresh(counts) && fresh(mults)
    {
      heads := new Handle?[n](_ => null);
      counts := new int[n](_ => 0);
      mults := new int[n](_ => 0);
      chains := seq(n, _ => []);
      new;
      assert forall j :: 0 <= j < n ==> Elems(chains[j]) == [];
      assert Abs() == seq(n, _ => EMPTY);
    }

    ghost predicate Shaped()
      reads this
    {
      heads.Length == counts.Length == mults.Length == |chains| && counts != mults
    }

    ghost function Handles(): set<Handle>
      reads this
    {
      set j, i | 0 <= j < |chains| && 0 <= i < |chains[j]| :: chains[j][i]
    }

    /** Every chain is in order. */
    ghost predicate Valid()
      requires Shaped()
      reads this, heads, Handles()
    {
      forall j {:trigger chains[j]} :: 0 <= j < |chains| ==> IsChain(chains[j], heads[j], this, j)
    }

    ghost function Abs(): seq<Bucket>
      requires Shaped()
      reads this, counts, mults
    {
      seq(|chains|, j requires 0 <= j < |chains| && Shaped() reads this, counts, mults =>
        Bucket(Elems(chains[j]), counts[j], mults[j]))
    }

    /** Handles that are not in bucket `j` have nothing to do with it. */
    lemma AllElsewhere(j: nat, h: Handle)
      requires Shaped() && j < |chains| && Valid() && (h.home == this ==> h.at == j)
      ensures forall k :: 0 <= k < |chains| && k != j ==> Elsewhere(chains[k], h, chains[j])
    {
      forall k | 0 <= k < |chains| && k != j ensures Elsewhere(chains[k], h, chains[j]) {
        ChainHomes(chains[k], heads[k], this, k);
        ChainHomes(chains[j], heads[j], this, j);
      }
    }

    /** Only bucket `c.j` and the handle `c.h` have been touched. */
    twostate lemma {:induction false} OthersStay(c: Change)
      requires Shaped() && old(Shaped() && Valid()) && c.m <= |chains| == old(|chains|) && c.j < |chains|
      requires forall k :: 0 <= k < |chains| && k != c.j ==> Elsewhere(chains[k], c.h, old(chains[c.j]))
      requires forall k :: 0 <= k < |chains| && k != c.j ==> chains[k] == old(chains[k]) && heads[k] == old(heads[k])
      requires forall x: Handle :: old(allocated(x)) && x != c.h && x !in old(chains[c.j]) ==> Same(x)
      ensures forall k :: 0 <= k < c.m && k != c.j ==> IsChain(chains[k], heads[k], this, k)
      decreases c.m
    {
      if c.m > 0 {
        OthersStay(c.(m := c.m - 1));
        var k := c.m - 1;
        if k != c.j {
          assert old(IsChain(chains[k], heads[k], this, k));
          ChainStays(ChainAt(chains[k], heads[k], this, k));
        }
      }
    }

    /** The pointers of HASH_ADD_TO_BKT and HASH_EXPAND_BUCKETS: `h` becomes the head. */
    method Link(j: nat, h: Handle)
      requires Shaped() && j < |chains| && h.home != this && Valid()
      modifies this`chains, heads, h, chains[j]`hh_prev
      ensures Shaped() && chains == old(chains)[j := [h] + old(chains)[j]] && Valid()
    {
      ghost var q := chains[j];
      AllElsewhere(j, h);
      assert IsChain(q, heads[j], this, j);
      ChainHomes(q, heads[j], this, j);
      h.hh_next := heads[j];
      h.hh_prev := null;
      if heads[j] != null {
        heads[j].hh_prev := h;
      }
      heads[j] := h;
      h.home, h.at := this, j;
      chains := chains[j := [h] + chains[j]];
      assert IsChain([h] + q, h, this, j) by {
        assert Chained(0);
        ChainGrows(q, h, this, j);
      }
      OthersStay(Change(j, h, |chains|));
    }

    /** One round of the walk in HASH_EXPAND_BUCKETS, on the new buckets. */
    method PlaceOne(ideal: nat, h: Handle) returns (over: bool)
      requires Shaped() && |chains| > 0 && ideal > 0 && h.home != this && Valid()
      modifies this`chains, heads, counts, mults, h, chains[ToBkt(h.e.hashv, |chains|)]`hh_prev
      ensures Shaped() && Valid() && Abs() == Place(old(Abs()), ideal, h.e)
      ensures over == (old(counts[ToBkt(h.e.hashv, |chains|)]) + 1 > ideal)
      ensures chains == old(chains)[ToBkt(h.e.hashv, |old(chains)|) :=
        [h] + old(chains)[ToBkt(h.e.hashv, |old(chains)|)]]
    {
      var j := ToBkt(h.e.hashv, counts.Length);
      ghost var q := chains[j];
      over := CountUp(j, ideal);
      Link(j, h);
      assert Elems([h] + q) == [h.e] + Elems(q);
    }

    method CountUp(j: nat, ideal: nat) returns (over: bool)
      requires Shaped() && j < |chains| && ideal > 0
      modifies counts, mults
      ensures over == (old(counts[j]) + 1 > ideal)
      ensures forall k :: 0 <= k < |chains| && k != j ==> counts[k] == old(counts[k]) && mults[k] == old(mults[k])
      ensures counts[j] == old(counts[j]) + 1 && mults[j] == Factor(counts[j], ideal, old(mults[j]))
    {
      counts[j] := counts[j] + 1;
      over := counts[j] > ideal;
      if over {
        mults[j] := counts[j] / ideal;
      }
    }

    /** HASH_DEL_IN_BKT for the handle in place `i` of the chain of bucket `j` */
    method Unlink(j: nat, h: Handle, ghost i: nat)
      requires Shaped() && j < |chains| && Valid() && i < |chains[j]| && chains[j][i] == h
      modifies this`chains, heads, chains[j]
      ensures Shaped() && Valid() && chains == old(chains)[j := old(chains)[j][..i] + old(chains)[j][i + 1..]]
      ensures h.home == null
    {
      ghost var q := chains[j];
      assert IsChain(q, heads[j], this, j);
      ChainHomes(q, heads[j], this, j);
      AllElsewhere(j, h);
      var head := CutOut(heads[j], h, q, i, this, j);
      heads[j] := head;
      chains := chains[j := q[..i] + q[i + 1..]];
      OthersStay(Change(j, h, |chains|));
    }

    /** HASH_FIND_IN_BKT */
    method FindInBkt(j: nat, key: Key) returns (out: Handle?)
      requires Shaped() && j < |chains| && Valid()
      ensures out != null ==> out in chains[j]
      ensures First(Elems(chains[j]), key) == if out == null then None else Some(out.e)
    {
      ghost var q, i := chains[j], 0;
      assert IsChain(q, heads[j], this, j);
      assert Chained(0);
      out := heads[j];
      while out != null
        invariant i <= |q| && out == if i < |q| then q[i] else null
        invariant First(Elems(q), key) == First(Elems(q)[i..], key)
        decreases |q| - i
      {
        if out.e.key == key {
          break;
        }
        assert Elems(q)[i..][1..] == Elems(q)[i + 1..];
        out := out.hh_next;
        i := i + 1;
      }
    }
  }

  /** The handles in the order of a walk over the first `m` buckets. */
  ghost function Walk(chains: seq<seq<Handle>>, m: nat): seq<Handle>
    requires m <= |chains|
  {
    if m == 0 then [] else Walk(chains, m - 1) + chains[m - 1]
  }

  lemma ElemsConcat(a: seq<Handle>, b: seq<Handle>)
    ensures Elems(a + b) == Elems(a) + Elems(b)
  {
  }

  lemma {:induction false} WalkIsFlat(b: Buckets, m: nat)
    requires b.Shaped() && m <= |b.chains|
    ensures Elems(Walk(b.chains, m)) == FlatTo(b.Abs(), m)
  {
    if m > 0 {
      WalkIsFlat(b, m - 1);
      ElemsConcat(Walk(b.chains, m - 1), b.chains[m - 1]);
    }
  }
}

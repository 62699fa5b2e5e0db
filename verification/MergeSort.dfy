/** Bottom-up merge sort on sequences: what the in-place sorts of utlist.h and
    uthash.h compute, and why the result is the stable sorted order. */
module MergeSort {
  function Min(a: int, b: int): int { if a < b then a else b }

  /** Merging prefers the left run on ties. */
  function Merge<T>(a: seq<T>, b: seq<T>, cmp: (T, T) -> int): seq<T>
    decreases |a| + |b|
  {
    if a == [] then b
    else if b == [] then a
    else if cmp(a[0], b[0]) <= 0 then [a[0]] + Merge(a[1..], b, cmp)
    else [b[0]] + Merge(a, b[1..], cmp)
  }

  /** One pass merges neighbouring runs of length `k` pairwise. */
  function Pass<T>(s: seq<T>, k: nat, cmp: (T, T) -> int): seq<T>
    requires k > 0
  {
    if s == [] then []
    else
      var p, q := Min(k, |s|), Min(2 * k, |s|);
      Merge(s[..p], s[p..q], cmp) + Pass(s[q..], k, cmp)
  }

  /** Passes over runs of length k, 2k, 4k, ... until one pass does a single merge. */
  function Passes<T>(s: seq<T>, k: nat, cmp: (T, T) -> int): seq<T>
    requires k > 0
    decreases |s| - k
  {
    if |s| <= 2 * k then Pass(s, k, cmp) else (PassPermutes(s, k, cmp); Passes(Pass(s, k, cmp), 2 * k, cmp))
  }

  /** `cmp(x, y) <= 0` is total and transitive on the elements of `s`. */
  ghost predicate TotalPreorder<T>(s: seq<T>, cmp: (T, T) -> int) {
    && (forall x, y :: x in s && y in s ==> cmp(x, y) <= 0 || cmp(y, x) <= 0)
    && (forall x, y, z :: x in s && y in s && z in s && cmp(x, y) <= 0 && cmp(y, z) <= 0 ==> cmp(x, z) <= 0)
  }

  ghost predicate Sorted<T>(s: seq<T>, cmp: (T, T) -> int) {
    forall i, j :: 0 <= i < j < |s| ==> cmp(s[i], s[j]) <= 0
  }

  /** The elements of `s` that tie with `x`, in their order. */
  ghost function Ties<T>(s: seq<T>, x: T, cmp: (T, T) -> int): seq<T> {
    if s == [] then []
    else (if cmp(s[0], x) <= 0 && cmp(x, s[0]) <= 0 then [s[0]] else []) + Ties(s[1..], x, cmp)
  }

  // ----- permutation -----

  lemma {:induction false} MergePermutes<T>(a: seq<T>, b: seq<T>, cmp: (T, T) -> int)
    ensures multiset(Merge(a, b, cmp)) == multiset(a) + multiset(b)
    ensures |Merge(a, b, cmp)| == |a| + |b|
    decreases |a| + |b|
  {
    if a != [] && b != [] {
      if cmp(a[0], b[0]) <= 0 {
        assert a == [a[0]] + a[1..];
        MergePermutes(a[1..], b, cmp);
      } else {
        assert b == [b[0]] + b[1..];
        MergePermutes(a, b[1..], cmp);
      }
    }
  }

  lemma {:induction false} PassPermutes<T>(s: seq<T>, k: nat, cmp: (T, T) -> int)
    requires k > 0
    ensures multiset(Pass(s, k, cmp)) == multiset(s)
    ensures |Pass(s, k, cmp)| == |s|
  {
    if s != [] {
      var p, q := Min(k, |s|), Min(2 * k, |s|);
      assert s == s[..p] + s[p..q] + s[q..];
      MergePermutes(s[..p], s[p..q], cmp);
      PassPermutes(s[q..], k, cmp);
    }
  }

  lemma {:induction false} PassesPermute<T>(s: seq<T>, k: nat, cmp: (T, T) -> int)
    requires k > 0
    ensures multiset(Passes(s, k, cmp)) == multiset(s)
    ensures |Passes(s, k, cmp)| == |s|
    decreases |s| - k
  {
    PassPermutes(s, k, cmp);
    if |s| > 2 * k { PassesPermute(Pass(s, k, cmp), 2 * k, cmp); }
  }

  // ----- ranks: a total preorder on finitely many elements is an order of integers -----

  /** `rank` represents the comparison on the elements of `u`. */
  ghost predicate Ranked<T>(u: seq<T>, cmp: (T, T) -> int, rank: T -> int) {
    forall x, y :: x in u && y in u ==> (cmp(x, y) <= 0 <==> rank(x) <= rank(y))
  }

  ghost function Below<T>(s: seq<T>, cmp: (T, T) -> int, x: T): set<T> {
    set y | y in s && cmp(x, y) > 0
  }

  /** Counting the elements strictly below gives ranks. */
  lemma RanksExist<T>(s: seq<T>, cmp: (T, T) -> int)
    requires TotalPreorder(s, cmp)
    ensures Ranked(s, cmp, x => |Below(s, cmp, x)|)
  {
    forall x, y | x in s && y in s ensures cmp(x, y) <= 0 <==> |Below(s, cmp, x)| <= |Below(s, cmp, y)| {
      var a, b := Below(s, cmp, x), Below(s, cmp, y);
      if cmp(x, y) <= 0 {
        assert a <= b;
        assert b == a + (b - a);
      } else {
        assert b <= a && y in a && y !in b;
        assert a == b + (a - b) && |a - b| > 0;
      }
    }
  }

  ghost predicate Up<T>(s: seq<T>, rank: T -> int) {
    forall i, j :: 0 <= i < j < |s| ==> rank(s[i]) <= rank(s[j])
  }

  ghost predicate RunsUp<T>(s: seq<T>, k: nat, rank: T -> int)
    requires k > 0
  {
    s == [] || (Up(s[..Min(k, |s|)], rank) && RunsUp(s[Min(k, |s|)..], k, rank))
  }

  /** The elements of rank `r`, in their order. */
  ghost function OfRank<T>(s: seq<T>, r: int, rank: T -> int): seq<T> {
    if s == [] then [] else (if rank(s[0]) == r then [s[0]] else []) + OfRank(s[1..], r, rank)
  }

  lemma RankedPart<T>(s: seq<T>, u: seq<T>, cmp: (T, T) -> int, rank: T -> int)
    requires Ranked(u, cmp, rank) && forall x :: x in s ==> x in u
    ensures Ranked(s, cmp, rank)
  {
  }

  lemma {:induction false} TiesAreOfRank<T>(s: seq<T>, x: T, u: seq<T>, cmp: (T, T) -> int, rank: T -> int)
    requires Ranked(u, cmp, rank) && x in u && forall y :: y in s ==> y in u
    ensures Ties(s, x, cmp) == OfRank(s, rank(x), rank)
  {
    if s != [] { TiesAreOfRank(s[1..], x, u, cmp, rank); }
  }

  // ----- sortedness and stability -----

  lemma UpCons<T>(x: T, s: seq<T>, rank: T -> int)
    requires Up(s, rank) && (s != [] ==> rank(x) <= rank(s[0]))
    ensures Up([x] + s, rank)
  {
    var t := [x] + s;
    forall i, j | 0 <= i < j < |t| ensures rank(t[i]) <= rank(t[j]) {
      assert t[j] == s[j - 1];
      assert i > 0 ==> t[i] == s[i - 1];
    }
  }

  lemma UpTail<T>(s: seq<T>, rank: T -> int)
    requires s != [] && Up(s, rank)
    ensures Up(s[1..], rank) && (|s| > 1 ==> rank(s[0]) <= rank(s[1..][0]))
  {
  }

  lemma {:induction false} MergeGoesUp<T>(a: seq<T>, b: seq<T>, cmp: (T, T) -> int, rank: T -> int)
    requires Ranked(a + b, cmp, rank) && Up(a, rank) && Up(b, rank)
    ensures Up(Merge(a, b, cmp), rank)
    ensures |Merge(a, b, cmp)| == |a| + |b|
    ensures a != [] && b != [] ==> rank(Merge(a, b, cmp)[0]) == Min(rank(a[0]), rank(b[0]))
    decreases |a| + |b|
  {
    if a != [] && b != [] {
      assert a[0] == (a + b)[0] && b[0] == (a + b)[|a|];
      if cmp(a[0], b[0]) <= 0 {
        RankedPart(a[1..] + b, a + b, cmp, rank);
        UpTail(a, rank);
        MergeGoesUp(a[1..], b, cmp, rank);
        UpCons(a[0], Merge(a[1..], b, cmp), rank);
      } else {
        RankedPart(a + b[1..], a + b, cmp, rank);
        UpTail(b, rank);
        MergeGoesUp(a, b[1..], cmp, rank);
        UpCons(b[0], Merge(a, b[1..], cmp), rank);
      }
    }
  }

  lemma {:induction false} OfRankConcat<T>(a: seq<T>, b: seq<T>, r: int, rank: T -> int)
    ensures OfRank(a + b, r, rank) == OfRank(a, r, rank) + OfRank(b, r, rank)
  {
    if a == [] {
      assert a + b == b;
    } else {
      assert a + b == [a[0]] + (a[1..] + b);
      OfRankConcat(a[1..], b, r, rank);
    }
  }

  lemma OfRankSplits<T>(s: seq<T>, p: int, q: int, r: int, rank: T -> int)
    requires 0 <= p <= q <= |s|
    ensures OfRank(s, r, rank) == (OfRank(s[..p], r, rank) + OfRank(s[p..q], r, rank)) + OfRank(s[q..], r, rank)
  {
    OfRankConcat(s[..p], s[p..q], r, rank);
    OfRankConcat(s[..p] + s[p..q], s[q..], r, rank);
    assert s == (s[..p] + s[p..q]) + s[q..];
  }

  lemma {:induction false} NoneOfRank<T>(s: seq<T>, r: int, rank: T -> int)
    requires forall i :: 0 <= i < |s| ==> rank(s[i]) != r
    ensures OfRank(s, r, rank) == []
  {
    if s != [] { NoneOfRank(s[1..], r, rank); }
  }

  /** Merging rising runs keeps the elements of each rank in order, the left run first. */
  lemma {:induction false} MergeIsStable<T>(a: seq<T>, b: seq<T>, r: int, cmp: (T, T) -> int, rank: T -> int)
    requires Ranked(a + b, cmp, rank) && Up(a, rank) && Up(b, rank)
    ensures OfRank(Merge(a, b, cmp), r, rank) == OfRank(a, r, rank) + OfRank(b, r, rank)
    decreases |a| + |b|
  {
    if a != [] && b != [] {
      assert a[0] == (a + b)[0] && b[0] == (a + b)[|a|];
      if cmp(a[0], b[0]) <= 0 {
        RankedPart(a[1..] + b, a + b, cmp, rank);
        OfRankConcat([a[0]], Merge(a[1..], b, cmp), r, rank);
        MergeIsStable(a[1..], b, r, cmp, rank);
      } else {
        RankedPart(a + b[1..], a + b, cmp, rank);
        OfRankConcat([b[0]], Merge(a, b[1..], cmp), r, rank);
        MergeIsStable(a, b[1..], r, cmp, rank);
        if rank(b[0]) == r { NoneOfRank(a, r, rank); }
      }
    }
  }

  /** The two runs a pass merges first, and what it has left. */
  lemma FirstTwoRuns<T>(s: seq<T>, k: nat, rank: T -> int)
    requires k > 0 && s != [] && RunsUp(s, k, rank)
    ensures Up(s[..Min(k, |s|)], rank)
    ensures Up(s[Min(k, |s|)..Min(2 * k, |s|)], rank)
    ensures RunsUp(s[Min(2 * k, |s|)..], k, rank)
  {
    var p, q := Min(k, |s|), Min(2 * k, |s|);
    var t := s[p..];
    assert RunsUp(t, k, rank);
    if t != [] {
      var d := Min(k, |t|);
      assert q == p + d && s[p..q] == t[..d] && s[q..] == t[d..];
      assert Up(t[..d], rank) && RunsUp(t[d..], k, rank);
    } else {
      assert s[p..q] == [] && s[q..] == [];
    }
  }

  lemma RankedRuns<T>(s: seq<T>, p: int, q: int, cmp: (T, T) -> int, rank: T -> int)
    requires 0 <= p <= q <= |s| && Ranked(s, cmp, rank)
    ensures Ranked(s[..p] + s[p..q], cmp, rank) && Ranked(s[q..], cmp, rank)
  {
    assert s[..p] + s[p..q] == s[..q];
    RankedPart(s[..q], s, cmp, rank);
    RankedPart(s[q..], s, cmp, rank);
  }

  /** A pass doubles the length of the rising runs. */
  lemma {:induction false} PassGoesUp<T>(s: seq<T>, k: nat, cmp: (T, T) -> int, rank: T -> int)
    requires k > 0 && Ranked(s, cmp, rank) && RunsUp(s, k, rank)
    ensures RunsUp(Pass(s, k, cmp), 2 * k, rank)
  {
    if s != [] {
      var p, q := Min(k, |s|), Min(2 * k, |s|);
      FirstTwoRuns(s, k, rank);
      RankedRuns(s, p, q, cmp, rank);
      MergeGoesUp(s[..p], s[p..q], cmp, rank);
      PassGoesUp(s[q..], k, cmp, rank);
      var m, r := Merge(s[..p], s[p..q], cmp), Pass(s[q..], k, cmp);
      assert (m + r)[..|m|] == m && (m + r)[|m|..] == r;
      PassPermutes(s[q..], k, cmp);
    }
  }

  /** A pass keeps the elements of each rank in order. */
  lemma {:induction false} PassIsStable<T>(s: seq<T>, k: nat, r: int, cmp: (T, T) -> int, rank: T -> int)
    requires k > 0 && Ranked(s, cmp, rank) && RunsUp(s, k, rank)
    ensures OfRank(Pass(s, k, cmp), r, rank) == OfRank(s, r, rank)
  {
    if s != [] {
      var p, q := Min(k, |s|), Min(2 * k, |s|);
      FirstTwoRuns(s, k, rank);
      RankedRuns(s, p, q, cmp, rank);
      MergeIsStable(s[..p], s[p..q], r, cmp, rank);
      PassIsStable(s[q..], k, r, cmp, rank);
      OfRankConcat(Merge(s[..p], s[p..q], cmp), Pass(s[q..], k, cmp), r, rank);
      OfRankSplits(s, p, q, r, rank);
    }
  }

  lemma {:induction false} SingletonRuns<T>(s: seq<T>, rank: T -> int)
    ensures RunsUp(s, 1, rank)
  {
    if s != [] { SingletonRuns(s[1..], rank); }
  }

  lemma PassStaysRanked<T>(s: seq<T>, k: nat, cmp: (T, T) -> int, rank: T -> int)
    requires k > 0 && Ranked(s, cmp, rank)
    ensures Ranked(Pass(s, k, cmp), cmp, rank)
  {
    PassPermutes(s, k, cmp);
    SameMembers(s, Pass(s, k, cmp));
    RankedPart(Pass(s, k, cmp), s, cmp, rank);
  }

  lemma {:induction false} PassesGoUp<T>(s: seq<T>, k: nat, cmp: (T, T) -> int, rank: T -> int)
    requires k > 0 && Ranked(s, cmp, rank) && RunsUp(s, k, rank)
    ensures Up(Passes(s, k, cmp), rank)
    decreases |s| - k
  {
    var r := Pass(s, k, cmp);
    PassGoesUp(s, k, cmp, rank);
    PassPermutes(s, k, cmp);
    if |s| <= 2 * k {
      assert r[..|r|] == r;
    } else {
      PassStaysRanked(s, k, cmp, rank);
      PassesGoUp(r, 2 * k, cmp, rank);
    }
  }

  lemma {:induction false} PassesAreStable<T>(s: seq<T>, k: nat, r: int, cmp: (T, T) -> int, rank: T -> int)
    requires k > 0 && Ranked(s, cmp, rank) && RunsUp(s, k, rank)
    ensures OfRank(Passes(s, k, cmp), r, rank) == OfRank(s, r, rank)
    decreases |s| - k
  {
    PassIsStable(s, k, r, cmp, rank);
    PassPermutes(s, k, cmp);
    if |s| > 2 * k {
      PassGoesUp(s, k, cmp, rank);
      PassStaysRanked(s, k, cmp, rank);
      PassesAreStable(Pass(s, k, cmp), 2 * k, r, cmp, rank);
    }
  }

  /** `r` is a sorted permutation of `s` that keeps every tie class in its original order. */
  ghost predicate StableSorting<T>(r: seq<T>, s: seq<T>, cmp: (T, T) -> int) {
    && Sorted(r, cmp) && multiset(r) == multiset(s)
    && forall x :: x in s ==> Ties(r, x, cmp) == Ties(s, x, cmp)
  }

  /** The passes sort stably. */
  lemma SortIsStable<T>(s: seq<T>, cmp: (T, T) -> int)
    requires TotalPreorder(s, cmp)
    ensures StableSorting(Passes(s, 1, cmp), s, cmp)
  {
    var rank := x => |Below(s, cmp, x)|;
    var r := Passes(s, 1, cmp);
    RanksExist(s, cmp);
    SingletonRuns(s, rank);
    PassesGoUp(s, 1, cmp, rank);
    PassesPermute(s, 1, cmp);
    SameMembers(s, r);
    forall x | x in s ensures Ties(r, x, cmp) == Ties(s, x, cmp) {
      PassesAreStable(s, 1, rank(x), cmp, rank);
      TiesAreOfRank(r, x, s, cmp, rank);
      TiesAreOfRank(s, x, s, cmp, rank);
    }
  }

  lemma {:induction false} HeadOfRank<T>(s: seq<T>, r: int, rank: T -> int)
    ensures OfRank(s, r, rank) != [] <==> exists i :: 0 <= i < |s| && rank(s[i]) == r
    ensures s != [] && rank(s[0]) == r ==> OfRank(s, r, rank) != [] && OfRank(s, r, rank)[0] == s[0]
  {
    if s != [] {
      HeadOfRank(s[1..], r, rank);
      if i :| 0 <= i < |s[1..]| && rank(s[1..][i]) == r { assert s[i + 1] == s[1..][i]; }
      if i :| 0 <= i < |s| && rank(s[i]) == r { assert i > 0 ==> s[1..][i - 1] == s[i]; }
    }
  }

  lemma OfRankTail<T>(s: seq<T>, r: int, rank: T -> int)
    requires s != []
    ensures rank(s[0]) == r ==> OfRank(s, r, rank) != [] && OfRank(s[1..], r, rank) == OfRank(s, r, rank)[1..]
    ensures rank(s[0]) != r ==> OfRank(s[1..], r, rank) == OfRank(s, r, rank)
  {
  }

  lemma {:induction false} RisingOrderIsUnique<T>(a: seq<T>, b: seq<T>, rank: T -> int)
    requires Up(a, rank) && Up(b, rank) && |a| == |b|
    requires forall r :: OfRank(a, r, rank) == OfRank(b, r, rank)
    ensures a == b
  {
    if a != [] {
      var x, y := a[0], b[0];
      HeadOfRank(a, rank(x), rank);
      HeadOfRank(b, rank(x), rank);
      HeadOfRank(a, rank(y), rank);
      HeadOfRank(b, rank(y), rank);
      assert rank(x) == rank(y);
      forall r ensures OfRank(a[1..], r, rank) == OfRank(b[1..], r, rank) {
        assert OfRank(a, r, rank) == OfRank(b, r, rank);
        OfRankTail(a, r, rank);
        OfRankTail(b, r, rank);
      }
      RisingOrderIsUnique(a[1..], b[1..], rank);
      assert a == [x] + a[1..] && b == [y] + b[1..];
    }
  }

  /** A sequence has only one stable sorting, so the properties above pin the result down. */
  lemma StableOrderIsUnique<T>(s: seq<T>, b: seq<T>, cmp: (T, T) -> int)
    requires TotalPreorder(s, cmp) && StableSorting(b, s, cmp)
    ensures b == Passes(s, 1, cmp)
  {
    var rank := x => |Below(s, cmp, x)|;
    var a := Passes(s, 1, cmp);
    RanksExist(s, cmp);
    SingletonRuns(s, rank);
    PassesGoUp(s, 1, cmp, rank);
    PassesPermute(s, 1, cmp);
    assert |b| == |multiset(b)| == |s|;
    SameMembers(s, b);
    RankedPart(b, s, cmp, rank);
    forall i, j | 0 <= i < j < |b| ensures rank(b[i]) <= rank(b[j]) {
      assert cmp(b[i], b[j]) <= 0;
      assert b[i] in b && b[j] in b;
    }
    forall r ensures OfRank(a, r, rank) == OfRank(b, r, rank) {
      PassesAreStable(s, 1, r, cmp, rank);
      SameTiesSameRanks(s, b, r, cmp, rank);
    }
    RisingOrderIsUnique(a, b, rank);
  }

  lemma SameMembers<T>(s: seq<T>, b: seq<T>)
    requires multiset(s) == multiset(b)
    ensures forall x :: x in b ==> x in s
  {
    forall x | x in b ensures x in s {
      assert x in multiset(b);
      assert x in multiset(s);
    }
  }

  lemma SameTiesSameRanks<T>(s: seq<T>, b: seq<T>, r: int, cmp: (T, T) -> int, rank: T -> int)
    requires Ranked(s, cmp, rank) && forall x :: x in b ==> x in s
    requires forall x :: x in s ==> Ties(b, x, cmp) == Ties(s, x, cmp)
    ensures OfRank(s, r, rank) == OfRank(b, r, rank)
  {
    HeadOfRank(s, r, rank);
    HeadOfRank(b, r, rank);
    if OfRank(b, r, rank) != [] {
      var i :| 0 <= i < |b| && rank(b[i]) == r;
      assert b[i] in b;
      var j :| 0 <= j < |s| && s[j] == b[i];
      assert rank(s[j]) == r;
    }
    if i :| 0 <= i < |s| && rank(s[i]) == r {
      TiesAreOfRank(s, s[i], s, cmp, rank);
      TiesAreOfRank(b, s[i], s, cmp, rank);
    }
  }
}

/** The hash table of uthash.h as a value: what the macros do to the buckets, the counters
    and the order in which the application added its elements. */
module UtHash {
  import opened MergeSort

  type Key = seq<nat>

  const INITIAL_LOG2: nat := 5
  const CAPACITY: nat := 10

  datatype Option<T> = None | Some(value: T)

  /** An element with its key and the hash value of the key. */
  datatype Elem = Elem(id: nat, key: Key, hashv: nat)

  /** One bucket: its chain from `hh_head` on, and the two numbers kept with it. */
  datatype Bucket = Bucket(chain: seq<Elem>, count: int, mult: int)

  datatype Table = Table(
    buckets: seq<Bucket>, log2: nat, numItems: nat,
    ideal: nat, nonideal: nat, ineff: nat, noexpand: bool)

  /** The hash: NULL, or the elements in application order and their table. */
  datatype Hash = Null | Hash(items: seq<Elem>, tbl: Table)

  // ----- bits -----

  function Pow2(k: nat): (r: nat)
    ensures r > 0
  {
    if k == 0 then 1 else 2 * Pow2(k - 1)
  }

  /** `&` */
  function And(x: nat, y: nat): (r: nat)
    ensures r <= y
  {
    if x == 0 || y == 0 then 0 else (if x % 2 == 1 && y % 2 == 1 then 1 else 0) + 2 * And(x / 2, y / 2)
  }

  /** `>>` */
  function Shr(x: nat, k: nat): nat
    decreases k
  {
    if k == 0 then x else Shr(x / 2, k - 1)
  }

  lemma ModDouble(x: nat, m: nat)
    requires m > 0
    ensures x % (2 * m) == x % 2 + 2 * ((x / 2) % m)
    ensures x / (2 * m) == (x / 2) / m
  {
    var q, r := (x / 2) / m, (x / 2) % m;
    Division(x / 2, m);
    assert x == (2 * m) * q + (x % 2 + 2 * r) by {
      assert x == 2 * (q * m + r) + x % 2;
      assert 2 * (q * m) == (2 * m) * q;
    }
    DivModUnique(x, 2 * m, q, x % 2 + 2 * r);
  }

  lemma Division(x: nat, m: nat)
    requires m > 0
    ensures x == (x / m) * m + x % m && x % m < m
  {
  }

  lemma MulNext(m: nat, a: int)
    ensures (a + 1) * m == a * m + m
  {
  }

  lemma {:induction false} MulGrows(m: nat, a: int, b: int)
    ensures a < b ==> a * m + m <= b * m
    decreases b - a
  {
    if a < b {
      MulNext(m, b - 1);
      MulGrows(m, a, b - 1);
    }
  }

  lemma DivModUnique(x: nat, m: nat, q: nat, r: nat)
    requires m > 0 && r < m && x == m * q + r
    ensures x / m == q && x % m == r
  {
    Division(x, m);
    MulGrows(m, x / m, q);
    MulGrows(m, q, x / m);
  }

  lemma AndOdd(x: nat, m: nat)
    requires m > 0
    ensures And(x, 2 * m - 1) == x % 2 + 2 * And(x / 2, m - 1)
  {
    assert (2 * m - 1) % 2 == 1 && (2 * m - 1) / 2 == m - 1;
  }

  /** Masking with a power of two less one is the remainder: HASH_TO_BKT. */
  lemma {:induction false} AndMask(x: nat, k: nat)
    ensures And(x, Pow2(k) - 1) == ToBkt(x, Pow2(k)) == x % Pow2(k)
    decreases k
  {
    if k > 0 {
      var m := Pow2(k - 1);
      AndMask(x / 2, k - 1);
      ModDouble(x, m);
      AndOdd(x, m);
    }
  }

  lemma {:induction false} ShrIsDiv(x: nat, k: nat)
    ensures Shr(x, k) == x / Pow2(k)
    decreases k
  {
    if k > 0 {
      ShrIsDiv(x / 2, k - 1);
      ModDouble(x, Pow2(k - 1));
    }
  }

  function ToBkt(hashv: nat, n: nat): (r: nat)
    requires n > 0
    ensures r < n
  {
    And(hashv, n - 1)
  }

  /** The ideal chain length for `items` in twice `2^log2` buckets, by shift and mask. */
  function Ideal(items: nat, log2: nat): nat {
    Shr(items, log2 + 1) + if And(items, Pow2(log2) * 2 - 1) != 0 then 1 else 0
  }

  function CeilDiv(a: nat, b: nat): nat
    requires b > 0
  {
    (a + b - 1) / b
  }

  /** The shift-and-mask form is the ceiling of the division. */
  lemma IdealIsCeiling(items: nat, log2: nat)
    ensures Ideal(items, log2) == CeilDiv(items, Pow2(log2 + 1))
  {
    var b := Pow2(log2 + 1);
    ShrIsDiv(items, log2 + 1);
    AndMask(items, log2 + 1);
    CeilingByRemainder(items, b);
  }

  lemma CeilingByRemainder(a: nat, b: nat)
    requires b > 0
    ensures CeilDiv(a, b) == a / b + if a % b != 0 then 1 else 0
  {
    var q, r := a / b, a % b;
    Division(a, b);
    if r == 0 {
      DivModUnique(a + b - 1, b, q, b - 1);
    } else {
      assert b * (q + 1) == q * b + b;
      DivModUnique(a + b - 1, b, q + 1, r - 1);
    }
  }

  // ----- buckets -----

  const EMPTY: Bucket := Bucket([], 0, 0)

  /** expand_mult of a bucket that has just grown to `count` elements */
  function Factor(count: int, ideal: nat, mult: int): int
    requires ideal > 0
  {
    if count > ideal then count / ideal else mult
  }

  /** One round of HASH_EXPAND_BUCKETS: element `e` moves to the head of its new chain. */
  function Place(nb: seq<Bucket>, ideal: nat, e: Elem): seq<Bucket>
    requires |nb| > 0 && ideal > 0
  {
    var j := ToBkt(e.hashv, |nb|);
    var b := nb[j];
    nb[j := Bucket([e] + b.chain, b.count + 1, Factor(b.count + 1, ideal, b.mult))]
  }

  /** All of `q`, in order. */
  function PlaceAll(nb: seq<Bucket>, ideal: nat, q: seq<Elem>): (r: seq<Bucket>)
    requires |nb| > 0 && ideal > 0
    ensures |r| == |nb|
  {
    if q == [] then nb else Place(PlaceAll(nb, ideal, q[..|q| - 1]), ideal, q[|q| - 1])
  }

  /** How often a placing made a chain longer than ideal. */
  function Overfull(nb: seq<Bucket>, ideal: nat, q: seq<Elem>): nat
    requires |nb| > 0 && ideal > 0
  {
    if q == [] then 0
    else
      var b, e := PlaceAll(nb, ideal, q[..|q| - 1]), q[|q| - 1];
      var j := ToBkt(e.hashv, |nb|);
      Overfull(nb, ideal, q[..|q| - 1]) + if b[j].count + 1 > ideal then 1 else 0
  }

  /** The elements in the order of a walk over all buckets. */
  function Flat(bs: seq<Bucket>): seq<Elem> {
    FlatTo(bs, |bs|)
  }

  function FlatTo(bs: seq<Bucket>, m: nat): seq<Elem>
    requires m <= |bs|
  {
    if m == 0 then [] else FlatTo(bs, m - 1) + bs[m - 1].chain
  }

  /** HASH_EXPAND_BUCKETS */
  function Expand(t: Table): Table
    requires |t.buckets| > 0 && Ideal(t.numItems, t.log2) > 0
  {
    var ideal := Ideal(t.numItems, t.log2);
    var blank := seq(2 * |t.buckets|, _ => EMPTY);
    var nonideal := Overfull(blank, ideal, Flat(t.buckets));
    var ineff := if nonideal > Shr(t.numItems, 1) then t.ineff + 1 else 0;
    Table(PlaceAll(blank, ideal, Flat(t.buckets)), t.log2 + 1, t.numItems, ideal, nonideal, ineff,
      t.noexpand || ineff > 1)
  }

  /** HASH_ADD_TO_BKT, after the element was counted */
  function AddToBkt(t: Table, e: Elem): Table
    requires |t.buckets| > 0 && Ideal(t.numItems, t.log2) > 0
  {
    var j := ToBkt(e.hashv, |t.buckets|);
    var b := t.buckets[j];
    var t := t.(buckets := t.buckets[j := Bucket([e] + b.chain, b.count + 1, b.mult)]);
    if b.count + 1 >= (b.mult + 1) * CAPACITY && !t.noexpand then Expand(t) else t
  }

  function Without(q: seq<Elem>, e: Elem): seq<Elem> {
    if q == [] then [] else if q[0] == e then q[1..] else [q[0]] + Without(q[1..], e)
  }

  /** HASH_DEL_IN_BKT */
  function DelInBkt(t: Table, e: Elem): Table
    requires |t.buckets| > 0
  {
    var j := ToBkt(e.hashv, |t.buckets|);
    var b := t.buckets[j];
    t.(buckets := t.buckets[j := Bucket(Without(b.chain, e), b.count - 1, b.mult)])
  }

  /** The first element of a chain that has the key: HASH_FIND_IN_BKT. */
  function First(q: seq<Elem>, key: Key): Option<Elem> {
    if q == [] then None else if q[0].key == key then Some(q[0]) else First(q[1..], key)
  }

  // ----- the macros -----

  function NewTable(): Table {
    Table(seq(Pow2(INITIAL_LOG2), _ => EMPTY), INITIAL_LOG2, 0, 0, 0, 0, false)
  }
}

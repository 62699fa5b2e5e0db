/** The macros of uthash.h in their own form, over handles, bucket arrays and the list in
    application order; each is proved to do what the table of the model does. */
module UtHashMacros {
  import opened MergeSort
  import UtList
  import opened UtHash
  import R = UtHashRuns
  import opened UtHashTable
  import opened UtHashHeap
  import opened UtHashExpand
  import App = UtHashApp

  /** The table of a hash. */
  class HashTable {
    var buckets: Buckets
    var log2: nat
    var numItems: nat
    var ideal: nat
    var nonideal: nat
    var ineff: nat
    var noexpand: bool

    /** HASH_MAKE_TABLE */
    constructor ()
      ensures Shaped() && buckets.Valid() && fresh(Footprint()) && buckets.Handles() == {} && Abs() == NewTable()
    {
      var bs := new Buckets(Pow2(INITIAL_LOG2));
      buckets, log2, numItems, ideal, nonideal, ineff, noexpand := bs, INITIAL_LOG2, 0, 0, 0, 0, false;
    }

    ghost predicate Shaped()
      reads this, buckets
    {
      buckets.Shaped() && |buckets.chains| > 0
    }

    /** The table's own memory, without the handles. */
    ghost function Footprint(): set<object>
      reads this
    {
      {this, buckets, buckets.heads, buckets.counts, buckets.mults}
    }

    ghost predicate Valid()
      reads this, buckets, buckets.heads, buckets.Handles()
    {
      Shaped() && buckets.Valid()
    }

    ghost function Abs(): Table
      requires Shaped()
      reads this, buckets, buckets.counts, buckets.mults
    {
      Table(buckets.Abs(), log2, numItems, ideal, nonideal, ineff, noexpand)
    }

    /** HASH_EXPAND_BUCKETS */
    method Expand()
      requires Valid() && Ideal(numItems, log2) > 0
      modifies Footprint(), buckets.Handles()
      ensures Valid() && fresh(buckets) && fresh(buckets.heads) && fresh(buckets.counts) && fresh(buckets.mults)
      ensures Abs() == UtHash.Expand(old(Abs())) && buckets.Handles() == old(buckets.Handles())
    {
      ghost var t := Abs();
      var ideal := Ideal(numItems, log2);
      var nb, nonideal := Rehash(ideal);
      ExpandIs(t, ideal, nb.Abs(), nonideal);
      Adopt(nb, ideal, nonideal);
    }

    /** The new buckets, filled from the old ones */
    method Rehash(ideal: nat) returns (nb: Buckets, nonideal: nat)
      requires Valid() && ideal > 0
      modifies buckets.Handles()
      ensures fresh(nb) && fresh(nb.heads) && fresh(nb.counts) && fresh(nb.mults)
      ensures nb.Shaped() && nb.Valid() && |nb.chains| > 0 && nb.Handles() == old(buckets.Handles())
      ensures nb.Abs() == PlaceAll(Blank(2 * |old(buckets.Abs())|), ideal, Flat(old(buckets.Abs())))
      ensures nonideal == Overfull(Blank(2 * |old(buckets.Abs())|), ideal, Flat(old(buckets.Abs())))
    {
      nb := new Buckets(2 * buckets.heads.Length);
      assert nb.Abs() == Blank(2 * |buckets.Abs()|);
      nonideal := MoveAll(buckets, nb, ideal);
    }

    lemma ExpandIs(t: Table, ideal: nat, nb: seq<Bucket>, nonideal: nat)
      requires |t.buckets| > 0 && Ideal(t.numItems, t.log2) == ideal > 0
      requires nb == PlaceAll(Blank(2 * |t.buckets|), ideal, Flat(t.buckets))
      requires nonideal == Overfull(Blank(2 * |t.buckets|), ideal, Flat(t.buckets))
      ensures var ineff' := if nonideal > Shr(t.numItems, 1) then t.ineff + 1 else 0;
        UtHash.Expand(t) == Table(nb, t.log2 + 1, t.numItems, ideal, nonideal, ineff', t.noexpand || ineff' > 1)
    {
    }

    /** The end of HASH_EXPAND_BUCKETS: the new buckets replace the old ones. */
    method Adopt(nb: Buckets, ideal: nat, nonideal: nat)
      requires nb.Shaped() && nb.Valid() && |nb.chains| > 0
      modifies this
      ensures Shaped() && Valid() && buckets == nb
      ensures var ineff' := if nonideal > Shr(old(numItems), 1) then old(ineff) + 1 else 0;
        Abs() == Table(old(nb.Abs()), old(log2) + 1, old(numItems), ideal, nonideal, ineff',
          old(noexpand) || ineff' > 1)
    {
      this.ideal, this.nonideal := ideal, nonideal;
      log2 := log2 + 1;
      buckets := nb;
      ineff := if nonideal > Shr(numItems, 1) then ineff + 1 else 0;
      if ineff > 1 {
        noexpand := true;
      }
    }

    /** The count and the pointers of HASH_ADD_TO_BKT */
    method Push(j: nat, h: Handle)
      requires Valid() && j < |buckets.chains| && h.home != buckets
      modifies buckets, buckets.heads, buckets.counts, buckets.Handles(), h
      ensures Valid() && |buckets.chains| == |old(buckets.chains)| && buckets.Handles() == old(buckets.Handles()) + {h}
      ensures var b := old(Abs()).buckets[j];
        Abs() == old(Abs()).(buckets := old(Abs()).buckets[j := Bucket([h.e] + b.chain, b.count + 1, b.mult)])
    {
      ghost var chains, hs := buckets.chains, buckets.Handles();
      forall i | 0 <= i < |chains[j]| ensures chains[j][i] in hs { }
      buckets.counts[j] := buckets.counts[j] + 1;
      buckets.Link(j, h);
      HandlesAfterLink(buckets, chains, j, h, hs);
      assert Elems([h] + chains[j]) == [h.e] + Elems(chains[j]);
    }

    /** HASH_ADD_TO_BKT */
    method AddToBkt(h: Handle)
      requires Valid() && h.home != buckets && Ideal(numItems, log2) > 0
      modifies Footprint(), buckets.Handles(), h
      ensures Valid() && Abs() == UtHash.AddToBkt(old(Abs()), h.e) && buckets.Handles() == old(buckets.Handles()) + {h}
      ensures buckets == old(buckets) || (fresh(buckets) && fresh(buckets.heads) && fresh(buckets.counts) &&
        fresh(buckets.mults))
    {
      var j := ToBkt(h.e.hashv, buckets.heads.Length);
      ghost var t := Abs();
      Push(j, h);
      ghost var t1 := Abs();
      assert t1.buckets[j] == Bucket([h.e] + t.buckets[j].chain, buckets.counts[j], buckets.mults[j]);
      AddToBktIs(t, h.e, j, t1);
      if buckets.counts[j] >= (buckets.mults[j] + 1) * CAPACITY && !noexpand {
        Expand();
      }
    }

    /** num_items goes up and the handle into its bucket. */
    method AddItem(h: Handle)
      requires Valid() && h.home != buckets
      modifies Footprint(), buckets.Handles(), h
      ensures Valid() && buckets.Handles() == old(buckets.Handles()) + {h}
      ensures Ideal(old(numItems) + 1, old(log2)) > 0
      ensures Abs() == UtHash.AddToBkt(old(Abs()).(numItems := old(numItems) + 1), h.e)
      ensures buckets == old(buckets) || (fresh(buckets) && fresh(buckets.heads) && fresh(buckets.counts) &&
        fresh(buckets.mults))
    {
      IdealPositive(numItems + 1, log2);
      ghost var t := Abs();
      numItems := numItems + 1;
      assert Abs() == t.(numItems := t.numItems + 1);
      AddToBkt(h);
    }

    /** The handle leaves its bucket and num_items goes down. */
    method DelItem(h: Handle, ghost i: nat)
      requires Valid() && numItems > 0 && var j := ToBkt(h.e.hashv, |buckets.chains|);
        i < |buckets.chains[j]| && buckets.chains[j][i] == h && h.e !in Elems(buckets.chains[j])[..i]
      modifies this`numItems, buckets, buckets.heads, buckets.counts, buckets.Handles()
      ensures Valid() && buckets.Handles() == old(buckets.Handles()) - {h} && h.home == null
      ensures Abs() == UtHash.DelInBkt(old(Abs()), h.e).(numItems := old(numItems) - 1)
    {
      DelInBkt(h, i);
      ghost var t := Abs();
      numItems := numItems - 1;
      assert Abs() == t.(numItems := t.numItems - 1);
    }

    lemma Alone(j: nat, i: nat)
      requires Valid() && j < |buckets.chains| && i < |buckets.chains[j]|
      ensures Once(buckets.chains, j, i)
    {
      var chains := buckets.chains;
      forall k, l | 0 <= k < |chains| && 0 <= l < |chains[k]| && (k != j || l != i)
        ensures chains[k][l] != chains[j][i]
      {
        ChainHomes(chains[k], buckets.heads[k], buckets, k);
        ChainHomes(chains[j], buckets.heads[j], buckets, j);
        if k == j { assert Distinct(chains[j]) by { assert Chained(0); } }
      }
    }

    lemma AddToBktIs(t: Table, e: Elem, j: nat, t1: Table)
      requires |t.buckets| > 0 && j == ToBkt(e.hashv, |t.buckets|) && Ideal(t.numItems, t.log2) > 0
      requires var b := t.buckets[j]; t1 == t.(buckets := t.buckets[j := Bucket([e] + b.chain, b.count + 1, b.mult)])
      ensures UtHash.AddToBkt(t, e) ==
        if t1.buckets[j].count >= (t1.buckets[j].mult + 1) * CAPACITY && !t1.noexpand then UtHash.Expand(t1) else t1
    {
    }

    /** HASH_DEL_IN_BKT for the handle in place `i` of its chain */
    method DelInBkt(h: Handle, ghost i: nat)
      requires Valid() && var j := ToBkt(h.e.hashv, |buckets.chains|);
        i < |buckets.chains[j]| && buckets.chains[j][i] == h && h.e !in Elems(buckets.chains[j])[..i]
      modifies buckets, buckets.heads, buckets.counts, buckets.Handles()
      ensures Valid() && Abs() == UtHash.DelInBkt(old(Abs()), h.e) && buckets.Handles() == old(buckets.Handles()) - {h}
      ensures h.home == null
    {
      var j := ToBkt(h.e.hashv, buckets.heads.Length);
      ghost var chains, hs := buckets.chains, buckets.Handles();
      forall k | 0 <= k < |chains[j]| ensures chains[j][k] in hs { }
      buckets.counts[j] := buckets.counts[j] - 1;
      Alone(j, i);
      buckets.Unlink(j, h, i);
      WithoutAt(chains[j], h, i);
      HandlesAfterUnlink(buckets, chains, j, i, hs);
    }
  }

  /** The handle in place `i` of chain `j` is nowhere else. */
  ghost predicate Once(chains: seq<seq<Handle>>, j: nat, i: nat)
    requires j < |chains| && i < |chains[j]|
  {
    forall k, l :: 0 <= k < |chains| && 0 <= l < |chains[k]| && (k != j || l != i) ==> chains[k][l] != chains[j][i]
  }

  lemma HandlesAfterUnlink(b: Buckets, chains: seq<seq<Handle>>, j: nat, i: nat, hs: set<Handle>)
    requires j < |chains| && i < |chains[j]| && Once(chains, j, i)
    requires b.chains == chains[j := chains[j][..i] + chains[j][i + 1..]]
    requires hs == set k, l | 0 <= k < |chains| && 0 <= l < |chains[k]| :: chains[k][l]
    ensures b.Handles() == hs - {chains[j][i]}
  {
    var q, h := chains[j], chains[j][i];
    forall x ensures x in b.Handles() <==> x in hs && x != h {
      if x in hs && x != h {
        var k, l :| 0 <= k < |chains| && 0 <= l < |chains[k]| && chains[k][l] == x;
        if k != j { assert b.chains[k][l] == x; }
        else if l < i { assert b.chains[k][l] == x; } else { assert b.chains[k][l - 1] == x; }
      }
      if x in b.Handles() {
        var k, l :| 0 <= k < |b.chains| && 0 <= l < |b.chains[k]| && b.chains[k][l] == x;
        if k != j { assert chains[k][l] == x; }
        else if l < i { assert chains[k][l] == x; } else { assert chains[k][l + 1] == x; }
      }
    }
  }

  lemma {:induction false} WithoutAtElem(q: seq<Elem>, e: Elem, i: nat)
    requires i < |q| && q[i] == e && e !in q[..i]
    ensures Without(q, e) == q[..i] + q[i + 1..]
  {
    if i > 0 {
      assert q[0] in q[..i];
      assert q[1..][..i - 1] == q[..i][1..];
      WithoutAtElem(q[1..], e, i - 1);
    }
  }

  lemma WithoutAt(q: seq<Handle>, h: Handle, i: nat)
    requires i < |q| && q[i] == h && h.e !in Elems(q)[..i]
    ensures Elems(q[..i] + q[i + 1..]) == Without(Elems(q), h.e)
  {
    WithoutAtElem(Elems(q), h.e, i);
  }

  ghost function Links(q: seq<Handle>): seq<UtList.Node> {
    seq(|q|, i requires 0 <= i < |q| => q[i].link)
  }

  /** A hash as an application holds it: the head and the tail of the list of all elements,
      and the table, which exists as long as there are elements. */
  class Uthash {
    const app: App.AppList
    var tbl: HashTable?
    ghost var items: seq<Handle>

    constructor ()
      ensures Valid() && Abs() == Null && items == [] && fresh(app)
    {
      app := new App.AppList();
      tbl, items := null, [];
    }

    /** The memory of the table and its handles. */
    ghost function Memory(): set<object>
      reads this, tbl, if tbl == null then {} else {tbl.buckets}
    {
      if tbl == null then {} else tbl.Footprint() + tbl.buckets.Handles()
    }

    ghost predicate TableValid()
      reads this, tbl, if tbl == null then {} else {tbl.buckets}, Memory()
    {
      if tbl == null then items == [] else items != [] && tbl.Valid() && tbl.buckets.Handles() == SetOf(items)
    }

    ghost predicate Valid()
      reads this, app, app.q, tbl, if tbl == null then {} else {tbl.buckets}, Memory()
    {
      app.Valid() && app.q == Links(items) && TableValid()
    }

    ghost function Abs(): Hash
      requires TableValid()
      reads this, tbl, if tbl == null then {} else {tbl.buckets}, Memory()
    {
      if tbl == null then Null else Hash(Elems(items), tbl.Abs())
    }

    lemma MemoryKinds()
      ensures this !in Memory() && app !in Memory() && forall n: UtList.Node :: n !in Memory()
    {
    }

    /** HASH_ADD_KEYPTR */
    method Add(h: Handle)
      requires Valid() && h !in items && h.link !in app.q && h.home == null
      modifies this, app, app.q`next, h.link`next, h.link`prev, Memory(), h
      ensures Valid() && Abs() == R.Add(old(Abs()), h.e) && items == old(items) + [h]
    {
      MemoryKinds();
      assert Links(items + [h]) == Links(items) + [h.link];
      AddLink(h);
      AddToTable(h);
    }

    /** The list part of HASH_ADD_KEYPTR */
    method AddLink(h: Handle)
      requires Valid() && h.link !in app.q
      modifies app, app.q`next, h.link`next, h.link`prev
      ensures app.Valid() && app.q == Links(items) + [h.link]
      ensures TableValid() && Abs() == old(Abs()) && Memory() == old(Memory()) && h.home == old(h.home)
    {
      MemoryKinds();
      app.Append(h.link);
    }

    /** The table part of HASH_ADD_KEYPTR */
    method AddToTable(h: Handle)
      requires TableValid() && h.home == null
      modifies this`tbl, this`items, Memory(), h
      ensures TableValid() && Abs() == R.Add(old(Abs()), h.e) && items == old(items) + [h]
    {
      MemoryKinds();
      var t: HashTable;
      if tbl == null {
        t := new HashTable();
      } else {
        t := tbl;
      }
      AddTo(t, h, Abs());
    }

    method AddTo(t: HashTable, h: Handle, ghost a: Hash)
      requires t.Valid() && t.buckets.Handles() == SetOf(items) && h.home == null
      requires R.Usable(a) && t.Abs() == (if a.Null? then NewTable() else a.tbl) && R.Items(a) == Elems(items)
      modifies this`tbl, this`items, t.Footprint(), t.buckets.Handles(), h
      ensures TableValid() && Abs() == R.Add(a, h.e) && items == old(items) + [h]
    {
      ghost var before := t.Abs();
      t.AddItem(h);
      AddIs(a, h.e, before, t.Abs());
      Record(t, h);
    }

    lemma AddIs(h: Hash, e: Elem, t: Table, t': Table)
      requires R.Usable(h) && t == (if h.Null? then NewTable() else h.tbl) && |t.buckets| > 0
      requires Ideal(t.numItems + 1, t.log2) > 0 && t' == UtHash.AddToBkt(t.(numItems := t.numItems + 1), e)
      ensures R.Add(h, e) == Hash(R.Items(h) + [e], t')
    {
    }

    method Record(t: HashTable, h: Handle)
      requires t.Valid() && t.buckets.Handles() == SetOf(items) + {h}
      modifies this`tbl, this`items
      ensures TableValid() && items == old(items) + [h] && Abs() == Hash(Elems(old(items)) + [h.e], old(t.Abs()))
    {
      assert Elems(items + [h]) == Elems(items) + [h.e];
      tbl := t;
      items := items + [h];
    }

    /** HASH_FIND */
    method Find(key: Key, hashv: nat) returns (out: Handle?)
      requires Valid()
      ensures R.Find(Abs(), key, hashv) == if out == null then None else Some(out.e)
      ensures out != null ==> out in items
    {
      out := null;
      if tbl != null {
        var j := ToBkt(hashv, tbl.buckets.heads.Length);
        out := tbl.buckets.FindInBkt(j, key);
        if out != null {
          assert out in tbl.buckets.Handles();
          assert out in SetOf(items);
        }
      }
    }

    /** HASH_DELETE of the element in place `p` of the application order */
    method Delete(h: Handle, ghost p: nat)
      requires Valid() && R.HashOk(Abs()) && p < |items| && items[p] == h
      modifies this, app, app.q`next, app.q`prev, Memory()
      ensures Valid() && Abs() == R.Delete(old(Abs()), h.e) && items == UtList.Cut(old(items), p)
      ensures app.q == UtList.Cut(old(app.q), p) && h.home == null
      ensures tbl == null || (tbl == old(tbl) && tbl.buckets == old(tbl.buckets))
    {
      DeleteIs(Abs(), items, h, p);
      app.Ends(h.link, p);
      if h.link.prev == null && h.link.next == null {
        DropTable(h);
      } else {
        RemoveLink(h, p);
        DeleteFromTable(h, p);
      }
    }

    /** The last element takes the table with it. */
    method DropTable(h: Handle)
      requires Valid() && items == [h]
      modifies this, app, h`home
      ensures Valid() && Abs() == Null && items == [] && app.q == [] && h.home == null
    {
      h.home := null;
      app.Clear();
      tbl, items := null, [];
    }

    /** The list part of HASH_DELETE */
    method RemoveLink(h: Handle, ghost p: nat)
      requires Valid() && p < |items| && items[p] == h
      modifies app, app.q`next, app.q`prev
      ensures app.Valid() && app.q == UtList.Cut(old(app.q), p) == Links(UtList.Cut(items, p))
      ensures TableValid() && Abs() == old(Abs())
    {
      MemoryKinds();
      app.Remove(h.link, p);
    }

    /** HASH_REPLACE by an element that is not in the hash, or is the one found under its own
        key: it would be linked twice if it were in the hash and not found. */
    method Replace(h: Handle) returns (replaced: Handle?)
      requires Valid() && R.HashOk(Abs())
      requires if h in items then R.Find(Abs(), h.e.key, h.e.hashv) == Some(h.e) else h.link !in app.q && h.home == null
      modifies this, app, app.q`next, app.q`prev, h.link`next, h.link`prev, Memory(), h
      ensures Valid() && Abs() == R.Replace(old(Abs()), h.e)
      ensures R.Find(old(Abs()), h.e.key, h.e.hashv) == if replaced == null then None else Some(replaced.e)
    {
      replaced := Find(h.e.key, h.e.hashv);
      if replaced != null {
        if h in items { SameHandle(replaced, h); }
        DeleteFound(replaced, h);
      }
      Add(h);
    }

    lemma SameHandle(a: Handle, b: Handle)
      requires TableValid() && R.HashOk(Abs()) && a in items && b in items && a.e == b.e
      ensures a == b
    {
      var i :| 0 <= i < |items| && items[i] == a;
      var j :| 0 <= j < |items| && items[j] == b;
      assert Elems(items)[i] == Elems(items)[j];
      assert R.NoDup(Elems(items));
    }

    /** HASH_DELETE; `other` is the element deleted, or not in the hash. */
    method DeleteFound(found: Handle, ghost other: Handle)
      requires Valid() && R.HashOk(Abs()) && found in items
      requires other == found || (other !in items && other.link !in app.q && other.home == null)
      modifies this, app, app.q`next, app.q`prev, Memory()
      ensures Valid() && Abs() == R.Delete(old(Abs()), found.e)
      ensures other !in items && other.link !in app.q && other.home == null
      ensures Memory() <= old(Memory()) && forall k :: 0 <= k < |app.q| ==> app.q[k] in old(app.q)
    {
      ghost var p :| 0 <= p < |items| && items[p] == found;
      if other != found { NotInMemory(other); }
      OnceOnly(p);
      ghost var was, mem := items, Memory();
      CutIn(items, p);
      CutIn(app.q, p);
      Delete(found, p);
      Smaller(was, mem);
    }

    lemma OnceOnly(p: nat)
      requires Valid() && R.HashOk(Abs()) && p < |items|
      ensures items[p] !in UtList.Cut(items, p) && items[p].link !in UtList.Cut(app.q, p)
    {
      app.Apart(p);
      assert app.q[p] == items[p].link;
      forall k | 0 <= k < |items| && k != p ensures items[k] != items[p] {
        assert app.q[k] == items[k].link;
      }
    }

    lemma NotInMemory(h: Handle)
      requires TableValid() && h !in items
      ensures h !in Memory()
    {
      assert h !in SetOf(items);
    }

    lemma Smaller(was: seq<Handle>, mem: set<object>)
      requires TableValid() && forall h :: h in items ==> h in was
      requires forall h :: h in was ==> h in mem
      requires tbl != null ==> tbl.Footprint() <= mem
      ensures Memory() <= mem
    {
      if tbl != null {
        forall h | h in tbl.buckets.Handles() ensures h in mem { assert h in SetOf(items); }
      }
    }

    /** HASH_SRT */
    method Sort(cmp: (UtList.Node, UtList.Node) -> int, ghost cmpElem: (Elem, Elem) -> int,
        ghost cmpHandle: (Handle, Handle) -> int)
      requires Valid() && Agree(items, cmp, cmpElem, cmpHandle)
      modifies this`items, app, app.q
      ensures Valid() && Abs() == R.Sort(old(Abs()), cmpElem) && items == Passes(old(items), 1, cmpHandle)
      ensures tbl == old(tbl)
      ensures tbl != null ==> tbl.buckets == old(tbl.buckets) && tbl.buckets.chains == old(tbl.buckets.chains)
    {
      MemoryKinds();
      PassesMap(items, 1, cmp, cmpElem, cmpHandle);
      SortedSet(items, cmpHandle);
      assert Passes(Links([]), 1, cmp) == [];
      SortLinks(cmp);
      Reorder(Passes(items, 1, cmpHandle));
    }

    method SortLinks(cmp: (UtList.Node, UtList.Node) -> int)
      requires app.Valid() && TableValid()
      modifies app, app.q
      ensures app.Valid() && app.q == if old(app.q) == [] then [] else Passes(old(app.q), 1, cmp)
      ensures TableValid() && Abs() == old(Abs())
    {
      MemoryKinds();
      var passes := app.Sort(cmp);
    }

    ghost method Reorder(r: seq<Handle>)
      requires app.Valid() && TableValid() && SetOf(r) == SetOf(items) && |r| == |items|
      modifies this`items
      ensures app.Valid() && TableValid() && items == r && app.q == old(app.q)
      ensures Abs() == if old(Abs()).Null? then Null else old(Abs()).(items := Elems(r))
    {
      items := r;
    }

    lemma SortedSet(q: seq<Handle>, cmpHandle: (Handle, Handle) -> int)
      ensures SetOf(Passes(q, 1, cmpHandle)) == SetOf(q) && |Passes(q, 1, cmpHandle)| == |q|
    {
      var r := Passes(q, 1, cmpHandle);
      PassesPermute(q, 1, cmpHandle);
      assert forall x :: x in r <==> x in multiset(r);
      assert forall x :: x in q <==> x in multiset(q);
    }

    lemma DeleteIs(a: Hash, items: seq<Handle>, h: Handle, p: nat)
      requires R.HashOk(a) && a.Hash? && a.items == Elems(items) && p < |items| && items[p] == h
      ensures a.tbl.numItems > 0 && h.e !in Elems(items)[..p]
      ensures R.Delete(a, h.e) == if |items| == 1 then Null
        else Hash(Elems(UtList.Cut(items, p)), UtHash.DelInBkt(a.tbl, h.e).(numItems := a.tbl.numItems - 1))
    {
      assert Elems(items)[p] == h.e;
      assert h.e in multiset(a.items);
      R.DelInBktKeeps(a.tbl, multiset(a.items), h.e);
      forall k | 0 <= k < p ensures Elems(items)[k] != h.e { assert a.items[k] != a.items[p]; }
      WithoutAt(items, h, p);
    }

    /** The table part of HASH_DELETE, while other elements remain */
    method DeleteFromTable(h: Handle, ghost p: nat)
      requires TableValid() && R.HashOk(Abs()) && p < |items| && items[p] == h && |items| > 1 && app.Valid()
      modifies this`items, Memory()
      ensures app.Valid() && app.q == old(app.q) && TableValid() && Abs() == R.Delete(old(Abs()), h.e)
      ensures items == UtList.Cut(old(items), p) && h.home == null
      ensures tbl == old(tbl) && tbl.buckets == old(tbl.buckets)
    {
      ghost var a := Abs();
      MemoryKinds();
      DeleteIs(a, items, h, p);
      assert h in tbl.buckets.Handles();
      ghost var i := PlaceInBucket(h);
      tbl.DelItem(h, i);
      CutSet(items, p);
      Shrink(p);
    }

    ghost method Shrink(p: nat)
      requires app.Valid() && p < |items| && |items| > 1
      requires tbl != null && tbl.Valid() && tbl.buckets.Handles() == SetOf(UtList.Cut(items, p))
      modifies this`items
      ensures app.Valid() && TableValid() && items == UtList.Cut(old(items), p)
      ensures Abs() == Hash(Elems(items), old(tbl.Abs()))
    {
      items := UtList.Cut(items, p);
    }

    lemma CutSet(q: seq<Handle>, p: nat)
      requires p < |q| && R.NoDup(Elems(q))
      ensures SetOf(UtList.Cut(q, p)) == SetOf(q) - {q[p]}
    {
      var r := UtList.Cut(q, p);
      forall k | 0 <= k < |q| && k != p ensures q[k] != q[p] && q[k] in r {
        assert if k < p then Elems(q)[k] != Elems(q)[p] else Elems(q)[p] != Elems(q)[k];
        assert if k < p then r[k] == q[k] else r[k - 1] == q[k];
      }
    }

    /** Where a handle of the table is in its chain; no equal element is before it. */
    lemma PlaceInBucket(h: Handle) returns (i: nat)
      requires tbl != null && TableValid() && R.HashOk(Abs()) && h in tbl.buckets.Handles()
      ensures var j := ToBkt(h.e.hashv, |tbl.buckets.chains|);
        i < |tbl.buckets.chains[j]| && tbl.buckets.chains[j][i] == h && h.e !in Elems(tbl.buckets.chains[j])[..i]
    {
      var t, bs := tbl.Abs(), tbl.buckets;
      var j, l :| 0 <= j < |bs.chains| && 0 <= l < |bs.chains[j]| && bs.chains[j][l] == h;
      i := l;
      var chain := t.buckets[j].chain;
      assert chain == Elems(bs.chains[j]) && chain[i] == h.e;
      assert BucketOk(t.buckets[j], j, |t.buckets|);
      R.MultisetNoDup(Elems(items));
      ChainInContent(t.buckets, |t.buckets|, j);
      R.NoDupMultiset(chain);
      forall k | 0 <= k < i ensures chain[k] != h.e { assert chain[k] != chain[i]; }
    }
  }

  lemma CutIn<T>(q: seq<T>, p: nat)
    requires p < |q|
    ensures forall k :: 0 <= k < |UtList.Cut(q, p)| ==> UtList.Cut(q, p)[k] in q
    ensures forall x :: x in UtList.Cut(q, p) ==> x in q
  {
  }

  lemma {:induction false} ChainInContent(bs: seq<Bucket>, m: nat, j: nat)
    requires j < m <= |bs|
    ensures multiset(bs[j].chain) <= ContentTo(bs, m)
  {
    if j < m - 1 { ChainInContent(bs, m - 1, j); }
  }

  /** The comparison functions say the same of list nodes, elements and handles. */
  ghost predicate Agree(q: seq<Handle>, cmp: (UtList.Node, UtList.Node) -> int, cmpElem: (Elem, Elem) -> int,
                        cmpHandle: (Handle, Handle) -> int) {
    forall x, y :: x in q && y in q ==> cmpHandle(x, y) == cmp(x.link, y.link) == cmpElem(x.e, y.e)
  }

  lemma {:induction false} MergeLinks(a: seq<Handle>, b: seq<Handle>, cmp: (UtList.Node, UtList.Node) -> int,
      cmpHandle: (Handle, Handle) -> int)
    requires forall x, y :: x in a && y in b ==> cmpHandle(x, y) == cmp(x.link, y.link)
    ensures Links(Merge(a, b, cmpHandle)) == Merge(Links(a), Links(b), cmp)
    decreases |a| + |b|
  {
    if a != [] && b != [] {
      assert Links(a)[1..] == Links(a[1..]) && Links(b)[1..] == Links(b[1..]);
      if cmpHandle(a[0], b[0]) <= 0 {
        MergeLinks(a[1..], b, cmp, cmpHandle);
        LinksConcat([a[0]], Merge(a[1..], b, cmpHandle));
      } else {
        MergeLinks(a, b[1..], cmp, cmpHandle);
        LinksConcat([b[0]], Merge(a, b[1..], cmpHandle));
      }
    }
  }

  lemma {:induction false} MergeElems(a: seq<Handle>, b: seq<Handle>, cmpElem: (Elem, Elem) -> int,
      cmpHandle: (Handle, Handle) -> int)
    requires forall x, y :: x in a && y in b ==> cmpHandle(x, y) == cmpElem(x.e, y.e)
    ensures Elems(Merge(a, b, cmpHandle)) == Merge(Elems(a), Elems(b), cmpElem)
    decreases |a| + |b|
  {
    if a != [] && b != [] {
      assert Elems(a)[1..] == Elems(a[1..]) && Elems(b)[1..] == Elems(b[1..]);
      if cmpHandle(a[0], b[0]) <= 0 {
        MergeElems(a[1..], b, cmpElem, cmpHandle);
        LinksConcat([a[0]], Merge(a[1..], b, cmpHandle));
      } else {
        MergeElems(a, b[1..], cmpElem, cmpHandle);
        LinksConcat([b[0]], Merge(a, b[1..], cmpHandle));
      }
    }
  }

  lemma {:induction false} PassMap(s: seq<Handle>, k: nat, cmp: (UtList.Node, UtList.Node) -> int,
                                   cmpElem: (Elem, Elem) -> int, cmpHandle: (Handle, Handle) -> int)
    requires k > 0 && Agree(s, cmp, cmpElem, cmpHandle)
    ensures Links(Pass(s, k, cmpHandle)) == Pass(Links(s), k, cmp)
    ensures Elems(Pass(s, k, cmpHandle)) == Pass(Elems(s), k, cmpElem)
  {
    if s != [] {
      var p, q := Min(k, |s|), Min(2 * k, |s|);
      Parts(s, p, q);
      MergeLinks(s[..p], s[p..q], cmp, cmpHandle);
      MergeElems(s[..p], s[p..q], cmpElem, cmpHandle);
      PassMap(s[q..], k, cmp, cmpElem, cmpHandle);
      LinksConcat(Merge(s[..p], s[p..q], cmpHandle), Pass(s[q..], k, cmpHandle));
    }
  }

  lemma LinksConcat(a: seq<Handle>, b: seq<Handle>)
    ensures Links(a + b) == Links(a) + Links(b) && Elems(a + b) == Elems(a) + Elems(b)
  {
  }

  lemma Parts(s: seq<Handle>, p: nat, q: nat)
    requires p <= q <= |s|
    ensures Links(s)[..p] == Links(s[..p]) && Links(s)[p..q] == Links(s[p..q]) && Links(s)[q..] == Links(s[q..])
    ensures Elems(s)[..p] == Elems(s[..p]) && Elems(s)[p..q] == Elems(s[p..q]) && Elems(s)[q..] == Elems(s[q..])
    ensures (forall x :: x in s[..p] ==> x in s) && (forall x :: x in s[p..q] ==> x in s)
    ensures forall x :: x in s[q..] ==> x in s
  {
  }

  /** Sorting the list sorts the elements. */
  lemma {:induction false} PassesMap(s: seq<Handle>, k: nat, cmp: (UtList.Node, UtList.Node) -> int,
                                     cmpElem: (Elem, Elem) -> int, cmpHandle: (Handle, Handle) -> int)
    requires k > 0 && Agree(s, cmp, cmpElem, cmpHandle)
    ensures Links(Passes(s, k, cmpHandle)) == Passes(Links(s), k, cmp)
    ensures Elems(Passes(s, k, cmpHandle)) == Passes(Elems(s), k, cmpElem)
    decreases |s| - k
  {
    PassMap(s, k, cmp, cmpElem, cmpHandle);
    PassPermutes(s, k, cmpHandle);
    if |s| > 2 * k {
      var r := Pass(s, k, cmpHandle);
      forall x | x in r ensures x in s { assert x in multiset(r); }
      PassesMap(r, 2 * k, cmp, cmpElem, cmpHandle);
    }
  }
}

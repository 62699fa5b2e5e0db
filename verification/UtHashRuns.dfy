/** The hash over whole runs: it keeps its integrity, and it behaves like the list of its
    elements in application order, in which keys are looked up. */
module UtHashRuns {
  import opened MergeSort
  import opened UtHash
  import opened UtHashTable

  // ----- the macros -----

  function Items(h: Hash): seq<Elem> {
    if h.Null? then [] else h.items
  }

  /** What an application must have for the macros to work on a head. */
  predicate Usable(h: Hash) {
    h.Hash? ==> |h.tbl.buckets| > 0
  }

  /** HASH_FIND; `hashv` is the hash value of the key. */
  function Find(h: Hash, key: Key, hashv: nat): Option<Elem>
    requires Usable(h)
  {
    if h.Null? then None else First(h.tbl.buckets[ToBkt(hashv, |h.tbl.buckets|)].chain, key)
  }

  /** HASH_ADD_KEYPTR */
  function Add(h: Hash, e: Elem): Hash
    requires Usable(h)
  {
    var t := if h.Null? then NewTable() else h.tbl;
    IdealPositive(t.numItems + 1, t.log2);
    Hash(Items(h) + [e], AddToBkt(t.(numItems := t.numItems + 1), e))
  }

  /** HASH_DELETE; an element without neighbours takes the table with it. A table counts at
      least one element (HashOk), so the last test only keeps the count natural. */
  function Delete(h: Hash, e: Elem): Hash
    requires Usable(h)
  {
    if h.Null? || h.items == [e] || h.tbl.numItems == 0 then Null
    else
      var t := DelInBkt(h.tbl, e);
      Hash(Without(h.items, e), t.(numItems := t.numItems - 1))
  }

  /** HASH_REPLACE; what is left after the deletion is always usable. */
  function Replace(h: Hash, e: Elem): Hash
    requires Usable(h)
  {
    match Find(h, e.key, e.hashv)
    case None => Add(h, e)
    case Some(old_) => var h' := Delete(h, old_); if Usable(h') then Add(h', e) else h'
  }

  /** HASH_SRT orders the application list and leaves the buckets alone. */
  function Sort(h: Hash, cmp: (Elem, Elem) -> int): Hash {
    if h.Null? then Null else h.(items := Passes(h.items, 1, cmp))
  }

  // ----- integrity -----

  ghost predicate NoDup(q: seq<Elem>) {
    forall i, j :: 0 <= i < j < |q| ==> q[i] != q[j]
  }

  /** What HASH_FSCK checks of counts and chains, and that the two views of the elements,
      by bucket and by application order, agree. */
  ghost predicate HashOk(h: Hash) {
    h.Hash? ==> h.items != [] && NoDup(h.items) && TableOk(h.tbl, multiset(h.items))
  }

  lemma NewTableOk()
    ensures TableOk(NewTable(), multiset{})
  {
    BlankContent(Pow2(INITIAL_LOG2), Pow2(INITIAL_LOG2));
    assert NewTable().buckets == Blank(Pow2(INITIAL_LOG2));
  }

  lemma SetBucket(bs: seq<Bucket>, j: nat, b: Bucket)
    requires BucketsOk(bs) && j < |bs| && BucketOk(b, j, |bs|)
    ensures BucketsOk(bs[j := b])
  {
  }

  lemma AddToBktKeeps(t: Table, items: multiset<Elem>, e: Elem)
    requires TableOk(t, items)
    ensures Ideal(t.numItems + 1, t.log2) > 0
    ensures TableOk(AddToBkt(t.(numItems := t.numItems + 1), e), items + multiset{e})
  {
    IdealPositive(t.numItems + 1, t.log2);
    var j := ToBkt(e.hashv, |t.buckets|);
    var b := t.buckets[j];
    assert BucketOk(b, j, |t.buckets|);
    var b' := Bucket([e] + b.chain, b.count + 1, b.mult);
    var t' := t.(numItems := t.numItems + 1, buckets := t.buckets[j := b']);
    SetBucket(t.buckets, j, b');
    PushContent(t.buckets, j, b', e);
    ExpandKeeps(t', items + multiset{e});
  }

  lemma {:induction false} WithoutMultiset(q: seq<Elem>, e: Elem)
    requires e in q
    ensures multiset(Without(q, e)) == multiset(q) - multiset{e} && |Without(q, e)| == |q| - 1
  {
    assert q == [q[0]] + q[1..];
    if q[0] != e { WithoutMultiset(q[1..], e); }
  }

  lemma {:induction false} WithoutSubset(q: seq<Elem>, e: Elem)
    ensures forall x :: x in Without(q, e) ==> x in q
  {
    if q != [] {
      assert q == [q[0]] + q[1..];
      WithoutSubset(q[1..], e);
    }
  }

  lemma {:induction false} WithoutIn(q: seq<Elem>, e: Elem)
    requires NoDup(q)
    ensures NoDup(Without(q, e)) && forall x :: x in Without(q, e) <==> x in q && x != e
  {
    if q != [] {
      assert q == [q[0]] + q[1..];
      assert NoDup(q[1..]);
      WithoutIn(q[1..], e);
      assert q[0] !in q[1..];
    }
  }

  lemma WithoutBucket(b: Bucket, e: Elem, j: nat, n: nat)
    requires n > 0 && BucketOk(b, j, n) && e in b.chain
    ensures BucketOk(Bucket(Without(b.chain, e), b.count - 1, b.mult), j, n)
  {
    WithoutMultiset(b.chain, e);
    WithoutSubset(b.chain, e);
  }

  lemma WithoutContent(bs: seq<Bucket>, j: nat, e: Elem, b: Bucket)
    requires j < |bs| && e in bs[j].chain && b.chain == Without(bs[j].chain, e)
    ensures Content(bs[j := b]) == Content(bs) - multiset{e}
  {
    WithoutMultiset(bs[j].chain, e);
    ContentUpdate(bs, j, b, |bs|);
    RemoveContent(Content(bs[j := b]), Content(bs), multiset(bs[j].chain), multiset(b.chain), e);
  }

  lemma DelInBktKeeps(t: Table, items: multiset<Elem>, e: Elem)
    requires TableOk(t, items) && e in items
    ensures t.numItems > 0
    ensures var t' := DelInBkt(t, e); TableOk(t'.(numItems := t'.numItems - 1), items - multiset{e})
  {
    var j := ToBkt(e.hashv, |t.buckets|);
    var b := t.buckets[j];
    InBucket(t, items, e);
    var b' := Bucket(Without(b.chain, e), b.count - 1, b.mult);
    WithoutBucket(b, e, j, |t.buckets|);
    SetBucket(t.buckets, j, b');
    WithoutContent(t.buckets, j, e, b');
    assert |items - multiset{e}| == |items| - 1;
  }

  lemma RemoveContent(a': multiset<Elem>, a: multiset<Elem>, c: multiset<Elem>, c': multiset<Elem>, e: Elem)
    requires a' + c == a + c' && c' == c - multiset{e} && e in c
    ensures a' == a - multiset{e}
  {
    assert c == c' + multiset{e};
    assert a' + multiset{e} == a by {
      assert (a' + multiset{e}) + c' == a + c';
      assert a' + multiset{e} == ((a' + multiset{e}) + c') - c';
      assert a == (a + c') - c';
    }
  }

  /** An element of the table is in its bucket. */
  lemma InBucket(t: Table, items: multiset<Elem>, e: Elem)
    requires TableOk(t, items)
    ensures e in items <==> e in t.buckets[ToBkt(e.hashv, |t.buckets|)].chain
  {
    InContent(t.buckets, |t.buckets|, e);
    if e in items {
      var j :| 0 <= j < |t.buckets| && e in t.buckets[j].chain;
      assert BucketOk(t.buckets[j], j, |t.buckets|);
    }
  }

  lemma AddKeeps(h: Hash, e: Elem)
    requires HashOk(h) && e !in Items(h)
    ensures HashOk(Add(h, e)) && Items(Add(h, e)) == Items(h) + [e]
  {
    var t, items := if h.Null? then NewTable() else h.tbl, multiset(Items(h));
    NewTableOk();
    AddToBktKeeps(t, items, e);
    Appended(Items(h), e);
  }

  lemma Appended(q: seq<Elem>, e: Elem)
    requires NoDup(q) && e !in q
    ensures NoDup(q + [e]) && multiset(q + [e]) == multiset(q) + multiset{e}
  {
    forall i, j | 0 <= i < j < |q + [e]| ensures (q + [e])[i] != (q + [e])[j] {
      assert (q + [e])[i] in q;
    }
  }

  lemma DeleteKeeps(h: Hash, e: Elem)
    requires HashOk(h) && e in Items(h)
    ensures HashOk(Delete(h, e)) && Items(Delete(h, e)) == Without(Items(h), e)
  {
    assert e in multiset(h.items);
    DelInBktKeeps(h.tbl, multiset(h.items), e);
    WithoutMultiset(h.items, e);
    WithoutIn(h.items, e);
    if h.items != [e] { assert |h.items| > 1; }
  }

  lemma SortKeeps(h: Hash, cmp: (Elem, Elem) -> int)
    requires HashOk(h)
    ensures HashOk(Sort(h, cmp)) && Items(Sort(h, cmp)) == Passes(Items(h), 1, cmp)
  {
    PassesPermute(Items(h), 1, cmp);
    PassesNoDup(Items(h), cmp);
  }

  lemma PassesNoDup(q: seq<Elem>, cmp: (Elem, Elem) -> int)
    requires NoDup(q)
    ensures NoDup(Passes(q, 1, cmp))
  {
    PassesPermute(q, 1, cmp);
    MultisetNoDup(q);
    NoDupMultiset(Passes(q, 1, cmp));
  }

  lemma {:induction false} MultisetNoDup(q: seq<Elem>)
    requires NoDup(q)
    ensures forall x :: multiset(q)[x] <= 1
  {
    if q != [] {
      assert q == [q[0]] + q[1..];
      assert NoDup(q[1..]);
      MultisetNoDup(q[1..]);
      assert q[0] !in q[1..];
    }
  }

  lemma NoDupMultiset(q: seq<Elem>)
    requires forall x :: multiset(q)[x] <= 1
    ensures NoDup(q)
  {
    forall i, j | 0 <= i < j < |q| ensures q[i] != q[j] {
      if q[i] == q[j] { Twice(q, i, j); }
    }
  }

  lemma Twice(q: seq<Elem>, i: nat, j: nat)
    requires i < j < |q| && q[i] == q[j]
    ensures multiset(q)[q[i]] >= 2
  {
    assert q == q[..i] + [q[i]] + q[i + 1..j] + [q[j]] + q[j + 1..];
  }

  // ----- finding -----

  lemma {:induction false} FirstMeans(q: seq<Elem>, key: Key)
    ensures match First(q, key)
      case None => forall e :: e in q ==> e.key != key
      case Some(e) => e in q && e.key == key
  {
    if q != [] && q[0].key != key {
      FirstMeans(q[1..], key);
      assert q == [q[0]] + q[1..];
    }
  }

  ghost predicate Hashed(q: seq<Elem>, hash: Key -> nat) {
    forall e :: e in q ==> e.hashv == hash(e.key)
  }

  ghost predicate UniqueKeys(q: seq<Elem>) {
    forall i, j :: 0 <= i < j < |q| ==> q[i].key != q[j].key
  }

  /** HASH_FIND finds an element with the key exactly if there is one. */
  lemma FindMeans(h: Hash, key: Key, hash: Key -> nat)
    requires HashOk(h) && Hashed(Items(h), hash)
    ensures match Find(h, key, hash(key))
      case None => forall e :: e in Items(h) ==> e.key != key
      case Some(e) => e in Items(h) && e.key == key
  {
    if h.Hash? {
      var j := ToBkt(hash(key), |h.tbl.buckets|);
      var chain := h.tbl.buckets[j].chain;
      FirstMeans(chain, key);
      forall e | e in Items(h) && e.key == key ensures e in chain {
        assert e in multiset(h.items);
        InBucket(h.tbl, multiset(h.items), e);
      }
      forall e | e in chain ensures e in Items(h) {
        InContent(h.tbl.buckets, |h.tbl.buckets|, e);
        assert e in multiset(h.items);
      }
    }
  }

  // ----- runs -----

  datatype Label = AddElem(e: Elem) | DeleteElem(e: Elem) | ReplaceElem(e: Elem) | SortBy(cmp: (Elem, Elem) -> int)

  ghost predicate HasKey(q: seq<Elem>, key: Key) {
    exists e :: e in q && e.key == key
  }

  /** What the macros require: new elements have new keys, deleted ones are in the hash, and
      hash values come from the hash function. */
  ghost predicate Allowed(q: seq<Elem>, l: Label, hash: Key -> nat) {
    match l
    case AddElem(e) => e.hashv == hash(e.key) && !HasKey(q, e.key)
    case DeleteElem(e) => e in q
    case ReplaceElem(e) => e.hashv == hash(e.key)
    case SortBy(_) => true
  }

  function Step(h: Hash, l: Label): Hash {
    if !Usable(h) then h
    else
      match l
      case AddElem(e) => Add(h, e)
      case DeleteElem(e) => Delete(h, e)
      case ReplaceElem(e) => Replace(h, e)
      case SortBy(cmp) => Sort(h, cmp)
  }

  function Run(run: seq<Label>): Hash {
    if run == [] then Null else Step(Run(run[..|run| - 1]), run[|run| - 1])
  }

  /** The elements without the one that has the key. */
  function WithoutKey(q: seq<Elem>, key: Key): seq<Elem> {
    if q == [] then [] else if q[0].key == key then q[1..] else [q[0]] + WithoutKey(q[1..], key)
  }

  /** The same operations on a plain list. */
  function ListStep(q: seq<Elem>, l: Label): seq<Elem> {
    match l
    case AddElem(e) => q + [e]
    case DeleteElem(e) => Without(q, e)
    case ReplaceElem(e) => WithoutKey(q, e.key) + [e]
    case SortBy(cmp) => Passes(q, 1, cmp)
  }

  function ListRun(run: seq<Label>): seq<Elem> {
    if run == [] then [] else ListStep(ListRun(run[..|run| - 1]), run[|run| - 1])
  }

  ghost predicate AllowedRun(run: seq<Label>, hash: Key -> nat) {
    run == [] || (AllowedRun(run[..|run| - 1], hash) && Allowed(ListRun(run[..|run| - 1]), run[|run| - 1], hash))
  }

  ghost predicate Good(h: Hash, q: seq<Elem>, hash: Key -> nat) {
    HashOk(h) && Items(h) == q && Hashed(q, hash) && UniqueKeys(q)
  }

  lemma {:induction false} WithoutIsWithoutKey(q: seq<Elem>, e: Elem)
    requires UniqueKeys(q) && e in q
    ensures Without(q, e) == WithoutKey(q, e.key)
  {
    assert q == [q[0]] + q[1..];
    if q[0] == e {
    } else {
      var i :| 0 <= i < |q| && q[i] == e;
      assert q[0].key != q[i].key;
      assert UniqueKeys(q[1..]);
      WithoutIsWithoutKey(q[1..], e);
    }
  }

  lemma {:induction false} NoSuchKey(q: seq<Elem>, key: Key)
    requires !HasKey(q, key)
    ensures WithoutKey(q, key) == q
  {
    if q != [] {
      assert q == [q[0]] + q[1..];
      assert !HasKey(q[1..], key);
      NoSuchKey(q[1..], key);
    }
  }

  lemma HeadKey(q: seq<Elem>)
    requires UniqueKeys(q) && q != []
    ensures UniqueKeys(q[1..]) && forall x :: x in q[1..] ==> x.key != q[0].key
  {
    forall x | x in q[1..] ensures x.key != q[0].key {
      var i :| 0 <= i < |q| - 1 && q[1..][i] == x;
      assert q[0].key != q[i + 1].key;
    }
  }

  lemma {:induction false} UniqueWithout(q: seq<Elem>, e: Elem)
    requires UniqueKeys(q)
    ensures UniqueKeys(Without(q, e)) && (e in q ==> !HasKey(Without(q, e), e.key))
  {
    if q != [] {
      HeadKey(q);
      if q[0] != e {
        UniqueWithout(q[1..], e);
        WithoutSubset(q[1..], e);
        var r := Without(q[1..], e);
        assert forall k :: 0 <= k < |r| ==> r[k] in q[1..];
        assert Without(q, e) == [q[0]] + r;
      }
    }
  }

  lemma AddGood(h: Hash, q: seq<Elem>, e: Elem, hash: Key -> nat)
    requires Good(h, q, hash) && e.hashv == hash(e.key) && !HasKey(q, e.key)
    ensures Good(Add(h, e), q + [e], hash)
  {
    assert e !in q;
    AddKeeps(h, e);
    forall i, j | 0 <= i < j < |q + [e]| ensures (q + [e])[i].key != (q + [e])[j].key {
      assert i < |q| ==> (q + [e])[i] in q;
    }
  }

  lemma DeleteGood(h: Hash, q: seq<Elem>, e: Elem, hash: Key -> nat)
    requires Good(h, q, hash) && e in q
    ensures Good(Delete(h, e), Without(q, e), hash)
  {
    DeleteKeeps(h, e);
    UniqueWithout(q, e);
    WithoutSubset(q, e);
  }

  lemma ReplaceGood(h: Hash, q: seq<Elem>, e: Elem, hash: Key -> nat)
    requires Good(h, q, hash) && e.hashv == hash(e.key)
    ensures Good(Replace(h, e), WithoutKey(q, e.key) + [e], hash)
  {
    FindMeans(h, e.key, hash);
    match Find(h, e.key, e.hashv)
    case None =>
      NoSuchKey(q, e.key);
      AddGood(h, q, e, hash);
    case Some(found) =>
      DeleteGood(h, q, found, hash);
      WithoutIsWithoutKey(q, found);
      UniqueWithout(q, found);
      WithoutSubset(q, found);
      AddGood(Delete(h, found), Without(q, found), e, hash);
  }

  lemma SortGood(h: Hash, q: seq<Elem>, cmp: (Elem, Elem) -> int, hash: Key -> nat)
    requires Good(h, q, hash)
    ensures Good(Sort(h, cmp), Passes(q, 1, cmp), hash)
  {
    SortKeeps(h, cmp);
    PassesPermute(q, 1, cmp);
    var r := Passes(q, 1, cmp);
    assert forall e :: e in r ==> e in multiset(r);
    forall i, j | 0 <= i < j < |r| ensures r[i].key != r[j].key {
      assert r[i] in multiset(r) && r[j] in multiset(r);
      assert r[i] in q && r[j] in q;
      var a :| 0 <= a < |q| && q[a] == r[i];
      var b :| 0 <= b < |q| && q[b] == r[j];
      PassesNoDup(q, cmp) by { assert NoDup(q); }
      assert a != b;
      if a < b { assert q[a].key != q[b].key; } else { assert q[b].key != q[a].key; }
    }
  }

  lemma {:induction false} RunGood(run: seq<Label>, hash: Key -> nat)
    requires AllowedRun(run, hash)
    ensures Good(Run(run), ListRun(run), hash)
  {
    if run != [] {
      var before, l := run[..|run| - 1], run[|run| - 1];
      RunGood(before, hash);
      var h, q := Run(before), ListRun(before);
      match l
      case AddElem(e) => AddGood(h, q, e, hash);
      case DeleteElem(e) => DeleteGood(h, q, e, hash);
      case ReplaceElem(e) => ReplaceGood(h, q, e, hash);
      case SortBy(cmp) => SortGood(h, q, cmp, hash);
    }
  }

  /** After any run of additions, deletions, replacements and sorts, with any number of
      expansions: the application list is what the plain list is, HASH_FIND finds in it the
      one element with the key if there is one, and counts and buckets are in order. */
  lemma HashIsList(run: seq<Label>, hash: Key -> nat, key: Key)
    requires AllowedRun(run, hash)
    ensures Items(Run(run)) == ListRun(run) && HashOk(Run(run)) && UniqueKeys(ListRun(run))
    ensures match Find(Run(run), key, hash(key))
      case None => !HasKey(ListRun(run), key)
      case Some(e) => e in ListRun(run) && e.key == key && forall e' :: e' in ListRun(run) && e'.key == key ==> e' == e
  {
    RunGood(run, hash);
    FoundIsTheOne(Run(run), ListRun(run), key, hash);
  }

  lemma FoundIsTheOne(h: Hash, q: seq<Elem>, key: Key, hash: Key -> nat)
    requires Good(h, q, hash)
    ensures match Find(h, key, hash(key))
      case None => !HasKey(q, key)
      case Some(e) => e in q && e.key == key && forall e' :: e' in q && e'.key == key ==> e' == e
  {
    FindMeans(h, key, hash);
    var f := Find(h, key, hash(key));
    if f.Some? {
      forall e' | e' in q && e'.key == key ensures e' == f.value {
        SameKey(q, e', f.value);
      }
    }
  }

  lemma SameKey(q: seq<Elem>, a: Elem, b: Elem)
    requires UniqueKeys(q) && a in q && b in q && a.key == b.key
    ensures a == b
  {
    var i :| 0 <= i < |q| && q[i] == a;
    var j :| 0 <= j < |q| && q[j] == b;
    assert i == j;
  }
}

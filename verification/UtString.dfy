/** The substring search of utstring.h: Knuth-Morris-Pratt in both directions. */
module UtString {
  import opened Kmp

  /** The largest int; the searches cast both lengths to int. */
  const INT_MAX := 0x7fff_ffff

  /** Left to right: entry `i` is the strong failure value at `i`. */
  ghost predicate IsTable(p: string, t: seq<int>, n: int) {
    n <= |t| && forall k :: 0 <= k < n ==> StrongFail(p, k, t[k])
  }

  /** What the table builder stores at `i` when `j` is the longest proper border there. */
  lemma StoreKeepsTable(p: string, t: seq<int>, i: int, j: int, v: int)
    requires 0 <= j < i <= |p| && i < |t| && IsTable(p, t, i) && Longest(p, p, i, j, i)
    requires v == if i < |p| && p[i] == p[j] then t[j] else j
    ensures IsTable(p, t[i := v], i + 1)
  {
    assert StrongFail(p, j, t[j]);
    StrongFailStep(p, i, j, t[j]);
  }

  /** A right-to-left table read in the mirror: both its indices and its entries,
      which are needle positions, are mirrored. */
  ghost function MirrorTable(t: seq<int>): (r: seq<int>)
    ensures |r| == |t|
  {
    seq(|t|, k requires 0 <= k < |t| => |t| - 2 - t[|t| - 1 - k])
  }

  /** The right-to-left table is the mirror image of the left-to-right table of the mirrored needle. */
  ghost predicate IsTableR(p: string, t: seq<int>, n: int) {
    |t| == |p| + 1 && IsTable(Mirror(p), MirrorTable(t), n)
  }

  lemma MirrorTableUpdate(t: seq<int>, t': seq<int>, x: int, x': int, v': int)
    requires 0 <= x < |t| && x' == |t| - 1 - x
    requires |t'| == |t| && t' == t[x := t'[x]] && v' == |t| - 2 - t'[x]
    ensures MirrorTable(t') == MirrorTable(t)[x' := v']
  {
  }

  lemma MirrorTableAt(t: seq<int>, k: int, k': int)
    requires 0 <= k < |t| && k' == |t| - 1 - k
    ensures MirrorTable(t)[k] == |t| - 2 - t[k']
  {
  }

  /** The inner loop of table construction and of search, from left to right: from a
      match of length `start` before position `at`, follow failure links to the longest
      match that `ch`, the character at `at`, extends. `steps` counts the links. */
  method FallBack(needle: string, table: array<int>, start: int, ch: char, ghost text: string, ghost at: int,
      ghost lim: int)
    returns (i: int, ghost steps: nat)
    requires -1 <= start < lim <= |needle| && 0 <= at < |text| && text[at] == ch
    requires IsTable(needle, table[..], lim)
    requires start >= 0 ==> Match(needle, text, at, start)
    requires NoLongerExtension(needle, text, at, start, lim)
    ensures -1 <= i <= start && steps <= start - i
    ensures Longest(needle, text, at + 1, i + 1, lim + 1)
  {
    i, steps := start, 0;
    while i > -1 && needle[i] != ch
      invariant -1 <= i <= start && steps <= start - i
      invariant i >= 0 ==> Match(needle, text, at, i)
      invariant NoLongerExtension(needle, text, at, i, lim)
      decreases i
    {
      assert StrongFail(needle, i, table[..][i]);
      FailureSkipsNothing(needle, text, at, i, table[i], lim);
      i := table[i];
      steps := steps + 1;
    }
    Advance(needle, text, at, i, lim);
  }

  /** Fills the table from left to right. `steps` counts the failure links followed. */
  method BuildTable(needle: string, table: array<int>) returns (ghost steps: nat)
    requires table.Length == |needle| + 1
    modifies table
    ensures IsTable(needle, table[..], |needle| + 1)
    ensures steps <= |needle|
  {
    var i, j := 0, -1;
    steps := 0;
    table[i] := j;
    while i < |needle|
      invariant 0 <= i <= |needle| && -1 <= j < i && steps + j < i
      invariant if i == 0 then j == -1 else Longest(needle, needle, i, j, i)
      invariant IsTable(needle, table[..], i + 1)
    {
      ghost var links;
      j, links := FallBack(needle, table, j, needle[i], needle, i, i);
      steps := steps + links;
      i, j := i + 1, j + 1;
      StoreKeepsTable(needle, table[..], i, j, if i < |needle| && needle[i] == needle[j] then table[j] else j);
      ghost var before := table[..];
      if i < |needle| {
        if needle[i] == needle[j] {
          table[i] := table[j];
        } else {
          table[i] := j;
        }
      } else {
        table[i] := j;
      }
      assert table[..] == before[i := table[i]];
    }
  }

  /** The inner loop from right to left; `p`, `t`, `text`, `at` and `lim` describe it in the mirror. */
  method FallBackR(needle: string, table: array<int>, start: int, ch: char,
                   ghost p: string, ghost t: seq<int>, ghost text: string, ghost at: int, ghost lim: int)
    returns (i: int, ghost steps: nat)
    requires IsMirror(needle, p) && table.Length == |needle| + 1 && t == MirrorTable(table[..])
    requires -1 <= |needle| - 1 - start < lim <= |needle| && 0 <= at < |text| && text[at] == ch
    requires IsTable(p, t, lim)
    requires start < |needle| ==> Match(p, text, at, |needle| - 1 - start)
    requires NoLongerExtension(p, text, at, |needle| - 1 - start, lim)
    ensures start <= i <= |needle| && steps <= i - start
    ensures Longest(p, text, at + 1, |needle| - i, lim + 1)
  {
    i, steps := start, 0;
    ghost var i' := |needle| - 1 - start;
    while i < |needle| && needle[i] != ch
      invariant i' == |needle| - 1 - i && start <= i <= |needle| && steps <= i - start
      invariant i' >= 0 ==> Match(p, text, at, i')
      invariant NoLongerExtension(p, text, at, i', lim)
      decreases i'
    {
      MirrorAt(needle, p, i, i');
      assert StrongFail(p, i', t[i']);
      FailureSkipsNothing(p, text, at, i', t[i'], lim);
      MirrorTableAt(table[..], i', i + 1);
      i := table[i + 1];
      i', steps := t[i'], steps + 1;
    }
    if i < |needle| { MirrorAt(needle, p, i, i'); }
    Advance(p, text, at, i', lim);
  }

  /** One entry of the table: in the mirror it is the next one. */
  method StoreR(needle: string, table: array<int>, i: int, j: int, ghost mirror: string, ghost i': int, ghost j': int)
    requires IsMirror(needle, mirror) && table.Length == |needle| + 1
    requires -1 <= i < j < |needle| && i' == |needle| - 1 - i && j' == |needle| - 1 - j
    requires IsTable(mirror, MirrorTable(table[..]), i') && Longest(mirror, mirror, i', j', i')
    modifies table
    ensures IsTable(mirror, MirrorTable(table[..]), i' + 1)
  {
    ghost var before, t, v := table[..], MirrorTable(table[..]), j';
    MirrorTableAt(before, j', j + 1);
    if i >= 0 {
      assert needle[i] == needle[j] <==> mirror[i'] == mirror[j'] by {
        MirrorAt(needle, mirror, i, i');
        MirrorAt(needle, mirror, j, j');
      }
      if needle[i] == needle[j] {
        table[i + 1] := table[j + 1];
        v := t[j'];
      } else {
        table[i + 1] := j;
      }
    } else {
      table[i + 1] := j;
    }
    assert table[..] == before[i + 1 := table[i + 1]];
    MirrorTableUpdate(before, table[..], i + 1, i', v);
    StoreKeepsTable(mirror, t, i', j', v);
  }

  /** Fills the table from right to left: the same loop, seen in the mirror. */
  method BuildTableR(needle: string, table: array<int>) returns (ghost steps: nat)
    requires table.Length == |needle| + 1
    modifies table
    ensures IsTableR(needle, table[..], |needle| + 1)
    ensures steps <= |needle|
  {
    ghost var m, i', j' := |needle|, 0, -1;
    ghost var mirror := TheMirror(needle);
    var i, j := |needle| - 1, |needle|;
    steps := 0;
    table[i + 1] := j;
    ghost var t := MirrorTable(table[..]);
    while i >= 0
      invariant i' == m - 1 - i && j' == m - 1 - j
      invariant 0 <= i' <= m && -1 <= j' < i' && steps + j' < i'
      invariant if i' == 0 then j' == -1 else Longest(mirror, mirror, i', j', i')
      invariant t == MirrorTable(table[..]) && IsTable(mirror, t, i' + 1)
    {
      ghost var links;
      MirrorAt(needle, mirror, i, i');
      j, links := FallBackR(needle, table, j, needle[i], mirror, t, mirror, i', i');
      steps := steps + links;
      i', j' := i' + 1, m - j;
      i, j := i - 1, j - 1;
      StoreR(needle, table, i, j, mirror, i', j');
      t := MirrorTable(table[..]);
    }
    MirrorIsUnique(needle, mirror);
  }

  /** Searches from left to right with a prepared table: the first occurrence, or -1. */
  method FindWith(haystack: string, needle: string, table: array<int>) returns (pos: int, ghost steps: nat)
    requires 0 < |needle| <= INT_MAX && |haystack| <= INT_MAX
    requires IsTable(needle, table[..], |needle| + 1)
    ensures pos == -1 ==> NoneEndsBy(haystack, needle, |haystack|)
    ensures pos != -1 ==> OccursAt(haystack, needle, pos) && NoneEndsBy(haystack, needle, pos + |needle| - 1)
    ensures steps <= |haystack|
  {
    var i, j := 0, 0;
    pos, steps := -1, 0;
    while j < |haystack| && |haystack| - j + i >= |needle|
      invariant 0 <= i < |needle| && i <= j <= |haystack| && steps + i <= j
      invariant Longest(needle, haystack, j, i, |needle| + 1)
      invariant NoneEndsBy(haystack, needle, j)
    {
      ghost var links;
      i, links := FallBack(needle, table, i, haystack[j], haystack, j, |needle|);
      steps := steps + links;
      i, j := i + 1, j + 1;
      if i >= |needle| {
        FullMatchIsOccurrence(needle, haystack, j);
        pos := j - i;
        return;
      }
      NoneEndsHere(haystack, needle, j, i);
    }
    NoneIsLeft(haystack, needle, j, i);
  }

  /** Searches from right to left with a prepared table: the last occurrence, or -1. */
  method FindWithR(haystack: string, needle: string, table: array<int>) returns (pos: int, ghost steps: nat)
    requires 0 < |needle| <= INT_MAX && |haystack| <= INT_MAX
    requires IsTableR(needle, table[..], |needle| + 1)
    ensures pos == -1 ==> forall q :: !OccursAt(haystack, needle, q)
    ensures pos != -1 ==> OccursAt(haystack, needle, pos) && forall q :: pos < q ==> !OccursAt(haystack, needle, q)
    ensures steps <= |haystack|
  {
    ghost var m, n, i', j' := |needle|, |haystack|, 0, 0;
    ghost var p := TheMirror(needle);
    ghost var h := TheMirror(haystack);
    ghost var t := MirrorTable(table[..]);
    assert IsTable(p, t, m + 1) by { MirrorIsUnique(needle, p); }
    var j, i := |haystack| - 1, |needle| - 1;
    pos, steps := -1, 0;
    while j >= 0 && j >= i
      invariant i' == m - 1 - i && j' == n - 1 - j
      invariant 0 <= i' < m && i' <= j' <= n && steps + i' <= j'
      invariant Longest(p, h, j', i', m + 1)
      invariant NoneEndsBy(h, p, j')
    {
      ghost var links;
      MirrorAt(haystack, h, j, j');
      i, links := FallBackR(needle, table, i, haystack[j], p, t, h, j', m);
      steps := steps + links;
      i, j := i - 1, j - 1;
      i', j' := m - 1 - i, j' + 1;
      if i < 0 {
        FullMatchIsOccurrence(p, h, j');
        LastInMirror(haystack, needle, h, p, j', j + 1);
        pos := j + 1;
        return;
      }
      NoneEndsHere(h, p, j', i');
    }
    NoneIsLeft(h, p, j', i');
    NoneInMirror(haystack, needle, h, p);
  }

  /** The dynamic string: `d` is the buffer and `i` the number of characters in use. */
  class UTString {
    var d: array<char>
    var i: nat

    ghost predicate Valid()
      reads this, d
    {
      i < d.Length && d[i] == '\0'
    }

    function Body(): string
      requires Valid()
      reads this, d
    {
      d[..i]
    }

    /** The first occurrence at or after the start position, or -1. A negative start counts
        from the end: -1 is the last character. */
    method Find(start: int, needle: string) returns (pos: int, ghost steps: nat)
      requires Valid() && i <= INT_MAX && |needle| <= INT_MAX
      requires 0 <= i + start
      ensures var from := if start < 0 then i + start else start;
        && (pos == -1 <==> needle == "" || forall q :: from <= q ==> !OccursAt(Body(), needle, q))
        && (pos != -1 ==> from <= pos && OccursAt(Body(), needle, pos))
        && (pos != -1 ==> forall q :: from <= q < pos ==> !OccursAt(Body(), needle, q))
      ensures steps <= |needle| + i
    {
      var startPosition := if start < 0 then i + start else start;
      var haystackLen := i - startPosition;
      pos, steps := -1, 0;
      ghost var body := Body();
      if haystackLen >= |needle| && |needle| > 0 {
        var table := new int[|needle| + 1];
        ghost var built := BuildTable(needle, table);
        var haystack := d[startPosition..startPosition + haystackLen];
        assert haystack == body[startPosition..];
        ghost var searched: nat;
        pos, searched := FindWith(haystack, needle, table);
        steps := built + searched;
        forall q | startPosition <= q
          ensures OccursAt(body, needle, q) <==> OccursAt(haystack, needle, q - startPosition)
        {
          OccursInSuffix(body, startPosition, needle, q);
        }
        if pos >= 0 {
          pos := pos + startPosition;
        }
        assert Body() == body && (pos >= 0 ==> OccursAt(body, needle, pos));
      }
    }

    /** The string with its NUL, where a search from position `i` may begin. */
    function Terminated(): string
      requires Valid()
      reads this, d
    {
      d[..i + 1]
    }

    /** The last occurrence that ends at or before the start position, or -1. A negative start
        counts from the end. */
    method FindR(start: int, needle: string) returns (pos: int, ghost steps: nat)
      requires Valid() && i <= INT_MAX && |needle| <= INT_MAX
      requires start <= i && start < INT_MAX
      ensures var end := (if start < 0 then i + start else start) + 1;
        && (pos == -1 <==> needle == "" || forall q :: q + |needle| <= end ==> !OccursAt(Terminated(), needle, q))
        && (pos != -1 ==> OccursAt(Terminated(), needle, pos) && pos + |needle| <= end)
        && (pos != -1 ==> forall q :: pos < q && q + |needle| <= end ==> !OccursAt(Terminated(), needle, q))
      ensures steps <= |needle| + i + 1
    {
      var startPosition := if start < 0 then i + start else start;
      var haystackLen := startPosition + 1;
      pos, steps := -1, 0;
      ghost var text := Terminated();
      if haystackLen >= |needle| && |needle| > 0 {
        var table := new int[|needle| + 1];
        ghost var built := BuildTableR(needle, table);
        var haystack := d[..haystackLen];
        assert haystack == text[..haystackLen];
        ghost var searched: nat;
        pos, searched := FindWithR(haystack, needle, table);
        steps := built + searched;
        forall q | q + |needle| <= haystackLen
          ensures OccursAt(text, needle, q) <==> OccursAt(haystack, needle, q)
        {
          OccursInPrefix(text, haystackLen, needle, q);
        }
        assert Terminated() == text && (pos >= 0 ==> OccursAt(text, needle, pos));
      }
    }

    /** Before its NUL the string is what it is with it. */
    lemma OccursInBody(p: string, q: int)
      requires Valid() && q + |p| <= i
      ensures OccursAt(Terminated(), p, q) <==> OccursAt(Body(), p, q)
    {
      assert Body() == Terminated()[..i];
      OccursInPrefix(Terminated(), i, p, q);
    }
  }

  lemma OccursInSuffix(s: string, from: int, p: string, q: int)
    requires 0 <= from <= |s| && from <= q
    ensures OccursAt(s, p, q) <==> OccursAt(s[from..], p, q - from)
  {
    if q + |p| <= |s| {
      assert s[q..q + |p|] == s[from..][q - from..q - from + |p|];
    }
  }

  lemma OccursInPrefix(s: string, to: int, p: string, q: int)
    requires 0 <= to <= |s| && q + |p| <= to
    ensures OccursAt(s, p, q) <==> OccursAt(s[..to], p, q)
  {
    if 0 <= q {
      assert s[q..q + |p|] == s[..to][q..q + |p|];
    }
  }
}

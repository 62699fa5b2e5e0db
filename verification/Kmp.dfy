/** Substring matching as mathematics: matched prefixes, borders, the strong
    failure function and first occurrences.  Nothing here knows about tables. */
module Kmp {

  /** `p` occurs in `h` at position `q`. */
  ghost predicate OccursAt(h: string, p: string, q: int) {
    0 <= q <= |h| - |p| && h[q..q + |p|] == p
  }

  /** The first `i` characters of `p` are the `i` characters of `h` that end before `j`. */
  ghost predicate Match(p: string, h: string, j: int, i: int) {
    0 <= i <= |p| && i <= j <= |h| && p[..i] == h[j - i..j]
  }

  /** `t` is the strong failure value of `p` at `i`: the longest proper border of
      `p[..i]` that is followed by a character other than `p[i]`, or -1. At the
      end of the pattern nothing follows, so there every border qualifies. */
  ghost predicate StrongFail(p: string, i: int, t: int) {
    && 0 <= i <= |p| && -1 <= t < i
    && (t >= 0 ==> Match(p, p, i, t) && (i < |p| ==> p[t] != p[i]))
    && (forall k :: t < k < i && Match(p, p, i, k) ==> i < |p| && p[k] == p[i])
  }

  /** No match of length strictly between `i` and `lim` could be extended by `h[j]`. */
  ghost predicate NoLongerExtension(p: string, h: string, j: int, i: int, lim: int)
    requires 0 <= j < |h| && lim <= |p|
  {
    forall k :: 0 <= k && i < k < lim && Match(p, h, j, k) ==> p[k] != h[j]
  }

  /** No match that is longer than `i` and shorter than `lim` ends before `j`. */
  ghost predicate Longest(p: string, h: string, j: int, i: int, lim: int) {
    Match(p, h, j, i) && forall k :: i < k < lim ==> !Match(p, h, j, k)
  }

  lemma MatchGivesBorder(p: string, h: string, j: int, i: int, k: int)
    requires Match(p, h, j, i) && Match(p, h, j, k) && k <= i
    ensures Match(p, p, i, k)
  {
    assert p[i - k..i] == p[..i][i - k..];
    assert h[j - k..j] == h[j - i..j][i - k..];
  }

  lemma BorderGivesMatch(p: string, h: string, j: int, i: int, k: int)
    requires Match(p, h, j, i) && Match(p, p, i, k)
    ensures Match(p, h, j, k)
  {
    assert p[i - k..i] == p[..i][i - k..];
    assert h[j - k..j] == h[j - i..j][i - k..];
  }

  lemma MatchExtends(p: string, h: string, j: int, i: int)
    requires 0 <= i < |p| && i <= j < |h|
    ensures Match(p, h, j + 1, i + 1) <==> Match(p, h, j, i) && p[i] == h[j]
  {
    assert p[..i + 1] == p[..i] + [p[i]];
    assert h[j - i..j + 1] == h[j - i..j] + [h[j]];
    if Match(p, h, j + 1, i + 1) {
      assert p[..i] == p[..i + 1][..i] == h[j - i..j + 1][..i] == h[j - i..j];
      assert p[i] == p[..i + 1][i] == h[j - i..j + 1][i] == h[j];
    }
  }

  /** Following the strong failure value of a mismatched position skips no extensible match. */
  lemma FailureSkipsNothing(p: string, h: string, j: int, i: int, t: int, lim: int)
    requires 0 <= j < |h| && i < lim <= |p|
    requires Match(p, h, j, i) && p[i] != h[j] && StrongFail(p, i, t)
    requires NoLongerExtension(p, h, j, i, lim)
    ensures t >= 0 ==> Match(p, h, j, t)
    ensures NoLongerExtension(p, h, j, t, lim)
  {
    if t >= 0 { BorderGivesMatch(p, h, j, i, t); }
    forall k | 0 <= k && t < k < lim && Match(p, h, j, k) ensures p[k] != h[j] {
      if k < i { MatchGivesBorder(p, h, j, i, k); }
    }
  }

  /** One character further on, the longest match is one longer than the longest extensible one. */
  lemma Advance(p: string, h: string, j: int, i: int, lim: int)
    requires 0 <= j < |h| && -1 <= i < lim <= |p|
    requires i >= 0 ==> Match(p, h, j, i) && p[i] == h[j]
    requires NoLongerExtension(p, h, j, i, lim)
    ensures Longest(p, h, j + 1, i + 1, lim + 1)
  {
    if i >= 0 { MatchExtends(p, h, j, i); }
    var j' := j + 1;
    forall k | i + 1 < k < lim + 1 ensures !Match(p, h, j', k) {
      if Match(p, h, j', k) { MatchExtends(p, h, j, k - 1); }
    }
  }

  /** The entry to store at `i` when `j` is the longest proper border there and `tj` the entry at `j`. */
  lemma StrongFailStep(p: string, i: int, j: int, tj: int)
    requires 0 <= j < i <= |p| && Longest(p, p, i, j, i)
    requires i < |p| && p[i] == p[j] ==> StrongFail(p, j, tj)
    ensures StrongFail(p, i, if i < |p| && p[i] == p[j] then tj else j)
  {
    if i < |p| && p[i] == p[j] {
      if tj >= 0 { BorderGivesMatch(p, p, i, j, tj); }
      forall k | tj < k < i && Match(p, p, i, k) ensures p[k] == p[i] {
        if k < j { MatchGivesBorder(p, p, i, j, k); }
      }
    }
  }

  /** No occurrence ends at or before `j`. */
  ghost predicate NoneEndsBy(h: string, p: string, j: int) {
    forall q :: q + |p| <= j ==> !OccursAt(h, p, q)
  }

  lemma FullMatchIsOccurrence(p: string, h: string, j: int)
    requires 0 <= j <= |h|
    ensures Match(p, h, j, |p|) <==> OccursAt(h, p, j - |p|)
  {
    assert p[..|p|] == p;
  }

  lemma NoneEndsHere(h: string, p: string, j: int, i: int)
    requires 0 < j <= |h| && i < |p| && Longest(p, h, j, i, |p| + 1)
    requires NoneEndsBy(h, p, j - 1)
    ensures NoneEndsBy(h, p, j)
  {
    FullMatchIsOccurrence(p, h, j);
  }

  /** An occurrence that has begun shows as a match, so it cannot begin before the
      longest one; when too little of `h` is left for that one, none is left. */
  lemma NoneIsLeft(h: string, p: string, j: int, i: int)
    requires 0 <= j <= |h| && Longest(p, h, j, i, |p| + 1) && i < |p|
    requires j == |h| || |h| - j + i < |p|
    requires NoneEndsBy(h, p, j)
    ensures NoneEndsBy(h, p, |h|)
  {
    forall q | q + |p| <= |h| ensures !OccursAt(h, p, q) {
      if OccursAt(h, p, q) && j - i > q {
        assert p[..j - q] == h[q..q + |p|][..j - q] == h[q..j];
        assert Match(p, h, j, j - q);
      }
    }
  }

  /** The mirror image of a string. */
  ghost function Mirror(s: string): (r: string)
    ensures |r| == |s| && forall k :: 0 <= k < |s| ==> r[k] == s[|s| - 1 - k]
  {
    seq(|s|, k requires 0 <= k < |s| => s[|s| - 1 - k])
  }

  /** `r` is the mirror image of `s`, stated from the side of `s`. */
  ghost predicate IsMirror(s: string, r: string) {
    |r| == |s| && forall k :: 0 <= k < |s| ==> s[k] == r[|s| - 1 - k]
  }

  lemma TheMirror(s: string) returns (r: string)
    ensures IsMirror(s, r)
  {
    r := Mirror(s);
    forall k | 0 <= k < |s| ensures s[k] == r[|s| - 1 - k] { }
  }

  lemma MirrorAt(s: string, r: string, k: int, k': int)
    requires IsMirror(s, r) && 0 <= k < |s| && k' == |s| - 1 - k
    ensures s[k] == r[k']
  {
  }

  lemma MirrorIsUnique(s: string, r: string)
    requires IsMirror(s, r)
    ensures r == Mirror(s)
  {
    forall k | 0 <= k < |s| ensures r[k] == Mirror(s)[k] {
      assert s[|s| - 1 - k] == r[k];
    }
  }

  /** An occurrence seen in the mirror is an occurrence at the mirrored position. */
  lemma MirroredOccurrence(h: string, p: string, q: int)
    ensures OccursAt(h, p, q) <==> OccursAt(Mirror(h), Mirror(p), |h| - |p| - q)
  {
    var q' := |h| - |p| - q;
    if 0 <= q <= |h| - |p| {
      var a, b := h[q..q + |p|], Mirror(h)[q'..q' + |p|];
      assert forall k :: 0 <= k < |p| ==> b[k] == a[|p| - 1 - k];
      if a == p {
        assert b == Mirror(p);
      }
      if b == Mirror(p) {
        forall k | 0 <= k < |p| ensures a[k] == p[k] {
          assert b[|p| - 1 - k] == Mirror(p)[|p| - 1 - k];
        }
      }
    }
  }

  /** The first occurrence in the mirror, ending before `j`, is the last occurrence. */
  lemma LastInMirror(h: string, p: string, h': string, p': string, j: int, q: int)
    requires IsMirror(h, h') && IsMirror(p, p') && q == |h| - j
    requires OccursAt(h', p', j - |p'|) && NoneEndsBy(h', p', j - 1)
    ensures OccursAt(h, p, q) && forall k :: q < k ==> !OccursAt(h, p, k)
  {
    MirrorIsUnique(h, h');
    MirrorIsUnique(p, p');
    forall k | q <= k ensures OccursAt(h, p, k) == OccursAt(h', p', |h| - |p| - k) {
      MirroredOccurrence(h, p, k);
    }
  }

  lemma NoneInMirror(h: string, p: string, h': string, p': string)
    requires IsMirror(h, h') && IsMirror(p, p') && NoneEndsBy(h', p', |h'|)
    ensures forall k :: !OccursAt(h, p, k)
  {
    MirrorIsUnique(h, h');
    MirrorIsUnique(p, p');
    forall k ensures !OccursAt(h, p, k) {
      MirroredOccurrence(h, p, k);
    }
  }
}

/** In-place rearrangement of a stretch of an array, as both block sorts do it. */
module Rearrange {
  import opened Rotations

  /** g is f with the stretch [lo, hi) permuted and nothing else changed. */
  ghost predicate Rearranged(f: seq<int>, g: seq<int>, lo: int, hi: int)
  {
    && 0 <= lo <= hi <= |f| == |g|
    && f[..lo] == g[..lo] && f[hi..] == g[hi..]
    && multiset(f[lo..hi]) == multiset(g[lo..hi])
  }

  lemma Reflexive(f: seq<int>, lo: int, hi: int)
    requires 0 <= lo <= hi <= |f|
    ensures Rearranged(f, f, lo, hi)
  {}

  lemma Transitive(f: seq<int>, g: seq<int>, h: seq<int>, lo: int, hi: int)
    requires Rearranged(f, g, lo, hi) && Rearranged(g, h, lo, hi)
    ensures Rearranged(f, h, lo, hi)
  {}

  lemma Widen(f: seq<int>, g: seq<int>, lo: int, hi: int, lo': int, hi': int)
    requires Rearranged(f, g, lo, hi)
    requires 0 <= lo' <= lo && hi <= hi' <= |f|
    ensures Rearranged(f, g, lo', hi')
  {
    assert f[..lo'] == f[..lo][..lo'] == g[..lo'];
    assert f[hi'..] == f[hi..][hi' - hi..] == g[hi'..];
    assert f[lo'..hi'] == f[..lo][lo'..] + f[lo..hi] + f[hi..][..hi' - hi];
    assert g[lo'..hi'] == g[..lo][lo'..] + g[lo..hi] + g[hi..][..hi' - hi];
  }

  /** f with the entries at i and j exchanged. */
  function Swapped(f: seq<int>, i: int, j: int): (g: seq<int>)
    requires 0 <= i < |f| && 0 <= j < |f|
    ensures |g| == |f| && g[i] == f[j] && g[j] == f[i]
    ensures forall x | 0 <= x < |f| && x != i && x != j :: g[x] == f[x]
  {
    f[i := f[j]][j := f[i]]
  }

  /** The swap macros of both quicksorts. */
  method Exchange(ptr: array<int>, i: int, j: int)
    requires 0 <= i < ptr.Length && 0 <= j < ptr.Length
    modifies ptr
    ensures ptr[..] == Swapped(old(ptr[..]), i, j)
  {
    ptr[i], ptr[j] := ptr[j], ptr[i];
  }

  /** Exchanging two entries of the stretch extends a rearrangement. */
  lemma Swap(f0: seq<int>, f: seq<int>, i: int, j: int, lo: int, hi: int)
    requires Rearranged(f0, f, lo, hi)
    requires 0 <= lo <= i < hi <= |f| && lo <= j < hi
    ensures Rearranged(f0, Swapped(f, i, j), lo, hi)
  {
    assert Swapped(f, i, j)[lo..hi] == f[lo..hi][i - lo := f[j]][j - lo := f[i]];
  }

  /** Every entry of the rearranged stretch was in the stretch before. */
  lemma CameFrom(f: seq<int>, g: seq<int>, lo: int, hi: int, b: int) returns (a: int)
    requires Rearranged(f, g, lo, hi) && lo <= b < hi
    ensures lo <= a < hi && f[a] == g[b]
  {
    assert g[lo..hi][b - lo] in multiset(g[lo..hi]);
    assert g[b] in multiset(f[lo..hi]);
    var k :| 0 <= k < hi - lo && f[lo..hi][k] == g[b];
    a := lo + k;
  }

  /** A bound on all keys of the stretch survives the rearrangement. */
  lemma AllKept(f: seq<int>, g: seq<int>, lo: int, hi: int, p: int -> bool)
    requires Rearranged(f, g, lo, hi)
    requires forall a | lo <= a < hi :: p(f[a])
    ensures forall b | lo <= b < hi :: p(g[b])
  {
    forall b | lo <= b < hi ensures p(g[b]) {
      var a := CameFrom(f, g, lo, hi, b);
    }
  }

  lemma {:induction false} DistinctOnce(p: seq<int>, x: int)
    requires forall a, b | 0 <= a < b < |p| :: p[a] != p[b]
    ensures multiset(p)[x] <= 1
  {
    if p != [] {
      DistinctOnce(p[..|p| - 1], x);
      assert p == p[..|p| - 1] + [p[|p| - 1]];
      if x == p[|p| - 1] { assert x !in p[..|p| - 1]; }
    }
  }

  lemma OnceDistinct(p: seq<int>, a: int, b: int)
    requires forall x :: multiset(p)[x] <= 1
    requires 0 <= a < b < |p|
    ensures p[a] != p[b]
  {
    assert p == p[..b] + p[b..];
    assert p[..b][a] in multiset(p[..b]) && p[b..][0] in multiset(p[b..]);
    assert multiset(p)[p[b]] == multiset(p[..b])[p[b]] + multiset(p[b..])[p[b]];
  }

  lemma StaysPerm(f: seq<int>, g: seq<int>, lo: int, hi: int, n: nat)
    requires Rearranged(f, g, lo, hi) && hi <= n <= |f|
    requires IsPerm(f[..n], n)
    ensures IsPerm(g[..n], n)
  {
    assert f[..n] == f[..lo] + f[lo..hi] + f[hi..][..n - hi];
    assert g[..n] == g[..lo] + g[lo..hi] + g[hi..][..n - hi];
    var p, q := f[..n], g[..n];
    forall x ensures multiset(q)[x] <= 1 { DistinctOnce(p, x); }
    forall a, b | 0 <= a < b < n ensures q[a] != q[b] { OnceDistinct(q, a, b); }
    forall a | 0 <= a < n ensures 0 <= q[a] < n {
      assert q[a] in multiset(q);
      assert q[a] in multiset(p);
    }
  }

  lemma RearrangedPrefix(f: seq<int>, g: seq<int>, lo: int, hi: int, n: nat)
    requires Rearranged(f, g, lo, hi) && hi <= n <= |f|
    ensures Rearranged(f[..n], g[..n], lo, hi)
  {
    assert f[..n][hi..] == f[hi..][..n - hi];
    assert g[..n][hi..] == g[hi..][..n - hi];
    assert f[..n][..lo] == f[..lo] && g[..n][..lo] == g[..lo];
    assert f[..n][lo..hi] == f[lo..hi] && g[..n][lo..hi] == g[lo..hi];
  }
}

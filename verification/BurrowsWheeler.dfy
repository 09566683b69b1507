/** The Burrows-Wheeler transform over the rotation order, and why walking the inverse vector
    from the row of rotation 0 rebuilds the block, whatever way equal rotations were placed. */
module BurrowsWheeler {
  import opened Counting
  import opened Rotations

  /** The column the encoder hands on: for each row, the character before its rotation. */
  function LastColumn(s: seq<int>, p: seq<int>): (l: seq<int>)
    requires IsPerm(p, |s|)
    ensures |l| == |s|
  {
    seq(|s|, i requires 0 <= i < |s| => s[Prev(|s|, p[i])])
  }

  /** t undoes the stable sort of l: row SortedRow(l, i) leads back to i. */
  ghost predicate IsInverse(l: seq<int>, t: seq<int>)
  {
    && |t| == |l|
    && (forall q | 0 <= q < |l| :: 0 <= t[q] < |l| && SortedRow(l, t[q]) == q)
    && (forall i | 0 <= i < |l| :: SortedRow(l, i) < |l| && t[SortedRow(l, i)] == i)
  }

  // ---- Sorting is unique up to equal rotations ----

  /** The values at positions [lo, hi) of p. */
  ghost function Span(p: seq<int>, lo: nat, hi: nat): set<int>
    requires lo <= hi <= |p|
  {
    set a | lo <= a < hi :: p[a]
  }

  lemma {:induction false} SpanSize(p: seq<int>, n: nat, lo: nat, hi: nat)
    requires IsPerm(p, n) && lo <= hi <= n
    ensures |Span(p, lo, hi)| == hi - lo
    decreases hi
  {
    if lo < hi {
      SpanSize(p, n, lo, hi - 1);
      assert Span(p, lo, hi) == Span(p, lo, hi - 1) + {p[hi - 1]};
    }
  }

  lemma PermOnto(p: seq<int>, n: nat, x: int)
    requires IsPerm(p, n) && 0 <= x < n
    ensures exists a :: 0 <= a < n && p[a] == x
  {
    SpanSize(p, n, 0, n);
    RangeSize(n);
    SubsetFull(Span(p, 0, n), Range(n));
    assert x in Span(p, 0, n);
  }

  ghost function Range(n: nat): (r: set<int>)
    ensures forall x :: x in r <==> 0 <= x < n
  {
    if n == 0 then {} else Range(n - 1) + {n - 1}
  }

  lemma {:induction false} RangeSize(n: nat)
    ensures |Range(n)| == n
  {
    if n > 0 { RangeSize(n - 1); }
  }

  lemma SubsetSize<T>(a: set<T>, b: set<T>)
    requires a <= b
    ensures |a| <= |b|
  {
    assert b == a + (b - a);
  }

  lemma SubsetFull<T>(a: set<T>, b: set<T>)
    requires a <= b && |a| == |b|
    ensures a == b
  {
    assert b == a + (b - a);
  }

  /** n rows that show each of n rotations show each of them once. */
  lemma OntoIsPerm(p: seq<int>, n: nat, slot: int -> int)
    requires |p| == n
    requires forall x | 0 <= x < n :: 0 <= slot(x) < n && p[slot(x)] == x
    requires forall x, y | 0 <= x < y < n :: slot(x) != slot(y)
    ensures IsPerm(p, n)
    ensures forall a | 0 <= a < n :: slot(p[a]) == a
  {
    var q := seq(n, x requires 0 <= x < n => slot(x));
    assert IsPerm(q, n);
    forall a | 0 <= a < n ensures 0 <= p[a] < n && slot(p[a]) == a {
      PermOnto(q, n, a);
      var x :| 0 <= x < n && q[x] == a;
      assert slot(x) == a;
    }
  }

  /** If p held a smaller rotation than q at row a, the a + 1 rotations p[..a+1] would all have
      to sit among the a rotations q[..a]. */
  lemma RowNotSmaller(s: seq<int>, p: seq<int>, q: seq<int>, a: nat)
    requires SortedRotations(s, p) && SortedRotations(s, q) && a < |s|
    ensures Le(s, q[a], p[a], |s|)
  {
    var n := |s|;
    if Lt(s, p[a], q[a], n) {
      forall x | x in Span(p, 0, a + 1) ensures x in Span(q, 0, a) {
        var i :| 0 <= i <= a && p[i] == x;
        Trichotomy(s, p[a], p[a], n);
        assert Le(s, p[i], p[a], n);
        LeTransitive(s, p[i], p[a], q[a], n) by { Trichotomy(s, p[a], q[a], n); }
        PermOnto(q, n, x);
        var b :| 0 <= b < n && q[b] == x;
      }
      SpanSize(p, n, 0, a + 1);
      SpanSize(q, n, 0, a);
      SubsetSize(Span(p, 0, a + 1), Span(q, 0, a));
    }
  }

  /** Any two sorted orders show equal rotations row by row: the last column does not depend on
      which sort was used or where it placed equal rotations. */
  lemma SortsAgree(s: seq<int>, p: seq<int>, q: seq<int>)
    requires SortedRotations(s, p) && SortedRotations(s, q)
    ensures forall a | 0 <= a < |s| :: Eq(s, p[a], q[a], |s|)
    ensures LastColumn(s, p) == LastColumn(s, q)
  {
    forall a | 0 <= a < |s|
      ensures Eq(s, p[a], q[a], |s|)
      ensures LastColumn(s, p)[a] == LastColumn(s, q)[a]
    {
      RowNotSmaller(s, p, q, a);
      RowNotSmaller(s, q, p, a);
      Trichotomy(s, p[a], q[a], |s|);
      EqualBefore(s, p[a], q[a]);
    }
  }

  /** Equal rotations are preceded by equal characters, and their predecessors are equal too. */
  lemma EqualBefore(s: seq<int>, i: nat, j: nat)
    requires i < |s| && j < |s|
    requires Eq(s, i, j, |s|)
    ensures s[Prev(|s|, i)] == s[Prev(|s|, j)]
  {
    Split(s, i, j, |s| - 1, 1);
  }

  // ---- The inverse transform ----

  /** The row reached from row o by k steps of the vector t. */
  function Walk(t: seq<int>, o: nat, k: nat): (r: nat)
    requires o < |t| && forall q | 0 <= q < |t| :: 0 <= t[q] < |t|
    ensures r < |t|
  {
    if k == 0 then o else t[Walk(t, o, k - 1)]
  }

  /** The rotations reached by sorting the predecessors of rows stably by their first
      character: a second sorted order of the rotations. */
  function Resorted(s: seq<int>, p: seq<int>, t: seq<int>): (m: seq<int>)
    requires IsPerm(p, |s|) && IsInverse(LastColumn(s, p), t)
    ensures |m| == |s|
  {
    seq(|s|, q requires 0 <= q < |s| => Prev(|s|, p[t[q]]))
  }

  lemma ResortedIsSorted(s: seq<int>, p: seq<int>, t: seq<int>)
    requires SortedRotations(s, p) && IsInverse(LastColumn(s, p), t)
    ensures SortedRotations(s, Resorted(s, p, t))
  {
    var n, l, m := |s|, LastColumn(s, p), Resorted(s, p, t);
    forall a, b | 0 <= a < b < n
      ensures m[a] != m[b] && Le(s, m[a], m[b], n)
    {
      var i, j := t[a], t[b];
      assert i != j;
      if l[j] < l[i] || (l[j] == l[i] && j < i) { SortedRowOrder(l, j, i); }
      assert l[i] < l[j] || (l[i] == l[j] && i < j);
      assert s[m[a]] == l[i] && s[m[b]] == l[j];
      if l[i] == l[j] {
        assert p[i] != p[j];
        Deepen(s, p[j], p[i], n - 1, n);
      }
    }
  }

  /** Sorted rows are, row by row, the predecessors the inverse vector leads to. */
  lemma InverseStep(s: seq<int>, p: seq<int>, t: seq<int>, q: nat)
    requires SortedRotations(s, p) && IsInverse(LastColumn(s, p), t) && q < |s|
    ensures Eq(s, p[q], Prev(|s|, p[t[q]]), |s|)
    ensures LastColumn(s, p)[t[q]] == s[p[q]]
  {
    ResortedIsSorted(s, p, t);
    SortsAgree(s, p, Resorted(s, p, t));
    assert Resorted(s, p, t)[q] == Prev(|s|, p[t[q]]);
  }

  lemma {:induction false} WalkFollowsBlock(s: seq<int>, p: seq<int>, t: seq<int>, o: nat, k: nat)
    requires SortedRotations(s, p) && IsInverse(LastColumn(s, p), t)
    requires o < |s| && p[o] == 0 && k <= |s|
    ensures Eq(s, p[Walk(t, o, k)], Shift(|s|, 0, k), |s|)
  {
    var n := |s|;
    if k == 0 {
      EqReflexive(s, 0, n);
    } else {
      var w, x := Walk(t, o, k - 1), Shift(n, 0, k - 1);
      WalkFollowsBlock(s, p, t, o, k - 1);
      InverseStep(s, p, t, w);
      var y := Prev(n, p[t[w]]);
      Trichotomy(s, p[w], y, n);
      Trichotomy(s, p[w], x, n);
      LeTransitive(s, y, p[w], x, n);
      LeTransitive(s, x, p[w], y, n);
      Trichotomy(s, y, x, n);
      FullCircle(s, y, x, n + 1);
    }
  }

  /** The bytes an inverse walk of n steps reads off column l. */
  function WalkBytes(l: seq<int>, t: seq<int>, o: nat, n: nat): (r: seq<int>)
    requires |t| == |l| && o < |t| && forall q | 0 <= q < |t| :: 0 <= t[q] < |t|
    ensures |r| == n
  {
    seq(n, k requires 0 <= k < n => l[Walk(t, o, k + 1)])
  }

  lemma WalkReadsBlock(s: seq<int>, p: seq<int>, t: seq<int>, o: nat, k: nat)
    requires SortedRotations(s, p) && IsInverse(LastColumn(s, p), t)
    requires o < |s| && p[o] == 0 && k < |s|
    ensures LastColumn(s, p)[Walk(t, o, k + 1)] == s[k]
  {
    WalkFollowsBlock(s, p, t, o, k);
    InverseStep(s, p, t, Walk(t, o, k));
  }

  /** The inverse transform is right for every sorted order, periodic blocks included. */
  lemma InverseRebuildsBlock(s: seq<int>, p: seq<int>, t: seq<int>, o: nat)
    requires SortedRotations(s, p) && IsInverse(LastColumn(s, p), t)
    requires o < |s| && p[o] == 0
    ensures WalkBytes(LastColumn(s, p), t, o, |s|) == s
  {
    forall k | 0 <= k < |s| ensures WalkBytes(LastColumn(s, p), t, o, |s|)[k] == s[k] {
      WalkReadsBlock(s, p, t, o, k);
    }
  }
}

/** The small buckets of the main block sort: rows grouped by the first two characters of their
    rotations. */
module PairBuckets {
  import opened Rotations
  import opened BurrowsWheeler
  import opened Counting
  import opened MainQSort

  function Pair(s: seq<int>, i: nat): int
    requires i < |s|
  {
    s[i] * 256 + s[Next(|s|, i)]
  }

  /** The first two characters of every rotation. */
  function Pairs(s: seq<int>): (p: seq<int>)
    ensures |p| == |s|
  {
    seq(|s|, i requires 0 <= i < |s| => Pair(s, i))
  }

  /** Where the bucket of pair p starts. */
  function Start(s: seq<int>, p: int): nat { Less(Pairs(s), p, |s|) }

  /** The rotations that start with pair p. */
  ghost function Members(s: seq<int>, p: int): set<int>
  {
    set x: int | 0 <= x < |s| && Pair(s, x) == p
  }

  lemma {:induction false} CountSet(l: seq<int>, c: int, k: nat)
    requires k <= |l|
    ensures |set x: int | 0 <= x < k && l[x] == c| == Count(l, c, k)
  {
    if k > 0 {
      CountSet(l, c, k - 1);
      var a, b := (set x: int | 0 <= x < k - 1 && l[x] == c), (set x: int | 0 <= x < k && l[x] == c);
      assert b == if l[k - 1] == c then a + {k - 1} else a;
    }
  }

  lemma MembersSize(s: seq<int>, p: int)
    ensures |Members(s, p)| == Start(s, p + 1) - Start(s, p)
  {
    CountSet(Pairs(s), p, |s|);
    LessNext(Pairs(s), p, |s|);
    assert Members(s, p) == set x: int | 0 <= x < |s| && Pairs(s)[x] == p;
  }

  lemma StartGrows(s: seq<int>, p: int, q: int)
    requires p <= q
    ensures Start(s, p) <= Start(s, q) <= |s|
  {
    LessMonotone(Pairs(s), p, q, |s|);
  }

  lemma StartEnds(s: seq<int>)
    requires IsBytes(s)
    ensures Start(s, 0) == 0 && Start(s, 65536) == |s|
  {
    LessEnds(Pairs(s), 0, 65536, |s|);
  }

  /** The rows of bucket p hold exactly the rotations that start with p. */
  ghost predicate Full(s: seq<int>, f: seq<int>, p: int)
    requires |f| == |s|
  {
    Start(s, p) <= Start(s, p + 1) <= |s| && Span(f, Start(s, p), Start(s, p + 1)) == Members(s, p)
  }

  ghost predicate AllFull(s: seq<int>, f: seq<int>)
  {
    |f| == |s| && forall p | 0 <= p < 65536 :: Full(s, f, p)
  }

  /** Values that fill their span up are all different. */
  lemma SpanDistinct(f: seq<int>, lo: nat, hi: nat, a: int, b: int)
    requires lo <= a < b < hi <= |f| && |Span(f, lo, hi)| == hi - lo
    ensures f[a] != f[b]
  {
    if f[a] == f[b] {
      assert Span(f, lo, hi) == Span(f, lo, b) + Span(f, b + 1, hi) by {
        forall x | x in Span(f, lo, hi) ensures x in Span(f, lo, b) + Span(f, b + 1, hi) {
          var i :| lo <= i < hi && f[i] == x;
          if i == b { assert f[a] == x; }
        }
      }
      SpanAtMost(f, lo, b);
      SpanAtMost(f, b + 1, hi);
      UnionSize(Span(f, lo, b), Span(f, b + 1, hi));
    }
  }

  lemma UnionSize<T>(a: set<T>, b: set<T>)
    ensures |a + b| <= |a| + |b|
  {}

  lemma {:induction false} SpanAtMost(p: seq<int>, lo: nat, hi: nat)
    requires lo <= hi <= |p|
    ensures |Span(p, lo, hi)| <= hi - lo
    decreases hi
  {
    if lo < hi {
      SpanAtMost(p, lo, hi - 1);
      assert Span(p, lo, hi) == Span(p, lo, hi - 1) + {p[hi - 1]};
    }
  }

  lemma {:induction false} FindBucket(s: seq<int>, a: nat, p: nat) returns (q: nat)
    requires a < Start(s, p)
    requires Start(s, 0) == 0
    ensures q < p && Start(s, q) <= a < Start(s, q + 1)
    decreases p
  {
    if Start(s, p - 1) <= a { q := p - 1; } else { q := FindBucket(s, a, p - 1); }
  }

  /** Every row belongs to the bucket of its rotation. */
  lemma RowInBucket(s: seq<int>, f: seq<int>, a: nat)
    requires IsBytes(s) && AllFull(s, f) && a < |s|
    ensures 0 <= f[a] < |s| && Start(s, Pair(s, f[a])) <= a < Start(s, Pair(s, f[a]) + 1)
    ensures 0 <= Pair(s, f[a]) < 65536
  {
    StartEnds(s);
    var q := FindBucket(s, a, 65536);
    assert Full(s, f, q);
    assert f[a] in Span(f, Start(s, q), Start(s, q + 1));
  }

  /** Full buckets make the rows a permutation. */
  lemma FullIsPerm(s: seq<int>, f: seq<int>)
    requires IsBytes(s) && AllFull(s, f)
    ensures IsPerm(f, |s|)
  {
    forall a, b | 0 <= a < b < |s| ensures f[a] != f[b] {
      RowInBucket(s, f, a);
      RowInBucket(s, f, b);
      var p := Pair(s, f[a]);
      if f[a] == f[b] {
        assert Full(s, f, p);
        MembersSize(s, p);
        SpanDistinct(f, Start(s, p), Start(s, p + 1), a, b);
      }
    }
    forall a | 0 <= a < |s| ensures 0 <= f[a] < |s| { RowInBucket(s, f, a); }
  }

  /** Where a rotation is found. */
  lemma MemberAt(s: seq<int>, f: seq<int>, x: nat) returns (a: nat)
    requires IsBytes(s) && AllFull(s, f) && x < |s|
    ensures a < |s| && f[a] == x && Start(s, Pair(s, x)) <= a < Start(s, Pair(s, x) + 1)
  {
    var p := Pair(s, x);
    assert Full(s, f, p);
    assert x in Members(s, p);
    assert x in Span(f, Start(s, p), Start(s, p + 1));
    a :| Start(s, p) <= a < Start(s, p + 1) && f[a] == x;
  }

  /** Rows of different buckets are in order. */
  lemma BucketsInOrder(s: seq<int>, f: seq<int>, a: nat, b: nat)
    requires IsBytes(s) && AllFull(s, f) && a < b < |s| && |s| >= 2
    requires 0 <= f[a] < |s| && 0 <= f[b] < |s| && Pair(s, f[a]) != Pair(s, f[b])
    ensures Lt(s, f[a], f[b], |s|) && Pair(s, f[a]) < Pair(s, f[b])
  {
    RowInBucket(s, f, a);
    RowInBucket(s, f, b);
    var p, q := Pair(s, f[a]), Pair(s, f[b]);
    if q < p { StartGrows(s, q + 1, p); }
    PairDecides(s, f[a], f[b]);
  }

  lemma PairDecides(s: seq<int>, x: nat, y: nat)
    requires IsBytes(s) && x < |s| && y < |s| && |s| >= 2 && Pair(s, x) < Pair(s, y)
    ensures Lt(s, x, y, |s|)
  {
    assert s[x] <= s[y];
    assert Lt(s, x, y, 2);
    Deepen(s, x, y, 2, |s|);
  }

  /** Bucket p is sorted. */
  ghost predicate BucketSorted(s: seq<int>, f: seq<int>, p: int)
  {
    RotationsSorted(s, f, Start(s, p), Start(s, p + 1) - 1)
  }

  /** Once every bucket is sorted, so is everything. */
  lemma AllBucketsSorted(s: seq<int>, f: seq<int>)
    requires IsBytes(s) && AllFull(s, f) && |s| >= 2
    requires forall p | 0 <= p < 65536 :: BucketSorted(s, f, p)
    ensures SortedRotations(s, f)
  {
    FullIsPerm(s, f);
    forall a, b | 0 <= a < b < |s| ensures Le(s, f[a], f[b], |s|) {
      RowInBucket(s, f, a);
      RowInBucket(s, f, b);
      if Pair(s, f[a]) == Pair(s, f[b]) {
        assert BucketSorted(s, f, Pair(s, f[a]));
      } else {
        BucketsInOrder(s, f, a, b);
        Trichotomy(s, f[a], f[b], |s|);
      }
    }
  }
}

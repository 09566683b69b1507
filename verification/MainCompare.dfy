/** Comparing rotations in the main block sort: mainGtU reads characters beyond the end of the
    block, where the first ones are repeated, and consults the quadrant cache. */
module MainCompare {
  import opened Rotations

  /** BZ_N_OVERSHOOT: 2 radix characters, 12 quicksort ones, 18 shell-sort ones and 2 more. */
  const N_OVERSHOOT := 34

  /** The position within the block that index i of the extended block stands for. */
  function Wrap(n: nat, i: nat): nat { if i < n then i else i - n }

  /** The block s, extended by a repetition of its first characters. */
  ghost predicate Extended(block: seq<int>, s: seq<int>)
  {
    && |s| >= 10000 && |block| >= |s| + N_OVERSHOOT
    && forall i | 0 <= i < |s| + N_OVERSHOOT :: block[i] == s[Wrap(|s|, i)]
  }

  /** Where characters are equal, a smaller quadrant value never belongs to a larger rotation.
      Equal rotations may have different values: the documented meaning holds weakly. */
  ghost predicate QuadrantsOk(block: seq<int>, quadrant: seq<int>, s: seq<int>)
  {
    && Extended(block, s) && |quadrant| >= |s| + N_OVERSHOOT
    && forall i, j | 0 <= i < |s| + N_OVERSHOOT && 0 <= j < |s| + N_OVERSHOOT
                     && block[i] == block[j] && quadrant[i] < quadrant[j] ::
         Le(s, Wrap(|s|, i), Wrap(|s|, j), |s|)
  }

  /** Comparing a and b comes down to comparing x and y, after k equal characters. */
  ghost predicate Reduces(s: seq<int>, a: nat, b: nat, x: nat, y: nat, k: nat)
  {
    && a < |s| && b < |s| && x < |s| && y < |s|
    && forall m: nat :: Lt(s, a, b, k + m) == Lt(s, x, y, m) && Lt(s, b, a, k + m) == Lt(s, y, x, m)
  }

  lemma ReducesStart(s: seq<int>, a: nat, b: nat)
    requires a < |s| && b < |s|
    ensures Reduces(s, a, b, a, b, 0)
  {}

  lemma ReducesStep(s: seq<int>, a: nat, b: nat, x: nat, y: nat, k: nat)
    requires Reduces(s, a, b, x, y, k) && s[x] == s[y]
    ensures Reduces(s, a, b, Next(|s|, x), Next(|s|, y), k + 1)
  {
    var x', y' := Next(|s|, x), Next(|s|, y);
    forall m: nat
      ensures Lt(s, a, b, k + 1 + m) == Lt(s, x', y', m) && Lt(s, b, a, k + 1 + m) == Lt(s, y', x', m)
    {
      assert Lt(s, a, b, k + (1 + m)) == Lt(s, x, y, 1 + m);
      assert Lt(s, b, a, k + (1 + m)) == Lt(s, y, x, 1 + m);
    }
  }

  /** A verdict on the reduced pair is one on the original pair. */
  lemma ReducesVerdict(s: seq<int>, a: nat, b: nat, x: nat, y: nat, k: nat)
    requires Reduces(s, a, b, x, y, k)
    ensures Le(s, x, y, |s|) ==> Le(s, a, b, |s|)
    ensures Le(s, y, x, |s|) ==> Le(s, b, a, |s|)
  {
    var n := |s|;
    assert Lt(s, a, b, k + n) == Lt(s, x, y, n) && Lt(s, b, a, k + n) == Lt(s, y, x, n);
    DeepEnough(s, a, b, k + n);
    DeepEnough(s, b, a, k + n);
  }

  /** Once |s| characters are equal, so are the rotations. */
  lemma ReducesFar(s: seq<int>, a: nat, b: nat, x: nat, y: nat, k: nat)
    requires Reduces(s, a, b, x, y, k) && k >= |s|
    ensures Le(s, a, b, |s|) && Le(s, b, a, |s|)
  {
    assert Lt(s, a, b, k + 0) == Lt(s, x, y, 0) && Lt(s, b, a, k + 0) == Lt(s, y, x, 0);
    DeepEnough(s, a, b, k);
    DeepEnough(s, b, a, k);
  }

  lemma FirstCharDecides(s: seq<int>, x: nat, y: nat)
    requires x < |s| && y < |s| && s[x] < s[y]
    ensures Le(s, x, y, |s|)
  {}

  /** Compares count characters from x1 and x2 on, and their quadrants if useQuadrant is set. */
  method CompareSome(x1: nat, x2: nat, count: nat, useQuadrant: bool, block: array<int>, quadrant: array<int>,
                     ghost s: seq<int>, ghost a: nat, ghost b: nat, ghost k: nat)
    returns (decided: bool, greater: bool)
    requires QuadrantsOk(block[..], quadrant[..], s)
    requires x1 + count <= |s| + N_OVERSHOOT && x2 + count <= |s| + N_OVERSHOOT
    requires Reduces(s, a, b, Wrap(|s|, x1), Wrap(|s|, x2), k)
    ensures decided && greater ==> Le(s, b, a, |s|)
    ensures decided && !greater ==> Le(s, a, b, |s|)
    ensures !decided ==> Reduces(s, a, b, Wrap(|s|, x1 + count), Wrap(|s|, x2 + count), k + count)
  {
    hide Reduces;
    ghost var n := |s|;
    decided, greater := true, false;
    var i1, i2 := x1, x2;
    for c := 0 to count
      invariant i1 == x1 + c && i2 == x2 + c
      invariant Reduces(s, a, b, Wrap(n, i1), Wrap(n, i2), k + c)
    {
      InBlock(s, a, b, Wrap(n, i1), Wrap(n, i2), k + c);
      ReducesVerdict(s, a, b, Wrap(n, i1), Wrap(n, i2), k + c);
      assert block[..][i1] == s[Wrap(n, i1)] && block[..][i2] == s[Wrap(n, i2)];
      var c1, c2 := block[i1], block[i2];
      if c1 != c2 {
        greater := c1 > c2;
        if greater { FirstCharDecides(s, Wrap(n, i2), Wrap(n, i1)); } else { FirstCharDecides(s, Wrap(n, i1), Wrap(n, i2)); }
        return;
      }
      if useQuadrant {
        var s1, s2 := quadrant[i1], quadrant[i2];
        if s1 != s2 {
          greater := s1 > s2;
          assert quadrant[..][i1] == s1 && quadrant[..][i2] == s2;
          return;
        }
      }
      ReducesStep(s, a, b, Wrap(n, i1), Wrap(n, i2), k + c);
      i1, i2 := i1 + 1, i2 + 1;
    }
    decided := false;
  }

  lemma InBlock(s: seq<int>, a: nat, b: nat, x: nat, y: nat, k: nat)
    requires Reduces(s, a, b, x, y, k)
    ensures a < |s| && b < |s| && x < |s| && y < |s|
  {}

  /** mainGtU: 12 plain comparisons, then rounds of 8 with the quadrant cache.  It reads no
      index beyond n + 33, terminates, and its answer is right in the weak order.  The caller
      may start up to 15 characters into a rotation. */
  method GtU(x1: nat, x2: nat, block: array<int>, quadrant: array<int>, n: nat, budget: int, ghost s: seq<int>)
    returns (greater: bool, budget': int)
    requires |s| == n && QuadrantsOk(block[..], quadrant[..], s)
    requires x1 < n + 15 && x2 < n + 15
    ensures greater ==> Le(s, Wrap(n, x2), Wrap(n, x1), n)
    ensures !greater ==> Le(s, Wrap(n, x1), Wrap(n, x2), n)
    ensures budget' <= budget
  {
    hide Reduces, QuadrantsOk, Le;
    ghost var a, b := Wrap(n, x1), Wrap(n, x2);
    BlockSize(block[..], quadrant[..], s);
    var i1: int, i2: int, decided := x1, x2, false;
    budget' := budget;
    ReducesStart(s, a, b);
    decided, greater := CompareSome(i1, i2, 12, false, block, quadrant, s, a, b, 0);
    if decided { return; }
    i1, i2 := i1 + 12, i2 + 12;
    var k: int := n + 8;
    while true
      invariant 0 <= k <= n + 8 && budget' <= budget
      invariant 0 <= i1 <= n + 26 && 0 <= i2 <= n + 26
      invariant Reduces(s, a, b, Wrap(n, i1), Wrap(n, i2), 12 + (n + 8 - k))
      decreases k
    {
      decided, greater := CompareSome(i1, i2, 8, true, block, quadrant, s, a, b, 12 + (n + 8 - k));
      if decided { return; }
      i1, i2 := i1 + 8, i2 + 8;
      if i1 >= n { i1 := i1 - n; }
      if i2 >= n { i2 := i2 - n; }
      k := k - 8;
      budget' := budget' - 1;
      if k < 0 { break; }
    }
    ReducesFar(s, a, b, Wrap(n, i1), Wrap(n, i2), 12 + (n + 8 - k));
    greater := false;
  }

  lemma BlockSize(block: seq<int>, quadrant: seq<int>, s: seq<int>)
    requires QuadrantsOk(block, quadrant, s)
    ensures |s| >= 10000
  {}
}

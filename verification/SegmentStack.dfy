/** The explicit stack of both quicksorts: which stretches are still to be sorted, what is
    already settled about the rest, and why the stack stays shallow. */
module SegmentStack {
  import opened Bits
  import opened Rearrange

  /** A stretch lo..hi still to be sorted whose rotations agree on their first d characters;
      hi == lo - 1 stands for an empty one. */
  datatype Segment = Segment(lo: int, hi: int, d: int) {
    function Size(): int { hi - lo + 1 }
  }

  ghost predicate InSame(st: seq<Segment>, a: int, b: int)
  {
    exists t :: 0 <= t < |st| && st[t].lo <= a && b <= st[t].hi
  }

  /** The segments lie within lo..hi and do not overlap. */
  ghost predicate Disjoint(st: seq<Segment>, lo: int, hi: int)
  {
    && (forall t | 0 <= t < |st| :: lo <= st[t].lo <= st[t].hi + 1 <= hi + 1)
    && (forall t, u | 0 <= t < u < |st| :: st[t].hi < st[u].lo || st[u].hi < st[t].lo)
  }

  /** Any two entries are in order already, or wait in one segment. */
  ghost predicate Settled(f: seq<int>, le: (int, int) -> bool, st: seq<Segment>, lo: int, hi: int)
    requires 0 <= lo <= hi + 1 <= |f|
  {
    forall a, b | lo <= a < b <= hi :: InSame(st, a, b) || le(f[a], f[b])
  }

  /** Sorting within the top segment, and splitting it, keeps everything else settled. */
  lemma Refine(f: seq<int>, g: seq<int>, le: (int, int) -> bool, rest: seq<Segment>, top: Segment, kids: seq<Segment>, lo: int, hi: int)
    requires 0 <= lo <= hi + 1 <= |f| == |g| && 0 <= top.lo <= top.hi + 1 <= |g|
    requires Disjoint(rest + [top], lo, hi) && Settled(f, le, rest + [top], lo, hi)
    requires Disjoint(kids, top.lo, top.hi) && Settled(g, le, kids, top.lo, top.hi)
    requires Rearranged(f, g, top.lo, top.hi + 1)
    ensures Disjoint(rest + kids, lo, hi) && Settled(g, le, rest + kids, lo, hi)
  {
    hide Rearranged;
    var st := rest + [top];
    assert st[|rest|] == top;
    assert forall t | 0 <= t < |rest| :: st[t] == rest[t];
    forall t, u | 0 <= t < u < |rest + kids|
      ensures (rest + kids)[t].hi < (rest + kids)[u].lo || (rest + kids)[u].hi < (rest + kids)[t].lo
    {
      if t < |rest| <= u { assert st[t].hi < top.lo || top.hi < st[t].lo; }
    }
    forall a, b | lo <= a < b <= hi ensures InSame(rest + kids, a, b) || le(g[a], g[b]) {
      RefinePair(f, g, le, rest, top, kids, lo, hi, a, b);
    }
  }

  lemma RefinePair(f: seq<int>, g: seq<int>, le: (int, int) -> bool, rest: seq<Segment>, top: Segment, kids: seq<Segment>, lo: int, hi: int, a: int, b: int)
    requires 0 <= lo <= hi + 1 <= |f| == |g| && 0 <= top.lo <= top.hi + 1 <= |g|
    requires Disjoint(rest + [top], lo, hi) && Settled(f, le, rest + [top], lo, hi)
    requires Disjoint(kids, top.lo, top.hi) && Settled(g, le, kids, top.lo, top.hi)
    requires Rearranged(f, g, top.lo, top.hi + 1)
    requires lo <= a < b <= hi
    ensures InSame(rest + kids, a, b) || le(g[a], g[b])
  {
    hide Rearranged;
    var st := rest + [top];
    assert st[|rest|] == top;
    if top.lo <= a && b <= top.hi {
      if InSame(kids, a, b) {
        var t :| 0 <= t < |kids| && kids[t].lo <= a && b <= kids[t].hi;
        assert (rest + kids)[|rest| + t] == kids[t];
      }
    } else {
      var a' := Before(f, g, top, a);
      var b' := Before(f, g, top, b);
      if InSame(st, a', b') {
        var t :| 0 <= t < |st| && st[t].lo <= a' && b' <= st[t].hi;
        assert t != |rest|;
        assert st[t] == rest[t] == (rest + kids)[t];
      }
    }
  }

  /** Where the entry now at a was before the segment was rearranged. */
  lemma Before(f: seq<int>, g: seq<int>, top: Segment, a: int) returns (b: int)
    requires Rearranged(f, g, top.lo, top.hi + 1) && 0 <= a < |f|
    ensures 0 <= b < |f| && f[b] == g[a]
    ensures top.lo <= a <= top.hi ==> top.lo <= b <= top.hi
    ensures !(top.lo <= a <= top.hi) ==> b == a
  {
    if top.lo <= a <= top.hi {
      b := CameFrom(f, g, top.lo, top.hi + 1, a);
    } else {
      b := a;
      if a < top.lo { assert f[..top.lo][a] == g[..top.lo][a]; }
      else { assert f[top.hi + 1..][a - top.hi - 1] == g[top.hi + 1..][a - top.hi - 1]; }
    }
  }

  // ---- Stack depth and termination ----

  /** What is left to do on a segment: splitting off the entries equal at depth d counts as
      progress because they go one character deeper. */
  function Weight(s: Segment): int { 4 * s.Size() * (17 - s.d) + 1 }

  ghost predicate Sized(st: seq<Segment>)
  {
    forall t | 0 <= t < |st| :: st[t].Size() >= 0 && 0 <= st[t].d <= 15
  }

  ghost function Work(st: seq<Segment>): (w: int)
    ensures Sized(st) ==> w >= 0
  {
    if st == [] then 0 else
      assert Sized(st) ==> st[|st| - 1].Size() >= 0;
      Work(st[..|st| - 1]) + Weight(st[|st| - 1])
  }

  lemma WorkPush(st: seq<Segment>, s: Segment)
    ensures Work(st + [s]) == Work(st) + Weight(s)
  {
    assert (st + [s])[..|st|] == st;
  }

  /** Segments shrink towards the top, and at least halve every second place. */
  ghost predicate Shallow(st: seq<Segment>, n: int)
  {
    && Sized(st)
    && (forall t, u | 0 <= t < u < |st| :: st[u].Size() <= st[t].Size())
    && (forall t | 0 <= t < |st| - 2 :: st[t].Size() >= 1)
    && (forall t: nat | t < |st| :: st[t].Size() * Pow2((t + 1) / 2) <= n)
  }

  /** The parts of a segment, larger ones first. */
  ghost predicate PartsOf(kids: seq<Segment>, top: Segment)
  {
    && top.Size() >= 1 && 1 <= |kids| <= 3 && Sized(kids) && kids[0].Size() >= 1
    && (|kids| >= 2 ==> kids[1].Size() <= kids[0].Size())
    && (|kids| == 3 ==> kids[2].Size() <= kids[1].Size())
    && kids[0].Size() + (if |kids| >= 2 then kids[1].Size() else 0)
       + (if |kids| == 3 then kids[2].Size() else 0) <= top.Size()
  }

  lemma PartFits(top: Segment, kids: seq<Segment>, p: nat, k: nat, n: int)
    requires PartsOf(kids, top) && k < |kids|
    requires top.Size() * Pow2((p + 1) / 2) <= n
    ensures kids[k].Size() * Pow2((p + k + 1) / 2) <= n
  {
    if k == 0 {
      MulLe(kids[0].Size(), top.Size(), Pow2((p + 1) / 2));
    } else {
      Pow2Monotone((p + k + 1) / 2, (p + 1) / 2 + 1);
      HalfFits(kids[k].Size(), top.Size(), Pow2((p + k + 1) / 2), Pow2((p + 1) / 2));
    }
  }

  /** Pushing the parts of the top segment, larger ones first, keeps the stack shallow. */
  lemma PushParts(rest: seq<Segment>, top: Segment, kids: seq<Segment>, n: int)
    requires Shallow(rest + [top], n) && PartsOf(kids, top)
    ensures Shallow(rest + kids, n)
  {
    var st, st', p := rest + [top], rest + kids, |rest|;
    assert st[p] == top;
    forall t: nat | t < |st'|
      ensures st'[t].Size() * Pow2((t + 1) / 2) <= n
      ensures st'[t].Size() >= 0 && 0 <= st'[t].d <= 15
      ensures t < p ==> st'[t].Size() >= top.Size()
    {
      if t < p {
        assert st'[t] == st[t];
      } else {
        assert st'[t] == kids[t - p];
        PartFits(top, kids, p, t - p, n);
      }
    }
    forall t, u | 0 <= t < u < |st'| ensures st'[u].Size() <= st'[t].Size() {
      if u < p { assert st'[t] == st[t] && st'[u] == st[u]; }
      if p <= u { assert st'[u] == kids[u - p]; }
      if p <= t { assert st'[t] == kids[t - p]; }
    }
  }

  lemma MulLe(a: int, b: int, q: int)
    requires a <= b && q >= 0
    ensures a * q <= b * q
  {}

  lemma HalfFits(k: int, s: int, q: int, r: int)
    requires 0 <= 2 * k <= s && 0 <= q <= 2 * r
    ensures k * q <= s * r
  {
    MulLe(q, 2 * r, k);
    MulLe(2 * k, s, r);
    assert (2 * r) * k == (2 * k) * r;
  }

  /** Popping keeps the stack shallow. */
  lemma Popped(st: seq<Segment>, n: int)
    requires Shallow(st, n) && st != []
    ensures Shallow(st[..|st| - 1], n)
  {}

  /** A shallow stack over at most 2^20 entries never exceeds 43 segments. */
  lemma StackBound(st: seq<Segment>, n: int)
    requires Shallow(st, n) && n <= 0x100000
    ensures |st| <= 43
  {
    if |st| > 43 {
      var t: nat := |st| - 3;
      Pow2Monotone(21, (t + 1) / 2);
      Pow2Values();
      MulLe(1, st[t].Size(), Pow2((t + 1) / 2));
    }
  }

  /** Dropping the top segment is progress. */
  lemma DropMeasures(rest: seq<Segment>, top: Segment, size: int)
    requires Shallow(rest + [top], size)
    ensures Shallow(rest, size) && 0 <= Work(rest) < Work(rest + [top])
  {
    hide Shallow, Weight;
    Popped(rest + [top], size);
    assert (rest + [top])[..|rest|] == rest;
    WorkPush(rest, top);
    TopWeight(rest, top, size);
  }

  lemma TopWeight(rest: seq<Segment>, top: Segment, size: int)
    requires Shallow(rest + [top], size) && Shallow(rest, size)
    ensures Weight(top) > 0 && Work(rest) >= 0
  {
    hide Work;
    assert (rest + [top])[|rest|] == top;
    WeightPositive(top);
    SizedWork(rest);
  }

  lemma WeightPositive(top: Segment)
    requires top.Size() >= 0 && 0 <= top.d <= 15
    ensures Weight(top) > 0
  {
    MulLe(0, 4 * top.Size(), 17 - top.d);
  }

  lemma SizedWork(st: seq<Segment>)
    requires Sized(st)
    ensures Work(st) >= 0
  {}

  lemma TopInRange(rest: seq<Segment>, top: Segment, lo: int, hi: int)
    requires Disjoint(rest + [top], lo, hi)
    ensures lo <= top.lo <= top.hi + 1 <= hi + 1
  {
    assert (rest + [top])[|rest|] == top;
  }
}

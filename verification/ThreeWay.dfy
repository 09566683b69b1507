/** The three-way partition that both quicksorts of the block sorter share: entries of ptr are
    compared by the key found d places after them, key[ptr[i] + d]. */
module ThreeWay {
  import opened Rotations
  import opened Rearrange

  /** The entries of f in [lo, hi) have keys in e. */
  ghost predicate Indexes(f: seq<int>, e: seq<int>, d: int, lo: int, hi: int)
  {
    0 <= lo <= hi <= |f| && forall i | lo <= i < hi :: 0 <= f[i] && 0 <= f[i] + d < |e|
  }

  lemma IndexesKept(f: seq<int>, g: seq<int>, e: seq<int>, d: int, lo: int, hi: int, lo': int, hi': int)
    requires Indexes(f, e, d, lo', hi') && Rearranged(f, g, lo, hi) && lo' <= lo <= hi <= hi'
    ensures Indexes(g, e, d, lo', hi')
  {
    AllKept(f, g, lo, hi, x => 0 <= x && 0 <= x + d < |e|);
    forall i | lo' <= i < hi' ensures 0 <= g[i] && 0 <= g[i] + d < |e| {
      if i < lo { assert g[i] == g[..lo][i]; } else if hi <= i { assert g[i] == g[hi..][i - hi]; }
    }
  }

  /** Where the entry at a comes from when k entries from p1 on trade places with k from p2 on. */
  function Source(p1: int, p2: int, k: int, a: int): int {
    if p1 <= a < p1 + k then p2 + (a - p1) else if p2 <= a < p2 + k then p1 + (a - p2) else a
  }

  /** g is f with the k entries from p1 on and the k entries from p2 on exchanged. */
  ghost predicate Swapping(f: seq<int>, g: seq<int>, p1: int, p2: int, k: int)
  {
    && |g| == |f| && k >= 0
    && (k > 0 ==> 0 <= p1 && p1 + k <= p2 && p2 + k <= |f|)
    && forall a | 0 <= a < |f| :: g[a] == f[Source(p1, p2, k, a)]
  }

  lemma SwappingStep(f: seq<int>, g: seq<int>, p1: int, p2: int, k: int)
    requires k >= 0 && Swapping(f, g, p1, p2, k)
    requires 0 <= p1 && p1 + k < p2 && p2 + k < |f|
    ensures Swapping(f, Swapped(g, p1 + k, p2 + k), p1, p2, k + 1)
  {
    hide Swapped;
    var h := Swapped(g, p1 + k, p2 + k);
    forall a | 0 <= a < |f| ensures h[a] == f[Source(p1, p2, k + 1, a)] {
      if a != p1 + k && a != p2 + k { assert h[a] == g[a]; }
    }
  }

  lemma SwappingNone(f: seq<int>, p1: int, p2: int)
    ensures Swapping(f, f, p1, p2, 0)
  {}

  /** Exchanges the n entries from p1 on with the n entries from p2 on. */
  method VectorSwap(ptr: array<int>, p1: int, p2: int, n: int, ghost lo: int, ghost hi: int)
    requires 0 <= n && 0 <= lo <= hi <= ptr.Length
    requires n > 0 ==> lo <= p1 && p1 + n <= p2 && p2 + n <= hi
    modifies ptr
    ensures Rearranged(old(ptr[..]), ptr[..], lo, hi)
    ensures Swapping(old(ptr[..]), ptr[..], p1, p2, n)
  {
    hide Rearranged, Swapping, Source, Swapped;
    ghost var f0 := ptr[..];
    Reflexive(f0, lo, hi);
    SwappingNone(f0, p1, p2);
    var y1, y2, yn := p1, p2, n;
    while yn > 0
      invariant 0 <= yn <= n && y1 == p1 + n - yn && y2 == p2 + n - yn
      invariant Rearranged(f0, ptr[..], lo, hi)
      invariant Swapping(f0, ptr[..], p1, p2, n - yn)
    {
      ghost var f := ptr[..];
      Swap(f0, f, y1, y2, lo, hi);
      SwappingStep(f0, f, p1, p2, n - yn);
      Exchange(ptr, y1, y2);
      y1, y2, yn := y1 + 1, y2 + 1, yn - 1;
    }
  }

  // ---- Three-way partition ----

  /** During the scan: keys equal to med at both ends, smaller ones up to unLo, larger ones
      after unHi, and the middle not yet looked at. */
  ghost predicate Scanning(f: seq<int>, e: seq<int>, d: int, med: int, lo: int, ltLo: int, unLo: int, unHi: int, gtHi: int, hi: int)
    requires Indexes(f, e, d, lo, hi + 1)
  {
    && lo <= ltLo <= unLo <= unHi + 1 && unHi <= gtHi <= hi
    && (forall a | lo <= a < ltLo :: e[f[a] + d] == med)
    && (forall a | ltLo <= a < unLo :: e[f[a] + d] < med)
    && (forall a | unHi < a <= gtHi :: e[f[a] + d] > med)
    && (forall a | gtHi < a <= hi :: e[f[a] + d] == med)
  }

  lemma ScanSwapLow(f: seq<int>, e: seq<int>, d: int, med: int, lo: int, ltLo: int, unLo: int, unHi: int, gtHi: int, hi: int, f0: seq<int>)
    requires Indexes(f, e, d, lo, hi + 1) && Scanning(f, e, d, med, lo, ltLo, unLo, unHi, gtHi, hi)
    requires Rearranged(f0, f, lo, hi + 1) && unLo <= unHi && e[f[unLo] + d] == med
    ensures var g := Swapped(f, unLo, ltLo);
            && Rearranged(f0, g, lo, hi + 1) && Indexes(g, e, d, lo, hi + 1)
            && Scanning(g, e, d, med, lo, ltLo + 1, unLo + 1, unHi, gtHi, hi)
  {
    hide Rearranged;
    Swap(f0, f, unLo, ltLo, lo, hi + 1);
  }

  lemma ScanSwapHigh(f: seq<int>, e: seq<int>, d: int, med: int, lo: int, ltLo: int, unLo: int, unHi: int, gtHi: int, hi: int, f0: seq<int>)
    requires Indexes(f, e, d, lo, hi + 1) && Scanning(f, e, d, med, lo, ltLo, unLo, unHi, gtHi, hi)
    requires Rearranged(f0, f, lo, hi + 1) && unLo <= unHi && e[f[unHi] + d] == med
    ensures var g := Swapped(f, unHi, gtHi);
            && Rearranged(f0, g, lo, hi + 1) && Indexes(g, e, d, lo, hi + 1)
            && Scanning(g, e, d, med, lo, ltLo, unLo, unHi - 1, gtHi - 1, hi)
  {
    hide Rearranged;
    Swap(f0, f, unHi, gtHi, lo, hi + 1);
  }

  lemma ScanSwapMiddle(f: seq<int>, e: seq<int>, d: int, med: int, lo: int, ltLo: int, unLo: int, unHi: int, gtHi: int, hi: int, f0: seq<int>)
    requires Indexes(f, e, d, lo, hi + 1) && Scanning(f, e, d, med, lo, ltLo, unLo, unHi, gtHi, hi)
    requires Rearranged(f0, f, lo, hi + 1) && unLo < unHi && e[f[unLo] + d] > med && e[f[unHi] + d] < med
    ensures var g := Swapped(f, unLo, unHi);
            && Rearranged(f0, g, lo, hi + 1) && Indexes(g, e, d, lo, hi + 1)
            && Scanning(g, e, d, med, lo, ltLo, unLo + 1, unHi - 1, gtHi, hi)
  {
    hide Rearranged;
    Swap(f0, f, unLo, unHi, lo, hi + 1);
  }

  /** The scan of fallbackQSort3: the equal keys gather at both ends. */
  method Scan(ptr: array<int>, key: array<int>, d: int, lo: int, hi: int, med: int)
    returns (ltLo: int, unLo: int, unHi: int, gtHi: int)
    requires ptr != key && lo <= hi
    requires Indexes(ptr[..], key[..], d, lo, hi + 1)
    modifies ptr
    ensures Rearranged(old(ptr[..]), ptr[..], lo, hi + 1)
    ensures Indexes(ptr[..], key[..], d, lo, hi + 1)
    ensures Scanning(ptr[..], key[..], d, med, lo, ltLo, unLo, unHi, gtHi, hi) && unHi == unLo - 1
  {
    hide Rearranged, Scanning, Swapped;
    ghost var f0, e := ptr[..], key[..];
    Reflexive(f0, lo, hi + 1);
    unLo, ltLo, unHi, gtHi := lo, lo, hi, hi;
    ScanStart(f0, e, d, med, lo, hi);
    while true
      invariant Rearranged(f0, ptr[..], lo, hi + 1)
      invariant Indexes(ptr[..], e, d, lo, hi + 1)
      invariant Scanning(ptr[..], e, d, med, lo, ltLo, unLo, unHi, gtHi, hi)
      decreases unHi - unLo
    {
      ltLo, unLo := ScanLow(ptr, key, d, lo, ltLo, unLo, unHi, gtHi, hi, med, f0);
      unHi, gtHi := ScanHigh(ptr, key, d, lo, ltLo, unLo, unHi, gtHi, hi, med, f0);
      ScanBounds(ptr[..], e, d, med, lo, ltLo, unLo, unHi, gtHi, hi);
      if unLo > unHi { break; }
      ghost var f := ptr[..];
      ScanSwapMiddle(f, e, d, med, lo, ltLo, unLo, unHi, gtHi, hi, f0);
      Exchange(ptr, unLo, unHi);
      unLo, unHi := unLo + 1, unHi - 1;
    }
  }

  lemma ScanStart(f: seq<int>, e: seq<int>, d: int, med: int, lo: int, hi: int)
    requires Indexes(f, e, d, lo, hi + 1) && lo <= hi
    ensures Scanning(f, e, d, med, lo, lo, lo, hi, hi, hi)
  {}

  lemma ScanBounds(f: seq<int>, e: seq<int>, d: int, med: int, lo: int, ltLo: int, unLo: int, unHi: int, gtHi: int, hi: int)
    requires Indexes(f, e, d, lo, hi + 1) && Scanning(f, e, d, med, lo, ltLo, unLo, unHi, gtHi, hi)
    ensures lo <= ltLo <= unLo <= unHi + 1 && unHi <= gtHi <= hi
  {}

  lemma ScanSmaller(f: seq<int>, e: seq<int>, d: int, med: int, lo: int, ltLo: int, unLo: int, unHi: int, gtHi: int, hi: int)
    requires Indexes(f, e, d, lo, hi + 1) && Scanning(f, e, d, med, lo, ltLo, unLo, unHi, gtHi, hi)
    requires unLo <= unHi && e[f[unLo] + d] < med
    ensures Scanning(f, e, d, med, lo, ltLo, unLo + 1, unHi, gtHi, hi)
  {}

  lemma ScanLarger(f: seq<int>, e: seq<int>, d: int, med: int, lo: int, ltLo: int, unLo: int, unHi: int, gtHi: int, hi: int)
    requires Indexes(f, e, d, lo, hi + 1) && Scanning(f, e, d, med, lo, ltLo, unLo, unHi, gtHi, hi)
    requires unLo <= unHi && e[f[unHi] + d] > med
    ensures Scanning(f, e, d, med, lo, ltLo, unLo, unHi - 1, gtHi, hi)
  {}

  method ScanLow(ptr: array<int>, key: array<int>, d: int, ghost lo: int, ltLo0: int, unLo0: int, unHi: int, ghost gtHi: int, ghost hi: int, med: int, ghost f0: seq<int>)
    returns (ltLo: int, unLo: int)
    requires ptr != key && Indexes(ptr[..], key[..], d, lo, hi + 1)
    requires Scanning(ptr[..], key[..], d, med, lo, ltLo0, unLo0, unHi, gtHi, hi)
    requires Rearranged(f0, ptr[..], lo, hi + 1)
    modifies ptr
    ensures Rearranged(f0, ptr[..], lo, hi + 1)
    ensures Indexes(ptr[..], key[..], d, lo, hi + 1)
    ensures Scanning(ptr[..], key[..], d, med, lo, ltLo, unLo, unHi, gtHi, hi)
    ensures unLo0 <= unLo && (unLo > unHi || key[ptr[unLo] + d] > med)
  {
    hide Rearranged, Swapped, Scanning;
    ghost var e := key[..];
    ltLo, unLo := ltLo0, unLo0;
    ScanBounds(ptr[..], e, d, med, lo, ltLo, unLo, unHi, gtHi, hi);
    while unLo <= unHi
      invariant unLo0 <= unLo && lo <= ltLo <= unLo && unHi <= hi
      invariant Rearranged(f0, ptr[..], lo, hi + 1)
      invariant Indexes(ptr[..], e, d, lo, hi + 1)
      invariant Scanning(ptr[..], e, d, med, lo, ltLo, unLo, unHi, gtHi, hi)
    {
      var n := key[ptr[unLo] + d] - med;
      if n == 0 {
        ghost var f := ptr[..];
        ScanSwapLow(f, e, d, med, lo, ltLo, unLo, unHi, gtHi, hi, f0);
        Exchange(ptr, unLo, ltLo);
        ltLo, unLo := ltLo + 1, unLo + 1;
        continue;
      }
      if n > 0 { break; }
      ScanSmaller(ptr[..], e, d, med, lo, ltLo, unLo, unHi, gtHi, hi);
      unLo := unLo + 1;
    }
  }

  method ScanHigh(ptr: array<int>, key: array<int>, d: int, ghost lo: int, ghost ltLo: int, unLo: int, unHi0: int, gtHi0: int, ghost hi: int, med: int, ghost f0: seq<int>)
    returns (unHi: int, gtHi: int)
    requires ptr != key && Indexes(ptr[..], key[..], d, lo, hi + 1)
    requires Scanning(ptr[..], key[..], d, med, lo, ltLo, unLo, unHi0, gtHi0, hi)
    requires Rearranged(f0, ptr[..], lo, hi + 1)
    requires unLo > unHi0 || key[ptr[unLo] + d] > med
    modifies ptr
    ensures Rearranged(f0, ptr[..], lo, hi + 1)
    ensures Indexes(ptr[..], key[..], d, lo, hi + 1)
    ensures Scanning(ptr[..], key[..], d, med, lo, ltLo, unLo, unHi, gtHi, hi)
    ensures unHi <= unHi0
    ensures unLo > unHi || (unLo < unHi && key[ptr[unHi] + d] < med && key[ptr[unLo] + d] > med)
  {
    hide Rearranged, Swapped, Scanning;
    ghost var e := key[..];
    unHi, gtHi := unHi0, gtHi0;
    ScanBounds(ptr[..], e, d, med, lo, ltLo, unLo, unHi, gtHi, hi);
    while unLo <= unHi
      invariant unHi <= unHi0 && lo <= unLo && unHi <= gtHi <= hi
      invariant Rearranged(f0, ptr[..], lo, hi + 1)
      invariant Indexes(ptr[..], e, d, lo, hi + 1)
      invariant Scanning(ptr[..], e, d, med, lo, ltLo, unLo, unHi, gtHi, hi)
      invariant unLo > unHi || e[ptr[unLo] + d] > med
    {
      var n := key[ptr[unHi] + d] - med;
      if n == 0 {
        ghost var f := ptr[..];
        ScanSwapHigh(f, e, d, med, lo, ltLo, unLo, unHi, gtHi, hi, f0);
        Exchange(ptr, unHi, gtHi);
        gtHi, unHi := gtHi - 1, unHi - 1;
        continue;
      }
      if n < 0 { break; }
      ScanLarger(ptr[..], e, d, med, lo, ltLo, unLo, unHi, gtHi, hi);
      unHi := unHi - 1;
    }
  }

  // ---- Gathering the equal keys in the middle ----

  /** Keys below med up to n, equal to it between n and m, above it from m on. */
  ghost predicate Parted(f: seq<int>, e: seq<int>, d: int, med: int, lo: int, n: int, m: int, hi: int)
    requires Indexes(f, e, d, lo, hi + 1)
  {
    && lo <= n + 1 <= m <= hi + 1
    && (forall a | lo <= a <= n :: e[f[a] + d] < med)
    && (forall a | n < a < m :: e[f[a] + d] == med)
    && (forall a | m <= a <= hi :: e[f[a] + d] > med)
  }

  function Min(a: int, b: int): int { if a < b then a else b }

  /** Smaller keys gathered below n; larger keys still lie before the equal ones at the top. */
  ghost predicate LowGathered(f: seq<int>, e: seq<int>, d: int, med: int, lo: int, n: int, unLo: int, gtHi: int, hi: int)
    requires Indexes(f, e, d, lo, hi + 1)
  {
    && lo <= n + 1 <= unLo <= gtHi + 1 <= hi + 1
    && (forall a | lo <= a <= n :: e[f[a] + d] < med)
    && (forall a | n < a < unLo :: e[f[a] + d] == med)
    && (forall a | unLo <= a <= gtHi :: e[f[a] + d] > med)
    && (forall a | gtHi < a <= hi :: e[f[a] + d] == med)
  }

  lemma SwappingAt(f: seq<int>, g: seq<int>, p1: int, p2: int, k: int, a: int)
    requires Swapping(f, g, p1, p2, k) && 0 <= a < |f|
    ensures g[a] == f[Source(p1, p2, k, a)]
  {}

  lemma LowSwap(f: seq<int>, g: seq<int>, e: seq<int>, d: int, med: int, lo: int, ltLo: int, unLo: int, gtHi: int, hi: int)
    requires Indexes(f, e, d, lo, hi + 1) && Indexes(g, e, d, lo, hi + 1)
    requires Scanning(f, e, d, med, lo, ltLo, unLo, unLo - 1, gtHi, hi)
    requires var k := Min(ltLo - lo, unLo - ltLo); Swapping(f, g, lo, unLo - k, k)
    ensures LowGathered(g, e, d, med, lo, lo + unLo - ltLo - 1, unLo, gtHi, hi)
  {
    hide Swapping;
    var k := Min(ltLo - lo, unLo - ltLo);
    forall a | lo <= a <= hi
      ensures a < lo + unLo - ltLo ==> e[g[a] + d] < med
      ensures lo + unLo - ltLo <= a < unLo || gtHi < a ==> e[g[a] + d] == med
      ensures unLo <= a <= gtHi ==> e[g[a] + d] > med
    {
      SwappingAt(f, g, lo, unLo - k, k, a);
    }
  }

  lemma HighSwap(f: seq<int>, g: seq<int>, e: seq<int>, d: int, med: int, lo: int, n: int, unLo: int, gtHi: int, hi: int)
    requires Indexes(f, e, d, lo, hi + 1) && Indexes(g, e, d, lo, hi + 1)
    requires LowGathered(f, e, d, med, lo, n, unLo, gtHi, hi)
    requires var k := Min(hi - gtHi, gtHi - unLo + 1); Swapping(f, g, unLo, hi - k + 1, k)
    ensures Parted(g, e, d, med, lo, n, hi - (gtHi - unLo + 1) + 1, hi)
  {
    hide Swapping;
    var k := Min(hi - gtHi, gtHi - unLo + 1);
    forall a | lo <= a <= hi
      ensures a <= n ==> e[g[a] + d] < med
      ensures n < a <= hi - (gtHi - unLo + 1) ==> e[g[a] + d] == med
      ensures hi - (gtHi - unLo + 1) < a ==> e[g[a] + d] > med
    {
      SwappingAt(f, g, unLo, hi - k + 1, k, a);
    }
  }

  /** Some entry keeps the key med, so the middle part is never empty. */
  lemma MiddleNotEmpty(f: seq<int>, g: seq<int>, e: seq<int>, d: int, med: int, lo: int, n: int, m: int, hi: int, a: int)
    requires Indexes(f, e, d, lo, hi + 1) && Indexes(g, e, d, lo, hi + 1)
    requires Rearranged(f, g, lo, hi + 1) && Parted(g, e, d, med, lo, n, m, hi)
    requires lo <= a <= hi && e[f[a] + d] == med
    ensures n + 1 < m
  {
    var b := CameFrom(g, f, lo, hi + 1, a);
  }

  /** The first vector swap: equal keys from the low end move to the middle. */
  method GatherLow(ptr: array<int>, key: array<int>, d: int, lo: int, hi: int, ghost med: int, ltLo: int, unLo: int, ghost gtHi: int)
    requires ptr != key && Indexes(ptr[..], key[..], d, lo, hi + 1)
    requires Scanning(ptr[..], key[..], d, med, lo, ltLo, unLo, unLo - 1, gtHi, hi)
    modifies ptr
    ensures Rearranged(old(ptr[..]), ptr[..], lo, hi + 1) && Indexes(ptr[..], key[..], d, lo, hi + 1)
    ensures LowGathered(ptr[..], key[..], d, med, lo, lo + unLo - ltLo - 1, unLo, gtHi, hi)
  {
    hide Rearranged, Swapping, Scanning, LowGathered;
    ghost var f := ptr[..];
    ScanBounds(f, key[..], d, med, lo, ltLo, unLo, unLo - 1, gtHi, hi);
    var n := Min(ltLo - lo, unLo - ltLo);
    VectorSwap(ptr, lo, unLo - n, n, lo, hi + 1);
    IndexesKept(f, ptr[..], key[..], d, lo, hi + 1, lo, hi + 1);
    LowSwap(f, ptr[..], key[..], d, med, lo, ltLo, unLo, gtHi, hi);
  }

  /** The second vector swap: equal keys from the high end move to the middle. */
  method GatherHigh(ptr: array<int>, key: array<int>, d: int, lo: int, hi: int, ghost med: int, ghost n: int, unLo: int, gtHi: int)
    requires ptr != key && Indexes(ptr[..], key[..], d, lo, hi + 1)
    requires LowGathered(ptr[..], key[..], d, med, lo, n, unLo, gtHi, hi)
    modifies ptr
    ensures Rearranged(old(ptr[..]), ptr[..], lo, hi + 1) && Indexes(ptr[..], key[..], d, lo, hi + 1)
    ensures Parted(ptr[..], key[..], d, med, lo, n, hi - (gtHi - unLo + 1) + 1, hi)
  {
    hide Rearranged, Swapping, Parted;
    ghost var f := ptr[..];
    var m := Min(hi - gtHi, gtHi - unLo + 1);
    VectorSwap(ptr, unLo, hi - m + 1, m, lo, hi + 1);
    IndexesKept(f, ptr[..], key[..], d, lo, hi + 1, lo, hi + 1);
    HighSwap(f, ptr[..], key[..], d, med, lo, n, unLo, gtHi, hi);
  }

  /** Partitions ptr[lo..hi] around med, the key of one of its entries; done says that all
      keys are equal. */
  method Partition(ptr: array<int>, key: array<int>, d: int, lo: int, hi: int, med: int, ghost at: int)
    returns (done: bool, n: int, m: int)
    requires ptr != key && lo <= at <= hi
    requires Indexes(ptr[..], key[..], d, lo, hi + 1) && key[ptr[at] + d] == med
    modifies ptr
    ensures Rearranged(old(ptr[..]), ptr[..], lo, hi + 1)
    ensures Indexes(ptr[..], key[..], d, lo, hi + 1)
    ensures Parted(ptr[..], key[..], d, med, lo, n, m, hi) && n + 1 < m
    ensures done <==> n < lo && hi < m
  {
    hide Rearranged, Scanning, LowGathered, Parted, Indexes;
    ghost var f0, e := ptr[..], key[..];
    SomeKey(f0, e, d, lo, hi, at);
    var ltLo, unLo, unHi, gtHi := Scan(ptr, key, d, lo, hi, med);
    ghost var f1 := ptr[..];
    ScanBounds(f1, e, d, med, lo, ltLo, unLo, unHi, gtHi, hi);
    if gtHi < ltLo {
      done, n, m := true, lo - 1, hi + 1;
      AllEqual(f1, e, d, med, lo, ltLo, unLo, gtHi, hi);
      return;
    }
    GatherLow(ptr, key, d, lo, hi, med, ltLo, unLo, gtHi);
    ghost var f2 := ptr[..];
    Transitive(f0, f1, f2, lo, hi + 1);
    n := lo + unLo - ltLo - 1;
    GatherHigh(ptr, key, d, lo, hi, med, n, unLo, gtHi);
    Transitive(f0, f2, ptr[..], lo, hi + 1);
    m := hi - (gtHi - unHi) + 1;
    done := false;
    MiddleNotEmpty(f0, ptr[..], e, d, med, lo, n, m, hi, at);
  }

  lemma SomeKey(f: seq<int>, e: seq<int>, d: int, lo: int, hi: int, a: int)
    requires Indexes(f, e, d, lo, hi + 1) && lo <= a <= hi
    ensures 0 <= a < |f| && 0 <= f[a] + d < |e|
  {}

  lemma AllEqual(f: seq<int>, e: seq<int>, d: int, med: int, lo: int, ltLo: int, unLo: int, gtHi: int, hi: int)
    requires Indexes(f, e, d, lo, hi + 1) && gtHi < ltLo
    requires Scanning(f, e, d, med, lo, ltLo, unLo, unLo - 1, gtHi, hi)
    ensures Parted(f, e, d, med, lo, lo - 1, hi + 1, hi)
  {}
}

/** The main block sort: a two-character radix sort, then big bucket by big bucket a quicksort of
    what is not yet sorted, the copy scans, and the quadrant cache. */
module MainSort {
  import opened Rotations
  import opened BurrowsWheeler
  import opened Counting
  import opened Rearrange
  import opened MainCompare
  import opened MainQSort
  import opened PairBuckets
  import opened CopyScan
  import Bits

  const SETMASK := 0x20_0000

  // ftab entries stay below 2^22, where the mask operations are arithmetic.

  /** x & SETMASK */
  predicate Marked(x: int) { x >= SETMASK }

  /** x & CLEARMASK */
  function Clear(x: int): int { if x >= SETMASK then x - SETMASK else x }

  /** x | SETMASK */
  function Mark(x: int): int { if x >= SETMASK then x else x + SETMASK }

  /** ftab holds the starts of all small buckets, some of them marked. */
  ghost predicate TableOk(s: seq<int>, ft: seq<int>)
  {
    |ft| == 65537 && forall p | 0 <= p <= 65536 :: 0 <= ft[p] < 2 * SETMASK && Clear(ft[p]) == Start(s, p)
  }

  /** Marked buckets are sorted. */
  ghost predicate MarksOk(s: seq<int>, f: seq<int>, ft: seq<int>)
  {
    |ft| == 65537 && forall p | 0 <= p < 65536 && Marked(ft[p]) :: BucketSorted(s, f, p)
  }

  // ---- Step 2 ----

  /** Whether the copy scans of character c write bucket p. */
  predicate Refilled(c: int, done: seq<bool>, p: int)
    requires |done| == 256 && 0 <= p < 65536
  {
    p % 256 == c && !done[p / 256]
  }

  lemma UntouchedBucket(s: seq<int>, c: int, done: seq<bool>, f0: seq<int>, f: seq<int>, v: set<int>, lo: seq<int>, hi: seq<int>, up: bool, p: int, a: nat)
    requires Pass(s, c, done, f0, f, v, lo, hi, up) && 0 <= p < 65536 && !Refilled(c, done, p)
    requires Start(s, p) <= a < Start(s, p + 1)
    ensures a < |s| && f[a] == f0[a]
  {
    hide Filled, Goes;
    StartGrows(s, p + 1, 65536);
    forall t | 0 <= t < 256 && !done[t] ensures !(lo[t] <= a < hi[t]) {
      var q := t * 256 + c;
      if p < q { StartGrows(s, p + 1, q); } else if q < p { StartGrows(s, q + 1, p); }
    }
    PassUntouched(s, c, done, f0, f, v, lo, hi, up, a);
  }

  lemma BucketStays(s: seq<int>, f: seq<int>, g: seq<int>, p: int)
    requires |f| == |g| == |s| && forall a | Start(s, p) <= a < Start(s, p + 1) && a < |s| :: g[a] == f[a]
    ensures Full(s, f, p) ==> Full(s, g, p)
    ensures BucketSorted(s, f, p) ==> BucketSorted(s, g, p)
  {
    if Full(s, f, p) { SameSpan(f, g, Start(s, p), Start(s, p + 1)); }
  }

  /** What step 2 achieves. */
  ghost predicate Refills(s: seq<int>, c: int, done: seq<bool>, f0: seq<int>, f: seq<int>)
  {
    && |done| == 256 && AllFull(s, f)
    && forall p | 0 <= p < 65536 :: (if Refilled(c, done, p) then BucketSorted(s, f, p)
                                     else BucketSorted(s, f0, p) ==> BucketSorted(s, f, p))
  }

  lemma RefillsBucket(s: seq<int>, c: int, done: seq<bool>, f0: seq<int>, fL: seq<int>, f: seq<int>, lo0: seq<int>, top: seq<int>, lo: seq<int>, hi: seq<int>, y: nat, p: int)
    requires Scanned(s, c, done, f0, fL, f, lo0, top, lo, hi) && y < |s| && s[y] != c && 0 <= p < 65536 && |done| == 256
    ensures |f| == |s| && Full(s, f, p)
    ensures if Refilled(c, done, p) then BucketSorted(s, f, p) else BucketSorted(s, f0, p) ==> BucketSorted(s, f, p)
  {
    hide Known, Outer, Filled, Pass, Beneath, BucketSorted;
    ScannedParts(s, c, done, f0, fL, f, lo0, top, lo, hi);
    if Refilled(c, done, p) {
      Meet(s, c, done, f0, fL, f, lo0, top, lo, hi, y, p / 256);
    } else {
      forall a | Start(s, p) <= a < Start(s, p + 1) && a < |s| ensures f[a] == f0[a] {
        UntouchedBucket(s, c, done, f0, fL, Span(fL, Start(s, c * 256), top[c]), lo0, top, false, p, a);
        UntouchedBucket(s, c, done, fL, f, Span(f, lo[c], Start(s, c * 256 + 256)), lo, hi, true, p, a);
      }
      BucketStays(s, f0, f, p);
    }
  }

  lemma OneCharacterRefill(s: seq<int>, c: int, done: seq<bool>, f0: seq<int>, fL: seq<int>, f: seq<int>, lo0: seq<int>, top: seq<int>, lo: seq<int>, hi: seq<int>)
    requires Scanned(s, c, done, f0, fL, f, lo0, top, lo, hi) && |done| == 256
    requires forall i | 0 <= i < |s| :: s[i] == c
    requires Starts(s, c, lo0, 0) && Starts(s, c, hi, 1)
    ensures Refills(s, c, done, f0, f) && top[c] == 0 && lo[c] == |s|
  {
    hide Known, Outer, Filled, Beneath;
    var bb, be := Start(s, c * 256), Start(s, c * 256 + 256);
    OneCharacterPass(s, c, done, f0, fL, Span(fL, bb, top[c]), lo0, top, false);
    OneCharacterPass(s, c, done, fL, f, Span(f, lo[c], be), lo, hi, true);
    LessEnds(Pairs(s), c * 256 + c, c * 256 + c + 1, |s|);
    FullIsPerm(s, f);
    forall p | 0 <= p < 65536 ensures BucketSorted(s, f, p) {
      StartGrows(s, p, p + 1);
      forall a, b | Start(s, p) <= a < b < Start(s, p + 1) ensures Le(s, f[a], f[b], |s|) {
        OneCharacterOrder(s, c, f[a], f[b], |s|);
      }
    }
  }

  /** After both scans every bucket is full, the refilled ones are sorted, and the scans met:
      assertion 1007, including its rare second case. */
  lemma ScansRefill(s: seq<int>, c: int, done: seq<bool>, f0: seq<int>, fL: seq<int>, f: seq<int>, lo0: seq<int>, top: seq<int>, lo: seq<int>, hi: seq<int>)
    requires Scanned(s, c, done, f0, fL, f, lo0, top, lo, hi) && |done| == 256 && !done[c]
    requires Starts(s, c, lo0, 0) && Starts(s, c, hi, 1)
    ensures Refills(s, c, done, f0, f)
    ensures top[c] == lo[c] || (top[c] == 0 && lo[c] == |s|)
  {
    hide Scanned, Full, BucketSorted, AllFull;
    if forall i | 0 <= i < |s| :: s[i] == c {
      OneCharacterRefill(s, c, done, f0, fL, f, lo0, top, lo, hi);
    } else {
      var y :| 0 <= y < |s| && s[y] != c;
      forall p | 0 <= p < 65536
        ensures |f| == |s| && Full(s, f, p)
        ensures if Refilled(c, done, p) then BucketSorted(s, f, p) else BucketSorted(s, f0, p) ==> BucketSorted(s, f, p)
      {
        RefillsBucket(s, c, done, f0, fL, f, lo0, top, lo, hi, y, p);
      }
      RefillsBucket(s, c, done, f0, fL, f, lo0, top, lo, hi, y, 0);
      ScannedRange(s, c, done, f0, fL, f, lo0, top, lo, hi);
      Meet(s, c, done, f0, fL, f, lo0, top, lo, hi, y, c);
      AllFullFrom(s, f);
    }
  }

  lemma ScannedRange(s: seq<int>, c: int, done: seq<bool>, f0: seq<int>, fL: seq<int>, f: seq<int>, lo0: seq<int>, top: seq<int>, lo: seq<int>, hi: seq<int>)
    requires Scanned(s, c, done, f0, fL, f, lo0, top, lo, hi)
    ensures 0 <= c < 256
  {}

  lemma AllFullFrom(s: seq<int>, f: seq<int>)
    requires |f| == |s| && forall p | 0 <= p < 65536 :: Full(s, f, p)
    ensures AllFull(s, f)
  {}

  /** Step 2: sets up the copy positions and runs both scans; assertion 1007 holds after them. */
  method CopyScans(ptr: array<int>, block: array<int>, ftab: array<int>, copyStart: array<int>, copyEnd: array<int>,
                   bigDone: array<bool>, n: nat, ss: int, ghost s: seq<int>)
    requires ptr != block && ptr != ftab && ptr != copyStart && ptr != copyEnd && copyStart != copyEnd
    requires copyStart != block && copyEnd != block && copyStart != ftab && copyEnd != ftab
    requires copyStart.Length == copyEnd.Length == bigDone.Length == 256 && 0 <= ss < 256 && !bigDone[ss]
    requires |s| == n && 2 <= n <= ptr.Length && n <= block.Length && IsBytes(s)
    requires forall i | 0 <= i < n :: block[i] == s[i]
    requires TableOk(s, ftab[..]) && AllFull(s, ptr[..n]) && OthersSorted(s, ptr[..n], ss)
    modifies ptr, copyStart, copyEnd
    ensures Refills(s, ss, bigDone[..], old(ptr[..n]), ptr[..n]) && ptr[n..] == old(ptr[n..])
    ensures copyStart[ss] - 1 == copyEnd[ss] || (copyStart[ss] == 0 && copyEnd[ss] == n - 1)
  {
    hide AllFull, OthersSorted, Rising, Falling, TableOk, Refills, Scanned, IsBytes;
    ghost var f0, done := ptr[..n], bigDone[..];
    for j := 0 to 256
      invariant forall t | 0 <= t < j :: copyStart[t] == Start(s, t * 256 + ss)
      invariant forall t | 0 <= t < j :: copyEnd[t] == Start(s, t * 256 + ss + 1) - 1
      invariant ptr[..] == old(ptr[..])
    {
      TableAt(s, ftab[..], j * 256 + ss);
      TableAt(s, ftab[..], j * 256 + ss + 1);
      copyStart[j] := Clear(ftab[j * 256 + ss]);
      copyEnd[j] := Clear(ftab[j * 256 + ss + 1]) - 1;
    }
    ghost var lo0, hi := copyStart[..], Above(copyEnd[..]);
    TableAt(s, ftab[..], ss * 256);
    RisingStart(s, ss, done, f0, lo0);
    ScanUp(ptr, block, copyStart, n, Clear(ftab[ss * 256]), ss, bigDone, s, lo0);
    ghost var fL, top := ptr[..n], copyStart[..];
    RisingRange(s, ss, done, f0, fL, lo0, top, top[ss]);
    ghost var w := Span(fL, Start(s, ss * 256), top[ss]);
    TableAt(s, ftab[..], (ss + 1) * 256);
    FallingStart(s, ss, done, f0, fL, lo0, top, hi);
    ScanDown(ptr, block, copyEnd, n, Clear(ftab[(ss + 1) * 256]), ss, bigDone, s, hi, w, top);
    BothScanned(s, ss, done, f0, fL, ptr[..n], lo0, top, Above(copyEnd[..]), hi);
    ScansRefill(s, ss, done, f0, fL, ptr[..n], lo0, top, Above(copyEnd[..]), hi);
  }

  lemma TableAt(s: seq<int>, ft: seq<int>, p: int)
    requires TableOk(s, ft) && 0 <= p <= 65536
    ensures |ft| == 65537 && 0 <= ft[p] < 2 * SETMASK && Clear(ft[p]) == Start(s, p)
  {}

  lemma BothScanned(s: seq<int>, c: int, done: seq<bool>, f0: seq<int>, fL: seq<int>, f: seq<int>, lo0: seq<int>, top: seq<int>, lo: seq<int>, hi: seq<int>)
    requires IsBytes(s) && AllFull(s, f0) && |s| >= 2 && 0 <= c < 256 && |top| == |lo| == 256
    requires Rising(s, c, done, f0, fL, lo0, top, top[c])
    requires Start(s, c * 256) <= top[c] <= |fL|
    requires Falling(s, c, done, fL, f, lo, hi, lo[c] - 1, Span(fL, Start(s, c * 256), top[c]), top)
    ensures Scanned(s, c, done, f0, fL, f, lo0, top, lo, hi)
  {}

  // ---- Step 3 ----

  lemma {:induction false} ShrMonotone(x: nat, y: nat, k: nat)
    requires x <= y
    ensures Bits.Shr(x, k) <= Bits.Shr(y, k)
    decreases k
  {
    if k > 0 { ShrMonotone(x / 2, y / 2, k - 1); }
  }

  /** Unfinished characters have no quadrant values yet. */
  ghost predicate QuadrantsZero(block: seq<int>, quadrant: seq<int>, s: seq<int>, done: seq<bool>)
  {
    && |done| == 256 && Extended(block, s) && |quadrant| >= |s| + N_OVERSHOOT
    && forall i | 0 <= i < |s| + N_OVERSHOOT :: 0 <= block[i] < 256 && (!done[block[i]] ==> quadrant[i] == 0)
  }

  /** The values of rows from row `from` of the big bucket of c on are written; other characters
      keep theirs. */
  ghost predicate Ranked(block: seq<int>, q0: seq<int>, q: seq<int>, s: seq<int>, f: seq<int>, c: int, bb: int, from: int, be: int, shifts: nat)
  {
    && Extended(block, s) && |q| == |q0| >= |s| + N_OVERSHOOT && 0 <= bb <= from <= be <= |f| == |s|
    && (forall i | 0 <= i < |s| + N_OVERSHOOT && block[i] != c :: q[i] == q0[i])
    && forall a | from <= a < be :: 0 <= f[a] < |s| && q[f[a]] == Bits.Shr(a - bb, shifts)
                                    && (f[a] < N_OVERSHOOT ==> q[f[a] + |s|] == Bits.Shr(a - bb, shifts))
  }

  lemma RankStep(block: seq<int>, q0: seq<int>, q: seq<int>, s: seq<int>, f: seq<int>, c: int, bb: int, from: int, be: int, shifts: nat)
    requires Ranked(block, q0, q, s, f, c, bb, from, be, shifts) && bb < from && IsPerm(f, |s|)
    requires s[f[from - 1]] == c
    ensures var x, v := f[from - 1], Bits.Shr(from - 1 - bb, shifts);
            Ranked(block, q0, if x < N_OVERSHOOT then q[x := v][x + |s| := v] else q[x := v], s, f, c, bb, from - 1, be, shifts)
  {
    var x := f[from - 1];
    assert block[x] == s[Wrap(|s|, x)];
    if x < N_OVERSHOOT { assert block[x + |s|] == s[Wrap(|s|, x + |s|)]; }
    forall a | from <= a < be ensures f[a] != x {}
  }

  /** Once the whole bucket is ranked, the cache is right for c as well. */
  lemma RankedOk(block: seq<int>, q0: seq<int>, q: seq<int>, s: seq<int>, f: seq<int>, c: int, bb: int, be: int, shifts: nat, done: seq<bool>)
    requires Ranked(block, q0, q, s, f, c, bb, bb, be, shifts) && 0 <= c < 256
    requires QuadrantsOk(block, q0, s) && QuadrantsZero(block, q0, s, done)
    requires bb == Start(s, c * 256) && be == Start(s, c * 256 + 256) && IsBytes(s) && AllFull(s, f)
    requires RotationsSorted(s, f, bb, be - 1)
    ensures QuadrantsOk(block, q, s) && QuadrantsZero(block, q, s, done[c := true])
  {
    hide AllFull, Le, RotationsSorted;
    forall i, j | 0 <= i < |s| + N_OVERSHOOT && 0 <= j < |s| + N_OVERSHOOT && block[i] == block[j] && q[i] < q[j]
      ensures Le(s, Wrap(|s|, i), Wrap(|s|, j), |s|)
    {
      if block[i] == c {
        var a := RankAt(block, q0, q, s, f, c, bb, be, shifts, i);
        var b := RankAt(block, q0, q, s, f, c, bb, be, shifts, j);
        if b <= a { ShrMonotone(b - bb, a - bb, shifts); }
        RowsSorted(s, f, bb, be, a, b);
      } else {
        assert q0[i] < q0[j];
      }
    }
  }

  lemma RowsSorted(s: seq<int>, f: seq<int>, lo: int, hi: int, a: int, b: int)
    requires RotationsSorted(s, f, lo, hi - 1) && lo <= a < b < hi
    ensures 0 <= f[a] < |s| && 0 <= f[b] < |s| && Le(s, f[a], f[b], |s|)
  {}

  lemma RankAt(block: seq<int>, q0: seq<int>, q: seq<int>, s: seq<int>, f: seq<int>, c: int, bb: int, be: int, shifts: nat, i: nat) returns (a: nat)
    requires Ranked(block, q0, q, s, f, c, bb, bb, be, shifts) && 0 <= c < 256
    requires bb == Start(s, c * 256) && be == Start(s, c * 256 + 256) && IsBytes(s) && AllFull(s, f)
    requires i < |s| + N_OVERSHOOT && block[i] == c
    ensures bb <= a < be && f[a] == Wrap(|s|, i) && q[i] == Bits.Shr(a - bb, shifts)
  {
    hide AllFull;
    var x := Wrap(|s|, i);
    assert s[x] == c;
    a := MemberAt(s, f, x);
    StartGrows(s, c * 256, Pair(s, x));
    StartGrows(s, Pair(s, x) + 1, c * 256 + 256);
  }

  /** Step 3: records the rank of every rotation of the finished big bucket, scaled to 16 bits. */
  method UpdateQuadrants(ptr: array<int>, block: array<int>, quadrant: array<int>, n: nat, bbStart: nat, bbSize: nat,
                         ghost c: int, ghost s: seq<int>, ghost done: seq<bool>)
    requires quadrant != ptr && quadrant != block
    requires |s| == n && n <= ptr.Length && n <= 900000 && IsBytes(s) && 0 <= c < 256
    requires QuadrantsOk(block[..], quadrant[..], s) && QuadrantsZero(block[..], quadrant[..], s, done)
    requires bbStart == Start(s, c * 256) && bbStart + bbSize == Start(s, c * 256 + 256)
    requires AllFull(s, ptr[..n]) && RotationsSorted(s, ptr[..n], bbStart, bbStart + bbSize - 1)
    modifies quadrant
    ensures QuadrantsOk(block[..], quadrant[..], s) && QuadrantsZero(block[..], quadrant[..], s, done[c := true])
  {
    hide AllFull, Le, QuadrantsOk, QuadrantsZero, RotationsSorted, Ranked, IsPerm;
    ghost var f, q0 := ptr[..n], quadrant[..];
    StartGrows(s, c * 256 + 256, 65536);
    var shifts := 0;
    while Bits.Shr(bbSize, shifts) > 65534
      invariant shifts >= 0
      modifies {}
      decreases Bits.Shr(bbSize, shifts)
    {
      Bits.ShrNext(bbSize, shifts);
      shifts := shifts + 1;
    }
    assert quadrant[..] == q0;
    FullIsPerm(s, f);
    RankNone(block[..], q0, s, f, c, bbStart, bbStart + bbSize, shifts, done);
    var j := bbSize - 1;
    while j >= 0
      invariant -1 <= j < bbSize
      invariant Ranked(block[..], q0, quadrant[..], s, f, c, bbStart, bbStart + j + 1, bbStart + bbSize, shifts)
    {
      BigRow(s, f, c, bbStart + j);
      RankRange(block[..], q0, quadrant[..], s, f, c, bbStart, bbStart + j + 1, bbStart + bbSize, shifts);
      RankStep(block[..], q0, quadrant[..], s, f, c, bbStart, bbStart + j + 1, bbStart + bbSize, shifts);
      ghost var q := quadrant[..];
      var a2update := ptr[bbStart + j];
      assert a2update == f[bbStart + j];
      var qVal := Bits.Shr(j, shifts);
      ShrMonotone(j, bbSize, shifts);
      assert qVal <= 65535;                            // AssertH 1002, and nothing is truncated
      quadrant[a2update] := qVal;
      if a2update < N_OVERSHOOT { quadrant[a2update + n] := qVal; }
      assert quadrant[..] == if a2update < N_OVERSHOOT then q[a2update := qVal][a2update + n := qVal] else q[a2update := qVal];
      j := j - 1;
    }
    RankedOk(block[..], q0, quadrant[..], s, f, c, bbStart, bbStart + bbSize, shifts, done);
  }

  lemma BigRow(s: seq<int>, f: seq<int>, c: int, a: nat)
    requires IsBytes(s) && AllFull(s, f) && 0 <= c < 256 && Start(s, c * 256) <= a < Start(s, c * 256 + 256)
    ensures a < |s| == |f| && 0 <= f[a] < |s| && s[f[a]] == c
  {
    StartGrows(s, c * 256 + 256, 65536);
    OuterRow(s, f, c, a);
  }

  lemma RankNone(block: seq<int>, q: seq<int>, s: seq<int>, f: seq<int>, c: int, bb: int, be: int, shifts: nat, done: seq<bool>)
    requires QuadrantsZero(block, q, s, done) && 0 <= bb <= be <= |f| == |s|
    ensures Ranked(block, q, q, s, f, c, bb, be, be, shifts)
  {}

  lemma RankRange(block: seq<int>, q0: seq<int>, q: seq<int>, s: seq<int>, f: seq<int>, c: int, bb: int, from: int, be: int, shifts: nat)
    requires Ranked(block, q0, q, s, f, c, bb, from, be, shifts)
    ensures |s| >= 10000 && |q| >= |s| + N_OVERSHOOT
  {}

  // ---- The initial radix sort ----

  ghost predicate PairCounts(s: seq<int>, ft: seq<int>, i: nat)
  {
    i <= |s| && |ft| == 65537 && ft[65536] == 0
    && forall p | 0 <= p < 65536 :: ft[p] == Count(Pairs(s), p, |s|) - Count(Pairs(s), p, i)
  }

  lemma PairRange(s: seq<int>, i: nat)
    requires IsBytes(s) && i < |s|
    ensures Pairs(s)[i] == Pair(s, i) && 0 <= Pair(s, i) < 65536
  {}

  /** Counts the pairs from the end of the block, clears the quadrants and extends the block. */
  method CountPairs(block: array<int>, quadrant: array<int>, ftab: array<int>, n: nat, ghost s: seq<int>)
    requires block != quadrant && block != ftab && quadrant != ftab
    requires |s| == n && n >= 10000 && IsBytes(s) && ftab.Length == 65537
    requires n + N_OVERSHOOT <= block.Length && n + N_OVERSHOOT <= quadrant.Length
    requires forall i | 0 <= i < n :: block[i] == s[i]
    modifies block, quadrant, ftab
    ensures PairCounts(s, ftab[..], 0)
    ensures Extended(block[..], s) && forall i | 0 <= i < n + N_OVERSHOOT :: quadrant[i] == 0
  {
    for i := 0 to 65537
      invariant forall p | 0 <= p < i :: ftab[p] == 0
      invariant forall x | 0 <= x < n :: block[x] == s[x]
    {
      ftab[i] := 0;
    }
    var j := block[0] * 256;
    for i := n downto 0
      invariant j / 256 == s[if i == n then 0 else i]
      invariant PairCounts(s, ftab[..], i)
      invariant forall x | 0 <= x < n :: block[x] == s[x]
      invariant forall x | i <= x < n :: quadrant[x] == 0
    {
      quadrant[i] := 0;
      j := j / 256 + block[i] * 256;                   // the two parts of | share no bit
      PairRange(s, i);
      assert j == Pair(s, i);
      ftab[j] := ftab[j] + 1;
    }
    for i := 0 to N_OVERSHOOT
      invariant forall x | 0 <= x < n + i :: block[x] == s[Wrap(n, x)]
      invariant forall x | 0 <= x < n + i :: quadrant[x] == 0
      invariant PairCounts(s, ftab[..], 0)
    {
      block[n + i] := block[i];
      quadrant[n + i] := 0;
    }
  }

  method SumPairs(ftab: array<int>, ghost s: seq<int>)
    requires IsBytes(s) && ftab.Length == 65537 && PairCounts(s, ftab[..], 0)
    modifies ftab
    ensures forall p | 0 <= p < 65536 :: ftab[p] == Start(s, p + 1)
    ensures ftab[65536] == |s|
  {
    StartEnds(s);
    ghost var l, n := Pairs(s), |s|;
    LessNext(l, 0, n);
    for i := 1 to 65537
      invariant forall p | 0 <= p < i && p < 65536 :: ftab[p] == Start(s, p + 1)
      invariant forall p | i <= p < 65536 :: ftab[p] == Count(l, p, n)
      invariant ftab[65536] == if i == 65537 then n else 0
    {
      LessNext(l, i, n);
      ftab[i] := ftab[i] + ftab[i - 1];
    }
  }

  /** Rotations from i on sit in their rows, and ft points just above the free rows. */
  ghost predicate PairsPlaced(s: seq<int>, ft: seq<int>, f: seq<int>, i: nat)
  {
    && i <= |s| <= |f| && |ft| == 65537 && ft[65536] == |s|
    && (forall p | 0 <= p < 65536 :: ft[p] == Start(s, p) + Count(Pairs(s), p, i))
    && forall x | i <= x < |s| :: 0 <= SortedRow(Pairs(s), x) < |s| && f[SortedRow(Pairs(s), x)] == x
  }

  lemma PlacePair(s: seq<int>, ft: seq<int>, f: seq<int>, i: nat)
    requires IsBytes(s) && i < |s| && PairsPlaced(s, ft, f, i + 1)
    ensures 0 <= Pair(s, i) < 65536
    ensures var j := ft[Pair(s, i)] - 1; 0 <= j < |s| && PairsPlaced(s, ft[Pair(s, i) := j], f[j := i], i)
  {
    PairRange(s, i);
    var l, j := Pairs(s), ft[Pair(s, i)] - 1;
    assert j == SortedRow(l, i);
    SortedRowInRange(l, i);
    forall x | i < x < |s| ensures SortedRow(l, x) != j {
      if l[x] < l[i] { SortedRowOrder(l, x, i); } else { SortedRowOrder(l, i, x); }
    }
  }

  /** Every row holds the rotation that belongs there. */
  lemma PlacedRows(s: seq<int>, ft: seq<int>, f: seq<int>)
    requires |f| == |s| && PairsPlaced(s, ft, f, 0)
    ensures forall a | 0 <= a < |s| :: 0 <= f[a] < |s| && SortedRow(Pairs(s), f[a]) == a
  {
    hide SortedRow, Pairs;
    var l := Pairs(s);
    var slot := (x: int) => if 0 <= x < |s| then SortedRow(l, x) else 0;
    forall x, y | 0 <= x < y < |s| ensures slot(x) != slot(y) {
      if l[y] < l[x] { SortedRowOrder(l, y, x); } else { SortedRowOrder(l, x, y); }
    }
    OntoIsPerm(f, |s|, slot);
    forall a | 0 <= a < |s| ensures SortedRow(l, f[a]) == a { assert slot(f[a]) == a; }
  }

  lemma PairsFull(s: seq<int>, ft: seq<int>, f: seq<int>, p: int)
    requires IsBytes(s) && |f| == |s| && PairsPlaced(s, ft, f, 0) && 0 <= p < 65536
    requires forall a | 0 <= a < |s| :: 0 <= f[a] < |s| && SortedRow(Pairs(s), f[a]) == a
    ensures Full(s, f, p)
  {
    hide SortedRow, Pairs, Pair, Start;
    StartGrows(s, p, p + 1);
    StartGrows(s, p + 1, 65536);
    forall x ensures x in Span(f, Start(s, p), Start(s, p + 1)) <==> x in Members(s, p) {
      if x in Span(f, Start(s, p), Start(s, p + 1)) {
        var a :| Start(s, p) <= a < Start(s, p + 1) && f[a] == x;
        RowBounds(s, x);
        var q := Pair(s, x);
        if q < p { StartGrows(s, q + 1, p); } else if p < q { StartGrows(s, p + 1, q); }
      }
      if x in Members(s, p) {
        RowBounds(s, x);
        assert f[SortedRow(Pairs(s), x)] == x;
      }
    }
  }

  lemma PairsAllPlaced(s: seq<int>, ft: seq<int>, f: seq<int>)
    requires IsBytes(s) && |f| == |s| && PairsPlaced(s, ft, f, 0)
    ensures AllFull(s, f)
  {
    hide PairsPlaced, Full, SortedRow;
    PlacedRows(s, ft, f);
    forall p | 0 <= p < 65536 ensures Full(s, f, p) { PairsFull(s, ft, f, p); }
  }

  lemma RowBounds(s: seq<int>, x: nat)
    requires x < |s|
    ensures Start(s, Pair(s, x)) <= SortedRow(Pairs(s), x) < Start(s, Pair(s, x) + 1)
  {
    LessNext(Pairs(s), Pair(s, x), |s|);
    CountMonotone(Pairs(s), Pair(s, x), x, |s|);
  }

  method PlacePairs(ptr: array<int>, block: array<int>, ftab: array<int>, n: nat, ghost s: seq<int>)
    requires ptr != block && ptr != ftab && ftab != block
    requires |s| == n && n >= 10000 && n <= ptr.Length && IsBytes(s) && ftab.Length == 65537 && n <= 900000
    requires n <= block.Length && forall i | 0 <= i < n :: block[i] == s[i]
    requires forall p | 0 <= p < 65536 :: ftab[p] == Start(s, p + 1)
    requires ftab[65536] == n
    modifies ptr, ftab
    ensures AllFull(s, ptr[..n]) && TableOk(s, ftab[..]) && forall p | 0 <= p < 65536 :: !Marked(ftab[p])
  {
    hide AllFull, PairsPlaced, Pairs, Start;
    PairsStart(s, ftab[..], ptr[..]);
    var c := block[0] * 256;
    for i := n downto 0
      invariant c / 256 == s[if i == n then 0 else i]
      invariant PairsPlaced(s, ftab[..], ptr[..], i)
    {
      c := c / 256 + block[i] * 256;
      ghost var ft, f := ftab[..], ptr[..];
      PlacePair(s, ft, f, i);
      assert c == Pair(s, i);
      var j := ftab[c] - 1;
      ftab[c] := j;
      ptr[j] := i;
      assert ftab[..] == ft[c := j] && ptr[..] == f[j := i];
    }
    PairsEnd(s, ftab[..], ptr[..]);
  }

  lemma PairsStart(s: seq<int>, ft: seq<int>, f: seq<int>)
    requires |ft| == 65537 && |s| <= |f| && ft[65536] == |s|
    requires forall p | 0 <= p < 65536 :: ft[p] == Start(s, p + 1)
    ensures PairsPlaced(s, ft, f, |s|)
  {
    forall p | 0 <= p < 65536 ensures ft[p] == Start(s, p) + Count(Pairs(s), p, |s|) { LessNext(Pairs(s), p, |s|); }
  }

  lemma PairsEnd(s: seq<int>, ft: seq<int>, f: seq<int>)
    requires IsBytes(s) && |s| <= 900000 && PairsPlaced(s, ft, f, 0)
    ensures AllFull(s, f[..|s|]) && TableOk(s, ft) && |ft| == 65537 && forall p | 0 <= p < 65536 :: !Marked(ft[p])
  {
    hide AllFull, SortedRow;
    PairsPrefix(s, ft, f);
    PairsAllPlaced(s, ft, f[..|s|]);
    StartEnds(s);
    forall p | 0 <= p <= 65536 ensures 0 <= ft[p] < SETMASK && ft[p] == Start(s, p) {
      StartGrows(s, p, 65536);
    }
  }

  lemma PairsPrefix(s: seq<int>, ft: seq<int>, f: seq<int>)
    requires PairsPlaced(s, ft, f, 0)
    ensures PairsPlaced(s, ft, f[..|s|], 0)
  {
    hide SortedRow, Pairs;
  }

  // ---- The order in which big buckets are processed ----

  /** BIGFREQ */
  function BigFreq(ft: seq<int>, b: int): int
    requires 0 <= b < 256 && |ft| == 65537
  {
    ft[(b + 1) * 256] - ft[b * 256]
  }

  /** Buckets h places apart are in order of size, up to place hi. */
  ghost predicate Spaced(f: seq<int>, ft: seq<int>, h: int, hi: int)
  {
    && |ft| == 65537 && 1 <= h && |f| == 256 && (forall x | 0 <= x < 256 :: 0 <= f[x] < 256)
    && forall x | h <= x < hi && x < 256 :: BigFreq(ft, f[x - h]) <= BigFreq(ft, f[x])
  }

  /** vv, which came from place i, has its hole at place j. */
  ghost predicate Moving(f: seq<int>, ft: seq<int>, h: int, i: int, j: int, vv: int)
  {
    && Spaced(f, ft, h, if j < i then i + 1 else i) && 0 <= vv < 256 && i < 256 && 0 <= j <= i && (j == i ==> f[j] == vv)
    && (j + h <= i ==> BigFreq(ft, vv) < BigFreq(ft, f[j + h]))
  }

  /** One insertion of the shell sort of the running order. */
  method OrderInsert(runningOrder: array<int>, ftab: array<int>, h: int, i: int)
    requires runningOrder != ftab && runningOrder.Length == 256 && ftab.Length == 65537
    requires 1 <= h <= i < 256 && IsPerm(runningOrder[..], 256) && Spaced(runningOrder[..], ftab[..], h, i)
    modifies runningOrder
    ensures IsPerm(runningOrder[..], 256) && Spaced(runningOrder[..], ftab[..], h, i + 1)
  {
    hide IsPerm, Rearranged, Swapped, BigFreq, Moving, Spaced;
    ghost var f0, full, ft := runningOrder[..], runningOrder[..], ftab[..];
    Reflexive(f0, 0, 256);
    var vv := runningOrder[i];
    var j := i;
    MoveStarts(f0, ft, h, i);
    MovingBytes(f0, ft, h, i, j, vv);
    while BigFreq(ftab[..], runningOrder[j - h]) > BigFreq(ftab[..], vv)
      invariant h <= j <= i && |full| == 256 && full[j] == vv && 0 <= vv < 256 && 0 <= runningOrder[j - h] < 256
      invariant forall x | 0 <= x < 256 && x != j :: full[x] == runningOrder[x]
      invariant Rearranged(f0, full, 0, 256) && ftab[..] == ft && Moving(runningOrder[..], ft, h, i, j, vv)
      decreases j
    {
      Swap(f0, full, j - h, j, 0, 256);
      full := Swapped(full, j - h, j);
      Shifted(runningOrder[..], ft, h, i, j, vv);
      runningOrder[j] := runningOrder[j - h];
      j := j - h;
      if j <= h - 1 { break; }
      MovingBytes(runningOrder[..], ft, h, i, j, vv);
    }
    Inserted(runningOrder[..], ft, h, i, j, vv);
    runningOrder[j] := vv;
    assert runningOrder[..] == full;
    OrderKept(f0, full);
  }

  lemma MoveStarts(f: seq<int>, ft: seq<int>, h: int, i: int)
    requires 1 <= h <= i < 256 && Spaced(f, ft, h, i)
    ensures Moving(f, ft, h, i, i, f[i])
  {}

  lemma MovingBytes(f: seq<int>, ft: seq<int>, h: int, i: int, j: int, vv: int)
    requires Moving(f, ft, h, i, j, vv) && j >= h
    ensures |ft| == 65537 && 1 <= h && |f| == 256 && 0 <= f[j - h] < 256 && 0 <= vv < 256
  {}

  /** An entry moves h places up. */
  lemma Shifted(f: seq<int>, ft: seq<int>, h: int, i: int, j: int, vv: int)
    requires Moving(f, ft, h, i, j, vv) && h <= j && |f| == 256 && |ft| == 65537 && 0 <= f[j - h] < 256 && BigFreq(ft, f[j - h]) > BigFreq(ft, vv)
    ensures Moving(f[j := f[j - h]], ft, h, i, j - h, vv)
  {
    hide BigFreq;
    var g := f[j := f[j - h]];
    forall x | h <= x < i + 1 ensures BigFreq(ft, g[x - h]) <= BigFreq(ft, g[x]) {
      if x - h == j { assert BigFreq(ft, f[j - h]) <= BigFreq(ft, f[j]); }
    }
  }

  /** The entry finds its place. */
  lemma Inserted(f: seq<int>, ft: seq<int>, h: int, i: int, j: int, vv: int)
    requires Moving(f, ft, h, i, j, vv) && |f| == 256 && |ft| == 65537 && j < 256
    requires j >= h ==> 0 <= f[j - h] < 256 && BigFreq(ft, f[j - h]) <= BigFreq(ft, vv)
    ensures Spaced(f[j := vv], ft, h, i + 1)
  {
    hide BigFreq;
  }

  lemma OrderKept(f: seq<int>, g: seq<int>)
    requires |f| == |g| == 256 && IsPerm(f, 256) && Rearranged(f, g, 0, 256)
    ensures IsPerm(g, 256)
  {
    assert f[..256] == f && g[..256] == g;
    StaysPerm(f, g, 0, 256, 256);
  }

  /** The big buckets from the smallest to the largest, each once. */
  method RunningOrder(runningOrder: array<int>, ftab: array<int>)
    requires runningOrder != ftab && runningOrder.Length == 256 && ftab.Length == 65537
    modifies runningOrder
    ensures IsPerm(runningOrder[..], 256)
    ensures forall x, y | 0 <= x <= y < 256 :: 0 <= runningOrder[x] < 256 && 0 <= runningOrder[y] < 256
                                               && BigFreq(ftab[..], runningOrder[x]) <= BigFreq(ftab[..], runningOrder[y])
  {
    hide BigFreq, IsPerm, Spaced;
    for i := 0 to 256
      invariant forall x | 0 <= x < i :: runningOrder[x] == x
    {
      runningOrder[i] := i;
    }
    IotaPerm(runningOrder[..]);
    var h := 1;
    while h <= 256
      invariant h in {1, 4, 13, 40, 121, 364}
      decreases 364 - h
    {
      h := 3 * h + 1;
    }
    while h != 1
      invariant h in {1, 4, 13, 40, 121, 364} && IsPerm(runningOrder[..], 256)
      invariant h == 1 ==> Spaced(runningOrder[..], ftab[..], 1, 256)
      decreases h
    {
      h := h / 3;
      NoneSpaced(runningOrder[..], ftab[..], h);
      for i := h to 256
        invariant IsPerm(runningOrder[..], 256) && Spaced(runningOrder[..], ftab[..], h, i)
      {
        OrderInsert(runningOrder, ftab, h, i);
      }
    }
    forall x, y | 0 <= x <= y < 256
      ensures 0 <= runningOrder[x] < 256 && 0 <= runningOrder[y] < 256 && BigFreq(ftab[..], runningOrder[x]) <= BigFreq(ftab[..], runningOrder[y])
    {
      InOrder(runningOrder[..], ftab[..], x, y);
    }
  }

  lemma IotaPerm(f: seq<int>)
    requires |f| == 256 && forall x | 0 <= x < 256 :: f[x] == x
    ensures IsPerm(f, 256)
  {}

  lemma NoneSpaced(f: seq<int>, ft: seq<int>, h: int)
    requires IsPerm(f, 256) && |f| == 256 && |ft| == 65537 && h >= 1
    ensures Spaced(f, ft, h, h)
  {}

  /** Neighbours in order are all in order. */
  lemma {:induction false} InOrder(f: seq<int>, ft: seq<int>, x: int, y: int)
    requires Spaced(f, ft, 1, 256) && 0 <= x <= y < 256
    ensures |ft| == 65537 && |f| == 256 && 0 <= f[x] < 256 && 0 <= f[y] < 256 && BigFreq(ft, f[x]) <= BigFreq(ft, f[y])
    decreases y
  {
    hide BigFreq;
    if x < y { InOrder(f, ft, x, y - 1); }
  }

  // ---- Step 1 ----

  lemma SpanRearranged(f: seq<int>, g: seq<int>, lo: nat, hi: nat)
    requires Rearranged(f, g, lo, hi)
    ensures Span(g, lo, hi) == Span(f, lo, hi)
  {
    forall x ensures x in Span(g, lo, hi) <==> x in Span(f, lo, hi) {
      if x in Span(g, lo, hi) {
        var b :| lo <= b < hi && g[b] == x;
        var a := CameFrom(f, g, lo, hi, b);
      }
      if x in Span(f, lo, hi) {
        var b :| lo <= b < hi && f[b] == x;
        var a := CameFrom(g, f, lo, hi, b);
      }
    }
  }

  /** Sorting inside one bucket leaves all buckets full and all sorted ones sorted. */
  lemma OneBucketSorted(s: seq<int>, f: seq<int>, g: seq<int>, p: int)
    requires AllFull(s, f) && 0 <= p < 65536 && Rearranged(f, g, Start(s, p), Start(s, p + 1))
    ensures AllFull(s, g)
    ensures forall q | 0 <= q < 65536 && q != p && BucketSorted(s, f, q) :: BucketSorted(s, g, q)
  {
    hide BucketSorted;
    forall q | 0 <= q < 65536
      ensures Full(s, g, q)
      ensures q != p && BucketSorted(s, f, q) ==> BucketSorted(s, g, q)
    {
      assert Full(s, f, q);
      if q == p {
        SpanRearranged(f, g, Start(s, p), Start(s, p + 1));
      } else {
        forall a | Start(s, q) <= a < Start(s, q + 1) && a < |s| ensures g[a] == f[a] {
          if q < p { StartGrows(s, q + 1, p); assert f[..Start(s, p)][a] == g[..Start(s, p)][a]; }
          else { StartGrows(s, p + 1, q); assert f[Start(s, p + 1)..][a - Start(s, p + 1)] == g[Start(s, p + 1)..][a - Start(s, p + 1)]; }
        }
        BucketStays(s, f, g, q);
      }
    }
  }

  lemma BucketAlike(s: seq<int>, f: seq<int>, full: seq<int>, p: int)
    requires IsBytes(s) && AllFull(s, f) && 0 <= p < 65536 && |s| <= |full| && f == full[..|s|]
    ensures Start(s, p) <= Start(s, p + 1) <= |s| && Alike(s, full, Start(s, p), Start(s, p + 1) - 1, 2)
  {
    StartGrows(s, p, p + 1);
    StartGrows(s, p + 1, 65536);
    assert Full(s, f, p);
    forall a | Start(s, p) <= a < Start(s, p + 1) ensures 0 <= full[a] < |s| && Pair(s, full[a]) == p {
      assert full[a] == f[a];
      assert f[a] in Span(f, Start(s, p), Start(s, p + 1));
    }
    forall a, b | Start(s, p) <= a < Start(s, p + 1) && Start(s, p) <= b < Start(s, p + 1)
      ensures Eq(s, full[a], full[b], 2)
    {
      SamePair(s, full[a], full[b]);
    }
  }

  lemma SamePair(s: seq<int>, x: nat, y: nat)
    requires IsBytes(s) && x < |s| && y < |s| && Pair(s, x) == Pair(s, y)
    ensures Eq(s, x, y, 2)
  {
    assert s[x] == s[y] && s[Next(|s|, x)] == s[Next(|s|, y)];
    assert Eq(s, Next(|s|, x), Next(|s|, y), 1);
  }

  /** What the main loop keeps: all buckets full, marked ones sorted, the table and the quadrant
      cache right, and everything involving a finished character marked. */
  ghost predicate MainOk(s: seq<int>, block: seq<int>, quadrant: seq<int>, f: seq<int>, ft: seq<int>, done: seq<bool>)
  {
    && IsBytes(s) && AllFull(s, f) && |ft| == 65537 && TableOk(s, ft) && MarksOk(s, f, ft) && |done| == 256
    && QuadrantsOk(block, quadrant, s) && QuadrantsZero(block, quadrant, s, done)
    && forall p | 0 <= p < 65536 && (done[p / 256] || done[p % 256]) :: Marked(ft[p])
  }

  /** ft' is ft with entry p marked. */
  lemma MarkOne(s: seq<int>, f: seq<int>, ft: seq<int>, p: int)
    requires TableOk(s, ft) && MarksOk(s, f, ft) && 0 <= p < 65536 && BucketSorted(s, f, p)
    ensures TableOk(s, ft[p := Mark(ft[p])]) && MarksOk(s, f, ft[p := Mark(ft[p])])
    ensures forall q | 0 <= q < 65536 :: Marked(ft[p := Mark(ft[p])][q]) == (Marked(ft[q]) || q == p)
  {
    hide BucketSorted;
  }

  lemma SmallBucketSorted(s: seq<int>, f: seq<int>, p: int)
    requires IsBytes(s) && AllFull(s, f) && 0 <= p < 65536 && Start(s, p + 1) - 1 <= Start(s, p)
    ensures BucketSorted(s, f, p)
  {
    StartGrows(s, p, p + 1);
    StartGrows(s, p + 1, 65536);
    if Start(s, p) < Start(s, p + 1) { RowInBucket(s, f, Start(s, p)); }
  }

  lemma SortedPrefix(s: seq<int>, full: seq<int>, n: nat, lo: int, hi: int)
    requires RotationsSorted(s, full, lo, hi) && hi < n <= |full|
    ensures RotationsSorted(s, full[..n], lo, hi)
  {
    assert forall a | lo <= a <= hi :: full[..n][a] == full[a];
  }

  /** Sorts one small bucket unless it is already marked, then marks it. */
  method SortSmallBucket(ptr: array<int>, block: array<int>, quadrant: array<int>, ftab: array<int>, n: nat, sb: int, budget: int, ghost s: seq<int>)
    returns (budget': int)
    requires ptr != block && ptr != quadrant && ptr != ftab && ftab != block && ftab != quadrant
    requires |s| == n && n <= ptr.Length && n <= 900000 && 0 <= sb < 65536 && ftab.Length == 65537 && IsBytes(s) && budget >= 0
    requires AllFull(s, ptr[..n]) && TableOk(s, ftab[..]) && MarksOk(s, ptr[..n], ftab[..])
    requires QuadrantsOk(block[..], quadrant[..], s)
    modifies ptr, ftab
    ensures AllFull(s, ptr[..n]) && TableOk(s, ftab[..])
    ensures budget' >= 0 ==> MarksOk(s, ptr[..n], ftab[..])
    ensures budget' >= 0 ==> forall q | 0 <= q < 65536 :: Marked(ftab[q]) == (Marked(old(ftab[q])) || q == sb)
  {
    hide AllFull, TableOk, MarksOk, QuadrantsOk, RotationsSorted, Alike, Rearranged, IsBytes, BucketSorted;
    budget' := budget;
    ghost var f, ft := ptr[..n], ftab[..];
    TableAt(s, ft, sb);
    TableAt(s, ft, sb + 1);
    if !Marked(ftab[sb]) {
      var lo, hi := Clear(ftab[sb]), Clear(ftab[sb + 1]) - 1;
      if hi > lo {
        ghost var full := ptr[..];
        BucketAlike(s, f, full, sb);
        budget' := QSort3(ptr, block, quadrant, n, lo, hi, 2, budget, s);
        RearrangedPrefix(full, ptr[..], lo, hi + 1, n);
        OneBucketSorted(s, f, ptr[..n], sb);
        if budget' < 0 { return; }
        SortedPrefix(s, ptr[..], n, lo, hi);
        NowSorted(s, ptr[..n], sb, lo, hi);
        MarksKeptBut(s, f, ptr[..n], ft, sb);
      } else {
        SmallBucketSorted(s, f, sb);
      }
    } else {
      MarkedSorted(s, f, ft, sb);
    }
    MarkOne(s, ptr[..n], ft, sb);
    ftab[sb] := Mark(ftab[sb]);
    assert ftab[..] == ft[sb := Mark(ft[sb])];
  }

  lemma NowSorted(s: seq<int>, f: seq<int>, p: int, lo: int, hi: int)
    requires RotationsSorted(s, f, lo, hi) && lo == Start(s, p) && hi == Start(s, p + 1) - 1
    ensures BucketSorted(s, f, p)
  {}

  lemma MarkedSorted(s: seq<int>, f: seq<int>, ft: seq<int>, p: int)
    requires MarksOk(s, f, ft) && 0 <= p < 65536 && Marked(ft[p])
    ensures BucketSorted(s, f, p)
  {}

  lemma MarksKeptBut(s: seq<int>, f: seq<int>, g: seq<int>, ft: seq<int>, p: int)
    requires MarksOk(s, f, ft) && 0 <= p < 65536 && BucketSorted(s, g, p)
    requires forall q | 0 <= q < 65536 && q != p && BucketSorted(s, f, q) :: BucketSorted(s, g, q)
    ensures MarksOk(s, g, ft)
  {
    hide BucketSorted;
  }

  /** Step 1: sorts the small buckets [ss, j] for all j != ss. */
  method SortBigBucket(ptr: array<int>, block: array<int>, quadrant: array<int>, ftab: array<int>, n: nat, ss: int, budget: int,
                       ghost s: seq<int>, ghost done: seq<bool>)
    returns (budget': int)
    requires ptr != block && ptr != quadrant && ptr != ftab && ftab != block && ftab != quadrant
    requires |s| == n && n <= ptr.Length && n <= 900000 && 0 <= ss < 256 && ftab.Length == 65537 && budget >= 0
    requires MainOk(s, block[..], quadrant[..], ptr[..n], ftab[..], done)
    modifies ptr, ftab
    ensures TableOk(s, ftab[..])
    ensures budget' >= 0 ==> MainOk(s, block[..], quadrant[..], ptr[..n], ftab[..], done)
    ensures budget' >= 0 ==> OthersSorted(s, ptr[..n], ss)
    ensures budget' >= 0 ==> forall p | ss * 256 <= p < ss * 256 + 256 && p != ss * 256 + ss :: Marked(ftab[p])
  {
    hide AllFull, TableOk, MarksOk, QuadrantsOk, QuadrantsZero, IsBytes;
    budget' := budget;
    for j := 0 to 256
      invariant budget' >= 0 && MainOk(s, block[..], quadrant[..], ptr[..n], ftab[..], done)
      invariant forall p | ss * 256 <= p < ss * 256 + j && p != ss * 256 + ss :: Marked(ftab[p])
    {
      if j != ss {
        budget' := SortSmallBucket(ptr, block, quadrant, ftab, n, ss * 256 + j, budget', s);
        if budget' < 0 { return; }
      }
    }
    forall p | ss * 256 <= p < ss * 256 + 256 && p != ss * 256 + ss ensures BucketSorted(s, ptr[..n], p) {
      MarkedSorted(s, ptr[..n], ftab[..], p);
    }
  }

  lemma MarksAfterScans(s: seq<int>, c: int, done: seq<bool>, f0: seq<int>, f: seq<int>, ft: seq<int>)
    requires MarksOk(s, f0, ft) && Refills(s, c, done, f0, f)
    ensures MarksOk(s, f, ft) && AllFull(s, f)
    ensures forall p | 0 <= p < 65536 && Refilled(c, done, p) :: BucketSorted(s, f, p)
  {
    hide BucketSorted, AllFull;
    forall q | 0 <= q < 65536 && Marked(ft[q]) ensures BucketSorted(s, f, q) { assert BucketSorted(s, f0, q); }
  }

  /** Marks the buckets [j, ss] for all j. */
  method MarkColumn(ftab: array<int>, ss: int, ghost s: seq<int>, ghost f: seq<int>, ghost done: seq<bool>)
    requires ftab.Length == 65537 && 0 <= ss < 256 && |done| == 256
    requires TableOk(s, ftab[..]) && MarksOk(s, f, ftab[..])
    requires forall p | 0 <= p < 65536 && Refilled(ss, done, p) :: BucketSorted(s, f, p)
    requires forall p | 0 <= p < 65536 && done[p / 256] :: Marked(ftab[p])
    modifies ftab
    ensures TableOk(s, ftab[..]) && MarksOk(s, f, ftab[..])
    ensures forall q | 0 <= q < 65536 :: Marked(ftab[q]) == (Marked(old(ftab[q])) || q % 256 == ss)
  {
    hide BucketSorted, TableOk, MarksOk;
    ghost var ft0 := ftab[..];
    for j := 0 to 256
      invariant TableOk(s, ftab[..]) && MarksOk(s, f, ftab[..])
      invariant forall q | 0 <= q < 65536 :: Marked(ftab[q]) == (Marked(ft0[q]) || (q % 256 == ss && q / 256 < j))
    {
      var p := j * 256 + ss;
      assert p / 256 == j && p % 256 == ss;
      ghost var ft := ftab[..];
      if done[j] { MarkedSorted(s, f, ft, p); }
      MarkOne(s, f, ft, p);
      ftab[p] := Mark(ftab[p]);
      assert ftab[..] == ft[p := Mark(ft[p])];
    }
  }

  /** The rows of a finished big bucket are sorted. */
  lemma BigBucketSorted(s: seq<int>, f: seq<int>, c: int)
    requires IsBytes(s) && AllFull(s, f) && 0 <= c < 256 && |s| >= 2
    requires forall p | c * 256 <= p < c * 256 + 256 :: BucketSorted(s, f, p)
    ensures RotationsSorted(s, f, Start(s, c * 256), Start(s, c * 256 + 256) - 1)
  {
    hide Le, AllFull;
    StartGrows(s, c * 256, c * 256 + 256);
    StartGrows(s, c * 256 + 256, 65536);
    forall a | Start(s, c * 256) <= a < Start(s, c * 256 + 256) ensures a < |f| && 0 <= f[a] < |s| { BigRow(s, f, c, a); }
    BigLength(s, f);
    forall a, b | Start(s, c * 256) <= a < b < Start(s, c * 256 + 256)
      ensures b < |f| && 0 <= f[a] < |s| && 0 <= f[b] < |s| && Le(s, f[a], f[b], |s|)
    {
      BigPair(s, f, c, a, b);
    }
  }

  lemma BigPair(s: seq<int>, f: seq<int>, c: int, a: nat, b: nat)
    requires IsBytes(s) && AllFull(s, f) && 0 <= c < 256 && |s| >= 2
    requires forall p | c * 256 <= p < c * 256 + 256 :: BucketSorted(s, f, p)
    requires Start(s, c * 256) <= a < b < Start(s, c * 256 + 256)
    ensures b < |f| && 0 <= f[a] < |s| && 0 <= f[b] < |s| && Le(s, f[a], f[b], |s|)
  {
    hide AllFull, BucketSorted;
    BigRow(s, f, c, a);
    BigRow(s, f, c, b);
    RowInBucket(s, f, a);
    RowInBucket(s, f, b);
    var p := Pair(s, f[a]);
    if p == Pair(s, f[b]) {
      BucketPair(s, f, p, a, b);
    } else {
      BucketsInOrder(s, f, a, b);
      Trichotomy(s, f[a], f[b], |s|);
    }
  }

  lemma BigLength(s: seq<int>, f: seq<int>)
    requires AllFull(s, f)
    ensures |f| == |s|
  {}

  lemma BucketPair(s: seq<int>, f: seq<int>, p: int, a: int, b: int)
    requires BucketSorted(s, f, p) && Start(s, p) <= a < b < Start(s, p + 1)
    ensures 0 <= f[a] < |s| && 0 <= f[b] < |s| && Le(s, f[a], f[b], |s|)
  {}

  /** Processes the big bucket of character ss: steps 1 to 3. */
  method BigBucket(ptr: array<int>, block: array<int>, quadrant: array<int>, ftab: array<int>, copyStart: array<int>, copyEnd: array<int>,
                   bigDone: array<bool>, n: nat, ss: int, last: bool, budget: int, ghost s: seq<int>) returns (budget': int)
    requires ptr != block && ptr != quadrant && ptr != ftab && ftab != block && ftab != quadrant && quadrant != block
    requires copyStart != copyEnd && copyStart !in {ptr, block, quadrant, ftab} && copyEnd !in {ptr, block, quadrant, ftab}
    requires copyStart.Length == copyEnd.Length == bigDone.Length == 256 && ftab.Length == 65537
    requires |s| == n && 10000 <= n <= 900000 && n <= ptr.Length && 0 <= ss < 256 && budget >= 0
    requires MainOk(s, block[..], quadrant[..], ptr[..n], ftab[..], bigDone[..]) && !bigDone[ss]
    modifies ptr, quadrant, ftab, copyStart, copyEnd, bigDone
    ensures TableOk(s, ftab[..])
    ensures budget' >= 0 ==> MainOk(s, block[..], quadrant[..], ptr[..n], ftab[..], bigDone[..])
    ensures budget' >= 0 ==> bigDone[..] == old(bigDone[..])[ss := true]
  {
    hide AllFull, TableOk, MarksOk, QuadrantsOk, QuadrantsZero, IsBytes, Refills, OthersSorted;
    ghost var done := bigDone[..];
    budget' := SortBigBucket(ptr, block, quadrant, ftab, n, ss, budget, s, done);
    if budget' < 0 { return; }
    ghost var f0 := ptr[..n];
    BlockIs(block[..], quadrant[..], s);
    CopyScans(ptr, block, ftab, copyStart, copyEnd, bigDone, n, ss, s);
    ghost var f := ptr[..n];
    MarksAfterScans(s, ss, done, f0, f, ftab[..]);
    MarkColumn(ftab, ss, s, f, done);
    bigDone[ss] := true;
    TableAt(s, ftab[..], ss * 256);
    TableAt(s, ftab[..], (ss + 1) * 256);
    StartGrows(s, ss * 256, (ss + 1) * 256);
    if !last {
      var bbStart := Clear(ftab[ss * 256]);
      var bbSize := Clear(ftab[(ss + 1) * 256]) - bbStart;
      forall p | ss * 256 <= p < ss * 256 + 256 ensures BucketSorted(s, f, p) { MarkedSorted(s, f, ftab[..], p); }
      BigBucketSorted(s, f, ss);
      UpdateQuadrants(ptr, block, quadrant, n, bbStart, bbSize, ss, s, done);
      assert ptr[..n] == f;
    } else {
      ZeroWeaker(block[..], quadrant[..], s, done, ss);
    }
    assert bigDone[..] == done[ss := true];
  }

  lemma BlockIs(block: seq<int>, quadrant: seq<int>, s: seq<int>)
    requires QuadrantsOk(block, quadrant, s)
    ensures |block| >= |s| && forall i | 0 <= i < |s| :: block[i] == s[i]
  {}

  lemma ZeroWeaker(block: seq<int>, quadrant: seq<int>, s: seq<int>, done: seq<bool>, c: int)
    requires QuadrantsZero(block, quadrant, s, done) && 0 <= c < 256
    ensures QuadrantsZero(block, quadrant, s, done[c := true])
  {}

  /** mainSort: unless the budget runs out, ptr ends up holding all rotations in cyclic order.
      The block itself is never changed. */
  method MainSort(ptr: array<int>, block: array<int>, quadrant: array<int>, ftab: array<int>, n: nat, budget: int, ghost s: seq<int>)
    returns (budget': int)
    requires ptr != block && ptr != quadrant && ptr != ftab && ftab != block && ftab != quadrant && quadrant != block
    requires |s| == n && 10000 <= n <= 900000 && n <= ptr.Length && ftab.Length == 65537 && budget >= 0
    requires n + N_OVERSHOOT <= block.Length && n + N_OVERSHOOT <= quadrant.Length
    requires IsBytes(s) && forall i | 0 <= i < n :: block[i] == s[i]
    modifies ptr, block, quadrant, ftab
    ensures budget' >= 0 ==> SortedRotations(s, ptr[..n])
    ensures TableOk(s, ftab[..])
    ensures forall i | 0 <= i < n :: block[i] == s[i]
  {
    hide AllFull, TableOk, MarksOk, QuadrantsOk, QuadrantsZero, MainOk, SortedRotations;
    CountPairs(block, quadrant, ftab, n, s);
    SumPairs(ftab, s);
    PlacePairs(ptr, block, ftab, n, s);
    var runningOrder, bigDone, copyStart, copyEnd := new int[256], new bool[256](_ => false), new int[256], new int[256];
    MainStarts(s, block[..], quadrant[..], ptr[..n], ftab[..], bigDone[..]);
    RunningOrder(runningOrder, ftab);
    ghost var order, b := runningOrder[..], block[..];
    budget' := budget;
    for i := 0 to 256
      invariant budget' >= 0 && runningOrder[..] == order && block[..] == b && TableOk(s, ftab[..])
      invariant MainOk(s, block[..], quadrant[..], ptr[..n], ftab[..], bigDone[..])
      invariant forall k | 0 <= k < 256 :: 0 <= order[k] < 256 && (bigDone[order[k]] <==> k < i)
    {
      var ss := runningOrder[i];
      assert !bigDone[ss];                             // AssertH 1006
      budget' := BigBucket(ptr, block, quadrant, ftab, copyStart, copyEnd, bigDone, n, ss, i == 255, budget', s);
      if budget' < 0 { return; }
      forall k | 0 <= k < 256 && k != i ensures order[k] != ss {}
    }
    forall c | 0 <= c < 256 ensures bigDone[c] {
      PermOnto(order, 256, c);
      var k :| 0 <= k < 256 && order[k] == c;
    }
    MainEnds(s, block[..], quadrant[..], ptr[..n], ftab[..], bigDone[..]);
  }

  lemma MainStarts(s: seq<int>, block: seq<int>, quadrant: seq<int>, f: seq<int>, ft: seq<int>, done: seq<bool>)
    requires IsBytes(s) && AllFull(s, f) && TableOk(s, ft) && Extended(block, s) && |quadrant| >= |s| + N_OVERSHOOT
    requires forall p | 0 <= p < 65536 && p < |ft| :: !Marked(ft[p])
    requires forall i | 0 <= i < |s| + N_OVERSHOOT :: quadrant[i] == 0
    requires |done| == 256 && forall c | 0 <= c < 256 :: !done[c]
    ensures MainOk(s, block, quadrant, f, ft, done)
  {
    hide AllFull;
    forall i | 0 <= i < |s| + N_OVERSHOOT ensures 0 <= block[i] < 256 { assert block[i] == s[Wrap(|s|, i)]; }
  }

  lemma MainEnds(s: seq<int>, block: seq<int>, quadrant: seq<int>, f: seq<int>, ft: seq<int>, done: seq<bool>)
    requires MainOk(s, block, quadrant, f, ft, done) && forall c | 0 <= c < 256 :: done[c]
    ensures SortedRotations(s, f)
  {
    hide AllFull, BucketSorted;
    forall p | 0 <= p < 65536 ensures BucketSorted(s, f, p) { assert Marked(ft[p]); }
    AllBucketsSorted(s, f);
  }
}

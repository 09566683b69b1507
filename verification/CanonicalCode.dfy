/** Canonical prefix codes: BZ2_hbAssignCodes, BZ2_hbCreateDecodeTables and the table walk of
    GET_MTF_VAL that undoes the code. */
module CanonicalCode {
  import opened Bits
  import opened BitStream
  import opened Counting
  import CodeForest

  const MAX_CODE_LEN := 23
  const LONGEST := 20

  // ---- The code as numbers ----

  /** The first code of length n. */
  function First(L: seq<int>, n: int): (r: nat)
    decreases n
  {
    if n <= 0 then 0 else 2 * (First(L, n - 1) + Count(L, n - 1, |L|))
  }

  /** One more than the last code of length n. */
  function End(L: seq<int>, n: int): nat {
    First(L, n) + Count(L, n, |L|)
  }

  /** The code of symbol i: codes of one length go up with the symbols. */
  function Code(L: seq<int>, i: nat): nat
    requires i < |L|
  {
    First(L, L[i]) + Count(L, L[i], i)
  }

  /** Lengths that a table can be built for. */
  ghost predicate Lengths(L: seq<int>, minLen: int, maxLen: int)
  {
    && 1 <= minLen <= maxLen <= LONGEST && 1 <= |L| <= 258
    && forall i | 0 <= i < |L| :: minLen <= L[i] <= maxLen
  }

  lemma {:induction false} NoneShorter(L: seq<int>, n: int, k: nat)
    requires k <= |L| && forall i | 0 <= i < |L| :: L[i] >= n
    ensures Less(L, n, k) == 0
    ensures forall m | m < n :: Count(L, m, k) == 0
  {
    if k > 0 { NoneShorter(L, n, k - 1); }
  }

  lemma {:induction false} AllShorter(L: seq<int>, n: int, k: nat)
    requires k <= |L| && forall i | 0 <= i < |L| :: L[i] < n
    ensures Less(L, n, k) == k
  {
    if k > 0 { AllShorter(L, n, k - 1); }
  }

  lemma {:induction false} FirstIsZero(L: seq<int>, n: int)
    requires forall i | 0 <= i < |L| :: L[i] >= n
    ensures First(L, n) == 0
    decreases n
  {
    if n > 0 {
      FirstIsZero(L, n - 1);
      NoneShorter(L, n, |L|);
    }
  }

  lemma CodeInRange(L: seq<int>, i: nat)
    requires i < |L|
    ensures First(L, L[i]) <= Code(L, i) < End(L, L[i])
  {
    CountMonotone(L, L[i], i, |L|);
  }

  /** Symbols of one length are told apart by their codes. */
  lemma SameLength(L: seq<int>, i: nat, j: nat)
    requires i < j < |L| && L[i] == L[j]
    ensures Code(L, i) < Code(L, j)
  {
    CountMonotone(L, L[i], i, j);
  }

  // ---- The code as bits ----

  /** The bits that stand for symbol i. */
  function CodeBits(L: seq<int>, i: nat): seq<bool>
    requires i < |L| && L[i] >= 0
  {
    Field(Code(L, i), L[i])
  }

  /** The bits b start with the code of symbol i. */
  predicate Matches(L: seq<int>, b: seq<bool>, i: int) {
    0 <= i < |L| && 0 <= L[i] <= |b| && Value(b[..L[i]]) == Code(L, i)
  }

  lemma NextBit(b: seq<bool>, n: nat)
    requires n < |b|
    ensures Value(b[..n + 1]) == 2 * Value(b[..n]) + (if b[n] then 1 else 0)
  {
    assert b[..n + 1][..n] == b[..n];
  }

  /** Bits that are below the end of one length are below the start of every greater one. */
  lemma {:induction false} Below(L: seq<int>, b: seq<bool>, m: nat, n: nat)
    requires m < n <= |b| && Value(b[..m]) < End(L, m)
    ensures Value(b[..n]) < First(L, n)
    decreases n
  {
    NextBit(b, n - 1);
    if m < n - 1 { Below(L, b, m, n - 1); }
  }

  /** Prefix-freeness: the same bits never start with the codes of two symbols. */
  lemma PrefixFree(L: seq<int>, b: seq<bool>, i: int, j: int)
    requires Matches(L, b, i) && Matches(L, b, j)
    ensures i == j
  {
    CodeInRange(L, i);
    CodeInRange(L, j);
    if L[i] < L[j] {
      Below(L, b, L[i], L[j]);
    } else if L[j] < L[i] {
      Below(L, b, L[j], L[i]);
    } else if i < j {
      SameLength(L, i, j);
    } else if j < i {
      SameLength(L, j, i);
    }
  }

  // ---- Kraft's inequality says that codes fit their lengths ----

  /** The part of the Kraft sum that lengths up to n make. */
  ghost function KraftUpTo(L: seq<int>, n: int, k: nat): real
    requires k <= |L|
  {
    if k == 0 then 0.0 else KraftUpTo(L, n, k - 1) + (if L[k - 1] <= n then CodeForest.Half(L[k - 1]) else 0.0)
  }

  lemma {:induction false} KraftNext(L: seq<int>, n: int, k: nat)
    requires k <= |L|
    ensures KraftUpTo(L, n, k) == KraftUpTo(L, n - 1, k) + Count(L, n, k) as real * CodeForest.Half(n)
  {
    if k > 0 { KraftNext(L, n, k - 1); }
  }

  lemma {:induction false} KraftPart(L: seq<int>, n: int, k: nat)
    requires k <= |L|
    ensures KraftUpTo(L, n, k) <= CodeForest.Kraft(L, k)
  {
    if k > 0 {
      KraftPart(L, n, k - 1);
      CodeForest.HalfPositive(L[k - 1]);
    }
  }

  lemma {:induction false} EndIsKraft(L: seq<int>, n: nat)
    requires forall i | 0 <= i < |L| :: L[i] >= 1
    ensures End(L, n) as real * CodeForest.Half(n) == KraftUpTo(L, n, |L|)
    decreases n
  {
    hide *;
    if n == 0 {
      EndOfZero(L);
    } else {
      EndIsKraft(L, n - 1);
      KraftNext(L, n, |L|);
      EndNext(L, n);
      EndStep(End(L, n - 1), Count(L, n, |L|), End(L, n), CodeForest.Half(n), CodeForest.Half(n - 1), KraftUpTo(L, n - 1, |L|));
    }
  }

  lemma EndOfZero(L: seq<int>)
    requires forall i | 0 <= i < |L| :: L[i] >= 1
    ensures End(L, 0) == 0 && KraftUpTo(L, 0, |L|) == 0.0
  {
    KraftNext(L, 0, |L|);
    NoneShorter(L, 1, |L|);
    NoneUpTo(L, |L|);
  }

  lemma EndNext(L: seq<int>, n: nat)
    requires n > 0
    ensures End(L, n) == 2 * End(L, n - 1) + Count(L, n, |L|)
    ensures CodeForest.Half(n - 1) == 2.0 * CodeForest.Half(n)
  {}

  lemma EndStep(e: int, c: int, e': int, h: real, h1: real, k: real)
    requires e' == 2 * e + c && h1 == 2.0 * h && e as real * h1 == k
    ensures e' as real * h == k + c as real * h
  {
    var x, y := e as real, c as real;
    assert e' as real == 2.0 * x + y;
    Spread(x, y, h);
  }

  lemma Spread(e: real, c: real, h: real)
    ensures (2.0 * e + c) * h == e * (2.0 * h) + c * h
  {}

  lemma {:induction false} NoneUpTo(L: seq<int>, k: nat)
    requires k <= |L| && forall i | 0 <= i < |L| :: L[i] >= 1
    ensures KraftUpTo(L, -1, k) == 0.0
  {
    if k > 0 { NoneUpTo(L, k - 1); }
  }

  lemma {:induction false} HalfPow(n: nat)
    ensures Pow2(n) as real * CodeForest.Half(n) == 1.0
  {
    if n > 0 {
      HalfPow(n - 1);
      assert Pow2(n) as real == 2.0 * Pow2(n - 1) as real;
    }
  }

  /** With Kraft's inequality every code fits into the bits of its length. */
  lemma CodesFit(L: seq<int>, i: nat)
    requires i < |L| && (forall j | 0 <= j < |L| :: L[j] >= 1) && CodeForest.Kraft(L, |L|) <= 1.0
    ensures Code(L, i) < Pow2(L[i])
  {
    var n := L[i];
    CodeInRange(L, i);
    EndIsKraft(L, n);
    KraftPart(L, n, |L|);
    HalfPow(n);
    CodeForest.HalfPositive(n);
    hide *;
    Cancel(End(L, n), Pow2(n), CodeForest.Half(n));
  }

  lemma Cancel(a: int, b: int, h: real)
    requires h > 0.0 && a as real * h <= b as real * h
    ensures a <= b
  {
    if a > b { PositiveProduct(a as real - b as real, h); }
  }

  lemma PositiveProduct(d: real, h: real)
    requires d > 0.0 && h > 0.0
    ensures d * h > 0.0
  {}

  /** A written code is recognised, whatever follows it. */
  lemma WrittenMatches(L: seq<int>, i: nat, rest: seq<bool>)
    requires i < |L| && (forall j | 0 <= j < |L| :: L[j] >= 1) && CodeForest.Kraft(L, |L|) <= 1.0
    ensures Matches(L, CodeBits(L, i) + rest, i)
  {
    CodesFit(L, i);
    ValueOfField(Code(L, i), L[i]);
    assert (CodeBits(L, i) + rest)[..L[i]] == CodeBits(L, i);
    SmallMod(Code(L, i), Pow2(L[i]));
  }

  lemma SmallMod(v: nat, m: nat)
    requires v < m
    ensures v % m == v
  {}

  // ---- Building the tables ----

  /** BZ2_hbAssignCodes */
  method AssignCodes(code: array<int>, length: array<int>, minLen: int, maxLen: int, alphaSize: nat)
    requires code != length && alphaSize <= length.Length && alphaSize <= code.Length && 1 <= minLen <= maxLen
    requires forall i | 0 <= i < alphaSize :: minLen <= length[i] <= maxLen
    modifies code
    ensures forall i | 0 <= i < alphaSize :: code[i] == Code(length[..alphaSize], i)
  {
    hide Count;
    ghost var L := length[..alphaSize];
    FirstIsZero(L, minLen);
    var vec := 0;
    for n := minLen to maxLen + 1
      invariant vec == First(L, n)
      invariant forall i | 0 <= i < alphaSize && L[i] < n :: code[i] == Code(L, i)
    {
      CountNone(L, n);
      for i := 0 to alphaSize
        invariant vec == First(L, n) + Count(L, n, i)
        invariant forall k | 0 <= k < alphaSize && (L[k] < n || (L[k] == n && k < i)) :: code[k] == Code(L, k)
      {
        CountStep(L, n, i);
        if length[i] == n {
          code[i] := vec;
          vec := vec + 1;
        }
      }
      vec := 2 * vec;
      FirstStep(L, n);
    }
  }

  lemma CountNone(L: seq<int>, n: int)
    ensures Count(L, n, 0) == 0
  {}

  lemma CountStep(L: seq<int>, n: int, i: nat)
    requires i < |L|
    ensures Count(L, n, i + 1) == Count(L, n, i) + if L[i] == n then 1 else 0
  {}

  lemma FirstStep(L: seq<int>, n: nat)
    ensures First(L, n + 1) == 2 * (First(L, n) + Count(L, n, |L|))
  {}

  /** The entry of perm for place p is the symbol of rank p. */
  ghost predicate Sorted(L: seq<int>, perm: seq<int>, k: nat) {
    k <= |perm| && forall p | 0 <= p < k :: 0 <= perm[p] < |L| && SortedRow(L, perm[p]) == p
  }

  /** What the decode tables of the lengths L hold. */
  ghost predicate Tables(L: seq<int>, minLen: int, maxLen: int, limit: seq<int>, base: seq<int>, perm: seq<int>)
  {
    && Lengths(L, minLen, maxLen) && |limit| >= MAX_CODE_LEN && |base| >= MAX_CODE_LEN && Sorted(L, perm, |L|)
    && (forall n | minLen <= n <= maxLen :: limit[n] == End(L, n) - 1)
    && (forall n | maxLen < n < MAX_CODE_LEN :: limit[n] == 0)
    && forall n | minLen <= n <= maxLen :: base[n] == First(L, n) - Less(L, n, |L|)
  }

  /** The first loop of BZ2_hbCreateDecodeTables: symbols sorted by length. */
  method SortSymbols(perm: array<int>, length: array<int>, minLen: int, maxLen: int, alphaSize: nat)
    requires perm != length && alphaSize <= length.Length && alphaSize <= perm.Length && minLen <= maxLen
    requires forall i | 0 <= i < alphaSize :: minLen <= length[i] <= maxLen
    modifies perm
    ensures Sorted(length[..alphaSize], perm[..], alphaSize)
  {
    hide Count, Less;
    ghost var L := length[..alphaSize];
    NoneShorter(L, minLen, alphaSize);
    var pp := 0;
    for i := minLen to maxLen + 1
      invariant pp == Less(L, i, alphaSize) <= alphaSize && Sorted(L, perm[..], pp)
    {
      LessNext(L, i, alphaSize);
      CountNone(L, i);
      for j := 0 to alphaSize
        invariant pp == Less(L, i, alphaSize) + Count(L, i, j) <= alphaSize && Sorted(L, perm[..], pp)
      {
        CountStep(L, i, j);
        CountMonotone(L, i, j + 1, alphaSize);
        if length[j] == i {
          assert SortedRow(L, j) == pp;
          perm[pp] := j;
          pp := pp + 1;
        }
      }
    }
    AllShorter(L, maxLen + 1, alphaSize);
  }

  /** The counting loops: base[i] becomes the number of symbols shorter than i. */
  method CountLengths(base: array<int>, length: array<int>, alphaSize: nat)
    requires base != length && alphaSize <= length.Length && MAX_CODE_LEN <= base.Length
    requires forall i | 0 <= i < alphaSize :: 1 <= length[i] <= LONGEST
    modifies base
    ensures forall i | 0 <= i < MAX_CODE_LEN :: base[i] == Less(length[..alphaSize], i, alphaSize)
  {
    hide Count, Less;
    ghost var L := length[..alphaSize];
    for i := 0 to MAX_CODE_LEN
      invariant forall x | 0 <= x < i :: base[x] == 0
    {
      base[i] := 0;
    }
    CountsNone(L);
    for i := 0 to alphaSize
      invariant forall x | 0 <= x < MAX_CODE_LEN :: base[x] == Count(L, x - 1, i)
    {
      CountsStep(L, i);
      base[length[i] + 1] := base[length[i] + 1] + 1;
    }
    NoneShorter(L, 1, alphaSize);
    NoneShorter(L, 0, alphaSize);
    for i := 1 to MAX_CODE_LEN
      invariant forall x | 0 <= x < i :: base[x] == Less(L, x, alphaSize)
      invariant forall x | i <= x < MAX_CODE_LEN :: base[x] == Count(L, x - 1, alphaSize)
    {
      LessNext(L, i - 1, alphaSize);
      base[i] := base[i] + base[i - 1];
    }
  }

  lemma CountsNone(L: seq<int>)
    ensures forall n :: Count(L, n, 0) == 0
  {}

  lemma CountsStep(L: seq<int>, i: nat)
    requires i < |L|
    ensures forall n :: Count(L, n, i + 1) == Count(L, n, i) + if L[i] == n then 1 else 0
  {}

  /** BZ2_hbCreateDecodeTables */
  method CreateDecodeTables(limit: array<int>, base: array<int>, perm: array<int>, length: array<int>, minLen: int, maxLen: int, alphaSize: nat)
    requires limit != base && limit != perm && base != perm && length != limit && length != base && length != perm
    requires alphaSize <= length.Length && alphaSize <= perm.Length && MAX_CODE_LEN <= limit.Length && MAX_CODE_LEN <= base.Length
    requires Lengths(length[..alphaSize], minLen, maxLen)
    modifies limit, base, perm
    ensures Tables(length[..alphaSize], minLen, maxLen, limit[..], base[..], perm[..])
  {
    hide Count, Less, First, Sorted;
    ghost var L := length[..alphaSize];
    assert forall i | 0 <= i < alphaSize :: length[i] == L[i];
    SortSymbols(perm, length, minLen, maxLen, alphaSize);
    ghost var sorted := perm[..];
    CountLengths(base, length, alphaSize);
    assert length[..alphaSize] == L;
    for i := 0 to MAX_CODE_LEN
      invariant forall x | 0 <= x < i :: limit[x] == 0
      modifies limit
    {
      limit[i] := 0;
    }
    FirstIsZero(L, minLen);
    var vec := 0;
    for i := minLen to maxLen + 1
      invariant vec == First(L, i)
      invariant forall n | minLen <= n < i :: limit[n] == End(L, n) - 1
      invariant forall n | i <= n < MAX_CODE_LEN :: limit[n] == 0
      modifies limit
    {
      LessNext(L, i, alphaSize);
      FirstStep(L, i);
      vec := vec + (base[i + 1] - base[i]);
      limit[i] := vec - 1;
      vec := 2 * vec;
    }
    NoneShorter(L, minLen, alphaSize);
    for i := minLen + 1 to maxLen + 1
      invariant forall n | minLen <= n < i :: base[n] == First(L, n) - Less(L, n, alphaSize)
      invariant forall n | i <= n < MAX_CODE_LEN :: base[n] == Less(L, n, alphaSize)
      modifies base
    {
      FirstStep(L, i - 1);
      base[i] := 2 * (limit[i - 1] + 1) - base[i];
    }
    assert perm[..] == sorted;
  }

  // ---- Walking the tables ----

  /** The shortest of the first k lengths. */
  function Shortest(L: seq<int>, k: nat): (m: int)
    requires k <= |L|
    ensures m <= 32 && forall i | 0 <= i < k :: m <= L[i]
    ensures k > 0 && L[0] < 32 ==> exists i :: 0 <= i < k && m == L[i]
  {
    if k == 0 then 32 else if L[k - 1] < Shortest(L, k - 1) then L[k - 1] else Shortest(L, k - 1)
  }

  function Longest(L: seq<int>, k: nat): (m: int)
    requires k <= |L|
    ensures m >= 0 && forall i | 0 <= i < k :: L[i] <= m
    ensures k > 0 && L[0] > 0 ==> exists i :: 0 <= i < k && m == L[i]
  {
    if k == 0 then 0 else if L[k - 1] > Longest(L, k - 1) then L[k - 1] else Longest(L, k - 1)
  }

  /** The symbol among the first k whose code the bits are, or -1. */
  function Lookup(L: seq<int>, code: seq<bool>, k: nat): (x: int)
    requires k <= |L|
    ensures x == -1 ==> forall i | 0 <= i < k :: !(L[i] == |code| && Code(L, i) == Value(code))
    ensures x != -1 ==> 0 <= x < k && L[x] == |code| && Code(L, x) == Value(code)
  {
    if k == 0 then -1
    else if L[k - 1] == |code| && Code(L, k - 1) == Value(code) then k - 1
    else Lookup(L, code, k - 1)
  }

  /** The symbol of a code that is in range of one length. */
  lemma FoundSymbol(L: seq<int>, minLen: int, maxLen: int, limit: seq<int>, base: seq<int>, perm: seq<int>, n: int, v: nat)
    requires Tables(L, minLen, maxLen, limit, base, perm) && minLen <= n <= maxLen
    requires First(L, n) <= v < End(L, n)
    ensures 0 <= v - base[n] < |L| <= |perm|
    ensures var i := perm[v - base[n]]; 0 <= i < |L| && L[i] == n && Code(L, i) == v
  {
    hide First, Less, Count;
    LessNext(L, n, |L|);
    RankLength(L, perm[v - base[n]], n);
  }

  /** The rank tells the length. */
  lemma RankLength(L: seq<int>, i: int, n: int)
    requires 0 <= i < |L| && Less(L, n, |L|) <= SortedRow(L, i) < Less(L, n + 1, |L|)
    ensures L[i] == n
  {
    hide First, Less, Count;
    CodeInRange(L, i);
    LessNext(L, L[i], |L|);
    if L[i] < n { LessMonotone(L, L[i] + 1, n, |L|); }
    if L[i] > n { LessMonotone(L, n + 1, L[i], |L|); }
  }

  lemma {:induction false} EndPositive(L: seq<int>, maxLen: int)
    requires |L| >= 1 && forall i | 0 <= i < |L| :: 1 <= L[i] <= maxLen
    ensures End(L, maxLen) >= 1
    decreases maxLen
  {
    if L[0] == maxLen {
      CountMonotone(L, maxLen, 0, |L|);
    } else {
      CountMonotone(L, L[0], 0, |L|);
      EndReaches(L, L[0], maxLen);
    }
  }

  lemma {:induction false} EndReaches(L: seq<int>, m: nat, n: nat)
    requires m <= n && End(L, m) >= 1
    ensures End(L, n) >= 1
    decreases n
  {
    if m < n { EndReaches(L, m, n - 1); }
  }

  /** What the walk knows after n bits that are beyond all codes of fewer bits. */
  ghost predicate Beyond(L: seq<int>, b: seq<bool>, n: int) {
    && 0 <= n <= |b| && First(L, n) <= Value(b[..n])
    && forall i | 0 <= i < |L| && L[i] < n :: !Matches(L, b, i)
  }

  lemma BeyondStart(L: seq<int>, b: seq<bool>, n: nat)
    requires n <= |b| && forall i | 0 <= i < |L| :: L[i] >= n
    ensures Beyond(L, b, n)
  {
    FirstIsZero(L, n);
  }

  /** One bit further. */
  lemma BeyondNext(L: seq<int>, b: seq<bool>, n: int)
    requires Beyond(L, b, n) && n < |b| && Value(b[..n]) >= End(L, n)
    ensures Beyond(L, b, n + 1)
    ensures Value(b[..n + 1]) == 2 * Value(b[..n]) + (if b[n] then 1 else 0)
  {
    NextBit(b, n);
    FirstStep(L, n);
    forall i | 0 <= i < |L| && L[i] < n + 1 ensures !Matches(L, b, i) {
      if L[i] == n { CodeInRange(L, i); }
    }
  }

  /** The walk goes on just when the bits are beyond the codes of zn bits. */
  lemma WalkOn(L: seq<int>, minLen: int, maxLen: int, limit: seq<int>, base: seq<int>, perm: seq<int>, b: seq<bool>, n: int)
    requires Tables(L, minLen, maxLen, limit, base, perm) && minLen <= n <= LONGEST && Beyond(L, b, n)
    ensures Value(b[..n]) > limit[n] <==> Value(b[..n]) >= End(L, n)
    ensures Value(b[..n]) <= limit[n] ==> n <= maxLen
  {
    if n > maxLen {
      EndPositive(L, maxLen);
      EndReaches(L, maxLen, n - 1);
      NoneOf(L, n, |L|);
    }
  }

  lemma {:induction false} NoneOf(L: seq<int>, n: int, k: nat)
    requires k <= |L| && forall i | 0 <= i < |L| :: L[i] != n
    ensures Count(L, n, k) == 0
  {
    if k > 0 { NoneOf(L, n, k - 1); }
  }

  /** Where the walk stops the tables name the symbol. */
  lemma WalkStops(L: seq<int>, minLen: int, maxLen: int, limit: seq<int>, base: seq<int>, perm: seq<int>, b: seq<bool>, n: int)
    requires Tables(L, minLen, maxLen, limit, base, perm) && minLen <= n <= LONGEST && Beyond(L, b, n)
    requires Value(b[..n]) <= limit[n]
    ensures 0 <= Value(b[..n]) - base[n] < |L| <= 258 && |L| <= |perm|
    ensures var i := perm[Value(b[..n]) - base[n]]; Matches(L, b, i) && L[i] == n && forall j :: Matches(L, b, j) ==> j == i
  {
    hide First, Count, Less, Sorted, Value, SortedRow;
    WalkOn(L, minLen, maxLen, limit, base, perm, b, n);
    FoundSymbol(L, minLen, maxLen, limit, base, perm, n, Value(b[..n]));
    var i := perm[Value(b[..n]) - base[n]];
    forall j | Matches(L, b, j) ensures j == i { PrefixFree(L, b, i, j); }
  }

  lemma TableShape(L: seq<int>, minLen: int, maxLen: int, limit: seq<int>, base: seq<int>, perm: seq<int>)
    requires Tables(L, minLen, maxLen, limit, base, perm)
    ensures 1 <= minLen <= maxLen <= LONGEST && |limit| >= MAX_CODE_LEN && |base| >= MAX_CODE_LEN
    ensures forall i | 0 <= i < |L| :: minLen <= L[i] <= maxLen
  {}

  /** The bits known to be beyond all shorter codes still are when another is added. */
  lemma BeyondBit(L: seq<int>, code: seq<bool>, b: seq<bool>)
    requires |b| == 1 && Beyond(L, code, |code|) && Value(code) >= End(L, |code|)
    ensures Beyond(L, code + b, |code| + 1) && Value(code + b) == 2 * Value(code) + (if b[0] then 1 else 0)
  {
    hide Value, First, Count, Code;
    var c, n := code + b, |code|;
    assert c[..n] == code && code[..n] == code;
    forall i | 0 <= i < |L| && L[i] < n ensures !Matches(L, c, i) {
      if 0 <= L[i] { assert c[..L[i]] == code[..L[i]]; }
      assert !Matches(L, code, i);
    }
    BeyondNext(L, c, n);
    assert c[..n + 1] == c;
  }

  /** What GET_MTF_VAL finds out from the tables about the bits of a code read so far: whether they
      are the code of a symbol, and of which, for every set of lengths, over-full or incomplete
      ones included. */
  lemma CodeRead(L: seq<int>, minLen: int, maxLen: int, limit: seq<int>, base: seq<int>, perm: seq<int>, code: seq<bool>)
    requires Tables(L, minLen, maxLen, limit, base, perm) && minLen <= |code| <= LONGEST && Beyond(L, code, |code|)
    ensures Value(code) <= limit[|code|] <==> Lookup(L, code, |L|) != -1
    ensures Value(code) <= limit[|code|] ==> 0 <= Value(code) - base[|code|] < 258 && Value(code) - base[|code|] < |perm|
    ensures Value(code) <= limit[|code|] ==> perm[Value(code) - base[|code|]] == Lookup(L, code, |L|)
    ensures Value(code) > limit[|code|] ==> Value(code) >= End(L, |code|)
  {
    hide Value, First, Count, Code, Less, SortedRow, Sorted, End;
    var n, x := |code|, Lookup(L, code, |L|);
    assert code[..n] == code;
    WalkOn(L, minLen, maxLen, limit, base, perm, code, n);
    if x != -1 { assert Matches(L, code, x); }
    if Value(code) <= limit[n] {
      WalkStops(L, minLen, maxLen, limit, base, perm, code, n);
      var i := perm[Value(code) - base[n]];
      assert Matches(L, code, i) && L[i] == n;
    } else if x != -1 {
      CodeInRange(L, x);
    }
  }
}

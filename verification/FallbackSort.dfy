/** The fallback block sort: an exponential radix sort that doubles the sorted depth each round.
    The block to sort is stored in the first bytes of the same words that hold the classes of
    the sort, so it is destroyed on the way and rebuilt at the end. */
module FallbackSort {
  import opened Bits
  import opened Rotations
  import opened BurrowsWheeler
  import opened Counting
  import opened Rearrange
  import opened ThreeWay
  import opened Bitmap
  import QSort = FallbackQSort

  // ---- The byte view of the class words (eclass8, little-endian) ----

  function Unit(k: nat): nat {
    if k == 0 then 1 else if k == 1 then 0x100 else if k == 2 then 0x1_0000 else 0x100_0000
  }

  function ByteOf(w: int, k: nat): int
    requires k < 4
  {
    if k == 0 then w % 0x100 else if k == 1 then w / 0x100 % 0x100
    else if k == 2 then w / 0x1_0000 % 0x100 else w / 0x100_0000 % 0x100
  }

  function ByteAt(e: seq<int>, i: nat): int
    requires i / 4 < |e|
  {
    ByteOf(e[i / 4], i % 4)
  }

  /** The first |s| bytes of the words e spell s. */
  ghost predicate Spells(e: seq<int>, s: seq<int>)
  {
    |s| <= 4 * |e| && forall i | 0 <= i < |s| :: ByteAt(e, i) == s[i]
  }

  function Compose(r: int, b3: int, b2: int, b1: int, b0: int): int {
    (((r * 0x100 + b3) * 0x100 + b2) * 0x100 + b1) * 0x100 + b0
  }

  lemma ComposeBytes(r: int, b3: int, b2: int, b1: int, b0: int)
    requires 0 <= b3 < 256 && 0 <= b2 < 256 && 0 <= b1 < 256 && 0 <= b0 < 256
    ensures var w := Compose(r, b3, b2, b1, b0);
            ByteOf(w, 0) == b0 && ByteOf(w, 1) == b1 && ByteOf(w, 2) == b2 && ByteOf(w, 3) == b3
  {
    var w1, w2, w3 := ((r * 0x100 + b3) * 0x100 + b2) * 0x100 + b1, (r * 0x100 + b3) * 0x100 + b2, r * 0x100 + b3;
    var w := Compose(r, b3, b2, b1, b0);
    assert w == w1 * 0x100 + b0;
    assert w / 0x100 == w1;
    assert w1 / 0x100 == w2 && w / 0x1_0000 == w2;
    assert w2 / 0x100 == w3 && w / 0x100_0000 == w3;
  }

  lemma ByteOfUpdated(w: int, k: nat, v: int, j: nat)
    requires k < 4 && j < 4 && 0 <= v < 256
    ensures ByteOf(w + (v - ByteOf(w, k)) * Unit(k), j) == if j == k then v else ByteOf(w, j)
  {
    var r := w / 0x100_0000 / 0x100;
    var b3, b2, b1, b0 := ByteOf(w, 3), ByteOf(w, 2), ByteOf(w, 1), ByteOf(w, 0);
    assert w == Compose(r, b3, b2, b1, b0) by {
      assert w / 0x1_0000 == w / 0x100 / 0x100 && w / 0x100_0000 == w / 0x1_0000 / 0x100;
    }
    if k == 0 { ComposeBytes(r, b3, b2, b1, v); } else if k == 1 { ComposeBytes(r, b3, b2, v, b0); }
    else if k == 2 { ComposeBytes(r, b3, v, b1, b0); } else { ComposeBytes(r, v, b2, b1, b0); }
  }

  /** eclass8[i] = v */
  method SetByte(eclass: array<int>, i: nat, v: int)
    requires i / 4 < eclass.Length && 0 <= v < 256
    modifies eclass
    ensures forall j: nat | j / 4 < eclass.Length ::
              ByteAt(eclass[..], j) == if j == i then v else ByteAt(old(eclass[..]), j)
  {
    var w := eclass[i / 4];
    eclass[i / 4] := w + (v - ByteOf(w, i % 4)) * Unit(i % 4);
    forall j: nat | j / 4 < eclass.Length
      ensures ByteAt(eclass[..], j) == if j == i then v else ByteAt(old(eclass[..]), j)
    {
      ByteOfUpdated(w, i % 4, v, j % 4);
    }
  }

  // ---- The initial one-character radix sort ----

  ghost predicate IsBlock(s: seq<int>)
  {
    |s| > 0 && IsBytes(s)
  }

  /** Every row of f lies among the rows for its first character. */
  ghost predicate InBuckets(s: seq<int>, f: seq<int>)
    requires IsPerm(f, |s|)
  {
    forall a | 0 <= a < |s| :: Less(s, s[f[a]], |s|) <= a < Less(s, s[f[a]] + 1, |s|)
  }

  /** The row where the radix sort, filling each bucket from its end, puts rotation x. */
  ghost function Slot(s: seq<int>, x: nat): int
    requires x < |s|
  {
    Less(s, s[x] + 1, |s|) - Count(s, s[x], x + 1)
  }

  lemma SlotInBucket(s: seq<int>, x: nat)
    requires x < |s|
    ensures Less(s, s[x], |s|) <= Slot(s, x) < Less(s, s[x] + 1, |s|)
    ensures 0 <= Slot(s, x) < |s|
  {
    LessNext(s, s[x], |s|);
    CountMonotone(s, s[x], x + 1, |s|);
    LessMonotone(s, s[x], s[x] + 1, |s|);
  }

  lemma SlotsDistinct(s: seq<int>, x: nat, y: nat)
    requires x < y < |s|
    ensures Slot(s, x) != Slot(s, y)
  {
    SlotInBucket(s, x);
    SlotInBucket(s, y);
    if s[x] < s[y] { LessMonotone(s, s[x] + 1, s[y], |s|); }
    else if s[y] < s[x] { LessMonotone(s, s[y] + 1, s[x], |s|); }
    else { CountMonotone(s, s[x], x + 1, y); }
  }

  /** Counts the characters of the block. */
  method Histogram(eclass: array<int>, n: nat, ghost s: seq<int>) returns (ftab: array<int>, ftabCopy: array<int>)
    requires IsBlock(s) && |s| == n && Spells(eclass[..], s)
    ensures fresh(ftab) && fresh(ftabCopy) && ftab != ftabCopy && ftab.Length == 257 && ftabCopy.Length == 256
    ensures forall c | 0 <= c < 256 :: ftab[c] == ftabCopy[c] == Count(s, c, n)
    ensures ftab[256] == 0
  {
    ftab := new int[257](_ => 0);
    for i := 0 to n
      invariant forall c | 0 <= c < 256 :: ftab[c] == Count(s, c, i)
      invariant ftab[256] == 0
    {
      assert ByteAt(eclass[..], i) == s[i];
      var b := ByteOf(eclass[i / 4], i % 4);
      ftab[b] := ftab[b] + 1;
    }
    ftabCopy := new int[256](_ => 0);
    for i := 0 to 256
      invariant forall c | 0 <= c < i :: ftabCopy[c] == ftab[c]
      invariant ftab[256] == 0 && forall c | 0 <= c < 256 :: ftab[c] == Count(s, c, n)
    {
      ftabCopy[i] := ftab[i];
    }
  }

  /** Turns counts into bucket ends. */
  method Accumulate(ftab: array<int>, ghost s: seq<int>)
    requires IsBlock(s) && ftab.Length == 257 && ftab[256] == 0
    requires forall c | 0 <= c < 256 :: ftab[c] == Count(s, c, |s|)
    modifies ftab
    ensures forall c | 0 <= c < 256 :: ftab[c] == Less(s, c + 1, |s|)
    ensures ftab[256] == |s|
  {
    LessEnds(s, 0, 256, |s|);
    LessNext(s, 0, |s|);
    for i := 1 to 257
      invariant forall c | 0 <= c < i && c < 256 :: ftab[c] == Less(s, c + 1, |s|)
      invariant forall c | i <= c < 256 :: ftab[c] == Count(s, c, |s|)
      invariant ftab[256] == if i == 257 then |s| else 0
    {
      LessNext(s, i, |s|);
      ftab[i] := ftab[i] + ftab[i - 1];
    }
  }

  /** Rotations before i sit in their slots, and ft points at the next free ones. */
  ghost predicate Placing(s: seq<int>, ft: seq<int>, f: seq<int>, i: nat)
  {
    && i <= |s| <= |f| && |ft| == 257
    && (forall c | 0 <= c < 256 :: ft[c] == Less(s, c + 1, |s|) - Count(s, c, i))
    && forall x | 0 <= x < i :: 0 <= Slot(s, x) < |s| && f[Slot(s, x)] == x
  }

  lemma PlacingStep(s: seq<int>, ft: seq<int>, f: seq<int>, i: nat)
    requires IsBlock(s) && i < |s| && Placing(s, ft, f, i)
    ensures var k := ft[s[i]] - 1; 0 <= k < |s| && Placing(s, ft[s[i] := k], f[k := i], i + 1)
  {
    var k := ft[s[i]] - 1;
    assert k == Slot(s, i);
    SlotInBucket(s, i);
    forall x | 0 <= x < i ensures Slot(s, x) != k { SlotsDistinct(s, x, i); }
  }

  /** Places every rotation in the bucket of its first character, filling from the end. */
  method Place(fmap: array<int>, eclass: array<int>, ftab: array<int>, n: nat, ghost s: seq<int>)
    requires fmap != eclass && fmap != ftab && ftab != eclass && ftab.Length == 257 && n <= fmap.Length
    requires IsBlock(s) && |s| == n && Spells(eclass[..], s)
    requires forall c | 0 <= c < 256 :: ftab[c] == Less(s, c + 1, n)
    modifies fmap, ftab
    ensures forall c | 0 <= c < 256 :: ftab[c] == Less(s, c, n)
    ensures IsPerm(fmap[..n], n) && InBuckets(s, fmap[..n])
  {
    hide Slot, Spells;
    for i := 0 to n
      invariant Placing(s, ftab[..], fmap[..], i)
    {
      SpelledAt(eclass[..], s, i);
      var j := ByteOf(eclass[i / 4], i % 4);
      ghost var ft, f := ftab[..], fmap[..];
      PlacingStep(s, ft, f, i);
      var k := ftab[j] - 1;
      ftab[j] := k;
      fmap[k] := i;
      assert ftab[..] == ft[j := k] && fmap[..] == f[k := i];
    }
    forall c | 0 <= c < 256 ensures ftab[c] == Less(s, c, n) { LessNext(s, c, n); }
    PlacedAll(s, fmap[..n]);
  }

  lemma SpelledAt(e: seq<int>, s: seq<int>, i: nat)
    requires Spells(e, s) && i < |s|
    ensures i / 4 < |e| && ByteOf(e[i / 4], i % 4) == s[i]
  {
    assert ByteAt(e, i) == s[i];
  }

  lemma PlacedAll(s: seq<int>, f: seq<int>)
    requires |f| == |s|
    requires forall x | 0 <= x < |s| :: 0 <= Slot(s, x) < |s| && f[Slot(s, x)] == x
    ensures IsPerm(f, |s|) && InBuckets(s, f)
  {
    var slot := x => if 0 <= x < |s| then Slot(s, x) else 0;
    forall x, y | 0 <= x < y < |s| ensures slot(x) != slot(y) { SlotsDistinct(s, x, y); }
    OntoIsPerm(f, |s|, slot);
    forall a | 0 <= a < |s| ensures Less(s, s[f[a]], |s|) <= a < Less(s, s[f[a]] + 1, |s|) {
      assert slot(f[a]) == a;
      SlotInBucket(s, f[a]);
    }
  }

  /** Rows in their buckets are sorted by one character, and a bucket starts where the
      characters change. */
  lemma BucketsSorted(s: seq<int>, f: seq<int>)
    requires IsBlock(s) && IsPerm(f, |s|) && InBuckets(s, f)
    ensures SortedTo(s, f, 1)
    ensures forall z | 0 <= z < |s| :: Head(s, f, z, 1) <==> z == Less(s, s[f[z]], |s|)
  {
    hide Less, InBuckets;
    forall a, b | 0 <= a < b < |s| ensures s[f[a]] <= s[f[b]] { RowsRise(s, f, a, b); }
    forall z | 0 <= z < |s| ensures Head(s, f, z, 1) <==> z == Less(s, s[f[z]], |s|) {
      if z > 0 { RowStarts(s, f, z); } else { RowBucket(s, f, 0); }
    }
  }

  lemma RowBucket(s: seq<int>, f: seq<int>, a: int)
    requires IsPerm(f, |s|) && InBuckets(s, f) && 0 <= a < |s|
    ensures Less(s, s[f[a]], |s|) <= a < Less(s, s[f[a]] + 1, |s|)
  {}

  lemma RowsRise(s: seq<int>, f: seq<int>, a: int, b: int)
    requires IsPerm(f, |s|) && InBuckets(s, f) && 0 <= a < b < |s|
    ensures s[f[a]] <= s[f[b]]
  {
    hide Less, InBuckets;
    RowBucket(s, f, a);
    RowBucket(s, f, b);
    if s[f[b]] < s[f[a]] { LessMonotone(s, s[f[b]] + 1, s[f[a]], |s|); }
  }

  /** The character changes just where a bucket starts. */
  lemma RowStarts(s: seq<int>, f: seq<int>, z: int)
    requires IsPerm(f, |s|) && InBuckets(s, f) && 0 < z < |s|
    ensures s[f[z - 1]] < s[f[z]] <==> z == Less(s, s[f[z]], |s|)
  {
    hide Less, InBuckets;
    RowBucket(s, f, z - 1);
    RowBucket(s, f, z);
    RowsRise(s, f, z - 1, z);
    if s[f[z - 1]] < s[f[z]] { LessMonotone(s, s[f[z - 1]] + 1, s[f[z]], |s|); }
  }

  /** Row z starts a bucket of rotations equal in their first h characters. */
  ghost predicate Head(s: seq<int>, f: seq<int>, z: int, h: nat)
    requires IsPerm(f, |s|) && 0 <= z < |s|
  {
    z == 0 || Lt(s, f[z - 1], f[z], h)
  }

  // ---- Bucket heads ----

  /** The bitmap marks exactly the bucket heads at depth h, followed by the sentinels. */
  ghost predicate HeadsMarked(bh: seq<int>, s: seq<int>, f: seq<int>, h: nat)
    requires IsPerm(f, |s|)
  {
    && Words(bh) && (|s| + 1) / 32 < |bh| && Sentinels(bh, |s|)
    && forall z: nat | z < |s| :: IsSet(bh, z) == Head(s, f, z, h)
  }

  lemma StartIsHead(s: seq<int>, f: seq<int>, z: nat, c: int)
    requires IsBlock(s) && IsPerm(f, |s|) && InBuckets(s, f)
    requires z < |s| && 0 <= c < 256 && z == Less(s, c, |s|)
    ensures z == Less(s, s[f[z]], |s|)
  {
    var b := s[f[z]];
    if c <= b { LessMonotone(s, c, b, |s|); } else { LessMonotone(s, b + 1, c, |s|); }
  }

  /** Zeroes the words that hold the bits of rows 0 .. n - 1. */
  method ClearWords(bhtab: array<int>, n: nat)
    requires (n + 63) / 32 < bhtab.Length && Words(bhtab[..])
    modifies bhtab
    ensures Words(bhtab[..]) && forall z: nat | z < n :: !IsSet(bhtab[..], z)
  {
    var nBhtab := 2 + n / 32;
    for i := 0 to nBhtab
      invariant Words(bhtab[..])
      invariant forall j | 0 <= j < i :: bhtab[j] == 0
    {
      bhtab[i] := 0;
    }
    forall z: nat | z < n ensures !IsSet(bhtab[..], z) { ZeroBit(z % 32); }
  }

  ghost predicate IsStart(s: seq<int>, z: int, i: int) {
    exists c :: 0 <= c < i && z == Less(s, c, |s|)
  }

  method MarkStarts(bhtab: array<int>, ftab: array<int>, n: nat, ghost s: seq<int>)
    requires bhtab != ftab && ftab.Length == 257 && (n + 63) / 32 < bhtab.Length
    requires IsBlock(s) && |s| == n && forall c | 0 <= c < 256 :: ftab[c] == Less(s, c, n)
    requires Words(bhtab[..]) && forall z: nat | z < n :: !IsSet(bhtab[..], z)
    modifies bhtab
    ensures Words(bhtab[..]) && forall z: nat | z < n :: IsSet(bhtab[..], z) == IsStart(s, z, 256)
  {
    LessEnds(s, 0, 256, n);
    for i := 0 to 256
      invariant Words(bhtab[..])
      invariant forall z: nat | z < n :: IsSet(bhtab[..], z) == IsStart(s, z, i)
    {
      LessMonotone(s, 0, i, n);
      LessMonotone(s, i, 256, n);
      ghost var h := bhtab[..];
      Set(bhtab, ftab[i]);
      forall z: nat | z < n ensures IsSet(bhtab[..], z) == IsStart(s, z, i + 1) {
        assert IsSet(bhtab[..], z) == (z == Less(s, i, n) || IsSet(h, z));
      }
    }
  }

  lemma StartsAreHeads(s: seq<int>, f: seq<int>, z: nat)
    requires IsBlock(s) && IsPerm(f, |s|) && InBuckets(s, f) && z < |s|
    ensures IsStart(s, z, 256) == Head(s, f, z, 1)
  {
    BucketsSorted(s, f);
    var c := s[f[z]];
    if IsStart(s, z, 256) {
      var d :| 0 <= d < 256 && z == Less(s, d, |s|);
      StartIsHead(s, f, z, d);
    }
  }

  /** Marks the one-character buckets and sets the sentinel bits. */
  method MarkHeads(bhtab: array<int>, ftab: array<int>, n: nat, ghost s: seq<int>, ghost f: seq<int>)
    requires bhtab != ftab && ftab.Length == 257 && (n + 63) / 32 < bhtab.Length
    requires IsBlock(s) && |s| == n && IsPerm(f, n) && InBuckets(s, f)
    requires forall c | 0 <= c < 256 :: ftab[c] == Less(s, c, n)
    requires Words(bhtab[..])
    modifies bhtab
    ensures HeadsMarked(bhtab[..], s, f, 1)
  {
    hide IsBlock, IsPerm, InBuckets, Head;
    ClearWords(bhtab, n);
    MarkStarts(bhtab, ftab, n, s);
    forall z: nat | z < n ensures IsSet(bhtab[..], z) == Head(s, f, z, 1) { StartsAreHeads(s, f, z); }
    for i := 0 to 32
      invariant Words(bhtab[..])
      invariant forall z: nat | z < n :: IsSet(bhtab[..], z) == Head(s, f, z, 1)
      invariant i > 0 ==> IsSet(bhtab[..], n) && !IsSet(bhtab[..], n + 1)
    {
      Set(bhtab, n + 2 * i);
      Clear(bhtab, n + 2 * i + 1);
    }
  }

  // ---- Classes ----

  /** The head of the bucket that row a belongs to. */
  ghost function LastHead(s: seq<int>, f: seq<int>, h: nat, a: nat): (z: nat)
    requires IsPerm(f, |s|) && a < |s|
    ensures z <= a
  {
    if Head(s, f, a, h) then a else LastHead(s, f, h, a - 1)
  }

  /** Bucket heads order rotations exactly as their first h characters do. */
  lemma {:induction false} HeadsOrder(s: seq<int>, f: seq<int>, h: nat, a: nat, b: nat)
    requires SortedTo(s, f, h) && a <= b < |s|
    ensures LastHead(s, f, h, a) <= LastHead(s, f, h, b)
    ensures LastHead(s, f, h, a) < LastHead(s, f, h, b) <==> Lt(s, f[a], f[b], h)
    ensures !Lt(s, f[b], f[a], h)
    decreases b
  {
    if a == b {
      EqReflexive(s, f[a], h);
      Trichotomy(s, f[a], f[a], h);
    } else {
      HeadsOrder(s, f, h, a, b - 1);
      Trichotomy(s, f[a], f[b], h);
      if Head(s, f, b, h) {
        LeTransitive(s, f[a], f[b - 1], f[b], h) by { Trichotomy(s, f[b - 1], f[b], h); }
      } else {
        LeTransitive(s, f[a], f[b - 1], f[b], h);
        if Lt(s, f[a], f[b], h) { LeTransitive(s, f[a], f[b], f[b - 1], h); }
      }
    }
  }

  /** e ranks every rotation by the h characters that start h places after it. */
  ghost predicate ClassesAt(s: seq<int>, e: seq<int>, h: nat)
    requires h <= |s|
  {
    && |e| >= |s|
    && (forall x | 0 <= x < |s| :: 0 <= e[x] < |s|)
    && forall x, y | 0 <= x < |s| && 0 <= y < |s| ::
         e[x] < e[y] <==> Lt(s, Shift(|s|, x, h), Shift(|s|, y, h), h)
  }

  function Back(n: nat, i: nat, h: nat): nat
    requires i < n && h <= n
  {
    if i - h < 0 then i - h + n else i - h
  }

  /** One pass over the rows sets the class of the rotation h places earlier. */
  method SetClasses(fmap: array<int>, eclass: array<int>, bhtab: array<int>, n: nat, h: nat, ghost s: seq<int>)
    requires fmap != eclass && bhtab != eclass && |s| == n && 0 < h <= n
    requires n <= fmap.Length && n <= eclass.Length
    requires SortedTo(s, fmap[..n], h) && HeadsMarked(bhtab[..], s, fmap[..n], h)
    modifies eclass
    ensures ClassesAt(s, eclass[..], h)
  {
    hide SortedTo, HeadsMarked, Head, IsPerm;
    ghost var f, bh := fmap[..n], bhtab[..];
    SortedIsPerm(s, f, h);
    var j := 0;
    for i := 0 to n
      invariant i > 0 ==> j == LastHead(s, f, h, i - 1)
      invariant ClassesSet(s, f, eclass[..], h, i)
    {
      MarkedAt(bh, s, f, h, i);
      LastHeadStep(s, f, h, i);
      if Bit(bhtab[i / 32], i % 32) { j := i; }
      var k := fmap[i] - h;
      if k < 0 { k := k + n; }
      ghost var e := eclass[..];
      ClassesStep(s, f, e, h, i);
      eclass[k] := j;
      assert eclass[..] == e[k := j];
    }
    RanksRight(s, f, eclass[..], h);
  }

  lemma SortedIsPerm(s: seq<int>, f: seq<int>, h: nat)
    requires SortedTo(s, f, h)
    ensures IsPerm(f, |s|) && |f| == |s|
  {}

  lemma MarkedAt(bh: seq<int>, s: seq<int>, f: seq<int>, h: nat, z: nat)
    requires IsPerm(f, |s|) && HeadsMarked(bh, s, f, h) && z < |s|
    ensures z / 32 < |bh| && 0 <= bh[z / 32] && IsSet(bh, z) == Head(s, f, z, h)
  {}

  lemma LastHeadStep(s: seq<int>, f: seq<int>, h: nat, z: nat)
    requires IsPerm(f, |s|) && z < |s|
    ensures LastHead(s, f, h, z) == if Head(s, f, z, h) then z else LastHead(s, f, h, z - 1)
    ensures !Head(s, f, z, h) ==> z > 0
  {}

  /** Rows before i have their classes written. */
  ghost predicate ClassesSet(s: seq<int>, f: seq<int>, e: seq<int>, h: nat, i: nat)
    requires h <= |s| <= |e| && IsPerm(f, |s|) && i <= |s|
  {
    forall a | 0 <= a < i :: 0 <= f[a] < |s| && e[Back(|s|, f[a], h)] == LastHead(s, f, h, a)
  }

  lemma BackInjective(n: nat, i: nat, j: nat, h: nat)
    requires i < n && j < n && h <= n
    ensures Back(n, i, h) < n && (Back(n, i, h) == Back(n, j, h) ==> i == j)
  {}

  lemma ClassesStep(s: seq<int>, f: seq<int>, e: seq<int>, h: nat, i: nat)
    requires h <= |s| <= |e| && IsPerm(f, |s|) && i < |s| && ClassesSet(s, f, e, h, i)
    ensures 0 <= f[i] < |s| && Back(|s|, f[i], h) < |s|
    ensures ClassesSet(s, f, e[Back(|s|, f[i], h) := LastHead(s, f, h, i)], h, i + 1)
  {
    hide Back, LastHead;
    BackInjective(|s|, f[i], f[i], h);
    var k := Back(|s|, f[i], h);
    var e' := e[k := LastHead(s, f, h, i)];
    forall a | 0 <= a < i ensures e'[Back(|s|, f[a], h)] == LastHead(s, f, h, a) {
      assert f[a] != f[i];
      BackInjective(|s|, f[a], f[i], h);
    }
  }

  lemma RankOf(s: seq<int>, f: seq<int>, e: seq<int>, h: nat, x: nat) returns (a: nat)
    requires h <= |s| <= |e| && IsPerm(f, |s|) && x < |s|
    requires ClassesSet(s, f, e, h, |s|)
    ensures a < |s| && f[a] == Shift(|s|, x, h) && e[x] == LastHead(s, f, h, a)
  {
    PermOnto(f, |s|, Shift(|s|, x, h));
    a :| 0 <= a < |s| && f[a] == Shift(|s|, x, h);
    assert Back(|s|, f[a], h) == x;
  }

  lemma RanksRight(s: seq<int>, f: seq<int>, e: seq<int>, h: nat)
    requires h <= |s| <= |e| && SortedTo(s, f, h)
    requires ClassesSet(s, f, e, h, |s|)
    ensures ClassesAt(s, e, h)
  {
    forall x | 0 <= x < |s| ensures 0 <= e[x] < |s| { var a := RankOf(s, f, e, h, x); }
    forall x, y | 0 <= x < |s| && 0 <= y < |s|
      ensures e[x] < e[y] <==> Lt(s, Shift(|s|, x, h), Shift(|s|, y, h), h)
    {
      var a := RankOf(s, f, e, h, x);
      var b := RankOf(s, f, e, h, y);
      if a <= b { HeadsOrder(s, f, h, a, b); } else { HeadsOrder(s, f, h, b, a); }
    }
  }

  // ---- Refining the buckets of one round ----

  /** f and g show, row by row, rotations equal in their first h characters. */
  ghost predicate SameClasses(s: seq<int>, f: seq<int>, g: seq<int>, h: nat)
    requires IsPerm(f, |s|) && IsPerm(g, |s|)
  {
    forall a | 0 <= a < |s| :: Eq(s, f[a], g[a], h)
  }

  lemma EqKeepsOrder(s: seq<int>, i: nat, i': nat, j: nat, j': nat, h: nat)
    requires i < |s| && i' < |s| && j < |s| && j' < |s|
    requires Eq(s, i, i', h) && Eq(s, j, j', h)
    ensures Lt(s, i, j, h) == Lt(s, i', j', h)
  {
    Trichotomy(s, i, i', h);
    Trichotomy(s, j, j', h);
    Trichotomy(s, i, j, h);
    Trichotomy(s, i', j', h);
    if Lt(s, i, j, h) {
      LeTransitive(s, i', i, j, h);
      LeTransitive(s, i', j, j', h);
    } else {
      LeTransitive(s, j, i, i', h);
      LeTransitive(s, j', j, i', h);
    }
  }

  lemma SameClassesKeep(s: seq<int>, f: seq<int>, g: seq<int>, h: nat)
    requires IsBlock(s) && SortedTo(s, f, h) && InBuckets(s, f) && h > 0
    requires IsPerm(g, |s|) && SameClasses(s, f, g, h)
    ensures SortedTo(s, g, h) && InBuckets(s, g)
    ensures forall z | 0 <= z < |s| :: Head(s, g, z, h) == Head(s, f, z, h)
  {
    forall a, b | 0 <= a < b < |s| ensures Le(s, g[a], g[b], h) {
      EqKeepsOrder(s, f[b], g[b], f[a], g[a], h);
    }
    forall z | 0 <= z < |s| ensures Head(s, g, z, h) == Head(s, f, z, h) {
      if z > 0 { EqKeepsOrder(s, f[z - 1], g[z - 1], f[z], g[z], h); }
    }
    forall a | 0 <= a < |s| ensures s[g[a]] == s[f[a]] {}
  }

  /** Rows of one bucket are equal; a head separates smaller rows from larger ones. */
  lemma {:induction false} RowsOrder(s: seq<int>, f: seq<int>, h: nat, a: nat, b: nat)
    requires SortedTo(s, f, h) && a <= b < |s|
    ensures (forall z | a < z <= b :: !Head(s, f, z, h)) ==> Eq(s, f[a], f[b], h)
    ensures (exists z :: a < z <= b && Head(s, f, z, h)) ==> Lt(s, f[a], f[b], h)
    decreases b
  {
    if a == b {
      EqReflexive(s, f[a], h);
    } else {
      RowsOrder(s, f, h, a, b - 1);
      HeadsOrder(s, f, h, a, b - 1);
      HeadsOrder(s, f, h, a, b);
      Trichotomy(s, f[a], f[b], h);
      Trichotomy(s, f[a], f[b - 1], h);
    }
  }

  /** Sorting one bucket moves rotations only among rows of the same class. */
  lemma BucketSorted(s: seq<int>, f: seq<int>, g: seq<int>, h: nat, l: nat, r: nat)
    requires SortedTo(s, f, h) && l <= r < |s| == |g|
    requires forall z | l < z <= r :: !Head(s, f, z, h)
    requires Rearranged(f, g, l, r + 1)
    ensures IsPerm(g, |s|) && SameClasses(s, f, g, h)
  {
    assert f[..|s|] == f && g[..|s|] == g;
    StaysPerm(f, g, l, r + 1, |s|);
    forall a | 0 <= a < |s| ensures Eq(s, f[a], g[a], h) {
      if l <= a <= r {
        var b := CameFrom(f, g, l, r + 1, a);
        RowsOrder(s, f, h, if a <= b then a else b, if a <= b then b else a);
        Trichotomy(s, f[a], f[b], h);
      } else {
        if a < l { assert f[..l][a] == g[..l][a]; }
        else { assert f[r + 1..][a - r - 1] == g[r + 1..][a - r - 1]; }
        EqReflexive(s, f[a], h);
      }
    }
  }

  /** Among the first r + 1 rows, rotations equal at depth h are ordered by class. */
  ghost predicate RefinedTo(s: seq<int>, f: seq<int>, e: seq<int>, h: nat, r: int)
    requires IsPerm(f, |s|) && |e| >= |s| && r < |s|
  {
    forall a, b | 0 <= a < b <= r && Eq(s, f[a], f[b], h) :: e[f[a]] <= e[f[b]]
  }

  /** Up to row r the bitmap marks the heads at depth 2h, after it those at depth h. */
  ghost predicate MixedHeads(bh: seq<int>, s: seq<int>, f: seq<int>, h: nat, r: int)
    requires IsPerm(f, |s|)
  {
    && Words(bh) && (|s| + 1) / 32 < |bh| && Sentinels(bh, |s|)
    && forall z: nat | z < |s| :: IsSet(bh, z) == Head(s, f, z, if z <= r then 2 * h else h)
  }

  /** The state of a round between two buckets. */
  ghost predicate Round(s: seq<int>, f: seq<int>, e: seq<int>, bh: seq<int>, h: nat, r: int)
  {
    && IsBlock(s) && 0 < h <= |s| && -1 <= r < |s|
    && SortedTo(s, f, h) && InBuckets(s, f) && ClassesAt(s, e, h)
    && RefinedTo(s, f, e, h, r) && MixedHeads(bh, s, f, h, r)
  }

  /** Classes decide what depth h leaves open. */
  lemma DoubleDepth(s: seq<int>, e: seq<int>, h: nat, x: nat, y: nat)
    requires 0 < h <= |s| && ClassesAt(s, e, h) && x < |s| && y < |s|
    ensures Lt(s, x, y, 2 * h) <==> Lt(s, x, y, h) || (Eq(s, x, y, h) && e[x] < e[y])
  {
    Split(s, x, y, h, h);
  }

  /** Rows l + 1 .. r form with l one sorted bucket, and the rows between the last bucket and
      l are singletons: everything up to r is refined. */
  lemma BucketDone(s: seq<int>, f: seq<int>, e: seq<int>, h: nat, r: int, l: int, r': int)
    requires 0 < h <= |s| && -1 <= r < l < r' < |s|
    requires SortedTo(s, f, h) && ClassesAt(s, e, h) && RefinedTo(s, f, e, h, r)
    requires forall z | r < z <= l :: Head(s, f, z, h)
    requires forall a, b | l <= a < b <= r' :: e[f[a]] <= e[f[b]]
    ensures RefinedTo(s, f, e, h, r')
  {
    forall a, b | 0 <= a < b <= r' && Eq(s, f[a], f[b], h) ensures e[f[a]] <= e[f[b]] {
      if b > r && a < l {
        var z := if b <= l then b else l;
        assert Head(s, f, z, h);
        RowsOrder(s, f, h, a, b);
        Trichotomy(s, f[a], f[b], h);
      }
    }
  }

  /** Row z starts a new class within the sorted bucket l..r. */
  ghost predicate NewClass(f: seq<int>, e: seq<int>, l: int, r: int, z: int)
    requires Indexes(f, e, 0, l, r + 1)
  {
    l <= z <= r && (z == l || e[f[z - 1]] != e[f[z]])
  }

  /** Sets the header bits of a sorted bucket. */
  method ScanHeaders(fmap: array<int>, eclass: array<int>, bhtab: array<int>, l: nat, r: nat)
    requires bhtab != fmap && bhtab != eclass && l <= r
    requires Indexes(fmap[..], eclass[..], 0, l, r + 1) && forall i | l <= i <= r :: eclass[fmap[i]] >= 0
    requires Words(bhtab[..]) && r / 32 < bhtab.Length
    modifies bhtab
    ensures Words(bhtab[..])
    ensures forall y: nat | y / 32 < bhtab.Length ::
              IsSet(bhtab[..], y) == (IsSet(old(bhtab[..]), y) || NewClass(fmap[..], eclass[..], l, r, y))
  {
    ghost var h, f, e := bhtab[..], fmap[..], eclass[..];
    var cc := -1;
    for i := l to r + 1
      invariant Words(bhtab[..])
      invariant cc == if i == l then -1 else e[f[i - 1]]
      invariant forall y: nat | y / 32 < bhtab.Length ::
                  IsSet(bhtab[..], y) == (IsSet(h, y) || (y < i && NewClass(f, e, l, r, y)))
    {
      var cc1 := eclass[fmap[i]];
      if cc != cc1 {
        Set(bhtab, i);
        cc := cc1;
      }
    }
  }

  lemma HeadersRight(s: seq<int>, f: seq<int>, e: seq<int>, bh: seq<int>, bh': seq<int>, h: nat, r: int, l: int, r': int)
    requires 0 < h <= |s| && -1 <= r < l < r' < |s|
    requires SortedTo(s, f, h) && ClassesAt(s, e, h) && MixedHeads(bh, s, f, h, r)
    requires Indexes(f, e, 0, l, r' + 1)
    requires forall y | r < y <= l :: IsSet(bh, y)
    requires forall y | l < y <= r' :: !IsSet(bh, y)
    requires forall a, b | l <= a < b <= r' :: e[f[a]] <= e[f[b]]
    requires |bh'| == |bh| && Words(bh')
    requires forall y: nat | y / 32 < |bh| :: IsSet(bh', y) == (IsSet(bh, y) || NewClass(f, e, l, r', y))
    ensures MixedHeads(bh', s, f, h, r')
  {
    forall z: nat | z < |s| ensures IsSet(bh', z) == Head(s, f, z, if z <= r' then 2 * h else h) {
      assert IsSet(bh, z) == Head(s, f, z, if z <= r then 2 * h else h);
      if r < z <= l {
        if z > 0 { Deepen(s, f[z - 1], f[z], h, 2 * h); }
      } else if l < z <= r' {
        DoubleDepth(s, e, h, f[z - 1], f[z]);
        Trichotomy(s, f[z - 1], f[z], h);
      }
    }
  }

  /** What sorting a bucket leaves as it was. */
  lemma AfterBucketSort(s: seq<int>, f: seq<int>, g: seq<int>, e: seq<int>, bh: seq<int>, h: nat, r: int, l: int, r': int)
    requires Round(s, f, e, bh, h, r) && r < l < r' < |s| == |g|
    requires forall y | r < y <= l :: IsSet(bh, y)
    requires forall y | l < y <= r' :: !IsSet(bh, y)
    requires Rearranged(f, g, l, r' + 1)
    ensures Round(s, g, e, bh, h, r)
    ensures forall z | r < z <= l :: Head(s, g, z, h)
  {
    forall z | r < z < |s| ensures IsSet(bh, z) == Head(s, f, z, h) {}
    BucketSorted(s, f, g, h, l, r');
    SameClassesKeep(s, f, g, h);
    forall a | 0 <= a < l ensures g[a] == f[a] { assert f[..l][a] == g[..l][a]; }
    forall z: nat | z < |s| ensures IsSet(bh, z) == Head(s, g, z, if z <= r then 2 * h else h) {
      assert IsSet(bh, z) == Head(s, f, z, if z <= r then 2 * h else h);
    }
  }

  /** One bucket of the round: sort it by class and mark the new heads. */
  method RefineBucket(fmap: array<int>, eclass: array<int>, bhtab: array<int>, n: nat, l: int, r': int,
                      ghost s: seq<int>, ghost h: nat, ghost r: int)
    requires fmap != eclass && bhtab != fmap && bhtab != eclass && |s| == n <= 900000
    requires n <= fmap.Length && Round(s, fmap[..n], eclass[..], bhtab[..], h, r) && r < l < r' < n
    requires forall y | r < y <= l :: IsSet(bhtab[..], y)
    requires forall y | l < y <= r' :: !IsSet(bhtab[..], y)
    requires IsSet(bhtab[..], r' + 1)
    modifies fmap, bhtab
    ensures Round(s, fmap[..n], eclass[..], bhtab[..], h, r')
    ensures IsSet(bhtab[..], r' + 1)
  {
    hide Round, Rearranged, QSort.SortedBy, NewClass, Head;
    ghost var f0, f, e, bh := fmap[..], fmap[..n], eclass[..], bhtab[..];
    BucketIndexes(s, f0, e, bh, h, r, l, r');
    QSort.QSort3(fmap, eclass, l, r');
    ghost var g := fmap[..n];
    RearrangedPrefix(f0, fmap[..], l, r' + 1, n);
    AfterBucketSort(s, f, g, e, bh, h, r, l, r');
    BucketIndexes(s, fmap[..], e, bh, h, r, l, r');
    ScanHeaders(fmap, eclass, bhtab, l, r');
    BucketRefined(s, g, fmap[..], e, bh, bhtab[..], h, r, l, r');
  }

  lemma BucketIndexes(s: seq<int>, f: seq<int>, e: seq<int>, bh: seq<int>, h: nat, r: int, l: int, r': int)
    requires |s| <= |f| && Round(s, f[..|s|], e, bh, h, r) && r < l < r' < |s|
    ensures Words(bh) && (|s| + 1) / 32 < |bh|
    ensures Indexes(f, e, 0, l, r' + 1) && forall i | l <= i <= r' :: e[f[i]] >= 0
  {
    var p := f[..|s|];
    forall i | l <= i <= r' ensures 0 <= f[i] < |e| && e[f[i]] >= 0 { assert p[i] == f[i]; }
  }

  lemma BucketRefined(s: seq<int>, g: seq<int>, f: seq<int>, e: seq<int>, bh: seq<int>, bh': seq<int>, h: nat, r: int, l: int, r': int)
    requires Round(s, g, e, bh, h, r) && r < l < r' < |s| <= |f| && g == f[..|s|]
    requires forall z | r < z <= l :: Head(s, g, z, h)
    requires forall y | r < y <= l :: IsSet(bh, y)
    requires forall y | l < y <= r' :: !IsSet(bh, y)
    requires Indexes(f, e, 0, l, r' + 1) && QSort.SortedBy(f, e, l, r' + 1)
    requires |bh'| == |bh| && Words(bh')
    requires forall y: nat | y / 32 < |bh| :: IsSet(bh', y) == (IsSet(bh, y) || NewClass(f, e, l, r', y))
    ensures Round(s, g, e, bh', h, r')
  {
    BucketDone(s, g, e, h, r, l, r');
    HeadersRight(s, g, e, bh, bh', h, r, l, r');
  }

  /** All rows are at depth h alone in their bucket. */
  ghost predicate AllHeads(s: seq<int>, f: seq<int>, h: nat, r: int)
    requires IsPerm(f, |s|) && r < |s|
  {
    forall z | 0 <= z <= r :: Head(s, f, z, h)
  }

  lemma RoundStarts(s: seq<int>, f: seq<int>, e: seq<int>, bh: seq<int>, h: nat)
    requires IsBlock(s) && 0 < h <= |s| && SortedTo(s, f, h) && InBuckets(s, f)
    requires ClassesAt(s, e, h) && HeadsMarked(bh, s, f, h)
    ensures Round(s, f, e, bh, h, -1) && IsSet(bh, 0)
  {}

  /** After the last bucket every row is refined: the order holds to twice the depth. */
  lemma RoundEnds(s: seq<int>, f: seq<int>, e: seq<int>, bh: seq<int>, h: nat, r: int)
    requires Round(s, f, e, bh, h, r)
    requires forall y | r < y < |s| :: IsSet(bh, y)
    ensures SortedTo(s, f, 2 * h) && InBuckets(s, f) && HeadsMarked(bh, s, f, 2 * h)
    ensures forall z | r < z < |s| :: Head(s, f, z, h)
  {
    var n := |s|;
    forall z | r < z < n ensures Head(s, f, z, h) && Head(s, f, z, 2 * h) {
      assert IsSet(bh, z);
      if z > 0 { Deepen(s, f[z - 1], f[z], h, 2 * h); }
    }
    forall a, b | 0 <= a < b < n ensures Le(s, f[a], f[b], 2 * h) {
      DoubleDepth(s, e, h, f[b], f[a]);
      Trichotomy(s, f[a], f[b], h);
      assert Le(s, f[a], f[b], h);
      if b > r {
        assert Head(s, f, b, h);
        RowsOrder(s, f, h, a, b);
      }
    }
    forall z: nat | z < n ensures IsSet(bh, z) == Head(s, f, z, 2 * h) {
      assert IsSet(bh, z) == Head(s, f, z, if z <= r then 2 * h else h);
    }
  }

  /** If no bucket needed sorting, all rotations already differ in their first h characters. */
  lemma AllDistinct(s: seq<int>, f: seq<int>, h: nat)
    requires 0 < h <= |s| && SortedTo(s, f, h) && AllHeads(s, f, h, |s| - 1)
    ensures SortedRotations(s, f)
  {
    forall a, b | 0 <= a < b < |s| ensures Le(s, f[a], f[b], |s|) {
      assert Head(s, f, b, h);
      RowsOrder(s, f, h, a, b);
      Deepen(s, f[a], f[b], h, |s|);
      Trichotomy(s, f[a], f[b], |s|);
    }
  }

  /** One round of the sort: every bucket of depth h is refined to depth 2h. */
  method RefineRound(fmap: array<int>, eclass: array<int>, bhtab: array<int>, n: nat, ghost s: seq<int>, ghost h: nat)
    returns (nNotDone: int)
    requires fmap != eclass && bhtab != fmap && bhtab != eclass && |s| == n <= 900000
    requires n <= fmap.Length && IsBlock(s) && 0 < h <= n
    requires SortedTo(s, fmap[..n], h) && InBuckets(s, fmap[..n])
    requires ClassesAt(s, eclass[..], h) && HeadsMarked(bhtab[..], s, fmap[..n], h)
    modifies fmap, bhtab
    ensures SortedTo(s, fmap[..n], 2 * h) && InBuckets(s, fmap[..n]) && HeadsMarked(bhtab[..], s, fmap[..n], 2 * h)
    ensures nNotDone == 0 ==> SortedRotations(s, fmap[..n])
  {
    hide Round, Head, SortedTo, ClassesAt, HeadsMarked, InBuckets, IsPerm, Sentinels, IsBlock;
    RoundStarts(s, fmap[..n], eclass[..], bhtab[..], h);
    RoundFacts(s, fmap[..n], eclass[..], bhtab[..], h, -1);
    nNotDone := 0;
    var r := -1;
    while true
      invariant -1 <= r < n && Round(s, fmap[..n], eclass[..], bhtab[..], h, r)
      invariant Words(bhtab[..]) && (n + 1) / 32 < bhtab.Length && Sentinels(bhtab[..], n) && IsSet(bhtab[..], r + 1)
      invariant nNotDone >= 0
      invariant nNotDone == 0 ==> r == -1
      decreases n - r
    {
      var found, l, r' := NextBucket(bhtab, n, r);
      if !found { break; }
      nNotDone := nNotDone + (r' - l + 1);
      RefineBucket(fmap, eclass, bhtab, n, l, r', s, h, r);
      r := r';
      RoundFacts(s, fmap[..n], eclass[..], bhtab[..], h, r);
    }
    RoundFacts(s, fmap[..n], eclass[..], bhtab[..], h, r);
    RoundEnds(s, fmap[..n], eclass[..], bhtab[..], h, r);
    if nNotDone == 0 { AllDistinct(s, fmap[..n], h); }
  }

  lemma RoundFacts(s: seq<int>, f: seq<int>, e: seq<int>, bh: seq<int>, h: nat, r: int)
    requires Round(s, f, e, bh, h, r)
    ensures IsPerm(f, |s|) && |f| == |s| && SortedTo(s, f, h)
    ensures Words(bh) && (|s| + 1) / 32 < |bh| && Sentinels(bh, |s|)
  {}

  // ---- Rebuilding the block ----

  /** How many rows of bucket c come after the first i rows. */
  ghost function Remaining(s: seq<int>, c: int, i: int): int {
    var lo, hi := Less(s, c, |s|), Less(s, c + 1, |s|);
    if i <= lo then hi - lo else if i >= hi then 0 else hi - i
  }

  lemma RemainingStep(s: seq<int>, i: nat, c: int)
    requires i < |s| && Less(s, c, |s|) <= i < Less(s, c + 1, |s|)
    ensures Remaining(s, c, i + 1) == Remaining(s, c, i) - 1 && Remaining(s, c, i) > 0
    ensures forall b | b != c :: Remaining(s, b, i + 1) == Remaining(s, b, i)
    ensures forall b | b < c :: Remaining(s, b, i) == 0 && Less(s, b + 1, |s|) <= i
  {
    forall b | b != c
      ensures Remaining(s, b, i + 1) == Remaining(s, b, i)
      ensures b < c ==> Remaining(s, b, i) == 0 && Less(s, b + 1, |s|) <= i
    {
      LessMonotone(s, b, b + 1, |s|);
      if b < c { LessMonotone(s, b + 1, c, |s|); } else { LessMonotone(s, c + 1, b, |s|); }
    }
  }

  /** The rows before i have their characters written. */
  ghost predicate Rebuilt(s: seq<int>, f: seq<int>, e: seq<int>, i: int)
    requires IsPerm(f, |s|) && |s| <= 4 * |e| && i <= |s|
  {
    forall a | 0 <= a < i :: ByteAt(e, f[a]) == s[f[a]]
  }

  lemma RebuiltStep(s: seq<int>, f: seq<int>, e: seq<int>, e': seq<int>, i: nat)
    requires IsPerm(f, |s|) && |s| <= 4 * |e| && |e'| == |e| && i < |s| && Rebuilt(s, f, e, i)
    requires forall j: nat | j / 4 < |e| :: ByteAt(e', j) == if j == f[i] then s[f[i]] else ByteAt(e, j)
    ensures Rebuilt(s, f, e', i + 1)
  {
    forall a | 0 <= a <= i ensures ByteAt(e', f[a]) == s[f[a]] {
      assert a < i ==> f[a] != f[i];
    }
  }

  lemma RebuiltAll(s: seq<int>, f: seq<int>, e: seq<int>)
    requires IsPerm(f, |s|) && |s| <= 4 * |e| && Rebuilt(s, f, e, |s|)
    ensures Spells(e, s)
  {
    forall x | 0 <= x < |s| ensures ByteAt(e, x) == s[x] {
      PermOnto(f, |s|, x);
      var a :| 0 <= a < |s| && f[a] == x;
    }
  }

  /** Writes the block back over the classes: row i belongs to the bucket that its position
      falls in, so its first character is known. */
  method Reconstruct(fmap: array<int>, eclass: array<int>, ftabCopy: array<int>, n: nat, ghost s: seq<int>)
    requires fmap != eclass && ftabCopy != fmap && ftabCopy != eclass
    requires IsBlock(s) && |s| == n && n <= fmap.Length && n <= 4 * eclass.Length
    requires ftabCopy.Length == 256 && forall c | 0 <= c < 256 :: ftabCopy[c] == Count(s, c, n)
    requires IsPerm(fmap[..n], n) && InBuckets(s, fmap[..n])
    modifies eclass, ftabCopy
    ensures Spells(eclass[..], s)
  {
    hide Rebuilt, Remaining, Spells;
    ghost var f := fmap[..n];
    var j := 0;
    forall c | 0 <= c < 256 ensures ftabCopy[c] == Remaining(s, c, 0) { RemainingAll(s, c); }
    RebuiltNone(s, f, eclass[..]);
    for i := 0 to n
      invariant 0 <= j < 256 && (i == 0 ==> j == 0) && (i > 0 ==> j <= s[f[i - 1]])
      invariant forall c | 0 <= c < 256 :: ftabCopy[c] == Remaining(s, c, i)
      invariant Rebuilt(s, f, eclass[..], i)
    {
      ghost var c := s[f[i]];
      RemainingStep(s, i, c);
      if i > 0 { BucketsAscend(s, f, i); }
      assert 0 <= f[i] < n && 0 <= s[f[i]] < 256;
      while ftabCopy[j] == 0
        invariant 0 <= j <= c
        decreases c - j
      {
        j := j + 1;
      }
      assert j == c;
      ftabCopy[j] := ftabCopy[j] - 1;
      ghost var e := eclass[..];
      SetByte(eclass, fmap[i], j);
      RebuiltStep(s, f, e, eclass[..], i);
    }
    RebuiltAll(s, f, eclass[..]);
  }

  lemma RebuiltNone(s: seq<int>, f: seq<int>, e: seq<int>)
    requires IsPerm(f, |s|) && |s| <= 4 * |e|
    ensures Rebuilt(s, f, e, 0)
  {}

  lemma RemainingAll(s: seq<int>, c: int)
    ensures Remaining(s, c, 0) == Count(s, c, |s|)
  {
    LessNext(s, c, |s|);
  }

  lemma BucketsAscend(s: seq<int>, f: seq<int>, i: nat)
    requires IsPerm(f, |s|) && InBuckets(s, f) && 0 < i < |s|
    ensures s[f[i - 1]] <= s[f[i]]
  {
    if s[f[i]] < s[f[i - 1]] { LessMonotone(s, s[f[i]] + 1, s[f[i - 1]], |s|); }
  }

  // ---- The whole sort ----

  /** fallbackSort: leaves all rotations of the block in cyclic order in fmap, and the block
      itself where it was. */
  method FallbackSort(fmap: array<int>, eclass: array<int>, bhtab: array<int>, n: nat, ghost s: seq<int>)
    requires fmap != eclass && bhtab != fmap && bhtab != eclass
    requires n <= fmap.Length && n <= eclass.Length && (n + 63) / 32 < bhtab.Length
    requires IsBlock(s) && |s| == n <= 900000 && Spells(eclass[..], s) && Words(bhtab[..])
    modifies fmap, eclass, bhtab
    ensures SortedRotations(s, fmap[..n])
    ensures Spells(eclass[..], s)
  {
    hide HeadsMarked, Spells, InBuckets, SortedTo, SortedRotations, IsPerm, ClassesAt, Head;
    var ftab, ftabCopy := Histogram(eclass, n, s);
    Accumulate(ftab, s);
    Place(fmap, eclass, ftab, n, s);
    MarkHeads(bhtab, ftab, n, s, fmap[..n]);
    BucketsSorted(s, fmap[..n]);
    var h := 1;
    while true
      invariant 0 < h <= n
      invariant SortedTo(s, fmap[..n], h) && IsPerm(fmap[..n], n) && InBuckets(s, fmap[..n])
      invariant HeadsMarked(bhtab[..], s, fmap[..n], h)
      invariant forall c | 0 <= c < 256 :: ftabCopy[c] == Count(s, c, n)
      decreases n - h
    {
      SetClasses(fmap, eclass, bhtab, n, h, s);
      var nNotDone := RefineRound(fmap, eclass, bhtab, n, s, h);
      SortedIsPerm(s, fmap[..n], 2 * h);
      h := h * 2;
      if h > n || nNotDone == 0 {
        if h > n { DepthReached(s, fmap[..n], h); }
        break;
      }
    }
    Reconstruct(fmap, eclass, ftabCopy, n, s);
  }

  lemma DepthReached(s: seq<int>, f: seq<int>, h: nat)
    requires SortedTo(s, f, h) && |s| <= h
    ensures SortedRotations(s, f)
  {
    forall a, b | 0 <= a < b < |s| ensures Le(s, f[a], f[b], |s|) { DeepEnough(s, f[b], f[a], h); }
  }
}

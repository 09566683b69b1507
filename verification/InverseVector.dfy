/** The two ways the decompressor inverts the block sort: the FAST vector tt, which carries the
    column in its low bytes, and the SMALL vector of 20-bit entries, reversed in place. */
module InverseVector {
  import opened Bits
  import opened Rotations
  import opened BurrowsWheeler
  import opened Counting

  const MAX_BLOCK := 900000

  // ---- Counts of the column ----

  /** cftab[c] is the number of characters below c. */
  ghost predicate Below(cftab: seq<int>, col: seq<int>)
  {
    |cftab| == 257 && forall c | 0 <= c <= 256 :: cftab[c] == Less(col, c, |col|)
  }

  /** Sets up cftab.  The checks of its entries never fail. */
  method SetUpCftab(cftab: array<int>, unzftab: array<int>, nblock: nat, ghost col: seq<int>) returns (ok: bool)
    requires cftab != unzftab && cftab.Length == 257 && unzftab.Length == 256
    requires IsBytes(col) && |col| == nblock && forall c | 0 <= c < 256 :: unzftab[c] == Count(col, c, nblock)
    modifies cftab
    ensures ok && Below(cftab[..], col)
  {
    hide Less, Count;
    LessEnds(col, 0, 256, nblock);
    forall c | 0 <= c <= 256 ensures 0 <= Less(col, c, nblock) <= nblock { LessMonotone(col, c, c, nblock); }
    ok := true;
    for i := 0 to 256
      invariant ok
      modifies {}
    {
      LessGap(col, i, i + 1, nblock);
      if unzftab[i] < 0 || unzftab[i] > nblock { ok := false; }
    }
    cftab[0] := 0;
    for i := 1 to 257
      invariant cftab[0] == 0 && forall c | 1 <= c < i :: cftab[c] == Count(col, c - 1, nblock)
    {
      cftab[i] := unzftab[i - 1];
    }
    for i := 1 to 257
      invariant forall c | 0 <= c < i :: cftab[c] == Less(col, c, nblock)
      invariant forall c | i <= c <= 256 :: cftab[c] == Count(col, c - 1, nblock)
    {
      LessNext(col, i - 1, nblock);
      cftab[i] := cftab[i] + cftab[i - 1];
    }
    for i := 0 to 257
      invariant ok
      modifies {}
    {
      if cftab[i] < 0 || cftab[i] > nblock { ok := false; }
    }
    for i := 1 to 257
      invariant ok
      modifies {}
    {
      LessMonotone(col, i - 1, i, nblock);
      if cftab[i - 1] > cftab[i] { ok := false; }
    }
  }

  // ---- Filling a vector in column order ----

  /** cftab while the first i entries of the column are being placed. */
  ghost predicate Placing(f: seq<int>, col: seq<int>, i: nat)
    requires i <= |col|
  {
    |f| >= 256 && forall c | 0 <= c < 256 :: f[c] == Less(col, c, |col|) + Count(col, c, i)
  }

  lemma PlaceStep(f: seq<int>, col: seq<int>, i: nat)
    requires i < |col| && IsBytes(col) && Placing(f, col, i)
    ensures 0 <= col[i] < 256 <= |f| && f[col[i]] == SortedRow(col, i) < |col|
    ensures Placing(f[col[i] := f[col[i]] + 1], col, i + 1)
  {
    SortedRowInRange(col, i);
  }

  lemma PlaceStart(f: seq<int>, col: seq<int>)
    requires Below(f, col)
    ensures Placing(f, col, 0)
  {}

  /** Rows are given to column entries one to one. */
  lemma RowsDiffer(col: seq<int>, i: nat, j: nat)
    requires i < |col| && j < |col| && i != j
    ensures SortedRow(col, i) != SortedRow(col, j)
  {
    if col[i] < col[j] || (col[i] == col[j] && i < j) { SortedRowOrder(col, i, j); } else { SortedRowOrder(col, j, i); }
  }

  /** inv holds, for the rows of the first i entries, which entry they got; -1 elsewhere. */
  ghost predicate Placed(inv: seq<int>, col: seq<int>, i: nat)
  {
    && |inv| == |col| && i <= |col|
    && (forall q | 0 <= q < |col| :: inv[q] == -1 || (0 <= inv[q] < i && SortedRow(col, inv[q]) == q))
    && forall k | 0 <= k < i :: SortedRow(col, k) < |col| && inv[SortedRow(col, k)] == k
  }

  lemma PlacedNext(inv: seq<int>, col: seq<int>, i: nat)
    requires Placed(inv, col, i) && i < |col|
    ensures SortedRow(col, i) < |col| && inv[SortedRow(col, i)] == -1
    ensures Placed(inv[SortedRow(col, i) := i], col, i + 1)
  {
    hide SortedRow;
    SortedRowInRange(col, i);
    forall k | 0 <= k < i ensures SortedRow(col, k) != SortedRow(col, i) { RowsDiffer(col, k, i); }
  }

  lemma PlacedAll(inv: seq<int>, col: seq<int>)
    requires Placed(inv, col, |col|)
    ensures IsInverse(col, inv)
  {
    var n := |col|;
    var p := seq(n, k requires 0 <= k < n => SortedRow(col, k));
    forall a, b | 0 <= a < b < n ensures p[a] != p[b] { RowsDiffer(col, a, b); }
    assert IsPerm(p, n);
    forall q | 0 <= q < n ensures inv[q] != -1 {
      PermOnto(p, n, q);
      var k :| 0 <= k < n && p[k] == q;
      assert inv[SortedRow(col, k)] == k;
    }
  }

  /** The vector after the first i entries of the column were placed. */
  ghost function PlaceTo(col: seq<int>, i: nat): (inv: seq<int>)
    requires i <= |col|
    ensures |inv| == |col|
  {
    if i == 0 then seq(|col|, _ => -1)
    else
      SortedRowInRange(col, i - 1);
      PlaceTo(col, i - 1)[SortedRow(col, i - 1) := i - 1]
  }

  lemma {:induction false} PlaceToPlaces(col: seq<int>, i: nat)
    requires i <= |col|
    ensures Placed(PlaceTo(col, i), col, i)
  {
    if i > 0 {
      PlaceToPlaces(col, i - 1);
      PlacedNext(PlaceTo(col, i - 1), col, i - 1);
    }
  }

  /** The vector that undoes the sort of the column. */
  ghost function InverseOf(col: seq<int>): (t: seq<int>)
    ensures IsInverse(col, t)
  {
    PlaceToPlaces(col, |col|);
    PlacedAll(PlaceTo(col, |col|), col);
    PlaceTo(col, |col|)
  }

  lemma InverseUnique(col: seq<int>, t: seq<int>)
    requires IsInverse(col, t)
    ensures t == InverseOf(col)
  {
    hide SortedRow, InverseOf;
    var u := InverseOf(col);
    forall q | 0 <= q < |col| ensures t[q] == u[q] {
      assert SortedRow(col, t[q]) == q && u[SortedRow(col, t[q])] == t[q];
    }
  }

  // ---- FAST ----

  /** tt carries the column in its low bytes and t above them. */
  ghost predicate Carries(tt: seq<int>, col: seq<int>, t: seq<int>)
  {
    && |col| == |t| <= |tt|
    && forall q | 0 <= q < |col| :: tt[q] == col[q] + 256 * (if t[q] == -1 then 0 else t[q])
  }

  /** Computes T^-1 into the upper 24 bits of tt. */
  method BuildFast(tt: array<int>, cftab: array<int>, nblock: nat, ghost col: seq<int>) returns (ghost t: seq<int>)
    requires tt != cftab && nblock <= tt.Length && nblock <= MAX_BLOCK && IsBytes(col) && col == tt[..nblock]
    requires Below(cftab[..], col)
    modifies tt, cftab
    ensures IsInverse(col, t) && Carries(tt[..], col, t)
  {
    hide SortedRow, Less, Count, Below, Placed, Placing, IsInverse;
    t := seq(nblock, _ => -1);
    PlaceStart(cftab[..], col);
    NonePlaced(col, t);
    for i := 0 to nblock
      invariant Placed(t, col, i) && Carries(tt[..], col, t) && Placing(cftab[..], col, i)
    {
      PlaceStep(cftab[..], col, i);
      PlacedNext(t, col, i);
      PlacedShape(t, col, i);
      LowByte(col[i], if t[i] == -1 then 0 else t[i]);
      var uc := tt[i] % 256;
      var q := cftab[uc];
      AddPointer(col[q], i);
      tt[q] := Or(tt[q], i * 256);
      cftab[uc] := cftab[uc] + 1;
      t := t[q := i];
    }
    PlacedAll(t, col);
  }

  lemma NonePlaced(col: seq<int>, t: seq<int>)
    requires |t| == |col| && forall q | 0 <= q < |t| :: t[q] == -1
    ensures Placed(t, col, 0)
  {}

  lemma PlacedShape(inv: seq<int>, col: seq<int>, i: nat)
    requires Placed(inv, col, i)
    ensures |inv| == |col| && forall q | 0 <= q < |col| :: -1 <= inv[q] < i
  {}

  lemma LowByte(c: int, k: nat)
    requires 0 <= c < 256
    ensures (c + 256 * k) % 256 == c && (c + 256 * k) / 256 == k
  {}

  lemma AddPointer(c: int, i: nat)
    requires 0 <= c < 256
    ensures Or(c, i * 256) == c + 256 * i
  {
    OrCommutes(c, i * 256);
    Pow2Values();
    OrDisjoint(i, c, 8);
  }

  lemma {:induction false} OrCommutes(a: nat, b: nat)
    ensures Or(a, b) == Or(b, a)
    decreases a + b
  {
    if a > 0 || b > 0 { OrCommutes(a / 2, b / 2); }
  }

  // ---- SMALL ----

  /** GET_LL */
  function GetLL(ll16: seq<int>, ll4: seq<int>, i: nat): int
    requires i < |ll16| && i / 2 < |ll4|
  {
    ll16[i] + 0x1_0000 * (if i % 2 == 0 then ll4[i / 2] % 16 else ll4[i / 2] / 16 % 16)
  }

  /** Room for n entries of 20 bits. */
  ghost predicate Entries(ll16: seq<int>, ll4: seq<int>, n: nat)
  {
    && n <= |ll16| && (n + 1) / 2 <= |ll4|
    && (forall i | 0 <= i < n :: 0 <= ll16[i] < 0x1_0000) && forall i | 0 <= i < |ll4| :: 0 <= ll4[i] < 256
  }

  /** SET_LL: 16 bits in one array and 4 in half a byte of the other, which loses nothing. */
  method SetLL(ll16: array<int>, ll4: array<int>, i: nat, v: nat, ghost n: nat)
    requires ll16 != ll4 && Entries(ll16[..], ll4[..], n) && i < n && v < 0x10_0000
    modifies ll16, ll4
    ensures Entries(ll16[..], ll4[..], n)
    ensures forall k | 0 <= k < n :: GetLL(ll16[..], ll4[..], k) == if k == i then v else old(GetLL(ll16[..], ll4[..], k))
    ensures forall k | 0 <= k < ll16.Length && k != i :: ll16[k] == old(ll16[k])
  {
    var b := ll4[i / 2];
    Nibbles(b, v / 0x1_0000);
    ll16[i] := v % 0x1_0000;
    if i % 2 == 0 {
      ll4[i / 2] := b - b % 16 + v / 0x1_0000;
    } else {
      ll4[i / 2] := b % 16 + v / 0x1_0000 * 16;
    }
  }

  lemma Nibbles(b: nat, h: nat)
    requires b < 256 && h < 16
    ensures (b - b % 16 + h) % 16 == h && (b - b % 16 + h) / 16 % 16 == b / 16 % 16 && b - b % 16 + h < 256
    ensures (b % 16 + h * 16) % 16 == b % 16 && (b % 16 + h * 16) / 16 % 16 == h && b % 16 + h * 16 < 256
  {}

  /** While the first i entries of the column were replaced by their rows. */
  ghost predicate Rows(ll16: seq<int>, ll4: seq<int>, col: seq<int>, i: nat)
  {
    && Entries(ll16, ll4, |col|) && i <= |col|
    && (forall k | 0 <= k < i :: GetLL(ll16, ll4, k) == SortedRow(col, k))
    && forall k | i <= k < |col| :: ll16[k] == col[k]
  }

  /** Computes T, the row of every entry, in place of the column. */
  method BuildSmall(ll16: array<int>, ll4: array<int>, cftab: array<int>, nblock: nat, ghost col: seq<int>)
    requires ll16 != ll4 && cftab.Length == 257 && nblock <= MAX_BLOCK && Entries(ll16[..], ll4[..], nblock)
    requires IsBytes(col) && col == ll16[..nblock] && Below(cftab[..], col) && cftab !in {ll16, ll4}
    modifies ll16, ll4
    ensures Rows(ll16[..], ll4[..], col, nblock)
  {
    hide SortedRow, Less, Count, Below, Placing, GetLL;
    var cftabCopy := new int[257];
    for i := 0 to 257
      invariant forall c | 0 <= c < i :: cftabCopy[c] == cftab[c]
      modifies cftabCopy
    {
      cftabCopy[i] := cftab[i];
    }
    assert cftabCopy[..] == cftab[..];
    PlaceStart(cftabCopy[..], col);
    assert forall k | 0 <= k < nblock :: ll16[k] == ll16[..nblock][k];
    for i := 0 to nblock
      invariant Rows(ll16[..], ll4[..], col, i) && Placing(cftabCopy[..], col, i)
      modifies ll16, ll4, cftabCopy
    {
      PlaceStep(cftabCopy[..], col, i);
      var uc := ll16[i];
      ghost var f := cftabCopy[..];
      SetLL(ll16, ll4, i, cftabCopy[uc], nblock);
      cftabCopy[uc] := cftabCopy[uc] + 1;
      assert cftabCopy[..] == f[uc := f[uc] + 1];
    }
  }

  /** The turned entries seen: they lead back, the others still lead forward. */
  ghost predicate Turned(ll16: seq<int>, ll4: seq<int>, col: seq<int>, t: seq<int>, seen: set<int>)
  {
    && Entries(ll16, ll4, |col|) && |t| == |col|
    && forall q | 0 <= q < |col| :: GetLL(ll16, ll4, q) == if q in seen then t[q] else SortedRow(col, q)
  }

  /** The entries turned so far form a chain from o to i. */
  ghost predicate Chain(t: seq<int>, seen: set<int>, o: int, i: int)
  {
    && (forall q | q in seen :: 0 <= q < |t| && (t[q] in seen || t[q] == o))
    && (i in seen || (seen == {} && i == o))
    && (i != o ==> o !in seen && forall q | q in seen :: t[q] != i)
  }

  /** The next entry of the cycle was not turned yet. */
  lemma ChainNext(col: seq<int>, t: seq<int>, seen: set<int>, o: int, i: int)
    requires IsInverse(col, t) && 0 <= o < |col| && 0 <= i < |col| && Chain(t, seen, o, i) && (i != o || seen == {})
    ensures 0 <= SortedRow(col, i) < |col| && t[SortedRow(col, i)] == i
    ensures SortedRow(col, i) !in seen && Chain(t, seen + {SortedRow(col, i)}, o, SortedRow(col, i))
  {
    hide SortedRow;
  }

  lemma InverseShape(col: seq<int>, t: seq<int>)
    requires IsInverse(col, t)
    ensures |t| == |col| && forall q | 0 <= q < |t| :: 0 <= t[q] < |t|
  {}

  lemma SeenFits(t: seq<int>, seen: set<int>)
    requires forall q | q in seen :: 0 <= q < |t|
    ensures |seen| <= |t|
  {
    RangeSize(|t|);
    SubsetSize(seen, Range(|t|));
  }

  /** Turns the cycle through origPtr around: on it, every entry then leads where T^-1 does. */
  method Reverse(ll16: array<int>, ll4: array<int>, origPtr: nat, nblock: nat, ghost col: seq<int>, ghost t: seq<int>)
    returns (ghost seen: set<int>)
    requires ll16 != ll4 && |col| == nblock <= MAX_BLOCK && origPtr < nblock
    requires Rows(ll16[..], ll4[..], col, nblock) && IsInverse(col, t)
    modifies ll16, ll4
    ensures Turned(ll16[..], ll4[..], col, t, seen) && origPtr in seen && forall q | q in seen :: 0 <= q < |t| && t[q] in seen
  {
    hide SortedRow, GetLL, IsInverse;
    InverseShape(col, t);
    SortedRowInRange(col, origPtr);
    seen := {};
    var i := origPtr;
    var j := GetLL(ll16[..], ll4[..], i);
    while true
      invariant Turned(ll16[..], ll4[..], col, t, seen) && Chain(t, seen, origPtr, i)
      invariant 0 <= i < nblock && j == SortedRow(col, i) && (i != origPtr || seen == {})
      decreases nblock - |seen|
    {
      ChainNext(col, t, seen, origPtr, i);
      SeenFits(t, seen + {j});
      var tmp := GetLL(ll16[..], ll4[..], j);
      SetLL(ll16, ll4, j, i, nblock);
      seen := seen + {j};
      i := j;
      j := tmp;
      if i == origPtr { break; }
    }
  }

  // ---- Reading both ----

  /** BZ2_indexIntoF: the character whose rows in the first column include indx. */
  method IndexIntoF(indx: int, cftab: array<int>) returns (nb: int)
    requires cftab.Length == 257 && cftab[0] <= indx < cftab[256]
    ensures 0 <= nb < 256 && cftab[nb] <= indx < cftab[nb + 1]
  {
    nb := 0;
    var na := 256;
    while true
      invariant 0 <= nb < na <= 256 && cftab[nb] <= indx < cftab[na]
      invariant na - nb > 1 || (nb == 0 && na == 256)
      decreases na - nb
    {
      var mid := (nb + na) / 2;
      if indx >= cftab[mid] { nb := mid; } else { na := mid; }
      if na - nb == 1 { break; }
    }
  }

  /** The column entry that the inverse vector leads to from row q is the character at row q of
      the first column, which is what binary search finds. */
  lemma FirstColumn(col: seq<int>, t: seq<int>, cftab: seq<int>, q: nat, c: int)
    requires IsBytes(col) && IsInverse(col, t) && q < |col| && Below(cftab, col)
    requires 0 <= c < 256 && cftab[c] <= q < cftab[c + 1]
    ensures 0 <= t[q] < |col| && col[t[q]] == c
  {
    var x := t[q];
    CountMonotone(col, col[x], x, |col|);
    LessNext(col, col[x], |col|);
    if col[x] < c { LessMonotone(col, col[x] + 1, c, |col|); }
    if col[x] > c { LessMonotone(col, c + 1, col[x], |col|); }
  }

  /** Byte k of the block, also for k beyond its end, where the walk goes round again. */
  function BlockByte(col: seq<int>, t: seq<int>, o: nat, k: nat): int
    requires |t| == |col| && o < |t| && forall q | 0 <= q < |t| :: 0 <= t[q] < |t|
  {
    col[Walk(t, o, k + 1)]
  }

  lemma CarriesAt(tt: seq<int>, col: seq<int>, t: seq<int>, q: nat)
    requires IsBytes(col) && Carries(tt, col, t) && q < |col| && t[q] >= 0
    ensures q < |tt| && tt[q] >= 0 && tt[q] % 256 == col[q] && tt[q] / 256 == t[q]
  {
    LowByte(col[q], t[q]);
  }

  /** BZ_GET_FAST: the next byte and the next position. */
  method GetFast(tt: array<int>, tPos: nat, blockSize100k: nat, ghost col: seq<int>, ghost t: seq<int>, ghost o: nat, ghost k: nat)
    returns (corrupt: bool, c: int, next: int)
    requires IsBytes(col) && IsInverse(col, t) && Carries(tt[..], col, t) && o < |col| <= 100000 * blockSize100k
    requires (forall q | 0 <= q < |t| :: 0 <= t[q] < |t|) && tPos == Walk(t, o, k + 1)
    ensures !corrupt && c == BlockByte(col, t, o, k) && next == Walk(t, o, k + 2)
  {
    hide IsInverse, Carries;
    InverseShape(col, t);
    if tPos >= 100000 * blockSize100k { return true, 0, 0; }
    CarriesAt(tt[..], col, t, tPos);
    corrupt, c, next := false, tt[tPos] % 256, tt[tPos] / 256;
  }

  /** BZ_GET_SMALL */
  method GetSmall(ll16: array<int>, ll4: array<int>, cftab: array<int>, tPos: nat, blockSize100k: nat,
                  ghost col: seq<int>, ghost t: seq<int>, ghost o: nat, ghost k: nat, ghost seen: set<int>)
    returns (corrupt: bool, c: int, next: int)
    requires ll16 != ll4 && IsBytes(col) && IsInverse(col, t) && o < |col| <= 100000 * blockSize100k && Below(cftab[..], col)
    requires Turned(ll16[..], ll4[..], col, t, seen) && o in seen && forall q | q in seen :: 0 <= q < |t| && t[q] in seen
    requires (forall q | 0 <= q < |t| :: 0 <= t[q] < |t|) && tPos == Walk(t, o, k)
    ensures !corrupt && c == BlockByte(col, t, o, k) && next == Walk(t, o, k + 1)
  {
    hide IsInverse, SortedRow, GetLL, Below;
    if tPos >= 100000 * blockSize100k { return true, 0, 0; }
    WalkSeen(t, o, k, seen);
    FirstRows(col, cftab[..]);
    corrupt := false;
    c := IndexIntoF(tPos, cftab);
    FirstColumn(col, t, cftab[..], tPos, c);
    next := GetLL(ll16[..], ll4[..], tPos);
  }

  lemma {:induction false} WalkSeen(t: seq<int>, o: nat, k: nat, seen: set<int>)
    requires o < |t| && (forall q | 0 <= q < |t| :: 0 <= t[q] < |t|) && o in seen && forall q | q in seen :: 0 <= q < |t| && t[q] in seen
    ensures Walk(t, o, k) in seen
  {
    if k > 0 { WalkSeen(t, o, k - 1, seen); }
  }

  lemma FirstRows(col: seq<int>, cftab: seq<int>)
    requires IsBytes(col) && Below(cftab, col)
    ensures |cftab| == 257 && cftab[0] == 0 && cftab[256] == |col|
  {
    LessEnds(col, 0, 256, |col|);
  }
}

/** The bits of a compressed block: mapping table, selectors, coding tables, symbols. */
module BlockFormat {
  import opened Bits
  import opened BitStream
  import opened MoveToFront
  import opened SymbolStream

  // ---- The mapping table ----

  /** Some character of row i is in use. */
  ghost predicate Used16(u: seq<bool>, i: nat)
    requires |u| == 256 && i < 16
  {
    exists j :: 16 * i <= j < 16 * i + 16 && u[j]
  }

  /** The bits of the rows from i on. */
  ghost function RowsFrom(u: seq<bool>, i: nat): seq<bool>
    requires |u| == 256 && i <= 16
    decreases 16 - i
  {
    if i == 16 then [] else [Used16(u, i)] + RowsFrom(u, i + 1)
  }

  /** The bits of row i from place j on. */
  ghost function RowFrom(u: seq<bool>, i: nat, j: nat): seq<bool>
    requires |u| == 256 && i < 16 && j <= 16
    decreases 16 - j
  {
    if j == 16 then [] else [u[16 * i + j]] + RowFrom(u, i, j + 1)
  }

  /** The bits of the used rows from i on. */
  ghost function UsedFrom(u: seq<bool>, i: nat): seq<bool>
    requires |u| == 256 && i <= 16
    decreases 16 - i
  {
    if i == 16 then [] else (if Used16(u, i) then RowFrom(u, i, 0) else []) + UsedFrom(u, i + 1)
  }

  ghost function MapBits(u: seq<bool>): seq<bool>
    requires |u| == 256
  {
    RowsFrom(u, 0) + UsedFrom(u, 0)
  }

  // ---- Selectors ----

  /** The list of n tables after the first i moves to the front. */
  function ListAfter(m: seq<int>, n: nat, i: nat): (l: seq<int>)
    requires i <= |m| && forall k | 0 <= k < |m| :: 0 <= m[k] < n
    ensures |l| == n
  {
    if i == 0 then Iota(n) else ToFront(ListAfter(m, n, i - 1), m[i - 1])
  }

  /** m tells where each selector was in the list. */
  ghost predicate Moves(m: seq<int>, sel: seq<int>, n: nat) {
    && |m| == |sel| && (forall k | 0 <= k < |m| :: 0 <= m[k] < n)
    && forall k | 0 <= k < |m| :: sel[k] == ListAfter(m, n, k)[m[k]]
  }

  lemma {:induction false} ListEntries(m: seq<int>, n: nat, i: nat)
    requires i <= |m| && forall k | 0 <= k < |m| :: 0 <= m[k] < n
    ensures forall k | 0 <= k < n :: 0 <= ListAfter(m, n, i)[k] < n
  {
    if i > 0 { ListEntries(m, n, i - 1); }
  }

  /** The selectors that move-to-front values stand for. */
  function SelOf(moves: seq<int>, n: nat): (sel: seq<int>)
    requires forall k | 0 <= k < |moves| :: 0 <= moves[k] < n
    ensures |sel| == |moves|
  {
    seq(|moves|, k requires 0 <= k < |moves| => ListAfter(moves, n, k)[moves[k]])
  }

  /** j as j one bits and a zero. */
  function Unary(j: nat): seq<bool>
    decreases j
  {
    if j == 0 then [false] else [true] + Unary(j - 1)
  }

  ghost function UnaryFrom(m: seq<int>, i: nat): seq<bool>
    requires i <= |m| && forall k | 0 <= k < |m| :: 0 <= m[k]
    decreases |m| - i
  {
    if i == |m| then [] else Unary(m[i]) + UnaryFrom(m, i + 1)
  }

  // ---- Coding tables ----

  /** Steps of one up or down from curr to len, and a zero. */
  function Delta(curr: int, len: int): seq<bool>
    decreases if curr < len then len - curr else curr - len
  {
    if curr < len then [true, false] + Delta(curr + 1, len)
    else if curr > len then [true, true] + Delta(curr - 1, len)
    else [false]
  }

  /** The lengths from symbol i on, coded by differences from curr. */
  ghost function DeltasFrom(len: seq<int>, i: nat, curr: int): seq<bool>
    requires i <= |len|
    decreases |len| - i
  {
    if i == |len| then [] else Delta(curr, len[i]) + DeltasFrom(len, i + 1, len[i])
  }

  ghost predicate LengthsOk(lens: seq<seq<int>>, alphaSize: nat) {
    alphaSize >= 1 && forall t | 0 <= t < |lens| :: |lens[t]| == alphaSize && forall i | 0 <= i < alphaSize :: 1 <= lens[t][i] <= 20
  }

  /** The tables from t on. */
  ghost function TablesFrom(lens: seq<seq<int>>, alphaSize: nat, t: nat): seq<bool>
    requires LengthsOk(lens, alphaSize) && t <= |lens|
    decreases |lens| - t
  {
    if t == |lens| then [] else Field(lens[t][0], 5) + DeltasFrom(lens[t], 0, lens[t][0]) + TablesFrom(lens, alphaSize, t + 1)
  }

  // ---- The block ----

  const BLOCK_MAGIC: seq<Byte> := [0x31, 0x41, 0x59, 0x26, 0x53, 0x59]
  const END_MAGIC: seq<Byte> := [0x17, 0x72, 0x45, 0x38, 0x50, 0x90]

  /** BZ_MAX_SELECTORS */
  const MAX_SELECTORS := 2 + 900000 / G_SIZE

  /** What a block is made of: everything the compressor decided about it. */
  datatype Parts = Parts(crc: nat, origPtr: nat, inUse: seq<bool>, lens: seq<seq<int>>, moves: seq<int>, sel: seq<int>, syms: seq<int>)

  ghost predicate PartsOk(p: Parts, alphaSize: nat)
  {
    && p.crc < 0x1_0000_0000 && p.origPtr < 0x100_0000 && |p.inUse| == 256
    && 2 <= |p.lens| <= 6 && LengthsOk(p.lens, alphaSize)
    && 1 <= |p.sel| <= MAX_SELECTORS && Moves(p.moves, p.sel, |p.lens|) && Codable(p.lens, p.sel, p.syms)
  }

  /** The part of a block before its symbols. */
  ghost function HeadBits(p: Parts, alphaSize: nat): seq<bool>
    requires PartsOk(p, alphaSize)
  {
    Field(p.crc, 32) + ([false] + (Field(p.origPtr, 24) + (MapBits(p.inUse) + CodingBits(p, alphaSize))))
  }

  ghost function CodingBits(p: Parts, alphaSize: nat): seq<bool>
    requires PartsOk(p, alphaSize)
  {
    Field(|p.lens|, 3) + (Field(|p.sel|, 15) + (UnaryFrom(p.moves, 0) + TablesFrom(p.lens, alphaSize, 0)))
  }

  /** A block after its magic number. */
  ghost function BlockBits(p: Parts, alphaSize: nat): seq<bool>
    requires PartsOk(p, alphaSize)
  {
    HeadBits(p, alphaSize) + CodedTo(p.lens, p.sel, p.syms, |p.syms|)
  }

  // ---- One step of each ----

  lemma Assoc(a: seq<bool>, b: seq<bool>, c: seq<bool>)
    ensures (a + b) + c == a + (b + c)
  {}

  lemma NoMore(a: seq<bool>)
    ensures a + [] == a
  {}

  lemma NextRow(u: seq<bool>, i: nat)
    requires |u| == 256 && i < 16
    ensures RowsFrom(u, i) == [Used16(u, i)] + RowsFrom(u, i + 1)
  {}

  lemma LastRows(u: seq<bool>)
    requires |u| == 256
    ensures RowsFrom(u, 16) == [] && UsedFrom(u, 16) == []
    ensures forall i | 0 <= i < 16 :: RowFrom(u, i, 16) == []
  {}

  lemma NextUsed(u: seq<bool>, i: nat)
    requires |u| == 256 && i < 16
    ensures UsedFrom(u, i) == (if Used16(u, i) then RowFrom(u, i, 0) + UsedFrom(u, i + 1) else UsedFrom(u, i + 1))
  {}

  lemma NextInRow(u: seq<bool>, i: nat, j: nat)
    requires |u| == 256 && i < 16 && j < 16
    ensures RowFrom(u, i, j) == [u[16 * i + j]] + RowFrom(u, i, j + 1)
  {}

  lemma ListNext(m: seq<int>, n: nat, i: nat)
    requires i < |m| && forall k | 0 <= k < |m| :: 0 <= m[k] < n
    ensures ListAfter(m, n, i + 1) == ToFront(ListAfter(m, n, i), m[i])
  {}

  lemma UnaryNext(j: nat)
    ensures Unary(j) == if j == 0 then [false] else [true] + Unary(j - 1)
  {}

  lemma DeltaNext(curr: int, len: int)
    ensures Delta(curr, len) ==
      if curr < len then [true, false] + Delta(curr + 1, len)
      else if curr > len then [true, true] + Delta(curr - 1, len)
      else [false]
  {}

  lemma DeltasNext(len: seq<int>, i: nat, curr: int)
    requires i < |len|
    ensures DeltasFrom(len, i, curr) == Delta(curr, len[i]) + DeltasFrom(len, i + 1, len[i])
  {}

  lemma DeltasNone(len: seq<int>, curr: int)
    ensures DeltasFrom(len, |len|, curr) == []
  {}

  lemma TableNext(lens: seq<seq<int>>, alphaSize: nat, t: nat)
    requires LengthsOk(lens, alphaSize) && t < |lens|
    ensures TablesFrom(lens, alphaSize, t) == Field(lens[t][0], 5) + DeltasFrom(lens[t], 0, lens[t][0]) + TablesFrom(lens, alphaSize, t + 1)
  {}

  lemma TablesNone(lens: seq<seq<int>>, alphaSize: nat)
    requires LengthsOk(lens, alphaSize)
    ensures TablesFrom(lens, alphaSize, |lens|) == []
  {}

  lemma Powers()
    ensures Pow2(3) == 8 && Pow2(15) == 32768
  {
    Pow2Add(8, 7);
    Pow2Values();
    assert Pow2(7) == 128;
  }

  lemma UnaryFromNext(m: seq<int>, i: nat)
    requires i <= |m| && forall k | 0 <= k < |m| :: 0 <= m[k]
    ensures UnaryFrom(m, i) == if i == |m| then [] else Unary(m[i]) + UnaryFrom(m, i + 1)
  {}
}

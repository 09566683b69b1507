/** Why a compressed block fits behind the block in arr2: the worst that mapping table, selectors,
    coding tables and symbols can take. */
module BlockSize {
  import opened BitStream
  import opened MoveToFront
  import opened SymbolStream
  import opened BlockFormat
  import opened StreamFormat
  import opened Crc
  import CanonicalCode
  import opened ByteMaps

  lemma {:induction false} RowsSize(u: seq<bool>, i: nat)
    requires |u| == 256 && i <= 16
    ensures |RowsFrom(u, i)| == 16 - i
    decreases 16 - i
  {
    if i < 16 { RowsSize(u, i + 1); }
  }

  lemma {:induction false} RowSize(u: seq<bool>, i: nat, j: nat)
    requires |u| == 256 && i < 16 && j <= 16
    ensures |RowFrom(u, i, j)| == 16 - j
    decreases 16 - j
  {
    if j < 16 { RowSize(u, i, j + 1); }
  }

  lemma {:induction false} UsedSize(u: seq<bool>, i: nat)
    requires |u| == 256 && i <= 16
    ensures |UsedFrom(u, i)| <= 16 * (16 - i)
    decreases 16 - i
  {
    if i < 16 {
      UsedSize(u, i + 1);
      RowSize(u, i, 0);
    }
  }

  lemma {:induction false} UnarySize(j: nat)
    ensures |Unary(j)| == j + 1
  {
    if j > 0 { UnarySize(j - 1); }
  }

  lemma {:induction false} SelectorsSize(m: seq<int>, i: nat)
    requires i <= |m| && forall k | 0 <= k < |m| :: 0 <= m[k] < 6
    ensures |UnaryFrom(m, i)| <= 6 * (|m| - i)
    decreases |m| - i
  {
    if i < |m| {
      SelectorsSize(m, i + 1);
      UnarySize(m[i]);
    }
  }

  lemma {:induction false} DeltaSize(curr: int, len: int)
    ensures |Delta(curr, len)| == 1 + 2 * (if curr < len then len - curr else curr - len)
    decreases if curr < len then len - curr else curr - len
  {
    if curr < len { DeltaSize(curr + 1, len); } else if curr > len { DeltaSize(curr - 1, len); }
  }

  lemma {:induction false} DeltasSize(len: seq<int>, i: nat, curr: int)
    requires i <= |len| && 1 <= curr <= 17 && forall k | 0 <= k < |len| :: 1 <= len[k] <= 17
    ensures |DeltasFrom(len, i, curr)| <= 33 * (|len| - i)
    decreases |len| - i
  {
    if i < |len| {
      DeltasSize(len, i + 1, len[i]);
      DeltaSize(curr, len[i]);
    }
  }

  const TABLE_BITS := 5 + 33 * 258

  lemma {:induction false} TablesSize(lens: seq<seq<int>>, alphaSize: nat, t: nat)
    requires LengthsOk(lens, alphaSize) && t <= |lens| && alphaSize <= 258
    requires forall k | 0 <= k < |lens| :: forall i | 0 <= i < alphaSize :: lens[k][i] <= 17
    ensures |TablesFrom(lens, alphaSize, t)| <= TABLE_BITS * (|lens| - t)
    decreases |lens| - t
  {
    hide TablesFrom, DeltasFrom, Field;
    if t < |lens| {
      TablesSize(lens, alphaSize, t + 1);
      TableNext(lens, alphaSize, t);
      DeltasSize(lens[t], 0, lens[t][0]);
    } else {
      TablesNone(lens, alphaSize);
    }
  }

  lemma {:induction false} SymbolsSize(lens: seq<seq<int>>, sel: seq<int>, syms: seq<int>, k: nat)
    requires Codable(lens, sel, syms) && k <= |syms|
    requires forall t | 0 <= t < |lens| :: forall i | 0 <= i < |lens[t]| :: lens[t][i] <= 17
    ensures |CodedTo(lens, sel, syms, k)| <= 17 * k
  {
    hide PrefixLengths, CanonicalCode.Code;
    if k > 0 {
      SymbolsSize(lens, sel, syms, k - 1);
      assert PrefixLengths(lens[sel[(k - 1) / G_SIZE]]);
      assert |SymbolBits(lens, sel, syms, k - 1)| == lens[sel[(k - 1) / G_SIZE]][syms[k - 1]];
    }
  }

  /** Every symbol before EOB stands for at least one character. */
  lemma {:induction false} SymbolsCount(l: seq<int>, syms: seq<int>)
    requires |l| > 0 && Readable(syms, |l|)
    ensures |Meaning(l, syms).out| >= |syms| && Meaning(l, syms).weight >= 1
  {
    if |syms| > 0 { SymbolsCount(l, syms[..|syms| - 1]); }
  }

  /** The bits of a block of n bytes are at most this many. */
  function MostBits(n: nat): nat {
    48 + 32 + 1 + 24 + 272 + 3 + 15 + 6 * ((n + 1 + G_SIZE - 1) / G_SIZE) + 6 * TABLE_BITS + 17 * (n + 1)
  }

  /** What the compressor sees to, beyond what makes a block readable. */
  ghost predicate Tight(p: Parts, alphaSize: nat) {
    && |p.sel| == (|p.syms| + G_SIZE - 1) / G_SIZE
    && forall t | 0 <= t < |p.lens| :: |p.lens[t]| == alphaSize && forall i | 0 <= i < alphaSize :: p.lens[t][i] <= 17
  }

  lemma BlockFits(x: Block, table: CrcTable, bs: nat)
    requires GoodBlock(x, table, bs) && Tight(x.parts, AlphaSize(x.parts.inUse))
    ensures |OneBlock(x, table, bs)| <= MostBits(|x.bytes|)
  {
    hide MapBits, UnaryFrom, TablesFrom, CodedTo, Codable, LengthsOk, Meaning, UsedBelow, Field;
    var p, alpha := x.parts, AlphaSize(x.parts.inUse);
    CountFits(x, table, bs);
    MapSize(p.inUse);
    PartSizes(p, alpha);
  }

  lemma CountFits(x: Block, table: CrcTable, bs: nat)
    requires GoodBlock(x, table, bs)
    ensures |x.parts.inUse| == 256 && AlphaSize(x.parts.inUse) <= 258 && |x.parts.syms| <= |x.bytes| + 1
  {
    hide Meaning, PartsOk;
    var syms := x.parts.syms;
    SymbolsCount(Iota(256), syms[..|syms| - 1]);
  }

  lemma MapSize(u: seq<bool>)
    requires |u| == 256
    ensures |MapBits(u)| <= 272
  {
    RowsSize(u, 0);
    UsedSize(u, 0);
  }

  lemma PartSizes(p: Parts, alpha: nat)
    requires PartsOk(p, alpha) && Tight(p, alpha) && alpha <= 258
    ensures |UnaryFrom(p.moves, 0)| <= 6 * |p.sel| && |TablesFrom(p.lens, alpha, 0)| <= 6 * TABLE_BITS
    ensures |CodedTo(p.lens, p.sel, p.syms, |p.syms|)| <= 17 * |p.syms|
  {
    hide UnaryFrom, TablesFrom, CodedTo;
    SelectorsSize(p.moves, 0);
    TablesSize(p.lens, alpha, 0);
    SymbolsSize(p.lens, p.sel, p.syms, |p.syms|);
  }

  const OVERSHOOT := 34

  /** With header, trailer and the bits that were pending, all of it takes less room than arr2 has
      beyond the block. */
  lemma RoomBehindBlock(n: nat, bs: nat, pending: nat)
    requires 1 <= bs <= 9 && n <= 100000 * bs && pending <= 32
    ensures pending + 32 + MostBits(n) + 80 + 7 <= 8 * (4 * (100000 * bs + OVERSHOOT) - n)
  {}
}

/** Whole streams: what a block stands for, and the bits of a header, blocks and a trailer. */
module StreamFormat {
  import opened BitStream
  import opened Rotations
  import opened BurrowsWheeler
  import opened MoveToFront
  import opened ByteMaps
  import opened RunLength
  import opened Crc
  import opened BlockFormat
  import MtfEncode

  /** A block of a stream: its parts, its bytes, a sorted order of its rotations, and the data it
      stands for. */
  datatype Block = Block(parts: Parts, bytes: seq<int>, rows: seq<int>, data: seq<int>)

  /** The symbols of a block before EOB mean the last column of its sorted rotations. */
  ghost predicate SymbolsMean(syms: seq<int>, u: seq<bool>, b: seq<int>, rows: seq<int>, limit: nat)
    requires |u| == 256
  {
    && IsBytes(b) && SortedRotations(b, rows) && (forall i | 0 <= i < |b| :: u[b[i]])
    && Ended(syms, UsedBelow(u, 256), limit)
    && Meaning(Iota(256), syms[..|syms| - 1]).out == MtfEncode.Numbered(u, LastColumn(b, rows))
  }

  /** The parts of x describe its bytes, and its bytes its data. */
  ghost predicate GoodBlock(x: Block, table: CrcTable, bs: nat)
  {
    var p := x.parts;
    && |p.inUse| == 256 && PartsOk(p, AlphaSize(p.inUse)) && 1 <= bs <= 9
    && 1 <= |x.bytes| <= 100000 * bs && SymbolsMean(p.syms, p.inUse, x.bytes, x.rows, 100000 * bs)
    && p.origPtr < |x.rows| && x.rows[p.origPtr] == 0
    && Expand(x.bytes).out == x.data && Expand(x.bytes).cnt < 4
    && IsBytes(x.data) && p.crc == Final(Over(table, INITIAL, x.data))
  }

  ghost predicate GoodBlocks(xs: seq<Block>, table: CrcTable, bs: nat) {
    forall k | 0 <= k < |xs| :: GoodBlock(xs[k], table, bs)
  }

  ghost function OneBlock(x: Block, table: CrcTable, bs: nat): seq<bool>
    requires GoodBlock(x, table, bs)
  {
    BitsOf(BLOCK_MAGIC) + BlockBits(x.parts, AlphaSize(x.parts.inUse))
  }

  /** The bits of the blocks from k on. */
  ghost function BlocksFrom(xs: seq<Block>, table: CrcTable, bs: nat, k: nat): seq<bool>
    requires GoodBlocks(xs, table, bs) && k <= |xs|
    decreases |xs| - k
  {
    if k == |xs| then [] else OneBlock(xs[k], table, bs) + BlocksFrom(xs, table, bs, k + 1)
  }

  /** The checksum of the stream after the first k blocks. */
  ghost function Combined(xs: seq<Block>, k: nat): Word
    requires k <= |xs| && forall i | 0 <= i < |xs| :: xs[i].parts.crc < 0x1_0000_0000
  {
    if k == 0 then 0 else Combine(Combined(xs, k - 1), xs[k - 1].parts.crc)
  }

  lemma GoodCrcs(xs: seq<Block>, table: CrcTable, bs: nat)
    requires GoodBlocks(xs, table, bs)
    ensures forall i | 0 <= i < |xs| :: xs[i].parts.crc < 0x1_0000_0000
  {}

  ghost function Header(bs: nat): seq<bool>
    requires bs <= 9
  {
    BitsOf([0x42, 0x5a, 0x68, 0x30 + bs])
  }

  ghost function Trailer(combined: Word): seq<bool> {
    BitsOf(END_MAGIC) + Field(combined, 32)
  }

  /** A whole stream. */
  ghost function StreamBits(xs: seq<Block>, table: CrcTable, bs: nat): seq<bool>
    requires GoodBlocks(xs, table, bs) && bs <= 9
  {
    GoodCrcs(xs, table, bs);
    Header(bs) + (BlocksFrom(xs, table, bs, 0) + Trailer(Combined(xs, |xs|)))
  }

  /** The data of the blocks from k on. */
  ghost function DataFrom(xs: seq<Block>, k: nat): seq<int>
    requires k <= |xs|
    decreases |xs| - k
  {
    if k == |xs| then [] else xs[k].data + DataFrom(xs, k + 1)
  }

  // ---- One more block at the end ----

  lemma {:induction false} BlocksSnoc(xs: seq<Block>, x: Block, table: CrcTable, bs: nat, k: nat)
    requires GoodBlocks(xs, table, bs) && GoodBlock(x, table, bs) && k <= |xs|
    ensures GoodBlocks(xs + [x], table, bs)
    ensures BlocksFrom(xs + [x], table, bs, k) == BlocksFrom(xs, table, bs, k) + OneBlock(x, table, bs)
    decreases |xs| - k
  {
    hide GoodBlock, OneBlock;
    var ys := xs + [x];
    if k == |xs| {
      assert BlocksFrom(ys, table, bs, k + 1) == [];
      assert BlocksFrom(ys, table, bs, k) == OneBlock(x, table, bs) + [];
      assert [] + OneBlock(x, table, bs) == OneBlock(x, table, bs) + [];
    } else {
      BlocksSnoc(xs, x, table, bs, k + 1);
      assert ys[k] == xs[k];
      Assoc(OneBlock(xs[k], table, bs), BlocksFrom(xs, table, bs, k + 1), OneBlock(x, table, bs));
    }
  }

  lemma {:induction false} DataSnoc(xs: seq<Block>, x: Block, k: nat)
    requires k <= |xs|
    ensures DataFrom(xs + [x], k) == DataFrom(xs, k) + x.data
    decreases |xs| - k
  {
    if k == |xs| {
      assert DataFrom(xs + [x], k + 1) == [];
      assert [] + x.data == x.data + [];
    } else {
      DataSnoc(xs, x, k + 1);
      assert xs[k].data + (DataFrom(xs, k + 1) + x.data) == (xs[k].data + DataFrom(xs, k + 1)) + x.data;
    }
  }

  lemma {:induction false} CombinedSame(xs: seq<Block>, x: Block, k: nat)
    requires k <= |xs| && forall i | 0 <= i < |xs| :: xs[i].parts.crc < 0x1_0000_0000
    requires x.parts.crc < 0x1_0000_0000
    ensures Combined(xs + [x], k) == Combined(xs, k)
  {
    hide Combine;
    if k > 0 { CombinedSame(xs, x, k - 1); }
  }

  lemma CombinedSnoc(xs: seq<Block>, x: Block)
    requires x.parts.crc < 0x1_0000_0000 && forall i | 0 <= i < |xs| :: xs[i].parts.crc < 0x1_0000_0000
    ensures Combined(xs + [x], |xs| + 1) == Combine(Combined(xs, |xs|), x.parts.crc)
  {
    hide Combine;
    CombinedSame(xs, x, |xs|);
  }
}

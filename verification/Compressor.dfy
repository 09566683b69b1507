/** BZ2_compressBlock and the stream protocol around it. */
module Compressor {
  import opened BitStream
  import BW = BitWriter
  import opened Rotations
  import opened RunEncoder
  import opened RunLength
  import opened Crc
  import opened BlockFormat
  import opened StreamFormat
  import opened BlockWriter
  import opened SymbolStream
  import opened MoveToFront
  import opened ByteMaps
  import opened Bits
  import Bitmap
  import FallbackSort
  import BurrowsWheeler
  import BlockSort
  import MtfEncode
  import BlockSize

  // ---- The symbols of a block ----

  /** The block's bytes as they lie in arr2. */
  method ToWords(block: array<int>, n: nat, ghost b: seq<int>) returns (arr2: array<int>)
    requires n <= block.Length && b == block[..n] && IsBytes(b)
    ensures fresh(arr2) && arr2.Length == n && FallbackSort.Spells(arr2[..], b)
  {
    hide FallbackSort.ByteAt;
    arr2 := new int[n](_ => 0);
    for i := 0 to n
      invariant forall j: nat | j < i :: j / 4 < n && FallbackSort.ByteAt(arr2[..], j) == b[j]
    {
      FallbackSort.SetByte(arr2, i, block[i]);
    }
  }

  /** Block sort and move-to-front coding. */
  method BlockSymbols(enc: Encoder, workFactor: int) returns (origPtr: int, syms: seq<int>, nInUse: nat, ghost rows: seq<int>)
    requires enc.Valid() && 1 <= enc.nblock
    ensures nInUse == UsedBelow(enc.inUse[..], 256) && 1 <= nInUse <= 256 && SymsOk(syms, nInUse + 2)
    ensures SymbolsMean(syms, enc.inUse[..], enc.block[..enc.nblock], rows, 100000 * enc.blockSize100k)
    ensures 0 <= origPtr < |rows| == enc.nblock && rows[origPtr] == 0
  {
    hide *;
    BlockFacts(enc);
    ghost var b := enc.block[..enc.nblock];
    var n := enc.nblock;
    var arr2 := ToWords(enc.block, n, b);
    var arr1, ftab := new int[n], new int[65537](_ => 0);
    ZeroWords(ftab[..]);
    origPtr := BlockSort.Sort(arr1, arr2, ftab, n, workFactor, b);
    rows := arr1[..];
    assert arr1[..n] == rows;
    RowWords(b, rows);
    var nMTF;
    nMTF, nInUse := MtfEncode.GenerateMTFValues(arr1, enc.block, enc.inUse, n, b, rows);
    syms := MtfEncode.Mtfv(arr1[..], nMTF);
    SymbolsFit(arr1[..], nMTF, nInUse, enc.inUse[..], b, rows, 100000 * enc.blockSize100k);
  }

  lemma BlockFacts(enc: Encoder)
    requires enc.Valid() && 1 <= enc.nblock
    ensures 1 <= enc.blockSize100k <= 9 && enc.block.Length == 100000 * enc.blockSize100k && enc.inUse.Length == 256 && enc.nblock <= enc.block.Length
    ensures var b := enc.block[..enc.nblock]; FallbackSort.IsBlock(b) && IsBytes(b) && forall i | 0 <= i < |b| :: enc.inUse[b[i]]
  {
    var b := enc.block[..enc.nblock];
    forall i | 0 <= i < |b| ensures enc.inUse[b[i]] { assert b[i] in b; }
  }

  lemma ZeroWords(f: seq<int>)
    requires forall i | 0 <= i < |f| :: f[i] == 0
    ensures Bitmap.Words(f)
  {}

  lemma RowWords(b: seq<int>, rows: seq<int>)
    requires SortedRotations(b, rows) && |b| <= 900000
    ensures IsPerm(rows, |b|) && |rows| == |b| && Bitmap.Words(rows)
  {}

  lemma SymbolsFit(a: seq<int>, nMTF: nat, nInUse: nat, u: seq<bool>, b: seq<int>, rows: seq<int>, limit: nat)
    requires |a| == |b| <= limit <= 900000 && 1 <= nMTF <= |b| + 1 && |b| >= 1 && |u| == 256 && nInUse == UsedBelow(u, 256)
    requires IsBytes(b) && SortedRotations(b, rows) && forall i | 0 <= i < |b| :: u[b[i]]
    requires MtfEncode.Half(a, nMTF - 1) == nInUse + 1
    requires Readable(MtfEncode.Mtfv(a, nMTF - 1), nInUse) && Readable(MtfEncode.Mtfv(a, nMTF - 1), 256)
    requires Meaning(Iota(256), MtfEncode.Mtfv(a, nMTF - 1)).out == MtfEncode.Numbered(u, BurrowsWheeler.LastColumn(b, rows))
    ensures SymsOk(MtfEncode.Mtfv(a, nMTF), nInUse + 2) && 1 <= nInUse
    ensures SymbolsMean(MtfEncode.Mtfv(a, nMTF), u, b, rows, limit)
  {
    hide Meaning, UsedBelow, MtfEncode.Half;
    var syms, m := MtfEncode.Mtfv(a, nMTF), nMTF - 1;
    assert syms[..m] == MtfEncode.Mtfv(a, m) && syms[m] == nInUse + 1;
    UsedGrows(u, b[0], 256);
    forall k | 0 <= k < |syms| ensures 0 <= syms[k] < nInUse + 2 {
      if k < m { assert syms[..m][k] == syms[k]; }
    }
  }

  // ---- One block ----

  /** A sequence of bsPutUChar. */
  method PutBytes(w: BW.Writer, m: seq<Byte>)
    requires w.Valid()
    modifies w
    ensures w.Valid() && w.Output() == old(w.Output()) + BitsOf(m)
  {
    hide *;
    ghost var o := w.Output();
    NoBits(o, m);
    for i := 0 to |m|
      invariant w.Valid() && w.Output() == o + BitsOf(m[..i])
    {
      BitsOfSnoc(m[..i], m[i]);
      assert m[..i] + [m[i]] == m[..i + 1];
      Assoc(o, BitsOf(m[..i]), Field(m[i], 8));
      w.PutUChar(m[i]);
    }
    assert m[..|m|] == m;
  }

  lemma NoBits(o: seq<bool>, m: seq<Byte>)
    ensures o + BitsOf(m[..0]) == o
  {}

  /** Selectors that may be chosen: one of the tables for every group of 50 symbols. */
  ghost predicate Chooses(choose: seq<int> -> seq<int>) {
    forall syms :: 1 <= |syms| <= 900001 ==> SelectorsOk(choose(syms), syms)
  }

  lemma Chosen(choose: seq<int> -> seq<int>, syms: seq<int>, alphaSize: nat)
    requires Chooses(choose) && SymsOk(syms, alphaSize)
    ensures SelectorsOk(choose(syms), syms)
  {}

  /** A block that is not empty: it is sorted, coded and written. */
  method WriteBlock(w: BW.Writer, enc: Encoder, workFactor: int, choose: seq<int> -> seq<int>) returns (crc: Word, ghost x: Block)
    requires w.Valid() && enc.Valid() && 1 <= enc.nblock && Chooses(choose)
    modifies w
    ensures w.Valid() && enc.Valid() && GoodBlock(x, enc.table, enc.blockSize100k) && x.data == enc.done && crc == x.parts.crc
    ensures w.Output() == old(w.Output()) + OneBlock(x, enc.table, enc.blockSize100k)
    ensures |w.Output()| <= |old(w.Output())| + BlockSize.MostBits(enc.nblock)
    ensures x.bytes == enc.block[..enc.nblock]
  {
    hide *;
    crc := Final(enc.blockCRC);
    var origPtr, syms, nInUse;
    ghost var rows, lens, moves;
    origPtr, syms, nInUse, rows := BlockSymbols(enc, workFactor);
    Chosen(choose, syms, nInUse + 2);
    var selector := choose(syms);
    BlockFacts(enc);
    Pow2Values();
    ghost var o := w.Output();
    PutBytes(w, BLOCK_MAGIC);
    w.PutUInt32(crc);
    PutBit(w, false);
    w.W(24, origPtr);
    lens, moves := SendMTFValues(w, syms, enc.inUse, nInUse, selector);
    x := Block(Parts(crc, origPtr, enc.inUse[..], lens, moves, selector, syms), enc.block[..enc.nblock], rows, enc.done);
    BlockDone(enc, x, nInUse);
    ChosenCount(selector, syms);
    TightBlock(x, nInUse + 2);
    BlockSize.BlockFits(x, enc.table, enc.blockSize100k);
    Written(o, x, enc.table, enc.blockSize100k, nInUse + 2);
  }

  lemma ChosenCount(sel: seq<int>, syms: seq<int>)
    requires SelectorsOk(sel, syms)
    ensures |sel| == (|syms| + G_SIZE - 1) / G_SIZE
  {}

  lemma TightBlock(x: Block, alpha: nat)
    requires LengthsOk(x.parts.lens, alpha) && |x.parts.sel| == (|x.parts.syms| + G_SIZE - 1) / G_SIZE
    requires forall t | 0 <= t < |x.parts.lens| :: forall i | 0 <= i < alpha :: x.parts.lens[t][i] <= 17
    ensures BlockSize.Tight(x.parts, alpha)
  {}

  /** What was written makes a good block. */
  lemma BlockDone(enc: Encoder, x: Block, nInUse: nat)
    requires enc.Valid() && 1 <= enc.nblock && x.bytes == enc.block[..enc.nblock] && x.data == enc.done && x.parts.inUse == enc.inUse[..]
    requires x.parts.crc == Final(enc.blockCRC) && nInUse == UsedBelow(enc.inUse[..], 256)
    requires SymbolsMean(x.parts.syms, x.parts.inUse, x.bytes, x.rows, 100000 * enc.blockSize100k)
    requires x.parts.origPtr < |x.rows| == enc.nblock && x.rows[x.parts.origPtr] == 0
    requires 2 <= |x.parts.lens| <= 6 && LengthsOk(x.parts.lens, nInUse + 2) && Codable(x.parts.lens, x.parts.sel, x.parts.syms)
    requires Moves(x.parts.moves, x.parts.sel, |x.parts.lens|) && 1 <= |x.parts.sel| <= MAX_SELECTORS
    ensures GoodBlock(x, enc.table, enc.blockSize100k) && AlphaSize(x.parts.inUse) == nInUse + 2
  {
    hide SymbolsMean, LengthsOk, Codable, Moves, Expand, Over, UsedBelow;
    assert PartsOk(x.parts, nInUse + 2);
  }

  lemma Written(o: seq<bool>, x: Block, table: CrcTable, bs: nat, alpha: nat)
    requires GoodBlock(x, table, bs) && alpha == AlphaSize(x.parts.inUse)
    ensures var p := x.parts;
            && PartsOk(p, alpha) && |p.inUse| == 256
            && (((((o + BitsOf(BLOCK_MAGIC)) + Field(p.crc, 32)) + [false]) + Field(p.origPtr, 24))
               + (MapBits(p.inUse) + (Field(|p.lens|, 3) + (Field(|p.sel|, 15) + (UnaryFrom(p.moves, 0) + TablesFrom(p.lens, alpha, 0))))))
               + CodedTo(p.lens, p.sel, p.syms, |p.syms|)
            == o + OneBlock(x, table, bs)
  {
    hide Field, BitsOf, MapBits, UnaryFrom, TablesFrom, CodedTo, SymbolsMean, Codable, LengthsOk, Moves;
    var p := x.parts;
    var m, a, b, c, d, f := BitsOf(BLOCK_MAGIC), Field(p.crc, 32), [false], Field(p.origPtr, 24),
                            MapBits(p.inUse) + CodingBits(p, alpha), CodedTo(p.lens, p.sel, p.syms, |p.syms|);
    Regroup(o, m, a, b, c, d, f);
  }

  lemma Regroup(o: seq<bool>, m: seq<bool>, a: seq<bool>, b: seq<bool>, c: seq<bool>, d: seq<bool>, f: seq<bool>)
    ensures (((((o + m) + a) + b) + c) + d) + f == o + (m + ((a + (b + (c + d))) + f))
  {}

  // ---- The stream ----

  datatype Mode = Idle | Running | Flushing | Finishing
  datatype State = Output | Input
  datatype Action = RunAction | FlushAction | FinishAction | OtherAction
  datatype Code = RunOk | FlushOk | FinishOk | StreamEnd | SequenceError | ParamError

  /** The bits made so far of a stream whose trailer was not written. */
  ghost function MadeBits(xs: seq<Block>, table: CrcTable, bs: nat, started: bool): seq<bool>
    requires GoodBlocks(xs, table, bs) && bs <= 9
  {
    if started then Header(bs) + BlocksFrom(xs, table, bs, 0) else []
  }

  /** The blocks made so far and their checksum. */
  ghost predicate BlocksOk(xs: seq<Block>, table: CrcTable, bs: nat, started: bool, combined: Word) {
    && GoodBlocks(xs, table, bs) && 1 <= bs <= 9 && (forall i | 0 <= i < |xs| :: xs[i].parts.crc < 0x1_0000_0000)
    && combined == Combined(xs, |xs|) && (!started ==> xs == [])
  }

  /** The bytes bytes hold the whole stream, filled up to a byte. */
  ghost predicate WholeStream(bytes: seq<Byte>, xs: seq<Block>, table: CrcTable, bs: nat) {
    && GoodBlocks(xs, table, bs) && bs <= 9
    && exists pad: nat :: pad < 8 && BitsOf(bytes) == StreamBits(xs, table, bs) + Field(0, pad)
  }

  lemma HeaderMade(bs: nat, table: CrcTable)
    requires 1 <= bs <= 9
    ensures GoodBlocks([], table, bs)
    ensures [] + BitsOf([0x42, 0x5a, 0x68, 0x30 + bs]) == MadeBits([], table, bs, true)
  {
    NoMore(Header(bs));
    assert [] + Header(bs) == Header(bs);
  }

  lemma BlockMade(xs: seq<Block>, x: Block, table: CrcTable, bs: nat, combined: Word)
    requires BlocksOk(xs, table, bs, true, combined) && GoodBlock(x, table, bs)
    ensures BlocksOk(xs + [x], table, bs, true, Combine(combined, x.parts.crc))
    ensures MadeBits(xs + [x], table, bs, true) == MadeBits(xs, table, bs, true) + OneBlock(x, table, bs)
    ensures DataFrom(xs + [x], 0) == DataFrom(xs, 0) + x.data
  {
    hide OneBlock, Combine, Header, SymbolsMean, PartsOk;
    BlocksSnoc(xs, x, table, bs, 0);
    DataSnoc(xs, x, 0);
    CombinedSnoc(xs, x);
    Assoc(Header(bs), BlocksFrom(xs, table, bs, 0), OneBlock(x, table, bs));
  }

  lemma TrailerMade(xs: seq<Block>, table: CrcTable, bs: nat, combined: Word)
    requires BlocksOk(xs, table, bs, true, combined)
    ensures (MadeBits(xs, table, bs, true) + BitsOf(END_MAGIC)) + Field(combined, 32) == StreamBits(xs, table, bs)
  {
    hide GoodBlock, Header, Combined;
    Assoc(Header(bs), BlocksFrom(xs, table, bs, 0), BitsOf(END_MAGIC));
    Assoc(Header(bs), BlocksFrom(xs, table, bs, 0) + BitsOf(END_MAGIC), Field(combined, 32));
    Assoc(BlocksFrom(xs, table, bs, 0), BitsOf(END_MAGIC), Field(combined, 32));
  }

  /** The blocks that ys has more than xs hold at least so many bytes, but perhaps the last. */
  ghost predicate FullBlocks(xs: seq<Block>, ys: seq<Block>, least: int, partial: bool) {
    xs <= ys && forall k | |xs| <= k < |ys| :: |ys[k].bytes| >= least || (partial && k == |ys| - 1)
  }

  class EState {
    const workFactor: int
    const choose: seq<int> -> seq<int>
    const enc: Encoder
    const w: BW.Writer               // zbits[0 .. numZ] and the bit buffer
    var mode: Mode
    var state: State
    var availInExpect: nat
    var blockNo: nat
    var combinedCRC: Word
    var stateOutPos: nat
    var input: seq<int>              // next_in[0 .. avail_in]
    var availOut: nat
    var written: seq<Byte>           // everything put at next_out
    ghost var before: seq<Byte>      // what was written before zbits was started anew
    ghost var fed: seq<int>          // everything taken from next_in
    ghost var xs: seq<Block>         // the blocks made
    ghost var trailer: bool          // the trailer was made

    /** The stream has begun. */
    ghost predicate Started()
      reads this`blockNo, this`state
    {
      blockNo > 1 || state.Output?
    }

    /** What was taken is in blocks, in the current block or pending. */
    ghost predicate Conserved()
      reads this`state, this`fed, this`xs, enc
    {
      && 0 <= enc.state_in_len && IsBytes(fed)
      && fed == DataFrom(xs, 0) + (if state.Input? then enc.done else []) + enc.Pending()
    }

    /** What was written and what waits is just the bits of the stream so far. */
    ghost predicate Made()
      reads this`before, this`xs, this`trailer, this`blockNo, this`state, this`combinedCRC, w
    {
      && BlocksOk(xs, enc.table, enc.blockSize100k, Started(), combinedCRC)
      && if trailer then WholeStream(before + w.zbits, xs, enc.table, enc.blockSize100k)
         else w.Valid() && BitsOf(before) + w.Output() == MadeBits(xs, enc.table, enc.blockSize100k, Started())
    }

    /** Where the two-state machine can stand.  A block that was compressed because it was full
        leaves a pending run, so the machine cannot stop before the trailer. */
    ghost predicate Proto()
      reads this, enc, w
    {
      && blockNo >= 1 && stateOutPos <= |w.zbits| && written == before + w.zbits[..stateOutPos]
      && (state.Input? ==> w.zbits == [] && !trailer && enc.nblock < enc.NblockMAX() && (enc.state_in_ch == NO_CHAR ==> enc.nblock == 0))
      && (trailer ==> state.Output? && (mode.Finishing? || mode.Idle?) && enc.IsEmptyRL() && availInExpect == 0)
      && (mode.Idle? ==> trailer && stateOutPos == |w.zbits|)
      && (mode.Running? && state.Output? ==> !enc.IsEmptyRL())
      && (mode.Finishing? && state.Output? && !trailer ==> !enc.IsEmptyRL())
      && (mode.Flushing? && state.Output? && enc.IsEmptyRL() ==> availInExpect == 0)
    }

    /** What holds while a call is being handled. */
    ghost predicate Inside()
      reads this, enc, enc.block, enc.inUse, w
    {
      && enc.Valid() && Chooses(choose) && Conserved() && Made() && Proto() && IsBytes(input)
    }

    /** What holds between calls: a stream that is being finished is not all written. */
    ghost predicate Valid()
      reads this, enc, enc.block, enc.inUse, w
    {
      Inside() && (mode.Finishing? && trailer ==> stateOutPos < |w.zbits|)
    }

    /** A call the protocol does not allow: after the end, with another action than the one under way, or
        with other input than was there when that action began. */
    ghost predicate Refused(action: Action)
      reads this`mode, this`availInExpect, this`input
    {
      || mode.Idle?
      || (mode.Flushing? && (!action.FlushAction? || availInExpect != |input|))
      || (mode.Finishing? && (!action.FinishAction? || availInExpect != |input|))
    }

    /** BZ2_bzCompressInit */
    constructor (blockSize100k: nat, workFactor: int, table: CrcTable, choose: seq<int> -> seq<int>)
      requires 1 <= blockSize100k <= 9 && Chooses(choose)
      ensures Valid() && mode.Running? && state.Input? && fed == [] && written == [] && input == [] && fresh(enc) && fresh(w) && fresh(enc.block) && fresh(enc.inUse)
      ensures enc.table == table && enc.blockSize100k == blockSize100k
    {
      hide BlocksOk, WholeStream, MadeBits, DataFrom, BitsOf, BW.Writer.Valid, BW.Writer.Output, Encoder.Valid, Chooses, SelectorsOk;
      this.workFactor, this.choose := if workFactor == 0 then 30 else workFactor, choose;
      enc := new Encoder(blockSize100k, table);
      w := new BW.Writer.InitWrite();
      mode, state, availInExpect, blockNo, combinedCRC, stateOutPos := Running, Input, 0, 1, 0, 0;
      input, availOut, written, before, fed, xs, trailer := [], 0, [], [], [], [], false;
      new;
      FirstMade(table, blockSize100k);
      NoPending(enc);
      Gone([], enc.Pending());
      assert w.zbits[..0] == [];
    }

    /** The caller sets next_in and avail_in, and avail_out. */
    method SetBuffers(nextIn: seq<int>, room: nat)
      requires Valid() && IsBytes(nextIn)
      modifies this`input, this`availOut
      ensures Valid() && input == nextIn && availOut == room
    {
      hide BlocksOk, WholeStream, MadeBits, DataFrom, BitsOf, w.Valid, w.Output, Encoder.Valid, Chooses;
      input, availOut := nextIn, room;
    }

    /** prepare_new_block once everything made was written, and the turn to input. */
    method StartBlock()
      requires Inside() && state.Output? && !trailer && stateOutPos == |w.zbits| && !mode.Idle?
      modifies this`state, this`blockNo, this`stateOutPos, this`before, w`zbits, enc`nblock, enc`blockCRC, enc`done, enc.inUse
      ensures Inside() && state.Input?
    {
      hide BlocksOk, WholeStream, MadeBits, DataFrom, BitsOf, w.Valid, w.Output, Chooses, Made, Encoder.Valid;
      MadeFacts();
      ghost var z, b0, o0 := w.zbits, before, w.Output();
      WrittenAll(z);
      enc.PrepareNewBlock();
      w.Restart();
      before := written;
      stateOutPos := 0;
      blockNo := blockNo + 1;
      state := Input;
      MadeAgain(z, b0, o0);
      Gone(DataFrom(xs, 0), enc.Pending());
    }

    lemma MadeFacts()
      requires Made() && state.Output? && !trailer
      ensures w.Valid() && BlocksOk(xs, enc.table, enc.blockSize100k, true, combinedCRC)
      ensures BitsOf(before) + w.Output() == MadeBits(xs, enc.table, enc.blockSize100k, true)
    {
      hide BlocksOk, WholeStream, MadeBits, BitsOf, w.Valid, w.Output;
    }

    /** What was made before goes on being made. */
    lemma MadeAgain(z: seq<Byte>, b0: seq<Byte>, o0: seq<bool>)
      requires w.Valid() && before == b0 + z && o0 == BitsOf(z) + w.Output() && !trailer && blockNo > 1
      requires BlocksOk(xs, enc.table, enc.blockSize100k, true, combinedCRC) && BitsOf(b0) + o0 == MadeBits(xs, enc.table, enc.blockSize100k, true)
      ensures Made()
    {
      hide BlocksOk, WholeStream, MadeBits, BitsOf, w.Valid, w.Output;
      BitsOfConcat(b0, z);
      Assoc(BitsOf(b0), BitsOf(z), w.Output());
    }

    /** The stream has its header and the blocks xs, and no trailer. */
    ghost predicate Begun()
      reads this`before, this`xs, this`combinedCRC, w
    {
      && w.Valid() && BlocksOk(xs, enc.table, enc.blockSize100k, true, combinedCRC)
      && BitsOf(before) + w.Output() == MadeBits(xs, enc.table, enc.blockSize100k, true)
    }

    /** The stream header, before the first block; before later ones numZ is set to 0 again. */
    method Begin()
      requires blockNo >= 1 && Made() && state.Input? && !trailer && w.zbits == [] && 1 <= enc.blockSize100k <= 9
      modifies w
      ensures Begun() && |w.Output()| <= 64
    {
      hide *;
      MadeShape();
      PendingBits(w);
      if blockNo > 1 {
        w.Restart();
        Zero(w.Output());
        Begins();
      } else {
        w.Reinit();
        Nothing(BitsOf(before), old(w.Output()));
        HeaderMade(enc.blockSize100k, enc.table);
        HeaderSize(enc.blockSize100k);
        PutBytes(w, [0x42, 0x5a, 0x68, 0x30 + enc.blockSize100k]);
        Begins();
      }
    }

    lemma MadeShape()
      requires Made() && !trailer && state.Input? && blockNo >= 1
      ensures w.Valid() && BlocksOk(xs, enc.table, enc.blockSize100k, true, combinedCRC) && GoodBlocks(xs, enc.table, enc.blockSize100k)
      ensures blockNo > 1 ==> BitsOf(before) + w.Output() == MadeBits(xs, enc.table, enc.blockSize100k, true)
      ensures blockNo == 1 ==> BitsOf(before) + w.Output() == [] && xs == []
    {}

    lemma Begins()
      requires w.Valid() && BlocksOk(xs, enc.table, enc.blockSize100k, true, combinedCRC) && GoodBlocks(xs, enc.table, enc.blockSize100k) && enc.blockSize100k <= 9
      requires BitsOf(before) + w.Output() == MadeBits(xs, enc.table, enc.blockSize100k, true)
      ensures Begun()
    {}

    /** One more block, which holds what the current block stands for. */
    method AddBlock()
      requires enc.Valid() && Chooses(choose) && 1 <= enc.nblock && Begun()
      modifies this`combinedCRC, this`xs, w
      ensures Begun() && enc.Valid() && DataFrom(xs, 0) == old(DataFrom(xs, 0)) + enc.done
      ensures |xs| >= 1 && xs[..|xs| - 1] == old(xs) && xs[|xs| - 1].bytes == enc.block[..enc.nblock]
      ensures |w.Output()| <= |old(w.Output())| + BlockSize.MostBits(enc.nblock)
    {
      hide BitsOf, w.Output, BlocksOk, MadeBits, GoodBlock, Combine, DataFrom, Encoder.Valid, BW.Writer.Valid, OneBlock, Chooses;
      var crc: Word;
      ghost var x;
      ghost var b, o := BitsOf(before), w.Output();
      crc, x := WriteBlock(w, enc, workFactor, choose);
      BlockMade(xs, x, enc.table, enc.blockSize100k, combinedCRC);
      Assoc(b, o, OneBlock(x, enc.table, enc.blockSize100k));
      combinedCRC := Combine(combinedCRC, crc);
      xs := xs + [x];
    }

    /** The stream trailer. */
    method WriteTrailer()
      requires Begun()
      modifies w
      ensures WholeStream(before + w.zbits, xs, enc.table, enc.blockSize100k) && w.zbits != []
      ensures 8 * |w.zbits| <= |old(w.Output())| + 87
    {
      hide BitsOf, w.Valid, w.Output, MadeBits, GoodBlock, StreamBits, Combined;
      ghost var b, o := BitsOf(before), w.Output();
      Pow2Values();
      PutBytes(w, END_MAGIC);
      w.PutUInt32(combinedCRC);
      ghost var pad := w.FinishWrite();
      Assoc(b, o, BitsOf(END_MAGIC));
      Assoc(b, o + BitsOf(END_MAGIC), Field(combinedCRC, 32));
      Assoc(b, o + BitsOf(END_MAGIC) + Field(combinedCRC, 32), Field(0, pad));
      TrailerMade(xs, enc.table, enc.blockSize100k, combinedCRC);
      BitsOfConcat(before, w.zbits);
      assert |BitsOf(w.zbits)| > 0;
      assert BitsOf(before + w.zbits) == StreamBits(xs, enc.table, enc.blockSize100k) + Field(0, pad);
    }

    /** BZ2_compressBlock, and the turn to output.  What it makes fits into arr2 behind the block. */
    method CompressBlock(isLastBlock: bool)
      requires enc.Valid() && Chooses(choose) && Conserved() && Made() && state.Input? && !trailer && w.zbits == [] && blockNo >= 1
      modifies this`state, this`combinedCRC, this`xs, this`trailer, w
      ensures enc.Valid() && Conserved() && Made() && state.Output? && trailer == isLastBlock && (trailer ==> w.zbits != [])
      ensures FullBlocks(old(xs), xs, enc.NblockMAX(), enc.nblock < enc.NblockMAX())
      ensures enc.nblock + |w.zbits| <= 4 * (100000 * enc.blockSize100k + BlockSize.OVERSHOOT)
    {
      hide Encoder.Valid, Chooses, FullBlocks, Begun, BlocksOk, MadeBits, WholeStream, DataFrom, BitsOf, w.Output, w.Valid;
      EncoderSize(enc);
      Begin();
      ghost var d := DataFrom(xs, 0);
      if enc.nblock > 0 {
        AddBlock();
      } else {
        EmptyBlock(enc);
        Gone(d, []);
      }
      OneMade(old(xs), xs, enc.block[..enc.nblock], enc.NblockMAX());
      BegunShape();
      BlockSize.RoomBehindBlock(enc.nblock, enc.blockSize100k, 32);
      WholeBytes(w);
      if isLastBlock { WriteTrailer(); }
      trailer := isLastBlock;
      state := Output;
      Gone(DataFrom(xs, 0), enc.Pending());
    }

    lemma BegunShape()
      requires Begun()
      ensures w.Valid() && BlocksOk(xs, enc.table, enc.blockSize100k, true, combinedCRC)
      ensures BitsOf(before) + w.Output() == MadeBits(xs, enc.table, enc.blockSize100k, true)
    {}

    // ---- Input and output ----

    /** copy_input_until_stop: bytes are taken until the block is full, the input is used up, or all that was
        there when flushing began was taken. */
    method CopyInputUntilStop() returns (progress: bool)
      requires enc.Valid() && Conserved() && state.Input? && IsBytes(input) && enc.nblock < enc.NblockMAX()
      requires enc.state_in_ch == NO_CHAR ==> enc.nblock == 0
      requires !mode.Running? ==> availInExpect == |input|
      modifies this`input, this`availInExpect, this`fed, enc`nblock, enc`blockCRC, enc`done, enc`state_in_ch, enc`state_in_len, enc.block, enc.inUse
      ensures enc.Valid() && Conserved() && IsBytes(input) && enc.nblock <= enc.NblockMAX() + 4
      ensures fed + input == old(fed) + old(input) && |input| <= |old(input)| && (progress <==> |input| < |old(input)|)
      ensures !mode.Running? ==> availInExpect == |input|
      ensures enc.nblock >= enc.NblockMAX() || input == []
      ensures enc.nblock >= enc.NblockMAX() ==> !enc.IsEmptyRL() && progress
      ensures enc.state_in_ch == NO_CHAR ==> enc.nblock == 0
      ensures !progress ==> enc.state_in_ch == old(enc.state_in_ch) && enc.state_in_len == old(enc.state_in_len)
    {
      hide *;
      progress := false;
      while true
        invariant enc.Valid() && Conserved() && IsBytes(input) && enc.nblock <= enc.NblockMAX() + 4
        invariant fed + input == old(fed) + old(input) && |input| <= |old(input)| && (progress <==> |input| < |old(input)|)
        invariant !mode.Running? ==> availInExpect == |input|
        invariant enc.nblock >= enc.NblockMAX() ==> !enc.IsEmptyRL() && progress
        invariant enc.state_in_ch == NO_CHAR ==> enc.nblock == 0
        invariant !progress ==> enc.state_in_ch == old(enc.state_in_ch) && enc.state_in_len == old(enc.state_in_len)
        decreases |input|
      {
        if enc.nblock >= enc.NblockMAX() { break; }
        if |input| == 0 { break; }
        if !mode.Running? && availInExpect == 0 { break; }
        progress := true;
        TakeByte();
      }
    }

    /** Takes one byte of the input. */
    method TakeByte()
      requires enc.Valid() && Conserved() && state.Input? && IsBytes(input) && enc.nblock < enc.NblockMAX() && |input| > 0
      requires enc.state_in_ch == NO_CHAR ==> enc.nblock == 0
      requires !mode.Running? ==> availInExpect == |input|
      modifies this`input, this`availInExpect, this`fed, enc`nblock, enc`blockCRC, enc`done, enc`state_in_ch, enc`state_in_len, enc.block, enc.inUse
      ensures enc.Valid() && Conserved() && IsBytes(input) && enc.nblock <= old(enc.nblock) + 5 && input == old(input)[1..]
      ensures fed + input == old(fed) + old(input) && !enc.IsEmptyRL() && enc.state_in_ch != NO_CHAR
      ensures !mode.Running? ==> availInExpect == |input|
    {
      hide Encoder.Valid;
      EncoderSize(enc);
      ghost var d, o, p := DataFrom(xs, 0), enc.done, enc.Pending();
      enc.AddChar(input[0]);
      PendingSize(enc);
      fed := fed + [input[0]];
      OneMore(d, o, p, enc.done, enc.Pending(), old(fed), input);
      input := input[1..];
      if !mode.Running? { availInExpect := availInExpect - 1; }
    }

    /** copy_output_until_stop: until the window is full or everything made was written. */
    method CopyOutputUntilStop() returns (progress: bool)
      requires stateOutPos <= |w.zbits| && written == before + w.zbits[..stateOutPos]
      modifies this`stateOutPos, this`availOut, this`written
      ensures stateOutPos <= |w.zbits| && written == before + w.zbits[..stateOutPos]
      ensures availOut == 0 || stateOutPos == |w.zbits|
      ensures |written| + availOut == |old(written)| + old(availOut) && |written| >= |old(written)| && (progress <==> |written| > |old(written)|)
    {
      progress := false;
      while true
        invariant stateOutPos <= |w.zbits| && written == before + w.zbits[..stateOutPos]
        invariant |written| + availOut == |old(written)| + old(availOut) && |written| >= |old(written)| && (progress <==> |written| > |old(written)|)
        decreases availOut
      {
        if availOut == 0 { break; }
        if stateOutPos >= |w.zbits| { break; }
        progress := true;
        written := written + [w.zbits[stateOutPos]];
        stateOutPos := stateOutPos + 1;
        availOut := availOut - 1;
      }
    }

    // ---- The machine ----

    /** flush_RL */
    method FlushRun()
      requires enc.Valid() && Conserved() && state.Input? && enc.nblock + 5 <= enc.block.Length
      modifies enc`nblock, enc`blockCRC, enc`done, enc`state_in_ch, enc`state_in_len, enc.block, enc.inUse
      ensures enc.Valid() && Conserved() && enc.state_in_ch == NO_CHAR
    {
      hide DataFrom, Encoder.Valid;
      PendingSize(enc);
      ghost var d, o, p := DataFrom(xs, 0), enc.done, enc.Pending();
      enc.FlushRL();
      NoPending(enc);
      assert d + (o + p) + [] == d + o + p;
    }

    /** The input turn of handle_compress: what was taken becomes a block when flushing or finishing
        has all its input, or when the block is full; otherwise more input is needed. */
    method InputTurn() returns (progress: bool, stop: bool)
      requires Inside() && state.Input? && !mode.Idle? && (!mode.Running? ==> availInExpect == |input|)
      modifies this`input, this`availInExpect, this`fed, this`state, this`combinedCRC, this`xs, this`trailer, w,
               enc`nblock, enc`blockCRC, enc`done, enc`state_in_ch, enc`state_in_len, enc.block, enc.inUse
      ensures Inside() && fed + input == old(fed) + old(input) && |input| <= |old(input)| && (progress <==> |input| < |old(input)|)
      ensures !mode.Running? ==> availInExpect == |input|
      ensures stop ==> state.Input? && mode.Running? && input == []
      ensures !stop ==> state.Output?
      ensures trailer <==> mode.Finishing? && availInExpect == 0
      ensures trailer ==> stateOutPos < |w.zbits|
      // A block is made only when it is full, or when flushing or finishing has all its input.
      ensures FullBlocks(old(xs), xs, enc.NblockMAX(), !stop && !mode.Running? && availInExpect == 0)
      ensures !stop && !mode.Running? && availInExpect == 0 ==> enc.IsEmptyRL()
      ensures !stop && !progress ==> !mode.Running? && availInExpect == 0 && enc.IsEmptyRL()
    {
      hide BlocksOk, WholeStream, MadeBits, DataFrom, BitsOf, w.Valid, w.Output, Encoder.Valid, Chooses, FullBlocks;
      progress := CopyInputUntilStop();
      NoneMade(xs, enc.NblockMAX());
      stop := false;
      EncoderSize(enc);
      if !mode.Running? && availInExpect == 0 {
        FlushRun();
        CompressBlock(mode.Finishing?);
        Weaken(old(xs), xs, enc.NblockMAX(), enc.nblock < enc.NblockMAX(), true);
      } else if enc.nblock >= enc.NblockMAX() {
        CompressBlock(false);
      } else {
        assert |input| == 0;
        stop := true;
      }
    }

    /** The output turn of handle_compress. */
    method OutputTurn() returns (progress: bool, stop: bool)
      requires Inside() && state.Output? && !mode.Idle?
      modifies this`state, this`blockNo, this`stateOutPos, this`before, this`written, this`availOut, w`zbits, enc`nblock, enc`blockCRC, enc`done, enc.inUse
      ensures Inside() && |written| + availOut == |old(written)| + old(availOut) && |written| >= |old(written)| && (progress <==> |written| > |old(written)|)
      ensures stop && state.Output? ==> (stateOutPos < |w.zbits| && availOut == 0) || (mode.Finishing? && trailer && stateOutPos == |w.zbits|)
      ensures stop && state.Input? ==> mode.Flushing? && availInExpect == 0 && enc.IsEmptyRL()
      ensures !stop ==> state.Input? && !(!mode.Running? && availInExpect == 0 && enc.IsEmptyRL())
      ensures old(stateOutPos) < |old(w.zbits)| ==> progress || stateOutPos < |w.zbits|
      ensures enc.IsEmptyRL() == old(enc.IsEmptyRL())
    {
      hide BlocksOk, WholeStream, MadeBits, DataFrom, BitsOf, w.Valid, w.Output, Encoder.Valid, Chooses;
      stop := true;
      progress := CopyOutputUntilStop();
      if stateOutPos < |w.zbits| { return; }
      if mode.Finishing? && availInExpect == 0 && enc.IsEmptyRL() { return; }
      StartBlock();
      stop := mode.Flushing? && availInExpect == 0 && enc.IsEmptyRL();
    }

    lemma NothingWaits()
      requires Inside() && state.Input?
      ensures w.zbits == []
    {}

    /** Flushing or finishing has made its last block, which now goes out. */
    ghost predicate LastMade()
      reads this`mode, this`state, this`availInExpect, enc
    {
      !mode.Running? && availInExpect == 0 && enc.IsEmptyRL() && state.Output?
    }

    /** One turn of the loop of handle_compress. */
    method HandleTurn() returns (progressIn: bool, progressOut: bool, stop: bool)
      requires Inside() && !mode.Idle? && (!mode.Running? ==> availInExpect == |input|)
      modifies this`input, this`availInExpect, this`fed, this`state, this`combinedCRC, this`xs, this`trailer, this`blockNo, this`stateOutPos,
               this`before, this`written, this`availOut, w, enc`nblock, enc`blockCRC, enc`done, enc`state_in_ch, enc`state_in_len, enc.block, enc.inUse
      ensures Inside() && fed + input == old(fed) + old(input) && |written| + availOut == |old(written)| + old(availOut)
      ensures !mode.Running? ==> availInExpect == |input|
      ensures (progressIn <==> |input| < |old(input)|) && |input| <= |old(input)|
      ensures (progressOut <==> |written| > |old(written)|) && |written| >= |old(written)|
      ensures trailer && !old(trailer) ==> stateOutPos < |w.zbits|
      ensures old(stateOutPos) < |old(w.zbits)| ==> progressOut || stateOutPos < |w.zbits|
      ensures old(state).Input? && old(input) != [] ==> |input| < |old(input)|
      ensures FullBlocks(old(xs), xs, enc.NblockMAX(), !mode.Running? && availInExpect == 0)
      ensures old(LastMade()) ==> stop && xs == old(xs)
      ensures !stop ==> state.Output? && (progressIn || LastMade()) && (!mode.Running? && availInExpect == 0 ==> LastMade())
      ensures stop ==> || (state.Output? && stateOutPos < |w.zbits| && availOut == 0)
                       || (mode.Finishing? && trailer && stateOutPos == |w.zbits|)
                       || (mode.Flushing? && state.Input? && availInExpect == 0 && enc.IsEmptyRL())
                       || (mode.Running? && state.Input? && input == [])
    {
      hide Inside, FullBlocks, Encoder.IsEmptyRL;
      progressIn, progressOut, stop := false, false, false;
      NoneMade(xs, enc.NblockMAX());
      Weaken(xs, xs, enc.NblockMAX(), false, !mode.Running? && availInExpect == 0);
      if state.Output? {
        progressOut, stop := OutputTurn();
        if stop { return; }
      }
      NothingWaits();
      ghost var ys := xs;
      progressIn, stop := InputTurn();
      Weaken(ys, xs, enc.NblockMAX(), !stop && !mode.Running? && availInExpect == 0, !mode.Running? && availInExpect == 0);
    }

    /** handle_compress: ends, and stops only when the output window is full, when everything was done
        that was asked for, or when more input is needed. */
    method HandleCompress() returns (progress: bool)
      requires Inside() && !mode.Idle? && (!mode.Running? ==> availInExpect == |input|)
      modifies this`input, this`availInExpect, this`fed, this`state, this`combinedCRC, this`xs, this`trailer, this`blockNo, this`stateOutPos,
               this`before, this`written, this`availOut, w, enc`nblock, enc`blockCRC, enc`done, enc`state_in_ch, enc`state_in_len, enc.block, enc.inUse
      ensures Inside() && fed + input == old(fed) + old(input) && |written| + availOut == |old(written)| + old(availOut)
      ensures !mode.Running? ==> availInExpect == |input|
      ensures progress <==> |input| < |old(input)| || |written| > |old(written)|
      ensures trailer && !old(trailer) ==> progress || stateOutPos < |w.zbits|
      ensures old(stateOutPos) < |old(w.zbits)| ==> |written| > |old(written)| || stateOutPos < |w.zbits|
      ensures |input| <= |old(input)| && |written| >= |old(written)|
      ensures old(state).Input? && old(input) != [] ==> |input| < |old(input)|
      ensures FullBlocks(old(xs), xs, enc.NblockMAX(), !mode.Running?)
      ensures || (state.Output? && stateOutPos < |w.zbits| && availOut == 0)
              || (mode.Finishing? && trailer && stateOutPos == |w.zbits|)
              || (mode.Flushing? && state.Input? && availInExpect == 0 && enc.IsEmptyRL())
              || (mode.Running? && state.Input? && input == [])
    {
      hide *;
      var progressIn, progressOut := false, false;
      ghost var xs0, least, partial := xs, enc.NblockMAX(), false;
      NoneMade(xs, least);
      while true
        invariant Inside() && fed + input == old(fed) + old(input) && |written| + availOut == |old(written)| + old(availOut)
        invariant !mode.Running? ==> availInExpect == |input|
        invariant (progressIn <==> |input| < |old(input)|) && |input| <= |old(input)| && |written| >= |old(written)|
        invariant progressOut <==> |written| > |old(written)|
        invariant trailer && !old(trailer) ==> progressOut || stateOutPos < |w.zbits|
        invariant old(stateOutPos) < |old(w.zbits)| ==> progressOut || stateOutPos < |w.zbits|
        invariant old(state).Input? && old(input) != [] ==> progressIn || (state.Input? && input != [])
        invariant FullBlocks(xs0, xs, least, partial) && (partial ==> !mode.Running? && LastMade())
        decreases |input|, if LastMade() then 0 else 1
      {
        ghost var ys := xs;
        var pIn, pOut, stop := HandleTurn();
        progressIn, progressOut := progressIn || pIn, progressOut || pOut;
        if !partial {
          partial := !mode.Running? && availInExpect == 0;
          MoreFull(xs0, ys, xs, least, partial);
        }
        if stop { break; }
      }
      Weaken(xs0, xs, least, partial, !mode.Running?);
      progress := progressIn || progressOut;
    }

    /** A FLUSH call while flushing: all is written and running goes on, or the window is full. */
    method Flush() returns (code: Code)
      requires Valid() && mode.Flushing? && availInExpect == |input|
      modifies this`mode, this`input, this`availInExpect, this`fed, this`state, this`combinedCRC, this`xs, this`trailer, this`blockNo, this`stateOutPos,
               this`before, this`written, this`availOut, w, enc`nblock, enc`blockCRC, enc`done, enc`state_in_ch, enc`state_in_len, enc.block, enc.inUse
      ensures Valid() && fed + input == old(fed) + old(input) && |written| + availOut == |old(written)| + old(availOut)
      ensures code == if stateOutPos < |w.zbits| then FlushOk else RunOk
      ensures old(state).Input? && old(input) != [] ==> |input| < |old(input)|
      ensures FullBlocks(old(xs), xs, enc.NblockMAX(), true)
      ensures code.FlushOk? ==> availOut == 0 && mode.Flushing? && availInExpect == |input|
      ensures code.RunOk? ==> mode.Running? && input == [] && enc.IsEmptyRL() && state.Input? && DataFrom(xs, 0) + enc.done == fed
    {
      hide BlocksOk, WholeStream, MadeBits, DataFrom, BitsOf, w.Valid, w.Output, Encoder.Valid, Chooses;
      var progress := HandleCompress();
      if availInExpect > 0 || !enc.IsEmptyRL() || stateOutPos < |w.zbits| { return FlushOk; }
      Empty(enc);
      NothingLeft(DataFrom(xs, 0) + enc.done);
      mode := Running;
      code := RunOk;
    }

    /** A FINISH call while finishing: the whole stream is written, or the window is full; it is an
        error just when nothing could be moved. */
    method Finish() returns (code: Code)
      requires Valid() && mode.Finishing? && availInExpect == |input|
      modifies this`mode, this`input, this`availInExpect, this`fed, this`state, this`combinedCRC, this`xs, this`trailer, this`blockNo, this`stateOutPos,
               this`before, this`written, this`availOut, w, enc`nblock, enc`blockCRC, enc`done, enc`state_in_ch, enc`state_in_len, enc.block, enc.inUse
      ensures Valid() && fed + input == old(fed) + old(input) && |written| + availOut == |old(written)| + old(availOut)
      ensures code == if |input| == |old(input)| && |written| == |old(written)| then SequenceError else if stateOutPos < |w.zbits| then FinishOk else StreamEnd
      ensures old(state).Input? && old(input) != [] ==> |input| < |old(input)|
      ensures FullBlocks(old(xs), xs, enc.NblockMAX(), true)
      ensures !code.StreamEnd? ==> availOut == 0 && mode.Finishing? && availInExpect == |input| && stateOutPos < |w.zbits|
      ensures code.StreamEnd? ==> trailer && input == [] && stateOutPos == |w.zbits| && mode.Idle?
                                  && WholeStream(written, xs, enc.table, enc.blockSize100k) && DataFrom(xs, 0) == fed
    {
      hide BlocksOk, WholeStream, MadeBits, DataFrom, BitsOf, w.Valid, w.Output, Encoder.Valid, Chooses;
      var progress := HandleCompress();
      if !progress { return SequenceError; }
      if availInExpect > 0 || !enc.IsEmptyRL() || stateOutPos < |w.zbits| { return FinishOk; }
      Empty(enc);
      NothingLeft(DataFrom(xs, 0));
      assert w.zbits[..|w.zbits|] == w.zbits;
      mode := Idle;
      code := StreamEnd;
    }

    lemma ValidIsInside()
      requires Valid()
      ensures Inside()
    {}

    lemma InsideIsValid()
      requires Inside() && mode.Running?
      ensures Valid()
    {}

    /** Flushing or finishing begins, with the input there is. */
    method Expect(m: Mode)
      requires Valid() && mode.Running? && (m.Flushing? || m.Finishing?)
      modifies this`mode, this`availInExpect
      ensures Valid() && mode == m && availInExpect == |input|
    {
      hide BlocksOk, WholeStream, MadeBits, DataFrom, BitsOf, w.Valid, w.Output, Encoder.Valid, Chooses;
      availInExpect := |input|;
      mode := m;
    }

    /** BZ2_bzCompress, for every mode and action.  STREAM_END is returned only when the trailer was
        made, everything made was written, and what was written is a whole stream of blocks that
        stand for just what was taken. */
    method BzCompress(action: Action) returns (code: Code)
      requires Valid()
      modifies this`mode, this`input, this`availInExpect, this`fed, this`state, this`combinedCRC, this`xs, this`trailer, this`blockNo, this`stateOutPos,
               this`before, this`written, this`availOut, w, enc`nblock, enc`blockCRC, enc`done, enc`state_in_ch, enc`state_in_len, enc.block, enc.inUse
      ensures fed + input == old(fed) + old(input) && |written| + availOut == |old(written)| + old(availOut)
      // What the protocol does not allow changes nothing.
      ensures old(Refused(action)) || (old(mode).Running? && action.OtherAction?) ==>
                code == (if old(mode).Running? then ParamError else SequenceError) && unchanged(this, w, enc, enc.block, enc.inUse)
      // Waiting for input, a call that is allowed takes some if there is any.
      ensures !old(Refused(action)) && !action.OtherAction? && old(state).Input? && old(input) != [] ==> |input| < |old(input)|
      // Only the last block of a FLUSH or FINISH is not full.
      ensures FullBlocks(old(xs), xs, enc.NblockMAX(), !action.RunAction?)
      // RUN goes on until the input is used up or the window is full.
      ensures old(mode).Running? && action.RunAction? ==>
                mode.Running? && (input == [] || availOut == 0) && code == if |input| < |old(input)| || |written| > |old(written)| then RunOk else ParamError
      // FLUSH puts all that was given into blocks; FLUSH_OK asks for another call with more room.
      ensures action.FlushAction? && !old(Refused(action)) ==> code == if stateOutPos < |w.zbits| then FlushOk else RunOk
      ensures code.FlushOk? ==> availOut == 0 && mode.Flushing? && availInExpect == |input|
      ensures code.RunOk? && action.FlushAction? ==> mode.Running? && input == [] && enc.IsEmptyRL() && state.Input? && DataFrom(xs, 0) + enc.done == fed
      // FINISH does the same and adds the trailer.
      ensures action.FinishAction? && !old(Refused(action)) ==>
                && code == (if |input| == |old(input)| && |written| == |old(written)| then SequenceError else if stateOutPos < |w.zbits| then FinishOk else StreamEnd)
                && (!code.StreamEnd? ==> availOut == 0 && mode.Finishing? && availInExpect == |input| && stateOutPos < |w.zbits|)
      ensures code.StreamEnd? ==> trailer && input == [] && stateOutPos == |w.zbits| && mode.Idle?
                                  && WholeStream(written, xs, enc.table, enc.blockSize100k) && DataFrom(xs, 0) == fed
      ensures Valid()
    {
      hide Valid, Inside, WholeStream, DataFrom, Encoder.Valid;
      if mode.Idle? { return SequenceError; }
      if mode.Running? {
        if action.RunAction? {
          ValidIsInside();
          var progress := HandleCompress();
          InsideIsValid();
          return if progress then RunOk else ParamError;
        }
        if action.OtherAction? { return ParamError; }
        Expect(if action.FlushAction? then Flushing else Finishing);
      }
      if mode.Flushing? {
        if !action.FlushAction? { return SequenceError; }
        if availInExpect != |input| { return SequenceError; }
        code := Flush();
      } else {
        if !action.FinishAction? { return SequenceError; }
        if availInExpect != |input| { return SequenceError; }
        code := Finish();
      }
    }
  }

  /** Blocks made in two steps. */
  lemma MoreFull(xs: seq<Block>, ys: seq<Block>, zs: seq<Block>, least: int, partial: bool)
    requires FullBlocks(xs, ys, least, false) && FullBlocks(ys, zs, least, partial)
    ensures FullBlocks(xs, zs, least, partial)
  {
    assert forall k | 0 <= k < |ys| :: zs[k] == ys[k];
  }

  lemma Weaken(xs: seq<Block>, ys: seq<Block>, least: int, p: bool, q: bool)
    requires FullBlocks(xs, ys, least, p) && (p ==> q)
    ensures FullBlocks(xs, ys, least, q)
  {}

  lemma NoneMade(xs: seq<Block>, least: int)
    ensures FullBlocks(xs, xs, least, false)
  {}

  /** One block with the bytes b was made, or none for no bytes. */
  lemma OneMade(xs: seq<Block>, ys: seq<Block>, b: seq<int>, least: int)
    requires if |b| == 0 then ys == xs else |ys| >= 1 && ys[..|ys| - 1] == xs && ys[|ys| - 1].bytes == b
    ensures FullBlocks(xs, ys, least, |b| < least)
  {}

  lemma Nothing(a: seq<bool>, b: seq<bool>)
    ensures a + b == [] ==> a == [] && b == []
  {}

  lemma PendingBits(w: BW.Writer)
    requires w.Valid() && w.zbits == []
    ensures |w.Output()| <= 32
  {}

  lemma WholeBytes(w: BW.Writer)
    requires w.Valid()
    ensures 8 * |w.zbits| <= |w.Output()|
  {}

  lemma HeaderSize(bs: nat)
    requires bs <= 9
    ensures |BitsOf([0x42, 0x5a, 0x68, 0x30 + bs])| == 32
  {}

  lemma Zero(a: seq<bool>)
    ensures BitsOf([]) + a == a
  {}

  lemma EmptyBlock(enc: Encoder)
    requires enc.Valid() && enc.nblock == 0
    ensures enc.done == []
  {}

  lemma EncoderSize(enc: Encoder)
    requires enc.Valid()
    ensures 1 <= enc.blockSize100k <= 9 && enc.block.Length == 100000 * enc.blockSize100k && enc.nblock <= enc.block.Length
  {}

  lemma OneMore(d: seq<int>, o: seq<int>, p: seq<int>, o': seq<int>, p': seq<int>, fed: seq<int>, input: seq<int>)
    requires |input| > 0 && fed == d + o + p && o' + p' == o + p + [input[0]]
    ensures fed + [input[0]] == d + o' + p'
    ensures (fed + [input[0]]) + input[1..] == fed + input
  {
    assert (d + o + p) + [input[0]] == d + (o + p + [input[0]]);
    assert d + (o' + p') == d + o' + p';
    assert input == [input[0]] + input[1..];
  }

  lemma Empty(enc: Encoder)
    requires enc.Valid() && enc.IsEmptyRL()
    ensures enc.Pending() == []
  {}

  lemma NothingLeft(a: seq<int>)
    ensures a + [] + [] == a && a + [] == a
  {}

  lemma PendingSize(enc: Encoder)
    requires enc.Valid()
    ensures 0 <= enc.state_in_len
  {}

  lemma NoPending(enc: Encoder)
    requires enc.Valid() && enc.state_in_ch == NO_CHAR
    ensures enc.state_in_len == 0 && enc.Pending() == []
  {}

  lemma WrittenAll(z: seq<Byte>)
    ensures z[..|z|] == z
  {}

  lemma Gone(a: seq<int>, b: seq<int>)
    ensures a + [] + b == a + b
  {}

  lemma FirstMade(table: CrcTable, bs: nat)
    requires 1 <= bs <= 9
    ensures BlocksOk([], table, bs, false, 0) && BitsOf([]) + [] == MadeBits([], table, bs, false) && DataFrom([], 0) == []
  {
    NoMore(BitsOf([]));
  }
}

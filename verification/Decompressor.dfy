/** BZ2_bzDecompress and BZ2_decompress: the decompressor, which may stop for want of input at any
    field and for want of room at any byte, and goes on from what its save area holds. */
module Decompressor {
  import opened Bits
  import opened BitStream
  import opened BitReader
  import opened Rotations
  import opened MoveToFront
  import opened TwoLevelList
  import opened ByteMaps
  import opened RunLength
  import opened Crc
  import CanonicalCode
  import opened SymbolStream
  import opened BlockFormat
  import opened BlockTables
  import opened DecoderMachine
  import opened MtfDecode
  import opened Counting
  import BurrowsWheeler
  import InverseVector
  import RX = RunExpander

  /** The values of s->state: every field the decompressor may wait for has its own. */
  datatype Label =
    | XIdle | XOutput | XMagic(k: int) | XBlkHdr(k: int) | XBCrc(k: int) | XRandBit | XOrigPtr(k: int)
    | XMapping1 | XMapping2 | XSelector1 | XSelector2 | XSelector3 | XCoding1 | XCoding2 | XCoding3
    | XMtf(k: int) | XEndHdr(k: int) | XCCrc(k: int)

  /** The variables of BZ2_decompress that are saved and restored. */
  datatype Locals = Locals(i: int, j: int, t: int, alphaSize: int, nGroups: int, nSelectors: int, EOB: int, groupNo: int, groupPos: int,
                           nextSym: int, nblockMAX: int, nblock: int, es: int, N: int, curr: int, zn: int, zvec: int, gSel: int, gMinlen: int)

  const ZEROS := Locals(0, 0, 0, 0, 0, 0, 0, 0, 0, 0, 0, 0, 0, 0, 0, 0, 0, 0, 0)

  /** What became of one field: BZ2_decompress goes on to the next one, or returns. */
  datatype Outcome = Goes | Fails(why: Failure)

  ghost function OutcomeOf(s: Stage): Outcome {
    if s.Halted? then Fails(s.why) else Goes
  }

  /** The label of GET_MTF_VAL after the symbols syms. */
  ghost function Site(syms: seq<int>): int {
    if |syms| == 0 then 1 else if IsRun(syms[|syms| - 1]) then 3 else 5
  }

  /** The stage, all bits supplied and the data of the blocks that are finished. */
  datatype Past = Past(stage: Stage, supplied: seq<bool>, done: seq<int>)

  datatype ReturnCode = Ok | StreamEnd | SequenceError | Error(why: Failure)

  /** A return code and what was written up to it agree with a single-shot run r: errors and the end
      of the stream are those of r, and what was written is the beginning of its output, all of it
      at the end.  A call that returns for more although r ends has not shown all of it yet. */
  ghost predicate Agrees(code: ReturnCode, output: seq<int>, r: Result) {
    match code
    case StreamEnd => r.stage.Idle? && output == r.out
    case Error(why) => r.stage == Halted(why)
    case Ok => !r.stage.Halted? ==> output <= r.out && (output < r.out || !Stopped(r.stage))
    case SequenceError => false
  }

  class DState {
    const small: bool
    const table: CrcTable
    const strm: Reader
    const inUse16: array<bool>
    const inUse: array<bool>
    const seqToUnseq: array<int>
    const unzftab: array<int>
    const cftab: array<int>
    var state: Label
    var save: Locals
    var blockSize100k: int
    var storedBlockCRC: int
    var calculatedCombinedCRC: Word
    var storedCombinedCRC: int
    var origPtr: int
    var nInUse: int
    var selectorMtf: seq<int>
    var selector: seq<int>
    var len: seq<seq<int>>
    var tables: seq<Table>
    var mtf: Mtfa
    var column: array<int>      // tt, or ll16
    var ll4: array<int>
    var fast: RX.Fast?
    var slow: RX.Small?
    ghost var past: Past        // where the decompressor stands, and what led there
    ghost var repr: set<object?>

    /** The buffers are there and apart. */
    ghost predicate Shape()
      reads this`mtf, this`column, this`ll4
    {
      && inUse16.Length == 16 && inUse.Length == 256 && inUse16 != inUse
      && seqToUnseq.Length == 256 && unzftab.Length == 256 && cftab.Length == 257
      && seqToUnseq !in {unzftab, cftab, column, ll4, mtf.mtfa, mtf.mtfbase}
      && unzftab !in {cftab, column, ll4, mtf.mtfa, mtf.mtfbase}
      && cftab !in {column, ll4, mtf.mtfa, mtf.mtfbase}
      && column !in {ll4, mtf.mtfa, mtf.mtfbase} && ll4 !in {mtf.mtfa, mtf.mtfbase}
    }

    // ---- What the fields hold at each stage ----

    ghost predicate Sized(bs: nat, combined: Word)
      reads this`blockSize100k, this`calculatedCombinedCRC, this`column, this`ll4, ll4
    {
      && blockSize100k == bs && calculatedCombinedCRC == combined && column.Length == 100000 * bs
      && (small ==> ll4.Length == (1 + bs * 100000) / 2) && forall i | 0 <= i < ll4.Length :: 0 <= ll4[i] < 256
    }

    ghost predicate HasHead(h: Head)
      reads this`blockSize100k, this`calculatedCombinedCRC, this`column, this`ll4, ll4, this`storedBlockCRC, this`origPtr
    {
      Sized(h.bs, h.combined) && storedBlockCRC == h.crc && origPtr == h.origPtr
    }

    ghost predicate HasUse(u: seq<bool>, alphaSize: int)
      reads this`nInUse, seqToUnseq
    {
      && |u| == 256 && nInUse == UsedBelow(u, 256) <= seqToUnseq.Length && alphaSize == nInUse + 2
      && seqToUnseq[..nInUse] == CharsOf(u, 256)
    }

    /** len holds the lengths of whole tables, and those known of the next one. */
    ghost predicate HasLens(u: seq<bool>, n: nat, sel: seq<int>, lens: seq<seq<int>>, l: Locals)
      reads this`nInUse, seqToUnseq, this`selector, this`len
    {
      && HasUse(u, l.alphaSize) && l.nGroups == n && l.nSelectors == |sel| && selector == sel
      && l.t == |lens| <= |len| && len[..l.t] == lens
    }

    /** The next symbol is coded with the table of its group. */
    ghost predicate InGroup(c: DecoderMachine.Code, syms: seq<int>, l: Locals)
      reads this`selector, this`tables
    {
      && selector == c.sel && l.nSelectors == |c.sel| && TablesFor(tables, c.lens)
      && 0 <= l.groupNo < |c.sel| && 0 <= l.groupPos < G_SIZE && G_SIZE * (l.groupNo + 1) - l.groupPos == |syms| + 1
      && l.gSel == c.sel[l.groupNo] && 0 <= l.gSel < |tables| && l.gMinlen == tables[l.gSel].minLen
    }

    /** What was read of the next code. */
    ghost predicate HasCode(c: DecoderMachine.Code, syms: seq<int>, code: seq<bool>, l: Locals)
      reads this`state
    {
      && |syms| < G_SIZE * |c.sel| && (forall k | 0 <= k < |c.sel| :: 0 <= c.sel[k] < |c.lens|)
      && var L := DecoderMachine.Lengths(c, syms);
         if code == [] then state == XMtf(Site(syms)) && l.zn == l.gMinlen
         else && state == XMtf(Site(syms) + 1) && l.zn == |code| + 1 && l.zvec == Value(code) && l.gMinlen <= |code|
              && CanonicalCode.Beyond(L, code, |code|) && Value(code) >= CanonicalCode.End(L, |code|)
    }

    /** The column before a run that is not finished, its counts, and the list. */
    ghost predicate HasColumn(h: Head, u: seq<bool>, syms: seq<int>, l: Locals)
      reads this`mtf, mtf, mtf.mtfa, mtf.mtfbase, this`column, column, unzftab
    {
      && |u| == 256 && Readable(syms, 256) && Readable(Base(syms), 256) && mtf.Valid() && mtf.list == Meaning(Iota(256), syms).list
      && l.nblockMAX == 100000 * h.bs && 0 <= l.nblock <= l.nblockMAX && l.nblock <= column.Length
      && column[..l.nblock] == ColumnOf(u, Base(syms)) && Counted(unzftab[..], ColumnOf(u, Base(syms)))
      && (Site(syms) == 3 ==> Pending(syms, l.es, l.N))
    }

    ghost predicate HasSymbols(h: Head, c: DecoderMachine.Code, syms: seq<int>, l: Locals)
      reads this`blockSize100k, this`calculatedCombinedCRC, this`column, this`ll4, ll4, this`storedBlockCRC, this`origPtr
      reads this`nInUse, seqToUnseq, this`selector, this`tables, this`mtf, mtf, mtf.mtfa, mtf.mtfbase, column, unzftab
    {
      && HasHead(h) && HasUse(c.u, l.alphaSize) && l.EOB == nInUse + 1 && InGroup(c, syms, l) && HasColumn(h, c.u, syms, l)
    }

    /** The block b is being shown. */
    ghost predicate Showing(b: seq<int>)
      reads this`fast, this`slow, this`column, this`ll4, cftab, column, ll4, fast, slow, (if fast == null then {} else {fast.tt}), (if slow == null then {} else {slow.ll16, slow.ll4, slow.cftab})
    {
      if small then slow != null && slow.Valid() && RX.Block(slow.s) == b && slow.table == table && slow.ll16 == column && slow.ll4 == ll4 && slow.cftab == cftab
      else fast != null && fast.Valid() && RX.Block(fast.s) == b && fast.table == table && fast.tt == column
    }

    /** Nothing of the block was shown yet. */
    ghost predicate NothingShown()
      reads this`fast, this`slow, fast, slow
    {
      if small then slow != null && slow.emitted == [] else fast != null && fast.emitted == []
    }

    /** Everything a call may change, except the input. */
    ghost function All(): set<object?>
      reads this`mtf, this`column, this`ll4, this`fast, this`slow
    {
      {this, inUse16, inUse, seqToUnseq, unzftab, cftab, column, ll4, mtf, mtf.mtfa, mtf.mtfbase}
      + (if fast == null then {} else {fast, fast.tt}) + (if slow == null then {} else {slow, slow.ll16, slow.ll4, slow.cftab})
    }

    /** repr holds everything a call may change, except the input. */
    ghost predicate Owns()
      reads this`repr, this`mtf, this`column, this`ll4, this`fast, this`slow
    {
      this in repr && All() <= repr && strm !in repr
    }

    /** What the fields hold before the mapping table and in the trailer. */
    ghost predicate TiedBytes(s: Stage)
      reads this`state, this`blockSize100k, this`storedBlockCRC, this`calculatedCombinedCRC, this`storedCombinedCRC, this`origPtr, this`nInUse
      reads this`selectorMtf, this`selector, this`len, this`column, this`ll4, ll4, inUse16, inUse, seqToUnseq
    {
      match s
      case Magic(k) => state == XMagic(k + 1) && calculatedCombinedCRC == 0
      case Start(bs, combined, k) => state == XBlkHdr(k + 1) && Sized(bs, combined)
      case BlockCrc(bs, combined, got) => state == XBCrc(|got| / 8 + 1) && Sized(bs, combined) && storedBlockCRC == Value(got)
      case RandBit(bs, combined, crc) => state == XRandBit && Sized(bs, combined) && storedBlockCRC == crc
      case OrigPtr(bs, combined, crc, got) =>
        state == XOrigPtr(|got| / 8 + 1) && Sized(bs, combined) && storedBlockCRC == crc && origPtr == Value(got)
      case End(combined, k) => state == XEndHdr(k + 1) && calculatedCombinedCRC == combined
      case StreamCrc(combined, got) => state == XCCrc(|got| / 8 + 1) && calculatedCombinedCRC == combined && storedCombinedCRC == Value(got)
      case _ => false
    }

    /** While the mapping table and the selectors are read. */
    ghost predicate TiedMap(s: Stage, l: Locals)
      reads this`state, this`blockSize100k, this`storedBlockCRC, this`calculatedCombinedCRC, this`storedCombinedCRC, this`origPtr, this`nInUse
      reads this`selectorMtf, this`selector, this`len, this`column, this`ll4, ll4, inUse16, inUse, seqToUnseq
    {
      match s
      case Rows(h, rows) => state == XMapping1 && HasHead(h) && l.i == |rows| <= inUse16.Length && inUse16[..l.i] == rows
      case Used(h, rows, u) =>
        && state == XMapping2 && HasHead(h) && inUse16[..] == rows && |u| == 16 * l.i + l.j && 0 <= l.j < 16
        && inUse.Length == 256 && forall k | 0 <= k < 256 :: inUse[k] == (k < |u| && u[k])
      case NGroups(h, u) => state == XSelector1 && HasHead(h) && HasUse(u, l.alphaSize)
      case NSelectors(h, u, n) => state == XSelector2 && HasHead(h) && HasUse(u, l.alphaSize) && l.nGroups == n
      case Selector(h, u, n, count, moves, j) =>
        && state == XSelector3 && HasHead(h) && HasUse(u, l.alphaSize) && l.nGroups == n && l.nSelectors == count
        && selectorMtf == moves && l.i == |moves| && l.j == j
      case _ => false
    }

    /** While the coding tables are read. */
    ghost predicate TiedLengths(s: Stage, l: Locals)
      reads this`state, this`blockSize100k, this`storedBlockCRC, this`calculatedCombinedCRC, this`storedCombinedCRC, this`origPtr, this`nInUse
      reads this`selectorMtf, this`selector, this`len, this`column, this`ll4, ll4, inUse16, inUse, seqToUnseq
    {
      match s
      case FirstLength(h, u, n, sel, lens) => state == XCoding1 && HasHead(h) && HasLens(u, n, sel, lens, l) && |len| == l.t
      case Step(h, u, n, sel, lens, row, curr) =>
        state == XCoding2 && HasHead(h) && HasLens(u, n, sel, lens, l) && |len| == l.t + 1 && len[l.t] == row && l.i == |row| && l.curr == curr
      case Sign(h, u, n, sel, lens, row, curr) =>
        state == XCoding3 && HasHead(h) && HasLens(u, n, sel, lens, l) && |len| == l.t + 1 && len[l.t] == row && l.i == |row| && l.curr == curr
      case _ => false
    }

    /** What the fields and the variables l hold at stage s. */
    ghost predicate Tied(s: Stage, l: Locals)
      requires StageOk(s)
      reads this`state, this`blockSize100k, this`storedBlockCRC, this`calculatedCombinedCRC, this`storedCombinedCRC, this`origPtr, this`nInUse
      reads this`selectorMtf, this`selector, this`len, this`tables, this`mtf, this`column, this`ll4, this`fast, this`slow
      reads All() - {this}
    {
      && Shape()
      && if s.Coded? then HasSymbols(s.h, s.c, s.syms, l) && HasCode(s.c, s.syms, s.code, l)
         else if MapStage(s) then TiedMap(s, l)
         else if LengthStage(s) then TiedLengths(s, l)
         else if s.Output? then state == XOutput && HasHead(s.h) && Showing(s.b)
         else if s.Idle? then state == XIdle
         else if s.Halted? then true
         else TiedBytes(s)
    }

    /** At stage s the bits b were waited for. */
    ghost predicate Waits(s: Stage, l: Locals, b: seq<bool>)
      reads this, All()
    {
      StageOk(s) && !Stopped(s) && !s.Output? && |b| == Need(s) && Tied(s, l)
    }

    /** They led from stage s to the next. */
    ghost predicate Went(s: Stage, b: seq<bool>, l: Locals, o: Outcome)
      requires StageOk(s) && !Stopped(s) && !s.Output? && |b| == Need(s)
      reads this, All()
    {
      AfterOk(s, b);
      Tied(After(s, b), l) && o == OutcomeOf(After(s, b)) && (After(s, b).Output? ==> NothingShown())
    }

    /** The single-shot run over all bits that were supplied. */
    ghost function SingleShot(): Result
      reads this`past
    {
      Decode(table, Magic(0), past.supplied)
    }

    /** The variables are l, and what is still to be done with the bits that are left is what the
        single-shot run does after the blocks that are finished. */
    ghost predicate Running(l: Locals)
      reads this`past, strm
      reads this`state, this`blockSize100k, this`storedBlockCRC, this`calculatedCombinedCRC, this`storedCombinedCRC, this`origPtr, this`nInUse
      reads this`selectorMtf, this`selector, this`len, this`tables, this`mtf, this`column, this`ll4, this`fast, this`slow
      reads All() - {this}
    {
      && strm.Valid() && StageOk(past.stage) && Tied(past.stage, l)
      && SingleShot() == Prefixed(past.done, Decode(table, past.stage, strm.Rest()))
    }

    /** Between two calls everything that is needed is in the save area. */
    ghost predicate Valid()
      reads this, strm, All()
    {
      Running(save) && !past.stage.Halted? && Owns()
    }

    constructor (small: bool, table: CrcTable)
      ensures Valid() && past == Past(Magic(0), [], []) && this.small == small && this.table == table
      ensures fresh(strm) && fresh(inUse16) && fresh(inUse) && fresh(seqToUnseq) && fresh(unzftab) && fresh(cftab) && fresh(column) && fresh(ll4)
      ensures fresh(mtf) && fresh(mtf.mtfa) && fresh(mtf.mtfbase) && fast == null && slow == null && repr == All()
    {
      hide Decode, Tied, StageOk, Valid, Running, SingleShot, Owns, Field, BitsOf, Iota, Reader.Rest, Reader.Valid, Mtfa.Valid;
      this.small, this.table := small, table;
      strm := new Reader([]);
      inUse16, inUse := new bool[16], new bool[256];
      seqToUnseq, unzftab, cftab := new int[256], new int[256], new int[257];
      column, ll4 := new int[0], new int[0];
      mtf := new Mtfa();
      state, save := XMagic(1), ZEROS;
      blockSize100k, storedBlockCRC, calculatedCombinedCRC, storedCombinedCRC, origPtr, nInUse := 0, 0, 0, 0, 0, 0;
      selectorMtf, selector, len, tables, fast, slow := [], [], [], [], null, null;
      past, repr := Past(Magic(0), [], []), {};
      new;
      repr := All();
      NoBits();
      FirstValid();
    }

    lemma FirstValid()
      requires Shape() && strm.Valid() && strm.Rest() == [] && state == XMagic(1) && calculatedCombinedCRC == 0 && past == Past(Magic(0), [], [])
      requires repr == All()
      ensures Valid()
    {
      hide Decode, Shape;
      PrefixedTwice([], [], Decode(table, Magic(0), []));
    }

    // ---- Bytes before the mapping table ----

    /** Room for the blocks. */
    method Allocate()
      requires Shape() && 1 <= blockSize100k <= 9
      modifies this`column, this`ll4
      ensures Shape() && Sized(blockSize100k, calculatedCombinedCRC) && fresh(column) && fresh(ll4)
    {
      column := new int[blockSize100k * 100000];
      ll4 := new int[if small then (1 + blockSize100k * 100000) / 2 else 0](_ => 0);
    }

    /** The magic number and the block size. */
    method AtMagic(uc: nat, l: Locals, ghost s: Stage, ghost b: seq<bool>) returns (o: Outcome)
      requires Waits(s, l, b) && s.Magic? && uc == Value(b)
      modifies this`state, this`blockSize100k, this`column, this`ll4
      ensures Went(s, b, l, o)
      ensures column == old(column) || fresh(column)
      ensures ll4 == old(ll4) || fresh(ll4)
    {
      hide TiedMap, TiedLengths, AfterMap, AfterLengths, AfterBits, Value, HasUse, HasLens, HasSymbols, HasCode, Showing, TakeSymbol, SkipRows, SelOf, UsedBelow, CodeOk, LensOk, SelOk, Readable, Shape, RX.Block;
      NoValue();
      if state.k < 4 {
        if uc != [0x42, 0x5a, 0x68][state.k - 1] { return Fails(BadMagic); }
        state := XMagic(state.k + 1);
        return Goes;
      }
      blockSize100k := uc;
      if blockSize100k < 0x30 + 1 || blockSize100k > 0x30 + 9 { return Fails(BadMagic); }
      blockSize100k := blockSize100k - 0x30;
      Allocate();
      state := XBlkHdr(1);
      o := Goes;
    }

    /** The magic number of a block or of the end. */
    method AtBlkHdr(uc: nat, l: Locals, ghost s: Stage, ghost b: seq<bool>) returns (o: Outcome)
      requires Waits(s, l, b) && s.Start? && uc == Value(b)
      modifies this`state, this`storedBlockCRC
      ensures Went(s, b, l, o)
    {
      hide TiedMap, TiedLengths, AfterMap, AfterLengths, AfterBits, Value, HasUse, HasLens, HasSymbols, HasCode, Showing, TakeSymbol, SkipRows, SelOf, UsedBelow, CodeOk, LensOk, SelOk, Readable, Shape, RX.Block;
      NoValue();
      if state.k == 1 && uc == 0x17 {
        state := XEndHdr(2);
        return Goes;
      }
      if uc != BLOCK_MAGIC[state.k - 1] { return Fails(BadData); }
      if state.k < 6 {
        state := XBlkHdr(state.k + 1);
      } else {
        storedBlockCRC := 0;
        state := XBCrc(1);
      }
      o := Goes;
    }

    method AtBCrc(uc: nat, l: Locals, ghost s: Stage, ghost b: seq<bool>) returns (o: Outcome)
      requires Waits(s, l, b) && s.BlockCrc? && uc == Value(b)
      modifies this`state, this`storedBlockCRC
      ensures Went(s, b, l, o)
    {
      hide TiedMap, TiedLengths, AfterMap, AfterLengths, AfterBits, Value, HasUse, HasLens, HasSymbols, HasCode, Showing, TakeSymbol, SkipRows, SelOf, UsedBelow, CodeOk, LensOk, SelOk, Readable, Shape, RX.Block;
      NoValue();
      ValueByte(s.got, b);
      storedBlockCRC := storedBlockCRC * 256 + uc;
      state := if state.k < 4 then XBCrc(state.k + 1) else XRandBit;
      o := Goes;
    }

    method AtRandBit(blockRandomised: nat, l: Locals, ghost s: Stage, ghost b: seq<bool>) returns (o: Outcome)
      requires Waits(s, l, b) && s.RandBit? && blockRandomised == Value(b)
      modifies this`state, this`origPtr
      ensures Went(s, b, l, o)
    {
      hide TiedMap, TiedLengths, AfterMap, AfterLengths, AfterBits, Value, HasUse, HasLens, HasSymbols, HasCode, Showing, TakeSymbol, SkipRows, SelOf, UsedBelow, CodeOk, LensOk, SelOk, Readable, Shape, RX.Block;
      NoValue();
      ValueBit(b);
      if blockRandomised == 1 { return Fails(Randomised); }
      origPtr := 0;
      state := XOrigPtr(1);
      o := Goes;
    }

    method AtOrigPtr(uc: nat, l0: Locals, ghost s: Stage, ghost b: seq<bool>) returns (o: Outcome, l: Locals)
      requires Waits(s, l0, b) && s.OrigPtr? && uc == Value(b)
      modifies this`state, this`origPtr
      ensures Went(s, b, l, o)
    {
      hide TiedLengths, AfterMap, AfterLengths, AfterBits, Value, HasUse, HasLens, HasSymbols, HasCode, Showing, TakeSymbol, SkipRows, SelOf, UsedBelow, CodeOk, LensOk, SelOk, Readable, Shape, RX.Block;
      NoValue();
      ValueByte(s.got, b);
      l, o := l0, Goes;
      origPtr := origPtr * 256 + uc;
      if state.k < 3 {
        state := XOrigPtr(state.k + 1);
        return;
      }
      if origPtr < 0 || origPtr > 10 + 100000 * blockSize100k { return Fails(BadData), l; }
      l := l.(i := 0);
      state := XMapping1;
    }

    // ---- The mapping table ----

    /** Goes on with the next row in use, or with the list of characters in use. */
    method NextRow(l0: Locals, ghost h: Head, ghost rows: seq<bool>, ghost u: seq<bool>) returns (o: Outcome, l: Locals)
      requires Shape() && HasHead(h) && HeadOk(h) && |rows| == 16 && inUse16[..] == rows && 0 <= l0.i <= 16 && |u| == 16 * l0.i
      requires forall k | 0 <= k < 256 :: inUse[k] == (k < |u| && u[k])
      modifies this`state, this`nInUse, seqToUnseq
      ensures StageOk(SkipRows(h, rows, u)) && !SkipRows(h, rows, u).Output?
      ensures Tied(SkipRows(h, rows, u), l) && o == OutcomeOf(SkipRows(h, rows, u))
    {
      hide TiedBytes, TiedLengths, Value, HasLens, HasSymbols, HasCode, Showing, SkipRows, UsedBelow, CharsOf, HasHead, After;
      l, o := l0, Goes;
      SkipRowsOk(h, rows, u);
      ghost var v := u;
      while l.i < 16 && !inUse16[l.i]
        invariant 0 <= l.i <= 16 && |v| == 16 * l.i && l == l0.(i := l.i)
        invariant forall k | 0 <= k < 256 :: inUse[k] == (k < |v| && v[k])
        invariant SkipRows(h, rows, v) == SkipRows(h, rows, u)
        decreases 16 - l.i
      {
        assert rows[l.i] == inUse16[l.i];
        SkipRow(h, rows, v, 16);
        v := v + seq(16, _ => false);
        l := l.(i := l.i + 1);
      }
      SkipsTo(h, rows, v);
      if l.i < 16 {
        assert rows[l.i] == inUse16[l.i];
        l := l.(j := 0);
        state := XMapping2;
        return;
      }
      assert inUse[..] == v;
      nInUse := MakeMapsD(inUse, seqToUnseq);
      if nInUse == 0 { return Fails(BadData), l; }
      l := l.(alphaSize := nInUse + 2);
      state := XSelector1;
    }

    method AtMapping1(uc: nat, l0: Locals, ghost s: Stage, ghost b: seq<bool>) returns (o: Outcome, l: Locals)
      requires Waits(s, l0, b) && s.Rows? && uc == Value(b)
      modifies this`state, this`nInUse, inUse16, inUse, seqToUnseq
      ensures Went(s, b, l, o)
    {
      hide TiedBytes, TiedLengths, AfterBytes, AfterLengths, AfterBits, Value, HasUse, HasLens, HasSymbols, HasCode, Showing, SkipRows, UsedBelow, HasHead;
      ValueBit(b);
      ghost var rows := s.rows + b;
      inUse16[l0.i] := uc == 1;
      assert inUse16[..l0.i + 1] == rows;
      l, o := l0.(i := l0.i + 1), Goes;
      if l.i < 16 { return; }
      for i := 0 to 256
        invariant forall k | 0 <= k < i :: !inUse[k]
        modifies inUse
      {
        inUse[i] := false;
      }
      assert inUse16[..] == inUse16[..16];
      l := l.(i := 0);
      o, l := NextRow(l, s.h, rows, []);
    }

    method AtMapping2(uc: nat, l0: Locals, ghost s: Stage, ghost b: seq<bool>) returns (o: Outcome, l: Locals)
      requires Waits(s, l0, b) && s.Used? && uc == Value(b)
      modifies this`state, this`nInUse, inUse, seqToUnseq
      ensures Went(s, b, l, o)
    {
      hide TiedBytes, TiedLengths, AfterBytes, AfterLengths, AfterBits, Value, HasUse, HasLens, HasSymbols, HasCode, Showing, SkipRows, UsedBelow, HasHead;
      ValueBit(b);
      ghost var u := s.u + b;
      if uc == 1 { inUse[l0.i * 16 + l0.j] := true; }
      l, o := l0.(j := l0.j + 1), Goes;
      SkipsTo(s.h, s.rows, u);
      if l.j < 16 { return; }
      l := l.(i := l.i + 1);
      o, l := NextRow(l, s.h, s.rows, u);
    }

    // ---- Selectors and coding tables ----

    method AtSelector1(nGroups: nat, l0: Locals, ghost s: Stage, ghost b: seq<bool>) returns (o: Outcome, l: Locals)
      requires Waits(s, l0, b) && s.NGroups? && nGroups == Value(b)
      modifies this`state
      ensures Went(s, b, l, o)
    {
      hide TiedBytes, TiedLengths, AfterBytes, AfterLengths, AfterBits, Value, HasUse, HasLens, HasSymbols, HasCode, Showing, SkipRows, UsedBelow, HasHead, Shape;
      l, o := l0.(nGroups := nGroups), Goes;
      if nGroups < 2 || nGroups > 6 { return Fails(BadData), l; }
      state := XSelector2;
    }

    method AtSelector2(nSelectors: nat, l0: Locals, ghost s: Stage, ghost b: seq<bool>) returns (o: Outcome, l: Locals)
      requires Waits(s, l0, b) && s.NSelectors? && nSelectors == Value(b)
      modifies this`state, this`selectorMtf
      ensures Went(s, b, l, o)
    {
      hide TiedBytes, TiedLengths, AfterBytes, AfterLengths, AfterBits, Value, HasUse, HasLens, HasSymbols, HasCode, Showing, SkipRows, UsedBelow, HasHead, Shape;
      l, o := l0.(nSelectors := nSelectors), Goes;
      if nSelectors < 1 { return Fails(BadData), l; }
      selectorMtf := [];
      l := l.(i := 0, j := 0);
      state := XSelector3;
    }

    method AtSelector3(uc: nat, l0: Locals, ghost s: Stage, ghost b: seq<bool>) returns (o: Outcome, l: Locals)
      requires Waits(s, l0, b) && s.Selector? && uc == Value(b)
      modifies this`state, this`selectorMtf, this`selector, this`len
      ensures Went(s, b, l, o)
    {
      hide TiedBytes, AfterBytes, AfterLengths, AfterBits, Value, HasUse, HasSymbols, HasCode, Showing, SkipRows, UsedBelow, HasHead, Shape, SelOf;
      ValueBit(b);
      l, o := l0, Goes;
      if uc != 0 {
        l := l.(j := l.j + 1);
        return if l.j >= l.nGroups then Fails(BadData) else Goes, l;
      }
      selectorMtf := selectorMtf + [l.j];
      l := l.(i := l.i + 1);
      if l.i < l.nSelectors {
        l := l.(j := 0);
        return;
      }
      EndSelectors(l.nGroups, s.moves + [s.j]);
      l := l.(t := 0);
      state := XCoding1;
    }

    /** All selectors were read. */
    method EndSelectors(nGroups: nat, ghost moves: seq<int>)
      requires 2 <= nGroups <= 6 && selectorMtf == moves && forall k | 0 <= k < |moves| :: 0 <= moves[k] < nGroups
      modifies this`selector, this`len
      ensures selector == SelOf(moves, nGroups) && len == []
    {
      selector := UndoMoves(selectorMtf, nGroups);
      len := [];
    }

    method AtCoding1(curr: nat, l0: Locals, ghost s: Stage, ghost b: seq<bool>) returns (o: Outcome, l: Locals)
      requires Waits(s, l0, b) && s.FirstLength? && curr == Value(b)
      modifies this`state, this`len
      ensures Went(s, b, l, o)
    {
      hide TiedBytes, TiedMap, AfterBytes, AfterMap, AfterBits, Value, HasUse, HasSymbols, HasCode, Showing, SkipRows, UsedBelow, HasHead, Shape, SelOf;
      l, o := l0.(curr := curr, i := 0), Goes;
      len := len + [[]];
      assert len[..l.t] == s.lens;
      if curr < 1 || curr > 20 { return Fails(BadData), l; }
      state := XCoding2;
    }

    method AtCoding3(uc: nat, l0: Locals, ghost s: Stage, ghost b: seq<bool>) returns (o: Outcome, l: Locals)
      requires Waits(s, l0, b) && s.Sign? && uc == Value(b)
      modifies this`state
      ensures Went(s, b, l, o)
    {
      hide TiedBytes, TiedMap, AfterBytes, AfterMap, AfterBits, Value, HasUse, HasSymbols, HasCode, Showing, SkipRows, UsedBelow, HasHead, Shape, SelOf;
      ValueBit(b);
      l, o := l0.(curr := if uc == 0 then l0.curr + 1 else l0.curr - 1), Goes;
      if l.curr < 1 || l.curr > 20 { return Fails(BadData), l; }
      state := XCoding2;
    }

    /** The end of a difference: the next symbol's length, the next table, or the first symbol. */
    method AtCoding2(uc: nat, l0: Locals, ghost s: Stage, ghost b: seq<bool>) returns (o: Outcome, l: Locals)
      requires Waits(s, l0, b) && s.Step? && uc == Value(b)
      modifies this`state, this`len, this`tables, this`mtf, unzftab
      ensures Went(s, b, l, o) && (mtf == old(mtf) || (fresh(mtf) && fresh(mtf.mtfa) && fresh(mtf.mtfbase)))
    {
      hide TiedBytes, TiedMap, Value, HasSymbols, HasCode, Showing, SkipRows, UsedBelow, HasHead, SelOf, LengthsOk, CharsOf, NextSymbol, Went, After;
      ValueBit(b);
      AfterStep(s, b);
      AfterOk(s, b);
      l, o := l0, Goes;
      if uc != 0 {
        state := XCoding3;
        Reaches(s, b, l, o);
        return;
      }
      len := len[l.t := len[l.t] + [l.curr]];
      l := l.(i := l.i + 1);
      assert len[..l.t] == s.lens;
      if l.i < l.alphaSize {
        Reaches(s, b, l, o);
        return;
      }
      o, l := EndTable(l, s.h, DecoderMachine.Code(s.u, s.lens + [s.len + [s.curr]], s.sel), s.n);
      Reaches(s, b, l, o);
    }

    /** The lengths of a table are complete. */
    method EndTable(l0: Locals, ghost h: Head, ghost c: DecoderMachine.Code, ghost n: nat) returns (o: Outcome, l: Locals)
      requires Shape() && HeadOk(h) && HasHead(h) && HasUse(c.u, l0.alphaSize) && LensOk(c.lens, c.u) && SelOk(c.sel, n) && 1 <= |c.lens| <= n
      requires selector == c.sel && l0.nSelectors == |c.sel| && l0.nGroups == n && l0.t == |c.lens| - 1 && len == c.lens
      modifies this`state, this`tables, this`mtf, unzftab
      ensures mtf == old(mtf) || (fresh(mtf) && fresh(mtf.mtfa) && fresh(mtf.mtfbase))
      ensures var s' := AfterTable(h, c.u, n, c.sel, c.lens); StageOk(s') && !s'.Output? && Tied(s', l) && o == OutcomeOf(s')
    {
      hide TiedBytes, TiedMap, Value, HasSymbols, HasCode, Showing, UsedBelow, HasHead, SelOf, LengthsOk, CharsOf, NextSymbol;
      l, o := l0.(t := l0.t + 1), Goes;
      if l.t < l.nGroups {
        assert len[..l.t] == c.lens;
        state := XCoding1;
      } else {
        o, l := FirstSymbol(l, h, c);
      }
    }

    lemma Reaches(s: Stage, b: seq<bool>, l: Locals, o: Outcome)
      requires StageOk(s) && !Stopped(s) && !s.Output? && |b| == Need(s)
      requires StageOk(After(s, b)) && Tied(After(s, b), l) && o == OutcomeOf(After(s, b)) && !After(s, b).Output?
      ensures Went(s, b, l, o)
    {
      hide Tied, After;
    }

    lemma HeadFacts(h: Head)
      requires HasHead(h)
      ensures blockSize100k == h.bs && column.Length == 100000 * h.bs && origPtr == h.origPtr && storedBlockCRC == h.crc
    {}

    /** Builds the decode tables and sets out for the first symbol. */
    method FirstSymbol(l0: Locals, ghost h: Head, ghost c: DecoderMachine.Code) returns (o: Outcome, l: Locals)
      requires Shape() && HeadOk(h) && HasHead(h) && HasUse(c.u, l0.alphaSize) && CodeOk(c)
      requires selector == c.sel && l0.nSelectors == |c.sel| && len == c.lens
      modifies this`state, this`tables, this`mtf, unzftab
      ensures Shape() && fresh(mtf) && fresh(mtf.mtfa) && fresh(mtf.mtfbase)
      ensures StageOk(NextSymbol(h, c, [])) && !NextSymbol(h, c, []).Output?
      ensures Tied(NextSymbol(h, c, []), l) && o == OutcomeOf(NextSymbol(h, c, []))
    {
      hide Value, Showing, SkipRows, UsedBelow, SelOf, LengthsOk, CharsOf, CodeOk, TablesFor, HasHead, HeadOk, Tied, StageOk, HasColumn, Counted, mtf.Valid, NextSymbol;
      CodeShape(c);
      LensLengths(c);
      tables := BuildTables(len, l0.alphaSize);
      HeadFacts(h);
      l := l0.(EOB := nInUse + 1, nblockMAX := 100000 * blockSize100k, groupNo := -1, groupPos := 0, nblock := 0);
      ZeroCounts(unzftab);
      mtf := new Mtfa();
      NothingYet(c.u);
      EmptyColumn(h, c.u, l);
      o, l := GetNext(l, 1, h, c, []);
      NextNotOutput(h, c, []);
    }

    lemma EmptyColumn(h: Head, u: seq<bool>, l: Locals)
      requires |u| == 256 && mtf.Valid() && mtf.list == Iota(256) && Counted(unzftab[..], []) && l.nblock == 0 && l.nblockMAX == 100000 * h.bs
      ensures HasColumn(h, u, [], l)
    {
      hide mtf.Valid, Counted;
      NothingYet(u);
    }

    // ---- Symbols ----

    /** The start of GET_MTF_VAL: the next symbol is to be read, by the table of its group. */
    method GetNext(l0: Locals, label1: int, ghost h: Head, ghost c: DecoderMachine.Code, ghost syms: seq<int>) returns (o: Outcome, l: Locals)
      requires Shape() && HeadOk(h) && HasHead(h) && HasUse(c.u, l0.alphaSize) && CodeOk(c) && l0.EOB == nInUse + 1
      requires HasColumn(h, c.u, syms, l0) && label1 == Site(syms) && |c.u| == 256 && Readable(syms, UsedBelow(c.u, 256))
      requires selector == c.sel && l0.nSelectors == |c.sel| && TablesFor(tables, c.lens)
      requires -1 <= l0.groupNo < |c.sel| && 0 <= l0.groupPos < G_SIZE && G_SIZE * (l0.groupNo + 1) - l0.groupPos == |syms|
      requires l0.groupPos > 0 ==> 0 <= l0.groupNo && l0.gSel == c.sel[l0.groupNo] && 0 <= l0.gSel < |tables| && l0.gMinlen == tables[l0.gSel].minLen
      modifies this`state
      ensures StageOk(NextSymbol(h, c, syms)) && Tied(NextSymbol(h, c, syms), l) && o == OutcomeOf(NextSymbol(h, c, syms))
    {
      hide Value, Showing, UsedBelow, LengthsOk, CodeOk, TableFor, HasHead, HeadOk, HasUse, HasColumn, Shape, Tied, StageOk, Base, Meaning;
      CodeShape(c);
      NextStage(h, c, syms);
      l, o := l0, Goes;
      if l.groupPos == 0 {
        l := l.(groupNo := l.groupNo + 1);
        if l.groupNo >= l.nSelectors {
          TieHalted(BadData, l);
          return Fails(BadData), l;
        }
        l := l.(groupPos := G_SIZE, gSel := selector[l.groupNo]);
        l := l.(gMinlen := tables[l.gSel].minLen);
      }
      l := l.(groupPos := l.groupPos - 1);
      l := l.(zn := l.gMinlen);
      state := XMtf(label1);
      SameColumn(h, c.u, syms, l0, l);
      TieCoded(h, c, syms, [], l);
    }

    lemma TieHalted(why: Failure, l: Locals)
      requires Shape()
      ensures StageOk(Halted(why)) && Tied(Halted(why), l) && OutcomeOf(Halted(why)) == Fails(why)
    {}

    lemma TieCoded(h: Head, c: DecoderMachine.Code, syms: seq<int>, code: seq<bool>, l: Locals)
      requires StageOk(Coded(h, c, syms, code)) && Shape() && HasHead(h) && HasUse(c.u, l.alphaSize) && l.EOB == nInUse + 1
      requires InGroup(c, syms, l) && HasColumn(h, c.u, syms, l) && HasCode(c, syms, code, l)
      ensures Tied(Coded(h, c, syms, code), l)
    {
      hide Shape, HasHead, HasUse, InGroup, HasColumn, HasCode;
    }

    /** The column's variables are the same. */
    lemma SameColumn(h: Head, u: seq<bool>, syms: seq<int>, l: Locals, l': Locals)
      requires HasColumn(h, u, syms, l) && l'.nblockMAX == l.nblockMAX && l'.nblock == l.nblock && l'.es == l.es && l'.N == l.N
      ensures HasColumn(h, u, syms, l')
    {
      hide ColumnOf, Counted, Meaning, Readable;
    }

    /** The column is complete up to the symbols syms. */
    ghost predicate Whole(h: Head, c: DecoderMachine.Code, syms: seq<int>, l: Locals)
      reads this`blockSize100k, this`calculatedCombinedCRC, this`column, this`ll4, ll4, this`storedBlockCRC, this`origPtr
      reads this`nInUse, seqToUnseq, this`selector, this`tables, this`mtf, mtf, mtf.mtfa, mtf.mtfbase, column, unzftab
    {
      && HasHead(h) && HasUse(c.u, l.alphaSize) && l.EOB == nInUse + 1 && InGroup(c, syms, l)
      && |c.u| == 256 && Readable(syms, 256) && mtf.Valid() && mtf.list == Meaning(Iota(256), syms).list
      && l.nblockMAX == 100000 * h.bs && 0 <= l.nblock <= l.nblockMAX && l.nblock <= column.Length
      && column[..l.nblock] == ColumnOf(c.u, syms) && Counted(unzftab[..], ColumnOf(c.u, syms))
    }

    /** The do-while loop over run digits: one digit, and on to the next symbol. */
    method Digit(l0: Locals, x: int, ghost h: Head, ghost c: DecoderMachine.Code, ghost syms: seq<int>) returns (o: Outcome, l: Locals)
      requires Shape() && HeadOk(h) && CodeOk(c) && |c.u| == 256 && Readable(syms, UsedBelow(c.u, 256)) && HasSymbols(h, c, syms, l0)
      requires Readable(syms, 256) && Pending(syms, l0.es, l0.N) && (x == RUNA || x == RUNB)
      modifies this`state
      ensures StageOk(TakeSymbol(h, c, syms, x)) && !TakeSymbol(h, c, syms, x).Output?
      ensures Tied(TakeSymbol(h, c, syms, x), l) && o == OutcomeOf(TakeSymbol(h, c, syms, x))
    {
      hide Value, Showing, UsedBelow, LengthsOk, CodeOk, TablesFor, HasHead, HeadOk, HasUse, Meaning, Shape, ColumnOf, Counted, Tied, StageOk, HasColumn, Base;
      CodeShape(c);
      TakeSymbolOk(h, c, syms, x);
      l, o := l0, Goes;
      PendingWeight(syms, l.es, l.N);
      if l.N >= 2 * 1024 * 1024 {
        TieHalted(BadData, l);
        return Fails(BadData), l;
      }
      l := l.(es := if x == RUNA then l.es + l.N else l.es + 2 * l.N, N := l.N * 2);
      DigitColumn(h, c.u, syms, x, l0, l);
      o, l := GetNext(l, 3, h, c, syms + [x]);
    }

    lemma DigitColumn(h: Head, u: seq<bool>, syms: seq<int>, x: int, l: Locals, l': Locals)
      requires HasColumn(h, u, syms, l) && Pending(syms, l.es, l.N) && IsRun(x)
      requires l' == l.(es := if x == RUNA then l.es + l.N else l.es + 2 * l.N, N := l.N * 2)
      ensures HasColumn(h, u, syms + [x], l') && Site(syms + [x]) == 3
    {
      hide ColumnOf, Counted, Meaning;
      PendingNext(syms, l.es, l.N, x);
      BaseNext(syms, x);
    }

    /** The end of a run: es copies of the front character. */
    method EndRun(l0: Locals, ghost h: Head, ghost c: DecoderMachine.Code, ghost syms: seq<int>) returns (ok: bool, l: Locals)
      requires Shape() && HeadOk(h) && CodeOk(c) && |c.u| == 256 && Readable(syms, UsedBelow(c.u, 256)) && HasSymbols(h, c, syms, l0)
      requires Readable(syms, 256) && Pending(syms, l0.es, l0.N)
      modifies column, unzftab
      ensures ok <==> |ColumnOf(c.u, syms)| <= 100000 * h.bs
      ensures ok ==> Whole(h, c, syms, l) && l.nextSym == l0.nextSym
    {
      hide Value, Showing, UsedBelow, LengthsOk, CodeOk, TablesFor, HeadOk, Meaning, ColumnOf, Counted, CharsOf;
      CodeShape(c);
      ColumnRun(c.u, syms, l0.es, l0.N);
      l := l0.(es := l0.es + 1);
      var front := mtf.Front();
      var uc := seqToUnseq[front];
      assert uc == CharsOf(c.u, 256)[front];
      CountedRun(unzftab[..], ColumnOf(c.u, Base(syms)), uc, l.es);
      ghost var f := unzftab[..];
      CountedShape(f, ColumnOf(c.u, Base(syms)));
      unzftab[uc] := unzftab[uc] + l.es;
      assert unzftab[..] == f[uc := f[uc] + l.es];
      var nblock;
      ok, nblock := PutRun(column, l.nblock, l.es, uc, l.nblockMAX);
      l := l.(nblock := nblock);
    }

    /** A character that is not in front comes to the front of the list and into the column. */
    method PutChar(l0: Locals, x: int, ghost h: Head, ghost c: DecoderMachine.Code, ghost syms: seq<int>) returns (l: Locals)
      requires Shape() && |c.u| == 256 && 1 <= UsedBelow(c.u, 256) <= 256 && Readable(syms, UsedBelow(c.u, 256)) && Whole(h, c, syms, l0)
      requires 2 <= x <= UsedBelow(c.u, 256) && l0.nblock < l0.nblockMAX
      modifies column, unzftab, mtf`list, mtf.mtfa, mtf.mtfbase
      ensures HasColumn(h, c.u, syms + [x], l) && Readable(syms + [x], UsedBelow(c.u, 256)) && Site(syms + [x]) == 5
      ensures l == l0.(nblock := l0.nblock + 1)
    {
      hide Showing, UsedBelow, TablesFor, HeadOk, Meaning, ColumnOf, Counted, CharsOf, HasHead, InGroup, mtf.Valid;
      WholeRoom(h, c, syms, l0);
      ColumnNext(c.u, syms, x);
      BaseNext(syms, x);
      var uc := mtf.Take(x - 1);
      var ch := seqToUnseq[uc];
      assert ch == CharsOf(c.u, 256)[uc];
      ghost var f, col := unzftab[..], ColumnOf(c.u, syms);
      CountedRun(f, col, ch, 1);
      CountedShape(f, col);
      assert Copies(ch, 1) == [ch];
      unzftab[ch] := unzftab[ch] + 1;
      assert unzftab[..] == f[ch := f[ch] + 1];
      column[l0.nblock] := ch;
      assert column[..l0.nblock + 1] == col + [ch];
      l := l0.(nblock := l0.nblock + 1);
    }

    lemma WholeRoom(h: Head, c: DecoderMachine.Code, syms: seq<int>, l: Locals)
      requires Whole(h, c, syms, l)
      ensures column.Length == 100000 * h.bs && l.nblockMAX == 100000 * h.bs && |ColumnOf(c.u, syms)| == l.nblock
    {
      hide ColumnOf, Counted, Meaning, mtf.Valid, InGroup, HasUse;
    }

    /** A character that is not in front. */
    method Bring(l0: Locals, x: int, ghost h: Head, ghost c: DecoderMachine.Code, ghost syms: seq<int>) returns (o: Outcome, l: Locals)
      requires Shape() && HeadOk(h) && CodeOk(c) && |c.u| == 256 && Readable(syms, UsedBelow(c.u, 256)) && Whole(h, c, syms, l0)
      requires 2 <= x <= UsedBelow(c.u, 256)
      modifies this`state, column, unzftab, mtf`list, mtf.mtfa, mtf.mtfbase
      ensures StageOk(TakeSymbol(h, c, syms, x)) && !TakeSymbol(h, c, syms, x).Output?
      ensures Tied(TakeSymbol(h, c, syms, x), l) && o == OutcomeOf(TakeSymbol(h, c, syms, x))
    {
      hide Value, Showing, UsedBelow, LengthsOk, CodeOk, TablesFor, HeadOk, Meaning, ColumnOf, Counted, CharsOf, HasColumn, Tied, StageOk, mtf.Valid, HasHead, HasUse;
      CodeShape(c);
      TakeSymbolOk(h, c, syms, x);
      WholeRoom(h, c, syms, l0);
      l, o := l0, Goes;
      if l.nblock >= l.nblockMAX {
        TieHalted(BadData, l);
        return Fails(BadData), l;
      }
      l := PutChar(l, x, h, c, syms);
      o, l := GetNext(l, 5, h, c, syms + [x]);
    }

    /** The symbol nextSym. */
    method Place(l0: Locals, ghost h: Head, ghost c: DecoderMachine.Code, ghost syms: seq<int>) returns (o: Outcome, l: Locals)
      requires Shape() && HeadOk(h) && CodeOk(c) && |c.u| == 256 && Readable(syms, UsedBelow(c.u, 256)) && Whole(h, c, syms, l0)
      requires 2 <= l0.nextSym < AlphaSize(c.u)
      modifies this`state, this`fast, this`slow, cftab, column, ll4, unzftab, mtf`list, mtf.mtfa, mtf.mtfbase
      ensures StageOk(TakeSymbol(h, c, syms, l0.nextSym)) && Tied(TakeSymbol(h, c, syms, l0.nextSym), l)
      ensures o == OutcomeOf(TakeSymbol(h, c, syms, l0.nextSym)) && (TakeSymbol(h, c, syms, l0.nextSym).Output? ==> NothingShown())
      ensures (slow == old(slow) || fresh(slow)) && (fast == old(fast) || fresh(fast)) && All() <= old(All()) + {fast, slow}
    {
      if l0.nextSym == l0.EOB {
        l := l0;
        o := FinishBlock(l, h, c, syms);
      } else {
        o, l := Bring(l0, l0.nextSym, h, c, syms);
      }
    }

    /** The whole block was read: builds the vector that inverts the sort. */
    method FinishBlock(l: Locals, ghost h: Head, ghost c: DecoderMachine.Code, ghost syms: seq<int>) returns (o: Outcome)
      requires Shape() && HeadOk(h) && CodeOk(c) && |c.u| == 256 && Readable(syms, UsedBelow(c.u, 256)) && Whole(h, c, syms, l)
      modifies this`state, this`fast, this`slow, cftab, column, ll4
      ensures StageOk(EndOfBlock(h, c, syms)) && Tied(EndOfBlock(h, c, syms), l) && o == OutcomeOf(EndOfBlock(h, c, syms))
      ensures EndOfBlock(h, c, syms).Output? ==> NothingShown()
      ensures (slow == old(slow) || fresh(slow)) && (fast == old(fast) || fresh(fast)) && All() <= old(All()) + {fast, slow}
    {
      hide Value, UsedBelow, LengthsOk, CodeOk, TablesFor, HeadOk, Meaning, ColumnOf, BlockBytes, Counted, Showing, StageOk, Tied, Shape, InGroup, HasUse, All, NothingShown;
      EndOfBlockOk(h, c, syms);
      Fits(h);
      ghost var col := ColumnOf(c.u, syms);
      if origPtr < 0 || origPtr >= l.nblock {
        TieHalted(BadData, l);
        return Fails(BadData);
      }
      CountedAll(unzftab[..], col);
      Invert(l.nblock, col);
      state := XOutput;
      TieOutput(h, BlockBytes(col, h.origPtr), l);
      o := Goes;
    }

    /** Sets up cftab, whose checks all pass, and the vector of either kind. */
    method Invert(nblock: nat, ghost col: seq<int>)
      requires Shape() && 0 <= origPtr < nblock <= column.Length == 100000 * blockSize100k <= InverseVector.MAX_BLOCK
      requires col == column[..nblock] && IsBytes(col) && forall c | 0 <= c < 256 :: unzftab[c] == Count(col, c, nblock)
      requires (small ==> ll4.Length == (1 + blockSize100k * 100000) / 2) && forall i | 0 <= i < ll4.Length :: 0 <= ll4[i] < 256
      modifies this`fast, this`slow, cftab, column, ll4
      ensures Showing(BlockBytes(col, origPtr)) && NothingShown() && forall i | 0 <= i < ll4.Length :: 0 <= ll4[i] < 256
      ensures (slow == old(slow) || fresh(slow)) && (fast == old(fast) || fresh(fast)) && All() <= old(All()) + {fast, slow}
    {
      hide BlockBytes, Showing, Count, NothingShown;
      ShapeApart();
      var fine := SetUp(nblock, col);
      if !fine { assert false; }
      if small { StartSmall(nblock, col); } else { StartFast(nblock, col); }
    }

    lemma ShapeApart()
      requires Shape()
      ensures column != cftab && column != ll4 && ll4 != cftab && cftab != unzftab && cftab.Length == 257 && unzftab.Length == 256
    {}

    lemma TieOutput(h: Head, b: seq<int>, l: Locals)
      requires StageOk(Output(h, b)) && Shape() && HasHead(h) && Showing(b) && state == XOutput
      ensures Tied(Output(h, b), l)
    {
      hide Shape, HasHead, Showing;
    }

    method SetUp(nblock: nat, ghost col: seq<int>) returns (ok: bool)
      requires Shape() && IsBytes(col) && |col| == nblock && forall c | 0 <= c < 256 :: unzftab[c] == Count(col, c, nblock)
      modifies cftab
      ensures ok && InverseVector.Below(cftab[..], col)
    {
      ok := InverseVector.SetUpCftab(cftab, unzftab, nblock, col);
    }

    method StartFast(nblock: nat, ghost col: seq<int>)
      requires !small && Shape() && 0 <= origPtr < nblock <= column.Length == 100000 * blockSize100k <= InverseVector.MAX_BLOCK
      requires col == column[..nblock] && IsBytes(col) && InverseVector.Below(cftab[..], col)
      modifies this`fast, column, cftab
      ensures fresh(fast) && Showing(BlockBytes(col, origPtr)) && NothingShown() && All() <= old(All()) + {fast}
    {
      hide BurrowsWheeler.IsInverse, InverseVector.Carries, InverseVector.Below, RX.Waiting, RX.SourceOk, RX.Block, Expand, Over, BlockBytes;
      ghost var t := InverseVector.BuildFast(column, cftab, nblock, col);
      ghost var src := RX.Source(col, t, origPtr);
      SourceFits(col, t, origPtr);
      fast := new RX.Fast(table, column, blockSize100k, nblock, origPtr, src);
    }

    method StartSmall(nblock: nat, ghost col: seq<int>)
      requires small && Shape() && 0 <= origPtr < nblock <= column.Length == 100000 * blockSize100k <= InverseVector.MAX_BLOCK
      requires ll4.Length == (1 + blockSize100k * 100000) / 2 && forall i | 0 <= i < ll4.Length :: 0 <= ll4[i] < 256
      requires col == column[..nblock] && IsBytes(col) && InverseVector.Below(cftab[..], col)
      modifies this`slow, column, ll4
      ensures fresh(slow) && Showing(BlockBytes(col, origPtr)) && NothingShown() && All() <= old(All()) + {slow}
      ensures forall i | 0 <= i < ll4.Length :: 0 <= ll4[i] < 256
    {
      hide BurrowsWheeler.IsInverse, InverseVector.Turned, InverseVector.Below, RX.Waiting, RX.SourceOk, RX.Block, Expand, Over, BlockBytes, Shape;
      ShapeApart();
      ghost var t := InverseVector.InverseOf(col);
      ghost var src := RX.Source(col, t, origPtr);
      SourceFits(col, t, origPtr);
      ghost var seen := TurnAround(column, ll4, cftab, origPtr, nblock, col, t);
      slow := new RX.Small(table, column, ll4, cftab, blockSize100k, nblock, origPtr, src, seen);
    }

    /** The symbol nextSym, which the bits of a code named. */
    method TakeNext(l0: Locals, ghost h: Head, ghost c: DecoderMachine.Code, ghost syms: seq<int>) returns (o: Outcome, l: Locals)
      requires Shape() && HeadOk(h) && CodeOk(c) && |c.u| == 256 && Readable(syms, UsedBelow(c.u, 256)) && HasSymbols(h, c, syms, l0)
      requires state.XMtf? && (state.k == Site(syms) || state.k == Site(syms) + 1) && 0 <= l0.nextSym < AlphaSize(c.u)
      modifies this`state, this`fast, this`slow, cftab, column, ll4, unzftab, mtf`list, mtf.mtfa, mtf.mtfbase
      ensures StageOk(TakeSymbol(h, c, syms, l0.nextSym)) && Tied(TakeSymbol(h, c, syms, l0.nextSym), l)
      ensures o == OutcomeOf(TakeSymbol(h, c, syms, l0.nextSym)) && (TakeSymbol(h, c, syms, l0.nextSym).Output? ==> NothingShown())
      ensures (slow == old(slow) || fresh(slow)) && (fast == old(fast) || fresh(fast)) && All() <= old(All()) + {fast, slow}
    {
      hide Tied, StageOk, TakeSymbol, HasSymbols, Whole, Shape, HeadOk, CodeOk, Pending, ColumnOf, Meaning, UsedBelow, Site, Value, Readable;
      CodeShape(c);
      RunSites(syms);
      l, o := l0, Goes;
      if state.k == 3 || state.k == 4 {
        PendingRun(h, c, syms, l);
        if l.nextSym == RUNA || l.nextSym == RUNB {
          o, l := Digit(l, l.nextSym, h, c, syms);
        } else {
          var ok;
          ok, l := EndRun(l, h, c, syms);
          if !ok {
            TooMany(h, c, syms, l0.nextSym);
            TieHalted(BadData, l);
            return Fails(BadData), l;
          }
          o, l := Place(l, h, c, syms);
        }
      } else {
        NoRun(h, c, syms, l);
        if l.nextSym == RUNA || l.nextSym == RUNB {
          l := l.(es := -1, N := 1);
          StartRun(h, c, syms, l0, l);
          o, l := Digit(l, l.nextSym, h, c, syms);
        } else {
          o, l := Place(l, h, c, syms);
        }
      }
    }

    lemma PendingRun(h: Head, c: DecoderMachine.Code, syms: seq<int>, l: Locals)
      requires HasSymbols(h, c, syms, l) && Site(syms) == 3
      ensures Readable(syms, 256) && Pending(syms, l.es, l.N)
    {
      hide Pending;
    }

    lemma NoRun(h: Head, c: DecoderMachine.Code, syms: seq<int>, l: Locals)
      requires HasSymbols(h, c, syms, l) && Site(syms) != 3
      ensures Whole(h, c, syms, l)
    {
      hide HasHead, HasUse, InGroup, Pending, ColumnOf, Counted;
    }

    /** A run begins. */
    lemma StartRun(h: Head, c: DecoderMachine.Code, syms: seq<int>, l: Locals, l': Locals)
      requires HasSymbols(h, c, syms, l) && Site(syms) != 3 && l' == l.(es := -1, N := 1)
      requires |c.u| == 256 && 1 <= UsedBelow(c.u, 256) <= 256 && Readable(syms, UsedBelow(c.u, 256))
      ensures HasSymbols(h, c, syms, l') && Readable(syms, 256) && Pending(syms, -1, 1)
    {
      hide HasHead, HasUse, TablesFor, Pending, ColumnOf, Counted, UsedBelow;
      PendingNone(syms, UsedBelow(c.u, 256));
    }

    /** What the bits read of a code lead to. */
    method AtMtf(v: nat, l0: Locals, ghost s: Stage, ghost b: seq<bool>) returns (o: Outcome, l: Locals)
      requires Waits(s, l0, b) && s.Coded? && v == Value(b)
      modifies this`state, this`fast, this`slow, cftab, column, ll4, unzftab, mtf`list, mtf.mtfa, mtf.mtfbase
      ensures Went(s, b, l, o)
      ensures (slow == old(slow) || fresh(slow)) && (fast == old(fast) || fresh(fast)) && All() <= old(All()) + {fast, slow}
    {
      hide Tied, StageOk, TakeSymbol, HasSymbols, HasCode, Shape, HeadOk, CodeOk, Meaning, UsedBelow, Site, Value, Readable, Waits, Went, CanonicalCode.Lookup, After, CanonicalCode.Tables, CanonicalCode.Beyond, CanonicalCode.End;
      WaitsFacts(s, l0, b);
      CodedFacts(s, l0, b);
      l, o := l0, Goes;
      if state.k == 1 || state.k == 3 || state.k == 5 {
        l := l.(zvec := v);
      } else {
        l := l.(zvec := l.zvec * 2 + v);
      }
      ghost var L, code := DecoderMachine.Lengths(s.c, s.syms), s.code + b;
      CodeSoFar(s, l0, b, v, l);
      if l.zn > 20 {
        TieHalted(BadData, l);
        Arrives(s, b, Halted(BadData), l, Fails(BadData));
        return Fails(BadData), l;
      }
      var T := tables[l.gSel];
      CanonicalCode.CodeRead(L, T.minLen, CanonicalCode.Longest(L, |L|), T.limit, T.base, T.perm, code);
      if l.zvec <= T.limit[l.zn] {
        if l.zvec - T.base[l.zn] < 0 || l.zvec - T.base[l.zn] >= 258 {
          assert false;
          return Fails(BadData), l;
        }
        l := l.(nextSym := T.perm[l.zvec - T.base[l.zn]]);
        SameSymbols(s, l0, l);
        o, l := TakeNext(l, s.h, s.c, s.syms);
        Taken(s, b, l, o);
      } else {
        l := l.(zn := l.zn + 1);
        state := XMtf(if state.k == 1 || state.k == 3 || state.k == 5 then state.k + 1 else state.k);
        StillCoded(s, l0, b, l);
        Arrives(s, b, Coded(s.h, s.c, s.syms, code), l, Goes);
      }
    }

    lemma WaitsFacts(s: Stage, l: Locals, b: seq<bool>)
      requires Waits(s, l, b)
      ensures StageOk(s) && !Stopped(s) && !s.Output? && |b| == Need(s) && Tied(s, l)
    {}

    lemma CodedFacts(s: Stage, l: Locals, b: seq<bool>)
      requires Waits(s, l, b) && s.Coded?
      ensures Shape() && HeadOk(s.h) && CodeOk(s.c) && |s.c.u| == 256 && Readable(s.syms, UsedBelow(s.c.u, 256)) && HasSymbols(s.h, s.c, s.syms, l)
      ensures HasCode(s.c, s.syms, s.code, l) && |s.syms| < G_SIZE * |s.c.sel| && forall k | 0 <= k < |s.c.sel| :: 0 <= s.c.sel[k] < |s.c.lens|
      ensures state == XMtf(if s.code == [] then Site(s.syms) else Site(s.syms) + 1) && Site(s.syms) in {1, 3, 5}
      ensures |b| == (if s.code == [] then l.gMinlen else 1) && Readable(s.syms, 256) && |DecoderMachine.Lengths(s.c, s.syms)| == AlphaSize(s.c.u)
      ensures 0 <= l.gSel < |tables| && TableFor(tables[l.gSel], DecoderMachine.Lengths(s.c, s.syms)) && l.gMinlen == tables[l.gSel].minLen
    {
      hide Shape, HeadOk, HasHead, HasUse, HasColumn, LensOk, TableFor, UsedBelow, Value, CanonicalCode.Beyond, CanonicalCode.End;
      CodeShape(s.c);
      assert TableFor(tables[l.gSel], s.c.lens[l.gSel]);
      GroupOf(l.groupNo, l.groupPos, |s.syms|);
      var L := DecoderMachine.Lengths(s.c, s.syms);
      ShortestOf(tables[l.gSel], L);
    }

    /** The value, the number of bits and what is known of them. */
    lemma CodeSoFar(s: Stage, l0: Locals, b: seq<bool>, v: nat, l: Locals)
      requires Waits(s, l0, b) && s.Coded? && v == Value(b)
      requires l == l0.(zvec := if s.code == [] then v else l0.zvec * 2 + v)
      ensures |s.syms| < G_SIZE * |s.c.sel| && forall k | 0 <= k < |s.c.sel| :: 0 <= s.c.sel[k] < |s.c.lens|
      ensures 0 <= l.gSel < |tables|
      ensures var L, code, T := DecoderMachine.Lengths(s.c, s.syms), s.code + b, tables[l.gSel];
              && l.zn == |code| && l.zvec == Value(code) && T.minLen <= |code| && CanonicalCode.Beyond(L, code, |code|)
              && CanonicalCode.Tables(L, T.minLen, CanonicalCode.Longest(L, |L|), T.limit, T.base, T.perm)
              && |T.limit| >= CanonicalCode.MAX_CODE_LEN && |T.base| >= CanonicalCode.MAX_CODE_LEN
    {
      hide Shape, HeadOk, HasSymbols, CodeOk, UsedBelow, Value, CanonicalCode.Beyond, CanonicalCode.End, Waits, Tied;
      CodedFacts(s, l0, b);
      var L := DecoderMachine.Lengths(s.c, s.syms);
      var T := tables[l.gSel];
      CanonicalCode.TableShape(L, T.minLen, CanonicalCode.Longest(L, |L|), T.limit, T.base, T.perm);
      if s.code == [] {
        assert s.code + b == b;
        CanonicalCode.BeyondStart(L, b, |b|);
      } else {
        CanonicalCode.BeyondBit(L, s.code, b);
        ValueBit(b);
      }
    }

    lemma Arrives(s: Stage, b: seq<bool>, s': Stage, l: Locals, o: Outcome)
      requires StageOk(s) && s.Coded? && |b| == Need(s) && StageOk(s') && Tied(s', l) && o == (if s'.Halted? then Fails(s'.why) else Goes)
      requires var L := DecoderMachine.Lengths(s.c, s.syms);
               if |s.code + b| > CanonicalCode.LONGEST then s' == Halted(BadData) else CanonicalCode.Lookup(L, s.code + b, |L|) == -1 && s' == Coded(s.h, s.c, s.syms, s.code + b)
      ensures Went(s, b, l, o)
    {
      hide Tied, CodeOk, UsedBelow, Value, HeadOk;
    }

    lemma Taken(s: Stage, b: seq<bool>, l: Locals, o: Outcome)
      requires StageOk(s) && s.Coded? && |b| == Need(s) && |s.code + b| <= CanonicalCode.LONGEST && Readable(s.syms, 256) && |s.c.u| == 256
      requires var L := DecoderMachine.Lengths(s.c, s.syms); var x := CanonicalCode.Lookup(L, s.code + b, |L|);
               x != -1 && StageOk(TakeSymbol(s.h, s.c, s.syms, x)) && Tied(TakeSymbol(s.h, s.c, s.syms, x), l)
               && o == OutcomeOf(TakeSymbol(s.h, s.c, s.syms, x)) && (TakeSymbol(s.h, s.c, s.syms, x).Output? ==> NothingShown())
      ensures Went(s, b, l, o)
    {
      hide Tied, CodeOk, UsedBelow, Value, HeadOk, TakeSymbol;
    }

    lemma SameSymbols(s: Stage, l: Locals, l': Locals)
      requires s.Coded? && HasSymbols(s.h, s.c, s.syms, l) && l' == l.(zvec := l'.zvec, nextSym := l'.nextSym)
      ensures HasSymbols(s.h, s.c, s.syms, l')
    {
      hide HasHead, HasUse;
      SameColumn(s.h, s.c.u, s.syms, l, l');
    }

    /** More bits are needed. */
    lemma StillCoded(s: Stage, l: Locals, b: seq<bool>, l': Locals)
      requires s.Coded? && StageOk(s) && Shape() && HasSymbols(s.h, s.c, s.syms, l) && |b| == Need(s) && |s.code + b| <= CanonicalCode.LONGEST
      requires var L, code := DecoderMachine.Lengths(s.c, s.syms), s.code + b;
               && l' == l.(zvec := Value(code), zn := |code| + 1) && state == XMtf(Site(s.syms) + 1) && l.gMinlen <= |code|
               && CanonicalCode.Beyond(L, code, |code|) && Value(code) >= CanonicalCode.End(L, |code|)
      ensures StageOk(Coded(s.h, s.c, s.syms, s.code + b)) && Tied(Coded(s.h, s.c, s.syms, s.code + b), l')
    {
      hide HasHead, HasUse, HasColumn, Shape, Tied, Value, CanonicalCode.Beyond, CanonicalCode.End, UsedBelow, CodeOk, HeadOk, InGroup;
      CodeShape(s.c);
      SameColumn(s.h, s.c.u, s.syms, l, l');
      SameGroup(s.c, s.syms, l, l');
      TieCoded(s.h, s.c, s.syms, s.code + b, l');
    }

    lemma SameGroup(c: DecoderMachine.Code, syms: seq<int>, l: Locals, l': Locals)
      requires InGroup(c, syms, l) && l' == l.(zvec := l'.zvec, zn := l'.zn)
      ensures InGroup(c, syms, l')
    {
      hide TablesFor;
    }

    // ---- The end of the stream ----

    method AtEndHdr(uc: nat, l: Locals, ghost s: Stage, ghost b: seq<bool>) returns (o: Outcome)
      requires Waits(s, l, b) && s.End? && uc == Value(b)
      modifies this`state, this`storedCombinedCRC
      ensures Went(s, b, l, o)
    {
      hide TiedMap, TiedLengths, AfterMap, AfterLengths, AfterBits, Value, HasUse, HasLens, HasSymbols, HasCode, Showing, TakeSymbol, SkipRows, SelOf, UsedBelow, CodeOk, LensOk, SelOk, Readable, Shape, RX.Block;
      NoValue();
      if uc != END_MAGIC[state.k - 1] { return Fails(BadData); }
      if state.k < 6 {
        state := XEndHdr(state.k + 1);
      } else {
        storedCombinedCRC := 0;
        state := XCCrc(1);
      }
      o := Goes;
    }

    /** The checksum of the stream, with the comparison that follows it in BZ2_bzDecompress. */
    method AtCCrc(uc: nat, l: Locals, ghost s: Stage, ghost b: seq<bool>) returns (o: Outcome)
      requires Waits(s, l, b) && s.StreamCrc? && uc == Value(b)
      modifies this`state, this`storedCombinedCRC
      ensures Went(s, b, l, o)
    {
      hide TiedMap, TiedLengths, AfterMap, AfterLengths, AfterBits, Value, HasUse, HasLens, HasSymbols, HasCode, Showing, TakeSymbol, SkipRows, SelOf, UsedBelow, CodeOk, LensOk, SelOk, Readable, Shape, RX.Block;
      NoValue();
      ValueByte(s.got, b);
      storedCombinedCRC := storedCombinedCRC * 256 + uc;
      if state.k < 4 {
        state := XCCrc(state.k + 1);
        return Goes;
      }
      state := XIdle;
      o := if calculatedCombinedCRC != storedCombinedCRC then Fails(BadData) else Goes;
    }

    // ---- BZ2_decompress ----

    /** How many bits GET_BITS takes at the label. */
    function Width(l: Locals): int
      reads this`state
    {
      match state
      case XRandBit => 1
      case XMapping1 => 1
      case XMapping2 => 1
      case XSelector1 => 3
      case XSelector2 => 15
      case XSelector3 => 1
      case XCoding1 => 5
      case XCoding2 => 1
      case XCoding3 => 1
      case XMtf(k) => if k == 1 || k == 3 || k == 5 then l.zn else 1
      case _ => 8
    }

    lemma WidthIsNeed(s: Stage, l: Locals)
      requires StageOk(s) && !Stopped(s) && !s.Output? && Tied(s, l)
      ensures Width(l) == Need(s)
    {
      hide Shape, HasHead, HasUse, HasLens, HasColumn, Sized, Value, CanonicalCode.Beyond, CanonicalCode.End, HasSymbols, HasCode;
      if s.Coded? { CodedWidth(s, l); }
    }

    lemma CodedWidth(s: Stage, l: Locals)
      requires StageOk(s) && s.Coded? && Tied(s, l)
      ensures state == XMtf(if s.code == [] then Site(s.syms) else Site(s.syms) + 1) && Site(s.syms) in {1, 3, 5}
      ensures s.code == [] ==> l.zn == Need(s)
    {
      hide Shape, HeadOk, HasHead, HasUse, HasColumn, LensOk, TableFor, UsedBelow, Value, CanonicalCode.Beyond, CanonicalCode.End;
      CodeShape(s.c);
      assert TableFor(tables[l.gSel], s.c.lens[l.gSel]);
      GroupOf(l.groupNo, l.groupPos, |s.syms|);
      ShortestOf(tables[l.gSel], DecoderMachine.Lengths(s.c, s.syms));
    }

    /** Every stage has its own labels. */
    lemma LabelOf(s: Stage, l: Locals)
      requires StageOk(s) && !s.Halted? && Tied(s, l)
      ensures match state
              case XIdle => s.Idle?
              case XOutput => s.Output?
              case XMagic(_) => s.Magic?
              case XBlkHdr(_) => s.Start?
              case XBCrc(_) => s.BlockCrc?
              case XRandBit => s.RandBit?
              case XOrigPtr(_) => s.OrigPtr?
              case XMapping1 => s.Rows?
              case XMapping2 => s.Used?
              case XSelector1 => s.NGroups?
              case XSelector2 => s.NSelectors?
              case XSelector3 => s.Selector?
              case XCoding1 => s.FirstLength?
              case XCoding2 => s.Step?
              case XCoding3 => s.Sign?
              case XMtf(_) => s.Coded?
              case XEndHdr(_) => s.End?
              case XCCrc(_) => s.StreamCrc?
    {
      hide Shape, HasHead, HasUse, HasLens, HasColumn, Sized, Value, HasSymbols, Showing;
    }

    /** The code after the labels of the header and of a block's magic number and checksum. */
    method HandleStart(v: nat, l0: Locals, ghost b: seq<bool>) returns (o: Outcome, l: Locals)
      requires Waits(past.stage, l0, b) && v == Value(b)
      requires state.XMagic? || state.XBlkHdr? || state.XBCrc?
      modifies All()
      ensures past == old(past) && !Stopped(past.stage) && StageOk(past.stage) && !past.stage.Output? && |b| == Need(past.stage)
      ensures Went(past.stage, b, l, o) && fresh(All() - old(All())) && repr == old(repr)
    {
      hide Tied, StageOk, After, Went, Waits, Value, Need;
      ghost var s := past.stage;
      WaitsFacts(s, l0, b);
      LabelOf(s, l0);
      l := l0;
      match state
      case XMagic(_) => o := AtMagic(v, l, s, b);
      case XBlkHdr(_) => o := AtBlkHdr(v, l, s, b);
      case XBCrc(_) => o := AtBCrc(v, l, s, b);
    }

    /** The code after the labels of origPtr and of the trailer. */
    method HandleTrailer(v: nat, l0: Locals, ghost b: seq<bool>) returns (o: Outcome, l: Locals)
      requires Waits(past.stage, l0, b) && v == Value(b)
      requires state.XOrigPtr? || state.XEndHdr? || state.XCCrc?
      modifies All()
      ensures past == old(past) && !Stopped(past.stage) && StageOk(past.stage) && !past.stage.Output? && |b| == Need(past.stage)
      ensures Went(past.stage, b, l, o) && fresh(All() - old(All())) && repr == old(repr)
    {
      hide Tied, StageOk, After, Went, Waits, Value, Need;
      ghost var s := past.stage;
      WaitsFacts(s, l0, b);
      LabelOf(s, l0);
      l := l0;
      match state
      case XOrigPtr(_) => o, l := AtOrigPtr(v, l0, s, b);
      case XEndHdr(_) => o := AtEndHdr(v, l, s, b);
      case XCCrc(_) => o := AtCCrc(v, l, s, b);
    }

    /** The code after the labels of selectors. */
    method HandleSelectors(v: nat, l0: Locals, ghost b: seq<bool>) returns (o: Outcome, l: Locals)
      requires Waits(past.stage, l0, b) && v == Value(b)
      requires state in {XSelector1, XSelector2, XSelector3}
      modifies All()
      ensures past == old(past) && !Stopped(past.stage) && StageOk(past.stage) && !past.stage.Output? && |b| == Need(past.stage)
      ensures Went(past.stage, b, l, o) && fresh(All() - old(All())) && repr == old(repr)
    {
      hide Tied, StageOk, After, Went, Waits, Value, Need;
      ghost var s := past.stage;
      WaitsFacts(s, l0, b);
      LabelOf(s, l0);
      l := l0;
      match state
      case XSelector1 => o, l := AtSelector1(v, l0, s, b);
      case XSelector2 => o, l := AtSelector2(v, l0, s, b);
      case XSelector3 => o, l := AtSelector3(v, l0, s, b);
    }

    /** The code after the labels of coding tables. */
    method HandleCoding(v: nat, l0: Locals, ghost b: seq<bool>) returns (o: Outcome, l: Locals)
      requires Waits(past.stage, l0, b) && v == Value(b)
      requires state in {XCoding1, XCoding2, XCoding3}
      modifies All()
      ensures past == old(past) && !Stopped(past.stage) && StageOk(past.stage) && !past.stage.Output? && |b| == Need(past.stage)
      ensures Went(past.stage, b, l, o) && fresh(All() - old(All())) && repr == old(repr)
    {
      hide Tied, StageOk, After, Went, Waits, Value, Need;
      ghost var s := past.stage;
      WaitsFacts(s, l0, b);
      LabelOf(s, l0);
      l := l0;
      match state
      case XCoding1 => o, l := AtCoding1(v, l0, s, b);
      case XCoding2 => o, l := AtCoding2(v, l0, s, b);
      case XCoding3 => o, l := AtCoding3(v, l0, s, b);
    }

    /** The code after the labels of single bits before the selectors. */
    method HandleMap(v: nat, l0: Locals, ghost b: seq<bool>) returns (o: Outcome, l: Locals)
      requires Waits(past.stage, l0, b) && v == Value(b)
      requires state in {XRandBit, XMapping1, XMapping2}
      modifies All()
      ensures past == old(past) && !Stopped(past.stage) && StageOk(past.stage) && !past.stage.Output? && |b| == Need(past.stage)
      ensures Went(past.stage, b, l, o) && fresh(All() - old(All())) && repr == old(repr)
    {
      hide Tied, StageOk, After, Went, Waits, Value, Need;
      ghost var s := past.stage;
      WaitsFacts(s, l0, b);
      LabelOf(s, l0);
      match state
      case XRandBit =>
        l := l0;
        o := AtRandBit(v, l, s, b);
      case XMapping1 => o, l := AtMapping1(v, l0, s, b);
      case XMapping2 => o, l := AtMapping2(v, l0, s, b);
    }

    /** The code after the labels of symbols. */
    method HandleSymbol(v: nat, l0: Locals, ghost b: seq<bool>) returns (o: Outcome, l: Locals)
      requires Waits(past.stage, l0, b) && v == Value(b)
      requires state.XMtf?
      modifies All()
      ensures past == old(past) && !Stopped(past.stage) && StageOk(past.stage) && !past.stage.Output? && |b| == Need(past.stage)
      ensures Went(past.stage, b, l, o) && fresh(All() - old(All())) && repr == old(repr)
    {
      hide Tied, StageOk, After, Went, Waits, Value, Need;
      ghost var s := past.stage;
      WaitsFacts(s, l0, b);
      LabelOf(s, l0);
      o, l := AtMtf(v, l0, s, b);
    }

    /** The code after the label: from the field v to the next label. */
    method Handle(v: nat, l0: Locals, ghost b: seq<bool>) returns (o: Outcome, l: Locals)
      requires Waits(past.stage, l0, b) && v == Value(b)
      modifies All()
      ensures past == old(past) && !Stopped(past.stage) && StageOk(past.stage) && !past.stage.Output? && |b| == Need(past.stage)
      ensures Went(past.stage, b, l, o) && fresh(All() - old(All())) && repr == old(repr)
    {
      hide *;
      LabelWaits(past.stage, l0, b);
      if state.XMtf? {
        o, l := HandleSymbol(v, l0, b);
      } else if state in {XRandBit, XMapping1, XMapping2} {
        o, l := HandleMap(v, l0, b);
      } else if state in {XSelector1, XSelector2, XSelector3} {
        o, l := HandleSelectors(v, l0, b);
      } else if state in {XCoding1, XCoding2, XCoding3} {
        o, l := HandleCoding(v, l0, b);
      } else if state.XMagic? || state.XBlkHdr? || state.XBCrc? {
        o, l := HandleStart(v, l0, b);
      } else {
        o, l := HandleTrailer(v, l0, b);
      }
    }

    lemma LabelWaits(s: Stage, l: Locals, b: seq<bool>)
      requires Waits(s, l, b)
      ensures state != XIdle && state != XOutput
    {
      hide Tied;
      LabelOf(s, l);
    }

    /** On to the next stage. */
    method Advance(v: nat, l0: Locals, ghost b: seq<bool>) returns (o: Outcome, l: Locals)
      requires StageOk(past.stage) && !Stopped(past.stage) && !past.stage.Output? && Tied(past.stage, l0)
      requires |b| == Need(past.stage) && v == Value(b) && Owns()
      modifies repr
      ensures past == old(past.(stage := After(past.stage, b))) && StageOk(past.stage) && Tied(past.stage, l)
      ensures o == OutcomeOf(past.stage) && Owns() && fresh(repr - old(repr)) && (past.stage.Output? ==> NothingShown())
    {
      hide Tied, StageOk, After, Went, Waits, Value, Need, OutcomeOf, Stopped;
      ghost var s := past.stage;
      WaitsIs(s, l0, b);
      o, l := Handle(v, l0, b);
      WentFacts(s, b, l, o);
      past := past.(stage := After(s, b));
      repr := repr + All();
    }

    /** GET_BITS and the code up to the next one; or nothing, for want of input. */
    method Turn(l0: Locals) returns (more: bool, o: Outcome, l: Locals)
      requires Running(l0) && !Stopped(past.stage) && !past.stage.Output? && strm.Valid() && Owns()
      modifies repr, strm
      ensures Running(l) && StageOk(past.stage) && strm.Valid() && Owns() && fresh(repr - old(repr))
      ensures past.supplied == old(past.supplied) && past.done == old(past.done)
      ensures more ==> past == old(past) && |strm.Rest()| == |old(strm.Rest())| < Need(past.stage)
      ensures !more ==> |strm.Rest()| < |old(strm.Rest())| && o == OutcomeOf(past.stage) && (past.stage.Output? ==> NothingShown())
    {
      hide Tied, StageOk, After, Value, Need, Decode, strm.Rest, OutcomeOf, Stopped, Width, Field, BitsOf, All, strm.Valid;
      ghost var s, bits := past.stage, strm.Rest();
      WidthIsNeed(s, l0);
      NeedRange(s);
      var ok, v := strm.GetBits(Width(l0));
      l, o, more := l0, Goes, !ok;
      if !ok { return; }
      o, l := Advance(v, l0, bits[..Need(s)]);
      assert bits == bits[..Need(s)] + bits[Need(s)..];
      DecodeStep(table, s, bits[..Need(s)], bits[Need(s)..]);
    }

    /** BZ2_decompress: goes on from the save area until a block is read, the stream ends, an error
        is found or the input is used up, and saves its variables. */
    method Decompress() returns (more: bool, o: Outcome)
      requires Running(save) && !Stopped(past.stage) && !past.stage.Output? && strm.Valid() && Owns()
      modifies repr, strm
      ensures Running(save) && StageOk(past.stage) && strm.Valid() && Owns() && fresh(repr - old(repr))
      ensures past.supplied == old(past.supplied) && past.done == old(past.done)
      ensures more ==> !Stopped(past.stage) && !past.stage.Output? && |strm.Rest()| < Need(past.stage)
      ensures !more ==> (past.stage.Output? || Stopped(past.stage)) && o == OutcomeOf(past.stage) && |strm.Rest()| < |old(strm.Rest())|
      ensures !more ==> (past.stage.Output? ==> NothingShown())
    {
      hide Running, Tied, StageOk, Need, strm.Rest, All, strm.Valid;
      if state == XMagic(1) {
        ZerosDo();
        save := ZEROS;
      }
      var l := save;
      while true
        invariant Running(l) && !Stopped(past.stage) && !past.stage.Output?
        invariant past.supplied == old(past.supplied) && past.done == old(past.done)
        invariant strm.Valid() && Owns() && fresh(repr - old(repr)) && |strm.Rest()| <= |old(strm.Rest())|
        decreases |strm.Rest()|
      {
        more, o, l := Turn(l);
        if more || o.Fails? {
          save := l;
          return;
        }
        StageLabel(l);
        if state == XOutput || state == XIdle {
          save := l;
          return;
        }
      }
    }

    /** Only a block to be shown or the end of the stream make BZ2_decompress return. */
    lemma StageLabel(l: Locals)
      requires Running(l) && !past.stage.Halted?
      ensures state == XOutput <==> past.stage.Output?
      ensures state == XIdle <==> past.stage.Idle?
    {
      hide Shape, HasHead, HasUse, HasLens, HasColumn, Sized, Value, HasSymbols, Showing, Decode;
      LabelOf(past.stage, l);
    }

    lemma ZerosDo()
      requires Running(save) && state == XMagic(1) && !past.stage.Halted?
      ensures Running(ZEROS)
    {
      hide Shape, HasHead, HasUse, HasLens, HasColumn, Sized, Value, HasSymbols, HasCode, Showing, Decode;
      LabelOf(past.stage, save);
    }

    // ---- BZ2_bzDecompress ----

    /** What was written of the block that is being shown. */
    ghost function Emitted(): seq<int>
      reads this`past, this`fast, this`slow, fast, slow
    {
      if !past.stage.Output? then [] else if small then (if slow == null then [] else slow.emitted) else (if fast == null then [] else fast.emitted)
    }

    /** Everything written so far. */
    ghost function Written(): seq<int>
      reads this`past, this`fast, this`slow, fast, slow
    {
      past.done + Emitted()
    }

    /** The caller supplies more input. */
    method Supply(more: seq<Byte>)
      requires Valid()
      modifies this`past, strm`input
      ensures Valid() && past == old(past.(supplied := past.supplied + BitsOf(more))) && Written() == old(Written()) && repr == old(repr)
    {
      hide Decode, Tied, StageOk, BitsOf, strm.Rest, Prefixed;
      MagicOk();
      ghost var s, a, b := past.stage, strm.Rest(), BitsOf(more);
      ghost var r := Decode(table, s, a);
      strm.Supply(more);
      DecodeSplit(table, Magic(0), past.supplied, b);
      DecodeSplit(table, s, a, b);
      PrefixedTwice(past.done, r.out, Decode(table, r.stage, r.rest + b));
      PrefixedParts(past.done, r);
      past := past.(supplied := past.supplied + b);
    }

    /** The block is shown in a window, with the SMALL vector. */
    method UnrleSmall(availOut: nat, ghost b: seq<int>) returns (corrupt: bool, finished: bool, output: seq<int>, crc: Word)
      requires small && past.stage.Output? && Showing(b)
      modifies slow
      ensures IsBytes(output) && |output| <= availOut && Emitted() == old(Emitted()) + output && IsBytes(b)
      ensures corrupt ==> Expand(b).cnt == 4
      ensures !corrupt && !finished ==> Showing(b) && |output| == availOut
      ensures !corrupt && !finished && Expand(b).cnt < 4 ==> Emitted() < Expand(b).out
      ensures !corrupt && finished ==> Expand(b).cnt < 4 && Emitted() == Expand(b).out && IsBytes(Emitted()) && crc == Over(table, INITIAL, Emitted())
    {
      hide Expand, Over, RX.Waiting, RX.SourceOk, RX.Block, slow.Vectors;
      SmallBlock();
      corrupt, output := slow.Unrle(availOut);
      finished, crc := slow.Finished(), slow.calculatedBlockCRC;
      if !corrupt {
        SmallBlock();
        RX.Outcome(b, slow.nblockUsed, slow.k0, slow.emitted, slow.stateOutCh, slow.stateOutLen);
      }
    }

    lemma SmallBlock()
      requires slow != null && slow.Valid()
      ensures RX.SourceOk(slow.s) && |RX.Block(slow.s)| == slow.saveNblock
      ensures RX.Waiting(RX.Block(slow.s), slow.nblockUsed, slow.k0, slow.emitted, slow.stateOutCh, slow.stateOutLen)
    {
      hide RX.Waiting, RX.SourceOk, RX.Block;
    }

    /** The block is shown in a window, with the FAST vector. */
    method UnrleFast(availOut: nat, ghost b: seq<int>) returns (corrupt: bool, finished: bool, output: seq<int>, crc: Word)
      requires !small && past.stage.Output? && Showing(b)
      modifies fast
      ensures IsBytes(output) && |output| <= availOut && Emitted() == old(Emitted()) + output && IsBytes(b)
      ensures corrupt ==> Expand(b).cnt == 4
      ensures !corrupt && !finished ==> Showing(b) && |output| == availOut
      ensures !corrupt && !finished && Expand(b).cnt < 4 ==> Emitted() < Expand(b).out
      ensures !corrupt && finished ==> Expand(b).cnt < 4 && Emitted() == Expand(b).out && IsBytes(Emitted()) && crc == Over(table, INITIAL, Emitted())
    {
      hide Expand, Over, RX.Waiting, RX.SourceOk, RX.Block, fast.Vectors;
      FastBlock();
      corrupt, output := fast.Unrle(availOut);
      finished, crc := fast.Finished(), fast.calculatedBlockCRC;
      if !corrupt {
        FastBlock();
        RX.Outcome(b, fast.nblockUsed, fast.k0, fast.emitted, fast.stateOutCh, fast.stateOutLen);
      }
    }

    lemma FastBlock()
      requires fast != null && fast.Valid()
      ensures RX.SourceOk(fast.s) && |RX.Block(fast.s)| == fast.saveNblock
      ensures RX.Waiting(RX.Block(fast.s), fast.nblockUsed, fast.k0, fast.emitted, fast.stateOutCh, fast.stateOutLen)
    {
      hide RX.Waiting, RX.SourceOk, RX.Block;
    }

    /** The block is shown in a window, and when all of it was shown its checksum is compared. */
    method ShowBlock(availOut: nat) returns (o: Outcome, finished: bool, output: seq<int>)
      requires Running(save) && StageOk(past.stage) && past.stage.Output? && Owns() && strm.Valid()
      modifies this`past, this`state, this`calculatedCombinedCRC, fast, slow
      ensures repr == old(repr) && Owns() && past.supplied == old(past.supplied) && IsBytes(output) && |output| <= availOut
      ensures strm.Valid() && strm.Rest() == old(strm.Rest())
      ensures o.Fails? ==> SingleShot().stage == Halted(o.why)
      ensures o.Goes? ==> Running(save) && StageOk(past.stage) && Written() == old(Written()) + output
      ensures o.Goes? && !finished ==> past == old(past) && |output| == availOut
      ensures o.Goes? && !finished && !SingleShot().stage.Halted? ==> Written() < SingleShot().out
      ensures o.Goes? && finished ==> past.stage.Start?
    {
      hide Tied, StageOk, Decode, Showing, HasHead, Expand, Over, Owns, strm.Rest, strm.Valid, Combine, Final, Shape, HeadOk;
      ghost var h, b, bits := past.stage.h, past.stage.b, strm.Rest();
      OutputFacts();
      DecodeOutput(table, h, b, bits);
      HaltedStays(table, BadData, bits);
      var corrupt, crc;
      if small {
        corrupt, finished, output, crc := UnrleSmall(availOut, b);
      } else {
        corrupt, finished, output, crc := UnrleFast(availOut, b);
      }
      if corrupt { return Fails(BadData), finished, output; }
      o := Goes;
      if !finished {
        TieOutput(h, b, save);
        return;
      }
      if Final(crc) != storedBlockCRC { return Fails(BadData), finished, output; }
      NextBlock(crc);
    }

    /** The block was shown and its checksum agrees. */
    method NextBlock(crc: Word)
      requires strm.Valid() && StageOk(past.stage) && past.stage.Output? && Shape() && Sized(past.stage.h.bs, past.stage.h.combined)
      requires SingleShot() == Prefixed(past.done, Decode(table, past.stage, strm.Rest())) && IsBytes(past.stage.b)
      requires Emitted() == Expand(past.stage.b).out && IsBytes(Emitted()) && crc == Over(table, INITIAL, Emitted())
      requires Expand(past.stage.b).cnt < 4 && Final(crc) == past.stage.h.crc
      modifies this`past, this`state, this`calculatedCombinedCRC
      ensures Running(save) && StageOk(past.stage) && past.stage.Start? && past.supplied == old(past.supplied) && Written() == old(Written())
    {
      hide Tied, StageOk, Decode, Expand, Over, strm.Rest, strm.Valid, Combine, Final, Shape, HeadOk;
      ghost var h, b, bits, data := past.stage.h, past.stage.b, strm.Rest(), Emitted();
      ghost var next := Shown(h, b, table).0;
      DecodeOutput(table, h, b, bits);
      OutputHead(h, b);
      calculatedCombinedCRC := Combine(calculatedCombinedCRC, Final(crc));
      state := XBlkHdr(1);
      PrefixedTwice(past.done, data, Decode(table, next, bits));
      past := past.(stage := next, done := past.done + data);
      TieStart(h);
      assert past.done + [] == past.done;
    }

    lemma OutputFacts()
      requires StageOk(past.stage) && past.stage.Output? && Tied(past.stage, save)
      ensures Shape() && HasHead(past.stage.h) && Showing(past.stage.b) && state == XOutput && IsBytes(past.stage.b)
      ensures storedBlockCRC == past.stage.h.crc && Sized(past.stage.h.bs, past.stage.h.combined) && HeadOk(past.stage.h)
    {
      hide Shape, Showing;
    }

    lemma TieStart(h: Head)
      requires Shape() && state == XBlkHdr(1) && Sized(h.bs, calculatedCombinedCRC) && HeadOk(h)
      ensures StageOk(Start(h.bs, calculatedCombinedCRC, 0)) && Tied(Start(h.bs, calculatedCombinedCRC, 0), save)
    {
      hide Shape, Sized;
    }

    lemma RunningFacts()
      requires Running(save)
      ensures StageOk(past.stage) && strm.Valid()
      ensures !past.stage.Halted? ==> (state == XOutput <==> past.stage.Output?) && (state == XIdle <==> past.stage.Idle?)
    {
      hide Tied, Decode;
      if !past.stage.Halted? { StageLabel(save); }
    }

    /** Where the loop of BZ2_bzDecompress stands. */
    ghost predicate Looping()
      reads this, strm, All()
    {
      && Running(save) && StageOk(past.stage) && strm.Valid() && Owns() && !past.stage.Halted? && !past.stage.Idle?
      && (state == XOutput <==> past.stage.Output?)
    }

    /** One turn of the loop of BZ2_bzDecompress: shows what is left of a block, and reads the next. */
    method Round(availOut: nat) returns (ended: bool, code: ReturnCode, output: seq<int>)
      requires Looping() && strm.Valid()
      modifies repr, strm
      ensures fresh(repr - old(repr)) && past.supplied == old(past.supplied) && IsBytes(output) && |output| <= availOut && strm.Valid()
      ensures !ended ==> Looping() && |strm.Rest()| < |old(strm.Rest())| && Written() == old(Written()) + output
      ensures ended ==> !code.SequenceError? && Agrees(code, old(Written()) + output, SingleShot())
      ensures ended && (code.Ok? || code.StreamEnd?) ==> Valid() && Written() == old(Written()) + output && (code.Ok? ==> !past.stage.Idle?)
      ensures ended && code.Ok? && past.stage.Output? ==> |output| == availOut
      ensures ended && code.Ok? && !past.stage.Output? ==> !Stopped(past.stage) && SingleShot() == Result(past.stage, strm.Rest(), Written())
    {
      hide Tied, StageOk, Decode, Running, Owns, SingleShot, strm.Rest, strm.Valid, Need;
      output, ended := [], true;
      assert Written() + [] == Written();
      if state == XOutput {
        OwnsExpander();
        var o, finished;
        o, finished, output := ShowBlock(availOut);
        if o.Fails? {
          code := Error(o.why);
          return;
        }
        if !finished {
          code := Ok;
          return;
        }
      }
      var more, o := Decompress();
      Stands();
      if more {
        code := Ok;
        return;
      }
      if o.Fails? {
        code := Error(o.why);
        return;
      }
      RunningFacts();
      code := StreamEnd;
      ended := state == XIdle;
    }

    /** BZ2_bzDecompress with one window.  Whatever the input was cut into and whatever windows were
        given before: an error or the end of the stream comes just as in the single-shot run over all
        bits supplied, in the end with just its output; and it returns for more only when the
        window is full and the block is not all shown, or when the single-shot run stops there too. */
    method BzDecompress(availOut: nat) returns (code: ReturnCode, output: seq<int>)
      requires Valid()
      modifies repr, strm
      ensures fresh(repr - old(repr)) && past.supplied == old(past.supplied) && IsBytes(output) && |output| <= availOut
      ensures code.SequenceError? <==> old(past.stage.Idle?)
      ensures code.SequenceError? ==> Valid() && output == [] && past == old(past)
      ensures !code.SequenceError? ==> Agrees(code, old(Written()) + output, SingleShot())
      ensures code.Ok? || code.StreamEnd? ==> Valid() && Written() == old(Written()) + output && (code.Ok? ==> !past.stage.Idle?)
      ensures code.Ok? && past.stage.Output? ==> |output| == availOut
      ensures code.Ok? && !past.stage.Output? ==> !Stopped(past.stage) && SingleShot() == Result(past.stage, strm.Rest(), Written())
    {
      hide *;
      ValidLoops();
      code, output := Ok, [];
      assert Written() + [] == Written();
      if state == XIdle { return SequenceError, []; }
      var ended := false;
      while !ended
        invariant fresh(repr - old(repr)) && past.supplied == old(past.supplied) && IsBytes(output) && |output| <= availOut
        invariant strm.Valid() && (!ended ==> Looping() && Written() == old(Written()) + output)
        invariant ended ==> !code.SequenceError? && Agrees(code, old(Written()) + output, SingleShot())
        invariant ended && (code.Ok? || code.StreamEnd?) ==> Valid() && Written() == old(Written()) + output && (code.Ok? ==> !past.stage.Idle?)
        invariant ended && code.Ok? && past.stage.Output? ==> |output| == availOut
        invariant ended && code.Ok? && !past.stage.Output? ==> !Stopped(past.stage) && SingleShot() == Result(past.stage, strm.Rest(), Written())
        decreases !ended, if ended then 0 else |strm.Rest()|
      {
        var out;
        ghost var o := output;
        ended, code, out := Round(availOut - |output|);
        BytesJoined(output, out);
        output := output + out;
        assert old(Written()) + (o + out) == (old(Written()) + o) + out;
      }
    }

    lemma ValidLoops()
      requires Valid()
      ensures strm.Valid() && (state == XIdle <==> past.stage.Idle?) && IsBytes([]) && (state != XIdle ==> Looping())
    {
      hide Running, StageOk;
      RunningFacts();
    }

    /** Where nothing more can be done the single-shot run stands at the same stage. */
    lemma Stands()
      requires Running(save)
      ensures strm.Valid() && StageOk(past.stage) && past.done + [] == past.done
      ensures Stopped(past.stage) || (!past.stage.Output? && |strm.Rest()| < Need(past.stage)) ==> SingleShot() == Result(past.stage, strm.Rest(), past.done)
    {
      hide Tied, Need, StageOk, strm.Rest;
      assert past.done + [] == past.done;
    }

    lemma OwnsExpander()
      requires Owns()
      ensures (fast == null || fast in repr) && (slow == null || slow in repr) && this in repr
    {}

    lemma WaitsIs(s: Stage, l: Locals, b: seq<bool>)
      requires StageOk(s) && !Stopped(s) && !s.Output? && |b| == Need(s) && Tied(s, l)
      ensures Waits(s, l, b)
    {
      hide Tied;
    }

    lemma WentFacts(s: Stage, b: seq<bool>, l: Locals, o: Outcome)
      requires StageOk(s) && !Stopped(s) && !s.Output? && |b| == Need(s) && Went(s, b, l, o)
      ensures StageOk(After(s, b)) && Tied(After(s, b), l) && o == OutcomeOf(After(s, b)) && (After(s, b).Output? ==> NothingShown())
    {
      hide Tied, After;
      AfterOk(s, b);
    }
  }

  lemma Fits(h: Head)
    requires HeadOk(h)
    ensures 100000 * h.bs <= InverseVector.MAX_BLOCK
  {}

  lemma PendingWeight(syms: seq<int>, es: int, N: int)
    requires Readable(syms, 256) && Pending(syms, es, N)
    ensures Meaning(Iota(256), syms).weight == N
  {}

  /** The first k pieces. */
  function Joined(pieces: seq<seq<Byte>>, k: nat): seq<Byte>
    requires k <= |pieces|
  {
    if k == 0 then [] else Joined(pieces, k - 1) + pieces[k - 1]
  }

  /** A decompressor that belongs to the caller. */
  method New(small: bool, table: CrcTable) returns (s: DState)
    ensures fresh(s) && s.Valid() && fresh(s.repr) && fresh(s.strm) && s.past == Past(Magic(0), [], []) && s.table == table
  {
    hide DState.Valid, DState.Running, DState.Tied, DState.Owns, Decode;
    s := new DState(small, table);
  }

  /** Any cut of the input and any windows: a call for every piece with a window for it, of which room
      is left at the end.  The verdict is that of the single-shot run over all the input, and on
      success so is the output.  With room left in the last window it asks for more just when the
      single-shot run does. */
  method DecompressInPieces(pieces: seq<seq<Byte>>, windows: seq<nat>, small: bool, table: CrcTable)
    returns (code: ReturnCode, output: seq<int>, room: nat)
    requires |pieces| == |windows|
    ensures Agrees(code, output, Decode(table, Magic(0), BitsOf(Joined(pieces, |pieces|)))) && IsBytes(output)
    ensures room > 0 ==> (code.Ok? <==> !Stopped(Decode(table, Magic(0), BitsOf(Joined(pieces, |pieces|))).stage))
  {
    hide *;
    var s := New(small, table);
    code, output, room := Ok, [], 0;
    var i := 0;
    NothingYetAgrees(s, pieces);
    while i < |pieces| && code == Ok
      invariant i <= |pieces| && fresh(s) && fresh(s.repr) && fresh(s.strm) && s.table == table && IsBytes(output)
      invariant s.past.supplied == BitsOf(Joined(pieces, i))
      invariant StageOk(Magic(0)) && Agrees(code, output, Decode(table, Magic(0), BitsOf(Joined(pieces, i))))
      invariant code == Ok ==> s.Valid() && output == s.Written() && !s.past.stage.Idle?
      invariant code == Ok && room > 0 ==> !Stopped(Decode(table, Magic(0), BitsOf(Joined(pieces, i))).stage)
    {
      PieceJoined(pieces, i);
      s.Supply(pieces[i]);
      var out;
      code, out := s.BzDecompress(windows[i]);
      Shot(s);
      BytesJoined(output, out);
      output, room := output + out, windows[i] - |out|;
      i := i + 1;
    }
    if code != Ok { StoppedAgrees(code, output, table, pieces, i); }
  }

  lemma BytesJoined(a: seq<int>, b: seq<int>)
    requires IsBytes(a) && IsBytes(b)
    ensures IsBytes(a + b)
  {}

  lemma Shot(s: DState)
    ensures s.SingleShot() == Decode(s.table, Magic(0), s.past.supplied)
  {}

  lemma NothingYetAgrees(s: DState, pieces: seq<seq<Byte>>)
    requires s.past == Past(Magic(0), [], [])
    ensures StageOk(Magic(0)) && Agrees(Ok, [], Decode(s.table, Magic(0), [])) && BitsOf(Joined(pieces, 0)) == [] && IsBytes([])
    ensures s.Written() == [] && !s.past.stage.Idle?
  {}

  lemma PieceJoined(pieces: seq<seq<Byte>>, i: nat)
    requires i < |pieces|
    ensures BitsOf(Joined(pieces, i + 1)) == BitsOf(Joined(pieces, i)) + BitsOf(pieces[i])
  {
    BitsOfConcat(Joined(pieces, i), pieces[i]);
  }

  lemma {:induction false} RestJoined(pieces: seq<seq<Byte>>, i: nat, k: nat) returns (rest: seq<bool>)
    requires i <= k <= |pieces|
    ensures BitsOf(Joined(pieces, k)) == BitsOf(Joined(pieces, i)) + rest
    decreases k
  {
    hide BitsOf;
    if i == k {
      rest := [];
    } else {
      rest := RestJoined(pieces, i, k - 1);
      PieceJoined(pieces, k - 1);
      Assoc(BitsOf(Joined(pieces, i)), rest, BitsOf(pieces[k - 1]));
      rest := rest + BitsOf(pieces[k - 1]);
    }
  }

  /** Input after the end does not change a verdict. */
  lemma StoppedAgrees(code: ReturnCode, output: seq<int>, table: CrcTable, pieces: seq<seq<Byte>>, i: nat)
    requires i <= |pieces| && code != Ok && StageOk(Magic(0)) && Agrees(code, output, Decode(table, Magic(0), BitsOf(Joined(pieces, i))))
    ensures Agrees(code, output, Decode(table, Magic(0), BitsOf(Joined(pieces, |pieces|))))
    ensures Stopped(Decode(table, Magic(0), BitsOf(Joined(pieces, |pieces|))).stage)
  {
    hide Decode, BitsOf, Joined;
    var rest := RestJoined(pieces, i, |pieces|);
    StoppedStays(table, Magic(0), BitsOf(Joined(pieces, i)), rest);
  }

  lemma RunSites(syms: seq<int>)
    ensures Site(syms) in {1, 3, 5}
  {}

  lemma TooMany(h: Head, c: DecoderMachine.Code, syms: seq<int>, x: int)
    requires |c.u| == 256 && Readable(syms, 256) && |ColumnOf(c.u, syms)| > 100000 * h.bs && x != RUNA && x != RUNB
    ensures TakeSymbol(h, c, syms, x) == Halted(BadData)
  {
    hide Meaning;
  }

  lemma GroupOf(groupNo: int, groupPos: int, k: int)
    requires 0 <= groupNo && 0 <= groupPos < G_SIZE && G_SIZE * (groupNo + 1) - groupPos == k + 1
    ensures k / G_SIZE == groupNo
  {}

  lemma ShortestOf(T: Table, L: seq<int>)
    requires TableFor(T, L)
    ensures T.minLen == CanonicalCode.Shortest(L, |L|)
  {}

  lemma NeedRange(s: Stage)
    requires StageOk(s) && !Stopped(s) && !s.Output?
    ensures 1 <= Need(s) <= 20
  {}

  lemma PrefixedParts(out: seq<int>, r: Result)
    ensures Prefixed(out, r).stage == r.stage && Prefixed(out, r).rest == r.rest && Prefixed(out, r).out == out + r.out
  {}

  lemma MagicOk()
    ensures StageOk(Magic(0))
  {}

  lemma NextNotOutput(h: Head, c: DecoderMachine.Code, syms: seq<int>)
    ensures !NextSymbol(h, c, syms).Output?
  {}

  lemma OutputHead(h: Head, b: seq<int>)
    requires StageOk(Output(h, b))
    ensures HeadOk(h)
  {}

  lemma NextStage(h: Head, c: DecoderMachine.Code, syms: seq<int>)
    requires HeadOk(h) && CodeOk(c) && |c.u| == 256 && Readable(syms, UsedBelow(c.u, 256))
    ensures StageOk(NextSymbol(h, c, syms))
  {}

  lemma CountedShape(f: seq<int>, col: seq<int>)
    requires Counted(f, col)
    ensures |f| == 256
  {}

  lemma CountedAll(f: seq<int>, col: seq<int>)
    requires Counted(f, col)
    ensures |f| == 256 && forall c | 0 <= c < 256 :: f[c] == Count(col, c, |col|)
  {}

  lemma SourceFits(col: seq<int>, t: seq<int>, o: nat)
    requires IsBytes(col) && BurrowsWheeler.IsInverse(col, t) && o < |col| <= InverseVector.MAX_BLOCK
    ensures RX.SourceOk(RX.Source(col, t, o)) && RX.Block(RX.Source(col, t, o)) == BlockBytes(col, o)
  {
    InverseVector.InverseShape(col, t);
    InverseVector.InverseUnique(col, t);
  }

  lemma AfterStep(s: Stage, b: seq<bool>)
    requires StageOk(s) && s.Step? && |b| == Need(s)
    ensures |b| == 1 && (|s.len| + 1 == AlphaSize(s.u) ==> LensOk(s.lens + [s.len + [s.curr]], s.u))
    ensures After(s, b)
         == if b[0] then Sign(s.h, s.u, s.n, s.sel, s.lens, s.len, s.curr)
            else if |s.len| + 1 < AlphaSize(s.u) then Step(s.h, s.u, s.n, s.sel, s.lens, s.len + [s.curr], s.curr)
            else AfterTable(s.h, s.u, s.n, s.sel, s.lens + [s.len + [s.curr]])
  {
    hide UsedBelow;
  }

  lemma LensLengths(c: DecoderMachine.Code)
    requires CodeOk(c)
    ensures LengthsOk(c.lens, AlphaSize(c.u)) && AlphaSize(c.u) <= 258
  {}

  lemma NothingYet(u: seq<bool>)
    requires |u| == 256
    ensures Readable([], 256) && Base([]) == [] && ColumnOf(u, []) == [] && Meaning(Iota(256), []).list == Iota(256)
  {}

  /** A row that is not in use is skipped. */
  lemma {:induction false} SkipRow(h: Head, rows: seq<bool>, u: seq<bool>, n: nat)
    requires |rows| == 16 && n <= 16 && |u| + n <= 256 && (|u| + n) % 16 == 0 && (n > 0 ==> !rows[|u| / 16])
    ensures SkipRows(h, rows, u) == SkipRows(h, rows, u + seq(n, _ => false))
    decreases n
  {
    if n == 0 {
      assert u + seq(0, _ => false) == u;
    } else {
      SkipRow(h, rows, u + [false], n - 1);
      assert (u + [false]) + seq(n - 1, _ => false) == u + seq(n, _ => false);
    }
  }

  lemma SkipsTo(h: Head, rows: seq<bool>, u: seq<bool>)
    requires |rows| == 16 && |u| <= 256
    ensures |u| == 256 ==> SkipRows(h, rows, u) == if UsedBelow(u, 256) == 0 then Halted(BadData) else NGroups(h, u)
    ensures |u| < 256 && rows[|u| / 16] ==> SkipRows(h, rows, u) == Used(h, rows, u)
  {}

  lemma NoValue()
    ensures Value([]) == 0
  {}

  /** The SMALL vector: the rows of all entries, and the cycle through origPtr turned around. */
  method TurnAround(ll16: array<int>, ll4: array<int>, cftab: array<int>, origPtr: nat, nblock: nat, ghost col: seq<int>, ghost t: seq<int>)
    returns (ghost seen: set<int>)
    requires ll16 != ll4 && ll4 != cftab && ll16 != cftab && origPtr < nblock <= ll16.Length <= InverseVector.MAX_BLOCK
    requires ll4.Length == (1 + ll16.Length) / 2 && forall i | 0 <= i < ll4.Length :: 0 <= ll4[i] < 256
    requires col == ll16[..nblock] && IsBytes(col) && InverseVector.Below(cftab[..], col) && BurrowsWheeler.IsInverse(col, t)
    modifies ll16, ll4
    ensures InverseVector.Turned(ll16[..], ll4[..], col, t, seen) && origPtr in seen && forall q | q in seen :: 0 <= q < |t| && t[q] in seen
    ensures forall i | 0 <= i < ll4.Length :: 0 <= ll4[i] < 256
  {
    hide BurrowsWheeler.IsInverse, InverseVector.Rows, InverseVector.Below, InverseVector.GetLL, SortedRow;
    InverseVector.FirstRows(col, cftab[..]);
    assert forall i | 0 <= i < nblock :: ll16[i] == col[i];
    InverseVector.BuildSmall(ll16, ll4, cftab, nblock, col);
    InverseVector.InverseShape(col, t);
    seen := InverseVector.Reverse(ll16, ll4, origPtr, nblock, col, t);
  }

  lemma ValueBit(b: seq<bool>)
    requires |b| == 1
    ensures Value(b) == if b[0] then 1 else 0
  {
    assert b[..0] == [];
  }

  lemma {:induction false} ValueConcat(a: seq<bool>, b: seq<bool>)
    ensures Value(a + b) == Value(a) * Pow2(|b|) + Value(b)
  {
    if |b| == 0 {
      assert a + b == a;
    } else {
      var c := b[..|b| - 1];
      ValueConcat(a, c);
      assert (a + b)[..|a + b| - 1] == a + c;
      assert Value(a) * Pow2(|b|) == 2 * (Value(a) * Pow2(|c|));
    }
  }

  lemma ValueByte(a: seq<bool>, b: seq<bool>)
    requires |b| == 8
    ensures Value(a + b) == Value(a) * 256 + Value(b)
  {
    ValueConcat(a, b);
    Pow2Values();
  }
}

/** BZ2_decompress as a machine on bits: the stages in which it may wait for input, what one field
    of input makes of a stage, and what a whole run gives.  Nothing here depends on how the input
    is cut, on the output windows or on the kind of inverse vector. */
module DecoderMachine {
  import opened Bits
  import opened BitStream
  import opened Rotations
  import opened BurrowsWheeler
  import opened MoveToFront
  import opened ByteMaps
  import opened RunLength
  import opened Crc
  import opened CanonicalCode
  import opened SymbolStream
  import opened BlockFormat
  import opened InverseVector

  datatype Failure = BadMagic | BadData | Randomised

  /** What was read of a block before its mapping table. */
  datatype Head = Head(bs: nat, combined: Word, crc: nat, origPtr: nat)

  /** The characters in use, the code lengths of all tables and the selectors. */
  datatype Code = Code(u: seq<bool>, lens: seq<seq<int>>, sel: seq<int>)

  /** Where the decompressor waits, and what it knows there. */
  datatype Stage =
    | Magic(k: nat)
    | Start(bs: nat, combined: Word, k: nat)
    | BlockCrc(bs: nat, combined: Word, got: seq<bool>)
    | RandBit(bs: nat, combined: Word, crc: nat)
    | OrigPtr(bs: nat, combined: Word, crc: nat, got: seq<bool>)
    | Rows(h: Head, rows: seq<bool>)
    | Used(h: Head, rows: seq<bool>, u: seq<bool>)
    | NGroups(h: Head, u: seq<bool>)
    | NSelectors(h: Head, u: seq<bool>, n: nat)
    | Selector(h: Head, u: seq<bool>, n: nat, count: nat, moves: seq<int>, j: nat)
    | FirstLength(h: Head, u: seq<bool>, n: nat, sel: seq<int>, lens: seq<seq<int>>)
    | Step(h: Head, u: seq<bool>, n: nat, sel: seq<int>, lens: seq<seq<int>>, len: seq<int>, curr: int)
    | Sign(h: Head, u: seq<bool>, n: nat, sel: seq<int>, lens: seq<seq<int>>, len: seq<int>, curr: int)
    | Coded(h: Head, c: Code, syms: seq<int>, code: seq<bool>)
    | Output(h: Head, b: seq<int>)
    | End(combined: Word, k: nat)
    | StreamCrc(combined: Word, got: seq<bool>)
    | Idle
    | Halted(why: Failure)

  ghost predicate HeadOk(h: Head) { 1 <= h.bs <= 9 && h.crc < 0x1_0000_0000 && h.origPtr <= 10 + 100000 * h.bs }

  ghost predicate UseOk(u: seq<bool>) { |u| == 256 && UsedBelow(u, 256) >= 1 }

  ghost predicate SelOk(sel: seq<int>, n: nat) { 2 <= n <= 6 && |sel| >= 1 && forall k | 0 <= k < |sel| :: 0 <= sel[k] < n }

  ghost predicate LensOk(lens: seq<seq<int>>, u: seq<bool>) { UseOk(u) && LengthsOk(lens, AlphaSize(u)) }

  ghost predicate LenOk(len: seq<int>) { forall i | 0 <= i < |len| :: 1 <= len[i] <= 20 }

  ghost predicate CodeOk(c: Code) { LensOk(c.lens, c.u) && SelOk(c.sel, |c.lens|) }

  ghost predicate StageOk(s: Stage) {
    match s
    case Magic(k) => k < 4
    case Start(bs, _, k) => 1 <= bs <= 9 && k < 6
    case BlockCrc(bs, _, got) => 1 <= bs <= 9 && |got| < 32 && |got| % 8 == 0
    case RandBit(bs, _, crc) => 1 <= bs <= 9 && crc < 0x1_0000_0000
    case OrigPtr(bs, _, crc, got) => 1 <= bs <= 9 && crc < 0x1_0000_0000 && |got| < 24 && |got| % 8 == 0
    case Rows(h, rows) => HeadOk(h) && |rows| < 16
    case Used(h, rows, u) => HeadOk(h) && |rows| == 16 && |u| < 256 && rows[|u| / 16]
    case NGroups(h, u) => HeadOk(h) && UseOk(u)
    case NSelectors(h, u, n) => HeadOk(h) && UseOk(u) && 2 <= n <= 6
    case Selector(h, u, n, count, moves, j) =>
      HeadOk(h) && UseOk(u) && 2 <= n <= 6 && j < n && |moves| < count && forall k | 0 <= k < |moves| :: 0 <= moves[k] < n
    case FirstLength(h, u, n, sel, lens) => HeadOk(h) && SelOk(sel, n) && |lens| < n && LensOk(lens, u)
    case Step(h, u, n, sel, lens, len, curr) =>
      HeadOk(h) && SelOk(sel, n) && |lens| < n && LensOk(lens, u) && LenOk(len) && |len| < AlphaSize(u) && 1 <= curr <= 20
    case Sign(h, u, n, sel, lens, len, curr) =>
      HeadOk(h) && SelOk(sel, n) && |lens| < n && LensOk(lens, u) && LenOk(len) && |len| < AlphaSize(u) && 1 <= curr <= 20
    case Coded(h, c, syms, code) =>
      HeadOk(h) && CodeOk(c) && |syms| < G_SIZE * |c.sel| && Readable(syms, UsedBelow(c.u, 256)) && |code| <= LONGEST
    case Output(h, b) => HeadOk(h) && |b| >= 1 && IsBytes(b)
    case End(_, k) => 1 <= k < 6
    case StreamCrc(_, got) => |got| < 32 && |got| % 8 == 0
    case Idle => true
    case Halted(_) => true
  }

  predicate Stopped(s: Stage) { s.Idle? || s.Halted? }

  // ---- One field of input ----

  /** The lengths of the table that codes the next symbol. */
  function Lengths(c: Code, syms: seq<int>): seq<int>
    requires |syms| < G_SIZE * |c.sel| && forall k | 0 <= k < |c.sel| :: 0 <= c.sel[k] < |c.lens|
  {
    c.lens[c.sel[|syms| / G_SIZE]]
  }

  /** How many bits the stage waits for. */
  ghost function Need(s: Stage): (n: nat)
    requires StageOk(s) && !Stopped(s) && !s.Output?
    ensures 1 <= n <= 20
  {
    match s
    case RandBit(_, _, _) => 1
    case Rows(_, _) => 1
    case Used(_, _, _) => 1
    case NGroups(_, _) => 3
    case NSelectors(_, _, _) => 15
    case Selector(_, _, _, _, _, _) => 1
    case FirstLength(_, _, _, _, _) => 5
    case Step(_, _, _, _, _, _, _) => 1
    case Sign(_, _, _, _, _, _, _) => 1
    case Coded(_, c, syms, code) => if code == [] then var L := Lengths(c, syms); Shortest(L, |L|) else 1
    case _ => 8
  }

  /** The characters that numbers of characters in use stand for. */
  function Chars(u: seq<bool>, out: seq<int>): (col: seq<int>)
    requires |u| == 256
    ensures IsBytes(col) && |col| == |out|
  {
    var t := CharsOf(u, 256);
    seq(|out|, i requires 0 <= i < |out| => if 0 <= out[i] < |t| then t[out[i]] else 0)
  }

  /** The last column that the symbols stand for. */
  function ColumnOf(u: seq<bool>, syms: seq<int>): (col: seq<int>)
    requires |u| == 256 && Readable(syms, 256)
    ensures IsBytes(col) && |col| == |Meaning(Iota(256), syms).out|
  {
    Chars(u, Meaning(Iota(256), syms).out)
  }

  /** The block that a column and the row of rotation 0 describe, whatever they are. */
  ghost function BlockBytes(col: seq<int>, o: nat): (b: seq<int>)
    requires IsBytes(col) && o < |col|
    ensures |b| == |col| && IsBytes(b)
  {
    InverseShape(col, InverseOf(col));
    WalkBytes(col, InverseOf(col), o, |col|)
  }

  /** The mapping table goes on with the next row in use. */
  function SkipRows(h: Head, rows: seq<bool>, u: seq<bool>): (s: Stage)
    requires |rows| == 16 && |u| <= 256
    decreases 256 - |u|
  {
    if |u| == 256 then (if UsedBelow(u, 256) == 0 then Halted(BadData) else NGroups(h, u))
    else if rows[|u| / 16] then Used(h, rows, u)
    else SkipRows(h, rows, u + [false])
  }

  function NextLength(h: Head, u: seq<bool>, n: nat, sel: seq<int>, lens: seq<seq<int>>, len: seq<int>, curr: int): Stage {
    if 1 <= curr <= 20 then Step(h, u, n, sel, lens, len, curr) else Halted(BadData)
  }

  /** The next symbol is to be read, if the selectors reach that far. */
  function NextSymbol(h: Head, c: Code, syms: seq<int>): Stage {
    if |syms| < G_SIZE * |c.sel| then Coded(h, c, syms, []) else Halted(BadData)
  }

  /** The whole block was read. */
  ghost function EndOfBlock(h: Head, c: Code, syms: seq<int>): Stage
    requires |c.u| == 256 && Readable(syms, 256)
  {
    var col := ColumnOf(c.u, syms);
    if |col| > 100000 * h.bs || h.origPtr >= |col| then Halted(BadData) else Output(h, BlockBytes(col, h.origPtr))
  }

  /** One more symbol. */
  ghost function TakeSymbol(h: Head, c: Code, syms: seq<int>, x: int): Stage
    requires |c.u| == 256 && Readable(syms, 256)
  {
    var d := Meaning(Iota(256), syms);
    if x == RUNA || x == RUNB then
      if d.weight >= 2 * 1024 * 1024 then Halted(BadData) else NextSymbol(h, c, syms + [x])
    else if x == AlphaSize(c.u) - 1 then EndOfBlock(h, c, syms)
    else if |d.out| >= 100000 * h.bs then Halted(BadData)
    else NextSymbol(h, c, syms + [x])
  }

  ghost function AfterTable(h: Head, u: seq<bool>, n: nat, sel: seq<int>, lens: seq<seq<int>>): Stage {
    if |lens| == n then NextSymbol(h, Code(u, lens, sel), []) else FirstLength(h, u, n, sel, lens)
  }

  predicate ByteStage(s: Stage) { s.Magic? || s.Start? || s.BlockCrc? || s.RandBit? || s.OrigPtr? || s.End? || s.StreamCrc? }
  predicate MapStage(s: Stage) { s.Rows? || s.Used? || s.NGroups? || s.NSelectors? || s.Selector? }
  predicate LengthStage(s: Stage) { s.FirstLength? || s.Step? || s.Sign? }

  /** Before the mapping table, and in the trailer. */
  ghost function AfterBytes(s: Stage, b: seq<bool>): Stage
    requires StageOk(s) && ByteStage(s) && |b| == Need(s)
  {
    match s
    case Magic(k) =>
      if k < 3 then (if Value(b) == [0x42, 0x5a, 0x68][k] then Magic(k + 1) else Halted(BadMagic))
      else if 0x30 + 1 <= Value(b) <= 0x30 + 9 then Start(Value(b) - 0x30, 0, 0) else Halted(BadMagic)
    case Start(bs, combined, k) =>
      if k == 0 && Value(b) == 0x17 then End(combined, 1)
      else if Value(b) != BLOCK_MAGIC[k] then Halted(BadData)
      else if k == 5 then BlockCrc(bs, combined, []) else Start(bs, combined, k + 1)
    case BlockCrc(bs, combined, got) =>
      if |got| == 24 then RandBit(bs, combined, Value(got + b)) else BlockCrc(bs, combined, got + b)
    case RandBit(bs, combined, crc) =>
      if b[0] then Halted(Randomised) else OrigPtr(bs, combined, crc, [])
    case OrigPtr(bs, combined, crc, got) =>
      if |got| < 16 then OrigPtr(bs, combined, crc, got + b)
      else if Value(got + b) > 10 + 100000 * bs then Halted(BadData)
      else Rows(Head(bs, combined, crc, Value(got + b)), [])
    case End(combined, k) =>
      if Value(b) != END_MAGIC[k] then Halted(BadData)
      else if k == 5 then StreamCrc(combined, []) else End(combined, k + 1)
    case StreamCrc(combined, got) =>
      if |got| < 24 then StreamCrc(combined, got + b)
      else if Value(got + b) == combined then Idle else Halted(BadData)
  }

  /** The mapping table and the selectors. */
  ghost function AfterMap(s: Stage, b: seq<bool>): Stage
    requires StageOk(s) && MapStage(s) && |b| == Need(s)
  {
    match s
    case Rows(h, rows) =>
      if |rows| == 15 then SkipRows(h, rows + b, []) else Rows(h, rows + b)
    case Used(h, rows, u) => SkipRows(h, rows, u + b)
    case NGroups(h, u) =>
      if 2 <= Value(b) <= 6 then NSelectors(h, u, Value(b)) else Halted(BadData)
    case NSelectors(h, u, n) =>
      if Value(b) >= 1 then Selector(h, u, n, Value(b), [], 0) else Halted(BadData)
    case Selector(h, u, n, count, moves, j) =>
      if b[0] then (if j + 1 < n then Selector(h, u, n, count, moves, j + 1) else Halted(BadData))
      else if |moves| + 1 < count then Selector(h, u, n, count, moves + [j], 0)
      else FirstLength(h, u, n, SelOf(moves + [j], n), [])
  }

  /** The coding tables. */
  ghost function AfterLengths(s: Stage, b: seq<bool>): Stage
    requires StageOk(s) && LengthStage(s) && |b| == Need(s)
  {
    match s
    case FirstLength(h, u, n, sel, lens) => NextLength(h, u, n, sel, lens, [], Value(b))
    case Step(h, u, n, sel, lens, len, curr) =>
      if b[0] then Sign(h, u, n, sel, lens, len, curr)
      else if |len| + 1 < AlphaSize(u) then Step(h, u, n, sel, lens, len + [curr], curr)
      else AfterTable(h, u, n, sel, lens + [len + [curr]])
    case Sign(h, u, n, sel, lens, len, curr) =>
      NextLength(h, u, n, sel, lens, len, if b[0] then curr - 1 else curr + 1)
  }

  /** The bits of a symbol. */
  ghost function AfterBits(s: Stage, b: seq<bool>): Stage
    requires StageOk(s) && s.Coded? && |b| == Need(s)
  {
    match s
    case Coded(h, c, syms, code) =>
      var L := Lengths(c, syms);
      var x := Lookup(L, code + b, |L|);
      if |code + b| > LONGEST then Halted(BadData)
      else if x == -1 then Coded(h, c, syms, code + b)
      else TakeSymbol(h, c, syms, x)
  }

  /** What the bits it waited for make of a stage. */
  ghost function After(s: Stage, b: seq<bool>): Stage
    requires StageOk(s) && !Stopped(s) && !s.Output? && |b| == Need(s)
  {
    if s.Coded? then AfterBits(s, b) else if MapStage(s) then AfterMap(s, b) else if LengthStage(s) then AfterLengths(s, b) else AfterBytes(s, b)
  }

  lemma SkipRowsOk(h: Head, rows: seq<bool>, u: seq<bool>)
    requires HeadOk(h) && |rows| == 16 && |u| <= 256
    ensures StageOk(SkipRows(h, rows, u)) && !SkipRows(h, rows, u).Output?
    decreases 256 - |u|
  {}

  lemma CodeShape(c: Code)
    requires CodeOk(c)
    ensures |c.u| == 256 && UsedBelow(c.u, 256) >= 1 && UsedBelow(c.u, 256) <= 256
    ensures forall k | 0 <= k < |c.sel| :: 0 <= c.sel[k] < |c.lens| && |c.lens[c.sel[k]]| == AlphaSize(c.u)
    ensures forall k, i | 0 <= k < |c.sel| && 0 <= i < AlphaSize(c.u) :: 1 <= c.lens[c.sel[k]][i] <= 20
  {}

  lemma EndOfBlockOk(h: Head, c: Code, syms: seq<int>)
    requires HeadOk(h) && |c.u| == 256 && Readable(syms, 256)
    ensures StageOk(EndOfBlock(h, c, syms))
  {
    hide ColumnOf, BlockBytes, UsedBelow, HeadOk;
  }

  lemma TakeSymbolOk(h: Head, c: Code, syms: seq<int>, x: int)
    requires HeadOk(h) && CodeOk(c) && |c.u| == 256 && Readable(syms, UsedBelow(c.u, 256)) && 0 <= x < AlphaSize(c.u)
    ensures Readable(syms, 256) && StageOk(TakeSymbol(h, c, syms, x))
  {
    hide Meaning, CodeOk, UsedBelow, HeadOk, EndOfBlock;
    CodeShape(c);
    EndOfBlockOk(h, c, syms);
  }

  lemma SelOfOk(m: seq<int>, n: nat)
    requires 2 <= n <= 6 && |m| >= 1 && forall k | 0 <= k < |m| :: 0 <= m[k] < n
    ensures SelOk(SelOf(m, n), n)
  {
    forall k | 0 <= k < |m| ensures 0 <= SelOf(m, n)[k] < n { ListEntries(m, n, k); }
  }

  lemma CodedOk(s: Stage, b: seq<bool>)
    requires StageOk(s) && s.Coded? && |b| == Need(s)
    ensures StageOk(AfterBits(s, b))
  {
    hide TakeSymbol, Value;
    CodeShape(s.c);
    var L := Lengths(s.c, s.syms);
    var x := Lookup(L, s.code + b, |L|);
    if x != -1 { TakeSymbolOk(s.h, s.c, s.syms, x); }
  }

  lemma BytesOk(s: Stage, b: seq<bool>)
    requires StageOk(s) && ByteStage(s) && |b| == Need(s)
    ensures StageOk(AfterBytes(s, b))
  {
    hide Value;
    if s.BlockCrc? {
      Pow2Values();
      ValueBound(s.got + b);
    }
  }

  lemma LengthStepOk(s: Stage, b: seq<bool>)
    requires StageOk(s) && LengthStage(s) && |b| == Need(s)
    ensures StageOk(AfterLengths(s, b))
  {
    hide UsedBelow, Value;
  }

  lemma MapOk(s: Stage, b: seq<bool>)
    requires StageOk(s) && MapStage(s) && |b| == Need(s)
    ensures StageOk(AfterMap(s, b))
  {
    hide UsedBelow, SkipRows, SelOf, Value, HeadOk;
    match s
    case Rows(h, rows) => if |rows| == 15 { SkipRowsOk(h, rows + b, []); }
    case Used(h, rows, u) => SkipRowsOk(h, rows, u + b);
    case Selector(_, _, n, count, moves, j) => if !b[0] && |moves| + 1 == count { SelOfOk(moves + [j], n); }
    case _ =>
  }

  lemma AfterOk(s: Stage, b: seq<bool>)
    requires StageOk(s) && !Stopped(s) && !s.Output? && |b| == Need(s)
    ensures StageOk(After(s, b))
  {
    hide AfterBits, AfterMap, AfterLengths, AfterBytes, StageOk, Need;
    if s.Coded? {
      CodedOk(s, b);
    } else if MapStage(s) {
      MapOk(s, b);
    } else if LengthStage(s) {
      LengthStepOk(s, b);
    } else {
      BytesOk(s, b);
    }
  }

  // ---- Runs ----

  /** Where a run stops, the bits it leaves and the data of the blocks it finished. */
  datatype Result = Result(stage: Stage, rest: seq<bool>, out: seq<int>)

  function Prefixed(out: seq<int>, r: Result): Result { Result(r.stage, r.rest, out + r.out) }

  lemma {:induction false} ExpandBytes(b: seq<int>)
    requires IsBytes(b)
    ensures IsBytes(Expand(b).out) && 0 <= Expand(b).ch < 256
  {
    if |b| > 0 { ExpandBytes(b[..|b| - 1]); }
  }

  /** What showing a block and comparing its checksum leads to. */
  ghost function Shown(h: Head, b: seq<int>, table: CrcTable): (r: (Stage, seq<int>))
    requires IsBytes(b)
  {
    ExpandBytes(b);
    var e := Expand(b);
    if e.cnt == 4 || Final(Over(table, INITIAL, e.out)) != h.crc then (Halted(BadData), [])
    else (Start(h.bs, Combine(h.combined, Final(Over(table, INITIAL, e.out))), 0), e.out)
  }

  /** All that the bits lead to from stage s on. */
  ghost function Decode(table: CrcTable, s: Stage, bits: seq<bool>): Result
    requires StageOk(s)
    decreases |bits|, if s.Output? then 1 else 0
  {
    if s.Output? then
      var (next, data) := Shown(s.h, s.b, table);
      Prefixed(data, Decode(table, next, bits))
    else if Stopped(s) || |bits| < Need(s) then Result(s, bits, [])
    else
      AfterOk(s, bits[..Need(s)]);
      Decode(table, After(s, bits[..Need(s)]), bits[Need(s)..])
  }

  /** One field. */
  lemma DecodeStep(table: CrcTable, s: Stage, b: seq<bool>, rest: seq<bool>)
    requires StageOk(s) && !Stopped(s) && !s.Output? && |b| == Need(s)
    ensures StageOk(After(s, b)) && Decode(table, s, b + rest) == Decode(table, After(s, b), rest)
  {
    hide After, Need, StageOk;
    AfterOk(s, b);
    assert (b + rest)[..|b|] == b && (b + rest)[|b|..] == rest;
  }

  /** A block is shown. */
  lemma DecodeOutput(table: CrcTable, h: Head, b: seq<int>, rest: seq<bool>)
    requires StageOk(Output(h, b))
    ensures IsBytes(b) && StageOk(Shown(h, b, table).0)
    ensures Decode(table, Output(h, b), rest) == Prefixed(Shown(h, b, table).1, Decode(table, Shown(h, b, table).0, rest))
  {
    hide Shown, HeadOk;
    ShownOk(Output(h, b), table);
  }

  lemma HaltedStays(table: CrcTable, why: Failure, rest: seq<bool>)
    ensures Decode(table, Halted(why), rest) == Result(Halted(why), rest, [])
  {}

  lemma PrefixedTwice(a: seq<int>, b: seq<int>, r: Result)
    ensures Prefixed(a, Prefixed(b, r)) == Prefixed(a + b, r) && Prefixed([], r) == r
  {
    assert a + (b + r.out) == (a + b) + r.out && [] + r.out == r.out;
  }

  /** The input may be cut anywhere: a run over a and b is a run over a, continued over b. */
  lemma {:induction false} DecodeSplit(table: CrcTable, s: Stage, a: seq<bool>, b: seq<bool>)
    requires StageOk(s)
    ensures var r := Decode(table, s, a); StageOk(r.stage) && Decode(table, s, a + b) == Prefixed(r.out, Decode(table, r.stage, r.rest + b))
    decreases |a|, if s.Output? then 1 else 0
  {
    hide After, Need, StageOk, Shown;
    if s.Output? {
      ShownOk(s, table);
      var (next, data) := Shown(s.h, s.b, table);
      DecodeSplit(table, next, a, b);
      var r := Decode(table, next, a);
      PrefixedTwice(data, r.out, Decode(table, r.stage, r.rest + b));
    } else if Stopped(s) || |a| < Need(s) {
      PrefixedTwice([], [], Decode(table, s, a + b));
    } else {
      var n := Need(s);
      AfterOk(s, a[..n]);
      DecodeSplit(table, After(s, a[..n]), a[n..], b);
      assert (a + b)[..n] == a[..n] && (a + b)[n..] == a[n..] + b;
    }
  }

  lemma ShownOk(s: Stage, table: CrcTable)
    requires StageOk(s) && s.Output?
    ensures IsBytes(s.b) && StageOk(Shown(s.h, s.b, table).0) && !Shown(s.h, s.b, table).0.Output?
  {
    hide Over, Expand, Combine;
  }

  /** A run goes on until it stops or wants more bits than there are. */
  lemma {:induction false} DecodeEnds(table: CrcTable, s: Stage, bits: seq<bool>)
    requires StageOk(s)
    ensures var r := Decode(table, s, bits); StageOk(r.stage) && !r.stage.Output? && (Stopped(r.stage) || |r.rest| < Need(r.stage))
    decreases |bits|, if s.Output? then 1 else 0
  {
    hide After, Need, StageOk, Shown;
    if s.Output? {
      ShownOk(s, table);
      DecodeEnds(table, Shown(s.h, s.b, table).0, bits);
    } else if !Stopped(s) && |bits| >= Need(s) {
      AfterOk(s, bits[..Need(s)]);
      DecodeEnds(table, After(s, bits[..Need(s)]), bits[Need(s)..]);
    }
  }

  /** A run that stopped is not changed by more input. */
  lemma StoppedStays(table: CrcTable, s: Stage, a: seq<bool>, b: seq<bool>)
    requires StageOk(s) && Stopped(Decode(table, s, a).stage)
    ensures Decode(table, s, a + b) == Result(Decode(table, s, a).stage, Decode(table, s, a).rest + b, Decode(table, s, a).out)
  {
    DecodeSplit(table, s, a, b);
    var r := Decode(table, s, a);
    assert r.out + [] == r.out;
  }
}

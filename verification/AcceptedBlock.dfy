/** What the decompressor takes for a block is a block: a run that reaches the end of the stream has
    read mapping table, selectors, coding tables and symbols that describe the bytes it shows. */
module AcceptedBlock {
  import opened Bits
  import opened BitStream
  import opened Rotations
  import opened MoveToFront
  import opened ByteMaps
  import opened Crc
  import opened SymbolStream
  import opened BlockFormat
  import opened DecoderMachine
  import opened BlockLanguage
  import BlockReading
  import CanonicalCode

  // ---- One field ----

  /** A run that goes on to the end of the stream takes the field its stage waits for. */
  lemma TakeField(table: CrcTable, s: Stage, bits: seq<bool>) returns (b: seq<bool>, rest: seq<bool>)
    requires StageOk(s) && !Stopped(s) && !s.Output? && Decode(table, s, bits).stage.Idle?
    ensures |b| == Need(s) && bits == b + rest && |rest| < |bits|
    ensures StageOk(After(s, b)) && !After(s, b).Halted? && Decode(table, s, bits) == Decode(table, After(s, b), rest)
  {
    hide After, StageOk;
    var n := Need(s);
    b, rest := bits[..n], bits[n..];
    AfterOk(s, b);
  }

  lemma Join3(a: seq<bool>, b: seq<bool>, c: seq<bool>, d: seq<bool>)
    ensures a + (b + c + d) == (a + b) + c + d
  {}

  // ---- The mapping table ----

  lemma {:induction false} RowsRead(table: CrcTable, h: Head, rows: seq<bool>, bits: seq<bool>) returns (all: seq<bool>, rest: seq<bool>)
    requires HeadOk(h) && |rows| < 16 && Decode(table, Rows(h, rows), bits).stage.Idle?
    ensures |all| == 16 && rows <= all && bits == all[|rows|..] + rest && StageOk(SkipRows(h, all, []))
    ensures Decode(table, Rows(h, rows), bits) == Decode(table, SkipRows(h, all, []), rest)
    decreases 16 - |rows|
  {
    hide Decode, SkipRows, HeadOk;
    var b, tail := TakeField(table, Rows(h, rows), bits);
    if |rows| == 15 {
      all, rest := rows + b, tail;
      assert all[15..] == b;
    } else {
      all, rest := RowsRead(table, h, rows + b, tail);
      assert all[|rows|..] == b + all[|rows| + 1..];
      Assoc(b, all[|rows| + 1..], rest);
    }
  }

  lemma {:induction false} UsedRead(table: CrcTable, h: Head, rows: seq<bool>, u: seq<bool>, bits: seq<bool>) returns (all: seq<bool>, rest: seq<bool>)
    requires HeadOk(h) && |rows| == 16 && |u| <= 256 && StageOk(SkipRows(h, rows, u)) && Decode(table, SkipRows(h, rows, u), bits).stage.Idle?
    ensures |all| == 256 && u <= all && bits == Flagged(rows, all, |u|) + rest && UsedBelow(all, 256) >= 1
    ensures forall j | |u| <= j < 256 && all[j] :: rows[j / 16]
    ensures Decode(table, SkipRows(h, rows, u), bits) == Decode(table, NGroups(h, all), rest)
    decreases 256 - |u|
  {
    hide Decode, HeadOk, UsedBelow;
    if |u| == 256 {
      all, rest := u, bits;
      BlockReading.Nil(rest);
      if UsedBelow(u, 256) == 0 { HaltedStays(table, BadData, bits); }
    } else if rows[|u| / 16] {
      var b, tail := TakeField(table, Used(h, rows, u), bits);
      all, rest := UsedRead(table, h, rows, u + b, tail);
      assert [all[|u|]] == b;
      Assoc(b, Flagged(rows, all, |u| + 1), rest);
    } else {
      SkipRowsOk(h, rows, u + [false]);
      all, rest := UsedRead(table, h, rows, u + [false], bits);
      assert !all[|u|];
      BlockReading.Nil(Flagged(rows, all, |u| + 1));
    }
  }

  // ---- Selectors ----

  lemma {:induction false} SelectorsRead(table: CrcTable, h: Head, u: seq<bool>, n: nat, count: nat, moves: seq<int>, j: nat, bits: seq<bool>)
    returns (all: seq<int>, rest: seq<bool>)
    requires StageOk(Selector(h, u, n, count, moves, j)) && Decode(table, Selector(h, u, n, count, moves, j), bits).stage.Idle?
    ensures |all| == count && moves <= all && (forall k | 0 <= k < |all| :: 0 <= all[k] < n) && all[|moves|] >= j
    ensures bits == Unary(all[|moves|] - j) + UnaryFrom(all, |moves| + 1) + rest
    ensures StageOk(FirstLength(h, u, n, SelOf(all, n), []))
    ensures Decode(table, Selector(h, u, n, count, moves, j), bits) == Decode(table, FirstLength(h, u, n, SelOf(all, n), []), rest)
    decreases |bits|
  {
    hide Decode, HeadOk, UsedBelow, SelOf, Unary, UnaryFrom;
    var b, tail := TakeField(table, Selector(h, u, n, count, moves, j), bits);
    assert b == [b[0]];
    if b[0] {
      all, rest := SelectorsRead(table, h, u, n, count, moves, j + 1, tail);
      UnaryNext(all[|moves|] - j);
      Join3([true], Unary(all[|moves|] - j - 1), UnaryFrom(all, |moves| + 1), rest);
    } else if |moves| + 1 < count {
      all, rest := SelectorsRead(table, h, u, n, count, moves + [j], 0, tail);
      UnaryFromNext(all, |moves| + 1);
      assert all[|moves|] == j;
      UnaryNext(0);
      Assoc([false], Unary(all[|moves| + 1]) + UnaryFrom(all, |moves| + 2), rest);
    } else {
      all, rest := moves + [j], tail;
      UnaryFromNext(all, |moves| + 1);
      UnaryNext(0);
      NoMore([false]);
    }
  }

  // ---- Coding tables ----

  lemma {:induction false} StepsRead(table: CrcTable, h: Head, u: seq<bool>, n: nat, sel: seq<int>, lens: seq<seq<int>>, len: seq<int>, curr: int, bits: seq<bool>)
    returns (path: seq<bool>, more: seq<int>, rest: seq<bool>)
    requires StageOk(Step(h, u, n, sel, lens, len, curr)) && Decode(table, Step(h, u, n, sel, lens, len, curr), bits).stage.Idle?
    ensures |more| >= 1 && |len| + |more| == AlphaSize(u) && Spells(path, curr, more) && bits == path + rest && |rest| < |bits|
    ensures StageOk(AfterTable(h, u, n, sel, lens + [len + more]))
    ensures Decode(table, Step(h, u, n, sel, lens, len, curr), bits) == Decode(table, AfterTable(h, u, n, sel, lens + [len + more]), rest)
    decreases |bits|
  {
    hide Decode, HeadOk, UsedBelow;
    var b, tail := TakeField(table, Step(h, u, n, sel, lens, len, curr), bits);
    assert b == [b[0]];
    if b[0] {
      var c, tail' := TakeField(table, Sign(h, u, n, sel, lens, len, curr), tail);
      assert c == [c[0]];
      var next := if c[0] then curr - 1 else curr + 1;
      path, more, rest := StepsRead(table, h, u, n, sel, lens, len, next, tail');
      StepSpells(b, c, path, next, more, rest);
      path := (b + c) + path;
    } else if |len| + 1 < AlphaSize(u) {
      path, more, rest := StepsRead(table, h, u, n, sel, lens, len + [curr], curr, tail);
      LengthSpells(b, path, curr, more, rest);
      assert len + ([curr] + more) == (len + [curr]) + more;
      path, more := b + path, [curr] + more;
    } else {
      path, more, rest := b, [curr], tail;
      assert more[1..] == [] && path[1..] == [];
    }
  }

  lemma StepSpells(b: seq<bool>, c: seq<bool>, path: seq<bool>, next: int, more: seq<int>, rest: seq<bool>)
    requires b == [true] && |c| == 1 && 1 <= next <= 20 && |more| >= 1 && Spells(path, next, more)
    ensures Spells((b + c) + path, if c[0] then next + 1 else next - 1, more)
    ensures ((b + c) + path) + rest == b + (c + (path + rest))
  {
    var p := (b + c) + path;
    assert p[2..] == path && p[0] && p[1] == c[0];
  }

  lemma LengthSpells(b: seq<bool>, path: seq<bool>, curr: int, more: seq<int>, rest: seq<bool>)
    requires b == [false] && Spells(path, curr, more)
    ensures Spells(b + path, curr, [curr] + more) && (b + path) + rest == b + (path + rest)
  {
    assert (b + path)[1..] == path && ([curr] + more)[1..] == more;
  }

  lemma {:induction false} TablesRead(table: CrcTable, h: Head, u: seq<bool>, n: nat, sel: seq<int>, lens: seq<seq<int>>, bits: seq<bool>)
    returns (ts: seq<Table>, rest: seq<bool>)
    requires StageOk(FirstLength(h, u, n, sel, lens)) && Decode(table, FirstLength(h, u, n, sel, lens), bits).stage.Idle?
    ensures |lens| + |ts| == n && (forall t | 0 <= t < |ts| :: TableOk(ts[t], AlphaSize(u))) && bits == TablesBits(ts) + rest
    ensures StageOk(NextSymbol(h, Code(u, lens + LensOf(ts), sel), []))
    ensures Decode(table, FirstLength(h, u, n, sel, lens), bits) == Decode(table, NextSymbol(h, Code(u, lens + LensOf(ts), sel), []), rest)
    decreases n - |lens|
  {
    hide Decode, HeadOk, UsedBelow, Spells, Field, Value;
    var b, tail := TakeField(table, FirstLength(h, u, n, sel, lens), bits);
    FieldOfValue(b);
    var path, len, rest1 := StepsRead(table, h, u, n, sel, lens, [], Value(b), tail);
    assert [] + len == len;
    var t := Table(Value(b), path, len);
    Assoc(b, path, rest1);
    var lens1 := lens + [len];
    if |lens1| == n {
      ts, rest := [t], rest1;
      OneTable(t, lens);
    } else {
      var more;
      more, rest := TablesRead(table, h, u, n, sel, lens1, rest1);
      ts := [t] + more;
      MoreTables(t, more, lens);
      Assoc(b + path, TablesBits(more), rest);
    }
  }

  lemma OneTable(t: Table, lens: seq<seq<int>>)
    ensures TablesBits([t]) == Field(t.start, 5) + t.path && lens + LensOf([t]) == lens + [t.len]
  {
    assert [t][1..] == [];
    NoMore(Field(t.start, 5) + t.path);
  }

  lemma MoreTables(t: Table, more: seq<Table>, lens: seq<seq<int>>)
    ensures TablesBits([t] + more) == (Field(t.start, 5) + t.path) + TablesBits(more)
    ensures (lens + [t.len]) + LensOf(more) == lens + LensOf([t] + more)
  {
    assert ([t] + more)[1..] == more;
    assert LensOf([t] + more) == [t.len] + LensOf(more);
  }

  // ---- Symbols ----

  /** The bits are not yet a code, however few of them are taken. */
  ghost predicate NoneYet(L: seq<int>, bits: seq<bool>) {
    bits == [] || (NoneBefore(L, bits) && CanonicalCode.Lookup(L, bits, |L|) == -1)
  }

  lemma NextBits(L: seq<int>, code: seq<bool>, b: seq<bool>)
    requires NoneYet(L, code) && |b| == (if code == [] then CanonicalCode.Shortest(L, |L|) else 1)
    ensures NoneBefore(L, code + b)
  {
    hide CanonicalCode.Code, Value;
    var c := code + b;
    forall k, i | 0 <= k < |c| ensures !IsCode(L, c[..k], i) {
      if k <= |code| { assert c[..k] == code[..k]; }
      if k == |code| { assert c[..k] == code; }
    }
  }

  lemma {:induction false} CodeTaken(table: CrcTable, h: Head, c: DecoderMachine.Code, syms: seq<int>, code: seq<bool>, bits: seq<bool>)
    returns (more: seq<bool>, x: int, rest: seq<bool>)
    requires StageOk(Coded(h, c, syms, code)) && Decode(table, Coded(h, c, syms, code), bits).stage.Idle?
    requires NoneYet(DecoderMachine.Lengths(c, syms), code)
    ensures bits == more + rest && |rest| < |bits| && Codes(DecoderMachine.Lengths(c, syms), code + more, x)
    ensures |c.u| == 256 && Readable(syms, 256) && StageOk(TakeSymbol(h, c, syms, x))
    ensures Decode(table, Coded(h, c, syms, code), bits) == Decode(table, TakeSymbol(h, c, syms, x), rest)
    decreases |bits|
  {
    hide Decode, HeadOk, UsedBelow, TakeSymbol, CanonicalCode.Code, CodeOk, Value, NoneBefore;
    CodeShape(c);
    var s := Coded(h, c, syms, code);
    var L := DecoderMachine.Lengths(c, syms);
    var b, tail := TakeField(table, s, bits);
    NextBits(L, code, b);
    x := CanonicalCode.Lookup(L, code + b, |L|);
    if x != -1 {
      TakeSymbolOk(h, c, syms, x);
      more, rest := b, tail;
    } else {
      more, x, rest := CodeTaken(table, h, c, syms, code + b, tail);
      Assoc(b, more, rest);
      Assoc(code, b, more);
      more := b + more;
    }
  }

  /** The symbols from place |syms| on, with their codes. */
  ghost predicate Tail(c: DecoderMachine.Code, syms: seq<int>, all: seq<int>, codes: seq<seq<bool>>)
    requires |c.u| == 256
  {
    var m := |all| - 1;
    && |syms| <= m < G_SIZE * |c.sel| && syms == all[..|syms|] && |codes| == |all| - |syms| && all[m] == AlphaSize(c.u) - 1
    && Readable(all[..m], 256) && (forall k | 0 <= k < |c.sel| :: 0 <= c.sel[k] < |c.lens|)
    && (forall k | |syms| <= k <= m :: Codes(c.lens[c.sel[k / G_SIZE]], codes[k - |syms|], all[k]))
    && forall k | |syms| <= k < m :: Readable(all[..k], 256) && BeforeEnd(all, k, AlphaSize(c.u))
  }

  /** What a symbol that is not refused leads to. */
  lemma SymbolTaken(h: Head, c: DecoderMachine.Code, syms: seq<int>, x: int)
    requires |c.u| == 256 && Readable(syms, 256) && 0 <= x < AlphaSize(c.u) && UsedBelow(c.u, 256) >= 1
    requires !TakeSymbol(h, c, syms, x).Halted?
    ensures x == AlphaSize(c.u) - 1 ==> TakeSymbol(h, c, syms, x) == EndOfBlock(h, c, syms)
    ensures x != AlphaSize(c.u) - 1 ==> TakeSymbol(h, c, syms, x) == Coded(h, c, syms + [x], []) && |syms| + 1 < G_SIZE * |c.sel|
    ensures x != AlphaSize(c.u) - 1 ==> (syms + [x])[..|syms|] == syms && BeforeEnd(syms + [x], |syms|, AlphaSize(c.u))
  {
    hide Meaning, EndOfBlock, UsedBelow;
    assert (syms + [x])[..|syms|] == syms;
  }

  lemma TailOne(c: DecoderMachine.Code, syms: seq<int>, code: seq<bool>, x: int)
    requires |c.u| == 256 && Readable(syms, 256) && |syms| < G_SIZE * |c.sel| && x == AlphaSize(c.u) - 1
    requires (forall k | 0 <= k < |c.sel| :: 0 <= c.sel[k] < |c.lens|) && Codes(DecoderMachine.Lengths(c, syms), code, x)
    ensures Tail(c, syms, syms + [x], [code]) && Concat([code]) == code && (syms + [x])[..|syms|] == syms
  {
    hide UsedBelow, Codes;
    assert (syms + [x])[..|syms|] == syms;
    assert [code][1..] == [];
    NoMore(code);
  }

  lemma TailMore(c: DecoderMachine.Code, syms: seq<int>, code: seq<bool>, x: int, all: seq<int>, codes: seq<seq<bool>>)
    requires |c.u| == 256 && Tail(c, syms + [x], all, codes) && |syms| < G_SIZE * |c.sel| && Codes(DecoderMachine.Lengths(c, syms), code, x)
    requires (syms + [x])[..|syms|] == syms && Readable(syms, 256) && BeforeEnd(syms + [x], |syms|, AlphaSize(c.u))
    ensures Tail(c, syms, all, [code] + codes) && Concat([code] + codes) == code + Concat(codes)
  {
    hide UsedBelow, Codes, Meaning;
    var j := |syms|;
    assert ([code] + codes)[1..] == codes;
    assert all[..j] == (syms + [x])[..j] && all[j] == (syms + [x])[j];
    assert BeforeEnd(all, j, AlphaSize(c.u));
    forall k | j <= k < |all| ensures Codes(c.lens[c.sel[k / G_SIZE]], ([code] + codes)[k - j], all[k]) {
      if k > j { assert ([code] + codes)[k - j] == codes[k - j - 1]; }
    }
  }

  lemma {:induction false} SymbolsRead(table: CrcTable, h: Head, c: DecoderMachine.Code, syms: seq<int>, bits: seq<bool>)
    returns (codes: seq<seq<bool>>, all: seq<int>, rest: seq<bool>)
    requires StageOk(Coded(h, c, syms, [])) && Decode(table, Coded(h, c, syms, []), bits).stage.Idle?
    ensures |c.u| == 256 && Tail(c, syms, all, codes) && bits == Concat(codes) + rest && |rest| < |bits|
    ensures StageOk(EndOfBlock(h, c, all[..|all| - 1]))
    ensures Decode(table, Coded(h, c, syms, []), bits) == Decode(table, EndOfBlock(h, c, all[..|all| - 1]), rest)
    decreases |bits|
  {
    hide Decode, HeadOk, UsedBelow, TakeSymbol, EndOfBlock, CodeOk, Codes, Tail, Concat, BeforeEnd;
    CodeShape(c);
    CodedShape(h, c, syms);
    var code, x, tail := CodeTaken(table, h, c, syms, [], bits);
    BlockReading.Nil(code);
    CodesRange(DecoderMachine.Lengths(c, syms), code, x);
    if TakeSymbol(h, c, syms, x).Halted? { HaltedStays(table, TakeSymbol(h, c, syms, x).why, tail); }
    SymbolTaken(h, c, syms, x);
    if x == AlphaSize(c.u) - 1 {
      codes, all, rest := [code], syms + [x], tail;
      TailOne(c, syms, code, x);
    } else {
      var more;
      more, all, rest := SymbolsRead(table, h, c, syms + [x], tail);
      TailMore(c, syms, code, x, all, more);
      codes := [code] + more;
      Assoc(code, Concat(more), rest);
    }
  }

  lemma CodedShape(h: Head, c: DecoderMachine.Code, syms: seq<int>)
    requires StageOk(Coded(h, c, syms, []))
    ensures CodeOk(c) && |syms| < G_SIZE * |c.sel| && |c.u| == 256 && Readable(syms, 256)
  {
    hide UsedBelow;
  }

  lemma CodesRange(L: seq<int>, code: seq<bool>, x: int)
    requires Codes(L, code, x)
    ensures 0 <= x < |L|
  {}

  // ---- A whole block ----

  lemma TailIsSymbols(c: DecoderMachine.Code, all: seq<int>, codes: seq<seq<bool>>)
    requires |c.u| == 256 && Tail(c, [], all, codes)
    ensures SymbolsOk(c.lens, c.sel, codes, all, AlphaSize(c.u))
  {
    hide UsedBelow, Codes, Meaning;
  }

  /** The end of a block that is not refused. */
  lemma EndRead(h: Head, c: DecoderMachine.Code, syms: seq<int>)
    requires |c.u| == 256 && Readable(syms, 256) && !EndOfBlock(h, c, syms).Halted?
    ensures var col := ColumnOf(c.u, syms);
            IsBytes(col) && h.origPtr < |col| <= 100000 * h.bs && EndOfBlock(h, c, syms) == Output(h, BlockBytes(col, h.origPtr))
  {
    hide ColumnOf, BlockBytes;
  }

  lemma MapRead(table: CrcTable, h: Head, bits: seq<bool>) returns (rows: seq<bool>, u: seq<bool>, rest: seq<bool>)
    requires HeadOk(h) && Decode(table, Rows(h, []), bits).stage.Idle?
    ensures |rows| == 16 && MappingOk(rows, u) && UseOk(u) && bits == rows + (Flagged(rows, u, 0) + rest)
    ensures Decode(table, Rows(h, []), bits) == Decode(table, NGroups(h, u), rest)
  {
    hide Decode, HeadOk, UsedBelow, SkipRows, Flagged;
    var r;
    rows, r := RowsRead(table, h, [], bits);
    assert rows[0..] == rows;
    u, rest := UsedRead(table, h, rows, [], r);
  }

  /** The numbers of tables and of selectors. */
  lemma NumbersRead(table: CrcTable, h: Head, u: seq<bool>, bits: seq<bool>) returns (n: nat, count: nat, rest: seq<bool>)
    requires HeadOk(h) && UseOk(u) && Decode(table, NGroups(h, u), bits).stage.Idle?
    ensures 2 <= n <= 6 && 1 <= count < 0x8000 && bits == Field(n, 3) + (Field(count, 15) + rest)
    ensures Decode(table, NGroups(h, u), bits) == Decode(table, Selector(h, u, n, count, [], 0), rest)
  {
    hide Decode, HeadOk, UsedBelow, Field, Value;
    var a, r := TakeField(table, NGroups(h, u), bits);
    n := Value(a);
    FieldOfValue(a);
    var b;
    b, rest := TakeField(table, NSelectors(h, u, n), r);
    count := Value(b);
    FieldOfValue(b);
    ValueBound(b);
    Powers();
  }

  /** Selectors and coding tables. */
  lemma CodingRead(table: CrcTable, h: Head, u: seq<bool>, bits: seq<bool>) returns (moves: seq<int>, ts: seq<Table>, rest: seq<bool>)
    requires HeadOk(h) && UseOk(u) && Decode(table, NGroups(h, u), bits).stage.Idle?
    ensures MovesOk(moves, |ts|) && forall t | 0 <= t < |ts| :: TableOk(ts[t], AlphaSize(u))
    ensures bits == Field(|ts|, 3) + (Field(|moves|, 15) + (UnaryFrom(moves, 0) + (TablesBits(ts) + rest)))
    ensures StageOk(NextSymbol(h, DecoderMachine.Code(u, LensOf(ts), SelOf(moves, |ts|)), []))
    ensures Decode(table, NGroups(h, u), bits) == Decode(table, NextSymbol(h, DecoderMachine.Code(u, LensOf(ts), SelOf(moves, |ts|)), []), rest)
  {
    hide Decode, HeadOk, UsedBelow, Field, UnaryFrom, TablesBits, SelOf, TableOk, NextSymbol;
    var n, count, r1 := NumbersRead(table, h, u, bits);
    var r2;
    moves, r2 := SelectorsRead(table, h, u, n, count, [], 0, r1);
    UnaryFromNext(moves, 0);
    ts, rest := TablesRead(table, h, u, n, SelOf(moves, n), [], r2);
    assert [] + LensOf(ts) == LensOf(ts);
    Assoc(UnaryFrom(moves, 0), TablesBits(ts), rest);
  }

  lemma FirstSymbol(h: Head, c: DecoderMachine.Code, table: CrcTable, bits: seq<bool>)
    requires StageOk(NextSymbol(h, c, [])) && Decode(table, NextSymbol(h, c, []), bits).stage.Idle?
    ensures NextSymbol(h, c, []) == Coded(h, c, [], [])
  {
    hide Decode;
    if NextSymbol(h, c, []).Halted? { HaltedStays(table, BadData, bits); }
  }

  /** From the mapping table to the end of the block. */
  lemma BodyRead(table: CrcTable, h: Head, bits: seq<bool>) returns (b: Body, rest: seq<bool>)
    requires HeadOk(h) && Decode(table, Rows(h, []), bits).stage.Idle?
    ensures BodyOk(b) && bits == BodyBits(b) + rest && |rest| <= |bits|
    ensures h.origPtr < |BodyColumn(b)| <= 100000 * h.bs && StageOk(Output(h, BlockBytes(BodyColumn(b), h.origPtr)))
    ensures Decode(table, Rows(h, []), bits) == Decode(table, Output(h, BlockBytes(BodyColumn(b), h.origPtr)), rest)
  {
    hide *;
    var rows, u, r1 := MapRead(table, h, bits);
    var moves, ts, r2 := CodingRead(table, h, u, r1);
    var c := DecoderMachine.Code(u, LensOf(ts), SelOf(moves, |ts|)) by { MovesRange(moves, |ts|); }
    FirstSymbol(h, c, table, r2);
    var codes, all;
    codes, all, rest := SymbolsRead(table, h, c, [], r2);
    TailIsSymbols(c, all, codes);
    b := Body(rows, u, moves, ts, codes, all);
    BodyIs(b);
    EndNotHalted(table, h, c, all, rest);
    Gather(bits, rows, Flagged(rows, u, 0), Field(|ts|, 3), Field(|moves|, 15), UnaryFrom(moves, 0), TablesBits(ts), Concat(codes), rest);
  }

  lemma MovesRange(moves: seq<int>, n: nat)
    requires MovesOk(moves, n)
    ensures forall k | 0 <= k < |moves| :: 0 <= moves[k] < n
  {}

  lemma BodyIs(b: Body)
    requires MappingOk(b.rows, b.u) && MovesOk(b.moves, |b.tables|) && forall t | 0 <= t < |b.tables| :: TableOk(b.tables[t], AlphaSize(b.u))
    requires SymbolsOk(LensOf(b.tables), SelOf(b.moves, |b.tables|), b.codes, b.syms, AlphaSize(b.u))
    ensures BodyOk(b) && |b.syms| > 0 && Readable(b.syms[..|b.syms| - 1], 256) && BodyColumn(b) == ColumnOf(b.u, b.syms[..|b.syms| - 1])
    ensures BodyBits(b) == b.rows + (Flagged(b.rows, b.u, 0) + (Field(|b.tables|, 3) + (Field(|b.moves|, 15)
                           + (UnaryFrom(b.moves, 0) + (TablesBits(b.tables) + Concat(b.codes))))))
  {
    hide UsedBelow, TableOk, ColumnOf, SelOf, Codes;
  }

  lemma EndNotHalted(table: CrcTable, h: Head, c: DecoderMachine.Code, all: seq<int>, rest: seq<bool>)
    requires |c.u| == 256 && |all| > 0 && Readable(all[..|all| - 1], 256) && StageOk(EndOfBlock(h, c, all[..|all| - 1]))
    requires Decode(table, EndOfBlock(h, c, all[..|all| - 1]), rest).stage.Idle?
    ensures var col := ColumnOf(c.u, all[..|all| - 1]);
            IsBytes(col) && h.origPtr < |col| <= 100000 * h.bs && EndOfBlock(h, c, all[..|all| - 1]) == Output(h, BlockBytes(col, h.origPtr))
  {
    hide ColumnOf, BlockBytes, Decode, EndOfBlock;
    var s := EndOfBlock(h, c, all[..|all| - 1]);
    if s.Halted? { HaltedStays(table, s.why, rest); }
    EndRead(h, c, all[..|all| - 1]);
  }

  lemma Gather(bits: seq<bool>, a: seq<bool>, b: seq<bool>, c: seq<bool>, d: seq<bool>, e: seq<bool>, f: seq<bool>, g: seq<bool>, rest: seq<bool>)
    requires bits == a + (b + (c + (d + (e + (f + (g + rest))))))
    ensures bits == (a + (b + (c + (d + (e + (f + g)))))) + rest
  {}
}

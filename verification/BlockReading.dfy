/** Every block of the language is read: its bits lead the decompressor from the mapping table to
    the bytes they describe, whatever follows them. */
module BlockReading {
  import opened Bits
  import opened BitStream
  import opened Rotations
  import opened MoveToFront
  import opened ByteMaps
  import opened Crc
  import opened SymbolStream
  import opened BlockFormat
  import opened DecoderMachine
  import opened BlockLanguage
  import CanonicalCode

  /** A field of the width the stage waits for. */
  lemma RunField(table: CrcTable, s: Stage, v: nat, n: nat, rest: seq<bool>)
    requires StageOk(s) && !Stopped(s) && !s.Output? && n == Need(s) && v < Pow2(n)
    ensures Value(Field(v, n)) == v && StageOk(After(s, Field(v, n)))
    ensures Decode(table, s, Field(v, n) + rest) == Decode(table, After(s, Field(v, n)), rest)
  {
    hide After, StageOk, Need, Field, Value;
    ValueOfField(v, n);
    CanonicalCode.SmallMod(v, Pow2(n));
    DecodeStep(table, s, Field(v, n), rest);
  }

  lemma Nil(a: seq<bool>)
    ensures [] + a == a
  {}

  // ---- The mapping table ----

  lemma {:induction false} RowsRun(table: CrcTable, h: Head, rows: seq<bool>, i: nat, rest: seq<bool>)
    requires HeadOk(h) && |rows| == 16 && i < 16
    ensures StageOk(SkipRows(h, rows, []))
    ensures Decode(table, Rows(h, rows[..i]), rows[i..] + rest) == Decode(table, SkipRows(h, rows, []), rest)
    decreases 16 - i
  {
    hide Decode, HeadOk, SkipRows;
    SkipRowsOk(h, rows, []);
    assert rows[..i] + [rows[i]] == rows[..i + 1] && rows[i..] + rest == [rows[i]] + (rows[i + 1..] + rest);
    DecodeStep(table, Rows(h, rows[..i]), [rows[i]], rows[i + 1..] + rest);
    if i < 15 {
      RowsRun(table, h, rows, i + 1, rest);
    } else {
      assert rows[..16] == rows;
      Nil(rest);
    }
  }

  lemma FlaggedNext(rows: seq<bool>, u: seq<bool>, k: nat, rest: seq<bool>)
    requires MappingOk(rows, u) && k < 256
    ensures u[..k] + [u[k]] == u[..k + 1] && (!rows[k / 16] ==> !u[k])
    ensures Flagged(rows, u, k) + rest == if rows[k / 16] then [u[k]] + (Flagged(rows, u, k + 1) + rest) else Flagged(rows, u, k + 1) + rest
  {
    hide UsedBelow;
    if rows[k / 16] { Assoc([u[k]], Flagged(rows, u, k + 1), rest); } else { Nil(Flagged(rows, u, k + 1)); }
  }

  lemma FlaggedNone(rows: seq<bool>, u: seq<bool>, rest: seq<bool>)
    requires MappingOk(rows, u)
    ensures u[..256] == u && Flagged(rows, u, 256) + rest == rest
  {
    Nil(rest);
  }

  lemma SkipNext(h: Head, rows: seq<bool>, u: seq<bool>)
    requires |rows| == 16 && |u| <= 256
    ensures |u| == 256 && UsedBelow(u, 256) >= 1 ==> SkipRows(h, rows, u) == NGroups(h, u)
    ensures |u| < 256 ==> SkipRows(h, rows, u) == if rows[|u| / 16] then Used(h, rows, u) else SkipRows(h, rows, u + [false])
  {}

  lemma UsedStep(h: Head, rows: seq<bool>, u: seq<bool>, b: bool)
    requires HeadOk(h) && |rows| == 16 && |u| < 256 && rows[|u| / 16]
    ensures StageOk(Used(h, rows, u)) && Need(Used(h, rows, u)) == 1 && After(Used(h, rows, u), [b]) == SkipRows(h, rows, u + [b])
  {}

  lemma {:induction false} UsedRun(table: CrcTable, h: Head, rows: seq<bool>, u: seq<bool>, k: nat, rest: seq<bool>)
    requires HeadOk(h) && MappingOk(rows, u) && UseOk(u) && k <= 256
    ensures StageOk(SkipRows(h, rows, u[..k]))
    ensures Decode(table, SkipRows(h, rows, u[..k]), Flagged(rows, u, k) + rest) == Decode(table, NGroups(h, u), rest)
    decreases 256 - k
  {
    hide Decode, HeadOk, UsedBelow, SkipRows, After, StageOk, Need, Flagged;
    SkipRowsOk(h, rows, u[..k]);
    SkipNext(h, rows, u[..k]);
    if k == 256 {
      FlaggedNone(rows, u, rest);
    } else {
      UsedRun(table, h, rows, u, k + 1, rest);
      FlaggedNext(rows, u, k, rest);
      if rows[k / 16] {
        UsedStep(h, rows, u[..k], u[k]);
        DecodeStep(table, Used(h, rows, u[..k]), [u[k]], Flagged(rows, u, k + 1) + rest);
      }
    }
  }

  lemma MapRun(table: CrcTable, h: Head, rows: seq<bool>, u: seq<bool>, rest: seq<bool>)
    requires HeadOk(h) && MappingOk(rows, u) && UseOk(u)
    ensures Decode(table, Rows(h, []), rows + (Flagged(rows, u, 0) + rest)) == Decode(table, NGroups(h, u), rest)
  {
    hide Decode, SkipRows, UsedBelow, HeadOk, Flagged;
    assert rows[..0] == [] && rows[0..] == rows && u[..0] == [];
    RowsRun(table, h, rows, 0, Flagged(rows, u, 0) + rest);
    UsedRun(table, h, rows, u, 0, rest);
  }

  /** The numbers of tables and selectors. */
  lemma NumbersRun(table: CrcTable, h: Head, u: seq<bool>, n: nat, count: nat, rest: seq<bool>)
    requires HeadOk(h) && UseOk(u) && 2 <= n <= 6 && 1 <= count < 0x8000
    ensures Decode(table, NGroups(h, u), Field(n, 3) + (Field(count, 15) + rest)) == Decode(table, Selector(h, u, n, count, [], 0), rest)
  {
    hide Decode, Field, Value, UsedBelow, HeadOk;
    Powers();
    RunField(table, NGroups(h, u), n, 3, Field(count, 15) + rest);
    RunField(table, NSelectors(h, u, n), count, 15, rest);
  }

  // ---- Selectors ----

  /** One more selector. */
  ghost function NextSelector(h: Head, u: seq<bool>, n: nat, count: nat, moves: seq<int>): Stage
    requires forall k | 0 <= k < |moves| :: 0 <= moves[k] < n
  {
    if |moves| < count then Selector(h, u, n, count, moves, 0) else FirstLength(h, u, n, SelOf(moves, n), [])
  }

  lemma {:induction false} UnaryRun(table: CrcTable, h: Head, u: seq<bool>, n: nat, count: nat, moves: seq<int>, j: nat, m: nat, rest: seq<bool>)
    requires StageOk(Selector(h, u, n, count, moves, j)) && j <= m < n
    ensures StageOk(NextSelector(h, u, n, count, moves + [m]))
    ensures Decode(table, Selector(h, u, n, count, moves, j), Unary(m - j) + rest) == Decode(table, NextSelector(h, u, n, count, moves + [m]), rest)
    decreases m - j
  {
    hide Decode, HeadOk, UsedBelow, SelOf;
    var s := Selector(h, u, n, count, moves, j);
    if |moves| + 1 == count { SelOfOk(moves + [m], n); }
    UnaryNext(m - j);
    if j < m {
      UnaryRun(table, h, u, n, count, moves, j + 1, m, rest);
      Assoc([true], Unary(m - j - 1), rest);
      DecodeStep(table, s, [true], Unary(m - j - 1) + rest);
    } else {
      DecodeStep(table, s, [false], rest);
    }
  }

  lemma {:induction false} SelectorsRun(table: CrcTable, h: Head, u: seq<bool>, n: nat, m: seq<int>, i: nat, rest: seq<bool>)
    requires HeadOk(h) && UseOk(u) && 2 <= n <= 6 && i < |m| && forall k | 0 <= k < |m| :: 0 <= m[k] < n
    ensures StageOk(FirstLength(h, u, n, SelOf(m, n), []))
    ensures Decode(table, Selector(h, u, n, |m|, m[..i], 0), UnaryFrom(m, i) + rest) == Decode(table, FirstLength(h, u, n, SelOf(m, n), []), rest)
    decreases |m| - i
  {
    hide Decode, HeadOk, UsedBelow, SelOf, Unary, UnaryFrom;
    SelOfOk(m, n);
    UnaryFromNext(m, i);
    Assoc(Unary(m[i]), UnaryFrom(m, i + 1), rest);
    assert m[..i] + [m[i]] == m[..i + 1];
    UnaryRun(table, h, u, n, |m|, m[..i], 0, m[i], UnaryFrom(m, i + 1) + rest);
    if i + 1 < |m| {
      SelectorsRun(table, h, u, n, m, i + 1, rest);
    } else {
      UnaryFromNext(m, i + 1);
      assert [] + rest == rest && m[..i + 1] == m;
    }
  }

  // ---- Coding tables ----

  /** One step up or down. */
  lemma SignRun(table: CrcTable, s: Stage, up: bool, next: int, rest: seq<bool>)
    requires StageOk(s) && s.Step? && 1 <= next <= 20 && next == if up then s.curr + 1 else s.curr - 1
    ensures StageOk(Step(s.h, s.u, s.n, s.sel, s.lens, s.len, next))
    ensures Decode(table, s, [true] + ([!up] + rest)) == Decode(table, Step(s.h, s.u, s.n, s.sel, s.lens, s.len, next), rest)
  {
    hide Decode, HeadOk, UsedBelow, SelOk, LensOk, LenOk;
    DecodeStep(table, s, [true], [!up] + rest);
    DecodeStep(table, Sign(s.h, s.u, s.n, s.sel, s.lens, s.len, s.curr), [!up], rest);
  }

  lemma {:induction false} PathRun(table: CrcTable, h: Head, u: seq<bool>, n: nat, sel: seq<int>, lens: seq<seq<int>>, len: seq<int>,
                                   curr: int, path: seq<bool>, more: seq<int>, rest: seq<bool>)
    requires StageOk(Step(h, u, n, sel, lens, len, curr)) && |more| >= 1 && |len| + |more| == AlphaSize(u) && Spells(path, curr, more)
    ensures StageOk(AfterTable(h, u, n, sel, lens + [len + more]))
    ensures Decode(table, Step(h, u, n, sel, lens, len, curr), path + rest) == Decode(table, AfterTable(h, u, n, sel, lens + [len + more]), rest)
    decreases |path|
  {
    hide Decode, HeadOk, UsedBelow, SelOk;
    var s := Step(h, u, n, sel, lens, len, curr);
    if path[0] {
      var next := if path[1] then curr - 1 else curr + 1;
      PathRun(table, h, u, n, sel, lens, len, next, path[2..], more, rest);
      TwoBits(path, rest);
      SignRun(table, s, !path[1], next, path[2..] + rest);
    } else {
      OneBitMore(path, rest);
      DecodeStep(table, s, [false], path[1..] + rest);
      if |more| == 1 {
        assert path[1..] == [] && more == [curr];
        Nil(rest);
      } else {
        PathRun(table, h, u, n, sel, lens, len + [curr], curr, path[1..], more[1..], rest);
        assert (len + [curr]) + more[1..] == len + more;
      }
    }
  }

  lemma TwoBits(path: seq<bool>, rest: seq<bool>)
    requires |path| >= 2 && path[0]
    ensures path + rest == [true] + ([path[1]] + (path[2..] + rest))
  {}

  lemma OneBitMore(path: seq<bool>, rest: seq<bool>)
    requires |path| >= 1 && !path[0]
    ensures path + rest == [false] + (path[1..] + rest)
  {}

  lemma TablesNext(ts: seq<Table>, lens: seq<seq<int>>, rest: seq<bool>)
    requires |ts| >= 1
    ensures TablesBits(ts) + rest == Field(ts[0].start, 5) + (ts[0].path + (TablesBits(ts[1..]) + rest))
    ensures (lens + [ts[0].len]) + LensOf(ts[1..]) == lens + LensOf(ts)
    ensures |ts| == 1 ==> TablesBits(ts[1..]) + rest == rest && lens + LensOf(ts) == lens + [ts[0].len]
  {
    hide LensOf, Field;
    Assoc(Field(ts[0].start, 5) + ts[0].path, TablesBits(ts[1..]), rest);
    Assoc(Field(ts[0].start, 5), ts[0].path, TablesBits(ts[1..]) + rest);
    LensNext(ts);
    Assoc3(lens, [ts[0].len], LensOf(ts[1..]));
    if |ts| == 1 { Nil(rest); }
  }

  lemma Assoc3(a: seq<seq<int>>, b: seq<seq<int>>, c: seq<seq<int>>)
    ensures (a + b) + c == a + (b + c)
  {}

  lemma LensNext(ts: seq<Table>)
    requires |ts| >= 1
    ensures LensOf(ts) == [ts[0].len] + LensOf(ts[1..]) && (|ts| == 1 ==> LensOf(ts) == [ts[0].len])
  {}

  lemma {:induction false} TablesRun(table: CrcTable, h: Head, u: seq<bool>, sel: seq<int>, lens: seq<seq<int>>, ts: seq<Table>, rest: seq<bool>)
    requires |ts| >= 1 && StageOk(FirstLength(h, u, |lens| + |ts|, sel, lens)) && forall t | 0 <= t < |ts| :: TableOk(ts[t], AlphaSize(u))
    ensures StageOk(NextSymbol(h, Code(u, lens + LensOf(ts), sel), []))
    ensures Decode(table, FirstLength(h, u, |lens| + |ts|, sel, lens), TablesBits(ts) + rest) == Decode(table, NextSymbol(h, Code(u, lens + LensOf(ts), sel), []), rest)
    decreases |ts|
  {
    hide Decode, HeadOk, UsedBelow, Spells, Field, Value, SelOk, TablesBits, LensOf, NextSymbol;
    var t, n := ts[0], |lens| + |ts|;
    var tail := TablesBits(ts[1..]) + rest;
    TablesNext(ts, lens, rest);
    FirstRun(table, h, u, n, sel, lens, t, tail);
    if |ts| > 1 { TablesRun(table, h, u, sel, lens + [t.len], ts[1..], rest); }
  }

  /** One table. */
  lemma FirstRun(table: CrcTable, h: Head, u: seq<bool>, n: nat, sel: seq<int>, lens: seq<seq<int>>, t: Table, rest: seq<bool>)
    requires StageOk(FirstLength(h, u, n, sel, lens)) && TableOk(t, AlphaSize(u))
    ensures StageOk(AfterTable(h, u, n, sel, lens + [t.len]))
    ensures Decode(table, FirstLength(h, u, n, sel, lens), Field(t.start, 5) + (t.path + rest)) == Decode(table, AfterTable(h, u, n, sel, lens + [t.len]), rest)
  {
    hide Decode, HeadOk, UsedBelow, Spells, Field, Value, SelOk;
    Pow2Values();
    RunField(table, FirstLength(h, u, n, sel, lens), t.start, 5, t.path + rest);
    PathRun(table, h, u, n, sel, lens, [], t.start, t.path, t.len, rest);
    assert [] + t.len == t.len;
  }

  // ---- Symbols ----

  /** The code of a symbol is recognised at its last bit, and not before. */
  lemma LookupCode(L: seq<int>, bits: seq<bool>, x: int, k: nat)
    requires Codes(L, bits, x) && k <= |bits|
    ensures CanonicalCode.Lookup(L, bits[..k], |L|) == if k == |bits| then x else -1
  {
    hide CanonicalCode.Code, Value;
    var j := CanonicalCode.Lookup(L, bits[..k], |L|);
    if k == |bits| {
      assert bits[..k] == bits;
      if j < x { CanonicalCode.SameLength(L, j, x); } else if j > x { CanonicalCode.SameLength(L, x, j); }
    } else {
      assert !IsCode(L, bits[..k], j);
    }
  }

  lemma {:induction false} CodeRun(table: CrcTable, h: Head, c: DecoderMachine.Code, syms: seq<int>, bits: seq<bool>, x: int, k: nat, rest: seq<bool>)
    requires StageOk(Coded(h, c, syms, [])) && |c.u| == 256 && Codes(DecoderMachine.Lengths(c, syms), bits, x) && k < |bits|
    requires k == 0 || CanonicalCode.Shortest(DecoderMachine.Lengths(c, syms), |DecoderMachine.Lengths(c, syms)|) <= k
    ensures Readable(syms, 256) && StageOk(TakeSymbol(h, c, syms, x))
    ensures Decode(table, Coded(h, c, syms, bits[..k]), bits[k..] + rest) == Decode(table, TakeSymbol(h, c, syms, x), rest)
    decreases |bits| - k
  {
    hide Decode, HeadOk, UsedBelow, TakeSymbol, CanonicalCode.Code, CodeOk, Value, NoneBefore;
    CodeShape(c);
    var L := DecoderMachine.Lengths(c, syms);
    TakeSymbolOk(h, c, syms, x);
    var s := Coded(h, c, syms, bits[..k]);
    var n := Need(s);
    assert k + n <= |bits|;
    assert bits[k..] + rest == bits[k..k + n] + (bits[k + n..] + rest) && bits[..k] + bits[k..k + n] == bits[..k + n];
    DecodeStep(table, s, bits[k..k + n], bits[k + n..] + rest);
    LookupCode(L, bits, x, k + n);
    if k + n < |bits| {
      CodeRun(table, h, c, syms, bits, x, k + n, rest);
    } else {
      assert bits[k + n..] == [];
      Nil(rest);
    }
  }

  lemma {:induction false} OutGrows(syms: seq<int>, k: nat)
    requires Readable(syms, 256) && k <= |syms|
    ensures Readable(syms[..k], 256) && |Meaning(Iota(256), syms[..k]).out| <= |Meaning(Iota(256), syms).out|
  {
    if k < |syms| {
      var t := syms[..|syms| - 1];
      OutGrows(t, k);
      assert t[..k] == syms[..k];
    } else {
      assert syms[..k] == syms;
    }
  }

  /** No symbol of a block that fits is refused. */
  lemma SymbolPasses(h: Head, c: DecoderMachine.Code, all: seq<int>, k: nat)
    requires |c.u| == 256 && UsedBelow(c.u, 256) >= 1 && k < |all| <= G_SIZE * |c.sel| && Readable(all[..|all| - 1], 256)
    requires all[|all| - 1] == AlphaSize(c.u) - 1 && |Meaning(Iota(256), all[..|all| - 1]).out| <= 100000 * h.bs
    requires Readable(all[..k], 256) && (k < |all| - 1 ==> BeforeEnd(all, k, AlphaSize(c.u)))
    ensures k == |all| - 1 ==> TakeSymbol(h, c, all[..k], all[k]) == EndOfBlock(h, c, all[..k])
    ensures k < |all| - 1 ==> TakeSymbol(h, c, all[..k], all[k]) == NextSymbol(h, c, all[..k + 1])
  {
    hide Meaning, EndOfBlock, UsedBelow;
    if k < |all| - 1 {
      var t := all[..|all| - 1];
      assert t[..k] == all[..k] && all[..k] + [all[k]] == all[..k + 1] == t[..k + 1];
      OutGrows(t, k + 1);
      MeaningNext(Iota(256), all[..k], all[k]);
    }
  }

  lemma ReadableUpTo(lens: seq<seq<int>>, sel: seq<int>, codes: seq<seq<bool>>, all: seq<int>, alphaSize: nat, k: nat)
    requires SymbolsOk(lens, sel, codes, all, alphaSize) && k < |all| && alphaSize >= 2
    ensures Readable(all[..k], alphaSize - 2)
  {
    hide Meaning, Codes;
    forall j | 0 <= j < k ensures 0 <= all[..k][j] <= alphaSize - 2 {
      assert Readable(all[..j], 256) && BeforeEnd(all, j, alphaSize);
    }
  }

  ghost predicate SymbolsFit(h: Head, c: DecoderMachine.Code, codes: seq<seq<bool>>, all: seq<int>) {
    && HeadOk(h) && CodeOk(c) && |c.u| == 256 && SymbolsOk(c.lens, c.sel, codes, all, AlphaSize(c.u))
    && |Meaning(Iota(256), all[..|all| - 1]).out| <= 100000 * h.bs
  }

  lemma FitAt(h: Head, c: DecoderMachine.Code, codes: seq<seq<bool>>, all: seq<int>, k: nat)
    requires SymbolsFit(h, c, codes, all) && k < |all|
    ensures |c.u| == 256 && |codes| == |all| && Readable(all[..|all| - 1], 256) && Readable(all[..k], 256) && UsedBelow(c.u, 256) >= 1
    ensures StageOk(Coded(h, c, all[..k], [])) && NextSymbol(h, c, all[..k]) == Coded(h, c, all[..k], [])
    ensures Codes(DecoderMachine.Lengths(c, all[..k]), codes[k], all[k]) && |codes[k]| >= 1
    ensures k == |all| - 1 ==> TakeSymbol(h, c, all[..k], all[k]) == EndOfBlock(h, c, all[..k])
    ensures k < |all| - 1 ==> TakeSymbol(h, c, all[..k], all[k]) == NextSymbol(h, c, all[..k + 1])
  {
    hide Meaning, EndOfBlock, UsedBelow, HeadOk, BeforeEnd, TakeSymbol;
    CodeShape(c);
    if k < |all| - 1 { assert Readable(all[..k], 256) && BeforeEnd(all, k, AlphaSize(c.u)); }
    ReadableUpTo(c.lens, c.sel, codes, all, AlphaSize(c.u), k);
    SymbolPasses(h, c, all, k);
  }

  lemma ConcatNext(codes: seq<seq<bool>>, k: nat, rest: seq<bool>)
    requires k < |codes|
    ensures Concat(codes[k..]) + rest == codes[k] + (Concat(codes[k + 1..]) + rest)
    ensures k + 1 == |codes| ==> Concat(codes[k + 1..]) + rest == rest
  {
    assert codes[k..][1..] == codes[k + 1..];
    Assoc(codes[k], Concat(codes[k + 1..]), rest);
    Nil(rest);
  }

  lemma {:induction false} SymbolsRun(table: CrcTable, h: Head, c: DecoderMachine.Code, codes: seq<seq<bool>>, all: seq<int>, k: nat, rest: seq<bool>)
    requires SymbolsFit(h, c, codes, all) && k < |all| == |codes|
    ensures |c.u| == 256 && Readable(all[..|all| - 1], 256) && StageOk(NextSymbol(h, c, all[..k])) && StageOk(EndOfBlock(h, c, all[..|all| - 1]))
    ensures Decode(table, NextSymbol(h, c, all[..k]), Concat(codes[k..]) + rest) == Decode(table, EndOfBlock(h, c, all[..|all| - 1]), rest)
    decreases |all| - k
  {
    hide Decode, TakeSymbol, EndOfBlock, NextSymbol, Concat, Codes, SymbolsFit, StageOk;
    FitAt(h, c, codes, all, k);
    FitEnd(h, c, codes, all);
    ConcatNext(codes, k, rest);
    var b := codes[k];
    assert b[..0] == [] && b[0..] == b;
    CodeRun(table, h, c, all[..k], b, all[k], 0, Concat(codes[k + 1..]) + rest);
    if k + 1 < |all| { SymbolsRun(table, h, c, codes, all, k + 1, rest); }
  }

  lemma FitEnd(h: Head, c: DecoderMachine.Code, codes: seq<seq<bool>>, all: seq<int>)
    requires SymbolsFit(h, c, codes, all)
    ensures |c.u| == 256 && |all| > 0 && Readable(all[..|all| - 1], 256) && StageOk(EndOfBlock(h, c, all[..|all| - 1]))
  {
    hide Meaning, EndOfBlock, UsedBelow, Codes, BeforeEnd, HeadOk, CodeOk;
    EndOfBlockOk(h, c, all[..|all| - 1]);
  }

  // ---- A whole block ----

  /** The head h with a body that fits. */
  ghost predicate Fits(h: Head, b: Body) {
    HeadOk(h) && BodyOk(b) && h.origPtr < |BodyColumn(b)| <= 100000 * h.bs
  }

  lemma FitsParts(h: Head, b: Body)
    requires Fits(h, b)
    ensures HeadOk(h) && MappingOk(b.rows, b.u) && |b.rows| == 16 && |b.u| == 256 && UseOk(b.u) && 1 <= |b.moves| < 0x8000 && 2 <= |b.tables| <= 6
    ensures forall k | 0 <= k < |b.moves| :: 0 <= b.moves[k] < |b.tables|
    ensures forall t | 0 <= t < |b.tables| :: TableOk(b.tables[t], AlphaSize(b.u))
    ensures |b.syms| == |b.codes| >= 1 && BodyOk(b)
  {
    hide UsedBelow, TableOk, ColumnOf, SelOf, Codes, BeforeEnd;
  }

  lemma FitsSymbols(h: Head, b: Body)
    requires Fits(h, b) && StageOk(NextSymbol(h, Code(b.u, LensOf(b.tables), SelOf(b.moves, |b.tables|)), []))
    ensures SymbolsFit(h, Code(b.u, LensOf(b.tables), SelOf(b.moves, |b.tables|)), b.codes, b.syms)
    ensures b.syms[..0] == [] && b.codes[0..] == b.codes
  {
    hide UsedBelow, TableOk, SelOf, Codes, BeforeEnd, Meaning, LensOf;
  }

  lemma FitsEnd(h: Head, b: Body)
    requires Fits(h, b)
    ensures |b.u| == 256 && |b.syms| > 0 && Readable(b.syms[..|b.syms| - 1], 256) && StageOk(Output(h, BlockBytes(BodyColumn(b), h.origPtr)))
    ensures EndOfBlock(h, Code(b.u, LensOf(b.tables), SelOf(b.moves, |b.tables|)), b.syms[..|b.syms| - 1]) == Output(h, BlockBytes(BodyColumn(b), h.origPtr))
  {
    hide UsedBelow, TableOk, SelOf, Codes, BeforeEnd, ColumnOf, BlockBytes, LensOf, HeadOk;
  }

  /** Selectors and coding tables. */
  lemma CodingRun(table: CrcTable, h: Head, b: Body, rest: seq<bool>)
    requires Fits(h, b) && UseOk(b.u)
    ensures StageOk(NextSymbol(h, Code(b.u, LensOf(b.tables), SelOf(b.moves, |b.tables|)), []))
    ensures Decode(table, NGroups(h, b.u), Field(|b.tables|, 3) + (Field(|b.moves|, 15) + (UnaryFrom(b.moves, 0) + (TablesBits(b.tables) + rest))))
         == Decode(table, NextSymbol(h, Code(b.u, LensOf(b.tables), SelOf(b.moves, |b.tables|)), []), rest)
  {
    hide *;
    FitsParts(h, b);
    NumbersRun(table, h, b.u, |b.tables|, |b.moves|, UnaryFrom(b.moves, 0) + (TablesBits(b.tables) + rest));
    assert b.moves[..0] == [];
    SelectorsRun(table, h, b.u, |b.tables|, b.moves, 0, TablesBits(b.tables) + rest);
    TablesRun(table, h, b.u, SelOf(b.moves, |b.tables|), [], b.tables, rest);
    assert [] + LensOf(b.tables) == LensOf(b.tables);
  }

  /** From the mapping table to the end of the block. */
  lemma BodyRun(table: CrcTable, h: Head, b: Body, rest: seq<bool>)
    requires BodyOk(b) && Fits(h, b)
    ensures StageOk(Output(h, BlockBytes(BodyColumn(b), h.origPtr)))
    ensures Decode(table, Rows(h, []), BodyBits(b) + rest) == Decode(table, Output(h, BlockBytes(BodyColumn(b), h.origPtr)), rest)
  {
    hide *;
    FitsParts(h, b);
    FitsEnd(h, b);
    var c := Code(b.u, LensOf(b.tables), SelOf(b.moves, |b.tables|));
    BodyParts(b, rest);
    var symbols := Concat(b.codes) + rest;
    var coding := Field(|b.tables|, 3) + (Field(|b.moves|, 15) + (UnaryFrom(b.moves, 0) + (TablesBits(b.tables) + symbols)));
    MapRun(table, h, b.rows, b.u, coding);
    CodingRun(table, h, b, symbols);
    FitsSymbols(h, b);
    SymbolsRun(table, h, c, b.codes, b.syms, 0, rest);
  }

  lemma BodyParts(b: Body, rest: seq<bool>)
    requires BodyOk(b)
    ensures |b.rows| == 16 && |b.u| == 256 && 2 <= |b.tables| && forall k | 0 <= k < |b.moves| :: 0 <= b.moves[k]
    ensures BodyBits(b) + rest == b.rows + (Flagged(b.rows, b.u, 0) + (Field(|b.tables|, 3) + (Field(|b.moves|, 15)
                                  + (UnaryFrom(b.moves, 0) + (TablesBits(b.tables) + (Concat(b.codes) + rest))))))
  {
    hide UsedBelow, TableOk, SelOf, Codes, BeforeEnd, Meaning, LensOf, Field, Flagged, UnaryFrom, TablesBits, Concat, SymbolsOk;
    Gathered(b.rows, Flagged(b.rows, b.u, 0), Field(|b.tables|, 3), Field(|b.moves|, 15), UnaryFrom(b.moves, 0), TablesBits(b.tables), Concat(b.codes), rest);
  }

  lemma Gathered(a: seq<bool>, b: seq<bool>, c: seq<bool>, d: seq<bool>, e: seq<bool>, f: seq<bool>, g: seq<bool>, rest: seq<bool>)
    ensures (a + (b + (c + (d + (e + (f + g)))))) + rest == a + (b + (c + (d + (e + (f + (g + rest))))))
  {}
}

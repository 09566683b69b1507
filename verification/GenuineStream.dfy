/** What the compressor writes is a stream of the language, so the decompressor makes of it the data
    of its blocks, with every check passed. */
module GenuineStream {
  import opened Bits
  import opened BitStream
  import opened Rotations
  import opened BurrowsWheeler
  import opened MoveToFront
  import opened ByteMaps
  import opened RunLength
  import opened Crc
  import CanonicalCode
  import opened SymbolStream
  import opened BlockFormat
  import opened StreamFormat
  import opened DecoderMachine
  import opened BlockLanguage
  import opened StreamLanguage
  import BlockReading
  import StreamReading
  import AcceptedStream

  // ---- The mapping table ----

  /** Which of the rows below i are in use. */
  ghost function RowsOf(u: seq<bool>, i: nat): (r: seq<bool>)
    requires |u| == 256 && i <= 16
    ensures |r| == i
  {
    seq(i, k requires 0 <= k < i => Used16(u, k))
  }

  lemma {:induction false} RowsSame(u: seq<bool>, i: nat)
    requires |u| == 256 && i <= 16
    ensures RowsFrom(u, i) == RowsOf(u, 16)[i..]
    decreases 16 - i
  {
    hide Used16;
    if i < 16 {
      NextRow(u, i);
      RowsSame(u, i + 1);
      assert RowsOf(u, 16)[i..] == [RowsOf(u, 16)[i]] + RowsOf(u, 16)[i + 1..];
    } else {
      LastRows(u);
    }
  }

  lemma FlaggedNext(u: seq<bool>, k: nat)
    requires |u| == 256 && k <= 256
    ensures Flagged(RowsOf(u, 16), u, k) ==
            if k == 256 then [] else if Used16(u, k / 16) then [u[k]] + Flagged(RowsOf(u, 16), u, k + 1) else Flagged(RowsOf(u, 16), u, k + 1)
  {
    hide Used16;
    if k < 256 && !Used16(u, k / 16) { BlockReading.Nil(Flagged(RowsOf(u, 16), u, k + 1)); }
  }

  lemma {:induction false} RowPlaces(u: seq<bool>, i: nat, j: nat)
    requires |u| == 256 && i < 16 && j <= 16
    ensures Flagged(RowsOf(u, 16), u, 16 * i + j) == (if Used16(u, i) then RowFrom(u, i, j) else []) + Flagged(RowsOf(u, 16), u, 16 * i + 16)
    decreases 16 - j
  {
    hide Used16, RowsOf, Flagged;
    var t := Flagged(RowsOf(u, 16), u, 16 * i + 16);
    if j == 16 {
      BlockReading.Nil(t);
    } else {
      FlaggedNext(u, 16 * i + j);
      RowPlaces(u, i, j + 1);
      NextInRow(u, i, j);
      assert (16 * i + j) / 16 == i;
      if Used16(u, i) { Assoc([u[16 * i + j]], RowFrom(u, i, j + 1), t); } else { BlockReading.Nil(t); }
    }
  }

  lemma {:induction false} UsedPlaces(u: seq<bool>, i: nat)
    requires |u| == 256 && i <= 16
    ensures Flagged(RowsOf(u, 16), u, 16 * i) == UsedFrom(u, i)
    decreases 16 - i
  {
    hide Used16, RowsOf, Flagged;
    if i < 16 {
      RowPlaces(u, i, 0);
      UsedPlaces(u, i + 1);
    } else {
      FlaggedNext(u, 256);
      LastRows(u);
    }
  }

  lemma RowHolds(u: seq<bool>, j: nat)
    requires |u| == 256 && j < 256
    ensures u[j] ==> RowsOf(u, 16)[j / 16]
  {}

  lemma MapSame(u: seq<bool>)
    requires UseOk(u)
    ensures MappingOk(RowsOf(u, 16), u) && MapBits(u) == RowsOf(u, 16) + Flagged(RowsOf(u, 16), u, 0)
  {
    hide UsedBelow, Used16, RowsOf, Flagged, RowsFrom, UsedFrom;
    RowsSame(u, 0);
    UsedPlaces(u, 0);
    assert RowsOf(u, 16)[0..] == RowsOf(u, 16);
    forall j | 0 <= j < 256 && u[j] ensures RowsOf(u, 16)[j / 16] { RowHolds(u, j); }
  }

  // ---- Coding tables ----

  ghost function TableFor(len: seq<int>): Table
    requires |len| >= 1 && len[0] >= 0
  {
    Table(len[0], DeltasFrom(len, 0, len[0]), len)
  }

  ghost function TablesOf(lens: seq<seq<int>>): (ts: seq<Table>)
    requires forall t | 0 <= t < |lens| :: |lens[t]| >= 1 && lens[t][0] >= 0
    ensures |ts| == |lens| && forall t | 0 <= t < |lens| :: ts[t] == TableFor(lens[t])
  {
    if |lens| == 0 then [] else [TableFor(lens[0])] + TablesOf(lens[1..])
  }

  /** The shortest way from one length to the next. */
  lemma {:induction false} DeltaSpells(curr: int, l: int, path: seq<bool>, more: seq<int>)
    requires 1 <= curr <= 20 && 1 <= l <= 20 && Spells(path, l, more)
    ensures Spells(Delta(curr, l) + path, curr, [l] + more)
    decreases if curr < l then l - curr else curr - l
  {
    var p := Delta(curr, l) + path;
    if curr == l {
      assert p[1..] == path && ([l] + more)[1..] == more;
    } else {
      var next := if curr < l then curr + 1 else curr - 1;
      DeltaSpells(next, l, path, more);
      assert p[2..] == Delta(next, l) + path;
    }
  }

  lemma {:induction false} DeltasSpell(len: seq<int>, i: nat, curr: int)
    requires LenOk(len) && i <= |len| && 1 <= curr <= 20
    ensures Spells(DeltasFrom(len, i, curr), curr, len[i..])
    decreases |len| - i
  {
    hide Delta, Spells;
    if i < |len| {
      DeltasSpell(len, i + 1, len[i]);
      DeltaSpells(curr, len[i], DeltasFrom(len, i + 1, len[i]), len[i + 1..]);
      assert len[i..] == [len[i]] + len[i + 1..];
    } else {
      DeltasNone(len, curr);
      NoSteps(curr);
      assert len[i..] == [];
    }
  }

  lemma NoSteps(curr: int)
    ensures Spells([], curr, [])
  {}

  lemma {:induction false} TablesSame(lens: seq<seq<int>>, alpha: nat, t: nat)
    requires LengthsOk(lens, alpha) && t <= |lens|
    ensures TablesBits(TablesOf(lens)[t..]) == TablesFrom(lens, alpha, t)
    decreases |lens| - t
  {
    hide Field, DeltasFrom, TablesOf;
    var ts := TablesOf(lens);
    if t < |lens| {
      TableNext(lens, alpha, t);
      TablesSame(lens, alpha, t + 1);
      assert ts[t..][1..] == ts[t + 1..];
    } else {
      TablesNone(lens, alpha);
      assert ts[t..] == [];
    }
  }

  lemma TablesOk(lens: seq<seq<int>>, alpha: nat)
    requires LengthsOk(lens, alpha)
    ensures forall t | 0 <= t < |lens| :: TableOk(TablesOf(lens)[t], alpha)
    ensures LensOf(TablesOf(lens)) == lens
  {
    hide DeltasFrom, Spells;
    forall t | 0 <= t < |lens| ensures TableOk(TablesOf(lens)[t], alpha) {
      DeltasSpell(lens[t], 0, lens[t][0]);
      assert lens[t][0..] == lens[t];
    }
  }

  // ---- Symbols ----

  /** Some of the bits of a code are the code of no symbol. */
  lemma NotYet(L: seq<int>, i: nat, k: nat)
    requires SymbolStream.PrefixLengths(L) && i < |L| && k < L[i]
    ensures CanonicalCode.Lookup(L, CanonicalCode.CodeBits(L, i)[..k], |L|) == -1
  {
    hide CanonicalCode.Code, Value;
    var b := CanonicalCode.CodeBits(L, i);
    var j := CanonicalCode.Lookup(L, b[..k], |L|);
    if j != -1 {
      CanonicalCode.WrittenMatches(L, i, []);
      assert b + [] == b;
      CanonicalCode.PrefixFree(L, b, i, j);
    }
  }

  lemma Found(L: seq<int>, i: nat)
    requires SymbolStream.PrefixLengths(L) && i < |L|
    ensures CanonicalCode.Lookup(L, CanonicalCode.CodeBits(L, i), |L|) == i
  {
    hide CanonicalCode.Code, Value;
    var b := CanonicalCode.CodeBits(L, i);
    CanonicalCode.WrittenMatches(L, i, []);
    assert b + [] == b && b[..L[i]] == b;
    var j := CanonicalCode.Lookup(L, b, |L|);
    assert CanonicalCode.Matches(L, b, i);
    if j != -1 { CanonicalCode.PrefixFree(L, b, i, j); }
  }

  lemma CodeIsRead(L: seq<int>, i: nat)
    requires SymbolStream.PrefixLengths(L) && i < |L|
    ensures Codes(L, CanonicalCode.CodeBits(L, i), i)
  {
    hide CanonicalCode.Code, Value;
    var b := CanonicalCode.CodeBits(L, i);
    Found(L, i);
    forall k, j | 0 <= k < |b| ensures !IsCode(L, b[..k], j) { NotYet(L, i, k); }
  }

  lemma {:induction false} WeightBound(syms: seq<int>)
    requires Readable(syms, 256)
    ensures 1 <= Meaning(Iota(256), syms).weight <= |Meaning(Iota(256), syms).out| + 1
  {
    if |syms| > 0 { WeightBound(syms[..|syms| - 1]); }
  }

  lemma CodableAt(lens: seq<seq<int>>, sel: seq<int>, syms: seq<int>, k: nat)
    requires Codable(lens, sel, syms) && k < |syms|
    ensures k / G_SIZE < |sel| && 0 <= sel[k / G_SIZE] < |lens| && 0 <= syms[k] < |lens[sel[k / G_SIZE]]|
    ensures SymbolStream.PrefixLengths(lens[sel[k / G_SIZE]]) && lens[sel[k / G_SIZE]][syms[k]] >= 1
    ensures CodedFrom(lens, sel, syms, k) == CanonicalCode.CodeBits(lens[sel[k / G_SIZE]], syms[k]) + CodedFrom(lens, sel, syms, k + 1)
  {
    assert SymbolStream.PrefixLengths(lens[sel[k / G_SIZE]]);
  }

  ghost function CodesOf(p: Parts): (c: seq<seq<bool>>)
    requires Codable(p.lens, p.sel, p.syms)
    ensures |c| == |p.syms|
  {
    seq(|p.syms|, k requires 0 <= k < |p.syms| => SymbolBits(p.lens, p.sel, p.syms, k))
  }

  lemma {:induction false} CodesSame(p: Parts, k: nat)
    requires Codable(p.lens, p.sel, p.syms) && k <= |p.syms|
    ensures Concat(CodesOf(p)[k..]) == CodedFrom(p.lens, p.sel, p.syms, k)
    decreases |p.syms| - k
  {
    hide Codable, SymbolBits;
    if k < |p.syms| {
      CodesSame(p, k + 1);
      assert CodesOf(p)[k..][1..] == CodesOf(p)[k + 1..];
    }
  }

  /** No check on symbols fires in a genuine block. */
  lemma Accepted(syms: seq<int>, n: nat, limit: nat, k: nat)
    requires Ended(syms, n, limit) && k < |syms| - 1
    ensures Readable(syms[..k], 256) && BeforeEnd(syms, k, n + 2)
  {
    hide Meaning;
    var t := syms[..|syms| - 1];
    assert t[..k] == syms[..k] && t[k] == syms[k];
    BlockReading.OutGrows(t, k);
    WeightBound(syms[..k]);
  }

  lemma SymbolsAreOk(p: Parts, n: nat, limit: nat)
    requires Codable(p.lens, p.sel, p.syms) && Ended(p.syms, n, limit)
    ensures SymbolsOk(p.lens, p.sel, CodesOf(p), p.syms, n + 2)
  {
    hide Meaning, CanonicalCode.Code, Value, Codes, BeforeEnd;
    forall k | 0 <= k < |p.syms| ensures Codes(p.lens[p.sel[k / G_SIZE]], CodesOf(p)[k], p.syms[k]) {
      CodableAt(p.lens, p.sel, p.syms, k);
      CodeIsRead(p.lens[p.sel[k / G_SIZE]], p.syms[k]);
    }
    forall k | 0 <= k < |p.syms| - 1 ensures Readable(p.syms[..k], 256) && BeforeEnd(p.syms, k, n + 2) { Accepted(p.syms, n, limit, k); }
  }

  // ---- The whole block ----

  /** The column is the last column of the sorted rotations. */
  lemma ColumnRestored(x: Block, limit: nat)
    requires |x.parts.inUse| == 256 && SymbolsMean(x.parts.syms, x.parts.inUse, x.bytes, x.rows, limit)
    ensures var t := x.parts.syms[..|x.parts.syms| - 1]; Readable(t, 256) && ColumnOf(x.parts.inUse, t) == LastColumn(x.bytes, x.rows)
  {
    hide Meaning, UsedBelow;
    var u, l, t := x.parts.inUse, LastColumn(x.bytes, x.rows), x.parts.syms[..|x.parts.syms| - 1];
    forall i | 0 <= i < |l| ensures ColumnOf(u, t)[i] == l[i] { CharAt(u, l[i], 256); }
  }

  /** The block that its last column and the row of rotation 0 describe is the block. */
  lemma BlockRestored(b: seq<int>, rows: seq<int>, o: nat)
    requires IsBytes(b) && SortedRotations(b, rows) && o < |b| && rows[o] == 0
    ensures IsBytes(LastColumn(b, rows)) && BlockBytes(LastColumn(b, rows), o) == b
  {
    InverseRebuildsBlock(b, rows, InverseVector.InverseOf(LastColumn(b, rows)), o);
  }

  ghost predicate CodingOk(p: Parts) {
    UseOk(p.inUse) && PartsOk(p, AlphaSize(p.inUse)) && SelOf(p.moves, |p.lens|) == p.sel
  }

  ghost function BodyOf(p: Parts): Body
    requires CodingOk(p)
  {
    Body(RowsOf(p.inUse, 16), p.inUse, p.moves, TablesOf(p.lens), CodesOf(p), p.syms)
  }

  lemma GoodParts(x: Block, table: CrcTable, bs: nat)
    requires GoodBlock(x, table, bs)
    ensures CodingOk(x.parts) && x.parts.crc < 0x1_0000_0000 && x.parts.origPtr < |x.bytes| <= 100000 * bs && 1 <= bs <= 9
    ensures Ended(x.parts.syms, UsedBelow(x.parts.inUse, 256), 100000 * bs)
  {
    hide Meaning, Expand, Over;
    var u := x.parts.inUse;
    assert u[x.bytes[0]];
    UsedGrows(u, x.bytes[0], 256);
  }

  lemma CodingShape(p: Parts)
    requires CodingOk(p)
    ensures UseOk(p.inUse) && |p.inUse| == 256 && LengthsOk(p.lens, AlphaSize(p.inUse)) && Codable(p.lens, p.sel, p.syms)
    ensures forall t | 0 <= t < |p.lens| :: |p.lens[t]| >= 1 && p.lens[t][0] >= 0
    ensures 2 <= |p.lens| <= 6 && MovesOk(p.moves, |p.lens|) && |p.moves| == |p.sel|
  {
    hide UsedBelow, Codable;
  }

  lemma BodyIsOk(p: Parts, limit: nat)
    requires CodingOk(p) && Ended(p.syms, UsedBelow(p.inUse, 256), limit)
    ensures BodyOk(BodyOf(p)) && |p.syms| > 0 && Readable(p.syms[..|p.syms| - 1], 256)
  {
    hide *;
    CodingShape(p);
    MapSame(p.inUse);
    TablesOk(p.lens, AlphaSize(p.inUse));
    SelIs(p);
    AlphaIs(p.inUse);
    SymbolsAreOk(p, UsedBelow(p.inUse, 256), limit);
    EndedShape(p.syms, UsedBelow(p.inUse, 256), limit);
    BodyParts(p);
    BodyFrom(BodyOf(p));
  }

  lemma AlphaIs(u: seq<bool>)
    requires |u| == 256
    ensures AlphaSize(u) == UsedBelow(u, 256) + 2
  {}

  lemma BodyParts(p: Parts)
    requires CodingOk(p) && Codable(p.lens, p.sel, p.syms) && forall t | 0 <= t < |p.lens| :: |p.lens[t]| >= 1 && p.lens[t][0] >= 0
    requires |p.inUse| == 256
    ensures var b := BodyOf(p);
            b.rows == RowsOf(p.inUse, 16) && b.u == p.inUse && b.moves == p.moves && b.tables == TablesOf(p.lens) && b.codes == CodesOf(p) && b.syms == p.syms
  {}

  lemma BodyFrom(b: Body)
    requires |b.u| == 256 && MappingOk(b.rows, b.u) && MovesOk(b.moves, |b.tables|) && forall t | 0 <= t < |b.tables| :: TableOk(b.tables[t], AlphaSize(b.u))
    requires (forall k | 0 <= k < |b.moves| :: 0 <= b.moves[k] < |b.tables|) && SymbolsOk(LensOf(b.tables), SelOf(b.moves, |b.tables|), b.codes, b.syms, AlphaSize(b.u))
    ensures BodyOk(b)
  {}

  lemma ColumnOfBody(p: Parts)
    requires CodingOk(p) && BodyOk(BodyOf(p)) && |p.syms| > 0 && Readable(p.syms[..|p.syms| - 1], 256)
    ensures |p.inUse| == 256 && BodyColumn(BodyOf(p)) == ColumnOf(p.inUse, p.syms[..|p.syms| - 1])
  {
    hide UsedBelow, ColumnOf, BodyOk, CodingOk, RowsOf, TablesOf, CodesOf;
    CodingShape(p);
  }

  lemma SelIs(p: Parts)
    requires CodingOk(p)
    ensures (forall k | 0 <= k < |p.moves| :: 0 <= p.moves[k] < |p.lens|) && SelOf(p.moves, |p.lens|) == p.sel
  {
    hide UsedBelow, Codable, SelOf;
  }

  lemma EndedShape(syms: seq<int>, n: nat, limit: nat)
    requires Ended(syms, n, limit)
    ensures |syms| > 0 && Readable(syms[..|syms| - 1], 256)
  {
    hide Meaning;
  }

  lemma BodySame(p: Parts)
    requires CodingOk(p) && BodyOk(BodyOf(p))
    ensures |p.inUse| == 256 && PartsOk(p, AlphaSize(p.inUse))
    ensures BlockBits(p, AlphaSize(p.inUse)) == Field(p.crc, 32) + ([false] + (Field(p.origPtr, 24) + BodyBits(BodyOf(p))))
  {
    hide UsedBelow, Codable, LengthsOk, RowsOf, TablesOf, CodesOf, Field, MapBits, Flagged, UnaryFrom, TablesFrom, TablesBits, Concat, CodedFrom, CodedTo, Moves, BodyOk, SelOf;
    CodingShape(p);
    var alpha := AlphaSize(p.inUse);
    MapSame(p.inUse);
    TablesSame(p.lens, alpha, 0);
    CodesSame(p, 0);
    assert TablesOf(p.lens)[0..] == TablesOf(p.lens) && CodesOf(p)[0..] == CodesOf(p);
    CodedSplit(p.lens, p.sel, p.syms, 0);
    assert CodedTo(p.lens, p.sel, p.syms, 0) == [] by { NoneCoded(p.lens, p.sel, p.syms); }
    BlockReading.Nil(CodedFrom(p.lens, p.sel, p.syms, 0));
    Regroup(Field(p.crc, 32), Field(p.origPtr, 24), RowsOf(p.inUse, 16), Flagged(RowsOf(p.inUse, 16), p.inUse, 0),
            Field(|p.lens|, 3), Field(|p.sel|, 15), UnaryFrom(p.moves, 0), TablesBits(TablesOf(p.lens)), Concat(CodesOf(p)));
  }

  lemma Regroup(a: seq<bool>, b: seq<bool>, m: seq<bool>, n: seq<bool>, c: seq<bool>, d: seq<bool>, e: seq<bool>, f: seq<bool>, g: seq<bool>)
    ensures (a + ([false] + (b + ((m + n) + (c + (d + (e + f))))))) + g == a + ([false] + (b + (m + (n + (c + (d + (e + (f + g))))))))
  {}

  /** A written block, as a block of the language. */
  ghost function PieceOf(x: Block, table: CrcTable, bs: nat): Piece
    requires GoodBlock(x, table, bs)
  {
    GoodParts(x, table, bs);
    Piece(x.parts.crc, x.parts.origPtr, BodyOf(x.parts), x.data)
  }

  lemma BlockIsPiece(x: Block, table: CrcTable, bs: nat)
    requires GoodBlock(x, table, bs)
    ensures PieceOk(PieceOf(x, table, bs), table, bs) && BodyOk(PieceOf(x, table, bs).body)
    ensures PieceBits(PieceOf(x, table, bs)) == OneBlock(x, table, bs)
  {
    hide UsedBelow, Meaning, Expand, Over, PartsOk, BodyOf, BodyOk, BodyColumn, BodyBits, BlockBits, Ended, ColumnOf, BlockBytes, CodingOk, BitsOf, Field;
    GoodParts(x, table, bs);
    BodyIsOk(x.parts, 100000 * bs);
    ColumnOfBody(x.parts);
    BodySame(x.parts);
    ColumnRestored(x, 100000 * bs);
    BlockRestored(x.bytes, x.rows, x.parts.origPtr);
  }

  // ---- The whole stream ----

  ghost function PiecesOf(xs: seq<Block>, table: CrcTable, bs: nat): (ps: seq<Piece>)
    requires GoodBlocks(xs, table, bs)
    ensures |ps| == |xs|
  {
    seq(|xs|, k requires 0 <= k < |xs| => PieceOf(xs[k], table, bs))
  }

  lemma {:induction false} PiecesSame(xs: seq<Block>, table: CrcTable, bs: nat, k: nat)
    requires GoodBlocks(xs, table, bs) && k <= |xs| && forall i | 0 <= i < |xs| :: xs[i].parts.crc < 0x1_0000_0000
    ensures var ps := PiecesOf(xs, table, bs)[k..];
            && PiecesOk(ps, table, bs) && PiecesBits(ps) == BlocksFrom(xs, table, bs, k) && PiecesData(ps) == DataFrom(xs, k)
            && Together(Combined(xs, k), ps) == Combined(xs, |xs|)
    decreases |xs| - k
  {
    hide GoodBlock, PieceOk, BodyOk, PieceBits, OneBlock, Combine;
    var ps := PiecesOf(xs, table, bs);
    if k < |xs| {
      PiecesSame(xs, table, bs, k + 1);
      BlockIsPiece(xs[k], table, bs);
      PieceData(xs[k], table, bs);
      assert ps[k..] == [ps[k]] + ps[k + 1..];
      PiecesMore(ps[k], ps[k + 1..], table, bs, Combined(xs, k));
    }
  }

  lemma PieceData(x: Block, table: CrcTable, bs: nat)
    requires GoodBlock(x, table, bs)
    ensures PieceOf(x, table, bs).data == x.data && PieceOf(x, table, bs).crc == x.parts.crc
  {
    hide GoodBlock, BodyOf;
  }

  /** A stream that was written is a stream of the language. */
  lemma WrittenIsStream(table: CrcTable, xs: seq<Block>, bs: nat, pad: seq<bool>)
    requires GoodBlocks(xs, table, bs) && 1 <= bs <= 9
    ensures IsStream(StreamBits(xs, table, bs) + pad, table, bs, PiecesOf(xs, table, bs), pad)
    ensures PiecesData(PiecesOf(xs, table, bs)) == DataFrom(xs, 0)
  {
    hide GoodBlock, PieceOk, BodyOk, Trailer, Header, PiecesBits, PiecesData, PiecesOf, Combine;
    GoodCrcs(xs, table, bs) by { assert forall k | 0 <= k < |xs| :: GoodBlock(xs[k], table, bs); }
    PiecesSame(xs, table, bs, 0);
    var ps := PiecesOf(xs, table, bs);
    assert ps[0..] == ps;
    Assoc(Header(bs), BlocksFrom(xs, table, bs, 0) + Trailer(Combined(xs, |xs|)), pad);
  }

  /** A stream the compressor wrote decodes to its data, and what follows it is left. */
  lemma StreamRun(table: CrcTable, xs: seq<Block>, bs: nat, pad: seq<bool>)
    requires GoodBlocks(xs, table, bs) && 1 <= bs <= 9
    ensures Decode(table, Magic(0), StreamBits(xs, table, bs) + pad) == Result(Idle, pad, DataFrom(xs, 0))
  {
    hide Decode, GoodBlocks, IsStream, PiecesOf, PiecesData, StreamBits, DataFrom;
    WrittenIsStream(table, xs, bs, pad);
    StreamReading.StreamRun(table, StreamBits(xs, table, bs) + pad, bs, PiecesOf(xs, table, bs), pad);
  }

  /** Where a written stream stores the checksum of block k, or its own behind the last block. */
  ghost function CrcPlace(xs: seq<Block>, table: CrcTable, bs: nat, k: nat): nat
    requires GoodBlocks(xs, table, bs) && k <= |xs|
  {
    GoodCrcs(xs, table, bs);
    PiecesSame(xs, table, bs, 0);
    assert PiecesOf(xs, table, bs)[0..] == PiecesOf(xs, table, bs);
    AcceptedStream.CrcPlace(PiecesOf(xs, table, bs), k)
  }

  /** What is stored for the checksum of block k, or behind the last block. */
  ghost function StoredCrc(xs: seq<Block>, table: CrcTable, bs: nat, k: nat): Word
    requires GoodBlocks(xs, table, bs) && k <= |xs|
  {
    GoodCrcs(xs, table, bs);
    if k < |xs| then xs[k].parts.crc else Combined(xs, |xs|)
  }

  lemma StoredAt(table: CrcTable, xs: seq<Block>, bs: nat, pad: seq<bool>, k: nat)
    requires GoodBlocks(xs, table, bs) && 1 <= bs <= 9 && k <= |xs|
    ensures var w, i := StreamBits(xs, table, bs) + pad, CrcPlace(xs, table, bs, k);
            i + 32 <= |w| && w[i..i + 32] == Field(StoredCrc(xs, table, bs, k), 32)
  {
    hide GoodBlock, PieceOk, BodyOk, StreamBits, Combine, AcceptedStream.CrcPlace, PiecesBits, Trailer, Field;
    var ps := PiecesOf(xs, table, bs);
    WrittenIsStream(table, xs, bs, pad);
    CrcsSame(xs, table, bs, k);
    AcceptedStream.StoredAt(table, StreamBits(xs, table, bs) + pad, bs, ps, pad, k);
  }

  lemma CrcsSame(xs: seq<Block>, table: CrcTable, bs: nat, k: nat)
    requires GoodBlocks(xs, table, bs) && k <= |xs|
    ensures StoredCrc(xs, table, bs, k) == AcceptedStream.StoredCrc(PiecesOf(xs, table, bs), k)
  {
    hide GoodBlock, PieceOk, BodyOk, Combine, PiecesBits;
    GoodCrcs(xs, table, bs) by { assert forall k | 0 <= k < |xs| :: GoodBlock(xs[k], table, bs); }
    if k < |xs| {
      PieceData(xs[k], table, bs);
    } else {
      PiecesSame(xs, table, bs, 0);
      assert PiecesOf(xs, table, bs)[0..] == PiecesOf(xs, table, bs);
    }
  }

  /** A written stream in which v is stored for the checksum of block k, or for its own behind the last. */
  ghost function Changed(table: CrcTable, xs: seq<Block>, bs: nat, pad: seq<bool>, k: nat, v: Word): seq<bool>
    requires GoodBlocks(xs, table, bs) && 1 <= bs <= 9 && k <= |xs|
  {
    StoredAt(table, xs, bs, pad, k);
    AcceptedStream.Replaced(StreamBits(xs, table, bs) + pad, CrcPlace(xs, table, bs, k), v)
  }

  /** With anything else stored for a checksum a written stream is never accepted. */
  lemma ChangedIsRefused(table: CrcTable, xs: seq<Block>, bs: nat, pad: seq<bool>, k: nat, v: Word)
    requires GoodBlocks(xs, table, bs) && 1 <= bs <= 9 && k <= |xs| && v != StoredCrc(xs, table, bs, k)
    ensures Decode(table, Magic(0), Changed(table, xs, bs, pad, k, v)).stage == Halted(BadData)
  {
    hide Decode, GoodBlock, PieceOk, BodyOk, StreamBits, Combine, AcceptedStream.CrcPlace, AcceptedStream.Replaced, PiecesBits, Trailer, Field;
    WrittenIsStream(table, xs, bs, pad);
    CrcsSame(xs, table, bs, k);
    StoredAt(table, xs, bs, pad, k);
    AcceptedStream.ChangedIsRefused(table, StreamBits(xs, table, bs) + pad, bs, PiecesOf(xs, table, bs), pad, k, v);
  }
}

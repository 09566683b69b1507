/** The bits of a block that the decompressor takes, whoever wrote them: mapping table, selectors,
    coding tables and coded symbols, and the bytes they describe. */
module BlockLanguage {
  import opened Bits
  import opened BitStream
  import opened Rotations
  import opened MoveToFront
  import opened ByteMaps
  import opened SymbolStream
  import opened BlockFormat
  import opened DecoderMachine
  import CanonicalCode

  /** A coding table as it was read: the first length, the bits of the steps, and the lengths. */
  datatype Table = Table(start: nat, path: seq<bool>, len: seq<int>)

  /** What was read between the head of a block and its end. */
  datatype Body = Body(rows: seq<bool>, u: seq<bool>, moves: seq<int>, tables: seq<Table>, codes: seq<seq<bool>>, syms: seq<int>)

  /** The path spells the lengths by steps of one from curr on, without leaving 1 .. 20. */
  ghost predicate Spells(path: seq<bool>, curr: int, len: seq<int>)
    decreases |path|
  {
    if |len| == 0 then path == []
    else
      && |path| >= 1
      && if !path[0] then len[0] == curr && Spells(path[1..], curr, len[1..])
         else
           && |path| >= 2
           && var next := if path[1] then curr - 1 else curr + 1;
              1 <= next <= 20 && Spells(path[2..], next, len)
  }

  ghost predicate TableOk(t: Table, alphaSize: nat) { 1 <= t.start <= 20 && |t.len| == alphaSize && Spells(t.path, t.start, t.len) }

  ghost function TablesBits(ts: seq<Table>): seq<bool> {
    if |ts| == 0 then [] else (Field(ts[0].start, 5) + ts[0].path) + TablesBits(ts[1..])
  }

  function LensOf(ts: seq<Table>): (lens: seq<seq<int>>)
    ensures |lens| == |ts|
  {
    seq(|ts|, i requires 0 <= i < |ts| => ts[i].len)
  }

  /** The bits from place k on of the rows that are there. */
  ghost function Flagged(rows: seq<bool>, u: seq<bool>, k: nat): seq<bool>
    requires |rows| == 16 && |u| == 256 && k <= 256
    decreases 256 - k
  {
    if k == 256 then [] else (if rows[k / 16] then [u[k]] else []) + Flagged(rows, u, k + 1)
  }

  ghost function Concat(codes: seq<seq<bool>>): seq<bool> {
    if |codes| == 0 then [] else codes[0] + Concat(codes[1..])
  }

  /** The bits are the code of x. */
  ghost predicate IsCode(L: seq<int>, bits: seq<bool>, x: int) {
    0 <= x < |L| && |bits| == L[x] && Value(bits) == CanonicalCode.Code(L, x)
  }

  /** No symbol has a code that ends earlier. */
  ghost predicate NoneBefore(L: seq<int>, bits: seq<bool>) {
    forall k, i | 0 <= k < |bits| :: !IsCode(L, bits[..k], i)
  }

  /** Read bit by bit, the bits are those of x. */
  ghost predicate Codes(L: seq<int>, bits: seq<bool>, x: int) { IsCode(L, bits, x) && NoneBefore(L, bits) }

  /** x is a character or a run digit that is not too large a part of its run. */
  ghost predicate BeforeEnd(syms: seq<int>, k: nat, alphaSize: nat)
    requires k < |syms| && Readable(syms[..k], 256)
  {
    && 0 <= syms[k] < alphaSize - 1
    && (syms[k] == RUNA || syms[k] == RUNB ==> Meaning(Iota(256), syms[..k]).weight < 2 * 1024 * 1024)
  }

  ghost predicate MappingOk(rows: seq<bool>, u: seq<bool>) {
    && |rows| == 16 && |u| == 256 && UsedBelow(u, 256) >= 1
    && forall j | 0 <= j < 256 && u[j] :: rows[j / 16]
  }

  ghost predicate MovesOk(moves: seq<int>, n: nat) {
    1 <= |moves| < 0x8000 && 2 <= n <= 6 && forall k | 0 <= k < |moves| :: 0 <= moves[k] < n
  }

  /** Symbols ended by EOB, every one coded by the table that its group's selector names. */
  ghost predicate SymbolsOk(lens: seq<seq<int>>, sel: seq<int>, codes: seq<seq<bool>>, syms: seq<int>, alphaSize: nat) {
    var m := |syms| - 1;
    && 0 <= m < G_SIZE * |sel| && |codes| == |syms| && syms[m] == alphaSize - 1 && Readable(syms[..m], 256)
    && (forall k | 0 <= k < |sel| :: 0 <= sel[k] < |lens|)
    && (forall k | 0 <= k <= m :: Codes(lens[sel[k / G_SIZE]], codes[k], syms[k]))
    && forall k | 0 <= k < m :: Readable(syms[..k], 256) && BeforeEnd(syms, k, alphaSize)
  }

  ghost predicate BodyOk(b: Body) {
    && MappingOk(b.rows, b.u) && MovesOk(b.moves, |b.tables|)
    && (forall t | 0 <= t < |b.tables| :: TableOk(b.tables[t], AlphaSize(b.u)))
    && SymbolsOk(LensOf(b.tables), SelOf(b.moves, |b.tables|), b.codes, b.syms, AlphaSize(b.u))
  }

  ghost function BodyBits(b: Body): seq<bool>
    requires BodyOk(b)
  {
    b.rows + (Flagged(b.rows, b.u, 0) + (Field(|b.tables|, 3) + (Field(|b.moves|, 15) + (UnaryFrom(b.moves, 0) + (TablesBits(b.tables) + Concat(b.codes))))))
  }

  /** The last column that the symbols mean. */
  ghost function BodyColumn(b: Body): (col: seq<int>)
    requires BodyOk(b)
    ensures IsBytes(col)
  {
    ColumnOf(b.u, b.syms[..|b.syms| - 1])
  }
}

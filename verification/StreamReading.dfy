/** Every stream of the language is accepted: a run over its bits ends well, with the data of its
    blocks, and leaves what follows it. */
module StreamReading {
  import opened Bits
  import opened BitStream
  import opened Rotations
  import opened RunLength
  import opened Crc
  import opened BlockFormat
  import opened StreamFormat
  import opened DecoderMachine
  import opened BlockLanguage
  import opened StreamLanguage
  import opened BlockReading
  import CanonicalCode

  // ---- Header, fields and trailer ----

  lemma {:induction false} BlockMagicRun(table: CrcTable, bs: nat, c: Word, k: nat, rest: seq<bool>)
    requires 1 <= bs <= 9 && k < 6
    ensures Decode(table, Start(bs, c, k), BitsOf(BLOCK_MAGIC[k..]) + rest) == Decode(table, BlockCrc(bs, c, []), rest)
    decreases 6 - k
  {
    hide Decode, Field, Value, BitsOf;
    Pow2Values();
    BitsOfHead(BLOCK_MAGIC[k..]);
    assert BLOCK_MAGIC[k..][1..] == BLOCK_MAGIC[k + 1..];
    Assoc(Field(BLOCK_MAGIC[k], 8), BitsOf(BLOCK_MAGIC[k + 1..]), rest);
    RunField(table, Start(bs, c, k), BLOCK_MAGIC[k], 8, BitsOf(BLOCK_MAGIC[k + 1..]) + rest);
    if k < 5 { BlockMagicRun(table, bs, c, k + 1, rest); } else { NoBytes(BLOCK_MAGIC[k + 1..], rest); }
  }

  lemma NoBytes(m: seq<Byte>, rest: seq<bool>)
    requires m == []
    ensures BitsOf(m) + rest == rest
  {
    assert [] + rest == rest;
  }

  /** Eight bits and the others. */
  lemma Eight(got: seq<bool>, x: seq<bool>, rest: seq<bool>)
    requires |x| >= 8
    ensures x + rest == x[..8] + (x[8..] + rest) && got + x == (got + x[..8]) + x[8..]
  {}

  lemma {:induction false} CrcRun(table: CrcTable, bs: nat, c: Word, got: seq<bool>, x: seq<bool>, rest: seq<bool>)
    requires 1 <= bs <= 9 && |got| + |x| == 32 && |got| % 8 == 0 && |x| >= 8
    ensures Value(got + x) < 0x1_0000_0000
    ensures Decode(table, BlockCrc(bs, c, got), x + rest) == Decode(table, RandBit(bs, c, Value(got + x)), rest)
    decreases |x|
  {
    hide Decode, Value;
    Pow2Values();
    ValueBound(got + x);
    Eight(got, x, rest);
    DecodeStep(table, BlockCrc(bs, c, got), x[..8], x[8..] + rest);
    if |x| > 8 { CrcRun(table, bs, c, got + x[..8], x[8..], rest); } else { Last(x, got, rest); }
  }

  lemma Last(x: seq<bool>, got: seq<bool>, rest: seq<bool>)
    requires |x| == 8
    ensures x[8..] + rest == rest && got + x[..8] == got + x
  {}

  lemma {:induction false} OrigRun(table: CrcTable, bs: nat, c: Word, crc: nat, got: seq<bool>, x: seq<bool>, rest: seq<bool>)
    requires 1 <= bs <= 9 && crc < 0x1_0000_0000 && |got| + |x| == 24 && |got| % 8 == 0 && |x| >= 8
    requires Value(got + x) <= 10 + 100000 * bs
    ensures Decode(table, OrigPtr(bs, c, crc, got), x + rest) == Decode(table, Rows(DecoderMachine.Head(bs, c, crc, Value(got + x)), []), rest)
    decreases |x|
  {
    hide Decode, Value;
    Eight(got, x, rest);
    DecodeStep(table, OrigPtr(bs, c, crc, got), x[..8], x[8..] + rest);
    if |x| > 8 { OrigRun(table, bs, c, crc, got + x[..8], x[8..], rest); } else { Last(x, got, rest); }
  }

  /** The checksum, the flag and origPtr of a block. */
  lemma HeadRun(table: CrcTable, bs: nat, c: Word, crc: Word, origPtr: nat, rest: seq<bool>)
    requires 1 <= bs <= 9 && origPtr <= 10 + 100000 * bs
    ensures Decode(table, BlockCrc(bs, c, []), Field(crc, 32) + ([false] + (Field(origPtr, 24) + rest)))
         == Decode(table, Rows(Head(bs, c, crc, origPtr), []), rest)
  {
    hide Decode, Value, Field;
    Pow2Values();
    var x, y := Field(crc, 32), Field(origPtr, 24);
    ValueOfField(crc, 32);
    ValueOfField(origPtr, 24);
    CanonicalCode.SmallMod(crc, Pow2(32));
    CanonicalCode.SmallMod(origPtr, Pow2(24));
    assert [] + x == x && [] + y == y;
    CrcRun(table, bs, c, [], x, [false] + (y + rest));
    DecodeStep(table, RandBit(bs, c, crc), [false], y + rest);
    OrigRun(table, bs, c, crc, [], y, rest);
  }

  lemma {:induction false} HeaderRun(table: CrcTable, k: nat, bs: nat, rest: seq<bool>)
    requires 1 <= bs <= 9 && k < 4
    ensures var m: seq<Byte> := [0x42, 0x5a, 0x68, 0x30 + bs];
            Decode(table, Magic(k), BitsOf(m[k..]) + rest) == Decode(table, Start(bs, 0, 0), rest)
    decreases 4 - k
  {
    hide Decode, Field, Value, BitsOf;
    var m: seq<Byte> := [0x42, 0x5a, 0x68, 0x30 + bs];
    Pow2Values();
    BitsOfHead(m[k..]);
    assert m[k..][1..] == m[k + 1..];
    Assoc(Field(m[k], 8), BitsOf(m[k + 1..]), rest);
    RunField(table, Magic(k), m[k], 8, BitsOf(m[k + 1..]) + rest);
    if k < 3 { HeaderRun(table, k + 1, bs, rest); } else { NoBytes(m[k + 1..], rest); }
  }

  lemma {:induction false} EndMagicRun(table: CrcTable, c: Word, k: nat, rest: seq<bool>)
    requires 1 <= k < 6
    ensures Decode(table, End(c, k), BitsOf(END_MAGIC[k..]) + rest) == Decode(table, StreamCrc(c, []), rest)
    decreases 6 - k
  {
    hide Decode, Field, Value, BitsOf;
    Pow2Values();
    BitsOfHead(END_MAGIC[k..]);
    assert END_MAGIC[k..][1..] == END_MAGIC[k + 1..];
    Assoc(Field(END_MAGIC[k], 8), BitsOf(END_MAGIC[k + 1..]), rest);
    RunField(table, End(c, k), END_MAGIC[k], 8, BitsOf(END_MAGIC[k + 1..]) + rest);
    if k < 5 { EndMagicRun(table, c, k + 1, rest); } else { NoBytes(END_MAGIC[k + 1..], rest); }
  }

  lemma {:induction false} StreamCrcRun(table: CrcTable, c: Word, got: seq<bool>, x: seq<bool>, rest: seq<bool>)
    requires |got| + |x| == 32 && |got| % 8 == 0 && |x| >= 8 && Value(got + x) == c
    ensures Decode(table, StreamCrc(c, got), x + rest) == Result(Idle, rest, [])
    decreases |x|
  {
    hide Decode, Value;
    Eight(got, x, rest);
    DecodeStep(table, StreamCrc(c, got), x[..8], x[8..] + rest);
    if |x| > 8 {
      StreamCrcRun(table, c, got + x[..8], x[8..], rest);
    } else {
      Last(x, got, rest);
      IdleStays(table, rest);
    }
  }

  lemma IdleStays(table: CrcTable, rest: seq<bool>)
    ensures Decode(table, Idle, rest) == Result(Idle, rest, [])
  {}

  lemma TrailerRun(table: CrcTable, bs: nat, c: Word, rest: seq<bool>)
    requires 1 <= bs <= 9
    ensures Decode(table, Start(bs, c, 0), Trailer(c) + rest) == Result(Idle, rest, [])
  {
    hide Decode, Field, Value, BitsOf;
    Pow2Values();
    var x := Field(c, 32);
    ValueOfField(c, 32);
    CanonicalCode.SmallMod(c, Pow2(32));
    assert [] + x == x;
    BitsOfHead(END_MAGIC);
    var a, b := Field(0x17, 8), BitsOf(END_MAGIC[1..]);
    assert ((a + b) + x) + rest == a + (b + (x + rest));
    RunField(table, Start(bs, c, 0), 0x17, 8, b + (x + rest));
    EndMagicRun(table, c, 1, x + rest);
    StreamCrcRun(table, c, [], x, rest);
  }

  // ---- Blocks ----

  /** A block leads to its bytes, whatever it stores for its checksum. */
  lemma PieceRun(table: CrcTable, h: Head, x: Piece, rest: seq<bool>)
    requires 1 <= h.bs <= 9 && PieceFits(x, h.bs) && h.crc == x.crc && h.origPtr == x.origPtr && StageOk(Start(h.bs, h.combined, 0))
    ensures StageOk(Output(h, PieceBytes(x)))
    ensures Decode(table, Start(h.bs, h.combined, 0), PieceBits(x) + rest) == Decode(table, Output(h, PieceBytes(x)), rest)
  {
    hide Decode, BodyOk, BodyBits, BodyColumn, BlockBytes, BitsOf, Field;
    var m, f, o, b := BitsOf(BLOCK_MAGIC), Field(x.crc, 32), Field(x.origPtr, 24), BodyBits(x.body);
    assert (m + (f + ([false] + (o + b)))) + rest == m + (f + ([false] + (o + (b + rest))));
    assert BLOCK_MAGIC[0..] == BLOCK_MAGIC;
    BlockMagicRun(table, h.bs, h.combined, 0, f + ([false] + (o + (b + rest))));
    HeadRun(table, h.bs, h.combined, x.crc, x.origPtr, b + rest);
    assert h == Head(h.bs, h.combined, x.crc, x.origPtr);
    BodyRun(table, h, x.body, rest);
  }

  /** The block is shown, and its checksum agrees. */
  lemma PieceShown(table: CrcTable, bs: nat, c: Word, x: Piece, rest: seq<bool>)
    requires 1 <= bs <= 9 && StageOk(Start(bs, c, 0)) && StageOk(Start(bs, Combine(c, x.crc), 0)) && BodyOk(x.body) && PieceOk(x, table, bs)
    ensures Decode(table, Start(bs, c, 0), PieceBits(x) + rest) == Prefixed(x.data, Decode(table, Start(bs, Combine(c, x.crc), 0), rest))
  {
    hide PieceBits, Expand, Over, Combine, Decode, Final, BodyOk, BodyColumn, BlockBytes;
    var h := Head(bs, c, x.crc, x.origPtr);
    PieceRun(table, h, x, rest);
    DecodeOutput(table, h, PieceBytes(x), rest);
  }

  /** A block with another checksum than that of its data is refused. */
  lemma PieceRefused(table: CrcTable, bs: nat, c: Word, x: Piece, v: Word, rest: seq<bool>)
    requires 1 <= bs <= 9 && PieceOk(x, table, bs) && v != x.crc
    ensures PieceFits(x.(crc := v), bs)
    ensures Decode(table, Start(bs, c, 0), PieceBits(x.(crc := v)) + rest) == Result(Halted(BadData), rest, [])
  {
    hide PieceBits, Expand, Over, Combine, Decode, Final, BodyOk, BodyColumn;
    var h, y := Head(bs, c, v, x.origPtr), x.(crc := v);
    PieceRun(table, h, y, rest);
    DecodeOutput(table, h, PieceBytes(y), rest);
    HaltedStays(table, BadData, rest);
    PrefixedTwice([], [], Result(Halted(BadData), rest, []));
  }

  lemma {:induction false} PiecesRun(table: CrcTable, bs: nat, c: Word, xs: seq<Piece>, rest: seq<bool>)
    requires 1 <= bs <= 9 && PiecesOk(xs, table, bs)
    ensures Decode(table, Start(bs, c, 0), PiecesBits(xs) + rest) == Prefixed(PiecesData(xs), Decode(table, Start(bs, Together(c, xs), 0), rest))
    decreases |xs|
  {
    hide Decode, PieceOk, PieceBits, Combine, Prefixed, BodyOk;
    if |xs| == 0 {
      Nil(rest);
      PrefixedTwice([], [], Decode(table, Start(bs, c, 0), rest));
    } else {
      var x, ys := xs[0], xs[1..];
      Assoc(PieceBits(x), PiecesBits(ys), rest);
      PieceShown(table, bs, c, x, PiecesBits(ys) + rest);
      PiecesRun(table, bs, Combine(c, x.crc), ys, rest);
      PrefixedTwice(x.data, PiecesData(ys), Decode(table, Start(bs, Together(c, xs), 0), rest));
    }
  }

  lemma HeaderPassed(table: CrcTable, bs: nat, rest: seq<bool>)
    requires 1 <= bs <= 9
    ensures Decode(table, Magic(0), Header(bs) + rest) == Decode(table, Start(bs, 0, 0), rest)
  {
    hide Decode, BitsOf;
    var m: seq<Byte> := [0x42, 0x5a, 0x68, 0x30 + bs];
    assert m[0..] == m;
    HeaderRun(table, 0, bs, rest);
  }

  /** A stream is accepted, and gives its data. */
  lemma StreamRun(table: CrcTable, bits: seq<bool>, bs: nat, xs: seq<Piece>, rest: seq<bool>)
    requires IsStream(bits, table, bs, xs, rest)
    ensures Decode(table, Magic(0), bits) == Result(Idle, rest, PiecesData(xs))
  {
    hide Decode, PieceOk, BodyOk, Trailer, Header, PiecesBits, PiecesData;
    var t := Trailer(Together(0, xs));
    Assoc(PiecesBits(xs), t, rest);
    HeaderPassed(table, bs, PiecesBits(xs) + (t + rest));
    PiecesRun(table, bs, 0, xs, t + rest);
    TrailerRun(table, bs, Together(0, xs), rest);
    assert PiecesData(xs) + [] == PiecesData(xs);
  }
}

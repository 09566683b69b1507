/** What the decompressor accepts is a stream: a run that ends well has read a header, blocks and a
    trailer whose stored checksums are those of the data that came out.  With StreamReading this
    tells exactly which inputs are accepted. */
module AcceptedStream {
  import opened Bits
  import opened BitStream
  import opened Rotations
  import opened RunLength
  import opened Crc
  import opened BlockFormat
  import opened StreamFormat
  import opened DecoderMachine
  import opened BlockLanguage
  import opened StreamLanguage
  import opened AcceptedBlock
  import BlockReading
  import StreamReading
  import CanonicalCode

  // ---- Fields ----

  /** The checksum of a block or the like: bytes that are gathered. */
  lemma {:induction false} CrcRead(table: CrcTable, bs: nat, c: Word, got: seq<bool>, bits: seq<bool>) returns (x: seq<bool>, rest: seq<bool>)
    requires 1 <= bs <= 9 && |got| < 32 && |got| % 8 == 0 && Decode(table, BlockCrc(bs, c, got), bits).stage.Idle?
    ensures |got| + |x| == 32 && bits == x + rest && |rest| < |bits| && Value(got + x) < 0x1_0000_0000
    ensures Decode(table, BlockCrc(bs, c, got), bits) == Decode(table, RandBit(bs, c, Value(got + x)), rest)
    decreases 32 - |got|
  {
    hide Decode, Value;
    var b, tail := TakeField(table, BlockCrc(bs, c, got), bits);
    if |got| == 24 {
      Pow2Values();
      ValueBound(got + b);
      x, rest := b, tail;
    } else {
      x, rest := CrcRead(table, bs, c, got + b, tail);
      assert got + (b + x) == (got + b) + x && b + (x + rest) == (b + x) + rest;
      x := b + x;
    }
  }

  lemma {:induction false} OrigRead(table: CrcTable, bs: nat, c: Word, crc: nat, got: seq<bool>, bits: seq<bool>) returns (x: seq<bool>, rest: seq<bool>)
    requires 1 <= bs <= 9 && crc < 0x1_0000_0000 && |got| < 24 && |got| % 8 == 0 && Decode(table, OrigPtr(bs, c, crc, got), bits).stage.Idle?
    ensures |got| + |x| == 24 && bits == x + rest && |rest| < |bits| && Value(got + x) <= 10 + 100000 * bs
    ensures Decode(table, OrigPtr(bs, c, crc, got), bits) == Decode(table, Rows(Head(bs, c, crc, Value(got + x)), []), rest)
    decreases 24 - |got|
  {
    hide Decode, Value;
    var b, tail := TakeField(table, OrigPtr(bs, c, crc, got), bits);
    if |got| == 16 {
      x, rest := b, tail;
    } else {
      x, rest := OrigRead(table, bs, c, crc, got + b, tail);
      assert got + (b + x) == (got + b) + x && b + (x + rest) == (b + x) + rest;
      x := b + x;
    }
  }

  lemma {:induction false} StreamCrcRead(table: CrcTable, c: Word, got: seq<bool>, bits: seq<bool>) returns (x: seq<bool>, rest: seq<bool>)
    requires |got| < 32 && |got| % 8 == 0 && Decode(table, StreamCrc(c, got), bits).stage.Idle?
    ensures |got| + |x| == 32 && bits == x + rest && Value(got + x) == c
    ensures Decode(table, StreamCrc(c, got), bits) == Result(Idle, rest, [])
    decreases 32 - |got|
  {
    hide Value, Decode;
    var b, tail := TakeField(table, StreamCrc(c, got), bits);
    if |got| == 24 {
      x, rest := b, tail;
      StreamReading.IdleStays(table, rest);
    } else {
      x, rest := StreamCrcRead(table, c, got + b, tail);
      assert got + (b + x) == (got + b) + x && b + (x + rest) == (b + x) + rest;
      x := b + x;
    }
  }

  /** Eight bits that spell a byte. */
  lemma ByteRead(b: seq<bool>, m: seq<Byte>, rest: seq<bool>)
    requires |b| == 8 && |m| > 0 && Value(b) == m[0]
    ensures b + (BitsOf(m[1..]) + rest) == BitsOf(m) + rest
  {
    FieldOfValue(b);
    BitsOfHead(m);
    Assoc(b, BitsOf(m[1..]), rest);
  }

  lemma {:induction false} MagicRead(table: CrcTable, bs: nat, c: Word, k: nat, bits: seq<bool>) returns (rest: seq<bool>)
    requires 1 <= bs <= 9 && 1 <= k < 6 && Decode(table, Start(bs, c, k), bits).stage.Idle?
    ensures bits == BitsOf(BLOCK_MAGIC[k..]) + rest && Decode(table, Start(bs, c, k), bits) == Decode(table, BlockCrc(bs, c, []), rest)
    decreases 6 - k
  {
    hide Decode, Value, BitsOf;
    var b;
    b, rest := TakeField(table, Start(bs, c, k), bits);
    assert BLOCK_MAGIC[k..][1..] == BLOCK_MAGIC[k + 1..];
    if k < 5 { rest := MagicRead(table, bs, c, k + 1, rest); } else { StreamReading.NoBytes(BLOCK_MAGIC[k + 1..], rest); }
    ByteRead(b, BLOCK_MAGIC[k..], rest);
  }

  lemma {:induction false} EndMagicRead(table: CrcTable, c: Word, k: nat, bits: seq<bool>) returns (rest: seq<bool>)
    requires 1 <= k < 6 && Decode(table, End(c, k), bits).stage.Idle?
    ensures bits == BitsOf(END_MAGIC[k..]) + rest && Decode(table, End(c, k), bits) == Decode(table, StreamCrc(c, []), rest)
    decreases 6 - k
  {
    hide Decode, Value, BitsOf;
    var b;
    b, rest := TakeField(table, End(c, k), bits);
    assert END_MAGIC[k..][1..] == END_MAGIC[k + 1..];
    if k < 5 { rest := EndMagicRead(table, c, k + 1, rest); } else { StreamReading.NoBytes(END_MAGIC[k + 1..], rest); }
    ByteRead(b, END_MAGIC[k..], rest);
  }

  lemma {:induction false} HeaderRead(table: CrcTable, k: nat, bits: seq<bool>) returns (bs: nat, rest: seq<bool>)
    requires k < 4 && Decode(table, Magic(k), bits).stage.Idle?
    ensures 1 <= bs <= 9
    ensures var m: seq<Byte> := [0x42, 0x5a, 0x68, 0x30 + bs]; bits == BitsOf(m[k..]) + rest
    ensures Decode(table, Magic(k), bits) == Decode(table, Start(bs, 0, 0), rest)
    decreases 4 - k
  {
    hide Decode, Value, BitsOf;
    var b;
    b, rest := TakeField(table, Magic(k), bits);
    if k < 3 { bs, rest := HeaderRead(table, k + 1, rest); } else { bs := Value(b) - 0x30; }
    var m: seq<Byte> := [0x42, 0x5a, 0x68, 0x30 + bs];
    assert m[k..][1..] == m[k + 1..];
    if k == 3 { StreamReading.NoBytes(m[k + 1..], rest); }
    ByteRead(b, m[k..], rest);
  }

  // ---- A block ----

  lemma FieldRead(x: seq<bool>, n: nat)
    requires |x| == n
    ensures [] + x == x && Field(Value(x), n) == x
  {
    FieldOfValue(x);
  }

  /** Behind its magic number a block is read as a piece. */
  lemma PieceRead(table: CrcTable, bs: nat, c: Word, bits: seq<bool>) returns (crc: Word, origPtr: nat, body: Body, rest: seq<bool>)
    requires 1 <= bs <= 9 && Decode(table, BlockCrc(bs, c, []), bits).stage.Idle?
    ensures BodyOk(body) && bits == (Field(crc, 32) + ([false] + (Field(origPtr, 24) + BodyBits(body)))) + rest && |rest| < |bits|
    ensures origPtr < |BodyColumn(body)| <= 100000 * bs && StageOk(Output(Head(bs, c, crc, origPtr), BlockBytes(BodyColumn(body), origPtr)))
    ensures Decode(table, BlockCrc(bs, c, []), bits) == Decode(table, Output(Head(bs, c, crc, origPtr), BlockBytes(BodyColumn(body), origPtr)), rest)
  {
    hide Decode, Value, Field, After, BodyBits, BodyOk, BodyColumn, BlockBytes;
    var x, r1 := CrcRead(table, bs, c, [], bits);
    FieldRead(x, 32);
    crc := Value(x);
    var flag, r2 := TakeField(table, RandBit(bs, c, crc), r1);
    RandRead(bs, c, crc, flag);
    var y, r3 := OrigRead(table, bs, c, crc, [], r2);
    FieldRead(y, 24);
    origPtr := Value(y);
    body, rest := BodyRead(table, Head(bs, c, crc, origPtr), r3);
    var z := BodyBits(body);
    assert x + (flag + (y + (z + rest))) == (x + (flag + (y + z))) + rest;
  }

  lemma RandRead(bs: nat, c: Word, crc: nat, flag: seq<bool>)
    requires 1 <= bs <= 9 && crc < 0x1_0000_0000 && |flag| == 1 && !After(RandBit(bs, c, crc), flag).Halted?
    ensures flag == [false] && After(RandBit(bs, c, crc), flag) == OrigPtr(bs, c, crc, [])
  {}

  /** The block is shown only if its data has the checksum that is stored. */
  lemma DataRead(table: CrcTable, h: Head, bytes: seq<int>, rest: seq<bool>)
    requires StageOk(Output(h, bytes)) && Decode(table, Output(h, bytes), rest).stage.Idle?
    ensures IsBytes(bytes) && IsBytes(Expand(bytes).out) && Expand(bytes).cnt < 4 && h.crc == Final(Over(table, INITIAL, Expand(bytes).out))
    ensures Decode(table, Output(h, bytes), rest)
         == Prefixed(Expand(bytes).out, Decode(table, Start(h.bs, Combine(h.combined, Final(Over(table, INITIAL, Expand(bytes).out))), 0), rest))
  {
    hide Expand, Over, Final, Combine, Decode;
    DecodeOutput(table, h, bytes, rest);
    ExpandBytes(bytes);
    if Shown(h, bytes, table).0.Halted? { HaltedStays(table, Shown(h, bytes, table).0.why, rest); }
  }

  // ---- Blocks up to the trailer ----

  lemma {:induction false} BlocksRead(table: CrcTable, bs: nat, c: Word, bits: seq<bool>) returns (xs: seq<Piece>)
    requires 1 <= bs <= 9 && Decode(table, Start(bs, c, 0), bits).stage.Idle?
    ensures PiecesOk(xs, table, bs)
    ensures var r := Decode(table, Start(bs, c, 0), bits);
            bits == (PiecesBits(xs) + Trailer(Together(c, xs))) + r.rest && r.out == PiecesData(xs)
    decreases |bits|
  {
    hide Decode, BitsOf, Field, Value, Combine, PieceOk, PieceBits, PiecesBits, Over, Expand, BodyOk, BodyBits, BodyColumn, BlockBytes;
    var b, r := TakeField(table, Start(bs, c, 0), bits);
    if Value(b) != 0x17 {
      var tail := MagicRead(table, bs, c, 1, r);
      ByteRead(b, BLOCK_MAGIC, tail);
      var crc, origPtr, body, rest := PieceRead(table, bs, c, tail);
      var h, bytes := Head(bs, c, crc, origPtr), BlockBytes(BodyColumn(body), origPtr);
      DataRead(table, h, bytes, rest);
      var x := Piece(crc, origPtr, body, Expand(bytes).out);
      PieceIs(x, table, bs);
      var ys := BlocksRead(table, bs, Combine(c, crc), rest);
      xs := [x] + ys;
      PiecesMore(x, ys, table, bs, c);
      var m, f, t := BitsOf(BLOCK_MAGIC), Field(crc, 32) + ([false] + (Field(origPtr, 24) + BodyBits(body))), Trailer(Together(Combine(c, crc), ys));
      Regrouped(m, f, PiecesBits(ys), t, Decode(table, Start(bs, c, 0), bits).rest);
    } else {
      var tail := EndMagicRead(table, c, 1, r);
      ByteRead(b, END_MAGIC, tail);
      var x, rest := StreamCrcRead(table, c, [], tail);
      FieldRead(x, 32);
      xs := [];
      NoPieces(table, bs);
      assert BitsOf(END_MAGIC) + (x + rest) == ([] + (BitsOf(END_MAGIC) + x)) + rest;
    }
  }

  lemma Regrouped(m: seq<bool>, f: seq<bool>, p: seq<bool>, t: seq<bool>, rest: seq<bool>)
    ensures m + (f + ((p + t) + rest)) == (((m + f) + p) + t) + rest
  {}

  lemma NoPieces(table: CrcTable, bs: nat)
    ensures PiecesOk([], table, bs) && PiecesBits([]) == []
  {}

  /** Soundness of acceptance.  A run that ends well took a stream: what came out is the data of its
      blocks, every block stores the checksum of its data, and the trailer the checksum of them all. */
  lemma AcceptedIs(table: CrcTable, bits: seq<bool>) returns (bs: nat, xs: seq<Piece>)
    requires Decode(table, Magic(0), bits).stage.Idle?
    ensures var r := Decode(table, Magic(0), bits); IsStream(bits, table, bs, xs, r.rest) && r.out == PiecesData(xs)
  {
    hide Decode, PieceOk, Trailer, BitsOf, BodyOk;
    var rest;
    bs, rest := HeaderRead(table, 0, bits);
    var m: seq<Byte> := [0x42, 0x5a, 0x68, 0x30 + bs];
    assert m[0..] == m;
    xs := BlocksRead(table, bs, 0, rest);
  }

  /** The inputs that are accepted are the streams, with anything behind them. */
  lemma AcceptedIff(table: CrcTable, bits: seq<bool>)
    ensures Decode(table, Magic(0), bits).stage.Idle? <==> exists bs, xs, rest :: IsStream(bits, table, bs, xs, rest)
  {
    hide Decode, IsStream;
    if Decode(table, Magic(0), bits).stage.Idle? { var bs, xs := AcceptedIs(table, bits); }
    forall bs, xs, rest | IsStream(bits, table, bs, xs, rest) ensures Decode(table, Magic(0), bits).stage.Idle? {
      StreamReading.StreamRun(table, bits, bs, xs, rest);
    }
  }

  // ---- Changed checksums ----

  /** The 32 bits at place i are replaced by v. */
  ghost function Replaced(bits: seq<bool>, i: nat, v: Word): seq<bool>
    requires i + 32 <= |bits|
  {
    bits[..i] + Field(v, 32) + bits[i + 32..]
  }

  lemma ReplacedAt(a: seq<bool>, m: seq<bool>, x: seq<bool>, rest: seq<bool>, v: Word)
    requires |x| == 32
    ensures var w, i := a + (m + (x + rest)), |a| + |m|;
            i + 32 <= |w| && w[i..i + 32] == x && Replaced(w, i, v) == a + (m + (Field(v, 32) + rest))
  {
    hide Field;
    var w := a + (m + (x + rest));
    assert w[..|a| + |m|] == a + m;
    assert w[|a| + |m| + 32..] == rest;
    assert (a + m) + Field(v, 32) + rest == a + (m + (Field(v, 32) + rest));
  }

  /** Where the checksum behind the first k blocks is stored: after the header, the blocks and a magic number. */
  ghost function CrcPlace(xs: seq<Piece>, k: nat): nat
    requires k <= |xs| && forall j | 0 <= j < |xs| :: BodyOk(xs[j].body)
  {
    32 + |PiecesBits(xs[..k])| + 48
  }

  lemma {:induction false} PiecesConcat(xs: seq<Piece>, ys: seq<Piece>)
    requires (forall k | 0 <= k < |xs| :: BodyOk(xs[k].body)) && forall k | 0 <= k < |ys| :: BodyOk(ys[k].body)
    ensures PiecesBits(xs + ys) == PiecesBits(xs) + PiecesBits(ys)
    decreases |xs|
  {
    hide BodyOk, PieceBits;
    if |xs| == 0 {
      assert xs + ys == ys && [] + PiecesBits(ys) == PiecesBits(ys);
    } else {
      assert (xs + ys)[1..] == xs[1..] + ys;
      PiecesConcat(xs[1..], ys);
      Assoc(PieceBits(xs[0]), PiecesBits(xs[1..]), PiecesBits(ys));
    }
  }

  lemma SixBytes(bs: nat)
    requires bs <= 9
    ensures |BitsOf(BLOCK_MAGIC)| == 48 && |BitsOf(END_MAGIC)| == 48 && |Header(bs)| == 32
  {}

  /** The bits of a block behind its checksum. */
  ghost function Behind(x: Piece): seq<bool>
    requires BodyOk(x.body)
  {
    [false] + (Field(x.origPtr, 24) + BodyBits(x.body))
  }

  lemma StampedBits(x: Piece, v: Word)
    requires BodyOk(x.body)
    ensures PieceBits(x.(crc := v)) == BitsOf(BLOCK_MAGIC) + (Field(v, 32) + Behind(x))
  {
    hide BodyOk, BodyBits, BitsOf, Field;
  }

  /** What is stored for the checksum of block k, or behind the last block. */
  ghost function StoredCrc(xs: seq<Piece>, k: nat): Word
    requires k <= |xs|
  {
    if k < |xs| then xs[k].crc else Together(0, xs)
  }

  /** A stream around the checksum of block k. */
  ghost predicate Around(w: seq<bool>, bs: nat, xs: seq<Piece>, k: nat, x: seq<bool>, rest: seq<bool>)
    requires bs <= 9 && k <= |xs| && forall j | 0 <= j < |xs| :: BodyOk(xs[j].body)
  {
    w == (Header(bs) + PiecesBits(xs[..k])) + (BitsOf(if k < |xs| then BLOCK_MAGIC else END_MAGIC) + (x + rest))
  }

  /** What follows the checksum of block k. */
  ghost function RestAt(xs: seq<Piece>, k: nat, pad: seq<bool>): seq<bool>
    requires k <= |xs| && forall j | 0 <= j < |xs| :: BodyOk(xs[j].body)
  {
    if k < |xs| then Behind(xs[k]) + (PiecesBits(xs[k + 1..]) + (Trailer(Together(0, xs)) + pad)) else pad
  }

  lemma StreamAround(table: CrcTable, w: seq<bool>, bs: nat, xs: seq<Piece>, pad: seq<bool>, k: nat)
    requires k <= |xs| && IsStream(w, table, bs, xs, pad)
    ensures Around(w, bs, xs, k, Field(StoredCrc(xs, k), 32), RestAt(xs, k, pad))
  {
    hide PieceOk, BodyOk, BitsOf, Field, PieceBits, PiecesBits, Header, Behind, Together;
    var t := Trailer(Together(0, xs));
    if k < |xs| {
      var x := xs[k];
      StreamAt(xs, k, Header(bs), t, pad);
      StampedBits(x, x.crc);
      assert x.(crc := x.crc) == x;
      Regroup(Header(bs) + PiecesBits(xs[..k]), BitsOf(BLOCK_MAGIC), Field(x.crc, 32), Behind(x), PiecesBits(xs[k + 1..]) + (t + pad));
    } else {
      assert xs[..k] == xs;
      Spread0(Header(bs), PiecesBits(xs), BitsOf(END_MAGIC), Field(Together(0, xs), 32), pad);
    }
  }

  lemma Spread0(a: seq<bool>, b: seq<bool>, m: seq<bool>, x: seq<bool>, pad: seq<bool>)
    ensures a + ((b + (m + x)) + pad) == (a + b) + (m + (x + pad))
  {}

  /** The 32 bits at that place are the checksum, and others may be put there. */
  lemma PlaceAround(w: seq<bool>, bs: nat, xs: seq<Piece>, k: nat, x: seq<bool>, rest: seq<bool>, v: Word)
    requires bs <= 9 && k <= |xs| && (forall j | 0 <= j < |xs| :: BodyOk(xs[j].body)) && |x| == 32
    requires Around(w, bs, xs, k, x, rest)
    ensures var i := CrcPlace(xs, k); i + 32 <= |w| && w[i..i + 32] == x && Around(Replaced(w, i, v), bs, xs, k, Field(v, 32), rest)
  {
    hide BodyOk, BitsOf, Field, PiecesBits, Header, Replaced;
    SixBytes(bs);
    ReplacedAt(Header(bs) + PiecesBits(xs[..k]), BitsOf(if k < |xs| then BLOCK_MAGIC else END_MAGIC), x, rest, v);
  }

  lemma StoredAt(table: CrcTable, w: seq<bool>, bs: nat, xs: seq<Piece>, pad: seq<bool>, k: nat)
    requires k <= |xs| && IsStream(w, table, bs, xs, pad)
    ensures var i := CrcPlace(xs, k); i + 32 <= |w| && w[i..i + 32] == Field(StoredCrc(xs, k), 32)
  {
    hide PieceOk, BodyOk, Field, RestAt, StoredCrc, Around, CrcPlace;
    StreamAround(table, w, bs, xs, pad, k);
    PlaceAround(w, bs, xs, k, Field(StoredCrc(xs, k), 32), RestAt(xs, k, pad), 0);
  }

  /** A stream in which anything else is stored for the checksum of a block, or behind the last block,
      is refused there. */
  lemma ChangedIsRefused(table: CrcTable, w: seq<bool>, bs: nat, xs: seq<Piece>, pad: seq<bool>, k: nat, v: Word)
    requires k <= |xs| && v != StoredCrc(xs, k) && IsStream(w, table, bs, xs, pad) && CrcPlace(xs, k) + 32 <= |w|
    ensures var r := Decode(table, Magic(0), Replaced(w, CrcPlace(xs, k), v)); r.stage == Halted(BadData) && r.out == PiecesData(xs[..k])
  {
    hide PieceOk, BodyOk, BitsOf, Trailer, Decode, Field, Replaced, PieceBits, PiecesBits, Header, Behind, PiecesData, Together, CrcPlace;
    StreamAround(table, w, bs, xs, pad, k);
    PlaceAround(w, bs, xs, k, Field(StoredCrc(xs, k), 32), RestAt(xs, k, pad), v);
    var before, changed := xs[..k], Replaced(w, CrcPlace(xs, k), v);
    var tail := BitsOf(if k < |xs| then BLOCK_MAGIC else END_MAGIC) + (Field(v, 32) + RestAt(xs, k, pad));
    assert Around(changed, bs, xs, k, Field(v, 32), RestAt(xs, k, pad));
    Assoc(Header(bs), PiecesBits(before), tail);
    StreamReading.HeaderPassed(table, bs, PiecesBits(before) + tail);
    StreamReading.PiecesRun(table, bs, 0, before, tail);
    if k < |xs| {
      var x := xs[k];
      StampedBits(x, v);
      var rest := PiecesBits(xs[k + 1..]) + (Trailer(Together(0, xs)) + pad);
      Regroup([], BitsOf(BLOCK_MAGIC), Field(v, 32), Behind(x), rest);
      BlockReading.Nil(PieceBits(x.(crc := v)) + rest);
      BlockReading.Nil(tail);
      StreamReading.PieceRefused(table, bs, Together(0, before), x, v, rest);
    } else {
      assert before == xs;
      TrailerRefused(table, bs, Together(0, xs), v, pad);
    }
    assert PiecesData(before) + [] == PiecesData(before);
  }

  lemma Regroup(a: seq<bool>, m: seq<bool>, x: seq<bool>, c: seq<bool>, rest: seq<bool>)
    ensures a + ((m + (x + c)) + rest) == a + (m + (x + (c + rest)))
  {
    assert (m + (x + c)) + rest == m + (x + (c + rest));
  }

  lemma FirstPiece(x: Piece, ys: seq<Piece>)
    requires BodyOk(x.body) && forall k | 0 <= k < |ys| :: BodyOk(ys[k].body)
    ensures PiecesBits([x] + ys) == PieceBits(x) + PiecesBits(ys)
  {
    hide BodyOk, PieceBits;
    assert ([x] + ys)[1..] == ys;
  }

  /** A stream at block k. */
  lemma StreamAt(xs: seq<Piece>, k: nat, h: seq<bool>, t: seq<bool>, pad: seq<bool>)
    requires k < |xs| && forall j | 0 <= j < |xs| :: BodyOk(xs[j].body)
    ensures h + ((PiecesBits(xs) + t) + pad) == (h + PiecesBits(xs[..k])) + (PieceBits(xs[k]) + (PiecesBits(xs[k + 1..]) + (t + pad)))
  {
    hide BodyOk, PieceBits, PiecesBits;
    var before, x, after := xs[..k], xs[k], xs[k + 1..];
    assert xs == before + ([x] + after);
    PiecesConcat(before, [x] + after);
    FirstPiece(x, after);
    Spread(h, PiecesBits(before), PieceBits(x), PiecesBits(after), t, pad);
  }

  lemma Spread(h: seq<bool>, b: seq<bool>, p: seq<bool>, r: seq<bool>, t: seq<bool>, pad: seq<bool>)
    ensures h + (((b + (p + r)) + t) + pad) == (h + b) + (p + (r + (t + pad)))
  {}

  /** A trailer with another checksum than that of the blocks. */
  lemma TrailerRefused(table: CrcTable, bs: nat, c: Word, v: Word, rest: seq<bool>)
    requires 1 <= bs <= 9 && v != c
    ensures Decode(table, Start(bs, c, 0), BitsOf(END_MAGIC) + (Field(v, 32) + rest)) == Result(Halted(BadData), rest, [])
  {
    hide Decode, Field, Value, BitsOf;
    Pow2Values();
    var x := Field(v, 32);
    ValueOfField(v, 32);
    CanonicalCode.SmallMod(v, Pow2(32));
    assert [] + x == x;
    BitsOfHead(END_MAGIC);
    Assoc(Field(0x17, 8), BitsOf(END_MAGIC[1..]), x + rest);
    BlockReading.RunField(table, Start(bs, c, 0), 0x17, 8, BitsOf(END_MAGIC[1..]) + (x + rest));
    StreamReading.EndMagicRun(table, c, 1, x + rest);
    CrcRefused(table, c, [], x, rest);
  }

  lemma {:induction false} CrcRefused(table: CrcTable, c: Word, got: seq<bool>, x: seq<bool>, rest: seq<bool>)
    requires |got| + |x| == 32 && |got| % 8 == 0 && |x| >= 8 && Value(got + x) != c
    ensures Decode(table, StreamCrc(c, got), x + rest) == Result(Halted(BadData), rest, [])
    decreases |x|
  {
    hide Decode, Value;
    StreamReading.Eight(got, x, rest);
    DecodeStep(table, StreamCrc(c, got), x[..8], x[8..] + rest);
    if |x| > 8 {
      CrcRefused(table, c, got + x[..8], x[8..], rest);
    } else {
      StreamReading.Last(x, got, rest);
      HaltedStays(table, BadData, rest);
    }
  }
}

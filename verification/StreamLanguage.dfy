/** The streams that the decompressor takes, whoever wrote them: a header, blocks and a trailer. */
module StreamLanguage {
  import opened BitStream
  import opened Rotations
  import opened RunLength
  import opened Crc
  import opened BlockFormat
  import opened StreamFormat
  import opened DecoderMachine
  import opened BlockLanguage

  /** A block: its two fields, its body, and its data. */
  datatype Piece = Piece(crc: Word, origPtr: nat, body: Body, data: seq<int>)

  /** The body describes a block that fits. */
  ghost predicate PieceFits(x: Piece, bs: nat) { BodyOk(x.body) && x.origPtr < |BodyColumn(x.body)| <= 100000 * bs }

  /** The bytes that the body describes. */
  ghost function PieceBytes(x: Piece): (b: seq<int>)
    requires BodyOk(x.body) && x.origPtr < |BodyColumn(x.body)|
    ensures IsBytes(b)
  {
    BlockBytes(BodyColumn(x.body), x.origPtr)
  }

  /** The block stands for its data, whose checksum it stores. */
  ghost predicate PieceOk(x: Piece, table: CrcTable, bs: nat) {
    && PieceFits(x, bs)
    && var run := Expand(PieceBytes(x));
       run.cnt < 4 && x.data == run.out && IsBytes(x.data) && x.crc == Final(Over(table, INITIAL, x.data))
  }

  ghost function PieceBits(x: Piece): seq<bool>
    requires BodyOk(x.body)
  {
    BitsOf(BLOCK_MAGIC) + (Field(x.crc, 32) + ([false] + (Field(x.origPtr, 24) + BodyBits(x.body))))
  }

  ghost predicate PiecesOk(xs: seq<Piece>, table: CrcTable, bs: nat) {
    forall k | 0 <= k < |xs| :: PieceOk(xs[k], table, bs) && BodyOk(xs[k].body)
  }

  ghost function PiecesBits(xs: seq<Piece>): seq<bool>
    requires forall k | 0 <= k < |xs| :: BodyOk(xs[k].body)
  {
    if |xs| == 0 then [] else PieceBits(xs[0]) + PiecesBits(xs[1..])
  }

  ghost function PiecesData(xs: seq<Piece>): seq<int> {
    if |xs| == 0 then [] else xs[0].data + PiecesData(xs[1..])
  }

  /** The checksum c with those of the blocks taken in. */
  ghost function Together(c: Word, xs: seq<Piece>): Word
    decreases |xs|
  {
    if |xs| == 0 then c else Together(Combine(c, xs[0].crc), xs[1..])
  }

  /** The bits are a stream of the blocks xs, and rest. */
  ghost predicate IsStream(bits: seq<bool>, table: CrcTable, bs: nat, xs: seq<Piece>, rest: seq<bool>) {
    && 1 <= bs <= 9 && PiecesOk(xs, table, bs)
    && bits == Header(bs) + ((PiecesBits(xs) + Trailer(Together(0, xs))) + rest)
  }

  lemma PieceIs(x: Piece, table: CrcTable, bs: nat)
    requires PieceFits(x, bs)
    requires var run := Expand(PieceBytes(x));
             run.cnt < 4 && x.data == run.out && IsBytes(x.data) && x.crc == Final(Over(table, INITIAL, x.data))
    ensures PieceOk(x, table, bs)
    ensures PieceBits(x) == BitsOf(BLOCK_MAGIC) + (Field(x.crc, 32) + ([false] + (Field(x.origPtr, 24) + BodyBits(x.body))))
  {}

  lemma PiecesMore(x: Piece, ys: seq<Piece>, table: CrcTable, bs: nat, c: Word)
    requires PieceOk(x, table, bs) && PiecesOk(ys, table, bs)
    ensures PiecesOk([x] + ys, table, bs) && BodyOk(x.body) && PiecesBits([x] + ys) == PieceBits(x) + PiecesBits(ys)
    ensures PiecesData([x] + ys) == x.data + PiecesData(ys) && Together(c, [x] + ys) == Together(Combine(c, x.crc), ys)
  {
    hide Combine, Over, BodyColumn, BodyBits, PieceBytes, Expand, BodyOk, PieceBits;
    assert ([x] + ys)[1..] == ys;
    assert PieceFits(x, bs);
  }
}

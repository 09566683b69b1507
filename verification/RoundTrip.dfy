/** BZ2_bzBuffToBuffCompress and BZ2_bzBuffToBuffDecompress, and that the one undoes the other. */
module RoundTrip {
  import opened BitStream
  import opened Rotations
  import opened Crc
  import opened StreamFormat
  import opened Compressor
  import opened Decompressor
  import opened DecoderMachine
  import GenuineStream

  datatype Answer = Fine | OutbuffFull | UnexpectedEof | Failed

  /** Compresses source into at most destLen bytes.  Only lack of room makes it fail, as OUTBUFF_FULL but
      for nothing compressed into no room. */
  method BuffToBuffCompress(source: seq<int>, destLen: nat, blockSize100k: nat, workFactor: int, table: CrcTable, choose: seq<int> -> seq<int>)
    returns (result: Answer, dest: seq<Byte>, ghost xs: seq<Block>)
    requires IsBytes(source) && 1 <= blockSize100k <= 9 && Chooses(choose)
    ensures |dest| <= destLen
    ensures result.Fine? ==> WholeStream(dest, xs, table, blockSize100k) && DataFrom(xs, 0) == source
    ensures !result.Fine? ==> |dest| == destLen && result == if source == [] && destLen == 0 then Failed else OutbuffFull
  {
    hide *;
    var s := new EState(blockSize100k, workFactor, table, choose);
    s.SetBuffers(source, destLen);
    GivenInput(s);
    var code := s.BzCompress(FinishAction);
    dest, xs := s.written, s.xs;
    Fed(s.fed, s.input, source);
    result := if code.StreamEnd? then Fine else if code.FinishOk? then OutbuffFull else Failed;
  }

  lemma GivenInput(s: EState)
    requires s.fed == [] && s.written == [] && s.mode.Running?
    ensures !s.Refused(FinishAction)
    ensures s.fed + s.input == s.input && |s.written| == 0
  {}

  lemma Fed(fed: seq<int>, input: seq<int>, source: seq<int>)
    requires fed + input == source
    ensures input == [] ==> fed == source
  {
    if input == [] { assert fed + [] == fed; }
  }

  /** Decompresses source into at most destLen bytes: it succeeds just when the single-shot run reaches
      the end of the stream with that much room, whatever the bytes and the kind of vector. */
  method BuffToBuffDecompress(source: seq<Byte>, destLen: nat, small: bool, table: CrcTable) returns (result: Answer, dest: seq<int>)
    ensures |dest| <= destLen
    ensures var r := Decode(table, Magic(0), BitsOf(source));
            && (result.Fine? <==> r.stage.Idle? && |r.out| <= destLen) && (result.Fine? ==> dest == r.out)
  {
    hide Decode, DState.Valid, BitsOf, Decompressor.DState.All;
    var s := New(small, table);
    s.Supply(source);
    assert [] + BitsOf(source) == BitsOf(source);
    var code;
    code, dest := s.BzDecompress(destLen);
    result := match code
      case StreamEnd => Fine
      case Ok => if |dest| < destLen then UnexpectedEof else OutbuffFull
      case _ => Failed;
  }

  lemma PadOf(bytes: seq<Byte>, xs: seq<Block>, table: CrcTable, bs: nat) returns (pad: nat)
    requires WholeStream(bytes, xs, table, bs)
    ensures GoodBlocks(xs, table, bs) && bs <= 9 && BitsOf(bytes) == StreamBits(xs, table, bs) + Field(0, pad)
  {
    hide GoodBlocks, StreamBits, BitsOf;
    pad :| pad < 8 && BitsOf(bytes) == StreamBits(xs, table, bs) + Field(0, pad);
  }

  /** The single-shot run over a stream that was written ends well, with the data of its blocks. */
  lemma WrittenDecodes(bytes: seq<Byte>, xs: seq<Block>, table: CrcTable, bs: nat)
    requires WholeStream(bytes, xs, table, bs) && 1 <= bs
    ensures StageOk(Magic(0)) && Decode(table, Magic(0), BitsOf(bytes)).stage.Idle? && Decode(table, Magic(0), BitsOf(bytes)).out == DataFrom(xs, 0)
  {
    hide GoodBlocks, StreamBits, BitsOf, Decode, WholeStream, DataFrom;
    var pad := PadOf(bytes, xs, table, bs);
    GenuineStream.StreamRun(table, xs, bs, Field(0, pad));
  }

  /** End to end.  For all data, the empty one included, every block size, work factor, choice of
      coding tables and either way of decompressing: what was compressed decompresses, without
      an error, to the data. */
  method CompressThenDecompress(data: seq<int>, packedLen: nat, destLen: nat, blockSize100k: nat, workFactor: int, small: bool,
                                table: CrcTable, choose: seq<int> -> seq<int>)
    returns (packed: seq<Byte>, compressed: Answer, decompressed: Answer, restored: seq<int>)
    requires IsBytes(data) && 1 <= blockSize100k <= 9 && Chooses(choose) && |data| <= destLen
    ensures |packed| < packedLen ==> compressed.Fine?
    ensures compressed.Fine? ==> decompressed.Fine? && restored == data
  {
    hide *;
    ghost var xs;
    compressed, packed, xs := BuffToBuffCompress(data, packedLen, blockSize100k, workFactor, table, choose);
    decompressed, restored := BuffToBuffDecompress(packed, destLen, small, table);
    if compressed.Fine? { WrittenDecodes(packed, xs, table, blockSize100k); }
  }

  /** A stream that was written, cut into any pieces and given any windows: never an error, at the end
      just the data, and before the end the beginning of it.  With room left the end is reached. */
  method UnpackInPieces(pieces: seq<seq<Byte>>, windows: seq<nat>, small: bool, table: CrcTable, ghost xs: seq<Block>, ghost bs: nat)
    returns (code: ReturnCode, output: seq<int>, room: nat)
    requires |pieces| == |windows| && 1 <= bs && WholeStream(Joined(pieces, |pieces|), xs, table, bs)
    ensures code.StreamEnd? || code.Ok?
    ensures code.StreamEnd? ==> output == DataFrom(xs, 0)
    ensures code.Ok? ==> output < DataFrom(xs, 0) && room == 0
  {
    hide WholeStream, Joined, Decode, BitsOf, DataFrom;
    code, output, room := DecompressInPieces(pieces, windows, small, table);
    WrittenDecodes(Joined(pieces, |pieces|), xs, table, bs);
  }
}

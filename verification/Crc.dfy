/** The 32-bit checksum of blocks and streams, over a table that is a parameter here. */
module Crc {
  import opened Bits
  import opened Rotations

  type Word = x: int | 0 <= x < 0x1_0000_0000

  /** BZ2_crc32Table */
  type CrcTable = t: seq<Word> | |t| == 256 witness seq(256, i => 0)

  /** BZ_INITIALISE_CRC */
  const INITIAL: Word := 0xffff_ffff

  /** BZ_UPDATE_CRC */
  function Update(table: CrcTable, crc: Word, ch: int): (r: Word)
    requires 0 <= ch < 256
  {
    Pow2Values();
    XorBound(crc / 0x100_0000, ch, 8);
    XorBound(crc * 256 % 0x1_0000_0000, table[Xor(crc / 0x100_0000, ch)], 32);
    Xor(crc * 256 % 0x1_0000_0000, table[Xor(crc / 0x100_0000, ch)])
  }

  /** The checksum after the bytes s. */
  function Over(table: CrcTable, crc: Word, s: seq<int>): Word
    requires IsBytes(s)
  {
    if |s| == 0 then crc else Update(table, Over(table, crc, s[..|s| - 1]), s[|s| - 1])
  }

  /** BZ_FINALISE_CRC */
  function Final(crc: Word): Word { 0xffff_ffff - crc }

  /** What the checksum of one more block makes of the stream's. */
  function Combine(combined: Word, block: Word): Word {
    Pow2Values();
    XorBound(combined * 2 % 0x1_0000_0000 + combined / 0x8000_0000, block, 32);
    Xor(combined * 2 % 0x1_0000_0000 + combined / 0x8000_0000, block)
  }

  lemma OverNext(table: CrcTable, crc: Word, s: seq<int>, x: int)
    requires IsBytes(s) && 0 <= x < 256
    ensures IsBytes(s + [x]) && Over(table, crc, s + [x]) == Update(table, Over(table, crc, s), x)
  {
    assert (s + [x])[..|s + [x]| - 1] == s;
  }
}

/** The compressor's input side: bytes are run-coded into the block while a run is pending. */
module RunEncoder {
  import opened Rotations
  import opened MoveToFront
  import opened RunLength
  import opened Crc

  const NO_CHAR := 256

  /** The block b stands for done, and a run of len times ch is pending that can follow it. */
  ghost predicate Coding(b: seq<int>, done: seq<int>, ch: int, len: int)
  {
    && IsBytes(b) && IsBytes(done) && Expand(b).out == done && Expand(b).cnt < 4
    && 0 <= ch <= NO_CHAR && (if ch < NO_CHAR then 1 <= len <= 255 else len == 0)
    && (ch < NO_CHAR && Expand(b).cnt > 0 ==> Expand(b).ch != ch)
  }

  /** inUse marks just the bytes of the block b. */
  ghost predicate Marks(inUse: seq<bool>, b: seq<int>)
  {
    |inUse| == 256 && forall c | 0 <= c < 256 :: inUse[c] <==> c in b
  }

  class Encoder {
    const table: CrcTable
    const blockSize100k: nat
    const block: array<int>
    const inUse: array<bool>
    var nblock: nat
    var state_in_ch: int
    var state_in_len: int
    var blockCRC: Word
    ghost var done: seq<int>     // the bytes that the block stands for

    function NblockMAX(): int { 100000 * blockSize100k - 19 }

    ghost predicate Valid()
      reads this, block, inUse
    {
      && 1 <= blockSize100k <= 9 && block.Length == 100000 * blockSize100k && inUse.Length == 256 && nblock <= block.Length
      && Coding(block[..nblock], done, state_in_ch, state_in_len)
      && Marks(inUse[..], block[..nblock]) && blockCRC == Over(table, INITIAL, done)
    }

    /** The bytes of the pending run. */
    ghost function Pending(): seq<int>
      requires 0 <= state_in_len
      reads this
    {
      Copies(state_in_ch, state_in_len)
    }

    constructor (blockSize100k: nat, table: CrcTable)
      requires 1 <= blockSize100k <= 9
      ensures Valid() && nblock == 0 && done == [] && state_in_ch == NO_CHAR && fresh(block) && fresh(inUse)
      ensures this.blockSize100k == blockSize100k && this.table == table
    {
      this.blockSize100k, this.table := blockSize100k, table;
      block, inUse := new int[100000 * blockSize100k], new bool[256](_ => false);
      nblock, state_in_ch, state_in_len, blockCRC, done := 0, NO_CHAR, 0, INITIAL, [];
      new;
      assert block[..0] == [];
    }

    /** prepare_new_block; a pending run stays pending. */
    method PrepareNewBlock()
      requires Valid()
      modifies this`nblock, this`blockCRC, this`done, inUse
      ensures Valid() && nblock == 0 && done == []
    {
      nblock, blockCRC, done := 0, INITIAL, [];
      for i := 0 to 256
        invariant forall c | 0 <= c < i :: !inUse[c]
        modifies inUse
      {
        inUse[i] := false;
      }
      assert block[..0] == [];
    }

    /** isempty_RL */
    predicate IsEmptyRL()
      reads this
    {
      !(state_in_ch < NO_CHAR && state_in_len > 0)
    }

    /** Appends x to the block. */
    method PutByte(x: int)
      requires nblock < block.Length
      modifies this`nblock, block
      ensures nblock == old(nblock) + 1 && block[..nblock] == old(block[..nblock]) + [x]
    {
      block[nblock] := x;
      nblock := nblock + 1;
    }

    /** Brings the checksum up to date with len more bytes ch. */
    method UpdateCRC(ch: int, len: nat)
      requires 0 <= ch < 256 && IsBytes(done) && blockCRC == Over(table, INITIAL, done)
      modifies this`blockCRC, this`done
      ensures done == old(done) + Copies(ch, len) && IsBytes(done) && blockCRC == Over(table, INITIAL, done)
    {
      hide Over;
      ghost var o := done;
      assert o + Copies(ch, 0) == o;
      for i := 0 to len
        invariant done == o + Copies(ch, i) && IsBytes(done) && blockCRC == Over(table, INITIAL, done)
      {
        OverNext(table, INITIAL, done, ch);
        blockCRC := Update(table, blockCRC, ch);
        done := done + [ch];
        assert done == o + Copies(ch, i + 1);
      }
    }

    /** The block's bytes of a run. */
    method PutRun(ch: int, len: int)
      requires 0 <= ch < 256 && 1 <= len <= 255 && nblock + 5 <= block.Length
      modifies this`nblock, block
      ensures nblock <= old(nblock) + 5 && block[..nblock] == old(block[..nblock]) + Coded(ch, len)
    {
      ghost var b := block[..nblock];
      for i := 0 to if len < 4 then len else 4
        invariant nblock == old(nblock) + i && block[..nblock] == b + Copies(ch, i)
      {
        PutByte(ch);
        assert b + Copies(ch, i + 1) == (b + Copies(ch, i)) + [ch];
      }
      if len >= 4 {
        PutByte(len - 4);
        assert b + (Copies(ch, 4) + [len - 4]) == (b + Copies(ch, 4)) + [len - 4];
      }
    }

    /** add_pair_to_block: the pending run goes into the block. */
    method AddPairToBlock()
      requires Valid() && state_in_ch < NO_CHAR && nblock + 5 <= block.Length
      modifies this`nblock, this`blockCRC, this`done, block, inUse
      ensures nblock <= old(nblock) + 5 && done == old(done) + Pending()
      ensures block[..nblock] == old(block[..nblock]) + Coded(state_in_ch, state_in_len)
      ensures IsBytes(done) && blockCRC == Over(table, INITIAL, done)
      ensures Marks(inUse[..], block[..nblock])
    {
      hide Expand, Coding, Over, Marks, Coded;
      CodingShape(block[..nblock], done, state_in_ch, state_in_len);
      MarksMore(inUse[..], block[..nblock], state_in_ch, state_in_len);
      var ch, len := state_in_ch, state_in_len;
      UpdateCRC(ch, len);
      inUse[ch] := true;
      if len >= 4 { inUse[len - 4] := true; }
      PutRun(ch, len);
    }

    /** flush_RL */
    method FlushRL()
      requires Valid() && nblock + 5 <= block.Length
      modifies this`nblock, this`blockCRC, this`done, this`state_in_ch, this`state_in_len, block, inUse
      ensures Valid() && done == old(done) + old(Pending()) && state_in_ch == NO_CHAR && nblock <= old(nblock) + 5
      ensures block[..nblock] == if old(state_in_ch) == NO_CHAR then old(block[..nblock]) else old(block[..nblock]) + Coded(old(state_in_ch), old(state_in_len))
    {
      hide Expand, Coding, Over, Marks;
      CodingShape(block[..nblock], done, state_in_ch, state_in_len);
      assert done + Copies(state_in_ch, 0) == done;
      if state_in_ch < NO_CHAR {
        CodedNext(block[..nblock], done, state_in_ch, state_in_len);
        AddPairToBlock();
      }
      NothingPending(block[..nblock], done, state_in_ch, state_in_len);
      state_in_ch, state_in_len := NO_CHAR, 0;
    }

    /** ADD_CHAR_TO_BLOCK.  Between flush_RL and the next block no byte is added. */
    method AddChar(zchh: int)
      requires Valid() && (state_in_ch == NO_CHAR ==> nblock == 0) && 0 <= zchh < 256 && nblock + 5 <= block.Length
      modifies this`nblock, this`blockCRC, this`done, this`state_in_ch, this`state_in_len, block, inUse
      ensures Valid() && !IsEmptyRL() && nblock <= old(nblock) + 5
      ensures done + Pending() == old(done) + old(Pending()) + [zchh]
      ensures state_in_ch == zchh && state_in_len == if zchh == old(state_in_ch) && old(state_in_len) < 255 then old(state_in_len) + 1 else 1
      ensures block[..nblock] == if state_in_len > 1 || old(state_in_ch) == NO_CHAR then old(block[..nblock])
                                 else old(block[..nblock]) + Coded(old(state_in_ch), old(state_in_len))
    {
      hide Expand, Coding, Over, Marks, Coded;
      CodingShape(block[..nblock], done, state_in_ch, state_in_len);
      ghost var o, p := done, Pending();
      Appended(o, state_in_ch, state_in_len, zchh);
      if state_in_ch < NO_CHAR { CodedNext(block[..nblock], done, state_in_ch, state_in_len); }
      if zchh != state_in_ch && state_in_len == 1 {
        MarksMore(inUse[..], block[..nblock], state_in_ch, 1);
        OneByte(state_in_ch);
        var ch := state_in_ch;
        UpdateCRC(ch, 1);
        inUse[ch] := true;
        PutByte(ch);
        state_in_ch := zchh;
      } else if zchh != state_in_ch || state_in_len == 255 {
        if state_in_ch < NO_CHAR { AddPairToBlock(); } else { Fresh(block[..nblock], done, state_in_len, zchh); }
        state_in_ch := zchh;
        state_in_len := 1;
      } else {
        Longer(block[..nblock], done, state_in_ch, state_in_len);
        state_in_len := state_in_len + 1;
      }
    }
  }

  lemma CodingShape(b: seq<int>, done: seq<int>, ch: int, len: int)
    requires Coding(b, done, ch, len)
    ensures IsBytes(b) && IsBytes(done) && 0 <= ch <= NO_CHAR && if ch < NO_CHAR then 1 <= len <= 255 else len == 0
  {}

  lemma MarksMore(u: seq<bool>, b: seq<int>, ch: int, len: int)
    requires Marks(u, b) && 0 <= ch < 256 && 1 <= len <= 255
    ensures |u| == 256
    ensures Marks(if len >= 4 then u[ch := true][len - 4 := true] else u[ch := true], b + Coded(ch, len))
  {
    var r := Coded(ch, len);
    assert r[0] == ch && (len >= 4 ==> r[4] == len - 4);
    assert forall c :: c in b + r <==> c in b || c in r;
  }

  lemma OneByte(ch: int)
    requires 0 <= ch < 256
    ensures Coded(ch, 1) == [ch]
  {}

  /** One more byte after what is done and pending. */
  lemma Appended(o: seq<int>, ch: int, len: nat, x: int)
    ensures len == 0 ==> o + Copies(x, 1) == (o + Copies(ch, len)) + [x]
    ensures (o + Copies(ch, len)) + Copies(x, 1) == (o + Copies(ch, len)) + [x]
    ensures x == ch ==> o + Copies(ch, len + 1) == (o + Copies(ch, len)) + [x]
  {}

  lemma Fresh(b: seq<int>, done: seq<int>, len: int, c: int)
    requires Coding(b, done, NO_CHAR, len) && b == [] && 0 <= c < 256
    ensures Coding(b, done, c, 1)
  {}

  lemma Longer(b: seq<int>, done: seq<int>, ch: int, len: int)
    requires Coding(b, done, ch, len) && ch < NO_CHAR && len < 255
    ensures Coding(b, done, ch, len + 1)
  {}

  /** Once the pending run is in the block, any run of another character can follow, and one of
      the same character if a count was written. */
  lemma CodedNext(b: seq<int>, done: seq<int>, ch: int, len: int)
    requires Coding(b, done, ch, len) && ch < NO_CHAR
    ensures IsBytes(b + Coded(ch, len)) && IsBytes(done + Copies(ch, len))
    ensures Coding(b + Coded(ch, len), done + Copies(ch, len), NO_CHAR, 0)
    ensures forall c | 0 <= c < 256 && (c != ch || len >= 4) :: Coding(b + Coded(ch, len), done + Copies(ch, len), c, 1)
  {
    CodedRun(b, ch, len);
  }

  lemma NothingPending(b: seq<int>, done: seq<int>, ch: int, len: int)
    ensures Coding(b, done, ch, len) ==> Coding(b, done, NO_CHAR, 0)
  {}
}

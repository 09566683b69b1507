/** unRLE_obuf_to_output_FAST and _SMALL: both read the block through their inverse vector and
    undo the initial run coding into output windows of any size. */
module RunExpander {
  import opened Rotations
  import opened BurrowsWheeler
  import opened MoveToFront
  import opened RunLength
  import opened InverseVector
  import opened Crc

  /** The column of a block, its inverse vector and the row to start from. */
  datatype Source = Source(col: seq<int>, t: seq<int>, o: nat)

  ghost predicate SourceOk(s: Source)
  {
    && IsBytes(s.col) && IsInverse(s.col, s.t) && s.o < |s.col| <= MAX_BLOCK
    && |s.t| == |s.col| && forall q | 0 <= q < |s.t| :: 0 <= s.t[q] < |s.t|
  }

  /** The block. */
  ghost function Block(s: Source): (b: seq<int>)
    requires SourceOk(s)
    ensures |b| == |s.col| && IsBytes(b)
    ensures forall k | 0 <= k < |b| :: b[k] == BlockByte(s.col, s.t, s.o, k)
  {
    WalkBytes(s.col, s.t, s.o, |s.col|)
  }

  /** u bytes were fetched, and what was shown is what the first u - 1 stand for; the last one
      fetched starts a new run. */
  ghost predicate Ready(b: seq<int>, u: int, shown: seq<int>)
    requires IsBytes(b)
  {
    && 1 <= u <= |b| + 1 && IsBytes(b[..u - 1])
    && Expand(b[..u - 1]).out == shown && Expand(b[..u - 1]).cnt < 4
    && (u <= |b| && Expand(b[..u - 1]).cnt > 0 ==> Expand(b[..u - 1]).ch != b[u - 1])
  }

  /** The block ends in a run of four without a count. */
  ghost predicate Broken(b: seq<int>)
    requires IsBytes(b)
  {
    Expand(b).cnt == 4
  }

  /** What is known between two windows: a run of len times ch waits to be shown. */
  ghost predicate Waiting(b: seq<int>, u: int, k0: int, emitted: seq<int>, ch: int, len: int)
    requires IsBytes(b)
  {
    && len >= 0 && 0 <= ch < 256
    && if u == |b| + 2 then Broken(b)
       else Ready(b, u, emitted + Copies(ch, len)) && (u <= |b| ==> k0 == b[u - 1])
  }

  /** m equal bytes after which the run ends: another byte, or the end of the block. */
  lemma ShortRun(b: seq<int>, u: int, shown: seq<int>, m: nat)
    requires IsBytes(b) && Ready(b, u, shown) && 1 <= m <= 3 && u - 1 + m <= |b|
    requires forall i | u - 1 <= i < u - 1 + m :: b[i] == b[u - 1]
    requires u - 1 + m < |b| ==> b[u - 1 + m] != b[u - 1]
    ensures Ready(b, u + m, shown + Copies(b[u - 1], m))
  {
    hide Expand;
    FewCopies(b[..u - 1], b[u - 1], m);
    assert b[..u - 1 + m] == b[..u - 1] + Copies(b[u - 1], m);
  }

  /** Four equal bytes and a count. */
  lemma LongRun(b: seq<int>, u: int, shown: seq<int>)
    requires IsBytes(b) && Ready(b, u, shown) && u + 3 <= |b|
    requires forall i | u - 1 <= i < u + 3 :: b[i] == b[u - 1]
    ensures u + 3 == |b| ==> Broken(b)
    ensures u + 3 < |b| ==> Ready(b, u + 5, shown + Copies(b[u - 1], b[u + 3] + 4))
  {
    hide Expand;
    var ch := b[u - 1];
    FewCopies(b[..u - 1], ch, 4);
    assert b[..u + 3] == b[..u - 1] + Copies(ch, 4);
    if u + 3 < |b| {
      ExpandNext(b[..u + 3], b[u + 3]);
      assert b[..u + 4] == b[..u + 3] + [b[u + 3]];
      assert (shown + Copies(ch, 4)) + Copies(ch, b[u + 3]) == shown + Copies(ch, b[u + 3] + 4);
    } else {
      assert b[..u + 3] == b;
    }
  }

  /** At the end of the block everything was shown. */
  lemma AllShown(b: seq<int>, k0: int, emitted: seq<int>, ch: int)
    requires IsBytes(b) && Waiting(b, |b| + 1, k0, emitted, ch, 0)
    ensures emitted == Expand(b).out && !Broken(b)
  {
    assert b[..|b|] == b;
    assert emitted + Copies(ch, 0) == emitted;
  }

  /** Part of what waits is shown. */
  lemma Show(b: seq<int>, u: int, k0: int, emitted: seq<int>, ch: int, len: int)
    requires IsBytes(b) && Waiting(b, u, k0, emitted, ch, len) && len > 0
    ensures Waiting(b, u, k0, emitted + [ch], ch, len - 1)
  {
    assert emitted + Copies(ch, len) == (emitted + [ch]) + Copies(ch, len - 1);
  }

  class Small {
    const table: CrcTable
    const ll16: array<int>
    const ll4: array<int>
    const cftab: array<int>
    const blockSize100k: nat
    const saveNblock: nat
    ghost const s: Source
    ghost const seen: set<int>
    var tPos: int
    var k0: int
    var nblockUsed: int
    var stateOutLen: int
    var stateOutCh: int
    var calculatedBlockCRC: Word
    ghost var emitted: seq<int>     // what was shown of this block

    /** The vectors are in place and the position is that after nblockUsed fetches. */
    ghost predicate Vectors()
      reads this`tPos, this`nblockUsed, ll16, ll4, cftab
    {
      && SourceOk(s) && saveNblock == |s.col| <= 100000 * blockSize100k && ll16 != ll4 && Below(cftab[..], s.col)
      && Turned(ll16[..], ll4[..], s.col, s.t, seen) && s.o in seen && (forall q | q in seen :: 0 <= q < |s.t| && s.t[q] in seen)
      && 0 <= nblockUsed && tPos == Walk(s.t, s.o, nblockUsed)
    }

    ghost predicate Valid()
      reads this, ll16, ll4, cftab
    {
      && Vectors() && Waiting(Block(s), nblockUsed, k0, emitted, stateOutCh, stateOutLen)
      && IsBytes(emitted) && calculatedBlockCRC == Over(table, INITIAL, emitted)
    }

    /** Everything of the block was shown. */
    predicate Finished()
      reads this
    {
      nblockUsed == saveNblock + 1 && stateOutLen == 0
    }

    constructor (table: CrcTable, ll16: array<int>, ll4: array<int>, cftab: array<int>, blockSize100k: nat, nblock: nat, origPtr: nat,
                 ghost s: Source, ghost seen: set<int>)
      requires SourceOk(s) && nblock == |s.col| <= 100000 * blockSize100k && s.o == origPtr && ll16 != ll4 && Below(cftab[..], s.col)
      requires Turned(ll16[..], ll4[..], s.col, s.t, seen) && s.o in seen && forall q | q in seen :: 0 <= q < |s.t| && s.t[q] in seen
      ensures Valid() && emitted == [] && this.s == s && this.saveNblock == nblock && this.table == table
      ensures this.ll16 == ll16 && this.ll4 == ll4 && this.cftab == cftab
    {
      this.table, this.ll16, this.ll4, this.cftab, this.blockSize100k, this.saveNblock := table, ll16, ll4, cftab, blockSize100k, nblock;
      this.s, this.seen, emitted := s, seen, [];
      tPos, nblockUsed, k0, stateOutLen, stateOutCh, calculatedBlockCRC := origPtr, 0, 0, 0, 0, INITIAL;
      new;
      hide IsInverse, Turned, Below, Expand, Waiting, Block;
      k0 := Fetch();
      FirstReady(s, stateOutCh, k0);
    }

    /** BZ_GET_SMALL and the count of bytes used. */
    method Fetch() returns (c: int)
      requires Vectors()
      modifies this`tPos, this`nblockUsed
      ensures Vectors() && nblockUsed == old(nblockUsed) + 1 && 0 <= c < 256
      ensures SourceOk(s) && (old(nblockUsed) < |Block(s)| ==> c == Block(s)[old(nblockUsed)])
    {
      hide IsInverse, Turned, Below;
      var corrupt;
      corrupt, c, tPos := GetSmall(ll16, ll4, cftab, tPos, blockSize100k, s.col, s.t, s.o, nblockUsed, seen);
      assert !corrupt;
      nblockUsed := nblockUsed + 1;
    }

    /** unRLE_obuf_to_output_SMALL: shows the block through one output window.  It says corrupt
        only, and then always before the end, when the block ends in four equal bytes. */
    method Unrle(availOut: nat) returns (corrupt: bool, output: seq<int>)
      requires Valid()
      modifies this`tPos, this`k0, this`nblockUsed, this`stateOutLen, this`stateOutCh, this`calculatedBlockCRC, this`emitted
      ensures IsBytes(output) && emitted == old(emitted) + output && |output| <= availOut
      ensures corrupt ==> Broken(Block(s))
      ensures !corrupt ==> Valid() && (|output| == availOut || Finished())
    {
      hide Expand, Over, Vectors, Broken, Ready, Waiting, SourceOk;
      output := [];
      corrupt := false;
      while true
        invariant Valid() && emitted == old(emitted) + output && |output| <= availOut && IsBytes(output)
        decreases saveNblock + 2 - nblockUsed
      {
        while true
          invariant Valid() && emitted == old(emitted) + output && |output| <= availOut && IsBytes(output)
          modifies this`stateOutLen, this`calculatedBlockCRC, this`emitted
          decreases stateOutLen
        {
          VectorsSource();
          UsedRange(s, nblockUsed, k0, emitted, stateOutCh, stateOutLen);
          if |output| == availOut { return; }
          if stateOutLen == 0 { break; }
          Show(Block(s), nblockUsed, k0, emitted, stateOutCh, stateOutLen);
          OverNext(table, INITIAL, emitted, stateOutCh);
          output := output + [stateOutCh];
          calculatedBlockCRC := Update(table, calculatedBlockCRC, stateOutCh);
          emitted := emitted + [stateOutCh];
          stateOutLen := stateOutLen - 1;
        }
        if nblockUsed == saveNblock + 1 { return; }
        if nblockUsed > saveNblock + 1 {
          VectorsSource();
          BrokenAt(Block(s), nblockUsed, k0, emitted, stateOutCh, stateOutLen);
          return true, output;
        }
        StartRun();
      }
    }

    /** Starts the next run: up to three equal bytes, or four and a count. */
    method StartRun()
      requires Vectors() && SourceOk(s) && Waiting(Block(s), nblockUsed, k0, emitted, stateOutCh, stateOutLen)
      requires stateOutLen == 0 && nblockUsed <= saveNblock == |Block(s)|
      modifies this`tPos, this`k0, this`nblockUsed, this`stateOutLen, this`stateOutCh
      ensures Vectors() && Waiting(Block(s), nblockUsed, k0, emitted, stateOutCh, stateOutLen) && nblockUsed > old(nblockUsed)
    {
      hide *;
      ghost var b, u, ch0 := Block(s), nblockUsed, stateOutCh;
      UsedRange(s, u, k0, emitted, ch0, 0);
      WaitingByte(b, u, k0, emitted, ch0);
      stateOutLen := 1;
      stateOutCh := k0;
      var k1 := Fetch();
      if nblockUsed == saveNblock + 1 { ShortWait(b, u, k0, emitted, ch0, 1, k0); return; }
      if k1 != k0 { ShortWait(b, u, k0, emitted, ch0, 1, k1); k0 := k1; return; }
      SameNext(b, u, 1, k0);
      stateOutLen := 2;
      k1 := Fetch();
      if nblockUsed == saveNblock + 1 { ShortWait(b, u, k0, emitted, ch0, 2, k0); return; }
      if k1 != k0 { ShortWait(b, u, k0, emitted, ch0, 2, k1); k0 := k1; return; }
      SameNext(b, u, 2, k0);
      stateOutLen := 3;
      k1 := Fetch();
      if nblockUsed == saveNblock + 1 { ShortWait(b, u, k0, emitted, ch0, 3, k0); return; }
      if k1 != k0 { ShortWait(b, u, k0, emitted, ch0, 3, k1); k0 := k1; return; }
      SameNext(b, u, 3, k0);
      k1 := Fetch();
      stateOutLen := k1 + 4;
      k0 := Fetch();
      LongWait(b, u, stateOutCh, emitted, ch0, k1, k0);
    }

    lemma VectorsSource()
      requires Vectors()
      ensures SourceOk(s) && |Block(s)| == |s.col| == saveNblock
    {}
  }

  class Fast {
    const table: CrcTable
    const tt: array<int>
    const blockSize100k: nat
    const saveNblock: nat
    ghost const s: Source
    var tPos: int
    var k0: int
    var nblockUsed: int
    var stateOutLen: int
    var stateOutCh: int
    var calculatedBlockCRC: Word
    ghost var emitted: seq<int>     // what was shown of this block

    /** The vector is in place and the position is that after nblockUsed fetches. */
    ghost predicate Vectors()
      reads this`tPos, this`nblockUsed, tt
    {
      && SourceOk(s) && saveNblock == |s.col| <= 100000 * blockSize100k && Carries(tt[..], s.col, s.t)
      && 0 <= nblockUsed && tPos == Walk(s.t, s.o, nblockUsed + 1)
    }

    ghost predicate Valid()
      reads this, tt
    {
      && Vectors() && Waiting(Block(s), nblockUsed, k0, emitted, stateOutCh, stateOutLen)
      && IsBytes(emitted) && calculatedBlockCRC == Over(table, INITIAL, emitted)
    }

    /** Everything of the block was shown. */
    predicate Finished()
      reads this
    {
      nblockUsed == saveNblock + 1 && stateOutLen == 0
    }

    constructor (table: CrcTable, tt: array<int>, blockSize100k: nat, nblock: nat, origPtr: nat, ghost s: Source)
      requires SourceOk(s) && nblock == |s.col| <= 100000 * blockSize100k && s.o == origPtr && Carries(tt[..], s.col, s.t)
      ensures Valid() && emitted == [] && this.s == s && this.saveNblock == nblock && this.table == table && this.tt == tt
    {
      hide IsInverse, Carries, Expand, Waiting, Block, Walk;
      FirstPosition(tt[..], s);
      this.table, this.tt, this.blockSize100k, this.saveNblock := table, tt, blockSize100k, nblock;
      this.s, emitted := s, [];
      tPos, nblockUsed, k0, stateOutLen, stateOutCh, calculatedBlockCRC := tt[origPtr] / 256, 0, 0, 0, 0, INITIAL;
      new;
      k0 := Fetch();
      FirstReady(s, stateOutCh, k0);
    }

    /** BZ_GET_FAST_C and the count of bytes used. */
    method Fetch() returns (c: int)
      requires Vectors()
      modifies this`tPos, this`nblockUsed
      ensures Vectors() && nblockUsed == old(nblockUsed) + 1 && 0 <= c < 256
      ensures SourceOk(s) && (old(nblockUsed) < |Block(s)| ==> c == Block(s)[old(nblockUsed)])
    {
      hide IsInverse, Carries;
      var corrupt;
      corrupt, c, tPos := GetFast(tt, tPos, blockSize100k, s.col, s.t, s.o, nblockUsed);
      assert !corrupt;
      nblockUsed := nblockUsed + 1;
    }

    /** One byte of the run is shown. */
    method Emit(ghost len: int) returns (c: int)
      requires Vectors() && SourceOk(s) && Waiting(Block(s), nblockUsed, k0, emitted, stateOutCh, len) && len > 0
      requires IsBytes(emitted) && calculatedBlockCRC == Over(table, INITIAL, emitted)
      modifies this`calculatedBlockCRC, this`emitted
      ensures 0 <= c < 256 && emitted == old(emitted) + [c] && Waiting(Block(s), nblockUsed, k0, emitted, stateOutCh, len - 1)
      ensures IsBytes(emitted) && calculatedBlockCRC == Over(table, INITIAL, emitted)
    {
      hide Expand, Over, Vectors, Broken, Ready, Waiting, SourceOk, Block;
      UsedRange(s, nblockUsed, k0, emitted, stateOutCh, len);
      Show(Block(s), nblockUsed, k0, emitted, stateOutCh, len);
      OverNext(table, INITIAL, emitted, stateOutCh);
      c := stateOutCh;
      calculatedBlockCRC := Update(table, calculatedBlockCRC, c);
      emitted := emitted + [c];
    }

    /** unRLE_obuf_to_output_FAST: as the SMALL form, except that a new run is started even when
        the window is full. */
    method Unrle(availOut: nat) returns (corrupt: bool, output: seq<int>)
      requires Valid()
      modifies this`tPos, this`k0, this`nblockUsed, this`stateOutLen, this`stateOutCh, this`calculatedBlockCRC, this`emitted
      ensures IsBytes(output) && emitted == old(emitted) + output && |output| <= availOut
      ensures corrupt ==> Broken(Block(s))
      ensures !corrupt ==> Valid() && (|output| == availOut || Finished())
    {
      hide Expand, Over, Vectors, Broken, Ready, Waiting, SourceOk;
      output := [];
      corrupt := false;
      VectorsSource();
      var one := false;     // a run of one is shown without looking at stateOutLen
      while true
        invariant Vectors() && SourceOk(s) && Waiting(Block(s), nblockUsed, k0, emitted, stateOutCh, if one then 1 else stateOutLen)
        invariant IsBytes(emitted) && calculatedBlockCRC == Over(table, INITIAL, emitted)
        invariant emitted == old(emitted) + output && |output| <= availOut && IsBytes(output)
        decreases saveNblock + 2 - nblockUsed
      {
        VectorsSource();
        UsedRange(s, nblockUsed, k0, emitted, stateOutCh, if one then 1 else stateOutLen);
        if one || stateOutLen > 0 {
          if !one {
            while true
              invariant Valid() && stateOutLen >= 1
              invariant emitted == old(emitted) + output && |output| <= availOut && IsBytes(output)
              modifies this`stateOutLen, this`calculatedBlockCRC, this`emitted
              decreases stateOutLen
            {
              if |output| == availOut { return; }
              if stateOutLen == 1 { break; }
              var c := Emit(stateOutLen);
              output := output + [c];
              stateOutLen := stateOutLen - 1;
            }
          }
          if |output| == availOut {
            stateOutLen := 1;
            return;
          }
          var c := Emit(1);
          output := output + [c];
        }
        if nblockUsed > saveNblock + 1 {
          BrokenAt(Block(s), nblockUsed, k0, emitted, stateOutCh, 0);
          return true, output;
        }
        if nblockUsed == saveNblock + 1 {
          stateOutLen := 0;
          return;
        }
        one := StartRun();
      }
    }

    /** Starts the next run; whether it is a run of one is told instead of stored. */
    method StartRun() returns (one: bool)
      requires Vectors() && SourceOk(s) && Waiting(Block(s), nblockUsed, k0, emitted, stateOutCh, 0)
      requires nblockUsed <= saveNblock == |Block(s)|
      modifies this`tPos, this`k0, this`nblockUsed, this`stateOutLen, this`stateOutCh
      ensures Vectors() && Waiting(Block(s), nblockUsed, k0, emitted, stateOutCh, if one then 1 else stateOutLen)
      ensures nblockUsed > old(nblockUsed)
    {
      hide *;
      ghost var b, u, ch0 := Block(s), nblockUsed, stateOutCh;
      UsedRange(s, u, k0, emitted, ch0, 0);
      WaitingByte(b, u, k0, emitted, ch0);
      stateOutCh := k0;
      var k1 := Fetch();
      if k1 != k0 { ShortWait(b, u, k0, emitted, ch0, 1, k1); k0 := k1; return true; }
      if nblockUsed == saveNblock + 1 { ShortWait(b, u, k0, emitted, ch0, 1, k0); return true; }
      SameNext(b, u, 1, k0);
      one := false;
      stateOutLen := 2;
      k1 := Fetch();
      if nblockUsed == saveNblock + 1 { ShortWait(b, u, k0, emitted, ch0, 2, k0); return; }
      if k1 != k0 { ShortWait(b, u, k0, emitted, ch0, 2, k1); k0 := k1; return; }
      SameNext(b, u, 2, k0);
      stateOutLen := 3;
      k1 := Fetch();
      if nblockUsed == saveNblock + 1 { ShortWait(b, u, k0, emitted, ch0, 3, k0); return; }
      if k1 != k0 { ShortWait(b, u, k0, emitted, ch0, 3, k1); k0 := k1; return; }
      SameNext(b, u, 3, k0);
      k1 := Fetch();
      stateOutLen := k1 + 4;
      k0 := Fetch();
      LongWait(b, u, stateOutCh, emitted, ch0, k1, k0);
    }

    lemma VectorsSource()
      requires Vectors()
      ensures SourceOk(s) && |Block(s)| == |s.col| == saveNblock
    {}
  }

  lemma FirstPosition(tt: seq<int>, s: Source)
    requires SourceOk(s) && Carries(tt, s.col, s.t)
    ensures s.o < |tt| && tt[s.o] >= 0 && tt[s.o] / 256 == Walk(s.t, s.o, 1)
  {
    hide IsInverse;
    CarriesAt(tt, s.col, s.t, s.o);
    assert Walk(s.t, s.o, 1) == s.t[Walk(s.t, s.o, 0)];
  }

  /** Where the reading can stand. */
  lemma UsedRange(s: Source, u: int, k0: int, emitted: seq<int>, ch: int, len: int)
    requires SourceOk(s) && Waiting(Block(s), u, k0, emitted, ch, len)
    ensures len >= 0 && 0 <= ch < 256 && 1 <= u <= |s.col| + 2
  {}

  lemma BrokenAt(b: seq<int>, u: int, k0: int, emitted: seq<int>, ch: int, len: int)
    requires IsBytes(b) && Waiting(b, u, k0, emitted, ch, len) && u > |b| + 1
    ensures Broken(b)
  {}

  lemma WaitingByte(b: seq<int>, u: int, k0: int, emitted: seq<int>, ch: int)
    requires IsBytes(b) && 1 <= u <= |b| && Waiting(b, u, k0, emitted, ch, 0)
    ensures k0 == b[u - 1] && Same(b, u, 1, k0)
  {}

  /** m bytes k0 from the one before place u on. */
  ghost predicate Same(b: seq<int>, u: int, m: int, k0: int) {
    1 <= u && u - 1 + m <= |b| && forall i | u - 1 <= i < u - 1 + m :: b[i] == k0
  }

  lemma SameNext(b: seq<int>, u: int, m: int, k0: int)
    requires Same(b, u, m, k0) && 0 <= u - 1 + m < |b| && b[u - 1 + m] == k0
    ensures Same(b, u, m + 1, k0)
  {}

  /** A run of m equal bytes was read, then k, or the block ended. */
  lemma ShortWait(b: seq<int>, u: int, k0: int, emitted: seq<int>, ch: int, m: nat, k: int)
    requires IsBytes(b) && 1 <= u <= |b| && Waiting(b, u, k0, emitted, ch, 0) && 1 <= m <= 3 && u - 1 + m <= |b|
    requires Same(b, u, m, k0)
    requires u - 1 + m < |b| ==> b[u - 1 + m] == k != k0
    ensures Waiting(b, u + m, k, emitted, k0, m)
  {
    assert emitted + Copies(ch, 0) == emitted;
    ShortRun(b, u, emitted, m);
  }

  /** Four equal bytes were read, a count k1 and the first byte k after it; what lies beyond the
      block is not looked at. */
  lemma LongWait(b: seq<int>, u: int, k0: int, emitted: seq<int>, ch: int, k1: int, k: int)
    requires IsBytes(b) && Waiting(b, u, k0, emitted, ch, 0) && 1 <= u && u + 3 <= |b| && 0 <= k1
    requires Same(b, u, 4, k0)
    requires (u + 3 < |b| ==> b[u + 3] == k1) && (u + 4 < |b| ==> b[u + 4] == k)
    ensures Waiting(b, u + 5, k, emitted, k0, k1 + 4)
  {
    assert emitted + Copies(ch, 0) == emitted;
    LongRun(b, u, emitted);
  }

  lemma FirstReady(s: Source, ch: int, k0: int)
    requires SourceOk(s) && 0 <= ch < 256 && k0 == Block(s)[0]
    ensures Waiting(Block(s), 1, k0, [], ch, 0)
  {
    assert Block(s)[..0] == [];
    assert [] + Copies(ch, 0) == [];
  }

  lemma {:induction false} ExpandGrows(b: seq<int>, k: nat)
    requires IsBytes(b) && k <= |b|
    ensures IsBytes(b[..k]) && |Expand(b[..k]).out| <= |Expand(b).out|
    decreases |b|
  {
    if k < |b| {
      var c := b[..|b| - 1];
      ExpandGrows(c, k);
      assert c[..k] == b[..k];
    } else {
      assert b[..k] == b;
    }
  }

  lemma {:induction false} ExpandPrefix(b: seq<int>, k: nat)
    requires IsBytes(b) && k <= |b|
    ensures IsBytes(b[..k]) && Expand(b[..k]).out <= Expand(b).out
    decreases |b|
  {
    if k < |b| {
      var c := b[..|b| - 1];
      ExpandPrefix(c, k);
      assert c[..k] == b[..k];
    } else {
      assert b[..k] == b;
    }
  }

  /** What was shown of a block that is not broken is the beginning of what it stands for. */
  lemma ShownSoFar(b: seq<int>, u: int, k0: int, emitted: seq<int>, ch: int, len: int)
    requires IsBytes(b) && Waiting(b, u, k0, emitted, ch, len) && !Broken(b)
    ensures emitted <= Expand(b).out
  {
    ExpandPrefix(b, u - 1);
  }

  /** A reader that has shown as many bytes as the block stands for is at the end. */
  lemma EnoughShown(b: seq<int>, u: int, k0: int, emitted: seq<int>, ch: int, len: int)
    requires IsBytes(b) && Waiting(b, u, k0, emitted, ch, len) && !Broken(b) && |emitted| >= |Expand(b).out|
    ensures u == |b| + 1 && len == 0
  {
    ExpandGrows(b, u - 1);
    if u <= |b| {
      ExpandNext(b[..u - 1], b[u - 1]);
      assert b[..u] == b[..u - 1] + [b[u - 1]];
      ExpandGrows(b, u);
    }
  }

  /** A reader is through just when it showed what the block stands for, which it cannot if the
      block ends in four equal bytes without a count. */
  lemma Outcome(b: seq<int>, u: int, k0: int, emitted: seq<int>, ch: int, len: int)
    requires IsBytes(b) && Waiting(b, u, k0, emitted, ch, len)
    ensures u == |b| + 1 && len == 0 ==> emitted == Expand(b).out && !Broken(b)
    ensures !Broken(b) && |emitted| >= |Expand(b).out| ==> u == |b| + 1 && len == 0
    ensures !Broken(b) ==> emitted <= Expand(b).out
  {
    hide Expand, Waiting;
    if !Broken(b) { ShownSoFar(b, u, k0, emitted, ch, len); }
    if u == |b| + 1 && len == 0 { AllShown(b, k0, emitted, ch); }
    if !Broken(b) && |emitted| >= |Expand(b).out| { EnoughShown(b, u, k0, emitted, ch, len); }
  }

  /** Both readers of one block, whatever windows they were given, showed the same bytes with the
      same checksum once they are through: what the block stands for.  They get through just
      when the block does not end in four equal bytes without a count. */
  lemma FastAndSmallAgree(f: Fast, m: Small)
    requires f.Valid() && m.Valid() && f.s == m.s && f.table == m.table
    ensures SourceOk(f.s)
    ensures f.Finished() ==> f.emitted == Expand(Block(f.s)).out && !Broken(Block(f.s))
    ensures m.Finished() ==> m.emitted == Expand(Block(f.s)).out && !Broken(Block(f.s))
    ensures f.Finished() && m.Finished() ==> f.emitted == m.emitted && f.calculatedBlockCRC == m.calculatedBlockCRC
    ensures !Broken(Block(f.s)) && |f.emitted| >= |Expand(Block(f.s)).out| ==> f.Finished()
    ensures !Broken(Block(f.s)) && |m.emitted| >= |Expand(Block(f.s)).out| ==> m.Finished()
  {
    hide Expand, Over, Broken, Waiting, IsInverse, Carries, Turned;
    Outcome(Block(f.s), f.nblockUsed, f.k0, f.emitted, f.stateOutCh, f.stateOutLen);
    Outcome(Block(m.s), m.nblockUsed, m.k0, m.emitted, m.stateOutCh, m.stateOutLen);
  }
}

/** libmpq_pkzip_expand: literals and copies expanded in a buffer that slides down by half every
    time it is flushed, as a refinement of copying within an unbounded history. */
module Explode {

  const HALF := 0x1000
  const FLUSH := 0x2000
  const LONGEST := 0x206
  const ROOM := FLUSH - 1 + LONGEST      // where the longest copy can end

  const END := 0x305
  const ABORT := 0x306

  /** What the coded data says: a byte, or how many bytes to repeat from how far back.  A distance
      of 0 stands for one that could not be read. */
  datatype Item = Literal(byte: int) | Copy(len: nat, back: nat)

  ghost predicate ItemsOk(items: seq<Item>) {
    forall k | 0 <= k < |items| ::
      match items[k]
      case Literal(b) => 0 <= b < 256
      case Copy(len, back) => 2 <= len <= LONGEST && back <= HALF
  }

  // ---- The unbounded history ----

  /** len bytes from back bytes ago, one by one: a copy may repeat what it has just written. */
  function Repeat(h: seq<int>, len: nat, back: nat): (r: seq<int>)
    requires 1 <= back <= |h|
    ensures |r| == |h| + len && r[..|h|] == h
    decreases len
  {
    if len == 0 then h else Repeat(h, len - 1, back) + [Repeat(h, len - 1, back)[|h| + len - 1 - back]]
  }

  /** The history after the first k items. */
  ghost function History(items: seq<Item>, k: nat): (h: seq<int>)
    requires ItemsOk(items) && k <= |items| && forall i | 0 <= i < k :: items[i].Copy? ==> items[i].back > 0
    ensures |h| >= HALF
  {
    if k == 0 then seq(HALF, _ => 0)
    else
      var h := History(items, k - 1);
      match items[k - 1]
      case Literal(b) => h + [b]
      case Copy(len, back) => Repeat(h, len, back)
  }

  /** How many items come before the end or a distance that could not be read. */
  function Usable(items: seq<Item>, k: nat): (n: nat)
    requires k <= |items|
    ensures k <= n <= |items| && (n < |items| ==> items[n].Copy? && items[n].back == 0)
    ensures forall i | k <= i < n :: items[i].Copy? ==> items[i].back > 0
    decreases |items| - k
  {
    if k == |items| || (items[k].Copy? && items[k].back == 0) then k else Usable(items, k + 1)
  }

  /** The buffer holds the end of the history, and all before its upper half was written. */
  ghost predicate Holds(buf: seq<int>, outPos: int, written: seq<int>, h: seq<int>)
  {
    && HALF <= outPos <= |buf| && |h| == |written| + outPos
    && written == h[HALF..HALF + |written|]
    && forall i | 0 <= i < outPos :: buf[i] == h[|written| + i]
  }

  /** Copies len bytes from back bytes before outPos, upwards, so that a copy can repeat itself. */
  method CopyBytes(buf: array<int>, outPos: nat, len: nat, back: nat, ghost h: seq<int>, ghost written: seq<int>)
    requires 1 <= back <= HALF && outPos + len <= buf.Length && Holds(buf[..], outPos, written, h)
    modifies buf
    ensures Holds(buf[..], outPos + len, written, Repeat(h, len, back))
  {
    var target, source, n := outPos, outPos - back, 0;
    while n < len
      invariant 0 <= n <= len && target == outPos + n && source == target - back
      invariant Holds(buf[..], target, written, Repeat(h, n, back))
    {
      ghost var r := Repeat(h, n, back);
      assert Repeat(h, n + 1, back) == r + [r[|r| - back]];
      Grow(buf[..], target, written, r, r[|r| - back]);
      buf[target] := buf[source];
      target, source, n := target + 1, source + 1, n + 1;
    }
  }

  lemma Grow(buf: seq<int>, outPos: int, written: seq<int>, h: seq<int>, b: int)
    requires Holds(buf, outPos, written, h) && outPos < |buf|
    ensures Holds(buf[outPos := b], outPos + 1, written, h + [b])
  {
    assert (h + [b])[HALF..HALF + |written|] == h[HALF..HALF + |written|];
  }

  ghost predicate SlidesFrom(k: int, outPos: nat) { HALF <= k < outPos }
  ghost predicate SlidesTo(k: int, outPos: nat) { 0 <= k < outPos - HALF }

  /** The bytes that slide down and the places they slide to have none in common just when the buffer
      is filled to FLUSH exactly. */
  lemma SlideApart(outPos: nat)
    requires outPos >= FLUSH
    ensures (forall k :: SlidesFrom(k, outPos) ==> !SlidesTo(k, outPos)) <==> outPos == FLUSH
  {
    if outPos > FLUSH { assert SlidesFrom(HALF, outPos) && SlidesTo(HALF, outPos); }
  }

  /** Writes the upper half and slides the rest down.  The memcpy is an upward copy here; where both
      regions overlap, that is for outPos0 > FLUSH, the order of its steps matters. */
  method FlushHalf(buf: array<int>, outPos0: nat, written0: seq<int>, ghost h: seq<int>) returns (outPos: nat, written: seq<int>)
    requires FLUSH <= outPos0 <= buf.Length && Holds(buf[..], outPos0, written0, h)
    modifies buf
    ensures outPos == outPos0 - HALF && Holds(buf[..], outPos, written, h)
    ensures written == written0 + old(buf[HALF..FLUSH])
  {
    written := written0 + buf[HALF..FLUSH];
    ghost var b := buf[..];
    for i := 0 to outPos0 - HALF
      invariant forall k | 0 <= k < i :: buf[k] == b[k + HALF]
      invariant forall k | i <= k < buf.Length :: buf[k] == b[k]
    {
      buf[i] := buf[i + HALF];
    }
    outPos := outPos0 - HALF;
    var m := |written0|;
    assert forall x | HALF <= x < FLUSH :: b[x] == h[m + x];
    assert written == h[HALF..HALF + |written|];
  }

  /** The end of the loop: what is left in the upper half is written. */
  lemma AllWritten(buf: seq<int>, outPos: int, written: seq<int>, h: seq<int>)
    requires Holds(buf, outPos, written, h)
    ensures written + buf[HALF..outPos] == h[HALF..]
  {
    assert forall k | HALF <= k < outPos :: buf[k] == h[|written| + k];
  }

  /** libmpq_pkzip_expand.  What goes to write_buf, put together, is just the history after its
      first 4096 zero bytes, up to the end or to a distance that could not be read. */
  method Expand(items: seq<Item>, last: nat) returns (result: nat, written: seq<int>)
    requires ItemsOk(items) && last >= END
    ensures written == History(items, Usable(items, 0))[HALF..]
    ensures result == if Usable(items, 0) < |items| then ABORT else last
  {
    hide Holds, Repeat;
    var buf := new int[ROOM](_ => 0);
    var outPos := HALF;
    written := [];
    result := last;
    HoldsStart(buf[..], items);
    var k := 0;
    while k < |items|
      invariant 0 <= k <= Usable(items, 0) && Usable(items, 0) == Usable(items, k) && HALF <= outPos < FLUSH
      invariant forall i | 0 <= i < k :: items[i].Copy? ==> items[i].back > 0
      invariant Holds(buf[..], outPos, written, History(items, k)) && result == last
    {
      ghost var h := History(items, k);
      match items[k] {
        case Literal(b) =>
          Grow(buf[..], outPos, written, h, b);
          buf[outPos] := b;
          outPos := outPos + 1;
        case Copy(len, back) =>
          if back == 0 {
            result := ABORT;
            break;
          }
          CopyBytes(buf, outPos, len, back, h, written);
          outPos := outPos + len;
      }
      k := k + 1;
      if outPos >= FLUSH {
        outPos, written := FlushHalf(buf, outPos, written, History(items, k));
      }
    }
    AllWritten(buf[..], outPos, written, History(items, k));
    HoldsFits(buf[..], outPos, written, History(items, k));
    assert buf[..][HALF..outPos] == buf[HALF..outPos];
    written := written + buf[HALF..outPos];
  }

  lemma HoldsStart(buf: seq<int>, items: seq<Item>)
    requires |buf| == ROOM && (forall i | 0 <= i < |buf| :: buf[i] == 0) && ItemsOk(items)
    ensures Holds(buf, HALF, [], History(items, 0))
  {}

  lemma HoldsFits(buf: seq<int>, outPos: int, written: seq<int>, h: seq<int>)
    requires Holds(buf, outPos, written, h)
    ensures outPos <= |buf|
  {}
}

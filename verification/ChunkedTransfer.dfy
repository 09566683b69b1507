/** HTTP chunked transfer coding (section 4.1 of RFC 7230) as gsoap sends and receives it: the
    windows of payload that soap_recv_raw exposes do not depend on how the wire bytes arrive. */
module ChunkedTransfer {

  const EOF := -1
  const NEWLINE := 10
  const RETURN := 13
  const MAX_DIGITS := 16

  // ---- What the wire bytes mean ----

  /** soap_isxdigit */
  predicate IsHex(c: int) {
    48 <= c <= 57 || 65 <= c <= 70 || 97 <= c <= 102
  }

  function HexValue(c: int): nat
    requires IsHex(c)
  {
    if c <= 57 then c - 48 else if c <= 70 then c - 55 else c - 87
  }

  /** soap_strtoul of hexadecimal digits. */
  function Number(t: seq<int>): nat
    requires forall i | 0 <= i < |t| :: IsHex(t[i])
  {
    if |t| == 0 then 0 else 16 * Number(t[..|t| - 1]) + HexValue(t[|t| - 1])
  }

  /** The first place from i on with a hexadecimal digit. */
  function FirstHex(w: seq<int>, i: nat): (k: nat)
    requires i <= |w|
    ensures i <= k <= |w| && (k < |w| ==> IsHex(w[k]))
    decreases |w| - i
  {
    if i == |w| || IsHex(w[i]) then i else FirstHex(w, i + 1)
  }

  /** The end of the digits from i on, of which at most n are taken. */
  function DigitsEnd(w: seq<int>, i: nat, n: nat): (k: nat)
    requires i <= |w|
    ensures i <= k <= |w| && k <= i + n && forall j | i <= j < k :: IsHex(w[j])
    decreases n
  {
    if n == 0 || i == |w| || !IsHex(w[i]) then i else DigitsEnd(w, i + 1, n - 1)
  }

  /** The first place from i on with a newline. */
  function LineEnd(w: seq<int>, i: nat): (k: nat)
    requires i <= |w|
    ensures i <= k <= |w| && (k < |w| ==> w[k] == NEWLINE)
    decreases |w| - i
  {
    if i == |w| || w[i] == NEWLINE then i else LineEnd(w, i + 1)
  }

  /** A chunk header at the front of w: where it ends and the size it gives, if it is complete. */
  datatype Header = Header(end: nat, size: nat) | NoHeader

  function ReadHeader(w: seq<int>): (h: Header)
    ensures h.Header? ==> 0 < h.end <= |w|
  {
    var i := FirstHex(w, 0);
    var d := DigitsEnd(w, i, MAX_DIGITS);
    var e := LineEnd(w, d);
    if i == |w| || e == |w| then NoHeader else Header(e + 1, Number(w[i..d]))
  }

  /** The payload in the wire bytes w when left bytes of the current chunk are still to come. */
  function Payload(w: seq<int>, left: nat): seq<int>
    decreases |w|, left
  {
    if left >= |w| then (if left > 0 then w else [])
    else if left > 0 then w[..left] + Payload(w[left..], 0)
    else
      match ReadHeader(w)
      case NoHeader => []
      case Header(end, size) => if size == 0 then [] else Payload(w[end..], size)
  }

  lemma PayloadStep(w: seq<int>, left: nat)
    ensures left >= |w| ==> Payload(w, left) == if left > 0 then w else []
    ensures 0 < left < |w| ==> Payload(w, left) == w[..left] + Payload(w[left..], 0)
    ensures left == 0 && |w| > 0 ==> match ReadHeader(w)
              case NoHeader => Payload(w, 0) == []
              case Header(end, size) => Payload(w, 0) == if size == 0 then [] else Payload(w[end..], size)
  {}

  /** Part of the current chunk is passed on. */
  lemma PayloadPart(w: seq<int>, left: nat, k: nat)
    requires k <= left && k <= |w|
    ensures Payload(w, left) == w[..k] + Payload(w[k..], left - k)
  {
    hide Payload;
    PayloadStep(w, left);
    PayloadStep(w[k..], left - k);
    if k == 0 {
      assert w[..0] + Payload(w, left) == Payload(w, left) && w[0..] == w;
    } else if left >= |w| {
      assert w == w[..k] + w[k..];
      if left == k { assert w[..k] + [] == w; }
    } else if k < left {
      var a, b, c := w[..k], w[k..][..left - k], Payload(w[left..], 0);
      assert w[..left] == a + b && w[left..] == w[k..][left - k..];
      assert (a + b) + c == a + (b + c);
    }
  }

  // ---- The receiver ----

  class Receiver {
    const buf: array<int>
    var bufidx: nat
    var buflen: nat
    var chunksize: nat
    var chunkbuflen: nat
    var ahead: int
    var wire: seq<int>          // what the connection still holds

    /** Before the first chunk, with nothing in the buffer. */
    constructor (room: nat, wire: seq<int>)
      requires room >= 1 && EOF !in wire
      ensures Valid() && Rest() == Payload(wire, 0) && fresh(buf)
    {
      buf := new int[room];
      bufidx, buflen, chunksize, chunkbuflen, ahead := 0, 0, 0, 0, 0;
      this.wire := wire;
    }

    ghost predicate Ok()
      reads this`bufidx, this`buflen
    {
      buf.Length >= 1 && bufidx <= buflen <= buf.Length
    }

    /** The wire bytes from place i of the buffer on. */
    ghost function From(i: nat): seq<int>
      requires i <= buflen <= buf.Length
      reads this`buflen, this`wire, buf
    {
      buf[i..buflen] + wire
    }

    /** Between calls: a window of payload was exposed, and unless the chunk goes on beyond the buffer
        chunkbuflen tells how far the buffer is filled. */
    ghost predicate Valid()
      reads this, buf
    {
      && Ok() && chunkbuflen <= buf.Length && (chunkbuflen > 0 ==> buflen <= chunkbuflen && chunksize == 0)
      && EOF !in wire && EOF !in buf[buflen..if chunkbuflen > 0 then chunkbuflen else buflen]
    }

    /** The payload after the window. */
    ghost function Rest(): seq<int>
      requires Valid()
      reads this, buf
    {
      if chunkbuflen > 0 then Payload(buf[buflen..chunkbuflen] + wire, 0) else Payload(wire, chunksize)
    }

    /** frecv: any number of bytes from 1 up to what is asked for and there, or none at the end. */
    method Frecv(n: nat) returns (k: nat)
      requires 1 <= n <= buf.Length
      modifies this`wire, buf
      ensures k <= n && k <= |old(wire)| && (k == 0 <==> old(wire) == [])
      ensures wire == old(wire)[k..] && buf[..k] == old(wire)[..k]
    {
      if |wire| == 0 { return 0; }
      k :| 1 <= k <= n && k <= |wire|;
      for i := 0 to k
        invariant forall j | 0 <= j < i :: buf[j] == wire[j]
        modifies buf
      {
        buf[i] := wire[i];
      }
      assert buf[..k] == wire[..k];
      wire := wire[k..];
    }

    /** Fills the buffer anew. */
    method Fill()
      requires buf.Length >= 1
      modifies this`bufidx, this`buflen, this`chunkbuflen, this`wire, buf
      ensures Ok() && bufidx == 0 && buflen == chunkbuflen && From(0) == old(wire) && (buflen == 0 <==> old(wire) == [])
    {
      bufidx := 0;
      buflen := Frecv(buf.Length);
      chunkbuflen := buflen;
      assert buf[0..buflen] == buf[..buflen];
      Whole(old(wire), buflen);
    }

    /** soap_getchunkchar */
    method GetChunkChar() returns (c: int)
      requires Ok() && buflen == chunkbuflen && EOF !in From(bufidx)
      modifies this`bufidx, this`buflen, this`chunkbuflen, this`wire, buf
      ensures Ok() && buflen == chunkbuflen
      ensures old(From(bufidx)) == [] ==> c == EOF && From(bufidx) == []
      ensures old(From(bufidx)) != [] ==> c == old(From(bufidx))[0] && From(bufidx) == old(From(bufidx))[1..]
    {
      if bufidx < buflen {
        c := buf[bufidx];
        Pop(buf[..], bufidx, buflen, wire);
        bufidx := bufidx + 1;
        return;
      }
      NoneThere(buf[..], bufidx, wire);
      Fill();
      if buflen > 0 {
        c := buf[bufidx];
        Pop(buf[..], bufidx, buflen, wire);
        bufidx := bufidx + 1;
        return;
      }
      c := EOF;
    }

    /** c is character i of the wire bytes u, or the end of them. */
    ghost predicate At(u: seq<int>, i: int, c: int)
      reads this`bufidx, this`buflen, this`chunkbuflen, this`wire, buf
    {
      && Ok() && buflen == chunkbuflen && EOF !in u && 0 <= i <= |u|
      && if i < |u| then c == u[i] && From(bufidx) == u[i + 1..] else c == EOF && From(bufidx) == []
    }

    /** The character after c. */
    method Next(ghost u: seq<int>, ghost i: int, ghost c: int) returns (c': int)
      requires At(u, i, c) && i < |u|
      modifies this`bufidx, this`buflen, this`chunkbuflen, this`wire, buf
      ensures At(u, i + 1, c')
    {
      NoEof(u, i + 1);
      c' := GetChunkChar();
    }

    /** From character i on to the first digit. */
    method SkipToDigit(ghost u: seq<int>, c0: int) returns (c: int, ghost i: nat)
      requires At(u, 0, c0)
      modifies this`bufidx, this`buflen, this`chunkbuflen, this`wire, buf
      ensures i == FirstHex(u, 0) && At(u, i, c)
    {
      hide *;
      c, i := c0, 0;
      AtShape(u, i, c);
      while true
        invariant i <= |u| && At(u, i, c) && FirstHex(u, 0) == FirstHex(u, i)
        decreases |u| - i
      {
        AtShape(u, i, c);
        HexNext(u, i);
        HexChar(c);
        if IsHex(c) { break; }
        if c == EOF { break; }
        c := Next(u, i, c);
        i := i + 1;
      }
    }

    /** The digits of the size. */
    method TakeDigits(ghost u: seq<int>, c0: int, ghost i0: nat) returns (c: int, size: nat, ghost i: nat)
      requires At(u, i0, c0) && i0 < |u| && IsHex(c0)
      modifies this`bufidx, this`buflen, this`chunkbuflen, this`wire, buf
      ensures i == DigitsEnd(u, i0, MAX_DIGITS) && At(u, i, c) && size == Number(u[i0..i])
    {
      hide At, DigitsEnd, Number;
      c, i := c0, i0;
      AtShape(u, i, c);
      assert u[i0..i0] == [];
      var t: seq<int> := [];
      while true
        invariant At(u, i, c) && i0 <= i < |u| && t == u[i0..i] && c == u[i] && IsHex(c) && |t| < MAX_DIGITS
        invariant forall k | 0 <= k < |t| :: IsHex(t[k])
        invariant DigitsEnd(u, i0, MAX_DIGITS) == DigitsEnd(u, i, MAX_DIGITS - |t|)
        decreases |u| - i
      {
        AtShape(u, i, c);
        DigitNext(u, i, MAX_DIGITS - |t|);
        assert u[i0..i + 1] == u[i0..i] + [u[i]];
        t := t + [c];
        c := Next(u, i, c);
        i := i + 1;
        AtShape(u, i, c);
        if !(IsHex(c) && |t| < MAX_DIGITS) { break; }
      }
      DigitNext(u, i, MAX_DIGITS - |t|);
      assert t == u[i0..i];
      size := Number(t);
    }

    /** To the end of the line. */
    method SkipLine(ghost u: seq<int>, c0: int, ghost d: nat) returns (c: int, ghost i: nat)
      requires At(u, d, c0) && d <= |u|
      modifies this`bufidx, this`buflen, this`chunkbuflen, this`wire, buf
      ensures i == LineEnd(u, d) && At(u, i, c)
    {
      hide *;
      c, i := c0, d;
      AtShape(u, i, c);
      LineNext(u, i);
      while c != EOF && c != NEWLINE
        invariant At(u, i, c) && d <= i <= |u| && LineEnd(u, d) == LineEnd(u, i)
        decreases |u| - i
      {
        AtShape(u, i, c);
        LineNext(u, i);
        c := Next(u, i, c);
        i := i + 1;
      }
      AtShape(u, i, c);
      LineNext(u, i);
    }

    /** The chunk size line. */
    method GetChunkSize() returns (ended: bool, size: nat)
      requires Ok() && buflen == chunkbuflen && EOF !in From(bufidx)
      modifies this`bufidx, this`buflen, this`chunkbuflen, this`wire, buf
      ensures Ok() && buflen == chunkbuflen
      ensures ended <==> ReadHeader(old(From(bufidx))).NoHeader?
      ensures !ended ==> var h := ReadHeader(old(From(bufidx))); size == h.size && From(bufidx) == old(From(bufidx))[h.end..]
    {
      hide At, FirstHex, DigitsEnd, LineEnd, ReadHeader, Number, From, IsHex;
      ghost var u := From(bufidx);
      ghost var i, d, e;
      ended, size := true, 0;
      var c := GetChunkChar();
      FirstChar(u, c);
      c, i := SkipToDigit(u, c);
      AtShape(u, i, c);
      HeaderIs(u);
      if c == EOF { return; }
      c, size, d := TakeDigits(u, c, i);
      AtShape(u, d, c);
      c, e := SkipLine(u, c, d);
      AtShape(u, e, c);
      if c == EOF { return; }
      ended := false;
    }

    /** The unread bytes before a chunk size line. */
    method Refill() returns (got: bool, ghost u: seq<int>)
      requires Valid() && chunksize == 0
      modifies this`bufidx, this`buflen, this`chunkbuflen, this`wire, this`ahead, buf
      ensures Ok() && buflen == chunkbuflen && EOF !in u && old(Rest()) == Payload(u, 0) && u == From(bufidx)
      ensures !got ==> u == [] && ahead == EOF
    {
      hide Payload;
      got := true;
      if chunkbuflen == 0 {
        Fill();
        u := From(0);
        if chunkbuflen == 0 {
          ahead := EOF;
          got := false;
        }
      } else {
        bufidx := buflen;
        buflen := chunkbuflen;
        u := From(bufidx);
      }
    }

    /** The bytes of the chunk that are in the buffer become the window. */
    method ExposeChunk(size: nat, ghost u: seq<int>)
      requires Ok() && buflen == chunkbuflen && EOF !in u && u == From(bufidx) && size > 0
      modifies this`buflen, this`chunksize, this`chunkbuflen
      ensures Valid() && Payload(u, size) == buf[bufidx..buflen] + Rest() && (buflen == bufidx ==> chunksize > 0)
    {
      hide Payload;
      var n := bufidx + size;
      if n > chunkbuflen {
        PayloadPart(u, size, chunkbuflen - bufidx);
        SplitAt(buf[..], bufidx, chunkbuflen, chunkbuflen, wire);
        NoneThere(buf[..], chunkbuflen, wire);
        NoEof(u, chunkbuflen - bufidx);
        buflen := chunkbuflen;
        chunksize := size - (buflen - bufidx);
        chunkbuflen := 0;
      } else {
        PayloadPart(u, size, size);
        SplitAt(buf[..], bufidx, n, chunkbuflen, wire);
        NoEof(u, size);
        EofParts(buf[n..chunkbuflen], wire);
        buflen := n;
        chunksize := 0;
      }
    }

    /** The chunked part of soap_recv_raw: exposes the next window of payload in buf[bufidx .. buflen];
        none is left when ret is 0. */
    method RecvRaw() returns (ret: nat)
      requires Valid()
      modifies this`bufidx, this`buflen, this`chunksize, this`chunkbuflen, this`wire, this`ahead, buf
      ensures ret == 0 ==> old(Rest()) == []
      ensures ret > 0 ==> Valid() && bufidx <= buflen <= buf.Length && ret == buflen - bufidx && old(Rest()) == buf[bufidx..buflen] + Rest()
    {
      hide Payload, ReadHeader;
      while true
        invariant Valid() && Rest() == old(Rest())
        decreases chunksize == 0
      {
        if chunksize > 0 {
          ghost var w := wire;
          ret := Frecv(if chunksize > buf.Length then buf.Length else chunksize);
          PayloadPart(w, chunksize, ret);
          NoEof(w, ret);
          PayloadStep(w, chunksize);
          buflen := ret;
          bufidx := 0;
          chunksize := chunksize - ret;
          return;
        }
        var got;
        ghost var u;
        got, u := Refill();
        PayloadStep(u, 0);
        if !got { return 0; }
        var ended, size := GetChunkSize();
        if ended || size == 0 {
          bufidx, buflen, chunkbuflen, ahead := 0, 0, 0, EOF;
          return 0;
        }
        NoEof(u, ReadHeader(u).end);
        ExposeChunk(size, From(bufidx));
        ret := buflen - bufidx;
        if ret > 0 { return; }
        assert buf[bufidx..buflen] + Rest() == Rest();
      }
    }

    /** Every window until none is left. */
    method RecvAll() returns (payload: seq<int>)
      requires Valid()
      modifies this`bufidx, this`buflen, this`chunksize, this`chunkbuflen, this`wire, this`ahead, buf
      ensures payload == old(Rest())
    {
      hide Payload, Rest, Valid;
      payload := [];
      while true
        invariant Valid() && payload + Rest() == old(Rest())
        decreases |Rest()|
      {
        ghost var r := Rest();
        var ret := RecvRaw();
        if ret == 0 {
          assert payload + [] == payload;
          return;
        }
        assert payload + (buf[bufidx..buflen] + Rest()) == (payload + buf[bufidx..buflen]) + Rest();
        payload := payload + buf[bufidx..buflen];
      }
    }

    lemma FirstChar(u: seq<int>, c: int)
      requires Ok() && buflen == chunkbuflen && EOF !in u
      requires if u == [] then c == EOF && From(bufidx) == [] else c == u[0] && From(bufidx) == u[1..]
      ensures At(u, 0, c)
    {}

    lemma AtShape(u: seq<int>, i: int, c: int)
      requires At(u, i, c)
      ensures Ok() && buflen == chunkbuflen && 0 <= i <= |u| && (i == |u| <==> c == EOF)
      ensures i < |u| ==> c == u[i] && From(bufidx) == u[i + 1..]
    {}
  }

  lemma Pop(b: seq<int>, i: nat, n: nat, w: seq<int>)
    requires i < n <= |b|
    ensures b[i..n] + w != [] && (b[i..n] + w)[0] == b[i] && (b[i..n] + w)[1..] == b[i + 1..n] + w
  {}

  lemma Whole(w: seq<int>, k: nat)
    requires k <= |w|
    ensures w[..k] + w[k..] == w
  {}

  lemma NoneThere(b: seq<int>, i: nat, w: seq<int>)
    requires i <= |b|
    ensures b[i..i] + w == w
  {}

  lemma SplitAt(b: seq<int>, i: nat, m: nat, n: nat, w: seq<int>)
    requires i <= m <= n <= |b|
    ensures (b[i..n] + w)[..m - i] == b[i..m] && (b[i..n] + w)[m - i..] == b[m..n] + w
  {}

  lemma EofParts(a: seq<int>, b: seq<int>)
    requires EOF !in a + b
    ensures EOF !in a && EOF !in b
  {
    assert forall i | 0 <= i < |a| :: a[i] == (a + b)[i];
    assert forall i | 0 <= i < |b| :: b[i] == (a + b)[|a| + i];
  }

  lemma HexChar(c: int)
    ensures IsHex(c) ==> c != EOF
  {}

  lemma HeaderIs(w: seq<int>)
    ensures var i := FirstHex(w, 0); (i < |w| ==> IsHex(w[i]))
    ensures var i := FirstHex(w, 0);
            var d := DigitsEnd(w, i, MAX_DIGITS);
            var e := LineEnd(w, d);
            ReadHeader(w) == if i == |w| || e == |w| then NoHeader else Header(e + 1, Number(w[i..d]))
  {}

  lemma NoEof(u: seq<int>, i: nat)
    requires EOF !in u && i <= |u|
    ensures EOF !in u[i..]
  {}

  lemma HexNext(w: seq<int>, i: nat)
    requires i <= |w|
    ensures FirstHex(w, i) == if i == |w| || IsHex(w[i]) then i else FirstHex(w, i + 1)
  {}

  lemma DigitNext(w: seq<int>, i: nat, n: nat)
    requires i <= |w|
    ensures DigitsEnd(w, i, n) == if n == 0 || i == |w| || !IsHex(w[i]) then i else DigitsEnd(w, i + 1, n - 1)
  {}

  lemma LineNext(w: seq<int>, i: nat)
    requires i <= |w|
    ensures LineEnd(w, i) == if i == |w| || w[i] == NEWLINE then i else LineEnd(w, i + 1)
  {}

  // ---- The sender ----

  const LONG_LIMIT := 0x1_0000_0000_0000_0000

  function Digit(d: nat): (c: int)
    requires d < 16
    ensures IsHex(c) && HexValue(c) == d && c == "0123456789ABCDEF"[d] as int
  {
    if d < 10 then 48 + d else 55 + d
  }

  /** %lX */
  function Hex(n: nat): (t: seq<int>)
    ensures |t| > 0 && (forall i | 0 <= i < |t| :: IsHex(t[i])) && (n > 0 ==> t[0] != 48)
  {
    if n < 16 then [Digit(n)] else Hex(n / 16) + [Digit(n % 16)]
  }

  lemma {:induction false} NumberOfHex(n: nat)
    ensures Number(Hex(n)) == n
  {
    if n >= 16 {
      NumberOfHex(n / 16);
      assert Hex(n)[..|Hex(n)| - 1] == Hex(n / 16);
    } else {
      assert Hex(n)[..0] == [];
    }
  }

  function Pow16(d: nat): nat {
    if d == 0 then 1 else 16 * Pow16(d - 1)
  }

  lemma {:induction false} HexLength(n: nat, d: nat)
    requires d >= 1 && n < Pow16(d)
    ensures |Hex(n)| <= d
    decreases n
  {
    if n >= 16 { HexLength(n / 16, d - 1); }
  }

  lemma {:induction false} Digits(w: seq<int>, i: nat, t: seq<int>, n: nat)
    requires i + |t| < |w| && w[i..i + |t|] == t && |t| <= n && !IsHex(w[i + |t|]) && forall k | 0 <= k < |t| :: IsHex(t[k])
    ensures DigitsEnd(w, i, n) == i + |t|
    decreases n
  {
    if |t| > 0 {
      assert w[i] == w[i..i + |t|][0] == t[0];
      assert w[i + 1..i + |t|] == w[i..i + |t|][1..] == t[1..];
      Digits(w, i + 1, t[1..], n - 1);
    }
  }

  const CRLF: seq<int> := [RETURN, NEWLINE]

  function Lead(started: bool): seq<int> { if started then CRLF else [] }

  lemma FirstAfterLead(w: seq<int>, started: bool)
    requires |Lead(started)| < |w| && w[..|Lead(started)|] == Lead(started) && IsHex(w[|Lead(started)|])
    ensures FirstHex(w, 0) == |Lead(started)|
  {
    HexNext(w, 0);
    if started {
      assert w[0] == w[..2][0] && w[1] == w[..2][1];
      HexNext(w, 1);
      HexNext(w, 2);
    }
  }

  lemma LineAfter(w: seq<int>, b: nat)
    requires b + 2 <= |w| && w[b] == RETURN && w[b + 1] == NEWLINE
    ensures LineEnd(w, b) == b + 1
  {}

  lemma HexFits(n: nat)
    requires n < LONG_LIMIT
    ensures |Hex(n)| <= MAX_DIGITS
  {
    assert Pow16(8) == 0x1_0000_0000;
    assert Pow16(16) == LONG_LIMIT;
    HexLength(n, 16);
  }

  lemma {:induction false} HexLonger(n: nat, d: nat)
    requires n >= Pow16(d)
    ensures |Hex(n)| > d
    decreases d
  {
    if d > 0 { HexLonger(n / 16, d - 1); }
  }

  /** The size line and a closing zero fit into the 16 characters of t just when the size has at most
      11 digits, or 13 in the first line, which has no leading CRLF. */
  lemma SizeLineFits(started: bool, n: nat)
    ensures |Lead(started) + Hex(n) + CRLF| + 1 <= 16 <==> n < Pow16(if started then 11 else 13)
  {
    var d := if started then 11 else 13;
    if n < Pow16(d) { HexLength(n, d); } else { HexLonger(n, d); }
  }

  /** A size line is read as the size it was printed from. */
  lemma SizeLine(started: bool, n: nat, rest: seq<int>)
    requires n < LONG_LIMIT
    ensures var w := Lead(started) + Hex(n) + CRLF + rest;
            var h := ReadHeader(w);
            h.Header? && h.size == n && w[h.end..] == rest
  {
    hide FirstHex, DigitsEnd, LineEnd, ReadHeader, Number, Lead, Hex, Pow16;
    var l, t := Lead(started), Hex(n);
    var w := l + t + CRLF + rest;
    var a, b := |l|, |l| + |t|;
    HexFits(n);
    Pieces(l, t, CRLF, rest);
    NotHex();
    Digits(w, a, t, MAX_DIGITS);
    FirstAfterLead(w, started);
    LineAfter(w, b);
    NumberOfHex(n);
    HeaderIs(w);
  }

  lemma NotHex()
    ensures !IsHex(RETURN)
  {}

  lemma Pieces(l: seq<int>, t: seq<int>, e: seq<int>, rest: seq<int>)
    requires |e| == 2 && |t| > 0
    ensures var w := l + t + e + rest;
            var a, b := |l|, |l| + |t|;
            w[..a] == l && w[a..b] == t && w[a] == t[0] && w[b] == e[0] && w[b + 1] == e[1] && w[b + 2..] == rest
  {}

  /** What is sent from chunk k on. */
  function WireFrom(chunks: seq<seq<int>>, k: nat, started: bool): seq<int>
    requires k <= |chunks|
    decreases |chunks| - k
  {
    if k == |chunks| then Lead(true) + Hex(0) + CRLF + CRLF
    else Lead(started) + Hex(|chunks[k]|) + CRLF + (chunks[k] + WireFrom(chunks, k + 1, started || chunks[k] != []))
  }

  /** What is received: the chunks before an empty one. */
  function Received(chunks: seq<seq<int>>, k: nat): seq<int>
    requires k <= |chunks|
    decreases |chunks| - k
  {
    if k == |chunks| || chunks[k] == [] then [] else chunks[k] + Received(chunks, k + 1)
  }

  lemma {:induction false} WireCarries(chunks: seq<seq<int>>, k: nat, started: bool)
    requires k <= |chunks| && forall i | 0 <= i < |chunks| :: |chunks[i]| < LONG_LIMIT
    ensures Payload(WireFrom(chunks, k, started), 0) == Received(chunks, k)
    decreases |chunks| - k
  {
    hide Payload, ReadHeader;
    var w := WireFrom(chunks, k, started);
    PayloadStep(w, 0);
    if k == |chunks| {
      SizeLine(true, 0, CRLF);
    } else {
      var c, rest := chunks[k], WireFrom(chunks, k + 1, started || chunks[k] != []);
      SizeLine(started, |c|, c + rest);
      if c != [] {
        WireCarries(chunks, k + 1, true);
        PayloadPart(c + rest, |c|, |c|);
        assert (c + rest)[..|c|] == c && (c + rest)[|c|..] == rest;
      }
    }
  }

  class Sender {
    var chunksize: nat
    var sent: seq<int>

    constructor ()
      ensures chunksize == 0 && sent == []
    {
      chunksize, sent := 0, [];
    }

    /** The chunked part of soap_flush_raw. */
    method FlushRaw(s: seq<int>)
      modifies this
      ensures sent == old(sent) + (Lead(old(chunksize) > 0) + Hex(|s|) + CRLF + s) && chunksize == old(chunksize) + |s|
    {
      var t := CRLF + Hex(|s|) + CRLF;
      sent := sent + t[if chunksize > 0 then 0 else 2..];
      chunksize := chunksize + |s|;
      sent := sent + s;
      assert (CRLF + Hex(|s|) + CRLF)[2..] == Lead(false) + Hex(|s|) + CRLF;
    }

    /** The chunked part of soap_end_send. */
    method EndSend()
      modifies this
      ensures sent == old(sent) + (Lead(true) + Hex(0) + CRLF + CRLF)
    {
      sent := sent + [RETURN, NEWLINE, 48, RETURN, NEWLINE, RETURN, NEWLINE];
      assert Hex(0) == [48];
    }
  }

  method SendAll(chunks: seq<seq<int>>) returns (wire: seq<int>)
    ensures wire == WireFrom(chunks, 0, false)
  {
    hide Hex, Lead;
    var s := new Sender();
    for k := 0 to |chunks|
      invariant s.sent + WireFrom(chunks, k, s.chunksize > 0) == WireFrom(chunks, 0, false)
    {
      ghost var o, r := s.sent, WireFrom(chunks, k + 1, s.chunksize > 0 || chunks[k] != []);
      ghost var h := Lead(s.chunksize > 0) + Hex(|chunks[k]|) + CRLF;
      assert o + (h + (chunks[k] + r)) == (o + (h + chunks[k])) + r;
      s.FlushRaw(chunks[k]);
    }
    s.EndSend();
    wire := s.sent;
  }

  /** Whatever pieces the connection delivers, what is received is what was flushed: all of it if
      no flush was empty, which every caller of soap_flush_raw sees to, and otherwise what came before
      the first empty one, whose size line reads as the end of the message. */
  method Transfer(chunks: seq<seq<int>>, room: nat) returns (payload: seq<int>)
    requires room >= 1 && forall i | 0 <= i < |chunks| :: |chunks[i]| < LONG_LIMIT && EOF !in chunks[i]
    ensures payload == Received(chunks, 0)
    ensures payload == Joined(chunks, 0) <==> NothingLost(chunks, 0)
    ensures (forall i | 0 <= i < |chunks| :: chunks[i] != []) ==> payload == Joined(chunks, 0)
  {
    hide *;
    AllReceived(chunks, 0);
    if forall i | 0 <= i < |chunks| :: chunks[i] != [] { NoneEmpty(chunks, 0); }
    var wire := SendAll(chunks);
    WireCarries(chunks, 0, false);
    CleanWire(chunks, 0, false);
    var r := new Receiver(room, wire);
    payload := r.RecvAll();
  }

  lemma {:induction false} CleanWire(chunks: seq<seq<int>>, k: nat, started: bool)
    requires k <= |chunks| && forall i | 0 <= i < |chunks| :: EOF !in chunks[i]
    ensures EOF !in WireFrom(chunks, k, started)
    decreases |chunks| - k
  {
    if k < |chunks| {
      CleanWire(chunks, k + 1, started || chunks[k] != []);
      CleanHex(|chunks[k]|);
    } else {
      CleanHex(0);
    }
  }

  lemma CleanHex(n: nat)
    ensures EOF !in Hex(n)
  {
    forall c | c in Hex(n) ensures c != EOF { HexChar(c); }
  }

  lemma {:induction false} JoinedEmpty(chunks: seq<seq<int>>, k: nat, i: nat)
    requires k <= i <= |chunks| && Joined(chunks, k) == []
    ensures Joined(chunks, i) == []
    decreases i
  {
    if k < i { JoinedEmpty(chunks, k, i - 1); }
  }

  /** From chunk k on, nothing but empty flushes follows an empty one. */
  ghost predicate NothingLost(chunks: seq<seq<int>>, k: nat)
    requires k <= |chunks|
  {
    forall i | k <= i < |chunks| && chunks[i] == [] :: Joined(chunks, i) == []
  }

  lemma NothingLostStep(chunks: seq<seq<int>>, k: nat)
    requires k < |chunks|
    ensures NothingLost(chunks, k) <==> (chunks[k] == [] ==> Joined(chunks, k) == []) && NothingLost(chunks, k + 1)
  {}

  /** Everything flushed is received just when no flush of some bytes follows an empty one. */
  lemma {:induction false} AllReceived(chunks: seq<seq<int>>, k: nat)
    requires k <= |chunks|
    ensures Received(chunks, k) == Joined(chunks, k) <==> NothingLost(chunks, k)
    decreases |chunks| - k
  {
    hide Received, Joined, NothingLost;
    Steps(chunks, k);
    if k < |chunks| {
      AllReceived(chunks, k + 1);
      NothingLostStep(chunks, k);
      if chunks[k] == [] {
        if Joined(chunks, k) == [] { AllEmpty(chunks, k + 1); }
      } else {
        Cancel(chunks[k], Received(chunks, k + 1), Joined(chunks, k + 1));
      }
    }
  }

  lemma NoneEmpty(chunks: seq<seq<int>>, k: nat)
    requires k <= |chunks| && forall i | 0 <= i < |chunks| :: chunks[i] != []
    ensures NothingLost(chunks, k)
  {}

  /** A flush of no bytes before one of some bytes: the byte is lost. */
  lemma ClosedEarly()
    ensures Received([[], [65]], 0) == [] && Joined([[], [65]], 0) == [65] && !NothingLost([[], [65]], 0)
  {
    var c := [[], [65]];
    Steps(c, 0);
    Steps(c, 1);
    assert [65] + [] == [65] && [] + [65] == [65] && Joined(c, 2) == [];
    assert c[0] == [] && Joined(c, 0) == [65];
  }

  lemma Steps(chunks: seq<seq<int>>, k: nat)
    requires k <= |chunks|
    ensures k == |chunks| ==> Received(chunks, k) == [] == Joined(chunks, k) && NothingLost(chunks, k)
    ensures k < |chunks| ==> Joined(chunks, k) == chunks[k] + Joined(chunks, k + 1)
    ensures k < |chunks| ==> Received(chunks, k) == if chunks[k] == [] then [] else chunks[k] + Received(chunks, k + 1)
    ensures k < |chunks| && chunks[k] == [] ==> Joined(chunks, k) == Joined(chunks, k + 1)
  {}

  lemma AllEmpty(chunks: seq<seq<int>>, k: nat)
    requires k <= |chunks| && Joined(chunks, k) == []
    ensures NothingLost(chunks, k)
  {
    forall i | k <= i < |chunks| ensures Joined(chunks, i) == [] { JoinedEmpty(chunks, k, i); }
  }

  lemma Cancel(c: seq<int>, a: seq<int>, b: seq<int>)
    ensures c + a == c + b <==> a == b
  {
    if c + a == c + b { assert (c + a)[|c|..] == a && (c + b)[|c|..] == b; }
  }

  /** All that was flushed from chunk k on. */
  function Joined(chunks: seq<seq<int>>, k: nat): seq<int>
    requires k <= |chunks|
    decreases |chunks| - k
  {
    if k == |chunks| then [] else chunks[k] + Joined(chunks, k + 1)
  }
}

/** Messages in the chunked transfer coding of section 4.1 of RFC 7230, whoever sent them: what
    soap_recv_raw makes of them. */
module ChunkedGrammar {
  import opened ChunkedTransfer

  // ---- The grammar ----

  const HEX_DIGITS := "0123456789abcdef"

  /** Upper case is read as lower case. */
  function Lower(c: int): int {
    if 'A' as int <= c <= 'Z' as int then c - 'A' as int + 'a' as int else c
  }

  /** The place of a digit from k on, or 16 if it is none. */
  function PlaceFrom(c: int, k: nat): (v: nat)
    requires k <= 16
    ensures k <= v <= 16
    decreases 16 - k
  {
    if k == 16 || HEX_DIGITS[k] as int == Lower(c) then k else PlaceFrom(c, k + 1)
  }

  /** What a digit is worth: its place among the digits. */
  function Worth(c: int): (v: nat)
    ensures v <= 16
  {
    PlaceFrom(c, 0)
  }

  predicate IsDigit(c: int) { Worth(c) < 16 }

  /** The size that digits give. */
  function SizeOf(digits: seq<int>): nat {
    if |digits| == 0 then 0 else 16 * SizeOf(digits[..|digits| - 1]) + Worth(digits[|digits| - 1])
  }

  /** A size line and the data it announces; ext is whatever stands between the digits and the end of
      the line. */
  datatype Chunk = Chunk(digits: seq<int>, ext: seq<int>, data: seq<int>)

  predicate LineOk(c: Chunk) {
    && 1 <= |c.digits| <= 16 && (forall i | 0 <= i < |c.digits| :: IsDigit(c.digits[i]))
    && NEWLINE !in c.ext && (c.ext != [] ==> !IsDigit(c.ext[0]))
    && |c.data| == SizeOf(c.digits)
  }

  /** Some chunks and the last one, of size 0. */
  predicate MessageOk(cs: seq<Chunk>, last: Chunk) {
    (forall k | 0 <= k < |cs| :: LineOk(cs[k]) && cs[k].data != []) && LineOk(last) && last.data == []
  }

  function SizeLineOf(c: Chunk): seq<int> { c.digits + c.ext + CRLF }

  /** The chunks from k on, each with CRLF behind its data, the last one, and what follows it. */
  function Message(cs: seq<Chunk>, last: Chunk, trailer: seq<int>, k: nat): seq<int>
    requires k <= |cs|
    decreases |cs| - k
  {
    if k == |cs| then SizeLineOf(last) + trailer
    else SizeLineOf(cs[k]) + (cs[k].data + (CRLF + Message(cs, last, trailer, k + 1)))
  }

  /** The data of the chunks from k on. */
  function DataFrom(cs: seq<Chunk>, k: nat): seq<int>
    requires k <= |cs|
    decreases |cs| - k
  {
    if k == |cs| then [] else cs[k].data + DataFrom(cs, k + 1)
  }

  // ---- Digits ----

  lemma DigitIsHex(c: int)
    ensures IsDigit(c) <==> IsHex(c)
    ensures IsHex(c) ==> HexValue(c) == Worth(c)
  {
    assert PlaceFrom(c, 12) == if Lower(c) == 99 then 12 else if Lower(c) == 100 then 13 else if Lower(c) == 101 then 14 else if Lower(c) == 102 then 15 else 16;
    assert PlaceFrom(c, 8) == if Lower(c) == 56 then 8 else if Lower(c) == 57 then 9 else if Lower(c) == 97 then 10 else if Lower(c) == 98 then 11 else PlaceFrom(c, 12);
    assert PlaceFrom(c, 4) == if Lower(c) == 52 then 4 else if Lower(c) == 53 then 5 else if Lower(c) == 54 then 6 else if Lower(c) == 55 then 7 else PlaceFrom(c, 8);
    assert PlaceFrom(c, 0) == if Lower(c) == 48 then 0 else if Lower(c) == 49 then 1 else if Lower(c) == 50 then 2 else if Lower(c) == 51 then 3 else PlaceFrom(c, 4);
  }

  lemma {:induction false} NumberIsSize(t: seq<int>)
    requires forall i | 0 <= i < |t| :: IsDigit(t[i])
    ensures (forall i | 0 <= i < |t| :: IsHex(t[i])) && Number(t) == SizeOf(t)
  {
    hide HexValue, Worth, IsDigit, IsHex;
    forall i | 0 <= i < |t| ensures IsHex(t[i]) { DigitIsHex(t[i]); }
    if |t| > 0 {
      DigitIsHex(t[|t| - 1]);
      NumberIsSize(t[..|t| - 1]);
    }
  }

  // ---- Size lines ----

  lemma {:induction false} LineEndBehind(w: seq<int>, b: nat, ext: seq<int>)
    requires b + |ext| + 2 <= |w| && w[b..b + |ext|] == ext && NEWLINE !in ext && w[b + |ext|] == RETURN && w[b + |ext| + 1] == NEWLINE
    ensures LineEnd(w, b) == b + |ext| + 1
    decreases |ext|
  {
    hide LineEnd;
    LineNext(w, b);
    if ext == [] {
      LineNext(w, b + 1);
    } else {
      assert w[b] == w[b..b + |ext|][0] == ext[0];
      assert w[b + 1..b + |ext|] == w[b..b + |ext|][1..] == ext[1..];
      LineEndBehind(w, b + 1, ext[1..]);
    }
  }

  lemma Parts(l: seq<int>, t: seq<int>, e: seq<int>, rest: seq<int>)
    requires |t| > 0
    ensures var w := l + ((t + e + CRLF) + rest);
            var a, b := |l|, |l| + |t|;
            && w[..a] == l && w[a..b] == t && w[a] == t[0] && w[b] == (if e == [] then RETURN else e[0])
            && w[b..b + |e|] == e && w[b + |e|] == RETURN && w[b + |e| + 1] == NEWLINE && w[b + |e| + 2..] == rest
  {
    var w, b := l + ((t + e + CRLF) + rest), |l| + |t|;
    assert w == (l + t) + (e + (CRLF + rest));
    assert w[b..] == e + (CRLF + rest);
    assert w[b + |e|..] == CRLF + rest;
  }

  lemma LineParts(c: Chunk, rest: seq<int>)
    requires LineOk(c)
    ensures 1 <= |c.digits| <= 16 && (forall i | 0 <= i < |c.digits| :: IsDigit(c.digits[i]))
    ensures NEWLINE !in c.ext && (c.ext != [] ==> !IsDigit(c.ext[0])) && |c.data| == SizeOf(c.digits)
    ensures SizeLineOf(c) + rest == (c.digits + c.ext + CRLF) + rest
  {}

  /** A size line is read as the size its digits give. */
  lemma SizeLineRead(c: Chunk, started: bool, rest: seq<int>)
    requires LineOk(c)
    ensures var w := Lead(started) + (SizeLineOf(c) + rest);
            var h := ReadHeader(w);
            h.Header? && h.size == |c.data| && w[h.end..] == rest
  {
    hide FirstHex, DigitsEnd, LineEnd, ReadHeader, Number, Lead, SizeOf, Worth, IsHex, HexValue, IsDigit, LineOk, SizeLineOf;
    LineParts(c, rest);
    var l, t, e := Lead(started), c.digits, c.ext;
    var w := l + (SizeLineOf(c) + rest);
    var a, b := |l|, |l| + |t|;
    Parts(l, t, e, rest);
    NumberIsSize(t);
    NotHex();
    if e != [] { DigitIsHex(e[0]); }
    Digits(w, a, t, MAX_DIGITS);
    FirstAfterLead(w, started);
    LineEndBehind(w, b, e);
    HeaderIs(w);
  }

  // ---- Messages ----

  /** The payload of a message is the data of its chunks. */
  lemma {:induction false} MessagePayload(cs: seq<Chunk>, last: Chunk, trailer: seq<int>, k: nat)
    requires k <= |cs| && MessageOk(cs, last)
    ensures Payload(Lead(k > 0) + Message(cs, last, trailer, k), 0) == DataFrom(cs, k)
    decreases |cs| - k
  {
    hide Payload, ReadHeader, LineOk, SizeLineOf;
    var w := Lead(k > 0) + Message(cs, last, trailer, k);
    PayloadStep(w, 0);
    LinesOk(cs, last, k);
    if k == |cs| {
      SizeLineRead(last, k > 0, trailer);
    } else {
      var c := cs[k];
      var rest := CRLF + Message(cs, last, trailer, k + 1);
      SizeLineRead(c, k > 0, c.data + rest);
      MessagePayload(cs, last, trailer, k + 1);
      PayloadPart(c.data + rest, |c.data|, |c.data|);
      assert (c.data + rest)[..|c.data|] == c.data && (c.data + rest)[|c.data|..] == rest;
    }
  }

  lemma LinesOk(cs: seq<Chunk>, last: Chunk, k: nat)
    requires k <= |cs| && MessageOk(cs, last)
    ensures LineOk(last) && last.data == [] && (k < |cs| ==> LineOk(cs[k]) && cs[k].data != [])
    ensures |SizeLineOf(last)| > 0 && (k < |cs| ==> |SizeLineOf(cs[k])| > 0)
  {}

  /** Any message, however the connection delivers its bytes: what is received is the data of its chunks. */
  method ReceiveMessage(wire: seq<int>, room: nat, ghost cs: seq<Chunk>, ghost last: Chunk, ghost trailer: seq<int>) returns (payload: seq<int>)
    requires room >= 1 && EOF !in wire && MessageOk(cs, last) && wire == Message(cs, last, trailer, 0)
    ensures payload == DataFrom(cs, 0)
  {
    hide Payload, MessageOk, Message, DataFrom;
    var r := new Receiver(room, wire);
    payload := r.RecvAll();
    MessagePayload(cs, last, trailer, 0);
    assert Lead(false) + wire == wire;
  }
}

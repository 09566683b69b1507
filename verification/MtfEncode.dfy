/** generateMTFValues: the last column as move-to-front symbols with run digits, written as
    16-bit values over the row pointers that are no longer needed. */
module MtfEncode {
  import opened MoveToFront
  import opened Rotations
  import BurrowsWheeler
  import opened ByteMaps
  import opened Bitmap

  // ---- mtfv, the 16-bit view of arr1 ----

  /** mtfv[k]; words are little-endian. */
  function Half(a: seq<int>, k: nat): int
    requires k / 2 < |a|
  {
    if k % 2 == 0 then a[k / 2] % 0x1_0000 else a[k / 2] / 0x1_0000
  }

  /** mtfv[0 .. n] */
  function Mtfv(a: seq<int>, n: nat): (r: seq<int>)
    requires n <= 2 * |a|
    ensures |r| == n
  {
    seq(n, k requires 0 <= k < n => Half(a, k))
  }

  /** mtfv[wr] = v */
  method Put(arr1: array<int>, wr: nat, v: nat)
    requires wr < 2 * arr1.Length && v < 0x1_0000 && Words(arr1[..])
    modifies arr1
    ensures Words(arr1[..]) && Mtfv(arr1[..], wr + 1) == old(Mtfv(arr1[..], wr)) + [v]
    ensures forall k | 0 <= k < arr1.Length && k != wr / 2 :: arr1[k] == old(arr1[k])
  {
    var w := arr1[wr / 2];
    arr1[wr / 2] := if wr % 2 == 0 then w - w % 0x1_0000 + v else w % 0x1_0000 + v * 0x1_0000;
    ghost var a := old(arr1[..]);
    forall k | 0 <= k < wr ensures Half(arr1[..], k) == Half(a, k) {
      if k / 2 == wr / 2 { SameWord(w, v); }
    }
    SameWord(w, v);
    assert Half(arr1[..], wr) == v;
    assert Mtfv(arr1[..], wr + 1) == Mtfv(a, wr) + [v];
  }

  lemma SameWord(w: nat, v: nat)
    requires v < 0x1_0000
    ensures (w % 0x1_0000 + v * 0x1_0000) % 0x1_0000 == w % 0x1_0000
    ensures (w % 0x1_0000 + v * 0x1_0000) / 0x1_0000 == v
    ensures (w - w % 0x1_0000 + v) % 0x1_0000 == v
  {}

  // ---- Pending runs ----

  /** One digit of a run: what it stands for and what stays to be written. */
  lemma RunStep(pend: nat, done: nat, w: nat, z: nat, digit: nat)
    requires w >= 1 && done + w * (z + 1) == pend && done + z + 1 <= pend && digit == 1 + z % 2
    ensures digit * w >= 1
    ensures z < 2 ==> done + digit * w == pend
    ensures z >= 2 ==> done + digit * w + (2 * w) * ((z - 2) / 2 + 1) == pend && done + digit * w + (z - 2) / 2 + 1 <= pend
  {
    var r := z / 2;
    assert 2 * r + digit == z + 1;
    assert w * (2 * r + digit) == digit * w + (2 * w) * r;
    if z >= 2 {
      assert (z - 2) / 2 + 1 == r;
      AtLeast(2 * w, r);
    }
  }

  lemma AtLeast(w: nat, r: nat)
    requires w >= 1
    ensures w * r >= r
  {}

  /** Writes a pending run as RUNA and RUNB, the lowest digit first. */
  method FlushRun(arr1: array<int>, wr0: nat, pend: nat, ghost d: Reading, ghost m: nat) returns (wr: nat, ghost w: nat)
    requires Words(arr1[..]) && 1 <= pend && wr0 + pend <= arr1.Length
    requires Readable(Mtfv(arr1[..], wr0), 256) && Meaning(Iota(256), Mtfv(arr1[..], wr0)) == d && d.weight == 1
    requires Readable(Mtfv(arr1[..], wr0), m) && m >= 1
    modifies arr1
    ensures Words(arr1[..]) && wr0 <= wr <= wr0 + pend
    ensures Readable(Mtfv(arr1[..], wr), 256) && Readable(Mtfv(arr1[..], wr), m)
    ensures Meaning(Iota(256), Mtfv(arr1[..], wr)) == Reading(d.list, w, d.out + Copies(d.list[0], pend))
    ensures forall k | wr0 + pend <= k < arr1.Length :: arr1[k] == old(arr1[k])
  {
    hide Meaning, Readable, Half;
    wr := wr0;
    var zPend := pend - 1;
    ghost var done := 0;
    w := 1;
    assert d.out + Copies(d.list[0], 0) == d.out;
    while true
      invariant Words(arr1[..]) && zPend >= 0 && wr0 <= wr <= wr0 + done && w >= 1
      invariant done + w * (zPend + 1) == pend && done + zPend + 1 <= pend
      invariant Readable(Mtfv(arr1[..], wr), 256) && Readable(Mtfv(arr1[..], wr), m)
      invariant Meaning(Iota(256), Mtfv(arr1[..], wr)) == Reading(d.list, w, d.out + Copies(d.list[0], done))
      invariant forall k | wr0 + pend <= k < arr1.Length :: arr1[k] == old(arr1[k])
      decreases zPend
    {
      var digit := if zPend % 2 == 1 then RUNB else RUNA;
      MeaningNext(Iota(256), Mtfv(arr1[..], wr), digit);
      ReadableNext(Mtfv(arr1[..], wr), digit, m);
      RunStep(pend, done, w, zPend, 1 + digit);
      CopiesMore(d.out, d.list[0], done, (1 + digit) * w);
      Put(arr1, wr, digit);
      wr := wr + 1;
      done, w := done + (1 + digit) * w, 2 * w;
      if zPend < 2 { break; }
      zPend := (zPend - 2) / 2;
    }
  }

  lemma ReadableNext(syms: seq<int>, sym: int, m: nat)
    requires Readable(syms, m) && 0 <= sym <= m
    ensures Readable(syms + [sym], m)
  {}

  lemma CopiesMore(out: seq<int>, x: int, m: nat, n: nat)
    ensures (out + Copies(x, m)) + Copies(x, n) == out + Copies(x, m + n)
  {}

  // ---- The main loop ----

  /** The column the decoder has to restore, in numbers of characters in use. */
  function Numbered(u: seq<bool>, l: seq<int>): (r: seq<int>)
    requires |u| == 256 && forall i | 0 <= i < |l| :: 0 <= l[i] < 256
    ensures |r| == |l|
  {
    seq(|l|, i requires 0 <= i < |l| => UsedBelow(u, l[i]))
  }

  /** The encoder's array yy is the start of list. */
  ghost predicate IsList(yy: seq<int>, n: nat, list: seq<int>) {
    && |yy| == 256 == |list| && n <= 256 && (forall i | 0 <= i < n :: yy[i] == list[i])
    && forall v | 0 <= v < n :: Has(yy, n, v)
  }

  /** Brings character c of the list yy to the front and tells where it was. */
  method Bring(yy: array<int>, n: nat, c: int, ghost list: seq<int>) returns (j: nat)
    requires IsList(yy[..], n, list) && 0 <= c < n && yy[0] != c
    modifies yy
    ensures 1 <= j < n && list[j] == c && IsList(yy[..], n, ToFront(list, j))
  {
    ghost var y := yy[..];
    hide IsList, ToFront;
    ghost var t := Find(y, n, list, c);
    var rtmp := yy[1];
    yy[1] := yy[0];
    j := 1;
    while c != rtmp
      invariant 1 <= j <= t && rtmp == y[j]
      invariant forall i | 1 <= i <= j :: yy[i] == y[i - 1]
      invariant forall i | 0 <= i < 256 && !(1 <= i <= j) :: yy[i] == y[i]
      decreases t - j
    {
      j := j + 1;
      var rtmp2 := rtmp;
      rtmp := yy[j];
      yy[j] := rtmp2;
    }
    yy[0] := rtmp;
    Brought(y, yy[..], n, list, j);
  }

  lemma Find(y: seq<int>, n: nat, list: seq<int>, c: int) returns (t: int)
    requires IsList(y, n, list) && 0 <= c < n
    ensures |y| == 256 == |list| && n <= 256 && 0 <= t < n && y[t] == c
  {
    assert Has(y, n, c);
    t :| 0 <= t < n && y[t] == c;
  }

  lemma Brought(y: seq<int>, y': seq<int>, n: nat, list: seq<int>, j: nat)
    requires IsList(y, n, list) && 1 <= j < n && |y'| == 256 && y'[0] == y[j]
    requires forall i | 1 <= i <= j :: y'[i] == y[i - 1]
    requires forall i | j < i < 256 :: y'[i] == y[i]
    ensures |list| == 256 && list[j] == y[j] && IsList(y', n, ToFront(list, j))
  {
    forall v | 0 <= v < n ensures Has(y', n, v) {
      assert Has(y, n, v);
      var i :| 0 <= i < n && y[i] == v;
      var k := if i < j then i + 1 else if i == j then 0 else i;
      assert y'[k] == v;
    }
  }

  /** What holds after i rows: the values written mean the first i entries of the column except
      for the pending run, and the pointers from row i on are untouched. */
  ghost predicate Written(a: seq<int>, yy: seq<int>, u: seq<bool>, s: seq<int>, p: seq<int>, i: nat, wr: nat, zPend: nat, d: Reading)
  {
    && IsBytes(s) && IsPerm(p, |s|) && i <= |s| <= |a| && |u| == 256 && Words(a) && wr + zPend <= i
    && Readable(Mtfv(a, wr), 256) && Meaning(Iota(256), Mtfv(a, wr)) == d && d.weight == 1
    && IsList(yy, UsedBelow(u, 256), d.list)
    && d.out + Copies(d.list[0], zPend) == Numbered(u, BurrowsWheeler.LastColumn(s, p))[..i]
    && forall k | i <= k < |s| :: a[k] == p[k]
  }

  lemma WrittenShape(a: seq<int>, yy: seq<int>, u: seq<bool>, s: seq<int>, p: seq<int>, i: nat, wr: nat, zPend: nat, d: Reading)
    requires Written(a, yy, u, s, p, i, wr, zPend, d)
    ensures IsBytes(s) && IsPerm(p, |s|) && i <= |s| <= |a| && |u| == 256 && Words(a) && wr + zPend <= i && |d.list| == 256
    ensures Readable(Mtfv(a, wr), 256) && Meaning(Iota(256), Mtfv(a, wr)) == d && d.weight == 1
    ensures IsList(yy, UsedBelow(u, 256), d.list)
    ensures forall k | i <= k < |s| :: a[k] == p[k]
  {}

  /** The front character again: the run grows. */
  lemma RunGrows(a: seq<int>, yy: seq<int>, u: seq<bool>, s: seq<int>, p: seq<int>, i: nat, wr: nat, zPend: nat, d: Reading)
    requires Written(a, yy, u, s, p, i, wr, zPend, d) && i < |s| && UsedBelow(u, 256) > 0
    requires yy[0] == UsedBelow(u, s[Prev(|s|, p[i])])
    ensures Written(a, yy, u, s, p, i + 1, wr, zPend + 1, d)
  {
    hide Meaning, Readable, Words, Mtfv;
    var col := Numbered(u, BurrowsWheeler.LastColumn(s, p));
    assert col[..i + 1] == col[..i] + [col[i]];
    assert d.out + Copies(d.list[0], zPend + 1) == (d.out + Copies(d.list[0], zPend)) + [d.list[0]];
  }

  /** The symbol of a character that was not in front was written. */
  lemma SymbolWritten(a: seq<int>, yy: seq<int>, u: seq<bool>, s: seq<int>, p: seq<int>, i: nat, wr: nat, syms: seq<int>, d: Reading, j: nat)
    requires IsBytes(s) && IsPerm(p, |s|) && i < |s| <= |a| && |u| == 256 && Words(a) && wr <= i
    requires Readable(syms, 256) && Meaning(Iota(256), syms) == d && 1 <= j < UsedBelow(u, 256)
    requires Mtfv(a, wr + 1) == syms + [j + 1] && |d.list| == 256 && IsList(yy, UsedBelow(u, 256), ToFront(d.list, j))
    requires d.out == Numbered(u, BurrowsWheeler.LastColumn(s, p))[..i] && d.list[j] == UsedBelow(u, s[Prev(|s|, p[i])])
    requires forall k | i < k < |s| :: a[k] == p[k]
    ensures Written(a, yy, u, s, p, i + 1, wr + 1, 0, Read(d, j + 1))
  {
    hide Meaning, Readable, Words, Mtfv, IsList;
    MeaningNext(Iota(256), syms, j + 1);
    var col := Numbered(u, BurrowsWheeler.LastColumn(s, p));
    var e := Read(d, j + 1);
    assert e.out == d.out + [d.list[j]];
    assert col[..i + 1] == col[..i] + [col[i]];
    assert e.out + Copies(e.list[0], 0) == e.out;
  }

  lemma WrittenStart(a: seq<int>, yy: seq<int>, u: seq<bool>, s: seq<int>, p: seq<int>)
    requires IsBytes(s) && IsPerm(p, |s|) && 1 <= |s| <= |a| && |u| == 256 && Words(a) && a[..|s|] == p
    requires |yy| == 256 && forall v | 0 <= v < UsedBelow(u, 256) :: yy[v] == v
    ensures Written(a, yy, u, s, p, 0, 0, 0, Reading(Iota(256), 1, []))
  {
    assert Mtfv(a, 0) == [];
    forall v | 0 <= v < UsedBelow(u, 256) ensures Has(yy, UsedBelow(u, 256), v) { assert yy[v] == v; }
    assert forall k | 0 <= k < |s| :: a[k] == a[..|s|][k];
  }

  lemma WholeColumn(u: seq<bool>, s: seq<int>, p: seq<int>)
    requires |u| == 256 && IsBytes(s) && IsPerm(p, |s|)
    ensures var col := Numbered(u, BurrowsWheeler.LastColumn(s, p)); col[..|s|] == col
  {}

  lemma PendingOut(a: seq<int>, yy: seq<int>, u: seq<bool>, s: seq<int>, p: seq<int>, i: nat, wr: nat, zPend: nat, d: Reading)
    requires Written(a, yy, u, s, p, i, wr, zPend, d)
    ensures |d.list| == 256 && d.out + Copies(d.list[0], zPend) == Numbered(u, BurrowsWheeler.LastColumn(s, p))[..i]
    ensures d.out + Copies(d.list[0], 0) == d.out
  {}

  lemma EobFound(a: seq<int>, wr: nat, syms: seq<int>, v: int)
    requires wr + 1 <= 2 * |a| && |syms| == wr && Mtfv(a, wr + 1) == syms + [v]
    ensures Half(a, wr) == v && Mtfv(a, wr) == syms
  {
    assert forall k | 0 <= k <= wr :: Half(a, k) == (syms + [v])[k];
  }

  lemma NothingReadable(a: seq<int>, m: nat)
    ensures Readable(Mtfv(a, 0), m)
  {}

  lemma RowInRange(p: seq<int>, n: nat, i: nat)
    requires IsPerm(p, n) && i < n
    ensures |p| == n && 0 <= p[i] < n
  {}

  /** Writes what is pending. */
  method Flush(arr1: array<int>, ghost yy: seq<int>, ghost u: seq<bool>, ghost s: seq<int>, ghost p: seq<int>,
               ghost i: nat, wr0: nat, zPend0: nat, ghost d0: Reading, ghost m: nat)
    returns (wr: nat, zPend: nat, ghost d: Reading)
    requires Written(arr1[..], yy, u, s, p, i, wr0, zPend0, d0) && Readable(Mtfv(arr1[..], wr0), m) && m >= 1
    modifies arr1
    ensures wr0 <= wr <= wr0 + zPend0 && zPend == 0 && Words(arr1[..])
    ensures |u| == 256 && IsBytes(s) && IsPerm(p, |s|) && i <= |s| <= arr1.Length && wr <= i && |d.list| == 256
    ensures Readable(Mtfv(arr1[..], wr), 256) && Readable(Mtfv(arr1[..], wr), m) && Meaning(Iota(256), Mtfv(arr1[..], wr)) == d
    ensures d.list == d0.list && d.out == Numbered(u, BurrowsWheeler.LastColumn(s, p))[..i]
    ensures forall k | i <= k < |s| :: arr1[k] == p[k]
  {
    hide Meaning, Readable, Words, Half, Mtfv, IsList, Written, IsPerm;
    WrittenShape(arr1[..], yy, u, s, p, i, wr0, zPend0, d0);
    wr, zPend, d := wr0, zPend0, d0;
    if zPend > 0 {
      ghost var w;
      wr, w := FlushRun(arr1, wr0, zPend0, d0, m);
      d := Reading(d0.list, w, d0.out + Copies(d0.list[0], zPend0));
      zPend := 0;
    }
    PendingOut(old(arr1[..]), yy, u, s, p, i, wr0, zPend0, d0);
  }

  /** One row whose character is not in front. */
  method WriteMoved(arr1: array<int>, yy: array<int>, nInUse: nat, ll: int, ghost u: seq<bool>, ghost s: seq<int>, ghost p: seq<int>,
                    ghost i: nat, wr0: nat, zPend0: nat, ghost d0: Reading)
    returns (wr: nat, zPend: nat, ghost d: Reading)
    requires arr1 != yy && Written(arr1[..], yy[..], u, s, p, i, wr0, zPend0, d0) && i < |s| && |u| == 256
    requires Readable(Mtfv(arr1[..], wr0), nInUse) && nInUse == UsedBelow(u, 256) && 0 <= ll < nInUse && yy[0] != ll
    requires IsPerm(p, |s|) && ll == UsedBelow(u, s[Prev(|s|, p[i])])
    modifies arr1, yy
    ensures wr + zPend <= i + 1 && Written(arr1[..], yy[..], u, s, p, i + 1, wr, zPend, d) && Readable(Mtfv(arr1[..], wr), nInUse)
    ensures forall k | i < k < |s| :: arr1[k] == p[k]
  {
    hide Meaning, Readable, Words, Half, Mtfv, IsList, Written, IsPerm, ToFront;
    WrittenShape(arr1[..], yy[..], u, s, p, i, wr0, zPend0, d0);
    wr, zPend, d := Flush(arr1, yy[..], u, s, p, i, wr0, zPend0, d0, nInUse);
    var j := Bring(yy, nInUse, ll, d.list);
    ghost var syms := Mtfv(arr1[..], wr);
    ReadableNext(syms, j + 1, nInUse);
    Put(arr1, wr, j + 1);
    SymbolWritten(arr1[..], yy[..], u, s, p, i, wr, syms, d, j);
    wr, d := wr + 1, Read(d, j + 1);
  }

  /** generateMTFValues.  The symbols mean the last column and end with EOB; there is at most one
      more than there are rows, so no pointer is overwritten before it was read. */
  method GenerateMTFValues(arr1: array<int>, block: array<int>, inUse: array<bool>, n: nat, ghost s: seq<int>, ghost p: seq<int>)
    returns (nMTF: nat, nInUse: nat)
    requires block != arr1 && 1 <= n <= arr1.Length && n <= block.Length && inUse.Length == 256
    requires IsBytes(s) && |s| == n && block[..n] == s && IsPerm(p, n) && arr1[..n] == p && Words(arr1[..])
    requires forall i | 0 <= i < n :: inUse[s[i]]
    modifies arr1
    ensures nInUse == UsedBelow(inUse[..], 256) && 1 <= nMTF <= n + 1
    ensures Half(arr1[..], nMTF - 1) == nInUse + 1
    ensures Readable(Mtfv(arr1[..], nMTF - 1), nInUse) && Readable(Mtfv(arr1[..], nMTF - 1), 256)
    ensures Meaning(Iota(256), Mtfv(arr1[..], nMTF - 1)).out == Numbered(inUse[..], BurrowsWheeler.LastColumn(s, p))
  {
    hide Meaning, Readable, Words, Half, Mtfv, IsList, Written, IsPerm;
    ghost var u, a := inUse[..], arr1[..];
    assert a[..n] == p;
    var unseqToSeq := new int[256];
    nInUse := MakeMapsE(inUse, unseqToSeq);
    UsedGrows(u, s[0], 256);
    var yy := new int[256](_ => 0);
    for i := 0 to nInUse
      invariant forall v | 0 <= v < i :: yy[v] == v
      modifies yy
    {
      yy[i] := i;
    }
    var wr: nat, zPend: nat := 0, 0;
    ghost var d := Reading(Iota(256), 1, []);
    assert arr1[..] == a && inUse[..] == u;
    WrittenStart(arr1[..], yy[..], u, s, p);
    NothingReadable(arr1[..], nInUse);
    for i := 0 to n
      invariant wr + zPend <= i && Written(arr1[..], yy[..], u, s, p, i, wr, zPend, d) && Readable(Mtfv(arr1[..], wr), nInUse)
      invariant forall k | i <= k < n :: arr1[k] == p[k]
      modifies arr1, yy
    {
      WrittenShape(arr1[..], yy[..], u, s, p, i, wr, zPend, d);
      RowInRange(p, n, i);
      var j := arr1[i] - 1;
      if j < 0 { j := j + n; }
      var ll := unseqToSeq[block[j]];
      assert ll == UsedBelow(u, s[Prev(n, p[i])]) by {
        assert block[..n][j] == s[j] && inUse[s[j]];
      }
      if yy[0] == ll {
        RunGrows(arr1[..], yy[..], u, s, p, i, wr, zPend, d);
        zPend := zPend + 1;
      } else {
        wr, zPend, d := WriteMoved(arr1, yy, nInUse, ll, u, s, p, i, wr, zPend, d);
      }
    }
    wr, zPend, d := Flush(arr1, yy[..], u, s, p, n, wr, zPend, d, nInUse);
    WholeColumn(u, s, p);
    ghost var syms := Mtfv(arr1[..], wr);
    Put(arr1, wr, nInUse + 1);
    EobFound(arr1[..], wr, syms, nInUse + 1);
    nMTF := wr + 1;
  }
}

/** sendMTFValues: codes a block of symbols, with whatever tables the symbol frequencies gave and
    whatever table was selected for each group. */
module BlockWriter {
  import opened Bits
  import opened BitStream
  import BW = BitWriter
  import opened MoveToFront
  import opened SymbolStream
  import opened BlockFormat
  import CanonicalCode
  import CodeForest
  import CodeLengths

  lemma BitFields()
    ensures Field(1, 1) == [true] && Field(0, 1) == [false] && Field(2, 2) == [true, false] && Field(3, 2) == [true, true]
  {
    assert Field(1, 1) == Field(0, 0) + [true];
    assert Field(0, 1) == Field(0, 0) + [false];
    assert Field(2, 2) == Field(1, 1) + [false];
    assert Field(3, 2) == Field(1, 1) + [true];
  }

  /** bsW of one bit. */
  method PutBit(w: BW.Writer, b: bool)
    requires w.Valid()
    modifies w
    ensures w.Valid() && w.Output() == old(w.Output()) + [b]
  {
    hide Field;
    BitFields();
    if b { w.W(1, 1); } else { w.W(1, 0); }
  }

  // ---- The mapping table ----

  /** Which rows of 16 characters are used. */
  method FindRows(inUse: array<bool>) returns (inUse16: array<bool>)
    requires inUse.Length == 256
    ensures fresh(inUse16) && inUse16.Length == 16
    ensures forall i | 0 <= i < 16 :: inUse16[i] == Used16(inUse[..], i)
  {
    inUse16 := new bool[16];
    for i := 0 to 16
      invariant forall k | 0 <= k < i :: inUse16[k] == Used16(inUse[..], k)
    {
      inUse16[i] := false;
      for j := 0 to 16
        invariant inUse16[i] <==> exists k :: 16 * i <= k < 16 * i + j && inUse[k]
        invariant forall k | 0 <= k < i :: inUse16[k] == Used16(inUse[..], k)
      {
        if inUse[i * 16 + j] { inUse16[i] := true; }
      }
    }
  }

  method WriteMap(w: BW.Writer, inUse: array<bool>)
    requires w.Valid() && inUse.Length == 256
    modifies w
    ensures w.Valid() && w.Output() == old(w.Output()) + MapBits(inUse[..])
  {
    hide w.Valid, w.Output, Used16, RowsFrom, RowFrom, UsedFrom;
    ghost var u, o := inUse[..], w.Output();
    var inUse16 := FindRows(inUse);
    for i := 0 to 16
      invariant w.Valid() && w.Output() + RowsFrom(u, i) == o + RowsFrom(u, 0)
      modifies w
    {
      NextRow(u, i);
      Assoc(w.Output(), [inUse16[i]], RowsFrom(u, i + 1));
      PutBit(w, inUse16[i]);
    }
    LastRows(u);
    NoMore(w.Output());
    ghost var p := w.Output();
    for i := 0 to 16
      invariant w.Valid() && w.Output() + UsedFrom(u, i) == p + UsedFrom(u, 0)
      modifies w
    {
      NextUsed(u, i);
      if inUse16[i] {
        ghost var q := w.Output();
        for j := 0 to 16
          invariant w.Valid() && w.Output() + RowFrom(u, i, j) == q + RowFrom(u, i, 0)
          modifies w
        {
          NextInRow(u, i, j);
          Assoc(w.Output(), [u[16 * i + j]], RowFrom(u, i, j + 1));
          PutBit(w, inUse[i * 16 + j]);
        }
        NoMore(w.Output());
        Assoc(q, RowFrom(u, i, 0), UsedFrom(u, i + 1));
      }
    }
    NoMore(w.Output());
    Assoc(o, RowsFrom(u, 0), UsedFrom(u, 0));
  }

  // ---- Selectors ----

  ghost predicate AllIn(l: seq<int>, n: nat) {
    |l| == n && forall v | 0 <= v < n :: Has(l, n, v)
  }

  lemma IotaAll(n: nat)
    ensures AllIn(Iota(n), n)
  {
    forall v | 0 <= v < n ensures Has(Iota(n), n, v) { assert Iota(n)[v] == v; }
  }

  lemma ToFrontAll(l: seq<int>, n: nat, j: nat)
    requires AllIn(l, n) && j < n
    ensures AllIn(ToFront(l, j), n)
  {
    var r := ToFront(l, j);
    forall v | 0 <= v < n ensures Has(r, n, v) {
      assert Has(l, n, v);
      var i :| 0 <= i < n && l[i] == v;
      assert r[if i < j then i + 1 else if i == j then 0 else i] == v;
    }
  }

  /** Brings v to the front of pos. */
  method Bring(pos: array<int>, n: nat, v: int, ghost l: seq<int>) returns (j: nat)
    requires n <= pos.Length && pos[..n] == l && AllIn(l, n) && 0 <= v < n
    modifies pos
    ensures j < n && l[j] == v && pos[..n] == ToFront(l, j)
  {
    assert Has(l, n, v);
    ghost var t :| 0 <= t < n && l[t] == v;
    assert forall i | 0 <= i < n :: pos[i] == l[i];
    j := 0;
    var tmp := pos[j];
    while v != tmp
      invariant 0 <= j <= t && tmp == l[j]
      invariant forall i | 1 <= i <= j :: pos[i] == l[i - 1]
      invariant forall i | j < i < n :: pos[i] == l[i]
      decreases t - j
    {
      j := j + 1;
      var tmp2 := tmp;
      tmp := pos[j];
      pos[j] := tmp2;
    }
    pos[0] := tmp;
    assert pos[..n] == ToFront(l, j);
  }

  /** Computes the move-to-front values of the selectors. */
  method MoveSelectors(selector: seq<int>, nGroups: nat) returns (moves: seq<int>)
    requires 1 <= nGroups <= 6 && forall k | 0 <= k < |selector| :: 0 <= selector[k] < nGroups
    ensures Moves(moves, selector, nGroups)
  {
    var pos := new int[6];
    for i := 0 to nGroups
      invariant forall k | 0 <= k < i :: pos[k] == k
    {
      pos[i] := i;
    }
    moves := [];
    ghost var l := Iota(nGroups);
    IotaAll(nGroups);
    for i := 0 to |selector|
      invariant Moves(moves, selector[..i], nGroups) && l == ListAfter(moves, nGroups, i) && pos[..nGroups] == l && AllIn(l, nGroups)
    {
      var j := Bring(pos, nGroups, selector[i], l);
      ToFrontAll(l, nGroups, j);
      MovesNext(moves, selector, nGroups, i, j);
      moves := moves + [j];
      l := ToFront(l, j);
    }
    assert selector[..|selector|] == selector;
  }

  lemma {:induction false} ListSame(m: seq<int>, m': seq<int>, n: nat, i: nat)
    requires i <= |m| <= |m'| && m'[..|m|] == m && forall k | 0 <= k < |m'| :: 0 <= m'[k] < n
    ensures forall k | 0 <= k < |m| :: m[k] == m'[k]
    ensures ListAfter(m', n, i) == ListAfter(m, n, i)
  {
    assert forall k | 0 <= k < |m| :: m[k] == m'[..|m|][k];
    if i > 0 { ListSame(m, m', n, i - 1); }
  }

  lemma MovesNext(m: seq<int>, sel: seq<int>, n: nat, i: nat, j: int)
    requires i < |sel| && Moves(m, sel[..i], n) && 0 <= j < n && ListAfter(m, n, i)[j] == sel[i]
    ensures Moves(m + [j], sel[..i + 1], n) && ListAfter(m + [j], n, i + 1) == ToFront(ListAfter(m, n, i), j)
  {
    hide ListAfter, ToFront;
    var m' := m + [j];
    assert m'[..|m|] == m;
    forall k | 0 <= k <= i ensures ListAfter(m', n, k) == ListAfter(m, n, k) { ListSame(m, m', n, k); }
    forall k | 0 <= k <= i ensures sel[..i + 1][k] == ListAfter(m', n, k)[m'[k]] {
      if k < i { assert sel[..i][k] == sel[k] && m'[k] == m[k]; }
    }
    ListNext(m', n, i);
  }

  method WriteSelectors(w: BW.Writer, moves: seq<int>)
    requires w.Valid() && forall k | 0 <= k < |moves| :: 0 <= moves[k]
    modifies w
    ensures w.Valid() && w.Output() == old(w.Output()) + UnaryFrom(moves, 0)
  {
    hide w.Valid, w.Output, Unary;
    ghost var o := w.Output();
    for i := 0 to |moves|
      invariant w.Valid() && w.Output() + UnaryFrom(moves, i) == o + UnaryFrom(moves, 0)
    {
      ghost var p := w.Output();
      for j := 0 to moves[i]
        invariant w.Valid() && w.Output() + Unary(moves[i] - j) == p + Unary(moves[i])
      {
        UnaryNext(moves[i] - j);
        Assoc(w.Output(), [true], Unary(moves[i] - j - 1));
        PutBit(w, true);
      }
      UnaryNext(0);
      PutBit(w, false);
      Assoc(p, Unary(moves[i]), UnaryFrom(moves, i + 1));
    }
    NoMore(w.Output());
  }

  // ---- Coding tables ----

  method WriteDelta(w: BW.Writer, curr0: int, len: int)
    requires w.Valid()
    modifies w
    ensures w.Valid() && w.Output() == old(w.Output()) + Delta(curr0, len)
  {
    hide w.Valid, w.Output, Field, Delta;
    BitFields();
    ghost var o := w.Output();
    var curr := curr0;
    while curr < len
      invariant w.Valid() && w.Output() + Delta(curr, len) == o + Delta(curr0, len)
    {
      DeltaNext(curr, len);
      Assoc(w.Output(), [true, false], Delta(curr + 1, len));
      w.W(2, 2);
      curr := curr + 1;
    }
    while curr > len
      invariant w.Valid() && w.Output() + Delta(curr, len) == o + Delta(curr0, len) && curr >= len
    {
      DeltaNext(curr, len);
      Assoc(w.Output(), [true, true], Delta(curr - 1, len));
      w.W(2, 3);
      curr := curr - 1;
    }
    DeltaNext(curr, len);
    PutBit(w, false);
  }

  method WriteTables(w: BW.Writer, lens: seq<seq<int>>, alphaSize: nat)
    requires w.Valid() && LengthsOk(lens, alphaSize)
    modifies w
    ensures w.Valid() && w.Output() == old(w.Output()) + TablesFrom(lens, alphaSize, 0)
  {
    hide w.Valid, w.Output, Field, Delta, DeltasFrom, TablesFrom;
    ghost var o := w.Output();
    for t := 0 to |lens|
      invariant w.Valid() && w.Output() + TablesFrom(lens, alphaSize, t) == o + TablesFrom(lens, alphaSize, 0)
    {
      var len := lens[t];
      TableNext(lens, alphaSize, t);
      ghost var p := w.Output();
      Pow2Values();
      w.W(5, len[0]);
      ghost var q := w.Output();
      for i := 0 to alphaSize
        invariant w.Valid() && w.Output() + DeltasFrom(len, i, len[if i == 0 then 0 else i - 1]) == q + DeltasFrom(len, 0, len[0])
      {
        DeltasNext(len, i, len[if i == 0 then 0 else i - 1]);
        Assoc(w.Output(), Delta(len[if i == 0 then 0 else i - 1], len[i]), DeltasFrom(len, i + 1, len[i]));
        WriteDelta(w, len[if i == 0 then 0 else i - 1], len[i]);
      }
      DeltasNone(len, len[alphaSize - 1]);
      NoMore(w.Output());
      Assoc(p, Field(len[0], 5), DeltasFrom(len, 0, len[0]));
      Assoc(p, Field(len[0], 5) + DeltasFrom(len, 0, len[0]), TablesFrom(lens, alphaSize, t + 1));
    }
    TablesNone(lens, alphaSize);
    NoMore(w.Output());
  }

  // ---- The symbols ----

  /** Codes that belong to the lengths. */
  ghost predicate CodesOf(codes: seq<seq<int>>, lens: seq<seq<int>>) {
    && |codes| == |lens|
    && forall t | 0 <= t < |lens| :: |codes[t]| == |lens[t]| && forall i | 0 <= i < |lens[t]| :: codes[t][i] == CanonicalCode.Code(lens[t], i)
  }

  /** One symbol. */
  method WriteSymbol(w: BW.Writer, len: seq<int>, code: seq<int>, sym: int)
    requires w.Valid() && PrefixLengths(len) && |code| == |len| && 0 <= sym < |len| && code[sym] == CanonicalCode.Code(len, sym)
    modifies w
    ensures w.Valid() && w.Output() == old(w.Output()) + CanonicalCode.CodeBits(len, sym)
  {
    hide w.Output, Field, CanonicalCode.Code, CodeForest.Kraft;
    CanonicalCode.CodesFit(len, sym);
    w.W(len[sym], code[sym]);
  }

  /** The groups of up to 50 symbols, each with its table. */
  method WriteSymbols(w: BW.Writer, syms: seq<int>, sel: seq<int>, lens: seq<seq<int>>, codes: seq<seq<int>>)
    requires w.Valid() && Codable(lens, sel, syms) && CodesOf(codes, lens) && |sel| == (|syms| + G_SIZE - 1) / G_SIZE
    modifies w
    ensures w.Valid() && w.Output() == old(w.Output()) + CodedTo(lens, sel, syms, |syms|)
  {
    hide w.Valid, w.Output, CodedTo, PrefixLengths, CanonicalCode.CodeBits, CanonicalCode.Code;
    ghost var o := w.Output();
    NoneCoded(lens, sel, syms);
    NoMore(o);
    var selCtr, gs := 0, 0;
    while gs < |syms|
      invariant 0 <= gs <= |syms| && (gs == G_SIZE * selCtr || (gs == |syms| && selCtr == |sel|))
      invariant w.Valid() && w.Output() == o + CodedTo(lens, sel, syms, gs)
    {
      var ge := if gs + G_SIZE - 1 >= |syms| then |syms| - 1 else gs + G_SIZE - 1;
      for i := gs to ge + 1
        invariant w.Valid() && w.Output() == o + CodedTo(lens, sel, syms, i)
      {
        assert i / G_SIZE == selCtr;
        CodedNext(lens, sel, syms, i);
        var t := sel[selCtr];
        WriteSymbol(w, lens[t], codes[t], syms[i]);
        Assoc(o, CodedTo(lens, sel, syms, i), SymbolBits(lens, sel, syms, i));
      }
      gs := ge + 1;
      selCtr := selCtr + 1;
    }
    assert selCtr == |sel|;          // AssertH 3007
  }

  lemma CodedNext(lens: seq<seq<int>>, sel: seq<int>, syms: seq<int>, k: nat)
    requires Codable(lens, sel, syms) && k < |syms|
    ensures CodedTo(lens, sel, syms, k + 1) == CodedTo(lens, sel, syms, k) + SymbolBits(lens, sel, syms, k)
    ensures k / G_SIZE < |sel| && 0 <= sel[k / G_SIZE] < |lens|
    ensures PrefixLengths(lens[sel[k / G_SIZE]]) && 0 <= syms[k] < |lens[sel[k / G_SIZE]]|
  {}

  // ---- Making the tables ----

  function NGroups(nMTF: nat): (r: nat)
    ensures 2 <= r <= 6
  {
    if nMTF < 200 then 2 else if nMTF < 600 then 3 else if nMTF < 1200 then 4 else if nMTF < 2400 then 5 else 6
  }

  lemma {:induction false} FreqSame(f: seq<int>, g: seq<int>, k: nat)
    requires k <= |f| && k <= |g| && forall i | 0 <= i < k :: f[i] == g[i]
    ensures CodeLengths.FreqTotal(f, k) == CodeLengths.FreqTotal(g, k)
  {
    if k > 0 { FreqSame(f, g, k - 1); }
  }

  /** One more occurrence of x adds at most one. */
  lemma {:induction false} FreqOneMore(f: seq<int>, x: nat, k: nat)
    requires x < k <= |f| && forall i | 0 <= i < k :: f[i] >= 0
    ensures CodeLengths.FreqTotal(f[x := f[x] + 1], k) <= CodeLengths.FreqTotal(f, k) + 1
  {
    if x == k - 1 { FreqSame(f, f[x := f[x] + 1], k - 1); } else { FreqOneMore(f, x, k - 1); }
  }

  lemma {:induction false} FreqOfNone(f: seq<int>, k: nat)
    requires k <= |f| && forall i | 0 <= i < k :: f[i] == 0
    ensures CodeLengths.FreqTotal(f, k) == k
  {
    if k > 0 { FreqOfNone(f, k - 1); }
  }

  /** How often table t codes symbol x among the first k symbols. */
  function Uses(syms: seq<int>, sel: seq<int>, t: int, x: int, k: nat): nat
    requires k <= |syms| <= G_SIZE * |sel|
  {
    if k == 0 then 0 else Uses(syms, sel, t, x, k - 1) + if sel[(k - 1) / G_SIZE] == t && syms[k - 1] == x then 1 else 0
  }

  /** The groups of other tables do not count. */
  lemma {:induction false} OtherGroup(syms: seq<int>, sel: seq<int>, t: int, x: int, g: nat, k: nat)
    requires G_SIZE * g <= k <= |syms| <= G_SIZE * |sel| && k <= G_SIZE * (g + 1) && g < |sel| && sel[g] != t
    ensures Uses(syms, sel, t, x, k) == Uses(syms, sel, t, x, G_SIZE * g)
    decreases k
  {
    if k > G_SIZE * g {
      assert (k - 1) / G_SIZE == g;
      OtherGroup(syms, sel, t, x, g, k - 1);
    }
  }

  /** rfreq counts the uses of table t among the first k symbols. */
  ghost predicate Counts(f: seq<int>, syms: seq<int>, sel: seq<int>, t: int, n: nat, k: nat)
  {
    && k <= |syms| <= G_SIZE * |sel| && n <= |f|
    && (forall x | 0 <= x < n :: f[x] == Uses(syms, sel, t, x, k)) && CodeLengths.FreqTotal(f, n) <= n + k
  }

  lemma CountsNone(f: seq<int>, syms: seq<int>, sel: seq<int>, t: int, n: nat)
    requires |syms| <= G_SIZE * |sel| && n <= |f| && forall x | 0 <= x < |f| :: f[x] == 0
    ensures Counts(f, syms, sel, t, n, 0)
  {
    FreqOfNone(f, n);
  }

  lemma CountsGroup(f: seq<int>, syms: seq<int>, sel: seq<int>, t: int, n: nat, g: nat, k: nat)
    requires Counts(f, syms, sel, t, n, G_SIZE * g) && G_SIZE * g <= k <= |syms| && k <= G_SIZE * (g + 1) && g < |sel| && sel[g] != t
    ensures Counts(f, syms, sel, t, n, k)
  {
    forall x | 0 <= x < n ensures f[x] == Uses(syms, sel, t, x, k) { OtherGroup(syms, sel, t, x, g, k); }
  }

  lemma CountsOne(f: seq<int>, syms: seq<int>, sel: seq<int>, t: int, n: nat, k: nat)
    requires Counts(f, syms, sel, t, n, k) && k < |syms| && sel[k / G_SIZE] == t && 0 <= syms[k] < n
    ensures Counts(f[syms[k] := f[syms[k]] + 1], syms, sel, t, n, k + 1)
  {
    hide CodeLengths.FreqTotal;
    FreqOneMore(f, syms[k], n);
  }

  /** How often table t has to code each symbol. */
  method CountSymbols(rfreq: array<int>, t: int, syms: seq<int>, sel: seq<int>, alphaSize: nat)
    requires alphaSize <= rfreq.Length && forall k | 0 <= k < |syms| :: 0 <= syms[k] < alphaSize
    requires |sel| == (|syms| + G_SIZE - 1) / G_SIZE
    modifies rfreq
    ensures forall x | 0 <= x < alphaSize :: rfreq[x] == Uses(syms, sel, t, x, |syms|)
    ensures CodeLengths.FreqTotal(rfreq[..], alphaSize) <= alphaSize + |syms|
  {
    hide Counts;
    for v := 0 to rfreq.Length
      invariant forall i | 0 <= i < v :: rfreq[i] == 0
    {
      rfreq[v] := 0;
    }
    CountsNone(rfreq[..], syms, sel, t, alphaSize);
    var nSelectors, gs := 0, 0;
    while gs < |syms|
      invariant 0 <= gs <= |syms| && (gs == G_SIZE * nSelectors || (gs == |syms| && nSelectors == |sel|))
      invariant Counts(rfreq[..], syms, sel, t, alphaSize, gs)
    {
      var ge := if gs + G_SIZE - 1 >= |syms| then |syms| - 1 else gs + G_SIZE - 1;
      var bt := sel[nSelectors];
      if bt == t {
        for i := gs to ge + 1
          invariant Counts(rfreq[..], syms, sel, t, alphaSize, i)
        {
          ghost var f := rfreq[..];
          GroupIs(i, nSelectors);
          CountsOne(f, syms, sel, t, alphaSize, i);
          rfreq[syms[i]] := rfreq[syms[i]] + 1;
          assert rfreq[..] == f[syms[i] := f[syms[i]] + 1];
        }
      } else {
        CountsGroup(rfreq[..], syms, sel, t, alphaSize, nSelectors, ge + 1);
      }
      nSelectors := nSelectors + 1;
      gs := ge + 1;
    }
    Counted(rfreq[..], syms, sel, t, alphaSize);
    assert forall x | 0 <= x < alphaSize :: rfreq[..][x] == rfreq[x];
  }

  lemma GroupIs(i: nat, g: nat)
    requires G_SIZE * g <= i < G_SIZE * (g + 1)
    ensures i / G_SIZE == g
  {}

  lemma Counted(f: seq<int>, syms: seq<int>, sel: seq<int>, t: int, n: nat)
    requires Counts(f, syms, sel, t, n, |syms|)
    ensures n <= |f| && |syms| <= G_SIZE * |sel| && forall x | 0 <= x < n :: f[x] == Uses(syms, sel, t, x, |syms|)
    ensures CodeLengths.FreqTotal(f, n) <= n + |syms|
  {}

  /** How often table t codes each of the n symbols of the alphabet. */
  ghost function UsesOf(syms: seq<int>, sel: seq<int>, t: int, n: nat): (f: seq<int>)
    requires |syms| <= G_SIZE * |sel|
    ensures |f| == n
  {
    seq(n, x requires 0 <= x < n => Uses(syms, sel, t, x, |syms|))
  }

  /** No code for the symbols that use table t takes fewer bits; their counts are halved only as
      often as best codes exceed 17 bits. */
  ghost predicate LeastBits(syms: seq<int>, sel: seq<int>, t: int, len: seq<int>)
    requires |syms| <= G_SIZE * |sel|
  {
    var f := UsesOf(syms, sel, t, |len|);
    exists k: nat :: CodeLengths.Best(f, k, len, |len|) && forall j: nat | j < k :: CodeLengths.BestTooLong(f, j, |len|, 17)
  }

  lemma {:induction false} BitsPrefix(f: seq<int>, g: seq<int>, k: nat, l: seq<int>, m: seq<int>, n: nat)
    requires n <= |f| && n <= |g| && n <= |l| && n <= |m| && forall i | 0 <= i < n :: f[i] == g[i] && l[i] == m[i]
    ensures CodeLengths.BitsTaken(f, k, l, n) == CodeLengths.BitsTaken(g, k, m, n)
  {
    if n > 0 { BitsPrefix(f, g, k, l, m, n - 1); }
  }

  lemma BestPrefix(f: seq<int>, g: seq<int>, k: nat, l: seq<int>, m: seq<int>, n: nat)
    requires n <= |f| && n <= |g| && n <= |l| && n <= |m| && forall i | 0 <= i < n :: f[i] == g[i] && l[i] == m[i]
    requires CodeLengths.Best(f, k, l, n)
    ensures CodeLengths.Best(g, k, m, n)
  {
    hide CodeLengths.BitsTaken, CodeForest.Kraft;
    BitsPrefix(f, g, k, l, m, n);
    forall other: seq<int> | |other| == n && CodeForest.Kraft(other, n) <= 1.0
      ensures CodeLengths.BitsTaken(g, k, m, n) <= CodeLengths.BitsTaken(g, k, other, n)
    {
      BitsPrefix(f, g, k, other, other, n);
    }
  }

  lemma TooLongPrefix(f: seq<int>, g: seq<int>, k: nat, n: nat, maxLen: nat)
    requires n <= |f| && n <= |g| && forall i | 0 <= i < n :: f[i] == g[i]
    requires CodeLengths.BestTooLong(f, k, n, maxLen)
    ensures CodeLengths.BestTooLong(g, k, n, maxLen)
  {
    hide CodeLengths.Best, CodeForest.Kraft;
    var len: seq<int>, i :| |len| == n && CodeForest.Kraft(len, n) == 1.0 && CodeLengths.Best(f, k, len, n) && 0 <= i < n && len[i] > maxLen;
    BestPrefix(f, g, k, len, len, n);
  }

  lemma LeastBitsFrom(syms: seq<int>, sel: seq<int>, t: int, len: seq<int>, f: seq<int>, l: seq<int>, k: nat)
    requires |syms| <= G_SIZE * |sel| && |len| <= |f| && |len| <= |l|
    requires forall x | 0 <= x < |len| :: f[x] == Uses(syms, sel, t, x, |syms|) && l[x] == len[x]
    requires CodeLengths.Best(f, k, l, |len|) && forall j: nat | j < k :: CodeLengths.BestTooLong(f, j, |len|, 17)
    ensures LeastBits(syms, sel, t, len)
  {
    hide CodeLengths.Best, CodeLengths.BestTooLong;
    var g := UsesOf(syms, sel, t, |len|);
    BestPrefix(f, g, k, l, len, |len|);
    forall j: nat | j < k ensures CodeLengths.BestTooLong(g, j, |len|, 17) { TooLongPrefix(f, g, j, |len|, 17); }
  }

  /** Lengths and codes of one table. */
  method MakeTable(t: int, syms: seq<int>, sel: seq<int>, alphaSize: nat) returns (len: seq<int>, code: seq<int>)
    requires 2 <= alphaSize <= 258 && |syms| <= 900001 && forall k | 0 <= k < |syms| :: 0 <= syms[k] < alphaSize
    requires |sel| == (|syms| + G_SIZE - 1) / G_SIZE
    ensures |len| == |code| == alphaSize && forall i | 0 <= i < alphaSize :: 1 <= len[i] <= 17 && code[i] == CanonicalCode.Code(len, i)
    ensures PrefixLengths(len) && LeastBits(syms, sel, t, len)
  {
    hide CodeForest.Kraft, CodeLengths.FreqTotal, CanonicalCode.Code, CodeForest.G, CodeLengths.Best, CodeLengths.BestTooLong, LeastBits;
    var rfreq, l := new int[258], new int[258];
    CountSymbols(rfreq, t, syms, sel, alphaSize);
    CodeLengths.SeventeenBitsSuffice(alphaSize);
    ghost var k := CodeLengths.MakeCodeLengths(l, rfreq, alphaSize, 17);
    var minLen, maxLen := 32, 0;
    for i := 0 to alphaSize
      invariant forall x | 0 <= x < i :: minLen <= l[x] <= maxLen
      invariant 1 <= minLen && (i > 0 ==> minLen <= maxLen <= 17) && maxLen <= 17
    {
      if l[i] > maxLen { maxLen := l[i]; }
      if l[i] < minLen { minLen := l[i]; }
    }
    assert maxLen <= 17 && minLen >= 1;          // AssertH 3004 and 3005
    var c := new int[258];
    CanonicalCode.AssignCodes(c, l, minLen, maxLen, alphaSize);
    len, code := l[..alphaSize], c[..alphaSize];
    KraftPrefix(l[..], len, alphaSize);
    LeastBitsFrom(syms, sel, t, len, rfreq[..], l[..], k);
  }

  lemma {:induction false} KraftPrefix(l: seq<int>, m: seq<int>, k: nat)
    requires k <= |l| && k <= |m| && forall i | 0 <= i < k :: l[i] == m[i]
    ensures CodeForest.Kraft(l, k) == CodeForest.Kraft(m, k)
  {
    if k > 0 { KraftPrefix(l, m, k - 1); }
  }

  // ---- sendMTFValues ----

  /** How many symbols a block can have, and how they are numbered. */
  ghost predicate SymsOk(syms: seq<int>, alphaSize: nat) {
    1 <= |syms| <= 900001 && forall k | 0 <= k < |syms| :: 0 <= syms[k] < alphaSize
  }

  /** One selector for every group of 50, naming one of the tables in use. */
  ghost predicate SelectorsOk(sel: seq<int>, syms: seq<int>) {
    |sel| == (|syms| + G_SIZE - 1) / G_SIZE && forall k | 0 <= k < |sel| :: 0 <= sel[k] < NGroups(|syms|)
  }

  /** The tables that the selectors call for. */
  method MakeAllTables(syms: seq<int>, sel: seq<int>, alphaSize: nat) returns (lens: seq<seq<int>>, codes: seq<seq<int>>)
    requires 2 <= alphaSize <= 258 && SymsOk(syms, alphaSize) && SelectorsOk(sel, syms)
    ensures |lens| == NGroups(|syms|) && CodesOf(codes, lens) && LengthsOk(lens, alphaSize) && Codable(lens, sel, syms)
    ensures forall t | 0 <= t < |lens| :: forall i | 0 <= i < alphaSize :: lens[t][i] <= 17
    ensures forall t | 0 <= t < |lens| :: LeastBits(syms, sel, t, lens[t])
  {
    hide PrefixLengths, CanonicalCode.Code, LeastBits;
    lens, codes := [], [];
    for t := 0 to NGroups(|syms|)
      invariant |lens| == t && CodesOf(codes, lens) && LengthsOk(lens, alphaSize)
      invariant forall x | 0 <= x < t :: PrefixLengths(lens[x]) && LeastBits(syms, sel, x, lens[x])
      invariant forall x | 0 <= x < t :: forall i | 0 <= i < alphaSize :: lens[x][i] <= 17
    {
      var len, code := MakeTable(t, syms, sel, alphaSize);
      lens, codes := lens + [len], codes + [code];
    }
  }

  /** sendMTFValues: mapping table, selectors, coding tables and symbols, for any selectors. */
  method SendMTFValues(w: BW.Writer, syms: seq<int>, inUse: array<bool>, nInUse: nat, selector: seq<int>)
    returns (ghost lens: seq<seq<int>>, ghost moves: seq<int>)
    requires w.Valid() && inUse.Length == 256 && 1 <= nInUse <= 256 && SymsOk(syms, nInUse + 2) && SelectorsOk(selector, syms)
    modifies w
    ensures w.Valid() && LengthsOk(lens, nInUse + 2) && Codable(lens, selector, syms) && Moves(moves, selector, |lens|)
    ensures |lens| == NGroups(|syms|) && 1 <= |selector| <= MAX_SELECTORS
    ensures forall t | 0 <= t < |lens| :: forall i | 0 <= i < nInUse + 2 :: lens[t][i] <= 17
    ensures forall t | 0 <= t < |lens| :: LeastBits(syms, selector, t, lens[t])
    ensures w.Output() == old(w.Output()) + (MapBits(inUse[..]) + (Field(|lens|, 3) + (Field(|selector|, 15)
                          + (UnaryFrom(moves, 0) + TablesFrom(lens, nInUse + 2, 0))))) + CodedTo(lens, selector, syms, |syms|)
  {
    hide w.Valid, w.Output, Field, MapBits, UnaryFrom, TablesFrom, CodedTo, Codable, LengthsOk, CodesOf, Moves, LeastBits;
    var alphaSize := nInUse + 2;
    var nGroups := NGroups(|syms|);
    var l, codes := MakeAllTables(syms, selector, alphaSize);
    var nSelectors := |selector|;
    assert nSelectors < 32768 && nSelectors <= MAX_SELECTORS;          // AssertH 3003
    var m := MoveSelectors(selector, nGroups);
    lens, moves := l, m;
    MovesRange(m, selector, nGroups);
    ghost var o := w.Output();
    WriteMap(w, inUse);
    Powers();
    w.W(3, nGroups);
    w.W(15, nSelectors);
    WriteSelectors(w, m);
    WriteTables(w, l, alphaSize);
    WriteSymbols(w, syms, selector, l, codes);
    Five(o, MapBits(inUse[..]), Field(|lens|, 3), Field(|selector|, 15), UnaryFrom(moves, 0), TablesFrom(lens, nInUse + 2, 0));
  }

  lemma MovesRange(m: seq<int>, sel: seq<int>, n: nat)
    requires Moves(m, sel, n)
    ensures |m| == |sel| && forall k | 0 <= k < |m| :: 0 <= m[k]
  {}

  lemma Five(o: seq<bool>, a: seq<bool>, b: seq<bool>, c: seq<bool>, d: seq<bool>, e: seq<bool>)
    ensures ((((o + a) + b) + c) + d) + e == o + (a + (b + (c + (d + e))))
  {
    Assoc(((o + a) + b) + c, d, e);
    Assoc((o + a) + b, c, d + e);
    Assoc(o + a, b, c + (d + e));
    Assoc(o, a, b + (c + (d + e)));
  }
}

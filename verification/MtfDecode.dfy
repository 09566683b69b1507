/** What BZ2_decompress keeps while it reads the symbols of a block: the column so far, its
    counts and a run that is not finished. */
module MtfDecode {
  import opened Rotations
  import opened MoveToFront
  import opened ByteMaps
  import opened DecoderMachine
  import opened Counting

  ghost predicate IsRun(x: int) { x == RUNA || x == RUNB }

  /** The symbols before the run they end with. */
  ghost function Base(syms: seq<int>): (r: seq<int>)
    ensures |r| <= |syms| && r == syms[..|r|] && (|r| > 0 ==> !IsRun(r[|r| - 1]))
  {
    if |syms| > 0 && IsRun(syms[|syms| - 1]) then Base(syms[..|syms| - 1]) else syms
  }

  lemma BaseNext(syms: seq<int>, x: int)
    ensures Base(syms + [x]) == if IsRun(x) then Base(syms) else syms + [x]
  {
    assert (syms + [x])[..|syms|] == syms;
  }

  /** Only the first n places of the list are in play. */
  lemma {:induction false} InPlay(syms: seq<int>, n: nat)
    requires 1 <= n <= 256 && Readable(syms, n)
    ensures Readable(syms, 256)
    ensures var d := Meaning(Iota(256), syms);
            && d.weight >= 1 && (forall i | 0 <= i < n :: 0 <= d.list[i] < n)
            && (forall i | 0 <= i < |d.out| :: 0 <= d.out[i] < n) && (|syms| > 0 && !IsRun(syms[|syms| - 1]) ==> d.weight == 1)
  {
    if |syms| > 0 { InPlay(syms[..|syms| - 1], n); }
  }

  /** The run that syms end with is of es + 1 copies so far, and its next digit weighs N. */
  ghost predicate Pending(syms: seq<int>, es: int, N: int)
    requires Readable(syms, 256)
  {
    && es >= -1 && N >= 1 && Readable(Base(syms), 256)
    && var d := Meaning(Iota(256), Base(syms)); Meaning(Iota(256), syms) == Reading(d.list, N, d.out + Copies(d.list[0], es + 1))
  }

  lemma PendingNone(syms: seq<int>, n: nat)
    requires 1 <= n <= 256 && Readable(syms, n) && Base(syms) == syms
    ensures Readable(syms, 256) && Pending(syms, -1, 1)
  {
    InPlay(syms, n);
    var d := Meaning(Iota(256), syms);
    assert d.out + Copies(d.list[0], 0) == d.out;
  }

  /** One more run digit. */
  lemma PendingNext(syms: seq<int>, es: int, N: int, x: int)
    requires Readable(syms, 256) && Pending(syms, es, N) && IsRun(x)
    ensures Readable(syms + [x], 256) && Pending(syms + [x], if x == RUNA then es + N else es + 2 * N, 2 * N)
  {
    hide Meaning;
    var d, k := Meaning(Iota(256), Base(syms)), if x == RUNA then N else 2 * N;
    BaseNext(syms, x);
    MeaningNext(Iota(256), syms, x);
    assert (d.out + Copies(d.list[0], es + 1)) + Copies(d.list[0], k) == d.out + Copies(d.list[0], es + 1 + k);
  }

  // ---- The column ----

  lemma CharsCopies(u: seq<bool>, out: seq<int>, x: int, k: nat)
    requires |u| == 256 && 0 <= x < UsedBelow(u, 256)
    ensures Chars(u, out + Copies(x, k)) == Chars(u, out) + Copies(CharsOf(u, 256)[x], k)
  {
    hide CharsOf, UsedBelow;
  }

  /** The column with the finished run at its end. */
  lemma ColumnRun(u: seq<bool>, syms: seq<int>, es: int, N: int)
    requires |u| == 256 && 1 <= UsedBelow(u, 256) && Readable(syms, UsedBelow(u, 256)) && Readable(syms, 256) && Pending(syms, es, N)
    ensures var d := Meaning(Iota(256), syms);
            0 <= d.list[0] < UsedBelow(u, 256) && ColumnOf(u, syms) == ColumnOf(u, Base(syms)) + Copies(CharsOf(u, 256)[d.list[0]], es + 1)
  {
    hide Meaning, UsedBelow, CharsOf, Chars;
    var b := Base(syms);
    forall i | 0 <= i < |b| ensures 0 <= b[i] <= UsedBelow(u, 256) { assert b[i] == syms[i]; }
    InPlay(b, UsedBelow(u, 256));
    var d := Meaning(Iota(256), b);
    CharsCopies(u, d.out, d.list[0], es + 1);
  }

  /** The column with one more character. */
  lemma ColumnNext(u: seq<bool>, syms: seq<int>, x: int)
    requires |u| == 256 && 1 <= UsedBelow(u, 256) && Readable(syms, UsedBelow(u, 256)) && Readable(syms, 256) && 2 <= x <= UsedBelow(u, 256)
    ensures Readable(syms + [x], 256)
    ensures var d := Meaning(Iota(256), syms);
            && 0 <= d.list[x - 1] < UsedBelow(u, 256) && Meaning(Iota(256), syms + [x]).list == ToFront(d.list, x - 1)
            && ColumnOf(u, syms + [x]) == ColumnOf(u, syms) + [CharsOf(u, 256)[d.list[x - 1]]]
  {
    hide Meaning, UsedBelow, CharsOf, Chars;
    InPlay(syms, UsedBelow(u, 256));
    MeaningNext(Iota(256), syms, x);
    var d := Meaning(Iota(256), syms);
    CharsCopies(u, d.out, d.list[x - 1], 1);
    assert Copies(d.list[x - 1], 1) == [d.list[x - 1]] && Copies(CharsOf(u, 256)[d.list[x - 1]], 1) == [CharsOf(u, 256)[d.list[x - 1]]];
  }

  /** unzftab counts the characters of the column. */
  ghost predicate Counted(f: seq<int>, col: seq<int>)
  {
    |f| == 256 && forall c | 0 <= c < 256 :: f[c] == Count(col, c, |col|)
  }

  lemma {:induction false} CountRun(col: seq<int>, x: int, es: nat, c: int, k: nat)
    requires k <= |col| + es
    ensures Count(col + Copies(x, es), c, k)
         == if k <= |col| then Count(col, c, k)
            else Count(col, c, |col|) + if c == x then k - |col| else 0
  {
    if k > 0 { CountRun(col, x, es, c, k - 1); }
  }

  lemma CountedRun(f: seq<int>, col: seq<int>, x: int, es: nat)
    requires Counted(f, col) && 0 <= x < 256
    ensures Counted(f[x := f[x] + es], col + Copies(x, es))
  {
    var f' := f[x := f[x] + es];
    forall c | 0 <= c < 256 ensures f'[c] == Count(col + Copies(x, es), c, |col| + es) {
      CountRun(col, x, es, c, |col| + es);
    }
  }

  /** Appends es copies of uc, unless the block is full. */
  method PutRun(column: array<int>, nblock0: nat, es0: nat, uc: int, nblockMAX: nat) returns (ok: bool, nblock: nat)
    requires nblock0 <= nblockMAX <= column.Length
    modifies column
    ensures ok <==> nblock0 + es0 <= nblockMAX
    ensures ok ==> nblock == nblock0 + es0 && column[..nblock] == old(column[..nblock0]) + Copies(uc, es0)
  {
    var es := es0;
    nblock := nblock0;
    while es > 0
      invariant nblock + es == nblock0 + es0 && nblock0 <= nblock <= nblockMAX
      invariant forall i | nblock0 <= i < nblock :: column[i] == uc
      invariant forall i | 0 <= i < nblock0 :: column[i] == old(column[i])
    {
      if nblock >= nblockMAX { return false, nblock; }
      column[nblock] := uc;
      nblock, es := nblock + 1, es - 1;
    }
    ok := true;
  }

  method ZeroCounts(unzftab: array<int>)
    requires unzftab.Length == 256
    modifies unzftab
    ensures Counted(unzftab[..], [])
  {
    for i := 0 to 256
      invariant forall c | 0 <= c < i :: unzftab[c] == 0
    {
      unzftab[i] := 0;
    }
  }
}

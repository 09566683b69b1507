/** The initial run coding: what a block of run-coded bytes stands for. */
module RunLength {
  import opened Rotations
  import opened MoveToFront

  /** Reading a block byte by byte: what it stands for so far, and the last character with the
      number of its equal occurrences in a row, from 0 after a count up to 4 before one. */
  datatype Run = Run(out: seq<int>, ch: int, cnt: nat)

  /** After four equal bytes a byte says how many more there are. */
  function Step(r: Run, x: int): Run
    requires x >= 0
  {
    if r.cnt == 4 then Run(r.out + Copies(r.ch, x), r.ch, 0)
    else if r.cnt > 0 && x == r.ch then Run(r.out + [x], x, r.cnt + 1)
    else Run(r.out + [x], x, 1)
  }

  function Expand(b: seq<int>): (r: Run)
    requires IsBytes(b)
    ensures r.cnt <= 4
  {
    if |b| == 0 then Run([], 0, 0) else Step(Expand(b[..|b| - 1]), b[|b| - 1])
  }

  lemma ExpandNext(b: seq<int>, x: int)
    requires IsBytes(b) && 0 <= x < 256
    ensures IsBytes(b + [x]) && Expand(b + [x]) == Step(Expand(b), x)
  {
    assert (b + [x])[..|b + [x]| - 1] == b;
  }

  /** The bytes that code a run of n equal characters. */
  function Coded(ch: int, n: nat): (r: seq<int>)
    requires 0 <= ch < 256 && 1 <= n <= 255
    ensures IsBytes(r) && 1 <= |r| <= 5
  {
    if n < 4 then Copies(ch, n) else Copies(ch, 4) + [n - 4]
  }

  /** Up to four equal bytes open a run. */
  lemma {:induction false} FewCopies(b: seq<int>, ch: int, m: nat)
    requires IsBytes(b) && 0 <= ch < 256 && 1 <= m <= 4
    requires Expand(b).cnt < 4 && (Expand(b).cnt == 0 || Expand(b).ch != ch)
    ensures IsBytes(b + Copies(ch, m)) && Expand(b + Copies(ch, m)) == Run(Expand(b).out + Copies(ch, m), ch, m)
  {
    hide Expand;
    if m > 1 { FewCopies(b, ch, m - 1); }
    var b', o := b + Copies(ch, m - 1), Expand(b).out;
    assert m == 1 ==> b' == b && o + [ch] == o + Copies(ch, 1);
    ExpandNext(b', ch);
    assert b + Copies(ch, m) == b' + [ch];
    assert o + Copies(ch, m) == (o + Copies(ch, m - 1)) + [ch];
  }

  /** A coded run stands for the run, unless the block ends in the same character without a count. */
  lemma CodedRun(b: seq<int>, ch: int, n: nat)
    requires IsBytes(b) && 0 <= ch < 256 && 1 <= n <= 255
    requires Expand(b).cnt < 4 && (Expand(b).cnt == 0 || Expand(b).ch != ch)
    ensures IsBytes(b + Coded(ch, n))
    ensures Expand(b + Coded(ch, n)) == Run(Expand(b).out + Copies(ch, n), ch, if n < 4 then n else 0)
  {
    hide Expand;
    FewCopies(b, ch, if n < 4 then n else 4);
    if n >= 4 {
      ExpandNext(b + Copies(ch, 4), n - 4);
      assert b + (Copies(ch, 4) + [n - 4]) == (b + Copies(ch, 4)) + [n - 4];
      assert Expand(b).out + Copies(ch, n) == (Expand(b).out + Copies(ch, 4)) + Copies(ch, n - 4);
    }
  }
}

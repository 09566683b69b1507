/** What a sequence of move-to-front symbols with run digits means. */
module MoveToFront {
  const RUNA := 0
  const RUNB := 1

  /** Entry j of the list comes to the front. */
  function ToFront(l: seq<int>, j: nat): (r: seq<int>)
    requires j < |l|
    ensures |r| == |l| && r[0] == l[j]
    ensures forall i | 1 <= i <= j :: r[i] == l[i - 1]
    ensures forall i | j < i < |l| :: r[i] == l[i]
  {
    [l[j]] + l[..j] + l[j + 1..]
  }

  /** v is among the first n entries of l. */
  ghost predicate Has(l: seq<int>, n: nat, v: int) {
    exists i :: 0 <= i < n && i < |l| && l[i] == v
  }

  function Copies(x: int, n: nat): (r: seq<int>)
    ensures |r| == n && forall i | 0 <= i < n :: r[i] == x
  {
    seq(n, i => x)
  }

  /** A reading of symbols: the list of characters as it is now, the weight of the next run
      digit, and what was written so far. */
  datatype Reading = Reading(list: seq<int>, weight: nat, out: seq<int>)

  /** A run digit stands for weight or twice the weight copies of the front character, and doubles
      the weight; any other symbol names a place in the list, from 2 for the second. */
  function Read(d: Reading, sym: int): Reading
    requires |d.list| > 0 && 0 <= sym <= |d.list|
  {
    if sym == RUNA then Reading(d.list, 2 * d.weight, d.out + Copies(d.list[0], d.weight))
    else if sym == RUNB then Reading(d.list, 2 * d.weight, d.out + Copies(d.list[0], 2 * d.weight))
    else Reading(ToFront(d.list, sym - 1), 1, d.out + [d.list[sym - 1]])
  }

  ghost predicate Readable(syms: seq<int>, n: nat) {
    forall i | 0 <= i < |syms| :: 0 <= syms[i] <= n
  }

  /** What the symbols mean when the list starts as l. */
  function Meaning(l: seq<int>, syms: seq<int>): (d: Reading)
    requires |l| > 0 && Readable(syms, |l|)
    ensures |d.list| == |l|
  {
    if |syms| == 0 then Reading(l, 1, [])
    else Read(Meaning(l, syms[..|syms| - 1]), syms[|syms| - 1])
  }

  lemma MeaningNext(l: seq<int>, syms: seq<int>, sym: int)
    requires |l| > 0 && Readable(syms, |l|) && 0 <= sym <= |l|
    ensures Readable(syms + [sym], |l|)
    ensures Meaning(l, syms + [sym]) == Read(Meaning(l, syms), sym)
  {
    assert (syms + [sym])[..|syms + [sym]| - 1] == syms;
  }

  /** Symbols of at most limit characters out of n, ended by EOB. */
  ghost predicate Ended(syms: seq<int>, n: nat, limit: nat) {
    var m := |syms| - 1;
    && m >= 0 && syms[m] == n + 1 && n <= 256 && Readable(syms[..m], n)
    && Readable(syms[..m], 256) && |Meaning(Iota(256), syms[..m]).out| <= limit <= 900000
  }

  /** The characters 0 .. n - 1 in order. */
  function Iota(n: nat): (r: seq<int>)
    ensures |r| == n && forall i | 0 <= i < n :: r[i] == i
  {
    seq(n, i => i)
  }
}

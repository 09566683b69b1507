/** The characters that occur in a block, numbered in order: makeMaps_e and makeMaps_d. */
module ByteMaps {

  /** How many of the characters below c are in use. */
  function UsedBelow(inUse: seq<bool>, c: nat): (r: nat)
    requires c <= |inUse|
    ensures r <= c
  {
    if c == 0 then 0 else UsedBelow(inUse, c - 1) + (if inUse[c - 1] then 1 else 0)
  }

  /** The size of the alphabet of a block: its characters, RUNA and RUNB for the first, and EOB. */
  function AlphaSize(u: seq<bool>): nat
    requires |u| == 256
  {
    UsedBelow(u, 256) + 2
  }

  lemma {:induction false} UsedGrows(inUse: seq<bool>, c: nat, d: nat)
    requires c <= d <= |inUse|
    ensures UsedBelow(inUse, c) <= UsedBelow(inUse, d)
    ensures c < d && inUse[c] ==> UsedBelow(inUse, c) < UsedBelow(inUse, d)
    decreases d
  {
    if c < d { UsedGrows(inUse, c, d - 1); }
  }

  /** makeMaps_e: every character in use gets its number. */
  method MakeMapsE(inUse: array<bool>, unseqToSeq: array<int>) returns (nInUse: nat)
    requires inUse.Length == 256 == unseqToSeq.Length
    modifies unseqToSeq
    ensures nInUse == UsedBelow(inUse[..], 256)
    ensures forall c | 0 <= c < 256 && inUse[c] :: unseqToSeq[c] == UsedBelow(inUse[..], c) < nInUse
  {
    nInUse := 0;
    for i := 0 to 256
      invariant nInUse == UsedBelow(inUse[..], i)
      invariant forall c | 0 <= c < i && inUse[c] :: unseqToSeq[c] == UsedBelow(inUse[..], c) < nInUse
    {
      if inUse[i] {
        unseqToSeq[i] := nInUse;
        nInUse := nInUse + 1;
      }
    }
  }

  /** The characters below c that are in use, in order. */
  function CharsOf(u: seq<bool>, c: nat): (t: seq<int>)
    requires c <= |u|
    ensures |t| == UsedBelow(u, c) && forall k | 0 <= k < |t| :: 0 <= t[k] < c
  {
    if c == 0 then [] else CharsOf(u, c - 1) + if u[c - 1] then [c - 1] else []
  }

  /** makeMaps_d: lists the characters in use. */
  method MakeMapsD(inUse: array<bool>, seqToUnseq: array<int>) returns (nInUse: nat)
    requires inUse.Length == 256 == seqToUnseq.Length
    modifies seqToUnseq
    ensures nInUse == UsedBelow(inUse[..], 256) && seqToUnseq[..nInUse] == CharsOf(inUse[..], 256)
  {
    hide UsedBelow, CharsOf;
    ghost var u := inUse[..];
    nInUse := 0;
    UsedNone(u);
    for i := 0 to 256
      invariant nInUse == UsedBelow(u, i) && seqToUnseq[..nInUse] == CharsOf(u, i)
    {
      UsedNext(u, i);
      if inUse[i] {
        seqToUnseq[nInUse] := i;
        nInUse := nInUse + 1;
      }
    }
  }

  lemma UsedNone(u: seq<bool>)
    ensures UsedBelow(u, 0) == 0 && CharsOf(u, 0) == []
  {}

  lemma UsedNext(u: seq<bool>, i: nat)
    requires i < |u|
    ensures UsedBelow(u, i + 1) == UsedBelow(u, i) + if u[i] then 1 else 0
    ensures CharsOf(u, i + 1) == if u[i] then CharsOf(u, i) + [i] else CharsOf(u, i)
  {}

  /** The decoder's list undoes the encoder's numbering. */
  lemma {:induction false} CharAt(u: seq<bool>, c: nat, k: nat)
    requires c < k <= |u| && u[c]
    ensures UsedBelow(u, c) < UsedBelow(u, k) && CharsOf(u, k)[UsedBelow(u, c)] == c
    decreases k
  {
    if c < k - 1 { CharAt(u, c, k - 1); }
  }
}

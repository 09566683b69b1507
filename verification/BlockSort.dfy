/** BZ2_blockSort: small blocks go to the fallback sort, large ones to the main sort, and to the
    fallback sort if the main sort runs out of budget. */
module BlockSort {
  import opened Rotations
  import opened BurrowsWheeler
  import opened Bitmap
  import opened MainCompare
  import FallbackSort
  import MainSort

  /** The block as bytes, room for the overshoot included. */
  method BytesOf(arr2: array<int>, n: nat, ghost s: seq<int>) returns (block: array<int>)
    requires |s| == n && FallbackSort.Spells(arr2[..], s)
    ensures fresh(block) && block.Length == n + N_OVERSHOOT && forall i | 0 <= i < n :: block[i] == s[i]
  {
    block := new int[n + N_OVERSHOOT];
    for i := 0 to n
      invariant forall x | 0 <= x < i :: block[x] == s[x]
    {
      FallbackSort.SpelledAt(arr2[..], s, i);
      block[i] := FallbackSort.ByteOf(arr2[i / 4], i % 4);
    }
  }

  /** Whichever sort is used, arr1 holds all rotations in cyclic order, the block is still in
      arr2, and origPtr is the row of rotation 0 (assertion 1003). */
  method Sort(arr1: array<int>, arr2: array<int>, ftab: array<int>, n: nat, workFactor: int, ghost s: seq<int>)
    returns (origPtr: int)
    requires arr1 != arr2 && arr1 != ftab && arr2 != ftab && ftab.Length == 65537
    requires FallbackSort.IsBlock(s) && |s| == n <= 900000 && n <= arr1.Length && n <= arr2.Length
    requires FallbackSort.Spells(arr2[..], s) && Words(ftab[..])
    modifies arr1, arr2, ftab
    ensures SortedRotations(s, arr1[..n]) && FallbackSort.Spells(arr2[..], s)
    ensures 0 <= origPtr < n && arr1[origPtr] == 0
  {
    hide SortedRotations, FallbackSort.Spells, FallbackSort.IsBlock;
    if n < 10000 {
      FallbackSort.FallbackSort(arr1, arr2, ftab, n, s);
    } else {
      var block := BytesOf(arr2, n, s);
      var quadrant := new int[n + N_OVERSHOOT];
      var wfact := if workFactor < 1 then 1 else if workFactor > 100 then 100 else workFactor;
      var budgetInit := n * ((wfact - 1) / 3);
      var budget := MainSort.MainSort(arr1, block, quadrant, ftab, n, budgetInit, s) by { IsBytesOf(s); }
      if budget < 0 {
        TableWords(s, ftab[..]);
        FallbackSort.FallbackSort(arr1, arr2, ftab, n, s);
      }
    }
    ghost var p := arr1[..n];
    RowOfZero(s, p);
    var i := 0;
    while arr1[i] != 0
      invariant 0 <= i < n && exists a :: i <= a < n && p[a] == 0
      decreases n - i
    {
      i := i + 1;
    }
    origPtr := i;
  }

  lemma IsBytesOf(s: seq<int>)
    requires FallbackSort.IsBlock(s)
    ensures IsBytes(s)
  {}

  lemma TableWords(s: seq<int>, ft: seq<int>)
    requires MainSort.TableOk(s, ft)
    ensures Words(ft)
  {}

  lemma RowOfZero(s: seq<int>, p: seq<int>)
    requires FallbackSort.IsBlock(s) && SortedRotations(s, p)
    ensures exists a :: 0 <= a < |s| && |p| == |s| && p[a] == 0
  {
    PermOnto(p, |s|, 0);
  }
}

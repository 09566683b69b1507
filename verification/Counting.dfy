/** How often values occur in a sequence, and where a stable sort moves its entries. */
module Counting {
  /** How often c occurs among the first k entries of l. */
  function Count(l: seq<int>, c: int, k: nat): (r: nat)
    requires k <= |l|
  {
    if k == 0 then 0 else Count(l, c, k - 1) + (if l[k - 1] == c then 1 else 0)
  }

  /** How many of the first k entries of l are smaller than c. */
  function Less(l: seq<int>, c: int, k: nat): (r: nat)
    requires k <= |l|
  {
    if k == 0 then 0 else Less(l, c, k - 1) + (if l[k - 1] < c then 1 else 0)
  }

  /** The row that entry i moves to when the sequence is sorted stably. */
  function SortedRow(l: seq<int>, i: nat): (r: nat)
    requires i < |l|
  {
    Less(l, l[i], |l|) + Count(l, l[i], i)
  }

  lemma {:induction false} CountMonotone(l: seq<int>, c: int, j: nat, k: nat)
    requires j <= k <= |l|
    ensures Count(l, c, j) <= Count(l, c, k)
    ensures j < k && l[j] == c ==> Count(l, c, j) < Count(l, c, k)
    decreases k
  {
    if j < k { CountMonotone(l, c, j, k - 1); }
  }

  lemma {:induction false} LessGap(l: seq<int>, c: int, d: int, k: nat)
    requires c < d && k <= |l|
    ensures Less(l, c, k) + Count(l, c, k) <= Less(l, d, k)
    ensures Less(l, c, k) + Count(l, c, k) <= k
  {
    if k > 0 { LessGap(l, c, d, k - 1); }
  }

  lemma {:induction false} LessNext(s: seq<int>, c: int, k: nat)
    requires k <= |s|
    ensures Less(s, c + 1, k) == Less(s, c, k) + Count(s, c, k) <= k
  {
    if k > 0 { LessNext(s, c, k - 1); }
  }

  lemma {:induction false} LessMonotone(s: seq<int>, c: int, d: int, k: nat)
    requires c <= d && k <= |s|
    ensures Less(s, c, k) <= Less(s, d, k) <= k
  {
    if k > 0 { LessMonotone(s, c, d, k - 1); }
  }

  lemma {:induction false} LessEnds(l: seq<int>, lo: int, hi: int, k: nat)
    requires k <= |l| && forall i | 0 <= i < k :: lo <= l[i] < hi
    ensures Less(l, lo, k) == 0 && Less(l, hi, k) == k
  {
    if k > 0 { LessEnds(l, lo, hi, k - 1); }
  }

  lemma SortedRowOrder(l: seq<int>, i: nat, j: nat)
    requires i < |l| && j < |l|
    requires l[i] < l[j] || (l[i] == l[j] && i < j)
    ensures SortedRow(l, i) < SortedRow(l, j)
  {
    CountMonotone(l, l[i], i, if l[i] == l[j] then j else |l|);
    if l[i] < l[j] { LessGap(l, l[i], l[j], |l|); }
  }

  lemma SortedRowInRange(l: seq<int>, i: nat)
    requires i < |l|
    ensures SortedRow(l, i) < |l|
  {
    CountMonotone(l, l[i], i, |l|);
    LessGap(l, l[i], l[i] + 1, |l|);
  }
}

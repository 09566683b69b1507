/** The heap of tree nodes that Huffman code construction keeps, smallest weight at heap[1], with
    a sentinel of weight 0 at heap[0]. */
module HuffmanHeap {
  import opened Rearrange

  /** Entries 1 .. n of h are node numbers. */
  ghost predicate Nodes(h: seq<int>, w: seq<int>, n: int)
  {
    0 <= n < |h| && |w| > 0 && h[0] == 0 && forall i | 0 <= i <= n :: 0 <= h[i] < |w|
  }

  /** No entry weighs less than its parent. */
  ghost predicate IsHeap(h: seq<int>, w: seq<int>, n: int)
    requires Nodes(h, w, n)
  {
    forall i | 2 <= i <= n :: w[h[i / 2]] <= w[h[i]]
  }

  /** A heap but for the entry at z, which may be lighter than its parent. */
  ghost predicate Rising(h: seq<int>, w: seq<int>, n: int, z: int)
    requires Nodes(h, w, n)
  {
    && 1 <= z <= n
    && (forall i | 2 <= i <= n && i != z :: w[h[i / 2]] <= w[h[i]])
    && (forall i | 2 <= i <= n && i / 2 == z && z >= 2 :: w[h[z / 2]] <= w[h[i]])
  }

  /** A heap but for the entry at z, which may be heavier than its children. */
  ghost predicate Sinking(h: seq<int>, w: seq<int>, n: int, z: int)
    requires Nodes(h, w, n)
  {
    && 1 <= z
    && (forall i | 2 <= i <= n && i / 2 != z :: w[h[i / 2]] <= w[h[i]])
    && (forall i | 2 <= i <= n && i / 2 == z && z >= 2 :: w[h[z / 2]] <= w[h[i]])
  }

  lemma NodesSwap(h: seq<int>, w: seq<int>, n: int, i: int, j: int)
    requires Nodes(h, w, n) && 1 <= i <= n && 1 <= j <= n
    ensures Nodes(Swapped(h, i, j), w, n)
  {}

  lemma RiseStep(h: seq<int>, w: seq<int>, n: int, z: int)
    requires Nodes(h, w, n) && Rising(h, w, n, z) && z >= 2 && w[h[z]] < w[h[z / 2]]
    ensures var g := Swapped(h, z / 2, z); Nodes(g, w, n) && Rising(g, w, n, z / 2)
  {
    hide Swapped;
    NodesSwap(h, w, n, z / 2, z);
    var g := Swapped(h, z / 2, z);
    forall i | 2 <= i <= n && i != z / 2 ensures w[g[i / 2]] <= w[g[i]] {
      assert i != z ==> w[h[i / 2]] <= w[h[i]];
      if i / 2 == z { assert w[h[z / 2]] <= w[h[i]]; }
    }
    forall i | 2 <= i <= n && i / 2 == z / 2 && z / 2 >= 2 ensures w[g[z / 2 / 2]] <= w[g[i]] {
      assert w[h[z / 2 / 2]] <= w[h[z / 2]];
      assert i != z ==> w[h[i / 2]] <= w[h[i]];
    }
  }

  /** UPHEAP */
  method UpHeap(heap: array<int>, weight: array<int>, nHeap: int, z: int)
    requires heap != weight && Nodes(heap[..], weight[..], nHeap) && weight[0] == 0
    requires forall i | 1 <= i <= nHeap :: weight[heap[i]] >= 0
    requires Rising(heap[..], weight[..], nHeap, z)
    modifies heap
    ensures Nodes(heap[..], weight[..], nHeap) && IsHeap(heap[..], weight[..], nHeap)
    ensures Rearranged(old(heap[..]), heap[..], 1, nHeap + 1)
  {
    hide Rearranged, Swapped, Rising;
    ghost var h0, w, full := heap[..], weight[..], heap[..];
    Reflexive(h0, 1, nHeap + 1);
    RiseRange(full, w, nHeap, z);
    var tmp := heap[z];
    var zz := z;
    while weight[tmp] < weight[heap[zz / 2]]
      invariant 1 <= zz <= nHeap && |full| == heap.Length && full[zz] == tmp
      invariant forall x | 0 <= x < |full| && x != zz :: full[x] == heap[x]
      invariant Rearranged(h0, full, 1, nHeap + 1)
      invariant Nodes(full, w, nHeap) && Rising(full, w, nHeap, zz) && weight[tmp] >= 0
      decreases zz
    {
      RiseStep(full, w, nHeap, zz);
      Swap(h0, full, zz / 2, zz, 1, nHeap + 1);
      full := Swapped(full, zz / 2, zz);
      heap[zz] := heap[zz / 2];
      zz := zz / 2;
    }
    RiseDone(full, w, nHeap, zz);
    heap[zz] := tmp;
    assert heap[..] == full;
  }

  lemma RiseRange(h: seq<int>, w: seq<int>, n: int, z: int)
    requires Nodes(h, w, n) && Rising(h, w, n, z)
    ensures 1 <= z <= n
  {}

  lemma RiseDone(h: seq<int>, w: seq<int>, n: int, z: int)
    requires Nodes(h, w, n) && Rising(h, w, n, z) && (z >= 2 ==> w[h[z / 2]] <= w[h[z]])
    ensures IsHeap(h, w, n)
  {}

  /** The lighter child of z. */
  function LighterChild(h: seq<int>, w: seq<int>, n: int, z: int): int
    requires Nodes(h, w, n) && 1 <= z && 2 * z <= n
  {
    if 2 * z < n && w[h[2 * z + 1]] < w[h[2 * z]] then 2 * z + 1 else 2 * z
  }

  lemma SinkStep(h: seq<int>, w: seq<int>, n: int, z: int)
    requires Nodes(h, w, n) && Sinking(h, w, n, z) && 2 * z <= n
    requires w[h[LighterChild(h, w, n, z)]] <= w[h[z]]
    ensures var y := LighterChild(h, w, n, z);
            var g := Swapped(h, z, y); Nodes(g, w, n) && Sinking(g, w, n, y)
  {
    hide Swapped;
    var y := LighterChild(h, w, n, z);
    NodesSwap(h, w, n, z, y);
    var g := Swapped(h, z, y);
    forall i | 2 <= i <= n && i / 2 != y ensures w[g[i / 2]] <= w[g[i]] {
      if i / 2 != z { assert w[h[i / 2]] <= w[h[i]]; }
      if i == z { assert w[h[z / 2]] <= w[h[y]]; }
    }
    forall i | 2 <= i <= n && i / 2 == y ensures w[g[y / 2]] <= w[g[i]] { assert w[h[i / 2]] <= w[h[i]]; }
  }

  lemma SinkDone(h: seq<int>, w: seq<int>, n: int, z: int)
    requires Nodes(h, w, n) && Sinking(h, w, n, z)
    requires 2 * z <= n ==> w[h[z]] <= w[h[LighterChild(h, w, n, z)]]
    ensures IsHeap(h, w, n)
  {
    forall i | 2 <= i <= n ensures w[h[i / 2]] <= w[h[i]] {
      if i / 2 == z { assert i == 2 * z || i == 2 * z + 1; }
    }
  }

  /** While x sinks, the array h has a hole at z; with x put there it is the arrangement g. */
  ghost predicate Hole(h0: seq<int>, h: seq<int>, g: seq<int>, w: seq<int>, n: int, z: int, x: int) {
    && 1 <= z < |h| && (z <= n || z == 1) && |g| == |h| && g[z] == x && (forall i | 0 <= i < |h| && i != z :: g[i] == h[i])
    && Rearranged(h0, g, 1, n + 1) && Nodes(g, w, n) && Sinking(g, w, n, z)
  }

  /** The lighter child is seen without the entry at z. */
  lemma HoleChild(h0: seq<int>, h: seq<int>, g: seq<int>, w: seq<int>, n: int, z: int, x: int)
    requires Hole(h0, h, g, w, n, z, x) && 2 * z <= n
    ensures 1 <= z && n < |h| && 0 <= h[2 * z] < |w| && (2 * z < n ==> 0 <= h[2 * z + 1] < |w|) && 0 <= x < |w| && Nodes(g, w, n)
    ensures LighterChild(g, w, n, z) == if 2 * z < n && w[h[2 * z + 1]] < w[h[2 * z]] then 2 * z + 1 else 2 * z
  {
    hide Rearranged, Sinking;
  }

  /** The lighter child moves up. */
  lemma HoleMoves(h0: seq<int>, h: seq<int>, g: seq<int>, w: seq<int>, n: int, z: int, x: int, y: int)
    requires Hole(h0, h, g, w, n, z, x) && 1 <= z && 2 * z <= n && Nodes(g, w, n) && y == LighterChild(g, w, n, z)
    requires y < |h| && 0 <= h[y] < |w| && 0 <= x < |w| && w[h[y]] <= w[x]
    ensures z < y <= n && Hole(h0, h[z := h[y]], Swapped(g, z, y), w, n, y, x)
  {
    hide Rearranged, Swapped, Sinking;
    SinkStep(g, w, n, z);
    Swap(h0, g, z, y, 1, n + 1);
  }

  /** Neither child of z is lighter than x. */
  ghost predicate Rests(h: seq<int>, g: seq<int>, w: seq<int>, n: int, z: int, x: int) {
    Nodes(g, w, n) && 1 <= z && (2 * z <= n ==>
      var y := LighterChild(g, w, n, z); y < |h| && 0 <= h[y] < |w| && 0 <= x < |w| && w[x] <= w[h[y]])
  }

  /** x stays where neither child is lighter. */
  lemma HoleFilled(h0: seq<int>, h: seq<int>, g: seq<int>, w: seq<int>, n: int, z: int, x: int)
    requires Hole(h0, h, g, w, n, z, x)
    requires Rests(h, g, w, n, z, x)
    ensures 1 <= z < |h| && h[z := x] == g && Nodes(g, w, n) && IsHeap(g, w, n) && Rearranged(h0, g, 1, n + 1)
  {
    hide Rearranged, Sinking;
    SinkDone(g, w, n, z);
  }

  /** One turn of DOWNHEAP: the lighter child moves up, or x rests. */
  method SinkOnce(heap: array<int>, weight: array<int>, nHeap: int, zz: int, tmp: int, ghost h0: seq<int>, ghost g: seq<int>)
    returns (stop: bool, yy: int, ghost g': seq<int>)
    requires heap != weight && Hole(h0, heap[..], g, weight[..], nHeap, zz, tmp)
    modifies heap
    ensures stop ==> yy == zz && g' == g && heap[..] == old(heap[..]) && Rests(heap[..], g, weight[..], nHeap, zz, tmp)
    ensures !stop ==> zz < yy <= nHeap && Hole(h0, heap[..], g', weight[..], nHeap, yy, tmp)
  {
    HoleShape(h0, heap[..], g, weight[..], nHeap, zz, tmp);
    hide Hole, LighterChild, Swapped, Nodes;
    yy := 2 * zz;
    if yy > nHeap { return true, zz, g; }
    HoleChild(h0, heap[..], g, weight[..], nHeap, zz, tmp);
    if yy < nHeap && weight[heap[yy + 1]] < weight[heap[yy]] { yy := yy + 1; }
    if weight[tmp] < weight[heap[yy]] { return true, zz, g; }
    HoleMoves(h0, heap[..], g, weight[..], nHeap, zz, tmp, yy);
    ghost var h := heap[..];
    heap[zz] := heap[yy];
    assert heap[..] == h[zz := h[yy]];
    stop, g' := false, Swapped(g, zz, yy);
  }

  lemma HoleShape(h0: seq<int>, h: seq<int>, g: seq<int>, w: seq<int>, n: int, z: int, x: int)
    requires Hole(h0, h, g, w, n, z, x)
    ensures 1 <= z < |h| && Nodes(g, w, n)
  {}

  /** DOWNHEAP */
  method DownHeap(heap: array<int>, weight: array<int>, nHeap: int)
    requires heap != weight && Nodes(heap[..], weight[..], nHeap) && heap.Length >= 2
    requires Sinking(heap[..], weight[..], nHeap, 1)
    modifies heap
    ensures Nodes(heap[..], weight[..], nHeap) && IsHeap(heap[..], weight[..], nHeap)
    ensures Rearranged(old(heap[..]), heap[..], 1, nHeap + 1)
  {
    ghost var h0, full := heap[..], heap[..];
    Reflexive(h0, 1, nHeap + 1);
    HoleStarts(h0, weight[..], nHeap);
    hide *;
    var zz := 1;
    var tmp := heap[zz];
    while true
      invariant Hole(h0, heap[..], full, weight[..], nHeap, zz, tmp)
      decreases nHeap - zz
    {
      var stop;
      stop, zz, full := SinkOnce(heap, weight, nHeap, zz, tmp, h0, full);
      if stop { break; }
    }
    HoleFilled(h0, heap[..], full, weight[..], nHeap, zz, tmp);
    ghost var h := heap[..];
    heap[zz] := tmp;
    assert heap[..] == h[zz := tmp];
  }

  lemma HoleStarts(h: seq<int>, w: seq<int>, n: int)
    requires |h| >= 2 && Nodes(h, w, n) && Sinking(h, w, n, 1) && Rearranged(h, h, 1, n + 1)
    ensures Hole(h, h, h, w, n, 1, h[1])
  {}

  /** The first entry of a heap is a lightest one. */
  lemma {:induction false} FirstIsLightest(h: seq<int>, w: seq<int>, n: int, i: int)
    requires Nodes(h, w, n) && IsHeap(h, w, n) && 1 <= i <= n
    ensures w[h[1]] <= w[h[i]]
    decreases i
  {
    if i > 1 { FirstIsLightest(h, w, n, i / 2); }
  }

  ghost function Contents(h: seq<int>, n: int): multiset<int>
    requires 0 <= n < |h|
  {
    multiset(h[1..n + 1])
  }

  lemma Present(h: seq<int>, n: int, x: int) returns (i: int)
    requires 0 <= n < |h| && x in Contents(h, n)
    ensures 1 <= i <= n && h[i] == x
  {
    assert x in h[1..n + 1];
    var k :| 0 <= k < n && h[1..n + 1][k] == x;
    i := k + 1;
  }

  lemma RearrangedContents(h: seq<int>, g: seq<int>, n: int)
    requires 0 <= n < |h| && Rearranged(h, g, 1, n + 1)
    ensures |g| == |h| && Contents(g, n) == Contents(h, n) && g[0] == h[0]
  {
    assert g[..1][0] == h[..1][0];
  }

  /** Takes a lightest node off the heap. */
  method PopLightest(heap: array<int>, weight: array<int>, nHeap: int) returns (n1: int)
    requires heap != weight && 1 <= nHeap && Nodes(heap[..], weight[..], nHeap) && IsHeap(heap[..], weight[..], nHeap)
    modifies heap
    ensures Nodes(heap[..], weight[..], nHeap - 1) && IsHeap(heap[..], weight[..], nHeap - 1)
    ensures n1 in old(Contents(heap[..], nHeap))
    ensures Contents(heap[..], nHeap - 1) == old(Contents(heap[..], nHeap)) - multiset{n1}
    ensures forall x | x in old(Contents(heap[..], nHeap)) :: 0 <= x < weight.Length && 0 <= n1 < weight.Length && weight[n1] <= weight[x]
  {
    hide Rearranged, IsHeap, Sinking, Contents;
    ghost var h, w := heap[..], weight[..];
    n1 := heap[1];
    LightestFirst(h, w, nHeap);
    heap[1] := heap[nHeap];
    ghost var g := heap[..];
    PopContents(h, nHeap);
    PopSinks(h, w, nHeap);
    assert g == h[1 := h[nHeap]];
    DownHeap(heap, weight, nHeap - 1);
    RearrangedContents(g, heap[..], nHeap - 1);
  }

  lemma LightestFirst(h: seq<int>, w: seq<int>, n: int)
    requires 1 <= n && Nodes(h, w, n) && IsHeap(h, w, n)
    ensures forall x | x in Contents(h, n) :: 0 <= x < |w| && w[h[1]] <= w[x]
  {
    forall x | x in Contents(h, n) ensures 0 <= x < |w| && w[h[1]] <= w[x] {
      var i := Present(h, n, x);
      FirstIsLightest(h, w, n, i);
    }
  }

  lemma PopSinks(h: seq<int>, w: seq<int>, n: int)
    requires 1 <= n && Nodes(h, w, n) && IsHeap(h, w, n)
    ensures var g := h[1 := h[n]]; Nodes(g, w, n - 1) && Sinking(g, w, n - 1, 1)
  {}

  lemma PopContents(h: seq<int>, n: int)
    requires 1 <= n < |h|
    ensures h[1] in Contents(h, n)
    ensures Contents(h[1 := h[n]], n - 1) == Contents(h, n) - multiset{h[1]}
  {
    assert h[1..n + 1] == [h[1]] + h[2..n + 1];
    if n > 1 {
      assert h[2..n + 1] == h[2..n] + [h[n]];
      assert h[1 := h[n]][1..n] == [h[n]] + h[2..n];
    }
  }

  /** A heap with one more entry at its end. */
  lemma Rises(h: seq<int>, w: seq<int>, n: int, z: int)
    requires Nodes(h, w, n) && IsHeap(h, w, n) && n + 1 < |h| && 0 <= z < |w|
    ensures Nodes(h[n + 1 := z], w, n + 1) && Rising(h[n + 1 := z], w, n + 1, n + 1)
  {}

  /** Adds a node to the heap. */
  method Push(heap: array<int>, weight: array<int>, nHeap: int, z: int)
    requires heap != weight && 0 <= nHeap && nHeap + 1 < heap.Length && 0 <= z < weight.Length
    requires Nodes(heap[..], weight[..], nHeap) && IsHeap(heap[..], weight[..], nHeap) && weight[0] == 0
    requires weight[z] >= 0 && forall x | x in Contents(heap[..], nHeap) :: 0 <= x < weight.Length && weight[x] >= 0
    modifies heap
    ensures Nodes(heap[..], weight[..], nHeap + 1) && IsHeap(heap[..], weight[..], nHeap + 1)
    ensures Contents(heap[..], nHeap + 1) == old(Contents(heap[..], nHeap)) + multiset{z}
  {
    hide Rearranged, IsHeap, Rising;
    ghost var h := heap[..];
    forall i | 1 <= i <= nHeap ensures weight[h[i]] >= 0 { assert h[1..nHeap + 1][i - 1] in Contents(h, nHeap); }
    heap[nHeap + 1] := z;
    ghost var g := heap[..];
    assert g[1..nHeap + 2] == h[1..nHeap + 1] + [z];
    Rises(h, weight[..], nHeap, z);
    assert g == h[nHeap + 1 := z];
    UpHeap(heap, weight, nHeap + 1, nHeap + 1);
    RearrangedContents(g, heap[..], nHeap + 1);
  }
}

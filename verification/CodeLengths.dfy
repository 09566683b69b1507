/** BZ2_hbMakeCodeLengths: Huffman code lengths of at most maxLen bits, by rebuilding the tree
    from halved weights until it is flat enough. */
module CodeLengths {
  import opened Bits
  import opened HuffmanHeap
  import opened CodeForest
  import opened OptimalCode

  const MAX_ALPHA_SIZE := 258

  // A packed weight has the weight proper above its low 8 bits, which hold the height.

  /** DEPTHOF */
  function DepthOf(z: nat): nat { z % 256 }

  /** WEIGHTOF */
  function WeightOf(z: nat): nat { z - z % 256 }

  /** ADDWEIGHTS */
  function AddWeights(z1: nat, z2: nat): nat {
    Or(WeightOf(z1) + WeightOf(z2), 1 + (if DepthOf(z1) > DepthOf(z2) then DepthOf(z1) else DepthOf(z2)))
  }

  lemma Unpack(w: nat, h: nat)
    requires h < 256
    ensures DepthOf(w * 256 + h) == h && WeightOf(w * 256 + h) == w * 256
  {}

  lemma AddPacked(w1: nat, h1: nat, w2: nat, h2: nat)
    requires h1 < 255 && h2 < 255
    ensures AddWeights(w1 * 256 + h1, w2 * 256 + h2) == (w1 + w2) * 256 + 1 + (if h1 > h2 then h1 else h2)
  {
    hide DepthOf, WeightOf, Or;
    var h := 1 + (if h1 > h2 then h1 else h2);
    Unpack(w1, h1);
    Unpack(w2, h2);
    Pow2Values();
    OrDisjoint(w1 + w2, h, 8);
  }

  /** The arrays hold the forest f. */
  ghost predicate ArraysHold(weight: seq<int>, parent: seq<int>, nNodes: int, f: Forest)
  {
    && |weight| == |parent| == MAX_ALPHA_SIZE * 2 && weight[0] == 0
    && |f.par| == |f.wt| == |f.ht| == nNodes + 1 <= MAX_ALPHA_SIZE * 2
    && forall x | 1 <= x <= nNodes ::
         parent[x] == f.par[x] && f.wt[x] >= 1 && 0 <= f.ht[x] < 255 && weight[x] == f.wt[x] * 256 + f.ht[x]
  }

  /** The heap holds just the nodes of all. */
  ghost predicate HeapHolds(h: seq<int>, weight: seq<int>, nHeap: int, all: iset<int>)
  {
    && |h| == MAX_ALPHA_SIZE + 2 && Nodes(h, weight, nHeap) && IsHeap(h, weight, nHeap)
    && forall x :: Contents(h, nHeap)[x] == if x in all then 1 else 0
  }

  ghost function Roots(f: Forest): iset<int> { iset x | IsRoot(f, x) }

  /** The arrays hold the forest f, and the heap its roots. */
  ghost predicate Holds(h: seq<int>, weight: seq<int>, parent: seq<int>, nNodes: int, nHeap: int, f: Forest)
  {
    ArraysHold(weight, parent, nNodes, f) && HeapHolds(h, weight, nHeap, Roots(f))
  }

  ghost predicate LeafWeights(weight: seq<int>, alpha: nat, w: seq<int>)
  {
    && 2 <= alpha <= MAX_ALPHA_SIZE && |w| == alpha + 1 && |weight| == MAX_ALPHA_SIZE * 2
    && Total(w, alpha) <= 0x7f_ffff
    && forall i | 1 <= i <= alpha :: w[i] >= 1 && weight[i] == w[i] * 256
  }

  /** Every leaf enters the heap as a tree of its own. */
  method InsertLeaves(heap: array<int>, weight: array<int>, parent: array<int>, alpha: nat, ghost w: seq<int>)
    requires heap != weight && heap != parent && weight != parent
    requires heap.Length == MAX_ALPHA_SIZE + 2 && parent.Length == MAX_ALPHA_SIZE * 2
    requires LeafWeights(weight[..], alpha, w)
    modifies heap, weight, parent
    ensures LeafWeights(weight[..], alpha, w)
    ensures Holds(heap[..], weight[..], parent[..], alpha, alpha, Leaves(alpha, w))
  {
    hide IsHeap, Contents, Nodes, LeafWeights;
    LeafFacts(weight[..], alpha, w);
    ghost var weight0 := weight[..];
    heap[0], weight[0], parent[0] := 0, 0, -2;
    assert weight[..] == weight0[0 := 0];
    EmptyHeap(heap[..], weight[..]);
    var nHeap := 0;
    for i := 1 to alpha + 1
      invariant nHeap == i - 1 && weight[0] == 0 && LeafWeights(weight[..], alpha, w)
      invariant forall x | 1 <= x < i :: parent[x] == -1
      invariant Nodes(heap[..], weight[..], nHeap) && IsHeap(heap[..], weight[..], nHeap)
      invariant forall x :: Contents(heap[..], nHeap)[x] == if 1 <= x < i then 1 else 0
    {
      parent[i] := -1;
      LeafFacts(weight[..], alpha, w);
      Push(heap, weight, nHeap, i);
      nHeap := nHeap + 1;
    }
    LeafFacts(weight[..], alpha, w);
    assert forall x :: IsRoot(Leaves(alpha, w), x) <==> 1 <= x <= alpha;
  }

  lemma LeafFacts(weight: seq<int>, alpha: nat, w: seq<int>)
    requires LeafWeights(weight, alpha, w)
    ensures 2 <= alpha <= MAX_ALPHA_SIZE && |w| == alpha + 1 && |weight| == MAX_ALPHA_SIZE * 2
    ensures forall i | 1 <= i <= alpha :: w[i] >= 1 && weight[i] == w[i] * 256 && weight[i] >= 0
    ensures LeafWeights(weight[0 := 0], alpha, w)
  {}

  lemma EmptyHeap(h: seq<int>, w: seq<int>)
    requires |h| > 0 && |w| > 0 && h[0] == 0
    ensures Nodes(h, w, 0) && IsHeap(h, w, 0) && Contents(h, 0) == multiset{}
  {}

  /** Takes a lightest node off a heap that holds some of the roots. */
  method TakeRoot(heap: array<int>, weight: array<int>, ghost parent: seq<int>, ghost nNodes: int, nHeap: int, ghost f: Forest, ghost all: iset<int>)
    returns (n1: int)
    requires heap != weight && ArraysHold(weight[..], parent, nNodes, f) && HeapHolds(heap[..], weight[..], nHeap, all)
    requires all <= Roots(f) && 1 <= nHeap
    modifies heap
    ensures HeapHolds(heap[..], weight[..], nHeap - 1, all - iset{n1})
    ensures n1 in all && forall r | r in all :: IsRoot(f, n1) && IsRoot(f, r) && |f.wt| == |f.par| && f.wt[n1] <= f.wt[r]
  {
    hide IsHeap, Contents;
    ghost var h := heap[..];
    n1 := PopLightest(heap, weight, nHeap);
    assert Contents(h, nHeap)[n1] == 1;
    forall r | r in all ensures f.wt[n1] <= f.wt[r] {
      assert Contents(h, nHeap)[r] == 1;
      assert weight[n1] <= weight[r];
    }
  }

  /** The arrays after two roots were joined. */
  lemma JoinedArrays(weight: seq<int>, parent: seq<int>, nNodes: int, f: Forest, alpha: nat, w: seq<int>, n1: int, n2: int)
    requires ForestOk(f, alpha, w) && IsRoot(f, n1) && IsRoot(f, n2) && n1 != n2 && Total(w, alpha) <= 0x7f_ffff
    requires ArraysHold(weight, parent, nNodes, f) && nNodes + 1 < MAX_ALPHA_SIZE * 2
    ensures weight[n1] >= 0 && weight[n2] >= 0 && |f.root| == |f.steps|
    ensures var z := nNodes + 1;
            ArraysHold(weight[z := AddWeights(weight[n1], weight[n2])], parent[n1 := z][n2 := z][z := -1], z, Join(f, n1, n2))
  {
    hide ForestOk, AddWeights;
    SizesOk(f, alpha, w);
    GValues();
    HeightBound(f, alpha, w, n1, 33);
    HeightBound(f, alpha, w, n2, 33);
    AddPacked(f.wt[n1], f.ht[n1], f.wt[n2], f.ht[n2]);
  }

  lemma SizesOk(f: Forest, alpha: nat, w: seq<int>)
    requires ForestOk(f, alpha, w)
    ensures |f.par| == |f.wt| == |f.ht| && |f.root| == |f.steps|
  {}

  /** Makes two roots that were taken off the heap the children of a new root. */
  method LinkPair(heap: array<int>, weight: array<int>, parent: array<int>, nNodes: int, nHeap: int, n1: int, n2: int,
                  ghost f: Forest, ghost alpha: nat, ghost w: seq<int>)
    requires heap != weight && heap != parent && weight != parent
    requires ArraysHold(weight[..], parent[..], nNodes, f) && ForestOk(f, alpha, w) && LeafWeights(weight[..], alpha, w)
    requires HeapHolds(heap[..], weight[..], nHeap, Roots(f) - iset{n1} - iset{n2}) && 0 <= nHeap && alpha <= nNodes < 2 * alpha - 1
    requires nHeap + nNodes + 2 == 2 * alpha
    requires IsRoot(f, n1) && IsRoot(f, n2) && n1 != n2 && |f.wt| == |f.par|
    requires forall r | IsRoot(f, r) && r != n1 && r != n2 :: f.wt[n1] <= f.wt[r] && f.wt[n2] <= f.wt[r]
    modifies heap, weight, parent
    ensures |f.par| == |f.wt| == |f.ht| && |f.root| == |f.steps|
    ensures Holds(heap[..], weight[..], parent[..], nNodes + 1, nHeap + 1, Join(f, n1, n2)) && ForestOk(Join(f, n1, n2), alpha, w)
    ensures LeafWeights(weight[..], alpha, w)
  {
    hide IsHeap, Nodes, ForestOk, LeafWeights, Contents, HeapHolds, AddWeights;
    ghost var weight0, parent0 := weight[..], parent[..];
    SizesOk(f, alpha, w);
    LeafFacts(weight0, alpha, w);
    TotalBound(weight0, alpha, w);
    JoinedArrays(weight0, parent0, nNodes, f, alpha, w, n1, n2);
    JoinForest(f, alpha, w, n1, n2);
    var z := nNodes + 1;
    parent[n1] := z;
    parent[n2] := z;
    weight[z] := AddWeights(weight[n1], weight[n2]);
    parent[z] := -1;
    assert weight[..] == weight0[z := AddWeights(weight0[n1], weight0[n2])];
    assert parent[..] == parent0[n1 := z][n2 := z][z := -1];
    HeapElsewhere(heap[..], weight0, weight[..], nHeap, z, Roots(f) - iset{n1} - iset{n2});
    LeafKept(weight0, weight[..], alpha, w, z);
    JoinRoots(f, n1, n2);
    PushRoot(heap, weight, nHeap, z, Roots(f) - iset{n1} - iset{n2}, parent[..], nNodes + 1, Join(f, n1, n2));
  }

  lemma TotalBound(weight: seq<int>, alpha: nat, w: seq<int>)
    requires LeafWeights(weight, alpha, w)
    ensures Total(w, alpha) <= 0x7f_ffff
  {}

  lemma JoinRoots(f: Forest, n1: int, n2: int)
    requires IsRoot(f, n1) && IsRoot(f, n2) && |f.par| == |f.wt| == |f.ht| && |f.root| == |f.steps|
    ensures Roots(Join(f, n1, n2)) == Roots(f) - iset{n1} - iset{n2} + iset{|f.par|}
  {}

  method PushRoot(heap: array<int>, weight: array<int>, nHeap: int, z: int, ghost all: iset<int>, ghost parent: seq<int>, ghost nNodes: int, ghost g: Forest)
    requires heap != weight && 0 <= nHeap <= MAX_ALPHA_SIZE && HeapHolds(heap[..], weight[..], nHeap, all) && z !in all
    requires ArraysHold(weight[..], parent, nNodes, g) && 1 <= z <= nNodes && all <= Roots(g)
    modifies heap
    ensures HeapHolds(heap[..], weight[..], nHeap + 1, all + iset{z})
  {
    hide IsHeap, Nodes, Contents;
    ghost var h := heap[..];
    forall x | x in Contents(h, nHeap) ensures 0 <= x < weight.Length && weight[x] >= 0 {
      assert x in all;
      assert IsRoot(g, x);
    }
    Push(heap, weight, nHeap, z);
  }

  lemma LeafKept(weight: seq<int>, weight': seq<int>, alpha: nat, w: seq<int>, z: int)
    requires LeafWeights(weight, alpha, w) && alpha < z < |weight| && |weight'| == |weight|
    requires forall x | 0 <= x < |weight| && x != z :: weight'[x] == weight[x]
    ensures LeafWeights(weight', alpha, w)
  {}

  /** A heap does not notice a new weight for a node it does not hold. */
  lemma HeapElsewhere(h: seq<int>, w: seq<int>, w': seq<int>, n: int, z: int, all: iset<int>)
    requires HeapHolds(h, w, n, all) && z !in all && |w'| == |w|
    requires forall x | 0 <= x < |w| && x != z :: w'[x] == w[x]
    ensures HeapHolds(h, w', n, all)
  {
    forall i | 1 <= i <= n ensures h[i] != z {
      assert h[1..n + 1][i - 1] in Contents(h, n);
    }
  }

  /** One turn of the joining loop. */
  method JoinLightest(heap: array<int>, weight: array<int>, parent: array<int>, nNodes: int, nHeap: int, ghost f: Forest, ghost alpha: nat, ghost w: seq<int>)
    returns (ghost g: Forest)
    requires heap != weight && heap != parent && weight != parent
    requires Holds(heap[..], weight[..], parent[..], nNodes, nHeap, f) && ForestOk(f, alpha, w)
    requires LeafWeights(weight[..], alpha, w) && 2 <= nHeap && nNodes + nHeap == 2 * alpha && alpha <= nNodes
    requires Promising(f, alpha, w)
    modifies heap, weight, parent
    ensures Holds(heap[..], weight[..], parent[..], nNodes + 1, nHeap - 1, g) && ForestOk(g, alpha, w)
    ensures LeafWeights(weight[..], alpha, w) && Promising(g, alpha, w)
  {
    hide ForestOk, LeafWeights, HeapHolds, ArraysHold, Promising, Join;
    SizesOk(f, alpha, w);
    var n1 := TakeRoot(heap, weight, parent[..], nNodes, nHeap, f, Roots(f));
    var n2 := TakeRoot(heap, weight, parent[..], nNodes, nHeap - 1, f, Roots(f) - iset{n1});
    JoinPromising(f, alpha, w, n1, n2);
    LinkPair(heap, weight, parent, nNodes, nHeap - 2, n1, n2, f, alpha, w);
    g := Join(f, n1, n2);
  }

  /** All leaves in one tree with root r. */
  ghost predicate OneTree(f: Forest, alpha: nat, w: seq<int>, r: int)
  {
    && ForestOk(f, alpha, w) && IsRoot(f, r)
    && forall i | 1 <= i <= alpha :: f.root[i] == r
  }

  lemma LastRoot(h: seq<int>, weight: seq<int>, parent: seq<int>, nNodes: int, f: Forest, alpha: nat, w: seq<int>)
    requires Holds(h, weight, parent, nNodes, 1, f) && ForestOk(f, alpha, w)
    ensures OneTree(f, alpha, w, h[1])
  {
    hide IsHeap, TreesOk;
    forall x | IsRoot(f, x) ensures x == h[1] {
      assert Contents(h, 1)[x] == 1;
      var i := Present(h, 1, x);
    }
    assert h[1..2][0] in Contents(h, 1);
  }

  /** Builds the code tree for the weights w. */
  method BuildTree(heap: array<int>, weight: array<int>, parent: array<int>, alpha: nat, ghost w: seq<int>)
    returns (ghost f: Forest, ghost r: int)
    requires heap != weight && heap != parent && weight != parent
    requires heap.Length == MAX_ALPHA_SIZE + 2 && parent.Length == MAX_ALPHA_SIZE * 2
    requires LeafWeights(weight[..], alpha, w)
    modifies heap, weight, parent
    ensures LeafWeights(weight[..], alpha, w) && OneTree(f, alpha, w, r) && Promising(f, alpha, w)
    ensures |f.par| <= parent.Length && forall x | 1 <= x < |f.par| :: parent[x] == f.par[x]
  {
    hide ForestOk, HeapHolds, LeafWeights, Promising;
    LeafFacts(weight[..], alpha, w);
    InsertLeaves(heap, weight, parent, alpha, w);
    LeavesForest(alpha, w);
    LeavesPromising(alpha, w);
    f := Leaves(alpha, w);
    var nNodes, nHeap := alpha, alpha;
    while nHeap > 1
      invariant 1 <= nHeap && alpha <= nNodes && nNodes + nHeap == 2 * alpha
      invariant Holds(heap[..], weight[..], parent[..], nNodes, nHeap, f) && ForestOk(f, alpha, w)
      invariant LeafWeights(weight[..], alpha, w) && Promising(f, alpha, w)
      decreases nHeap
    {
      f := JoinLightest(heap, weight, parent, nNodes, nHeap, f, alpha, w);
      nNodes, nHeap := nNodes + 1, nHeap - 1;
    }
    assert nNodes < MAX_ALPHA_SIZE * 2 by { LeafFacts(weight[..], alpha, w); }       // AssertH 2002
    LastRoot(heap[..], weight[..], parent[..], nNodes, f, alpha, w);
    r := heap[1];
  }

  /** Measures the depth of every leaf by walking up to the root. */
  method Measure(parent: array<int>, len: array<int>, alpha: nat, maxLen: nat, ghost f: Forest, ghost w: seq<int>, ghost r: int)
    returns (tooLong: bool)
    requires parent != len && OneTree(f, alpha, w, r) && alpha <= len.Length
    requires |f.par| <= parent.Length && forall x | 1 <= x < |f.par| :: parent[x] == f.par[x]
    modifies len
    ensures |f.steps| == alpha + 1 && forall i | 1 <= i <= alpha :: len[i - 1] == f.steps[i]
    ensures tooLong <==> exists i :: 1 <= i <= alpha && f.steps[i] > maxLen
  {
    hide TreesOk;
    tooLong := false;
    for i := 1 to alpha + 1
      invariant forall x | 1 <= x < i :: len[x - 1] == f.steps[x]
      invariant tooLong <==> exists x :: 1 <= x < i && f.steps[x] > maxLen
    {
      var j, k := 0, i;
      while parent[k] >= 0
        invariant 0 <= j <= f.steps[i] && 1 <= k < |f.par| && Path(f.par, k, f.steps[i] - j, r)
        decreases f.steps[i] - j
      {
        k := parent[k];
        j := j + 1;
      }
      len[i - 1] := j;
      if j > maxLen { tooLong := true; }
    }
  }

  /** A leaf that is too deep needs more weight than there is once all weights are 1 or 2. */
  lemma DeepIsHeavy(f: Forest, alpha: nat, w: seq<int>, r: int, i: int, maxLen: nat)
    requires OneTree(f, alpha, w, r) && 1 <= i <= alpha && f.steps[i] > maxLen
    ensures Total(w, alpha) >= G(maxLen + 1)
  {
    if Total(w, alpha) < G(maxLen + 1) { HeightBound(f, alpha, w, r, maxLen + 1); }
  }

  function Halved(w: seq<int>): (r: seq<int>)
    ensures |r| == |w|
  {
    seq(|w|, i requires 0 <= i < |w| => 1 + w[i] / 2)
  }

  /** Halving lowers the total as long as it exceeds 2 per leaf. */
  lemma {:induction false} HalvedTotal(w: seq<int>, k: nat)
    requires k < |w| && forall i | 1 <= i <= k :: w[i] >= 1
    ensures Total(Halved(w), k) <= Total(w, k)
    ensures Total(w, k) > 2 * k ==> Total(Halved(w), k) < Total(w, k)
  {
    if k > 0 { HalvedTotal(w, k - 1); }
  }

  /** Scales all leaf weights down. */
  method ScaleWeights(weight: array<int>, alpha: nat, ghost w: seq<int>)
    requires LeafWeights(weight[..], alpha, w)
    modifies weight
    ensures LeafWeights(weight[..], alpha, Halved(w))
  {
    hide LeafWeights, Total;
    LeafFacts(weight[..], alpha, w);
    for i := 1 to alpha + 1
      invariant forall x | 1 <= x < i :: weight[x] == Halved(w)[x] * 256
      invariant forall x | i <= x <= alpha :: weight[x] == w[x] * 256
    {
      var j := weight[i] / 256;
      j := 1 + j / 2;
      weight[i] := j * 256;
    }
    HalvedLeaves(weight[..], alpha, w);
  }

  lemma HalvedLeaves(weight: seq<int>, alpha: nat, w: seq<int>)
    requires exists weight0 :: LeafWeights(weight0, alpha, w)
    requires |weight| == MAX_ALPHA_SIZE * 2 && |w| == alpha + 1 && forall x | 1 <= x <= alpha :: weight[x] == Halved(w)[x] * 256
    ensures LeafWeights(weight, alpha, Halved(w))
  {
    HalvedTotal(w, alpha);
  }

  /** The tree of all leaves gives lengths from 1 up whose Kraft sum is exactly 1. */
  lemma CompleteCode(f: Forest, alpha: nat, w: seq<int>, r: int, len: seq<int>)
    requires OneTree(f, alpha, w, r) && 2 <= alpha <= |len| && forall i | 1 <= i <= alpha :: len[i - 1] == f.steps[i]
    ensures Kraft(len, alpha) == 1.0
    ensures forall i | 0 <= i < alpha :: len[i] >= 1
  {
    KraftOfAll(f.root, f.steps, r, len, alpha);
    KraftNonNegative(len, alpha);
    forall i | 0 <= i < alpha ensures len[i] >= 1 {
      assert len[(i + 1) - 1] == f.steps[i + 1];
    }
  }

  /** What freq[0..k] comes to when every symbol counts at least once. */
  ghost function FreqTotal(freq: seq<int>, k: nat): int
    requires k <= |freq|
  {
    if k == 0 then 0 else FreqTotal(freq, k - 1) + (if freq[k - 1] == 0 then 1 else freq[k - 1])
  }

  lemma {:induction false} FreqTotalIs(freq: seq<int>, w: seq<int>, k: nat)
    requires k <= |freq| && k < |w| && forall i | 1 <= i <= k :: w[i] == if freq[i - 1] == 0 then 1 else freq[i - 1]
    ensures Total(w, k) == FreqTotal(freq, k)
  {
    if k > 0 { FreqTotalIs(freq, w, k - 1); }
  }

  /** What a symbol that occurs freq times counts for after k halvings. */
  ghost function Scaled(freq: int, k: nat): int {
    if k == 0 then (if freq == 0 then 1 else freq) else 1 + Scaled(freq, k - 1) / 2
  }

  /** The bits that n symbols take, symbol i occurring as often as freq[i] after k halvings. */
  ghost function BitsTaken(freq: seq<int>, k: nat, len: seq<int>, n: nat): int
    requires n <= |freq| && n <= |len|
  {
    if n == 0 then 0 else BitsTaken(freq, k, len, n - 1) + Scaled(freq[n - 1], k) * len[n - 1]
  }

  /** No lengths that satisfy Kraft's inequality take fewer bits than len. */
  ghost predicate Best(freq: seq<int>, k: nat, len: seq<int>, n: nat)
    requires n <= |freq| && n <= |len|
  {
    forall other: seq<int> | |other| == n && Kraft(other, n) <= 1.0 ::
      BitsTaken(freq, k, len, n) <= BitsTaken(freq, k, other, n)
  }

  /** Some best lengths do not fit. */
  ghost predicate BestTooLong(freq: seq<int>, k: nat, n: nat, maxLen: nat)
    requires n <= |freq|
  {
    exists len: seq<int>, i :: |len| == n && Kraft(len, n) == 1.0 && Best(freq, k, len, n) && 0 <= i < n && len[i] > maxLen
  }

  /** w holds the weights after k halvings. */
  ghost predicate ScaledWeights(freq: seq<int>, k: nat, w: seq<int>, alpha: nat)
  {
    |w| == alpha + 1 && alpha <= |freq| && forall i | 1 <= i <= alpha :: w[i] == Scaled(freq[i - 1], k)
  }

  lemma {:induction false} BitsAreCost(freq: seq<int>, k: nat, w: seq<int>, alpha: nat, len: seq<int>, n: nat)
    requires ScaledWeights(freq, k, w, alpha) && n <= alpha && n <= |len|
    ensures BitsTaken(freq, k, len, n) == Cost(w, len, n)
  {
    if n > 0 { BitsAreCost(freq, k, w, alpha, len, n - 1); }
  }

  lemma HalvedScaled(freq: seq<int>, k: nat, w: seq<int>, alpha: nat)
    requires ScaledWeights(freq, k, w, alpha)
    ensures ScaledWeights(freq, k + 1, Halved(w), alpha)
  {}

  /** The depths measured in the finished tree are best for the weights it was built from. */
  lemma MeasuredBest(freq: seq<int>, k: nat, w: seq<int>, alpha: nat, f: Forest, r: int, len: seq<int>)
    requires alpha <= |freq| && ScaledWeights(freq, k, w, alpha) && OneTree(f, alpha, w, r) && Promising(f, alpha, w)
    requires |len| >= alpha && forall i | 1 <= i <= alpha :: len[i - 1] == f.steps[i]
    ensures Best(freq, k, len, alpha)
  {
    hide ForestOk, Kraft, Promising, ScaledWeights;
    TreeIsCheapest(f, alpha, w, len);
    BitsAreCost(freq, k, w, alpha, len, alpha);
    forall other: seq<int> | |other| == alpha && Kraft(other, alpha) <= 1.0
      ensures BitsTaken(freq, k, len, alpha) <= BitsTaken(freq, k, other, alpha)
    {
      BitsAreCost(freq, k, w, alpha, other, alpha);
    }
  }

  /** A finished tree with a leaf that is too deep shows best lengths that do not fit. */
  lemma MeasuredTooLong(freq: seq<int>, k: nat, w: seq<int>, alpha: nat, f: Forest, r: int, len: seq<int>, i: int, maxLen: nat)
    requires 2 <= alpha <= |freq| && ScaledWeights(freq, k, w, alpha) && OneTree(f, alpha, w, r) && Promising(f, alpha, w)
    requires |len| >= alpha && forall i | 1 <= i <= alpha :: len[i - 1] == f.steps[i]
    requires 1 <= i <= alpha && f.steps[i] > maxLen
    ensures BestTooLong(freq, k, alpha, maxLen)
  {
    hide OneTree, Kraft, Promising, ScaledWeights, Best;
    var own := len[..alpha];
    MeasuredBest(freq, k, w, alpha, f, r, own);
    CompleteCode(f, alpha, w, r, own);
    assert own[i - 1] > maxLen;
  }

  /** Every symbol counts at least once. */
  method SetWeights(weight: array<int>, freq: array<int>, alphaSize: nat) returns (ghost w: seq<int>)
    requires weight != freq && 2 <= alphaSize <= MAX_ALPHA_SIZE && alphaSize <= freq.Length && weight.Length == MAX_ALPHA_SIZE * 2
    requires forall i | 0 <= i < alphaSize :: freq[i] >= 0
    requires FreqTotal(freq[..], alphaSize) <= 0x7f_ffff
    modifies weight
    ensures LeafWeights(weight[..], alphaSize, w) && ScaledWeights(freq[..], 0, w, alphaSize)
    ensures |w| == alphaSize + 1 && Total(w, alphaSize) == FreqTotal(freq[..], alphaSize)
  {
    for i := 0 to alphaSize
      invariant forall x | 1 <= x <= i :: weight[x] == (if freq[x - 1] == 0 then 1 else freq[x - 1]) * 256
    {
      weight[i + 1] := (if freq[i] == 0 then 1 else freq[i]) * 256;
    }
    w := seq(alphaSize + 1, i requires 0 <= i <= alphaSize reads freq =>
      if i == 0 then 0 else if freq[i - 1] == 0 then 1 else freq[i - 1]);
    FreqTotalIs(freq[..], w, alphaSize);
    LeavesWeighed(weight[..], alphaSize, w);
  }

  /** BZ2_hbMakeCodeLengths: terminates with a complete code of lengths 1 .. maxLen, the best
      there is for the frequencies halved k times, k being no greater than the limit asks for.
      The packed weights neither overflow 31 bits nor mix weight and height. */
  method MakeCodeLengths(len: array<int>, freq: array<int>, alphaSize: nat, maxLen: nat) returns (ghost k: nat)
    requires len != freq && 2 <= alphaSize <= MAX_ALPHA_SIZE && alphaSize <= len.Length && alphaSize <= freq.Length
    requires forall i | 0 <= i < alphaSize :: freq[i] >= 0
    requires FreqTotal(freq[..], alphaSize) <= 0x7f_ffff
    requires 2 * alphaSize < G(maxLen + 1)
    modifies len
    ensures forall i | 0 <= i < alphaSize :: 1 <= len[i] <= maxLen
    ensures Kraft(len[..], alphaSize) == 1.0
    ensures Best(freq[..], k, len[..], alphaSize)
    ensures forall j: nat | j < k :: BestTooLong(freq[..], j, alphaSize, maxLen)
    ensures FreqTotal(freq[..], alphaSize) < G(maxLen + 1) ==> k == 0
  {
    hide *;
    var heap, weight, parent := new int[MAX_ALPHA_SIZE + 2](_ => 0), new int[MAX_ALPHA_SIZE * 2](_ => 0), new int[MAX_ALPHA_SIZE * 2](_ => 0);
    ghost var w := SetWeights(weight, freq, alphaSize);
    k := 0;
    while true
      invariant |w| == alphaSize + 1 && LeafWeights(weight[..], alphaSize, w) && ScaledWeights(freq[..], k, w, alphaSize)
      invariant forall j: nat | j < k :: BestTooLong(freq[..], j, alphaSize, maxLen)
      invariant Total(w, alphaSize) <= FreqTotal(freq[..], alphaSize)
      invariant k > 0 ==> FreqTotal(freq[..], alphaSize) >= G(maxLen + 1)
      decreases Total(w, alphaSize)
    {
      WeighedTotal(weight[..], alphaSize, w);
      ghost var f, r := BuildTree(heap, weight, parent, alphaSize, w);
      var tooLong := Measure(parent, len, alphaSize, maxLen, f, w, r);
      MeasuredBest(freq[..], k, w, alphaSize, f, r, len[..]);
      if !tooLong {
        CompleteCode(f, alphaSize, w, r, len[..]);
        forall i | 0 <= i < alphaSize ensures len[i] <= maxLen { assert len[(i + 1) - 1] == f.steps[i + 1]; }
        break;
      }
      ghost var i :| 1 <= i <= alphaSize && f.steps[i] > maxLen;
      MeasuredTooLong(freq[..], k, w, alphaSize, f, r, len[..], i, maxLen);
      DeepIsHeavy(f, alphaSize, w, r, i, maxLen);
      HalvedTotal(w, alphaSize);
      HalvedScaled(freq[..], k, w, alphaSize);
      ScaleWeights(weight, alphaSize, w);
      w := Halved(w);
      k := k + 1;
      WeighedTotal(weight[..], alphaSize, w);
    }
  }

  lemma LeavesWeighed(weight: seq<int>, alpha: nat, w: seq<int>)
    requires 2 <= alpha <= MAX_ALPHA_SIZE && |w| == alpha + 1 && |weight| == MAX_ALPHA_SIZE * 2 && Total(w, alpha) <= 0x7f_ffff
    requires forall i | 1 <= i <= alpha :: w[i] >= 1 && weight[i] == w[i] * 256
    ensures LeafWeights(weight, alpha, w)
  {}

  lemma WeighedTotal(weight: seq<int>, alpha: nat, w: seq<int>)
    requires LeafWeights(weight, alpha, w)
    ensures |w| == alpha + 1 && (forall i | 1 <= i <= alpha :: w[i] >= 1) && Total(w, alpha) >= 0
  {
    TotalGrows(w, alpha);
  }

  lemma {:induction false} TotalGrows(w: seq<int>, k: nat)
    requires k < |w| && forall i | 1 <= i <= k :: w[i] >= 1
    ensures Total(w, k) >= k
  {
    if k > 0 { TotalGrows(w, k - 1); }
  }

  /** The encoder's limit of 17 bits is enough for every alphabet it uses. */
  lemma SeventeenBitsSuffice(alphaSize: nat)
    requires alphaSize <= MAX_ALPHA_SIZE
    ensures 2 * alphaSize < G(17 + 1)
  {
    GValues();
  }
}

/** The forest that Huffman code construction grows: who is whose parent, what every tree weighs,
    how deep its leaves are, and why a deep leaf needs a Fibonacci-sized weight. */
module CodeForest {

  /** The least weight of a tree of height h in a forest built by joining two lightest trees. */
  function G(h: nat): nat {
    if h == 0 then 1 else if h == 1 then 2 else G(h - 1) + G(h - 2)
  }

  lemma {:induction false} GMonotone(a: nat, b: nat)
    requires a <= b
    ensures G(a) <= G(b)
    decreases b
  {
    if a < b { GMonotone(a, b - 1); }
  }

  /** Heights that fit: 516 units are too few for height 13, 2^23 too few for 33. */
  lemma GValues()
    ensures G(5) == 13 && G(6) == 21 && G(7) == 34 && G(8) == 55
    ensures G(13) == 610 && G(18) == 6765
    ensures G(33) > 0x7f_ffff
  {
    assert G(5) == 13 && G(6) == 21;
    assert G(9) == 89 && G(10) == 144;
    assert G(13) == 610 && G(14) == 987;
    assert G(17) == 4181 && G(18) == 6765;
    assert G(21) == 28657 && G(22) == 46368;
    assert G(25) == 196418 && G(26) == 317811;
    assert G(29) == 1346269 && G(30) == 2178309;
    assert G(33) == 9227465;
  }

  /** par describes the nodes 1 .. |par| - 1; root and steps tell for every leaf which tree it
      is in and how deep; wt and ht are the weight and height of every node. */
  datatype Forest = Forest(par: seq<int>, wt: seq<int>, ht: seq<int>, root: seq<int>, steps: seq<nat>)

  /** Following par n times from k leads to r. */
  ghost predicate Path(par: seq<int>, k: int, n: nat, r: int)
    decreases n
  {
    && 0 <= k < |par|
    && if n == 0 then k == r else par[k] >= 0 && Path(par, par[k], n - 1, r)
  }

  predicate IsRoot(f: Forest, x: int) { 1 <= x < |f.par| && f.par[x] == -1 }

  /** 2 to the -n. */
  ghost function Half(n: int): real { if n <= 0 then 1.0 else Half(n - 1) / 2.0 }

  lemma {:induction false} HalfPositive(n: int)
    ensures 0.0 < Half(n) <= 1.0
    decreases n
  {
    if n > 0 { HalfPositive(n - 1); }
  }

  /** The weight of the leaves 1 .. k of the tree r. */
  ghost function WeightSum(root: seq<int>, w: seq<int>, r: int, k: nat): int
    requires k < |root| && k < |w|
  {
    if k == 0 then 0 else WeightSum(root, w, r, k - 1) + (if root[k] == r then w[k] else 0)
  }

  /** The Kraft sum of the leaves 1 .. k of the tree r. */
  ghost function KraftOf(root: seq<int>, steps: seq<nat>, r: int, k: nat): real
    requires k < |root| && k < |steps|
  {
    if k == 0 then 0.0 else KraftOf(root, steps, r, k - 1) + (if root[k] == r then Half(steps[k]) else 0.0)
  }

  ghost function Total(w: seq<int>, k: nat): int
    requires k < |w|
  {
    if k == 0 then 0 else Total(w, k - 1) + w[k]
  }

  ghost predicate Sizes(f: Forest, alpha: nat)
  {
    && 1 <= alpha < |f.par| == |f.wt| == |f.ht| && |f.root| == |f.steps| == alpha + 1
    && forall x | 1 <= x < |f.par| :: f.par[x] == -1 || x < f.par[x] < |f.par|
  }

  /** Every leaf reaches the root of its tree in as many steps as recorded. */
  ghost predicate LeavesOk(f: Forest, alpha: nat)
    requires Sizes(f, alpha)
  {
    forall i | 1 <= i <= alpha ::
      IsRoot(f, f.root[i]) && Path(f.par, i, f.steps[i], f.root[i]) && f.steps[i] <= f.ht[f.root[i]]
  }

  /** A node of height h weighs at least G(h), and below it, if it is not a leaf, is one of
      height h - 1. */
  ghost predicate Tall(f: Forest, x: int)
    requires |f.par| == |f.wt| == |f.ht| && 1 <= x < |f.par|
  {
    && f.ht[x] >= 0 && f.wt[x] >= G(f.ht[x])
    && (f.ht[x] >= 1 ==> exists c :: 1 <= c < |f.par| && f.par[c] != -1 && f.wt[c] >= G(f.ht[x] - 1))
  }

  /** No joined node is heavier than a root. */
  ghost predicate JoinedLight(f: Forest)
    requires |f.par| == |f.wt| == |f.ht|
  {
    forall c, r | 1 <= c < |f.par| && f.par[c] != -1 && IsRoot(f, r) :: f.wt[c] <= f.wt[r]
  }

  ghost predicate TreesOk(f: Forest, alpha: nat, w: seq<int>)
    requires Sizes(f, alpha)
  {
    && |w| == alpha + 1 && (forall i | 1 <= i <= alpha :: w[i] >= 1)
    && (forall x | 1 <= x < |f.par| :: Tall(f, x))
    && JoinedLight(f)
    && forall r | IsRoot(f, r) ::
         f.wt[r] == WeightSum(f.root, w, r, alpha) && KraftOf(f.root, f.steps, r, alpha) == 1.0
  }

  ghost predicate ForestOk(f: Forest, alpha: nat, w: seq<int>)
  {
    Sizes(f, alpha) && LeavesOk(f, alpha) && TreesOk(f, alpha, w)
  }

  /** Every leaf a tree of its own. */
  function Leaves(alpha: nat, w: seq<int>): Forest
    requires |w| == alpha + 1
  {
    Forest(seq(alpha + 1, i => -1), w, seq(alpha + 1, i => 0), seq(alpha + 1, i => i), seq(alpha + 1, i => 0))
  }

  lemma {:induction false} OneLeaf(root: seq<int>, steps: seq<nat>, w: seq<int>, r: nat, k: nat)
    requires k < |root| == |steps| == |w| && 1 <= r
    requires forall i | 0 <= i < |root| :: root[i] == i && steps[i] == 0
    ensures WeightSum(root, w, r, k) == if r <= k then w[r] else 0
    ensures KraftOf(root, steps, r, k) == if r <= k then 1.0 else 0.0
  {
    if k > 0 { OneLeaf(root, steps, w, r, k - 1); }
  }

  lemma LeavesForest(alpha: nat, w: seq<int>)
    requires 1 <= alpha && |w| == alpha + 1 && forall i | 1 <= i <= alpha :: w[i] >= 1
    ensures ForestOk(Leaves(alpha, w), alpha, w)
  {
    var f := Leaves(alpha, w);
    forall r | IsRoot(f, r)
      ensures f.wt[r] == WeightSum(f.root, w, r, alpha) && KraftOf(f.root, f.steps, r, alpha) == 1.0
    {
      OneLeaf(f.root, f.steps, w, r, alpha);
    }
  }

  /** The roots a and b become the children of a new root. */
  function Join(f: Forest, a: int, b: int): Forest
    requires 1 <= a < |f.par| == |f.wt| == |f.ht| && 1 <= b < |f.par| && |f.root| == |f.steps|
  {
    var z := |f.par|;
    Forest(f.par[a := z][b := z] + [-1],
           f.wt + [f.wt[a] + f.wt[b]],
           f.ht + [1 + (if f.ht[a] > f.ht[b] then f.ht[a] else f.ht[b])],
           seq(|f.root|, i requires 0 <= i < |f.root| => if f.root[i] == a || f.root[i] == b then z else f.root[i]),
           seq(|f.root|, i requires 0 <= i < |f.root| => if f.root[i] == a || f.root[i] == b then f.steps[i] + 1 else f.steps[i]))
  }

  lemma {:induction false} PathGrows(p: seq<int>, q: seq<int>, k: int, n: nat, r: int)
    requires Path(p, k, n, r) && |q| >= |p|
    requires forall x | 0 <= x < |p| && p[x] >= 0 :: q[x] == p[x]
    ensures Path(q, k, n, r)
    decreases n
  {
    if n > 0 { PathGrows(p, q, p[k], n - 1, r); }
  }

  lemma {:induction false} PathExtends(p: seq<int>, k: int, n: nat, r: int, z: int)
    requires 0 <= r < |p| && Path(p, k, n, r) && 0 <= z < |p| && p[r] == z
    ensures Path(p, k, n + 1, z)
    decreases n
  {
    if n > 0 { PathExtends(p, p[k], n - 1, r, z); }
  }

  lemma {:induction false} JoinSums(f: Forest, a: int, b: int, w: seq<int>, k: nat)
    requires 1 <= a < |f.par| == |f.wt| == |f.ht| && 1 <= b < |f.par| && |f.root| == |f.steps| && a != b
    requires k < |f.root| && k < |w| && forall i | 1 <= i <= k :: f.root[i] < |f.par|
    ensures var g, z := Join(f, a, b), |f.par|;
            && WeightSum(g.root, w, z, k) == WeightSum(f.root, w, a, k) + WeightSum(f.root, w, b, k)
            && KraftOf(g.root, g.steps, z, k) == (KraftOf(f.root, f.steps, a, k) + KraftOf(f.root, f.steps, b, k)) / 2.0
            && forall r | r != a && r != b && r != z ::
                 WeightSum(g.root, w, r, k) == WeightSum(f.root, w, r, k)
                 && KraftOf(g.root, g.steps, r, k) == KraftOf(f.root, f.steps, r, k)
  {
    if k > 0 { JoinSums(f, a, b, w, k - 1); }
  }

  lemma JoinLeaves(f: Forest, alpha: nat, w: seq<int>, a: int, b: int)
    requires ForestOk(f, alpha, w) && IsRoot(f, a) && IsRoot(f, b) && a != b
    ensures Sizes(Join(f, a, b), alpha) && LeavesOk(Join(f, a, b), alpha)
  {
    var g, z := Join(f, a, b), |f.par|;
    forall i | 1 <= i <= alpha
      ensures IsRoot(g, g.root[i]) && Path(g.par, i, g.steps[i], g.root[i]) && g.steps[i] <= g.ht[g.root[i]]
    {
      PathGrows(f.par, g.par, i, f.steps[i], f.root[i]);
      if f.root[i] == a || f.root[i] == b { PathExtends(g.par, i, f.steps[i], f.root[i], z); }
    }
  }

  lemma TallAt(f: Forest, alpha: nat, w: seq<int>, x: int)
    requires ForestOk(f, alpha, w) && 1 <= x < |f.par|
    ensures |f.par| == |f.wt| == |f.ht| && |f.root| == |f.steps| && Tall(f, x)
  {}

  lemma LightAt(f: Forest, alpha: nat, w: seq<int>, c: int, r: int)
    requires ForestOk(f, alpha, w) && 1 <= c < |f.par| && f.par[c] != -1 && IsRoot(f, r)
    ensures |f.par| == |f.wt| && f.wt[c] <= f.wt[r]
  {}

  /** The Fibonacci step: the new tree weighs at least its taller part plus a part of that part. */
  lemma JoinTall(f: Forest, alpha: nat, w: seq<int>, a: int, b: int)
    requires ForestOk(f, alpha, w) && IsRoot(f, a) && IsRoot(f, b) && a != b
    ensures |f.par| == |f.wt| == |f.ht| && |f.root| == |f.steps| && Tall(Join(f, a, b), |f.par|)
  {
    hide ForestOk;
    TallAt(f, alpha, w, a);
    TallAt(f, alpha, w, b);
    var g, z := Join(f, a, b), |f.par|;
    var t := if f.ht[a] > f.ht[b] then a else b;
    var u := a + b - t;
    if f.ht[t] >= 1 {
      var c :| 1 <= c < |f.par| && f.par[c] != -1 && f.wt[c] >= G(f.ht[t] - 1);
      LightAt(f, alpha, w, c, u);
    } else {
      GMonotone(0, f.ht[u]);
    }
    assert g.par[t] != -1 && g.wt[t] >= G(g.ht[z] - 1);
  }

  lemma JoinOtherTall(f: Forest, alpha: nat, w: seq<int>, a: int, b: int, x: int)
    requires ForestOk(f, alpha, w) && IsRoot(f, a) && IsRoot(f, b) && a != b && 1 <= x < |f.par|
    ensures Tall(Join(f, a, b), x)
  {
    var g := Join(f, a, b);
    assert Tall(f, x);
    if f.ht[x] >= 1 {
      var c :| 1 <= c < |f.par| && f.par[c] != -1 && f.wt[c] >= G(f.ht[x] - 1);
      assert g.par[c] != -1 && g.wt[c] == f.wt[c];
    }
  }

  /** Joining two lightest trees keeps the forest in order. */
  lemma JoinForest(f: Forest, alpha: nat, w: seq<int>, a: int, b: int)
    requires ForestOk(f, alpha, w) && IsRoot(f, a) && IsRoot(f, b) && a != b
    requires forall r | IsRoot(f, r) && r != a && r != b :: f.wt[a] <= f.wt[r] && f.wt[b] <= f.wt[r]
    ensures ForestOk(Join(f, a, b), alpha, w)
  {
    hide Tall;
    var g, z := Join(f, a, b), |f.par|;
    JoinLeaves(f, alpha, w, a, b);
    JoinTall(f, alpha, w, a, b);
    forall x | 1 <= x < |g.par| ensures Tall(g, x) {
      if x < z { JoinOtherTall(f, alpha, w, a, b, x); }
    }
    JoinSums(f, a, b, w, alpha);
    NodesPositive(f, alpha, w, a);
    NodesPositive(f, alpha, w, b);
    JoinLight(f, alpha, w, a, b);
  }

  lemma {:induction false} GPositive(h: nat)
    ensures G(h) >= 1
  {
    if h >= 2 { GPositive(h - 1); GPositive(h - 2); }
  }

  lemma NodesPositive(f: Forest, alpha: nat, w: seq<int>, x: int)
    requires ForestOk(f, alpha, w) && 1 <= x < |f.par|
    ensures f.wt[x] >= 1 && f.ht[x] >= 0 && f.wt[x] >= G(f.ht[x])
  {
    assert Tall(f, x);
    GPositive(f.ht[x]);
  }

  lemma JoinLight(f: Forest, alpha: nat, w: seq<int>, a: int, b: int)
    requires ForestOk(f, alpha, w) && IsRoot(f, a) && IsRoot(f, b) && a != b && f.wt[a] >= 1 && f.wt[b] >= 1
    requires forall r | IsRoot(f, r) && r != a && r != b :: f.wt[a] <= f.wt[r] && f.wt[b] <= f.wt[r]
    ensures JoinedLight(Join(f, a, b))
  {
    hide Tall;
    var g, z := Join(f, a, b), |f.par|;
    forall c, r | 1 <= c < |g.par| && g.par[c] != -1 && IsRoot(g, r) ensures g.wt[c] <= g.wt[r] {
      assert c == a || c == b || f.par[c] != -1;
      if r < z { assert IsRoot(f, r); }
      if f.par[c] != -1 { assert f.wt[c] <= f.wt[a]; }
    }
  }

  lemma {:induction false} SumBelowTotal(root: seq<int>, w: seq<int>, r: int, k: nat)
    requires k < |root| && k < |w| && forall i | 1 <= i <= k :: w[i] >= 1
    ensures WeightSum(root, w, r, k) <= Total(w, k)
  {
    if k > 0 { SumBelowTotal(root, w, r, k - 1); }
  }

  /** No tree is higher than its weight, and so the total weight, allows. */
  lemma HeightBound(f: Forest, alpha: nat, w: seq<int>, r: int, h: nat)
    requires ForestOk(f, alpha, w) && IsRoot(f, r) && Total(w, alpha) < G(h)
    ensures 0 <= f.ht[r] < h && 1 <= f.wt[r] <= Total(w, alpha)
  {
    NodesPositive(f, alpha, w, r);
    SumBelowTotal(f.root, w, r, alpha);
    if f.ht[r] >= h { GMonotone(h, f.ht[r]); }
  }

  /** The Kraft sum of code lengths. */
  ghost function Kraft(len: seq<int>, k: nat): real
    requires k <= |len|
  {
    if k == 0 then 0.0 else Kraft(len, k - 1) + Half(len[k - 1])
  }

  lemma {:induction false} KraftNonNegative(len: seq<int>, k: nat)
    requires k <= |len|
    ensures Kraft(len, k) >= 0.0
    ensures forall i | 0 <= i < k :: Kraft(len, k) >= Half(len[i])
    ensures forall i | 0 <= i < k && k >= 2 :: Kraft(len, k) > Half(len[i])
  {
    if k > 0 {
      KraftNonNegative(len, k - 1);
      HalfPositive(len[k - 1]);
      if k >= 2 { HalfPositive(len[0]); }
    }
  }

  lemma {:induction false} KraftOfAll(root: seq<int>, steps: seq<nat>, r: int, len: seq<int>, k: nat)
    requires k < |root| && k < |steps| && k <= |len|
    requires forall i | 1 <= i <= k :: root[i] == r && len[i - 1] == steps[i]
    ensures Kraft(len, k) == KraftOf(root, steps, r, k)
  {
    if k > 0 { KraftOfAll(root, steps, r, len, k - 1); }
  }
}

/** Huffman's law: a tree grown by joining two lightest roots at a time codes its leaves in no
    more bits than any other code that Kraft's inequality allows. */
module OptimalCode {
  import opened CodeForest

  /** The sum of v over the roots below n. */
  ghost function RootSum(par: seq<int>, v: seq<real>, n: nat): real
    requires n <= |par| && n <= |v|
  {
    if n <= 1 then 0.0 else RootSum(par, v, n - 1) + (if par[n - 1] == -1 then v[n - 1] else 0.0)
  }

  ghost function Halves(up: seq<int>): (r: seq<real>)
    ensures |r| == |up|
  {
    seq(|up|, i requires 0 <= i < |up| => Half(up[i]))
  }

  ghost function Costs(wt: seq<int>, up: seq<int>): (r: seq<real>)
    requires |wt| == |up|
    ensures |r| == |up|
  {
    seq(|up|, i requires 0 <= i < |up| => (wt[i] * up[i]) as real)
  }

  /** The weighted bits of the leaves 1 .. k, leaf i taking len[i - 1] bits. */
  ghost function Cost(w: seq<int>, len: seq<int>, k: nat): int
    requires k < |w| && k <= |len|
  {
    if k == 0 then 0 else Cost(w, len, k - 1) + w[k] * len[k - 1]
  }

  /** The weighted bits of the leaves 1 .. k inside their trees. */
  ghost function Inside(w: seq<int>, steps: seq<nat>, k: nat): int
    requires k < |w| && k < |steps|
  {
    if k == 0 then 0 else Inside(w, steps, k - 1) + w[k] * steps[k]
  }

  /** Putting every root r at depth up[r] meets Kraft's inequality and codes the leaves in no more
      bits than len does. */
  ghost predicate Beats(f: Forest, alpha: nat, w: seq<int>, len: seq<int>, up: seq<int>)
    requires Sizes(f, alpha) && |w| == alpha + 1 && |len| == alpha
  {
    && |up| == |f.par| && (forall r | IsRoot(f, r) :: up[r] >= 0)
    && RootSum(f.par, Halves(up), |up|) <= 1.0
    && Inside(w, f.steps, alpha) as real + RootSum(f.par, Costs(f.wt, up), |up|) <= Cost(w, len, alpha) as real
  }

  ghost predicate Beaten(f: Forest, alpha: nat, w: seq<int>, len: seq<int>)
    requires Sizes(f, alpha) && |w| == alpha + 1 && |len| == alpha
  {
    exists up :: Beats(f, alpha, w, len, up)
  }

  /** Whatever code there is, this forest can be made into one tree that is no worse. */
  ghost predicate Promising(f: Forest, alpha: nat, w: seq<int>)
  {
    && Sizes(f, alpha) && |w| == alpha + 1
    && forall len | |len| == alpha && Kraft(len, alpha) <= 1.0 :: Beaten(f, alpha, w, len)
  }

  /** No code that meets Kraft's inequality takes fewer weighted bits than len. */
  ghost predicate Cheapest(w: seq<int>, len: seq<int>, alpha: nat)
    requires |w| == alpha + 1 && |len| >= alpha
  {
    forall other | |other| == alpha && Kraft(other, alpha) <= 1.0 :: Cost(w, len, alpha) <= Cost(w, other, alpha)
  }

  lemma {:induction false} SumUpdate(par: seq<int>, v: seq<real>, x: nat, y: real, n: nat)
    requires n <= |par| && n <= |v| && 1 <= x < |v|
    ensures RootSum(par, v[x := y], n) == RootSum(par, v, n) + (if x < n && par[x] == -1 then y - v[x] else 0.0)
  {
    if n > 1 { SumUpdate(par, v, x, y, n - 1); }
  }

  /** A root that gets a parent no longer takes part. */
  lemma {:induction false} SumWithout(par: seq<int>, v: seq<real>, x: nat, z: int, n: nat)
    requires n <= |par| && n <= |v| && 1 <= x < |par| && x < |v| && z != -1
    ensures RootSum(par[x := z], v, n) == RootSum(par, v, n) - (if x < n && par[x] == -1 then v[x] else 0.0)
  {
    if n > 1 { SumWithout(par, v, x, z, n - 1); }
  }

  lemma {:induction false} SumPrefix(par: seq<int>, v: seq<real>, par': seq<int>, v': seq<real>, n: nat)
    requires n <= |par| <= |par'| && n <= |v| <= |v'|
    requires forall i | 0 <= i < n :: par'[i] == par[i] && v'[i] == v[i]
    ensures RootSum(par', v', n) == RootSum(par, v, n)
  {
    if n > 1 { SumPrefix(par, v, par', v', n - 1); }
  }

  lemma {:induction false} SumNonNegative(par: seq<int>, v: seq<real>, n: nat)
    requires n <= |par| && n <= |v| && forall i | 1 <= i < n && par[i] == -1 :: v[i] >= 0.0
    ensures RootSum(par, v, n) >= 0.0
  {
    if n > 1 { SumNonNegative(par, v, n - 1); }
  }

  ghost predicate MultipleOf(x: real, h: real, q: nat) { x == q as real * h }

  /** Half(n) is a multiple of Half(m). */
  lemma {:induction false} HalfMultiple(n: nat, m: nat) returns (q: nat)
    requires n <= m
    ensures MultipleOf(Half(n), Half(m), q)
    decreases m
  {
    if n == m { return 1; }
    q := HalfMultiple(n, m - 1);
    assert q as real * Half(m - 1) == (2 * q) as real * Half(m);
    q := 2 * q;
  }

  /** If no root but a lies deeper than m, the others come to a multiple of Half(m). */
  lemma {:induction false} SumMultiple(par: seq<int>, up: seq<int>, a: int, m: nat, n: nat) returns (q: nat)
    requires n <= |par| && n <= |up| && forall i | 1 <= i < n && par[i] == -1 && i != a :: 0 <= up[i] <= m
    requires 1 <= a < |par| && par[a] != -1
    ensures MultipleOf(RootSum(par, Halves(up), n), Half(m), q)
  {
    if n <= 1 { return 0; }
    q := SumMultiple(par, up, a, m, n - 1);
    if par[n - 1] == -1 {
      var p := HalfMultiple(up[n - 1], m);
      assert q as real * Half(m) + p as real * Half(m) == (q + p) as real * Half(m);
      q := q + p;
    }
  }

  /** A root that lies deepest, but for the root skip. */
  lemma {:induction false} Deepest(f: Forest, up: seq<int>, skip: int, n: nat, at: int) returns (x: int)
    requires n <= |f.par| == |up| && IsRoot(f, at) && at != skip
    ensures IsRoot(f, x) && x != skip
    ensures forall r | IsRoot(f, r) && r != skip && r < n :: up[r] <= up[x]
    ensures up[at] <= up[x]
  {
    if n == 0 { return at; }
    x := Deepest(f, up, skip, n - 1, at);
    if IsRoot(f, n - 1) && n - 1 != skip && up[n - 1] > up[x] { x := n - 1; }
  }

  /** Exchanging two depths so that the lighter root lies deeper saves bits and leaves Kraft's sum. */
  lemma Exchange(f: Forest, alpha: nat, w: seq<int>, len: seq<int>, up: seq<int>, x: int, y: int)
    requires Sizes(f, alpha) && |w| == alpha + 1 && |len| == alpha && Beats(f, alpha, w, len, up)
    requires IsRoot(f, x) && IsRoot(f, y) && f.wt[x] <= f.wt[y] && up[x] <= up[y]
    ensures Beats(f, alpha, w, len, up[x := up[y]][y := up[x]])
  {
    var n, g := |up|, up[x := up[y]][y := up[x]];
    var h, c := Halves(up), Costs(f.wt, up);
    if x != y {
      assert Halves(g) == h[x := h[y]][y := h[x]];
      SumUpdate(f.par, h, x, h[y], n);
      SumUpdate(f.par, h[x := h[y]], y, h[x], n);
      var p, q := (f.wt[x] * up[y]) as real, (f.wt[y] * up[x]) as real;
      assert Costs(f.wt, g) == c[x := p][y := q];
      SumUpdate(f.par, c, x, p, n);
      SumUpdate(f.par, c[x := p], y, q, n);
      Crosswise(f.wt[x], f.wt[y], up[x], up[y]);
    } else {
      assert g == up;
    }
  }

  lemma Crosswise(a: int, b: int, p: int, q: int)
    requires a <= b && p <= q
    ensures a * q + b * p <= a * p + b * q
  {
    assert (b - a) * (q - p) >= 0;
  }

  /** With the two lightest roots deepest, both may lie at the lesser of the two depths. */
  lemma RoomForBoth(s: real, q: nat, h: real, deep: real, p: nat)
    requires h > 0.0 && deep > 0.0 && MultipleOf(1.0, h, p) && MultipleOf(s, h, q) && s + h + deep <= 1.0
    ensures s + h + h <= 1.0 && h < 1.0
  {
    assert q as real * h >= 0.0;
    assert (q + 1) as real * h == q as real * h + h;
    if q + 1 >= p {
      MulMonotone(p, q + 1, h);
      assert false;
    }
    MulMonotone(q + 2, p, h);
    assert (q + 2) as real * h == q as real * h + h + h;
  }

  lemma MulMonotone(m: nat, n: nat, h: real)
    requires m <= n && h > 0.0
    ensures m as real * h <= n as real * h
  {
    assert (n - m) as real * h >= 0.0;
  }

  lemma {:induction false} InsideJoin(f: Forest, a: int, b: int, w: seq<int>, k: nat)
    requires 1 <= a < |f.par| == |f.wt| == |f.ht| && 1 <= b < |f.par| && |f.root| == |f.steps| && a != b
    requires k < |f.root| && k < |w|
    ensures Inside(w, Join(f, a, b).steps, k) ==
            Inside(w, f.steps, k) + WeightSum(f.root, w, a, k) + WeightSum(f.root, w, b, k)
  {
    if k > 0 {
      InsideJoin(f, a, b, w, k - 1);
      assert w[k] * (f.steps[k] + 1) == w[k] * f.steps[k] + w[k];
    }
  }

  /** The sum over the roots without a and b. */
  lemma SumLess(par: seq<int>, v: seq<real>, a: int, b: int, z: int)
    requires |v| == |par| && 1 <= a < |par| && 1 <= b < |par| && a != b && par[a] == -1 && par[b] == -1 && z != -1
    ensures RootSum(par[a := z][b := z], v, |par|) == RootSum(par, v, |par|) - v[a] - v[b]
  {
    SumWithout(par, v, a, z, |par|);
    SumWithout(par[a := z], v, b, z, |par|);
  }

  /** The sum over the roots once a and b have got the parent z = |par|. */
  lemma SumJoin(par: seq<int>, v: seq<real>, a: int, b: int, y: real)
    requires |v| == |par| && 1 <= a < |par| && 1 <= b < |par| && a != b && par[a] == -1 && par[b] == -1
    ensures RootSum(par[a := |par|][b := |par|] + [-1], v + [y], |par| + 1) == RootSum(par, v, |par|) - v[a] - v[b] + y
  {
    var n := |par|;
    SumLess(par, v, a, b, n);
    SumPrefix(par[a := n][b := n], v, par[a := n][b := n] + [-1], v + [y], n);
  }

  ghost predicate Shallow(par: seq<int>, up: seq<int>, a: int, m: int)
    requires |par| == |up|
  {
    forall i | 1 <= i < |par| && par[i] == -1 && i != a :: 0 <= up[i] <= m
  }

  /** Without a and b there is room for two at the depth of b. */
  lemma RoomBeside(par: seq<int>, up: seq<int>, a: int, m: nat, deep: nat)
    requires |par| == |up| && 1 <= a < |par| && par[a] != -1
    requires Shallow(par, up, a, m)
    requires RootSum(par, Halves(up), |up|) + Half(m) + Half(deep) <= 1.0
    ensures m >= 1 && RootSum(par, Halves(up), |up|) + Half(m - 1) <= 1.0
  {
    hide RootSum, Half, MultipleOf, Halves;
    var q := SumMultiple(par, up, a, m, |up|);
    HalfPositive(m);
    HalfPositive(deep);
    HalfSteps(m);
    var p := HalfMultiple(0, m);
    RoomForBoth(RootSum(par, Halves(up), |up|), q, Half(m), Half(deep), p);
  }

  lemma JoinShape(f: Forest, a: int, b: int)
    requires |f.par| == |f.wt| == |f.ht| && |f.root| == |f.steps| && IsRoot(f, a) && IsRoot(f, b)
    ensures Join(f, a, b).par == f.par[a := |f.par|][b := |f.par|] + [-1]
  {}

  lemma HalvesSnoc(up: seq<int>, x: int)
    ensures Halves(up + [x]) == Halves(up) + [Half(x)]
  {}

  lemma HalvesAt(up: seq<int>, i: nat)
    requires i < |up|
    ensures Halves(up)[i] == Half(up[i])
  {}

  lemma ShallowRoots(f: Forest, up: seq<int>, a: int, b: int)
    requires |f.par| == |up| && 0 <= b < |up|
    requires forall r | IsRoot(f, r) :: 0 <= up[r] && (r != a ==> up[r] <= up[b])
    ensures Shallow(f.par, up, a, up[b])
  {
    forall i | 1 <= i < |up| && f.par[i] == -1 && i != a ensures 0 <= up[i] <= up[b] { assert IsRoot(f, i); }
  }

  lemma JoinHalves(f: Forest, up: seq<int>, a: int, b: int, x: int)
    requires |f.par| == |f.wt| == |f.ht| == |up| && |f.root| == |f.steps| && IsRoot(f, a) && IsRoot(f, b) && a != b
    ensures RootSum(Join(f, a, b).par, Halves(up + [x]), |up| + 1)
            == RootSum(f.par, Halves(up), |up|) - Half(up[a]) - Half(up[b]) + Half(x)
  {
    hide RootSum, Half, Halves, Join;
    HalvesAt(up, a);
    HalvesAt(up, b);
    HalvesSnoc(up, x);
    JoinShape(f, a, b);
    SumJoin(f.par, Halves(up), a, b, Half(x));
  }

  /** The roots but a and b leave room for one above the depth of b. */
  lemma RoomAbove(par: seq<int>, up: seq<int>, a: int, b: int)
    requires |par| == |up| && 1 <= a < |par| && 1 <= b < |par| && a != b && par[a] == -1 && par[b] == -1
    requires Shallow(par, up, a, up[b]) && 0 <= up[b] <= up[a] && RootSum(par, Halves(up), |up|) <= 1.0
    ensures up[b] >= 1 && RootSum(par, Halves(up), |up|) - Half(up[a]) - Half(up[b]) + Half(up[b] - 1) <= 1.0
  {
    var rest := par[a := 0][b := 0];
    assert Shallow(rest, up, a, up[b]);
    hide Shallow, RootSum, Half, Halves;
    HalvesAt(up, a);
    HalvesAt(up, b);
    SumLess(par, Halves(up), a, b, 0);
    RoomBeside(rest, up, a, up[b], up[a]);
  }

  /** Kraft's inequality still holds when the new root lies one above the lesser depth. */
  lemma JoinKraft(f: Forest, up: seq<int>, a: int, b: int)
    requires |f.par| == |f.wt| == |f.ht| == |up| && |f.root| == |f.steps| && IsRoot(f, a) && IsRoot(f, b) && a != b
    requires forall r | IsRoot(f, r) :: 0 <= up[r] <= up[a] && (r != a ==> up[r] <= up[b])
    requires RootSum(f.par, Halves(up), |up|) <= 1.0
    ensures up[b] >= 1 && RootSum(Join(f, a, b).par, Halves(up + [up[b] - 1]), |up| + 1) <= 1.0
  {
    hide RootSum, Half, Halves, Join, Shallow;
    ShallowRoots(f, up, a, b);
    RoomAbove(f.par, up, a, b);
    JoinHalves(f, up, a, b, up[b] - 1);
  }

  lemma HalfSteps(m: nat)
    ensures Half(0) == 1.0 && (m >= 1 ==> Half(m - 1) == Half(m) + Half(m))
  {}

  /** The bits saved above the new root are the bits spent below it. */
  lemma JoinCost(f: Forest, up: seq<int>, a: int, b: int)
    requires |f.par| == |f.wt| == |f.ht| == |up| && |f.root| == |f.steps| && IsRoot(f, a) && IsRoot(f, b) && a != b
    requires 1 <= up[b] <= up[a] && f.wt[a] >= 0
    ensures var g := Join(f, a, b);
            RootSum(g.par, Costs(g.wt, up + [up[b] - 1]), |up| + 1)
              <= RootSum(f.par, Costs(f.wt, up), |up|) - (f.wt[a] + f.wt[b]) as real
  {
    hide RootSum;
    var g, m := Join(f, a, b), up[b];
    var y := (f.wt[a] + f.wt[b]) * (m - 1);
    assert Costs(g.wt, up + [m - 1]) == Costs(f.wt, up) + [y as real];
    SumJoin(f.par, Costs(f.wt, up), a, b, y as real);
    assert f.wt[a] * up[a] >= f.wt[a] * m by { assert f.wt[a] * (up[a] - m) >= 0; }
    assert y == f.wt[a] * m + f.wt[b] * m - f.wt[a] - f.wt[b];
  }

  lemma JoinBeats(f: Forest, alpha: nat, w: seq<int>, len: seq<int>, up: seq<int>, a: int, b: int)
    requires ForestOk(f, alpha, w) && |len| == alpha && Beats(f, alpha, w, len, up)
    requires IsRoot(f, a) && IsRoot(f, b) && a != b
    requires forall r | IsRoot(f, r) :: up[r] <= up[a] && (r != a ==> up[r] <= up[b])
    ensures Sizes(Join(f, a, b), alpha) && Beats(Join(f, a, b), alpha, w, len, up + [up[b] - 1])
  {
    hide Tall, Join;
    JoinLeaves(f, alpha, w, a, b);
    NodesPositive(f, alpha, w, a);
    JoinKraft(f, up, a, b);
    JoinCost(f, up, a, b);
    InsideJoin(f, a, b, w, alpha);
    JoinShape(f, a, b);
  }

  /** Joining two lightest roots loses nothing. */
  lemma JoinBeaten(f: Forest, alpha: nat, w: seq<int>, len: seq<int>, a: int, b: int)
    requires ForestOk(f, alpha, w) && |w| == alpha + 1 && |len| == alpha && Beaten(f, alpha, w, len)
    requires IsRoot(f, a) && IsRoot(f, b) && a != b
    requires forall r | IsRoot(f, r) :: f.wt[a] <= f.wt[r] && (r != a ==> f.wt[b] <= f.wt[r])
    ensures Sizes(Join(f, a, b), alpha) && Beaten(Join(f, a, b), alpha, w, len)
  {
    hide LeavesOk, TreesOk, RootSum, Join;
    var up :| Beats(f, alpha, w, len, up);
    var x := Deepest(f, up, 0, |up|, a);
    Exchange(f, alpha, w, len, up, a, x);
    var up1 := up[a := up[x]][x := up[a]];
    var y := Deepest(f, up1, a, |up|, b);
    Exchange(f, alpha, w, len, up1, b, y);
    var up2 := up1[b := up1[y]][y := up1[b]];
    JoinBeats(f, alpha, w, len, up2, a, b);
  }

  lemma JoinPromising(f: Forest, alpha: nat, w: seq<int>, a: int, b: int)
    requires ForestOk(f, alpha, w) && Promising(f, alpha, w)
    requires IsRoot(f, a) && IsRoot(f, b) && a != b
    requires forall r | IsRoot(f, r) :: f.wt[a] <= f.wt[r] && (r != a ==> f.wt[b] <= f.wt[r])
    ensures |f.par| == |f.wt| == |f.ht| && |f.root| == |f.steps| && Promising(Join(f, a, b), alpha, w)
  {
    hide LeavesOk, TreesOk, Beaten, Join;
    JoinLeaves(f, alpha, w, a, b);
    forall len | |len| == alpha && Kraft(len, alpha) <= 1.0 ensures Beaten(Join(f, a, b), alpha, w, len) {
      JoinBeaten(f, alpha, w, len, a, b);
    }
  }

  lemma {:induction false} LeavesSums(alpha: nat, w: seq<int>, len: seq<int>, k: nat)
    requires |w| == alpha + 1 && |len| == alpha && k <= alpha
    ensures var f := Leaves(alpha, w);
            && RootSum(f.par, Halves([0] + len), k + 1) == Kraft(len, k)
            && RootSum(f.par, Costs(w, [0] + len), k + 1) == Cost(w, len, k) as real && Inside(w, f.steps, k) == 0
  {
    if k > 0 { LeavesSums(alpha, w, len, k - 1); }
  }

  lemma LeavesPromising(alpha: nat, w: seq<int>)
    requires 2 <= alpha && |w| == alpha + 1
    ensures Promising(Leaves(alpha, w), alpha, w)
  {
    var f := Leaves(alpha, w);
    forall len | |len| == alpha && Kraft(len, alpha) <= 1.0 ensures Beaten(f, alpha, w, len) {
      KraftNonNegative(len, alpha);
      LeavesSums(alpha, w, len, alpha);
      forall i | 0 <= i < alpha ensures len[i] >= 1 {}
      assert Beats(f, alpha, w, len, [0] + len);
    }
  }

  lemma {:induction false} InsideIsCost(w: seq<int>, steps: seq<nat>, len: seq<int>, k: nat)
    requires k < |w| && k < |steps| && k <= |len| && forall i | 1 <= i <= k :: len[i - 1] == steps[i]
    ensures Inside(w, steps, k) == Cost(w, len, k)
  {
    if k > 0 { InsideIsCost(w, steps, len, k - 1); }
  }

  /** The depths in the forest are a cheapest code. */
  lemma TreeIsCheapest(f: Forest, alpha: nat, w: seq<int>, len: seq<int>)
    requires ForestOk(f, alpha, w) && Promising(f, alpha, w)
    requires |len| >= alpha && forall i | 1 <= i <= alpha :: len[i - 1] == f.steps[i]
    ensures Cheapest(w, len, alpha)
  {
    hide LeavesOk, Tall, Kraft;
    InsideIsCost(w, f.steps, len, alpha);
    forall other | |other| == alpha && Kraft(other, alpha) <= 1.0 ensures Cost(w, len, alpha) <= Cost(w, other, alpha) {
      assert Beaten(f, alpha, w, other);
      var up :| Beats(f, alpha, w, other, up);
      forall i | 1 <= i < |up| && f.par[i] == -1 ensures Costs(f.wt, up)[i] >= 0.0 {
        assert IsRoot(f, i);
        NodesPositive(f, alpha, w, i);
        assert f.wt[i] * up[i] >= 0;
      }
      SumNonNegative(f.par, Costs(f.wt, up), |up|);
    }
  }
}

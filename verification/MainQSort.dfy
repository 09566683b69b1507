/** The two sorts that the main block sort runs on small buckets: a shell sort that compares
    whole rotations and a three-way radix quicksort that looks at one character at a time. */
module MainQSort {
  import opened Bits
  import opened Rotations
  import opened Rearrange
  import opened ThreeWay
  import opened SegmentStack
  import opened MainCompare

  /** Knuth's increments. */
  const INCS: seq<int> := [1, 4, 13, 40, 121, 364, 1093, 3280, 9841, 29524, 88573, 265720, 797161, 2391484]

  const SMALL_THRESH := 20
  const DEPTH_THRESH := 14
  const STACK_SIZE := 100

  ghost function ByRotation(s: seq<int>): (int, int) -> bool {
    (x: int, y: int) => 0 <= x < |s| && 0 <= y < |s| ==> Le(s, x, y, |s|)
  }

  /** The rows lo..hi name rotations that agree on their first d characters. */
  ghost predicate Alike(s: seq<int>, f: seq<int>, lo: int, hi: int, d: nat)
  {
    && 0 <= lo <= hi + 1 <= |f|
    && (forall a | lo <= a <= hi :: 0 <= f[a] < |s|)
    && forall a, b | lo <= a <= hi && lo <= b <= hi :: Eq(s, f[a], f[b], d)
  }

  lemma AlikeKept(s: seq<int>, f: seq<int>, g: seq<int>, lo: int, hi: int, d: nat)
    requires Alike(s, f, lo, hi, d) && Rearranged(f, g, lo, hi + 1)
    ensures Alike(s, g, lo, hi, d)
  {
    AllKept(f, g, lo, hi + 1, x => 0 <= x < |s|);
    forall a, b | lo <= a <= hi && lo <= b <= hi ensures Eq(s, g[a], g[b], d) {
      var a' := CameFrom(f, g, lo, hi + 1, a);
      var b' := CameFrom(f, g, lo, hi + 1, b);
    }
  }

  /** Rotations alike to depth d compare as they do d characters further on. */
  lemma OrderFurtherOn(s: seq<int>, x: nat, y: nat, d: nat)
    requires x < |s| && y < |s| && d <= |s| && Eq(s, x, y, d)
    requires Le(s, Shift(|s|, x, d), Shift(|s|, y, d), |s|)
    ensures Le(s, x, y, |s|)
  {
    Split(s, y, x, d, |s|);
    Trichotomy(s, x, y, d);
    DeepEnough(s, y, x, d + |s|);
  }

  // ---- mainSimpleSort ----

  ghost predicate RotationsSorted(s: seq<int>, f: seq<int>, lo: int, hi: int)
  {
    && 0 <= lo <= hi + 1 <= |f|
    && (forall a | lo <= a <= hi :: 0 <= f[a] < |s|)
    && forall a, b | lo <= a < b <= hi :: Le(s, f[a], f[b], |s|)
  }

  /** Rows lo..i are sorted but for the entry at p, which may be smaller than those before it. */
  ghost predicate Sinking(s: seq<int>, f: seq<int>, lo: int, p: int, i: int)
  {
    && 0 <= lo <= p <= i < |f|
    && (forall a | lo <= a <= i :: 0 <= f[a] < |s|)
    && forall a, b | lo <= a < b <= i && b != p :: Le(s, f[a], f[b], |s|)
  }

  lemma SinkStep(s: seq<int>, f: seq<int>, lo: int, p: int, i: int)
    requires Sinking(s, f, lo, p, i) && lo < p && Le(s, f[p], f[p - 1], |s|)
    ensures Sinking(s, Swapped(f, p - 1, p), lo, p - 1, i)
  {}

  lemma SinkDone(s: seq<int>, f: seq<int>, lo: int, p: int, i: int)
    requires Sinking(s, f, lo, p, i) && (lo < p ==> Le(s, f[p - 1], f[p], |s|))
    ensures RotationsSorted(s, f, lo, i)
  {
    forall a | lo <= a < p ensures Le(s, f[a], f[p], |s|) {
      if a < p - 1 { LeTransitive(s, f[a], f[p - 1], f[p], |s|); }
    }
  }

  /** Compares rotations that agree on their first d characters. */
  method Greater(x: int, y: int, d: nat, block: array<int>, quadrant: array<int>, n: nat, budget: int, ghost s: seq<int>)
    returns (greater: bool, budget': int)
    requires |s| == n && QuadrantsOk(block[..], quadrant[..], s) && d <= 15
    requires 0 <= x < n && 0 <= y < n && Eq(s, x, y, d)
    ensures greater ==> Le(s, y, x, n)
    ensures !greater ==> Le(s, x, y, n)
    ensures budget' <= budget
  {
    hide QuadrantsOk, Le;
    BlockSize(block[..], quadrant[..], s);
    greater, budget' := GtU(x + d, y + d, block, quadrant, n, budget, s);
    if greater {
      Trichotomy(s, x, y, d);
      OrderFurtherOn(s, y, x, d);
    } else {
      OrderFurtherOn(s, x, y, d);
    }
  }

  /** One row moves past a larger one. */
  lemma MovePast(s: seq<int>, f0: seq<int>, f: seq<int>, lo: int, hi: int, i: int, j: int, h: int, d: nat)
    requires 0 <= lo < lo + h <= j <= i <= hi < |f| && h >= 1
    requires Rearranged(f0, f, lo, hi + 1) && Alike(s, f, lo, hi, d)
    requires h == 1 ==> Sinking(s, f, lo, j, i) && 0 <= f[j] < |s| && 0 <= f[j - 1] < |s| && Le(s, f[j], f[j - 1], |s|)
    ensures var g := Swapped(f, j - h, j);
            && Rearranged(f0, g, lo, hi + 1) && Alike(s, g, lo, hi, d)
            && (h == 1 ==> Sinking(s, g, lo, j - 1, i))
  {
    hide Rearranged, Swapped, Alike, Sinking;
    if h == 1 { SinkStep(s, f, lo, j, i); }
    Swap(f0, f, j - h, j, lo, hi + 1);
    Reflexive(f, lo, hi + 1);
    Swap(f, f, j - h, j, lo, hi + 1);
    AlikeKept(s, f, Swapped(f, j - h, j), lo, hi, d);
  }

  /** One insertion: the entry at i moves down in steps of h past all larger ones. */
  method InsertOne(ptr: array<int>, block: array<int>, quadrant: array<int>, n: nat, lo: int, ghost hi: int, i: int, h: int, d: nat,
                   budget: int, ghost s: seq<int>) returns (budget': int)
    requires ptr != block && ptr != quadrant && |s| == n && QuadrantsOk(block[..], quadrant[..], s)
    requires Alike(s, ptr[..], lo, hi, d) && d <= 15 && h >= 1 && 0 <= lo < lo + h <= i <= hi < ptr.Length
    requires h == 1 ==> RotationsSorted(s, ptr[..], lo, i - 1)
    modifies ptr
    ensures Rearranged(old(ptr[..]), ptr[..], lo, hi + 1) && Alike(s, ptr[..], lo, hi, d)
    ensures h == 1 ==> RotationsSorted(s, ptr[..], lo, i)
    ensures budget' <= budget
  {
    hide Rearranged, Swapped, QuadrantsOk, Alike, Sinking, RotationsSorted, Le, Lt, Eq;
    ghost var f0, full := ptr[..], ptr[..];
    Reflexive(f0, lo, hi + 1);
    if h == 1 { StartSinking(s, full, lo, hi, i, d); }
    var v := ptr[i];
    var j := i;
    AlikeAt(s, full, lo, hi, d, i - h, i);
    var greater;
    greater, budget' := Greater(ptr[j - h], v, d, block, quadrant, n, budget, s);
    while greater
      invariant lo + h <= j <= i && |full| == ptr.Length && full[j] == v && budget' <= budget
      invariant forall x | 0 <= x < |full| && x != j :: full[x] == ptr[x]
      invariant Rearranged(f0, full, lo, hi + 1) && Alike(s, full, lo, hi, d)
      invariant h == 1 ==> Sinking(s, full, lo, j, i)
      invariant 0 <= full[j - h] < n && 0 <= v < n
      invariant if greater then Le(s, v, full[j - h], n) else Le(s, full[j - h], v, n)
      decreases j, if greater then 1 else 0
    {
      MovePast(s, f0, full, lo, hi, i, j, h, d);
      full := Swapped(full, j - h, j);
      ptr[j] := ptr[j - h];
      j := j - h;
      if j <= lo + h - 1 { break; }
      AlikeAt(s, full, lo, hi, d, j - h, j);
      greater, budget' := Greater(ptr[j - h], v, d, block, quadrant, n, budget', s);
    }
    if h == 1 { SinkDone(s, full, lo, j, i); }
    ptr[j] := v;
    assert ptr[..] == full;
  }

  lemma StartSinking(s: seq<int>, f: seq<int>, lo: int, hi: int, i: int, d: nat)
    requires Alike(s, f, lo, hi, d) && lo < i <= hi && RotationsSorted(s, f, lo, i - 1)
    ensures Sinking(s, f, lo, i, i)
  {}

  lemma AlikeAt(s: seq<int>, f: seq<int>, lo: int, hi: int, d: nat, a: int, b: int)
    requires Alike(s, f, lo, hi, d) && lo <= a <= hi && lo <= b <= hi
    ensures 0 <= f[a] < |s| && 0 <= f[b] < |s| && Eq(s, f[a], f[b], d)
  {}

  /** mainSimpleSort: a shell sort by whole rotations, which gives up when the budget runs out. */
  method SimpleSort(ptr: array<int>, block: array<int>, quadrant: array<int>, n: nat, lo: int, hi: int, d: nat,
                    budget: int, ghost s: seq<int>) returns (budget': int)
    requires ptr != block && ptr != quadrant && |s| == n && QuadrantsOk(block[..], quadrant[..], s)
    requires 0 <= lo <= hi + 1 <= ptr.Length && hi - lo < 900000
    requires Alike(s, ptr[..], lo, hi, d) && d <= 15
    modifies ptr
    ensures Rearranged(old(ptr[..]), ptr[..], lo, hi + 1) && Alike(s, ptr[..], lo, hi, d)
    ensures budget' <= budget
    ensures budget' >= 0 ==> RotationsSorted(s, ptr[..], lo, hi)
  {
    hide Rearranged, QuadrantsOk, Alike, RotationsSorted;
    ghost var f0 := ptr[..];
    Reflexive(f0, lo, hi + 1);
    budget' := budget;
    var bigN := hi - lo + 1;
    if bigN < 2 {
      FewSorted(s, ptr[..], lo, hi, d);
      return;
    }
    var hp := 0;
    while INCS[hp] < bigN
      invariant 0 <= hp < 14 && (hp > 0 ==> INCS[hp - 1] < bigN)
      decreases 14 - hp
    {
      hp := hp + 1;
    }
    hp := hp - 1;
    while hp >= 0
      invariant -1 <= hp < 13 && (hp >= 0 ==> INCS[hp] < bigN)
      invariant Rearranged(f0, ptr[..], lo, hi + 1) && Alike(s, ptr[..], lo, hi, d)
      invariant budget' <= budget && (hp < 0 ==> RotationsSorted(s, ptr[..], lo, hi))
    {
      ghost var f := ptr[..];
      var abandoned;
      budget', abandoned := ShellPass(ptr, block, quadrant, n, lo, hi, INCS[hp], d, budget', s);
      Transitive(f0, f, ptr[..], lo, hi + 1);
      if abandoned { return; }
      hp := hp - 1;
    }
  }

  lemma FewSorted(s: seq<int>, f: seq<int>, lo: int, hi: int, d: nat)
    requires Alike(s, f, lo, hi, d) && hi <= lo
    ensures RotationsSorted(s, f, lo, hi)
  {}

  /** One pass with increment h, checking the budget after every third insertion. */
  method ShellPass(ptr: array<int>, block: array<int>, quadrant: array<int>, n: nat, lo: int, hi: int, h: int, d: nat,
                   budget: int, ghost s: seq<int>) returns (budget': int, abandoned: bool)
    requires ptr != block && ptr != quadrant && |s| == n && QuadrantsOk(block[..], quadrant[..], s)
    requires 0 <= lo < lo + h <= hi < ptr.Length && h >= 1
    requires Alike(s, ptr[..], lo, hi, d) && d <= 15
    modifies ptr
    ensures Rearranged(old(ptr[..]), ptr[..], lo, hi + 1) && Alike(s, ptr[..], lo, hi, d)
    ensures budget' <= budget
    ensures if abandoned then budget' < 0 else h == 1 ==> RotationsSorted(s, ptr[..], lo, hi)
  {
    hide Rearranged, QuadrantsOk, Alike, RotationsSorted;
    ghost var f0 := ptr[..];
    Reflexive(f0, lo, hi + 1);
    budget', abandoned := budget, false;
    var i := lo + h;
    if h == 1 { OneSorted(s, f0, lo, hi, d); }
    while i <= hi
      invariant lo + h <= i <= hi + 1 && budget' <= budget
      invariant Rearranged(f0, ptr[..], lo, hi + 1) && Alike(s, ptr[..], lo, hi, d)
      invariant h == 1 ==> RotationsSorted(s, ptr[..], lo, i - 1)
    {
      var copy := 0;
      ghost var i0 := i;
      while copy < 3 && i <= hi
        invariant 0 <= copy <= 3 && lo + h <= i <= hi + 1 && budget' <= budget
        invariant copy == 0 ==> i <= hi
        invariant Rearranged(f0, ptr[..], lo, hi + 1) && Alike(s, ptr[..], lo, hi, d)
        invariant h == 1 ==> RotationsSorted(s, ptr[..], lo, i - 1)
        invariant i == i0 + copy
        decreases 3 - copy
      {
        ghost var f := ptr[..];
        budget' := InsertOne(ptr, block, quadrant, n, lo, hi, i, h, d, budget', s);
        Transitive(f0, f, ptr[..], lo, hi + 1);
        i := i + 1;
        copy := copy + 1;
      }
      if copy == 3 && budget' < 0 { return budget', true; }
    }
  }

  lemma OneSorted(s: seq<int>, f: seq<int>, lo: int, hi: int, d: nat)
    requires Alike(s, f, lo, hi, d) && lo <= hi
    ensures RotationsSorted(s, f, lo, lo)
  {}

  // ---- mainQSort3 ----

  /** Every waiting segment holds rotations alike to its depth. */
  ghost predicate DepthsOk(s: seq<int>, f: seq<int>, st: seq<Segment>)
  {
    forall t | 0 <= t < |st| :: st[t].d >= 0 && Alike(s, f, st[t].lo, st[t].hi, st[t].d)
  }

  /** mmed3 */
  function Med3(a0: int, b0: int, c: int): (m: int)
    ensures m == a0 || m == b0 || m == c
    ensures (a0 <= m && b0 <= m) || (b0 <= m && c <= m) || (a0 <= m && c <= m)
    ensures (m <= a0 && m <= b0) || (m <= b0 && m <= c) || (m <= a0 && m <= c)
  {
    var a := if a0 > b0 then b0 else a0;
    var b := if a0 > b0 then a0 else b0;
    if b > c then (if a > c then a else c) else b
  }

  /** The characters d places on decide between alike rotations. */
  lemma KeyDecides(s: seq<int>, x: nat, y: nat, d: nat)
    requires x < |s| && y < |s| && d < |s| && Eq(s, x, y, d)
    ensures s[Shift(|s|, x, d)] < s[Shift(|s|, y, d)] ==> Le(s, x, y, |s|)
    ensures s[Shift(|s|, x, d)] == s[Shift(|s|, y, d)] ==> Eq(s, x, y, d + 1)
  {
    Split(s, x, y, d, 1);
    Deepen(s, x, y, d + 1, |s|);
    Trichotomy(s, x, y, |s|);
  }

  /** The three parts of a partition, in the order in which they are pushed: largest first. */
  function Parts(lo: int, n: int, m: int, hi: int, d: int): (kids: seq<Segment>)
    ensures |kids| == 3 && kids[0].Size() >= kids[1].Size() >= kids[2].Size()
    ensures var a, b, c := Segment(lo, n, d), Segment(m, hi, d), Segment(n + 1, m - 1, d + 1);
            kids in {[a, b, c], [a, c, b], [b, a, c], [b, c, a], [c, a, b], [c, b, a]}
  {
    var a, b, c := Segment(lo, n, d), Segment(m, hi, d), Segment(n + 1, m - 1, d + 1);
    var (a1, b1) := if a.Size() < b.Size() then (b, a) else (a, b);
    var (b2, c2) := if b1.Size() < c.Size() then (c, b1) else (b1, c);
    var (a3, b3) := if a1.Size() < b2.Size() then (b2, a1) else (a1, b2);
    [a3, b3, c2]
  }

  lemma PartsMeasures(rest: seq<Segment>, top: Segment, n: int, m: int, size: int)
    requires Shallow(rest + [top], size) && 0 <= top.d <= DEPTH_THRESH
    requires top.lo <= n + 1 < m <= top.hi + 1 && (top.lo <= n || m <= top.hi)
    ensures var kids := Parts(top.lo, n, m, top.hi, top.d);
            Shallow(rest + kids, size) && Work(rest + kids) < Work(rest + [top])
  {
    hide Shallow, Work, Parts;
    var kids := Parts(top.lo, n, m, top.hi, top.d);
    PushParts(rest, top, kids, size);
    WorkPush(rest, top);
    WorkPush(rest, kids[0]);
    WorkPush(rest + [kids[0]], kids[1]);
    WorkPush(rest + [kids[0], kids[1]], kids[2]);
    assert rest + [kids[0]] + [kids[1]] == rest + [kids[0], kids[1]];
    assert rest + [kids[0], kids[1]] + [kids[2]] == rest + kids;
    WeightsShrink(top.lo, n, m, top.hi, top.d);
  }

  lemma WeightsShrink(lo: int, n: int, m: int, hi: int, d: int)
    requires lo <= n + 1 < m <= hi + 1
    ensures Weight(Segment(lo, n, d)) + Weight(Segment(m, hi, d)) + Weight(Segment(n + 1, m - 1, d + 1))
            < Weight(Segment(lo, hi, d))
  {
    var a, b, c, w := n - lo + 1, hi - m + 1, m - 1 - n, 17 - d;
    assert 4 * (a + b + c) * w == 4 * a * w + 4 * b * w + 4 * c * w;
    assert 4 * c * (w - 1) == 4 * c * w - 4 * c;
    assert hi - lo + 1 == a + b + c;
  }

  lemma KeyAt(s: seq<int>, block: seq<int>, x: nat, d: nat)
    requires Extended(block, s) && x < |s| && d <= 15
    ensures x + d < |block| && d < |s| && block[x + d] == s[Shift(|s|, x, d)]
  {}

  lemma PartsAlike(s: seq<int>, block: seq<int>, g: seq<int>, lo: int, n: int, m: int, hi: int, d: nat, med: int)
    requires Alike(s, g, lo, hi, d) && Extended(block, s) && d <= 15
    requires Indexes(g, block, d, lo, hi + 1) && Parted(g, block, d, med, lo, n, m, hi)
    ensures Alike(s, g, lo, n, d) && Alike(s, g, m, hi, d) && Alike(s, g, n + 1, m - 1, d + 1)
  {
    forall a, b | n < a < m && n < b < m ensures Eq(s, g[a], g[b], d + 1) {
      KeyAt(s, block, g[a], d);
      KeyAt(s, block, g[b], d);
      KeyDecides(s, g[a], g[b], d);
    }
  }

  /** Entries in different parts are in order. */
  lemma PartsOrder(s: seq<int>, block: seq<int>, g: seq<int>, lo: int, n: int, m: int, hi: int, d: nat, med: int, a: int, b: int)
    requires Alike(s, g, lo, hi, d) && Extended(block, s) && d <= 15
    requires Indexes(g, block, d, lo, hi + 1) && Parted(g, block, d, med, lo, n, m, hi)
    requires lo <= a < b <= hi
    ensures b <= n || m <= a || (n < a && b < m) || Le(s, g[a], g[b], |s|)
  {
    KeyAt(s, block, g[a], d);
    KeyAt(s, block, g[b], d);
    KeyDecides(s, g[a], g[b], d);
  }

  lemma PartsSettled(s: seq<int>, block: seq<int>, g: seq<int>, lo: int, n: int, m: int, hi: int, d: nat, med: int)
    requires Alike(s, g, lo, hi, d) && Extended(block, s) && d <= 15
    requires Indexes(g, block, d, lo, hi + 1) && Parted(g, block, d, med, lo, n, m, hi)
    ensures var kids := Parts(lo, n, m, hi, d);
            && Disjoint(kids, lo, hi) && Settled(g, ByRotation(s), kids, lo, hi) && DepthsOk(s, g, kids)
  {
    hide Parts, Alike, Extended, Indexes, Le;
    var kids := Parts(lo, n, m, hi, d);
    PartsAlike(s, block, g, lo, n, m, hi, d, med);
    PartedAround(g, block, d, med, lo, n, m, hi);
    PartsDisjoint(lo, n, m, hi, d);
    forall a, b | lo <= a < b <= hi ensures InSame(kids, a, b) || ByRotation(s)(g[a], g[b]) {
      PartsOrder(s, block, g, lo, n, m, hi, d, med, a, b);
      if b <= n || m <= a || (n < a && b < m) {
        var part := if b <= n then Segment(lo, n, d) else if m <= a then Segment(m, hi, d) else Segment(n + 1, m - 1, d + 1);
        assert part in kids;
        var t :| 0 <= t < |kids| && kids[t] == part;
      }
    }
    GoodSpan(s, g, lo, hi, d);
    forall t | 0 <= t < |kids| ensures kids[t].d >= 0 && Alike(s, g, kids[t].lo, kids[t].hi, kids[t].d) {
      assert kids[t] in {Segment(lo, n, d), Segment(m, hi, d), Segment(n + 1, m - 1, d + 1)};
    }
  }

  lemma GoodSpan(s: seq<int>, g: seq<int>, lo: int, hi: int, d: nat)
    requires Alike(s, g, lo, hi, d)
    ensures 0 <= lo <= hi + 1 <= |g|
  {}

  lemma PartsDisjoint(lo: int, n: int, m: int, hi: int, d: int)
    requires lo <= n + 1 <= m <= hi + 1
    ensures Disjoint(Parts(lo, n, m, hi, d), lo, hi)
  {
    hide Parts;
    var kids := Parts(lo, n, m, hi, d);
    forall t, u | 0 <= t < u < 3 ensures kids[t].hi < kids[u].lo || kids[u].hi < kids[t].lo {}
  }

  lemma AlikeElsewhere(s: seq<int>, f: seq<int>, g: seq<int>, top: Segment, seg: Segment)
    requires Rearranged(f, g, top.lo, top.hi + 1) && seg.d >= 0 && Alike(s, f, seg.lo, seg.hi, seg.d)
    requires seg.hi < top.lo || top.hi < seg.lo
    ensures Alike(s, g, seg.lo, seg.hi, seg.d)
  {
    forall a | seg.lo <= a <= seg.hi ensures g[a] == f[a] {
      var b := Before(f, g, top, a);
    }
  }

  /** The depths on the stack stay right when the top segment is rearranged and replaced. */
  lemma DepthsKept(s: seq<int>, f: seq<int>, g: seq<int>, rest: seq<Segment>, top: Segment, kids: seq<Segment>, lo: int, hi: int)
    requires Disjoint(rest + [top], lo, hi) && DepthsOk(s, f, rest + [top])
    requires Rearranged(f, g, top.lo, top.hi + 1) && DepthsOk(s, g, kids)
    ensures DepthsOk(s, g, rest + kids)
  {
    hide Rearranged, Alike;
    var st, st' := rest + [top], rest + kids;
    assert st[|rest|] == top;
    forall t | 0 <= t < |st'| ensures st'[t].d >= 0 && Alike(s, g, st'[t].lo, st'[t].hi, st'[t].d) {
      if t < |rest| {
        assert st'[t] == st[t] == rest[t];
        AlikeElsewhere(s, f, g, top, rest[t]);
      }
    }
  }

  /** What the loop of mainQSort3 keeps between rounds. */
  ghost predicate Sorting(s: seq<int>, f: seq<int>, st: seq<Segment>, lo: int, hi: int, size: int)
  {
    && 0 <= lo <= hi < |f|
    && Disjoint(st, lo, hi) && Settled(f, ByRotation(s), st, lo, hi) && DepthsOk(s, f, st) && Shallow(st, size)
  }

  lemma TopFacts(s: seq<int>, f: seq<int>, rest: seq<Segment>, top: Segment, lo: int, hi: int, size: int)
    requires Sorting(s, f, rest + [top], lo, hi, size)
    ensures lo <= top.lo <= top.hi + 1 <= hi + 1 && 0 <= top.d <= 15 && Alike(s, f, top.lo, top.hi, top.d)
    ensures Shallow(rest, size) && 0 <= Work(rest) < Work(rest + [top])
  {
    hide Alike, Settled, Shallow, Work, ByRotation;
    DropMeasures(rest, top, size);
    TopInRange(rest, top, lo, hi);
    assert (rest + [top])[|rest|] == top;
    TopSized(rest, top, size);
  }

  lemma TopSized(rest: seq<Segment>, top: Segment, size: int)
    requires Shallow(rest + [top], size)
    ensures top.Size() >= 0 && 0 <= top.d <= 15
  {
    assert (rest + [top])[|rest|] == top;
  }

  lemma TopSorted(s: seq<int>, f: seq<int>, g: seq<int>, rest: seq<Segment>, top: Segment, lo: int, hi: int, size: int)
    requires Sorting(s, f, rest + [top], lo, hi, size) && Rearranged(f, g, top.lo, top.hi + 1)
    requires RotationsSorted(s, g, top.lo, top.hi)
    ensures Sorting(s, g, rest, lo, hi, size)
  {
    hide Rearranged, Shallow, Alike;
    TopFacts(s, f, rest, top, lo, hi, size);
    Refine(f, g, ByRotation(s), rest, top, [], lo, hi) by { Lengths(f, g, top); }
    DepthsKept(s, f, g, rest, top, [], lo, hi);
    Lengths(f, g, top);
    assert rest + [] == rest;
  }

  lemma Lengths(f: seq<int>, g: seq<int>, top: Segment)
    requires Rearranged(f, g, top.lo, top.hi + 1)
    ensures |f| == |g| && 0 <= top.lo <= top.hi + 1 <= |g|
  {}

  lemma TopSplit(s: seq<int>, block: seq<int>, f: seq<int>, g: seq<int>, rest: seq<Segment>, top: Segment, n: int, m: int, med: int, lo: int, hi: int, size: int)
    requires Sorting(s, f, rest + [top], lo, hi, size) && Rearranged(f, g, top.lo, top.hi + 1)
    requires Extended(block, s) && 0 <= top.d <= DEPTH_THRESH
    requires Indexes(g, block, top.d, top.lo, top.hi + 1) && Parted(g, block, top.d, med, top.lo, n, m, top.hi)
    requires n + 1 < m && (top.lo <= n || m <= top.hi)
    ensures var kids := Parts(top.lo, n, m, top.hi, top.d);
            Sorting(s, g, rest + kids, lo, hi, size) && Work(rest + kids) < Work(rest + [top])
  {
    hide Rearranged, Shallow, Alike, Parts, Parted, Extended, Indexes, Settled, Disjoint, DepthsOk, Work;
    TopFacts(s, f, rest, top, lo, hi, size);
    Lengths(f, g, top);
    AlikeKept(s, f, g, top.lo, top.hi, top.d);
    PartsSettled(s, block, g, top.lo, n, m, top.hi, top.d, med);
    PartedAround(g, block, top.d, med, top.lo, n, m, top.hi);
    var kids := Parts(top.lo, n, m, top.hi, top.d);
    Refine(f, g, ByRotation(s), rest, top, kids, lo, hi);
    DepthsKept(s, f, g, rest, top, kids, lo, hi);
    PartsMeasures(rest, top, n, m, size);
  }

  lemma PartedAround(f: seq<int>, e: seq<int>, d: int, med: int, lo: int, n: int, m: int, hi: int)
    requires Indexes(f, e, d, lo, hi + 1) && Parted(f, e, d, med, lo, n, m, hi)
    ensures lo <= n + 1 <= m <= hi + 1
  {}

  /** All entries agree on one more character: the segment goes one deeper. */
  lemma TopDeeper(s: seq<int>, block: seq<int>, f: seq<int>, g: seq<int>, rest: seq<Segment>, top: Segment, med: int, lo: int, hi: int, size: int)
    requires Sorting(s, f, rest + [top], lo, hi, size) && Rearranged(f, g, top.lo, top.hi + 1)
    requires Extended(block, s) && 0 <= top.d <= DEPTH_THRESH && top.lo <= top.hi
    requires Indexes(g, block, top.d, top.lo, top.hi + 1) && Parted(g, block, top.d, med, top.lo, top.lo - 1, top.hi + 1, top.hi)
    ensures var kids := [Segment(top.lo, top.hi, top.d + 1)];
            Sorting(s, g, rest + kids, lo, hi, size) && Work(rest + kids) < Work(rest + [top])
  {
    hide Rearranged, Shallow, Alike, Parted, Extended, Indexes, Work;
    TopFacts(s, f, rest, top, lo, hi, size);
    Lengths(f, g, top);
    AlikeKept(s, f, g, top.lo, top.hi, top.d);
    PartsAlike(s, block, g, top.lo, top.lo - 1, top.hi + 1, top.hi, top.d, med);
    var kids := [Segment(top.lo, top.hi, top.d + 1)];
    assert kids[0].lo == top.lo && kids[0].hi == top.hi;
    Refine(f, g, ByRotation(s), rest, top, kids, lo, hi);
    DepthsKept(s, f, g, rest, top, kids, lo, hi);
    PushParts(rest, top, kids, size);
    WorkPush(rest, top);
    WorkPush(rest, kids[0]);
    var w := 17 - top.d;
    assert 4 * top.Size() * (w - 1) == 4 * top.Size() * w - 4 * top.Size();
  }

  lemma BlockIndexes(s: seq<int>, block: seq<int>, quadrant: seq<int>, f: seq<int>, lo: int, hi: int, d: nat)
    requires QuadrantsOk(block, quadrant, s) && Alike(s, f, lo, hi, d) && d <= 15
    ensures Extended(block, s) && Indexes(f, block, d, lo, hi + 1)
  {}

  /** One round of the loop of mainQSort3: the segment lo..hi is sorted outright, or partitioned
      by the character at depth d into the parts that remain. */
  method SortOrSplit(ptr: array<int>, block: array<int>, quadrant: array<int>, n: nat, lo: int, hi: int, d: int, budget: int,
                     ghost rest: seq<Segment>, ghost loSt: int, ghost hiSt: int, ghost size: int, ghost s: seq<int>)
    returns (budget': int, kids: seq<Segment>)
    requires ptr != block && ptr != quadrant && |s| == n && QuadrantsOk(block[..], quadrant[..], s) && size <= 900000
    requires Sorting(s, ptr[..], rest + [Segment(lo, hi, d)], loSt, hiSt, size) && hiSt - loSt < 900000
    modifies ptr
    ensures 0 <= lo <= hi + 1 <= ptr.Length && Rearranged(old(ptr[..]), ptr[..], lo, hi + 1)
    ensures |kids| <= 3 && budget' <= budget
    ensures budget' >= 0 ==> Sorting(s, ptr[..], rest + kids, loSt, hiSt, size)
    ensures budget' >= 0 ==> 0 <= Work(rest + kids) < Work(rest + [Segment(lo, hi, d)])
  {
    hide Rearranged, Sorting, Work, Alike, Parted, QuadrantsOk, Extended, Indexes, RotationsSorted, Parts;
    ghost var top, f := Segment(lo, hi, d), ptr[..];
    TopFacts(s, f, rest, top, loSt, hiSt, size);
    LengthOf(s, f, rest + [top], loSt, hiSt, size);
    budget', kids := budget, [];
    assert rest + [] == rest;
    if hi - lo < SMALL_THRESH || d > DEPTH_THRESH {
      budget' := SimpleSort(ptr, block, quadrant, n, lo, hi, d, budget, s);
      if budget' >= 0 { TopSorted(s, f, ptr[..], rest, top, loSt, hiSt, size); }
      return;
    }
    BlockIndexes(s, block[..], quadrant[..], f, lo, hi, d);
    SomeKey(f, block[..], d, lo, hi, lo);
    SomeKey(f, block[..], d, lo, hi, hi);
    SomeKey(f, block[..], d, lo, hi, (lo + hi) / 2);
    var med := Med3(block[ptr[lo] + d], block[ptr[hi] + d], block[ptr[(lo + hi) / 2] + d]);
    ghost var at := if med == block[ptr[lo] + d] then lo else if med == block[ptr[hi] + d] then hi else (lo + hi) / 2;
    var done, n', m := Partition(ptr, block, d, lo, hi, med, at);
    PartedAround(ptr[..], block[..], d, med, lo, n', m, hi);
    if done {
      kids := [Segment(lo, hi, d + 1)];
      TopDeeper(s, block[..], f, ptr[..], rest, top, med, loSt, hiSt, size);
    } else {
      kids := Parts(lo, n', m, hi, d);
      TopSplit(s, block[..], f, ptr[..], rest, top, n', m, med, loSt, hiSt, size);
    }
    SortingWork(s, ptr[..], rest + kids, loSt, hiSt, size);
  }

  lemma LengthOf(s: seq<int>, f: seq<int>, st: seq<Segment>, lo: int, hi: int, size: int)
    requires Sorting(s, f, st, lo, hi, size)
    ensures 0 <= lo <= hi < |f|
  {}

  lemma SortingWork(s: seq<int>, f: seq<int>, st: seq<Segment>, lo: int, hi: int, size: int)
    requires Sorting(s, f, st, lo, hi, size)
    ensures Work(st) >= 0
  {}

  lemma SortingStart(s: seq<int>, f: seq<int>, lo: int, hi: int, d: nat)
    requires 0 <= lo <= hi < |f| && Alike(s, f, lo, hi, d) && d <= 15
    ensures Sorting(s, f, [Segment(lo, hi, d)], lo, hi, hi - lo + 1)
  {
    hide Alike;
    var st := [Segment(lo, hi, d)];
    assert st[0].lo == lo && st[0].hi == hi;
    assert Pow2((0 + 1) / 2) == 1;
  }

  lemma SortingEnd(s: seq<int>, f: seq<int>, f0: seq<int>, lo: int, hi: int, d: nat, size: int)
    requires Alike(s, f0, lo, hi, d) && Rearranged(f0, f, lo, hi + 1) && Sorting(s, f, [], lo, hi, size)
    ensures RotationsSorted(s, f, lo, hi)
  {
    AlikeKept(s, f0, f, lo, hi, d);
  }

  /** The stack arrays hold the segments st. */
  ghost predicate OnStack(stackLo: seq<int>, stackHi: seq<int>, stackD: seq<int>, sp: int, st: seq<Segment>)
  {
    && sp == |st| <= |stackLo| == |stackHi| == |stackD|
    && forall t | 0 <= t < sp :: st[t] == Segment(stackLo[t], stackHi[t], stackD[t])
  }

  /** mpush for each part in turn. */
  method PushAll(stackLo: array<int>, stackHi: array<int>, stackD: array<int>, sp: nat, ghost rest: seq<Segment>, kids: seq<Segment>)
    requires stackLo != stackHi && stackLo != stackD && stackHi != stackD
    requires stackLo.Length == stackHi.Length == stackD.Length && sp + |kids| <= stackLo.Length
    requires OnStack(stackLo[..], stackHi[..], stackD[..], sp, rest)
    modifies stackLo, stackHi, stackD
    ensures OnStack(stackLo[..], stackHi[..], stackD[..], sp + |kids|, rest + kids)
  {
    for k := 0 to |kids|
      invariant OnStack(stackLo[..], stackHi[..], stackD[..], sp + k, rest + kids[..k])
    {
      stackLo[sp + k], stackHi[sp + k], stackD[sp + k] := kids[k].lo, kids[k].hi, kids[k].d;
    }
    assert kids[..|kids|] == kids;
  }

  /** mainQSort3: sorts the rotations ptr[loSt..hiSt], which agree on their first dSt characters,
      unless the budget runs out; it never needs more than 43 of the 100 stack places. */
  method QSort3(ptr: array<int>, block: array<int>, quadrant: array<int>, n: nat, loSt: int, hiSt: int, dSt: nat,
                budget: int, ghost s: seq<int>) returns (budget': int)
    requires ptr != block && ptr != quadrant && |s| == n && QuadrantsOk(block[..], quadrant[..], s)
    requires 0 <= loSt <= hiSt < ptr.Length && hiSt - loSt < 900000
    requires Alike(s, ptr[..], loSt, hiSt, dSt) && dSt <= 15
    modifies ptr
    ensures Rearranged(old(ptr[..]), ptr[..], loSt, hiSt + 1)
    ensures budget' <= budget
    ensures budget' >= 0 ==> RotationsSorted(s, ptr[..], loSt, hiSt)
  {
    hide Rearranged, Sorting, Work, Alike, QuadrantsOk, RotationsSorted;
    ghost var f0, size := ptr[..], hiSt - loSt + 1;
    var stackLo, stackHi, stackD := new int[STACK_SIZE], new int[STACK_SIZE], new int[STACK_SIZE];
    var sp := 0;
    stackLo[sp], stackHi[sp], stackD[sp] := loSt, hiSt, dSt;
    sp := sp + 1;
    budget' := budget;
    ghost var st := [Segment(loSt, hiSt, dSt)];
    SortingStart(s, f0, loSt, hiSt, dSt);
    Reflexive(f0, loSt, hiSt + 1);
    while sp > 0
      invariant OnStack(stackLo[..], stackHi[..], stackD[..], sp, st) && budget' <= budget
      invariant Rearranged(f0, ptr[..], loSt, hiSt + 1) && Sorting(s, ptr[..], st, loSt, hiSt, size)
      decreases Work(st)
    {
      SortingBound(s, ptr[..], st, loSt, hiSt, size);
      assert sp < STACK_SIZE - 2;                      // AssertH 1001
      sp := sp - 1;
      var lo, hi, d := stackLo[sp], stackHi[sp], stackD[sp];
      ghost var rest, f := st[..sp], ptr[..];
      assert st == rest + [Segment(lo, hi, d)];
      TopFacts(s, f, rest, Segment(lo, hi, d), loSt, hiSt, size);
      var kids;
      budget', kids := SortOrSplit(ptr, block, quadrant, n, lo, hi, d, budget', rest, loSt, hiSt, size, s);
      WidenTo(f0, f, ptr[..], lo, hi, loSt, hiSt);
      if budget' < 0 { return; }
      st := rest + kids;
      PushAll(stackLo, stackHi, stackD, sp, rest, kids);
      sp := sp + |kids|;
    }
    SortingEnd(s, ptr[..], f0, loSt, hiSt, dSt, size);
  }

  lemma SortingBound(s: seq<int>, f: seq<int>, st: seq<Segment>, lo: int, hi: int, size: int)
    requires Sorting(s, f, st, lo, hi, size) && size <= 900000
    ensures |st| <= 43
  {
    StackBound(st, size);
  }

  lemma WidenTo(f0: seq<int>, f: seq<int>, g: seq<int>, lo: int, hi: int, loSt: int, hiSt: int)
    requires 0 <= loSt <= lo <= hi + 1 <= hiSt + 1 <= |f|
    requires Rearranged(f0, f, loSt, hiSt + 1) && Rearranged(f, g, lo, hi + 1)
    ensures Rearranged(f0, g, loSt, hiSt + 1)
  {
    Widen(f, g, lo, hi + 1, loSt, hiSt + 1);
    Transitive(f0, f, g, loSt, hiSt + 1);
  }
}

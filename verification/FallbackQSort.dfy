/** The quicksort that the fallback block sort runs on each unsorted bucket: it permutes
    fmap[loSt..hiSt] so that the classes eclass[fmap[i]] come out in order. */
module FallbackQSort {
  import opened Bits
  import opened Rotations
  import opened Rearrange
  import opened ThreeWay
  import opened SegmentStack

  const STACK_SIZE := 100
  const SMALL_THRESH := 10

  ghost predicate SortedBy(f: seq<int>, e: seq<int>, lo: int, hi: int)
    requires Indexes(f, e, 0, lo, hi)
  {
    forall a, b | lo <= a < b < hi :: e[f[a]] <= e[f[b]]
  }

  lemma {:induction false} AdjacentSorted(f: seq<int>, e: seq<int>, lo: int, hi: int, a: int, b: int)
    requires Indexes(f, e, 0, lo, hi) && lo <= a <= b < hi
    requires forall i | lo <= i && i + 1 < hi :: e[f[i]] <= e[f[i + 1]]
    ensures e[f[a]] <= e[f[b]]
    decreases b
  {
    if a < b { AdjacentSorted(f, e, lo, hi, a, b - 1); }
  }

  /** Entries h apart are in order from i to hi, except that the one at p, which is being
      inserted, may be larger than its successor. */
  ghost predicate Inserting(f: seq<int>, e: seq<int>, i: int, p: int, hi: int, h: int)
    requires Indexes(f, e, 0, i, hi + 1) && h > 0
  {
    && i <= p <= hi
    && (forall a, b | i <= a < b <= hi && b == a + h && a != p :: e[f[a]] <= e[f[b]])
    && (i <= p - h && p + h <= hi ==> e[f[p - h]] <= e[f[p + h]])
  }

  lemma InsertStep(f: seq<int>, e: seq<int>, i: int, p: int, hi: int, h: int, f0: seq<int>, lo: int)
    requires h > 0 && lo <= i <= hi && Indexes(f, e, 0, lo, hi + 1) && Inserting(f, e, i, p, hi, h)
    requires p + h <= hi && e[f[p]] > e[f[p + h]]
    requires Rearranged(f0, f, lo, hi + 1)
    ensures var g := Swapped(f, p, p + h);
            && Rearranged(f0, g, lo, hi + 1) && Indexes(g, e, 0, lo, hi + 1)
            && Inserting(g, e, i, p + h, hi, h)
  {
    hide Rearranged;
    Swap(f0, f, p, p + h, lo, hi + 1);
    var g := Swapped(f, p, p + h);
    forall a, b | i <= a < b <= hi && b == a + h && a != p + h ensures e[g[a]] <= e[g[b]] {
      assert a != p ==> e[f[a]] <= e[f[b]];
    }
  }

  /** Moves the entry at i up in steps of h until it is no larger than its successor. */
  method InsertOne(fmap: array<int>, eclass: array<int>, ghost lo: int, hi: int, h: int, i: int)
    requires fmap != eclass && h > 0 && 0 <= lo <= i <= hi - h
    requires Indexes(fmap[..], eclass[..], 0, lo, hi + 1) && Inserting(fmap[..], eclass[..], i, i, hi, h)
    modifies fmap
    ensures Rearranged(old(fmap[..]), fmap[..], lo, hi + 1)
    ensures Indexes(fmap[..], eclass[..], 0, lo, hi + 1) && StrideSorted(fmap[..], eclass[..], i, hi, h)
  {
    hide Rearranged, Inserting, Swapped;
    ghost var f0, e, full := fmap[..], eclass[..], fmap[..];
    Reflexive(f0, lo, hi + 1);
    var tmp := fmap[i];
    var ecTmp := eclass[tmp];
    var j := i + h;
    while j <= hi && ecTmp > eclass[fmap[j]]
      invariant i <= j - h <= hi
      invariant |full| == fmap.Length && full[j - h] == tmp
      invariant forall x | 0 <= x < |full| && x != j - h :: full[x] == fmap[x]
      invariant Rearranged(f0, full, lo, hi + 1)
      invariant Indexes(full, e, 0, lo, hi + 1) && Inserting(full, e, i, j - h, hi, h)
    {
      InsertStep(full, e, i, j - h, hi, h, f0, lo);
      full := Swapped(full, j - h, j);
      fmap[j - h] := fmap[j];
      j := j + h;
    }
    InsertDone(full, e, i, j - h, hi, h);
    fmap[j - h] := tmp;
    assert fmap[..] == full;
  }

  lemma InsertDone(f: seq<int>, e: seq<int>, i: int, p: int, hi: int, h: int)
    requires Indexes(f, e, 0, i, hi + 1) && h > 0 && Inserting(f, e, i, p, hi, h)
    requires p + h <= hi ==> e[f[p]] <= e[f[p + h]]
    ensures StrideSorted(f, e, i, hi, h)
  {}

  /** From i to hi, entries h apart are in order. */
  ghost predicate StrideSorted(f: seq<int>, e: seq<int>, i: int, hi: int, h: int)
    requires Indexes(f, e, 0, i, hi + 1)
  {
    forall a, b | i <= a < b <= hi && b == a + h :: e[f[a]] <= e[f[b]]
  }

  /** One insertion pass with stride h: entries h apart end up in order. */
  method InsertionPass(fmap: array<int>, eclass: array<int>, lo: int, hi: int, h: int)
    requires fmap != eclass && h > 0
    requires Indexes(fmap[..], eclass[..], 0, lo, hi + 1)
    modifies fmap
    ensures Rearranged(old(fmap[..]), fmap[..], lo, hi + 1)
    ensures Indexes(fmap[..], eclass[..], 0, lo, hi + 1)
    ensures StrideSorted(fmap[..], eclass[..], lo, hi, h)
  {
    hide Rearranged;
    ghost var f0 := fmap[..];
    Reflexive(f0, lo, hi + 1);
    var i := hi - h;
    while i >= lo
      invariant i <= hi - h
      invariant Rearranged(f0, fmap[..], lo, hi + 1)
      invariant Indexes(fmap[..], eclass[..], 0, lo, hi + 1)
      invariant hi - h < lo || i == hi - h || lo <= i + 1
      invariant lo <= i + 1 <= hi ==> StrideSorted(fmap[..], eclass[..], i + 1, hi, h)
    {
      ghost var f := fmap[..];
      InsertOne(fmap, eclass, lo, hi, h, i);
      Transitive(f0, f, fmap[..], lo, hi + 1);
      i := i - 1;
    }
  }

  method SimpleSort(fmap: array<int>, eclass: array<int>, lo: int, hi: int)
    requires fmap != eclass
    requires Indexes(fmap[..], eclass[..], 0, lo, hi + 1)
    modifies fmap
    ensures Rearranged(old(fmap[..]), fmap[..], lo, hi + 1)
    ensures Indexes(fmap[..], eclass[..], 0, lo, hi + 1)
    ensures SortedBy(fmap[..], eclass[..], lo, hi + 1)
  {
    if lo == hi { return; }
    if hi - lo > 3 {
      InsertionPass(fmap, eclass, lo, hi, 4);
    }
    InsertionPass(fmap, eclass, lo, hi, 1);
    forall a, b | lo <= a < b < hi + 1
      ensures eclass[..][fmap[..][a]] <= eclass[..][fmap[..][b]]
    {
      AdjacentSorted(fmap[..], eclass[..], lo, hi + 1, a, b);
    }
  }

  // ---- The quicksort ----

  ghost function ByClass(e: seq<int>): (int, int) -> bool
  {
    (x: int, y: int) => 0 <= x < |e| && 0 <= y < |e| ==> e[x] <= e[y]
  }

  /** A sorted segment needs no further work. */
  lemma DropTop(f: seq<int>, g: seq<int>, e: seq<int>, rest: seq<Segment>, top: Segment, lo: int, hi: int)
    requires 0 <= lo <= top.lo <= top.hi + 1 <= hi + 1 <= |f| == |g|
    requires Disjoint(rest + [top], lo, hi) && Settled(f, ByClass(e), rest + [top], lo, hi)
    requires Rearranged(f, g, top.lo, top.hi + 1)
    requires Indexes(g, e, 0, top.lo, top.hi + 1) && SortedBy(g, e, top.lo, top.hi + 1)
    ensures Disjoint(rest, lo, hi) && Settled(g, ByClass(e), rest, lo, hi)
  {
    hide Rearranged;
    Refine(f, g, ByClass(e), rest, top, [], lo, hi);
    assert rest + [] == rest;
  }

  /** The two outer parts of a partition, larger one first. */
  function Parts(lo: int, n: int, m: int, hi: int): seq<Segment> {
    if n - lo > hi - m then [Segment(lo, n, 0), Segment(m, hi, 0)]
    else [Segment(m, hi, 0), Segment(lo, n, 0)]
  }

  lemma SplitTop(f: seq<int>, g: seq<int>, e: seq<int>, rest: seq<Segment>, top: Segment, med: int, n: int, m: int, lo: int, hi: int, size: int)
    requires 0 <= lo <= top.lo <= top.hi <= hi < |f| == |g| && top.d == 0
    requires Disjoint(rest + [top], lo, hi) && Settled(f, ByClass(e), rest + [top], lo, hi)
    requires Rearranged(f, g, top.lo, top.hi + 1) && Shallow(rest + [top], size)
    requires Indexes(g, e, 0, top.lo, top.hi + 1) && Parted(g, e, 0, med, top.lo, n, m, top.hi) && n + 1 < m
    requires top.lo <= n || m <= top.hi
    ensures var kids := Parts(top.lo, n, m, top.hi);
            && Disjoint(rest + kids, lo, hi) && Settled(g, ByClass(e), rest + kids, lo, hi)
            && Shallow(rest + kids, size) && Work(rest + kids) < Work(rest + [top])
  {
    hide Rearranged;
    var kids, le := Parts(top.lo, n, m, top.hi), ByClass(e);
    forall a, b | top.lo <= a < b <= top.hi ensures InSame(kids, a, b) || le(g[a], g[b]) {
      if b <= n || m <= a {
        var t := if (b <= n) == (n - top.lo > top.hi - m) then 0 else 1;
        assert kids[t].lo <= a && b <= kids[t].hi;
      }
    }
    Refine(f, g, le, rest, top, kids, lo, hi);
    SplitMeasures(rest, top, n, m, size);
  }

  lemma SplitMeasures(rest: seq<Segment>, top: Segment, n: int, m: int, size: int)
    requires Shallow(rest + [top], size) && top.d == 0
    requires top.lo <= n + 1 < m <= top.hi + 1 && (top.lo <= n || m <= top.hi)
    ensures var kids := Parts(top.lo, n, m, top.hi);
            Shallow(rest + kids, size) && Work(rest + kids) < Work(rest + [top])
  {
    hide Shallow;
    var kids := Parts(top.lo, n, m, top.hi);
    PushParts(rest, top, kids, size);
    WorkPush(rest, top);
    PushBoth(rest, kids[0], kids[1]);
    assert kids == [kids[0], kids[1]];
  }

  lemma PushBoth(rest: seq<Segment>, s: Segment, t: Segment)
    requires s.d == 0 && t.d == 0
    ensures Work(rest + [s, t]) == Work(rest) + 68 * (s.Size() + t.Size()) + 2
  {
    WorkPush(rest, s);
    WorkPush(rest + [s], t);
    assert rest + [s, t] == rest + [s] + [t];
  }

  lemma AllEqualSorted(f: seq<int>, e: seq<int>, med: int, lo: int, hi: int)
    requires Indexes(f, e, 0, lo, hi + 1) && Parted(f, e, 0, med, lo, lo - 1, hi + 1, hi)
    ensures SortedBy(f, e, lo, hi + 1)
  {}

  lemma StartStack(f: seq<int>, e: seq<int>, lo: int, hi: int)
    requires 0 <= lo <= hi < |f|
    ensures var st := [Segment(lo, hi, 0)];
            Disjoint(st, lo, hi) && Settled(f, ByClass(e), st, lo, hi) && Shallow(st, hi - lo + 1)
  {
    var st := [Segment(lo, hi, 0)];
    assert st[0].lo == lo && st[0].hi == hi;
    assert Pow2((0 + 1) / 2) == 1;
  }

  /** Assertion 1004 never fires: the stack of segments st fits its 100 places. */
  ghost predicate OnStack(stackLo: seq<int>, stackHi: seq<int>, sp: int, st: seq<Segment>)
  {
    && sp == |st| <= |stackLo| == |stackHi|
    && forall t | 0 <= t < sp :: st[t] == Segment(stackLo[t], stackHi[t], 0)
  }

  /** A pivot by the pseudo-random number after r. */
  method PickPivot(r: int, lo: int, hi: int) returns (r': int, at: int)
    requires 0 <= r < 32768 && lo <= hi
    ensures 0 <= r' < 32768 && lo <= at <= hi
  {
    r' := (r * 7621 + 1) % 32768;
    var r3 := r' % 3;
    at := if r3 == 0 then lo else if r3 == 1 then (lo + hi) / 2 else hi;
  }

  /** One round of the loop of fallbackQSort3: the segment lo..hi is sorted outright, or
      partitioned into the parts that remain. */
  method SortOrSplit(fmap: array<int>, eclass: array<int>, lo: int, hi: int, r: int,
                     ghost rest: seq<Segment>, ghost loSt: int, ghost hiSt: int, ghost size: int)
    returns (r': int, done: bool, n: int, m: int, ghost kids: seq<Segment>)
    requires fmap != eclass && 0 <= r < 32768 && 0 <= loSt <= lo <= hi + 1 <= hiSt + 1
    requires Indexes(fmap[..], eclass[..], 0, loSt, hiSt + 1)
    requires var st := rest + [Segment(lo, hi, 0)];
             Disjoint(st, loSt, hiSt) && Shallow(st, size) && Settled(fmap[..], ByClass(eclass[..]), st, loSt, hiSt)
    modifies fmap
    ensures 0 <= r' < 32768 && kids == if done then [] else Parts(lo, n, m, hi)
    ensures Rearranged(old(fmap[..]), fmap[..], lo, hi + 1)
    ensures Indexes(fmap[..], eclass[..], 0, loSt, hiSt + 1)
    ensures Disjoint(rest + kids, loSt, hiSt) && Settled(fmap[..], ByClass(eclass[..]), rest + kids, loSt, hiSt)
    ensures Shallow(rest + kids, size) && 0 <= Work(rest + kids) < Work(rest + [Segment(lo, hi, 0)])
  {
    hide Rearranged, Settled, Disjoint, Shallow, Parted, SortedBy, Work, ByClass;
    ghost var top, f, e := Segment(lo, hi, 0), fmap[..], eclass[..];
    DropMeasures(rest, top, size);
    assert rest + [] == rest;
    r', kids := r, [];
    if hi - lo < SMALL_THRESH {
      SimpleSort(fmap, eclass, lo, hi);
      done, n, m := true, lo, hi;
    } else {
      var at;
      r', at := PickPivot(r, lo, hi);
      var med := eclass[fmap[at]];
      done, n, m := Partition(fmap, eclass, 0, lo, hi, med, at);
      PartedBounds(fmap[..], e, med, lo, n, m, hi);
      if done {
        AllEqualSorted(fmap[..], e, med, lo, hi);
      } else {
        SplitTop(f, fmap[..], e, rest, top, med, n, m, loSt, hiSt, size);
        kids := Parts(lo, n, m, hi);
        WorkNotNegative(rest + kids, size);
      }
    }
    IndexesKept(f, fmap[..], e, 0, lo, hi + 1, loSt, hiSt + 1);
    if done {
      DropTop(f, fmap[..], e, rest, top, loSt, hiSt);
    }
  }

  lemma WorkNotNegative(st: seq<Segment>, size: int)
    requires Shallow(st, size)
    ensures Work(st) >= 0
  {}

  /** fallbackQSort3: sorts fmap[loSt..hiSt] by class, never needing more than 43 stack entries. */
  method QSort3(fmap: array<int>, eclass: array<int>, loSt: int, hiSt: int)
    requires fmap != eclass && 0 <= loSt <= hiSt && hiSt - loSt < 0x100000
    requires Indexes(fmap[..], eclass[..], 0, loSt, hiSt + 1)
    modifies fmap
    ensures Rearranged(old(fmap[..]), fmap[..], loSt, hiSt + 1)
    ensures Indexes(fmap[..], eclass[..], 0, loSt, hiSt + 1)
    ensures SortedBy(fmap[..], eclass[..], loSt, hiSt + 1)
  {
    hide Rearranged, Settled, Disjoint, Shallow, SortedBy, Work;
    ghost var f0, e, size := fmap[..], eclass[..], hiSt - loSt + 1;
    var stackLo, stackHi := new int[STACK_SIZE], new int[STACK_SIZE];
    var r, sp := 0, 0;
    ghost var st := [Segment(loSt, hiSt, 0)];
    stackLo[sp], stackHi[sp] := loSt, hiSt;
    sp := sp + 1;
    StartStack(f0, e, loSt, hiSt);
    Reflexive(f0, loSt, hiSt + 1);
    while sp > 0
      invariant 0 <= r < 32768 && OnStack(stackLo[..], stackHi[..], sp, st) && sp <= STACK_SIZE
      invariant Rearranged(f0, fmap[..], loSt, hiSt + 1) && Indexes(fmap[..], e, 0, loSt, hiSt + 1)
      invariant Disjoint(st, loSt, hiSt) && Settled(fmap[..], ByClass(e), st, loSt, hiSt) && Shallow(st, size)
      decreases Work(st)
    {
      StackBound(st, size);
      assert sp < STACK_SIZE - 1;                      // AssertH 1004
      sp := sp - 1;
      var lo, hi := stackLo[sp], stackHi[sp];
      ghost var rest, f, kids := st[..sp], fmap[..], [];
      assert st == rest + [Segment(lo, hi, 0)];
      TopInRange(rest, Segment(lo, hi, 0), loSt, hiSt);
      var done, n, m;
      r, done, n, m, kids := SortOrSplit(fmap, eclass, lo, hi, r, rest, loSt, hiSt, size);
      Within(f0, f, fmap[..], e, lo, hi, loSt, hiSt);
      st := rest + kids;
      if !done { PushTwo(stackLo, stackHi, sp, lo, n, m, hi, rest); }
      sp := if done then sp else sp + 2;
    }
    NothingLeft(fmap[..], e, loSt, hiSt);
  }

  /** Puts both parts on the stack, the larger one first. */
  method PushTwo(stackLo: array<int>, stackHi: array<int>, sp: int, lo: int, n: int, m: int, hi: int, ghost rest: seq<Segment>)
    requires stackLo != stackHi && stackLo.Length == stackHi.Length && sp + 1 < stackLo.Length && OnStack(stackLo[..], stackHi[..], sp, rest)
    modifies stackLo, stackHi
    ensures OnStack(stackLo[..], stackHi[..], sp + 2, rest + Parts(lo, n, m, hi))
  {
    if n - lo > hi - m {
      stackLo[sp], stackHi[sp] := lo, n;
      stackLo[sp + 1], stackHi[sp + 1] := m, hi;
    } else {
      stackLo[sp], stackHi[sp] := m, hi;
      stackLo[sp + 1], stackHi[sp + 1] := lo, n;
    }
  }

  lemma Within(f0: seq<int>, f: seq<int>, g: seq<int>, e: seq<int>, lo: int, hi: int, loSt: int, hiSt: int)
    requires 0 <= loSt <= lo <= hi + 1 <= hiSt + 1 <= |f|
    requires Rearranged(f0, f, loSt, hiSt + 1) && Rearranged(f, g, lo, hi + 1)
    requires Indexes(f, e, 0, loSt, hiSt + 1)
    ensures Rearranged(f0, g, loSt, hiSt + 1) && Indexes(g, e, 0, loSt, hiSt + 1)
  {
    Widen(f, g, lo, hi + 1, loSt, hiSt + 1);
    Transitive(f0, f, g, loSt, hiSt + 1);
    IndexesKept(f, g, e, 0, loSt, hiSt + 1, loSt, hiSt + 1);
  }

  lemma PartedBounds(f: seq<int>, e: seq<int>, med: int, lo: int, n: int, m: int, hi: int)
    requires Indexes(f, e, 0, lo, hi + 1) && Parted(f, e, 0, med, lo, n, m, hi)
    ensures lo <= n + 1 <= m <= hi + 1
  {}

  lemma NothingLeft(f: seq<int>, e: seq<int>, lo: int, hi: int)
    requires 0 <= lo <= hi < |f| && Indexes(f, e, 0, lo, hi + 1) && Settled(f, ByClass(e), [], lo, hi)
    ensures SortedBy(f, e, lo, hi + 1)
  {}
}

/** Step 2 of the main block sort: scanning the big bucket of character c from both ends writes,
    for every character t, the bucket [t, c] in sorted order, and the two scans meet exactly. */
module CopyScan {
  import opened Rotations
  import opened BurrowsWheeler
  import opened MainQSort
  import opened PairBuckets

  // ---- On which side of a run of c the next other character lies ----

  /** After m more characters c, rotation r reaches a character above (up) or below c. */
  ghost predicate RunTo(s: seq<int>, c: int, r: nat, m: nat, up: bool)
    requires r < |s|
    decreases m
  {
    var x := Next(|s|, r);
    if m == 0 then (if up then s[x] > c else s[x] < c) else s[x] == c && RunTo(s, c, x, m - 1, up)
  }

  ghost predicate Goes(s: seq<int>, c: int, r: nat, up: bool)
    requires r < |s|
  {
    exists m: nat :: RunTo(s, c, r, m, up)
  }

  lemma {:induction false} RunsExclude(s: seq<int>, c: int, r: nat, m: nat, m': nat)
    requires r < |s| && RunTo(s, c, r, m, true)
    ensures !RunTo(s, c, r, m', false)
    decreases m
  {
    if m > 0 && m' > 0 { RunsExclude(s, c, Next(|s|, r), m - 1, m' - 1); }
  }

  lemma GoesOneWay(s: seq<int>, c: int, r: nat)
    requires r < |s|
    ensures !(Goes(s, c, r, true) && Goes(s, c, r, false))
  {
    if Goes(s, c, r, true) {
      var m: nat :| RunTo(s, c, r, m, true);
      forall m': nat ensures !RunTo(s, c, r, m', false) { RunsExclude(s, c, r, m, m'); }
    }
  }

  lemma GoesBefore(s: seq<int>, c: int, r: nat, up: bool)
    requires r < |s| && s[r] == c && Goes(s, c, r, up)
    ensures Goes(s, c, Prev(|s|, r), up)
  {
    var m: nat :| RunTo(s, c, r, m, up);
    assert RunTo(s, c, Prev(|s|, r), m + 1, up);
  }

  /** A rotation that goes neither way is followed by nothing but c. */
  lemma {:induction false} GoesNowhere(s: seq<int>, c: int, r: nat, h: nat)
    requires r < |s| && !Goes(s, c, r, true) && !Goes(s, c, r, false) && 0 < h <= |s|
    ensures s[Shift(|s|, r, h)] == c
    decreases h
  {
    var x := Next(|s|, r);
    assert !RunTo(s, c, r, 0, true) && !RunTo(s, c, r, 0, false);
    if h > 1 {
      forall up: bool ensures !Goes(s, c, x, up) {
        if Goes(s, c, x, up) {
          var m: nat :| RunTo(s, c, x, m, up);
          assert RunTo(s, c, r, m + 1, up);
        }
      }
      GoesNowhere(s, c, x, h - 1);
    }
  }

  /** Unless the block holds nothing but c, every rotation goes up or down. */
  lemma GoesSomewhere(s: seq<int>, c: int, r: nat, y: nat)
    requires r < |s| && y < |s| && s[y] != c
    ensures Goes(s, c, r, true) || Goes(s, c, r, false)
  {
    if !Goes(s, c, r, true) && !Goes(s, c, r, false) {
      GoesNowhere(s, c, r, if r < y then y - r else y + |s| - r);
    }
  }

  /** A run of c that goes down is smaller than one that goes up. */
  lemma {:induction false} DownBelowUp(s: seq<int>, c: int, r: nat, m: nat, r': nat, m': nat, h: nat)
    requires r < |s| && r' < |s| && s[r] == c == s[r']
    requires RunTo(s, c, r, m, false) && RunTo(s, c, r', m', true)
    ensures Le(s, r, r', h)
    decreases h
  {
    if h > 1 && m > 0 && m' > 0 { DownBelowUp(s, c, Next(|s|, r), m - 1, Next(|s|, r'), m' - 1, h - 1); }
  }

  lemma DownBeforeUp(s: seq<int>, c: int, r: nat, r': nat)
    requires r < |s| && r' < |s| && s[r] == c == s[r'] && Goes(s, c, r, false) && Goes(s, c, r', true)
    ensures Le(s, r, r', |s|)
  {
    var m: nat :| RunTo(s, c, r, m, false);
    var m': nat :| RunTo(s, c, r', m', true);
    DownBelowUp(s, c, r, m, r', m', |s|);
  }

  /** Putting the same character in front keeps the order. */
  lemma ConsOrder(s: seq<int>, x: nat, y: nat)
    requires x < |s| && y < |s| && s[x] == s[y]
    requires Le(s, Next(|s|, x), Next(|s|, y), |s|)
    ensures Le(s, x, y, |s|)
  {
    Deepen(s, Next(|s|, y), Next(|s|, x), |s| - 1, |s|);
  }

  // ---- Regions filled from a set of visited rotations ----

  /** The rotations that start with t and continue with a visited one. */
  ghost function Preds(s: seq<int>, v: set<int>, t: int): set<int>
  {
    set x: int | 0 <= x < |s| && s[x] == t && Next(|s|, x) in v
  }

  lemma PredsAdd(s: seq<int>, v: set<int>, t: int, r: nat)
    requires r < |s|
    ensures Preds(s, v + {r}, t) == Preds(s, v, t) + (if s[Prev(|s|, r)] == t then {Prev(|s|, r) as int} else {})
    ensures Prev(|s|, r) in Preds(s, v, t) <==> r in v && s[Prev(|s|, r)] == t
  {}

  /** Rows lo .. hi - 1 hold the predecessors starting with t of the visited rotations, each
      once and in order. */
  ghost predicate Filled(s: seq<int>, f: seq<int>, v: set<int>, t: int, lo: int, hi: int)
  {
    && 0 <= lo <= hi <= |f| && Span(f, lo, hi) == Preds(s, v, t) && |Preds(s, v, t)| == hi - lo
    && RotationsSorted(s, f, lo, hi - 1)
  }

  lemma FilledNone(s: seq<int>, f: seq<int>, t: int, lo: int)
    requires 0 <= lo <= |f|
    ensures Filled(s, f, {}, t, lo, lo)
  {
    assert Preds(s, {}, t) == {} == Span(f, lo, lo);
  }

  lemma FilledMember(s: seq<int>, f: seq<int>, v: set<int>, t: int, lo: int, hi: int, a: int)
    requires Filled(s, f, v, t, lo, hi) && lo <= a < hi
    ensures 0 <= f[a] < |s| && s[f[a]] == t && Next(|s|, f[a]) in v
  {
    assert f[a] in Span(f, lo, hi);
  }

  lemma SpanUpdate(f: seq<int>, lo: nat, hi: nat, pos: nat, k: int)
    requires lo <= hi <= |f| && pos < |f|
    ensures pos < lo || hi <= pos ==> Span(f[pos := k], lo, hi) == Span(f, lo, hi)
    ensures pos == hi ==> Span(f[pos := k], lo, hi + 1) == Span(f, lo, hi) + {k}
    ensures pos + 1 == lo ==> Span(f[pos := k], pos, hi) == Span(f, lo, hi) + {k}
  {
    var g := f[pos := k];
    if pos < lo || hi <= pos {
      assert forall a | lo <= a < hi :: g[a] == f[a];
    }
    if pos == hi || pos + 1 == lo {
      assert g[pos] == k && forall a | lo <= a < hi :: g[a] == f[a];
      assert pos == hi ==> k in Span(g, lo, hi + 1);
      assert pos + 1 == lo ==> k in Span(g, pos, hi);
    }
  }

  /** One more visited rotation, not smaller than the others, extends the region upwards. */
  lemma FillAbove(s: seq<int>, f: seq<int>, v: set<int>, t: int, lo: int, hi: int, r: nat)
    requires Filled(s, f, v, t, lo, hi) && hi < |f| && r < |s| && r !in v && s[Prev(|s|, r)] == t
    requires forall x | x in v :: 0 <= x < |s| && Le(s, x, r, |s|)
    ensures Filled(s, f[hi := Prev(|s|, r)], v + {r}, t, lo, hi + 1)
  {
    var k := Prev(|s|, r);
    var g := f[hi := k];
    PredsAdd(s, v, t, r);
    SpanUpdate(f, lo, hi, hi, k);
    forall a | lo <= a < hi ensures Le(s, g[a], g[hi], |s|) {
      FilledMember(s, f, v, t, lo, hi, a);
      ConsOrder(s, f[a], k);
    }
  }

  /** One more visited rotation, not larger than the others, extends the region downwards. */
  lemma FillBelow(s: seq<int>, f: seq<int>, v: set<int>, t: int, lo: int, hi: int, r: nat)
    requires Filled(s, f, v, t, lo, hi) && 0 < lo && r < |s| && r !in v && s[Prev(|s|, r)] == t
    requires forall x | x in v :: 0 <= x < |s| && Le(s, r, x, |s|)
    ensures Filled(s, f[lo - 1 := Prev(|s|, r)], v + {r}, t, lo - 1, hi)
  {
    var k := Prev(|s|, r);
    var g := f[lo - 1 := k];
    PredsAdd(s, v, t, r);
    SpanUpdate(f, lo, hi, lo - 1, k);
    forall a | lo <= a < hi ensures Le(s, g[lo - 1], g[a], |s|) {
      FilledMember(s, f, v, t, lo, hi, a);
      ConsOrder(s, k, f[a]);
    }
  }

  /** A region that neither the write nor the new rotation concerns stays filled. */
  lemma FillOther(s: seq<int>, f: seq<int>, g: seq<int>, v: set<int>, t: int, lo: int, hi: int, r: nat)
    requires Filled(s, f, v, t, lo, hi) && r < |s| && s[Prev(|s|, r)] != t
    requires |g| == |f| && forall a | lo <= a < hi :: g[a] == f[a]
    ensures Filled(s, g, v + {r}, t, lo, hi)
  {
    PredsAdd(s, v, t, r);
    SameSpan(f, g, lo, hi);
  }

  lemma SameSpan(f: seq<int>, g: seq<int>, lo: nat, hi: nat)
    requires lo <= hi <= |f| == |g| && forall a | lo <= a < hi :: g[a] == f[a]
    ensures Span(g, lo, hi) == Span(f, lo, hi)
  {
    forall x ensures x in Span(g, lo, hi) <==> x in Span(f, lo, hi) {
      if x in Span(g, lo, hi) { var a :| lo <= a < hi && g[a] == x; assert f[a] == x; }
      if x in Span(f, lo, hi) { var a :| lo <= a < hi && f[a] == x; assert g[a] == x; }
    }
  }

  lemma FilledSame(s: seq<int>, f: seq<int>, g: seq<int>, v: set<int>, t: int, lo: int, hi: int)
    requires Filled(s, f, v, t, lo, hi) && |g| == |f| && forall a | lo <= a < hi :: g[a] == f[a]
    ensures Filled(s, g, v, t, lo, hi)
  {
    SameSpan(f, g, lo, hi);
  }

  // ---- One scan over the big bucket ----

  /** The state of a scan: the rotations v were visited, and for every unfinished character t
      the rows lo[t] .. hi[t] - 1 of bucket [t, c] are filled; nothing else changed. */
  ghost predicate Pass(s: seq<int>, c: int, done: seq<bool>, f0: seq<int>, f: seq<int>, v: set<int>, lo: seq<int>, hi: seq<int>, up: bool)
  {
    && |f| == |f0| == |s| && |done| == |lo| == |hi| == 256 && 0 <= c < 256 && IsBytes(s)
    && (forall x | x in v :: 0 <= x < |s| && s[x] == c && Goes(s, c, x, up))
    && (forall t | 0 <= t < 256 && !done[t] ::
          Start(s, t * 256 + c) <= lo[t] && hi[t] <= Start(s, t * 256 + c + 1) && Filled(s, f, v, t, lo[t], hi[t]))
    && forall a | 0 <= a < |s| :: f[a] == f0[a] || exists t :: 0 <= t < 256 && !done[t] && lo[t] <= a < hi[t]
  }

  /** The rows klo .. khi - 1 hold different rotations starting with c, all going the same way,
      in order. */
  ghost predicate Known(s: seq<int>, c: int, f: seq<int>, klo: int, khi: int, up: bool)
  {
    && 0 <= klo <= khi <= |f| && RotationsSorted(s, f, klo, khi - 1) && |Span(f, klo, khi)| == khi - klo
    && forall a | klo <= a < khi :: s[f[a]] == c && Goes(s, c, f[a], up)
  }

  /** The rows a .. b - 1 hold rotations whose second character is on the given side of c. */
  ghost predicate Outer(s: seq<int>, c: int, f: seq<int>, a: int, b: int, up: bool)
  {
    && 0 <= a <= b <= |f|
    && forall i | a <= i < b :: 0 <= f[i] < |s| && (if up then s[Next(|s|, f[i])] > c else s[Next(|s|, f[i])] < c)
  }

  /** Rows of buckets [t, c] for different t, and of the big bucket c, do not meet. */
  lemma BucketApart(s: seq<int>, c: int, t: int, u: int)
    requires 0 <= c < 256 && 0 <= t < 256 && 0 <= u < 256
    ensures t < u ==> Start(s, t * 256 + c + 1) <= Start(s, u * 256 + c)
    ensures t < c ==> Start(s, t * 256 + c + 1) <= Start(s, c * 256)
    ensures t > c ==> Start(s, c * 256 + 256) <= Start(s, t * 256 + c)
    ensures Start(s, c * 256) <= Start(s, c * 256 + c) <= Start(s, c * 256 + c + 1) <= Start(s, c * 256 + 256) <= |s|
  {
    if t < u { StartGrows(s, t * 256 + c + 1, u * 256 + c); }
    if t < c { StartGrows(s, t * 256 + c + 1, c * 256); }
    if t > c { StartGrows(s, c * 256 + 256, t * 256 + c); }
    StartGrows(s, c * 256, c * 256 + c);
    StartGrows(s, c * 256 + c, c * 256 + c + 1);
    StartGrows(s, c * 256 + c + 1, c * 256 + 256);
  }

  /** Disjoint sets of rotations starting with c have room for all their predecessors. */
  lemma Room(s: seq<int>, c: int, t: int, v: set<int>, w: set<int>)
    requires forall x | x in v + w :: 0 <= x < |s| && s[x] == c
    requires v !! w
    ensures |Preds(s, v, t)| + |Preds(s, w, t)| <= Start(s, t * 256 + c + 1) - Start(s, t * 256 + c)
  {
    MembersSize(s, t * 256 + c);
    var a, b, m := Preds(s, v, t), Preds(s, w, t), Members(s, t * 256 + c);
    assert a !! b && a + b <= m;
    assert |a + b| == |a| + |b|;
    SubsetSize(a + b, m);
  }

  /** The bucket of an unfinished character has a free row for a new rotation. */
  lemma RoomFor(s: seq<int>, c: int, t: int, v: set<int>, w: set<int>, r: nat)
    requires forall x | x in v + w :: 0 <= x < |s| && s[x] == c
    requires v !! w && r < |s| && s[r] == c && r !in v && r !in w && s[Prev(|s|, r)] == t
    ensures |Preds(s, v, t)| + |Preds(s, w, t)| < Start(s, t * 256 + c + 1) - Start(s, t * 256 + c)
  {
    Room(s, c, t, v + {r}, w);
    PredsAdd(s, v, t, r);
  }

  lemma KnownNew(s: seq<int>, c: int, f: seq<int>, klo: int, khi: int, up: bool, a: int, b: int, j: int)
    requires Known(s, c, f, klo, khi, up) && klo <= a <= b <= khi && klo <= j < khi && !(a <= j < b)
    ensures f[j] !in Span(f, a, b)
  {
    if f[j] in Span(f, a, b) {
      var i :| a <= i < b && f[i] == f[j];
      SpanDistinct(f, klo, khi, if i < j then i else j, if i < j then j else i);
    }
  }

  /** Visiting a rotation whose predecessor starts with a finished character. */
  lemma PassSkip(s: seq<int>, c: int, done: seq<bool>, f0: seq<int>, f: seq<int>, v: set<int>, lo: seq<int>, hi: seq<int>, up: bool, r: nat)
    requires Pass(s, c, done, f0, f, v, lo, hi, up)
    requires r < |s| && s[r] == c && Goes(s, c, r, up) && done[s[Prev(|s|, r)]]
    ensures Pass(s, c, done, f0, f, v + {r as int}, lo, hi, up)
  {
    forall t | 0 <= t < 256 && !done[t] ensures Filled(s, f, v + {r as int}, t, lo[t], hi[t]) {
      FillOther(s, f, f, v, t, lo[t], hi[t], r);
    }
  }

  /** Visiting a rotation, in order from below, whose predecessor goes to the low end. */
  lemma PassUpwards(s: seq<int>, c: int, done: seq<bool>, f0: seq<int>, f: seq<int>, v: set<int>, lo: seq<int>, hi: seq<int>, up: bool, r: nat)
    requires Pass(s, c, done, f0, f, v, lo, hi, up)
    requires r < |s| && s[r] == c && Goes(s, c, r, up) && r !in v
    requires forall x | x in v :: Le(s, x, r, |s|)
    requires var t := s[Prev(|s|, r)]; !done[t] && hi[t] < Start(s, t * 256 + c + 1)
    ensures var k := Prev(|s|, r);
            var t := s[k];
            0 <= hi[t] < |f| && Pass(s, c, done, f0, f[hi[t] := k], v + {r as int}, lo, hi[t := hi[t] + 1], up)
  {
    hide Filled, Goes;
    var k := Prev(|s|, r);
    var t := s[k];
    StartGrows(s, t * 256 + c, t * 256 + c + 1);
    FilledBounds(s, f, v, t, lo[t], hi[t]);
    var g, hi' := f[hi[t] := k], hi[t := hi[t] + 1];
    FillAbove(s, f, v, t, lo[t], hi[t], r);
    forall u | 0 <= u < 256 && !done[u] ensures Filled(s, g, v + {r as int}, u, lo[u], hi'[u]) {
      if u != t {
        BucketApart(s, c, u, t);
        BucketApart(s, c, t, u);
        FillOther(s, f, g, v, u, lo[u], hi[u], r) by { FilledBounds(s, f, v, u, lo[u], hi[u]); }
      }
    }
    forall a | 0 <= a < |s| ensures g[a] == f0[a] || exists t :: 0 <= t < 256 && !done[t] && lo[t] <= a < hi'[t] {
      if a == hi[t] { assert lo[t] <= a < hi'[t]; }
      else if g[a] != f0[a] {
        var u :| 0 <= u < 256 && !done[u] && lo[u] <= a < hi[u];
        assert lo[u] <= a < hi'[u];
      }
    }
  }

  lemma FilledBounds(s: seq<int>, f: seq<int>, v: set<int>, t: int, lo: int, hi: int)
    requires Filled(s, f, v, t, lo, hi)
    ensures 0 <= lo <= hi <= |f|
  {}

  /** Visiting a rotation, in order from above, whose predecessor goes to the high end. */
  lemma PassDownwards(s: seq<int>, c: int, done: seq<bool>, f0: seq<int>, f: seq<int>, v: set<int>, lo: seq<int>, hi: seq<int>, up: bool, r: nat)
    requires Pass(s, c, done, f0, f, v, lo, hi, up)
    requires r < |s| && s[r] == c && Goes(s, c, r, up) && r !in v
    requires forall x | x in v :: Le(s, r, x, |s|)
    requires var t := s[Prev(|s|, r)]; !done[t] && Start(s, t * 256 + c) < lo[t]
    ensures var k := Prev(|s|, r);
            var t := s[k];
            0 < lo[t] <= |f| && Pass(s, c, done, f0, f[lo[t] - 1 := k], v + {r as int}, lo[t := lo[t] - 1], hi, up)
  {
    hide Filled, Goes;
    var k := Prev(|s|, r);
    var t := s[k];
    StartGrows(s, t * 256 + c, t * 256 + c + 1);
    FilledBounds(s, f, v, t, lo[t], hi[t]);
    var g, lo' := f[lo[t] - 1 := k], lo[t := lo[t] - 1];
    FillBelow(s, f, v, t, lo[t], hi[t], r);
    forall u | 0 <= u < 256 && !done[u] ensures Filled(s, g, v + {r as int}, u, lo'[u], hi[u]) {
      if u != t {
        BucketApart(s, c, u, t);
        BucketApart(s, c, t, u);
        FillOther(s, f, g, v, u, lo[u], hi[u], r) by { FilledBounds(s, f, v, u, lo[u], hi[u]); }
      }
    }
    forall a | 0 <= a < |s| ensures g[a] == f0[a] || exists t :: 0 <= t < 256 && !done[t] && lo'[t] <= a < hi[t] {
      if a == lo[t] - 1 { assert lo'[t] <= a < hi[t]; }
      else if g[a] != f0[a] {
        var u :| 0 <= u < 256 && !done[u] && lo[u] <= a < hi[u];
        assert lo'[u] <= a < hi[u];
      }
    }
  }

  /** The stretch still to be read is not touched by writes elsewhere. */
  lemma KnownSame(s: seq<int>, c: int, f: seq<int>, g: seq<int>, klo: int, khi: int, up: bool)
    requires Known(s, c, f, klo, khi, up) && |g| == |f| && forall a | klo <= a < khi :: g[a] == f[a]
    ensures Known(s, c, g, klo, khi, up)
  {
    SameSpan(f, g, klo, khi);
  }

  lemma FilledOrder(s: seq<int>, f: seq<int>, v: set<int>, t: int, lo: int, hi: int, a: int, b: int)
    requires Filled(s, f, v, t, lo, hi) && lo <= a < b < hi
    ensures 0 <= f[a] < |s| && 0 <= f[b] < |s| && Le(s, f[a], f[b], |s|)
  {}

  lemma SmallerFirst(s: seq<int>, x: nat, y: nat)
    requires x < |s| && y < |s| && s[x] < s[y]
    ensures Le(s, x, y, |s|)
  {}

  lemma KnownAt(s: seq<int>, c: int, f: seq<int>, klo: int, khi: int, up: bool, a: int)
    requires Known(s, c, f, klo, khi, up) && klo <= a < khi
    ensures 0 <= a < |f| && 0 <= f[a] < |s| && s[f[a]] == c && Goes(s, c, f[a], up)
  {}

  /** The new member of bucket [c, c] is not smaller than, and differs from, what is there. */
  lemma AboveAll(s: seq<int>, c: int, f: seq<int>, v: set<int>, klo: int, lo: int, hi: int, r: nat, a: int)
    requires r < |s| && s[r] == c && r !in v && s[Prev(|s|, r)] == c
    requires Known(s, c, f, klo, hi, false) && klo <= lo <= hi < |f| && Outer(s, c, f, klo, lo, false)
    requires Filled(s, f, v, c, lo, hi) && Filled(s, f[hi := Prev(|s|, r)], v + {r as int}, c, lo, hi + 1)
    requires klo <= a < hi
    ensures 0 <= f[a] < |s| && Le(s, f[a], Prev(|s|, r), |s|) && f[a] != Prev(|s|, r)
  {
    hide Filled, Known, Goes;
    var k := Prev(|s|, r);
    KnownAt(s, c, f, klo, hi, false, a);
    if a < lo {
      SmallerFirst(s, Next(|s|, f[a]), r);
      ConsOrder(s, f[a], k);
    } else {
      FilledMember(s, f, v, c, lo, hi, a);
      FilledOrder(s, f[hi := k], v + {r as int}, c, lo, hi + 1, a, hi);
    }
  }

  /** A new member of bucket [c, c] extends the stretch to be read upwards. */
  lemma KnownAbove(s: seq<int>, c: int, f: seq<int>, v: set<int>, klo: int, lo: int, hi: int, r: nat)
    requires r < |s| && s[r] == c && Goes(s, c, r, false) && r !in v && s[Prev(|s|, r)] == c
    requires Known(s, c, f, klo, hi, false) && klo <= lo <= hi < |f| && Outer(s, c, f, klo, lo, false)
    requires Filled(s, f, v, c, lo, hi) && Filled(s, f[hi := Prev(|s|, r)], v + {r as int}, c, lo, hi + 1)
    ensures Known(s, c, f[hi := Prev(|s|, r)], klo, hi + 1, false)
  {
    hide Filled, Goes, Outer, Le;
    var k := Prev(|s|, r);
    GoesBefore(s, c, r, false);
    forall a | klo <= a < hi ensures 0 <= f[a] < |s| && Le(s, f[a], k, |s|) && f[a] != k {
      AboveAll(s, c, f, v, klo, lo, hi, r, a);
    }
    SpanUpdate(f, klo, hi, hi, k);
  }

  lemma BelowAll(s: seq<int>, c: int, f: seq<int>, v: set<int>, lo: int, hi: int, khi: int, r: nat, a: int)
    requires r < |s| && s[r] == c && r !in v && s[Prev(|s|, r)] == c
    requires Known(s, c, f, lo, khi, true) && 0 < lo <= hi <= khi && Outer(s, c, f, hi, khi, true)
    requires Filled(s, f, v, c, lo, hi) && Filled(s, f[lo - 1 := Prev(|s|, r)], v + {r as int}, c, lo - 1, hi)
    requires lo <= a < khi
    ensures 0 <= f[a] < |s| && Le(s, Prev(|s|, r), f[a], |s|) && f[a] != Prev(|s|, r)
  {
    hide Filled, Known, Goes;
    var k := Prev(|s|, r);
    KnownAt(s, c, f, lo, khi, true, a);
    if a >= hi {
      SmallerFirst(s, r, Next(|s|, f[a]));
      ConsOrder(s, k, f[a]);
    } else {
      FilledMember(s, f, v, c, lo, hi, a);
      FilledOrder(s, f[lo - 1 := k], v + {r as int}, c, lo - 1, hi, lo - 1, a);
    }
  }

  /** A new member of bucket [c, c] extends the stretch to be read downwards. */
  lemma KnownBelow(s: seq<int>, c: int, f: seq<int>, v: set<int>, lo: int, hi: int, khi: int, r: nat)
    requires r < |s| && s[r] == c && Goes(s, c, r, true) && r !in v && s[Prev(|s|, r)] == c
    requires Known(s, c, f, lo, khi, true) && 0 < lo <= hi <= khi && Outer(s, c, f, hi, khi, true)
    requires Filled(s, f, v, c, lo, hi) && Filled(s, f[lo - 1 := Prev(|s|, r)], v + {r as int}, c, lo - 1, hi)
    ensures Known(s, c, f[lo - 1 := Prev(|s|, r)], lo - 1, khi, true)
  {
    hide Filled, Goes, Outer, Le;
    var k := Prev(|s|, r);
    GoesBefore(s, c, r, true);
    forall a | lo <= a < khi ensures 0 <= f[a] < |s| && Le(s, k, f[a], |s|) && f[a] != k {
      BelowAll(s, c, f, v, lo, hi, khi, r, a);
    }
    SpanUpdate(f, lo, khi, lo - 1, k);
  }

  // ---- The scan from below ----

  /** The scan from below stands at row j: rows before it in the big bucket were visited. */
  ghost predicate Rising(s: seq<int>, c: int, done: seq<bool>, f0: seq<int>, f: seq<int>, lo: seq<int>, hi: seq<int>, j: int)
  {
    && |s| == |f| && |done| == |lo| == |hi| == 256 && 0 <= c < 256 && !done[c]
    && 0 <= Start(s, c * 256) <= j <= hi[c] <= |f|
    && Pass(s, c, done, f0, f, Span(f, Start(s, c * 256), j), lo, hi, false)
    && Known(s, c, f, Start(s, c * 256), hi[c], false)
    && Outer(s, c, f, Start(s, c * 256), lo[c], false)
    && forall t | 0 <= t < 256 && !done[t] :: lo[t] == Start(s, t * 256 + c)
  }

  lemma SpanSplit(f: seq<int>, a: nat, b: nat)
    requires a <= b < |f|
    ensures Span(f, a, b + 1) == Span(f, a, b) + {f[b]}
    ensures a < b ==> Span(f, a, b) == Span(f, a + 1, b) + {f[a]}
  {}

  /** What visiting row j finds. */
  lemma RisingVisit(s: seq<int>, c: int, done: seq<bool>, f0: seq<int>, f: seq<int>, lo: seq<int>, hi: seq<int>, j: int)
    requires Rising(s, c, done, f0, f, lo, hi, j) && j < hi[c]
    ensures 0 <= f[j] < |s| && s[f[j]] == c && Goes(s, c, f[j], false)
    ensures var v := Span(f, Start(s, c * 256), j); f[j] !in v && forall x | x in v :: 0 <= x < |s| && Le(s, x, f[j], |s|)
    ensures 0 <= s[Prev(|s|, f[j])] < 256
  {
    hide Goes, Pass;
    var bb := Start(s, c * 256);
    KnownAt(s, c, f, bb, hi[c], false, j);
    KnownNew(s, c, f, bb, hi[c], false, bb, j, j);
    PassBytes(s, c, done, f0, f, Span(f, bb, j), lo, hi, false);
  }

  lemma PassBytes(s: seq<int>, c: int, done: seq<bool>, f0: seq<int>, f: seq<int>, v: set<int>, lo: seq<int>, hi: seq<int>, up: bool)
    requires Pass(s, c, done, f0, f, v, lo, hi, up)
    ensures IsBytes(s) && forall x | x in v :: 0 <= x < |s| && s[x] == c && Goes(s, c, x, up)
  {}

  lemma RisingSkip(s: seq<int>, c: int, done: seq<bool>, f0: seq<int>, f: seq<int>, lo: seq<int>, hi: seq<int>, j: int)
    requires Rising(s, c, done, f0, f, lo, hi, j) && j < hi[c] && 0 <= f[j] < |s|
    requires var t := s[Prev(|s|, f[j])]; 0 <= t < 256 && done[t]
    ensures Rising(s, c, done, f0, f, lo, hi, j + 1)
  {
    hide Goes, Pass, Known, Outer;
    RisingVisit(s, c, done, f0, f, lo, hi, j);
    SpanSplit(f, Start(s, c * 256), j);
    PassSkip(s, c, done, f0, f, Span(f, Start(s, c * 256), j), lo, hi, false, f[j]);
  }

  lemma PassRegion(s: seq<int>, c: int, done: seq<bool>, f0: seq<int>, f: seq<int>, v: set<int>, lo: seq<int>, hi: seq<int>, up: bool, t: int)
    requires Pass(s, c, done, f0, f, v, lo, hi, up) && 0 <= t < 256 && !done[t]
    ensures Filled(s, f, v, t, lo[t], hi[t]) && 0 <= lo[t] <= hi[t] <= |f| && |Preds(s, v, t)| == hi[t] - lo[t]
    ensures Start(s, t * 256 + c) <= lo[t] && hi[t] <= Start(s, t * 256 + c + 1)
  {}

  /** There is a free row for the predecessor of row j. */
  lemma RisingRoom(s: seq<int>, c: int, done: seq<bool>, f0: seq<int>, f: seq<int>, lo: seq<int>, hi: seq<int>, j: int)
    requires Rising(s, c, done, f0, f, lo, hi, j) && j < hi[c] && 0 <= f[j] < |s|
    requires var t := s[Prev(|s|, f[j])]; 0 <= t < 256 && !done[t]
    ensures var t := s[Prev(|s|, f[j])]; hi[t] < Start(s, t * 256 + c + 1)
  {
    hide Goes, Pass, Known, Outer;
    var v, t := Span(f, Start(s, c * 256), j), s[Prev(|s|, f[j])];
    RisingVisit(s, c, done, f0, f, lo, hi, j);
    PassBytes(s, c, done, f0, f, v, lo, hi, false);
    PassRegion(s, c, done, f0, f, v, lo, hi, false, t);
    RoomFor(s, c, t, v, {}, f[j]);
    assert Preds(s, {}, t) == {};
  }

  lemma RisingStep(s: seq<int>, c: int, done: seq<bool>, f0: seq<int>, f: seq<int>, lo: seq<int>, hi: seq<int>, j: int)
    requires Rising(s, c, done, f0, f, lo, hi, j) && j < hi[c] && 0 <= f[j] < |s|
    requires var t := s[Prev(|s|, f[j])]; 0 <= t < 256 && !done[t]
    ensures var k := Prev(|s|, f[j]);
            var t := s[k];
            0 <= hi[t] < |f| && Rising(s, c, done, f0, f[hi[t] := k], lo, hi[t := hi[t] + 1], j + 1)
  {
    hide Goes, Pass, Known, Outer, Filled;
    var bb, k := Start(s, c * 256), Prev(|s|, f[j]);
    var t, v := s[k], Span(f, bb, j);
    RisingVisit(s, c, done, f0, f, lo, hi, j);
    RisingRoom(s, c, done, f0, f, lo, hi, j);
    PassRegion(s, c, done, f0, f, v, lo, hi, false, t);
    PassRegion(s, c, done, f0, f, v, lo, hi, false, c);
    BucketApart(s, c, t, c);
    PassUpwards(s, c, done, f0, f, v, lo, hi, false, f[j]);
    var g, hi' := f[hi[t] := k], hi[t := hi[t] + 1];
    PassRegion(s, c, done, f0, g, v + {f[j]}, lo, hi', false, t);
    assert forall a | bb <= a < hi[c] :: g[a] == f[a];
    SameSpan(f, g, bb, j);
    SpanSplit(g, bb, j);
    OuterSame(s, c, f, g, bb, lo[c], false);
    if t == c {
      KnownAbove(s, c, f, v, bb, lo[c], hi[c], f[j]);
    } else {
      KnownSame(s, c, f, g, bb, hi[c], false);
    }
  }

  lemma OuterSame(s: seq<int>, c: int, f: seq<int>, g: seq<int>, a: int, b: int, up: bool)
    requires Outer(s, c, f, a, b, up) && |g| == |f| && forall i | a <= i < b :: g[i] == f[i]
    ensures Outer(s, c, g, a, b, up)
  {}

  /** The first half of step 2. */
  method ScanUp(ptr: array<int>, block: array<int>, copyStart: array<int>, n: nat, bb: int, c: int, bigDone: array<bool>,
                ghost s: seq<int>, ghost lo: seq<int>)
    requires ptr != block && ptr != copyStart && copyStart != block && copyStart.Length == bigDone.Length == 256
    requires |s| == n && n <= ptr.Length && n <= block.Length && 0 <= c < 256
    requires forall i | 0 <= i < n :: block[i] == s[i]
    requires bb == Start(s, c * 256) && Rising(s, c, bigDone[..], ptr[..n], ptr[..n], lo, copyStart[..], bb)
    modifies ptr, copyStart
    ensures Rising(s, c, bigDone[..], old(ptr[..n]), ptr[..n], lo, copyStart[..], copyStart[c])
    ensures ptr[n..] == old(ptr[n..])
  {
    hide Rising;
    ghost var f0, done := ptr[..n], bigDone[..];
    RisingRange(s, c, done, f0, ptr[..n], lo, copyStart[..], bb);
    var j := bb;
    while j < copyStart[c]
      invariant bb <= j <= copyStart[c] <= n
      invariant Rising(s, c, done, f0, ptr[..n], lo, copyStart[..], j)
      invariant ptr[n..] == old(ptr[n..])
      decreases n - j
    {
      ghost var f, hi := ptr[..n], copyStart[..];
      RisingVisit(s, c, done, f0, f, lo, hi, j);
      assert f[j] == ptr[j];
      var k := ptr[j] - 1;
      if k < 0 { k := k + n; }
      var c1 := block[k];
      if !bigDone[c1] {
        RisingStep(s, c, done, f0, f, lo, hi, j);
        ptr[copyStart[c1]] := k;
        copyStart[c1] := copyStart[c1] + 1;
        assert ptr[..n] == f[hi[c1] := k] && copyStart[..] == hi[c1 := hi[c1] + 1];
      } else {
        RisingSkip(s, c, done, f0, f, lo, hi, j);
      }
      j := j + 1;
      RisingRange(s, c, done, f0, ptr[..n], lo, copyStart[..], j);
    }
  }

  lemma RisingRange(s: seq<int>, c: int, done: seq<bool>, f0: seq<int>, f: seq<int>, lo: seq<int>, hi: seq<int>, j: int)
    requires Rising(s, c, done, f0, f, lo, hi, j)
    ensures Start(s, c * 256) <= j <= hi[c] <= |f|
  {}

  // ---- The scan from above ----

  /** The rotations w visited by the scan from below, and the rows it left filled, below top. */
  ghost predicate Beneath(s: seq<int>, c: int, done: seq<bool>, w: set<int>, top: seq<int>, lo: seq<int>)
  {
    && |done| == |top| == |lo| == 256 && 0 <= c < 256
    && (forall x | x in w :: 0 <= x < |s| && s[x] == c && Goes(s, c, x, false))
    && forall t | 0 <= t < 256 && !done[t] ::
         top[t] <= lo[t] && |Preds(s, w, t)| == top[t] - Start(s, t * 256 + c)
  }

  /** The scan from above stands at row j: rows after it in the big bucket were visited. */
  ghost predicate Falling(s: seq<int>, c: int, done: seq<bool>, f0: seq<int>, f: seq<int>, lo: seq<int>, hi: seq<int>, j: int, w: set<int>, top: seq<int>)
  {
    && |s| == |f| && |done| == |lo| == |hi| == |top| == 256 && 0 <= c < 256 && !done[c]
    && 0 <= lo[c] <= j + 1 <= Start(s, c * 256 + 256) <= |f|
    && Pass(s, c, done, f0, f, Span(f, j + 1, Start(s, c * 256 + 256)), lo, hi, true)
    && Known(s, c, f, lo[c], Start(s, c * 256 + 256), true)
    && Outer(s, c, f, hi[c], Start(s, c * 256 + 256), true)
    && Beneath(s, c, done, w, top, lo)
    && forall t | 0 <= t < 256 && !done[t] :: hi[t] == Start(s, t * 256 + c + 1)
  }

  lemma FallingVisit(s: seq<int>, c: int, done: seq<bool>, f0: seq<int>, f: seq<int>, lo: seq<int>, hi: seq<int>, j: int, w: set<int>, top: seq<int>)
    requires Falling(s, c, done, f0, f, lo, hi, j, w, top) && lo[c] <= j
    ensures 0 <= f[j] < |s| && s[f[j]] == c && Goes(s, c, f[j], true)
    ensures var v := Span(f, j + 1, Start(s, c * 256 + 256));
            f[j] !in v && forall x | x in v :: 0 <= x < |s| && Le(s, f[j], x, |s|)
    ensures 0 <= s[Prev(|s|, f[j])] < 256
  {
    hide Goes, Pass, Beneath;
    var be := Start(s, c * 256 + 256);
    KnownAt(s, c, f, lo[c], be, true, j);
    KnownNew(s, c, f, lo[c], be, true, j + 1, be, j);
    PassBytes(s, c, done, f0, f, Span(f, j + 1, be), lo, hi, true);
  }

  lemma FallingSkip(s: seq<int>, c: int, done: seq<bool>, f0: seq<int>, f: seq<int>, lo: seq<int>, hi: seq<int>, j: int, w: set<int>, top: seq<int>)
    requires Falling(s, c, done, f0, f, lo, hi, j, w, top) && lo[c] <= j && 0 <= f[j] < |s|
    requires var t := s[Prev(|s|, f[j])]; 0 <= t < 256 && done[t]
    ensures Falling(s, c, done, f0, f, lo, hi, j - 1, w, top)
  {
    hide Goes, Pass, Known, Outer, Beneath;
    var be := Start(s, c * 256 + 256);
    FallingVisit(s, c, done, f0, f, lo, hi, j, w, top);
    SpanSplitLow(f, j, be);
    PassSkip(s, c, done, f0, f, Span(f, j + 1, be), lo, hi, true, f[j]);
  }

  lemma SpanSplitLow(f: seq<int>, a: nat, b: nat)
    requires a < b <= |f|
    ensures Span(f, a, b) == Span(f, a + 1, b) + {f[a]}
  {}

  /** There is a free row above those filled from below. */
  lemma FallingRoom(s: seq<int>, c: int, done: seq<bool>, f0: seq<int>, f: seq<int>, lo: seq<int>, hi: seq<int>, j: int, w: set<int>, top: seq<int>)
    requires Falling(s, c, done, f0, f, lo, hi, j, w, top) && lo[c] <= j && 0 <= f[j] < |s|
    requires var t := s[Prev(|s|, f[j])]; 0 <= t < 256 && !done[t]
    ensures var t := s[Prev(|s|, f[j])]; top[t] < lo[t] && Start(s, t * 256 + c) < lo[t]
  {
    hide Pass, Known, Outer;
    var v, t := Span(f, j + 1, Start(s, c * 256 + 256)), s[Prev(|s|, f[j])];
    FallingVisit(s, c, done, f0, f, lo, hi, j, w, top);
    PassBytes(s, c, done, f0, f, v, lo, hi, true);
    PassRegion(s, c, done, f0, f, v, lo, hi, true, t);
    forall x | x in v + {f[j]} ensures x !in w { GoesOneWay(s, c, x); }
    RoomFor(s, c, t, v, w, f[j]);
  }

  lemma FallingStep(s: seq<int>, c: int, done: seq<bool>, f0: seq<int>, f: seq<int>, lo: seq<int>, hi: seq<int>, j: int, w: set<int>, top: seq<int>)
    requires Falling(s, c, done, f0, f, lo, hi, j, w, top) && lo[c] <= j && 0 <= f[j] < |s|
    requires var t := s[Prev(|s|, f[j])]; 0 <= t < 256 && !done[t]
    ensures var k := Prev(|s|, f[j]);
            var t := s[k];
            0 < lo[t] <= |f| && Falling(s, c, done, f0, f[lo[t] - 1 := k], lo[t := lo[t] - 1], hi, j - 1, w, top)
  {
    hide Goes, Pass, Known, Outer, Filled, Beneath, Preds;
    var be, k := Start(s, c * 256 + 256), Prev(|s|, f[j]);
    var t, v := s[k], Span(f, j + 1, be);
    FallingVisit(s, c, done, f0, f, lo, hi, j, w, top);
    FallingRoom(s, c, done, f0, f, lo, hi, j, w, top);
    PassRegion(s, c, done, f0, f, v, lo, hi, true, t);
    PassRegion(s, c, done, f0, f, v, lo, hi, true, c);
    BucketApart(s, c, t, c);
    PassDownwards(s, c, done, f0, f, v, lo, hi, true, f[j]);
    var g, lo' := f[lo[t] - 1 := k], lo[t := lo[t] - 1];
    PassRegion(s, c, done, f0, g, v + {f[j]}, lo', hi, true, t);
    assert forall a | lo[c] <= a < be :: g[a] == f[a];
    BeneathStep(s, c, done, w, top, lo, t);
    SameSpan(f, g, j + 1, be);
    SpanSplitLow(g, j, be);
    OuterSame(s, c, f, g, hi[c], be, true);
    if t == c {
      KnownBelow(s, c, f, v, lo[c], hi[c], be, f[j]);
    } else {
      KnownSame(s, c, f, g, lo[c], be, true);
    }
  }

  lemma BeneathStep(s: seq<int>, c: int, done: seq<bool>, w: set<int>, top: seq<int>, lo: seq<int>, t: int)
    requires Beneath(s, c, done, w, top, lo) && 0 <= t < 256 && top[t] < lo[t]
    ensures Beneath(s, c, done, w, top, lo[t := lo[t] - 1])
  {}

  /** The first rows above the ends that the scan from above counts down. */
  ghost function Above(e: seq<int>): (lo: seq<int>)
    ensures |lo| == |e| && forall t | 0 <= t < |e| :: lo[t] == e[t] + 1
  {
    seq(|e|, t requires 0 <= t < |e| => e[t] + 1)
  }

  /** The second half of step 2. */
  method ScanDown(ptr: array<int>, block: array<int>, copyEnd: array<int>, n: nat, be: int, c: int, bigDone: array<bool>,
                  ghost s: seq<int>, ghost hi: seq<int>, ghost w: set<int>, ghost top: seq<int>)
    requires ptr != block && ptr != copyEnd && copyEnd != block && copyEnd.Length == bigDone.Length == 256
    requires |s| == n && n <= ptr.Length && n <= block.Length && 0 <= c < 256
    requires forall i | 0 <= i < n :: block[i] == s[i]
    requires be == Start(s, c * 256 + 256)
    requires Falling(s, c, bigDone[..], ptr[..n], ptr[..n], Above(copyEnd[..]), hi, be - 1, w, top)
    modifies ptr, copyEnd
    ensures Falling(s, c, bigDone[..], old(ptr[..n]), ptr[..n], Above(copyEnd[..]), hi, copyEnd[c], w, top)
    ensures ptr[n..] == old(ptr[n..])
  {
    hide Falling;
    ghost var f0, done := ptr[..n], bigDone[..];
    FallingRange(s, c, done, f0, ptr[..n], Above(copyEnd[..]), hi, be - 1, w, top);
    var j := be - 1;
    while j > copyEnd[c]
      invariant 0 <= copyEnd[c] + 1 <= j + 1 <= be <= n
      invariant Falling(s, c, done, f0, ptr[..n], Above(copyEnd[..]), hi, j, w, top)
      invariant ptr[n..] == old(ptr[n..])
      decreases j
    {
      ghost var f, lo := ptr[..n], Above(copyEnd[..]);
      FallingVisit(s, c, done, f0, f, lo, hi, j, w, top);
      assert f[j] == ptr[j];
      var k := ptr[j] - 1;
      if k < 0 { k := k + n; }
      var c1 := block[k];
      if !bigDone[c1] {
        FallingStep(s, c, done, f0, f, lo, hi, j, w, top);
        ptr[copyEnd[c1]] := k;
        copyEnd[c1] := copyEnd[c1] - 1;
        assert ptr[..n] == f[lo[c1] - 1 := k] && Above(copyEnd[..]) == lo[c1 := lo[c1] - 1];
      } else {
        FallingSkip(s, c, done, f0, f, lo, hi, j, w, top);
      }
      j := j - 1;
      FallingRange(s, c, done, f0, ptr[..n], Above(copyEnd[..]), hi, j, w, top);
    }
  }

  lemma FallingRange(s: seq<int>, c: int, done: seq<bool>, f0: seq<int>, f: seq<int>, lo: seq<int>, hi: seq<int>, j: int, w: set<int>, top: seq<int>)
    requires Falling(s, c, done, f0, f, lo, hi, j, w, top)
    ensures 0 <= lo[c] <= j + 1 <= Start(s, c * 256 + 256) <= |f|
  {}

  // ---- Before and after ----

  /** Rows of the big bucket outside [c, c] hold rotations whose second character differs. */
  lemma OuterRow(s: seq<int>, f: seq<int>, c: int, a: nat)
    requires IsBytes(s) && AllFull(s, f) && 0 <= c < 256 && a < |s|
    requires Start(s, c * 256) <= a < Start(s, c * 256 + 256)
    ensures 0 <= f[a] < |s| && s[f[a]] == c
    ensures a < Start(s, c * 256 + c) ==> s[Next(|s|, f[a])] < c
    ensures Start(s, c * 256 + c + 1) <= a ==> s[Next(|s|, f[a])] > c
  {
    RowInBucket(s, f, a);
    var p := Pair(s, f[a]);
    if p < c * 256 { StartGrows(s, p + 1, c * 256); }
    if p >= c * 256 + 256 { StartGrows(s, c * 256 + 256, p); }
    if a < Start(s, c * 256 + c) && p >= c * 256 + c { StartGrows(s, c * 256 + c, p); }
    if Start(s, c * 256 + c + 1) <= a && p <= c * 256 + c { StartGrows(s, p + 1, c * 256 + c + 1); }
  }

  /** The buckets of c other than [c, c] are sorted. */
  ghost predicate OthersSorted(s: seq<int>, f: seq<int>, c: int)
  {
    forall p | c * 256 <= p < c * 256 + 256 && p != c * 256 + c :: BucketSorted(s, f, p)
  }

  lemma OuterPair(s: seq<int>, f: seq<int>, c: int, a: nat, b: nat)
    requires IsBytes(s) && AllFull(s, f) && 0 <= c < 256 && |s| >= 2 && OthersSorted(s, f, c)
    requires a < b < |s| && Start(s, c * 256) <= a && b < Start(s, c * 256 + 256)
    requires b < Start(s, c * 256 + c) || Start(s, c * 256 + c + 1) <= a
    ensures 0 <= f[a] < |s| && 0 <= f[b] < |s| && Le(s, f[a], f[b], |s|)
  {
    OuterRow(s, f, c, a);
    OuterRow(s, f, c, b);
    RowInBucket(s, f, a);
    RowInBucket(s, f, b);
    var p := Pair(s, f[a]);
    if p == Pair(s, f[b]) {
      assert BucketSorted(s, f, p);
    } else {
      BucketsInOrder(s, f, a, b);
      Trichotomy(s, f[a], f[b], |s|);
    }
  }

  lemma GoesNow(s: seq<int>, c: int, r: nat, up: bool)
    requires r < |s| && (if up then s[Next(|s|, r)] > c else s[Next(|s|, r)] < c)
    ensures Goes(s, c, r, up)
  {
    assert RunTo(s, c, r, 0, up);
  }

  lemma OuterKnown(s: seq<int>, f: seq<int>, c: int, klo: nat, khi: nat, up: bool)
    requires IsBytes(s) && AllFull(s, f) && 0 <= c < 256 && |s| >= 2 && OthersSorted(s, f, c)
    requires if up then klo == Start(s, c * 256 + c + 1) && khi == Start(s, c * 256 + 256)
             else klo == Start(s, c * 256) && khi == Start(s, c * 256 + c)
    ensures klo <= khi <= |f| && Known(s, c, f, klo, khi, up) && Outer(s, c, f, klo, khi, up)
  {
    hide Le, Goes, OthersSorted, AllFull;
    BucketApart(s, c, c, c);
    FullIsPerm(s, f);
    SpanSize(f, |s|, klo, khi);
    forall a | klo <= a < khi
      ensures 0 <= f[a] < |s| && s[f[a]] == c && Goes(s, c, f[a], up)
      ensures if up then s[Next(|s|, f[a])] > c else s[Next(|s|, f[a])] < c
    {
      OuterRow(s, f, c, a);
      GoesNow(s, c, f[a], up);
    }
    forall a, b | klo <= a < b < khi ensures Le(s, f[a], f[b], |s|) { OuterPair(s, f, c, a, b); }
  }

  /** The starts of the buckets [t, c]. */
  ghost predicate Starts(s: seq<int>, c: int, lo: seq<int>, plus: int)
  {
    |lo| == 256 && forall t | 0 <= t < 256 :: lo[t] == Start(s, t * 256 + c + plus)
  }

  lemma RisingStart(s: seq<int>, c: int, done: seq<bool>, f: seq<int>, lo: seq<int>)
    requires IsBytes(s) && AllFull(s, f) && 0 <= c < 256 && |s| >= 2 && OthersSorted(s, f, c)
    requires |done| == 256 && !done[c] && Starts(s, c, lo, 0)
    ensures Rising(s, c, done, f, f, lo, lo, Start(s, c * 256))
  {
    hide Known, Outer, Filled;
    BucketApart(s, c, c, c);
    OuterKnown(s, f, c, Start(s, c * 256), Start(s, c * 256 + c), false);
    assert Span(f, Start(s, c * 256), Start(s, c * 256)) == {};
    forall t | 0 <= t < 256 && !done[t]
      ensures lo[t] <= Start(s, t * 256 + c + 1) && Filled(s, f, {}, t, lo[t], lo[t])
    {
      StartGrows(s, t * 256 + c, t * 256 + c + 1);
      FilledNone(s, f, t, lo[t]);
    }
  }

  /** Rows outside the buckets [t, c] of unfinished t are untouched by a scan. */
  lemma PassUntouched(s: seq<int>, c: int, done: seq<bool>, f0: seq<int>, f: seq<int>, v: set<int>, lo: seq<int>, hi: seq<int>, up: bool, a: nat)
    requires Pass(s, c, done, f0, f, v, lo, hi, up) && a < |s|
    requires forall t | 0 <= t < 256 && !done[t] :: !(lo[t] <= a < hi[t])
    ensures f[a] == f0[a]
  {}

  lemma OuterUntouched(s: seq<int>, c: int, done: seq<bool>, f0: seq<int>, f: seq<int>, v: set<int>, lo: seq<int>, hi: seq<int>, up: bool, a: nat)
    requires Pass(s, c, done, f0, f, v, lo, hi, up)
    requires Start(s, c * 256) <= a < Start(s, c * 256 + c) || Start(s, c * 256 + c + 1) <= a < Start(s, c * 256 + 256)
    ensures a < |s| && f[a] == f0[a]
  {
    hide Filled, Goes;
    BucketApart(s, c, c, c);
    forall t | 0 <= t < 256 && !done[t] ensures !(lo[t] <= a < hi[t]) { BucketApart(s, c, t, c); }
    PassUntouched(s, c, done, f0, f, v, lo, hi, up, a);
  }

  lemma FallingStart(s: seq<int>, c: int, done: seq<bool>, f0: seq<int>, f: seq<int>, lo: seq<int>, top: seq<int>, hi: seq<int>)
    requires IsBytes(s) && AllFull(s, f0) && 0 <= c < 256 && |s| >= 2 && OthersSorted(s, f0, c)
    requires |top| == 256 && 0 <= c < 256 && Rising(s, c, done, f0, f, lo, top, top[c]) && Starts(s, c, hi, 1)
    ensures var w := Span(f, Start(s, c * 256), top[c]);
            Falling(s, c, done, f, f, hi, hi, Start(s, c * 256 + 256) - 1, w, top)
  {
    hide Known, Outer, Filled, Goes, OthersSorted, AllFull, Pass, Beneath;
    var bb, be := Start(s, c * 256), Start(s, c * 256 + 256);
    var w := Span(f, bb, top[c]);
    BucketApart(s, c, c, c);
    assert Span(f, be, be) == {};
    PassEmpty(s, c, done, f, hi);
    BeneathStart(s, c, done, f0, f, w, lo, top, hi);
    OuterKnown(s, f0, c, hi[c], be, true);
    forall a | hi[c] <= a < be ensures f[a] == f0[a] {
      OuterUntouched(s, c, done, f0, f, w, lo, top, false, a);
    }
    PassLengths(s, c, done, f0, f, w, lo, top, false);
    KnownSame(s, c, f0, f, hi[c], be, true);
    OuterSame(s, c, f0, f, hi[c], be, true);
  }

  lemma PassLengths(s: seq<int>, c: int, done: seq<bool>, f0: seq<int>, f: seq<int>, v: set<int>, lo: seq<int>, hi: seq<int>, up: bool)
    requires Pass(s, c, done, f0, f, v, lo, hi, up)
    ensures |f| == |f0| == |s|
  {}

  /** Before the scan from above nothing is filled. */
  lemma PassEmpty(s: seq<int>, c: int, done: seq<bool>, f: seq<int>, hi: seq<int>)
    requires IsBytes(s) && |f| == |s| && |done| == 256 && 0 <= c < 256 && Starts(s, c, hi, 1)
    ensures Pass(s, c, done, f, f, {}, hi, hi, true)
  {
    hide Filled;
    forall t | 0 <= t < 256 ensures Start(s, t * 256 + c) <= hi[t] && Filled(s, f, {}, t, hi[t], hi[t]) {
      StartGrows(s, t * 256 + c, t * 256 + c + 1);
      FilledNone(s, f, t, hi[t]);
    }
  }

  lemma BeneathStart(s: seq<int>, c: int, done: seq<bool>, f0: seq<int>, f: seq<int>, w: set<int>, lo: seq<int>, top: seq<int>, hi: seq<int>)
    requires Pass(s, c, done, f0, f, w, lo, top, false) && Starts(s, c, hi, 1)
    requires forall t | 0 <= t < 256 && !done[t] :: lo[t] == Start(s, t * 256 + c)
    ensures Beneath(s, c, done, w, top, hi)
  {
    hide Filled, Goes;
    forall t | 0 <= t < 256 && !done[t]
      ensures top[t] <= hi[t] && |Preds(s, w, t)| == top[t] - Start(s, t * 256 + c)
    {
      PassRegion(s, c, done, f0, f, w, lo, top, false, t);
    }
  }

  /** The scan from below visited every rotation of the big bucket that goes down. */
  lemma {:induction false} RisenAll(s: seq<int>, c: int, done: seq<bool>, f0: seq<int>, f: seq<int>, lo: seq<int>, hi: seq<int>, r: nat, m: nat)
    requires AllFull(s, f0) && |hi| == 256 && 0 <= c < 256 && Rising(s, c, done, f0, f, lo, hi, hi[c])
    requires r < |s| && s[r] == c && RunTo(s, c, r, m, false)
    ensures r in Span(f, Start(s, c * 256), hi[c])
    decreases m
  {
    hide Known, Outer, Goes, Filled;
    var bb, v := Start(s, c * 256), Span(f, Start(s, c * 256), hi[c]);
    BucketApart(s, c, c, c);
    PassRegion(s, c, done, f0, f, v, lo, hi, false, c);
    if m == 0 {
      var a := MemberAt(s, f0, r);
      StartGrows(s, c * 256, Pair(s, r));
      StartGrows(s, Pair(s, r) + 1, c * 256 + c);
      OuterUntouched(s, c, done, f0, f, v, lo, hi, false, a);
    } else {
      RisenAll(s, c, done, f0, f, lo, hi, Next(|s|, r), m - 1);
      FilledHas(s, f, v, c, lo[c], hi[c], r);
    }
  }

  lemma FilledHas(s: seq<int>, f: seq<int>, v: set<int>, t: int, lo: int, hi: int, x: nat)
    requires Filled(s, f, v, t, lo, hi) && x < |s| && s[x] == t && Next(|s|, x) in v
    ensures exists a :: lo <= a < hi && f[a] == x
  {
    assert x in Span(f, lo, hi);
  }

  /** The scan from above visited every rotation of the big bucket that goes up. */
  lemma {:induction false} FallenAll(s: seq<int>, c: int, done: seq<bool>, f0: seq<int>, fL: seq<int>, f: seq<int>, lo: seq<int>, hi: seq<int>, w: set<int>, top: seq<int>, r: nat, m: nat)
    requires AllFull(s, f0) && |lo| == 256 && 0 <= c < 256 && Falling(s, c, done, fL, f, lo, hi, lo[c] - 1, w, top)
    requires forall a | Start(s, c * 256 + c + 1) <= a < Start(s, c * 256 + 256) && a < |s| :: fL[a] == f0[a]
    requires r < |s| && s[r] == c && RunTo(s, c, r, m, true)
    ensures r in Span(f, lo[c], Start(s, c * 256 + 256))
    decreases m
  {
    hide Known, Outer, Goes, Filled, Beneath;
    var be := Start(s, c * 256 + 256);
    var v := Span(f, lo[c], be);
    BucketApart(s, c, c, c);
    PassRegion(s, c, done, fL, f, v, lo, hi, true, c);
    if m == 0 {
      PassBytes(s, c, done, fL, f, v, lo, hi, true);
      var a := MemberAt(s, f0, r);
      StartGrows(s, c * 256 + c + 1, Pair(s, r));
      StartGrows(s, Pair(s, r) + 1, c * 256 + 256);
      OuterUntouched(s, c, done, fL, f, v, lo, hi, true, a);
    } else {
      FallenAll(s, c, done, f0, fL, f, lo, hi, w, top, Next(|s|, r), m - 1);
      FilledHas(s, f, v, c, lo[c], hi[c], r);
    }
  }

  // ---- The two scans meet ----

  /** Both scans over the big bucket of c are over: from rows f0 by way of fL to f. */
  ghost predicate Scanned(s: seq<int>, c: int, done: seq<bool>, f0: seq<int>, fL: seq<int>, f: seq<int>,
                          lo0: seq<int>, top: seq<int>, lo: seq<int>, hi: seq<int>)
  {
    && IsBytes(s) && AllFull(s, f0) && |s| >= 2 && 0 <= c < 256 && |top| == |lo| == 256
    && Rising(s, c, done, f0, fL, lo0, top, top[c])
    && Falling(s, c, done, fL, f, lo, hi, lo[c] - 1, Span(fL, Start(s, c * 256), top[c]), top)
  }

  /** The rows filled from below survive the scan from above. */
  lemma DownStays(s: seq<int>, c: int, done: seq<bool>, f0: seq<int>, fL: seq<int>, f: seq<int>, lo0: seq<int>, top: seq<int>, lo: seq<int>, hi: seq<int>, t: int)
    requires Scanned(s, c, done, f0, fL, f, lo0, top, lo, hi) && 0 <= t < 256 && !done[t]
    ensures Filled(s, f, Span(fL, Start(s, c * 256), top[c]), t, Start(s, t * 256 + c), top[t])
    ensures top[t] <= lo[t]
  {
    hide Known, Outer, Filled, Goes, Full;
    var w := Span(fL, Start(s, c * 256), top[c]);
    PassRegion(s, c, done, f0, fL, w, lo0, top, false, t);
    forall a | Start(s, t * 256 + c) <= a < top[t] ensures f[a] == fL[a] {
      forall u | 0 <= u < 256 && !done[u] ensures !(lo[u] <= a < hi[u]) {
        BucketApart(s, c, u, t);
        BucketApart(s, c, t, u);
        PassRegion(s, c, done, fL, f, Span(f, lo[c], Start(s, c * 256 + 256)), lo, hi, true, u);
      }
      PassUntouched(s, c, done, fL, f, Span(f, lo[c], Start(s, c * 256 + 256)), lo, hi, true, a);
    }
    FilledSame(s, fL, f, w, t, Start(s, t * 256 + c), top[t]);
  }

  /** Together the scans visited the whole big bucket, unless the block is nothing but c. */
  lemma AllVisited(s: seq<int>, c: int, done: seq<bool>, f0: seq<int>, fL: seq<int>, f: seq<int>, lo0: seq<int>, top: seq<int>, lo: seq<int>, hi: seq<int>, y: nat, r: nat)
    requires Scanned(s, c, done, f0, fL, f, lo0, top, lo, hi)
    requires y < |s| && s[y] != c && r < |s| && s[r] == c
    ensures r in Span(fL, Start(s, c * 256), top[c]) || r in Span(f, lo[c], Start(s, c * 256 + 256))
  {
    hide Known, Outer, Filled, Full, Pass, Beneath;
    GoesSomewhere(s, c, r, y);
    if Goes(s, c, r, false) {
      var m: nat :| RunTo(s, c, r, m, false);
      RisenAll(s, c, done, f0, fL, lo0, top, r, m);
    } else {
      var m: nat :| RunTo(s, c, r, m, true);
      forall a | Start(s, c * 256 + c + 1) <= a < Start(s, c * 256 + 256) && a < |s| ensures fL[a] == f0[a] {
        OuterUntouched(s, c, done, f0, fL, Span(fL, Start(s, c * 256), top[c]), lo0, top, false, a);
      }
      FallenAll(s, c, done, f0, fL, f, lo, hi, Span(fL, Start(s, c * 256), top[c]), top, r, m);
    }
  }

  /** Every bucket [t, c] is complete: the two fillings meet exactly. */
  lemma Meet(s: seq<int>, c: int, done: seq<bool>, f0: seq<int>, fL: seq<int>, f: seq<int>, lo0: seq<int>, top: seq<int>, lo: seq<int>, hi: seq<int>, y: nat, t: int)
    requires Scanned(s, c, done, f0, fL, f, lo0, top, lo, hi)
    requires y < |s| && s[y] != c && 0 <= t < 256 && !done[t]
    ensures top[t] == lo[t] && Full(s, f, t * 256 + c) && BucketSorted(s, f, t * 256 + c)
  {
    hide Known, Outer, RotationsSorted, Scanned, Beneath, Rising, Falling, Filled, Preds, Members;
    ScannedParts(s, c, done, f0, fL, f, lo0, top, lo, hi);
    var p, v, w := t * 256 + c, Span(f, lo[c], Start(s, c * 256 + 256)), Span(fL, Start(s, c * 256), top[c]);
    DownStays(s, c, done, f0, fL, f, lo0, top, lo, hi, t);
    PassRegion(s, c, done, fL, f, v, lo, hi, true, t);
    PredsSplit(s, c, done, f0, fL, f, lo0, top, lo, hi, y, t);
    hide Goes, Scanned, Pass;
    MeetExactly(s, f, w, v, t, p, top[t], lo[t]);
    MeetSorted(s, c, f, w, v, t, Start(s, p), top[t], Start(s, p + 1));
  }

  lemma MeetExactly(s: seq<int>, f: seq<int>, w: set<int>, v: set<int>, t: int, p: int, a: int, b: int)
    requires Filled(s, f, w, t, Start(s, p), a) && Filled(s, f, v, t, b, Start(s, p + 1)) && |f| == |s|
    requires Members(s, p) == Preds(s, w, t) + Preds(s, v, t) && |Members(s, p)| == |Preds(s, w, t)| + |Preds(s, v, t)|
    ensures a == b && Full(s, f, p)
  {
    hide RotationsSorted, Members, Preds, Start;
    MembersSize(s, p);
    SpanJoin(f, Start(s, p), a, Start(s, p + 1));
  }

  lemma ScannedParts(s: seq<int>, c: int, done: seq<bool>, f0: seq<int>, fL: seq<int>, f: seq<int>, lo0: seq<int>, top: seq<int>, lo: seq<int>, hi: seq<int>)
    requires Scanned(s, c, done, f0, fL, f, lo0, top, lo, hi)
    ensures |f| == |s| && |done| == |hi| == 256 && IsBytes(s) && 0 <= c < 256 && |lo| == |top| == 256
    ensures Start(s, c * 256) <= top[c] <= |fL| && 0 <= lo[c] <= Start(s, c * 256 + 256) <= |f|
    ensures Pass(s, c, done, fL, f, Span(f, lo[c], Start(s, c * 256 + 256)), lo, hi, true)
    ensures forall t | 0 <= t < 256 && !done[t] :: hi[t] == Start(s, t * 256 + c + 1)
    ensures forall x | x in Span(fL, Start(s, c * 256), top[c]) :: 0 <= x < |s| && s[x] == c && Goes(s, c, x, false)
    ensures forall x | x in Span(f, lo[c], Start(s, c * 256 + 256)) :: 0 <= x < |s| && s[x] == c && Goes(s, c, x, true)
  {
    hide Known, Outer, Goes, Filled, AllFull;
  }

  /** The members of bucket [t, c] are the predecessors of what either scan visited. */
  lemma PredsSplit(s: seq<int>, c: int, done: seq<bool>, f0: seq<int>, fL: seq<int>, f: seq<int>, lo0: seq<int>, top: seq<int>, lo: seq<int>, hi: seq<int>, y: nat, t: int)
    requires Scanned(s, c, done, f0, fL, f, lo0, top, lo, hi)
    requires y < |s| && s[y] != c && 0 <= t < 256
    ensures var v, w := Span(f, lo[c], Start(s, c * 256 + 256)), Span(fL, Start(s, c * 256), top[c]);
            && Members(s, t * 256 + c) == Preds(s, w, t) + Preds(s, v, t)
            && |Members(s, t * 256 + c)| == |Preds(s, w, t)| + |Preds(s, v, t)|
  {
    hide Known, Outer, Goes, Scanned;
    ScannedParts(s, c, done, f0, fL, f, lo0, top, lo, hi);
    var v, w := Span(f, lo[c], Start(s, c * 256 + 256)), Span(fL, Start(s, c * 256), top[c]);
    var m, a, b := Members(s, t * 256 + c), Preds(s, w, t), Preds(s, v, t);
    forall x | x in m ensures x in a + b {
      assert s[x] == t && s[Next(|s|, x)] == c;
      AllVisited(s, c, done, f0, fL, f, lo0, top, lo, hi, y, Next(|s|, x));
    }
    forall x | x in a ensures x in m && x !in b {
      if x in b { GoesOneWay(s, c, Next(|s|, x)); }
    }
    assert m == a + b && a !! b;
    assert |a + b| == |a| + |b|;
  }

  lemma SpanJoin(f: seq<int>, a: nat, b: nat, c: nat)
    requires a <= b <= c <= |f|
    ensures Span(f, a, c) == Span(f, a, b) + Span(f, b, c)
  {}

  /** A region filled by predecessors of rotations going down, followed by one filled by
      predecessors of rotations going up, is sorted. */
  lemma MeetSorted(s: seq<int>, c: int, f: seq<int>, w: set<int>, v: set<int>, t: int, a: int, b: int, e: int)
    requires Filled(s, f, w, t, a, b) && Filled(s, f, v, t, b, e)
    requires forall x | x in w :: 0 <= x < |s| && s[x] == c && Goes(s, c, x, false)
    requires forall x | x in v :: 0 <= x < |s| && s[x] == c && Goes(s, c, x, true)
    ensures RotationsSorted(s, f, a, e - 1)
  {
    hide Goes, Le;
    forall i, j | a <= i < b && b <= j < e ensures 0 <= f[i] < |s| && 0 <= f[j] < |s| && Le(s, f[i], f[j], |s|) {
      FilledMember(s, f, w, t, a, b, i);
      FilledMember(s, f, v, t, b, e, j);
      DownBeforeUp(s, c, Next(|s|, f[i]), Next(|s|, f[j]));
      ConsOrder(s, f[i], f[j]);
    }
  }

  // ---- A block of a single character ----

  lemma {:induction false} OneCharacterOrder(s: seq<int>, c: int, x: nat, y: nat, h: nat)
    requires x < |s| && y < |s| && forall i | 0 <= i < |s| :: s[i] == c
    ensures Le(s, x, y, h)
    decreases h
  {
    if h > 0 { OneCharacterOrder(s, c, Next(|s|, x), Next(|s|, y), h - 1); }
  }

  lemma {:induction false} OneCharacterGoes(s: seq<int>, c: int, r: nat, m: nat, up: bool)
    requires r < |s| && forall i | 0 <= i < |s| :: s[i] == c
    ensures !RunTo(s, c, r, m, up)
    decreases m
  {
    if m > 0 { OneCharacterGoes(s, c, Next(|s|, r), m - 1, up); }
  }

  /** In a block of a single character a scan visits nothing and writes nothing. */
  lemma OneCharacterPass(s: seq<int>, c: int, done: seq<bool>, f0: seq<int>, f: seq<int>, v: set<int>, lo: seq<int>, hi: seq<int>, up: bool)
    requires Pass(s, c, done, f0, f, v, lo, hi, up) && forall i | 0 <= i < |s| :: s[i] == c
    ensures f == f0 && v == {} && forall t | 0 <= t < 256 && !done[t] :: hi[t] == lo[t]
  {
    hide Filled;
    forall x | x in v ensures false {
      var m: nat :| RunTo(s, c, x, m, up);
      OneCharacterGoes(s, c, x, m, up);
    }
    forall t | 0 <= t < 256 && !done[t] ensures hi[t] == lo[t] {
      PassRegion(s, c, done, f0, f, v, lo, hi, up, t);
      assert Preds(s, v, t) == {};
    }
    assert forall a | 0 <= a < |s| :: f[a] == f0[a];
  }
}

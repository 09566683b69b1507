/** The decompressor's list of characters: 16 windows of 16 entries that slide down inside an
    array of 4096, so that moving an entry to the front moves at most 15 entries of one window
    and one entry of every window before it. */
module TwoLevelList {
  import opened MoveToFront

  const MTFA_SIZE := 4096
  const MTFL_SIZE := 16

  /** The windows lie in order, without overlap, inside the array. */
  ghost predicate Windows(fb: seq<int>)
  {
    && |fb| == 16 && (forall k | 0 <= k < 16 :: 0 <= fb[k] <= MTFA_SIZE - 16)
    && forall j, k | 0 <= j < k < 16 :: fb[j] + 16 <= fb[k]
  }

  /** The window at slot b shows part k of the list. */
  ghost predicate WindowIs(fa: seq<int>, b: int, l: seq<int>, k: int)
  {
    && 0 <= b && b + 16 <= |fa| && 0 <= k < 16 && |l| == 256
    && forall x | b <= x < b + 16 :: fa[x] == l[16 * k + x - b]
  }

  /** The windows show the list l. */
  ghost predicate Show(fa: seq<int>, fb: seq<int>, l: seq<int>)
  {
    && |fa| == MTFA_SIZE && |l| == 256 && Windows(fb)
    && forall k | 0 <= k < 16 :: WindowIs(fa, fb[k], l, k)
  }

  /** The n entries from slot b on move up by one. */
  method ShiftUp(a: array<int>, b: int, n: nat)
    requires 0 <= b && b + n < a.Length
    modifies a
    ensures forall x | 0 <= x < a.Length && !(b < x <= b + n) :: a[x] == old(a[x])
    ensures forall x | b < x <= b + n :: a[x] == old(a[x - 1])
  {
    var pp := b + n;
    while pp > b
      invariant b <= pp <= b + n
      invariant forall x | 0 <= x < a.Length && !(pp < x <= b + n) :: a[x] == old(a[x])
      invariant forall x | pp < x <= b + n :: a[x] == old(a[x - 1])
    {
      a[pp] := a[pp - 1];
      pp := pp - 1;
    }
  }

  class Mtfa {
    const mtfa: array<int>
    const mtfbase: array<int>
    ghost var list: seq<int>

    ghost predicate Valid()
      reads this, mtfa, mtfbase
    {
      && mtfa != mtfbase && mtfa.Length == MTFA_SIZE && mtfbase.Length == 16
      && Show(mtfa[..], mtfbase[..], list) && mtfbase[0] >= 1
    }

    /** The list starts as 0 .. 255, in the topmost slots. */
    constructor ()
      ensures Valid() && fresh(mtfa) && fresh(mtfbase)
      ensures list == Iota(256)
    {
      var a, b := new int[MTFA_SIZE], new int[16];
      var kk, ii := MTFA_SIZE - 1, 15;
      while ii >= 0
        invariant -1 <= ii < 16 && kk == MTFA_SIZE - 1 - 16 * (15 - ii)
        invariant forall k | ii < k < 16 :: b[k] == MTFA_SIZE - 256 + 16 * k
        invariant forall x | kk < x < MTFA_SIZE :: a[x] == x - (MTFA_SIZE - 256)
      {
        var jj := 15;
        while jj >= 0
          invariant -1 <= jj < 16 && kk == MTFA_SIZE - 1 - 16 * (15 - ii) - (15 - jj)
          invariant forall x | kk < x < MTFA_SIZE :: a[x] == x - (MTFA_SIZE - 256)
          modifies a
        {
          a[kk] := ii * 16 + jj;
          kk, jj := kk - 1, jj - 1;
        }
        b[ii] := kk + 1;
        ii := ii - 1;
      }
      mtfa, mtfbase, list := a, b, Iota(256);
    }

    /** The character at the front. */
    method Front() returns (uc: int)
      requires Valid()
      ensures uc == list[0]
    {
      assert WindowIs(mtfa[..], mtfbase[0], list, 0);
      uc := mtfa[mtfbase[0]];
    }

    /** The character at place nn, which comes to the front. */
    method Take(nn: nat) returns (uc: int)
      requires Valid() && nn < 256
      modifies this`list, mtfa, mtfbase
      ensures Valid() && uc == old(list[nn]) && list == ToFront(old(list), nn)
    {
      if nn < MTFL_SIZE {
        uc := TakeNear(nn);
      } else {
        uc := TakeFar(nn);
        if mtfbase[0] == 0 { Repack(); }
      }
    }

    /** Within the first window. */
    method TakeNear(nn: nat) returns (uc: int)
      requires Valid() && nn < 16
      modifies this`list, mtfa
      ensures Valid() && uc == old(list[nn]) && list == ToFront(old(list), nn)
    {
      ghost var l, fa, fb := list, mtfa[..], mtfbase[..];
      var pp := mtfbase[0];
      assert WindowIs(fa, fb[0], l, 0);
      uc := mtfa[pp + nn];
      ShiftUp(mtfa, pp, nn);
      mtfa[pp] := uc;
      list := ToFront(l, nn);
      assert WindowIs(mtfa[..], fb[0], list, 0);
      forall k | 0 < k < 16 ensures WindowIs(mtfa[..], fb[k], list, k) {
        assert WindowIs(fa, fb[k], l, k) && fb[0] + 16 <= fb[k];
      }
    }

    /** Beyond the first window: every window up to the one touched takes over the last entry of
        the window before. */
    method TakeFar(nn: nat) returns (uc: int)
      requires Valid() && 16 <= nn < 256
      modifies this`list, mtfa, mtfbase
      ensures mtfa != mtfbase && mtfa.Length == MTFA_SIZE && mtfbase.Length == 16
      ensures Show(mtfa[..], mtfbase[..], list) && uc == old(list[nn]) && list == ToFront(old(list), nn)
    {
      hide WindowIs, Windows, Sliding, ToFront;
      ghost var l, fa, fb := list, mtfa[..], mtfbase[..];
      var lno, off := nn / MTFL_SIZE, nn % MTFL_SIZE;
      ShowAt(fa, fb, l, lno, off);
      uc := mtfa[mtfbase[lno] + off];
      ShiftUp(mtfa, mtfbase[lno], off);
      mtfbase[lno] := mtfbase[lno] + 1;
      SlideStart(fa, fb, l, nn, mtfa[..], mtfbase[..]);
      while lno > 0
        invariant 0 <= lno <= nn / 16
        invariant Sliding(fa, fb, l, nn, lno, mtfa[..], mtfbase[..])
      {
        ghost var fa1, fb1 := mtfa[..], mtfbase[..];
        SlideOn(fa, fb, l, nn, lno, fa1, fb1);
        mtfbase[lno] := mtfbase[lno] - 1;
        mtfa[mtfbase[lno]] := mtfa[mtfbase[lno - 1] + MTFL_SIZE - 1];
        assert mtfbase[..] == fb1[lno := fb1[lno] - 1];
        assert mtfa[..] == fa1[fb1[lno] - 1 := fa1[fb1[lno - 1] + 15]];
        lno := lno - 1;
      }
      ghost var fa1, fb1 := mtfa[..], mtfbase[..];
      SlideEnd(fa, fb, l, nn, fa1, fb1);
      mtfbase[0] := mtfbase[0] - 1;
      mtfa[mtfbase[0]] := uc;
      assert mtfbase[..] == fb1[0 := fb1[0] - 1];
      assert mtfa[..] == fa1[fb1[0] - 1 := l[nn]];
      list := ToFront(l, nn);
    }

    /** The windows move back to the topmost slots. */
    method Repack()
      requires mtfa != mtfbase && mtfa.Length == MTFA_SIZE && mtfbase.Length == 16
      requires Show(mtfa[..], mtfbase[..], list)
      modifies mtfa, mtfbase
      ensures Valid()
    {
      ghost var fa, fb := mtfa[..], mtfbase[..];
      var kk, ii := MTFA_SIZE - 1, 15;
      while ii >= 0
        invariant -1 <= ii < 16 && kk == MTFA_SIZE - 1 - 16 * (15 - ii)
        invariant forall k | 0 <= k <= ii :: mtfbase[k] == fb[k]
        invariant forall k | ii < k < 16 :: mtfbase[k] == MTFA_SIZE - 256 + 16 * k
        invariant forall x | kk < x < MTFA_SIZE :: mtfa[x] == list[x - (MTFA_SIZE - 256)]
        invariant forall x | 0 <= x < (if ii < 0 then 0 else fb[ii] + 16) :: mtfa[x] == fa[x]
      {
        Packed(fb, ii);
        assert WindowIs(fa, fb[ii], list, ii);
        var jj := 15;
        while jj >= 0
          invariant -1 <= jj < 16 && kk == MTFA_SIZE - 1 - 16 * (15 - ii) - (15 - jj)
          invariant forall x | kk < x < MTFA_SIZE :: mtfa[x] == list[x - (MTFA_SIZE - 256)]
          invariant forall x | 0 <= x <= fb[ii] + jj :: mtfa[x] == fa[x]
          modifies mtfa
        {
          mtfa[kk] := mtfa[mtfbase[ii] + jj];
          kk, jj := kk - 1, jj - 1;
        }
        mtfbase[ii] := kk + 1;
        ii := ii - 1;
      }
    }
  }

  /** A window is never above the place it is packed to. */
  lemma {:induction false} Packed(fb: seq<int>, k: int)
    requires Windows(fb) && 0 <= k < 16
    ensures fb[k] <= MTFA_SIZE - 256 + 16 * k
    ensures k > 0 ==> fb[k - 1] + 16 <= fb[k]
    decreases 16 - k
  {
    if k < 15 {
      Packed(fb, k + 1);
      assert fb[k] + 16 <= fb[k + 1];
    }
  }

  lemma ShowAt(fa: seq<int>, fb: seq<int>, l: seq<int>, k: int, j: int)
    requires Show(fa, fb, l) && 0 <= k < 16 && 0 <= j < 16
    ensures 0 <= fb[k] && fb[k] + 16 <= MTFA_SIZE == |fa| && fa[fb[k] + j] == l[16 * k + j]
  {
    assert WindowIs(fa, fb[k], l, k);
  }

  /** While place nn of l comes to the front: the windows above k are done, window k waits for
      the entry that comes from the window before. */
  ghost predicate Sliding(fa0: seq<int>, fb0: seq<int>, l: seq<int>, nn: nat, k: int, fa: seq<int>, fb: seq<int>)
  {
    && Show(fa0, fb0, l) && 16 <= nn < 256 && 0 <= k <= nn / 16 && |fa| == MTFA_SIZE && |fb| == 16
    && (forall i | 0 <= i < k :: fb[i] == fb0[i])
    && fb[k] == (if k == nn / 16 then fb0[k] + 1 else fb0[k])
    && (forall i | k < i < 16 :: fb[i] == if i < nn / 16 then fb0[i] - 1 else fb0[i])
    && (forall i | k < i < 16 :: WindowIs(fa, fb[i], ToFront(l, nn), i))
    && (forall x | fb[k] <= x < fb[k] + 15 :: fa[x] == ToFront(l, nn)[16 * k + 1 + x - fb[k]])
    && forall x | 0 <= x < fb0[k] + (if k == nn / 16 then 1 else 16) :: fa[x] == fa0[x]
  }

  lemma SlideStart(fa: seq<int>, fb: seq<int>, l: seq<int>, nn: nat, fa': seq<int>, fb': seq<int>)
    requires Show(fa, fb, l) && 16 <= nn < 256 && |fa'| == |fa|
    requires var b, off := fb[nn / 16], nn % 16;
             && (forall x | 0 <= x < MTFA_SIZE && !(b < x <= b + off) :: fa'[x] == fa[x])
             && (forall x | b < x <= b + off :: fa'[x] == fa[x - 1])
             && fb' == fb[nn / 16 := b + 1]
    ensures Sliding(fa, fb, l, nn, nn / 16, fa', fb')
  {
    var k := nn / 16;
    assert WindowIs(fa, fb[k], l, k);
    forall i | k < i < 16 ensures WindowIs(fa', fb'[i], ToFront(l, nn), i) {
      assert WindowIs(fa, fb[i], l, i) && fb[k] + 16 <= fb[i];
    }
  }

  lemma SlideOn(fa0: seq<int>, fb0: seq<int>, l: seq<int>, nn: nat, k: int, fa: seq<int>, fb: seq<int>)
    requires Sliding(fa0, fb0, l, nn, k, fa, fb) && k > 0
    ensures 0 <= fb[k] - 1 < MTFA_SIZE == |fa| && |fb| == 16 && 0 <= fb[k - 1] + 15 < MTFA_SIZE
    ensures Sliding(fa0, fb0, l, nn, k - 1, fa[fb[k] - 1 := fa[fb[k - 1] + 15]], fb[k := fb[k] - 1])
  {
    var fa', fb' := SlideWindows(fa0, fb0, l, nn, k, fa, fb);
    hide ToFront, Windows;
    var s, t := fb[k] - 1, ToFront(l, nn);
    forall x | fb[k - 1] <= x < fb[k - 1] + 15 ensures fa[x] == t[16 * (k - 1) + 1 + x - fb[k - 1]] && x != s {
      assert fa[x] == fa0[x] && t[16 * (k - 1) + 1 + x - fb[k - 1]] == l[16 * (k - 1) + x - fb[k - 1]];
    }
  }

  lemma SlideWindows(fa0: seq<int>, fb0: seq<int>, l: seq<int>, nn: nat, k: int, fa: seq<int>, fb: seq<int>)
    returns (fa': seq<int>, fb': seq<int>)
    requires Sliding(fa0, fb0, l, nn, k, fa, fb) && k > 0
    ensures 0 <= fb[k] - 1 < MTFA_SIZE == |fa| && |fb| == 16 && 0 <= fb[k - 1] + 15 < MTFA_SIZE
    ensures fb0[k - 1] + 16 <= fb0[k] && WindowIs(fa0, fb0[k - 1], l, k - 1)
    ensures fa' == fa[fb[k] - 1 := fa[fb[k - 1] + 15]] && fb' == fb[k := fb[k] - 1]
    ensures forall i | k - 1 < i < 16 :: WindowIs(fa', fb'[i], ToFront(l, nn), i)
  {
    assert WindowIs(fa0, fb0[k - 1], l, k - 1) && fb0[k - 1] + 16 <= fb0[k];
    var s, t := fb[k] - 1, ToFront(l, nn);
    fa', fb' := fa[s := fa[fb[k - 1] + 15]], fb[k := s];
    assert fa'[s] == l[16 * k - 1] == t[16 * k];
    assert WindowIs(fa', fb'[k], t, k);
    forall i | k < i < 16 ensures WindowIs(fa', fb'[i], t, i) {
      assert WindowIs(fa, fb[i], t, i) && fb0[k] + 16 <= fb0[i];
    }
  }

  lemma SlideEnd(fa0: seq<int>, fb0: seq<int>, l: seq<int>, nn: nat, fa: seq<int>, fb: seq<int>)
    requires Sliding(fa0, fb0, l, nn, 0, fa, fb) && fb0[0] >= 1
    ensures 1 <= fb[0] <= MTFA_SIZE == |fa| && |fb| == 16
    ensures Show(fa[fb[0] - 1 := l[nn]], fb[0 := fb[0] - 1], ToFront(l, nn))
  {
    var t := ToFront(l, nn);
    var fa', fb' := fa[fb[0] - 1 := l[nn]], fb[0 := fb[0] - 1];
    assert WindowIs(fa', fb'[0], t, 0);
    forall i | 0 < i < 16 ensures WindowIs(fa', fb'[i], t, i) {
      assert WindowIs(fa, fb[i], t, i) && fb0[0] + 16 <= fb0[i];
    }
    forall i, j | 0 <= i < j < 16 ensures fb'[i] + 16 <= fb'[j] { assert fb0[i] + 16 <= fb0[j]; }
    forall i | 0 <= i < 16 ensures 0 <= fb'[i] <= MTFA_SIZE - 16 { assert 0 <= fb0[i] <= MTFA_SIZE - 16; }
  }
}

/** The bitmap of bucket heads that the fallback sort keeps, 32 bits to a word, and its
    word-at-a-time scan. */
module Bitmap {
  import opened Bits

  ghost predicate Words(h: seq<int>)
  {
    forall i | 0 <= i < |h| :: 0 <= h[i] < 0x1_0000_0000
  }

  predicate IsSet(h: seq<int>, z: nat)
    requires z / 32 < |h| && h[z / 32] >= 0
  {
    Bit(h[z / 32], z % 32)
  }

  /** g is h with bit z changed to v. */
  ghost predicate Changed(h: seq<int>, g: seq<int>, z: nat, v: bool)
    requires Words(h) && z / 32 < |h|
  {
    && |g| == |h| && Words(g)
    && forall y: nat | y / 32 < |h| :: IsSet(g, y) == if y == z then v else IsSet(h, y)
  }

  lemma SetChanges(h: seq<int>, z: nat)
    requires Words(h) && z / 32 < |h|
    ensures Changed(h, h[z / 32 := Or(h[z / 32], Pow2(z % 32))], z, true)
  {
    var w, g := h[z / 32], h[z / 32 := Or(h[z / 32], Pow2(z % 32))];
    Pow2Monotone(z % 32 + 1, 32);
    Pow2Values();
    OrBound(w, Pow2(z % 32), 32);
    forall y: nat | y / 32 < |h| ensures IsSet(g, y) == (y == z || IsSet(h, y)) {
      OrBit(w, Pow2(z % 32), y % 32);
      Pow2Bit(z % 32, y % 32);
    }
  }

  lemma ClearChanges(h: seq<int>, z: nat)
    requires Words(h) && z / 32 < |h|
    ensures Changed(h, h[z / 32 := AndNot(h[z / 32], Pow2(z % 32))], z, false)
  {
    var w, g := h[z / 32], h[z / 32 := AndNot(h[z / 32], Pow2(z % 32))];
    AndNotBound(w, Pow2(z % 32));
    forall y: nat | y / 32 < |h| ensures IsSet(g, y) == (y != z && IsSet(h, y)) {
      AndNotBit(w, Pow2(z % 32), y % 32);
      Pow2Bit(z % 32, y % 32);
    }
  }

  /** SET_BH */
  method Set(bhtab: array<int>, z: nat)
    requires Words(bhtab[..]) && z / 32 < bhtab.Length
    modifies bhtab
    ensures Words(bhtab[..]) && Changed(old(bhtab[..]), bhtab[..], z, true)
  {
    SetChanges(bhtab[..], z);
    ghost var h := bhtab[..];
    bhtab[z / 32] := Or(bhtab[z / 32], Pow2(z % 32));
    assert bhtab[..] == h[z / 32 := Or(h[z / 32], Pow2(z % 32))];
  }

  /** CLEAR_BH */
  method Clear(bhtab: array<int>, z: nat)
    requires Words(bhtab[..]) && z / 32 < bhtab.Length
    modifies bhtab
    ensures Words(bhtab[..]) && Changed(old(bhtab[..]), bhtab[..], z, false)
  {
    ClearChanges(bhtab[..], z);
    ghost var h := bhtab[..];
    bhtab[z / 32] := AndNot(bhtab[z / 32], Pow2(z % 32));
    assert bhtab[..] == h[z / 32 := AndNot(h[z / 32], Pow2(z % 32))];
  }

  /** A word of ones contains no clear bit, and a zero word no set one. */
  lemma UniformWord(h: seq<int>, k: nat, y: nat)
    requires Words(h) && k % 32 == 0 && k / 32 < |h| && k <= y < k + 32
    ensures h[k / 32] == 0xffffffff ==> IsSet(h, y)
    ensures h[k / 32] == 0 ==> !IsSet(h, y)
  {
    assert y / 32 == k / 32;
    Pow2Values();
    if h[k / 32] == 0xffffffff { AllOnesBit(32, y % 32); }
    if h[k / 32] == 0 { ZeroBit(y % 32); }
  }

  /** The same for all bits of a word. */
  lemma WholeWord(h: seq<int>, k: nat)
    requires Words(h) && k % 32 == 0 && k / 32 < |h|
    ensures h[k / 32] == 0xffffffff ==> forall y | k <= y < k + 32 :: y / 32 < |h| && IsSet(h, y)
    ensures h[k / 32] == 0 ==> forall y | k <= y < k + 32 :: y / 32 < |h| && !IsSet(h, y)
  {
    hide IsSet, Words;
    forall y | k <= y < k + 32
      ensures y / 32 < |h| && h[y / 32] >= 0 && (h[k / 32] == 0xffffffff ==> IsSet(h, y)) && (h[k / 32] == 0 ==> !IsSet(h, y))
    {
      assert y / 32 == k / 32;
      WordAt(h, y / 32);
      UniformWord(h, k, y);
    }
  }

  lemma WordAt(h: seq<int>, i: nat)
    requires Words(h) && i < |h|
    ensures 0 <= h[i] < 0x1_0000_0000
  {}

  /** From k0 on, finds the first clear bit, a word at a time; some bit up to stop is clear. */
  method SkipSet(bhtab: array<int>, k0: nat, ghost stop: nat) returns (k: nat)
    requires Words(bhtab[..]) && k0 <= stop && stop / 32 < bhtab.Length && !IsSet(bhtab[..], stop)
    ensures k0 <= k <= stop && !IsSet(bhtab[..], k)
    ensures forall y | k0 <= y < k :: IsSet(bhtab[..], y)
  {
    hide Bit;
    ghost var h := bhtab[..];
    k := k0;
    while Bit(bhtab[k / 32], k % 32) && k % 32 != 0
      invariant k0 <= k <= stop
      invariant forall y | k0 <= y < k :: IsSet(h, y)
      decreases stop - k
    {
      assert IsSet(h, k);
      k := k + 1;
    }
    if Bit(bhtab[k / 32], k % 32) {
      while bhtab[k / 32] == 0xffffffff
        invariant k0 <= k <= stop && k % 32 == 0
        invariant forall y | k0 <= y < k :: IsSet(h, y)
        decreases stop - k
      {
        WholeWord(h, k);
        k := k + 32;
      }
      while Bit(bhtab[k / 32], k % 32)
        invariant k0 <= k <= stop
        invariant forall y | k0 <= y < k :: IsSet(h, y)
        decreases stop - k
      {
        assert IsSet(h, k);
        k := k + 1;
      }
    }
  }

  /** From k0 on, finds the first set bit, a word at a time; some bit up to stop is set. */
  method SkipClear(bhtab: array<int>, k0: nat, ghost stop: nat) returns (k: nat)
    requires Words(bhtab[..]) && k0 <= stop && stop / 32 < bhtab.Length && IsSet(bhtab[..], stop)
    ensures k0 <= k <= stop && IsSet(bhtab[..], k)
    ensures forall y | k0 <= y < k :: !IsSet(bhtab[..], y)
  {
    hide Bit;
    ghost var h := bhtab[..];
    k := k0;
    while !Bit(bhtab[k / 32], k % 32) && k % 32 != 0
      invariant k0 <= k <= stop
      invariant forall y | k0 <= y < k :: !IsSet(h, y)
      decreases stop - k
    {
      assert !IsSet(h, k);
      k := k + 1;
    }
    if !Bit(bhtab[k / 32], k % 32) {
      while bhtab[k / 32] == 0
        invariant k0 <= k <= stop && k % 32 == 0
        invariant forall y | k0 <= y < k :: !IsSet(h, y)
        decreases stop - k
      {
        WholeWord(h, k);
        k := k + 32;
      }
      while !Bit(bhtab[k / 32], k % 32)
        invariant k0 <= k <= stop
        invariant forall y | k0 <= y < k :: !IsSet(h, y)
        decreases stop - k
      {
        assert !IsSet(h, k);
        k := k + 1;
      }
    }
  }

  /** Bits 0 .. n - 1 are followed by the two sentinels that end every scan. */
  ghost predicate Sentinels(h: seq<int>, n: nat)
    requires Words(h) && (n + 1) / 32 < |h|
  {
    IsSet(h, n) && !IsSet(h, n + 1)
  }

  /** Finds the next bucket with more than one member, from position r + 1, which starts a
      bucket.  found is false just when every remaining bucket is a singleton. */
  method NextBucket(bhtab: array<int>, n: nat, r: int) returns (found: bool, l: int, r': int)
    requires Words(bhtab[..]) && (n + 1) / 32 < bhtab.Length && Sentinels(bhtab[..], n)
    requires -1 <= r < n && IsSet(bhtab[..], r + 1)
    ensures !found ==> forall y | r < y < n :: IsSet(bhtab[..], y)
    ensures found ==> r < l < r' < n
    ensures found ==> forall y | r < y <= l :: IsSet(bhtab[..], y)
    ensures found ==> forall y | l < y <= r' :: !IsSet(bhtab[..], y)
    ensures found ==> IsSet(bhtab[..], r' + 1)
  {
    r' := r;
    found := false;
    var k := SkipSet(bhtab, r + 1, n + 1);
    l := k - 1;
    if l >= n { return; }
    assert k != n;
    k := SkipClear(bhtab, k, n);
    r' := k - 1;
    if r' >= n { return; }
    found := true;
  }
}

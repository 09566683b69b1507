/** The compressor's bit buffer: bsW and its companions append big-endian fields to zbits. */
module BitWriter {
  import opened Bits
  import opened BitStream

  class Writer {
    var zbits: seq<Byte>     // zbits[0 .. numZ]
    var bsBuff: nat          // UInt32, filled from the top
    var bsLive: int

    ghost predicate Valid()
      reads this
    {
      && bsBuff < Pow2(32) && 0 <= bsLive <= 32
      && forall i | bsLive <= i < 32 :: !Field(bsBuff, 32)[i]
    }

    /** Every bit written since the last time zbits was emptied: whole bytes and the bits that
        wait in bsBuff. */
    ghost function Output(): seq<bool>
      requires Valid()
      reads this
    {
      BitsOf(zbits) + Field(bsBuff, 32)[..bsLive]
    }

    constructor InitWrite()
      ensures Valid() && Output() == [] && zbits == [] && bsLive == 0
    {
      zbits, bsBuff, bsLive := [], 0, 0;
      ZeroField(32);
    }

    /** BZ2_bsInitWrite on a buffer in use. */
    method Reinit()
      requires zbits == []
      modifies this
      ensures Valid() && Output() == [] && zbits == []
    {
      bsBuff, bsLive := 0, 0;
      ZeroField(32);
    }

    /** numZ = 0: the whole bytes were taken, the pending bits stay. */
    method Restart()
      requires Valid()
      modifies this`zbits
      ensures Valid() && zbits == [] && old(Output()) == BitsOf(old(zbits)) + Output()
    {
      hide Field, BitsOf;
      NoBytes();
      ghost var f := Field(bsBuff, 32)[..bsLive];
      assert [] + f == f;
      zbits := [];
    }

    /** Moves the first pending byte to zbits. */
    method ShiftOut()
      requires Valid() && 0 < bsLive
      modifies this
      ensures bsBuff < Pow2(32) && bsLive == old(bsLive) - 8
      ensures Field(bsBuff, 32) == old(Field(bsBuff, 32))[8..] + Field(0, 8)
      ensures BitsOf(zbits) == old(BitsOf(zbits)) + old(Field(bsBuff, 32))[..8]
    {
      TopByte(bsBuff);
      BitsOfSnoc(zbits, Shr(bsBuff, 24));
      zbits := zbits + [Shr(bsBuff, 24)];
      bsBuff := bsBuff * 256 % 0x1_0000_0000;
      bsLive := bsLive - 8;
    }

    /** bsNEEDW: fewer than 8 bits stay pending. */
    method NeedW()
      requires Valid()
      modifies this
      ensures Valid() && Output() == old(Output()) && bsLive < 8
    {
      hide Field;
      while bsLive >= 8
        invariant Valid() && Output() == old(Output())
        decreases bsLive
      {
        Moved(BitsOf(zbits), Field(bsBuff, 32), bsLive);
        ShiftOut();
      }
    }

    /** bsW: appends the n low bits of v. */
    method W(n: nat, v: nat)
      requires Valid() && 1 <= n <= 25 && v < Pow2(n)
      modifies this
      ensures Valid() && Output() == old(Output()) + Field(v, n) && bsLive < 8 + n
    {
      hide Field, Or;
      NeedW();
      ghost var b, f, o, l := bsBuff, Field(bsBuff, 32), BitsOf(zbits), bsLive;
      bsBuff := Or(bsBuff, v * Pow2(32 - bsLive - n));
      bsLive := bsLive + n;
      Placed(b, v, n, l, f, v * Pow2(32 - l - n), Field(bsBuff, 32));
      assert o + (f[..l] + Field(v, n)) == (o + f[..l]) + Field(v, n);
    }

    /** bsPutUChar */
    method PutUChar(c: Byte)
      requires Valid()
      modifies this
      ensures Valid() && Output() == old(Output()) + Field(c, 8)
    {
      Pow2Values();
      W(8, c);
    }

    /** bsPutUInt32, most significant byte first. */
    method PutUInt32(u: nat)
      requires Valid() && u < Pow2(32)
      modifies this
      ensures Valid() && Output() == old(Output()) + Field(u, 32)
    {
      hide Valid, Output, Shr, Field;
      Pow2Values();
      FourBytes(u);
      ghost var o := Output();
      ghost var f1, f2, f3, f4 := Field(Shr(u, 24), 8), Field(Shr(u, 16), 8), Field(Shr(u, 8), 8), Field(u, 8);
      W(8, Shr(u, 24) % 256);
      W(8, Shr(u, 16) % 256);
      W(8, Shr(u, 8) % 256);
      W(8, u % 256);
      assert (((o + f1) + f2) + f3) + f4 == o + (((f1 + f2) + f3) + f4);
    }

    /** bsFinishWrite: the last byte is filled up with zero bits. */
    method FinishWrite() returns (ghost pad: nat)
      requires Valid()
      modifies this
      ensures bsLive <= 0 && pad < 8 && BitsOf(zbits) == old(Output()) + Field(0, pad)
    {
      hide Field;
      pad := 0;
      ghost var out := Output();
      Nothing(BitsOf(zbits), Field(bsBuff, 32));
      while bsLive > 0
        invariant bsLive >= 0 ==> Valid() && Output() == out
        invariant bsLive <= 0 ==> pad < 8 && BitsOf(zbits) == out + Field(0, pad)
        decreases bsLive
      {
        if bsLive >= 8 { Moved(BitsOf(zbits), Field(bsBuff, 32), bsLive); }
        if bsLive <= 8 {
          pad := 8 - bsLive;
          Padded(BitsOf(zbits), Field(bsBuff, 32), bsLive);
        }
        ShiftOut();
      }
    }
  }

  lemma NoBytes()
    ensures BitsOf([]) == []
  {}

  lemma Nothing(o: seq<bool>, f: seq<bool>)
    ensures o + f[..0] == o + Field(0, 0) == o
  {
    assert Field(0, 0) == [];
  }

  /** The first pending byte becomes output. */
  lemma Moved(o: seq<bool>, f: seq<bool>, l: int)
    requires |f| == 32 && 8 <= l <= 32
    ensures (o + f[..8]) + (f[8..] + Field(0, 8))[..l - 8] == o + f[..l]
    ensures (forall i | l <= i < 32 :: !f[i]) ==> forall i | l - 8 <= i < 32 :: !(f[8..] + Field(0, 8))[i]
  {
    hide Field;
    ZeroField(8);
  }

  /** The last pending bits become a byte. */
  lemma Padded(o: seq<bool>, f: seq<bool>, l: int)
    requires |f| == 32 && 0 < l <= 8 && forall i | l <= i < 32 :: !f[i]
    ensures o + f[..8] == (o + f[..l]) + Field(0, 8 - l)
  {
    hide Field;
    ZeroFieldIs(f[l..8]);
  }

  lemma TopByte(b: nat)
    requires b < Pow2(32)
    ensures Shr(b, 24) < 256 && Field(Shr(b, 24), 8) == Field(b, 32)[..8]
    ensures b * 256 % 0x1_0000_0000 < Pow2(32)
    ensures Field(b * 256 % 0x1_0000_0000, 32) == Field(b, 32)[8..] + Field(0, 8)
  {
    hide Field, Shr;
    Pow2Values();
    ShrBound(b, 8, 24);
    FieldSplit(b, 8, 24);
    FieldShl(b, 24, 8);
    FieldMod(b * 256, 32);
  }

  /** A field of n bits or-ed in below the l bits that wait. */
  lemma Placed(b: nat, v: nat, n: nat, l: nat, f: seq<bool>, w: nat, g: seq<bool>)
    requires 1 <= n && l + n <= 32 && v < Pow2(n) && b < Pow2(32)
    requires f == Field(b, 32) && (forall i | l <= i < 32 :: !f[i])
    requires w == v * Pow2(32 - l - n) && g == Field(Or(b, w), 32)
    ensures Or(b, w) < Pow2(32)
    ensures g[..l + n] == f[..l] + Field(v, n) && forall i | l + n <= i < 32 :: !g[i]
  {
    hide Field, Or, Pow2;
    var k := 32 - l - n;
    FieldShl(v, l + n, k);
    FieldPad(v, l, n);
    ShlBound(v, n, k);
    Pow2Monotone(n + k, 32);
    OrBound(b, w, 32);
    FieldOr(b, w, 32);
    ZeroField(l);
    ZeroField(k);
    Overlay(f, Field(v, n), Field(0, l), Field(0, k), Field(w, 32), g);
  }

  lemma Overlay(f: seq<bool>, x: seq<bool>, zl: seq<bool>, zk: seq<bool>, y: seq<bool>, g: seq<bool>)
    requires |f| == |g| == |y| == |zl| + |x| + |zk| && y == zl + x + zk
    requires (forall i | 0 <= i < |zl| :: !zl[i]) && (forall i | 0 <= i < |zk| :: !zk[i])
    requires (forall i | |zl| <= i < |f| :: !f[i]) && forall i | 0 <= i < |f| :: g[i] == (f[i] || y[i])
    ensures g[..|zl| + |x|] == f[..|zl|] + x && forall i | |zl| + |x| <= i < |g| :: !g[i]
  {
    forall i | 0 <= i < |f| ensures y[i] == if i < |zl| then false else if i < |zl| + |x| then x[i - |zl|] else false {}
  }

  lemma ShlBound(v: nat, n: nat, k: nat)
    requires v < Pow2(n)
    ensures v * Pow2(k) < Pow2(n + k)
  {
    Pow2Add(n, k);
  }

  lemma FourBytes(u: nat)
    requires u < Pow2(32)
    ensures Field(u, 32) == Field(Shr(u, 24), 8) + Field(Shr(u, 16), 8) + Field(Shr(u, 8), 8) + Field(u, 8)
    ensures forall k | k in {0, 8, 16, 24} :: Field(Shr(u, k) % 256, 8) == Field(Shr(u, k), 8)
    ensures Field(u % 256, 8) == Field(u, 8)
  {
    hide Field;
    Pow2Values();
    FieldSplit(u, 24, 8);
    FieldSplit(Shr(u, 8), 16, 8);
    FieldSplit(Shr(u, 16), 8, 8);
    ShrAdd(u, 8, 8);
    ShrAdd(u, 16, 8);
    FieldMod(u, 8);
    FieldMod(Shr(u, 8), 8);
    FieldMod(Shr(u, 16), 8);
    FieldMod(Shr(u, 24), 8);
  }
}

/** The decompressor's bit buffer: GET_BITS takes fields from the input as it arrives. */
module BitReader {
  import opened Bits
  import opened BitStream

  class Reader {
    var input: seq<Byte>     // next_in[0 .. avail_in]
    var bsBuff: nat          // UInt32; only its low bsLive bits count
    var bsLive: int

    ghost predicate Valid()
      reads this
    {
      bsBuff < Pow2(32) && 0 <= bsLive <= 32
    }

    /** Every bit that arrived and was not taken yet. */
    ghost function Rest(): seq<bool>
      requires Valid()
      reads this
    {
      Field(bsBuff, bsLive) + BitsOf(input)
    }

    constructor (bytes: seq<Byte>)
      ensures Valid() && Rest() == BitsOf(bytes) && input == bytes
    {
      input, bsBuff, bsLive := bytes, 0, 0;
    }

    /** The caller supplies more input. */
    method Supply(more: seq<Byte>)
      requires Valid()
      modifies this`input
      ensures Valid() && Rest() == old(Rest()) + BitsOf(more)
    {
      hide Field, BitsOf;
      BitsOfConcat(input, more);
      input := input + more;
      assert Rest() == old(Rest()) + BitsOf(more);
    }

    /** GET_BITS: the next n bits as a number, or nothing while fewer have arrived. */
    method GetBits(n: nat) returns (ok: bool, v: nat)
      requires Valid() && 1 <= n <= 24
      modifies this
      ensures Valid() && ok == (n <= |old(Rest())|)
      ensures ok ==> v == Value(old(Rest())[..n]) && v < Pow2(n) && Rest() == old(Rest())[n..]
      ensures !ok ==> Rest() == old(Rest()) && input == []
    {
      hide Field, BitsOf, Shr;
      v := 0;
      while true
        invariant Valid() && Rest() == old(Rest())
        decreases input
      {
        if bsLive >= n {
          Taken(bsBuff, n, bsLive - n);
          v := Shr(bsBuff, bsLive - n) % Pow2(n);
          ghost var top, low := Field(Shr(bsBuff, bsLive - n), n), Field(bsBuff, bsLive - n);
          assert (top + low) + BitsOf(input) == top + (low + BitsOf(input));
          bsLive := bsLive - n;
          ok := true;
          return;
        }
        if |input| == 0 {
          NoBits();
          assert Rest() == Field(bsBuff, bsLive);
          return false, 0;
        }
        Filled(bsBuff, bsLive, input[0]);
        BitsOfConcat([input[0]], input[1..]);
        BitsOfOne(input[0]);
        ghost var f, x, r := Field(bsBuff, bsLive), Field(input[0], 8), BitsOf(input[1..]);
        assert input == [input[0]] + input[1..];
        assert f + (x + r) == (f + x) + r;
        bsBuff := Or(bsBuff * 256 % 0x1_0000_0000, input[0]);
        bsLive := bsLive + 8;
        input := input[1..];
      }
    }
  }

  lemma NoBits()
    ensures BitsOf([]) == []
  {}

  /** The upper bits of the buffer as a number. */
  lemma Taken(b: nat, n: nat, k: nat)
    ensures Field(b, n + k) == Field(Shr(b, k), n) + Field(b, k)
    ensures Shr(b, k) % Pow2(n) == Value(Field(Shr(b, k), n)) < Pow2(n)
  {
    FieldSplit(b, n, k);
    ValueOfField(Shr(b, k), n);
  }

  /** A byte shifted into the buffer. */
  lemma Filled(b: nat, l: nat, x: Byte)
    requires l <= 24
    ensures Or(b * 256 % 0x1_0000_0000, x) < Pow2(32)
    ensures Field(Or(b * 256 % 0x1_0000_0000, x), l + 8) == Field(b, l) + Field(x, 8)
  {
    hide *;
    Pow2Values();
    var q := b % 0x100_0000;
    assert b * 256 % 0x1_0000_0000 == q * 256;
    OrDisjoint(q, x, 8);
    var w := q * 256 + x;
    FieldSplit(w, l, 8);
    ShrIs(q, x, 8);
    FieldModMore(b, l, 24);
    FieldMod(w, 8);
    assert w % 256 == x;
  }
}

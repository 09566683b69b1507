/** What the checksum is: the 32-bit register of a polynomial division, one data bit at a time, the
    most significant bit of a byte first; and which errors it is sure to show. */
module ChecksumBits {
  import opened Bits
  import opened BitStream
  import opened Rotations
  import opened Crc

  /** x^26 + x^23 + x^22 + x^16 + x^12 + x^11 + x^10 + x^8 + x^7 + x^5 + x^4 + x^2 + x + 1 */
  const POLYNOMIAL: Word := 0x04c1_1db7

  const TOP: Word := 0x8000_0000

  /** The register moves up by one bit; the polynomial is taken off if the bit that falls out differs
      from the data bit. */
  function Shifted(r: Word, bit: bool): Word {
    Pow2Values();
    XorBound(2 * r % 0x1_0000_0000, POLYNOMIAL, 32);
    if (r >= TOP) != bit then Xor(2 * r % 0x1_0000_0000, POLYNOMIAL) else 2 * r % 0x1_0000_0000
  }

  /** The register after some bits. */
  function Register(r: Word, bits: seq<bool>): Word {
    if |bits| == 0 then r else Shifted(Register(r, bits[..|bits| - 1]), bits[|bits| - 1])
  }

  /** The register after n bits that are 0. */
  function Idle(r: Word, n: nat): Word {
    if n == 0 then r else Shifted(Idle(r, n - 1), false)
  }

  /** Entry i of the table is what eight steps make of the byte i in the upper eight bits. */
  ghost predicate TableOk(table: CrcTable) {
    forall i | 0 <= i < 256 :: table[i] == Idle(i * 0x100_0000, 8)
  }

  // ---- Exclusive or ----

  lemma {:induction false} XorComm(a: nat, b: nat)
    ensures Xor(a, b) == Xor(b, a)
    decreases a + b
  {
    if a > 0 || b > 0 { XorComm(a / 2, b / 2); }
  }

  lemma XorStep(a: nat, b: nat)
    ensures Xor(a, b) / 2 == Xor(a / 2, b / 2) && Xor(a, b) % 2 == if a % 2 != b % 2 then 1 else 0
  {}

  lemma {:induction false} XorAssoc(a: nat, b: nat, c: nat)
    ensures Xor(Xor(a, b), c) == Xor(a, Xor(b, c))
    decreases a + b + c
  {
    if a > 0 || b > 0 || c > 0 {
      XorAssoc(a / 2, b / 2, c / 2);
      XorStep(a, b);
      XorStep(b, c);
      XorStep(Xor(a, b), c);
      XorStep(a, Xor(b, c));
    }
  }

  lemma {:induction false} XorZero(a: nat)
    ensures Xor(a, 0) == a
  {
    if a > 0 { XorZero(a / 2); }
  }

  lemma {:induction false} XorSelf(a: nat)
    ensures Xor(a, a) == 0
  {
    if a > 0 { XorSelf(a / 2); }
  }

  /** Exclusive or with c undoes itself. */
  lemma XorCancel(a: nat, b: nat, c: nat)
    requires Xor(a, c) == Xor(b, c)
    ensures a == b
  {
    XorAssoc(a, c, c);
    XorAssoc(b, c, c);
    XorSelf(c);
    XorZero(a);
    XorZero(b);
  }

  /** The last operand first. */
  lemma XorSwap(a: nat, b: nat, c: nat)
    ensures Xor(Xor(a, b), c) == Xor(Xor(a, c), b)
  {
    XorAssoc(a, b, c);
    XorAssoc(a, c, b);
    XorComm(b, c);
  }

  /** The word with upper part a and lower k bits b. */
  function Parts(a: nat, b: nat, k: nat): nat { a * Pow2(k) + b }

  lemma HalfOfParts(a: nat, b: nat, k: nat)
    requires k > 0 && b < Pow2(k)
    ensures Parts(a, b, k) / 2 == Parts(a, b / 2, k - 1) && Parts(a, b, k) % 2 == b % 2 && b / 2 < Pow2(k - 1)
  {
    TwiceProduct(a, Pow2(k - 1));
    Halved(a * Pow2(k - 1), b);
  }

  lemma FromHalf(x: nat, y: nat)
    requires x / 2 == y / 2 && x % 2 == y % 2
    ensures x == y
  {}

  /** Upper and lower bits do not mix. */
  lemma {:induction false} XorSplit(a: nat, b: nat, c: nat, d: nat, k: nat)
    requires b < Pow2(k) && d < Pow2(k)
    ensures Xor(Parts(a, b, k), Parts(c, d, k)) == Parts(Xor(a, c), Xor(b, d), k)
    decreases k
  {
    if k == 0 {
      assert Xor(0, 0) == 0;
    } else {
      hide Xor, Parts, Pow2;
      XorBound(b, d, k);
      HalfOfParts(a, b, k);
      HalfOfParts(c, d, k);
      HalfOfParts(Xor(a, c), Xor(b, d), k);
      XorSplit(a, b / 2, c, d / 2, k - 1);
      XorStep(Parts(a, b, k), Parts(c, d, k));
      XorStep(b, d);
      FromHalf(Xor(Parts(a, b, k), Parts(c, d, k)), Parts(Xor(a, c), Xor(b, d), k));
    }
  }

  // ---- One bit ----

  lemma Powers31()
    ensures Pow2(31) == TOP && Pow2(32) == 0x1_0000_0000
  {
    Pow2Values();
    assert Pow2(32) == 2 * Pow2(31);
  }

  /** The top bit and the others. */
  lemma XorTop(t: nat, l: nat, u: nat, z: nat)
    requires l < TOP && z < TOP
    ensures Xor(t * TOP + l, u * TOP + z) == Xor(t, u) * TOP + Xor(l, z) && Xor(l, z) < TOP
  {
    hide Xor, Pow2;
    Powers31();
    XorSplit(t, l, u, z, 31);
    XorBound(l, z, 31);
  }

  lemma XorDouble(a: nat, b: nat)
    ensures Xor(2 * a, 2 * b) == 2 * Xor(a, b)
  {}

  lemma TopIs(r: Word, t: nat, l: nat)
    requires r == t * TOP + l && l < TOP
    ensures (t == 0 || t == 1) && (r >= TOP <==> t == 1) && 2 * r % 0x1_0000_0000 == 2 * l
  {}

  lemma TopXor(r: Word, z: nat)
    requires z < TOP
    ensures Xor(r, z) < 0x1_0000_0000 && (Xor(r, z) >= TOP <==> r >= TOP)
    ensures 2 * Xor(r, z) % 0x1_0000_0000 == Xor(2 * r % 0x1_0000_0000, 2 * z)
  {
    hide Xor, Pow2;
    var t, l := r / TOP, r % TOP;
    TopIs(r, t, l);
    XorTop(t, l, 0, z);
    XorZero(t);
    TopIs(Xor(r, z), t, Xor(l, z));
    XorDouble(l, z);
  }

  /** Bits that are not about to fall out just move up. */
  lemma ShiftedXor(r: Word, z: nat)
    requires z < TOP
    ensures Xor(r, z) < 0x1_0000_0000 && Shifted(Xor(r, z), false) == Xor(Shifted(r, false), 2 * z)
  {
    hide Xor;
    TopXor(r, z);
    XorSwap(2 * r % 0x1_0000_0000, 2 * z, POLYNOMIAL);
  }

  /** A data bit does what the same bit at the top of the register does. */
  lemma ShiftedBit(r: Word, bit: bool)
    ensures var w := Xor(r, if bit then TOP else 0); w < 0x1_0000_0000 && Shifted(r, bit) == Shifted(w, false)
  {
    hide Xor;
    if bit {
      var t, l := r / TOP, r % TOP;
      TopIs(r, t, l);
      XorTop(t, l, 1, 0);
      XorZero(l);
      assert Xor(0, 1) == 1 && Xor(1, 1) == 0 by { OneBit(); }
    } else {
      XorZero(r);
    }
  }

  lemma OneBit()
    ensures Xor(0, 1) == 1 && Xor(1, 1) == 0
  {}

  /** No two registers become the same. */
  lemma ShiftedInjective(r: Word, s: Word, bit: bool)
    requires Shifted(r, bit) == Shifted(s, bit)
    ensures r == s
  {
    hide Xor;
    var x, y := 2 * r % 0x1_0000_0000, 2 * s % 0x1_0000_0000;
    XorStep(x, POLYNOMIAL);
    XorStep(y, POLYNOMIAL);
    if Xor(x, POLYNOMIAL) == Xor(y, POLYNOMIAL) { XorCancel(x, y, POLYNOMIAL); }
  }

  // ---- Some bits ----

  /** z moved up by n bits. */
  function Up(z: nat, n: nat): nat {
    if n == 0 then z else 2 * Up(z, n - 1)
  }

  lemma {:induction false} UpAdd(z: nat, m: nat, n: nat)
    ensures Up(Up(z, m), n) == Up(z, m + n)
  {
    if n > 0 { UpAdd(z, m, n - 1); }
  }

  lemma {:induction false} UpBound(z: nat, k: nat, n: nat)
    requires z < Pow2(k)
    ensures Up(z, n) < Pow2(k + n)
  {
    if n > 0 { UpBound(z, k, n - 1); }
  }

  lemma {:induction false} UpXor(a: nat, b: nat, n: nat)
    ensures Up(Xor(a, b), n) == Xor(Up(a, n), Up(b, n))
  {
    if n > 0 {
      UpXor(a, b, n - 1);
      XorDouble(Up(a, n - 1), Up(b, n - 1));
    }
  }

  lemma {:induction false} UpConstants(n: nat)
    ensures Up(0, n) == 0 && Up(1, n) == Pow2(n)
  {
    if n > 0 { UpConstants(n - 1); }
  }

  lemma {:induction false} IdleXor(r: Word, z: nat, n: nat)
    requires Up(z, n) < 0x1_0000_0000
    ensures Xor(r, z) < 0x1_0000_0000 && Idle(Xor(r, z), n) == Xor(Idle(r, n), Up(z, n))
  {
    hide Xor, Shifted;
    if n > 0 {
      IdleXor(r, z, n - 1);
      ShiftedXor(Idle(r, n - 1), Up(z, n - 1));
    } else {
      Powers31();
      XorBound(r, z, 32);
    }
  }

  /** The field with one more bit. */
  lemma FieldUp(x: nat, n: nat)
    ensures Up(x, n) == Xor(Up(x / 2, n + 1), Up(x % 2, n))
  {
    hide Xor;
    UpAdd(x / 2, 1, n);
    assert Up(x / 2, 1) == 2 * (x / 2);
    LastBit(x);
    UpXor(2 * (x / 2), x % 2, n);
  }

  lemma LastBit(x: nat)
    ensures Xor(2 * (x / 2), x % 2) == x
  {
    XorZero(x / 2);
  }

  lemma RegisterNext(r: Word, x: nat, k: nat)
    requires k > 0
    ensures Register(r, Field(x, k)) == Shifted(Register(r, Field(x / 2, k - 1)), x % 2 == 1)
  {
    hide Shifted;
    assert Field(x, k)[..k - 1] == Field(x / 2, k - 1);
  }

  lemma RegisterNone(r: Word, x: nat)
    ensures Register(r, Field(x, 0)) == r && Idle(r, 0) == r
  {}

  /** The last bit of a field comes to the top when the others have passed. */
  lemma LastBitIn(r: Word, s: Word, x: nat, k: nat)
    requires 1 <= k <= 32 && x < Pow2(k) && Register(r, Field(x / 2, k - 1)) == Idle(s, k - 1)
    ensures Xor(s, Up(x % 2, 32 - k)) < 0x1_0000_0000
    ensures Register(r, Field(x, k)) == Idle(Xor(s, Up(x % 2, 32 - k)), k)
  {
    hide Xor, Shifted, Pow2, Register, Up, Field;
    Powers31();
    RegisterNext(r, x, k);
    UpAdd(x % 2, 32 - k, k - 1);
    UpConstants(31);
    IdleXor(s, Up(x % 2, 32 - k), k - 1);
    ShiftedBit(Idle(s, k - 1), x % 2 == 1);
  }

  /** The bits of a field do together what the field does in the upper bits of the register. */
  lemma {:induction false} RegisterField(r: Word, x: nat, k: nat)
    requires x < Pow2(k) && k <= 32
    ensures Xor(r, Up(x, 32 - k)) < 0x1_0000_0000 && Register(r, Field(x, k)) == Idle(Xor(r, Up(x, 32 - k)), k)
    decreases k
  {
    hide Xor, Shifted, Pow2, Register, Idle, Up, Field;
    Powers31();
    UpBound(x, k, 32 - k);
    XorBound(r, Up(x, 32 - k), 32);
    if k == 0 {
      assert x == 0 by { PowerZero(); }
      UpConstants(32);
      XorZero(r);
      RegisterNone(r, x);
    } else {
      HalfBound(x, k);
      RegisterField(r, x / 2, k - 1);
      FieldUp(x, 32 - k);
      XorAssoc(r, Up(x / 2, 33 - k), Up(x % 2, 32 - k));
      LastBitIn(r, Xor(r, Up(x / 2, 33 - k)), x, k);
    }
  }

  lemma PowerZero()
    ensures Pow2(0) == 1
  {}

  lemma HalfBound(x: nat, k: nat)
    requires x < Pow2(k) && k > 0
    ensures x / 2 < Pow2(k - 1)
  {}

  lemma {:induction false} RegisterSplit(r: Word, a: seq<bool>, b: seq<bool>)
    ensures Register(r, a + b) == Register(Register(r, a), b)
    decreases |b|
  {
    hide Shifted;
    if |b| == 0 {
      assert a + b == a;
    } else {
      RegisterSplit(r, a, b[..|b| - 1]);
      assert (a + b)[..|a + b| - 1] == a + b[..|b| - 1];
    }
  }

  // ---- The table ----

  /** BZ_UPDATE_CRC takes eight bits in one step. */
  lemma ByteStep(table: CrcTable, r: Word, x: Byte)
    requires TableOk(table)
    ensures Update(table, r, x) == Register(r, Field(x, 8))
  {
    hide Xor, Shifted, Pow2, Idle, Up, Register, Update, Field;
    var hi, lo := r / 0x100_0000, r % 0x100_0000;
    Pow2Values();
    XorBound(hi, x, 8);
    var i := Xor(hi, x);
    RegisterField(r, x, 8);
    ByteOnTop(hi, lo, x);
    UpBound(lo, 24, 8);
    IdleXor(i * 0x100_0000, lo, 8);
    UpIs8(lo);
    UpdateIs(table, r, x, hi, lo);
  }

  lemma UpdateIs(table: CrcTable, r: Word, x: Byte, hi: nat, lo: nat)
    requires r == hi * 0x100_0000 + lo && lo < 0x100_0000
    ensures Xor(hi, x) < 256 && Update(table, r, x) == Xor(table[Xor(hi, x)], lo * 256)
  {
    hide Xor, Pow2;
    Pow2Values();
    XorBound(hi, x, 8);
    XorComm(table[Xor(hi, x)], lo * 256);
  }

  /** A byte meets the upper eight bits of the register. */
  lemma ByteOnTop(hi: nat, lo: nat, x: nat)
    requires lo < 0x100_0000
    ensures Xor(hi * 0x100_0000 + lo, Up(x, 24)) == Xor(Xor(hi, x) * 0x100_0000, lo)
  {
    hide Xor, Pow2, Up;
    XorTwentyFour(hi, lo);
    XorSwap(Up(hi, 24), lo, Up(x, 24));
    UpXor(hi, x, 24);
    UpIs24(Xor(hi, x));
  }

  lemma UpIs24(x: nat)
    ensures Up(x, 24) == x * 0x100_0000
  {
    UpAdd(x, 8, 8);
    UpAdd(x, 16, 8);
    UpIs8(x);
    UpIs8(Up(x, 8));
    UpIs8(Up(x, 16));
  }

  lemma UpIs8(x: nat)
    ensures Up(x, 8) == x * 256
  {
    assert Up(x, 1) == 2 * x;
    assert Up(x, 2) == 4 * x;
    assert Up(x, 4) == 16 * x;
    assert Up(x, 6) == 64 * x;
  }

  lemma XorTwentyFour(hi: nat, lo: nat)
    requires lo < 0x100_0000
    ensures Xor(Up(hi, 24), lo) == hi * 0x100_0000 + lo
  {
    hide Xor, Pow2;
    Pow2Values();
    UpIs24(hi);
    XorSplit(hi, 0, 0, lo, 24);
    XorZero(hi);
    XorComm(0, lo);
    XorZero(lo);
  }

  /** The checksum of any bytes is the register after their bits. */
  lemma {:induction false} OverIsRegister(table: CrcTable, crc: Word, s: seq<Byte>)
    requires TableOk(table)
    ensures IsBytes(s) && Over(table, crc, s) == Register(crc, BitsOf(s))
  {
    hide Update, Shifted, Field;
    if |s| > 0 {
      var t, x := s[..|s| - 1], s[|s| - 1];
      OverIsRegister(table, crc, t);
      ByteStep(table, Over(table, crc, t), x);
      RegisterSplit(crc, BitsOf(t), Field(x, 8));
    }
  }

  // ---- The other steps, bit by bit ----

  lemma {:induction false} XorBit(a: nat, b: nat, i: nat)
    ensures Bit(Xor(a, b), i) == (Bit(a, i) != Bit(b, i))
    decreases i
  {
    XorStep(a, b);
    if i > 0 { XorBit(a / 2, b / 2, i - 1); }
  }

  /** Bits below k do not see the others. */
  lemma {:induction false} BitSplit(a: nat, b: nat, k: nat, i: nat)
    requires b < Pow2(k)
    ensures Bit(Parts(a, b, k), i) == if i < k then Bit(b, i) else Bit(a, i - k)
    decreases k
  {
    if k > 0 {
      hide Parts;
      HalfOfParts(a, b, k);
      if i > 0 { BitSplit(a, b / 2, k - 1, i - 1); }
    }
  }

  lemma {:induction false} ComplementBit(c: nat, k: nat, i: nat)
    requires c < Pow2(k) && i < k
    ensures Bit(Pow2(k) - 1 - c, i) == !Bit(c, i)
    decreases k
  {
    var d := Pow2(k) - 1 - c;
    assert d / 2 == Pow2(k - 1) - 1 - c / 2 && d % 2 == 1 - c % 2;
    if i > 0 { ComplementBit(c / 2, k - 1, i - 1); }
  }

  /** BZ_FINALISE_CRC turns every bit over. */
  lemma FinalBit(c: Word, i: nat)
    requires i < 32
    ensures Bit(Final(c), i) == !Bit(c, i)
  {
    hide Pow2, Bit;
    Pow2Values();
    ComplementBit(c, 32, i);
  }

  /** The checksum of the stream is turned left by one bit before that of a block is taken in. */
  lemma CombineBit(c: Word, b: Word, i: nat)
    requires i < 32
    ensures Bit(Combine(c, b), i) == (Bit(c, (i + 31) % 32) != Bit(b, i))
  {
    hide Xor, Pow2, Bit, Parts;
    var t, l := c / TOP, c % TOP;
    var turned := 2 * c % 0x1_0000_0000 + c / 0x8000_0000;
    TopIs(c, t, l);
    XorBit(turned, b, i);
    Powers31();
    TopParts(t, l);
    BitSplit(t, l, 31, (i + 31) % 32);
    TurnedBit(l, t, i);
  }

  lemma TurnedBit(l: nat, t: nat, i: nat)
    requires t <= 1
    ensures Bit(2 * l + t, i) == if i == 0 then Bit(t, 0) else Bit(l, i - 1)
  {}

  lemma TopParts(t: nat, l: nat)
    ensures Parts(t, l, 31) == t * TOP + l
  {
    Powers31();
  }

  // ---- Errors it shows ----

  lemma {:induction false} RegisterInjective(r: Word, s: Word, bits: seq<bool>)
    requires Register(r, bits) == Register(s, bits)
    ensures r == s
  {
    hide Shifted;
    if |bits| > 0 {
      var b := bits[..|bits| - 1];
      ShiftedInjective(Register(r, b), Register(s, b), bits[|bits| - 1]);
      RegisterInjective(r, s, b);
    }
  }

  lemma {:induction false} IdleInjective(r: Word, s: Word, n: nat)
    requires Idle(r, n) == Idle(s, n)
    ensures r == s
  {
    hide Shifted;
    if n > 0 {
      ShiftedInjective(Idle(r, n - 1), Idle(s, n - 1), false);
      IdleInjective(r, s, n - 1);
    }
  }

  lemma {:induction false} UpInjective(x: nat, y: nat, n: nat)
    requires Up(x, n) == Up(y, n)
    ensures x == y
  {
    if n > 0 { UpInjective(x, y, n - 1); }
  }

  /** Up to 32 bits in a row that come out changed always change the register for good. */
  lemma BurstShows(r: Word, a: seq<bool>, u: seq<bool>, v: seq<bool>, b: seq<bool>)
    requires |u| == |v| <= 32 && u != v
    ensures Register(r, a + u + b) != Register(r, a + v + b)
  {
    hide Xor, Shifted, Pow2, Register, Idle, Up;
    if Register(r, a + u + b) == Register(r, a + v + b) {
      RegisterSplit(r, a + u, b);
      RegisterSplit(r, a + v, b);
      RegisterInjective(Register(r, a + u), Register(r, a + v), b);
      RegisterSplit(r, a, u);
      RegisterSplit(r, a, v);
      var s, k := Register(r, a), |u|;
      ValueBound(u);
      ValueBound(v);
      FieldOfValue(u);
      FieldOfValue(v);
      RegisterField(s, Value(u), k);
      RegisterField(s, Value(v), k);
      var x, y := Up(Value(u), 32 - k), Up(Value(v), 32 - k);
      IdleInjective(Xor(s, x), Xor(s, y), k);
      XorComm(s, x);
      XorComm(s, y);
      XorCancel(x, y, s);
      UpInjective(Value(u), Value(v), 32 - k);
      assert false;
    }
  }

  lemma SameSums(a: seq<bool>, b: seq<bool>, c: seq<bool>, d: seq<bool>)
    requires a + b == c + d && |a| == |c|
    ensures a == c && b == d
  {
    assert a == (a + b)[..|a|] && c == (c + d)[..|c|];
    assert b == (a + b)[|a|..] && d == (c + d)[|c|..];
  }

  lemma {:induction false} BitsInjective(u: seq<Byte>, v: seq<Byte>)
    requires |u| == |v| && BitsOf(u) == BitsOf(v)
    ensures u == v
  {
    hide Field, Pow2, Value;
    if |u| > 0 {
      var m := |u| - 1;
      SameSums(BitsOf(u[..m]), Field(u[m], 8), BitsOf(v[..m]), Field(v[m], 8));
      BitsInjective(u[..m], v[..m]);
      Pow2Values();
      ValueOfField(u[m], 8);
      ValueOfField(v[m], 8);
      assert u == u[..m] + [u[m]] && v == v[..m] + [v[m]];
    }
  }

  /** Data in which up to four bytes in a row were changed never has the same checksum. */
  lemma ChangeShows(table: CrcTable, a: seq<Byte>, u: seq<Byte>, v: seq<Byte>, b: seq<Byte>)
    requires TableOk(table) && |u| == |v| <= 4 && u != v
    ensures IsBytes(a + u + b) && IsBytes(a + v + b)
    ensures Final(Over(table, INITIAL, a + u + b)) != Final(Over(table, INITIAL, a + v + b))
  {
    hide BitsOf, Register, TableOk, Over;
    OverIsRegister(table, INITIAL, a + u + b);
    OverIsRegister(table, INITIAL, a + v + b);
    BitsOfConcat(a + u, b);
    BitsOfConcat(a, u);
    BitsOfConcat(a + v, b);
    BitsOfConcat(a, v);
    if BitsOf(u) == BitsOf(v) { BitsInjective(u, v); }
    BurstShows(INITIAL, BitsOf(a), BitsOf(u), BitsOf(v), BitsOf(b));
  }
}

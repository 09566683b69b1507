/** Bit sequences, most significant bit first: what the compressor writes and the decompressor
    reads. */
module BitStream {
  import opened Bits

  type Byte = x: int | 0 <= x < 256

  /** The n-bit field that holds v. */
  function Field(v: nat, n: nat): (r: seq<bool>)
    ensures |r| == n
    decreases n
  {
    if n == 0 then [] else Field(v / 2, n - 1) + [v % 2 == 1]
  }

  /** The number a bit sequence spells. */
  function Value(b: seq<bool>): nat {
    if |b| == 0 then 0 else 2 * Value(b[..|b| - 1]) + (if b[|b| - 1] then 1 else 0)
  }

  /** The bits of a byte sequence. */
  function BitsOf(bytes: seq<Byte>): (r: seq<bool>)
    ensures |r| == 8 * |bytes|
  {
    if |bytes| == 0 then [] else BitsOf(bytes[..|bytes| - 1]) + Field(bytes[|bytes| - 1], 8)
  }

  lemma {:induction false} ValueBound(b: seq<bool>)
    ensures Value(b) < Pow2(|b|)
  {
    if |b| > 0 { ValueBound(b[..|b| - 1]); }
  }

  lemma {:induction false} ValueOfField(v: nat, n: nat)
    ensures Value(Field(v, n)) == v % Pow2(n)
    decreases n
  {
    if n > 0 {
      ValueOfField(v / 2, n - 1);
      assert Field(v, n)[..n - 1] == Field(v / 2, n - 1);
      HalfMod(v, Pow2(n - 1));
    }
  }

  lemma HalfMod(v: nat, m: nat)
    requires m > 0
    ensures v % (2 * m) == 2 * ((v / 2) % m) + v % 2
  {
    var q, r := v / 2 / m, (v / 2) % m;
    assert v / 2 == q * m + r;
    assert v == (2 * m) * q + (2 * r + v % 2) by { assert (2 * m) * q == 2 * (q * m); }
    DivUnique(v, 2 * m, q, 2 * r + v % 2);
  }

  lemma MulAtLeast(m: nat, d: int)
    requires d >= 1
    ensures m * d >= m
  {}

  lemma DivUnique(v: int, m: nat, q: int, r: nat)
    requires m > 0 && r < m && v == m * q + r
    ensures v / m == q && v % m == r
  {
    var q', r' := v / m, v % m;
    assert m * (q - q') == m * q - m * q' == r' - r;
    assert m * (q' - q) == m * q' - m * q == r - r';
    if q > q' {
      MulAtLeast(m, q - q');
    } else if q < q' {
      MulAtLeast(m, q' - q);
    }
  }

  lemma {:induction false} FieldOfValue(b: seq<bool>)
    ensures Field(Value(b), |b|) == b
  {
    if |b| > 0 {
      var b' := b[..|b| - 1];
      FieldOfValue(b');
      assert Value(b) / 2 == Value(b') && (Value(b) % 2 == 1) == b[|b| - 1];
      assert Field(Value(b), |b|) == Field(Value(b'), |b'|) + [b[|b| - 1]];
      assert b == b[..|b| - 1] + [b[|b| - 1]];
    }
  }

  /** A field is a shorter field followed by the rest. */
  lemma {:induction false} FieldSplit(v: nat, m: nat, n: nat)
    ensures Field(v, m + n) == Field(Shr(v, n), m) + Field(v, n)
    decreases n
  {
    if n == 0 {
      assert Field(v, 0) == [];
    } else {
      FieldSplit(v / 2, m, n - 1);
      assert Field(v, m + n) == Field(v / 2, m + n - 1) + [v % 2 == 1];
      assert Field(Shr(v, n), m) + (Field(v / 2, n - 1) + [v % 2 == 1])
          == (Field(Shr(v, n), m) + Field(v / 2, n - 1)) + [v % 2 == 1];
    }
  }

  lemma TwiceProduct(q: nat, p: nat)
    ensures q * (2 * p) == 2 * (q * p)
  {}

  lemma Halved(c: nat, r: nat)
    ensures (2 * c + r) / 2 == c + r / 2
  {}

  /** Shifting right is division. */
  lemma {:induction false} ShrIs(q: nat, r: nat, n: nat)
    requires r < Pow2(n)
    ensures Shr(q * Pow2(n) + r, n) == q
    decreases n
  {
    if n > 0 {
      TwiceProduct(q, Pow2(n - 1));
      Halved(q * Pow2(n - 1), r);
      ShrIs(q, r / 2, n - 1);
    }
  }

  /** High bits of a word do not show in a field. */
  lemma {:induction false} FieldMod(v: nat, n: nat)
    ensures Field(v % Pow2(n), n) == Field(v, n)
  {
    ValueOfField(v, n);
    FieldOfValue(Field(v, n));
  }

  lemma {:induction false} FieldBit(v: nat, n: nat, i: nat)
    requires i < n
    ensures Field(v, n)[i] == Bit(v, n - 1 - i)
    decreases n
  {
    if i < n - 1 { FieldBit(v / 2, n - 1, i); }
  }

  lemma {:induction false} ZeroField(n: nat)
    ensures forall i | 0 <= i < n :: !Field(0, n)[i]
  {
    if n > 0 { ZeroField(n - 1); }
  }

  lemma ZeroFieldIs(b: seq<bool>)
    requires forall i | 0 <= i < |b| :: !b[i]
    ensures b == Field(0, |b|)
  {
    ZeroField(|b|);
  }

  lemma FieldOr(a: nat, b: nat, n: nat)
    ensures forall i | 0 <= i < n :: Field(Or(a, b), n)[i] == (Field(a, n)[i] || Field(b, n)[i])
  {
    forall i | 0 <= i < n ensures Field(Or(a, b), n)[i] == (Field(a, n)[i] || Field(b, n)[i]) {
      FieldBit(Or(a, b), n, i);
      FieldBit(a, n, i);
      FieldBit(b, n, i);
      OrBit(a, b, n - 1 - i);
    }
  }

  lemma {:induction false} ShrAdd(v: nat, m: nat, n: nat)
    ensures Shr(Shr(v, m), n) == Shr(v, m + n)
    decreases m
  {
    if m > 0 { ShrAdd(v / 2, m - 1, n); }
  }

  lemma {:induction false} ShrBound(v: nat, m: nat, n: nat)
    requires v < Pow2(m + n)
    ensures Shr(v, n) < Pow2(m)
    decreases n
  {
    if n > 0 { ShrBound(v / 2, m, n - 1); }
  }

  /** Shifting left appends zero bits. */
  lemma FieldShl(v: nat, n: nat, k: nat)
    ensures Field(v * Pow2(k), n + k) == Field(v, n) + Field(0, k)
  {
    FieldSplit(v * Pow2(k), n, k);
    ShrIs(v, 0, k);
    ShlMod(v, k);
    FieldMod(v * Pow2(k), k);
  }

  lemma {:induction false} ShlMod(v: nat, k: nat)
    ensures v * Pow2(k) % Pow2(k) == 0
  {
    assert v * Pow2(k) == Pow2(k) * v + 0;
    DivUnique(v * Pow2(k), Pow2(k), v, 0);
  }

  /** A small number has leading zero bits. */
  lemma FieldPad(v: nat, m: nat, n: nat)
    requires v < Pow2(n)
    ensures Field(v, m + n) == Field(0, m) + Field(v, n)
  {
    FieldSplit(v, m, n);
    ShrBound(v, 0, n);
  }

  /** Only the low n bits matter for a field of k <= n bits. */
  lemma FieldModMore(v: nat, k: nat, n: nat)
    requires k <= n
    ensures Field(v % Pow2(n), k) == Field(v, k)
  {
    FieldMod(v, n);
    FieldSplit(v, n - k, k);
    FieldSplit(v % Pow2(n), n - k, k);
    assert Field(v, n)[n - k..] == Field(v, k);
    assert Field(v % Pow2(n), n)[n - k..] == Field(v % Pow2(n), k);
  }

  lemma BitsOfSnoc(a: seq<Byte>, x: Byte)
    ensures BitsOf(a + [x]) == BitsOf(a) + Field(x, 8)
  {
    hide Field;
    assert (a + [x])[..|a + [x]| - 1] == a;
  }

  lemma BitsOfNone(a: seq<Byte>, r: seq<bool>)
    ensures BitsOf([]) == [] && a + [] == a && r + BitsOf([]) == r
  {}

  lemma {:induction false} BitsOfConcat(a: seq<Byte>, b: seq<Byte>)
    ensures BitsOf(a + b) == BitsOf(a) + BitsOf(b)
    decreases |b|
  {
    hide *;
    if |b| == 0 {
      BitsOfNone(a, BitsOf(a));
    } else {
      var c, x := b[..|b| - 1], b[|b| - 1];
      BitsOfConcat(a, c);
      assert b == c + [x] && a + b == (a + c) + [x];
      BitsOfSnoc(a + c, x);
      BitsOfSnoc(c, x);
      assert (BitsOf(a) + BitsOf(c)) + Field(x, 8) == BitsOf(a) + (BitsOf(c) + Field(x, 8));
    }
  }

  lemma BitsOfOne(x: Byte)
    ensures BitsOf([x]) == Field(x, 8)
  {
    assert [] + [x] == [x];
    BitsOfSnoc([], x);
    assert BitsOf([]) + Field(x, 8) == Field(x, 8);
  }

  lemma BitsOfHead(a: seq<Byte>)
    requires |a| > 0
    ensures BitsOf(a) == Field(a[0], 8) + BitsOf(a[1..])
  {
    hide Field, BitsOf;
    assert a == [a[0]] + a[1..];
    BitsOfConcat([a[0]], a[1..]);
    BitsOfOne(a[0]);
  }
}

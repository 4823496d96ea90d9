/** The finite field with 256 elements behind the error correction codewords:
    bytes modulo the polynomial 0x11D, with 2 as generator.
    Source: web/src/lib/qrcode.js, lines 1370-1382. */
module Gf256 {
  import opened Bits

  type Byte = x: int | 0 <= x < 256

  /** The field sum. */
  function Add(x: Byte, y: Byte): (s: Byte) {
    XorBound(x, y, 8);
    assert Pow2(8) == 256;
    Xor(x, y)
  }

  lemma AddLaws(x: Byte, y: Byte, z: Byte)
    ensures Add(x, y) == Add(y, x)
    ensures Add(Add(x, y), z) == Add(x, Add(y, z))
    ensures Add(x, 0) == x == Add(0, x)
    ensures Add(x, x) == 0
  {
    XorCommutes(x, y);
    XorAssociates(x, y, z);
    XorZero(x);
    XorSelf(x);
  }

  lemma AddSwap(a: Byte, b: Byte, c: Byte, d: Byte)
    ensures Add(Add(a, b), Add(c, d)) == Add(Add(a, c), Add(b, d))
  {
    XorSwap(a, b, c, d);
  }

  lemma AddCancels(x: Byte, y: Byte, z: Byte)
    requires Add(x, y) == Add(x, z)
    ensures y == z
  {
    AddLaws(x, x, y);
    AddLaws(x, x, z);
    AddLaws(y, x, x);
    AddLaws(z, x, x);
  }

  function When(b: bool, x: Byte): Byte {
    if b then x else 0
  }

  lemma {:induction false} XorHigh(x: nat, y: nat, n: nat)
    requires x < Pow2(n) && y < Pow2(n)
    ensures Xor(Pow2(n) + x, Pow2(n) + y) == Xor(x, y)
    ensures Xor(Pow2(n) + x, y) == Pow2(n) + Xor(x, y)
  {
    hide Xor, Pow2;
    var p := Pow2(n);
    XorPow2(x, n); XorPow2(y, n); XorBound(x, y, n); XorPow2(Xor(x, y), n);
    XorCommutes(x, p);
    XorSwap(p, x, p, y);
    XorCommutes(y, p);
    XorSelf(p);
    XorZero(Xor(x, y));
    XorAssociates(p, x, y);
    XorCommutes(p, Xor(x, y));
  }

  /** Multiplication by 2: shift, and reduce by 0x11D when the shift leaves the byte range. */
  function Double(z: Byte): (d: Byte) {
    DoubleBound(z);
    Xor(2 * z, if z >= 128 then 0x11D else 0)
  }

  lemma DoubleBound(z: nat)
    requires z < 256
    ensures Xor(2 * z, if z >= 128 then 0x11D else 0) < 256
    ensures z >= 128 ==> Xor(2 * z, 0x11D) == Xor(2 * (z - 128), 0x1D)
    ensures z < 128 ==> Xor(2 * z, 0) == 2 * z
  {
    hide Xor;
    assert Pow2(8) == 256;
    if z >= 128 {
      XorHigh(2 * (z - 128), 0x1D, 8);
      XorBound(2 * (z - 128), 0x1D, 8);
    } else {
      XorZero(2 * z);
    }
  }

  lemma TopBitAdds(x: Byte, y: Byte)
    ensures Add(x, y) >= 128 <==> (x >= 128) != (y >= 128)
    ensures Add(if x >= 128 then x - 128 else x, if y >= 128 then y - 128 else y)
      == (if Add(x, y) >= 128 then Add(x, y) - 128 else Add(x, y))
  {
    Pow2Steps();
    hide Xor, Pow2;
    var a, b := if x >= 128 then x - 128 else x, if y >= 128 then y - 128 else y;
    XorHigh(a, b, 7);
    XorHigh(b, a, 7);
    XorBound(a, b, 7);
    XorCommutes(a, b);
    XorCommutes(x, y);
  }

  lemma DoubleSplit(z: Byte)
    ensures var low := if z >= 128 then z - 128 else z;
            Double(z) == Add(2 * low, When(z >= 128, 0x1D))
  {
    hide Xor;
    DoubleBound(z);
    XorZero(2 * (if z >= 128 then z - 128 else z));
  }

  lemma WhenAdds(a: bool, b: bool, s: Byte)
    ensures When(a != b, s) == Add(When(a, s), When(b, s))
  {
    XorSelf(s);
    XorZero(s);
  }

  lemma WhenAddsValue(b: bool, s: Byte, t: Byte)
    ensures When(b, Add(s, t)) == Add(When(b, s), When(b, t))
  {
  }

  lemma DoubleAdds(x: Byte, y: Byte)
    ensures Double(Add(x, y)) == Add(Double(x), Double(y))
  {
    TopBitAdds(x, y);
    DoubleSplit(x);
    DoubleSplit(y);
    DoubleSplit(Add(x, y));
    var a, b := if x >= 128 then x - 128 else x, if y >= 128 then y - 128 else y;
    XorDouble(a, b);
    WhenAdds(x >= 128, y >= 128, 0x1D);
    AddSwap(2 * a, 2 * b, When(x >= 128, 0x1D), When(y >= 128, 0x1D));
  }

  /** x * 2^i */
  function Shift(x: Byte, i: nat): Byte {
    if i == 0 then x else Double(Shift(x, i - 1))
  }

  /** The sum of x * 2^i over those bits i < n of y that are set. */
  function Partial(x: Byte, y: Byte, n: nat): Byte {
    if n == 0 then 0 else Add(Partial(x, y, n - 1), When(Bit(y, n - 1), Shift(x, n - 1)))
  }

  /** The field product, by schoolbook multiplication. */
  function Mul(x: Byte, y: Byte): Byte {
    Partial(x, y, 8)
  }

  lemma {:induction false} ShiftAdds(x: Byte, y: Byte, i: nat)
    ensures Shift(Add(x, y), i) == Add(Shift(x, i), Shift(y, i))
  {
    hide Add, Double;
    if i > 0 {
      ShiftAdds(x, y, i - 1);
      DoubleAdds(Shift(x, i - 1), Shift(y, i - 1));
    }
  }

  lemma {:induction false} ShiftShift(x: Byte, i: nat, j: nat)
    ensures Shift(Shift(x, i), j) == Shift(x, i + j)
  {
    if j > 0 {
      ShiftShift(x, i, j - 1);
    }
  }

  lemma {:induction false} ShiftZero(i: nat)
    ensures Shift(0, i) == 0
  {
    if i > 0 {
      ShiftZero(i - 1);
      XorZero(0);
    }
  }

  lemma {:induction false} PartialAddsRight(x: Byte, y: Byte, z: Byte, n: nat)
    ensures Partial(x, Add(y, z), n) == Add(Partial(x, y, n), Partial(x, z, n))
  {
    if n == 0 {
      XorZero(0);
    } else {
      PartialAddsRight(x, y, z, n - 1);
      XorBit(y, z, n - 1);
      var s := Shift(x, n - 1);
      WhenAdds(Bit(y, n - 1), Bit(z, n - 1), s);
      AddSwap(Partial(x, y, n - 1), Partial(x, z, n - 1), When(Bit(y, n - 1), s), When(Bit(z, n - 1), s));
    }
  }

  lemma {:induction false} PartialAddsLeft(x: Byte, y: Byte, z: Byte, n: nat)
    ensures Partial(Add(x, y), z, n) == Add(Partial(x, z, n), Partial(y, z, n))
  {
    if n == 0 {
      XorZero(0);
    } else {
      PartialAddsLeft(x, y, z, n - 1);
      ShiftAdds(x, y, n - 1);
      var b := Bit(z, n - 1);
      WhenAddsValue(b, Shift(x, n - 1), Shift(y, n - 1));
      AddSwap(Partial(x, z, n - 1), Partial(y, z, n - 1), When(b, Shift(x, n - 1)), When(b, Shift(y, n - 1)));
    }
  }

  lemma {:induction false} PartialShift(x: Byte, y: Byte, i: nat, n: nat)
    ensures Partial(Shift(x, i), y, n) == Shift(Partial(x, y, n), i)
  {
    hide Add, Double, Bit;
    if n == 0 {
      ShiftZero(i);
    } else {
      PartialShift(x, y, i, n - 1);
      ShiftShift(x, i, n - 1);
      ShiftShift(x, n - 1, i);
      ShiftZero(i);
      ShiftAdds(Partial(x, y, n - 1), When(Bit(y, n - 1), Shift(x, n - 1)), i);
    }
  }

  lemma {:induction false} PartialZero(y: Byte, n: nat)
    ensures Partial(0, y, n) == 0
  {
    if n > 0 {
      PartialZero(y, n - 1);
      ShiftZero(n - 1);
      XorZero(0);
    }
  }

  lemma {:induction false} ShiftOne(i: nat)
    requires i < 8
    ensures Pow2(i) <= 128 && Shift(1, i) == Pow2(i)
  {
    hide Xor;
    if i > 0 {
      ShiftOne(i - 1);
      Pow2Steps();
      assert Pow2(i - 1) <= 64;
      DoubleBound(Pow2(i - 1));
    }
  }

  lemma Pow2Steps()
    ensures Pow2(0) == 1 && Pow2(1) == 2 && Pow2(2) == 4 && Pow2(3) == 8 && Pow2(4) == 16
    ensures Pow2(5) == 32 && Pow2(6) == 64 && Pow2(7) == 128 && Pow2(8) == 256
  {
  }

  lemma {:induction false} LowBits(y: nat, n: nat)
    ensures y % Pow2(n + 1) == y % Pow2(n) + (if Bit(y, n) then Pow2(n) else 0)
  {
    if n == 0 {
      assert Pow2(1) == 2;
    } else {
      LowBits(y / 2, n - 1);
      HalfMod(y, Pow2(n));
      HalfMod(y, Pow2(n - 1));
    }
  }

  lemma HalfMod(y: nat, p: nat)
    requires p > 0
    ensures y % (2 * p) == 2 * ((y / 2) % p) + y % 2
  {
    var q, r := (y / 2) / p, (y / 2) % p;
    assert y / 2 == q * p + r;
    assert y == q * (2 * p) + (2 * r + y % 2);
    ModUnique(y, 2 * p, q, 2 * r + y % 2);
  }

  lemma ModUnique(y: nat, m: nat, q: nat, r: nat)
    requires m > 0 && r < m && y == q * m + r
    ensures y % m == r && y / m == q
  {
    var q', r' := y / m, y % m;
    assert y == m * q' + r';
    assert (q - q') * m == r' - r;
    if q > q' {
      AtLeastOnce(q - q', m);
    } else if q < q' {
      AtLeastOnce(q' - q, m);
    }
  }

  lemma AtLeastOnce(k: nat, m: nat)
    requires k > 0
    ensures k * m >= m
  {
  }

  lemma {:induction false} PartialOne(y: Byte, n: nat)
    requires n <= 8
    ensures Partial(1, y, n) == y % Pow2(n)
  {
    if n > 0 {
      PartialOne(y, n - 1);
      ShiftOne(n - 1);
      LowBits(y, n - 1);
      XorPow2(y % Pow2(n - 1), n - 1);
      XorZero(y % Pow2(n - 1));
    }
  }

  lemma MulOne(y: Byte)
    ensures Mul(1, y) == y
  {
    hide Partial;
    PartialOne(y, 8);
    Pow2Steps();
  }

  lemma {:induction false} PartialSwap(x: Byte, y: Byte, n: nat)
    ensures Mul(Partial(1, x, n), y) == Partial(y, x, n)
  {
    if n == 0 {
      PartialZero(y, 8);
    } else {
      PartialSwap(x, y, n - 1);
      PartialAddsLeft(Partial(1, x, n - 1), When(Bit(x, n - 1), Shift(1, n - 1)), y, 8);
      PartialShift(1, y, n - 1, 8);
      MulOne(y);
      PartialZero(y, 8);
    }
  }

  lemma MulCommutes(x: Byte, y: Byte)
    ensures Mul(x, y) == Mul(y, x)
  {
    PartialSwap(x, y, 8);
    MulOne(x);
  }

  lemma MulAdds(x: Byte, y: Byte, z: Byte)
    ensures Mul(x, Add(y, z)) == Add(Mul(x, y), Mul(x, z))
    ensures Mul(Add(y, z), x) == Add(Mul(y, x), Mul(z, x))
  {
    PartialAddsRight(x, y, z, 8);
    PartialAddsLeft(y, z, x, 8);
  }

  lemma MulZero(x: Byte)
    ensures Mul(x, 0) == 0 == Mul(0, x)
  {
    PartialZero(x, 8);
    MulCommutes(x, 0);
  }

  lemma MulShift(x: Byte, y: Byte, i: nat)
    ensures Mul(Shift(x, i), y) == Shift(Mul(x, y), i) == Mul(x, Shift(y, i))
  {
    PartialShift(x, y, i, 8);
    PartialShift(y, x, i, 8);
    MulCommutes(x, y);
    MulCommutes(x, Shift(y, i));
  }

  lemma {:induction false} PartialAssociates(x: Byte, y: Byte, z: Byte, n: nat)
    ensures Mul(x, Partial(y, z, n)) == Partial(Mul(x, y), z, n)
  {
    MulZero(x);
    if n > 0 {
      PartialAssociates(x, y, z, n - 1);
      MulAdds(x, Partial(y, z, n - 1), When(Bit(z, n - 1), Shift(y, n - 1)));
      MulShift(x, y, n - 1);
    }
  }

  lemma MulAssociates(x: Byte, y: Byte, z: Byte)
    ensures Mul(Mul(x, y), z) == Mul(x, Mul(y, z))
  {
    PartialAssociates(x, y, z, 8);
  }
}

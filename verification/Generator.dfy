/** 2 generates the multiplicative group of the field: its powers run through all 255 non-zero
    bytes before they repeat. */
module Generator {
  import opened Bits
  import opened Gf256

  /** r^i for the generator r = 2 */
  function Power(i: nat): Byte {
    Shift(1, i)
  }

  lemma PowerAdds(i: nat, j: nat)
    ensures Power(i + j) == Mul(Power(i), Power(j))
  {
    ShiftShift(1, i, j);
    MulShift(Power(i), 1, j);
    MulCommutes(Power(i), 1);
    MulOne(Power(i));
  }

  lemma {:induction false} XorEqualsZero(x: nat, y: nat)
    requires Xor(x, y) == 0
    ensures x == y
  {
    XorCancel(x, y);
    XorZero(y);
  }

  lemma DoubleNonZero(w: Byte)
    requires w != 0
    ensures Double(w) != 0
  {
    if Double(w) == 0 {
      hide Xor;
      DoubleBound(w);
      if w >= 128 {
        XorEqualsZero(2 * (w - 128), 0x1D);
      }
    }
  }

  lemma {:induction false} ShiftNonZero(x: Byte, i: nat)
    requires x != 0
    ensures Shift(x, i) != 0
  {
    if i > 0 {
      ShiftNonZero(x, i - 1);
      DoubleNonZero(Shift(x, i - 1));
    }
  }

  lemma ShiftInjective(x: Byte, y: Byte, i: nat)
    requires Shift(x, i) == Shift(y, i)
    ensures x == y
  {
    ShiftAdds(x, y, i);
    XorSelf(Shift(x, i));
    if Add(x, y) != 0 {
      ShiftNonZero(Add(x, y), i);
    }
    XorEqualsZero(x, y);
  }

  /** Doubling of a byte in plain arithmetic. */
  function Doubled(z: nat): int {
    if z < 128 then 2 * z else 2 * z - 227 - 8 * (z / 2 % 8)
  }

  /** Flipping the three lowest bits subtracts them from 7. */
  lemma XorSeven(h: nat, a: nat, b: nat, c: nat)
    requires a < 2 && b < 2 && c < 2
    ensures Xor(8 * h + 4 * a + 2 * b + c, 7) == 8 * h + 7 - (4 * a + 2 * b + c)
  {
    hide Xor;
    XorStep(2 * (2 * h + a) + b, c, 3, 1);
    XorStep(2 * h + a, b, 1, 1);
    XorStep(h, a, 0, 1);
    XorZero(h);
  }

  lemma DoubledHigh(h: nat, a: nat, b: nat, c: nat, d: nat)
    requires h < 8 && a < 2 && b < 2 && c < 2 && d < 2
    ensures Xor(32 * h + 16 * a + 8 * b + 4 * c + 2 * d, 0x1D) == 32 * h + 29 - (16 * a + 8 * b + 4 * c) + 2 * d
  {
    hide Xor;
    var m := 8 * h + 4 * a + 2 * b + c;
    XorStep(2 * m + d, 0, 14, 1);
    XorStep(m, d, 7, 0);
    XorSeven(h, a, b, c);
  }

  lemma DoubledIsDouble(z: Byte)
    ensures Double(z) == Doubled(z)
  {
    hide Xor;
    DoubleBound(z);
    if z >= 128 {
      var p := z / 2; var q := p / 2; var r := q / 2; var s := r / 2;
      assert 2 * (z - 128) == 32 * (s - 8) + 16 * (r % 2) + 8 * (q % 2) + 4 * (p % 2) + 2 * (z % 2);
      DoubledHigh(s - 8, r % 2, q % 2, p % 2, z % 2);
      var low := 4 * (r % 2) + 2 * (q % 2) + p % 2;
      ModUnique(p, 8, s, low);
      ModUnique(z, 16, s, 2 * low + z % 2);
    }
  }

  /** Eight steps through the powers of the generator. */
  lemma Run(i: nat, a: Byte, b: Byte, c: Byte, d: Byte, e: Byte, f: Byte, g: Byte, h: Byte, k: Byte)
    requires Power(i) == a
    requires Doubled(a) == b && Doubled(b) == c && Doubled(c) == d && Doubled(d) == e
    requires Doubled(e) == f && Doubled(f) == g && Doubled(g) == h && Doubled(h) == k
    ensures Power(i + 1) == b && Power(i + 2) == c && Power(i + 3) == d && Power(i + 4) == e
    ensures Power(i + 5) == f && Power(i + 6) == g && Power(i + 7) == h && Power(i + 8) == k
  {
    hide Doubled, Double;
    DoubledIsDouble(a); DoubledIsDouble(b); DoubledIsDouble(c); DoubledIsDouble(d);
    DoubledIsDouble(e); DoubledIsDouble(f); DoubledIsDouble(g); DoubledIsDouble(h);
  }

  lemma PowerZero()
    ensures Power(0) == 1
  {
  }

  lemma Powers32()
    ensures Power(15) == 38 && Power(32) == 157
  {
    PowerZero();
    hide Power;
    Run(0, 1, 2, 4, 8, 16, 32, 64, 128, 29);
    Run(8, 29, 58, 116, 232, 205, 135, 19, 38, 76);
    Run(16, 76, 152, 45, 90, 180, 117, 234, 201, 143);
    Run(24, 143, 3, 6, 12, 24, 48, 96, 192, 157);
  }

  lemma Powers64()
    ensures Power(51) == 10 && Power(64) == 95
  {
    hide Power;
    Powers32();
    Run(32, 157, 39, 78, 156, 37, 74, 148, 53, 106);
    Run(40, 106, 212, 181, 119, 238, 193, 159, 35, 70);
    Run(48, 70, 140, 5, 10, 20, 40, 80, 160, 93);
    Run(56, 93, 186, 105, 210, 185, 111, 222, 161, 95);
  }

  lemma Powers96()
    ensures Power(85) == 214 && Power(96) == 217
  {
    hide Power;
    Powers64();
    Run(64, 95, 190, 97, 194, 153, 47, 94, 188, 101);
    Run(72, 101, 202, 137, 15, 30, 60, 120, 240, 253);
    Run(80, 253, 231, 211, 187, 107, 214, 177, 127, 254);
    Run(88, 254, 225, 223, 163, 91, 182, 113, 226, 217);
  }

  lemma Powers128()
    ensures Power(128) == 133
  {
    hide Power;
    Powers96();
    Run(96, 217, 175, 67, 134, 17, 34, 68, 136, 13);
    Run(104, 13, 26, 52, 104, 208, 189, 103, 206, 129);
    Run(112, 129, 31, 62, 124, 248, 237, 199, 147, 59);
    Run(120, 59, 118, 236, 197, 151, 51, 102, 204, 133);
  }

  lemma Powers160()
    ensures Power(160) == 230
  {
    hide Power;
    Powers128();
    Run(128, 133, 23, 46, 92, 184, 109, 218, 169, 79);
    Run(136, 79, 158, 33, 66, 132, 21, 42, 84, 168);
    Run(144, 168, 77, 154, 41, 82, 164, 85, 170, 73);
    Run(152, 73, 146, 57, 114, 228, 213, 183, 115, 230);
  }

  lemma Powers192()
    ensures Power(192) == 130
  {
    hide Power;
    Powers160();
    Run(160, 230, 209, 191, 99, 198, 145, 63, 126, 252);
    Run(168, 252, 229, 215, 179, 123, 246, 241, 255, 227);
    Run(176, 227, 219, 171, 75, 150, 49, 98, 196, 149);
    Run(184, 149, 55, 110, 220, 165, 87, 174, 65, 130);
  }

  lemma Powers224()
    ensures Power(224) == 18
  {
    hide Power;
    Powers192();
    Run(192, 130, 25, 50, 100, 200, 141, 7, 14, 28);
    Run(200, 28, 56, 112, 224, 221, 167, 83, 166, 81);
    Run(208, 81, 162, 89, 178, 121, 242, 249, 239, 195);
    Run(216, 195, 155, 43, 86, 172, 69, 138, 9, 18);
  }

  lemma Powers256()
    ensures Power(255) == 1
  {
    hide Power;
    Powers224();
    Run(224, 18, 36, 72, 144, 61, 122, 244, 245, 247);
    Run(232, 247, 243, 251, 235, 203, 139, 11, 22, 44);
    Run(240, 44, 88, 176, 125, 250, 233, 207, 131, 27);
    Run(248, 27, 54, 108, 216, 173, 71, 142, 1, 2);
  }

  lemma PowerInjective(i: nat, j: nat)
    requires i <= j && Power(i) == Power(j)
    ensures Power(j - i) == 1
  {
    ShiftShift(1, j - i, i);
    ShiftInjective(Power(j - i), 1, i);
  }

  lemma {:induction false} PowerMultiple(d: nat, k: nat, n: nat)
    requires Power(d) == 1 && n == k * d
    ensures Power(n) == 1
  {
    PowerZero();
    hide Power, Mul;
    if k > 0 {
      assert n - d == (k - 1) * d;
      PowerMultiple(d, k - 1, n - d);
      PowerAdds(d, n - d);
      MulOne(1);
    }
  }

  /** Euclid's algorithm on exponents: whatever has r^m == r^n == 1 has r^d == 1 for a divisor d of both. */
  lemma {:induction false} CommonDivisor(m: nat, n: nat) returns (d: nat, p: nat, q: nat)
    requires m > 0 && n > 0
    requires Power(m) == 1 == Power(n)
    ensures d > 0 && Power(d) == 1
    ensures m == p * d && n == q * d
    decreases m + n
  {
    PowerZero();
    hide Power;
    if m == n {
      d, p, q := m, 1, 1;
    } else if m < n {
      PowerInjective(m, n);
      d, p, q := CommonDivisor(m, n - m);
      q := p + q;
    } else {
      PowerInjective(n, m);
      d, p, q := CommonDivisor(m - n, n);
      p := p + q;
    }
  }

  /** A factor of 255 other than 1 is a multiple of 3, of 5 or of 17. */
  lemma FactorOf255(p: nat, d: nat) returns (k: nat)
    requires p * d == 255 && p > 1
    ensures p == 3 * k || p == 5 * k || p == 17 * k
  {
    if p <= 15 {
      SmallFactor(p, d);
      k := if p == 3 then 1 else if p == 5 then 1 else 3;
    } else {
      if d > 16 {
        LargeFactors(p, d);
        assert false;
      }
      SmallFactor(d, p);
      k := p / 17;
    }
  }

  lemma LargeFactors(p: nat, d: nat)
    requires p >= 16 && d >= 16
    ensures p * d >= 256
  {
    assert p * d == (p - 16) * (d - 16) + 16 * p + 16 * d - 256;
  }

  lemma SmallFactor(p: nat, d: nat)
    requires p * d == 255 && p <= 16
    ensures (p == 1 && d == 255) || (p == 3 && d == 85) || (p == 5 && d == 51) || (p == 15 && d == 17)
  {
    if p == 2 { }
    else if p == 4 { }
    else if p == 6 { }
    else if p == 7 { }
    else if p == 8 { }
    else if p == 9 { }
    else if p == 10 { }
    else if p == 11 { }
    else if p == 12 { }
    else if p == 13 { }
    else if p == 14 { }
    else if p == 16 { }
  }

  /** r has order 255: no smaller power of it is one. */
  lemma Order(n: nat)
    requires 0 < n < 255
    ensures Power(n) != 1
  {
    hide Power;
    Powers32(); Powers64(); Powers96(); Powers256();
    if Power(n) == 1 {
      var d, p, q := CommonDivisor(255, n);
      if p > 1 {
        var k := FactorOf255(p, d);
        PowerMultiple(d, k, k * d);
        Cofactor(p, k, d);
        assert false;
      } else {
        if q > 0 {
          assert false;
        }
      }
    }
  }

  lemma Cofactor(p: nat, k: nat, d: nat)
    requires p * d == 255
    requires p == 3 * k || p == 5 * k || p == 17 * k
    ensures k * d == 85 || k * d == 51 || k * d == 15
  {
    if p == 3 * k {
      assert p * d == 3 * (k * d);
    } else if p == 5 * k {
      assert p * d == 5 * (k * d);
    } else {
      assert p * d == 17 * (k * d);
    }
  }

  /** The first 255 powers of r are pairwise different. */
  lemma PowersDistinct(i: nat, j: nat)
    requires i < j < i + 255
    ensures Power(i) != Power(j)
  {
    if Power(i) == Power(j) {
      PowerInjective(i, j);
      Order(j - i);
    }
  }

  /** The powers r^0 .. r^(n-1) */
  ghost function PowerSet(n: nat): set<Byte> {
    set i: nat | i < n :: Power(i)
  }

  lemma {:induction false} PowerSetSize(n: nat)
    requires n <= 255
    ensures |PowerSet(n)| == n
  {
    if n > 0 {
      PowerSetSize(n - 1);
      assert PowerSet(n) == PowerSet(n - 1) + {Power(n - 1)};
      if Power(n - 1) in PowerSet(n - 1) {
        var i: nat :| i < n - 1 && Power(i) == Power(n - 1);
        PowersDistinct(i, n - 1);
      }
    }
  }

  /** The non-zero bytes below n */
  ghost function NonZeroBytes(n: nat): (s: set<Byte>)
    requires n <= 256
    ensures forall b: Byte :: b in s <==> 0 < b < n
    ensures |s| == if n == 0 then 0 else n - 1
  {
    if n <= 1 then {} else NonZeroBytes(n - 1) + {n - 1}
  }

  /** Every non-zero byte is a power of r. */
  lemma Logarithm(x: Byte) returns (i: nat)
    requires x != 0
    ensures i < 255 && x == Power(i)
  {
    var s := NonZeroBytes(256);
    var t := PowerSet(255);
    PowerSetSize(255);
    forall b | b in t
      ensures b in s
    {
      var i: nat :| i < 255 && b == Power(i);
      ShiftNonZero(1, i);
    }
    SubsetOfSameSize(t, s);
    assert x in t;
    i :| i < 255 && x == Power(i);
  }

  lemma SubsetOfSameSize<T>(t: set<T>, s: set<T>)
    requires t <= s && |t| == |s|
    ensures t == s
  {
    assert s == t + (s - t);
  }

  lemma NoZeroDivisors(x: Byte, y: Byte)
    requires x != 0 && y != 0
    ensures Mul(x, y) != 0
  {
    var i := Logarithm(x);
    var j := Logarithm(y);
    PowerAdds(i, j);
    ShiftNonZero(1, i + j);
  }
}

/** Bitwise operations on non-negative integers, as JavaScript applies them to small numbers. */
module Bits {

  function Pow2(n: nat): (p: nat)
    ensures p >= 1
  {
    if n == 0 then 1 else 2 * Pow2(n - 1)
  }

  /** Bit k of x, counted from the least significant end: ((x >>> k) & 1) != 0 */
  predicate Bit(x: nat, k: nat) {
    if k == 0 then x % 2 == 1 else Bit(x / 2, k - 1)
  }

  /** x | y */
  function Or(x: nat, y: nat): nat {
    if x == 0 && y == 0 then 0 else 2 * Or(x / 2, y / 2) + (if x % 2 == 1 || y % 2 == 1 then 1 else 0)
  }

  /** x ^ y */
  function Xor(x: nat, y: nat): nat {
    if x == 0 && y == 0 then 0 else 2 * Xor(x / 2, y / 2) + (x + y) % 2
  }

  lemma {:induction false} XorCommutes(x: nat, y: nat)
    ensures Xor(x, y) == Xor(y, x)
  {
    if x != 0 || y != 0 {
      XorCommutes(x / 2, y / 2);
    }
  }

  lemma {:induction false} XorZero(x: nat)
    ensures Xor(x, 0) == x == Xor(0, x)
  {
    if x != 0 {
      XorZero(x / 2);
    }
  }

  lemma {:induction false} XorSelf(x: nat)
    ensures Xor(x, x) == 0
  {
    if x != 0 {
      XorSelf(x / 2);
    }
  }

  /** Bitwise exclusive or, one bit at a time. */
  lemma XorStep(p: nat, a: nat, q: nat, b: nat)
    requires a < 2 && b < 2
    ensures Xor(2 * p + a, 2 * q + b) == 2 * Xor(p, q) + (if a == b then 0 else 1)
  {
    assert (2 * p + a) / 2 == p;
    assert (2 * q + b) / 2 == q;
    Parity(p + q, a + b);
    assert (2 * p + a) + (2 * q + b) == 2 * (p + q) + (a + b);
  }

  lemma Parity(k: nat, c: nat)
    requires c <= 2
    ensures (2 * k + c) % 2 == if c == 1 then 1 else 0
  {
  }

  lemma XorAssociatesStep(p: nat, a: nat, q: nat, b: nat, r: nat, c: nat)
    requires a < 2 && b < 2 && c < 2
    requires Xor(Xor(p, q), r) == Xor(p, Xor(q, r))
    ensures Xor(Xor(2 * p + a, 2 * q + b), 2 * r + c) == Xor(2 * p + a, Xor(2 * q + b, 2 * r + c))
  {
    hide Xor;
    var ab, bc := if a == b then 0 else 1, if b == c then 0 else 1;
    calc {
      Xor(Xor(2 * p + a, 2 * q + b), 2 * r + c);
      { XorStep(p, a, q, b); }
      Xor(2 * Xor(p, q) + ab, 2 * r + c);
      { XorStep(Xor(p, q), ab, r, c); }
      2 * Xor(Xor(p, q), r) + (if ab == c then 0 else 1);
      2 * Xor(p, Xor(q, r)) + (if a == bc then 0 else 1);
      { XorStep(p, a, Xor(q, r), bc); }
      Xor(2 * p + a, 2 * Xor(q, r) + bc);
      { XorStep(q, b, r, c); }
      Xor(2 * p + a, Xor(2 * q + b, 2 * r + c));
    }
  }

  lemma {:induction false} XorAssociates(x: nat, y: nat, z: nat)
    ensures Xor(Xor(x, y), z) == Xor(x, Xor(y, z))
    decreases x + y + z
  {
    hide Xor;
    if x + y + z == 0 {
      XorZero(0);
    } else {
      XorAssociates(x / 2, y / 2, z / 2);
      XorAssociatesStep(x / 2, x % 2, y / 2, y % 2, z / 2, z % 2);
    }
  }

  /** Two sums of two may be regrouped. */
  lemma XorSwap(a: nat, b: nat, c: nat, d: nat)
    ensures Xor(Xor(a, b), Xor(c, d)) == Xor(Xor(a, c), Xor(b, d))
  {
    XorAssociates(a, b, Xor(c, d));
    XorAssociates(b, c, d);
    XorCommutes(b, c);
    XorAssociates(c, b, d);
    XorAssociates(a, c, Xor(b, d));
  }

  lemma {:induction false} XorBit(x: nat, y: nat, k: nat)
    ensures Bit(Xor(x, y), k) == (Bit(x, k) != Bit(y, k))
  {
    var p, a := x / 2, x % 2;
    var q, b := y / 2, y % 2;
    XorStep(p, a, q, b);
    if k > 0 {
      XorBit(p, q, k - 1);
      assert Xor(x, y) / 2 == Xor(p, q);
    }
  }

  lemma {:induction false} XorBound(x: nat, y: nat, n: nat)
    requires x < Pow2(n) && y < Pow2(n)
    ensures Xor(x, y) < Pow2(n)
  {
    if n > 0 {
      XorBound(x / 2, y / 2, n - 1);
    }
  }

  lemma {:induction false} XorPow2(x: nat, n: nat)
    requires x < Pow2(n)
    ensures Xor(x, Pow2(n)) == x + Pow2(n)
  {
    if n > 0 {
      XorPow2(x / 2, n - 1);
      XorStep(x / 2, x % 2, Pow2(n - 1), 0);
    } else {
      XorZero(1);
    }
  }

  lemma XorDouble(x: nat, y: nat)
    ensures Xor(2 * x, 2 * y) == 2 * Xor(x, y)
  {
    XorStep(x, 0, y, 0);
  }

  lemma {:induction false} Pow2Adds(m: nat, n: nat)
    ensures Pow2(m + n) == Pow2(m) * Pow2(n)
  {
    if m > 0 {
      Pow2Adds(m - 1, n);
    }
  }

  /** Cancelling a common summand. */
  lemma XorCancel(x: nat, y: nat)
    ensures Xor(Xor(x, y), y) == x
    ensures Xor(y, Xor(y, x)) == x
  {
    XorAssociates(x, y, y);
    XorAssociates(y, y, x);
    XorSelf(y);
    XorZero(x);
  }
}

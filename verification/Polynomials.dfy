/** Polynomials over the byte field, as coefficient lists from the highest power to the lowest. */
module Polynomials {
  import opened Gf256

  type Poly = seq<Byte>

  function Zeros(n: nat): (z: Poly)
    ensures |z| == n && forall i :: 0 <= i < n ==> z[i] == 0
  {
    seq(n, _ => 0)
  }

  function Scale(p: Poly, a: Byte): (r: Poly)
    ensures |r| == |p|
    ensures forall i :: 0 <= i < |p| ==> r[i] == Mul(p[i], a)
  {
    seq(|p|, i requires 0 <= i < |p| => Mul(p[i], a))
  }

  function Sum(p: Poly, q: Poly): (r: Poly)
    requires |p| == |q|
    ensures |r| == |p|
    ensures forall i :: 0 <= i < |p| ==> r[i] == Add(p[i], q[i])
  {
    seq(|p|, i requires 0 <= i < |p| => Add(p[i], q[i]))
  }

  /** The value of p at x */
  function Eval(p: Poly, x: Byte): Byte {
    if p == [] then 0 else Add(Mul(Eval(p[..|p| - 1], x), x), p[|p| - 1])
  }

  /** p(x) * (x - a) */
  function TimesRoot(p: Poly, a: Byte): Poly {
    Sum(p + [0], [0] + Scale(p, a))
  }

  /** q(x) * g(x), for a non-empty g */
  function Product(q: Poly, g: Poly): (r: Poly)
    requires g != []
    ensures |r| == |q| + |g| - 1
  {
    if q == [] then Zeros(|g| - 1)
    else
      var k := |q| - 1;
      Sum(Product(q[..k], g) + [0], Zeros(k) + Scale(g, q[k]))
  }

  lemma {:induction false} EvalSum(p: Poly, q: Poly, x: Byte)
    requires |p| == |q|
    ensures Eval(Sum(p, q), x) == Add(Eval(p, x), Eval(q, x))
  {
    if p == [] {
      AddLaws(0, 0, 0);
    } else {
      hide Add, Mul;
      var k := |p| - 1;
      assert Sum(p, q)[..k] == Sum(p[..k], q[..k]);
      EvalSum(p[..k], q[..k], x);
      var a, b := Eval(p[..k], x), Eval(q[..k], x);
      MulAdds(x, a, b);
      AddSwap(Mul(a, x), Mul(b, x), p[k], q[k]);
    }
  }

  lemma {:induction false} EvalScale(p: Poly, a: Byte, x: Byte)
    ensures Eval(Scale(p, a), x) == Mul(Eval(p, x), a)
  {
    if p == [] {
      MulZero(a);
    } else {
      hide Add, Mul;
      var k := |p| - 1;
      assert Scale(p, a)[..k] == Scale(p[..k], a);
      EvalScale(p[..k], a, x);
      var v := Eval(p[..k], x);
      MulAssociates(v, a, x);
      MulCommutes(a, x);
      MulAssociates(v, x, a);
      MulAdds(a, Mul(v, x), p[k]);
    }
  }

  lemma {:induction false} EvalZeros(n: nat, q: Poly, x: Byte)
    ensures Eval(Zeros(n) + q, x) == Eval(q, x)
  {
    hide Add, Mul;
    MulZero(x);
    AddLaws(0, 0, 0);
    if q == [] {
      assert Zeros(n) + q == Zeros(n);
      if n > 0 {
        assert Zeros(n)[..n - 1] == Zeros(n - 1);
        EvalZeros(n - 1, q, x);
        assert Zeros(n - 1) + q == Zeros(n - 1);
      }
    } else {
      var k := |q| - 1;
      assert (Zeros(n) + q)[..n + k] == Zeros(n) + q[..k];
      EvalZeros(n, q[..k], x);
    }
  }

  lemma EvalAppendZero(p: Poly, x: Byte)
    ensures Eval(p + [0], x) == Mul(Eval(p, x), x)
  {
    hide Mul;
    assert (p + [0])[..|p|] == p;
    AddLaws(Mul(Eval(p, x), x), 0, 0);
  }

  /** Evaluation turns the factor (x - a) into a multiplication. */
  lemma EvalTimesRoot(p: Poly, a: Byte, x: Byte)
    ensures Eval(TimesRoot(p, a), x) == Mul(Eval(p, x), Add(x, a))
  {
    hide Add, Mul;
    EvalSum(p + [0], [0] + Scale(p, a), x);
    EvalAppendZero(p, x);
    assert [0] + Scale(p, a) == Zeros(1) + Scale(p, a);
    EvalZeros(1, Scale(p, a), x);
    EvalScale(p, a, x);
    MulAdds(Eval(p, x), x, a);
  }

  /** Evaluation turns the product into a multiplication. */
  lemma {:induction false} EvalProduct(q: Poly, g: Poly, x: Byte)
    requires g != []
    ensures Eval(Product(q, g), x) == Mul(Eval(q, x), Eval(g, x))
  {
    hide Add, Mul;
    if q == [] {
      EvalZeros(|g| - 1, [], x);
      assert Zeros(|g| - 1) + [] == Zeros(|g| - 1);
      MulZero(Eval(g, x));
    } else {
      var k := |q| - 1;
      var p := Product(q[..k], g);
      EvalProduct(q[..k], g, x);
      EvalSum(p + [0], Zeros(k) + Scale(g, q[k]), x);
      EvalAppendZero(p, x);
      EvalZeros(k, Scale(g, q[k]), x);
      EvalScale(g, q[k], x);
      var a, e := Eval(q[..k], x), Eval(g, x);
      MulAssociates(a, e, x);
      MulCommutes(e, x);
      MulAssociates(a, x, e);
      MulCommutes(e, q[k]);
      MulAdds(e, Mul(a, x), q[k]);
    }
  }
}

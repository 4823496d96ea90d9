/** The error correction codewords: remainders of polynomial division over the byte field.
    Source: web/src/lib/qrcode.js, lines 1320-1382. */
module ReedSolomon {
  import opened Wrappers
  import opened Bits
  import opened Gf256
  import opened Generator
  import opened Polynomials

  // ---------- The product of two field elements ----------

  lemma EvenPlusBit(q: Byte, b: nat)
    requires q < 128 && b < 2
    ensures 2 * q + b == Add(2 * q, b) && 2 * q == Shift(q, 1)
  {
    XorStep(q, 0, 0, b);
    XorZero(q);
    hide Xor;
    DoubleBound(q);
    assert Shift(q, 1) == Double(Shift(q, 0));
  }

  lemma Horner(x: Byte, q: nat, b: nat)
    requires q < 128 && b < 2
    ensures Mul(x, 2 * q + b) == Xor(Double(Mul(x, q)), b * x)
  {
    hide Mul, Xor, Double;
    EvenPlusBit(q, b);
    MulShift(x, q, 1);
    assert Shift(Mul(x, q), 1) == Double(Shift(Mul(x, q), 0));
    MulAdds(x, 2 * q, b);
    MulOne(x);
    MulCommutes(x, 1);
    MulZero(x);
  }

  /** Russian peasant multiplication, from the most significant bit of y down. */
  method Multiply(x: Byte, y: Byte) returns (z: Byte)
    ensures z == Mul(x, y)
  {
    MulZero(x);
    Pow2Steps();
    hide Mul, Xor, Pow2;
    var acc: nat := 0;
    var i := 7;
    while i >= 0
      invariant -1 <= i <= 7
      invariant acc == Mul(x, y / Pow2(i + 1)) && y / Pow2(i + 1) < 256
    {
      var q := y / Pow2(i + 1);
      NextQuotient(y, i);
      Horner(x, q, y / Pow2(i) % 2);
      ReductionTerm(acc);
      acc := Xor(acc * 2, (acc / 128) * 0x11D);
      acc := Xor(acc, (y / Pow2(i) % 2) * x);
      i := i - 1;
    }
    z := acc;
  }

  lemma NextQuotient(y: Byte, i: nat)
    ensures y / Pow2(i) == 2 * (y / Pow2(i + 1)) + y / Pow2(i) % 2 < 256
    ensures y / Pow2(i + 1) < 128
  {
    HalfQuotient(y, Pow2(i));
    SmallQuotient(y, Pow2(i));
  }

  lemma HalfQuotient(y: nat, p: nat)
    requires p > 0
    ensures y / p == 2 * (y / (2 * p)) + y / p % 2
  {
    var h, a, r := y / p / 2, y / p % 2, y % p;
    assert y == (2 * h + a) * p + r;
    assert y == h * (2 * p) + (a * p + r);
    ModUnique(y, 2 * p, h, a * p + r);
  }

  lemma SmallQuotient(y: nat, p: nat)
    requires p > 0 && y < 256
    ensures y / (2 * p) < 128
  {
    HalfQuotient(y, p);
    assert y / p * p <= y;
    if y / p >= 256 {
      Product256(y / p, p);
    }
  }

  lemma Product256(k: nat, p: nat)
    requires p > 0 && k >= 256
    ensures k * p >= 256
  {
  }

  // ---------- The generator polynomial ----------

  /** (x - r^0) * (x - r^1) * ... * (x - r^(n-1)) */
  function GeneratorPoly(n: nat): (g: Poly)
    ensures |g| == n + 1
  {
    if n == 0 then [1] else TimesRoot(GeneratorPoly(n - 1), Power(n - 1))
  }

  lemma {:induction false} Monic(n: nat)
    ensures GeneratorPoly(n)[0] == 1
  {
    if n > 0 {
      Monic(n - 1);
      AddLaws(1, 0, 0);
    }
  }

  /** The generator polynomial vanishes at r^0 .. r^(n-1) and nowhere else. */
  lemma {:induction false} GeneratorRoots(n: nat, x: Byte)
    ensures Eval(GeneratorPoly(n), x) == 0 <==> exists i: nat :: i < n && x == Power(i)
  {
    hide Add, Mul, Power, TimesRoot;
    if n == 0 {
      assert Eval([1], x) == Add(Mul(Eval([1][..0], x), x), 1);
      MulZero(x);
      AddLaws(1, 0, 0);
    } else {
      var g, a := GeneratorPoly(n - 1), Power(n - 1);
      GeneratorRoots(n - 1, x);
      EvalTimesRoot(g, a, x);
      AddLaws(x, a, a);
      MulZero(Eval(g, x));
      MulZero(Add(x, a));
      if Add(x, a) == 0 {
        SumZero(x, a);
        assert n - 1 < n && x == Power(n - 1);
      } else if Eval(g, x) == 0 {
        var i: nat :| i < n - 1 && x == Power(i);
        assert i < n && x == Power(i);
      } else {
        NoZeroDivisors(Eval(g, x), Add(x, a));
        assert x != a by { AddLaws(a, a, a); }
        if i: nat :| i < n && x == Power(i) {
          assert false;
        }
      }
    }
  }

  lemma SumZero(x: Byte, a: Byte)
    requires Add(x, a) == 0
    ensures x == a
  {
    XorEqualsZero(x, a);
  }

  // ---------- Division ----------

  /** One step of the division: bring down the next data byte b and cancel the leading term. */
  function NextRemainder(r: Poly, b: Byte, g: Poly): (s: Poly)
    requires |r| > 0 && |g| == |r| + 1
    ensures |s| == |r|
  {
    Sum(r[1..] + [0], Scale(g[1..], Add(b, r[0])))
  }

  /** The remainder the division loop leaves after all of data. */
  function Remainder(data: Poly, g: Poly): (r: Poly)
    requires |g| > 1
    ensures |r| == |g| - 1
  {
    if data == [] then Zeros(|g| - 1)
    else NextRemainder(Remainder(data[..|data| - 1], g), data[|data| - 1], g)
  }

  /** r completes data to a multiple of g: data(x) * x^degree + r(x) == q(x) * g(x) */
  ghost predicate Completes(data: Poly, r: Poly, q: Poly, g: Poly)
    requires |g| > 1
  {
    |r| == |g| - 1 && |q| == |data| && data + r == Product(q, g)
  }

  lemma CompletesNext(data: Poly, r: Poly, q: Poly, g: Poly, b: Byte)
    requires |g| > 1 && g[0] == 1
    requires Completes(data, r, q, g)
    ensures Completes(data + [b], NextRemainder(r, b, g), q + [Add(b, r[0])], g)
  {
    hide Add, Mul;
    var k, f := |data|, Add(b, r[0]);
    var q' := q + [f];
    assert q'[..k] == q;
    var left, right := Product(q, g) + [0], Zeros(k) + Scale(g, f);
    var whole, next := data + [b] + NextRemainder(r, b, g), Sum(left, right);
    assert Product(q', g) == next;
    forall i | 0 <= i < |whole|
      ensures whole[i] == next[i]
    {
      if i < k {
        AddLaws(data[i], 0, 0);
      } else if i == k {
        MulOne(f);
        AddLaws(b, r[0], r[0]);
        AddLaws(r[0], f, f);
        AddLaws(r[0], b, b);
        AddLaws(b, 0, 0);
      } else if i + 1 < |whole| {
        assert left[i] == r[i - k];
      }
    }
    assert whole == next;
  }

  /** The loop's remainder completes the data to a multiple of g. */
  lemma {:induction false} RemainderCompletes(data: Poly, g: Poly) returns (q: Poly)
    requires |g| > 1 && g[0] == 1
    ensures Completes(data, Remainder(data, g), q, g)
  {
    if data == [] {
      q := [];
      assert [] + Zeros(|g| - 1) == Zeros(|g| - 1);
    } else {
      var k := |data| - 1;
      q := RemainderCompletes(data[..k], g);
      CompletesNext(data[..k], Remainder(data[..k], g), q, g, data[k]);
      q := q + [Add(data[k], Remainder(data[..k], g)[0])];
      assert data[..k] + [data[k]] == data;
    }
  }

  /** The leading coefficients of a multiple of a monic g */
  lemma ProductAt(p: Poly, g: Poly, i: nat)
    requires g != [] && g[0] == 1 && i < |p|
    ensures var k := |p| - 1;
            var a := Product(p[..k], g) + [0];
            i < |a| && k < |a| && Product(p, g)[i] == if i < k then a[i] else Add(a[k], p[k])
  {
    hide Add, Mul;
    var k := |p| - 1;
    var a := Product(p[..k], g) + [0];
    MulOne(p[k]);
    AddLaws(a[i], 0, 0);
    assert i < k ==> (Zeros(k) + Scale(g, p[k]))[i] == 0;
    assert (Zeros(k) + Scale(g, p[k]))[k] == Mul(g[0], p[k]);
  }

  /** A multiple of a monic g determines its factor, coefficient by coefficient. */
  lemma {:induction false} ProductDeterminesFactor(p: Poly, q: Poly, g: Poly)
    requires g != [] && g[0] == 1 && |p| == |q|
    requires forall i :: 0 <= i < |p| ==> Product(p, g)[i] == Product(q, g)[i]
    ensures p == q
  {
    hide Add, Mul, Product;
    if p != [] {
      var k := |p| - 1;
      forall i | 0 <= i < k
        ensures Product(p[..k], g)[i] == Product(q[..k], g)[i]
      {
        ProductAt(p, g, i);
        ProductAt(q, g, i);
      }
      ProductDeterminesFactor(p[..k], q[..k], g);
      ProductAt(p, g, k);
      ProductAt(q, g, k);
      AddCancels((Product(p[..k], g) + [0])[k], p[k], q[k]);
      assert p == p[..k] + [p[k]] && q == q[..k] + [q[k]];
    }
  }

  /** The computed bytes are the one and only remainder. */
  lemma RemainderUnique(data: Poly, g: Poly, r: Poly, q: Poly)
    requires |g| > 1 && g[0] == 1
    requires Completes(data, r, q, g)
    ensures r == Remainder(data, g)
  {
    var q' := RemainderCompletes(data, g);
    hide Remainder, Product;
    ProductDeterminesFactor(q, q', g);
    assert r == (data + r)[|data|..] == (data + Remainder(data, g))[|data|..] == Remainder(data, g);
  }

  /** A block with its error correction codewords evaluates to zero at r^0 .. r^(n-1). */
  lemma CodewordRoots(data: Poly, n: nat, i: nat)
    requires 0 <= i < n
    ensures Eval(data + Remainder(data, GeneratorPoly(n)), Power(i)) == 0
  {
    var g := GeneratorPoly(n);
    Monic(n);
    var q := RemainderCompletes(data, g);
    EvalProduct(q, g, Power(i));
    GeneratorRoots(n, Power(i));
    MulZero(Eval(q, Power(i)));
  }

  /** Error correction codewords are linear in the data. */
  lemma {:induction false} RemainderLinear(a: Poly, b: Poly, g: Poly)
    requires |g| > 1 && |a| == |b|
    ensures Remainder(Sum(a, b), g) == Sum(Remainder(a, g), Remainder(b, g))
  {
    hide Add, Mul;
    AddLaws(0, 0, 0);
    if a != [] {
      var k := |a| - 1;
      RemainderLinear(a[..k], b[..k], g);
      assert Sum(a, b)[..k] == Sum(a[..k], b[..k]);
      var r, s := Remainder(a[..k], g), Remainder(b[..k], g);
      hide Remainder;
      NextLinear(r, s, a[k], b[k], g);
    }
  }

  lemma NextLinear(r: Poly, s: Poly, a: Byte, b: Byte, g: Poly)
    requires |r| == |s| > 0 && |g| == |r| + 1
    ensures NextRemainder(Sum(r, s), Add(a, b), g) == Sum(NextRemainder(r, a, g), NextRemainder(s, b, g))
  {
    hide Add, Mul;
    AddLaws(0, 0, 0);
    var e, f := Add(a, r[0]), Add(b, s[0]);
    AddSwap(a, b, r[0], s[0]);
    var left, right := NextRemainder(Sum(r, s), Add(a, b), g), Sum(NextRemainder(r, a, g), NextRemainder(s, b, g));
    forall i | 0 <= i < |left|
      ensures left[i] == right[i]
    {
      var c := g[1..][i];
      MulAdds(c, e, f);
      AddSwap((r[1..] + [0])[i], (s[1..] + [0])[i], Mul(c, e), Mul(c, f));
    }
    assert left == right;
  }

  // ---------- The generator object ----------

  /** The coefficients that are stored after i of the factors have been multiplied in: the lowest
      `degree` ones, padded with zeros. */
  function Stored(i: nat, degree: nat): (c: Poly)
    ensures |c| == degree
  {
    (Zeros(degree) + GeneratorPoly(i))[i + 1..]
  }

  /** Multiplying the stored product by (x - r^i) in place. */
  lemma StoredNext(i: nat, degree: nat, j: nat)
    requires j < degree
    ensures Stored(i + 1, degree)[j]
         == Add(Mul(Stored(i, degree)[j], Power(i)), if j + 1 < degree then Stored(i, degree)[j + 1] else 0)
  {
    hide Add, Mul, Power, Stored, TimesRoot;
    var g, root := GeneratorPoly(i), Power(i);
    StoredAt(i, degree, j);
    StoredAt(i + 1, degree, j);
    MulZero(root);
    AddLaws(0, 0, 0);
    if j + 1 < degree {
      StoredAt(i, degree, j + 1);
    }
    if i + 2 + j >= degree {
      TimesRootAt(g, root, i + 2 + j - degree);
    }
  }

  lemma StoredAt(i: nat, degree: nat, j: nat)
    requires j < degree
    ensures Stored(i, degree)[j] == if i + 1 + j < degree then 0 else GeneratorPoly(i)[i + 1 + j - degree]
  {
    hide GeneratorPoly;
  }

  /** The coefficients of g(x) * (x - root) */
  lemma TimesRootAt(g: Poly, root: Byte, t: nat)
    requires t <= |g|
    ensures TimesRoot(g, root)[t] == Add(if t == 0 then 0 else Mul(g[t - 1], root), if t < |g| then g[t] else 0)
  {
    hide Add, Mul;
    AddLaws((g + [0])[t], ([0] + Scale(g, root))[t], 0);
  }

  lemma StoredFirst(degree: nat)
    requires degree > 0
    ensures Stored(0, degree) == Zeros(degree - 1) + [1]
  {
  }

  lemma StoredLast(degree: nat)
    ensures Stored(degree, degree) == GeneratorPoly(degree)[1..]
  {
  }

  class ReedSolomonGenerator {
    const coefficients: array<Byte>

    /** Holds the generator polynomial without its leading coefficient, which is always 1. */
    ghost predicate Valid()
      reads coefficients
    {
      coefficients.Length >= 1 && coefficients[..] == GeneratorPoly(coefficients.Length)[1..]
    }

    constructor (degree: nat)
      requires 1 <= degree <= 255
      ensures Valid() && coefficients.Length == degree
      ensures fresh(coefficients)
    {
      hide Power, Xor, GeneratorPoly;
      PowerZero();
      StoredFirst(degree);
      StoredLast(degree);
      coefficients := new Byte[degree](_ => 0);
      new;
      coefficients[degree - 1] := 1;
      assert coefficients[..] == Zeros(degree - 1) + [1];
      var root: Byte := 1;
      for i := 0 to degree
        invariant coefficients[..] == Stored(i, degree)
        invariant root == Power(i)
      {
        MultiplyIn(i, root);
        DoubleNext(i, root);
        root := Xor(root * 2, (root / 128) * 0x11D);
      }
    }

    method MultiplyIn(ghost i: nat, root: Byte)
      requires root == Power(i)
      requires coefficients[..] == Stored(i, coefficients.Length)
      modifies coefficients
      ensures coefficients[..] == Stored(i + 1, coefficients.Length)
    {
      hide Add, Mul, Power, Stored, Xor;
      var n := coefficients.Length;
      ghost var before := coefficients[..];
      for j := 0 to n
        invariant forall k :: 0 <= k < j ==> coefficients[k] == Stored(i + 1, n)[k]
        invariant forall k :: j <= k < n ==> coefficients[k] == before[k]
      {
        StoredNext(i, n, j);
        AddLaws(Mul(coefficients[j], root), 0, 0);
        var product := Multiply(coefficients[j], root);
        coefficients[j] := product;
        if j + 1 < n {
          coefficients[j] := Add(coefficients[j], coefficients[j + 1]);
        }
      }
      assert coefficients[..] == Stored(i + 1, n);
    }

    /** The error correction codewords of a block of data. */
    method GetRemainder(data: seq<Byte>) returns (result: seq<Byte>)
      requires Valid()
      ensures result == Remainder(data, GeneratorPoly(coefficients.Length))
    {
      hide Add, Mul, GeneratorPoly;
      ghost var g := GeneratorPoly(coefficients.Length);
      var n := coefficients.Length;
      result := Zeros(n);
      for k := 0 to |data|
        invariant result == Remainder(data[..k], g)
      {
        ghost var r := result;
        var factor := Add(data[k], result[0]);
        result := result[1..] + [0];
        ghost var shifted := result;
        for i := 0 to n
          invariant |result| == n
          invariant forall m :: 0 <= m < i ==> result[m] == NextRemainder(r, data[k], g)[m]
          invariant forall m :: i <= m < n ==> result[m] == shifted[m]
        {
          var product := Multiply(coefficients[i], factor);
          result := result[i := Add(result[i], product)];
        }
        assert result == NextRemainder(r, data[k], g);
        assert data[..k + 1][..k] == data[..k];
      }
      assert data[..|data|] == data;
    }
  }

  lemma DoubleNext(i: nat, root: Byte)
    requires root == Power(i)
    ensures Xor(root * 2, (root / 128) * 0x11D) == Power(i + 1)
  {
    hide Xor;
    ReductionTerm(root);
    assert Shift(1, i + 1) == Double(Shift(1, i));
  }

  /** (z >>> 7) * 0x11D */
  lemma ReductionTerm(z: nat)
    requires z < 256
    ensures (z / 128) * 0x11D == if z >= 128 then 0x11D else 0
  {
    ModUnique(z, 128, if z >= 128 then 1 else 0, if z >= 128 then z - 128 else z);
  }

  /** Only a degree from 1 to 255 makes a generator. */
  method NewGenerator(degree: int) returns (r: Result<ReedSolomonGenerator>)
    ensures r.Ok? <==> 1 <= degree <= 255
    ensures r.Ok? ==>
      fresh(r.value) && fresh(r.value.coefficients) && r.value.Valid() && r.value.coefficients.Length == degree
  {
    if degree < 1 || degree > 255 {
      return Err("Degree out of range");
    }
    var g := new ReedSolomonGenerator(degree);
    return Ok(g);
  }
}

/** How far apart blocks with error correction codewords are: two blocks with different data differ in
    more places than there are error correction codewords, so damage to at most half as many bytes
    leaves the original block identifiable. */
module Distance {
  import opened Gf256
  import opened Generator
  import opened Polynomials
  import opened ReedSolomon

  /** The number of non-zero coefficients */
  function Weight(e: Poly): (w: nat)
    ensures w <= |e|
  {
    if e == [] then 0 else (if e[0] != 0 then 1 else 0) + Weight(e[1..])
  }

  /** The number of positions in which p and q differ */
  function Differences(p: Poly, q: Poly): nat
    requires |p| == |q|
  {
    if p == [] then 0 else (if p[0] != q[0] then 1 else 0) + Differences(p[1..], q[1..])
  }

  /** x^k */
  function Exp(x: Byte, k: nat): Byte {
    if k == 0 then 1 else Mul(Exp(x, k - 1), x)
  }

  lemma {:induction false} ExpPower(m: nat, k: nat, n: nat)
    requires n == m * k
    ensures Exp(Power(m), k) == Power(n)
  {
    PowerZero();
    hide Power, Mul;
    if k > 0 {
      assert n - m == m * (k - 1);
      ExpPower(m, k - 1, n - m);
      PowerAdds(n - m, m);
    }
  }

  lemma {:induction false} EvalFront(c: Byte, t: Poly, x: Byte)
    ensures Eval([c] + t, x) == Add(Mul(c, Exp(x, |t|)), Eval(t, x))
  {
    hide Add, Mul;
    if t == [] {
      assert [c][..0] == [];
      MulZero(x);
      AddLaws(c, 0, 0);
      MulCommutes(c, 1);
      MulOne(c);
      assert Eval([c], x) == Add(Mul(Eval([], x), x), c);
    } else {
      var k := |t| - 1;
      assert ([c] + t)[..k + 1] == [c] + t[..k];
      EvalFront(c, t[..k], x);
      var a, b := Mul(c, Exp(x, k)), Eval(t[..k], x);
      MulAdds(x, a, b);
      MulAssociates(c, Exp(x, k), x);
      AddLaws(Mul(a, x), Mul(b, x), t[k]);
    }
  }

  /** The sum over the positions j of e[j] * L(X_j), where X_j = r^(|e| - 1 - j) locates position j. */
  function Weighted(e: Poly, L: Poly): Byte {
    if e == [] then 0 else Add(Mul(e[0], Eval(L, Power(|e| - 1))), Weighted(e[1..], L))
  }

  lemma {:induction false} WeightedEmpty(e: Poly)
    ensures Weighted(e, []) == 0
  {
    if e != [] {
      WeightedEmpty(e[1..]);
      MulZero(e[0]);
      AddLaws(0, 0, 0);
    }
  }

  lemma {:induction false} WeightedFront(e: Poly, c: Byte, L: Poly)
    ensures Weighted(e, [c] + L) == Add(Mul(c, Eval(e, Power(|L|))), Weighted(e, L))
  {
    hide Add, Mul, Power;
    if e == [] {
      MulZero(c);
      AddLaws(0, 0, 0);
    } else {
      var a, t, m := e[0], e[1..], |L|;
      WeightedFront(t, c, L);
      assert e == [a] + t;
      EvalFront(a, t, Power(m));
      EvalFront(c, L, Power(|t|));
      ExpPower(m, |t|, m * |t|);
      ExpPower(|t|, m, m * |t|);
      WeightedStep(a, c, Power(m * |t|), Eval(L, Power(|t|)), Eval(t, Power(m)), Weighted(t, L));
    }
  }

  lemma WeightedStep(a: Byte, c: Byte, p: Byte, l: Byte, v: Byte, w: Byte)
    ensures Add(Mul(a, Add(Mul(c, p), l)), Add(Mul(c, v), w)) == Add(Mul(c, Add(Mul(a, p), v)), Add(Mul(a, l), w))
  {
    hide Add, Mul;
    MulAdds(a, Mul(c, p), l);
    MulAdds(c, Mul(a, p), v);
    MulAssociates(a, c, p);
    MulAssociates(c, a, p);
    MulCommutes(a, c);
    AddSwap(Mul(a, Mul(c, p)), Mul(a, l), Mul(c, v), w);
  }

  /** e evaluates to zero at r^0 .. r^(n-1) */
  ghost predicate Vanishes(e: Poly, n: nat) {
    forall i: nat :: i < n ==> Eval(e, Power(i)) == 0
  }

  lemma {:induction false} WeightedVanishes(e: Poly, L: Poly, n: nat)
    requires Vanishes(e, n) && |L| <= n
    ensures Weighted(e, L) == 0
  {
    hide Add, Mul, Power;
    if L == [] {
      WeightedEmpty(e);
    } else {
      assert L == [L[0]] + L[1..];
      WeightedFront(e, L[0], L[1..]);
      WeightedVanishes(e, L[1..], n);
      MulZero(L[0]);
      AddLaws(0, 0, 0);
    }
  }

  /** The exponents |e| - 1 - j of the non-zero positions j, from the first to the last */
  function Support(e: Poly): (s: seq<nat>)
    ensures |s| == Weight(e)
    ensures forall k :: 0 <= k < |s| ==> s[k] < |e|
  {
    if e == [] then [] else (if e[0] != 0 then [|e| - 1] else []) + Support(e[1..])
  }

  /** The polynomial with the roots r^x for x in xs */
  function Locator(xs: seq<nat>): (L: Poly)
    ensures |L| == |xs| + 1
  {
    if xs == [] then [1] else TimesRoot(Locator(xs[1..]), Power(xs[0]))
  }

  lemma {:induction false} LocatorRoots(xs: seq<nat>, k: nat)
    requires k < 255 && forall i :: 0 <= i < |xs| ==> xs[i] < 255
    ensures Eval(Locator(xs), Power(k)) == 0 <==> k in xs
  {
    hide Add, Mul, Power, TimesRoot;
    var x := Power(k);
    if xs == [] {
      assert Eval([1], x) == Add(Mul(Eval([1][..0], x), x), 1);
      MulZero(x);
      AddLaws(1, 0, 0);
    } else {
      var L, a := Locator(xs[1..]), Power(xs[0]);
      LocatorRoots(xs[1..], k);
      EvalTimesRoot(L, a, x);
      AddLaws(x, a, a);
      AddLaws(a, a, a);
      MulZero(Eval(L, x));
      MulZero(Add(x, a));
      if k != xs[0] {
        if k < xs[0] { PowersDistinct(k, xs[0]); } else { PowersDistinct(xs[0], k); }
        if Add(x, a) == 0 { SumZero(x, a); }
        if Eval(L, x) != 0 { NoZeroDivisors(Eval(L, x), Add(x, a)); }
      }
    }
  }

  /** Positions where L vanishes contribute nothing. */
  lemma {:induction false} WeightedZero(e: Poly, L: Poly)
    requires forall x :: x in Support(e) ==> Eval(L, Power(x)) == 0
    ensures Weighted(e, L) == 0
  {
    hide Add, Mul, Power;
    if e != [] {
      assert forall x :: x in Support(e[1..]) ==> x in Support(e);
      WeightedZero(e[1..], L);
      MulZero(e[0]);
      MulZero(Eval(L, Power(|e| - 1)));
      AddLaws(0, 0, 0);
      if e[0] != 0 {
        assert |e| - 1 in Support(e);
      }
    }
  }

  /** A non-zero word of at most 255 bytes that vanishes at n consecutive powers has more than n
      non-zero bytes. */
  lemma {:induction false} MinimumWeight(e: Poly, n: nat)
    requires |e| <= 255 && Vanishes(e, n) && Weight(e) > 0
    ensures Weight(e) > n
  {
    hide Add, Mul, Power;
    var s := Support(e);
    if Weight(e) <= n {
      var L := Locator(s[1..]);
      WeightedVanishes(e, L, n);
      WeightedFirst(e, L);
      SupportDecreases(e);
      LocatorRoots(s[1..], s[0]);
    }
  }

  lemma {:induction false} SupportDecreases(e: Poly)
    ensures forall i, j :: 0 <= i < j < Weight(e) ==> Support(e)[i] > Support(e)[j]
  {
    if e != [] {
      SupportDecreases(e[1..]);
    }
  }

  /** When L vanishes at all non-zero positions but the first, the weighted sum vanishes only if L does there, too. */
  lemma {:induction false} WeightedFirst(e: Poly, L: Poly)
    requires Weight(e) > 0 && |e| <= 255
    requires L == Locator(Support(e)[1..])
    requires Weighted(e, L) == 0
    ensures Eval(L, Power(Support(e)[0])) == 0
  {
    hide Add, Mul, Power, Locator;
    var t := e[1..];
    if e[0] == 0 {
      MulZero(Eval(L, Power(|t|)));
      AddLaws(Weighted(t, L), 0, 0);
      assert Support(e) == Support(t);
      WeightedFirst(t, L);
    } else {
      assert Support(e)[1..] == Support(t);
      forall x | x in Support(t)
        ensures Eval(L, Power(x)) == 0
      {
        LocatorRoots(Support(t), x);
      }
      WeightedZero(t, L);
      var v := Eval(L, Power(|t|));
      AddLaws(Mul(e[0], v), 0, 0);
      if v != 0 {
        NoZeroDivisors(e[0], v);
      }
    }
  }

  lemma {:induction false} DifferencesWeight(p: Poly, q: Poly)
    requires |p| == |q|
    ensures Differences(p, q) == Weight(Sum(p, q))
  {
    if p != [] {
      DifferencesWeight(p[1..], q[1..]);
      assert Sum(p, q)[1..] == Sum(p[1..], q[1..]);
      hide Add;
      AddLaws(p[0], p[0], 0);
      if Add(p[0], q[0]) == 0 {
        SumZero(p[0], q[0]);
      }
    }
  }

  lemma {:induction false} NoDifferences(p: Poly, q: Poly)
    requires |p| == |q| && Differences(p, q) == 0
    ensures p == q
  {
    if p != [] {
      NoDifferences(p[1..], q[1..]);
      assert p == [p[0]] + p[1..] && q == [q[0]] + q[1..];
    }
  }

  /** A block of data followed by its n error correction codewords */
  function Codeword(data: Poly, n: nat): (c: Poly)
    requires n > 0
    ensures |c| == |data| + n
  {
    data + Remainder(data, GeneratorPoly(n))
  }

  lemma CodewordLinear(a: Poly, b: Poly, n: nat)
    requires n > 0 && |a| == |b|
    ensures Sum(Codeword(a, n), Codeword(b, n)) == Codeword(Sum(a, b), n)
  {
    hide Add, Mul, GeneratorPoly, Remainder;
    RemainderLinear(a, b, GeneratorPoly(n));
  }

  /** Blocks with different data differ in more than n bytes once their n error correction codewords
      are appended. */
  lemma DistinctDataFarApart(a: Poly, b: Poly, n: nat)
    requires n > 0 && |a| == |b| && |a| + n <= 255
    requires a != b
    ensures Differences(Codeword(a, n), Codeword(b, n)) > n
  {
    hide Add, Mul, Power, GeneratorPoly, Remainder, Eval;
    var s := Sum(a, b);
    CodewordLinear(a, b, n);
    forall i: nat | i < n
      ensures Eval(Codeword(s, n), Power(i)) == 0
    {
      CodewordRoots(s, n, i);
    }
    DifferencesWeight(Codeword(a, n), Codeword(b, n));
    assert a == Codeword(a, n)[..|a|] && b == Codeword(b, n)[..|b|];
    if Weight(Codeword(s, n)) == 0 {
      NoDifferences(Codeword(a, n), Codeword(b, n));
      assert false;
    }
    MinimumWeight(Codeword(s, n), n);
  }

  lemma {:induction false} DifferencesTriangle(p: Poly, q: Poly, r: Poly)
    requires |p| == |q| == |r|
    ensures Differences(p, r) <= Differences(p, q) + Differences(q, r)
    ensures Differences(p, q) == Differences(q, p)
  {
    if p != [] {
      DifferencesTriangle(p[1..], q[1..], r[1..]);
    }
  }

  /** A block of which at most half as many bytes as there are error correction codewords were damaged
      still names the data it was made from. */
  lemma DamagedBlockIdentifiesData(read: Poly, a: Poly, b: Poly, n: nat)
    requires n > 0 && |a| == |b| && |read| == |a| + n <= 255
    requires 2 * Differences(read, Codeword(a, n)) <= n
    requires 2 * Differences(read, Codeword(b, n)) <= n
    ensures a == b
  {
    DifferencesTriangle(Codeword(a, n), read, Codeword(b, n));
    DifferencesTriangle(read, Codeword(a, n), read);
    if a != b {
      DistinctDataFarApart(a, b, n);
      assert false;
    }
  }
}

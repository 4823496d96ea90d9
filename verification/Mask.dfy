/** The eight mask patterns, which invert data modules and leave function modules alone.
    Source: web/src/lib/qrcode.js, lines 425-465. */
module Mask {
  import opened Grids

  predicate IsMask(mask: int) {
    0 <= mask <= 7
  }

  /** Whether pattern `mask` inverts the module at c: ISO/IEC 18004:2015, section 7.8, with the products of
      the last patterns taken modulo 6 */
  predicate Inverts(mask: int, c: Cell)
    requires IsMask(mask) && c.x >= 0 && c.y >= 0
  {
    Pattern(mask, c.x, c.y, c.x * c.y)
  }

  /** The patterns, by coordinates and their product p */
  predicate Pattern(mask: int, x: int, y: int, p: int)
    requires IsMask(mask)
  {
    match mask
    case 0 => (x + y) % 2 == 0
    case 1 => y % 2 == 0
    case 2 => x % 3 == 0
    case 3 => (x + y) % 3 == 0
    case 4 => (x / 3 + y / 2) % 2 == 0
    case 5 => p % 6 == 0
    case 6 => p % 6 < 3
    case _ => ((x + y) % 2 + p % 3) % 2 == 0
  }

  /** The formulas that are evaluated for them */
  predicate Formula(mask: int, x: int, y: int, p: int)
    requires IsMask(mask)
  {
    if mask == 0 then (x + y) % 2 == 0
    else if mask == 1 then y % 2 == 0
    else if mask == 2 then x % 3 == 0
    else if mask == 3 then (x + y) % 3 == 0
    else if mask == 4 then (x / 3 + y / 2) % 2 == 0
    else if mask == 5 then p % 2 + p % 3 == 0
    else if mask == 6 then (p % 2 + p % 3) % 2 == 0
    else ((x + y) % 2 + p % 3) % 2 == 0
  }

  lemma FormulaInverts(mask: int, c: Cell)
    requires IsMask(mask) && c.x >= 0 && c.y >= 0
    ensures Formula(mask, c.x, c.y, c.x * c.y) <==> Inverts(mask, c)
  {
    hide Formula, Pattern;
    NotNegative(c.x, c.y);
    FormulaPattern(mask, c.x, c.y, c.x * c.y);
  }

  lemma FormulaPattern(mask: int, x: nat, y: nat, p: nat)
    requires IsMask(mask)
    ensures Formula(mask, x, y, p) <==> Pattern(mask, x, y, p)
  {
    if mask == 5 || mask == 6 {
      Remainders(p);
    }
  }

  lemma NotNegative(x: nat, y: nat)
    ensures x * y >= 0
  {
  }

  lemma Remainders(n: nat)
    ensures n % 2 + n % 3 == 0 <==> n % 6 == 0
    ensures (n % 2 + n % 3) % 2 == 0 <==> n % 6 < 3
  {
    var q, r := n / 6, n % 6;
    SixTimes(q, r);
    SmallRemainders(r);
    assert n == 6 * q + r;
  }

  lemma {:induction false} SixTimes(q: nat, r: nat)
    ensures (6 * q + r) % 2 == r % 2 && (6 * q + r) % 3 == r % 3
  {
    if q > 0 {
      var m := 6 * (q - 1) + r;
      SixTimes(q - 1, r);
      SixMore(m);
      assert 6 * q + r == m + 6;
    }
  }

  lemma SixMore(m: nat)
    ensures (m + 6) % 2 == m % 2 && (m + 6) % 3 == m % 3
  {
  }

  lemma SmallRemainders(r: nat)
    requires r < 6
    ensures r % 2 + r % 3 == 0 <==> r == 0
    ensures (r % 2 + r % 3) % 2 == 0 <==> r < 3
  {
    if r == 0 { } else if r == 1 { } else if r == 2 { } else if r == 3 { } else if r == 4 { } else { }
  }

  /** The eight patterns, as ISO/IEC 18004:2015 writes them in section 7.8 */
  lemma PatternsAre(x: nat, y: nat)
    ensures var c := Cell(x, y);
            && x * y >= 0
            && (Inverts(0, c) <==> (x + y) % 2 == 0)
            && (Inverts(1, c) <==> y % 2 == 0)
            && (Inverts(2, c) <==> x % 3 == 0)
            && (Inverts(3, c) <==> (x + y) % 3 == 0)
            && (Inverts(4, c) <==> (x / 3 + y / 2) % 2 == 0)
            && (Inverts(5, c) <==> (x * y) % 2 + (x * y) % 3 == 0)
            && (Inverts(6, c) <==> ((x * y) % 2 + (x * y) % 3) % 2 == 0)
            && (Inverts(7, c) <==> ((x + y) % 2 + (x * y) % 3) % 2 == 0)
  {
    NotNegative(x, y);
    Remainders(x * y);
  }

  /** A grid with the pattern applied to all modules that have no function */
  ghost function Masked(g: Grid, fn: Grid, size: int, mask: int): (h: Grid)
    requires Square(g, size) && Square(fn, size) && IsMask(mask)
    ensures Square(h, size)
    ensures forall c :: InGrid(c, size) ==> At(h, c) == (At(g, c) != (Inverts(mask, c) && !At(fn, c)))
  {
    seq(size, y requires 0 <= y < size =>
      seq(size, x requires 0 <= x < size => g[y][x] != (Inverts(mask, Cell(x, y)) && !fn[y][x])))
  }

  /** Applying the same pattern twice changes nothing. */
  lemma MaskTwice(g: Grid, fn: Grid, size: int, mask: int)
    requires Square(g, size) && Square(fn, size) && IsMask(mask)
    ensures Masked(Masked(g, fn, size, mask), fn, size, mask) == g
  {
    hide Inverts;
    SameGrid(Masked(Masked(g, fn, size, mask), fn, size, mask), g, size);
  }

  /** Inverts module by module what the pattern names. */
  method ApplyMask(g: Grid, fn: Grid, size: int, mask: int) returns (modules: Grid)
    requires Square(g, size) && Square(fn, size) && IsMask(mask)
    ensures modules == Masked(g, fn, size, mask)
  {
    hide Inverts, Formula;
    modules := g;
    for y := 0 to size
      invariant Square(modules, size)
      invariant forall c :: InGrid(c, size) ==>
        At(modules, c) == At(if c.y < y then Masked(g, fn, size, mask) else g, c)
    {
      for x := 0 to size
        invariant Square(modules, size)
        invariant forall c :: InGrid(c, size) ==>
          At(modules, c) == At(if c.y < y || (c.y == y && c.x < x) then Masked(g, fn, size, mask) else g, c)
      {
        var c := Cell(x, y);
        FormulaInverts(mask, c);
        var invert := Formula(mask, x, y, x * y);
        var b := At(modules, c) != (invert && !At(fn, c));
        PutAt(modules, c, b, size);
        modules := Put(modules, c, b);
      }
    }
    SameGrid(modules, Masked(g, fn, size, mask), size);
  }
}

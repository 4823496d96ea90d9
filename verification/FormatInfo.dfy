/** Format and version information: short numbers with an error correction code of their own.
    Source: web/src/lib/qrcode.js, lines 263-310. */
module FormatInfo {
  import opened Bits
  import opened Gf256
  import opened Capacity
  import opened Mask

  /** The product of two polynomials over the bits 0 and 1, given as numbers */
  ghost function BitProduct(q: nat, g: nat): nat {
    if q == 0 then 0 else Xor(2 * BitProduct(q / 2, g), if q % 2 == 1 then g else 0)
  }

  /** One step of dividing by g, a polynomial of degree w: shift, and subtract g if that overflows. */
  function DivideStep(r: nat, g: nat, w: nat): nat
    requires w > 0
  {
    Xor(2 * r, if r >= Pow2(w - 1) then g else 0)
  }

  /** What n such steps leave of data */
  function Divide(data: nat, g: nat, w: nat, n: nat): nat
    requires w > 0
  {
    if n == 0 then data else DivideStep(Divide(data, g, w, n - 1), g, w)
  }

  lemma StepBound(r: nat, g: nat, w: nat)
    requires w > 0 && r < Pow2(w) <= g < 2 * Pow2(w)
    ensures DivideStep(r, g, w) < Pow2(w)
  {
    hide Xor;
    var p := Pow2(w - 1);
    assert Pow2(w) == 2 * p;
    if r >= p {
      XorHigh(2 * (r - p), g - 2 * p, w);
      XorBound(2 * (r - p), g - 2 * p, w);
    } else {
      XorZero(2 * r);
    }
  }

  /** The division leaves fewer than w bits, and data followed by them is a multiple of g. */
  lemma {:induction false} DivideMakesMultiple(data: nat, g: nat, w: nat, n: nat) returns (q: nat)
    requires w > 0 && data < Pow2(w) <= g < 2 * Pow2(w)
    ensures Divide(data, g, w, n) < Pow2(w)
    ensures Xor(ShiftLeft(data, n), Divide(data, g, w, n)) == BitProduct(q, g)
  {
    if n == 0 {
      q := 0;
      XorSelf(data);
    } else {
      q := DivideMakesMultiple(data, g, w, n - 1);
      DivideBound(data, g, w, n);
      DivideNext(data, g, w, n);
      hide Xor, BitProduct, Divide;
      var r := Divide(data, g, w, n - 1);
      var b: nat := if r >= Pow2(w - 1) then 1 else 0;
      hide Pow2;
      MultipleNext(ShiftLeft(data, n), ShiftLeft(data, n - 1), r, Divide(data, g, w, n), q, b, g);
      q := 2 * q + b;
    }
  }

  lemma DivideNext(data: nat, g: nat, w: nat, n: nat)
    requires w > 0 && n > 0
    ensures var r := Divide(data, g, w, n - 1);
            Divide(data, g, w, n) == Xor(2 * r, if r >= Pow2(w - 1) then g else 0)
  {
  }

  /** data << n */
  function ShiftLeft(data: nat, n: nat): nat {
    if n == 0 then data else 2 * ShiftLeft(data, n - 1)
  }

  lemma {:induction false} ShiftLeftIs(data: nat, n: nat)
    ensures ShiftLeft(data, n) == data * Pow2(n)
  {
    if n > 0 {
      ShiftLeftIs(data, n - 1);
      Twice(data, Pow2(n - 1));
    }
  }

  lemma MultipleNext(e: nat, d: nat, r: nat, next: nat, q: nat, b: nat, g: nat)
    requires b < 2 && e == 2 * d && next == Xor(2 * r, if b == 1 then g else 0)
    requires Xor(d, r) == BitProduct(q, g)
    ensures Xor(e, next) == BitProduct(2 * q + b, g)
  {
    hide Xor, BitProduct;
    XorDouble(d, r);
    XorAssociates(2 * d, 2 * r, if b == 1 then g else 0);
    ProductNext(q, b, g);
  }

  lemma ProductNext(q: nat, b: nat, g: nat)
    requires b < 2
    ensures BitProduct(2 * q + b, g) == Xor(2 * BitProduct(q, g), if b == 1 then g else 0)
  {
    hide Xor;
    assert (2 * q + b) / 2 == q && (2 * q + b) % 2 == b;
    if q == 0 && b == 0 {
      XorZero(0);
    }
  }

  const FORMAT_GENERATOR := 0x537
  const FORMAT_MASK := 0x5412
  const VERSION_GENERATOR := 0x1F25

  function FormatData(ecl: Ecc, mask: int): nat
    requires IsMask(mask)
  {
    ecl.FormatBits() * 8 + mask
  }

  /** Ten check bits after the five data bits, XORed with a constant */
  function FormatWord(ecl: Ecc, mask: int): nat
    requires IsMask(mask)
  {
    var data := FormatData(ecl, mask);
    Xor(data * 1024 + Divide(data, FORMAT_GENERATOR, 10, 10), FORMAT_MASK)
  }

  function VersionWord(version: int): nat
    requires IsVersion(version)
  {
    version * 4096 + Divide(version, VERSION_GENERATOR, 12, 12)
  }

  lemma Powers()
    ensures Pow2(5) == 32 && Pow2(9) == 512 && Pow2(10) == 1024 && Pow2(11) == 2048 && Pow2(12) == 4096
    ensures Pow2(15) == 32768 && Pow2(18) == 262144
  {
    Pow2Steps();
    assert Pow2(10) == 1024;
    assert Pow2(12) == 4096;
    assert Pow2(14) == 16384;
    assert Pow2(16) == 65536;
  }

  lemma Twice(a: nat, p: nat)
    ensures a * (2 * p) == 2 * (a * p)
  {
  }

  lemma {:induction false} XorShifted(a: nat, b: nat, n: nat)
    ensures Xor(a * Pow2(n), b * Pow2(n)) == Xor(a, b) * Pow2(n)
  {
    hide Xor;
    if n > 0 {
      var p := Pow2(n - 1);
      XorShifted(a, b, n - 1);
      Twice(a, p);
      Twice(b, p);
      Twice(Xor(a, b), p);
      XorDouble(a * p, b * p);
    }
  }

  lemma {:induction false} XorLow(a: nat, r: nat, n: nat)
    requires r < Pow2(n)
    ensures Xor(a * Pow2(n), r) == a * Pow2(n) + r
  {
    XorZero(a * Pow2(n));
    hide Xor;
    if n > 0 {
      XorLow(a, r / 2, n - 1);
      Twice(a, Pow2(n - 1));
      XorLowStep(a * Pow2(n), a * Pow2(n - 1), r);
    }
  }

  lemma XorLowStep(e: nat, d: nat, r: nat)
    requires e == 2 * d && Xor(d, r / 2) == d + r / 2
    ensures Xor(e, r) == e + r
  {
    XorStep(d, 0, r / 2, r % 2);
  }

  /** Low and high bits are combined separately. */
  lemma XorParts(a: nat, r: nat, b: nat, s: nat, n: nat)
    requires r < Pow2(n) && s < Pow2(n)
    ensures Xor(a * Pow2(n) + r, b * Pow2(n) + s) == Xor(a, b) * Pow2(n) + Xor(r, s)
  {
    hide Xor, Pow2;
    XorLow(a, r, n);
    XorLow(b, s, n);
    XorBound(r, s, n);
    XorLow(Xor(a, b), Xor(r, s), n);
    XorShifted(a, b, n);
    XorSwap(a * Pow2(n), r, b * Pow2(n), s);
  }

  /** The format word fits 15 bits and, without its constant, is a multiple of the generator. */
  lemma FormatWordIsCode(ecl: Ecc, mask: int) returns (q: nat)
    requires IsMask(mask)
    ensures FormatWord(ecl, mask) < 32768
    ensures Xor(FormatWord(ecl, mask), 0x5412) == BitProduct(q, 0x537)
  {
    Powers();
    hide Xor, Pow2, Divide, BitProduct, ShiftLeft;
    var data := FormatData(ecl, mask);
    q := DivideMakesMultiple(data, FORMAT_GENERATOR, 10, 10);
    ShiftLeftIs(data, 10);
    var rem := Divide(data, FORMAT_GENERATOR, 10, 10);
    XorParts(data, 0, 0, rem, 10);
    XorZero(data);
    XorZero(rem);
    var word := data * 1024 + rem;
    XorBound(word, FORMAT_MASK, 15);
    XorCancel(word, FORMAT_MASK);
  }

  lemma VersionWordIsCode(version: int) returns (q: nat)
    requires IsVersion(version)
    ensures VersionWord(version) < 262144
    ensures VersionWord(version) == BitProduct(q, 0x1F25)
  {
    Powers();
    hide Xor, Pow2, Divide, BitProduct, ShiftLeft;
    q := DivideMakesMultiple(version, VERSION_GENERATOR, 12, 12);
    ShiftLeftIs(version, 12);
    var rem := Divide(version, VERSION_GENERATOR, 12, 12);
    XorParts(version, 0, 0, rem, 12);
    XorZero(version);
    XorZero(rem);
  }

  // ---------- The reader's side ----------

  function EccOf(formatBits: nat): Ecc {
    if formatBits == 0 then Medium else if formatBits == 1 then Low else if formatBits == 2 then High else Quartile
  }

  /** Level and mask, from the five data bits of a format word */
  function ReadFormat(word: nat): (r: (Ecc, int))
    ensures IsMask(r.1)
  {
    var data := Xor(word / 1024, FORMAT_MASK / 1024);
    (EccOf(data / 8), data % 8)
  }

  lemma FormatRoundTrip(ecl: Ecc, mask: int)
    requires IsMask(mask)
    ensures ReadFormat(FormatWord(ecl, mask)) == (ecl, mask)
  {
    Powers();
    hide Xor, Pow2, Divide, BitProduct, ShiftLeft;
    var data := FormatData(ecl, mask);
    var q := DivideMakesMultiple(data, FORMAT_GENERATOR, 10, 10);
    var rem := Divide(data, FORMAT_GENERATOR, 10, 10);
    var low := FORMAT_MASK % 1024;
    XorParts(data, rem, 21, low, 10);
    XorBound(rem, low, 10);
    XorCancel(data, 21);
    ModUnique(FormatWord(ecl, mask), 1024, Xor(data, 21), Xor(rem, low));
    ModUnique(data, 8, ecl.FormatBits(), mask);
  }

  // ---------- The calculations ----------

  lemma DivideStart(data: nat, g: nat, w: nat)
    requires w > 0
    ensures Divide(data, g, w, 0) == data
  {
  }

  lemma {:induction false} DivideBound(data: nat, g: nat, w: nat, n: nat)
    requires w > 0 && data < Pow2(w) <= g < 2 * Pow2(w)
    ensures Divide(data, g, w, n) < Pow2(w)
  {
    if n > 0 {
      DivideBound(data, g, w, n - 1);
      StepBound(Divide(data, g, w, n - 1), g, w);
    }
  }

  /** The step as the code writes it, with half = 2^(w - 1): (rem << 1) ^ ((rem >>> (w - 1)) * g) */
  function CheckStep(rem: nat, half: nat, g: nat): nat
    requires half > 0
  {
    Xor(rem * 2, (rem / half) * g)
  }

  lemma CheckStepDivides(rem: nat, g: nat, w: nat, half: nat)
    requires w > 0 && half == Pow2(w - 1) && rem < 2 * half
    ensures CheckStep(rem, half, g) == DivideStep(rem, g, w)
  {
    hide Xor, Pow2;
    ModUnique(rem, half, if rem >= half then 1 else 0, if rem >= half then rem - half else rem);
    if rem >= half {
      assert rem / half == 1;
    } else {
      assert rem / half == 0;
    }
  }

  lemma CheckStepNext(data: nat, g: nat, w: nat, half: nat, i: nat)
    requires w > 0 && half == Pow2(w - 1) && data < Pow2(w) <= g < 2 * Pow2(w)
    ensures Divide(data, g, w, i + 1) == CheckStep(Divide(data, g, w, i), half, g)
  {
    DivideBound(data, g, w, i);
    hide CheckStep, DivideStep;
    CheckStepDivides(Divide(data, g, w, i), g, w, half);
  }

  /** The check bits, by n steps of long division */
  method CalculateCheckBits(data: nat, g: nat, half: nat, n: nat, ghost w: nat) returns (rem: nat)
    requires w > 0 && half == Pow2(w - 1) && data < Pow2(w) <= g < 2 * Pow2(w)
    ensures rem == Divide(data, g, w, n)
  {
    hide CheckStep, Divide;
    DivideStart(data, g, w);
    rem := data;
    for i := 0 to n
      invariant rem == Divide(data, g, w, i)
    {
      CheckStepNext(data, g, w, half, i);
      rem := CheckStep(rem, half, g);
    }
  }

  lemma FormatWordIs(ecl: Ecc, mask: int)
    requires IsMask(mask)
    ensures FormatData(ecl, mask) < 32 && 1024 <= FORMAT_GENERATOR < 2048 && FORMAT_MASK >= 0
    ensures FormatWord(ecl, mask) == Xor(FormatData(ecl, mask) * 1024
      + Divide(FormatData(ecl, mask), FORMAT_GENERATOR, 10, 10), FORMAT_MASK)
  {
    hide Xor, Divide;
  }

  lemma FormatWordFits(ecl: Ecc, mask: int)
    requires IsMask(mask)
    ensures FormatWord(ecl, mask) < 32768
  {
    var q := FormatWordIsCode(ecl, mask);
  }

  method CalculateFormatWord(ecl: Ecc, mask: int) returns (data: nat)
    requires IsMask(mask)
    ensures data == FormatWord(ecl, mask) && data < 32768
  {
    hide *;
    FormatWordFits(ecl, mask);
    FormatWordIs(ecl, mask);
    Powers();
    data := FormatData(ecl, mask);
    var rem := CalculateCheckBits(data, FORMAT_GENERATOR, 512, 10, 10);
    data := data * 1024 + rem;
    data := Xor(data, FORMAT_MASK);
  }

  method CalculateVersionWord(version: int) returns (data: nat)
    requires IsVersion(version)
    ensures data == VersionWord(version) && data < 262144
  {
    var q := VersionWordIsCode(version);
    Powers();
    hide Xor, Pow2, Divide, BitProduct, ShiftLeft;
    var rem := CalculateCheckBits(version, VERSION_GENERATOR, 2048, 12, 12);
    data := version * 4096 + rem;
  }
}

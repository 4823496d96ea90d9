/** How far apart the words of version and format information are, so that a reader can tell them when some of their
    bits are damaged.
    Source: web/src/lib/qrcode.js, lines 263-310. */
module InfoDistance {
  import opened Bits
  import opened Capacity
  import opened Mask
  import opened FormatInfo

  /** In how many of their n lowest bits two numbers differ */
  function Differing(x: nat, y: nat, n: nat): (d: nat)
    ensures d <= n
    decreases n
  {
    if n == 0 then 0 else Differing(x, y, n - 1) + (if Bit(x, n - 1) != Bit(y, n - 1) then 1 else 0)
  }

  // ---------- Bits of sums and products ----------

  lemma DoubleBit(r: nat, j: nat)
    ensures Bit(2 * r, j) == (j > 0 && Bit(r, j - 1))
  {
    assert 2 * r / 2 == r;
  }

  lemma {:induction false} TopBit(x: nat, w: nat)
    requires w > 0 && x < Pow2(w)
    ensures Bit(x, w - 1) <==> x >= Pow2(w - 1)
  {
    if w > 1 {
      TopBit(x / 2, w - 1);
    }
  }

  /** A high and a low part */
  lemma {:induction false} PartBits(a: nat, r: nat, n: nat, k: nat)
    requires r < Pow2(n)
    ensures Bit(a * Pow2(n) + r, k) == if k < n then Bit(r, k) else Bit(a, k - n)
    decreases n
  {
    if n > 0 {
      var p := Pow2(n - 1);
      Twice(a, p);
      HalfSum(a * p, r);
      if k > 0 {
        PartBits(a, r / 2, n - 1, k - 1);
      }
    }
  }

  lemma HalfSum(e: nat, r: nat)
    ensures (2 * e + r) / 2 == e + r / 2 && (2 * e + r) % 2 == r % 2
  {
  }

  lemma {:induction false} DifferingParts(a: nat, r: nat, b: nat, s: nat, n: nat, k: nat)
    requires r < Pow2(n) && s < Pow2(n)
    ensures Differing(a * Pow2(n) + r, b * Pow2(n) + s, n + k) == Differing(r, s, n) + Differing(a, b, k)
    decreases k
  {
    hide Bit, Pow2;
    if k > 0 {
      DifferingParts(a, r, b, s, n, k - 1);
      PartBits(a, r, n, n + k - 1);
      PartBits(b, s, n, n + k - 1);
    } else {
      DifferingLow(a, r, b, s, n, n);
    }
  }

  lemma DifferingWords(x: nat, a: nat, r: nat, y: nat, b: nat, s: nat, n: nat, p: nat, k: nat)
    requires p == Pow2(n) && r < p && s < p && x == a * p + r && y == b * p + s
    ensures Differing(x, y, n + k) == Differing(r, s, n) + Differing(a, b, k)
  {
    DifferingParts(a, r, b, s, n, k);
  }

  lemma {:induction false} DifferingLow(a: nat, r: nat, b: nat, s: nat, n: nat, m: nat)
    requires r < Pow2(n) && s < Pow2(n) && m <= n
    ensures Differing(a * Pow2(n) + r, b * Pow2(n) + s, m) == Differing(r, s, m)
    decreases m
  {
    hide Bit, Pow2;
    if m > 0 {
      DifferingLow(a, r, b, s, n, m - 1);
      PartBits(a, r, n, m - 1);
      PartBits(b, s, n, m - 1);
    }
  }

  /** Different numbers differ in some bit. */
  lemma {:induction false} SomeBitDiffers(x: nat, y: nat, n: nat) returns (k: nat)
    requires x < Pow2(n) && y < Pow2(n) && x != y
    ensures k < n && Bit(x, k) != Bit(y, k)
  {
    if x % 2 != y % 2 {
      k := 0;
    } else {
      k := SomeBitDiffers(x / 2, y / 2, n - 1);
      k := k + 1;
    }
  }

  // ---------- The division as a shift register ----------

  type Register = seq<bool>

  /** Where two numbers of |r| bits differ */
  function Difference(x: nat, y: nat, w: nat): (r: Register)
    ensures |r| == w && forall j :: 0 <= j < w ==> r[j] == (Bit(x, j) != Bit(y, j))
  {
    seq(w, j requires 0 <= j < w => Bit(x, j) != Bit(y, j))
  }

  /** One step: shift up, and flip the bits of g if a one falls out. */
  function Clock(r: Register, g: nat): (q: Register)
    requires r != []
    ensures |q| == |r|
    ensures forall j :: 0 <= j < |r| ==> q[j] == ((j > 0 && r[j - 1]) != (r[|r| - 1] && Bit(g, j)))
  {
    seq(|r|, j requires 0 <= j < |r| => (j > 0 && r[j - 1]) != (r[|r| - 1] && Bit(g, j)))
  }

  function Clocks(r: Register, g: nat, n: nat): (q: Register)
    requires r != []
    ensures |q| == |r|
    decreases n
  {
    if n == 0 then r else Clock(Clocks(r, g, n - 1), g)
  }

  lemma StepBit(r: nat, g: nat, w: nat, j: nat)
    requires w > 0 && r < Pow2(w) && j < w
    ensures Bit(DivideStep(r, g, w), j) == ((j > 0 && Bit(r, j - 1)) != (Bit(r, w - 1) && Bit(g, j)))
  {
    TopBit(r, w);
    DoubleBit(r, j);
    hide Bit, Xor, Pow2;
    XorBit(2 * r, g, j);
    XorZero(2 * r);
  }

  /** The remainders of two divisions differ where the register for their difference has ones. */
  lemma {:induction false} DivideDiffers(x: nat, y: nat, g: nat, w: nat, n: nat)
    requires w > 0 && x < Pow2(w) <= g < 2 * Pow2(w) && y < Pow2(w)
    ensures Difference(Divide(x, g, w, n), Divide(y, g, w, n), w) == Clocks(Difference(x, y, w), g, n)
  {
    hide *;
    if n == 0 {
      DivideStart(x, g, w);
      DivideStart(y, g, w);
      NoClock(Difference(x, y, w), g);
    } else {
      DivideDiffers(x, y, g, w, n - 1);
      DivideBound(x, g, w, n - 1);
      DivideBound(y, g, w, n - 1);
      NextClock(Difference(x, y, w), g, n - 1, n);
      DivideIs(x, g, w, n);
      DivideIs(y, g, w, n);
      StepDiffers(Divide(x, g, w, n - 1), Divide(y, g, w, n - 1), g, w);
    }
  }

  lemma DivideIs(data: nat, g: nat, w: nat, n: nat)
    requires w > 0 && n > 0
    ensures Divide(data, g, w, n) == DivideStep(Divide(data, g, w, n - 1), g, w)
  {
    hide DivideStep;
  }

  lemma StepDiffers(r: nat, s: nat, g: nat, w: nat)
    requires w > 0 && r < Pow2(w) && s < Pow2(w)
    ensures Difference(DivideStep(r, g, w), DivideStep(s, g, w), w) == Clock(Difference(r, s, w), g)
  {
    hide Bit, Pow2, DivideStep;
    forall j: nat | j < w
      ensures Difference(DivideStep(r, g, w), DivideStep(s, g, w), w)[j] == Clock(Difference(r, s, w), g)[j]
    {
      StepBit(r, g, w, j);
      StepBit(s, g, w, j);
    }
  }

  function One(b: bool): nat {
    if b then 1 else 0
  }

  /** The ones among the first n bits */
  function Ones(r: Register, n: nat): nat
    requires n <= |r|
    decreases n
  {
    if n == 0 then 0 else Ones(r, n - 1) + One(r[n - 1])
  }

  lemma {:induction false} OnesDiffer(x: nat, y: nat, w: nat, n: nat)
    requires n <= w
    ensures Ones(Difference(x, y, w), n) == Differing(x, y, n)
    decreases n
  {
    hide Bit;
    if n > 0 {
      OnesDiffer(x, y, w, n - 1);
    }
  }

  /** As long as no one falls out, the register is only shifted. */
  lemma {:induction false} ShiftsUp(r: Register, g: nat, k: nat)
    requires k <= |r| && r != [] && forall j :: |r| - k <= j < |r| ==> !r[j]
    ensures forall j :: 0 <= j < |r| ==> Clocks(r, g, k)[j] == (j >= k && r[j - k])
  {
    hide Bit;
    if k > 0 {
      ShiftsUp(r, g, k - 1);
    }
  }

  lemma {:induction false} ClocksAdd(r: Register, g: nat, m: nat, n: nat)
    requires r != []
    ensures Clocks(Clocks(r, g, m), g, n) == Clocks(r, g, m + n)
    decreases n
  {
    hide Clock, Clocks;
    if n == 0 {
      NoClock(Clocks(r, g, m), g);
    } else {
      ClocksAdd(r, g, m, n - 1);
      NextClock(Clocks(r, g, m), g, n - 1, n);
      NextClock(r, g, m + (n - 1), m + n);
    }
  }

  lemma NextClock(r: Register, g: nat, n: nat, next: nat)
    requires r != [] && next == n + 1
    ensures Clocks(r, g, next) == Clock(Clocks(r, g, n), g)
  {
    hide Clock;
  }

  lemma NoClock(r: Register, g: nat)
    requires r != []
    ensures Clocks(r, g, 0) == r
  {
  }

  lemma SixClocks(r: Register, g: nat)
    requires r != []
    ensures Clocks(r, g, 6) == Clock(Clock(Clock(Clock(Clock(Clock(r, g), g), g), g), g), g)
  {
    hide Clock;
    assert Clocks(r, g, 2) == Clock(Clock(r, g), g);
    assert Clocks(r, g, 4) == Clock(Clock(Clocks(r, g, 2), g), g);
  }

  lemma FiveClocks(r: Register, g: nat)
    requires r != []
    ensures Clocks(r, g, 5) == Clock(Clock(Clock(Clock(Clock(r, g), g), g), g), g)
  {
    hide Clock;
    assert Clocks(r, g, 2) == Clock(Clock(r, g), g);
    assert Clocks(r, g, 4) == Clock(Clock(Clocks(r, g, 2), g), g);
  }

  lemma {:induction false} NoHighBits(x: nat, n: nat, k: nat)
    requires x < Pow2(n) && k >= n
    ensures !Bit(x, k)
  {
    if n > 0 {
      NoHighBits(x / 2, n - 1, k - 1);
    } else if k > 0 {
      NoHighBits(0, 0, k - 1);
    }
  }

  /** Data of k bits: they are moved to the top of a register of w bits first, and the other steps divide. */
  lemma DataShifted(x: nat, y: nat, g: nat, w: nat, k: nat)
    requires 0 < k <= w && x < Pow2(k) && y < Pow2(k)
    ensures var d := Difference(x, y, w);
            var r := Clocks(d, g, w - k);
            (forall j :: 0 <= j < w - k ==> !r[j]) && (forall j :: 0 <= j < k ==> r[j + (w - k)] == d[j])
  {
    hide Bit, Pow2, Clocks;
    var d := Difference(x, y, w);
    forall j: nat | k <= j < w
      ensures !d[j]
    {
      NoHighBits(x, k, j);
      NoHighBits(y, k, j);
    }
    ShiftsUp(d, g, w - k);
  }

  lemma SixOnes(r: Register)
    requires |r| >= 6
    ensures Ones(r, 6) == One(r[0]) + One(r[1]) + One(r[2]) + One(r[3]) + One(r[4]) + One(r[5])
  {
    hide One;
    assert Ones(r, 3) == One(r[0]) + One(r[1]) + One(r[2]);
  }

  lemma FiveOnes(r: Register)
    requires |r| >= 5
    ensures Ones(r, 5) == One(r[0]) + One(r[1]) + One(r[2]) + One(r[3]) + One(r[4])
  {
    hide One;
    assert Ones(r, 3) == One(r[0]) + One(r[1]) + One(r[2]);
  }

  lemma TenOnes(r: Register)
    requires |r| >= 10
    ensures Ones(r, 10) == One(r[0]) + One(r[1]) + One(r[2]) + One(r[3]) + One(r[4]) + One(r[5]) + One(r[6]) + One(r[7])
      + One(r[8]) + One(r[9])
  {
    SixOnes(r);
    hide One;
    assert Ones(r, 8) == Ones(r, 6) + One(r[6]) + One(r[7]);
  }

  lemma TwelveOnes(r: Register)
    requires |r| >= 12
    ensures Ones(r, 12) == One(r[0]) + One(r[1]) + One(r[2]) + One(r[3]) + One(r[4]) + One(r[5]) + One(r[6]) + One(r[7])
      + One(r[8]) + One(r[9]) + One(r[10]) + One(r[11])
  {
    TenOnes(r);
    hide One;
    assert Ones(r, 12) == Ones(r, 10) + One(r[10]) + One(r[11]);
  }

  /** Two words of data and remainder differ where the data do and where the register has ones in the end. */
  lemma WordsDiffer(x: nat, y: nat, g: nat, w: nat, k: nat) returns (d: Register, r: Register, q: Register)
    requires 0 < k <= w && x < Pow2(k) && y < Pow2(k) && x < Pow2(w) <= g < 2 * Pow2(w) && y < Pow2(w) && x != y
    ensures |d| == |r| == |q| == w && q == Clocks(r, g, k)
    ensures exists j :: 0 <= j < k && d[j]
    ensures (forall j :: 0 <= j < w - k ==> !r[j]) && (forall j :: 0 <= j < k ==> r[j + (w - k)] == d[j])
    ensures Differing(Divide(x, g, w, w), Divide(y, g, w, w), w) + Differing(x, y, k) == Ones(q, w) + Ones(d, k)
  {
    hide Bit, Pow2, Divide, Clocks, Ones;
    d := Difference(x, y, w);
    var j := SomeBitDiffers(x, y, k);
    assert d[j];
    r := Clocks(d, g, w - k);
    q := Clocks(r, g, k);
    DivideDiffers(x, y, g, w, w);
    DataShifted(x, y, g, w, k);
    ClocksAdd(d, g, w - k, k);
    OnesDiffer(x, y, w, k);
    OnesDiffer(Divide(x, g, w, w), Divide(y, g, w, w), w, w);
  }

  // ---------- Version words ----------

  /** The bits of 0x1F25 */
  lemma VersionTaps()
    ensures Bit(0x1F25, 0) && !Bit(0x1F25, 1) && Bit(0x1F25, 2) && !Bit(0x1F25, 3) && !Bit(0x1F25, 4) && Bit(0x1F25, 5)
    ensures !Bit(0x1F25, 6) && !Bit(0x1F25, 7) && Bit(0x1F25, 8) && Bit(0x1F25, 9) && Bit(0x1F25, 10) && Bit(0x1F25, 11)
  {
    VersionHighTaps();
  }

  lemma VersionHighTaps()
    ensures !Bit(0x1F25, 6) && !Bit(0x1F25, 7) && Bit(0x1F25, 8) && Bit(0x1F25, 9) && Bit(0x1F25, 10) && Bit(0x1F25, 11)
  {
    SixUp(0x1F25, 0, 6); SixUp(0x1F25, 1, 7); SixUp(0x1F25, 2, 8); SixUp(0x1F25, 3, 9); SixUp(0x1F25, 4, 10);
    SixUp(0x1F25, 5, 11);
    assert 0x1F25 / 64 == 0x7C;
    LowTaps();
    hide Bit;
  }

  lemma LowTaps()
    ensures !Bit(0x7C, 0) && !Bit(0x7C, 1) && Bit(0x7C, 2) && Bit(0x7C, 3) && Bit(0x7C, 4) && Bit(0x7C, 5)
  {
  }

  lemma SixUp(x: nat, k: nat, n: nat)
    requires n == k + 6
    ensures Bit(x, n) == Bit(x / 64, k)
  {
    ThreeUp(x, k + 3, n);
    ThreeUp(x / 8, k, k + 3);
    assert x / 8 / 8 == x / 64;
  }

  lemma ThreeUp(x: nat, k: nat, n: nat)
    requires n == k + 3
    ensures Bit(x, n) == Bit(x / 8, k)
  {
    assert Bit(x, n) == Bit(x / 2, k + 2) == Bit(x / 2 / 2, k + 1) == Bit(x / 2 / 2 / 2, k);
    assert x / 2 / 2 / 2 == x / 8;
  }

  /** The parts of a product with 0x1F25, in terms of the bits a, b, ... of the other factor */
  predicate VersionProduct(r: Register, q: Register, a: bool, b: bool, c: bool, d: bool, e: bool, f: bool)
    requires |r| == |q| == 12
  {
    && r[6] == ((((b != c) != d) != e) != f) && r[7] == ((((a != b) != c) != d) != e)
    && r[8] == (((a != b) != c) != d) && r[9] == ((a != b) != c) && r[10] == (a != b) && r[11] == a && q[0] == f
    && q[1] == e && q[2] == (d != f) && q[3] == (c != e) && q[4] == (b != d) && q[5] == ((a != c) != f)
    && q[6] == (b != e) && q[7] == (a != d) && q[8] == (c != f) && q[9] == ((b != e) != f)
    && q[10] == (((a != d) != e) != f) && q[11] == (((c != d) != e) != f)
  }

  /** The last 6 steps leave a product with the bits that fall out of the register. */
  lemma VersionSteps(r: Register) returns (q: Register, a: bool, b: bool, c: bool, d: bool, e: bool, f: bool)
    requires |r| == 12 && forall j :: 0 <= j < 6 ==> !r[j]
    ensures q == Clocks(r, 0x1F25, 6) && |q| == 12 && VersionProduct(r, q, a, b, c, d, e, f)
  {
    VersionTaps();
    SixClocks(r, 0x1F25);
    hide Bit, Clock, Clocks;
    var r1 := Clock(r, 0x1F25);
    var r2 := Clock(r1, 0x1F25);
    var r3 := Clock(r2, 0x1F25);
    var r4 := Clock(r3, 0x1F25);
    var r5 := Clock(r4, 0x1F25);
    q := Clock(r5, 0x1F25);
    a, b, c, d, e, f := r[11], r1[11], r2[11], r3[11], r4[11], r5[11];
  }

  lemma VersionWeight(r: Register, q: Register, a: bool, b: bool, c: bool, d: bool, e: bool, f: bool)
    requires |r| == |q| == 12 && VersionProduct(r, q, a, b, c, d, e, f)
    requires r[6] || r[7] || r[8] || r[9] || r[10] || r[11]
    ensures One(q[0]) + One(q[1]) + One(q[2]) + One(q[3]) + One(q[4]) + One(q[5]) + One(q[6]) + One(q[7]) + One(q[8])
            + One(q[9]) + One(q[10]) + One(q[11]) + One(r[6]) + One(r[7]) + One(r[8]) + One(r[9]) + One(r[10])
            + One(r[11])
            >= 8
  {
  }

  lemma VersionOnes(d: Register, r: Register, q: Register)
    requires |d| == |r| == |q| == 12 && (d[0] || d[1] || d[2] || d[3] || d[4] || d[5])
    requires forall j :: 0 <= j < 6 ==> !r[j]
    requires r[6] == d[0] && r[7] == d[1] && r[8] == d[2] && r[9] == d[3] && r[10] == d[4] && r[11] == d[5]
    requires q == Clocks(r, 0x1F25, 6)
    ensures Ones(q, 12) + Ones(d, 6) >= 8
  {
    hide *;
    var q', a, b, c, d', e, f := VersionSteps(r);
    TwelveOnes(q);
    SixOnes(d);
    VersionWeight(r, q, a, b, c, d', e, f);
  }

  lemma VersionRegister(d: Register, r: Register, q: Register)
    requires |d| == |r| == |q| == 12 && q == Clocks(r, 0x1F25, 6) && exists j :: 0 <= j < 6 && d[j]
    requires (forall j :: 0 <= j < 6 ==> !r[j]) && (forall j :: 0 <= j < 6 ==> r[j + 6] == d[j])
    ensures Ones(q, 12) + Ones(d, 6) >= 8
  {
    hide *;
    assert r[0 + 6] == d[0] && r[1 + 6] == d[1] && r[2 + 6] == d[2];
    assert r[3 + 6] == d[3] && r[4 + 6] == d[4] && r[5 + 6] == d[5];
    VersionOnes(d, r, q);
  }

  lemma VersionParts(v: int) returns (rem: nat)
    requires IsVersion(v)
    ensures 0 < v < 64 && rem == Divide(v, 0x1F25, 12, 12) && rem < 4096 && VersionWord(v) == v * 4096 + rem
  {
    Powers();
    hide Divide, Pow2;
    DivideBound(v, 0x1F25, 12, 12);
    rem := Divide(v, 0x1F25, 12, 12);
  }

  lemma VersionPowers()
    ensures Pow2(6) == 64 && Pow2(12) == 4096
  {
    Powers();
  }

  lemma VersionSplit(v: nat, u: nat)
    requires IsVersion(v) && IsVersion(u)
    ensures v < Pow2(6) && u < Pow2(6) && Pow2(6) <= Pow2(12) <= 0x1F25 < 2 * Pow2(12)
    ensures Differing(VersionWord(v), VersionWord(u), 18)
         == Differing(Divide(v, 0x1F25, 12, 12), Divide(u, 0x1F25, 12, 12), 12) + Differing(v, u, 6)
  {
    hide *;
    VersionPowers();
    var a := VersionParts(v);
    var b := VersionParts(u);
    DifferingWords(VersionWord(v), v, a, VersionWord(u), u, b, 12, 4096, 6);
  }

  lemma VersionsAreNumbers(v: int, u: int)
    requires IsVersion(v) && IsVersion(u)
    ensures v > 0 && u > 0
  {
  }

  /** The words of two versions differ in at least 8 of their 18 bits, so a word with 3 wrong bits still names its
      version. */
  lemma VersionWordsApart(v: int, u: int)
    requires IsVersion(v) && IsVersion(u) && v != u
    ensures Differing(VersionWord(v), VersionWord(u), 18) >= 8
  {
    VersionsAreNumbers(v, u);
    hide *;
    VersionSplit(v, u);
    var d, r, q := WordsDiffer(v, u, 0x1F25, 12, 6);
    VersionRegister(d, r, q);
  }

  // ---------- Format words ----------

  /** The bits of 0x537 */
  lemma FormatTaps()
    ensures Bit(0x537, 0) && Bit(0x537, 1) && Bit(0x537, 2) && !Bit(0x537, 3) && Bit(0x537, 4)
    ensures Bit(0x537, 5) && !Bit(0x537, 6) && !Bit(0x537, 7) && Bit(0x537, 8) && !Bit(0x537, 9)
  {
    FormatHighTaps();
  }

  lemma FormatHighTaps()
    ensures Bit(0x537, 5) && !Bit(0x537, 6) && !Bit(0x537, 7) && Bit(0x537, 8) && !Bit(0x537, 9)
  {
  }

  /** The parts of a product with 0x537, in terms of the bits a, b, ... of the other factor */
  predicate FormatProduct(r: Register, q: Register, a: bool, b: bool, c: bool, d: bool, e: bool)
    requires |r| == |q| == 10
  {
    && r[5] == (c != e) && r[6] == (b != d) && r[7] == (a != c) && r[8] == b && r[9] == a && q[0] == e
    && q[1] == (d != e) && q[2] == ((c != d) != e) && q[3] == ((b != c) != d) && q[4] == (((a != b) != c) != e)
    && q[5] == (((a != b) != d) != e) && q[6] == ((a != c) != d) && q[7] == (b != c) && q[8] == ((a != b) != e)
    && q[9] == (a != d)
  }

  /** The last 5 steps leave a product with the bits that fall out of the register. */
  lemma FormatSteps(r: Register) returns (q: Register, a: bool, b: bool, c: bool, d: bool, e: bool)
    requires |r| == 10 && forall j :: 0 <= j < 5 ==> !r[j]
    ensures q == Clocks(r, 0x537, 5) && |q| == 10 && FormatProduct(r, q, a, b, c, d, e)
  {
    FormatTaps();
    FiveClocks(r, 0x537);
    hide Bit, Clock, Clocks;
    var r1 := Clock(r, 0x537);
    var r2 := Clock(r1, 0x537);
    var r3 := Clock(r2, 0x537);
    var r4 := Clock(r3, 0x537);
    q := Clock(r4, 0x537);
    a, b, c, d, e := r[9], r1[9], r2[9], r3[9], r4[9];
  }

  lemma FormatWeight(r: Register, q: Register, a: bool, b: bool, c: bool, d: bool, e: bool)
    requires |r| == |q| == 10 && FormatProduct(r, q, a, b, c, d, e)
    requires r[5] || r[6] || r[7] || r[8] || r[9]
    ensures One(q[0]) + One(q[1]) + One(q[2]) + One(q[3]) + One(q[4]) + One(q[5]) + One(q[6]) + One(q[7]) + One(q[8])
            + One(q[9]) + One(r[5]) + One(r[6]) + One(r[7]) + One(r[8]) + One(r[9])
            >= 7
  {
  }

  lemma FormatOnes(d: Register, r: Register, q: Register)
    requires |d| == |r| == |q| == 10 && (d[0] || d[1] || d[2] || d[3] || d[4])
    requires forall j :: 0 <= j < 5 ==> !r[j]
    requires r[5] == d[0] && r[6] == d[1] && r[7] == d[2] && r[8] == d[3] && r[9] == d[4]
    requires q == Clocks(r, 0x537, 5)
    ensures Ones(q, 10) + Ones(d, 5) >= 7
  {
    hide *;
    var q', a, b, c, d', e := FormatSteps(r);
    TenOnes(q);
    FiveOnes(d);
    FormatWeight(r, q, a, b, c, d', e);
  }

  /** A constant does not change where two numbers differ. */
  lemma {:induction false} DifferingMasked(x: nat, y: nat, m: nat, n: nat)
    ensures Differing(Xor(x, m), Xor(y, m), n) == Differing(x, y, n)
    decreases n
  {
    hide Bit, Xor;
    if n > 0 {
      DifferingMasked(x, y, m, n - 1);
      XorBit(x, m, n - 1);
      XorBit(y, m, n - 1);
    }
  }

  lemma FormatDataDiffers(e: Ecc, m: int, f: Ecc, n: int)
    requires IsMask(m) && IsMask(n) && (e != f || m != n)
    ensures FormatData(e, m) != FormatData(f, n)
  {
  }

  lemma FormatRegister(d: Register, r: Register, q: Register)
    requires |d| == |r| == |q| == 10 && q == Clocks(r, 0x537, 5) && exists j :: 0 <= j < 5 && d[j]
    requires (forall j :: 0 <= j < 5 ==> !r[j]) && (forall j :: 0 <= j < 5 ==> r[j + 5] == d[j])
    ensures Ones(q, 10) + Ones(d, 5) >= 7
  {
    hide *;
    assert r[0 + 5] == d[0] && r[1 + 5] == d[1] && r[2 + 5] == d[2];
    assert r[3 + 5] == d[3] && r[4 + 5] == d[4];
    FormatOnes(d, r, q);
  }

  /** A format word without its constant, and its parts */
  lemma FormatParts(e: Ecc, m: int) returns (x: nat, v: nat, rem: nat)
    requires IsMask(m)
    ensures FormatWord(e, m) == Xor(x, FORMAT_MASK) && v == FormatData(e, m) && rem == Divide(v, 0x537, 10, 10)
    ensures x == v * 1024 + rem && rem < 1024 && v < 32
  {
    Powers();
    FormatWordIs(e, m);
    v := FormatData(e, m);
    hide Divide, FormatData, FormatWord, Xor, Pow2;
    DivideBound(v, 0x537, 10, 10);
    rem := Divide(v, 0x537, 10, 10);
    x := v * 1024 + rem;
  }

  lemma FormatPowers()
    ensures Pow2(5) == 32 && Pow2(10) == 1024 && FORMAT_MASK >= 0
  {
    Powers();
  }

  lemma FormatSplit(e: Ecc, m: int, f: Ecc, n: int)
    requires IsMask(m) && IsMask(n)
    ensures var v, u := FormatData(e, m), FormatData(f, n);
            && v < Pow2(5) && u < Pow2(5) && Pow2(5) <= Pow2(10) <= 0x537 < 2 * Pow2(10)
            && Differing(FormatWord(e, m), FormatWord(f, n), 15)
            == Differing(Divide(v, 0x537, 10, 10), Divide(u, 0x537, 10, 10), 10) + Differing(v, u, 5)
  {
    hide *;
    FormatPowers();
    var x, v, a := FormatParts(e, m);
    var y, u, b := FormatParts(f, n);
    DifferingMasked(x, y, FORMAT_MASK, 15);
    DifferingWords(x, v, a, y, u, b, 10, 1024, 5);
  }

  /** The format words of two pairs of level and mask differ in at least 7 of their 15 bits, so a word with 3 wrong bits
      still names level and mask. */
  lemma FormatWordsApart(e: Ecc, m: int, f: Ecc, n: int)
    requires IsMask(m) && IsMask(n) && (e != f || m != n)
    ensures Differing(FormatWord(e, m), FormatWord(f, n), 15) >= 7
  {
    FormatDataDiffers(e, m, f, n);
    hide *;
    FormatSplit(e, m, f, n);
    var d, r, q := WordsDiffer(FormatData(e, m), FormatData(f, n), 0x537, 10, 5);
    FormatRegister(d, r, q);
  }
}

/** Which modules of a symbol have a function, and how many are left for data.
    Source: web/src/lib/qrcode.js, lines 228-342 and 659-693. */
module FunctionModules {
  import opened Wrappers
  import opened Grids
  import opened Capacity

  // ---------- Alignment pattern positions ----------

  function NumAlign(version: int): int
    requires IsVersion(version)
  {
    version / 7 + 2
  }

  /** The distance between alignment patterns; a ceiling division, except for version 32 */
  function AlignStep(version: int): int
    requires IsVersion(version)
  {
    var gaps := 2 * NumAlign(version) - 2;
    if version != 32 then (Size(version) - 13 + gaps - 1) / gaps * 2 else 26
  }

  function Position(version: int, k: nat): int
    requires IsVersion(version) && k < NumAlign(version)
  {
    if k == 0 then 6 else Size(version) - 7 - (NumAlign(version) - 1 - k) * AlignStep(version)
  }

  /** The centres of the alignment patterns, on either axis: 6 and then in equal steps up to size - 7 */
  ghost function Positions(version: int): (p: seq<int>)
    requires IsVersion(version)
    ensures |p| == if version == 1 then 0 else NumAlign(version)
  {
    if version == 1 then [] else seq(NumAlign(version), k requires 0 <= k < NumAlign(version) => Position(version, k))
  }

  /** Far enough apart, and far enough from the finder patterns */
  ghost predicate Spaced(ps: seq<int>) {
    && |ps| >= 2
    && ps[0] == 6
    && ps[1] >= 11
    && forall k :: 1 <= k < |ps| - 1 ==> ps[k + 1] >= ps[k] + 7
  }

  lemma StepIsLarge(version: int)
    requires IsVersion(version) && version >= 2
    ensures 7 <= AlignStep(version)
    ensures Position(version, 1) >= 11
  {
    var n := NumAlign(version);
    assert 2 <= n <= 7;
    if n == 2 { } else if n == 3 { } else if n == 4 { } else if n == 5 { } else if n == 6 { } else { assert n == 7; }
  }

  lemma PositionsSpaced(version: int)
    requires IsVersion(version) && version >= 2
    ensures Spaced(Positions(version))
    ensures Positions(version)[|Positions(version)| - 1] == Size(version) - 7
  {
    StepIsLarge(version);
    var ps, n := Positions(version), NumAlign(version);
    forall k | 1 <= k < n - 1
      ensures ps[k + 1] >= ps[k] + 7
    {
      Difference(n - 2 - k, AlignStep(version));
    }
  }

  /** From the second position on the gaps are equal: the least even number that keeps the first gap within it, but for
      version 32, where that would be 28. */
  lemma GapsEqual(version: int)
    requires IsVersion(version) && version >= 2
    ensures var ps := Positions(version);
            |ps| == version / 7 + 2 && forall k :: 1 <= k < |ps| - 1 ==> ps[k + 1] - ps[k] == AlignStep(version)
    ensures var gaps, step := version / 7 + 1, AlignStep(version);
            if version == 32 then step == 26 else step % 2 == 0 && gaps * (step - 2) < Size(version) - 13 <= gaps * step
  {
    var ps, n := Positions(version), NumAlign(version);
    forall k | 1 <= k < n - 1
      ensures ps[k + 1] - ps[k] == AlignStep(version)
    {
      Difference(n - 2 - k, AlignStep(version));
    }
    StepIsLeast(version, n - 1);
  }

  lemma StepIsLeast(version: int, gaps: int)
    requires IsVersion(version) && version >= 2 && gaps == NumAlign(version) - 1
    ensures var step := AlignStep(version);
            if version == 32 then step == 26 else step % 2 == 0 && gaps * (step - 2) < Size(version) - 13 <= gaps * step
  {
    var s, m := Size(version) - 13, 2 * gaps;
    Ceiling(s, m);
    TwiceAway(gaps, (s + m - 1) / m);
  }

  lemma Ceiling(s: int, m: int)
    requires m > 0
    ensures var c := (s + m - 1) / m; m * (c - 1) < s <= m * c
  {
    var c, r := (s + m - 1) / m, (s + m - 1) % m;
    assert s + m - 1 == m * c + r;
    Difference(c - 1, m);
  }

  lemma TwiceAway(gaps: int, c: int)
    ensures (2 * gaps) * c == gaps * (c * 2) && (2 * gaps) * (c - 1) == gaps * (c * 2 - 2)
  {
  }

  lemma {:induction false} SpacedAscend(ps: seq<int>, i: nat, j: nat)
    requires Spaced(ps) && 1 <= i <= j < |ps|
    ensures ps[j] >= ps[i] + 7 * (j - i)
    decreases j - i
  {
    if i < j {
      SpacedAscend(ps, i, j - 1);
      var k := j - 1;
      assert ps[k + 1] >= ps[k] + 7;
    }
  }

  lemma Difference(m: int, s: int)
    ensures (m + 1) * s == m * s + s
  {
  }

  lemma LastPosition(version: int)
    requires IsVersion(version)
    ensures NumAlign(version) >= 2
    ensures Position(version, 0) == 6 && Position(version, NumAlign(version) - 1) == version * 4 + 10
  {
    hide AlignStep;
  }

  lemma PositionNext(version: int, k: int, pos: int)
    requires IsVersion(version) && 1 <= k < NumAlign(version) && pos == Position(version, k)
    ensures k >= 2 ==> pos - AlignStep(version) == Position(version, k - 1)
  {
    Difference(NumAlign(version) - 1 - k, AlignStep(version));
  }

  /** The positions, inserted one after another behind the first */
  method GetAlignmentPatternPositions(version: int) returns (r: Result<seq<int>>)
    ensures r.Ok? <==> IsVersion(version)
    ensures r.Ok? ==> r.value == Positions(version)
  {
    if version < 1 || version > 40 {
      return Err("Version number out of range");
    } else if version == 1 {
      return Ok([]);
    }
    hide AlignStep, NumAlign, Position;
    LastPosition(version);
    var size := version * 4 + 17;
    var numAlign := NumAlign(version);
    var step := AlignStep(version);
    var result := [6];
    var i, pos := 0, size - 7;
    while i < numAlign - 1
      invariant 0 <= i <= numAlign - 1 && |result| == i + 1 && result[0] == 6
      invariant i < numAlign - 1 ==> pos == Position(version, numAlign - 1 - i)
      invariant forall k :: 1 <= k <= i ==> result[k] == Position(version, numAlign - 1 - i + k)
    {
      PositionNext(version, numAlign - 1 - i, pos);
      result := result[..1] + [pos] + result[1..];
      i, pos := i + 1, pos - step;
    }
    return Ok(result);
  }

  // ---------- The function modules ----------

  predicate Timing(c: Cell) {
    c.x == 6 || c.y == 6
  }

  /** A finder pattern with its separator, clipped by the grid */
  predicate Finder(size: int, c: Cell) {
    Around(3, 3, 4, c) || Around(size - 4, 3, 4, c) || Around(3, size - 4, 4, c)
  }

  predicate Around(x: int, y: int, r: int, c: Cell) {
    x - r <= c.x <= x + r && y - r <= c.y <= y + r
  }

  /** The corners that finder patterns occupy */
  predicate IsCorner(n: int, i: int, j: int) {
    (i == 0 && j == 0) || (i == 0 && j == n - 1) || (i == n - 1 && j == 0)
  }

  ghost predicate Alignment(ps: seq<int>, c: Cell) {
    exists i, j :: 0 <= i < |ps| && 0 <= j < |ps| && !IsCorner(|ps|, i, j) && Around(ps[i], ps[j], 2, c)
  }

  /** Which bit of the format information a module shows; 15 for the module that is always dark, -1 for
      modules that show none */
  function FormatIndex(size: int, c: Cell): (k: int)
    ensures -1 <= k <= 15
  {
    if c.x == 8 && 0 <= c.y <= 5 then c.y
    else if c == Cell(8, 7) then 6
    else if c == Cell(8, 8) then 7
    else if c == Cell(7, 8) then 8
    else if c.y == 8 && 0 <= c.x <= 5 then 14 - c.x
    else if c.y == 8 && size - 8 <= c.x < size then size - 1 - c.x
    else if c.x == 8 && size - 7 <= c.y < size then c.y - size + 15
    else if c == Cell(8, size - 8) then 15
    else -1
  }

  predicate VersionInfo(version: int, c: Cell) {
    var a := Size(version) - 11;
    version >= 7 && ((a <= c.x < a + 3 && 0 <= c.y < 6) || (a <= c.y < a + 3 && 0 <= c.x < 6))
  }

  ghost predicate IsFunction(version: int, c: Cell)
    requires IsVersion(version)
  {
    Timing(c) || Finder(Size(version), c) || Alignment(Positions(version), c) || FormatIndex(Size(version), c) >= 0
      || VersionInfo(version, c)
  }

  // ---------- Counting them ----------

  /** The coordinates within 2 of the positions 1 .. hi - 1 */
  ghost function Near(ps: seq<int>, hi: nat): (s: set<int>)
    requires 1 <= hi <= |ps|
    decreases hi
  {
    if hi == 1 then {} else Near(ps, hi - 1) + Five(ps[hi - 1])
  }

  ghost function Five(p: int): (s: set<int>)
    ensures |s| == 5 && forall x :: x in s <==> p - 2 <= x <= p + 2
  {
    {p - 2, p - 1, p, p + 1, p + 2}
  }

  lemma {:induction false} NearSize(ps: seq<int>, hi: nat)
    requires Spaced(ps) && 1 <= hi <= |ps|
    ensures |Near(ps, hi)| == 5 * (hi - 1)
    ensures forall x :: x in Near(ps, hi) ==> hi >= 2 && 9 <= x <= ps[hi - 1] + 2
    decreases hi
  {
    hide Five;
    if hi > 1 {
      NearSize(ps, hi - 1);
      SpacedAscend(ps, 1, hi - 1);
      if hi > 2 {
        SpacedAscend(ps, hi - 2, hi - 1);
      }
      DisjointSize(Near(ps, hi - 1), Five(ps[hi - 1]));
    }
  }

  lemma {:induction false} NearMember(ps: seq<int>, hi: nat, x: int) returns (k: int)
    requires 1 <= hi <= |ps| && x in Near(ps, hi)
    ensures 1 <= k < hi && ps[k] - 2 <= x <= ps[k] + 2
    decreases hi
  {
    if x in Five(ps[hi - 1]) {
      k := hi - 1;
    } else {
      k := NearMember(ps, hi - 1, x);
    }
  }

  lemma {:induction false} NearContains(ps: seq<int>, hi: nat, x: int, k: int)
    requires 1 <= k < hi <= |ps| && ps[k] - 2 <= x <= ps[k] + 2
    ensures x in Near(ps, hi)
    decreases hi
  {
    if k < hi - 1 {
      NearContains(ps, hi - 1, x, k);
    }
  }

  ghost function Product(a: set<int>, b: set<int>): (s: set<Cell>)
    ensures forall c :: c in s <==> c.x in a && c.y in b
  {
    set x, y | x in a && y in b :: Cell(x, y)
  }

  lemma PickOne<T>(s: set<T>) returns (x: T)
    requires s != {}
    ensures x in s
  {
    x :| x in s;
  }

  lemma {:induction false} ProductSize(a: set<int>, b: set<int>)
    ensures |Product(a, b)| == |a| * |b|
  {
    if a != {} {
      var x := PickOne(a);
      ProductSize(a - {x}, b);
      LineSize(x, b);
      ProductSplit(a, b, x);
      hide Product;
      assert |a| == |a - {x}| + 1;
      Difference(|a - {x}|, |b|);
    } else {
      assert Product(a, b) == {};
    }
  }

  lemma ProductSplit(a: set<int>, b: set<int>, x: int)
    requires x in a
    ensures |Product(a, b)| == |Product(a - {x}, b)| + |Product({x}, b)|
  {
    var s, t := Product(a - {x}, b), Product({x}, b);
    assert Product(a, b) == s + t;
    DisjointSize(s, t);
  }

  lemma {:induction false} LineSize(x: int, b: set<int>)
    ensures |Product({x}, b)| == |b|
  {
    if b != {} {
      var y := PickOne(b);
      LineSize(x, b - {y});
      assert Product({x}, b) == Product({x}, b - {y}) + {Cell(x, y)};
    } else {
      assert Product({x}, b) == {};
    }
  }

  /** The rows and columns in which the edge patterns stand beside the timing patterns */
  const BESIDE_TIMING: set<int> := {4, 5, 7, 8}

  /** The alignment patterns without the rows and columns they share with the timing patterns */
  ghost function AlignmentOnly(ps: seq<int>): (s: set<Cell>)
    requires Spaced(ps)
  {
    Product(Near(ps, |ps|), Near(ps, |ps|))
    + Product(Near(ps, |ps| - 1), BESIDE_TIMING)
    + Product(BESIDE_TIMING, Near(ps, |ps| - 1))
  }

  lemma AlignmentOnlyMembers(ps: seq<int>, c: Cell)
    requires Spaced(ps)
    ensures c in AlignmentOnly(ps) <==> Alignment(ps, c) && !Timing(c)
  {
    if c in AlignmentOnly(ps) {
      AlignmentOnlyIsAlignment(ps, c);
    }
    if Alignment(ps, c) && !Timing(c) {
      var i, j :| 0 <= i < |ps| && 0 <= j < |ps| && !IsCorner(|ps|, i, j) && Around(ps[i], ps[j], 2, c);
      AlignmentIsCounted(ps, c, i, j);
    }
  }

  lemma AlignmentOnlyIsAlignment(ps: seq<int>, c: Cell)
    requires Spaced(ps) && c in AlignmentOnly(ps)
    ensures Alignment(ps, c) && !Timing(c)
  {
    hide Near, Product;
    var n := |ps|;
    NearSize(ps, n);
    NearSize(ps, n - 1);
    var i, j := 0, 0;
    if c in Product(Near(ps, n - 1), BESIDE_TIMING) {
      i := NearMember(ps, n - 1, c.x);
    } else if c in Product(BESIDE_TIMING, Near(ps, n - 1)) {
      j := NearMember(ps, n - 1, c.y);
    } else {
      i := NearMember(ps, n, c.x);
      j := NearMember(ps, n, c.y);
    }
    CentreMakesAlignment(ps, c, i, j);
  }

  lemma CentreMakesAlignment(ps: seq<int>, c: Cell, i: int, j: int)
    requires 0 <= i < |ps| && 0 <= j < |ps| && !IsCorner(|ps|, i, j) && Around(ps[i], ps[j], 2, c)
    ensures Alignment(ps, c)
  {
  }

  lemma AlignmentIsCounted(ps: seq<int>, c: Cell, i: int, j: int)
    requires Spaced(ps) && 0 <= i < |ps| && 0 <= j < |ps| && !IsCorner(|ps|, i, j) && Around(ps[i], ps[j], 2, c)
    requires !Timing(c)
    ensures c in AlignmentOnly(ps)
  {
    var n := |ps|;
    hide Near, Product;
    if i == 0 {
      NearContains(ps, n - 1, c.y, j);
      assert c in Product(BESIDE_TIMING, Near(ps, n - 1));
    } else if j == 0 {
      NearContains(ps, n - 1, c.x, i);
      assert c in Product(Near(ps, n - 1), BESIDE_TIMING);
    } else {
      NearContains(ps, n, c.x, i);
      NearContains(ps, n, c.y, j);
      assert c in Product(Near(ps, n), Near(ps, n));
    }
  }

  /** (n - 1)^2 whole patterns, and twice n - 2 that a timing pattern cuts */
  lemma AlignmentOnlySize(ps: seq<int>)
    requires Spaced(ps)
    ensures |AlignmentOnly(ps)| == 25 * (|ps| - 1) * (|ps| - 1) + 40 * (|ps| - 2)
  {
    hide Near, Product;
    var n := |ps|;
    NearSize(ps, n);
    NearSize(ps, n - 1);
    var inner, edge := Near(ps, n), Near(ps, n - 1);
    ProductSize(inner, inner);
    ProductSize(edge, BESIDE_TIMING);
    ProductSize(BESIDE_TIMING, edge);
    assert |BESIDE_TIMING| == 4;
    var a, b, d := Product(inner, inner), Product(edge, BESIDE_TIMING), Product(BESIDE_TIMING, edge);
    assert a !! b && (a + b) !! d;
    DisjointSize(a, b);
    DisjointSize(a + b, d);
    SquareOfFives(n - 1);
  }

  lemma SquareOfFives(m: int)
    ensures (5 * m) * (5 * m) == 25 * m * m
  {
  }

  // ---------- The modules left for data ----------

  ghost function FunctionSet(version: int): (s: set<Cell>)
    requires IsVersion(version)
    ensures forall c :: c in s <==> InGrid(c, Size(version)) && IsFunction(version, c)
  {
    set c | c in Rect(0, 0, Size(version), Size(version)) && IsFunction(version, c)
  }

  ghost function FreeSet(version: int): (s: set<Cell>)
    requires IsVersion(version)
    ensures forall c :: c in s <==> InGrid(c, Size(version)) && !IsFunction(version, c)
  {
    Rect(0, 0, Size(version), Size(version)) - FunctionSet(version)
  }

  /** The function modules apart from the alignment patterns, cut into rectangles */
  ghost function Frame(size: int): set<Cell> {
    Rect(0, 0, 9, 9) + Rect(size - 8, 0, 8, 9) + Rect(0, size - 8, 9, 8)
    + Rect(9, 6, size - 17, 1) + Rect(6, 9, 1, size - 17)
  }

  lemma FrameSize(size: int)
    requires size >= 21
    ensures |Frame(size)| == 191 + 2 * size
  {
    RectSize(0, 0, 9, 9); RectSize(size - 8, 0, 8, 9); RectSize(0, size - 8, 9, 8);
    RectSize(9, 6, size - 17, 1); RectSize(6, 9, 1, size - 17);
    var a, b, c, d, e := Rect(0, 0, 9, 9), Rect(size - 8, 0, 8, 9), Rect(0, size - 8, 9, 8), Rect(9, 6, size - 17, 1),
      Rect(6, 9, 1, size - 17);
    hide Rect;
    assert a !! b && (a + b) !! c && (a + b + c) !! d && (a + b + c + d) !! e;
    DisjointSize(a, b);
    DisjointSize(a + b, c);
    DisjointSize(a + b + c, d);
    DisjointSize(a + b + c + d, e);
  }

  lemma FrameMembers(size: int, c: Cell)
    requires size >= 21
    ensures c in Frame(size) <==> InGrid(c, size) && (Timing(c) || Finder(size, c) || FormatIndex(size, c) >= 0)
  {
  }

  ghost function VersionSet(version: int): set<Cell> {
    if version >= 7 then Rect(Size(version) - 11, 0, 3, 6) + Rect(0, Size(version) - 11, 6, 3) else {}
  }

  lemma VersionSetMembers(version: int)
    requires IsVersion(version)
    ensures forall c :: c in VersionSet(version) <==> VersionInfo(version, c)
  {
  }

  lemma VersionSetSize(version: int)
    requires IsVersion(version)
    ensures |VersionSet(version)| == if version >= 7 then 36 else 0
  {
    hide Rect;
    if version >= 7 {
      TwoBlocks(Size(version) - 11);
    }
  }

  lemma TwoBlocks(a: int)
    requires a >= 6
    ensures |Rect(a, 0, 3, 6) + Rect(0, a, 6, 3)| == 36
  {
    RectSize(a, 0, 3, 6);
    RectSize(0, a, 6, 3);
    var s, t := Rect(a, 0, 3, 6), Rect(0, a, 6, 3);
    hide Rect;
    assert s !! t;
    DisjointSize(s, t);
  }

  lemma AlignmentBounds(ps: seq<int>, c: Cell)
    requires Spaced(ps) && c in AlignmentOnly(ps)
    ensures var last := ps[|ps| - 1];
            || (9 <= c.x <= last + 2 && 9 <= c.y <= last + 2)
            || (9 <= c.x <= last - 5 && 4 <= c.y <= 8)
            || (4 <= c.x <= 8 && 9 <= c.y <= last - 5)
  {
    hide Near, Product;
    var n := |ps|;
    NearSize(ps, n);
    NearSize(ps, n - 1);
    if n > 2 {
      SpacedAscend(ps, n - 2, n - 1);
    }
    if c in Product(Near(ps, n - 1), BESIDE_TIMING) {
    } else if c in Product(BESIDE_TIMING, Near(ps, n - 1)) {
    } else {
      assert c in Product(Near(ps, n), Near(ps, n));
    }
  }

  /** Alignment patterns keep clear of the finder patterns and of the version information. */
  lemma AlignmentClear(version: int, c: Cell)
    requires IsVersion(version) && version >= 2
    requires Spaced(Positions(version)) && c in AlignmentOnly(Positions(version))
    ensures InGrid(c, Size(version)) && !Timing(c) && c !in Frame(Size(version)) && !VersionInfo(version, c)
  {
    PositionsSpaced(version);
    AlignmentBounds(Positions(version), c);
    AlignmentOnlyMembers(Positions(version), c);
    FrameMembers(Size(version), c);
    hide Positions, AlignmentOnly, Frame;
  }

  /** The alignment patterns beside the timing patterns; version 1 has none */
  ghost function Aligned(version: int): set<Cell>
    requires IsVersion(version)
  {
    if version == 1 then {} else
      PositionsSpaced(version);
      AlignmentOnly(Positions(version))
  }

  /** The frame, the version information and the alignment patterns make up the function modules. */
  lemma FunctionPart(version: int, c: Cell)
    requires IsVersion(version)
    ensures c in FunctionSet(version) <==>
      c in Frame(Size(version)) || c in VersionSet(version) || c in Aligned(version)
    ensures c in Aligned(version) ==> c !in Frame(Size(version)) && c !in VersionSet(version)
  {
    var ps := Positions(version);
    VersionSetMembers(version);
    FrameMembers(Size(version), c);
    InfoClear(version);
    if version >= 2 {
      PositionsSpaced(version);
      AlignmentOnlyMembers(ps, c);
      if c in AlignmentOnly(ps) {
        AlignmentClear(version, c);
      }
      hide AlignmentOnly, Alignment, Positions, Frame, VersionSet, VersionInfo, Finder, FormatIndex;
    }
  }

  lemma FunctionSetParts(version: int)
    requires IsVersion(version)
    ensures |FunctionSet(version)| == |Frame(Size(version))| + |VersionSet(version)| + |Aligned(version)|
  {
    hide *;
    InfoClear(version);
    forall c
      ensures c in FunctionSet(version) <==>
        c in Frame(Size(version)) || c in VersionSet(version) || c in Aligned(version)
      ensures c in Aligned(version) ==> c !in Frame(Size(version)) && c !in VersionSet(version)
    {
      FunctionPart(version, c);
    }
    ThreeParts(FunctionSet(version), Frame(Size(version)), VersionSet(version), Aligned(version));
  }

  lemma ThreeParts<T(!new)>(s: set<T>, a: set<T>, b: set<T>, c: set<T>)
    requires forall x :: x in s <==> x in a || x in b || x in c
    requires a !! b && forall x :: x in c ==> x !in a && x !in b
    ensures |s| == |a| + |b| + |c|
  {
    assert s == (a + b) + c;
    DisjointSize(a, b);
    DisjointSize(a + b, c);
  }

  lemma AlignedSize(version: int)
    requires IsVersion(version)
    ensures var n := NumAlign(version);
            |Aligned(version)| == if version >= 2 then 25 * (n - 1) * (n - 1) + 40 * (n - 2) else 0
  {
    if version >= 2 {
      PositionsSpaced(version);
      AlignmentOnlySize(Positions(version));
    }
  }

  lemma FunctionAndFree(version: int)
    requires IsVersion(version)
    ensures |FunctionSet(version)| + |FreeSet(version)| == Size(version) * Size(version)
  {
    var all := Rect(0, 0, Size(version), Size(version));
    RectSize(0, 0, Size(version), Size(version));
    hide IsFunction;
    assert FunctionSet(version) <= all;
    assert all == FreeSet(version) + FunctionSet(version);
    DisjointSize(FreeSet(version), FunctionSet(version));
  }

  /** Every version has exactly as many modules left for data as its capacity formula says. */
  lemma FreeModules(version: int)
    requires IsVersion(version)
    ensures |FreeSet(version)| == NumRawDataModules(version)
  {
    FunctionAndFree(version);
    FunctionSetParts(version);
    FrameSize(Size(version));
    VersionSetSize(version);
    AlignedSize(version);
    hide *;
    Count(version);
  }

  lemma InfoClear(version: int)
    requires IsVersion(version)
    ensures Frame(Size(version)) !! VersionSet(version)
    ensures forall c :: c in VersionSet(version) ==> InGrid(c, Size(version))
  {
  }

  lemma Count(version: int)
    requires IsVersion(version)
    ensures var size, n := Size(version), NumAlign(version);
            NumRawDataModules(version) == size * size - (191 + 2 * size) - (if version >= 7 then 36 else 0)
              - (if version >= 2 then 25 * (n - 1) * (n - 1) + 40 * (n - 2) else 0)
  {
    var v, n := version, NumAlign(version);
    assert Size(v) * Size(v) == 16 * v * v + 136 * v + 289;
    assert (16 * v + 128) * v == 16 * v * v + 128 * v;
    assert (25 * n - 10) * n == 25 * n * n - 10 * n;
    assert 25 * (n - 1) * (n - 1) == 25 * n * n - 50 * n + 25;
    hide NumAlign;
  }
}

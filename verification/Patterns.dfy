/** The picture that the function patterns make.
    Source: web/src/lib/qrcode.js, lines 228-342. */
module Patterns {
  import opened Bits
  import opened Grids
  import opened Capacity
  import opened Numbers
  import opened FormatInfo
  import opened FunctionModules

  /** The Chebyshev distance of c from (x, y) */
  function Chebyshev(x: int, y: int, c: Cell): nat {
    if Abs(c.x - x) >= Abs(c.y - y) then Abs(c.x - x) else Abs(c.y - y)
  }

  predicate TimingDark(c: Cell) {
    if c.x == 6 then c.y % 2 == 0 else c.x % 2 == 0
  }

  predicate FinderDark(x: int, y: int, c: Cell) {
    Chebyshev(x, y, c) != 2 && Chebyshev(x, y, c) != 4
  }

  predicate FindersDark(size: int, c: Cell) {
    if Around(3, size - 4, 4, c) then FinderDark(3, size - 4, c)
    else if Around(size - 4, 3, 4, c) then FinderDark(size - 4, 3, c)
    else FinderDark(3, 3, c)
  }

  predicate AlignmentDark(x: int, y: int, c: Cell) {
    Chebyshev(x, y, c) != 1
  }

  /** The position within 2 of a coordinate, among those before n, or -1 */
  ghost function NearIndex(ps: seq<int>, n: nat, x: int): (k: int)
    requires n <= |ps|
    ensures -1 <= k < n
    ensures k >= 0 ==> ps[k] - 2 <= x <= ps[k] + 2
  {
    if n == 0 then -1 else if ps[n - 1] - 2 <= x <= ps[n - 1] + 2 then n - 1 else NearIndex(ps, n - 1, x)
  }

  lemma {:induction false} NearIndexUnique(ps: seq<int>, n: nat, x: int, k: nat)
    requires |ps| == 0 || Spaced(ps)
    requires k < n <= |ps| && ps[k] - 2 <= x <= ps[k] + 2
    ensures NearIndex(ps, n, x) == k
  {
    if k < n - 1 {
      if k >= 1 {
        SpacedAscend(ps, k, n - 1);
      } else {
        SpacedAscend(ps, 1, n - 1);
      }
      NearIndexUnique(ps, n - 1, x, k);
    }
  }

  /** The alignment pattern that a module belongs to */
  ghost predicate AlignedAt(ps: seq<int>, i: int, j: int, c: Cell) {
    0 <= i < |ps| && 0 <= j < |ps| && !IsCorner(|ps|, i, j) && NearIndex(ps, |ps|, c.x) == i
      && NearIndex(ps, |ps|, c.y) == j
  }

  ghost predicate IsAligned(ps: seq<int>, c: Cell) {
    AlignedAt(ps, NearIndex(ps, |ps|, c.x), NearIndex(ps, |ps|, c.y), c)
  }

  lemma AlignedIsAround(ps: seq<int>, i: int, j: int, c: Cell)
    requires |ps| == 0 || Spaced(ps)
    requires 0 <= i < |ps| && 0 <= j < |ps| && !IsCorner(|ps|, i, j)
    ensures AlignedAt(ps, i, j, c) <==> Around(ps[i], ps[j], 2, c)
  {
    if Around(ps[i], ps[j], 2, c) {
      NearIndexUnique(ps, |ps|, c.x, i);
      NearIndexUnique(ps, |ps|, c.y, j);
    }
  }

  lemma AlignedIsAlignment(ps: seq<int>, c: Cell)
    requires |ps| == 0 || Spaced(ps)
    ensures IsAligned(ps, c) <==> Alignment(ps, c)
  {
    if IsAligned(ps, c) {
      AlignedIsAround(ps, NearIndex(ps, |ps|, c.x), NearIndex(ps, |ps|, c.y), c);
    }
    if Alignment(ps, c) {
      var i, j :| 0 <= i < |ps| && 0 <= j < |ps| && !IsCorner(|ps|, i, j) && Around(ps[i], ps[j], 2, c);
      AlignedIsAround(ps, i, j, c);
    }
  }

  ghost predicate AlignedDark(ps: seq<int>, c: Cell)
    requires IsAligned(ps, c)
  {
    AlignmentDark(ps[NearIndex(ps, |ps|, c.x)], ps[NearIndex(ps, |ps|, c.y)], c)
  }

  /** Belongs to an alignment pattern that is drawn before the one at (i, j) */
  ghost predicate AlignedBefore(ps: seq<int>, i: int, j: int, c: Cell): (b: bool)
    ensures b ==> IsAligned(ps, c)
  {
    var k := NearIndex(ps, |ps|, c.x);
    IsAligned(ps, c) && (k < i || (k == i && NearIndex(ps, |ps|, c.y) < j))
  }

  lemma AlignedNext(version: int, ps: seq<int>, i: int, j: int, next: int)
    requires IsVersion(version) && ps == Positions(version) && 0 <= i < |ps| && 0 <= j < |ps| && next == j + 1
    ensures IsCorner(|ps|, i, j) ==> forall c :: AlignedBefore(ps, i, next, c) <==> AlignedBefore(ps, i, j, c)
    ensures !IsCorner(|ps|, i, j) ==> forall c ::
      AlignedBefore(ps, i, next, c) <==> AlignedBefore(ps, i, j, c) || Around(ps[i], ps[j], 2, c)
    ensures !IsCorner(|ps|, i, j) ==> forall c ::
      Around(ps[i], ps[j], 2, c) ==> IsAligned(ps, c) && AlignedDark(ps, c) == AlignmentDark(ps[i], ps[j], c)
    ensures 2 <= ps[i] < Size(version) - 2 && 2 <= ps[j] < Size(version) - 2
  {
    PositionsSpaced(version);
    PositionBounds(version, i);
    PositionBounds(version, j);
    hide Positions, Spaced, NearIndex, IsCorner, Around, AlignmentDark;
    if !IsCorner(|ps|, i, j) {
      forall c
        ensures AlignedAt(ps, i, j, c) <==> Around(ps[i], ps[j], 2, c)
      {
        AlignedIsAround(ps, i, j, c);
      }
    }
  }

  lemma PositionBounds(version: int, i: nat)
    requires IsVersion(version) && i < |Positions(version)|
    ensures 2 <= Positions(version)[i] < Size(version) - 2
  {
    PositionsSpaced(version);
    var ps := Positions(version);
    hide Positions;
    if i >= 1 {
      SpacedAscend(ps, 1, i);
      SpacedAscend(ps, i, |ps| - 1);
    }
  }

  lemma AlignedRows(ps: seq<int>, i: int, next: int)
    requires next == i + 1
    ensures forall c :: AlignedBefore(ps, i, |ps|, c) <==> AlignedBefore(ps, next, 0, c)
  {
  }

  lemma AlignedEnds(ps: seq<int>)
    ensures forall c :: !AlignedBefore(ps, 0, 0, c)
    ensures forall c :: AlignedBefore(ps, |ps|, 0, c) <==> IsAligned(ps, c)
  {
  }

  /** The format bit a module shows in the copy beside the upper left finder pattern, or -1 */
  function FormatFirst(c: Cell): (k: int)
    ensures -1 <= k < 15
  {
    if c.x == 8 && 0 <= c.y <= 5 then c.y
    else if c == Cell(8, 7) then 6
    else if c == Cell(8, 8) then 7
    else if c == Cell(7, 8) then 8
    else if c.y == 8 && 0 <= c.x <= 5 then 14 - c.x
    else -1
  }

  /** The format bit a module shows in the copy beside the other finder patterns, or -1 */
  function FormatSecond(size: int, c: Cell): (k: int)
    ensures -1 <= k < 15
  {
    if c.y == 8 && size - 8 <= c.x < size then size - 1 - c.x
    else if c.x == 8 && size - 7 <= c.y < size then c.y - size + 15
    else -1
  }

  lemma FormatCopies(size: int, c: Cell)
    requires size >= 21
    ensures FormatIndex(size, c) == if FormatFirst(c) >= 0 then FormatFirst(c)
                                    else if FormatSecond(size, c) >= 0 then FormatSecond(size, c)
                                    else if c == Cell(8, size - 8) then 15 else -1
    ensures FormatFirst(c) >= 0 ==> FormatSecond(size, c) == -1
    ensures c == Cell(8, size - 8) ==> FormatFirst(c) == -1 && FormatSecond(size, c) == -1
  {
  }

  /** Where bit k of the first copy stands */
  function FirstCell(k: int): Cell {
    if k <= 5 then Cell(8, k)
    else if k == 6 then Cell(8, 7)
    else if k == 7 then Cell(8, 8)
    else if k == 8 then Cell(7, 8)
    else Cell(14 - k, 8)
  }

  lemma FirstCellIs(k: int)
    requires 0 <= k < 15
    ensures forall c :: FormatFirst(c) == k <==> c == FirstCell(k)
  {
  }

  function SecondCell(size: int, k: int): Cell {
    if k <= 7 then Cell(size - 1 - k, 8) else Cell(8, size - 15 + k)
  }

  lemma SecondCellIs(size: int, k: int)
    requires 0 <= k < 15 && size >= 21
    ensures forall c :: FormatSecond(size, c) == k <==> c == SecondCell(size, k)
  {
  }

  /** The version bit a module shows, or -1 */
  function VersionIndex(version: int, c: Cell): (k: int)
    ensures -1 <= k < 18
  {
    var a := Size(version) - 11;
    if a <= c.x < a + 3 && 0 <= c.y < 6 then 3 * c.y + c.x - a
    else if a <= c.y < a + 3 && 0 <= c.x < 6 then 3 * c.x + c.y - a
    else -1
  }

  lemma VersionIndexIs(version: int, k: int)
    requires 0 <= k < 18 && version >= 7
    ensures forall c :: VersionIndex(version, c) == k
              <==> c == Cell(Size(version) - 11 + k % 3, k / 3) || c == Cell(k / 3, Size(version) - 11 + k % 3)
    ensures forall c :: VersionIndex(version, c) >= 0 <==> VersionInfo(version, c)
  {
  }

  /** The colour of a function module that does not show format information */
  ghost predicate PatternDark(version: int, c: Cell)
    requires IsVersion(version)
  {
    var size, ps := Size(version), Positions(version);
    if VersionInfo(version, c) then Bit(VersionWord(version), VersionIndex(version, c))
    else if IsAligned(ps, c) then AlignedDark(ps, c)
    else if Finder(size, c) then FindersDark(size, c)
    else Timing(c) && TimingDark(c)
  }

  /** A grid with the format information for a word */
  ghost function Formatted(g: Grid, size: int, word: nat): (h: Grid)
    requires Square(g, size)
    ensures Square(h, size)
    ensures forall c :: InGrid(c, size) ==>
      At(h, c) == if FormatIndex(size, c) == 15 then true
                  else if FormatIndex(size, c) >= 0 then Bit(word, FormatIndex(size, c))
                  else At(g, c)
  {
    seq(size, y requires 0 <= y < size =>
      seq(size, x requires 0 <= x < size =>
        var k := FormatIndex(size, Cell(x, y));
        if k == 15 then true else if k >= 0 then Bit(word, k) else g[y][x]))
  }
}

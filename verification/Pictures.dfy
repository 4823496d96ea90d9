/** The pictures that a scanner looks for in a finished symbol, module by module.
    Source: web/src/lib/qrcode.js, lines 228-342. */
module Pictures {
  import opened Numbers
  import opened Gf256
  import opened BitStream
  import opened Grids
  import opened Capacity
  import opened Mask
  import opened FunctionModules
  import opened Patterns
  import opened Symbols

  /** A finder pattern in the upper left corner, with its separator */
  const FINDER: seq<string> := [
    "#######.",
    "#.....#.",
    "#.###.#.",
    "#.###.#.",
    "#.###.#.",
    "#.....#.",
    "#######.",
    "........"]

  const ALIGNMENT: seq<string> := [
    "#####",
    "#...#",
    "#.#.#",
    "#...#",
    "#####"]

  lemma FinderPicture(x: int, y: int)
    requires 0 <= x < 8 && 0 <= y < 8
    ensures |FINDER| == 8 && |FINDER[y]| == 8 && (FINDER[y][x] == '#' <==> FinderDark(3, 3, Cell(x, y)))
  {
    assert x == 0 || x == 1 || x == 2 || x == 3 || x == 4 || x == 5 || x == 6 || x == 7;
    if y == 0 { } else if y == 1 { } else if y == 2 { } else if y == 3 { }
    else if y == 4 { } else if y == 5 { } else if y == 6 { } else { assert y == 7; }
  }

  lemma AlignmentPicture(x: int, y: int)
    requires 0 <= x < 5 && 0 <= y < 5
    ensures |ALIGNMENT| == 5 && |ALIGNMENT[y]| == 5 && (ALIGNMENT[y][x] == '#' <==> AlignmentDark(2, 2, Cell(x, y)))
  {
    assert x == 0 || x == 1 || x == 2 || x == 3 || x == 4;
    if y == 0 { } else if y == 1 { } else if y == 2 { } else if y == 3 { } else { assert y == 4; }
  }

  lemma PositionRange(version: int, i: nat)
    requires IsVersion(version) && version >= 2 && i < |Positions(version)|
    ensures var ps := Positions(version);
            && (i == 0 ==> ps[i] == 6) && (i >= 1 ==> 11 <= ps[i] <= Size(version) - 7)
            && (1 <= i < |ps| - 1 ==> ps[i] <= Size(version) - 14)
  {
    PositionsSpaced(version);
    var ps := Positions(version);
    hide Positions;
    if i >= 1 {
      SpacedAscend(ps, 1, i);
      SpacedAscend(ps, i, |ps| - 1);
    }
  }

  /** Alignment patterns and finder patterns keep apart. */
  lemma FindersFree(version: int, c: Cell)
    requires IsVersion(version) && Finder(Size(version), c)
    ensures !IsAligned(Positions(version), c)
  {
    SpacedOrEmpty(version);
    AlignedIsAlignment(Positions(version), c);
    if version >= 2 && Alignment(Positions(version), c) {
      var ps := Positions(version);
      var i, j :| 0 <= i < |ps| && 0 <= j < |ps| && !IsCorner(|ps|, i, j) && Around(ps[i], ps[j], 2, c);
      PositionRange(version, i);
      PositionRange(version, j);
      hide Positions;
      assert false;
    }
  }

  /** A function module shows its pattern, unless it shows format information. */
  lemma PatternShown(version: int, ecl: Ecc, mask: int, codewords: seq<Byte>, c: Cell)
    requires IsVersion(version) && IsMask(mask) && |codewords| == RawCodewords(version)
    requires InGrid(c, Size(version)) && IsFunction(version, c) && FormatIndex(Size(version), c) < 0
    ensures At(Symbol(version, ecl, mask, codewords), c) == PatternDark(version, c)
  {
    hide Symbol, IsFunction, PatternDark, FormatIndex, RawCodewords, Unpack;
    SymbolIsTheGrid(Symbol(version, ecl, mask, codewords), version, ecl, mask, codewords);
  }

  lemma FinderPlain(version: int, c: Cell)
    requires IsVersion(version) && InGrid(c, Size(version)) && Finder(Size(version), c)
    ensures FormatIndex(Size(version), c) < 0 && !VersionInfo(version, c)
  {
  }

  lemma FinderShown(version: int, ecl: Ecc, mask: int, codewords: seq<Byte>, c: Cell)
    requires IsVersion(version) && IsMask(mask) && |codewords| == RawCodewords(version)
    requires InGrid(c, Size(version)) && Finder(Size(version), c)
    ensures At(Symbol(version, ecl, mask, codewords), c) == FindersDark(Size(version), c)
  {
    FinderPlain(version, c);
    hide Symbol, RawCodewords, FormatIndex, VersionInfo, Finder, FindersDark, IsAligned, Alignment, Positions;
    FindersFree(version, c);
    PatternShown(version, ecl, mask, codewords, c);
  }

  /** The same picture in three corners, each turned towards the centre */
  lemma FindersShown(version: int, ecl: Ecc, mask: int, codewords: seq<Byte>, x: int, y: int)
    requires IsVersion(version) && IsMask(mask) && |codewords| == RawCodewords(version) && 0 <= x < 8 && 0 <= y < 8
    ensures |FINDER| == 8 && |FINDER[y]| == 8
    ensures var g, size, dark := Symbol(version, ecl, mask, codewords), Size(version), FINDER[y][x] == '#';
            && size >= 21 && At(g, Cell(x, y)) == dark && At(g, Cell(size - 1 - x, y)) == dark
            && At(g, Cell(x, size - 1 - y)) == dark
  {
    hide Symbol, RawCodewords;
    var size := Size(version);
    FinderPicture(x, y);
    FinderShown(version, ecl, mask, codewords, Cell(x, y));
    FinderShown(version, ecl, mask, codewords, Cell(size - 1 - x, y));
    FinderShown(version, ecl, mask, codewords, Cell(x, size - 1 - y));
  }

  /** The five by five picture around every pair of positions but the three corners */
  lemma AlignmentsShown(version: int, ecl: Ecc, mask: int, codewords: seq<Byte>, i: nat, j: nat, x: int, y: int)
    requires IsVersion(version) && IsMask(mask) && |codewords| == RawCodewords(version) && 0 <= x < 5 && 0 <= y < 5
    requires var n := |Positions(version)|;
             i < n && j < n && (i, j) != (0, 0) && (i, j) != (0, n - 1) && (i, j) != (n - 1, 0)
    ensures |ALIGNMENT| == 5 && |ALIGNMENT[y]| == 5
    ensures var g, ps := Symbol(version, ecl, mask, codewords), Positions(version);
            && InGrid(Cell(ps[i] - 2 + x, ps[j] - 2 + y), Size(version))
            && At(g, Cell(ps[i] - 2 + x, ps[j] - 2 + y)) == (ALIGNMENT[y][x] == '#')
  {
    hide Symbol, RawCodewords, Positions, Alignment, IsAligned, NearIndex, FormatIndex, VersionInfo, IsFunction;
    var ps := Positions(version);
    var c := Cell(ps[i] - 2 + x, ps[j] - 2 + y);
    AlignmentPicture(x, y);
    AlignmentPlain(version, i, j, c);
    AlignedThere(version, i, j, c);
    PatternShown(version, ecl, mask, codewords, c);
  }

  lemma AlignmentPlain(version: int, i: nat, j: nat, c: Cell)
    requires IsVersion(version) && i < |Positions(version)| && j < |Positions(version)|
    requires !IsCorner(|Positions(version)|, i, j) && Around(Positions(version)[i], Positions(version)[j], 2, c)
    ensures InGrid(c, Size(version)) && IsFunction(version, c)
    ensures FormatIndex(Size(version), c) < 0 && !VersionInfo(version, c)
  {
    PositionRange(version, i);
    PositionRange(version, j);
    hide Positions;
    CentreMakesAlignment(Positions(version), c, i, j);
    hide Alignment;
  }

  lemma AlignedThere(version: int, i: nat, j: nat, c: Cell)
    requires IsVersion(version) && i < |Positions(version)| && j < |Positions(version)|
    requires !IsCorner(|Positions(version)|, i, j) && Around(Positions(version)[i], Positions(version)[j], 2, c)
    ensures var ps := Positions(version); IsAligned(ps, c) && AlignedDark(ps, c) == AlignmentDark(ps[i], ps[j], c)
  {
    SpacedOrEmpty(version);
    hide Positions, Spaced, AlignmentDark;
    var ps := Positions(version);
    NearIndexUnique(ps, |ps|, c.x, i);
    NearIndexUnique(ps, |ps|, c.y, j);
  }

  // ---------- The timing lines ----------

  lemma EvenTimes(m: int, h: int)
    ensures (m * (2 * h)) % 2 == 0
  {
    assert m * (2 * h) == 2 * (m * h);
  }

  lemma PositionsEven(version: int, i: nat)
    requires IsVersion(version) && i < |Positions(version)|
    ensures Positions(version)[i] % 2 == 0
  {
    var n, step := NumAlign(version), AlignStep(version);
    assert step % 2 == 0;
    EvenTimes(n - 1 - i, step / 2);
    assert step == 2 * (step / 2);
  }

  /** Where an alignment pattern lies across a timing line, it continues the line. */
  lemma TimingColour(version: int, k: int)
    requires IsVersion(version) && 8 <= k < Size(version) - 8
    ensures !Finder(Size(version), Cell(k, 6)) && !Finder(Size(version), Cell(6, k))
    ensures IsAligned(Positions(version), Cell(k, 6)) ==> AlignedDark(Positions(version), Cell(k, 6)) == (k % 2 == 0)
    ensures IsAligned(Positions(version), Cell(6, k)) ==> AlignedDark(Positions(version), Cell(6, k)) == (k % 2 == 0)
  {
    var ps := Positions(version);
    var i, near := NearIndex(ps, |ps|, k), NearIndex(ps, |ps|, 6);
    if i >= 0 {
      PositionsEven(version, i);
      PositionRange(version, 0);
      SpacedOrEmpty(version);
      hide Positions, Spaced;
      NearIndexUnique(ps, |ps|, 6, 0);
      EvenDistance(ps[i], k);
    }
  }

  lemma EvenDistance(p: int, k: int)
    requires p % 2 == 0 && p - 2 <= k <= p + 2
    ensures Abs(k - p) != 1 <==> k % 2 == 0
  {
  }

  /** Between the finder patterns row 6 and column 6 alternate, all the way through alignment patterns, and start
      dark. */
  lemma TimingShown(version: int, ecl: Ecc, mask: int, codewords: seq<Byte>, k: int)
    requires IsVersion(version) && IsMask(mask) && |codewords| == RawCodewords(version)
    requires 8 <= k < Size(version) - 8
    ensures var g := Symbol(version, ecl, mask, codewords);
            At(g, Cell(k, 6)) == At(g, Cell(6, k)) == (k % 2 == 0)
  {
    hide Symbol, RawCodewords, Finder, IsAligned, AlignedDark, Alignment, Positions, FindersDark;
    TimingColour(version, k);
    PatternShown(version, ecl, mask, codewords, Cell(k, 6));
    PatternShown(version, ecl, mask, codewords, Cell(6, k));
  }

  lemma DarkModule(version: int)
    requires IsVersion(version)
    ensures var c, size := Cell(8, Size(version) - 8), Size(version);
            InGrid(c, size) && FormatIndex(size, c) == 15 && IsFunction(version, c)
  {
    FormatHasFunction(version, Cell(8, Size(version) - 8));
  }

  /** One module is dark in every symbol. */
  lemma DarkModuleShown(version: int, ecl: Ecc, mask: int, codewords: seq<Byte>)
    requires IsVersion(version) && IsMask(mask) && |codewords| == RawCodewords(version)
    ensures At(Symbol(version, ecl, mask, codewords), Cell(8, Size(version) - 8))
  {
    hide Symbol, IsFunction, FormatIndex, RawCodewords, Unpack, PatternDark;
    DarkModule(version);
    SymbolIsTheGrid(Symbol(version, ecl, mask, codewords), version, ecl, mask, codewords);
  }
}

/** A symbol and the steps that draw it.
    Source: web/src/lib/qrcode.js, lines 78-465. */
module QrCodes {
  import opened Wrappers
  import opened Numbers
  import opened Bits
  import opened Gf256
  import opened BitStream
  import opened Grids
  import opened Capacity
  import opened Mask
  import opened Penalty
  import opened FormatInfo
  import opened FunctionModules
  import opened Patterns
  import opened Zigzag
  import opened Symbols
  import opened Blocks

  class QrCode {
    const version: int
    const size: int
    const errorCorrectionLevel: Ecc
    var mask: int
    var modules: Grid
    var isFunction: Grid

    ghost predicate Valid()
      reads this
    {
      IsVersion(version) && size == Size(version) && Square(modules, size) && Square(isFunction, size)
    }

    /** Two grids of Boolean false */
    constructor Blank(version: int, ecl: Ecc)
      requires IsVersion(version)
      ensures Valid()
      ensures this.version == version && errorCorrectionLevel == ecl
      ensures IsBlank(modules, size) && IsBlank(isFunction, size)
    {
      this.version := version;
      this.size := version * 4 + 17;
      this.errorCorrectionLevel := ecl;
      this.mask := -1;
      var row := seq(version * 4 + 17, _ => false);
      this.modules := seq(version * 4 + 17, _ => row);
      this.isFunction := seq(version * 4 + 17, _ => row);
    }

    method GetModule(x: int, y: int) returns (color: int)
      requires Valid()
      ensures color == if InGrid(Cell(x, y), size) && At(modules, Cell(x, y)) then 1 else 0
    {
      if 0 <= x && x < size && 0 <= y && y < size {
        return if modules[y][x] then 1 else 0;
      } else {
        return 0;
      }
    }

    method IsFunctionModule(x: int, y: int) returns (b: bool)
      requires Valid()
      ensures b == (InGrid(Cell(x, y), size) && At(isFunction, Cell(x, y)))
    {
      if 0 <= x && x < size && 0 <= y && y < size {
        return isFunction[y][x];
      } else {
        return false;
      }
    }

    /** Copies both grids, module by module. */
    method CopyGrids(initData: QrCode)
      requires Valid() && initData.Valid() && initData.size == size && initData != this
      modifies this`modules, this`isFunction
      ensures Valid() && modules == initData.modules && isFunction == initData.isFunction
    {
      for y := 0 to size
        invariant Valid()
        invariant forall c :: InGrid(c, size) && c.y < y ==>
          At(modules, c) == At(initData.modules, c) && At(isFunction, c) == At(initData.isFunction, c)
      {
        for x := 0 to size
          invariant Valid()
          invariant forall c :: InGrid(c, size) && (c.y < y || (c.y == y && c.x < x)) ==>
            At(modules, c) == At(initData.modules, c) && At(isFunction, c) == At(initData.isFunction, c)
        {
          var color := initData.GetModule(x, y);
          var marked := initData.IsFunctionModule(x, y);
          PutAt(modules, Cell(x, y), color == 1, size);
          PutAt(isFunction, Cell(x, y), marked, size);
          modules := Put(modules, Cell(x, y), color == 1);
          isFunction := Put(isFunction, Cell(x, y), marked);
        }
      }
      SameGrid(modules, initData.modules, size);
      SameGrid(isFunction, initData.isFunction, size);
    }

    // ---------- Function modules ----------

    method SetFunctionModule(x: int, y: int, isBlack: bool)
      requires Valid() && InGrid(Cell(x, y), size)
      modifies this`modules, this`isFunction
      ensures Valid()
      ensures forall c :: InGrid(c, size) ==> At(modules, c) == if c == Cell(x, y) then isBlack else At(old(modules), c)
      ensures forall c :: InGrid(c, size) ==> At(isFunction, c) == (c == Cell(x, y) || At(old(isFunction), c))
    {
      PutAt(modules, Cell(x, y), isBlack, size);
      PutAt(isFunction, Cell(x, y), true, size);
      modules := Put(modules, Cell(x, y), isBlack);
      isFunction := Put(isFunction, Cell(x, y), true);
    }

    method DrawTimingPatterns()
      requires Valid()
      modifies this`modules, this`isFunction
      ensures Valid()
      ensures forall c :: InGrid(c, size) ==> At(modules, c) == if Timing(c) then TimingDark(c) else At(old(modules), c)
      ensures forall c :: InGrid(c, size) ==> At(isFunction, c) == (Timing(c) || At(old(isFunction), c))
    {
      for i := 0 to size
        invariant Valid()
        invariant forall c :: InGrid(c, size) ==>
          At(modules, c) == if TimingBefore(c, i) then TimingDark(c) else At(old(modules), c)
        invariant forall c :: InGrid(c, size) ==> At(isFunction, c) == (TimingBefore(c, i) || At(old(isFunction), c))
      {
        SetFunctionModule(6, i, i % 2 == 0);
        SetFunctionModule(i, 6, i % 2 == 0);
      }
    }

    /** Concentric rings around (x, y), dark except at distances 2 and 4; the outermost one is the light frame, and what
        lies outside the grid is left out. */
    method DrawFinderPattern(x: int, y: int)
      requires Valid()
      modifies this`modules, this`isFunction
      ensures Valid()
      ensures forall c :: InGrid(c, size) ==>
        At(modules, c) == if Around(x, y, 4, c) then FinderDark(x, y, c) else At(old(modules), c)
      ensures forall c :: InGrid(c, size) ==> At(isFunction, c) == (Around(x, y, 4, c) || At(old(isFunction), c))
    {
      hide AroundBefore, Around, Chebyshev, Abs;
      AroundEnds(x, y, 4, -4, 5);
      for i := -4 to 5
        invariant Valid()
        invariant forall c :: InGrid(c, size) ==>
          At(modules, c) == if AroundBefore(x, y, 4, i, -4, c) then FinderDark(x, y, c) else At(old(modules), c)
        invariant forall c :: InGrid(c, size) ==>
          At(isFunction, c) == (AroundBefore(x, y, 4, i, -4, c) || At(old(isFunction), c))
      {
        AroundRows(x, y, 4, i, i + 1, -4, 5);
        for j := -4 to 5
          invariant Valid()
          invariant forall c :: InGrid(c, size) ==>
            At(modules, c) == if AroundBefore(x, y, 4, i, j, c) then FinderDark(x, y, c) else At(old(modules), c)
          invariant forall c ::
            InGrid(c, size) ==> At(isFunction, c) == (AroundBefore(x, y, 4, i, j, c) || At(old(isFunction), c))
        {
          AroundNext(x, y, 4, i, j, j + 1);
          var dist := if Abs(i) >= Abs(j) then Abs(i) else Abs(j);
          var xx, yy := x + j, y + i;
          if 0 <= xx < size && 0 <= yy < size {
            SetFunctionModule(xx, yy, dist != 2 && dist != 4);
          }
        }
      }
    }

    /** The three corners that have one */
    method DrawFinderPatterns()
      requires Valid()
      modifies this`modules, this`isFunction
      ensures Valid()
      ensures forall c :: InGrid(c, size) ==>
        At(modules, c) == if Finder(size, c) then FindersDark(size, c) else At(old(modules), c)
      ensures forall c :: InGrid(c, size) ==> At(isFunction, c) == (Finder(size, c) || At(old(isFunction), c))
    {
      hide Around, FinderDark;
      DrawFinderPattern(3, 3);
      DrawFinderPattern(size - 4, 3);
      DrawFinderPattern(3, size - 4);
    }

    /** A dark module at (x, y) within a light ring within a dark ring */
    method DrawAlignmentPattern(x: int, y: int)
      requires Valid() && 2 <= x < size - 2 && 2 <= y < size - 2
      modifies this`modules, this`isFunction
      ensures Valid()
      ensures forall c :: InGrid(c, size) ==>
        At(modules, c) == if Around(x, y, 2, c) then AlignmentDark(x, y, c) else At(old(modules), c)
      ensures forall c :: InGrid(c, size) ==> At(isFunction, c) == (Around(x, y, 2, c) || At(old(isFunction), c))
    {
      hide AroundBefore, Around, Chebyshev, Abs;
      AroundEnds(x, y, 2, -2, 3);
      for i := -2 to 3
        invariant Valid()
        invariant forall c :: InGrid(c, size) ==>
          At(modules, c) == if AroundBefore(x, y, 2, i, -2, c) then AlignmentDark(x, y, c) else At(old(modules), c)
        invariant forall c :: InGrid(c, size) ==>
          At(isFunction, c) == (AroundBefore(x, y, 2, i, -2, c) || At(old(isFunction), c))
      {
        AroundRows(x, y, 2, i, i + 1, -2, 3);
        for j := -2 to 3
          invariant Valid()
          invariant forall c :: InGrid(c, size) ==>
            At(modules, c) == if AroundBefore(x, y, 2, i, j, c) then AlignmentDark(x, y, c) else At(old(modules), c)
          invariant forall c ::
            InGrid(c, size) ==> At(isFunction, c) == (AroundBefore(x, y, 2, i, j, c) || At(old(isFunction), c))
        {
          AroundNext(x, y, 2, i, j, j + 1);
          SetFunctionModule(x + j, y + i, (if Abs(i) >= Abs(j) then Abs(i) else Abs(j)) != 1);
        }
      }
    }

    /** Draws every alignment pattern, except where finder patterns are. */
    method DrawAlignmentPatterns()
      requires Valid()
      modifies this`modules, this`isFunction
      ensures Valid()
      ensures var ps := Positions(version); forall c :: InGrid(c, size) ==>
        At(modules, c) == if IsAligned(ps, c) then AlignedDark(ps, c) else At(old(modules), c)
      ensures forall c :: InGrid(c, size) ==>
        At(isFunction, c) == (IsAligned(Positions(version), c) || At(old(isFunction), c))
    {
      hide IsAligned, Around, AlignmentDark, AlignedDark, AlignedBefore, Positions;
      var positions := GetAlignmentPatternPositions(version);
      var alignPatPos := positions.value;
      var numAlign := |alignPatPos|;
      AlignedEnds(alignPatPos);
      for i := 0 to numAlign
        invariant Valid()
        invariant forall c :: InGrid(c, size) ==>
          At(modules, c) == if AlignedBefore(alignPatPos, i, 0, c) then AlignedDark(alignPatPos, c)
            else At(old(modules), c)
        invariant forall c :: InGrid(c, size) ==>
          At(isFunction, c) == (AlignedBefore(alignPatPos, i, 0, c) || At(old(isFunction), c))
      {
        for j := 0 to numAlign
          invariant Valid()
          invariant forall c :: InGrid(c, size) ==>
            At(modules, c) == if AlignedBefore(alignPatPos, i, j, c) then AlignedDark(alignPatPos, c)
              else At(old(modules), c)
          invariant forall c ::
            InGrid(c, size) ==> At(isFunction, c) == (AlignedBefore(alignPatPos, i, j, c) || At(old(isFunction), c))
        {
          AlignedNext(version, alignPatPos, i, j, j + 1);
          if (i == 0 && j == 0) || (i == 0 && j == numAlign - 1) || (i == numAlign - 1 && j == 0) {
            continue;
          }
          DrawAlignmentPattern(alignPatPos[i], alignPatPos[j]);
        }
        AlignedRows(alignPatPos, i, i + 1);
      }
    }

    // ---------- Format and version information ----------

    /** The copy of the format bits beside the upper left finder pattern */
    method DrawFirstCopy(data: nat)
      requires Valid() && size >= 21
      modifies this`modules, this`isFunction
      ensures Valid()
      ensures forall c :: InGrid(c, size) ==>
        At(modules, c) == if FormatFirst(c) >= 0 then Bit(data, FormatFirst(c)) else At(old(modules), c)
      ensures forall c :: InGrid(c, size) ==> At(isFunction, c) == (FormatFirst(c) >= 0 || At(old(isFunction), c))
    {
      hide FormatFirst, Bit;
      DrawFirstColumn(data);
      DrawFirstRow(data);
    }

    method DrawFirstColumn(data: nat)
      requires Valid() && size >= 21
      modifies this`modules, this`isFunction
      ensures Valid()
      ensures forall c :: InGrid(c, size) ==>
        At(modules, c) == if FirstIn(c, 0, 9) then Bit(data, FormatFirst(c)) else At(old(modules), c)
      ensures forall c :: InGrid(c, size) ==> At(isFunction, c) == (FirstIn(c, 0, 9) || At(old(isFunction), c))
    {
      hide FormatFirst, Bit;
      for i := 0 to 6
        invariant Valid()
        invariant forall c :: InGrid(c, size) ==>
          At(modules, c) == if FirstIn(c, 0, i) then Bit(data, FormatFirst(c)) else At(old(modules), c)
        invariant forall c :: InGrid(c, size) ==> At(isFunction, c) == (FirstIn(c, 0, i) || At(old(isFunction), c))
      {
        FirstCellIs(i);
        SetFunctionModule(8, i, Bit(data, i));
      }
      FirstCellIs(6); FirstCellIs(7); FirstCellIs(8);
      SetFunctionModule(8, 7, Bit(data, 6));
      SetFunctionModule(8, 8, Bit(data, 7));
      SetFunctionModule(7, 8, Bit(data, 8));
    }

    method DrawFirstRow(data: nat)
      requires Valid() && size >= 21
      modifies this`modules, this`isFunction
      ensures Valid()
      ensures forall c :: InGrid(c, size) ==>
        At(modules, c) == if FirstIn(c, 9, 15) then Bit(data, FormatFirst(c)) else At(old(modules), c)
      ensures forall c :: InGrid(c, size) ==> At(isFunction, c) == (FirstIn(c, 9, 15) || At(old(isFunction), c))
    {
      hide FormatFirst, Bit;
      for i := 9 to 15
        invariant Valid()
        invariant forall c :: InGrid(c, size) ==>
          At(modules, c) == if FirstIn(c, 9, i) then Bit(data, FormatFirst(c)) else At(old(modules), c)
        invariant forall c :: InGrid(c, size) ==> At(isFunction, c) == (FirstIn(c, 9, i) || At(old(isFunction), c))
      {
        FirstCellIs(i);
        SetFunctionModule(14 - i, 8, Bit(data, i));
      }
    }

    /** The copy beside the other two finder patterns, and the module that is always dark */
    method DrawSecondCopy(data: nat)
      requires Valid() && size >= 21
      modifies this`modules, this`isFunction
      ensures Valid()
      ensures forall c :: InGrid(c, size) ==>
        At(modules, c) == if c == Cell(8, size - 8) then true
                          else if FormatSecond(size, c) >= 0 then Bit(data, FormatSecond(size, c))
                            else At(old(modules), c)
      ensures forall c :: InGrid(c, size) ==>
        At(isFunction, c) == (c == Cell(8, size - 8) || FormatSecond(size, c) >= 0 || At(old(isFunction), c))
    {
      hide FormatSecond, Bit;
      for i := 0 to 8
        invariant Valid()
        invariant forall c :: InGrid(c, size) ==>
          At(modules, c) == if SecondBefore(size, c, i) then Bit(data, FormatSecond(size, c)) else At(old(modules), c)
        invariant forall c :: InGrid(c, size) ==>
          At(isFunction, c) == (SecondBefore(size, c, i) || At(old(isFunction), c))
      {
        SecondCellIs(size, i);
        SetFunctionModule(size - 1 - i, 8, Bit(data, i));
      }
      for i := 8 to 15
        invariant Valid()
        invariant forall c :: InGrid(c, size) ==>
          At(modules, c) == if SecondBefore(size, c, i) then Bit(data, FormatSecond(size, c)) else At(old(modules), c)
        invariant forall c :: InGrid(c, size) ==>
          At(isFunction, c) == (SecondBefore(size, c, i) || At(old(isFunction), c))
      {
        SecondCellIs(size, i);
        SetFunctionModule(8, size - 15 + i, Bit(data, i));
      }
      SetFunctionModule(8, size - 8, true);
    }

    /** Shows the format word in both places. */
    method DrawFormatBits(mask: int)
      requires Valid() && IsMask(mask)
      modifies this`modules, this`isFunction
      ensures Valid()
      ensures modules == Formatted(old(modules), size, FormatWord(errorCorrectionLevel, mask))
      ensures forall c :: InGrid(c, size) ==> At(isFunction, c) == (FormatIndex(size, c) >= 0 || At(old(isFunction), c))
    {
      hide FormatWord, Bit, FormatFirst, FormatSecond, FormatIndex;
      var data := CalculateFormatWord(errorCorrectionLevel, mask);
      DrawFirstCopy(data);
      DrawSecondCopy(data);
      ghost var was := old(modules);
      forall c | InGrid(c, size)
        ensures At(modules, c) == At(Formatted(was, size, data), c)
        ensures At(isFunction, c) == (FormatIndex(size, c) >= 0 || At(old(isFunction), c))
      {
        FormatCopies(size, c);
      }
      SameGrid(modules, Formatted(was, size, data), size);
    }

    /** Shows the version word in both places, from version 7 on. */
    method DrawVersion()
      requires Valid()
      modifies this`modules, this`isFunction
      ensures Valid()
      ensures forall c :: InGrid(c, size) ==>
        At(modules, c) == if VersionInfo(version, c) then Bit(VersionWord(version), VersionIndex(version, c))
          else At(old(modules), c)
      ensures forall c :: InGrid(c, size) ==> At(isFunction, c) == (VersionInfo(version, c) || At(old(isFunction), c))
    {
      if version < 7 {
        return;
      }
      hide VersionWord, VersionIndex, VersionInfo, Bit;
      var data := CalculateVersionWord(version);
      for i := 0 to 18
        invariant Valid()
        invariant forall c :: InGrid(c, size) ==>
          At(modules, c) == if VersionBefore(version, c, i) then Bit(data, VersionIndex(version, c))
            else At(old(modules), c)
        invariant forall c :: InGrid(c, size) ==>
          At(isFunction, c) == (VersionBefore(version, c, i) || At(old(isFunction), c))
      {
        VersionIndexIs(version, i);
        var bit := Bit(data, i);
        var a, b := size - 11 + i % 3, i / 3;
        SetFunctionModule(a, b, bit);
        SetFunctionModule(b, a, bit);
      }
      VersionIndexIs(version, 0);
    }

    /** Draws and marks all function modules, with format bits for mask 0 that are overwritten later. */
    method DrawFunctionPatterns()
      requires Valid() && IsBlank(modules, size) && IsBlank(isFunction, size)
      modifies this`modules, this`isFunction
      ensures Valid()
      ensures isFunction == Functions(version)
      ensures AgreeOffFormat(modules, PatternGrid(version), size)
    {
      hide Bit, FormatIndex, AlignedDark, TimingDark, VersionIndex, VersionInfo, VersionWord, FormatWord, IsAligned,
        Positions, Finder, FindersDark, Timing,
        IsFunction, PatternDark;
      DrawTimingPatterns();
      DrawFinderPatterns();
      DrawAlignmentPatterns();
      DrawFormatBits(0);
      DrawVersion();
      forall c | InGrid(c, size)
        ensures At(isFunction, c) == At(Functions(version), c)
        ensures FormatIndex(size, c) < 0 ==> At(modules, c) == At(PatternGrid(version), c)
      {
        Layers(version, c);
      }
      SameGrid(isFunction, Functions(version), size);
    }

    // ---------- Codewords and mask ----------

    /** Puts the bits of the codewords on the data modules along the scan. */
    method DrawCodewords(data: seq<Byte>) returns (r: Result<()>)
      requires Valid() && isFunction == Functions(version)
      modifies this`modules
      ensures Valid()
      ensures r.Ok? <==> |data| == RawCodewords(version)
      ensures r.Ok? ==> modules == Place(old(modules), size, DataModules(version), Unpack(data))
      ensures r.Err? ==> modules == old(modules)
    {
      hide Place, Free, Scan, NumRawDataModules, RawCodewords, IsFunction, DataModules, Unpack, Inside, NoRepeats,
        Functions;
      RawIs(version);
      if |data| != NumRawDataModules(version) / 8 {
        return Err("Invalid argument");
      }
      ghost var done := Place(modules, size, DataModules(version), Unpack(data));
      DataModulesAll(version);
      DataModulesIs(version);
      assert Unpack(data)[0..] == Unpack(data);
      var i := DrawScan(data, done);
      FreeNothing(isFunction, size);
      PlaceNothing(modules, size, []);
      if i != |data| * 8 {
        return Err("Assertion error");
      }
      return Ok(());
    }

    /** The zigzag scan: pairs of columns from right to left, column 6 left out */
    method DrawScan(data: seq<Byte>, ghost done: Grid) returns (i: nat)
      requires Valid() && Inside(Scan(size, size - 1), size) && Remains(Scan(size, size - 1), 0, Unpack(data), done)
      modifies this`modules
      ensures Valid() && Inside([], size) && Remains([], i, Unpack(data), done)
    {
      hide Remains, Scan, Pair, Unpack, Inside;
      i := 0;
      var right := size - 1;
      while right >= 1
        invariant Valid() && -1 <= right < size
        invariant Inside(Scan(size, right), size)
        invariant Remains(Scan(size, right), i, Unpack(data), done)
        decreases right
      {
        ScanNext(size, right);
        if right == 6 {
          right := 5;
        }
        i := DrawPair(data, i, right, Scan(size, right - 2), done);
        right := right - 2;
      }
      ScanEnd(size, right);
    }

    /** One pair of columns, upwards or downwards */
    method DrawPair(data: seq<Byte>, start: nat, right: int, ghost rest: Path, ghost done: Grid) returns (i: nat)
      requires Valid() && right >= 1 && Inside(Pair(size, right, 0) + rest, size)
      requires Remains(Pair(size, right, 0) + rest, start, Unpack(data), done)
      modifies this`modules
      ensures Valid() && Inside(rest, size) && Remains(rest, i, Unpack(data), done)
    {
      hide Remains, Pair, Visit, Unpack, Inside;
      i := start;
      for vert := 0 to size
        invariant Valid() && Inside(Pair(size, right, vert) + rest, size)
        invariant Remains(Pair(size, right, vert) + rest, i, Unpack(data), done)
      {
        PairNext(size, right, vert, rest);
        ghost var p := Pair(size, right, vert) + rest;
        i := DrawModule(data, i, right, vert, 0, p, done);
        i := DrawModule(data, i, right, vert, 1, p[1..], done);
      }
      PairEnd(size, right, rest);
    }

    /** What is still to be drawn: the bits from i on, along path p, and there is room for them. */
    ghost predicate Remains(p: Path, i: nat, bits: BitString, done: Grid)
      reads this
      requires Valid() && Inside(p, size)
    {
      i <= |bits| && |bits| - i <= |Free(isFunction, size, p)|
        && Place(modules, size, Free(isFunction, size, p), bits[i..]) == done
    }

    /** Draws the next bit at one module of the scan, if it has no function and bits are left. */
    method DrawModule(data: seq<Byte>, i: nat, right: int, vert: int, j: int, ghost p: Path, ghost done: Grid)
      returns (next: nat)
      requires Valid() && Inside(p, size) && p != [] && right >= 1 && p[0] == Visit(size, right, vert, j)
      requires Remains(p, i, Unpack(data), done)
      modifies this`modules
      ensures Valid() && Inside(p[1..], size)
      ensures Remains(p[1..], next, Unpack(data), done)
    {
      hide Place, Free, Inside, Pow2, Unpack;
      ghost var bits := Unpack(data);
      InsideTail(p, size);
      next := i;
      var x := right - j;
      var y := if Upwards(right, x) then size - 1 - vert else vert;
      if !isFunction[y][x] && i < |data| * 8 {
        UnpackAt(data, i);
        PlaceNext(modules, isFunction, size, p, bits, i);
        var bit := data[i / 8] / Pow2(7 - i % 8) % 2 == 1;
        PutAt(modules, Cell(x, y), bit, size);
        modules := Put(modules, Cell(x, y), bit);
        next := i + 1;
      } else if isFunction[y][x] {
        PlaceSkips(isFunction, size, p);
      } else {
        assert bits[i..] == [];
        PlaceNothing(modules, size, Free(isFunction, size, p));
        PlaceNothing(modules, size, Free(isFunction, size, p[1..]));
      }
    }

    method ApplyMask(mask: int)
      requires Valid() && IsMask(mask)
      modifies this`modules
      ensures Valid()
      ensures modules == Masked(old(modules), isFunction, size, mask)
    {
      modules := Mask.ApplyMask(modules, isFunction, size, mask);
    }

    /** Draws the format bits for a mask, and applies it. */
    method Finish(mask: int)
      requires Valid() && isFunction == Functions(version) && IsMask(mask)
      modifies this`modules, this`isFunction
      ensures Valid() && isFunction == Functions(version)
      ensures modules == Finished(old(modules), Functions(version), size, errorCorrectionLevel, mask)
    {
      hide FormatWord, Formatted, Masked, IsFunction, FormatIndex;
      DrawFormatBits(mask);
      forall c | InGrid(c, size)
        ensures At(isFunction, c) == At(Functions(version), c)
      {
        FormatHasFunction(version, c);
      }
      SameGrid(isFunction, Functions(version), size);
      ApplyMask(mask);
    }

    /** Scores the symbol that a mask gives, and takes the mask off again. */
    method Trial(mask: int) returns (penalty: nat)
      requires Valid() && isFunction == Functions(version) && IsMask(mask)
      modifies this`modules, this`isFunction
      ensures Valid() && isFunction == Functions(version)
      ensures penalty
           == Penalty.Penalty(Finished(old(modules), Functions(version), size, errorCorrectionLevel, mask), size)
      ensures AgreeOffFormat(modules, old(modules), size)
    {
      hide Finished, Masked, AgreeOffFormat, Penalty.Penalty;
      UnmaskFinished(modules, Functions(version), size, errorCorrectionLevel, mask);
      Finish(mask);
      penalty := GetPenaltyScore(modules, size);
      ApplyMask(mask);
    }

    /** Applies a mask; for -1 the first of those that give the lowest penalty. */
    method HandleMasking(mask: int) returns (r: Result<()>)
      requires Valid() && isFunction == Functions(version) && -1 <= mask <= 7
      modifies this`modules, this`isFunction, this`mask
      ensures r.Ok? && Valid() && isFunction == Functions(version)
      ensures IsMask(this.mask) && (mask != -1 ==> this.mask == mask)
      ensures modules == Finished(old(modules), Functions(version), size, errorCorrectionLevel, this.mask)
      ensures mask == -1 ==> forall k :: 0 <= k < 8 ==>
        Penalty.Penalty(modules, size)
        <= Penalty.Penalty(Finished(old(modules), Functions(version), size, errorCorrectionLevel, k), size)
      ensures mask == -1 ==> forall k :: 0 <= k < this.mask ==>
        Penalty.Penalty(modules, size)
        < Penalty.Penalty(Finished(old(modules), Functions(version), size, errorCorrectionLevel, k), size)
    {
      hide Finished, AgreeOffFormat, Scores, Functions, Penalty.Penalty;
      ghost var base, fn := modules, Functions(version);
      AgreesWithItself(base, size);
      var choice := mask;
      ghost var scores := Scores(base, fn, size, errorCorrectionLevel);
      if mask == -1 {
        var minPenalty: Option<nat> := None;
        for i := 0 to 8
          invariant Valid() && isFunction == fn && AgreeOffFormat(modules, base, size)
          invariant if i == 0 then minPenalty.None? else 0 <= choice < i && minPenalty == Some(scores[choice])
          invariant forall k :: 0 <= k < i ==> scores[choice] <= scores[k]
          invariant forall k :: 0 <= k < i && k < choice ==> scores[choice] < scores[k]
        {
          FinishedAllAgree(modules, base, fn, size, errorCorrectionLevel);
          ghost var before := modules;
          var penalty := Trial(i);
          AgreeThrough(modules, before, base, size);
          assert penalty == scores[i];
          if minPenalty.None? || penalty < minPenalty.value {
            choice := i;
            minPenalty := Some(penalty);
          }
        }
      }
      if choice < 0 || choice > 7 {
        return Err("Assertion error");
      }
      FinishedAllAgree(modules, base, fn, size, errorCorrectionLevel);
      Finish(choice);
      this.mask := choice;
      return Ok(());
    }

    /** The last step for a new symbol, seen as one of its codewords */
    method MaskSymbol(mask: int, ghost codewords: seq<Byte>)
      requires Valid() && isFunction == Functions(version) && -1 <= mask <= 7
      requires AgreeOffFormat(modules, Bare(version, codewords), size)
      modifies this`modules, this`isFunction, this`mask
      ensures Shows(codewords) && (mask != -1 ==> this.mask == mask)
      ensures mask == -1 ==> forall k :: 0 <= k < 8 ==>
        Penalty.Penalty(modules, size) <= SymbolPenalty(version, errorCorrectionLevel, k, codewords)
      ensures mask == -1 ==> forall k :: 0 <= k < this.mask ==>
        Penalty.Penalty(modules, size) < SymbolPenalty(version, errorCorrectionLevel, k, codewords)
    {
      hide Functions, Finished, Bare, AgreeOffFormat, Penalty.Penalty;
      FinishedAllAgree(modules, Bare(version, codewords), Functions(version), size, errorCorrectionLevel);
      var masked := HandleMasking(mask);
    }

    /** This is the symbol for a codeword sequence. */
    ghost predicate Shows(codewords: seq<Byte>)
      reads this
    {
      && Valid() && isFunction == Functions(version) && IsMask(mask)
      && modules == Symbol(version, errorCorrectionLevel, mask, codewords)
    }
  }

  /** A new symbol for data codewords */
  method FromCodewords(initData: seq<Byte>, mask: int, version: int, errCorLvl: Ecc) returns (r: Result<QrCode>)
    ensures r.Ok? <==> -1 <= mask <= 7 && IsVersion(version) && |initData| == NumDataCodewords(version, errCorLvl)
    ensures r.Ok? ==>
      && fresh(r.value) && r.value.version == version && r.value.errorCorrectionLevel == errCorLvl
      && r.value.Shows(FinalSequence(initData, version, errCorLvl)) && (mask != -1 ==> r.value.mask == mask)
    ensures r.Ok? && mask == -1 ==> forall k :: 0 <= k < 8 ==>
      Penalty.Penalty(r.value.modules, r.value.size)
      <= SymbolPenalty(version, errCorLvl, k, FinalSequence(initData, version, errCorLvl))
    ensures r.Ok? && mask == -1 ==> forall k :: 0 <= k < r.value.mask ==>
      Penalty.Penalty(r.value.modules, r.value.size)
      < SymbolPenalty(version, errCorLvl, k, FinalSequence(initData, version, errCorLvl))
  {
    if mask < -1 || mask > 7 {
      return Err("Mask value out of range");
    }
    if version < 1 || version > 40 {
      return Err("Version value out of range");
    }
    hide Functions, PatternGrid, FinalSequence, Penalty.Penalty, SymbolPenalty, AgreeOffFormat, NumDataCodewords,
      RawCodewords, Place, DataModules, Unpack, Finished, IsBlank;
    var qr := new QrCode.Blank(version, errCorLvl);
    qr.DrawFunctionPatterns();
    var allCodewords := AppendErrorCorrection(initData, version, errCorLvl);
    if allCodewords.Err? {
      return Err(allCodewords.message);
    }
    ghost var patterns := qr.modules;
    var drawn := qr.DrawCodewords(allCodewords.value);
    assert drawn.Ok?;
    PlaceAgrees(patterns, PatternGrid(version), qr.size, DataModules(version), Unpack(allCodewords.value));
    qr.MaskSymbol(mask, allCodewords.value);
    return Ok(qr);
  }

  /** A symbol with the codewords of an existing one, but with another mask or an automatic choice */
  method FromSymbol(initData: QrCode, mask: int, ghost codewords: seq<Byte>) returns (r: Result<QrCode>)
    requires initData.Shows(codewords)
    ensures r.Ok? <==> -1 <= mask <= 7
    ensures r.Ok? ==>
      && fresh(r.value) && r.value.version == initData.version
        && r.value.errorCorrectionLevel == initData.errorCorrectionLevel
      && r.value.Shows(codewords) && (mask != -1 ==> r.value.mask == mask)
    ensures r.Ok? && mask == -1 ==> forall k :: 0 <= k < 8 ==>
      Penalty.Penalty(r.value.modules, r.value.size)
      <= SymbolPenalty(initData.version, initData.errorCorrectionLevel, k, codewords)
    ensures r.Ok? && mask == -1 ==> forall k :: 0 <= k < r.value.mask ==>
      Penalty.Penalty(r.value.modules, r.value.size)
      < SymbolPenalty(initData.version, initData.errorCorrectionLevel, k, codewords)
  {
    if mask < -1 || mask > 7 {
      return Err("Mask value out of range");
    }
    hide Functions, Bare, Finished, Masked, Penalty.Penalty, SymbolPenalty, AgreeOffFormat;
    UnmaskFinished(Bare(initData.version, codewords), Functions(initData.version), initData.size,
      initData.errorCorrectionLevel, initData.mask);
    var qr := new QrCode.Blank(initData.version, initData.errorCorrectionLevel);
    qr.CopyGrids(initData);
    qr.ApplyMask(initData.mask);
    qr.MaskSymbol(mask, codewords);
    return Ok(qr);
  }

  /** Shows one of the format bits lo, ..., hi - 1 in the first copy */
  predicate FirstIn(c: Cell, lo: nat, hi: int) {
    lo <= FormatFirst(c) < hi
  }

  predicate SecondBefore(size: int, c: Cell, i: int) {
    0 <= FormatSecond(size, c) < i
  }

  predicate VersionBefore(version: int, c: Cell, i: int) {
    0 <= VersionIndex(version, c) < i
  }

  predicate TimingBefore(c: Cell, i: int) {
    (c.x == 6 && c.y < i) || (c.y == 6 && c.x < i)
  }

  /** The part of a square around (x, y) that comes before row i, column j, counted from the centre */
  predicate AroundBefore(x: int, y: int, r: int, i: int, j: int, c: Cell) {
    Around(x, y, r, c) && (c.y < y + i || (c.y == y + i && c.x < x + j))
  }

  lemma AroundNext(x: int, y: int, r: int, i: int, j: int, next: int)
    requires -r <= i <= r && -r <= j <= r && next == j + 1
    ensures forall c :: AroundBefore(x, y, r, i, next, c) <==> AroundBefore(x, y, r, i, j, c) || c == Cell(x + j, y + i)
    ensures Chebyshev(x, y, Cell(x + j, y + i)) == if Abs(i) >= Abs(j) then Abs(i) else Abs(j)
  {
  }

  lemma AroundRows(x: int, y: int, r: int, i: int, next: int, left: int, end: int)
    requires next == i + 1 && left == -r && end == r + 1
    ensures forall c :: AroundBefore(x, y, r, i, end, c) <==> AroundBefore(x, y, r, next, left, c)
  {
  }

  lemma AroundEnds(x: int, y: int, r: int, left: int, end: int)
    requires left == -r && end == r + 1
    ensures forall c :: !AroundBefore(x, y, r, left, left, c)
    ensures forall c :: AroundBefore(x, y, r, end, left, c) <==> Around(x, y, r, c)
  {
  }

  lemma DataModulesIs(version: int)
    requires IsVersion(version)
    ensures Inside(Scan(Size(version), Size(version) - 1), Size(version))
    ensures DataModules(version) == Free(Functions(version), Size(version), Scan(Size(version), Size(version) - 1))
  {
    hide Free, Scan, NoRepeats;
    ScanInside(Size(version));
  }

  lemma RawIs(version: int)
    requires IsVersion(version)
    ensures RawCodewords(version) == NumRawDataModules(version) / 8
  {
  }

  lemma ScanNext(size: int, right: int)
    requires size >= 0 && right >= 1
    ensures Scan(size, right) == Pair(size, Skip6(right), 0) + Scan(size, Skip6(right) - 2)
  {
  }

  lemma ScanEnd(size: int, right: int)
    requires size >= 0 && right < 1
    ensures Scan(size, right) == []
  {
  }

  lemma PairNext(size: int, right: int, vert: int, rest: Path)
    requires right >= 1 && 0 <= vert < size
    ensures var p := Pair(size, right, vert) + rest;
            && |p| >= 2 && p[0] == Visit(size, right, vert, 0) && p[1] == Visit(size, right, vert, 1)
            && p[1..][1..] == Pair(size, right, vert + 1) + rest
  {
    var a, b, tail := Visit(size, right, vert, 0), Visit(size, right, vert, 1), Pair(size, right, vert + 1) + rest;
    assert Pair(size, right, vert) + rest == [a, b] + tail;
    hide Visit, Pair;
    assert ([a, b] + tail)[1..] == [b] + tail;
  }

  lemma PairEnd(size: int, right: int, rest: Path)
    requires right >= 1 && size >= 0
    ensures Pair(size, right, size) + rest == rest
  {
  }
}

/** The whole symbol as a function of version, error correction level, mask and codewords, and what a
    reader gets from it.
    Source: web/src/lib/qrcode.js, lines 78-136. */
module Symbols {
  import opened Bits
  import opened Gf256
  import opened BitStream
  import opened Grids
  import opened Capacity
  import opened Mask
  import opened Penalty
  import opened FormatInfo
  import opened FunctionModules
  import opened Patterns
  import opened Zigzag

  /** Which modules have a function */
  ghost function Functions(version: int): (fn: Grid)
    requires IsVersion(version)
    ensures Square(fn, Size(version))
    ensures forall c :: InGrid(c, Size(version)) ==> At(fn, c) == IsFunction(version, c)
  {
    seq(Size(version), y requires 0 <= y < Size(version) =>
      seq(Size(version), x requires 0 <= x < Size(version) => IsFunction(version, Cell(x, y))))
  }

  /** The function patterns alone, without format information */
  ghost function PatternGrid(version: int): (g: Grid)
    requires IsVersion(version)
    ensures Square(g, Size(version))
    ensures forall c :: InGrid(c, Size(version)) ==> At(g, c) == PatternDark(version, c)
  {
    seq(Size(version), y requires 0 <= y < Size(version) =>
      seq(Size(version), x requires 0 <= x < Size(version) => PatternDark(version, Cell(x, y))))
  }

  /** Function modules, and the colour of each by what is drawn there last */
  lemma Layers(version: int, c: Cell)
    requires IsVersion(version)
    ensures var ps := Positions(version);
            IsFunction(version, c) <==>
              Timing(c) || Finder(Size(version), c) || IsAligned(ps, c) || FormatIndex(Size(version), c) >= 0
                || VersionInfo(version, c)
    ensures var ps := Positions(version);
            PatternDark(version, c)
            == if VersionInfo(version, c) then Bit(VersionWord(version), VersionIndex(version, c))
               else if IsAligned(ps, c) then AlignedDark(ps, c)
               else if Finder(Size(version), c) then FindersDark(Size(version), c)
               else Timing(c) && TimingDark(c)
  {
    hide Alignment, IsAligned, Positions, FormatIndex, VersionInfo, VersionIndex, Bit, VersionWord, Finder,
      FindersDark, AlignedDark, TimingDark;
    SpacedOrEmpty(version);
    AlignedIsAlignment(Positions(version), c);
  }

  /** A grid in which nothing is drawn */
  ghost predicate IsBlank(g: Grid, size: int) {
    Square(g, size) && forall c :: InGrid(c, size) ==> !At(g, c)
  }

  /** The data modules of a version, in the order of the scan */
  ghost function DataModules(version: int): (f: Path)
    requires IsVersion(version)
    ensures Inside(f, Size(version)) && NoRepeats(f)
    ensures forall k :: 0 <= k < |f| ==> !IsFunction(version, f[k])
  {
    var f := DataPath(Functions(version), Size(version));
    assert forall k :: 0 <= k < |f| ==> f[k] in f;
    f
  }

  /** The scan reaches every module without a function, and there are as many as the capacity formula says. */
  lemma DataModulesAll(version: int)
    requires IsVersion(version)
    ensures forall c :: c in DataModules(version) <==> InGrid(c, Size(version)) && !IsFunction(version, c)
    ensures |DataModules(version)| == NumRawDataModules(version)
    ensures 8 * RawCodewords(version) <= |DataModules(version)| < 8 * RawCodewords(version) + 8
  {
    hide IsFunction, NumRawDataModules, DataPath, FreeSet;
    TimingColumn(version);
    FreeModules(version);
    DataPathLength(Functions(version), Size(version), FreeSet(version));
    forall c | InGrid(c, Size(version)) && !IsFunction(version, c)
      ensures c.x != 6
    {
      assert Functions(version)[c.y][6];
    }
  }

  lemma TimingColumn(version: int)
    requires IsVersion(version)
    ensures forall y :: 0 <= y < Size(version) ==> Functions(version)[y][6]
  {
    forall y | 0 <= y < Size(version)
      ensures Functions(version)[y][6]
    {
      assert At(Functions(version), Cell(6, y)) == IsFunction(version, Cell(6, y));
    }
  }

  /** Patterns and codewords, before format information and mask */
  ghost function Bare(version: int, codewords: seq<Byte>): (g: Grid)
    requires IsVersion(version)
    ensures Square(g, Size(version))
  {
    Place(PatternGrid(version), Size(version), DataModules(version), Unpack(codewords))
  }

  /** Format information for a mask drawn over a grid, and the mask applied */
  ghost function Finished(g: Grid, fn: Grid, size: int, ecl: Ecc, mask: int): (h: Grid)
    requires Square(g, size) && Square(fn, size) && IsMask(mask)
    ensures Square(h, size)
  {
    Masked(Formatted(g, size, FormatWord(ecl, mask)), fn, size, mask)
  }

  ghost function Symbol(version: int, ecl: Ecc, mask: int, codewords: seq<Byte>): (g: Grid)
    requires IsVersion(version) && IsMask(mask)
    ensures Square(g, Size(version))
  {
    Finished(Bare(version, codewords), Functions(version), Size(version), ecl, mask)
  }

  // ---------- Every module of the symbol ----------

  lemma BareAt(version: int, codewords: seq<Byte>)
    requires IsVersion(version) && 8 * |codewords| <= |DataModules(version)|
    ensures var f, bits, g := DataModules(version), Unpack(codewords), Bare(version, codewords);
            && (forall k :: 0 <= k < |f| ==> At(g, f[k]) == (k < |bits| && bits[k]))
            && (forall c :: InGrid(c, Size(version)) && IsFunction(version, c) ==> At(g, c) == PatternDark(version, c))
  {
    hide IsFunction, PatternDark, DataModules, Place, NoRepeats;
    var size, f, bits, p := Size(version), DataModules(version), Unpack(codewords), PatternGrid(version);
    PlaceAt(p, size, f, bits);
    var g := Bare(version, codewords);
    forall k | 0 <= k < |f|
      ensures At(g, f[k]) == (k < |bits| && bits[k])
    {
      if k >= |bits| {
        NotBefore(f, |bits|, k);
        NoPattern(version, f[k]);
      }
    }
    forall c | InGrid(c, size) && IsFunction(version, c)
      ensures At(g, c) == PatternDark(version, c)
    {
      assert c !in f[..|bits|];
    }
  }

  lemma NotBefore(f: Path, n: nat, k: nat)
    requires NoRepeats(f) && n <= k < |f|
    ensures f[k] !in f[..n]
  {
  }

  /** No pattern darkens a data module. */
  lemma NoPattern(version: int, c: Cell)
    requires IsVersion(version) && !IsFunction(version, c)
    ensures !PatternDark(version, c)
  {
    SpacedOrEmpty(version);
    AlignedIsAlignment(Positions(version), c);
    hide Alignment, Positions, FormatIndex, VersionInfo, IsAligned, NearIndex;
  }

  lemma SpacedOrEmpty(version: int)
    requires IsVersion(version)
    ensures |Positions(version)| == 0 || Spaced(Positions(version))
  {
    if version >= 2 {
      PositionsSpaced(version);
    }
  }

  lemma FinishedAt(g: Grid, fn: Grid, size: int, ecl: Ecc, mask: int, c: Cell)
    requires Square(g, size) && Square(fn, size) && IsMask(mask) && InGrid(c, size)
    ensures var k := FormatIndex(size, c);
            At(Finished(g, fn, size, ecl, mask), c)
            == ((if k == 15 then true else if k >= 0 then Bit(FormatWord(ecl, mask), k) else At(g, c))
                != (Inverts(mask, c) && !At(fn, c)))
  {
    hide FormatIndex, Inverts, FormatWord, Bit;
  }

  /** The colour of a module with a function */
  ghost predicate FunctionDark(version: int, ecl: Ecc, mask: int, c: Cell)
    requires IsVersion(version) && IsMask(mask)
  {
    var k := FormatIndex(Size(version), c);
    if k == 15 then true else if k >= 0 then Bit(FormatWord(ecl, mask), k) else PatternDark(version, c)
  }

  ghost predicate ShowsFunctions(g: Grid, version: int, ecl: Ecc, mask: int)
    requires IsVersion(version) && IsMask(mask) && Square(g, Size(version))
  {
    forall c :: InGrid(c, Size(version)) && IsFunction(version, c) ==> At(g, c) == FunctionDark(version, ecl, mask, c)
  }

  /** The k-th data module shows the k-th bit, and those after the last bit a zero, all inverted by the mask. */
  ghost predicate ShowsData(g: Grid, version: int, mask: int, bits: BitString)
    requires IsVersion(version) && IsMask(mask) && Square(g, Size(version))
  {
    var f := DataModules(version);
    forall k :: 0 <= k < |f| ==> At(g, f[k]) == ((k < |bits| && bits[k]) != Inverts(mask, f[k]))
  }

  lemma SymbolShowsData(version: int, ecl: Ecc, mask: int, codewords: seq<Byte>)
    requires IsVersion(version) && IsMask(mask) && 8 * |codewords| <= |DataModules(version)|
    ensures ShowsData(Symbol(version, ecl, mask, codewords), version, mask, Unpack(codewords))
  {
    hide Functions, Bare, Finished, IsFunction, FunctionDark, FormatIndex, FormatWord, Inverts, Bit, DataModules,
      Unpack, NoRepeats, PatternDark;
    BareAt(version, codewords);
    var f, bits, g := DataModules(version), Unpack(codewords), Symbol(version, ecl, mask, codewords);
    forall k | 0 <= k < |f|
      ensures At(g, f[k]) == ((k < |bits| && bits[k]) != Inverts(mask, f[k]))
    {
      InsideAt(f, Size(version), k);
      FormatHasFunction(version, f[k]);
      FinishedAt(Bare(version, codewords), Functions(version), Size(version), ecl, mask, f[k]);
    }
  }

  lemma SymbolShowsFunctions(version: int, ecl: Ecc, mask: int, codewords: seq<Byte>)
    requires IsVersion(version) && IsMask(mask) && 8 * |codewords| <= |DataModules(version)|
    ensures ShowsFunctions(Symbol(version, ecl, mask, codewords), version, ecl, mask)
  {
    hide Functions, Bare, Finished, IsFunction, FormatIndex, FormatWord, Inverts, Bit, DataModules, Unpack, NoRepeats,
      PatternDark;
    BareAt(version, codewords);
    var g := Symbol(version, ecl, mask, codewords);
    forall c | InGrid(c, Size(version)) && IsFunction(version, c)
      ensures At(g, c) == FunctionDark(version, ecl, mask, c)
    {
      FinishedAt(Bare(version, codewords), Functions(version), Size(version), ecl, mask, c);
    }
  }

  /** A symbol is the one grid that shows its function modules and, in scan order, its data bits. */
  lemma SymbolIsTheGrid(g: Grid, version: int, ecl: Ecc, mask: int, codewords: seq<Byte>)
    requires IsVersion(version) && IsMask(mask) && |codewords| == RawCodewords(version) && Square(g, Size(version))
    ensures g == Symbol(version, ecl, mask, codewords)
            <==> ShowsFunctions(g, version, ecl, mask) && ShowsData(g, version, mask, Unpack(codewords))
  {
    hide Symbol, IsFunction, FunctionDark, Inverts, DataModules, Unpack, NoRepeats, RawCodewords, NumRawDataModules;
    DataModulesAll(version);
    SymbolShowsData(version, ecl, mask, codewords);
    SymbolShowsFunctions(version, ecl, mask, codewords);
    var h, f := Symbol(version, ecl, mask, codewords), DataModules(version);
    if ShowsFunctions(g, version, ecl, mask) && ShowsData(g, version, mask, Unpack(codewords)) {
      forall c | InGrid(c, Size(version))
        ensures At(g, c) == At(h, c)
      {
        if !IsFunction(version, c) {
          var k :| 0 <= k < |f| && f[k] == c;
          assert At(g, f[k]) == At(h, f[k]);
        }
      }
      SameGrid(g, h, Size(version));
    }
  }

  lemma InsideAt(f: Path, size: int, k: nat)
    requires Inside(f, size) && k < |f|
    ensures InGrid(f[k], size)
  {
  }

  lemma FormatHasFunction(version: int, c: Cell)
    requires IsVersion(version)
    ensures FormatIndex(Size(version), c) >= 0 ==> IsFunction(version, c)
  {
  }

  // ---------- Changing the mask ----------

  ghost predicate AgreeOffFormat(g: Grid, h: Grid, size: int)
    requires Square(g, size) && Square(h, size)
  {
    forall c :: InGrid(c, size) && FormatIndex(size, c) < 0 ==> At(g, c) == At(h, c)
  }

  /** Drawing format information replaces all that was drawn before. */
  lemma FormattedAgree(g: Grid, h: Grid, size: int, word: nat)
    requires Square(g, size) && Square(h, size) && AgreeOffFormat(g, h, size)
    ensures Formatted(g, size, word) == Formatted(h, size, word)
  {
    hide FormatIndex, Bit;
    SameGrid(Formatted(g, size, word), Formatted(h, size, word), size);
  }

  lemma FormattedAgrees(g: Grid, size: int, word: nat)
    requires Square(g, size)
    ensures AgreeOffFormat(Formatted(g, size, word), g, size)
  {
    hide FormatIndex, Bit;
  }

  lemma AgreesWithItself(g: Grid, size: int)
    requires Square(g, size)
    ensures AgreeOffFormat(g, g, size)
  {
  }

  lemma AgreeThrough(f: Grid, g: Grid, h: Grid, size: int)
    requires Square(f, size) && Square(g, size) && Square(h, size)
    requires AgreeOffFormat(f, g, size) && AgreeOffFormat(g, h, size)
    ensures AgreeOffFormat(f, h, size)
  {
    hide FormatIndex;
  }

  lemma PlaceAgrees(g: Grid, h: Grid, size: int, f: Path, bits: BitString)
    requires Square(g, size) && Square(h, size) && AgreeOffFormat(g, h, size)
    requires Inside(f, size) && NoRepeats(f)
    ensures AgreeOffFormat(Place(g, size, f, bits), Place(h, size, f, bits), size)
  {
    PlaceAt(g, size, f, bits);
    PlaceAt(h, size, f, bits);
    hide FormatIndex, Place, Inside, NoRepeats;
    var n := if |bits| < |f| then |bits| else |f|;
    forall c | InGrid(c, size) && FormatIndex(size, c) < 0
      ensures At(Place(g, size, f, bits), c) == At(Place(h, size, f, bits), c)
    {
      if c in f[..n] {
        var k :| 0 <= k < n && f[k] == c;
        assert At(Place(g, size, f, bits), f[k]) == bits[k];
      }
    }
  }

  /** After the mask is taken off again, only format information is left of a finished symbol. */
  lemma UnmaskFinished(g: Grid, fn: Grid, size: int, ecl: Ecc, mask: int)
    requires Square(g, size) && Square(fn, size) && IsMask(mask)
    ensures Masked(Finished(g, fn, size, ecl, mask), fn, size, mask) == Formatted(g, size, FormatWord(ecl, mask))
    ensures AgreeOffFormat(Masked(Finished(g, fn, size, ecl, mask), fn, size, mask), g, size)
  {
    hide FormatWord, Masked, Formatted, AgreeOffFormat;
    MaskTwice(Formatted(g, size, FormatWord(ecl, mask)), fn, size, mask);
    FormattedAgrees(g, size, FormatWord(ecl, mask));
  }

  lemma FinishedAgree(g: Grid, h: Grid, fn: Grid, size: int, ecl: Ecc, mask: int)
    requires Square(g, size) && Square(h, size) && Square(fn, size) && IsMask(mask) && AgreeOffFormat(g, h, size)
    ensures Finished(g, fn, size, ecl, mask) == Finished(h, fn, size, ecl, mask)
  {
    hide FormatWord, Masked, Formatted, AgreeOffFormat;
    FormattedAgree(g, h, size, FormatWord(ecl, mask));
  }

  /** The penalties of the symbols that the eight masks give */
  ghost function Scores(g: Grid, fn: Grid, size: int, ecl: Ecc): (s: seq<nat>)
    requires Square(g, size) && Square(fn, size) && size > 0
    ensures |s| == 8 && forall i :: 0 <= i < 8 ==> s[i] == Penalty.Penalty(Finished(g, fn, size, ecl, i), size)
  {
    seq(8, i requires 0 <= i < 8 => Penalty.Penalty(Finished(g, fn, size, ecl, i), size))
  }

  /** The penalty of the symbol that shows these codewords with this mask */
  ghost function SymbolPenalty(version: int, ecl: Ecc, mask: int, codewords: seq<Byte>): nat
    requires IsVersion(version) && IsMask(mask)
  {
    Penalty.Penalty(Symbol(version, ecl, mask, codewords), Size(version))
  }

  lemma FinishedAllAgree(g: Grid, h: Grid, fn: Grid, size: int, ecl: Ecc)
    requires Square(g, size) && Square(h, size) && Square(fn, size) && AgreeOffFormat(g, h, size)
    ensures forall m :: IsMask(m) ==> Finished(g, fn, size, ecl, m) == Finished(h, fn, size, ecl, m)
  {
    hide AgreeOffFormat, Finished;
    forall m | IsMask(m)
      ensures Finished(g, fn, size, ecl, m) == Finished(h, fn, size, ecl, m)
    {
      FinishedAgree(g, h, fn, size, ecl, m);
    }
  }

  /** Taking the mask off a symbol and finishing it with any mask gives what the original codewords give with that mask,
      so the penalties are the same too. */
  lemma Remask(version: int, ecl: Ecc, mask: int, codewords: seq<Byte>)
    requires IsVersion(version) && IsMask(mask)
    ensures var fn, size := Functions(version), Size(version);
            var g := Masked(Symbol(version, ecl, mask, codewords), fn, size, mask);
            forall m :: IsMask(m) ==>
              && Finished(g, fn, size, ecl, m) == Symbol(version, ecl, m, codewords)
              && Penalty.Penalty(Finished(g, fn, size, ecl, m), size) == SymbolPenalty(version, ecl, m, codewords)
  {
    hide Functions, Bare, Masked, Finished, AgreeOffFormat, Penalty.Penalty;
    var fn, size, bare := Functions(version), Size(version), Bare(version, codewords);
    UnmaskFinished(bare, fn, size, ecl, mask);
    FinishedAllAgree(Masked(Symbol(version, ecl, mask, codewords), fn, size, mask), bare, fn, size, ecl);
  }

  // ---------- Reading ----------

  /** The bits a reader finds in a symbol of known mask */
  ghost function ReadBits(g: Grid, version: int, mask: int): (bits: BitString)
    requires IsVersion(version) && IsMask(mask) && Square(g, Size(version))
    ensures |bits| == |DataModules(version)|
  {
    Collect(Masked(g, Functions(version), Size(version), mask), Size(version), DataModules(version))
  }

  /** The codewords in them, without remainder bits */
  ghost function ReadCodewords(g: Grid, version: int, mask: int): (codewords: seq<Byte>)
    requires IsVersion(version) && IsMask(mask) && Square(g, Size(version))
    ensures |codewords| == RawCodewords(version)
  {
    Room(version);
    Pack(ReadBits(g, version, mask)[..8 * RawCodewords(version)])
  }

  lemma Room(version: int)
    requires IsVersion(version)
    ensures 0 <= 8 * RawCodewords(version) <= |DataModules(version)|
  {
    hide RawCodewords, NumRawDataModules, DataModules;
    DataModulesAll(version);
  }

  lemma ReadBitsOfSymbol(version: int, ecl: Ecc, mask: int, codewords: seq<Byte>)
    requires IsVersion(version) && IsMask(mask) && 8 * |codewords| <= |DataModules(version)|
    ensures ReadBits(Symbol(version, ecl, mask, codewords), version, mask)[..8 * |codewords|] == Unpack(codewords)
  {
    hide DataModules, Functions, Bare, Finished, Masked, Formatted, Collect, Unpack, AgreeOffFormat, FormatWord;
    var bare := Bare(version, codewords);
    UnmaskFinished(bare, Functions(version), Size(version), ecl, mask);
    CollectUnformatted(version, bare, FormatWord(ecl, mask));
    CollectBare(version, codewords);
  }

  lemma ReadWritten(version: int, ecl: Ecc, mask: int, codewords: seq<Byte>)
    requires IsVersion(version) && IsMask(mask) && |codewords| == RawCodewords(version)
    ensures ReadCodewords(Symbol(version, ecl, mask, codewords), version, mask) == codewords
  {
    hide RawCodewords, NumRawDataModules, DataModules, Symbol, ReadBits, Pack, Unpack;
    DataModulesAll(version);
    ReadBitsOfSymbol(version, ecl, mask, codewords);
    PackUnpack(codewords);
  }

  lemma CollectBare(version: int, codewords: seq<Byte>)
    requires IsVersion(version) && 8 * |codewords| <= |DataModules(version)|
    ensures Collect(Bare(version, codewords), Size(version), DataModules(version))[..8 * |codewords|]
      == Unpack(codewords)
  {
    hide PatternDark, IsFunction, DataModules, NoRepeats, Place, Unpack;
    CollectPlaced(PatternGrid(version), Size(version), DataModules(version), Unpack(codewords));
  }

  lemma CollectUnformatted(version: int, g: Grid, word: nat)
    requires IsVersion(version) && Square(g, Size(version))
    ensures Collect(Formatted(g, Size(version), word), Size(version), DataModules(version))
      == Collect(g, Size(version), DataModules(version))
  {
    hide IsFunction, FormatIndex, DataModules, Formatted, Bit;
    var f := DataModules(version);
    forall k | 0 <= k < |f|
      ensures At(Formatted(g, Size(version), word), f[k]) == At(g, f[k])
    {
      InsideAt(f, Size(version), k);
      FormatHasFunction(version, f[k]);
    }
  }
}

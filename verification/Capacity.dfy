/** How much each version and error correction level holds.
    Source: web/src/lib/qrcode.js, lines 682-1089. */
module Capacity {
  import opened Gf256

  datatype Ecc = Low | Medium | Quartile | High {
    function Ordinal(): (n: nat)
      ensures n < 4
    {
      match this
      case Low => 0
      case Medium => 1
      case Quartile => 2
      case High => 3
    }

    function FormatBits(): (n: nat)
      ensures n < 4
    {
      match this
      case Low => 1
      case Medium => 0
      case Quartile => 3
      case High => 2
    }
  }

  predicate IsVersion(version: int) {
    1 <= version <= 40
  }

  function Size(version: int): int {
    version * 4 + 17
  }

  /** The modules left for data and error correction */
  function NumRawDataModules(version: int): int
    requires IsVersion(version)
  {
    var result := (16 * version + 128) * version + 64;
    if version < 2 then result
    else
      var numAlign := version / 7 + 2;
      var aligned := result - ((25 * numAlign - 10) * numAlign - 55);
      if version >= 7 then aligned - 36 else aligned
  }

  // ---------- Tables ----------

  /** NUM_ERROR_CORRECTION_CODEWORDS */
  function EccCodewords(version: int, ecl: Ecc): int
    requires IsVersion(version)
  {
    match ecl
    case Low =>
      (if version <= 10 then
        match version
        case 1 => 7 case 2 => 10 case 3 => 15 case 4 => 20 case 5 => 26
        case 6 => 36 case 7 => 40 case 8 => 48 case 9 => 60 case _ => 72
      else if version <= 20 then
        match version
        case 11 => 80 case 12 => 96 case 13 => 104 case 14 => 120 case 15 => 132
        case 16 => 144 case 17 => 168 case 18 => 180 case 19 => 196 case _ => 224
      else if version <= 30 then
        match version
        case 21 => 224 case 22 => 252 case 23 => 270 case 24 => 300 case 25 => 312
        case 26 => 336 case 27 => 360 case 28 => 390 case 29 => 420 case _ => 450
      else
        match version
        case 31 => 480 case 32 => 510 case 33 => 540 case 34 => 570 case 35 => 570
        case 36 => 600 case 37 => 630 case 38 => 660 case 39 => 720 case _ => 750)
    case Medium =>
      (if version <= 10 then
        match version
        case 1 => 10 case 2 => 16 case 3 => 26 case 4 => 36 case 5 => 48
        case 6 => 64 case 7 => 72 case 8 => 88 case 9 => 110 case _ => 130
      else if version <= 20 then
        match version
        case 11 => 150 case 12 => 176 case 13 => 198 case 14 => 216 case 15 => 240
        case 16 => 280 case 17 => 308 case 18 => 338 case 19 => 364 case _ => 416
      else if version <= 30 then
        match version
        case 21 => 442 case 22 => 476 case 23 => 504 case 24 => 560 case 25 => 588
        case 26 => 644 case 27 => 700 case 28 => 728 case 29 => 784 case _ => 812
      else
        match version
        case 31 => 868 case 32 => 924 case 33 => 980 case 34 => 1036 case 35 => 1064
        case 36 => 1120 case 37 => 1204 case 38 => 1260 case 39 => 1316 case _ => 1372)
    case Quartile =>
      (if version <= 10 then
        match version
        case 1 => 13 case 2 => 22 case 3 => 36 case 4 => 52 case 5 => 72
        case 6 => 96 case 7 => 108 case 8 => 132 case 9 => 160 case _ => 192
      else if version <= 20 then
        match version
        case 11 => 224 case 12 => 260 case 13 => 288 case 14 => 320 case 15 => 360
        case 16 => 408 case 17 => 448 case 18 => 504 case 19 => 546 case _ => 600
      else if version <= 30 then
        match version
        case 21 => 644 case 22 => 690 case 23 => 750 case 24 => 810 case 25 => 870
        case 26 => 952 case 27 => 1020 case 28 => 1050 case 29 => 1140 case _ => 1200
      else
        match version
        case 31 => 1290 case 32 => 1350 case 33 => 1440 case 34 => 1530 case 35 => 1590
        case 36 => 1680 case 37 => 1770 case 38 => 1860 case 39 => 1950 case _ => 2040)
    case High =>
      (if version <= 10 then
        match version
        case 1 => 17 case 2 => 28 case 3 => 44 case 4 => 64 case 5 => 88
        case 6 => 112 case 7 => 130 case 8 => 156 case 9 => 192 case _ => 224
      else if version <= 20 then
        match version
        case 11 => 264 case 12 => 308 case 13 => 352 case 14 => 384 case 15 => 432
        case 16 => 480 case 17 => 532 case 18 => 588 case 19 => 650 case _ => 700
      else if version <= 30 then
        match version
        case 21 => 750 case 22 => 816 case 23 => 900 case 24 => 960 case 25 => 1050
        case 26 => 1110 case 27 => 1200 case 28 => 1260 case 29 => 1350 case _ => 1440
      else
        match version
        case 31 => 1530 case 32 => 1620 case 33 => 1710 case 34 => 1800 case 35 => 1890
        case 36 => 1980 case 37 => 2100 case 38 => 2220 case 39 => 2310 case _ => 2430)
  }

  /** NUM_ERROR_CORRECTION_BLOCKS */
  function EccBlocks(version: int, ecl: Ecc): int
    requires IsVersion(version)
  {
    match ecl
    case Low =>
      (if version <= 10 then
        match version
        case 1 => 1 case 2 => 1 case 3 => 1 case 4 => 1 case 5 => 1
        case 6 => 2 case 7 => 2 case 8 => 2 case 9 => 2 case _ => 4
      else if version <= 20 then
        match version
        case 11 => 4 case 12 => 4 case 13 => 4 case 14 => 4 case 15 => 6
        case 16 => 6 case 17 => 6 case 18 => 6 case 19 => 7 case _ => 8
      else if version <= 30 then
        match version
        case 21 => 8 case 22 => 9 case 23 => 9 case 24 => 10 case 25 => 12
        case 26 => 12 case 27 => 12 case 28 => 13 case 29 => 14 case _ => 15
      else
        match version
        case 31 => 16 case 32 => 17 case 33 => 18 case 34 => 19 case 35 => 19
        case 36 => 20 case 37 => 21 case 38 => 22 case 39 => 24 case _ => 25)
    case Medium =>
      (if version <= 10 then
        match version
        case 1 => 1 case 2 => 1 case 3 => 1 case 4 => 2 case 5 => 2
        case 6 => 4 case 7 => 4 case 8 => 4 case 9 => 5 case _ => 5
      else if version <= 20 then
        match version
        case 11 => 5 case 12 => 8 case 13 => 9 case 14 => 9 case 15 => 10
        case 16 => 10 case 17 => 11 case 18 => 13 case 19 => 14 case _ => 16
      else if version <= 30 then
        match version
        case 21 => 17 case 22 => 17 case 23 => 18 case 24 => 20 case 25 => 21
        case 26 => 23 case 27 => 25 case 28 => 26 case 29 => 28 case _ => 29
      else
        match version
        case 31 => 31 case 32 => 33 case 33 => 35 case 34 => 37 case 35 => 38
        case 36 => 40 case 37 => 43 case 38 => 45 case 39 => 47 case _ => 49)
    case Quartile =>
      (if version <= 10 then
        match version
        case 1 => 1 case 2 => 1 case 3 => 2 case 4 => 2 case 5 => 4
        case 6 => 4 case 7 => 6 case 8 => 6 case 9 => 8 case _ => 8
      else if version <= 20 then
        match version
        case 11 => 8 case 12 => 10 case 13 => 12 case 14 => 16 case 15 => 12
        case 16 => 17 case 17 => 16 case 18 => 18 case 19 => 21 case _ => 20
      else if version <= 30 then
        match version
        case 21 => 23 case 22 => 23 case 23 => 25 case 24 => 27 case 25 => 29
        case 26 => 34 case 27 => 34 case 28 => 35 case 29 => 38 case _ => 40
      else
        match version
        case 31 => 43 case 32 => 45 case 33 => 48 case 34 => 51 case 35 => 53
        case 36 => 56 case 37 => 59 case 38 => 62 case 39 => 65 case _ => 68)
    case High =>
      (if version <= 10 then
        match version
        case 1 => 1 case 2 => 1 case 3 => 2 case 4 => 4 case 5 => 4
        case 6 => 4 case 7 => 5 case 8 => 6 case 9 => 8 case _ => 8
      else if version <= 20 then
        match version
        case 11 => 11 case 12 => 11 case 13 => 16 case 14 => 16 case 15 => 18
        case 16 => 16 case 17 => 19 case 18 => 21 case 19 => 25 case _ => 25
      else if version <= 30 then
        match version
        case 21 => 25 case 22 => 34 case 23 => 30 case 24 => 32 case 25 => 35
        case 26 => 37 case 27 => 40 case 28 => 42 case 29 => 45 case _ => 48
      else
        match version
        case 31 => 51 case 32 => 54 case 33 => 57 case 34 => 60 case 35 => 63
        case 36 => 66 case 37 => 70 case 38 => 74 case 39 => 77 case _ => 81)
  }

  function RawCodewords(version: int): int
    requires IsVersion(version)
  {
    NumRawDataModules(version) / 8
  }

  function NumDataCodewords(version: int, ecl: Ecc): int
    requires IsVersion(version)
  {
    RawCodewords(version) - EccCodewords(version, ecl)
  }

  /** The error correction codewords divide evenly among the blocks, and every block has room for data
      and is at most 255 bytes long. */
  predicate Splits(raw: int, blocks: int, ecc: int) {
    && blocks > 0
    && ecc % blocks == 0
    && 1 <= ecc / blocks < raw / blocks <= 254
  }

  /** n blocks with e error correction codewords each, and q codewords in all or, in r of them, q + 1 */
  lemma SplitsBy(n: nat, e: nat, q: nat, r: nat)
    requires r < n && 1 <= e < q <= 254
    ensures Splits(n * q + r, n, n * e)
  {
    ModUnique(n * e, n, e, 0);
    ModUnique(n * q + r, n, q, r);
  }

  predicate RowSplits(version: int, ecl: Ecc)
    requires IsVersion(version)
  {
    Splits(RawCodewords(version), EccBlocks(version, ecl), EccCodewords(version, ecl))
  }

  lemma Row(version: int, ecl: Ecc, n: nat, e: nat, q: nat, r: nat)
    requires IsVersion(version)
    requires EccBlocks(version, ecl) == n && EccCodewords(version, ecl) == n * e && RawCodewords(version) == n * q + r
    requires r < n && 1 <= e < q <= 254
    ensures RowSplits(version, ecl)
  {
    hide Splits, EccBlocks, EccCodewords, RawCodewords;
    SplitsBy(n, e, q, r);
  }

  lemma RawRows1()
    ensures RawCodewords(1) == 26 && RawCodewords(2) == 44 && RawCodewords(3) == 70 && RawCodewords(4) == 100
      && RawCodewords(5) == 134
    ensures RawCodewords(6) == 172 && RawCodewords(7) == 196 && RawCodewords(8) == 242 && RawCodewords(9) == 292
      && RawCodewords(10) == 346
  {
  }

  lemma RawRows11()
    ensures RawCodewords(11) == 404 && RawCodewords(12) == 466 && RawCodewords(13) == 532 && RawCodewords(14) == 581
      && RawCodewords(15) == 655
    ensures RawCodewords(16) == 733 && RawCodewords(17) == 815 && RawCodewords(18) == 901 && RawCodewords(19) == 991
      && RawCodewords(20) == 1085
  {
  }

  lemma RawRows21()
    ensures RawCodewords(21) == 1156 && RawCodewords(22) == 1258 && RawCodewords(23) == 1364
      && RawCodewords(24) == 1474 && RawCodewords(25) == 1588
    ensures RawCodewords(26) == 1706 && RawCodewords(27) == 1828 && RawCodewords(28) == 1921
      && RawCodewords(29) == 2051 && RawCodewords(30) == 2185
  {
  }

  lemma RawRows31()
    ensures RawCodewords(31) == 2323 && RawCodewords(32) == 2465 && RawCodewords(33) == 2611
      && RawCodewords(34) == 2761 && RawCodewords(35) == 2876
    ensures RawCodewords(36) == 3034 && RawCodewords(37) == 3196 && RawCodewords(38) == 3362
      && RawCodewords(39) == 3532 && RawCodewords(40) == 3706
  {
  }

  lemma LowRows1()
    ensures RowSplits(1, Low) && RowSplits(2, Low) && RowSplits(3, Low) && RowSplits(4, Low) && RowSplits(5, Low)
    ensures RowSplits(6, Low) && RowSplits(7, Low) && RowSplits(8, Low) && RowSplits(9, Low) && RowSplits(10, Low)
  {
    RawRows1();
    hide RowSplits, RawCodewords;
    Row(1, Low, 1, 7, 26, 0); Row(2, Low, 1, 10, 44, 0); Row(3, Low, 1, 15, 70, 0); Row(4, Low, 1, 20, 100, 0);
    Row(5, Low, 1, 26, 134, 0); Row(6, Low, 2, 18, 86, 0); Row(7, Low, 2, 20, 98, 0); Row(8, Low, 2, 24, 121, 0);
    Row(9, Low, 2, 30, 146, 0); Row(10, Low, 4, 18, 86, 2);
  }

  lemma LowRows11()
    ensures RowSplits(11, Low) && RowSplits(12, Low) && RowSplits(13, Low) && RowSplits(14, Low) && RowSplits(15, Low)
    ensures RowSplits(16, Low) && RowSplits(17, Low) && RowSplits(18, Low) && RowSplits(19, Low) && RowSplits(20, Low)
  {
    RawRows11();
    hide RowSplits, RawCodewords;
    Row(11, Low, 4, 20, 101, 0); Row(12, Low, 4, 24, 116, 2); Row(13, Low, 4, 26, 133, 0); Row(14, Low, 4, 30, 145, 1);
    Row(15, Low, 6, 22, 109, 1); Row(16, Low, 6, 24, 122, 1); Row(17, Low, 6, 28, 135, 5); Row(18, Low, 6, 30, 150, 1);
    Row(19, Low, 7, 28, 141, 4); Row(20, Low, 8, 28, 135, 5);
  }

  lemma LowRows21()
    ensures RowSplits(21, Low) && RowSplits(22, Low) && RowSplits(23, Low) && RowSplits(24, Low) && RowSplits(25, Low)
    ensures RowSplits(26, Low) && RowSplits(27, Low) && RowSplits(28, Low) && RowSplits(29, Low) && RowSplits(30, Low)
  {
    RawRows21();
    hide RowSplits, RawCodewords;
    Row(21, Low, 8, 28, 144, 4); Row(22, Low, 9, 28, 139, 7); Row(23, Low, 9, 30, 151, 5); Row(24, Low, 10, 30, 147, 4);
    Row(25, Low, 12, 26, 132, 4); Row(26, Low, 12, 28, 142, 2); Row(27, Low, 12, 30, 152, 4);
    Row(28, Low, 13, 30, 147, 10);
    Row(29, Low, 14, 30, 146, 7); Row(30, Low, 15, 30, 145, 10);
  }

  lemma LowRows31()
    ensures RowSplits(31, Low) && RowSplits(32, Low) && RowSplits(33, Low) && RowSplits(34, Low) && RowSplits(35, Low)
    ensures RowSplits(36, Low) && RowSplits(37, Low) && RowSplits(38, Low) && RowSplits(39, Low) && RowSplits(40, Low)
  {
    RawRows31();
    hide RowSplits, RawCodewords;
    Row(31, Low, 16, 30, 145, 3); Row(32, Low, 17, 30, 145, 0); Row(33, Low, 18, 30, 145, 1);
    Row(34, Low, 19, 30, 145, 6);
    Row(35, Low, 19, 30, 151, 7); Row(36, Low, 20, 30, 151, 14); Row(37, Low, 21, 30, 152, 4);
    Row(38, Low, 22, 30, 152, 18);
    Row(39, Low, 24, 30, 147, 4); Row(40, Low, 25, 30, 148, 6);
  }

  lemma MediumRows1()
    ensures RowSplits(1, Medium) && RowSplits(2, Medium) && RowSplits(3, Medium) && RowSplits(4, Medium)
      && RowSplits(5, Medium)
    ensures RowSplits(6, Medium) && RowSplits(7, Medium) && RowSplits(8, Medium) && RowSplits(9, Medium)
      && RowSplits(10, Medium)
  {
    RawRows1();
    hide RowSplits, RawCodewords;
    Row(1, Medium, 1, 10, 26, 0); Row(2, Medium, 1, 16, 44, 0); Row(3, Medium, 1, 26, 70, 0);
    Row(4, Medium, 2, 18, 50, 0);
    Row(5, Medium, 2, 24, 67, 0); Row(6, Medium, 4, 16, 43, 0); Row(7, Medium, 4, 18, 49, 0);
    Row(8, Medium, 4, 22, 60, 2);
    Row(9, Medium, 5, 22, 58, 2); Row(10, Medium, 5, 26, 69, 1);
  }

  lemma MediumRows11()
    ensures RowSplits(11, Medium) && RowSplits(12, Medium) && RowSplits(13, Medium) && RowSplits(14, Medium)
      && RowSplits(15, Medium)
    ensures RowSplits(16, Medium) && RowSplits(17, Medium) && RowSplits(18, Medium) && RowSplits(19, Medium)
      && RowSplits(20, Medium)
  {
    RawRows11();
    hide RowSplits, RawCodewords;
    Row(11, Medium, 5, 30, 80, 4); Row(12, Medium, 8, 22, 58, 2); Row(13, Medium, 9, 22, 59, 1);
    Row(14, Medium, 9, 24, 64, 5);
    Row(15, Medium, 10, 24, 65, 5); Row(16, Medium, 10, 28, 73, 3); Row(17, Medium, 11, 28, 74, 1);
    Row(18, Medium, 13, 26, 69, 4);
    Row(19, Medium, 14, 26, 70, 11); Row(20, Medium, 16, 26, 67, 13);
  }

  lemma MediumRows21()
    ensures RowSplits(21, Medium) && RowSplits(22, Medium) && RowSplits(23, Medium) && RowSplits(24, Medium)
      && RowSplits(25, Medium)
    ensures RowSplits(26, Medium) && RowSplits(27, Medium) && RowSplits(28, Medium) && RowSplits(29, Medium)
      && RowSplits(30, Medium)
  {
    RawRows21();
    hide RowSplits, RawCodewords;
    Row(21, Medium, 17, 26, 68, 0); Row(22, Medium, 17, 28, 74, 0); Row(23, Medium, 18, 28, 75, 14);
    Row(24, Medium, 20, 28, 73, 14);
    Row(25, Medium, 21, 28, 75, 13); Row(26, Medium, 23, 28, 74, 4); Row(27, Medium, 25, 28, 73, 3);
    Row(28, Medium, 26, 28, 73, 23);
    Row(29, Medium, 28, 28, 73, 7); Row(30, Medium, 29, 28, 75, 10);
  }

  lemma MediumRows31()
    ensures RowSplits(31, Medium) && RowSplits(32, Medium) && RowSplits(33, Medium) && RowSplits(34, Medium)
      && RowSplits(35, Medium)
    ensures RowSplits(36, Medium) && RowSplits(37, Medium) && RowSplits(38, Medium) && RowSplits(39, Medium)
      && RowSplits(40, Medium)
  {
    RawRows31();
    hide RowSplits, RawCodewords;
    Row(31, Medium, 31, 28, 74, 29); Row(32, Medium, 33, 28, 74, 23); Row(33, Medium, 35, 28, 74, 21);
    Row(34, Medium, 37, 28, 74, 23);
    Row(35, Medium, 38, 28, 75, 26); Row(36, Medium, 40, 28, 75, 34); Row(37, Medium, 43, 28, 74, 14);
    Row(38, Medium, 45, 28, 74, 32);
    Row(39, Medium, 47, 28, 75, 7); Row(40, Medium, 49, 28, 75, 31);
  }

  lemma QuartileRows1()
    ensures RowSplits(1, Quartile) && RowSplits(2, Quartile) && RowSplits(3, Quartile) && RowSplits(4, Quartile)
      && RowSplits(5, Quartile)
    ensures RowSplits(6, Quartile) && RowSplits(7, Quartile) && RowSplits(8, Quartile) && RowSplits(9, Quartile)
      && RowSplits(10, Quartile)
  {
    RawRows1();
    hide RowSplits, RawCodewords;
    Row(1, Quartile, 1, 13, 26, 0); Row(2, Quartile, 1, 22, 44, 0); Row(3, Quartile, 2, 18, 35, 0);
    Row(4, Quartile, 2, 26, 50, 0);
    Row(5, Quartile, 4, 18, 33, 2); Row(6, Quartile, 4, 24, 43, 0); Row(7, Quartile, 6, 18, 32, 4);
    Row(8, Quartile, 6, 22, 40, 2);
    Row(9, Quartile, 8, 20, 36, 4); Row(10, Quartile, 8, 24, 43, 2);
  }

  lemma QuartileRows11()
    ensures RowSplits(11, Quartile) && RowSplits(12, Quartile) && RowSplits(13, Quartile) && RowSplits(14, Quartile)
      && RowSplits(15, Quartile)
    ensures RowSplits(16, Quartile) && RowSplits(17, Quartile) && RowSplits(18, Quartile) && RowSplits(19, Quartile)
      && RowSplits(20, Quartile)
  {
    RawRows11();
    hide RowSplits, RawCodewords;
    Row(11, Quartile, 8, 28, 50, 4); Row(12, Quartile, 10, 26, 46, 6); Row(13, Quartile, 12, 24, 44, 4);
    Row(14, Quartile, 16, 20, 36, 5);
    Row(15, Quartile, 12, 30, 54, 7); Row(16, Quartile, 17, 24, 43, 2); Row(17, Quartile, 16, 28, 50, 15);
    Row(18, Quartile, 18, 28, 50, 1);
    Row(19, Quartile, 21, 26, 47, 4); Row(20, Quartile, 20, 30, 54, 5);
  }

  lemma QuartileRows21()
    ensures RowSplits(21, Quartile) && RowSplits(22, Quartile) && RowSplits(23, Quartile) && RowSplits(24, Quartile)
      && RowSplits(25, Quartile)
    ensures RowSplits(26, Quartile) && RowSplits(27, Quartile) && RowSplits(28, Quartile) && RowSplits(29, Quartile)
      && RowSplits(30, Quartile)
  {
    RawRows21();
    hide RowSplits, RawCodewords;
    Row(21, Quartile, 23, 28, 50, 6); Row(22, Quartile, 23, 30, 54, 16); Row(23, Quartile, 25, 30, 54, 14);
    Row(24, Quartile, 27, 30, 54, 16);
    Row(25, Quartile, 29, 30, 54, 22); Row(26, Quartile, 34, 28, 50, 6); Row(27, Quartile, 34, 30, 53, 26);
    Row(28, Quartile, 35, 30, 54, 31);
    Row(29, Quartile, 38, 30, 53, 37); Row(30, Quartile, 40, 30, 54, 25);
  }

  lemma QuartileRows31()
    ensures RowSplits(31, Quartile) && RowSplits(32, Quartile) && RowSplits(33, Quartile) && RowSplits(34, Quartile)
      && RowSplits(35, Quartile)
    ensures RowSplits(36, Quartile) && RowSplits(37, Quartile) && RowSplits(38, Quartile) && RowSplits(39, Quartile)
      && RowSplits(40, Quartile)
  {
    RawRows31();
    hide RowSplits, RawCodewords;
    Row(31, Quartile, 43, 30, 54, 1); Row(32, Quartile, 45, 30, 54, 35); Row(33, Quartile, 48, 30, 54, 19);
    Row(34, Quartile, 51, 30, 54, 7);
    Row(35, Quartile, 53, 30, 54, 14); Row(36, Quartile, 56, 30, 54, 10); Row(37, Quartile, 59, 30, 54, 10);
    Row(38, Quartile, 62, 30, 54, 14);
    Row(39, Quartile, 65, 30, 54, 22); Row(40, Quartile, 68, 30, 54, 34);
  }

  lemma HighRows1()
    ensures RowSplits(1, High) && RowSplits(2, High) && RowSplits(3, High) && RowSplits(4, High) && RowSplits(5, High)
    ensures RowSplits(6, High) && RowSplits(7, High) && RowSplits(8, High) && RowSplits(9, High) && RowSplits(10, High)
  {
    RawRows1();
    hide RowSplits, RawCodewords;
    Row(1, High, 1, 17, 26, 0); Row(2, High, 1, 28, 44, 0); Row(3, High, 2, 22, 35, 0); Row(4, High, 4, 16, 25, 0);
    Row(5, High, 4, 22, 33, 2); Row(6, High, 4, 28, 43, 0); Row(7, High, 5, 26, 39, 1); Row(8, High, 6, 26, 40, 2);
    Row(9, High, 8, 24, 36, 4); Row(10, High, 8, 28, 43, 2);
  }

  lemma HighRows11()
    ensures RowSplits(11, High) && RowSplits(12, High) && RowSplits(13, High) && RowSplits(14, High)
      && RowSplits(15, High)
    ensures RowSplits(16, High) && RowSplits(17, High) && RowSplits(18, High) && RowSplits(19, High)
      && RowSplits(20, High)
  {
    RawRows11();
    hide RowSplits, RawCodewords;
    Row(11, High, 11, 24, 36, 8); Row(12, High, 11, 28, 42, 4); Row(13, High, 16, 22, 33, 4);
    Row(14, High, 16, 24, 36, 5);
    Row(15, High, 18, 24, 36, 7); Row(16, High, 16, 30, 45, 13); Row(17, High, 19, 28, 42, 17);
    Row(18, High, 21, 28, 42, 19);
    Row(19, High, 25, 26, 39, 16); Row(20, High, 25, 28, 43, 10);
  }

  lemma HighRows21()
    ensures RowSplits(21, High) && RowSplits(22, High) && RowSplits(23, High) && RowSplits(24, High)
      && RowSplits(25, High)
    ensures RowSplits(26, High) && RowSplits(27, High) && RowSplits(28, High) && RowSplits(29, High)
      && RowSplits(30, High)
  {
    RawRows21();
    hide RowSplits, RawCodewords;
    Row(21, High, 25, 30, 46, 6); Row(22, High, 34, 24, 37, 0); Row(23, High, 30, 30, 45, 14);
    Row(24, High, 32, 30, 46, 2);
    Row(25, High, 35, 30, 45, 13); Row(26, High, 37, 30, 46, 4); Row(27, High, 40, 30, 45, 28);
    Row(28, High, 42, 30, 45, 31);
    Row(29, High, 45, 30, 45, 26); Row(30, High, 48, 30, 45, 25);
  }

  lemma HighRows31()
    ensures RowSplits(31, High) && RowSplits(32, High) && RowSplits(33, High) && RowSplits(34, High)
      && RowSplits(35, High)
    ensures RowSplits(36, High) && RowSplits(37, High) && RowSplits(38, High) && RowSplits(39, High)
      && RowSplits(40, High)
  {
    RawRows31();
    hide RowSplits, RawCodewords;
    Row(31, High, 51, 30, 45, 28); Row(32, High, 54, 30, 45, 35); Row(33, High, 57, 30, 45, 46);
    Row(34, High, 60, 30, 46, 1);
    Row(35, High, 63, 30, 45, 41); Row(36, High, 66, 30, 45, 64); Row(37, High, 70, 30, 45, 46);
    Row(38, High, 74, 30, 45, 32);
    Row(39, High, 77, 30, 45, 67); Row(40, High, 81, 30, 45, 61);
  }

  /** The table entries of every version and level fit together. */
  lemma TableSplits(version: int, ecl: Ecc)
    requires IsVersion(version)
    ensures RowSplits(version, ecl)
  {
    hide RowSplits;
    LowRows1(); LowRows11(); LowRows21(); LowRows31();
    MediumRows1(); MediumRows11(); MediumRows21(); MediumRows31();
    QuartileRows1(); QuartileRows11(); QuartileRows21(); QuartileRows31();
    HighRows1(); HighRows11(); HighRows21(); HighRows31();
    assert version == 1 || version == 2 || version == 3 || version == 4 || version == 5 || version == 6
      || version == 7 || version == 8 || version == 9 || version == 10
      || version == 11 || version == 12 || version == 13 || version == 14 || version == 15 || version == 16
      || version == 17 || version == 18 || version == 19 || version == 20
      || version == 21 || version == 22 || version == 23 || version == 24 || version == 25 || version == 26
      || version == 27 || version == 28 || version == 29 || version == 30
      || version == 31 || version == 32 || version == 33 || version == 34 || version == 35 || version == 36
      || version == 37 || version == 38 || version == 39 || version == 40;
  }
}

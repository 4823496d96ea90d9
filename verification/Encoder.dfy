/** From data segments to a symbol: choice of version and level, padding, and what a reader of the
    finished grid gets.
    Source: web/src/lib/qrcode.js, lines 555-653. */
module Encoder {
  import opened Wrappers
  import opened Numbers
  import opened Bits
  import opened Gf256
  import opened BitStream
  import opened Segments
  import opened Grids
  import opened Capacity
  import opened Mask
  import opened Penalty
  import opened FormatInfo
  import opened FunctionModules
  import opened Patterns
  import opened Symbols
  import opened Blocks
  import opened QrCodes

  /** The segments fit a symbol of this version and level. */
  predicate Fits(segs: seq<Segment>, version: int, ecl: Ecc)
    requires IsVersion(version)
  {
    CountsFit(segs, version) && |StreamBits(segs, version)| <= 8 * NumDataCodewords(version, ecl)
  }

  // ---------- Padding ----------

  /** 0xEC, 0x11, 0xEC, ... */
  function Pads(n: nat): (p: seq<Byte>)
    ensures |p| == n
  {
    seq(n, k => if k % 2 == 0 then 0xEC else 0x11)
  }

  /** The stream with a terminator of four zero bits, or of as many as there is room for */
  function Terminated(stream: BitString, capacity: nat): (b: BitString)
    requires |stream| <= 8 * capacity
    ensures |b| <= 8 * capacity
  {
    stream + ZeroBits(Min(4, 8 * capacity - |stream|))
  }

  /** Packed into bytes, and filled up with alternating bytes to exactly the capacity */
  function Filled(stream: BitString, capacity: nat): (r: seq<Byte>)
    requires |stream| <= 8 * capacity
    ensures |r| == capacity
  {
    var packed := Pack(Terminated(stream, capacity));
    packed + Pads(capacity - |packed|)
  }

  function DataCodewords(segs: seq<Segment>, version: int, ecl: Ecc): (r: seq<Byte>)
    requires IsVersion(version) && Fits(segs, version, ecl)
    ensures |r| == NumDataCodewords(version, ecl)
  {
    Filled(StreamBits(segs, version), NumDataCodewords(version, ecl))
  }

  lemma {:induction false} UnpackAppend(p: seq<Byte>, q: seq<Byte>)
    ensures Unpack(p + q) == Unpack(p) + Unpack(q)
  {
    hide BitsOf, Unpack;
    UnpackFirst(p);
    if p == [] {
      assert p + q == q;
    } else {
      UnpackAppend(p[1..], q);
      assert (p + q)[1..] == p[1..] + q;
      UnpackFirst(p + q);
      assert BitsOf(p[0], 8) + (Unpack(p[1..]) + Unpack(q)) == BitsOf(p[0], 8) + Unpack(p[1..]) + Unpack(q);
    }
  }

  lemma UnpackFirst(p: seq<Byte>)
    ensures Unpack(p) == if p == [] then [] else BitsOf(p[0], 8) + Unpack(p[1..])
  {
  }

  /** A reader of the codewords meets the end right after the stream. */
  lemma FilledEnds(stream: BitString, capacity: nat) returns (tail: BitString)
    requires |stream| <= 8 * capacity
    ensures Unpack(Filled(stream, capacity)) == stream + tail && Ends(tail)
  {
    hide Unpack, Pack;
    var used := Terminated(stream, capacity);
    var packed := Pack(used);
    var pads := Pads(capacity - |packed|);
    UnpackAppend(packed, pads);
    UnpackPack(used);
    var t := Min(4, 8 * capacity - |stream|);
    tail := ZeroBits(t) + ZeroBits(8 * |packed| - |used|) + Unpack(pads);
    assert Unpack(Filled(stream, capacity)) == stream + tail;
    if t == 4 {
      assert tail[..4] == ZeroBits(4);
    }
  }

  /** The stream, then zeros for a terminator of four bits, or of as many as there is room for, and up to a whole byte,
      then 0xEC and 0x11 by turns */
  ghost predicate Padded(data: seq<Byte>, stream: BitString) {
    var room := 8 * |data| - |stream|;
    var used := (|stream| + (if room < 4 then room else 4) + 7) / 8;
    && 0 <= room && used <= |data| && Unpack(data)[..|stream|] == stream
    && (forall i :: |stream| <= i < 8 * used ==> !Unpack(data)[i])
    && (forall j :: used <= j < |data| ==> data[j] == if (j - used) % 2 == 0 then 0xEC else 0x11)
  }

  lemma PaddingIs(segs: seq<Segment>, version: int, ecl: Ecc)
    requires IsVersion(version) && Fits(segs, version, ecl)
    ensures |DataCodewords(segs, version, ecl)| == NumDataCodewords(version, ecl)
    ensures Padded(DataCodewords(segs, version, ecl), StreamBits(segs, version))
  {
    hide NumDataCodewords, StreamBits, Unpack, Pack, Padded, Filled;
    FilledIs(StreamBits(segs, version), NumDataCodewords(version, ecl));
  }

  lemma FilledIs(stream: BitString, capacity: nat)
    requires |stream| <= 8 * capacity
    ensures Padded(Filled(stream, capacity), stream)
  {
    hide Unpack, Pack;
    var bits := Terminated(stream, capacity);
    var packed := Pack(bits);
    var pads := Pads(capacity - |packed|);
    UnpackAppend(packed, pads);
    UnpackPack(bits);
    ZerosAfter(stream, Min(4, 8 * capacity - |stream|), 8 * |packed| - |bits|, Unpack(pads));
  }

  lemma ZerosAfter(stream: BitString, m: nat, n: nat, rest: BitString)
    ensures var b := stream + ZeroBits(m) + ZeroBits(n) + rest;
            b[..|stream|] == stream && forall i :: |stream| <= i < |stream| + m + n ==> !b[i]
  {
  }

  // ---------- Building the data codewords ----------

  lemma FieldFits(val: nat, w: nat)
    requires w <= 16 && val < Pow2(w)
    ensures val % UINT32 == val
  {
    Pow2Steps();
    Pow2Adds(w, 16 - w);
    AtMostProduct(Pow2(w), Pow2(16 - w));
  }

  lemma AtMostProduct(a: nat, b: nat)
    requires b >= 1
    ensures a <= a * b
  {
  }

  lemma FourBits(mode: Mode)
    ensures mode.Indicator() < Pow2(4) && Pow2(8) == 256
  {
    Pow2Steps();
  }

  method AppendSegment(bb: BitBuffer, seg: Segment, version: int)
    requires IsVersion(version) && seg.numChars < Pow2(seg.mode.CountBits(version))
    modifies bb
    ensures bb.bitData == old(bb.bitData) + SegmentBits(seg, version)
  {
    hide Pow2, BitsOf, Mode.Indicator, Mode.CountBits;
    FourBits(seg.mode);
    AppendField(bb, seg.mode.Indicator(), 4);
    AppendField(bb, seg.numChars, seg.mode.CountBits(version));
    bb.AppendData(seg.bitData);
  }

  method AppendField(bb: BitBuffer, val: nat, len: nat)
    requires len <= 16 && val < Pow2(len)
    modifies bb
    ensures bb.bitData == old(bb.bitData) + BitsOf(val, len)
  {
    hide Pow2, BitsOf;
    FieldFits(val, len);
    var ok := bb.AppendBits(val, len);
  }

  method AppendSegments(bb: BitBuffer, segs: seq<Segment>, version: int)
    requires IsVersion(version) && CountsFit(segs, version)
    requires bb.bitData == []
    modifies bb
    ensures bb.bitData == StreamBits(segs, version)
  {
    hide StreamBits, SegmentBits, Pow2, Mode.CountBits;
    StreamStep(segs, 0, version);
    for i := 0 to |segs|
      invariant bb.bitData + StreamBits(segs[i..], version) == StreamBits(segs, version)
    {
      StreamStep(segs, i, version);
      AppendSegment(bb, segs[i], version);
    }
    StreamStep(segs, |segs|, version);
  }

  lemma ZeroFits(n: nat)
    requires n <= 32
    ensures 0 % UINT32 < Pow2(n)
    ensures BitsOf(0 % UINT32, n) == ZeroBits(n)
  {
    ZeroBitsOf(n);
  }

  lemma {:induction false} ZeroBitsOf(n: nat)
    ensures BitsOf(0, n) == ZeroBits(n)
  {
    if n > 0 {
      ZeroBitsOf(n - 1);
      assert ZeroBits(n) == ZeroBits(n - 1) + [false];
    }
  }

  /** The bits, filled up to a whole byte */
  lemma Aligned(used: BitString, z: nat)
    requires z == 8 * ((|used| + 7) / 8) - |used|
    ensures used + ZeroBits(z) == Unpack(Pack(used))
  {
    UnpackPack(used);
  }

  lemma UpToMultiple(n: nat)
    ensures (8 - n % 8) % 8 == 8 * ((n + 7) / 8) - n
  {
  }

  lemma PadNext(packed: seq<Byte>, k: nat)
    ensures Unpack(packed + Pads(k + 1)) == Unpack(packed + Pads(k)) + BitsOf(if k % 2 == 0 then 0xEC else 0x11, 8)
    ensures Unpack(packed + Pads(0)) == Unpack(packed)
  {
    hide BitsOf;
    var v: Byte := if k % 2 == 0 then 0xEC else 0x11;
    assert packed + Pads(k + 1) == (packed + Pads(k)) + [v];
    UnpackAppend(packed + Pads(k), [v]);
    assert Unpack([v]) == BitsOf(v, 8) + Unpack([]);
    assert packed + Pads(0) == packed;
  }

  /** The pad byte alternates by exclusive or. */
  lemma PadToggles()
    ensures Xor(0xEC, Xor(0xEC, 0x11)) == 0x11 && Xor(0x11, Xor(0xEC, 0x11)) == 0xEC
  {
    hide Xor;
    XorCommutes(0xEC, 0x11);
    XorCancel(0x11, 0xEC);
    XorCancel(0xEC, 0x11);
  }

  /** Concatenates the segments, terminates and pads them. No append is out of range. */
  method BuildCodewords(segs: seq<Segment>, version: int, ecl: Ecc) returns (r: seq<Byte>)
    requires IsVersion(version) && Fits(segs, version, ecl)
    ensures r == DataCodewords(segs, version, ecl)
  {
    hide NumDataCodewords, StreamBits, CountsFit, Unpack, Pack, Pads, Terminated;
    var dataCapacityBits := NumDataCodewords(version, ecl) * 8;
    ghost var stream := StreamBits(segs, version);
    var bb := new BitBuffer();
    AppendSegments(bb, segs, version);
    ghost var packed := Pack(Terminated(stream, NumDataCodewords(version, ecl)));
    AppendTerminator(bb, dataCapacityBits);
    PadBytes(bb, dataCapacityBits, packed);
    PackUnpack(packed + Pads(NumDataCodewords(version, ecl) - |packed|));
    r := bb.GetBytes();
  }

  /** Appends a terminator, and fills up the last byte. */
  method AppendTerminator(bb: BitBuffer, dataCapacityBits: nat)
    requires dataCapacityBits % 8 == 0 && |bb.bitData| <= dataCapacityBits
    modifies bb
    ensures bb.bitData == Unpack(Pack(Terminated(old(bb.bitData), dataCapacityBits / 8)))
  {
    hide Unpack, Pack, BitsOf, Pow2;
    var t := Min(4, dataCapacityBits - |bb.bitData|);
    ZeroFits(t);
    var ok := bb.AppendBits(0, t);
    ghost var used := bb.bitData;
    UpToMultiple(|used|);
    t := (8 - |bb.bitData| % 8) % 8;
    Aligned(used, t);
    ZeroFits(t);
    ok := bb.AppendBits(0, t);
  }

  /** Appends alternate bytes until the capacity is reached. */
  method PadBytes(bb: BitBuffer, dataCapacityBits: nat, ghost packed: seq<Byte>)
    requires dataCapacityBits % 8 == 0 && bb.bitData == Unpack(packed) && 8 * |packed| <= dataCapacityBits
    modifies bb
    ensures bb.bitData == Unpack(packed + Pads(dataCapacityBits / 8 - |packed|))
  {
    FourBits(Numeric);
    PadToggles();
    hide Unpack, BitsOf, Pow2, Xor, Pads;
    PadNext(packed, 0);
    ghost var k := 0;
    var padByte := 0xEC;
    while |bb.bitData| < dataCapacityBits
      invariant k <= dataCapacityBits / 8 - |packed|
      invariant bb.bitData == Unpack(packed + Pads(k))
      invariant padByte == if k % 2 == 0 then 0xEC else 0x11
      decreases dataCapacityBits - |bb.bitData|
    {
      PadNext(packed, k);
      var ok := bb.AppendBits(padByte, 8);
      k := k + 1;
      padByte := Xor(padByte, Xor(0xEC, 0x11));
    }
  }

  // ---------- Encoding ----------

  /** The level that is used: the highest that fits, or the one requested if it is not to be raised */
  predicate Boosted(segs: seq<Segment>, version: int, requested: Ecc, boostEcl: bool, ecl: Ecc)
    requires IsVersion(version)
  {
    Fits(segs, version, ecl) &&
    if boostEcl then forall e: Ecc :: Fits(segs, version, e) ==> e.Ordinal() <= ecl.Ordinal() else ecl == requested
  }

  method BoostLevel(segs: seq<Segment>, version: int, requested: Ecc, boostEcl: bool, dataUsedBits: nat)
    returns (ecl: Ecc)
    requires IsVersion(version) && Fits(segs, version, requested) && dataUsedBits == |StreamBits(segs, version)|
    ensures Boosted(segs, version, requested, boostEcl, ecl)
    ensures !boostEcl ==> ecl == requested
    ensures boostEcl ==>
      ecl == if Fits(segs, version, High) then High
             else if Fits(segs, version, Quartile) then Quartile
             else if Fits(segs, version, Medium) then Medium else Low
  {
    hide NumDataCodewords, StreamBits, CountsFit;
    ecl := requested;
    var levels := [Medium, Quartile, High];
    for i := 0 to 3
      invariant Fits(segs, version, ecl)
      invariant !boostEcl ==> ecl == requested
      invariant forall k ::
        0 <= k < i && boostEcl && Fits(segs, version, levels[k]) ==> levels[k].Ordinal() <= ecl.Ordinal()
      invariant ecl == requested || (boostEcl && ecl in levels[..i])
    {
      if boostEcl && dataUsedBits <= NumDataCodewords(version, levels[i]) * 8 {
        ecl := levels[i];
      }
    }
    if boostEcl {
      forall e: Ecc | Fits(segs, version, e)
        ensures e.Ordinal() <= ecl.Ordinal()
      {
        assert e.Low? || e == levels[0] || e == levels[1] || e == levels[2];
      }
    }
  }

  /** All codewords of the symbol for some segments */
  ghost function Codewords(segs: seq<Segment>, version: int, ecl: Ecc): (r: seq<Byte>)
    requires IsVersion(version) && Fits(segs, version, ecl)
    ensures |r| == RawCodewords(version)
  {
    FinalSequence(DataCodewords(segs, version, ecl), version, ecl)
  }

  lemma CodewordsAre(segs: seq<Segment>, version: int, ecl: Ecc, data: seq<Byte>)
    requires IsVersion(version) && Fits(segs, version, ecl) && data == DataCodewords(segs, version, ecl)
    ensures |data| == NumDataCodewords(version, ecl)
    ensures FinalSequence(data, version, ecl) == Codewords(segs, version, ecl)
  {
    hide NumDataCodewords, Fits, DataCodewords, FinalSequence;
  }

  /** The outcome of encoding: a symbol of the least version in the range that fits, with the highest
      level that fits, showing the segments' codewords with the mask asked for, or with the first of lowest penalty */
  ghost predicate Encodes(qr: QrCode, segs: seq<Segment>, ecl: Ecc, minVersion: int, mask: int, boostEcl: bool)
    requires minVersion >= 1 && -1 <= mask <= 7
    reads qr
  {
    && IsVersion(qr.version) && minVersion <= qr.version
    && Fits(segs, qr.version, ecl)
    && (forall v :: minVersion <= v < qr.version ==> !Fits(segs, v, ecl))
    && Boosted(segs, qr.version, ecl, boostEcl, qr.errorCorrectionLevel)
    && var codewords := Codewords(segs, qr.version, qr.errorCorrectionLevel);
       && qr.Shows(codewords) && (mask != -1 ==> qr.mask == mask)
       && (mask == -1 ==> forall k :: 0 <= k < 8 ==>
             Penalty.Penalty(qr.modules, qr.size)
             <= SymbolPenalty(qr.version, qr.errorCorrectionLevel, k, codewords))
       && (mask == -1 ==> forall k :: 0 <= k < qr.mask ==>
             Penalty.Penalty(qr.modules, qr.size)
             < SymbolPenalty(qr.version, qr.errorCorrectionLevel, k, codewords))
  }

  lemma EncodesBy(qr: QrCode, segs: seq<Segment>, ecl: Ecc, minVersion: int, mask: int, boostEcl: bool,
    codewords: seq<Byte>)
    requires minVersion >= 1 && -1 <= mask <= 7 && IsVersion(qr.version) && minVersion <= qr.version
    requires Fits(segs, qr.version, ecl) && forall v :: minVersion <= v < qr.version ==> !Fits(segs, v, ecl)
    requires Boosted(segs, qr.version, ecl, boostEcl, qr.errorCorrectionLevel)
    requires Fits(segs, qr.version, qr.errorCorrectionLevel)
             && codewords == Codewords(segs, qr.version, qr.errorCorrectionLevel)
    requires qr.Shows(codewords) && (mask != -1 ==> qr.mask == mask)
    requires mask == -1 ==> forall k :: 0 <= k < 8 ==>
               Penalty.Penalty(qr.modules, qr.size)
               <= SymbolPenalty(qr.version, qr.errorCorrectionLevel, k, codewords)
    requires mask == -1 ==> forall k :: 0 <= k < qr.mask ==>
               Penalty.Penalty(qr.modules, qr.size) < SymbolPenalty(qr.version, qr.errorCorrectionLevel, k, codewords)
    ensures Encodes(qr, segs, ecl, minVersion, mask, boostEcl)
  {
    hide Fits, Boosted, Codewords, SymbolPenalty, Penalty.Penalty;
  }

  method EncodeSegments(segs: seq<Segment>, ecl: Ecc, minVersion: int, maxVersion: int, mask: int, boostEcl: bool)
    returns (r: Result<QrCode>)
    ensures r.Ok? <==>
      1 <= minVersion <= maxVersion <= 40 && -1 <= mask <= 7
      && exists v :: minVersion <= v <= maxVersion && Fits(segs, v, ecl)
    ensures r.Ok? ==> r.value.version <= maxVersion && Encodes(r.value, segs, ecl, minVersion, mask, boostEcl)
    ensures r.Ok? ==>
      r.value.errorCorrectionLevel == if !boostEcl then ecl
                                      else if Fits(segs, r.value.version, High) then High
                                      else if Fits(segs, r.value.version, Quartile) then Quartile
                                      else if Fits(segs, r.value.version, Medium) then Medium else Low
  {
    if !(1 <= minVersion && minVersion <= maxVersion && maxVersion <= 40) || mask < -1 || mask > 7 {
      return Err("Invalid value");
    }
    hide NumDataCodewords, StreamBits, CountsFit, DataCodewords, FinalSequence, SymbolPenalty, Penalty.Penalty, Boosted,
      Fits, QrCode.Shows, Size, Codewords, Encodes;
    var found := FindVersion(segs, ecl, minVersion, maxVersion);
    if found.None? {
      return Err("Data too long");
    }
    var (version, dataUsedBits) := found.value;
    var level := BoostLevel(segs, version, ecl, boostEcl, dataUsedBits);
    BoostedFits(segs, version, ecl, boostEcl, level);
    var qr := MakeSymbol(segs, version, level, mask);
    EncodesBy(qr, segs, ecl, minVersion, mask, boostEcl, Codewords(segs, version, level));
    return Ok(qr);
  }

  /** The symbol for segments, of a version and level they fit */
  method MakeSymbol(segs: seq<Segment>, version: int, ecl: Ecc, mask: int) returns (qr: QrCode)
    requires IsVersion(version) && Fits(segs, version, ecl) && -1 <= mask <= 7
    ensures fresh(qr) && qr.version == version && qr.errorCorrectionLevel == ecl
    ensures qr.Shows(Codewords(segs, version, ecl)) && (mask != -1 ==> qr.mask == mask)
    ensures mask == -1 ==> forall k :: 0 <= k < 8 ==>
      Penalty.Penalty(qr.modules, qr.size) <= SymbolPenalty(version, ecl, k, Codewords(segs, version, ecl))
    ensures mask == -1 ==> forall k :: 0 <= k < qr.mask ==>
      Penalty.Penalty(qr.modules, qr.size) < SymbolPenalty(version, ecl, k, Codewords(segs, version, ecl))
  {
    hide NumDataCodewords, StreamBits, CountsFit, DataCodewords, FinalSequence, SymbolPenalty, Penalty.Penalty, Fits,
      QrCode.Shows, Size, Codewords;
    var data := BuildCodewords(segs, version, ecl);
    CodewordsAre(segs, version, ecl, data);
    var r := FromCodewords(data, mask, version, ecl);
    qr := r.value;
  }

  /** The least version in the range that fits, with the number of bits used */
  method FindVersion(segs: seq<Segment>, ecl: Ecc, minVersion: int, maxVersion: int) returns (r: Option<(int, nat)>)
    requires 1 <= minVersion <= maxVersion <= 40
    ensures r.Some? <==> exists v :: minVersion <= v <= maxVersion && Fits(segs, v, ecl)
    ensures r.Some? ==>
      var (version, used) := r.value;
      minVersion <= version <= maxVersion && Fits(segs, version, ecl) && used == |StreamBits(segs, version)|
      && forall v :: minVersion <= v < version ==> !Fits(segs, v, ecl)
  {
    hide NumDataCodewords, StreamBits, CountsFit;
    var version := minVersion;
    while true
      invariant minVersion <= version <= maxVersion
      invariant forall v :: minVersion <= v < version ==> !Fits(segs, v, ecl)
      decreases maxVersion - version
    {
      var dataCapacityBits := NumDataCodewords(version, ecl) * 8;
      var dataUsedBits := GetTotalBits(segs, version);
      if dataUsedBits.Some? && dataUsedBits.value <= dataCapacityBits {
        assert Fits(segs, version, ecl);
        return Some((version, dataUsedBits.value));
      }
      if version >= maxVersion {
        return None;
      }
      version := version + 1;
    }
    return None;
  }

  lemma BoostedFits(segs: seq<Segment>, version: int, requested: Ecc, boostEcl: bool, ecl: Ecc)
    requires IsVersion(version) && Boosted(segs, version, requested, boostEcl, ecl)
    ensures Fits(segs, version, ecl)
    ensures Fits(segs, version, requested) ==> requested.Ordinal() <= ecl.Ordinal()
  {
  }

  // ---------- Reading the finished grid ----------

  /** Where a reader finds the bits of the format word, from the lowest to the highest: around the upper left finder
      pattern, and beside the other two */
  const FIRST_COPY: seq<Cell> := [
    Cell(8, 0), Cell(8, 1), Cell(8, 2), Cell(8, 3), Cell(8, 4), Cell(8, 5), Cell(8, 7), Cell(8, 8), Cell(7, 8),
    Cell(5, 8), Cell(4, 8), Cell(3, 8), Cell(2, 8), Cell(1, 8), Cell(0, 8)]

  function SecondCopy(size: int): (cells: seq<Cell>)
    ensures |cells| == 15
  {
    [Cell(size - 1, 8), Cell(size - 2, 8), Cell(size - 3, 8), Cell(size - 4, 8), Cell(size - 5, 8), Cell(size - 6, 8),
     Cell(size - 7, 8), Cell(size - 8, 8), Cell(8, size - 7), Cell(8, size - 6), Cell(8, size - 5), Cell(8, size - 4),
     Cell(8, size - 3), Cell(8, size - 2), Cell(8, size - 1)]
  }

  /** And the bits of the version word: three to a row, left of the upper right finder pattern, or transposed */
  function VersionCopy(size: int, transposed: bool): (cells: seq<Cell>)
    ensures |cells| == 18
  {
    seq(18, i requires 0 <= i < 18 =>
      if transposed then Cell(i / 3, size - 11 + i % 3) else Cell(size - 11 + i % 3, i / 3))
  }

  ghost predicate Within(cells: seq<Cell>, size: int) {
    forall i :: 0 <= i < |cells| ==> InGrid(cells[i], size)
  }

  /** The word whose bits are shown at some modules, the lowest first */
  ghost function ReadWord(g: Grid, cells: seq<Cell>): nat
    requires Square(g, |g|) && Within(cells, |g|)
  {
    ValueOf(Shown(g, cells))
  }

  ghost function Shown(g: Grid, cells: seq<Cell>): (b: BitString)
    requires Square(g, |g|) && Within(cells, |g|)
    ensures |b| == |cells|
  {
    var n := |cells|;
    seq(n, k requires 0 <= k < n => At(g, cells[n - 1 - k]))
  }

  lemma {:induction false} BitsOfBit(val: nat, len: nat, k: nat)
    requires k < len
    ensures BitsOf(val, len)[k] == Bit(val, len - 1 - k)
  {
    if k < len - 1 {
      BitsOfBit(val / 2, len - 1, k);
    }
  }

  lemma WordShown(g: Grid, cells: seq<Cell>, word: nat)
    requires Square(g, |g|) && Within(cells, |g|) && word < Pow2(|cells|)
    requires forall i :: 0 <= i < |cells| ==> At(g, cells[i]) == Bit(word, i)
    ensures ReadWord(g, cells) == word
  {
    hide BitsOf, ValueOf, Bit, Pow2, Within;
    var n := |cells|;
    forall k: nat | k < n
      ensures Shown(g, cells)[k] == BitsOf(word, n)[k]
    {
      BitsOfBit(word, n, k);
    }
    assert Shown(g, cells) == BitsOf(word, n);
    ValueRoundTrip(word, n);
  }

  /** Both copies spell the format word. */
  lemma FormatCopiesShown(version: int, ecl: Ecc, mask: int, codewords: seq<Byte>)
    requires IsVersion(version) && IsMask(mask) && |codewords| == RawCodewords(version)
    ensures var g := Symbol(version, ecl, mask, codewords);
            && |g| == Size(version) >= 21 && Within(FIRST_COPY, |g|) && Within(SecondCopy(|g|), |g|)
            && ReadWord(g, FIRST_COPY) == ReadWord(g, SecondCopy(|g|)) == FormatWord(ecl, mask)
  {
    FormatCells(Size(version));
    FormatCopyShown(version, ecl, mask, codewords, FIRST_COPY);
    FormatCopyShown(version, ecl, mask, codewords, SecondCopy(Size(version)));
  }

  lemma FormatCopyShown(version: int, ecl: Ecc, mask: int, codewords: seq<Byte>, cells: seq<Cell>)
    requires IsVersion(version) && IsMask(mask) && |codewords| == RawCodewords(version)
    requires |cells| == 15 && Within(cells, Size(version))
    requires forall i :: 0 <= i < 15 ==> FormatIndex(Size(version), cells[i]) == i
    ensures ReadWord(Symbol(version, ecl, mask, codewords), cells) == FormatWord(ecl, mask)
  {
    hide Symbol, IsFunction, PatternDark, FormatWord, Bit, FormatIndex, Unpack, RawCodewords, ReadWord;
    var g := Symbol(version, ecl, mask, codewords);
    SymbolIsTheGrid(g, version, ecl, mask, codewords);
    forall i | 0 <= i < 15
      ensures At(g, cells[i]) == Bit(FormatWord(ecl, mask), i)
    {
      FormatHasFunction(version, cells[i]);
    }
    FormatWordFits(ecl, mask);
    Powers();
    WordShown(g, cells, FormatWord(ecl, mask));
  }

  lemma FormatCells(size: int)
    requires size >= 21
    ensures Within(FIRST_COPY, size) && forall i :: 0 <= i < 15 ==> FormatIndex(size, FIRST_COPY[i]) == i
    ensures Within(SecondCopy(size), size) && forall i :: 0 <= i < 15 ==> FormatIndex(size, SecondCopy(size)[i]) == i
  {
  }

  /** From version 7 on, both copies spell the version word, whose six highest bits are the version. */
  lemma VersionCopiesShown(version: int, ecl: Ecc, mask: int, codewords: seq<Byte>)
    requires IsVersion(version) && version >= 7 && IsMask(mask) && |codewords| == RawCodewords(version)
    ensures VersionWord(version) / 4096 == version
    ensures var g := Symbol(version, ecl, mask, codewords);
            && |g| == Size(version) && Within(VersionCopy(|g|, false), |g|) && Within(VersionCopy(|g|, true), |g|)
            && ReadWord(g, VersionCopy(|g|, false)) == ReadWord(g, VersionCopy(|g|, true)) == VersionWord(version)
  {
    VersionTop(version);
    VersionCopyShown(version, ecl, mask, codewords, false);
    VersionCopyShown(version, ecl, mask, codewords, true);
    hide Symbol, VersionWord, VersionCopy, ReadWord, Within;
  }

  lemma VersionTop(version: int)
    requires IsVersion(version)
    ensures VersionWord(version) / 4096 == version && VersionWord(version) < 262144
  {
    var q := VersionWordIsCode(version);
    Powers();
    DivideBound(version, VERSION_GENERATOR, 12, 12);
    hide Divide;
    ModUnique(VersionWord(version), 4096, version, Divide(version, VERSION_GENERATOR, 12, 12));
  }

  lemma VersionCopyShown(version: int, ecl: Ecc, mask: int, codewords: seq<Byte>, transposed: bool)
    requires IsVersion(version) && version >= 7 && IsMask(mask) && |codewords| == RawCodewords(version)
    ensures Within(VersionCopy(Size(version), transposed), Size(version))
    ensures ReadWord(Symbol(version, ecl, mask, codewords), VersionCopy(Size(version), transposed))
         == VersionWord(version)
  {
    hide Symbol, IsFunction, VersionWord, Bit, Unpack, RawCodewords, ReadWord, VersionIndex, VersionInfo, FormatIndex;
    var g, cells := Symbol(version, ecl, mask, codewords), VersionCopy(Size(version), transposed);
    SymbolIsTheGrid(g, version, ecl, mask, codewords);
    forall i | 0 <= i < 18
      ensures InGrid(cells[i], Size(version)) && At(g, cells[i]) == Bit(VersionWord(version), i)
    {
      VersionIndexIs(version, i);
      VersionHasFunction(version, cells[i]);
    }
    VersionTop(version);
    Powers();
    WordShown(g, cells, VersionWord(version));
  }

  lemma VersionHasFunction(version: int, c: Cell)
    requires IsVersion(version)
    ensures VersionInfo(version, c) ==> IsFunction(version, c) && FormatIndex(Size(version), c) < 0
  {
  }

  /** A reader that is given nothing but the grid: version from the size, level and mask from the format
      information, then codewords, data and segments. */
  ghost function ReadGrid(g: Grid): Option<seq<Payload>>
    requires Square(g, |g|)
  {
    var version := (|g| - 17) / 4;
    if !IsVersion(version) || |g| != Size(version) then None
    else
      var (ecl, mask) := ReadFormat(ReadWord(g, FIRST_COPY));
      ParseStream(Unpack(ReadData(ReadCodewords(g, version, mask), version, ecl)), version)
  }

  lemma ReadSymbol(version: int, ecl: Ecc, mask: int, data: seq<Byte>)
    requires IsVersion(version) && IsMask(mask) && |data| == NumDataCodewords(version, ecl)
    ensures ReadGrid(Symbol(version, ecl, mask, FinalSequence(data, version, ecl)))
      == ParseStream(Unpack(data), version)
  {
    hide Symbol, RawCodewords, NumDataCodewords, FinalSequence, ParseStream, Unpack, ReadData, ReadCodewords,
      ReadFormat, ReadWord, FormatWord;
    var codewords := FinalSequence(data, version, ecl);
    FormatCopiesShown(version, ecl, mask, codewords);
    FormatRoundTrip(ecl, mask);
    ReadWritten(version, ecl, mask, codewords);
    ReadBack(data, version, ecl);
  }

  lemma ReadDataCodewords(ps: seq<Payload>, version: int, ecl: Ecc)
    requires IsVersion(version) && AllValid(ps) && Fits(ToSegments(ps), version, ecl)
    ensures ParseStream(Unpack(DataCodewords(ToSegments(ps), version, ecl)), version) == Some(ps)
  {
    hide ParseStream, Unpack, Filled, NumDataCodewords, StreamBits, Ends;
    var segs := ToSegments(ps);
    var tail := FilledEnds(StreamBits(segs, version), NumDataCodewords(version, ecl));
    StreamRoundTrip(ps, version, tail);
  }

  /** For all segments that fit, every version, level and mask: the symbol of their codewords reads back as
      exactly those segments. */
  lemma SymbolReadsBack(ps: seq<Payload>, version: int, ecl: Ecc, mask: int)
    requires IsVersion(version) && IsMask(mask) && AllValid(ps) && Fits(ToSegments(ps), version, ecl)
    ensures var data := DataCodewords(ToSegments(ps), version, ecl);
            ReadGrid(Symbol(version, ecl, mask, FinalSequence(data, version, ecl))) == Some(ps)
  {
    hide ParseStream, DataCodewords, FinalSequence, Symbol, Fits, ReadGrid, RawCodewords, NumDataCodewords;
    ReadDataCodewords(ps, version, ecl);
    ReadSymbol(version, ecl, mask, DataCodewords(ToSegments(ps), version, ecl));
  }

  /** Whatever is encoded, a reader of the finished grid gets exactly that back. */
  lemma EncodedIsReadBack(qr: QrCode, ps: seq<Payload>, ecl: Ecc, minVersion: int, mask: int, boostEcl: bool)
    requires AllValid(ps) && minVersion >= 1 && -1 <= mask <= 7
    requires Encodes(qr, ToSegments(ps), ecl, minVersion, mask, boostEcl)
    ensures Square(qr.modules, |qr.modules|) && ReadGrid(qr.modules) == Some(ps)
  {
    hide ParseStream, DataCodewords, FinalSequence, Symbol, Functions, Fits, ReadGrid, RawCodewords,
      NumDataCodewords;
    var segs := ToSegments(ps);
    BoostedFits(segs, qr.version, ecl, boostEcl, qr.errorCorrectionLevel);
    SymbolReadsBack(ps, qr.version, qr.errorCorrectionLevel, qr.mask);
  }

  /** A damaged grid still names its segments: if the codewords read from it are, in every block, within the correction
      radius of those of two lists of segments, the lists are equal. */
  lemma DamagedGridIdentifiesSegments(g: Grid, ps: seq<Payload>, qs: seq<Payload>, version: int, ecl: Ecc, mask: int)
    requires IsVersion(version) && IsMask(mask) && Square(g, Size(version)) && AllValid(ps) && AllValid(qs)
    requires GridNear(g, ps, version, ecl, mask) && GridNear(g, qs, version, ecl, mask)
    ensures ps == qs
  {
    hide ParseStream, DataCodewords, Fits, Blocks.Near, ReadCodewords, RawCodewords, NumDataCodewords;
    DamagedSymbolIdentifiesData(ReadCodewords(g, version, mask), DataCodewords(ToSegments(ps), version, ecl),
      DataCodewords(ToSegments(qs), version, ecl), version, ecl);
    ReadDataCodewords(ps, version, ecl);
    ReadDataCodewords(qs, version, ecl);
  }

  /** The segments fit, and what the scan reads from the grid is near their codewords. */
  ghost predicate GridNear(g: Grid, ps: seq<Payload>, version: int, ecl: Ecc, mask: int)
    requires IsVersion(version) && IsMask(mask) && Square(g, Size(version)) && AllValid(ps)
  {
    Fits(ToSegments(ps), version, ecl)
    && Blocks.Near(ReadCodewords(g, version, mask), DataCodewords(ToSegments(ps), version, ecl), version, ecl)
  }

  /** The symbol of a list of segments is near it itself. */
  lemma SymbolIsNear(ps: seq<Payload>, version: int, ecl: Ecc, mask: int)
    requires IsVersion(version) && IsMask(mask) && AllValid(ps) && Fits(ToSegments(ps), version, ecl)
    ensures var data := DataCodewords(ToSegments(ps), version, ecl);
            GridNear(Symbol(version, ecl, mask, FinalSequence(data, version, ecl)), ps, version, ecl, mask)
  {
    hide DataCodewords, Fits, Blocks.Near, ReadCodewords, FinalSequence, Symbol, RawCodewords, NumDataCodewords;
    var data := DataCodewords(ToSegments(ps), version, ecl);
    ReadWritten(version, ecl, mask, FinalSequence(data, version, ecl));
    UndamagedIsNear(data, version, ecl);
  }
}

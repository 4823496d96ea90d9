/** Symbols for text and for bytes, how much of either fits, and how a reader gets it back.
    Source: web/src/lib/qrcode.js, lines 555-579 and 1176-1187. */
module TextEncoding {
  import opened Wrappers
  import opened Bits
  import opened Gf256
  import opened BitStream
  import opened Decimals
  import opened Segments
  import opened Grids
  import opened Capacity
  import opened Encoder
  import opened QrCodes
  import Utf8

  // ---------- How much fits ----------

  /** The largest character count of a single segment that fits any symbol of a level */
  function MaxCount(p: Payload, ecl: Ecc): nat {
    match p
    case Digits(_) => (match ecl case Low => 7089 case Medium => 5596 case Quartile => 3993 case High => 3057)
    case Text(_) => (match ecl case Low => 4296 case Medium => 3391 case Quartile => 2420 case High => 1852)
    case Bytes(_) => (match ecl case Low => 2953 case Medium => 2331 case Quartile => 1663 case High => 1273)
  }

  function CharCount(p: Payload): nat {
    match p
    case Digits(s) => |s|
    case Text(s) => |s|
    case Bytes(d) => |d|
  }

  /** The bits of a payload, from its character count n */
  function DataBits(p: Payload, n: nat): nat {
    match p
    case Digits(_) => 10 * (n / 3) + (if n % 3 == 0 then 0 else 3 * (n % 3) + 1)
    case Text(_) => 11 * (n / 2) + 6 * (n % 2)
    case Bytes(_) => 8 * n
  }

  lemma {:induction false} NumericLength(s: string)
    requires IsNumeric(s)
    ensures |NumericBits(s)| == DataBits(Digits(s), |s|)
  {
    hide BitsOf, ParseInt;
    if |s| >= 3 {
      NumericLength(s[3..]);
    }
  }

  lemma {:induction false} AlphanumericLength(s: string)
    requires IsAlphanumeric(s)
    ensures |AlphanumericBits(s)| == DataBits(Text(s), |s|)
  {
    hide BitsOf, AlphanumericCode;
    if |s| >= 2 {
      AlphanumericLength(s[2..]);
    }
  }

  lemma PayloadLength(p: Payload)
    requires p.Valid()
    ensures p.ToSegment().numChars == CharCount(p)
    ensures |p.ToSegment().bitData| == DataBits(p, CharCount(p))
  {
    hide NumericBits, AlphanumericBits, Unpack;
    match p
    case Digits(s) => NumericLength(s);
    case Text(s) => AlphanumericLength(s);
    case Bytes(_) =>
  }

  lemma SegmentFits(seg: Segment, version: int, ecl: Ecc)
    requires IsVersion(version)
    ensures var w := seg.mode.CountBits(version);
            Fits([seg], version, ecl)
            <==> seg.numChars < Pow2(w) && 4 + w + |seg.bitData| <= 8 * NumDataCodewords(version, ecl)
  {
    hide Pow2, NumDataCodewords, Mode.CountBits;
    StreamStep([seg], 0, version);
    StreamStep([seg], 1, version);
    hide StreamBits, SegmentBits;
    assert [seg][0] == seg;
  }

  /** What fits one version and level: counts that their field can hold, and as many bits as there is room for, with the
      field widths of each range of versions. */
  lemma FitsVersion(p: Payload, version: int, ecl: Ecc)
    requires p.Valid() && IsVersion(version)
    ensures var n, room := CharCount(p), 8 * NumDataCodewords(version, ecl);
            Fits([p.ToSegment()], version, ecl) <==>
              match p
              case Digits(_) =>
                var bits := 10 * (n / 3) + (if n % 3 == 0 then 0 else if n % 3 == 1 then 4 else 7);
                if version <= 9 then n < 1024 && 14 + bits <= room
                else if version <= 26 then n < 4096 && 16 + bits <= room
                else n < 16384 && 18 + bits <= room
              case Text(_) =>
                var bits := 11 * (n / 2) + 6 * (n % 2);
                if version <= 9 then n < 512 && 13 + bits <= room
                else if version <= 26 then n < 2048 && 15 + bits <= room
                else n < 8192 && 17 + bits <= room
              case Bytes(_) =>
                if version <= 9 then n < 256 && 12 + 8 * n <= room else n < 65536 && 20 + 8 * n <= room
  {
    var seg := p.ToSegment();
    PayloadLength(p);
    ModeOfPayload(p);
    SegmentFits(seg, version, ecl);
    WritesFieldWidth(seg.mode, version);
    FieldPowers();
    hide Payload.ToSegment, Fits, NumDataCodewords, Mode.CountBits, Pow2;
  }

  lemma FieldPowers()
    ensures Pow2(8) == 256 && Pow2(9) == 512 && Pow2(10) == 1024 && Pow2(11) == 2048 && Pow2(12) == 4096
    ensures Pow2(13) == 8192 && Pow2(14) == 16384 && Pow2(16) == 65536
  {
    WidePowers();
    Pow2Steps();
    assert Pow2(9) == 512;
    assert Pow2(11) == 2048;
  }

  /** The capacity of the largest version, in codewords */
  lemma LargestCapacity(ecl: Ecc)
    ensures NumDataCodewords(40, ecl)
      == match ecl case Low => 2956 case Medium => 2334 case Quartile => 1666 case High => 1276
  {
    RawRows31();
    hide RawCodewords;
  }

  lemma CapacityGrows(version: int, ecl: Ecc)
    requires IsVersion(version)
    ensures version < 40 ==> NumDataCodewords(version, ecl) < NumDataCodewords(40, ecl)
  {
    RawRows1();
    RawRows11();
    RawRows21();
    RawRows31();
    hide RawCodewords;
    match ecl
    case Low =>
    case Medium =>
    case Quartile =>
    case High =>
  }

  lemma CountWidths(mode: Mode, version: int)
    requires IsVersion(version)
    ensures mode.CountBits(40)
      == (match mode case Numeric => 14 case Alphanumeric => 13 case ByteMode => 16 case Kanji => 12)
    ensures mode.CountBits(40) - 8 <= mode.CountBits(version)
  {
  }

  lemma WidePowers()
    ensures Pow2(13) == 8192 && Pow2(14) == 16384 && Pow2(16) == 65536
  {
    Pow2Steps();
    Pow2Adds(8, 5);
    Pow2Adds(8, 6);
    Pow2Adds(8, 8);
  }

  /** In the largest version, the bits decide. */
  lemma LimitInBits(p: Payload, n: nat, ecl: Ecc)
    ensures var w := match p case Digits(_) => 14 case Text(_) => 13 case Bytes(_) => 16;
            var capacity := match ecl case Low => 2956 case Medium => 2334 case Quartile => 1666 case High => 1276;
            4 + w + DataBits(p, n) <= 8 * capacity <==> n <= MaxCount(p, ecl)
  {
  }

  /** Fitting the largest version is enough, as its longer count field never makes up for its greater capacity. */
  lemma SomeVersionFits(p: Payload, ecl: Ecc)
    requires p.Valid()
    ensures (exists v :: 1 <= v <= 40 && Fits([p.ToSegment()], v, ecl)) <==> CharCount(p) <= MaxCount(p, ecl)
  {
    PayloadLength(p);
    ModeOfPayload(p);
    hide Payload.ToSegment, Fits, NumDataCodewords, Mode.CountBits, Pow2, DataBits;
    var seg := p.ToSegment();
    LargestCapacity(ecl);
    WidePowers();
    LimitInBits(p, CharCount(p), ecl);
    CountWidths(seg.mode, 40);
    SegmentFits(seg, 40, ecl);
    forall v | 1 <= v <= 40
      ensures Fits([seg], v, ecl) ==> CharCount(p) <= MaxCount(p, ecl)
    {
      SegmentFits(seg, v, ecl);
      CapacityGrows(v, ecl);
      CountWidths(seg.mode, v);
    }
  }

  lemma ModeOfPayload(p: Payload)
    requires p.Valid()
    ensures p.ToSegment().mode
      == match p case Digits(_) => Numeric case Text(_) => Alphanumeric case Bytes(_) => ByteMode
  {
  }

  // ---------- Text ----------

  /** What a text becomes: digits if it can, else alphanumeric text if it can, else its bytes in UTF-8 */
  function PayloadOf(text: string): (p: Payload)
    ensures p.Valid()
  {
    if IsNumeric(text) then Digits(text)
    else if IsAlphanumeric(text) then Text(text)
    else Bytes(Utf8.Encode(text))
  }

  function PayloadsOf(text: string): (ps: seq<Payload>)
    ensures AllValid(ps)
  {
    if text == "" then [] else [PayloadOf(text)]
  }

  lemma DigitsAreAlphanumeric(text: string)
    ensures IsNumeric(text) ==> IsAlphanumeric(text)
  {
  }

  method MakeSegments(text: string) returns (segs: seq<Segment>)
    ensures segs == ToSegments(PayloadsOf(text))
    ensures text == "" <==> segs == []
    ensures text != "" ==>
      |segs| == 1
      && segs[0].mode == (if IsNumeric(text) then Numeric else if IsAlphanumeric(text) then Alphanumeric else ByteMode)
      && segs[0].numChars == (if IsAlphanumeric(text) then |text| else |Utf8.Encode(text)|)
  {
    hide Utf8.Encode, NumericBits, AlphanumericBits, AlphanumericCode;
    DigitsAreAlphanumeric(text);
    if text == "" {
      return [];
    } else if IsNumeric(text) {
      var seg := MakeNumeric(text);
      return [seg.value];
    } else if IsAlphanumeric(text) {
      var seg := MakeAlphanumeric(text);
      return [seg.value];
    } else {
      var seg := MakeBytes(Utf8.Encode(text));
      return [seg];
    }
  }

  /** The text that a list of payloads spells */
  function TextOf(ps: seq<Payload>): Option<string> {
    if ps == [] then Some("")
    else
      var first := match ps[0]
                   case Digits(s) => Some(s)
                   case Text(s) => Some(s)
                   case Bytes(d) => Utf8.Decode(d);
      match first
      case None => None
      case Some(s) =>
        match TextOf(ps[1..])
        case None => None
        case Some(rest) => Some(s + rest)
  }

  /** The text a reader gets from a finished grid */
  ghost function ReadText(g: Grid): Option<string>
    requires Square(g, |g|)
  {
    match ReadGrid(g)
    case None => None
    case Some(ps) => TextOf(ps)
  }

  lemma TextRoundTrip(text: string)
    ensures TextOf(PayloadsOf(text)) == Some(text)
  {
    Utf8.RoundTrip(text);
    hide IsNumeric, IsAlphanumeric;
    if text != "" {
      assert PayloadsOf(text)[1..] == [];
      assert text + "" == text;
    }
  }

  /** A text fits some symbol of a level. */
  predicate TextFits(text: string, ecl: Ecc) {
    CharCount(PayloadOf(text)) <= MaxCount(PayloadOf(text), ecl)
  }

  lemma SomeVersionFitsText(text: string, ecl: Ecc)
    ensures (exists v :: 1 <= v <= 40 && Fits(ToSegments(PayloadsOf(text)), v, ecl)) <==> TextFits(text, ecl)
  {
    hide Fits, Payload.ToSegment, MaxCount;
    if text == "" {
      EmptyTextFits(ecl);
      assert ToSegments(PayloadsOf(text)) == [];
      assert Fits(ToSegments(PayloadsOf(text)), 40, ecl);
    } else {
      SomeVersionFits(PayloadOf(text), ecl);
      assert ToSegments(PayloadsOf(text)) == [PayloadOf(text).ToSegment()];
    }
  }

  lemma EmptyTextFits(ecl: Ecc)
    ensures Fits([], 40, ecl) && TextFits("", ecl)
  {
    LargestCapacity(ecl);
    hide NumDataCodewords;
  }

  /** The limits of the four levels for digits, other alphanumeric text, and UTF-8 */
  lemma TextFitsBy(text: string, ecl: Ecc)
    ensures TextFits(text, ecl) <==>
      if IsNumeric(text) then
        |text| <= match ecl case Low => 7089 case Medium => 5596 case Quartile => 3993 case High => 3057
      else if IsAlphanumeric(text) then
        |text| <= match ecl case Low => 4296 case Medium => 3391 case Quartile => 2420 case High => 1852
      else
        |Utf8.Encode(text)| <= match ecl case Low => 2953 case Medium => 2331 case Quartile => 1663 case High => 1273
    ensures IsNumeric(text) ==> IsAlphanumeric(text)
  {
    DigitsAreAlphanumeric(text);
    hide IsNumeric, IsAlphanumeric, Utf8.Encode;
  }

  /** Succeeds exactly if the text fits: up to 7089 digits, 4296 alphanumeric characters or 2953 bytes in UTF-8, and
      fewer for higher levels. A reader of the grid gets the text back. */
  method EncodeText(text: string, ecl: Ecc) returns (r: Result<QrCode>)
    ensures r.Ok? <==> TextFits(text, ecl)
    ensures IsNumeric(text) ==>
      (r.Ok? <==> |text| <= match ecl case Low => 7089 case Medium => 5596 case Quartile => 3993 case High => 3057)
    ensures !IsNumeric(text) && IsAlphanumeric(text) ==>
      (r.Ok? <==> |text| <= match ecl case Low => 4296 case Medium => 3391 case Quartile => 2420 case High => 1852)
    ensures !IsAlphanumeric(text) ==>
      (r.Ok? <==>
        |Utf8.Encode(text)| <= match ecl case Low => 2953 case Medium => 2331 case Quartile => 1663 case High => 1273)
    ensures r.Ok? ==> Square(r.value.modules, |r.value.modules|) && ReadText(r.value.modules) == Some(text)
    ensures r.Ok? ==> Encodes(r.value, ToSegments(PayloadsOf(text)), ecl, 1, -1, true)
  {
    hide ReadGrid, Fits, ToSegments, PayloadsOf, TextOf, TextFits;
    SomeVersionFitsText(text, ecl);
    TextFitsBy(text, ecl);
    TextRoundTrip(text);
    hide IsNumeric, IsAlphanumeric;
    var segs := MakeSegments(text);
    r := EncodeSegments(segs, ecl, 1, 40, -1, true);
    if r.Ok? {
      EncodedIsReadBack(r.value, PayloadsOf(text), ecl, 1, -1, true);
    }
  }

  // ---------- A guarantee in code points ----------

  /** Every text of at most n code points fits a level. */
  ghost predicate Guaranteed(n: nat, ecl: Ecc) {
    forall text: string :: |text| <= n ==> TextFits(text, ecl)
  }

  /** n characters that take four bytes each */
  function Emoji(n: nat): (text: string)
    ensures |text| == n
  {
    seq(n, _ => '\U{1F600}')
  }

  lemma {:induction false} EmojiBytes(n: nat)
    ensures |Utf8.Encode(Emoji(n))| == 4 * n
  {
    if n > 0 {
      EmojiBytes(n - 1);
      assert Emoji(n)[1..] == Emoji(n - 1);
    }
  }

  lemma EmojiPayload(n: nat)
    requires n > 0
    ensures PayloadOf(Emoji(n)) == Bytes(Utf8.Encode(Emoji(n)))
  {
    hide Utf8.Encode;
    assert Emoji(n)[0] == '\U{1F600}';
    assert !IsDigit(Emoji(n)[0]) && AlphanumericCode(Emoji(n)[0]) < 0;
  }

  lemma EmojiFit(n: nat, ecl: Ecc)
    requires n > 0
    ensures TextFits(Emoji(n), ecl) <==> 4 * n <= MaxCount(Bytes([]), ecl)
  {
    hide Utf8.Encode, Emoji, PayloadOf;
    EmojiPayload(n);
    EmojiBytes(n);
  }

  lemma ShortTextFits(text: string, ecl: Ecc)
    requires 4 * |text| <= MaxCount(Bytes([]), ecl)
    ensures TextFits(text, ecl)
  {
    hide Utf8.Encode, IsNumeric, IsAlphanumeric;
  }

  /** n code points are guaranteed to fit if and only if four bytes for each of them do. */
  lemma GuaranteedCodePoints(n: nat, ecl: Ecc)
    ensures Guaranteed(n, ecl) <==> 4 * n <= MaxCount(Bytes([]), ecl)
  {
    hide TextFits, MaxCount, Emoji;
    if Guaranteed(n, ecl) && n > 0 {
      EmojiFit(n, ecl);
      assert |Emoji(n)| <= n;
    }
    if 4 * n <= MaxCount(Bytes([]), ecl) {
      forall text: string | |text| <= n
        ensures TextFits(text, ecl)
      {
        ShortTextFits(text, ecl);
      }
    }
  }

  /** The documented 738 code points fit the lowest level, and no level above it: 583 of four bytes each are too many
      for the next. */
  lemma DocumentedCodePoints(ecl: Ecc)
    ensures Guaranteed(738, ecl) <==> ecl == Low
    ensures !TextFits(Emoji(583), Medium)
  {
    hide Guaranteed, TextFits, Emoji;
    GuaranteedCodePoints(738, ecl);
    EmojiFit(583, Medium);
  }

  // ---------- Bytes ----------

  function OnePayload(data: seq<Byte>): (ps: seq<Payload>)
    ensures AllValid(ps) && ps == [Bytes(data)]
  {
    [Bytes(data)]
  }

  /** Succeeds exactly up to the largest capacity of the level; 2953 bytes only for the lowest. */
  method EncodeBinary(data: seq<Byte>, ecl: Ecc) returns (r: Result<QrCode>)
    ensures r.Ok? <==>
      |data| <= match ecl case Low => 2953 case Medium => 2331 case Quartile => 1663 case High => 1273
    ensures r.Ok? ==> Square(r.value.modules, |r.value.modules|) && ReadGrid(r.value.modules) == Some(OnePayload(data))
    ensures r.Ok? ==> Encodes(r.value, ToSegments(OnePayload(data)), ecl, 1, -1, true)
  {
    hide ReadGrid, Fits, Unpack;
    SomeVersionFits(Bytes(data), ecl);
    var seg := MakeBytes(data);
    assert ToSegments(OnePayload(data)) == [seg];
    r := EncodeSegments([seg], ecl, 1, 40, -1, true);
    if r.Ok? {
      EncodedIsReadBack(r.value, OnePayload(data), ecl, 1, -1, true);
    }
  }
}

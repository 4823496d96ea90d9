/** Data segments: text and bytes as bit strings, and how a reader gets them back.
    Source: web/src/lib/qrcode.js, lines 1092-1305. */
module Segments {
  import opened Wrappers
  import opened Bits
  import opened Gf256
  import opened BitStream
  import opened Decimals

  datatype Mode = Numeric | Alphanumeric | ByteMode | Kanji {
    function Indicator(): nat {
      match this
      case Numeric => 1
      case Alphanumeric => 2
      case ByteMode => 4
      case Kanji => 8
    }

    /** The width of the character count field */
    function CountBits(version: int): (w: nat)
      requires 1 <= version <= 40
      ensures 8 <= w <= 16
    {
      var column := if version <= 9 then 0 else if version <= 26 then 1 else 2;
      match this
      case Numeric => [10, 12, 14][column]
      case Alphanumeric => [9, 11, 13][column]
      case ByteMode => [8, 16, 16][column]
      case Kanji => [8, 10, 12][column]
    }
  }

  datatype Segment = Segment(mode: Mode, numChars: nat, bitData: BitString)

  // ---------- Numeric segments ----------

  /** /^[0-9]*$/ */
  predicate IsNumeric(s: string) {
    forall i :: 0 <= i < |s| ==> IsDigit(s[i])
  }

  /** The number a string of digits spells */
  function ParseInt(s: string): nat
    requires IsNumeric(s)
  {
    if s == [] then 0 else 10 * ParseInt(s[..|s| - 1]) + (s[|s| - 1] as int - '0' as int)
  }

  /** v in decimal, in exactly w digits */
  function FixedDigits(v: nat, w: nat): (s: string)
    ensures |s| == w
  {
    if w == 0 then [] else FixedDigits(v / 10, w - 1) + [(v % 10 + '0' as int) as char]
  }

  function Pow10(w: nat): nat {
    if w == 0 then 1 else 10 * Pow10(w - 1)
  }

  lemma {:induction false} ParseIntDigits(s: string)
    requires IsNumeric(s)
    ensures ParseInt(s) < Pow10(|s|) && FixedDigits(ParseInt(s), |s|) == s
  {
    if s != [] {
      ParseIntDigits(s[..|s| - 1]);
    }
  }

  /** Groups of three digits take 10 bits, a last group of two 7 and of one 4. */
  function NumericBits(s: string): BitString
    requires IsNumeric(s)
  {
    if |s| >= 3 then BitsOf(ParseInt(s[..3]), 10) + NumericBits(s[3..])
    else if |s| > 0 then BitsOf(ParseInt(s), 3 * |s| + 1)
    else []
  }

  method MakeNumeric(digits: string) returns (r: Result<Segment>)
    ensures r.Ok? <==> IsNumeric(digits)
    ensures r.Ok? ==> r.value == Segment(Numeric, |digits|, NumericBits(digits))
  {
    if !IsNumeric(digits) {
      return Err("String contains non-numeric characters");
    }
    hide NumericBits, BitsOf, ParseInt, Pow2;
    var bb := new BitBuffer();
    var i := 0;
    assert digits[0..] == digits;
    while i + 3 <= |digits|
      invariant 0 <= i <= |digits|
      invariant bb.bitData + NumericBits(digits[i..]) == NumericBits(digits)
    {
      NumericStep(digits, i, bb.bitData);
      AppendDigits(bb, digits[i..i + 3]);
      i := i + 3;
    }
    var rem := |digits| - i;
    NumericLast(digits[i..]);
    if rem > 0 {
      AppendDigits(bb, digits[i..]);
    }
    return Ok(Segment(Numeric, |digits|, bb.bitData));
  }

  method AppendDigits(bb: BitBuffer, group: string)
    requires IsNumeric(group) && 1 <= |group| <= 3
    modifies bb
    ensures bb.bitData == old(bb.bitData) + BitsOf(ParseInt(group), 3 * |group| + 1)
  {
    GroupFits(group);
    hide BitsOf, ParseInt, Pow2, IsNumeric;
    var ok := bb.AppendBits(ParseInt(group), |group| * 3 + 1);
  }

  lemma NumericStep(s: string, i: nat, before: BitString)
    requires IsNumeric(s) && i + 3 <= |s|
    ensures before + NumericBits(s[i..]) == before + BitsOf(ParseInt(s[i..i + 3]), 10) + NumericBits(s[i + 3..])
  {
    assert s[i..][..3] == s[i..i + 3] && s[i..][3..] == s[i + 3..];
  }

  lemma NumericLast(s: string)
    requires IsNumeric(s) && |s| < 3
    ensures NumericBits(s) == if s == [] then [] else BitsOf(ParseInt(s), 3 * |s| + 1)
  {
  }

  lemma TenPowers()
    ensures Pow10(1) == 10 && Pow10(2) == 100 && Pow10(3) == 1000
    ensures Pow2(4) == 16 && Pow2(7) == 128 && Pow2(10) == 1024
  {
    Pow2Steps();
    assert Pow2(9) == 512;
  }

  /** The value of a group never overflows its bits. */
  lemma GroupFits(s: string)
    requires IsNumeric(s) && 1 <= |s| <= 3
    ensures ParseInt(s) < Pow2(3 * |s| + 1)
    ensures ParseInt(s) % UINT32 == ParseInt(s)
  {
    ParseIntDigits(s);
    TenPowers();
    hide ParseInt, Pow10, Pow2;
    if |s| == 1 {
      assert ParseInt(s) < Pow10(1);
    } else if |s| == 2 {
      assert ParseInt(s) < Pow10(2);
    } else {
      assert ParseInt(s) < Pow10(3);
    }
    SmallValue(ParseInt(s));
  }

  /** Reads n digits from the front of a bit string; also gives what follows. */
  function DecodeNumeric(b: BitString, n: nat): Option<(string, BitString)> {
    var g := if n >= 3 then 3 else n;
    if g == 0 then Some(([], b))
    else if |b| < 3 * g + 1 then None
    else
      var v := ValueOf(b[..3 * g + 1]);
      if v >= Pow10(g) then None
      else
        match DecodeNumeric(b[3 * g + 1..], n - g)
        case None => None
        case Some((s, rest)) => Some((FixedDigits(v, g) + s, rest))
  }

  lemma {:induction false} NumericRoundTrip(s: string, rest: BitString)
    requires IsNumeric(s)
    ensures DecodeNumeric(NumericBits(s) + rest, |s|) == Some((s, rest))
  {
    hide NumericBits, DecodeNumeric, ValueOf, BitsOf, Pow2, Pow10, FixedDigits, ParseInt;
    NothingToDecode(rest);
    if s == [] {
      assert NumericBits(s) + rest == rest;
    } else {
      var g := if |s| >= 3 then 3 else |s|;
      var head, tail := s[..g], s[g..];
      NumericRoundTrip(tail, rest);
      assert head + tail == s;
      NumericGroup(s, g, rest);
      DecodeGroup(head, NumericBits(tail) + rest, |s|);
    }
  }

  lemma NothingToDecode(rest: BitString)
    ensures NumericBits([]) == [] && DecodeNumeric(rest, 0) == Some(([], rest))
  {
  }

  lemma NumericGroup(s: string, g: nat, rest: BitString)
    requires IsNumeric(s) && s != [] && g == if |s| >= 3 then 3 else |s|
    ensures NumericBits(s) + rest == BitsOf(ParseInt(s[..g]), 3 * g + 1) + (NumericBits(s[g..]) + rest)
  {
    hide BitsOf, ParseInt;
    if |s| < 3 {
      assert s[..g] == s && NumericBits(s[g..]) == [];
      assert NumericBits(s) + rest == BitsOf(ParseInt(s), 3 * |s| + 1) + ([] + rest);
    } else {
      var group := BitsOf(ParseInt(s[..3]), 10);
      assert (group + NumericBits(s[3..])) + rest == group + (NumericBits(s[3..]) + rest);
    }
  }

  lemma DecodeGroup(head: string, b: BitString, n: nat)
    requires IsNumeric(head) && 1 <= |head| <= n && |head| == if n >= 3 then 3 else n
    ensures DecodeNumeric(BitsOf(ParseInt(head), 3 * |head| + 1) + b, n)
            == match DecodeNumeric(b, n - |head|)
               case None => None
               case Some((s, rest)) => Some((head + s, rest))
  {
    var w := 3 * |head| + 1;
    GroupFits(head);
    ParseIntDigits(head);
    ValueRoundTrip(ParseInt(head), w);
    hide ValueOf, BitsOf, Pow2, Pow10, FixedDigits, ParseInt;
    var all := BitsOf(ParseInt(head), w) + b;
    assert all[..w] == BitsOf(ParseInt(head), w) && all[w..] == b;
  }

  // ---------- Alphanumeric segments ----------

  /** The code of a character in alphanumeric mode, or -1 */
  function AlphanumericCode(c: char): (v: int)
    ensures -1 <= v < 45
  {
    if '0' <= c <= '9' then c as int - '0' as int
    else if 'A' <= c <= 'Z' then c as int - 'A' as int + 10
    else match c
      case ' ' => 36
      case '$' => 37
      case '%' => 38
      case '*' => 39
      case '+' => 40
      case '-' => 41
      case '.' => 42
      case '/' => 43
      case ':' => 44
      case _ => -1
  }

  function AlphanumericChar(v: nat): char
    requires v < 45
  {
    if v < 10 then (v + '0' as int) as char
    else if v < 36 then (v - 10 + 'A' as int) as char
    else " $%*+-./:"[v - 36]
  }

  const CHARSET := "0123456789" + "ABCDEFGHIJKLMNOPQRSTUVWXYZ" + " $%*+-./:"

  /** A code is a character's place in the set. */
  lemma CodeIsPlace(c: char, v: nat)
    requires v < 45
    ensures |CHARSET| == 45 && (AlphanumericCode(c) == v <==> c == CHARSET[v])
  {
    CodeOfPlace(v);
    if AlphanumericCode(c) == v {
      AlphanumericCodeInverse(c);
      AlphanumericCodeInverse(CHARSET[v]);
    }
  }

  lemma CodeOfPlace(v: nat)
    requires v < 45
    ensures |CHARSET| == 45 && AlphanumericCode(CHARSET[v]) == v
  {
    assert v == 0 || v == 1 || v == 2 || v == 3 || v == 4 || v == 5 || v == 6 || v == 7 || v == 8 || v == 9 || v == 10
      || v == 11 || v == 12 || v == 13 || v == 14 || v == 15 || v == 16 || v == 17 || v == 18 || v == 19 || v == 20
      || v == 21 || v == 22 || v == 23 || v == 24 || v == 25 || v == 26 || v == 27 || v == 28 || v == 29 || v == 30
      || v == 31 || v == 32 || v == 33 || v == 34 || v == 35 || v == 36 || v == 37 || v == 38 || v == 39 || v == 40
      || v == 41 || v == 42 || v == 43 || v == 44;
  }

  /** The code names its character. */
  lemma AlphanumericCodeInverse(c: char)
    requires AlphanumericCode(c) >= 0
    ensures AlphanumericChar(AlphanumericCode(c)) == c
  {
  }

  /** /^[A-Z0-9 $%*+.\/:-]*$/ */
  predicate IsAlphanumeric(s: string) {
    forall i :: 0 <= i < |s| ==> AlphanumericCode(s[i]) >= 0
  }

  /** Pairs of characters take 11 bits in base 45, a last single one 6. */
  function AlphanumericBits(s: string): BitString
    requires IsAlphanumeric(s)
  {
    if |s| >= 2 then BitsOf(AlphanumericCode(s[0]) * 45 + AlphanumericCode(s[1]), 11) + AlphanumericBits(s[2..])
    else if |s| == 1 then BitsOf(AlphanumericCode(s[0]), 6)
    else []
  }

  method MakeAlphanumeric(text: string) returns (r: Result<Segment>)
    ensures r.Ok? <==> IsAlphanumeric(text)
    ensures r.Ok? ==> r.value == Segment(Alphanumeric, |text|, AlphanumericBits(text))
  {
    if !IsAlphanumeric(text) {
      return Err("String contains unencodable characters in alphanumeric mode");
    }
    PairFits();
    hide AlphanumericBits, BitsOf, Pow2, AlphanumericCode;
    var bb := new BitBuffer();
    var i := 0;
    assert text[0..] == text;
    while i + 2 <= |text|
      invariant 0 <= i <= |text|
      invariant bb.bitData + AlphanumericBits(text[i..]) == AlphanumericBits(text)
    {
      AlphanumericStep(text, i, bb.bitData);
      var temp: nat := AlphanumericCode(text[i]) * 45;
      temp := temp + AlphanumericCode(text[i + 1]);
      SmallValue(temp);
      var ok := bb.AppendBits(temp, 11);
      i := i + 2;
    }
    AlphanumericLast(text[i..]);
    if i < |text| {
      SmallValue(AlphanumericCode(text[i]));
      var ok := bb.AppendBits(AlphanumericCode(text[i]), 6);
    }
    return Ok(Segment(Alphanumeric, |text|, bb.bitData));
  }

  lemma SmallValue(v: nat)
    requires v < UINT32
    ensures v % UINT32 == v
  {
  }

  lemma AlphanumericStep(s: string, i: nat, before: BitString)
    requires IsAlphanumeric(s) && i + 2 <= |s|
    ensures before + AlphanumericBits(s[i..])
         == before + BitsOf(AlphanumericCode(s[i]) * 45 + AlphanumericCode(s[i + 1]), 11) + AlphanumericBits(s[i + 2..])
  {
    hide BitsOf, AlphanumericCode;
    assert s[i..][2..] == s[i + 2..] && s[i..][0] == s[i] && s[i..][1] == s[i + 1];
  }

  lemma AlphanumericLast(s: string)
    requires IsAlphanumeric(s) && |s| < 2
    ensures AlphanumericBits(s) == if s == [] then [] else BitsOf(AlphanumericCode(s[0]), 6)
  {
  }

  lemma PairFits()
    ensures Pow2(6) == 64 && Pow2(11) == 2048
  {
    TenPowers();
    Pow2Steps();
  }

  /** Reads n characters from the front of a bit string; also gives what follows. */
  function DecodeAlphanumeric(b: BitString, n: nat): Option<(string, BitString)> {
    if n == 0 then Some(([], b))
    else if n == 1 then
      if |b| < 6 then None
      else
        var v := ValueOf(b[..6]);
        if v >= 45 then None else Some(([AlphanumericChar(v)], b[6..]))
    else if |b| < 11 then None
    else
      var v := ValueOf(b[..11]);
      if v >= 2025 then None
      else
        match DecodeAlphanumeric(b[11..], n - 2)
        case None => None
        case Some((s, rest)) => Some(([AlphanumericChar(v / 45), AlphanumericChar(v % 45)] + s, rest))
  }

  lemma {:induction false} AlphanumericRoundTrip(s: string, rest: BitString)
    requires IsAlphanumeric(s)
    ensures DecodeAlphanumeric(AlphanumericBits(s) + rest, |s|) == Some((s, rest))
  {
    PairFits();
    hide ValueOf, BitsOf, Pow2, AlphanumericCode, AlphanumericChar;
    if |s| == 0 {
      assert AlphanumericBits(s) + rest == rest;
    } else if |s| == 1 {
      assert [s[0]] == s;
      var v := AlphanumericCode(s[0]);
      ValueRoundTrip(v, 6);
      AlphanumericCodeInverse(s[0]);
      assert (AlphanumericBits(s) + rest)[..6] == BitsOf(v, 6);
      assert (AlphanumericBits(s) + rest)[6..] == rest;
    } else {
      var x, y := AlphanumericCode(s[0]), AlphanumericCode(s[1]);
      var v := x * 45 + y;
      ValueRoundTrip(v, 11);
      AlphanumericCodeInverse(s[0]);
      AlphanumericCodeInverse(s[1]);
      assert v / 45 == x && v % 45 == y;
      AlphanumericRoundTrip(s[2..], rest);
      assert (AlphanumericBits(s) + rest)[..11] == BitsOf(v, 11);
      assert (AlphanumericBits(s) + rest)[11..] == AlphanumericBits(s[2..]) + rest;
      assert [s[0], s[1]] + s[2..] == s;
    }
  }

  // ---------- Byte segments ----------

  method MakeBytes(data: seq<Byte>) returns (r: Segment)
    ensures r == Segment(ByteMode, |data|, Unpack(data))
  {
    Pow2Steps();
    hide Unpack, BitsOf, Pow2;
    var bb := new BitBuffer();
    assert data[0..] == data;
    for i := 0 to |data|
      invariant bb.bitData + Unpack(data[i..]) == Unpack(data)
    {
      UnpackStep(data, i, bb.bitData);
      var ok := bb.AppendBits(data[i], 8);
    }
    UnpackLast();
    return Segment(ByteMode, |data|, bb.bitData);
  }

  lemma UnpackStep(data: seq<Byte>, i: nat, before: BitString)
    requires i < |data|
    ensures before + Unpack(data[i..]) == before + BitsOf(data[i], 8) + Unpack(data[i + 1..])
  {
    assert data[i..][1..] == data[i + 1..];
  }

  lemma UnpackLast()
    ensures Unpack([]) == []
  {
  }

  /** Reads n bytes from the front of a bit string; also gives what follows. */
  function DecodeBytes(b: BitString, n: nat): Option<(seq<Byte>, BitString)> {
    if n == 0 then Some(([], b))
    else if |b| < 8 then None
    else
      match DecodeBytes(b[8..], n - 1)
      case None => None
      case Some((s, rest)) => Some(([ByteOf(b[..8])] + s, rest))
  }

  lemma ByteRoundTrip(v: Byte)
    ensures ByteOf(BitsOf(v, 8)) == v
  {
    Pow2Steps();
    ValueRoundTrip(v, 8);
    assert BitsOf(v, 8) + ZeroBits(0) == BitsOf(v, 8);
  }

  lemma {:induction false} BytesRoundTrip(data: seq<Byte>, rest: BitString)
    ensures DecodeBytes(Unpack(data) + rest, |data|) == Some((data, rest))
  {
    if data == [] {
      assert Unpack(data) + rest == rest;
    } else {
      hide BitsOf, DecodeBytes;
      BytesRoundTrip(data[1..], rest);
      assert Unpack(data) + rest == BitsOf(data[0], 8) + (Unpack(data[1..]) + rest);
      DecodeByte(data[0], Unpack(data[1..]) + rest, |data|);
      assert [data[0]] + data[1..] == data;
    }
  }

  lemma DecodeByte(v: Byte, b: BitString, n: nat)
    requires n > 0
    ensures DecodeBytes(BitsOf(v, 8) + b, n)
            == match DecodeBytes(b, n - 1)
               case None => None
               case Some((s, rest)) => Some(([v] + s, rest))
  {
    ByteRoundTrip(v);
    hide BitsOf, ByteOf;
    var all := BitsOf(v, 8) + b;
    assert all[..8] == BitsOf(v, 8) && all[8..] == b;
  }

  // ---------- Sequences of segments ----------

  /** What a segment was made from */
  datatype Payload = Digits(digits: string) | Text(text: string) | Bytes(bytes: seq<Byte>) {
    ghost predicate Valid() {
      match this
      case Digits(s) => IsNumeric(s)
      case Text(s) => IsAlphanumeric(s)
      case Bytes(_) => true
    }

    ghost function ToSegment(): Segment
      requires Valid()
    {
      match this
      case Digits(s) => Segment(Numeric, |s|, NumericBits(s))
      case Text(s) => Segment(Alphanumeric, |s|, AlphanumericBits(s))
      case Bytes(d) => Segment(ByteMode, |d|, Unpack(d))
    }
  }

  ghost predicate AllValid(ps: seq<Payload>) {
    forall i :: 0 <= i < |ps| ==> ps[i].Valid()
  }

  ghost function ToSegments(ps: seq<Payload>): (segs: seq<Segment>)
    requires AllValid(ps)
    ensures |segs| == |ps|
    ensures forall i :: 0 <= i < |ps| ==> segs[i] == ps[i].ToSegment()
  {
    seq(|ps|, i requires 0 <= i < |ps| => ps[i].ToSegment())
  }

  /** Mode, character count and data of one segment */
  function SegmentBits(seg: Segment, version: int): (b: BitString)
    requires 1 <= version <= 40
    ensures |b| == 4 + seg.mode.CountBits(version) + |seg.bitData|
  {
    BitsOf(seg.mode.Indicator(), 4) + BitsOf(seg.numChars, seg.mode.CountBits(version)) + seg.bitData
  }

  function StreamBits(segs: seq<Segment>, version: int): (b: BitString)
    requires 1 <= version <= 40
  {
    if segs == [] then [] else SegmentBits(segs[0], version) + StreamBits(segs[1..], version)
  }

  predicate CountsFit(segs: seq<Segment>, version: int)
    requires 1 <= version <= 40
  {
    forall i :: 0 <= i < |segs| ==> segs[i].numChars < Pow2(segs[i].mode.CountBits(version))
  }

  lemma StreamStep(segs: seq<Segment>, i: nat, version: int)
    requires 1 <= version <= 40 && i <= |segs|
    ensures i == 0 ==> segs[i..] == segs
    ensures i == |segs| ==> StreamBits(segs[i..], version) == []
    ensures i < |segs| ==>
      StreamBits(segs[i..], version) == SegmentBits(segs[i], version) + StreamBits(segs[i + 1..], version)
  {
    if i < |segs| {
      assert segs[i..][1..] == segs[i + 1..];
    }
  }

  /** The number of bits the segments take, unless some character count does not fit its field. */
  method GetTotalBits(segs: seq<Segment>, version: int) returns (r: Option<nat>)
    requires 1 <= version <= 40
    ensures r == if CountsFit(segs, version) then Some(|StreamBits(segs, version)|) else None
  {
    hide SegmentBits, StreamBits, Mode.CountBits, Pow2;
    var result := 0;
    StreamStep(segs, 0, version);
    for i := 0 to |segs|
      invariant CountsFit(segs[..i], version)
      invariant result + |StreamBits(segs[i..], version)| == |StreamBits(segs, version)|
    {
      var seg := segs[i];
      var ccbits := seg.mode.CountBits(version);
      if seg.numChars >= Pow2(ccbits) {
        return None;
      }
      StreamStep(segs, i, version);
      result := result + 4 + ccbits + |seg.bitData|;
    }
    StreamStep(segs, |segs|, version);
    assert segs[..|segs|] == segs;
    return Some(result);
  }

  function ModeOf(indicator: nat): Option<Mode> {
    if indicator == 1 then Some(Numeric)
    else if indicator == 2 then Some(Alphanumeric)
    else if indicator == 4 then Some(ByteMode)
    else if indicator == 8 then Some(Kanji)
    else None
  }

  function DecodePayload(mode: Mode, b: BitString, n: nat): Option<(Payload, BitString)> {
    match mode
    case Numeric =>
      (match DecodeNumeric(b, n)
       case None => None
       case Some((s, rest)) => Some((Digits(s), rest)))
    case Alphanumeric =>
      (match DecodeAlphanumeric(b, n)
       case None => None
       case Some((s, rest)) => Some((Text(s), rest)))
    case ByteMode =>
      (match DecodeBytes(b, n)
       case None => None
       case Some((s, rest)) => Some((Bytes(s), rest)))
    case Kanji => None
  }

  /** The width of the count field that a reader expects: ISO/IEC 18004:2015, section 7.4.1 */
  function FieldWidth(mode: Mode, version: int): nat {
    if version < 10 then
      match mode case Numeric => 10 case Alphanumeric => 9 case ByteMode => 8 case Kanji => 8
    else if version < 27 then
      match mode case Numeric => 12 case Alphanumeric => 11 case ByteMode => 16 case Kanji => 10
    else
      match mode case Numeric => 14 case Alphanumeric => 13 case ByteMode => 16 case Kanji => 12
  }

  lemma WritesFieldWidth(mode: Mode, version: int)
    requires 1 <= version <= 40
    ensures mode.CountBits(version) == FieldWidth(mode, version)
  {
  }

  /** A reader: segment after segment, until a zero mode indicator or until less than an indicator is left. */
  function ParseStream(b: BitString, version: int): Option<seq<Payload>>
    requires 1 <= version <= 40
    decreases |b|
  {
    if |b| < 4 || ValueOf(b[..4]) == 0 then Some([])
    else
      match ModeOf(ValueOf(b[..4]))
      case None => None
      case Some(mode) =>
        var w := FieldWidth(mode, version);
        if |b| < 4 + w then None
        else
          match DecodePayload(mode, b[4 + w..], ValueOf(b[4..4 + w]))
          case None => None
          case Some((p, rest)) =>
            if |rest| >= |b| then None
            else
              match ParseStream(rest, version)
              case None => None
              case Some(ps) => Some([p] + ps)
  }

  lemma PayloadRoundTrip(p: Payload, rest: BitString)
    requires p.Valid()
    ensures var seg := p.ToSegment(); DecodePayload(seg.mode, seg.bitData + rest, seg.numChars) == Some((p, rest))
  {
    match p
    case Digits(s) => NumericRoundTrip(s, rest);
    case Text(s) => AlphanumericRoundTrip(s, rest);
    case Bytes(d) => BytesRoundTrip(d, rest);
  }

  /** Where a reader stops */
  predicate Ends(tail: BitString) {
    |tail| < 4 || tail[..4] == ZeroBits(4)
  }

  lemma EndsParse(tail: BitString, version: int)
    requires 1 <= version <= 40 && Ends(tail)
    ensures ParseStream(tail, version) == Some([])
  {
    if |tail| >= 4 {
      ZerosValue(4);
    }
  }

  /** Reading the segments of a stream returns what they were made from. */
  lemma {:induction false} StreamRoundTrip(ps: seq<Payload>, version: int, tail: BitString)
    requires 1 <= version <= 40 && AllValid(ps)
    requires CountsFit(ToSegments(ps), version)
    requires Ends(tail)
    ensures ParseStream(StreamBits(ToSegments(ps), version) + tail, version) == Some(ps)
  {
    hide Pow2, SegmentBits, ParseStream, Ends, Payload.Valid, Payload.ToSegment, Mode.CountBits;
    var segs := ToSegments(ps);
    if ps == [] {
      assert StreamBits(segs, version) + tail == tail;
      EndsParse(tail, version);
    } else {
      assert segs[1..] == ToSegments(ps[1..]);
      forall i | 0 <= i < |segs[1..]|
        ensures segs[1..][i].numChars < Pow2(segs[1..][i].mode.CountBits(version))
      {
        assert segs[1..][i] == segs[i + 1];
      }
      StreamRoundTrip(ps[1..], version, tail);
      var rest := StreamBits(segs[1..], version) + tail;
      FirstSegment(ps[0], version, rest);
      assert StreamBits(segs, version) + tail == SegmentBits(segs[0], version) + rest;
      assert [ps[0]] + ps[1..] == ps;
    }
  }

  /** Where a reader finds the parts of a segment */
  lemma SegmentParts(seg: Segment, version: int, rest: BitString)
    requires 1 <= version <= 40
    ensures var b, w := SegmentBits(seg, version) + rest, seg.mode.CountBits(version);
            && |b| == 4 + w + |seg.bitData + rest|
            && b[..4] == BitsOf(seg.mode.Indicator(), 4)
            && b[4..4 + w] == BitsOf(seg.numChars, w)
            && b[4 + w..] == seg.bitData + rest
  {
    hide BitsOf, Mode.CountBits, Mode.Indicator;
    var m, n := BitsOf(seg.mode.Indicator(), 4), BitsOf(seg.numChars, seg.mode.CountBits(version));
    assert SegmentBits(seg, version) + rest == m + n + (seg.bitData + rest);
    Parts(m, n, seg.bitData + rest);
  }

  lemma Parts(x: BitString, y: BitString, z: BitString)
    ensures var b := x + y + z; b[..|x|] == x && b[|x|..|x| + |y|] == y && b[|x| + |y|..] == z
  {
  }

  lemma FirstSegment(p: Payload, version: int, rest: BitString)
    requires 1 <= version <= 40 && p.Valid()
    requires p.ToSegment().numChars < Pow2(p.ToSegment().mode.CountBits(version))
    ensures var b := SegmentBits(p.ToSegment(), version) + rest;
            ParseStream(b, version) == match ParseStream(rest, version)
                                       case None => None
                                       case Some(ps) => Some([p] + ps)
  {
    hide ValueOf, Pow2, DecodePayload, NumericBits, AlphanumericBits, Unpack;
    var seg := p.ToSegment();
    var w := seg.mode.CountBits(version);
    WritesFieldWidth(seg.mode, version);
    SegmentParts(seg, version, rest);
    hide FieldWidth, Mode.CountBits;
    Pow2Steps();
    ValueRoundTrip(seg.mode.Indicator(), 4);
    ValueRoundTrip(seg.numChars, w);
    PayloadRoundTrip(p, rest);
  }
}

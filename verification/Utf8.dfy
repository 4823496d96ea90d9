/** Text as bytes in UTF-8.
    Source: web/src/lib/qrcode.js, lines 1307-1319. */
module Utf8 {
  import opened Wrappers
  import opened Gf256

  function EncodeChar(c: char): (b: seq<Byte>)
    ensures 1 <= |b| <= 4
  {
    var v := c as int;
    if v < 0x80 then [v]
    else if v < 0x800 then [0xC0 + v / 0x40, 0x80 + v % 0x40]
    else if v < 0x1_0000 then [0xE0 + v / 0x1000, 0x80 + v / 0x40 % 0x40, 0x80 + v % 0x40]
    else [0xF0 + v / 0x4_0000, 0x80 + v / 0x1000 % 0x40, 0x80 + v / 0x40 % 0x40, 0x80 + v % 0x40]
  }

  function Encode(text: string): (b: seq<Byte>)
    ensures |text| <= |b| <= 4 * |text|
  {
    if text == [] then [] else EncodeChar(text[0]) + Encode(text[1..])
  }

  // ---------- The reader's side ----------

  /** The number of bytes a character takes, from the first of them */
  function Length(lead: Byte): nat {
    if lead < 0x80 then 1 else if lead < 0xE0 then 2 else if lead < 0xF0 then 3 else 4
  }

  /** The value a character's bytes spell */
  function Value(b: seq<Byte>): int
    requires 1 <= |b| <= 4
  {
    if |b| == 1 then b[0]
    else if |b| == 2 then Tail(b[0] as int - 0xC0, b[1])
    else if |b| == 3 then Tail(Tail(b[0] as int - 0xE0, b[1]), b[2])
    else Tail(Tail(Tail(b[0] as int - 0xF0, b[1]), b[2]), b[3])
  }

  /** Six more bits */
  function Tail(v: int, b: Byte): int {
    0x40 * v + (b as int - 0x80)
  }

  predicate IsScalar(v: int) {
    0 <= v < 0xD800 || 0xE000 <= v < 0x11_0000
  }

  function Decode(b: seq<Byte>): Option<string> {
    if b == [] then Some("")
    else
      var n := Length(b[0]);
      if n > |b| || !IsScalar(Value(b[..n])) then None
      else
        match Decode(b[n..])
        case None => None
        case Some(text) => Some([Value(b[..n]) as char] + text)
  }

  lemma CharRoundTrip(c: char)
    ensures var b := EncodeChar(c); Length(b[0]) == |b| && Value(b) == c as int && IsScalar(Value(b))
  {
    var v := c as int;
    assert v / 0x1000 / 0x40 == v / 0x4_0000 && v / 0x40 / 0x40 == v / 0x1000;
  }

  lemma {:induction false} RoundTrip(text: string)
    ensures Decode(Encode(text)) == Some(text)
  {
    if text != [] {
      CharRoundTrip(text[0]);
      RoundTrip(text[1..]);
      hide EncodeChar, Length, Value;
      var first, rest := EncodeChar(text[0]), Encode(text[1..]);
      assert (first + rest)[..|first|] == first && (first + rest)[|first|..] == rest;
      assert [text[0]] + text[1..] == text;
    }
  }
}

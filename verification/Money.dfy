/** Amounts of money, printed in kronor and kept in ören.
    Source: internal/currency/sek.go. */
module Money {
  import opened Wrappers
  import opened Decimals
  import opened Numbers

  predicate IsInt32(x: int) {
    -0x8000_0000 <= x < 0x8000_0000
  }

  /** Conversion to 32 bits, and 32-bit arithmetic, wrap around. */
  function Wrap32(x: int): (r: int)
    ensures IsInt32(r) && (IsInt32(x) ==> r == x) && (x - r) % 0x1_0000_0000 == 0
  {
    (x + 0x8000_0000) % 0x1_0000_0000 - 0x8000_0000
  }

  // ---------- Printing ----------

  /** The decimals of o hundredths, without trailing zeros */
  function Hundredths(o: nat): string
    requires 0 < o < 100
  {
    if o % 10 == 0 then [DigitChar(o / 10)] else [DigitChar(o / 10), DigitChar(o % 10)]
  }

  function Number(sek: int): string {
    var whole := (if sek < 0 then ['-'] else []) + Decimal(Abs(sek) / 100);
    if Abs(sek) % 100 == 0 then whole else whole + ['.'] + Hundredths(Abs(sek) % 100)
  }

  function ToString(sek: int): string {
    Number(sek) + " kr"
  }

  /** Whole kronor, halves away from zero */
  function ToKronor(sek: int): int {
    if sek >= 0 then (sek + 50) / 100 else -((-sek + 50) / 100)
  }

  /** The rounded amount is a nearest one, and of two equally near the one further from zero. */
  lemma KronorIsNearest(sek: int)
    ensures 2 * Abs(100 * ToKronor(sek) - sek) <= 100
    ensures 2 * Abs(100 * ToKronor(sek) - sek) == 100 ==> Abs(100 * ToKronor(sek)) > Abs(sek)
    ensures forall k :: Abs(100 * ToKronor(sek) - sek) <= Abs(100 * k - sek)
  {
    var r := ToKronor(sek);
    Rounded(sek);
    hide ToKronor;
    forall k
      ensures Abs(100 * r - sek) <= Abs(100 * k - sek)
    {
      if k < r {
        assert 100 * k <= 100 * r - 100;
      } else if k > r {
        assert 100 * k >= 100 * r + 100;
      }
    }
  }

  lemma Rounded(sek: int)
    ensures sek >= 0 ==> 0 <= 100 * ToKronor(sek) <= sek + 50 < 100 * ToKronor(sek) + 100
    ensures sek < 0 ==> 100 * ToKronor(sek) - 100 < sek - 50 <= 100 * ToKronor(sek) <= 0
  {
  }

  // ---------- Parsing ----------

  /** What is before the first c, and what is after it, if there is one */
  function Cut(s: string, c: char): (r: (string, Option<string>)) {
    if s == "" then ("", None)
    else if s[0] == c then ("", Some(s[1..]))
    else
      var (before, after) := Cut(s[1..], c);
      ([s[0]] + before, after)
  }

  predicate IsInt64(x: int) {
    -0x8000_0000_0000_0000 <= x < 0x8000_0000_0000_0000
  }

  /** Digits only, at least one */
  function ParseDigits(s: string): Option<nat> {
    if s == "" then None
    else
      var (n, rest) := ReadDigits(s, 0);
      if rest == "" then Some(n) else None
  }

  /** An optional sign and decimal digits, in the range of 64 bits */
  function Atoi(s: string): Result<int> {
    var signed := s != "" && (s[0] == '-' || s[0] == '+');
    match ParseDigits(if signed then s[1..] else s)
    case None => Err("invalid syntax")
    case Some(n) =>
      var value := if signed && s[0] == '-' then 0 - n as int else n as int;
      if IsInt64(value) then Ok(value) else Err("value out of range")
  }

  function Parse(str: string): Result<int> {
    var (kronor, oren) := Cut(Cut(str, ' ').0, '.');
    match Atoi(kronor)
    case Err(message) => Err("failed to parse SEK (Kronor)")
    case Ok(rawKronor) =>
      if oren.None? then Ok(Wrap32(Wrap32(rawKronor) * 100))
      else
        match Atoi(oren.value)
        case Err(message) => Err("failed to parse SEK (Ören)")
        case Ok(rawOren) => Ok(Wrap32(Wrap32(Wrap32(rawKronor) * 100) + Wrap32(rawOren)))
  }

  datatype GqlValue = Text(text: string) | Other

  class Sek {
    var oren: int

    constructor (oren: int)
      ensures this.oren == oren
    {
      this.oren := oren;
    }

    /** Sets the amount from its text; a value that cannot be parsed leaves it as it was. */
    method UnmarshalGQL(v: GqlValue) returns (r: Result<()>)
      modifies this
      ensures r.Ok? <==> v.Text? && Parse(v.text).Ok?
      ensures oren == if r.Ok? then Parse(v.text).value else old(oren)
    {
      if v.Text? {
        hide Cut, Atoi, Wrap32;
        var n := Cut(v.text, ' ');
        var kronorOren := Cut(n.0, '.');
        var rawOren := 0;
        var rawKronor := Atoi(kronorOren.0);
        if rawKronor.Err? {
          return Err("failed to parse SEK (Kronor)");
        }
        if kronorOren.1.Some? {
          var parsed := Atoi(kronorOren.1.value);
          if parsed.Err? {
            return Err("failed to parse SEK (Ören)");
          }
          rawOren := parsed.value;
        }
        NoOren(Wrap32(rawKronor.value) * 100);
        oren := Wrap32(Wrap32(Wrap32(rawKronor.value) * 100) + Wrap32(rawOren));
        return Ok(());
      }
      return Err("SEK must be a string");
    }
  }

  lemma NoOren(x: int)
    ensures Wrap32(Wrap32(x) + Wrap32(0)) == Wrap32(x)
  {
  }

  // ---------- What is parsed ----------

  /** A whole number as it is written */
  function Whole(n: int): string {
    (if n < 0 then ['-'] else []) + Decimal(Abs(n))
  }

  lemma WholeHas(n: int, c: char)
    requires c != '-' && !IsDigit(c)
    ensures c !in Whole(n) && c !in Decimal(Abs(n))
  {
    hide Decimal;
  }

  lemma AtoiWhole(n: int)
    ensures Atoi(Whole(n)) == if -0x8000_0000_0000_0000 <= n < 0x8000_0000_0000_0000 then Ok(n)
                              else Err("value out of range")
  {
    var d := Decimal(Abs(n));
    ReadDecimal(Abs(n), "");
    assert d + "" == d;
    assert (['-'] + d)[1..] == d;
    assert IsDigit(d[0]);
    hide Decimal;
    assert n >= 0 ==> Whole(n) == d;
  }

  /** For all whole numbers of kronor and of ören: the amount is 100 times the one plus the other, in 32 bits, whatever
      follows a space, and numbers that do not fit 64 bits are refused. */
  lemma ParseAmounts(n: int, o: Option<nat>, rest: Option<string>)
    ensures var number := Whole(n) + (if o.Some? then ['.'] + Decimal(o.value) else []);
            var text := number + (if rest.Some? then [' '] + rest.value else []);
            Parse(text)
            == if n < -0x8000_0000_0000_0000 || n >= 0x8000_0000_0000_0000 then Err("failed to parse SEK (Kronor)")
               else if o.None? then Ok(Wrap32(Wrap32(n) * 100))
               else if o.value >= 0x8000_0000_0000_0000 then Err("failed to parse SEK (Ören)")
               else Ok(Wrap32(Wrap32(Wrap32(n) * 100) + Wrap32(o.value)))
  {
    hide Wrap32, Decimal, Cut, Atoi;
    var number := Whole(n) + (if o.Some? then ['.'] + Decimal(o.value) else []);
    AmountCuts(n, o, rest);
    AtoiWhole(n);
    if o.Some? {
      AtoiWhole(o.value);
      assert Whole(o.value) == Decimal(o.value);
    }
  }

  lemma AmountCuts(n: int, o: Option<nat>, rest: Option<string>)
    ensures var number := Whole(n) + (if o.Some? then ['.'] + Decimal(o.value) else []);
            var text := number + (if rest.Some? then [' '] + rest.value else []);
            && Cut(text, ' ').0 == number
            && Cut(number, '.') == (Whole(n), if o.Some? then Some(Decimal(o.value)) else None)
  {
    var number := Whole(n) + (if o.Some? then ['.'] + Decimal(o.value) else []);
    WholeHas(n, ' ');
    WholeHas(n, '.');
    if o.Some? {
      WholeHas(o.value, ' ');
      CutAt(Whole(n), '.', Decimal(o.value));
      assert number == Whole(n) + ['.'] + Decimal(o.value);
    } else {
      CutNowhere(Whole(n), '.');
      assert number == Whole(n);
    }
    hide Cut, Decimal, Whole;
    assert ' ' !in number;
    if rest.Some? {
      CutAt(number, ' ', rest.value);
      assert number + ([' '] + rest.value) == number + [' '] + rest.value;
    } else {
      CutNowhere(number, ' ');
      assert number + [] == number;
    }
  }

  // ---------- Printing, then parsing ----------

  lemma {:induction false} CutAt(a: string, c: char, b: string)
    requires c !in a
    ensures Cut(a + [c] + b, c) == (a, Some(b))
  {
    var s := a + [c] + b;
    if a == [] {
      assert s[1..] == b;
    } else {
      CutAt(a[1..], c, b);
      assert s[1..] == a[1..] + [c] + b;
      assert [a[0]] + a[1..] == a;
    }
  }

  lemma {:induction false} CutNowhere(a: string, c: char)
    requires c !in a
    ensures Cut(a, c) == (a, None)
  {
    if a != [] {
      CutNowhere(a[1..], c);
      assert [a[0]] + a[1..] == a;
    }
  }

  lemma AtoiDecimal(n: int)
    requires n >= 0 && IsInt64(n)
    ensures Atoi(Decimal(n)) == Ok(n) && Atoi(['-'] + Decimal(n)) == Ok(-n)
  {
    ReadDecimal(n, "");
    assert Decimal(n) + "" == Decimal(n);
    assert (['-'] + Decimal(n))[1..] == Decimal(n);
    assert IsDigit(Decimal(n)[0]);
    hide Decimal;
  }

  /** A single decimal is read as so many ören, not tenths. */
  lemma AtoiHundredths(o: nat)
    requires 0 < o < 100
    ensures Atoi(Hundredths(o)) == Ok(if o % 10 == 0 then o / 10 else o)
  {
    var s := Hundredths(o);
    assert IsDigit(s[0]);
    if o % 10 == 0 {
      assert s[1..] == "";
      assert ReadDigits(s, 0) == ReadDigits("", o / 10);
    } else {
      assert s[1..] == [DigitChar(o % 10)] && s[1..][1..] == "";
      assert ReadDigits(s, 0) == ReadDigits(s[1..], o / 10) == ReadDigits("", o / 10 * 10 + o % 10);
    }
  }

  lemma NoSeparators(sek: int)
    ensures ' ' !in Number(sek)
    ensures var whole := (if sek < 0 then ['-'] else []) + Decimal(Abs(sek) / 100); '.' !in whole
  {
    hide Decimal;
    var whole := (if sek < 0 then ['-'] else []) + Decimal(Abs(sek) / 100);
    forall i | 0 <= i < |whole|
      ensures whole[i] == '-' || IsDigit(whole[i])
    {
    }
  }

  /** The amount that comes back */
  function Returned(sek: int): int {
    var kronor, o := 100 * (Abs(sek) / 100), Abs(sek) % 100;
    (if sek < 0 then -kronor else kronor) + (if o % 10 == 0 then o / 10 else o)
  }

  lemma ParsePrinted(sek: int)
    requires IsInt32(sek)
    ensures Parse(ToString(sek)) == Ok(Returned(sek))
  {
    hide Cut, Atoi, Decimal, Hundredths, Wrap32;
    var o, k := Abs(sek) % 100, Abs(sek) / 100;
    var whole := (if sek < 0 then ['-'] else []) + Decimal(k);
    NoSeparators(sek);
    assert ToString(sek) == Number(sek) + [' '] + "kr";
    CutAt(Number(sek), ' ', "kr");
    AtoiDecimal(k);
    assert sek >= 0 ==> whole == Decimal(k);
    if o == 0 {
      CutNowhere(whole, '.');
    } else {
      CutAt(whole, '.', Hundredths(o));
      AtoiHundredths(o);
    }
  }

  /** Printing and parsing returns the amount exactly if it is whole kronor, or positive with ören that are not a
      multiple of 10. */
  lemma RoundTrip(sek: int)
    requires IsInt32(sek)
    ensures Parse(ToString(sek)) == Ok(sek) <==> Abs(sek) % 100 == 0 || (sek > 0 && sek % 10 != 0)
  {
    ParsePrinted(sek);
    ReturnedExactly(sek);
    hide *;
  }

  lemma ReturnedExactly(sek: int)
    ensures Returned(sek) == sek <==> Abs(sek) % 100 == 0 || (sek > 0 && sek % 10 != 0)
  {
    var k, o := Abs(sek) / 100, Abs(sek) % 100;
    LastDigit(k, o);
    assert Abs(sek) == 100 * k + o;
    if o % 10 == 0 {
      assert o / 10 == o <==> o == 0;
    }
  }

  lemma LastDigit(k: nat, o: nat)
    ensures (100 * k + o) % 10 == o % 10
  {
    assert 100 * k + o == 10 * (10 * k) + o;
  }

  /** 1.5 kr is read as 1 krona and 5 ören; a negative amount gets its ören added. */
  lemma RoundTripLosses()
    ensures ToString(150) == "1.5 kr" && Parse("1.5 kr") == Ok(105)
    ensures ToString(-50) == "-0.5 kr" && Parse("-0.5 kr") == Ok(5)
  {
    hide Parse, ParseDigits, ReadDigits;
    ParsePrinted(150);
    ParsePrinted(-50);
    assert Number(150) == "1.5";
    assert Number(-50) == "-0.5";
  }
}

/** Decimal text for 64-bit signed integers: Rust's `str::parse::<i64>` and
    the `{}` formatting of an `i64`. */
module Integers {
  import opened Outcomes

  const I64Min: int := -0x8000_0000_0000_0000
  const I64Max: int := 0x7FFF_FFFF_FFFF_FFFF

  predicate InI64(n: int)
  {
    I64Min <= n <= I64Max
  }

  predicate IsDigit(c: char)
  {
    '0' <= c <= '9'
  }

  predicate AllDigits(s: string)
  {
    forall i :: 0 <= i < |s| ==> IsDigit(s[i])
  }

  function DigitValue(c: char): nat
    requires IsDigit(c)
  {
    c as int - '0' as int
  }

  function DigitChar(d: nat): (c: char)
    requires d < 10
    ensures IsDigit(c) && DigitValue(c) == d
  {
    ('0' as int + d) as char
  }

  /** The number a string of decimal digits denotes, most significant first. */
  function DigitsValue(s: string): nat
    requires AllDigits(s)
  {
    if |s| == 0 then 0 else DigitsValue(s[..|s| - 1]) * 10 + DigitValue(s[|s| - 1])
  }

  /** The shortest decimal digit string of `n`. */
  function NatToDigits(n: nat): (s: string)
    ensures |s| > 0 && AllDigits(s)
    ensures |s| > 1 ==> s[0] != '0'
  {
    if n < 10 then [DigitChar(n)] else NatToDigits(n / 10) + [DigitChar(n % 10)]
  }

  lemma {:induction false} DigitsRoundTrip(n: nat)
    ensures DigitsValue(NatToDigits(n)) == n
  {
    if n >= 10 {
      var s := NatToDigits(n);
      assert s[..|s| - 1] == NatToDigits(n / 10);
      DigitsRoundTrip(n / 10);
    }
  }

  /** `format!("{}", n)`: a minus sign for negative numbers, then the digits. */
  function FormatInt(n: int): (s: string)
    ensures |s| > 0
    ensures n >= 0 ==> AllDigits(s) && DigitsValue(s) == n && (|s| > 1 ==> s[0] != '0')
    ensures n < 0 ==> |s| > 1 && s[0] == '-' && AllDigits(s[1..]) && DigitsValue(s[1..]) == -n && (|s| > 2 ==> s[1] != '0')
  {
    if n < 0 then
      DigitsRoundTrip(-n);
      assert ("-" + NatToDigits(-n))[1..] == NatToDigits(-n);
      "-" + NatToDigits(-n)
    else
      DigitsRoundTrip(n);
      NatToDigits(n)
  }

  /** `str::parse::<i64>`: an optional `+` or `-`, then at least one decimal
      digit and nothing else; values outside the `i64` range are rejected. */
  function ParseI64(s: string): (r: Option<int>)
    ensures r.Some? ==> InI64(r.value)
    ensures r.Some? ==> |s| > 0 && (IsDigit(s[0]) || s[0] == '+' || s[0] == '-') && AllDigits(s[1..])
    ensures r.Some? && s[0] == '-' ==> r.value <= 0
    ensures r.Some? && s[0] != '-' ==> r.value >= 0
  {
    if |s| == 0 then None
    else if s[0] == '-' || s[0] == '+' then ParseMagnitude(s[0] == '-', s[1..])
    else ParseMagnitude(false, s)
  }

  /** The digits after the sign: at least one, all decimal, and a signed
      value inside the `i64` range. */
  function ParseMagnitude(negative: bool, digits: string): (r: Option<int>)
    ensures r.Some? ==> InI64(r.value) && |digits| > 0 && AllDigits(digits)
    ensures r.Some? ==> if negative then r.value <= 0 else r.value >= 0
  {
    if |digits| == 0 || !AllDigits(digits) then None
    else
      var v: int := if negative then 0 - DigitsValue(digits) as int else DigitsValue(digits);
      if InI64(v) then Some(v) else None
  }

  /** Parsing the formatted text of an `i64` gives the number back. */
  lemma ParseFormat(n: int)
    requires InI64(n)
    ensures ParseI64(FormatInt(n)) == Some(n)
  {
    if n < 0 {
      DigitsRoundTrip(-n);
      assert FormatInt(n)[1..] == NatToDigits(-n);
    } else {
      DigitsRoundTrip(n);
    }
  }

  /** Every sign-and-digits string is accepted exactly when its value fits
      in an `i64`, and then gives that value. */
  lemma ParseSignedDigits(sign: string, digits: string)
    requires sign == "" || sign == "+" || sign == "-"
    requires |digits| > 0 && AllDigits(digits)
    ensures var v: int := if sign == "-" then 0 - DigitsValue(digits) as int else DigitsValue(digits);
      ParseI64(sign + digits) == (if InI64(v) then Some(v) else None)
  {
    var negative := sign == "-";
    if sign == "" {
      ParseUnsigned(digits);
      assert sign + digits == digits;
    } else {
      assert sign == [sign[0]] && (sign[0] == '-' <==> negative);
      ParseAfterSign(sign[0], digits);
    }
    MagnitudeValue(negative, digits);
  }

  lemma MagnitudeValue(negative: bool, digits: string)
    requires |digits| > 0 && AllDigits(digits)
    ensures var v: int := if negative then 0 - DigitsValue(digits) as int else DigitsValue(digits);
      ParseMagnitude(negative, digits) == (if InI64(v) then Some(v) else None)
  {
  }

  lemma ParseUnsigned(digits: string)
    requires |digits| > 0 && AllDigits(digits)
    ensures ParseI64(digits) == ParseMagnitude(false, digits)
  {
    assert IsDigit(digits[0]);
  }

  lemma ParseAfterSign(c: char, digits: string)
    requires c == '+' || c == '-'
    ensures ParseI64([c] + digits) == ParseMagnitude(c == '-', digits)
  {
    assert ([c] + digits)[1..] == digits;
  }
}

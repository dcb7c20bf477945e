/** Decimal numerals: the text Rust's `Display` gives an integer and the value
    `str::parse::<i64>` reads back from a digit string. Both the parser engine
    (error rendering, the `number` consumer) and the s-expression layer (value
    display) use them. */
module Numerals {
  import opened RustResult

  const MaxI64: int := 0x7FFF_FFFF_FFFF_FFFF
  const MinI64: int := -0x8000_0000_0000_0000

  predicate IsDigit(c: char) {
    '0' <= c <= '9'
  }

  predicate AllDigits(s: string) {
    forall i :: 0 <= i < |s| ==> IsDigit(s[i])
  }

  function DigitChar(d: nat): (c: char)
    requires d < 10
    ensures IsDigit(c) && DigitValue(c) == d
  {
    (48 + d) as char
  }

  function DigitValue(c: char): nat
    requires IsDigit(c)
  {
    (c as int) - 48
  }

  /** The shortest decimal spelling of `n` (no sign, no leading zero). */
  function Decimal(n: nat): (s: string)
    ensures |s| >= 1 && AllDigits(s)
    ensures |s| > 1 ==> s[0] != '0'
  {
    if n < 10 then [DigitChar(n)] else Decimal(n / 10) + [DigitChar(n % 10)]
  }

  /** The value of a string of decimal digits; the empty string reads as 0. */
  function DigitsValue(s: string): nat
    requires AllDigits(s)
  {
    if s == [] then 0 else DigitsValue(s[..|s| - 1]) * 10 + DigitValue(s[|s| - 1])
  }

  lemma {:induction false} DecimalRoundTrip(n: nat)
    ensures DigitsValue(Decimal(n)) == n
  {
    if n >= 10 {
      var s := Decimal(n);
      assert s[..|s| - 1] == Decimal(n / 10);
      DecimalRoundTrip(n / 10);
    }
  }

  lemma DecimalInjective(a: nat, b: nat)
    ensures Decimal(a) == Decimal(b) ==> a == b
  {
    DecimalRoundTrip(a);
    DecimalRoundTrip(b);
  }

  /** Rust's `Display` for a signed integer: a minus sign, then the magnitude. */
  function IntDecimal(i: int): (s: string)
    ensures |s| >= 1
    ensures i >= 0 <==> s[0] != '-'
    ensures i < 0 ==> AllDigits(s[1..]) && DigitsValue(s[1..]) == -i
    ensures i >= 0 ==> AllDigits(s) && DigitsValue(s) == i
    ensures i >= 0 && |s| > 1 ==> s[0] != '0'
    ensures i < 0 ==> |s| >= 2 && s[1] != '0'
  {
    if i < 0 then
      DecimalRoundTrip(-i);
      assert ("-" + Decimal(-i))[1..] == Decimal(-i);
      "-" + Decimal(-i)
    else
      DecimalRoundTrip(i);
      Decimal(i)
  }

  lemma IntDecimalInjective(a: int, b: int)
    ensures IntDecimal(a) == IntDecimal(b) ==> a == b
  {
    if IntDecimal(a) == IntDecimal(b) {
      if a < 0 {
        assert b < 0;
        assert Decimal(-a) == IntDecimal(a)[1..] == IntDecimal(b)[1..] == Decimal(-b);
        DecimalInjective(-a, -b);
      } else {
        DecimalInjective(a, b);
      }
    }
  }

  /** `str::parse::<i64>()`: an optional sign, then one or more decimal digits
      whose value lies in the i64 range. The error text is a placeholder. */
  function ParseI64(s: string): (r: Result<int, string>)
    ensures r.Ok? ==> MinI64 <= r.value <= MaxI64
    ensures AllDigits(s) ==> (r.Ok? <==> s != [] && DigitsValue(s) <= MaxI64)
    ensures AllDigits(s) && r.Ok? ==> r.value == DigitsValue(s)
  {
    if s == [] then Err("cannot parse integer from empty string")
    else
      var negative := s[0] == '-';
      var digits := if s[0] == '-' || s[0] == '+' then s[1..] else s;
      if digits == [] || !AllDigits(digits) then Err("invalid digit found in string")
      else
        var v: int := DigitsValue(digits);
        if negative then (if v > -MinI64 then Err("number too small to fit in target type") else Ok(-v))
        else if v > MaxI64 then Err("number too large to fit in target type")
        else Ok(v)
  }

  /** `str::parse::<i64>` reads back what `Display` writes for every i64. */
  lemma IntDecimalReadBack(i: int)
    ensures MinI64 <= i <= MaxI64 ==> ParseI64(IntDecimal(i)) == Ok(i)
  {
    var s := IntDecimal(i);
    if i < MinI64 || i > MaxI64 {
    } else if i < 0 {
      assert s[0] == '-';
    } else {
      assert IsDigit(s[0]);
    }
  }
}

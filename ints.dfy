/**
 * Rust's fixed-width integers as subset types of `int`, and the two text
 * conversions the HTTP layer applies to ad ids: `i32::to_string` (the body of a
 * successful `POST /ads`) and `str::parse::<i32>` (the `:id` path segment).
 */
module Ints {
  import opened Wrappers

  const U8_LIMIT: int := 0x100
  const U32_LIMIT: int := 0x1_0000_0000
  const I32_MIN: int := -0x8000_0000
  const I32_MAX: int := 0x7FFF_FFFF

  type uint8 = x: int | 0 <= x < U8_LIMIT
  type uint32 = x: int | 0 <= x < U32_LIMIT
  type int32 = x: int | I32_MIN <= x <= I32_MAX

  predicate IsDigit(c: char) {
    '0' <= c <= '9'
  }

  function DigitChar(d: nat): (c: char)
    requires d < 10
    ensures IsDigit(c) && DigitValue(c) == d
  {
    ['0', '1', '2', '3', '4', '5', '6', '7', '8', '9'][d]
  }

  function DigitValue(c: char): nat
    requires IsDigit(c)
  {
    (c as int) - ('0' as int)
  }

  predicate AllDigits(s: string) {
    forall i :: 0 <= i < |s| ==> IsDigit(s[i])
  }

  /** The value of a string of decimal digits, most significant first. */
  function DigitsValue(s: string): nat
    requires AllDigits(s)
  {
    if s == [] then 0 else DigitsValue(s[..|s| - 1]) * 10 + DigitValue(s[|s| - 1])
  }

  /** Decimal digits of a natural number, no leading zeros ("0" for zero). */
  function NatText(n: nat): (s: string)
    ensures |s| >= 1 && AllDigits(s)
    ensures |s| > 1 ==> s[0] != '0'
  {
    if n < 10 then [DigitChar(n)] else NatText(n / 10) + [DigitChar(n % 10)]
  }

  /** `Display` of a signed integer: a minus sign for negative values, then the digits. */
  function DecimalText(n: int): string {
    if n < 0 then "-" + NatText(-n) else NatText(n)
  }

  /**
   * `<i32 as FromStr>::from_str`: an optional `+` or `-`, then at least one ASCII
   * digit and nothing else; a value outside the 32-bit range is an overflow error.
   */
  function ParseInt32(s: string): (r: Option<int32>)
    ensures r.Some? ==> |s| >= 1 && (s[0] != '-' ==> r.value >= 0)
    ensures r.Some? ==> s[0] == '+' || s[0] == '-' || IsDigit(s[0])
    ensures r.Some? ==> forall i :: 0 < i < |s| ==> IsDigit(s[i])
  {
    if |s| == 0 then None
    else
      var negative := s[0] == '-';
      var digits := if s[0] == '-' || s[0] == '+' then s[1..] else s;
      if |digits| == 0 || !AllDigits(digits) then None
      else
        var v: int := if negative then 0 - DigitsValue(digits) as int else DigitsValue(digits);
        if I32_MIN <= v <= I32_MAX then Some(v) else None
  }

  /** A sign character followed by at least one digit, or digits alone. */
  predicate IsSignedDigits(s: string) {
    || (|s| >= 2 && (s[0] == '+' || s[0] == '-') && AllDigits(s[1..]))
    || (|s| >= 1 && AllDigits(s))
  }

  /** The integer a signed digit string denotes. */
  function SignedValue(s: string): int
    requires IsSignedDigits(s)
  {
    if s[0] == '-' then 0 - DigitsValue(s[1..]) as int
    else if s[0] == '+' then DigitsValue(s[1..])
    else DigitsValue(s)
  }

  /**
   * Parsing accepts exactly the signed digit strings whose value fits in 32
   * bits, and yields that value; every other text is refused.
   */
  lemma ParseInt32Exactly(s: string)
    ensures ParseInt32(s).Some? <==> IsSignedDigits(s) && I32_MIN <= SignedValue(s) <= I32_MAX
    ensures ParseInt32(s).Some? ==> ParseInt32(s).value == SignedValue(s)
  {
    if |s| >= 1 && (s[0] == '+' || s[0] == '-') {
      assert !AllDigits(s) by { assert !IsDigit(s[0]); }
    }
  }

  lemma {:induction false} NatTextValue(n: nat)
    ensures DigitsValue(NatText(n)) == n
  {
    if n >= 10 {
      var s := NatText(n);
      assert s[..|s| - 1] == NatText(n / 10);
      NatTextValue(n / 10);
    }
  }

  /** Every 32-bit id that `to_string` renders parses back to itself. */
  lemma ParseDecimalText(n: int32)
    ensures ParseInt32(DecimalText(n)) == Some(n)
  {
    if n < 0 {
      NegativeTextParses(n);
    } else {
      NatTextParses(n);
    }
  }

  /** A negative value's text is a minus sign and the digits of its magnitude. */
  lemma NegativeTextParses(n: int32)
    requires n < 0
    ensures ParseInt32(DecimalText(n)) == Some(n)
  {
    var m: nat := 0 - n as int;
    var t := NatText(m);
    NatTextValue(m);
    var s := "-" + t;
    assert s[0] == '-' && s[1..] == t;
    assert IsSignedDigits(s) && SignedValue(s) == n;
    ParseInt32Exactly(s);
  }

  /** A non-negative value's text is its digits alone, with no sign. */
  lemma NatTextParses(n: int32)
    requires n >= 0
    ensures ParseInt32(DecimalText(n)) == Some(n)
  {
    var t := NatText(n);
    NatTextValue(n);
    assert IsDigit(t[0]);
    assert IsSignedDigits(t) && SignedValue(t) == n;
    ParseInt32Exactly(t);
  }
}

/** Decimal notation: how numbers are printed into statements and read from form values. */
module Decimals {
  import opened Wrappers

  predicate IsDigit(c: char) {
    '0' <= c <= '9'
  }

  function Digit(n: nat): char
    requires n < 10
  {
    "0123456789"[n]
  }

  function DigitValue(c: char): nat
    requires IsDigit(c)
  {
    c as int - '0' as int
  }

  function Decimal(n: nat): string {
    if n < 10 then [Digit(n)] else Decimal(n / 10) + [Digit(n % 10)]
  }

  /** The number that a text of digits denotes; leading zeros are allowed and the empty text is zero. */
  function DigitsValue(s: string): Option<nat> {
    if s == "" then Some(0)
    else
      var init := DigitsValue(s[..|s| - 1]);
      var last := s[|s| - 1];
      if init.None? || !IsDigit(last) then None else Some(10 * init.value + DigitValue(last))
  }

  lemma {:induction false} DecimalDenotes(n: nat)
    ensures DigitsValue(Decimal(n)) == Some(n)
    ensures Decimal(n) != "" && forall i | 0 <= i < |Decimal(n)| :: IsDigit(Decimal(n)[i])
  {
    var d := Decimal(n);
    if n < 10 {
      assert d[..0] == "";
      assert DigitValue(Digit(n)) == n;
    } else {
      DecimalDenotes(n / 10);
      assert d[..|d| - 1] == Decimal(n / 10);
      assert DigitValue(Digit(n % 10)) == n % 10;
    }
  }

  function Integer(n: int): string {
    if n < 0 then "-" + Decimal(-n) else Decimal(n)
  }

  /** The longest prefix of digits, and the rest. */
  function SpanDigits(text: string): (r: (string, string))
    ensures text == r.0 + r.1
  {
    if text == "" || !IsDigit(text[0]) then ("", text)
    else var (digits, rest) := SpanDigits(text[1..]); ([text[0]] + digits, rest)
  }

  lemma {:induction false} SpanDigitsFinds(digits: string, rest: string)
    requires forall i | 0 <= i < |digits| :: IsDigit(digits[i])
    requires rest == "" || !IsDigit(rest[0])
    ensures SpanDigits(digits + rest) == (digits, rest)
  {
    if digits == "" {
      assert digits + rest == rest;
    } else {
      assert (digits + rest)[1..] == digits[1..] + rest;
      SpanDigitsFinds(digits[1..], rest);
      assert digits == [digits[0]] + digits[1..];
    }
  }

  /** A number in the notation of `Decimal`, at the start of a text. */
  function ReadDecimal(text: string): Option<(nat, string)> {
    var (digits, rest) := SpanDigits(text);
    var value := DigitsValue(digits);
    if digits == "" || value.None? || Decimal(value.value) != digits then None else Some((value.value, rest))
  }

  lemma ReadDecimalOfDecimal(n: nat, rest: string)
    requires rest == "" || !IsDigit(rest[0])
    ensures ReadDecimal(Decimal(n) + rest) == Some((n, rest))
  {
    DecimalDenotes(n);
    SpanDigitsFinds(Decimal(n), rest);
  }
}

/** Decimal numerals: how Python prints a number, and reading one back. */
module Numerals {

  function DigitChar(d: nat): char
    requires d < 10
  {
    "0123456789"[d]
  }

  /** Decimal digits of `i`, without leading zeros. */
  function Decimal(i: nat): string
  {
    if i < 10 then [DigitChar(i)] else Decimal(i / 10) + [DigitChar(i % 10)]
  }

  /** `'%02d' % i`: at least two digits, padded with a leading zero. */
  function TwoDigits(i: nat): string
  {
    if i < 10 then "0" + Decimal(i) else Decimal(i)
  }

  function DigitValue(c: char): nat
  {
    if '0' <= c <= '9' then (c as int - '0' as int) else 0
  }

  /** The number a string of decimal digits denotes (leading zeros allowed). */
  function ParseDecimal(s: string): nat
  {
    if s == [] then 0 else 10 * ParseDecimal(s[..|s| - 1]) + DigitValue(s[|s| - 1])
  }

  lemma {:induction false} DecimalRoundTrip(i: nat)
    ensures ParseDecimal(Decimal(i)) == i
  {
    if i >= 10 {
      DecimalRoundTrip(i / 10);
      var s := Decimal(i);
      assert s[..|s| - 1] == Decimal(i / 10);
    }
  }

  /** Reading back a two-digit name gives the number it was made from. */
  lemma TwoDigitsRoundTrip(i: nat)
    ensures ParseDecimal(TwoDigits(i)) == i
  {
    DecimalRoundTrip(i);
    if i < 10 {
      var s := TwoDigits(i);
      assert s[..|s| - 1] == "0";
      assert ParseDecimal("0") == 10 * ParseDecimal("") + DigitValue('0');
    }
  }

  /** `str(i)` for any integer: a minus sign, then the digits of `-i`. */
  function IntToString(i: int): string
  {
    if i < 0 then "-" + Decimal(-i) else Decimal(i)
  }

  /** Only `1` prints as `"1"`. */
  lemma IntToStringOne(i: int)
    ensures IntToString(i) == "1" <==> i == 1
  {
    if i >= 0 && IntToString(i) == "1" {
      DecimalRoundTrip(i);
      assert ParseDecimal("1") == 10 * ParseDecimal("") + DigitValue('1');
    }
  }

  /** A printed number holds only digits, after an optional minus sign. */
  lemma {:induction false} IntToStringChars(i: int)
    ensures |IntToString(i)| > 0
    ensures forall k :: 0 <= k < |IntToString(i)| ==>
              ('0' <= IntToString(i)[k] <= '9') || (k == 0 && IntToString(i)[k] == '-')
  {
    DecimalChars(if i < 0 then -i else i);
  }

  lemma {:induction false} DecimalChars(i: nat)
    ensures |Decimal(i)| > 0
    ensures forall k :: 0 <= k < |Decimal(i)| ==> '0' <= Decimal(i)[k] <= '9'
  {
    if i >= 10 {
      DecimalChars(i / 10);
    }
  }
}

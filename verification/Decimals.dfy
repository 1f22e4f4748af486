/** Decimal digits of natural numbers: zero-padded fields, and reading them back. */
module Decimals {
  predicate IsDigit(c: char) {
    '0' <= c <= '9'
  }

  function Digit(n: nat): char
    requires n < 10
  {
    '0' + n as char
  }

  function DigitValue(c: char): int {
    c as int - '0' as int
  }

  /** The last `width` digits of `n`, zero-padded. */
  function Field(n: nat, width: nat): (s: string)
    ensures |s| == width
    ensures forall i :: 0 <= i < width ==> IsDigit(s[i])
  {
    if width == 0 then "" else Field(n / 10, width - 1) + [Digit(n % 10)]
  }

  /** The number a string of digits writes. */
  function Value(s: string): int {
    if s == "" then 0 else 10 * Value(s[..|s| - 1]) + DigitValue(s[|s| - 1])
  }

  function Pow10(width: nat): nat {
    if width == 0 then 1 else 10 * Pow10(width - 1)
  }

  lemma {:induction false} FieldValue(n: nat, width: nat)
    requires n < Pow10(width)
    ensures Value(Field(n, width)) == n
  {
    if width > 0 {
      FieldValue(n / 10, width - 1);
      assert Field(n, width)[..width - 1] == Field(n / 10, width - 1);
    }
  }

  /** The decimal form, as `String(n)` writes it. */
  function Decimal(n: nat): (s: string)
    ensures s != "" && forall i :: 0 <= i < |s| ==> IsDigit(s[i])
  {
    if n < 10 then [Digit(n)] else Decimal(n / 10) + [Digit(n % 10)]
  }

  lemma {:induction false} DecimalValue(n: nat)
    ensures Value(Decimal(n)) == n
  {
    if n >= 10 {
      DecimalValue(n / 10);
      assert Decimal(n)[..|Decimal(n)| - 1] == Decimal(n / 10);
    } else {
      assert [Digit(n)][..0] == "";
    }
  }

  lemma {:induction false} DecimalLength(n: nat)
    ensures n < Pow10(|Decimal(n)|)
    ensures n > 0 ==> Pow10(|Decimal(n)| - 1) <= n
  {
    if n >= 10 {
      DecimalLength(n / 10);
    }
  }

  lemma {:induction false} Pow10Grows(a: nat, b: nat)
    requires a <= b
    ensures Pow10(a) <= Pow10(b)
  {
    if a < b {
      Pow10Grows(a, b - 1);
    }
  }

  /** Numbers below 10^width are those of at most `width` digits. */
  lemma {:induction false} DecimalFits(n: nat, width: nat)
    requires width >= 1
    ensures |Decimal(n)| <= width <==> n < Pow10(width)
  {
    DecimalLength(n);
    if |Decimal(n)| <= width {
      Pow10Grows(|Decimal(n)|, width);
    } else if n > 0 {
      Pow10Grows(width, |Decimal(n)| - 1);
    }
  }
}

/** Python's `str(n)` for a non-negative integer, as used in the `Q{i+1}`
    numbering of the study guide, and reading the digits back. */
module Decimal {

  predicate IsDigit(c: char)
  {
    '0' <= c <= '9'
  }

  predicate IsDigits(s: string)
  {
    forall i :: 0 <= i < |s| ==> IsDigit(s[i])
  }

  function DigitChar(d: nat): (c: char)
    requires d < 10
    ensures IsDigit(c)
    ensures c as int - '0' as int == d
  {
    ('0' as int + d) as char
  }

  function DigitValue(c: char): (d: nat)
    requires IsDigit(c)
    ensures d < 10
  {
    c as int - '0' as int
  }

  /** The decimal digits of `n`, most significant first. */
  function ToDecimal(n: nat): (s: string)
    ensures |s| > 0 && IsDigits(s)
    ensures s[0] == '0' <==> n == 0
    ensures n == 0 ==> s == "0"
    decreases n
  {
    if n < 10 then [DigitChar(n)] else ToDecimal(n / 10) + [DigitChar(n % 10)]
  }

  /** The value of a digit string, most significant digit first. */
  function ParseDecimal(s: string): nat
    requires IsDigits(s)
    decreases |s|
  {
    if |s| == 0 then 0 else ParseDecimal(s[..|s| - 1]) * 10 + DigitValue(s[|s| - 1])
  }

  /** Reading the digits back gives the number: `ToDecimal` loses nothing. */
  lemma {:induction false} ParseToDecimal(n: nat)
    ensures ParseDecimal(ToDecimal(n)) == n
    decreases n
  {
    var s := ToDecimal(n);
    if n >= 10 {
      ParseToDecimal(n / 10);
      assert s[..|s| - 1] == ToDecimal(n / 10);
    }
  }

  /** Different numbers are written differently. */
  lemma ToDecimalInjective(a: nat, b: nat)
    ensures ToDecimal(a) == ToDecimal(b) ==> a == b
  {
    ParseToDecimal(a);
    ParseToDecimal(b);
  }
}

/** Decimal numerals, as `%d` and `%lu` print them. */
module Decimal {
  predicate IsDigit(c: char) { '0' <= c <= '9' }

  function Digit(d: nat): char
    requires d < 10
  {
    ((d + 48) as char)
  }

  function DigitValue(c: char): nat
    requires IsDigit(c)
  {
    (c as int) - 48
  }

  function Dec(n: nat): (s: string)
    ensures s != "" && forall i :: 0 <= i < |s| ==> IsDigit(s[i])
    ensures s[0] == '0' ==> |s| == 1
    ensures n > 0 ==> s[0] != '0'
  {
    if n < 10 then [Digit(n)] else Dec(n / 10) + [Digit(n % 10)]
  }

  function SignedDec(n: int): string {
    if n < 0 then "-" + Dec(-n) else Dec(n)
  }

  /** The number a string of digits denotes. */
  function Value(s: string): nat
    requires forall i :: 0 <= i < |s| ==> IsDigit(s[i])
  {
    if s == "" then 0 else 10 * Value(s[..|s| - 1]) + DigitValue(s[|s| - 1])
  }

  lemma {:induction false} ValueDec(n: nat)
    ensures Value(Dec(n)) == n
  {
    var s := Dec(n);
    if n < 10 {
      assert s[..|s| - 1] == "";
    } else {
      ValueDec(n / 10);
      assert s[..|s| - 1] == Dec(n / 10);
      assert s[|s| - 1] == Digit(n % 10);
    }
  }

  lemma {:induction false} DecBound(n: nat, digits: nat)
    requires n < Pow10(digits) && digits > 0
    ensures |Dec(n)| <= digits
  {
    if n >= 10 {
      DecBound(n / 10, digits - 1);
    }
  }

  function Pow10(k: nat): nat {
    if k == 0 then 1 else 10 * Pow10(k - 1)
  }
}

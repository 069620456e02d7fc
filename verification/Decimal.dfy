/**
  Decimal numerals, most significant digit first, with no leading zero.
 */
module Decimal {
  import opened Text

  function Digit(d: nat): char
    requires d < 10
  {
    ('0' as int + d) as char
  }

  predicate IsDigit(c: char) {
    '0' <= c <= '9'
  }

  function Dec(v: nat): (s: string)
    ensures |s| > 0 && forall i :: 0 <= i < |s| ==> IsDigit(s[i])
  {
    if v < 10 then [Digit(v)] else Dec(v / 10) + [Digit(v % 10)]
  }

  function DigitValue(c: char): nat
    requires IsDigit(c)
  {
    c as int - '0' as int
  }

  /** The value of a digit string. */
  function Value(s: string): nat
    requires forall i :: 0 <= i < |s| ==> IsDigit(s[i])
  {
    if s == "" then 0 else 10 * Value(s[..|s| - 1]) + DigitValue(s[|s| - 1])
  }

  lemma {:induction false} ValueOfDec(v: nat)
    ensures Value(Dec(v)) == v
  {
    var s := Dec(v);
    if v < 10 {
      assert s[..0] == "";
    } else {
      assert s[..|s| - 1] == Dec(v / 10);
      ValueOfDec(v / 10);
    }
  }

  function Pow10(n: nat): nat {
    if n == 0 then 1 else 10 * Pow10(n - 1)
  }

  lemma {:induction false} DecLength(v: nat, n: nat)
    requires n > 0 && v < Pow10(n)
    ensures |Dec(v)| <= n
    decreases n
  {
    if v < 10 {
    } else {
      DecLength(v / 10, n - 1);
    }
  }

  lemma DecWithout(v: nat, c: char)
    requires !IsDigit(c)
    ensures Without(Dec(v), c)
  {
  }
}

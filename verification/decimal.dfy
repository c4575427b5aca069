/** Decimal digit strings: their value, the longest digit prefix of a string, and the
    canonical rendering of a natural number (Python's `str(n)`, JavaScript's `String(n)`). */
module Decimal {

  predicate IsDigit(c: char)
  {
    '0' <= c <= '9'
  }

  predicate AllDigits(s: string)
  {
    forall i :: 0 <= i < |s| ==> IsDigit(s[i])
  }

  function DigitValue(c: char): nat
    requires IsDigit(c)
  {
    c as int - '0' as int
  }

  function DigitChar(d: nat): (c: char)
    requires d < 10
    ensures IsDigit(c) && DigitValue(c) == d
  {
    ('0' as int + d) as char
  }

  /** The number a string of decimal digits denotes, most significant digit first. */
  function Value(s: string): nat
    requires AllDigits(s)
  {
    if |s| == 0 then 0 else Value(s[..|s| - 1]) * 10 + DigitValue(s[|s| - 1])
  }

  /** Length of the longest prefix of `s` made of decimal digits (what `\d+` consumes). */
  function DigitRun(s: string): (n: nat)
    ensures n <= |s|
    ensures AllDigits(s[..n])
    ensures n == |s| || !IsDigit(s[n])
  {
    if |s| == 0 || !IsDigit(s[0]) then 0
    else
      var m := DigitRun(s[1..]);
      assert s[..1 + m] == [s[0]] + s[1..][..m];
      1 + m
  }

  /** The decimal rendering of `n`, without leading zeros. */
  function ToDecimal(n: nat): (s: string)
    ensures |s| > 0 && AllDigits(s)
    ensures |s| > 1 ==> s[0] != '0'
  {
    if n < 10 then [DigitChar(n)] else ToDecimal(n / 10) + [DigitChar(n % 10)]
  }

  /** Reading back a rendered number gives the number. */
  lemma {:induction false} ValueOfDecimal(n: nat)
    ensures Value(ToDecimal(n)) == n
  {
    if n >= 10 {
      var s := ToDecimal(n);
      assert s[..|s| - 1] == ToDecimal(n / 10);
      ValueOfDecimal(n / 10);
    }
  }

  /** A rendered number followed by text that does not start with a digit is read back whole. */
  lemma DigitRunOfDecimal(n: nat, rest: string)
    requires |rest| == 0 || !IsDigit(rest[0])
    ensures DigitRun(ToDecimal(n) + rest) == |ToDecimal(n)|
    ensures (ToDecimal(n) + rest)[..|ToDecimal(n)|] == ToDecimal(n)
  {
    var d := ToDecimal(n);
    DigitRunOfDigits(d, rest);
  }

  lemma {:induction false} DigitRunOfDigits(d: string, rest: string)
    requires AllDigits(d)
    requires |rest| == 0 || !IsDigit(rest[0])
    ensures DigitRun(d + rest) == |d|
  {
    if |d| > 0 {
      assert (d + rest)[1..] == d[1..] + rest;
      DigitRunOfDigits(d[1..], rest);
    } else {
      assert d + rest == rest;
    }
  }
}

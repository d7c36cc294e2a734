/**
  Decimal text of integers: reading a run of digits and writing a number
  with or without zero padding, as `strconv`, `fmt` and the time layouts do.
 */
module Numerals {
  predicate IsDigit(c: char) {
    '0' <= c <= '9'
  }

  predicate AllDigits(s: string) {
    forall i :: 0 <= i < |s| ==> IsDigit(s[i])
  }

  function DigitValue(c: char): int
    requires IsDigit(c)
  {
    c as int - '0' as int
  }

  function Digit(n: int): (c: char)
    requires 0 <= n <= 9
    ensures IsDigit(c) && DigitValue(c) == n
  {
    ('0' as int + n) as char
  }

  /** The value of a run of decimal digits. */
  function Number(s: string): (n: int)
    requires AllDigits(s)
    ensures 0 <= n
    decreases |s|
  {
    if s == [] then 0 else Number(s[..|s| - 1]) * 10 + DigitValue(s[|s| - 1])
  }

  /** Shortest decimal text of a natural number. */
  function Decimal(n: nat): (s: string)
    ensures AllDigits(s) && |s| >= 1
    decreases n
  {
    if n < 10 then [Digit(n)] else Decimal(n / 10) + [Digit(n % 10)]
  }

  /** `%d` of an integer. */
  function IntToString(i: int): string {
    if i < 0 then "-" + Decimal(-i) else Decimal(i)
  }

  /** Reading back the decimal text of a number gives the number. */
  lemma {:induction false} DecimalRoundTrip(n: nat)
    ensures Number(Decimal(n)) == n
    decreases n
  {
    if n >= 10 {
      DecimalRoundTrip(n / 10);
      var s := Decimal(n);
      assert s[..|s| - 1] == Decimal(n / 10);
    }
  }

  function Pad2(n: int): (s: string)
    requires 0 <= n < 100
    ensures |s| == 2 && AllDigits(s)
  {
    [Digit(n / 10), Digit(n % 10)]
  }

  function Pad4(n: int): (s: string)
    requires 0 <= n < 10000
    ensures |s| == 4 && AllDigits(s)
  {
    Pad2(n / 100) + Pad2(n % 100)
  }

  /** Two more digits on the right multiply the value of the rest by a hundred. */
  lemma NumberAppend2(a: string, b: string)
    requires AllDigits(a) && |b| == 2 && AllDigits(b)
    ensures Number(a + b) == Number(a) * 100 + Number(b)
  {
    var s := a + b;
    var a1 := a + b[..1];
    assert s[..|s| - 1] == a1 && s[|s| - 1] == b[1];
    assert a1[..|a1| - 1] == a && a1[|a1| - 1] == b[0];
    assert Number(a1) == Number(a) * 10 + DigitValue(b[0]);
    Number2(b);
  }

  lemma Number2(s: string)
    requires |s| == 2 && AllDigits(s)
    ensures Number(s) == DigitValue(s[0]) * 10 + DigitValue(s[1])
  {
    assert s[..1][..0] == [];
    assert Number(s[..1]) == DigitValue(s[0]);
  }

  lemma Pad2RoundTrip(n: int)
    requires 0 <= n < 100
    ensures Number(Pad2(n)) == n
  {
    Number2(Pad2(n));
  }

  /** Two digits are the padded text of their own value. */
  lemma Pad2Of(s: string)
    requires |s| == 2 && AllDigits(s)
    ensures Number(s) < 100 && Pad2(Number(s)) == s
  {
    Number2(s);
  }

  /** Four digits are the padded text of their own value. */
  lemma Pad4Of(s: string)
    requires |s| == 4 && AllDigits(s)
    ensures Number(s) < 10000 && Pad4(Number(s)) == s
  {
    var a, b := s[..2], s[2..];
    assert s == a + b;
    NumberAppend2(a, b);
    Pad2Of(a);
    Pad2Of(b);
    Split100(Number(a), Number(b));
  }

  lemma Split100(hi: int, lo: int)
    requires 0 <= lo < 100
    ensures (hi * 100 + lo) / 100 == hi && (hi * 100 + lo) % 100 == lo
  {
  }

  /** One digit is the digit of its own value. */
  lemma Digit1Of(s: string)
    requires |s| == 1 && AllDigits(s)
    ensures Number(s) < 10 && [Digit(Number(s))] == s
  {
    assert s[..0] == [];
  }

  lemma Pad4RoundTrip(n: int)
    requires 0 <= n < 10000
    ensures Number(Pad4(n)) == n
  {
    NumberAppend2(Pad2(n / 100), Pad2(n % 100));
    Pad2RoundTrip(n / 100);
    Pad2RoundTrip(n % 100);
  }
}

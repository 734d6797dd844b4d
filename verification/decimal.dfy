/** Decimal digit strings: Python's `'{}'.format(n)`, `'{:02}'.format(n)` and `int(s)`. */
module Decimal {

  predicate IsDigit(c: char)
  {
    '0' <= c <= '9'
  }

  predicate AllDigits(s: string)
  {
    forall i :: 0 <= i < |s| ==> IsDigit(s[i])
  }

  function DigitChar(d: nat): (c: char)
    requires d < 10
    ensures IsDigit(c)
  {
    ['0', '1', '2', '3', '4', '5', '6', '7', '8', '9'][d]
  }

  function DigitValue(c: char): (d: nat)
    requires IsDigit(c)
    ensures d < 10
  {
    (c as int - '0' as int) as nat
  }

  lemma DigitRoundTrip(d: nat)
    requires d < 10
    ensures DigitValue(DigitChar(d)) == d
  {
  }

  lemma CharOfDigit(c: char)
    requires IsDigit(c)
    ensures DigitChar(DigitValue(c)) == c
  {
  }

  /** The value of a string of decimal digits, read most significant digit first (`int(s)`). */
  function Value(s: string): (v: nat)
    requires AllDigits(s)
    ensures v < Pow10(|s|)
  {
    if s == [] then 0 else Value(s[..|s| - 1]) * 10 + DigitValue(s[|s| - 1])
  }

  lemma Value2(s: string)
    requires |s| == 2 && AllDigits(s)
    ensures Value(s) == 10 * DigitValue(s[0]) + DigitValue(s[1])
  {
    assert s[..1][..0] == [];
    assert s[..1][0] == s[0];
  }

  lemma DivMod10(hi: nat, lo: nat)
    requires lo < 10
    ensures (10 * hi + lo) / 10 == hi && (10 * hi + lo) % 10 == lo
  {
  }

  function Pow10(n: nat): (r: nat)
    ensures r >= 1
  {
    if n == 0 then 1 else 10 * Pow10(n - 1)
  }

  /** `'{}'.format(n)` for a non-negative integer: no leading zeros. */
  function NatToString(n: nat): (s: string)
    ensures |s| >= 1 && AllDigits(s)
    ensures |s| > 1 ==> s[0] != '0'
    ensures n < 10 ==> |s| == 1
    ensures 10 <= n < 100 ==> |s| == 2
    decreases n
  {
    if n < 10 then [DigitChar(n)] else NatToString(n / 10) + [DigitChar(n % 10)]
  }

  /** `'{}'.format(i)` for any integer: a minus sign, then the digits of the magnitude. */
  function IntToString(i: int): (s: string)
    ensures |s| >= 1
  {
    if i < 0 then "-" + NatToString(-i) else NatToString(i)
  }

  /** `'{:02}'.format(n)`: at least two digits, zero-padded. */
  function Pad2(n: nat): (s: string)
    ensures AllDigits(s) && |s| >= 2
    ensures n < 100 ==> |s| == 2
  {
    if n < 10 then ['0', DigitChar(n)] else NatToString(n)
  }

  lemma {:induction false} NatToStringRoundTrip(n: nat)
    ensures Value(NatToString(n)) == n
    decreases n
  {
    if n < 10 {
      DigitRoundTrip(n);
    } else {
      var s := NatToString(n);
      assert s[..|s| - 1] == NatToString(n / 10);
      NatToStringRoundTrip(n / 10);
      DigitRoundTrip(n % 10);
    }
  }

  lemma Pad2RoundTrip(n: nat)
    requires n < 100
    ensures Value(Pad2(n)) == n
  {
    if n < 10 {
      var s := Pad2(n);
      assert s[..1] == ['0'];
      assert Value(['0']) == 0 by { assert ['0'][..0] == []; }
      DigitRoundTrip(n);
    } else {
      NatToStringRoundTrip(n);
    }
  }

  lemma AllDigitsAppend(a: string, b: string)
    requires AllDigits(a) && AllDigits(b)
    ensures AllDigits(a + b)
  {
  }

  /** Reading a concatenation shifts the left part by the length of the right part. */
  lemma {:induction false} ValueAppend(a: string, b: string)
    requires AllDigits(a) && AllDigits(b)
    ensures AllDigits(a + b)
    ensures Value(a + b) == Value(a) * Pow10(|b|) + Value(b)
    decreases |b|
  {
    AllDigitsAppend(a, b);
    if b == [] {
      assert a + b == a;
    } else {
      var b' := b[..|b| - 1];
      var last := b[|b| - 1];
      assert AllDigits(b');
      AllDigitsAppend(a, b');
      ValueAppend(a, b');
      var x, p, y, d := Value(a), Pow10(|b'|), Value(b'), DigitValue(last);
      assert Value(a + b) == Value(a + b') * 10 + d by {
        assert (a + b)[..|a + b| - 1] == a + b';
        assert (a + b)[|a + b| - 1] == last;
      }
      assert Value(b) == y * 10 + d;
      assert Pow10(|b|) == 10 * p;
      MulShift(x, p, y, d);
    }
  }

  lemma MulShift(x: int, p: int, y: int, d: int)
    ensures (x * p + y) * 10 + d == x * (10 * p) + (y * 10 + d)
  {
  }
}

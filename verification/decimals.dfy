/** Decimal text of natural numbers, and its value. */
module Decimals {

  predicate IsDigit(c: char) {
    '0' <= c <= '9'
  }

  function Digit(d: nat): (c: char)
    requires d < 10
    ensures IsDigit(c) && DigitValue(c) == d
  {
    (('0' as int) + d) as char
  }

  function DigitValue(c: char): (d: nat)
    requires IsDigit(c)
    ensures d < 10
  {
    (c as int) - ('0' as int)
  }

  predicate AllDigits(text: string) {
    forall i :: 0 <= i < |text| ==> IsDigit(text[i])
  }

  function Decimal(n: nat): (text: string)
    ensures |text| > 0 && AllDigits(text)
  {
    if n < 10 then [Digit(n)] else Decimal(n / 10) + [Digit(n % 10)]
  }

  /** Value of a digit string, leading zeros allowed. */
  function DigitsValue(text: string): nat
    requires AllDigits(text)
  {
    if text == "" then 0
    else 10 * DigitsValue(text[..|text| - 1]) + DigitValue(text[|text| - 1])
  }

  lemma {:induction false} DecimalValue(n: nat)
    ensures DigitsValue(Decimal(n)) == n
  {
    if n < 10 {
      assert Decimal(n)[..0] == "";
    } else {
      DecimalValue(n / 10);
      assert Decimal(n)[..|Decimal(n)| - 1] == Decimal(n / 10);
    }
  }

  lemma DecimalInjective(m: nat, n: nat)
    requires Decimal(m) == Decimal(n)
    ensures m == n
  {
    DecimalValue(m);
    DecimalValue(n);
  }

  ghost predicate EndsNumber(rest: string) {
    rest != "" && !IsDigit(rest[0])
  }

  /** A number followed by something that is not a digit can be read back in one way only. */
  lemma DecimalCancel(m: nat, n: nat, x: string, y: string)
    requires EndsNumber(x) && EndsNumber(y)
    requires Decimal(m) + x == Decimal(n) + y
    ensures m == n && x == y
  {
    var a, b := Decimal(m), Decimal(n);
    assert (a + x)[|a|] == x[0] && (b + y)[|b|] == y[0];
    assert a == (a + x)[..|a|] == (b + y)[..|b|] == b;
    assert x == (a + x)[|a|..] == (b + y)[|b|..] == y;
    DecimalInjective(m, n);
  }

  /** Decimal text of an integer, with a minus sign when negative. */
  function IntegerText(n: int): (text: string)
    ensures |text| > 0
  {
    if n < 0 then "-" + Decimal(-n) else Decimal(n)
  }

  lemma SignText(n: int, x: string)
    ensures (IntegerText(n) + x)[0] == '-' <==> n < 0
    ensures n < 0 ==> (IntegerText(n) + x)[1..] == Decimal(-n) + x
  {
    assert (IntegerText(n) + x)[0] == IntegerText(n)[0];
    if n >= 0 {
      assert IsDigit(Decimal(n)[0]);
    }
  }

  lemma IntegerCancel(m: int, n: int, x: string, y: string)
    requires EndsNumber(x) && EndsNumber(y)
    requires IntegerText(m) + x == IntegerText(n) + y
    ensures m == n && x == y
  {
    SignText(m, x);
    SignText(n, y);
    if m < 0 {
      DecimalCancel(-m, -n, x, y);
    } else {
      DecimalCancel(m, n, x, y);
    }
  }
}

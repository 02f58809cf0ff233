/** Decimal notation, as `str` in Python and stream output in C++ produce it. */
module Decimal {

  predicate IsDigit(c: char) { '0' <= c <= '9' }

  function DigitChar(d: nat): (c: char)
    requires d < 10
    ensures IsDigit(c) && DigitValue(c) == d
  {
    (d + '0' as int) as char
  }

  function DigitValue(c: char): (d: nat)
    requires IsDigit(c)
    ensures d < 10
  {
    c as int - '0' as int
  }

  predicate AllDigits(w: string) {
    forall i :: 0 <= i < |w| ==> IsDigit(w[i])
  }

  function Digits(n: nat): (w: string)
    ensures w != [] && AllDigits(w)
    ensures n > 0 ==> w[0] != '0'
  {
    if n < 10 then [DigitChar(n)] else Digits(n / 10) + [DigitChar(n % 10)]
  }

  function Value(w: string): nat
    requires AllDigits(w)
  {
    if w == [] then 0 else 10 * Value(w[..|w| - 1]) + DigitValue(w[|w| - 1])
  }

  lemma {:induction false} ValueDigits(n: nat)
    ensures Value(Digits(n)) == n
  {
    if n >= 10 {
      ValueDigits(n / 10);
      assert Digits(n)[..|Digits(n)| - 1] == Digits(n / 10);
    }
  }

  lemma {:induction false} ValuePrefix(u: string, w: string)
    requires AllDigits(w) && u <= w
    ensures AllDigits(u) && Value(u) <= Value(w)
    decreases |w|
  {
    if |u| < |w| { ValuePrefix(u, w[..|w| - 1]); } else { assert u == w; }
  }

  /** A numeral without a leading zero. */
  predicate IsNumeral(w: string) {
    w != [] && AllDigits(w) && w[0] != '0'
  }

  lemma {:induction false} DigitsValue(w: string)
    requires IsNumeral(w)
    ensures Value(w) > 0 && Digits(Value(w)) == w
    decreases |w|
  {
    if |w| == 1 {
      assert w[..0] == "";
      assert w == [DigitChar(Value(w))];
    } else {
      var u := w[..|w| - 1];
      DigitsValue(u);
      assert w == u + [w[|w| - 1]];
    }
  }

  /** The text of an integer. */
  function IntText(n: int): string {
    if n < 0 then "-" + Digits(-n) else Digits(n)
  }

  /** It reads as the integer: digits without a leading zero, behind a minus sign for a negative one. */
  lemma IntTextReads(n: int)
    ensures var t := IntText(n);
            if n < 0 then t[0] == '-' && IsNumeral(t[1..]) && Value(t[1..]) == -n
            else AllDigits(t) && Value(t) == n && (IsNumeral(t) || t == "0")
  {
    if n < 0 {
      ValueDigits(-n);
      assert ("-" + Digits(-n))[1..] == Digits(-n);
    } else {
      ValueDigits(n);
    }
  }
}

/** Decimal rendering of integers, as Go's `%d` verb writes them (a leading
    '-' for negative values, no leading zeros), together with a parser that
    reads such a rendering back. The parser is the partner that shows the
    rendering loses nothing. */
module Decimal {

  predicate IsDigit(c: char) {
    '0' <= c <= '9'
  }

  predicate AllDigits(s: string) {
    forall i :: 0 <= i < |s| ==> IsDigit(s[i])
  }

  function DigitChar(d: nat): (c: char)
    requires d < 10
    ensures IsDigit(c)
    ensures c as int - '0' as int == d
  {
    ['0', '1', '2', '3', '4', '5', '6', '7', '8', '9'][d]
  }

  /** The decimal digits of a natural number, most significant first. */
  function Digits(n: nat): (s: string)
    ensures |s| > 0
    ensures AllDigits(s)
    decreases n
  {
    if n < 10 then [DigitChar(n)] else Digits(n / 10) + [DigitChar(n % 10)]
  }

  /** What `%d` prints for an integer. */
  function Show(n: int): (s: string)
    ensures |s| > 0
  {
    if n < 0 then "-" + Digits(-n) else Digits(n)
  }

  /** The value of a string of decimal digits. */
  function DigitsValue(s: string): nat
    requires AllDigits(s)
  {
    if |s| == 0 then 0
    else DigitsValue(s[..|s| - 1]) * 10 + (s[|s| - 1] as int - '0' as int)
  }

  datatype Parsed = NotANumber | Number(value: int)

  /** Reads an optionally negative decimal integer; anything else is
      `NotANumber`. */
  function Parse(s: string): Parsed {
    if |s| > 1 && s[0] == '-' && AllDigits(s[1..]) then Number(0 - DigitsValue(s[1..]) as int)
    else if |s| > 0 && AllDigits(s) then Number(DigitsValue(s))
    else NotANumber
  }

  lemma {:induction false} DigitsRoundTrip(n: nat)
    ensures DigitsValue(Digits(n)) == n
    decreases n
  {
    if n >= 10 {
      var s := Digits(n);
      assert s[..|s| - 1] == Digits(n / 10);
      DigitsRoundTrip(n / 10);
    }
  }

  lemma ParseDigits(digits: string)
    requires |digits| > 0 && AllDigits(digits)
    ensures Parse(digits) == Number(DigitsValue(digits))
    ensures Parse("-" + digits) == Number(0 - DigitsValue(digits) as int)
  {
    assert IsDigit(digits[0]);
    var neg := "-" + digits;
    assert neg[1..] == digits;
  }

  /** Printing a line number and reading it back gives the same number. */
  lemma ShowRoundTrip(n: int)
    ensures Parse(Show(n)) == Number(n)
  {
    var m: nat := if n < 0 then -n else n;
    var d := Digits(m);
    ParseDigits(d);
    DigitsRoundTrip(m);
    if n < 0 {
      assert Show(n) == "-" + d;
    } else {
      assert Show(n) == d;
    }
  }

  /** A rendering contains neither the separator of a log descriptor nor a
      line break. */
  lemma ShowHasNoSeparators(n: int)
    ensures ':' !in Show(n) && '\n' !in Show(n)
  {
    var s := Show(n);
    if n < 0 {
      assert s == "-" + Digits(-n);
      assert forall i :: 1 <= i < |s| ==> s[i] == Digits(-n)[i - 1];
    }
  }
}

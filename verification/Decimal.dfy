/** Decimal texts of integers: Python's `str(i)` and `int(s)`. */
module Decimal {
  import opened Common
  import opened Text

  function DigitChar(d: nat): (c: char)
    requires d < 10
    ensures IsDigit(c)
  {
    ('0' as int + d) as char
  }

  function DigitValue(c: char): nat
    requires IsDigit(c)
  {
    c as int - '0' as int
  }

  predicate AllDigits(s: string) { forall i :: 0 <= i < |s| ==> IsDigit(s[i]) }

  function Digits(n: nat): (s: string)
    ensures s != [] && AllDigits(s)
  {
    if n < 10 then [DigitChar(n)] else Digits(n / 10) + [DigitChar(n % 10)]
  }

  function DigitsValue(s: string): nat
    requires AllDigits(s)
  {
    if s == [] then 0 else 10 * DigitsValue(s[..|s| - 1]) + DigitValue(s[|s| - 1])
  }

  /** No leading zero, except for zero itself. */
  predicate Canonical(s: string) { s != [] && AllDigits(s) && (s[0] == '0' ==> |s| == 1) }

  /** Printing and reading a natural number: the text is canonical and gives the number back. */
  lemma {:induction false} DigitsRoundTrip(n: nat)
    ensures DigitsValue(Digits(n)) == n && Canonical(Digits(n)) && (Digits(n)[0] == '0' <==> n == 0)
  {
    var s := Digits(n);
    if n >= 10 {
      DigitsRoundTrip(n / 10);
      assert s[..|s| - 1] == Digits(n / 10);
    }
  }

  /** Reading and printing a canonical text. */
  lemma {:induction false} CanonicalRoundTrip(s: string)
    requires Canonical(s)
    ensures Digits(DigitsValue(s)) == s && (DigitsValue(s) == 0 <==> s == "0")
  {
    if |s| > 1 {
      var front := s[..|s| - 1];
      CanonicalRoundTrip(front);
      var d := DigitValue(s[|s| - 1]);
      assert (10 * DigitsValue(front) + d) / 10 == DigitsValue(front);
      assert s == front + [s[|s| - 1]];
    } else {
      assert DigitsValue(s[..0]) == 0;
    }
  }

  lemma DigitsInjective(m: nat, n: nat)
    requires Digits(m) == Digits(n)
    ensures m == n
  {
    DigitsRoundTrip(m);
    DigitsRoundTrip(n);
  }

  /** `str(i)`. */
  function IntText(i: int): (s: string)
    ensures s != []
  {
    if i < 0 then ['-'] + Digits(-i) else Digits(i)
  }

  /** `int(s)`: blanks around, an optional sign, then digits. */
  function ReadInt(s: string): Option<int> {
    var t := Strip(s);
    if t == [] then None
    else
      var signed := t[0] == '-' || t[0] == '+';
      var digits := if signed then t[1..] else t;
      if digits == [] || !AllDigits(digits) then None
      else
        var n: int := DigitsValue(digits);
        Some(if t[0] == '-' then -n else n)
  }

  /** The texts that `str` writes. */
  predicate CanonicalInt(s: string) {
    Canonical(s) || (|s| > 1 && s[0] == '-' && Canonical(s[1..]) && s != "-0")
  }

  lemma {:induction false} NothingToStrip(s: string)
    requires s != [] && !IsSpace(s[0]) && !IsSpace(s[|s| - 1])
    ensures Strip(s) == s
  {
  }

  lemma IntRoundTrip(i: int)
    ensures ReadInt(IntText(i)) == Some(i) && CanonicalInt(IntText(i))
  {
    var s := IntText(i);
    DigitsRoundTrip(if i < 0 then -i else i);
    NothingToStrip(s);
    if i < 0 {
      assert s[1..] == Digits(-i);
    }
  }

  lemma {:induction false} CanonicalIntRoundTrip(s: string)
    requires CanonicalInt(s)
    ensures ReadInt(s).Some? && IntText(ReadInt(s).value) == s
  {
    NothingToStrip(s);
    if Canonical(s) {
      CanonicalRoundTrip(s);
    } else {
      CanonicalRoundTrip(s[1..]);
      assert s == ['-'] + s[1..];
    }
  }
}

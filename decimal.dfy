/** Decimal rendering of natural numbers, as Python's `str(int)` and the `.2f`
    format specifier produce it for non-negative values. */
module Decimal {

  function DigitChar(d: nat): (c: char)
    requires d < 10
    ensures '0' <= c <= '9' && (c as int) - ('0' as int) == d
  {
    ('0' as int + d) as char
  }

  predicate IsDigit(c: char) {
    '0' <= c <= '9'
  }

  predicate AllDigits(s: string) {
    forall i :: 0 <= i < |s| ==> IsDigit(s[i])
  }

  /** The value of a string of decimal digits, most significant first. */
  function DigitsValue(s: string): nat
    requires AllDigits(s)
  {
    if s == [] then 0
    else DigitsValue(s[..|s| - 1]) * 10 + ((s[|s| - 1] as int) - ('0' as int))
  }

  /** The canonical decimal rendering: digits only, no leading zero. */
  function NatToString(n: nat): (s: string)
    ensures |s| >= 1 && AllDigits(s)
    ensures s[0] == '0' ==> s == "0"
    decreases n
  {
    if n < 10 then [DigitChar(n)] else NatToString(n / 10) + [DigitChar(n % 10)]
  }

  lemma {:induction false} NatToStringRoundTrip(n: nat)
    ensures DigitsValue(NatToString(n)) == n
  {
    if n >= 10 {
      var s := NatToString(n);
      assert s[..|s| - 1] == NatToString(n / 10);
      NatToStringRoundTrip(n / 10);
    }
  }

  /** A value in hundredths written with two decimals: `h / 100` as a
      canonical integer part, a point, then exactly two fraction digits. */
  function Fixed2(h: nat): (s: string)
    ensures |s| >= 4 && s[|s| - 3] == '.'
    ensures AllDigits(s[..|s| - 3]) && AllDigits(s[|s| - 2..])
    ensures DigitsValue(s[..|s| - 3]) * 100 + DigitsValue(s[|s| - 2..]) == h
    ensures s[0] == '0' ==> s[..|s| - 3] == "0"
  {
    var whole := NatToString(h / 100);
    var frac := [DigitChar(h / 10 % 10), DigitChar(h % 10)];
    PointSplit(whole, frac);
    NatToStringRoundTrip(h / 100);
    TwoDigits(h / 10 % 10, h % 10);
    HundredthsSplit(h);
    whole + "." + frac
  }

  lemma PointSplit(whole: string, frac: string)
    requires |whole| >= 1 && |frac| == 2
    ensures var s := whole + "." + frac;
            && |s| == |whole| + 3 && s[0] == whole[0]
            && s[..|s| - 3] == whole && s[|s| - 3] == '.' && s[|s| - 2..] == frac
  {
    var s := whole + "." + frac;
    assert s[..|s| - 3] == whole;
    assert s[|s| - 2..] == frac;
  }

  lemma TwoDigits(a: nat, b: nat)
    requires a < 10 && b < 10
    ensures AllDigits([DigitChar(a), DigitChar(b)])
    ensures DigitsValue([DigitChar(a), DigitChar(b)]) == 10 * a + b
  {
    var frac := [DigitChar(a), DigitChar(b)];
    var one := [DigitChar(a)];
    assert frac[..1] == one && one[..0] == [];
    assert DigitsValue([]) == 0;
    assert DigitsValue(one) == a;
  }

  lemma HundredthsSplit(h: nat)
    ensures (h / 100) * 100 + (10 * (h / 10 % 10) + h % 10) == h
  {
    assert h == (h / 10) * 10 + h % 10;
    assert h / 10 == (h / 10 / 10) * 10 + h / 10 % 10;
    assert h / 10 / 10 == h / 100;
  }
}

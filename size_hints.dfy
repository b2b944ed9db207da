/** The two display-size hints that the label pass stores on every node:
    `__cyto_width` from the longest wrapped line and `__cyto_height` from the
    number of wrapped lines (visualize.py:78-81). */
module SizeHints {
  import opened Decimal

  const EmSuffix: string := "em"

  /** `L / 1.5 + 3.5` rounded to the nearest hundredth, in hundredths.
      Exactly, `L / 1.5 + 3.5 == (4L + 21) / 6`, so the value in hundredths is
      `n / 3` with `n == (4L + 21) * 50`; its fraction is 0, 1/3 or 2/3. */
  function WidthHundredths(longest: nat): (h: nat)
    ensures var x := longest as real / 1.5 + 3.5;
            x - 1.0 / 300.0 <= h as real / 100.0 <= x + 1.0 / 300.0
    ensures h >= 350
  {
    var n := (4 * longest + 21) * 50;
    if n % 3 == 2 then n / 3 + 1 else n / 3
  }

  /** Rounding to two decimals never meets a tie: the hundredths value above
      is the only integer within half a hundredth of `L / 1.5 + 3.5`, so
      Python's round-half-even `.2f` formatting gives the same digits. */
  lemma NoRoundingTie(longest: nat, k: int)
    requires var x := longest as real / 1.5 + 3.5;
             x - 1.0 / 200.0 <= k as real / 100.0 <= x + 1.0 / 200.0
    ensures k == WidthHundredths(longest)
  {
    var n := (4 * longest + 21) * 50;
    var h := WidthHundredths(longest);
    assert longest as real / 1.5 + 3.5 == n as real / 300.0;
    assert -3.0 / 2.0 <= (3 * k - n) as real <= 3.0 / 2.0;
    assert -1 <= 3 * k - n <= 1;
    assert -1 <= 3 * h - n <= 1;
  }

  /** `f"{L / 1.5 + 3.5:.2f}em"` */
  function WidthHint(longest: nat): (s: string)
    ensures |s| >= 6 && s[|s| - 2..] == EmSuffix
    ensures var num := s[..|s| - 2];
            num[|num| - 3] == '.' && AllDigits(num[..|num| - 3]) && AllDigits(num[|num| - 2..]) &&
            DigitsValue(num[..|num| - 3]) * 100 + DigitsValue(num[|num| - 2..]) == WidthHundredths(longest)
    ensures s[0] != '0'
  {
    var f := Fixed2(WidthHundredths(longest));
    var s := f + EmSuffix;
    assert s[..|s| - 2] == f && s[0] == f[0];
    assert DigitsValue("0") == 0;
    s
  }

  /** `"{}em".format(lines + 3)` */
  function HeightHint(lineCount: nat): (s: string)
    ensures |s| >= 3 && s[|s| - 2..] == EmSuffix
    ensures AllDigits(s[..|s| - 2]) && DigitsValue(s[..|s| - 2]) == lineCount + 3
    ensures s[0] != '0'
  {
    var d := NatToString(lineCount + 3);
    var s := d + EmSuffix;
    assert s[..|s| - 2] == d && s[0] == d[0];
    NatToStringRoundTrip(lineCount + 3);
    assert DigitsValue("0") == 0;
    s
  }
}

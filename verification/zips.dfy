/**
 * ZIP codes. The search forms accept only five ASCII digits before either
 * engine runs; the engines then use both the string (for literal
 * comparisons) and its decimal value (for range tests).
 */
module Zips {

  predicate IsDigit(c: char) { '0' <= c <= '9' }

  predicate AllDigits(s: string) { forall i :: 0 <= i < |s| ==> IsDigit(s[i]) }

  /** A string that passes the `^\d{5}$` check. */
  type ZipCode = s: string | |s| == 5 && AllDigits(s) witness "00000"

  function Pow10(n: nat): (p: nat)
    ensures p >= 1
  {
    if n == 0 then 1 else 10 * Pow10(n - 1)
  }

  /** The decimal value of a digit string, as `parseInt(s, 10)` computes it. */
  function DigitsValue(s: string): (v: nat)
    requires AllDigits(s)
    ensures v < Pow10(|s|)
  {
    if s == [] then 0
    else 10 * DigitsValue(s[..|s| - 1]) + (s[|s| - 1] as int - '0' as int)
  }

  /** `v` written with exactly `width` digits, leading zeros included. */
  function PadDigits(v: nat, width: nat): (s: string)
    ensures |s| == width && AllDigits(s)
  {
    if width == 0 then [] else PadDigits(v / 10, width - 1) + [('0' as int + v % 10) as char]
  }

  lemma {:induction false} ValueOfPadDigits(v: nat, width: nat)
    requires v < Pow10(width)
    ensures DigitsValue(PadDigits(v, width)) == v
  {
    if width > 0 {
      ValueOfPadDigits(v / 10, width - 1);
      var s := PadDigits(v, width);
      assert s[..|s| - 1] == PadDigits(v / 10, width - 1);
    }
  }

  lemma {:induction false} PadDigitsOfValue(s: string)
    requires AllDigits(s)
    ensures PadDigits(DigitsValue(s), |s|) == s
  {
    if s != [] {
      var init := s[..|s| - 1];
      PadDigitsOfValue(init);
      assert s == init + [s[|s| - 1]];
    }
  }

  /** The decimal spelling of a natural number, as Python's `str` and JavaScript's `String` write it. */
  function NatString(n: nat): (s: string)
    ensures |s| > 0 && AllDigits(s)
    ensures s[0] == '0' ==> n == 0
  {
    if n < 10 then [('0' as int + n) as char]
    else NatString(n / 10) + [('0' as int + n % 10) as char]
  }

  lemma {:induction false} NatStringValue(n: nat)
    ensures DigitsValue(NatString(n)) == n
  {
    if n >= 10 {
      NatStringValue(n / 10);
      var s := NatString(n);
      assert s[..|s| - 1] == NatString(n / 10);
    }
  }

  lemma NatStringInjective(a: nat, b: nat)
    requires NatString(a) == NatString(b)
    ensures a == b
  {
    NatStringValue(a);
    NatStringValue(b);
  }

  /** The numeric value `parseInt(zip, 10)` of a validated ZIP code. */
  function ZipValue(zip: ZipCode): (v: nat)
    ensures v < 100000
  {
    DigitsValue(zip)
  }

  /** The five-digit spelling of a value below 100000. */
  function ZipOf(v: nat): (zip: ZipCode)
    requires v < 100000
    ensures ZipValue(zip) == v
  {
    ValueOfPadDigits(v, 5);
    PadDigits(v, 5)
  }

  function DigitValue(c: char): int { c as int - '0' as int }

  /** The value of a ZIP code, digit by digit. */
  lemma ZipValueByDigits(zip: ZipCode)
    ensures ZipValue(zip) == 10000 * DigitValue(zip[0]) + 1000 * DigitValue(zip[1]) + 100 * DigitValue(zip[2])
                           + 10 * DigitValue(zip[3]) + DigitValue(zip[4])
  {
    var s := zip;
    assert s[..4][..3] == s[..3] && s[..3][..2] == s[..2] && s[..2][..1] == s[..1] && s[..1][..0] == [];
    assert DigitsValue(s[..1]) == DigitValue(s[0]);
    assert DigitsValue(s[..2]) == 10 * DigitValue(s[0]) + DigitValue(s[1]);
    assert DigitsValue(s[..3]) == 100 * DigitValue(s[0]) + 10 * DigitValue(s[1]) + DigitValue(s[2]);
    assert DigitsValue(s[..4]) == 1000 * DigitValue(s[0]) + 100 * DigitValue(s[1]) + 10 * DigitValue(s[2])
                                + DigitValue(s[3]);
  }

  /** A ZIP code and its value determine each other. */
  lemma ZipOfValue(zip: ZipCode)
    ensures ZipOf(ZipValue(zip)) == zip
  {
    PadDigitsOfValue(zip);
  }

  /** An inclusive `{min, max}` range of ZIP values. */
  datatype ZipRange = ZipRange(min: int, max: int)

  predicate Covers(r: ZipRange, v: int) { r.min <= v <= r.max }

  /** `ranges.some(range => v >= range.min && v <= range.max)`. */
  predicate AnyCovers(ranges: seq<ZipRange>, v: int) {
    exists i :: 0 <= i < |ranges| && Covers(ranges[i], v)
  }
}

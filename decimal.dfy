/** Task ids are strings holding decimal numerals. `NumberOf` is the reading
    of an id as a number (`Number(td.id)`) and `NatToString` the writing of a
    number as an id (`String(n)`), both restricted to natural numbers. */
module Decimal {
  import opened Wrappers

  predicate IsDigit(c: char) {
    '0' <= c <= '9'
  }

  predicate AllDigits(s: string) {
    forall i :: 0 <= i < |s| ==> IsDigit(s[i])
  }

  /** A non-empty string of decimal digits. */
  predicate IsNumeral(s: string) {
    |s| > 0 && AllDigits(s)
  }

  /** A numeral as `String(n)` writes it: no leading zero unless it is "0". */
  predicate IsCanonical(s: string) {
    IsNumeral(s) && (|s| > 1 ==> s[0] != '0')
  }

  function DigitValue(c: char): (d: nat)
    requires IsDigit(c)
    ensures d < 10
  {
    c as int - '0' as int
  }

  function DigitChar(d: nat): (c: char)
    requires d < 10
    ensures IsDigit(c) && DigitValue(c) == d
  {
    ('0' as int + d) as char
  }

  function Pow10(k: nat): (p: nat)
    ensures p >= 1
  {
    if k == 0 then 1 else 10 * Pow10(k - 1)
  }

  /** The value of a digit string, most significant digit first: a string of
      k digits stands for less than 10^k. */
  function ValueOf(s: string): (v: nat)
    requires AllDigits(s)
    ensures v < Pow10(|s|)
  {
    if s == [] then 0
    else
      var p := s[..|s| - 1];
      var w := ValueOf(p);
      assert w * 10 + 9 < Pow10(|p|) * 10 by {
        assert w + 1 <= Pow10(|p|);
        assert (w + 1) * 10 <= Pow10(|p|) * 10;
      }
      w * 10 + DigitValue(s[|s| - 1])
  }

  /** A leading zero does not change the value, as with `Number("007")`. */
  lemma {:induction false} ValueOfLeadingZero(s: string)
    requires AllDigits(s)
    ensures ValueOf(['0'] + s) == ValueOf(s)
  {
    if s != [] {
      ValueOfLeadingZero(s[..|s| - 1]);
      assert (['0'] + s)[..|s|] == ['0'] + s[..|s| - 1];
    }
  }

  /** The numeric value of an id, or `None` when the id is not a numeral. */
  function NumberOf(id: string): (r: Option<nat>)
    ensures r.Some? <==> IsNumeral(id)
  {
    if IsNumeral(id) then Some(ValueOf(id)) else None
  }

  /** The decimal numeral of `n`. */
  function NatToString(n: nat): (s: string)
    ensures IsCanonical(s)
    ensures n < 10 <==> |s| == 1
  {
    if n < 10 then [DigitChar(n)] else NatToString(n / 10) + [DigitChar(n % 10)]
  }

  /** Reading back a written number gives that number. */
  lemma {:induction false} NumberOfNatToString(n: nat)
    ensures NumberOf(NatToString(n)) == Some(n)
  {
    var s := NatToString(n);
    if n >= 10 {
      NumberOfNatToString(n / 10);
      assert s[..|s| - 1] == NatToString(n / 10);
      assert ValueOf(s) == n / 10 * 10 + n % 10;
    } else {
      assert s[..0] == [];
    }
  }

  /** Distinct numbers are written as distinct ids. */
  lemma NatToStringInjective(m: nat, n: nat)
    requires NatToString(m) == NatToString(n)
    ensures m == n
  {
    NumberOfNatToString(m);
    NumberOfNatToString(n);
  }

  /** Writing back a number read from a canonical numeral gives that numeral:
      together with `NumberOfNatToString`, `NatToString` is a bijection between
      the naturals and the canonical numerals. */
  lemma {:induction false} NatToStringValueOf(s: string)
    requires IsCanonical(s)
    ensures NatToString(ValueOf(s)) == s
  {
    if |s| > 1 {
      var p := s[..|s| - 1];
      ValueAtLeast(p);
      NatToStringValueOf(p);
      var v := ValueOf(s);
      assert v / 10 == ValueOf(p) && v % 10 == DigitValue(s[|s| - 1]);
      assert DigitChar(v % 10) == s[|s| - 1];
    }
  }

  /** A canonical numeral of two or more digits stands for at least 10. */
  lemma {:induction false} ValueAtLeast(p: string)
    requires IsCanonical(p)
    ensures |p| > 1 ==> ValueOf(p) >= 10
    ensures ValueOf(p) >= 1 || |p| == 1
  {
    if |p| > 1 {
      var q := p[..|p| - 1];
      assert q[0] == p[0];
      ValueAtLeast(q);
    } else {
      assert ValueOf(p) == DigitValue(p[0]);
    }
  }
}

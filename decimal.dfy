/**
 * Decimal rendering of integers, as `std::to_string` and the `%d`
 * conversion of `snprintf` produce it: the digits of the magnitude, most
 * significant first, without leading zeros, after a '-' for a negative value.
 * `Parse` reads such a rendering back and is the partner of `Render`.
 */
module Decimal {
  import opened Wrappers

  predicate IsDigit(c: char) {
    '0' <= c <= '9'
  }

  function DigitChar(d: nat): (c: char)
    requires d < 10
    ensures IsDigit(c) && (c as int) - ('0' as int) == d
  {
    (('0' as int) + d) as char
  }

  /** The digits of `n`, most significant first; "0" for zero. */
  function NatDigits(n: nat): (s: string)
    ensures 1 <= |s| && AllDigits(s)
    ensures s[0] == '0' <==> n == 0
  {
    if n < 10 then [DigitChar(n)] else NatDigits(n / 10) + [DigitChar(n % 10)]
  }

  /** `std::to_string` of an integer. */
  function Render(i: int): (s: string)
    ensures 1 <= |s|
  {
    if i < 0 then "-" + NatDigits(-i) else NatDigits(i)
  }

  function DigitValue(c: char): (d: nat)
    requires IsDigit(c)
    ensures d < 10 && DigitChar(d) == c
  {
    (c as int) - ('0' as int)
  }

  predicate AllDigits(s: string) {
    forall i :: 0 <= i < |s| ==> IsDigit(s[i])
  }

  /** The value of a string of digits. */
  function DigitsValue(s: string): nat
    requires AllDigits(s)
  {
    if s == [] then 0 else DigitsValue(s[..|s| - 1]) * 10 + DigitValue(s[|s| - 1])
  }

  /** Reads a rendering back: an optional '-' and at least one digit. */
  function Parse(s: string): (r: Option<int>)
    ensures r.Some? ==> 1 <= |s|
  {
    if s != [] && s[0] == '-' then
      var t := s[1..];
      if t != [] && AllDigits(t) then Some(-(DigitsValue(t) as int)) else None
    else if s != [] && AllDigits(s) then Some(DigitsValue(s) as int)
    else None
  }

  lemma {:induction false} DigitsValueOfNat(n: nat)
    ensures DigitsValue(NatDigits(n)) == n
  {
    var s := NatDigits(n);
    if n < 10 {
      assert s[..0] == [];
    } else {
      assert s[..|s| - 1] == NatDigits(n / 10);
      DigitsValueOfNat(n / 10);
    }
  }

  /** Rendering is undone by parsing: the decimal form determines the value. */
  lemma ParseRender(i: int)
    ensures Parse(Render(i)) == Some(i)
  {
    var n: nat := if i < 0 then -i else i;
    var d := NatDigits(n);
    DigitsValueOfNat(n);
    if i < 0 {
      var s := "-" + d;
      assert s[0] == '-' && s[1..] == d;
    } else {
      assert d[0] != '-';
    }
  }

  /** Two integers render alike only if they are equal. */
  lemma RenderInjective(i: int, j: int)
    requires Render(i) == Render(j)
    ensures i == j
  {
    ParseRender(i);
    ParseRender(j);
  }
}

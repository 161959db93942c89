/**
 * Integer parsing of a salary cell, standing in for Python's `int(str)`:
 * an optional sign followed by one or more ASCII decimal digits.
 */
module Salaries {
  import opened Wrappers

  predicate IsDigit(c: char) {
    '0' <= c <= '9'
  }

  /** A non-empty run of decimal digits. */
  predicate IsDigits(s: string) {
    |s| > 0 && forall i :: 0 <= i < |s| ==> IsDigit(s[i])
  }

  /** The accepted lexical form: `[+-]? digit+`. */
  predicate IsIntLiteral(s: string) {
    IsDigits(s) || (|s| > 0 && (s[0] == '-' || s[0] == '+') && IsDigits(s[1..]))
  }

  function DigitValue(c: char): nat
    requires IsDigit(c)
  {
    (c as int) - ('0' as int)
  }

  function DigitChar(d: nat): (c: char)
    requires d < 10
    ensures IsDigit(c) && DigitValue(c) == d
  {
    ('0' as int + d) as char
  }

  /** Value of a digit string read most-significant digit first. */
  function DigitsValue(s: string): nat
    requires forall i :: 0 <= i < |s| ==> IsDigit(s[i])
    decreases |s|
  {
    if |s| == 0 then 0 else DigitsValue(s[..|s| - 1]) * 10 + DigitValue(s[|s| - 1])
  }

  function ParseNat(s: string): (r: Option<nat>)
    ensures r.Some? <==> IsDigits(s)
  {
    if IsDigits(s) then Some(DigitsValue(s)) else None
  }

  /** Parses a salary cell; `None` is the `ValueError` raised by `int()`. */
  function ParseInt(s: string): (r: Option<int>)
    ensures r.Some? <==> IsIntLiteral(s)
    ensures r.Some? && IsDigits(s) ==> r.value >= 0
    ensures r.Some? && s[0] == '-' ==> r.value <= 0
  {
    if |s| > 0 && s[0] == '-' then
      match ParseNat(s[1..])
      case Some(v) => Some(-(v as int))
      case None => None
    else if |s| > 0 && s[0] == '+' then
      match ParseNat(s[1..])
      case Some(v) => Some(v)
      case None => None
    else
      match ParseNat(s)
      case Some(v) => Some(v)
      case None => None
  }

  /** Canonical decimal rendering of a natural number. */
  function ShowNat(n: nat): (r: string)
    ensures IsDigits(r)
    decreases n
  {
    if n < 10 then [DigitChar(n)] else ShowNat(n / 10) + [DigitChar(n % 10)]
  }

  /** Canonical decimal rendering of an integer, as `str(int)` writes it. */
  function ShowInt(i: int): (r: string)
    ensures IsIntLiteral(r)
  {
    if i < 0 then "-" + ShowNat(-i) else ShowNat(i)
  }

  lemma {:induction false} DigitsValueShowNat(n: nat)
    ensures DigitsValue(ShowNat(n)) == n
    decreases n
  {
    if n >= 10 {
      var s := ShowNat(n);
      DigitsValueShowNat(n / 10);
      assert s[..|s| - 1] == ShowNat(n / 10);
    }
  }

  /** Parsing undoes rendering: every integer written out is read back unchanged. */
  lemma ParseShowInt(i: int)
    ensures ParseInt(ShowInt(i)) == Some(i)
  {
    if i < 0 {
      var s := ShowInt(i);
      assert s[1..] == ShowNat(-i);
      DigitsValueShowNat(-i);
    } else {
      DigitsValueShowNat(i);
      assert ShowInt(i)[0] != '-' && ShowInt(i)[0] != '+';
    }
  }

  /** A leading zero does not change the value of a digit string. */
  lemma {:induction false} DigitsValueLeadingZero(s: string)
    requires forall i :: 0 <= i < |s| ==> IsDigit(s[i])
    ensures DigitsValue("0" + s) == DigitsValue(s)
    decreases |s|
  {
    var z := "0" + s;
    if |s| > 0 {
      assert z[..|z| - 1] == "0" + s[..|s| - 1];
      DigitsValueLeadingZero(s[..|s| - 1]);
    } else {
      assert z[..|z| - 1] == [];
    }
  }

  /**
   * Every accepted cell has the value `int()` gives it: a leading zero or
   * a `+` sign leaves the value unchanged, and a `-` sign negates it (so
   * `-0` is zero). Together with `ParseShowInt` this fixes the value of
   * every cell that parses.
   */
  lemma ParseIntPadding(s: string)
    requires IsDigits(s)
    ensures ParseInt("0" + s) == ParseInt(s)
    ensures ParseInt("+" + s) == ParseInt(s)
    ensures ParseInt("-" + s) == Some(-ParseInt(s).value)
  {
    DigitsValueLeadingZero(s);
    assert ("0" + s)[0] == '0';
    assert IsDigits("0" + s);
    assert ("+" + s)[1..] == s;
    assert ("-" + s)[1..] == s;
    assert s[0] != '-' && s[0] != '+';
  }

  /** A cell that is not a number, or an empty one, is rejected. */
  lemma ParseRejectsWords()
    ensures ParseInt("abc") == None
    ensures ParseInt("") == None
    ensures ParseInt("-") == None
  {
    assert !IsDigit('a');
  }
}

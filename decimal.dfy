/**
 * Decimal text for positive whole numbers: the part of JavaScript's `Number(string)`
 * that turns a string of decimal digits into a value, and the part of
 * `Number.prototype.toString` that writes such a value back.
 */
module Decimal {

  predicate IsDigit(c: char)
  {
    '0' <= c <= '9'
  }

  predicate IsDigits(s: string)
  {
    forall i :: 0 <= i < |s| ==> IsDigit(s[i])
  }

  function DigitValue(c: char): (d: nat)
    requires IsDigit(c)
    ensures d < 10
  {
    c as int - '0' as int
  }

  function DigitChar(d: nat): (c: char)
    requires d < 10
    ensures IsDigit(c) && DigitValue(c) == d
  {
    ('0' as int + d) as char
  }

  /** The value of a string of decimal digits, most significant first; leading zeros add nothing. */
  function ParseNat(s: string): nat
    requires IsDigits(s)
    decreases |s|
  {
    if s == [] then 0 else 10 * ParseNat(s[..|s| - 1]) + DigitValue(s[|s| - 1])
  }

  /** The shortest decimal form of `n`: never empty, and without a leading zero unless `n` is 0. */
  function NatToString(n: nat): (s: string)
    ensures |s| > 0 && IsDigits(s)
    ensures s[0] == '0' <==> n == 0
    decreases n
  {
    if n < 10 then [DigitChar(n)] else NatToString(n / 10) + [DigitChar(n % 10)]
  }

  /** Reading back what `NatToString` wrote gives the number again. */
  lemma {:induction false} ParseNatToString(n: nat)
    ensures ParseNat(NatToString(n)) == n
    decreases n
  {
    if n >= 10 {
      ParseNatToString(n / 10);
      var s := NatToString(n);
      assert s[..|s| - 1] == NatToString(n / 10);
    }
  }

  /** A digit string is positive exactly when one of its digits is not 0. */
  lemma {:induction false} ParseNatPositive(s: string)
    requires IsDigits(s)
    ensures ParseNat(s) > 0 <==> exists i :: 0 <= i < |s| && s[i] != '0'
    decreases |s|
  {
    if s != [] {
      var init := s[..|s| - 1];
      ParseNatPositive(init);
      if ParseNat(init) > 0 {
        var i :| 0 <= i < |init| && init[i] != '0';
        assert s[i] != '0';
      } else if s[|s| - 1] == '0' {
        forall i | 0 <= i < |s| ensures s[i] == '0' {
          if i < |init| { assert s[i] == init[i]; }
        }
      }
    }
  }

  /** A digit string without a leading zero is at least 10 once it has two digits. */
  lemma {:induction false} ParseNatLowerBound(s: string)
    requires IsDigits(s) && |s| > 0 && s[0] != '0'
    ensures ParseNat(s) > 0
    ensures |s| > 1 ==> ParseNat(s) >= 10
    decreases |s|
  {
    if |s| > 1 {
      var init := s[..|s| - 1];
      ParseNatLowerBound(init);
    }
  }

  /** Writing out the value of a digit string without a leading zero gives the string back. */
  lemma {:induction false} NatToStringOfParse(s: string)
    requires IsDigits(s) && |s| > 0
    requires s[0] != '0' || |s| == 1
    ensures NatToString(ParseNat(s)) == s
    decreases |s|
  {
    var n := ParseNat(s);
    if |s| == 1 {
      assert s[..0] == [];
    } else {
      var init := s[..|s| - 1];
      ParseNatLowerBound(s);
      NatToStringOfParse(init);
      assert n / 10 == ParseNat(init);
      assert n % 10 == DigitValue(s[|s| - 1]);
      assert s == init + [s[|s| - 1]];
    }
  }
}

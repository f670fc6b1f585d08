/** How a JavaScript number that holds an integer is written when it is
    concatenated into a string ("Page " + 2), and the reading back that
    shows the writing loses nothing. */
module Decimal {
  import opened Wrappers

  predicate IsDigit(c: char) {
    '0' <= c <= '9'
  }

  /** A non-empty run of decimal digits. */
  predicate IsDigits(s: string) {
    |s| > 0 && forall i :: 0 <= i < |s| ==> IsDigit(s[i])
  }

  /** A digit run as a number is written: no leading zero unless the run is
      the single digit zero. */
  predicate IsCanonicalDigits(s: string) {
    IsDigits(s) && (s[0] == '0' ==> |s| == 1)
  }

  function DigitChar(d: nat): (c: char)
    requires d < 10
    ensures IsDigit(c) && c as int - '0' as int == d
  {
    ('0' as int + d) as char
  }

  /** The shortest decimal spelling of `n`: digits only, and no leading
      zero unless `n` is zero. */
  function NatToString(n: nat): (r: string)
    ensures IsDigits(r)
    ensures r[0] == '0' <==> n == 0
    ensures n < 10 <==> |r| == 1
    decreases n
  {
    if n < 10 then [DigitChar(n)]
    else NatToString(n / 10) + [DigitChar(n % 10)]
  }

  /** The value of a run of digits, most significant first. */
  function DigitsValue(s: string): nat
    requires forall i :: 0 <= i < |s| ==> IsDigit(s[i])
  {
    if s == [] then 0
    else
      assert IsDigit(s[|s| - 1]);
      DigitsValue(s[..|s| - 1]) * 10 + (s[|s| - 1] as int - '0' as int)
  }

  lemma {:induction false} DigitsValueOfNatToString(n: nat)
    ensures DigitsValue(NatToString(n)) == n
    decreases n
  {
    if n >= 10 {
      var r := NatToString(n);
      assert r[..|r| - 1] == NatToString(n / 10);
      DigitsValueOfNatToString(n / 10);
    }
  }

  /** `String(i)` for an integer-valued number: a minus sign, then the digits
      of the magnitude. */
  function IntToString(i: int): (r: string)
    ensures forall k :: 0 <= k < |r| ==> IsDigit(r[k]) || (k == 0 && r[k] == '-')
    ensures |r| > 0 && (r[0] == '-' <==> i < 0)
    ensures i >= 0 ==> IsCanonicalDigits(r)
    ensures i < 0 ==> IsCanonicalDigits(r[1..]) && r[1] != '0'
  {
    if i < 0 then "-" + NatToString(-i) else NatToString(i)
  }

  /** Reads a number spelt the way `IntToString` spells one: an optional
      minus sign, then digits with no leading zero, and never "-0". */
  function ParseInt(s: string): Option<int> {
    if |s| > 0 && s[0] == '-' then
      if IsCanonicalDigits(s[1..]) && s[1] != '0' then Some(0 - DigitsValue(s[1..]) as int) else None
    else if IsCanonicalDigits(s) then Some(DigitsValue(s))
    else None
  }

  /** Writing an integer and reading it back gives the same integer, so
      two different integers are never written the same way. */
  lemma IntToStringRoundTrip(i: int)
    ensures ParseInt(IntToString(i)) == Some(i)
  {
    if i < 0 {
      assert IntToString(i)[1..] == NatToString(-i);
      DigitsValueOfNatToString(-i);
    } else {
      DigitsValueOfNatToString(i);
    }
  }

  /** A run of digits that does not start with '0' has a value of at least 1,
      and of at least 10 when it has two digits or more. */
  lemma {:induction false} LeadingNonZero(s: string)
    requires IsDigits(s) && s[0] != '0'
    ensures DigitsValue(s) >= 1
    ensures |s| > 1 ==> DigitsValue(s) >= 10
    decreases |s|
  {
    var p := s[..|s| - 1];
    if |s| == 1 {
      assert p == [];
    } else {
      assert p[0] == s[0];
      LeadingNonZero(p);
    }
  }

  /** A canonical run of digits is exactly how its own value is written. */
  lemma {:induction false} NatToStringOfDigits(s: string)
    requires IsCanonicalDigits(s)
    ensures NatToString(DigitsValue(s)) == s
    decreases |s|
  {
    var p := s[..|s| - 1];
    var d := s[|s| - 1] as int - '0' as int;
    assert IsDigit(s[|s| - 1]);
    if |s| == 1 {
      assert p == [];
      assert [DigitChar(d)] == s;
    } else {
      assert p[0] == s[0];
      LeadingNonZero(s);
      NatToStringOfDigits(p);
      assert s == p + [DigitChar(d)];
    }
  }

  /** Only the spellings `IntToString` produces are read: whatever
      `ParseInt` accepts is the one way its value is written. */
  lemma ParseIntOnlyCanonical(s: string, i: int)
    requires ParseInt(s) == Some(i)
    ensures s == IntToString(i)
  {
    if |s| > 0 && s[0] == '-' {
      LeadingNonZero(s[1..]);
      NatToStringOfDigits(s[1..]);
      assert s == "-" + s[1..];
    } else {
      NatToStringOfDigits(s);
    }
  }
}

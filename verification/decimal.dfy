/** Decimal digit strings: the character test behind `Char.isDigit()`, the
    base-10 value behind `String.toInt()` on a digit string, and the canonical
    decimal rendering of a natural number (no leading zeros). */
module Decimal {

  /** An ASCII decimal digit. (Kotlin's `isDigit` also accepts the other
      Unicode decimal digits; this model keeps to '0'..'9'.) */
  predicate IsDigit(c: char) {
    '0' <= c <= '9'
  }

  /** Every character of `s` is a digit; true of the empty string. */
  predicate IsDigitString(s: string) {
    forall i :: 0 <= i < |s| ==> IsDigit(s[i])
  }

  /** A digit string without a superfluous leading zero: "0" itself is
      canonical, "01" and "00" are not. */
  predicate NoLeadingZero(s: string) {
    !(|s| > 1 && s[0] == '0')
  }

  function DigitValue(c: char): (v: nat)
    requires IsDigit(c)
    ensures v < 10
    ensures c == '0' <==> v == 0
  {
    c as int - '0' as int
  }

  function DigitChar(v: nat): (c: char)
    requires v < 10
    ensures IsDigit(c) && DigitValue(c) == v
  {
    (v + '0' as int) as char
  }

  function Pow10(k: nat): (p: nat)
    ensures p >= 1
  {
    if k == 0 then 1 else 10 * Pow10(k - 1)
  }

  /** The base-10 value of a digit string, read left to right; a string of
      `k` digits denotes a value below 10^k. */
  function DecValue(s: string): (v: nat)
    requires IsDigitString(s)
    ensures v < Pow10(|s|)
  {
    if s == [] then 0 else DecValue(s[..|s| - 1]) * 10 + DigitValue(s[|s| - 1])
  }

  /** The canonical decimal form of `n`: a non-empty digit string without a
      leading zero whose value is `n`. */
  function NatToDec(n: nat): (s: string)
    ensures |s| >= 1 && IsDigitString(s) && NoLeadingZero(s)
    ensures DecValue(s) == n
  {
    if n < 10 then [DigitChar(n)]
    else
      var prefix := NatToDec(n / 10);
      var s := prefix + [DigitChar(n % 10)];
      assert s[..|s| - 1] == prefix;
      s
  }

  /** Appending a digit multiplies the value by ten and adds the digit. */
  lemma DecValueSnoc(p: string, c: char)
    requires IsDigitString(p) && IsDigit(c)
    ensures IsDigitString(p + [c])
    ensures DecValue(p + [c]) == DecValue(p) * 10 + DigitValue(c)
  {
    assert (p + [c])[..|p|] == p;
  }

  /** The value of a digit string of at most three digits, digit by digit. */
  lemma ShortDecValue(s: string)
    requires IsDigitString(s) && 1 <= |s| <= 3
    ensures |s| == 1 ==> DecValue(s) == DigitValue(s[0])
    ensures |s| == 2 ==> DecValue(s) == 10 * DigitValue(s[0]) + DigitValue(s[1])
    ensures |s| == 3 ==> DecValue(s) == 100 * DigitValue(s[0]) + 10 * DigitValue(s[1]) + DigitValue(s[2])
  {
    var p := s[..|s| - 1];
    if |s| >= 2 {
      var q := p[..|p| - 1];
      if |s| == 3 {
        assert DecValue(q[..|q| - 1]) == 0;
      }
    }
  }

  /** A digit string that does not start with '0' has value at least
      10^(length - 1): it has no shorter spelling. */
  lemma {:induction false} LeadingDigitBound(s: string)
    requires IsDigitString(s) && |s| >= 1 && s[0] != '0'
    ensures DecValue(s) >= Pow10(|s| - 1)
  {
    if |s| > 1 {
      var prefix := s[..|s| - 1];
      LeadingDigitBound(prefix);
    }
  }

  /** A canonical digit string is at most three characters long when its
      value is at most 255. */
  lemma ByteSizedIsShort(s: string)
    requires IsDigitString(s) && |s| >= 1 && NoLeadingZero(s)
    requires DecValue(s) <= 255
    ensures |s| <= 3
  {
    if |s| > 3 {
      LeadingDigitBound(s);
      Pow10Monotone(3, |s| - 1);
    }
  }

  lemma {:induction false} Pow10Monotone(j: nat, k: nat)
    requires j <= k
    ensures Pow10(j) <= Pow10(k)
  {
    if j < k {
      Pow10Monotone(j, k - 1);
    }
  }

  /** Reading back a canonical digit string and rendering the value again
      gives the same string: `NatToDec` is onto the canonical digit strings. */
  lemma {:induction false} NatToDecOfDecValue(s: string)
    requires IsDigitString(s) && |s| >= 1 && NoLeadingZero(s)
    ensures NatToDec(DecValue(s)) == s
  {
    if |s| > 1 {
      var prefix := s[..|s| - 1];
      LeadingDigitBound(prefix);
      NatToDecOfDecValue(prefix);
      var n := DecValue(s);
      assert n / 10 == DecValue(prefix) && n % 10 == DigitValue(s[|s| - 1]);
      assert s == prefix + [s[|s| - 1]];
    }
  }
}

/** The IPv4 dotted-decimal validator `isValidIPv4` of
    src/main/kotlin/IPv4Checker.kt, as a predicate on strings, its loop form
    as a method, and what acceptance means for the input string. */
module IPv4Checker {
  import opened Decimal
  import opened Text

  /** The four checks the loop body applies to one segment, in the order it
      applies them: non-empty, all digits, no leading zero, value in 0..255.
      The value is the mathematical one; see module AsWritten for the 32-bit
      `toInt` the source calls. */
  predicate SegmentOk(segment: string) {
    |segment| != 0
    && IsDigitString(segment)
    && NoLeadingZero(segment)
    && 0 <= DecValue(segment) <= 255
  }

  /** `isValidIPv4`: reject the empty string, split on the literal '.',
      demand exactly four segments and that every segment passes the checks. */
  predicate IsValidIPv4(ip: string) {
    if |ip| == 0 then false
    else
      var segments := Split(ip, '.');
      if |segments| != 4 then false
      else forall i :: 0 <= i < |segments| ==> SegmentOk(segments[i])
  }

  /** The same validator written as the source writes it: a loop over the
      segments that returns `false` at the first segment failing a check. */
  method CheckIPv4(ip: string) returns (ok: bool)
    ensures ok <==> IsValidIPv4(ip)
  {
    if |ip| == 0 {
      return false;
    }
    var segments := Split(ip, '.');
    if |segments| != 4 {
      return false;
    }
    for i := 0 to |segments|
      invariant forall j :: 0 <= j < i ==> SegmentOk(segments[j])
    {
      var segment := segments[i];
      if |segment| == 0 {
        return false;
      }
      if !IsDigitString(segment) {
        return false;
      }
      if |segment| > 1 && segment[0] == '0' {
        return false;
      }
      var value := DecValue(segment);
      if !(0 <= value <= 255) {
        return false;
      }
    }
    return true;
  }

  /** The canonical text of four octets: their decimal forms without leading
      zeros, joined by dots. */
  function Format(a: nat, b: nat, c: nat, d: nat): string {
    NatToDec(a) + "." + NatToDec(b) + "." + NatToDec(c) + "." + NatToDec(d)
  }

  /** The octet values of an accepted address, in order. */
  function Octets(ip: string): (r: seq<nat>)
    requires IsValidIPv4(ip)
    ensures |r| == 4 && forall i :: 0 <= i < 4 ==> r[i] <= 255
  {
    var s := Split(ip, '.');
    [DecValue(s[0]), DecValue(s[1]), DecValue(s[2]), DecValue(s[3])]
  }

  lemma JoinFour(a: string, b: string, c: string, d: string)
    ensures Join([a, b, c, d], '.') == a + "." + b + "." + c + "." + d
  {
    assert [a, b, c, d][1..] == [b, c, d];
    assert [b, c, d][1..] == [c, d];
    assert [c, d][1..] == [d];
    var cd := c + "." + d;
    assert Join([c, d], '.') == cd;
    var bcd := b + "." + cd;
    assert Join([b, c, d], '.') == bcd;
    assert bcd == b + "." + c + "." + d;
    assert Join([a, b, c, d], '.') == a + "." + bcd;
  }

  lemma DigitStringHasNoDot(s: string)
    requires IsDigitString(s)
    ensures '.' !in s
  {
  }

  /** Splitting four dot-free strings joined by dots gives them back. */
  lemma SplitFour(a: string, b: string, c: string, d: string)
    requires '.' !in a && '.' !in b && '.' !in c && '.' !in d
    ensures Split(a + "." + b + "." + c + "." + d, '.') == [a, b, c, d]
  {
    JoinFour(a, b, c, d);
    SplitJoin([a, b, c, d], '.');
  }

  /** An accepted string is its segments joined by dots. */
  lemma AcceptedIsJoin(ip: string)
    requires IsValidIPv4(ip)
    ensures var s := Split(ip, '.'); ip == s[0] + "." + s[1] + "." + s[2] + "." + s[3]
  {
    var s := Split(ip, '.');
    JoinSplit(ip, '.');
    assert s == [s[0], s[1], s[2], s[3]];
    JoinFour(s[0], s[1], s[2], s[3]);
  }

  /** Round trip from octets to text: four values in 0..255 in canonical
      decimal form are accepted, split into exactly those four forms, and
      read back as the same four values. */
  lemma {:induction false} FormatAccepted(a: nat, b: nat, c: nat, d: nat)
    requires a <= 255 && b <= 255 && c <= 255 && d <= 255
    ensures Split(Format(a, b, c, d), '.') == [NatToDec(a), NatToDec(b), NatToDec(c), NatToDec(d)]
    ensures IsValidIPv4(Format(a, b, c, d))
    ensures Octets(Format(a, b, c, d)) == [a, b, c, d]
  {
    DigitStringHasNoDot(NatToDec(a));
    DigitStringHasNoDot(NatToDec(b));
    DigitStringHasNoDot(NatToDec(c));
    DigitStringHasNoDot(NatToDec(d));
    SplitFour(NatToDec(a), NatToDec(b), NatToDec(c), NatToDec(d));
  }

  /** Round trip from text to octets: an accepted string is exactly the
      canonical text of its octets, so each accepted address has one
      spelling. */
  lemma {:induction false} AcceptedIsCanonical(ip: string)
    requires IsValidIPv4(ip)
    ensures ip == Format(Octets(ip)[0], Octets(ip)[1], Octets(ip)[2], Octets(ip)[3])
  {
    var s := Split(ip, '.');
    AcceptedIsJoin(ip);
    assert SegmentOk(s[0]) && SegmentOk(s[1]) && SegmentOk(s[2]) && SegmentOk(s[3]);
    NatToDecOfDecValue(s[0]);
    NatToDecOfDecValue(s[1]);
    NatToDecOfDecValue(s[2]);
    NatToDecOfDecValue(s[3]);
  }

  /** Soundness and completeness piece by piece: dot-free pieces joined by
      dots are accepted exactly when there are four of them and each passes
      the segment checks. */
  lemma {:induction false} JoinedPiecesValid(parts: seq<string>)
    requires |parts| >= 1
    requires forall i :: 0 <= i < |parts| ==> '.' !in parts[i]
    ensures IsValidIPv4(Join(parts, '.')) <==> |parts| == 4 && forall i :: 0 <= i < 4 ==> SegmentOk(parts[i])
  {
    SplitJoin(parts, '.');
    if |parts| == 4 {
      assert parts == [parts[0], parts[1], parts[2], parts[3]];
      JoinFour(parts[0], parts[1], parts[2], parts[3]);
    }
  }

  /** The empty string is rejected. */
  lemma EmptyRejected()
    ensures !IsValidIPv4("")
  {
  }

  /** A string without exactly three dots splits into some other number of
      segments than four and is rejected. */
  lemma {:induction false} WrongDotCountRejected(ip: string)
    requires Count(ip, '.') != 3
    ensures !IsValidIPv4(ip)
  {
  }

  /** Every character of an accepted string is an ASCII digit or a dot, and
      there are exactly three dots. */
  lemma {:induction false} AcceptedAlphabet(ip: string)
    requires IsValidIPv4(ip)
    ensures forall k :: 0 <= k < |ip| ==> IsDigit(ip[k]) || ip[k] == '.'
    ensures Count(ip, '.') == 3
  {
    var s := Split(ip, '.');
    AcceptedIsJoin(ip);
    assert SegmentOk(s[0]) && SegmentOk(s[1]) && SegmentOk(s[2]) && SegmentOk(s[3]);
    forall k | 0 <= k < |ip|
      ensures IsDigit(ip[k]) || ip[k] == '.'
    {
      var n0, n1, n2 := |s[0]|, |s[1]|, |s[2]|;
      if k < n0 {
        assert ip[k] == s[0][k];
      } else if k == n0 || k == n0 + 1 + n1 || k == n0 + n1 + n2 + 2 {
      } else if k < n0 + 1 + n1 {
        assert ip[k] == s[1][k - n0 - 1];
      } else if k < n0 + n1 + n2 + 2 {
        assert ip[k] == s[2][k - n0 - n1 - 2];
      } else {
        assert ip[k] == s[3][k - n0 - n1 - n2 - 3];
      }
    }
  }

  /** An accepted string has no empty segment: it neither starts nor ends
      with a dot and holds no two adjacent dots. */
  lemma {:induction false} AcceptedHasNoEmptySegment(ip: string)
    requires IsValidIPv4(ip)
    ensures ip[0] != '.' && ip[|ip| - 1] != '.'
    ensures forall k :: 0 <= k < |ip| - 1 && ip[k] == '.' ==> ip[k + 1] != '.'
  {
    var s := Split(ip, '.');
    AcceptedIsJoin(ip);
    assert SegmentOk(s[0]) && SegmentOk(s[1]) && SegmentOk(s[2]) && SegmentOk(s[3]);
    DigitStringHasNoDot(s[0]);
    DigitStringHasNoDot(s[1]);
    DigitStringHasNoDot(s[2]);
    DigitStringHasNoDot(s[3]);
    var n0, n1, n2 := |s[0]|, |s[1]|, |s[2]|;
    assert ip[0] == s[0][0];
    assert ip[|ip| - 1] == s[3][|s[3]| - 1];
    forall k | 0 <= k < |ip| - 1
      ensures ip[k] == '.' ==> ip[k + 1] != '.'
    {
      if k < n0 {
        assert ip[k] == s[0][k];
      } else if k == n0 {
        assert ip[k + 1] == s[1][0];
      } else if k < n0 + 1 + n1 {
        assert ip[k] == s[1][k - n0 - 1];
      } else if k == n0 + 1 + n1 {
        assert ip[k + 1] == s[2][0];
      } else if k < n0 + n1 + n2 + 2 {
        assert ip[k] == s[2][k - n0 - n1 - 2];
      } else if k == n0 + n1 + n2 + 2 {
        assert ip[k + 1] == s[3][0];
      } else {
        assert ip[k] == s[3][k - n0 - n1 - n2 - 3];
      }
    }
  }

  /** Each segment of an accepted string is one to three digits long, so an
      accepted string is 7 to 15 characters long. */
  lemma {:induction false} AcceptedLength(ip: string)
    requires IsValidIPv4(ip)
    ensures 7 <= |ip| <= 15
    ensures forall i :: 0 <= i < 4 ==> 1 <= |Split(ip, '.')[i]| <= 3
  {
    var s := Split(ip, '.');
    AcceptedIsJoin(ip);
    forall i | 0 <= i < 4
      ensures 1 <= |s[i]| <= 3
    {
      assert SegmentOk(s[i]);
      ByteSizedIsShort(s[i]);
    }
  }
}

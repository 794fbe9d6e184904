/** The textual IPv4 address grammar of section 3.2.2 of RFC 3986, as an
    independent reference for the validator:

      IPv4address = dec-octet "." dec-octet "." dec-octet "." dec-octet
      dec-octet   = DIGIT                 ; 0-9
                  / %x31-39 DIGIT         ; 10-99
                  / "1" 2DIGIT            ; 100-199
                  / "2" %x30-34 DIGIT     ; 200-249
                  / "25" %x30-35          ; 250-255

    and the proof that `isValidIPv4` accepts exactly this language. */
module Rfc3986 {
  import opened Decimal
  import opened Text
  import opened IPv4Checker

  /** One alternative of `dec-octet` per disjunct, spelled on characters. */
  predicate DecOctet(o: string) {
    (|o| == 1 && IsDigit(o[0]))
    || (|o| == 2 && '1' <= o[0] <= '9' && IsDigit(o[1]))
    || (|o| == 3 && o[0] == '1' && IsDigit(o[1]) && IsDigit(o[2]))
    || (|o| == 3 && o[0] == '2' && '0' <= o[1] <= '4' && IsDigit(o[2]))
    || (|o| == 3 && o[0] == '2' && o[1] == '5' && '0' <= o[2] <= '5')
  }

  /** `IPv4address`: four `dec-octet`s separated by single dots. */
  ghost predicate IsIPv4Address(s: string) {
    exists a, b, c, d ::
      DecOctet(a) && DecOctet(b) && DecOctet(c) && DecOctet(d)
      && s == a + "." + b + "." + c + "." + d
  }

  /** The four segment checks of the validator accept exactly the
      `dec-octet` strings. */
  lemma {:induction false} SegmentOkIffDecOctet(o: string)
    ensures SegmentOk(o) <==> DecOctet(o)
  {
    if 1 <= |o| <= 3 && IsDigitString(o) {
      ShortDecValue(o);
    } else if |o| > 3 && SegmentOk(o) {
      ByteSizedIsShort(o);
    }
  }

  /** The validator accepts a string exactly when it is an `IPv4address`. */
  lemma {:induction false} ValidIffIPv4Address(s: string)
    ensures IsValidIPv4(s) <==> IsIPv4Address(s)
  {
    if IsValidIPv4(s) {
      var p := Split(s, '.');
      AcceptedIsJoin(s);
      assert SegmentOk(p[0]) && SegmentOk(p[1]) && SegmentOk(p[2]) && SegmentOk(p[3]);
      SegmentOkIffDecOctet(p[0]);
      SegmentOkIffDecOctet(p[1]);
      SegmentOkIffDecOctet(p[2]);
      SegmentOkIffDecOctet(p[3]);
    }
    if IsIPv4Address(s) {
      var a, b, c, d :|
        DecOctet(a) && DecOctet(b) && DecOctet(c) && DecOctet(d)
        && s == a + "." + b + "." + c + "." + d;
      SegmentOkIffDecOctet(a);
      SegmentOkIffDecOctet(b);
      SegmentOkIffDecOctet(c);
      SegmentOkIffDecOctet(d);
      DigitStringHasNoDot(a);
      DigitStringHasNoDot(b);
      DigitStringHasNoDot(c);
      DigitStringHasNoDot(d);
      SplitFour(a, b, c, d);
      assert Split(s, '.') == [a, b, c, d];
    }
  }
}

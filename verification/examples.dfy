/** The literal cases of src/test/kotlin/IPv4CheckerTest.kt as lemmas, one
    lemma per distinct string the tests assert on (the empty string is
    `IPv4Checker.EmptyRejected`). Each proof names the dot-free pieces its
    string is made of and decides the case from the pieces. The input is a
    parameter fixed by `requires` rather than a literal in the `ensures`, so
    that the verifier reasons from the pieces instead of unfolding the
    splitter character by character. */
module CheckerExamples {
  import opened Decimal
  import opened Text
  import opened IPv4Checker

  /** Four dot-free pieces that each pass the segment checks, joined by
      dots, are accepted. */
  lemma Accepts(ip: string, a: string, b: string, c: string, d: string)
    requires '.' !in a && '.' !in b && '.' !in c && '.' !in d
    requires ip == a + "." + b + "." + c + "." + d
    requires SegmentOk(a) && SegmentOk(b) && SegmentOk(c) && SegmentOk(d)
    ensures IsValidIPv4(ip)
  {
    SplitFour(a, b, c, d);
  }

  /** Dot-free pieces joined by dots are rejected when there are not four of
      them. */
  lemma RejectsCount(ip: string, parts: seq<string>)
    requires |parts| >= 1 && forall i :: 0 <= i < |parts| ==> '.' !in parts[i]
    requires ip == Join(parts, '.')
    requires |parts| != 4
    ensures !IsValidIPv4(ip)
  {
    JoinedPiecesValid(parts);
  }

  /** Four dot-free pieces joined by dots are rejected when piece `bad`
      fails a segment check. */
  lemma RejectsSegment(ip: string, parts: seq<string>, bad: nat)
    requires |parts| == 4 && forall i :: 0 <= i < 4 ==> '.' !in parts[i]
    requires ip == Join(parts, '.')
    requires bad < 4 && !SegmentOk(parts[bad])
    ensures !IsValidIPv4(ip)
  {
    JoinedPiecesValid(parts);
  }

  /** `192.168.1.1` is accepted. */
  lemma StandardAddressAccepted1(ip: string)
    requires ip == "192.168.1.1"
    ensures IsValidIPv4(ip)
  {
    var a, b, c, d := "192", "168", "1", "1";
    Accepts(ip, a, b, c, d);
  }

  /** `10.0.0.0` is accepted. */
  lemma StandardAddressAccepted2(ip: string)
    requires ip == "10.0.0.0"
    ensures IsValidIPv4(ip)
  {
    var a, b, c, d := "10", "0", "0", "0";
    Accepts(ip, a, b, c, d);
  }

  /** `172.16.254.1` is accepted. */
  lemma StandardAddressAccepted3(ip: string)
    requires ip == "172.16.254.1"
    ensures IsValidIPv4(ip)
  {
    var a, b, c, d := "172", "16", "254", "1";
    Accepts(ip, a, b, c, d);
  }

  /** `0.0.0.0` is accepted. */
  lemma BoundaryAddressAccepted1(ip: string)
    requires ip == "0.0.0.0"
    ensures IsValidIPv4(ip)
  {
    var a, b, c, d := "0", "0", "0", "0";
    Accepts(ip, a, b, c, d);
  }

  /** `255.255.255.255` is accepted. */
  lemma BoundaryAddressAccepted2(ip: string)
    requires ip == "255.255.255.255"
    ensures IsValidIPv4(ip)
  {
    var a, b, c, d := "255", "255", "255", "255";
    Accepts(ip, a, b, c, d);
  }

  /** `1.2.3.4` is accepted. */
  lemma SingleDigitAddressAccepted(ip: string)
    requires ip == "1.2.3.4"
    ensures IsValidIPv4(ip)
  {
    var a, b, c, d := "1", "2", "3", "4";
    Accepts(ip, a, b, c, d);
  }

  /** `192.168.1.10` is accepted. */
  lemma MixedLengthAddressAccepted1(ip: string)
    requires ip == "192.168.1.10"
    ensures IsValidIPv4(ip)
  {
    var a, b, c, d := "192", "168", "1", "10";
    Accepts(ip, a, b, c, d);
  }

  /** `172.16.254.12` is accepted. */
  lemma MixedLengthAddressAccepted2(ip: string)
    requires ip == "172.16.254.12"
    ensures IsValidIPv4(ip)
  {
    var a, b, c, d := "172", "16", "254", "12";
    Accepts(ip, a, b, c, d);
  }

  /** `192.168.1` is rejected. */
  lemma MissingOctetRejected1(ip: string)
    requires ip == "192.168.1"
    ensures !IsValidIPv4(ip)
  {
    var parts := ["192", "168", "1"];
    RejectsCount(ip, parts);
  }

  /** `192.168` is rejected. */
  lemma MissingOctetRejected2(ip: string)
    requires ip == "192.168"
    ensures !IsValidIPv4(ip)
  {
    var parts := ["192", "168"];
    RejectsCount(ip, parts);
  }

  /** `192` is rejected. */
  lemma MissingOctetRejected3(ip: string)
    requires ip == "192"
    ensures !IsValidIPv4(ip)
  {
    var parts := ["192"];
    RejectsCount(ip, parts);
  }

  /** `192.168.1.1.1` is rejected. */
  lemma ExtraOctetRejected1(ip: string)
    requires ip == "192.168.1.1.1"
    ensures !IsValidIPv4(ip)
  {
    var parts := ["192", "168", "1", "1", "1"];
    RejectsCount(ip, parts);
  }

  /** `192.168.1.1.1.1` is rejected. */
  lemma ExtraOctetRejected2(ip: string)
    requires ip == "192.168.1.1.1.1"
    ensures !IsValidIPv4(ip)
  {
    var parts := ["192", "168", "1", "1", "1", "1"];
    RejectsCount(ip, parts);
  }

  /** `192.168..1` is rejected. */
  lemma EmptyOctetRejected1(ip: string)
    requires ip == "192.168..1"
    ensures !IsValidIPv4(ip)
  {
    var parts := ["192", "168", "", "1"];
    RejectsSegment(ip, parts, 2);
  }

  /** `192..168.1` is rejected. */
  lemma EmptyOctetRejected2(ip: string)
    requires ip == "192..168.1"
    ensures !IsValidIPv4(ip)
  {
    var parts := ["192", "", "168", "1"];
    RejectsSegment(ip, parts, 1);
  }

  /** `..168.1` is rejected. */
  lemma EmptyOctetRejected3(ip: string)
    requires ip == "..168.1"
    ensures !IsValidIPv4(ip)
  {
    var parts := ["", "", "168", "1"];
    RejectsSegment(ip, parts, 0);
  }

  /** `192.168.1..` is rejected. */
  lemma RepeatedDotsRejected1(ip: string)
    requires ip == "192.168.1.."
    ensures !IsValidIPv4(ip)
  {
    var parts := ["192", "168", "1", "", ""];
    RejectsCount(ip, parts);
  }

  /** `192.168...1` is rejected. */
  lemma RepeatedDotsRejected2(ip: string)
    requires ip == "192.168...1"
    ensures !IsValidIPv4(ip)
  {
    var parts := ["192", "168", "", "", "1"];
    RejectsCount(ip, parts);
  }

  /** `256.1.2.3` is rejected. */
  lemma OctetAbove255Rejected1(ip: string)
    requires ip == "256.1.2.3"
    ensures !IsValidIPv4(ip)
  {
    var parts := ["256", "1", "2", "3"];
    ShortDecValue(parts[0]);
    RejectsSegment(ip, parts, 0);
  }

  /** `1.256.2.3` is rejected. */
  lemma OctetAbove255Rejected2(ip: string)
    requires ip == "1.256.2.3"
    ensures !IsValidIPv4(ip)
  {
    var parts := ["1", "256", "2", "3"];
    ShortDecValue(parts[1]);
    RejectsSegment(ip, parts, 1);
  }

  /** `1.2.256.3` is rejected. */
  lemma OctetAbove255Rejected3(ip: string)
    requires ip == "1.2.256.3"
    ensures !IsValidIPv4(ip)
  {
    var parts := ["1", "2", "256", "3"];
    ShortDecValue(parts[2]);
    RejectsSegment(ip, parts, 2);
  }

  /** `1.2.3.256` is rejected. */
  lemma OctetAbove255Rejected4(ip: string)
    requires ip == "1.2.3.256"
    ensures !IsValidIPv4(ip)
  {
    var parts := ["1", "2", "3", "256"];
    ShortDecValue(parts[3]);
    RejectsSegment(ip, parts, 3);
  }

  /** `300.1.2.3` is rejected. */
  lemma LargeOctetRejected1(ip: string)
    requires ip == "300.1.2.3"
    ensures !IsValidIPv4(ip)
  {
    var parts := ["300", "1", "2", "3"];
    ShortDecValue(parts[0]);
    RejectsSegment(ip, parts, 0);
  }

  /** `1.2.3.999` is rejected. */
  lemma LargeOctetRejected2(ip: string)
    requires ip == "1.2.3.999"
    ensures !IsValidIPv4(ip)
  {
    var parts := ["1", "2", "3", "999"];
    ShortDecValue(parts[3]);
    RejectsSegment(ip, parts, 3);
  }

  /** `-1.2.3.4` is rejected. */
  lemma NegativeOctetRejected1(ip: string)
    requires ip == "-1.2.3.4"
    ensures !IsValidIPv4(ip)
  {
    var parts := ["-1", "2", "3", "4"];
    RejectsSegment(ip, parts, 0);
  }

  /** `1.-2.3.4` is rejected. */
  lemma NegativeOctetRejected2(ip: string)
    requires ip == "1.-2.3.4"
    ensures !IsValidIPv4(ip)
  {
    var parts := ["1", "-2", "3", "4"];
    RejectsSegment(ip, parts, 1);
  }

  /** `01.1.1.1` is rejected. */
  lemma LeadingZeroRejected1(ip: string)
    requires ip == "01.1.1.1"
    ensures !IsValidIPv4(ip)
  {
    var parts := ["01", "1", "1", "1"];
    RejectsSegment(ip, parts, 0);
  }

  /** `1.01.1.1` is rejected. */
  lemma LeadingZeroRejected2(ip: string)
    requires ip == "1.01.1.1"
    ensures !IsValidIPv4(ip)
  {
    var parts := ["1", "01", "1", "1"];
    RejectsSegment(ip, parts, 1);
  }

  /** `1.1.01.1` is rejected. */
  lemma LeadingZeroRejected3(ip: string)
    requires ip == "1.1.01.1"
    ensures !IsValidIPv4(ip)
  {
    var parts := ["1", "1", "01", "1"];
    RejectsSegment(ip, parts, 2);
  }

  /** `1.1.1.01` is rejected. */
  lemma LeadingZeroRejected4(ip: string)
    requires ip == "1.1.1.01"
    ensures !IsValidIPv4(ip)
  {
    var parts := ["1", "1", "1", "01"];
    RejectsSegment(ip, parts, 3);
  }

  /** `00.1.1.1` is rejected. */
  lemma LeadingZeroRejected5(ip: string)
    requires ip == "00.1.1.1"
    ensures !IsValidIPv4(ip)
  {
    var parts := ["00", "1", "1", "1"];
    RejectsSegment(ip, parts, 0);
  }

  /** `000.1.1.1` is rejected. */
  lemma LeadingZeroRejected6(ip: string)
    requires ip == "000.1.1.1"
    ensures !IsValidIPv4(ip)
  {
    var parts := ["000", "1", "1", "1"];
    RejectsSegment(ip, parts, 0);
  }

  /** `a.b.c.d` is rejected. */
  lemma LettersRejected1(ip: string)
    requires ip == "a.b.c.d"
    ensures !IsValidIPv4(ip)
  {
    var parts := ["a", "b", "c", "d"];
    RejectsSegment(ip, parts, 0);
  }

  /** `192.168.1.1a` is rejected. */
  lemma LettersRejected2(ip: string)
    requires ip == "192.168.1.1a"
    ensures !IsValidIPv4(ip)
  {
    var parts := ["192", "168", "1", "1a"];
    RejectsSegment(ip, parts, 3);
  }

  /** `x.168.1.1` is rejected. */
  lemma LettersRejected3(ip: string)
    requires ip == "x.168.1.1"
    ensures !IsValidIPv4(ip)
  {
    var parts := ["x", "168", "1", "1"];
    RejectsSegment(ip, parts, 0);
  }

  /** `192.168.1.1#` is rejected. */
  lemma PunctuationRejected1(ip: string)
    requires ip == "192.168.1.1#"
    ensures !IsValidIPv4(ip)
  {
    var parts := ["192", "168", "1", "1#"];
    RejectsSegment(ip, parts, 3);
  }

  /** `192.168.1,1` is rejected. */
  lemma PunctuationRejected2(ip: string)
    requires ip == "192.168.1,1"
    ensures !IsValidIPv4(ip)
  {
    var parts := ["192", "168", "1,1"];
    RejectsCount(ip, parts);
  }

  /** `192:168:1:1` is rejected. */
  lemma PunctuationRejected3(ip: string)
    requires ip == "192:168:1:1"
    ensures !IsValidIPv4(ip)
  {
    var parts := ["192:168:1:1"];
    RejectsCount(ip, parts);
  }

  /** ` 192.168.1.1` is rejected. */
  lemma SpaceRejected1(ip: string)
    requires ip == " 192.168.1.1"
    ensures !IsValidIPv4(ip)
  {
    var parts := [" 192", "168", "1", "1"];
    RejectsSegment(ip, parts, 0);
  }

  /** `192.168.1.1 ` is rejected. */
  lemma SpaceRejected2(ip: string)
    requires ip == "192.168.1.1 "
    ensures !IsValidIPv4(ip)
  {
    var parts := ["192", "168", "1", "1 "];
    RejectsSegment(ip, parts, 3);
  }

  /** `192. 168.1.1` is rejected. */
  lemma SpaceRejected3(ip: string)
    requires ip == "192. 168.1.1"
    ensures !IsValidIPv4(ip)
  {
    var parts := ["192", " 168", "1", "1"];
    RejectsSegment(ip, parts, 1);
  }

  /** `192.168. 1.1` is rejected. */
  lemma SpaceRejected4(ip: string)
    requires ip == "192.168. 1.1"
    ensures !IsValidIPv4(ip)
  {
    var parts := ["192", "168", " 1", "1"];
    RejectsSegment(ip, parts, 2);
  }

  /** ` ` is rejected. */
  lemma BlankRejected1(ip: string)
    requires ip == " "
    ensures !IsValidIPv4(ip)
  {
    var parts := [" "];
    RejectsCount(ip, parts);
  }

  /** `...` is rejected. */
  lemma BlankRejected2(ip: string)
    requires ip == "..."
    ensures !IsValidIPv4(ip)
  {
    var parts := ["", "", "", ""];
    RejectsSegment(ip, parts, 0);
  }

  /** `.` is rejected. */
  lemma MalformedRejected1(ip: string)
    requires ip == "."
    ensures !IsValidIPv4(ip)
  {
    var parts := ["", ""];
    RejectsCount(ip, parts);
  }

  /** `..` is rejected. */
  lemma MalformedRejected2(ip: string)
    requires ip == ".."
    ensures !IsValidIPv4(ip)
  {
    var parts := ["", "", ""];
    RejectsCount(ip, parts);
  }

  /** `.192.168.1.1` is rejected. */
  lemma MalformedRejected3(ip: string)
    requires ip == ".192.168.1.1"
    ensures !IsValidIPv4(ip)
  {
    var parts := ["", "192", "168", "1", "1"];
    RejectsCount(ip, parts);
  }

  /** `192.168.1.1.` is rejected. */
  lemma MalformedRejected4(ip: string)
    requires ip == "192.168.1.1."
    ensures !IsValidIPv4(ip)
  {
    var parts := ["192", "168", "1", "1", ""];
    RejectsCount(ip, parts);
  }

  /** `192.168.1.` is rejected. */
  lemma TrailingDotRejected(ip: string)
    requires ip == "192.168.1."
    ensures !IsValidIPv4(ip)
  {
    var parts := ["192", "168", "1", ""];
    RejectsSegment(ip, parts, 3);
  }

  /** `256.255.255.255` is rejected. */
  lemma OctetEdgeRejected1(ip: string)
    requires ip == "256.255.255.255"
    ensures !IsValidIPv4(ip)
  {
    var parts := ["256", "255", "255", "255"];
    ShortDecValue(parts[0]);
    RejectsSegment(ip, parts, 0);
  }

  /** `255.256.255.255` is rejected. */
  lemma OctetEdgeRejected2(ip: string)
    requires ip == "255.256.255.255"
    ensures !IsValidIPv4(ip)
  {
    var parts := ["255", "256", "255", "255"];
    ShortDecValue(parts[1]);
    RejectsSegment(ip, parts, 1);
  }

  /** `255.255.256.255` is rejected. */
  lemma OctetEdgeRejected3(ip: string)
    requires ip == "255.255.256.255"
    ensures !IsValidIPv4(ip)
  {
    var parts := ["255", "255", "256", "255"];
    ShortDecValue(parts[2]);
    RejectsSegment(ip, parts, 2);
  }

  /** `255.255.255.256` is rejected. */
  lemma OctetEdgeRejected4(ip: string)
    requires ip == "255.255.255.256"
    ensures !IsValidIPv4(ip)
  {
    var parts := ["255", "255", "255", "256"];
    ShortDecValue(parts[3]);
    RejectsSegment(ip, parts, 3);
  }

}

/** `isValidIPv4` as src/main/kotlin/IPv4Checker.kt writes it (ASCII digits
    only, like the rest of the model), with
    the 32-bit `String.toInt()` of line 24 in place of the mathematical value.
    On a segment that passes the first three checks but is larger than
    `Int.MAX_VALUE`, `toInt` throws `NumberFormatException` and nothing in the
    function catches it, so the validator raises instead of answering
    `false`. The rest of the model uses the corrected `IsValidIPv4`, which
    answers `false` there; this module records the difference. */
module AsWritten {
  import opened Decimal
  import opened Text
  import opened IPv4Checker

  /** Kotlin's `Int.MAX_VALUE`, 2^31 - 1. */
  const IntMaxValue: int := 0x7fff_ffff

  /** What `toInt` gives back: an `Int`, or the exception it throws. */
  datatype Parsed = Parsed(value: int) | NumberFormatException

  /** What the validator gives back: an answer, or the exception that
      escaped from `toInt`. */
  datatype Outcome = Returned(valid: bool) | Threw

  /** `String.toInt()` on a non-empty string of ASCII digits: the value when
      it fits in a 32-bit `Int`, the exception otherwise. Every string of at
      most nine digits fits; a canonical string of eleven or more digits
      never does (ten-digit strings go either way). */
  function ToInt(s: string): (r: Parsed)
    requires |s| >= 1 && IsDigitString(s)
    ensures r.Parsed? ==> r.value == DecValue(s)
    ensures |s| <= 9 ==> r.Parsed?
    ensures NoLeadingZero(s) && |s| >= 11 ==> r.NumberFormatException?
  {
    IntWidthThresholds(s);
    var v := DecValue(s);
    if v <= IntMaxValue then Parsed(v) else NumberFormatException
  }

  /** Nine digits always fit in an `Int`; eleven digits without a leading
      zero never do. */
  lemma IntWidthThresholds(s: string)
    requires IsDigitString(s) && |s| >= 1
    ensures |s| <= 9 ==> DecValue(s) <= IntMaxValue
    ensures NoLeadingZero(s) && |s| >= 11 ==> DecValue(s) > IntMaxValue
  {
    if |s| <= 9 {
      Pow10Monotone(|s|, 9);
    }
    if NoLeadingZero(s) && |s| >= 11 {
      LeadingDigitBound(s);
      Pow10Monotone(10, |s| - 1);
    }
  }

  /** A segment that gets past the empty, digit and leading-zero checks but
      whose value does not fit in an `Int`. */
  predicate Overflows(segment: string) {
    |segment| != 0 && IsDigitString(segment) && NoLeadingZero(segment)
    && DecValue(segment) > IntMaxValue
  }

  /** The `for` loop of lines 13-26 over the remaining segments: the checks in
      source order, an early `false`, and the exception from `toInt`. It
      answers exactly when the corrected checks would, unless it meets an
      overflowing segment first, and then it throws. */
  function CheckSegments(segments: seq<string>): (r: Outcome)
    ensures r.Returned? ==> (r.valid <==> forall i :: 0 <= i < |segments| ==> SegmentOk(segments[i]))
    ensures r.Threw? ==> exists i :: 0 <= i < |segments| && Overflows(segments[i])
    ensures (forall i :: 0 <= i < |segments| ==> !Overflows(segments[i])) ==> r.Returned?
  {
    if |segments| == 0 then Returned(true)
    else
      var segment := segments[0];
      if |segment| == 0 then Returned(false)
      else if !IsDigitString(segment) then Returned(false)
      else if |segment| > 1 && segment[0] == '0' then Returned(false)
      else
        match ToInt(segment)
        case NumberFormatException => Threw
        case Parsed(value) =>
          if !(0 <= value <= 255) then Returned(false)
          else CheckSegments(segments[1..])
  }

  /** `isValidIPv4` as written. */
  function IsValidIPv4AsWritten(ip: string): Outcome {
    if |ip| == 0 then Returned(false)
    else
      var segments := Split(ip, '.');
      if |segments| != 4 then Returned(false)
      else CheckSegments(segments)
  }

  /** Where the function as written answers, it agrees with the corrected
      validator; every address the corrected validator accepts is accepted
      as written too; and it throws only on inputs the corrected validator
      rejects. */
  lemma {:induction false} AsWrittenAgrees(ip: string)
    ensures IsValidIPv4AsWritten(ip).Returned? ==> IsValidIPv4AsWritten(ip).valid == IsValidIPv4(ip)
    ensures IsValidIPv4(ip) ==> IsValidIPv4AsWritten(ip) == Returned(true)
    ensures IsValidIPv4AsWritten(ip).Threw? ==> !IsValidIPv4(ip)
  {
    if |ip| != 0 && |Split(ip, '.')| == 4 {
      var segments := Split(ip, '.');
      if IsValidIPv4(ip) {
        forall i | 0 <= i < |segments|
          ensures !Overflows(segments[i])
        {
          assert SegmentOk(segments[i]);
        }
      }
    }
  }

  /** The discrepancy in general: an address whose first three segments pass
      every check and whose last segment is a canonical digit string beyond
      `Int.MAX_VALUE` makes the function as written throw, while the
      corrected validator rejects it. */
  lemma {:induction false} OverflowingLastSegmentThrows(a: string, b: string, c: string, d: string)
    requires SegmentOk(a) && SegmentOk(b) && SegmentOk(c) && Overflows(d)
    ensures IsValidIPv4AsWritten(a + "." + b + "." + c + "." + d) == Threw
    ensures !IsValidIPv4(a + "." + b + "." + c + "." + d)
  {
    DigitStringHasNoDot(a);
    DigitStringHasNoDot(b);
    DigitStringHasNoDot(c);
    DigitStringHasNoDot(d);
    SplitFour(a, b, c, d);
    var segments := [a, b, c, d];
    assert CheckSegments(segments[3..]) == Threw;
    assert CheckSegments(segments[2..]) == Threw;
    assert CheckSegments(segments[1..]) == Threw;
  }

  /** "2147483648", one more than `Int.MAX_VALUE`, read digit by digit. */
  lemma IntMaxPlusOneValue(s: string)
    requires s == "2147483648"
    ensures IsDigitString(s) && DecValue(s) == IntMaxValue + 1
  {
    var t := "2147483";
    LeadingDigitsValue(t);
    DecValueSnoc(t, '6'); t := t + ['6'];
    DecValueSnoc(t, '4'); t := t + ['4'];
    DecValueSnoc(t, '8'); t := t + ['8'];
    assert t == s;
  }

  lemma LeadingDigitsValue(s: string)
    requires s == "2147483"
    ensures IsDigitString(s) && DecValue(s) == 2147483
  {
    var t := "214";
    ShortDecValue(t);
    DecValueSnoc(t, '7'); t := t + ['7'];
    DecValueSnoc(t, '4'); t := t + ['4'];
    DecValueSnoc(t, '8'); t := t + ['8'];
    DecValueSnoc(t, '3'); t := t + ['3'];
    assert t == s;
  }

  /** The concrete input "1.2.3.2147483648", given by its four segments: it
      is all digits and dots, has four segments and no leading zero, and the
      function as written throws on it where the corrected validator answers
      `false`. */
  lemma IntMaxPlusOneThrows(a: string, b: string, c: string, d: string)
    requires a == "1" && b == "2" && c == "3" && d == "2147483648"
    ensures IsValidIPv4AsWritten(a + "." + b + "." + c + "." + d) == Threw
    ensures !IsValidIPv4(a + "." + b + "." + c + "." + d)
  {
    IntMaxPlusOneValue(d);
    OverflowingLastSegmentThrows(a, b, c, d);
  }
}

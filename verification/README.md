# IPv4 dotted-decimal validator, modelled and verified in Dafny

This project models `isValidIPv4(ip: String): Boolean` of
`src/main/kotlin/IPv4Checker.kt`. The function decides whether a string is an
IPv4 address in dotted-decimal form. It works in four steps:

1. It rejects the empty string.
2. It splits the string on the literal `.`, keeping empty pieces.
3. It demands exactly four segments.
4. It demands that every segment is non-empty and all digits, has no leading
   zero unless it is exactly `"0"`, and has a value in 0..255.

The model is pure, as the source is. `IPv4Checker.IsValidIPv4` is the
predicate. `IPv4Checker.CheckIPv4` is the source's loop with early returns,
proved equal to the predicate. Around them:

- `Decimal`: ASCII digits, the value of a digit string, and the canonical
  decimal form of a number.
- `Text`: the splitter with Kotlin's `split(".")` semantics (literal
  delimiter, no limit, empty pieces kept) and its inverse `Join`.
- `Rfc3986`: the `IPv4address` / `dec-octet` grammar of section 3.2.2 of
  RFC 3986. It is stated independently of the validator. `ValidIffIPv4Address`
  proves the validator accepts exactly that language.
- `AsWritten`: the function with the 32-bit `String.toInt()` it really calls.
  See "Findings" below.
- `CheckerExamples`: every literal case of
  `src/test/kotlin/IPv4CheckerTest.kt`, each proved as a lemma.

Integers are mathematical. The main model reads a segment's value without a
width limit, so an all-digit segment too large for an `Int` is simply above
255 and is rejected. This is a deliberate divergence from the source, which
throws there. Module `AsWritten` models the source's behaviour and proves
where the two differ.

## Model

| member | source | states |
|---|---|---|
| Decimal.IsDigitString | src/main/kotlin/IPv4Checker.kt:18 | The all-digits check of a segment (ASCII digits); `IPv4Checker.AcceptedAlphabet` proves every character of an accepted string is then a digit or one of exactly three dots |
| Decimal.DecValue | src/main/kotlin/IPv4Checker.kt:24 | The value `toInt` reads from a digit segment; a string of k digits denotes a value below 10^k |
| Decimal.DecValueSnoc | src/main/kotlin/IPv4Checker.kt:24 | Appending a digit to a digit string multiplies its value by ten and adds the digit |
| Decimal.ShortDecValue | src/main/kotlin/IPv4Checker.kt:24 | The value of a one-, two- or three-digit segment, digit by digit |
| Decimal.NatToDec | src/main/kotlin/IPv4Checker.kt:21-25 | The canonical spelling of n: non-empty, all digits, no leading zero, and it reads back as n |
| Decimal.NatToDecOfDecValue | src/main/kotlin/IPv4Checker.kt:21 | A non-empty digit string without a leading zero is the canonical spelling of its own value, so such a segment has no other spelling |
| Decimal.LeadingDigitBound | src/main/kotlin/IPv4Checker.kt:21 | A digit string that does not start with '0' is worth at least 10^(length-1) |
| Decimal.ByteSizedIsShort | src/main/kotlin/IPv4Checker.kt:21-25 | A segment that passes the leading-zero and range checks has at most three digits |
| Text.Count | src/main/kotlin/IPv4Checker.kt:7 | The number of delimiters is at most the length, and zero exactly when the delimiter is absent |
| Text.Split | src/main/kotlin/IPv4Checker.kt:7 | `split(".")` yields one more piece than the input has dots, and no piece contains a dot |
| Text.SplitAtDelimiter | src/main/kotlin/IPv4Checker.kt:7 | A leading dot yields an empty first piece: empty pieces are kept, not dropped |
| Text.JoinSplit | src/main/kotlin/IPv4Checker.kt:7 | Joining the pieces of a split with the delimiter restores the input exactly |
| Text.SplitJoin | src/main/kotlin/IPv4Checker.kt:7 | Splitting delimiter-free pieces joined by the delimiter returns exactly those pieces, empty ones included |
| IPv4Checker.IsValidIPv4 | src/main/kotlin/IPv4Checker.kt:2-29 | The validator (with unbounded segment values): `Rfc3986.ValidIffIPv4Address` proves it accepts exactly the RFC 3986 `IPv4address` strings, and `IPv4Checker.FormatAccepted` / `IPv4Checker.AcceptedIsCanonical` that it accepts exactly the canonical text of four values in 0..255 |
| IPv4Checker.SegmentOk | src/main/kotlin/IPv4Checker.kt:15-25 | The four checks of one segment in source order; `Rfc3986.SegmentOkIffDecOctet` proves they accept exactly the `dec-octet` strings of RFC 3986 |
| IPv4Checker.CheckIPv4 | src/main/kotlin/IPv4Checker.kt:2-29 | The loop with early returns answers true exactly when the input is a valid address |
| IPv4Checker.JoinedPiecesValid | src/main/kotlin/IPv4Checker.kt:7-28 | Soundness and completeness: dot-free pieces joined by dots are accepted exactly when there are four and each passes all four segment checks |
| IPv4Checker.EmptyRejected | src/main/kotlin/IPv4Checker.kt:4 | The empty string is rejected |
| IPv4Checker.WrongDotCountRejected | src/main/kotlin/IPv4Checker.kt:7-10 | A string without exactly three dots is rejected |
| IPv4Checker.AcceptedAlphabet | src/main/kotlin/IPv4Checker.kt:7-18 | Every character of an accepted string is an ASCII digit or a dot, and it has exactly three dots |
| IPv4Checker.AcceptedHasNoEmptySegment | src/main/kotlin/IPv4Checker.kt:15 | An accepted string has no leading dot, no trailing dot and no two adjacent dots |
| IPv4Checker.AcceptedLength | src/main/kotlin/IPv4Checker.kt:15-25 | Every segment of an accepted string has one to three digits, so the string has 7 to 15 characters |
| IPv4Checker.AcceptedIsJoin | src/main/kotlin/IPv4Checker.kt:7-10 | An accepted string is its four segments joined by dots |
| IPv4Checker.Octets | src/main/kotlin/IPv4Checker.kt:24-25 | An accepted string has four octet values, each at most 255 |
| IPv4Checker.FormatAccepted | src/main/kotlin/IPv4Checker.kt:7-28 | Round trip: four values in 0..255 written canonically and joined by dots are accepted, split into those four spellings, and read back as the same four values |
| IPv4Checker.AcceptedIsCanonical | src/main/kotlin/IPv4Checker.kt:21-25 | Round trip: an accepted string equals the canonical text of its own four octets |
| Rfc3986.SegmentOkIffDecOctet | src/main/kotlin/IPv4Checker.kt:15-25 | A segment passes the four checks exactly when it matches `dec-octet` of RFC 3986 |
| Rfc3986.ValidIffIPv4Address | src/main/kotlin/IPv4Checker.kt:2-29 | The validator accepts a string exactly when it matches `IPv4address` of RFC 3986 |
| AsWritten.ToInt | src/main/kotlin/IPv4Checker.kt:24 | `toInt` on a digit segment returns the segment's value whenever it returns; no segment of nine or fewer digits throws, and every segment of eleven or more digits without a leading zero throws |
| AsWritten.IntWidthThresholds | src/main/kotlin/IPv4Checker.kt:21-24 | Nine digits always fit in an `Int`; eleven or more digits without a leading zero (the only ones to reach line 24) never do |
| AsWritten.IsValidIPv4AsWritten | src/main/kotlin/IPv4Checker.kt:2-29 | The function with its 32-bit `toInt`, answering or throwing; `AsWritten.AsWrittenAgrees` gives its meaning: it agrees with `IPv4Checker.IsValidIPv4` wherever it answers and throws only on inputs that one rejects |
| AsWritten.CheckSegments | src/main/kotlin/IPv4Checker.kt:13-26 | The loop as written answers exactly as the corrected checks when it answers, and throws only when some segment overflows an `Int` |
| AsWritten.AsWrittenAgrees | src/main/kotlin/IPv4Checker.kt:2-29 | The function as written agrees with the corrected validator wherever it answers, accepts every valid address, and throws only on inputs the corrected validator rejects |
| AsWritten.OverflowingLastSegmentThrows | src/main/kotlin/IPv4Checker.kt:24 | Three valid segments followed by a canonical digit string above `Int.MAX_VALUE` make the function as written throw, and the corrected validator reject |
| AsWritten.IntMaxPlusOneThrows | src/main/kotlin/IPv4Checker.kt:24 | `"1.2.3.2147483648"` makes the function as written throw, and the corrected validator answer false |
| CheckerExamples.StandardAddressAccepted1 | src/test/kotlin/IPv4CheckerTest.kt:25 | The test string `"192.168.1.1"` is accepted |
| CheckerExamples.StandardAddressAccepted2 | src/test/kotlin/IPv4CheckerTest.kt:26 | The test string `"10.0.0.0"` is accepted |
| CheckerExamples.StandardAddressAccepted3 | src/test/kotlin/IPv4CheckerTest.kt:27 | The test string `"172.16.254.1"` is accepted |
| CheckerExamples.BoundaryAddressAccepted1 | src/test/kotlin/IPv4CheckerTest.kt:30 | The test string `"0.0.0.0"` is accepted |
| CheckerExamples.BoundaryAddressAccepted2 | src/test/kotlin/IPv4CheckerTest.kt:31 | The test string `"255.255.255.255"` is accepted |
| CheckerExamples.SingleDigitAddressAccepted | src/test/kotlin/IPv4CheckerTest.kt:34 | The test string `"1.2.3.4"` is accepted |
| CheckerExamples.MixedLengthAddressAccepted1 | src/test/kotlin/IPv4CheckerTest.kt:37 | The test string `"192.168.1.10"` is accepted |
| CheckerExamples.MixedLengthAddressAccepted2 | src/test/kotlin/IPv4CheckerTest.kt:38 | The test string `"172.16.254.12"` is accepted |
| CheckerExamples.MissingOctetRejected1 | src/test/kotlin/IPv4CheckerTest.kt:48 | The test string `"192.168.1"` is rejected |
| CheckerExamples.MissingOctetRejected2 | src/test/kotlin/IPv4CheckerTest.kt:49 | The test string `"192.168"` is rejected |
| CheckerExamples.MissingOctetRejected3 | src/test/kotlin/IPv4CheckerTest.kt:50 | The test string `"192"` is rejected |
| CheckerExamples.ExtraOctetRejected1 | src/test/kotlin/IPv4CheckerTest.kt:53 | The test string `"192.168.1.1.1"` is rejected |
| CheckerExamples.ExtraOctetRejected2 | src/test/kotlin/IPv4CheckerTest.kt:54 | The test string `"192.168.1.1.1.1"` is rejected |
| CheckerExamples.EmptyOctetRejected1 | src/test/kotlin/IPv4CheckerTest.kt:57 | The test string `"192.168..1"` is rejected |
| CheckerExamples.EmptyOctetRejected2 | src/test/kotlin/IPv4CheckerTest.kt:58 | The test string `"192..168.1"` is rejected |
| CheckerExamples.EmptyOctetRejected3 | src/test/kotlin/IPv4CheckerTest.kt:59 | The test string `"..168.1"` is rejected |
| CheckerExamples.RepeatedDotsRejected1 | src/test/kotlin/IPv4CheckerTest.kt:62 | The test string `"192.168.1.."` is rejected |
| CheckerExamples.RepeatedDotsRejected2 | src/test/kotlin/IPv4CheckerTest.kt:63 | The test string `"192.168...1"` is rejected |
| CheckerExamples.OctetAbove255Rejected1 | src/test/kotlin/IPv4CheckerTest.kt:73 | The test string `"256.1.2.3"` is rejected |
| CheckerExamples.OctetAbove255Rejected2 | src/test/kotlin/IPv4CheckerTest.kt:74 | The test string `"1.256.2.3"` is rejected |
| CheckerExamples.OctetAbove255Rejected3 | src/test/kotlin/IPv4CheckerTest.kt:75 | The test string `"1.2.256.3"` is rejected |
| CheckerExamples.OctetAbove255Rejected4 | src/test/kotlin/IPv4CheckerTest.kt:76 | The test string `"1.2.3.256"` is rejected |
| CheckerExamples.LargeOctetRejected1 | src/test/kotlin/IPv4CheckerTest.kt:79 | The test string `"300.1.2.3"` is rejected |
| CheckerExamples.LargeOctetRejected2 | src/test/kotlin/IPv4CheckerTest.kt:80 | The test string `"1.2.3.999"` is rejected |
| CheckerExamples.NegativeOctetRejected1 | src/test/kotlin/IPv4CheckerTest.kt:83 | The test string `"-1.2.3.4"` is rejected |
| CheckerExamples.NegativeOctetRejected2 | src/test/kotlin/IPv4CheckerTest.kt:84 | The test string `"1.-2.3.4"` is rejected |
| CheckerExamples.LeadingZeroRejected1 | src/test/kotlin/IPv4CheckerTest.kt:93 | The test string `"01.1.1.1"` is rejected |
| CheckerExamples.LeadingZeroRejected2 | src/test/kotlin/IPv4CheckerTest.kt:94 | The test string `"1.01.1.1"` is rejected |
| CheckerExamples.LeadingZeroRejected3 | src/test/kotlin/IPv4CheckerTest.kt:95 | The test string `"1.1.01.1"` is rejected |
| CheckerExamples.LeadingZeroRejected4 | src/test/kotlin/IPv4CheckerTest.kt:96 | The test string `"1.1.1.01"` is rejected |
| CheckerExamples.LeadingZeroRejected5 | src/test/kotlin/IPv4CheckerTest.kt:97 | The test string `"00.1.1.1"` is rejected |
| CheckerExamples.LeadingZeroRejected6 | src/test/kotlin/IPv4CheckerTest.kt:98 | The test string `"000.1.1.1"` is rejected |
| CheckerExamples.LettersRejected1 | src/test/kotlin/IPv4CheckerTest.kt:108 | The test string `"a.b.c.d"` is rejected |
| CheckerExamples.LettersRejected2 | src/test/kotlin/IPv4CheckerTest.kt:109 | The test string `"192.168.1.1a"` is rejected |
| CheckerExamples.LettersRejected3 | src/test/kotlin/IPv4CheckerTest.kt:110 | The test string `"x.168.1.1"` is rejected |
| CheckerExamples.PunctuationRejected1 | src/test/kotlin/IPv4CheckerTest.kt:113 | The test string `"192.168.1.1#"` is rejected |
| CheckerExamples.PunctuationRejected2 | src/test/kotlin/IPv4CheckerTest.kt:114 | The test string `"192.168.1,1"` is rejected |
| CheckerExamples.PunctuationRejected3 | src/test/kotlin/IPv4CheckerTest.kt:115 | The test string `"192:168:1:1"` is rejected |
| CheckerExamples.SpaceRejected1 | src/test/kotlin/IPv4CheckerTest.kt:118 | The test string `" 192.168.1.1"` is rejected |
| CheckerExamples.SpaceRejected2 | src/test/kotlin/IPv4CheckerTest.kt:119 | The test string `"192.168.1.1 "` is rejected |
| CheckerExamples.SpaceRejected3 | src/test/kotlin/IPv4CheckerTest.kt:120 | The test string `"192. 168.1.1"` is rejected |
| CheckerExamples.SpaceRejected4 | src/test/kotlin/IPv4CheckerTest.kt:121 | The test string `"192.168. 1.1"` is rejected |
| CheckerExamples.BlankRejected1 | src/test/kotlin/IPv4CheckerTest.kt:131 | The test string `" "` is rejected |
| CheckerExamples.BlankRejected2 | src/test/kotlin/IPv4CheckerTest.kt:132 | The test string `"..."` is rejected |
| CheckerExamples.MalformedRejected1 | src/test/kotlin/IPv4CheckerTest.kt:135 | The test string `"."` is rejected |
| CheckerExamples.MalformedRejected2 | src/test/kotlin/IPv4CheckerTest.kt:136 | The test string `".."` is rejected |
| CheckerExamples.MalformedRejected3 | src/test/kotlin/IPv4CheckerTest.kt:137 | The test string `".192.168.1.1"` is rejected |
| CheckerExamples.MalformedRejected4 | src/test/kotlin/IPv4CheckerTest.kt:138 | The test string `"192.168.1.1."` is rejected |
| CheckerExamples.TrailingDotRejected | src/test/kotlin/IPv4CheckerTest.kt:142 | The test string `"192.168.1."` is rejected |
| CheckerExamples.OctetEdgeRejected1 | src/test/kotlin/IPv4CheckerTest.kt:156 | The test string `"256.255.255.255"` is rejected |
| CheckerExamples.OctetEdgeRejected2 | src/test/kotlin/IPv4CheckerTest.kt:157 | The test string `"255.256.255.255"` is rejected |
| CheckerExamples.OctetEdgeRejected3 | src/test/kotlin/IPv4CheckerTest.kt:158 | The test string `"255.255.256.255"` is rejected |
| CheckerExamples.OctetEdgeRejected4 | src/test/kotlin/IPv4CheckerTest.kt:159 | The test string `"255.255.255.256"` is rejected |

## Left out

- Unicode digits: Kotlin's `Char.isDigit()` (line 18) also accepts non-ASCII decimal digits, and `toInt` reads them. The model accepts only `'0'`..`'9'`.
- IPv4Checker.IsValidIPv4: reads a segment's value as an unbounded integer rather than through the 32-bit `toInt`, so an oversized all-digit segment is rejected instead of throwing. `AsWritten` models the throwing behaviour.
- Null input: the Kotlin parameter is a non-null `String`, so no absent input is modelled.
- The hand-rolled test runner in `src/main/kotlin/IPv4CheckerTest.kt`: its mutable pass/fail counters, its console output and `main` are I/O scaffolding around the same literal cases.
- The `kotlin.test` harness of `src/test/kotlin/IPv4CheckerTest.kt`: only its literal cases are modelled, as lemmas.
- Whitespace trimming: the function never trims its input, and neither does the model.

## Findings

| source | as written | input that shows it | evidently intended | confidence | as-written member | corrected member |
|---|---|---|---|---|---|---|
| src/main/kotlin/IPv4Checker.kt:24 | `segment.toInt()` throws `NumberFormatException` on an all-digit segment above `Int.MAX_VALUE`, and nothing catches it, so the validator raises instead of returning | `"1.2.3.2147483648"` | return `false`, like every other malformed input | not executed | AsWritten.IntMaxPlusOneThrows | IPv4Checker.IsValidIPv4 |

`AsWritten.IsValidIPv4AsWritten` is the function as written. `AsWritten.IntMaxPlusOneThrows` shows it throws on the input above. The corrected `IPv4Checker.IsValidIPv4` is total and returns false there. `Rfc3986.ValidIffIPv4Address` proves it accepts exactly the RFC 3986 language. `AsWritten.AsWrittenAgrees` proves the two functions differ only by that exception.

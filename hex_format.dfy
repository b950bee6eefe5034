/** java.util.HexFormat.of().formatHex: two lower-case hexadecimal digits per byte. */
module HexFormat {
  import opened JavaText

  const Digits: string := "0123456789abcdef"

  predicate IsLowerHexDigit(c: char) {
    '0' <= c <= '9' || 'a' <= c <= 'f'
  }

  predicate IsLowerHex(s: string) {
    forall i :: 0 <= i < |s| ==> IsLowerHexDigit(s[i])
  }

  /** The value 0-15 of a lower-case hexadecimal digit. */
  function DigitValue(c: char): (v: nat)
    requires IsLowerHexDigit(c)
    ensures v < 16 && Digits[v] == c
  {
    if c <= '9' then c as int - '0' as int else c as int - 'a' as int + 10
  }

  /** formatHex(bytes) */
  function FormatHex(bytes: seq<byte>): (r: string)
    ensures |r| == 2 * |bytes|
    ensures IsLowerHex(r)
  {
    if bytes == [] then ""
    else [Digits[bytes[0] / 16], Digits[bytes[0] % 16]] + FormatHex(bytes[1..])
  }

  /** The inverse reading of a hex string: every two digits give one byte. */
  function ParseHex(s: string): (r: seq<byte>)
    requires |s| % 2 == 0 && IsLowerHex(s)
    ensures 2 * |r| == |s|
  {
    if s == [] then []
    else [16 * DigitValue(s[0]) + DigitValue(s[1])] + ParseHex(s[2..])
  }

  lemma DigitValueOfDigit(v: nat)
    requires v < 16
    ensures IsLowerHexDigit(Digits[v]) && DigitValue(Digits[v]) == v
  {
  }

  /** The two digits of one byte read back as that byte. */
  lemma ParseByte(b: byte)
    ensures 16 * DigitValue(Digits[b / 16]) + DigitValue(Digits[b % 16]) == b
  {
    DigitValueOfDigit(b / 16);
    DigitValueOfDigit(b % 16);
  }

  /** Formatting loses nothing: parsing the digits gives the bytes back. */
  lemma {:induction false} ParseFormatHex(bytes: seq<byte>)
    ensures ParseHex(FormatHex(bytes)) == bytes
  {
    if bytes != [] {
      var s := FormatHex(bytes);
      assert s[2..] == FormatHex(bytes[1..]);
      ParseByte(bytes[0]);
      ParseFormatHex(bytes[1..]);
    }
  }

  /** Hence two byte strings with the same rendering are equal. */
  lemma FormatHexInjective(a: seq<byte>, b: seq<byte>)
    requires FormatHex(a) == FormatHex(b)
    ensures a == b
  {
    ParseFormatHex(a);
    ParseFormatHex(b);
  }
}

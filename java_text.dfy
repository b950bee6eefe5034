/**
 * The parts of java.lang.String that the crawler depends on: blankness, trimming,
 * substring search and UTF-8 encoding. Strings are sequences of Unicode scalar values.
 */
module JavaText {

  type byte = x: int | 0 <= x < 256

  /** Character.isWhitespace: space, line and paragraph separators other than the
      non-breaking ones (U+00A0, U+2007, U+202F), and U+0009-U+000D, U+001C-U+001F. */
  predicate IsWhitespace(c: char) {
    var n := c as int;
    || 0x09 <= n <= 0x0D
    || 0x1C <= n <= 0x20
    || n == 0x1680
    || 0x2000 <= n <= 0x2006
    || 0x2008 <= n <= 0x200A
    || n == 0x2028 || n == 0x2029 || n == 0x205F || n == 0x3000
  }

  /** String.isBlank: empty, or only Character.isWhitespace code points. */
  predicate IsBlank(s: string) {
    forall i :: 0 <= i < |s| ==> IsWhitespace(s[i])
  }

  /** The characters String.trim removes: every code point up to U+0020. */
  predicate IsTrimmable(c: char) {
    c <= ' '
  }

  /** Index of the first character String.trim keeps. */
  function TrimStart(s: string): (i: nat)
    ensures i <= |s|
    ensures forall k :: 0 <= k < i ==> IsTrimmable(s[k])
    ensures i < |s| ==> !IsTrimmable(s[i])
    decreases |s|
  {
    if |s| > 0 && IsTrimmable(s[0]) then 1 + TrimStart(s[1..]) else 0
  }

  /** One past the last character String.trim keeps, searching no lower than `lo`. */
  function TrimEnd(s: string, lo: nat): (j: nat)
    requires lo <= |s|
    ensures lo <= j <= |s|
    ensures forall k :: j <= k < |s| ==> IsTrimmable(s[k])
    ensures j > lo ==> !IsTrimmable(s[j - 1])
    decreases |s|
  {
    if |s| > lo && IsTrimmable(s[|s| - 1]) then TrimEnd(s[..|s| - 1], lo) else |s|
  }

  /** String.trim. */
  function Trim(s: string): (r: string)
    ensures |r| <= |s|
    ensures r == "" <==> forall k :: 0 <= k < |s| ==> IsTrimmable(s[k])
    ensures r != "" ==> !IsTrimmable(r[0]) && !IsTrimmable(r[|r| - 1])
  {
    var i := TrimStart(s);
    s[i..TrimEnd(s, i)]
  }

  /** s.startsWith(prefix) */
  predicate StartsWith(s: string, prefix: string) {
    |prefix| <= |s| && s[..|prefix|] == prefix
  }

  /** `sub` occurs in `s` starting at index `i`. */
  predicate OccursAt(s: string, sub: string, i: nat) {
    i + |sub| <= |s| && s[i..i + |sub|] == sub
  }

  /** s.contains(sub); the empty string occurs everywhere. */
  predicate Contains(s: string, sub: string) {
    exists i: nat :: i <= |s| && OccursAt(s, sub, i)
  }

  /** The UTF-8 encoding of one code point: one to four bytes. */
  function EncodeChar(c: char): (r: seq<byte>)
    ensures 1 <= |r| <= 4
    ensures (c as int < 0x80) <==> |r| == 1
  {
    var n := c as int;
    if n < 0x80 then [n]
    else if n < 0x800 then [0xC0 + n / 0x40, 0x80 + n % 0x40]
    else if n < 0x1_0000 then [0xE0 + n / 0x1000, 0x80 + (n / 0x40) % 0x40, 0x80 + n % 0x40]
    else [0xF0 + n / 0x4_0000, 0x80 + (n / 0x1000) % 0x40, 0x80 + (n / 0x40) % 0x40, 0x80 + n % 0x40]
  }

  /** s.getBytes(StandardCharsets.UTF_8) */
  function Utf8(s: string): (r: seq<byte>)
    ensures |s| <= |r| <= 4 * |s|
    ensures (forall k :: 0 <= k < |s| ==> s[k] as int < 0x80) ==> |r| == |s|
  {
    if s == [] then [] else EncodeChar(s[0]) + Utf8(s[1..])
  }
}

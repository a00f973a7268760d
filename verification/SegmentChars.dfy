/** Which characters an escaped path segment has. */
module SegmentChars {
  import opened WebdavPaths

  /** Section 2.3 of RFC 3986. */
  predicate IsUnreserved(c: char) {
    'A' <= c <= 'Z' || 'a' <= c <= 'z' || '0' <= c <= '9' || c == '-' || c == '.' || c == '_' || c == '~'
  }

  /** Section 2.2 of RFC 3986. */
  const SUBDELIMS := "!$&'()*+,;="

  /** What a segment may have besides percent-encoded octets, section 3.3 of RFC 3986. */
  predicate IsSegmentChar(c: char) {
    IsUnreserved(c) || c in SUBDELIMS || c == ':' || c == '@'
  }

  /** Of the characters a segment may have, seven are encoded all the same. */
  lemma KeptExact(c: char)
    ensures Kept(c) <==> IsSegmentChar(c) && c !in "!'()*,;"
  {
  }

  /** `%` and two upper-case hexadecimal digits. */
  predicate IsOctet(s: string) {
    && |s| == 3 && s[0] == '%'
    && forall i :: 1 <= i < 3 ==> '0' <= s[i] <= '9' || 'A' <= s[i] <= 'F'
  }

  /** A text of segment characters and percent-encoded octets. */
  predicate IsSegment(s: string) {
    s == ""
    || (IsSegmentChar(s[0]) && IsSegment(s[1..]))
    || (|s| >= 3 && IsOctet(s[..3]) && IsSegment(s[3..]))
  }

  /** Escaping gives a segment of RFC 3986, and leaves a text as it is exactly if it
      has nothing but characters that are kept. */
  lemma {:induction false} EscapeIsSegment(s: string)
    requires IsBytes(s)
    ensures IsSegment(Escape(s)) && |Escape(s)| >= |s|
    ensures Escape(s) == s <==> forall i :: 0 <= i < |s| ==> IsSegmentChar(s[i]) && s[i] !in "!'()*,;"
  {
    if s != "" {
      EscapeIsSegment(s[1..]);
      KeptExact(s[0]);
      var rest := Escape(s[1..]);
      if Kept(s[0]) {
        assert Escape(s) == [s[0]] + rest && Escape(s)[1..] == rest;
        assert s == [s[0]] + s[1..];
      } else {
        assert Escape(s)[..3] == EscapeChar(s[0]) && Escape(s)[3..] == rest;
        assert |Escape(s)| > |s|;
      }
    }
  }

  // ------------------------------------------------------------ reading it back

  const LOWER := "0123456789abcdef"

  const UPPER := "0123456789ABCDEF"

  /** A hexadecimal digit, in either case. */
  predicate IsDigitOf(c: char, n: nat)
    requires n < 16
  {
    c == LOWER[n] || c == UPPER[n]
  }

  lemma HexExact(c: char, n: nat)
    requires n < 16
    ensures IsDigitOf(c, n) <==> IsHex(c) && HexValue(c) == n
  {
  }

  predicate IsCodeOf(high: char, low: char, c: char) {
    c as int < 256 && IsDigitOf(high, c as int / 16) && IsDigitOf(low, c as int % 16)
  }

  /** What the text stands for: `%` with two digits for one character, and any other
      character for itself. */
  predicate DecodesTo(s: string, t: string)
    decreases |s|
  {
    if s == "" then t == ""
    else if s[0] != '%' then t != "" && t[0] == s[0] && DecodesTo(s[1..], t[1..])
    else t != "" && |s| >= 3 && IsCodeOf(s[1], s[2], t[0]) && DecodesTo(s[3..], t[1..])
  }

  lemma CodeExact(high: char, low: char, c: char)
    ensures IsCodeOf(high, low, c) <==> IsHex(high) && IsHex(low) && c as int == 16 * HexValue(high) + HexValue(low)
  {
    if c as int < 256 {
      HexExact(high, c as int / 16);
      HexExact(low, c as int % 16);
    }
  }

  /** Decoding gives the text that the coded one stands for, and fails if there is none. */
  lemma {:induction false} DecodeExact(s: string, t: string)
    ensures Unescape(s) == Text(t) <==> DecodesTo(s, t)
    decreases |s|
  {
    if s != "" && t != "" {
      assert t == [t[0]] + t[1..];
      if s[0] != '%' {
        DecodeExact(s[1..], t[1..]);
        Prepended(s[0], Unescape(s[1..]), t);
      } else if |s| >= 3 {
        CodeExact(s[1], s[2], t[0]);
        DecodeExact(s[3..], t[1..]);
        if IsHex(s[1]) && IsHex(s[2]) {
          Prepended((16 * HexValue(s[1]) + HexValue(s[2])) as char, Unescape(s[3..]), t);
        }
      }
    }
  }

  lemma Prepended(c: char, d: Decoded, t: string)
    requires t != ""
    ensures Prepend(c, d) == Text(t) <==> c == t[0] && d == Text(t[1..])
  {
    if d.Text? {
      assert ([c] + d.text)[1..] == d.text;
      assert t == [t[0]] + t[1..];
    }
  }
}

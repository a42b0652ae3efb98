/** Quoting of strings, escape decoding, UTF-8. */
module JsonStrings {
  import opened Text
  import opened OrderedMap

  // ----- UTF-8 -----

  /** `codePointToUTF8`; bytes are characters below 256, and the masks are written as remainders. */
  function CodePointToUtf8(cp: nat): (r: string)
    ensures forall i :: 0 <= i < |r| ==> r[i] as int < 256
  {
    if cp <= 0x7F then [cp as char]
    else if cp <= 0x7FF then [(0xC0 + cp / 0x40 % 0x20) as char, (0x80 + cp % 0x40) as char]
    else if cp <= 0xFFFF then
      [(0xE0 + cp / 0x1000 % 0x10) as char, (0x80 + cp / 0x40 % 0x40) as char, (0x80 + cp % 0x40) as char]
    else if cp <= 0x10FFFF then
      [(0xF0 + cp / 0x40000 % 8) as char, (0x80 + cp / 0x1000 % 0x40) as char,
       (0x80 + cp / 0x40 % 0x40) as char, (0x80 + cp % 0x40) as char]
    else ""
  }

  /** UTF8-tail of section 4 of RFC 3629. */
  predicate Tail(c: char) {
    0x80 <= c as int <= 0xBF
  }

  /** UTF8-char of section 4 of RFC 3629. */
  predicate WellFormedUtf8(r: string) {
    match |r|
    case 1 => r[0] as int <= 0x7F
    case 2 => 0xC2 <= r[0] as int <= 0xDF && Tail(r[1])
    case 3 =>
      && Tail(r[1]) && Tail(r[2])
      && ((r[0] as int == 0xE0 && 0xA0 <= r[1] as int)
          || 0xE1 <= r[0] as int <= 0xEC
          || (r[0] as int == 0xED && r[1] as int <= 0x9F)
          || 0xEE <= r[0] as int <= 0xEF)
    case 4 =>
      && Tail(r[1]) && Tail(r[2]) && Tail(r[3])
      && ((r[0] as int == 0xF0 && 0x90 <= r[1] as int)
          || 0xF1 <= r[0] as int <= 0xF3
          || (r[0] as int == 0xF4 && r[1] as int <= 0x8F))
    case _ => false
  }

  /** The number an octet sequence carries by the bit distribution of section 3 of RFC 3629. */
  function Utf8Value(r: string): int {
    match |r|
    case 1 => r[0] as int
    case 2 => (r[0] as int - 0xC0) * 0x40 + (r[1] as int - 0x80)
    case 3 => (r[0] as int - 0xE0) * 0x1000 + (r[1] as int - 0x80) * 0x40 + (r[2] as int - 0x80)
    case 4 => (r[0] as int - 0xF0) * 0x40000 + (r[1] as int - 0x80) * 0x1000 + (r[2] as int - 0x80) * 0x40 +
      (r[3] as int - 0x80)
    case _ => -1
  }

  predicate Surrogate(cp: nat) {
    0xD800 <= cp <= 0xDFFF
  }

  /** The base-64 digits of a code point. */
  lemma SixBitGroups(cp: nat) returns (u: nat, z: nat, y: nat, x: nat)
    ensures u == cp / 0x40000 && z == cp / 0x1000 % 0x40 && y == cp / 0x40 % 0x40 && x == cp % 0x40
    ensures cp == u * 0x40000 + z * 0x1000 + y * 0x40 + x
    ensures cp / 0x1000 == u * 0x40 + z && cp / 0x40 == u * 0x1000 + z * 0x40 + y
  {
    u, z, y, x := cp / 0x40000, cp / 0x1000 % 0x40, cp / 0x40 % 0x40, cp % 0x40;
  }

  lemma FromSixBitGroups(u: nat, z: nat, y: nat, x: nat)
    requires z < 0x40 && y < 0x40 && x < 0x40
    ensures var cp := u * 0x40000 + z * 0x1000 + y * 0x40 + x;
      && cp / 0x40000 == u && cp / 0x1000 == u * 0x40 + z && cp / 0x1000 % 0x40 == z
      && cp / 0x40 == u * 0x1000 + z * 0x40 + y && cp / 0x40 % 0x40 == y && cp % 0x40 == x
  {
    var cp := u * 0x40000 + z * 0x1000 + y * 0x40 + x;
    assert cp == 0x40 * (u * 0x1000 + z * 0x40 + y) + x;
    assert cp == 0x1000 * (u * 0x40 + z) + (y * 0x40 + x);
    assert cp == 0x40000 * u + (z * 0x1000 + y * 0x40 + x);
  }

  /** Every code point is carried by its bytes, so no two share them; they are a UTF8-char exactly
      for scalar values, the code points outside the surrogate range. */
  lemma Utf8Encoding(cp: nat)
    requires cp <= 0x10FFFF
    ensures Utf8Value(CodePointToUtf8(cp)) == cp
    ensures WellFormedUtf8(CodePointToUtf8(cp)) <==> !Surrogate(cp)
  {
    var u, z, y, x := SixBitGroups(cp);
    EncodingOfGroups(u, z, y, x);
    if cp <= 0x7F {
    } else if cp <= 0x7FF {
      TwoBytes(cp, y, x);
    } else if cp <= 0xFFFF {
      ThreeBytes(cp, z, y, x);
    } else {
      FourBytes(cp, u, z, y, x);
    }
  }

  lemma TwoBytes(cp: nat, y: nat, x: nat)
    requires x < 0x40 && cp == y * 0x40 + x && 0x7F < cp <= 0x7FF
    ensures var r := [(0xC0 + y) as char, (0x80 + x) as char];
      Utf8Value(r) == cp && WellFormedUtf8(r) && !Surrogate(cp)
  {
  }

  lemma ThreeBytes(cp: nat, z: nat, y: nat, x: nat)
    requires z < 0x10 && y < 0x40 && x < 0x40 && cp == z * 0x1000 + y * 0x40 + x && 0x7FF < cp <= 0xFFFF
    ensures var r := [(0xE0 + z) as char, (0x80 + y) as char, (0x80 + x) as char];
      && Utf8Value(r) == cp && (WellFormedUtf8(r) <==> !Surrogate(cp))
  {
  }

  lemma FourBytes(cp: nat, u: nat, z: nat, y: nat, x: nat)
    requires z < 0x40 && y < 0x40 && x < 0x40 && cp == u * 0x40000 + z * 0x1000 + y * 0x40 + x
    requires 0xFFFF < cp <= 0x10FFFF
    ensures u < 8
    ensures var r := [(0xF0 + u) as char, (0x80 + z) as char, (0x80 + y) as char, (0x80 + x) as char];
      && Utf8Value(r) == cp && WellFormedUtf8(r)
  {
  }

  /** The encoding of a code point given by its base-64 digits. */
  lemma EncodingOfGroups(u: nat, z: nat, y: nat, x: nat)
    requires z < 0x40 && y < 0x40 && x < 0x40
    ensures var cp := u * 0x40000 + z * 0x1000 + y * 0x40 + x;
      && (0x7F < cp <= 0x7FF ==> CodePointToUtf8(cp) == [(0xC0 + y) as char, (0x80 + x) as char])
      && (0x7FF < cp <= 0xFFFF ==> CodePointToUtf8(cp) == [(0xE0 + z) as char, (0x80 + y) as char, (0x80 + x) as char])
      && (0xFFFF < cp <= 0x10FFFF ==>
        (u < 8 && CodePointToUtf8(cp) ==
          [(0xF0 + u) as char, (0x80 + z) as char, (0x80 + y) as char, (0x80 + x) as char]))
  {
    var cp := u * 0x40000 + z * 0x1000 + y * 0x40 + x;
    FromSixBitGroups(u, z, y, x);
    assert cp <= 0x7FF ==> u == 0 && z == 0 && y < 0x20;
    assert cp <= 0xFFFF ==> u == 0 && z < 0x10;
  }

  /** The other way round: a UTF8-char is the encoding of the number it carries. */
  lemma Utf8Decoding(r: string)
    requires WellFormedUtf8(r)
    ensures 0 <= Utf8Value(r) <= 0x10FFFF && !Surrogate(Utf8Value(r))
    ensures CodePointToUtf8(Utf8Value(r)) == r
  {
    if |r| == 1 {
      assert r == [Utf8Value(r) as char];
    } else {
      ValueRange(r);
      if |r| == 2 {
        DecodingOfTwo(r);
      } else if |r| == 3 {
        DecodingOfThree(r);
      } else {
        DecodingOfFour(r);
      }
    }
  }

  lemma DecodingOfTwo(r: string)
    requires WellFormedUtf8(r) && |r| == 2 && 0x7F < Utf8Value(r) <= 0x7FF
    ensures CodePointToUtf8(Utf8Value(r)) == r
  {
    EncodingOfGroups(0, 0, r[0] as int - 0xC0, r[1] as int - 0x80);
  }

  lemma DecodingOfThree(r: string)
    requires WellFormedUtf8(r) && |r| == 3 && 0x7FF < Utf8Value(r) <= 0xFFFF
    ensures CodePointToUtf8(Utf8Value(r)) == r
  {
    EncodingOfGroups(0, r[0] as int - 0xE0, r[1] as int - 0x80, r[2] as int - 0x80);
  }

  lemma DecodingOfFour(r: string)
    requires WellFormedUtf8(r) && |r| == 4 && 0xFFFF < Utf8Value(r) <= 0x10FFFF
    ensures CodePointToUtf8(Utf8Value(r)) == r
  {
    EncodingOfGroups(r[0] as int - 0xF0, r[1] as int - 0x80, r[2] as int - 0x80, r[3] as int - 0x80);
  }

  /** The length of a UTF8-char tells the range of its number. */
  lemma ValueRange(r: string)
    requires WellFormedUtf8(r)
    ensures |r| == 2 ==> 0x7F < Utf8Value(r) <= 0x7FF
    ensures |r| == 3 ==> 0x7FF < Utf8Value(r) <= 0xFFFF && !Surrogate(Utf8Value(r))
    ensures |r| == 4 ==> 0xFFFF < Utf8Value(r) <= 0x10FFFF
  {
  }

  // ----- escapes -----

  datatype StringMessage =
    | EmptyEscape
    | BadEscape
    | FourDigitsExpected
    | HexDigitExpected
    | SixCharactersExpected
    | SecondHalfExpected

  /** A code point and the position after it, or what is wrong and where. */
  datatype CodePoint = CodePoint(cp: nat, next: nat) | BadCodePoint(message: StringMessage, extra: nat)

  function HexValue(c: char): (r: Option<nat>)
    ensures r.Some? ==> r.value < 16
  {
    if '0' <= c <= '9' then Some(c as int - '0' as int)
    else if 'a' <= c <= 'f' then Some(c as int - 'a' as int + 10)
    else if 'A' <= c <= 'F' then Some(c as int - 'A' as int + 10)
    else None
  }

  /** The hexadecimal digits up to `stop`, behind the number `read` so far. */
  function DecodeHex(s: string, p: nat, stop: nat, read: nat): (r: CodePoint)
    requires p <= stop <= |s|
    ensures r.CodePoint? ==> r.next == stop
    decreases stop - p
  {
    if p == stop then CodePoint(read, p)
    else match HexValue(s[p])
      case Some(d) => DecodeHex(s, p + 1, stop, read * 16 + d)
      case None => BadCodePoint(HexDigitExpected, p + 1)
  }

  /** `decodeUnicodeEscapeSequence`. */
  function DecodeEscapeSequence(s: string, p: nat, end: nat): (r: CodePoint)
    requires p <= end <= |s|
    ensures r.CodePoint? ==> r.next == p + 4 <= end
  {
    if end - p < 4 then BadCodePoint(FourDigitsExpected, p) else DecodeHex(s, p, p + 4, 0)
  }

  predicate HighSurrogate(cp: nat) {
    0xD800 <= cp <= 0xDBFF
  }

  /** The code point of a surrogate pair; the second half is not checked to be a low surrogate. */
  function Combine(high: nat, low: nat): nat {
    0x10000 + high % 0x400 * 0x400 + low % 0x400
  }

  /** `decodeUnicodeCodePoint`: the characters after a first backslash and `u`. */
  function DecodeCodePoint(s: string, p: nat, end: nat): (r: CodePoint)
    requires p <= end <= |s|
    ensures r.CodePoint? ==> p < r.next <= end
  {
    match DecodeEscapeSequence(s, p, end)
    case BadCodePoint(m, x) => BadCodePoint(m, x)
    case CodePoint(first, q) =>
      if !HighSurrogate(first) then CodePoint(first, q)
      else if end - q < 6 then BadCodePoint(SixCharactersExpected, q)
      else if s[q] != '\\' then BadCodePoint(SecondHalfExpected, q + 1)
      else if s[q + 1] != 'u' then BadCodePoint(SecondHalfExpected, q + 2)
      else match DecodeEscapeSequence(s, q + 2, end)
        case BadCodePoint(m, x) => BadCodePoint(m, x)
        case CodePoint(second, next) => CodePoint(Combine(first, second), next)
  }

  lemma {:induction false} HexBound(s: string, p: nat, stop: nat, read: nat, bound: nat)
    requires p <= stop <= |s| && read < bound
    ensures DecodeHex(s, p, stop, read).CodePoint? ==> DecodeHex(s, p, stop, read).cp < bound * Pow16(stop - p)
    decreases stop - p
  {
    if p < stop && HexValue(s[p]).Some? {
      HexBound(s, p + 1, stop, read * 16 + HexValue(s[p]).value, bound * 16);
      assert bound * 16 * Pow16(stop - p - 1) == bound * Pow16(stop - p);
    }
  }

  function Pow16(k: nat): nat {
    if k == 0 then 1 else 16 * Pow16(k - 1)
  }

  /** What decodes is a code point of Unicode, and never the first half of a pair. */
  lemma DecodedCodePoint(s: string, p: nat, end: nat)
    requires p <= end <= |s|
    ensures DecodeCodePoint(s, p, end).CodePoint? ==>
      DecodeCodePoint(s, p, end).cp <= 0x10FFFF && !HighSurrogate(DecodeCodePoint(s, p, end).cp)
  {
    if end - p >= 4 {
      HexBound(s, p, p + 4, 0, 1);
      assert Pow16(4) == 0x10000;
    }
  }

  function HexDigit(d: nat): (c: char)
    requires d < 16
    ensures HexValue(c) == Some(d)
  {
    if d < 10 then (d + '0' as int) as char else (d - 10 + 'A' as int) as char
  }

  /** Four upper-case hexadecimal digits. */
  function Hex4(n: nat): (t: string)
    requires n < 0x10000
    ensures |t| == 4
  {
    [HexDigit(n / 0x1000), HexDigit(n / 0x100 % 0x10), HexDigit(n / 0x10 % 0x10), HexDigit(n % 0x10)]
  }

  lemma Hex4Decodes(s: string, p: nat, end: nat, n: nat)
    requires n < 0x10000 && p + 4 <= end <= |s| && At(s, p, Hex4(n))
    ensures DecodeEscapeSequence(s, p, end) == CodePoint(n, p + 4)
  {
    AtChars(s, p, Hex4(n));
    var t := Hex4(n);
    assert s[p] == t[0] && s[p + 1] == t[1] && s[p + 2] == t[2] && s[p + 3] == t[3];
    HexDigits(n);
    HexDigitDecodes(s, p, p + 4, n / 0x1000);
    HexDigitDecodes(s, p + 1, p + 4, n / 0x100);
    HexDigitDecodes(s, p + 2, p + 4, n / 0x10);
    HexDigitDecodes(s, p + 3, p + 4, n);
  }

  lemma HexDigits(n: nat)
    requires n < 0x10000
    ensures n / 0x10 / 0x10 == n / 0x100 && n / 0x100 / 0x10 == n / 0x1000
    ensures n / 0x1000 / 0x10 == 0 && n / 0x1000 % 0x10 == n / 0x1000
  {
  }

  lemma HexDigitDecodes(s: string, p: nat, stop: nat, n: nat)
    requires p < stop <= |s| && s[p] == HexDigit(n % 0x10)
    ensures DecodeHex(s, p, stop, n / 0x10) == DecodeHex(s, p + 1, stop, n)
  {
  }

  /** The twelve-character form of section 7 of RFC 8259 for a code point beyond the basic plane. */
  function SurrogatePair(cp: nat): string
    requires 0x10000 <= cp <= 0x10FFFF
  {
    "\\u" + Hex4(0xD800 + (cp - 0x10000) / 0x400) + "\\u" + Hex4(0xDC00 + (cp - 0x10000) % 0x400)
  }

  /** Every supplementary code point is recovered from its pair. */
  lemma SurrogatePairDecodes(s: string, p: nat, end: nat, cp: nat)
    requires 0x10000 <= cp <= 0x10FFFF
    requires At(s, p, SurrogatePair(cp)) && p + 12 <= end <= |s|
    ensures DecodeCodePoint(s, p + 2, end) == CodePoint(cp, p + 12)
  {
    var high, low := 0xD800 + (cp - 0x10000) / 0x400, 0xDC00 + (cp - 0x10000) % 0x400;
    PairHalves(cp - 0x10000);
    AtPair(s, p, high, low);
    Hex4Decodes(s, p + 2, end, high);
    Hex4Decodes(s, p + 8, end, low);
  }

  lemma PairHalves(offset: nat)
    requires offset <= 0xFFFFF
    ensures var high, low := 0xD800 + offset / 0x400, 0xDC00 + offset % 0x400;
      HighSurrogate(high) && low < 0x10000 && Combine(high, low) == 0x10000 + offset
  {
    var q, r := offset / 0x400, offset % 0x400;
    assert (0xD800 + q) % 0x400 == q && (0xDC00 + r) % 0x400 == r;
  }

  lemma AtPair(s: string, p: nat, high: nat, low: nat)
    requires high < 0x10000 && low < 0x10000
    requires At(s, p, "\\u" + Hex4(high) + "\\u" + Hex4(low))
    ensures p + 12 <= |s| && s[p + 6] == '\\' && s[p + 7] == 'u'
    ensures At(s, p + 2, Hex4(high)) && At(s, p + 8, Hex4(low))
  {
    AtConcat(s, p, "\\u" + Hex4(high) + "\\u", Hex4(low));
    AtConcat(s, p, "\\u" + Hex4(high), "\\u");
    AtConcat(s, p, "\\u", Hex4(high));
    AtChars(s, p + 6, "\\u");
  }

  /** The contents of a string token, or what is wrong with it and where. */
  datatype Decoded = Decoded(text: string) | Undecodable(message: StringMessage, extra: nat)

  function Prepend(t: string, d: Decoded): Decoded {
    match d
    case Decoded(u) => Decoded(t + u)
    case Undecodable(_, _) => d
  }

  /** The character a one-letter escape stands for. */
  function SimpleEscape(c: char): Option<char> {
    match c
    case '\"' => Some('\"')
    case '/' => Some('/')
    case '\\' => Some('\\')
    case 'b' => Some(8 as char)
    case 'f' => Some(12 as char)
    case 'n' => Some('\n')
    case 'r' => Some('\r')
    case 't' => Some('\t')
    case _ => None
  }

  /** `decodeString` from position `p`; `end` is the position of the closing quote. */
  function DecodeChars(s: string, p: nat, end: nat): Decoded
    requires p <= end <= |s|
    decreases end - p, 1
  {
    if p == end || s[p] == '\"' then Decoded("")
    else if s[p] != '\\' then Prepend([s[p]], DecodeChars(s, p + 1, end))
    else DecodeEscaped(s, p + 1, end)
  }

  /** The same, behind a backslash. */
  function DecodeEscaped(s: string, p: nat, end: nat): Decoded
    requires p <= end <= |s|
    decreases end - p, 0
  {
    if p == end then Undecodable(EmptyEscape, end)
    else if s[p] == 'u' then
      match DecodeCodePoint(s, p + 1, end)
      case BadCodePoint(m, x) => Undecodable(m, x)
      case CodePoint(cp, next) => Prepend(CodePointToUtf8(cp), DecodeChars(s, next, end))
    else
      match SimpleEscape(s[p])
      case Some(c) => Prepend([c], DecodeChars(s, p + 1, end))
      case None => Undecodable(BadEscape, p + 1)
  }

  // ----- quoting -----

  /** Characters 1 to 31 (`isControlCharacter`). */
  predicate ControlCharacter(c: char) {
    0 < c as int <= 0x1F
  }

  predicate MustEscape(c: char) {
    c == '\"' || c == '\\' || ControlCharacter(c) || c == '\0'
  }

  /** What `valueToQuotedStringN` writes for one character. */
  function EscapeChar(c: char): (t: string)
    ensures t != ""
    ensures !MustEscape(c) <==> t == [c]
  {
    if c == '\"' then "\\\""
    else if c == '\\' then "\\\\"
    else if c == 8 as char then "\\b"
    else if c == 12 as char then "\\f"
    else if c == '\n' then "\\n"
    else if c == '\r' then "\\r"
    else if c == '\t' then "\\t"
    else if ControlCharacter(c) || c == '\0' then "\\u" + Hex4(c as int)
    else [c]
  }

  function Escape(t: string): string
    decreases t, 1
  {
    if t == "" then "" else EscapeNonempty(t)
  }

  function EscapeNonempty(t: string): string
    requires t != ""
    decreases t, 0
  {
    EscapeChar(t[0]) + Escape(t[1..])
  }

  function Quote(t: string): string {
    "\"" + Escape(t) + "\""
  }

  /** `readString`: the position after the closing quote, if there is one. */
  function StringEnd(s: string, p: nat): (r: (bool, nat))
    requires p <= |s|
    ensures p <= r.1 <= |s| && (r.0 ==> p < r.1 && s[r.1 - 1] == '\"')
    decreases |s| - p
  {
    if p == |s| then (false, p)
    else if s[p] == '\\' then StringEnd(s, if p + 1 == |s| then p + 1 else p + 2)
    else if s[p] == '\"' then (true, p + 1)
    else StringEnd(s, p + 1)
  }

  lemma {:induction false} PlainScan(s: string, p: nat, n: nat)
    requires p + n <= |s|
    requires forall i :: p <= i < p + n ==> s[i] != '\"' && s[i] != '\\'
    ensures StringEnd(s, p) == StringEnd(s, p + n)
    decreases n
  {
    if n > 0 {
      PlainScan(s, p + 1, n - 1);
    }
  }

  lemma EscapeCharScans(s: string, p: nat, c: char)
    requires At(s, p, EscapeChar(c))
    ensures StringEnd(s, p) == StringEnd(s, p + |EscapeChar(c)|)
  {
    var t := EscapeChar(c);
    AtChars(s, p, t);
    if |t| == 6 {
      assert t[0] == '\\' && t[2..] == Hex4(c as int);
      forall k | p + 2 <= k < p + 6
        ensures s[k] != '\"' && s[k] != '\\'
      {
        assert s[p + (k - p)] == t[k - p] == Hex4(c as int)[k - p - 2];
        assert HexValue(s[k]).Some?;
      }
      PlainScan(s, p + 2, 4);
    } else if |t| == 2 {
      assert t[0] == '\\';
    }
  }

  lemma EscapeCharDecodes(s: string, p: nat, end: nat, c: char)
    requires At(s, p, EscapeChar(c)) && p + |EscapeChar(c)| <= end <= |s|
    ensures DecodeChars(s, p, end) == Prepend([c], DecodeChars(s, p + |EscapeChar(c)|, end))
  {
    var t := EscapeChar(c);
    AtChars(s, p, t);
    if |t| > 1 {
      assert s[p] == t[0] == '\\' && s[p + 1] == t[1];
      assert DecodeChars(s, p, end) == DecodeEscaped(s, p + 1, end);
    }
    if |t| == 6 {
      AtConcat(s, p, "\\u", Hex4(c as int));
      Hex4Decodes(s, p + 2, end, c as int);
      assert s[p] == t[0] == '\\' && s[p + 1] == t[1] == 'u';
      assert DecodeCodePoint(s, p + 2, end) == CodePoint(c as int, p + 6);
      assert CodePointToUtf8(c as int) == [c];
    } else if |t| == 2 {
      assert s[p] == t[0] == '\\' && s[p + 1] == t[1];
      assert SimpleEscape(t[1]) == Some(c);
    } else {
      assert s[p] == c;
    }
  }

  lemma {:induction false} QuoteScans(s: string, p: nat, t: string)
    requires At(s, p, Escape(t) + "\"")
    ensures StringEnd(s, p) == (true, p + |Escape(t)| + 1)
    decreases |t|
  {
    if t == "" {
      AtFirst(s, p, "\"");
    } else {
      EscapeUnfolds(s, p, t);
      EscapeCharScans(s, p, t[0]);
      QuoteScans(s, p + |EscapeChar(t[0])|, t[1..]);
    }
  }

  lemma {:induction false} QuoteDecodes(s: string, p: nat, end: nat, t: string)
    requires At(s, p, Escape(t) + "\"") && end == p + |Escape(t)|
    ensures end <= |s| && DecodeChars(s, p, end) == Decoded(t)
    decreases |t|
  {
    if t == "" {
      AtFirst(s, p, "\"");
    } else {
      EscapeUnfolds(s, p, t);
      QuoteDecodes(s, p + |EscapeChar(t[0])|, end, t[1..]);
      EscapeCharDecodes(s, p, end, t[0]);
      assert [t[0]] + t[1..] == t;
    }
  }

  /** Reading a quoted string consumes exactly the printed text and gives the string back. */
  lemma QuoteRoundTrip(s: string, p: nat, t: string)
    requires At(s, p, Escape(t) + "\"")
    ensures StringEnd(s, p) == (true, p + |Escape(t)| + 1)
    ensures DecodeChars(s, p, p + |Escape(t)|) == Decoded(t)
  {
    QuoteScans(s, p, t);
    QuoteDecodes(s, p, p + |Escape(t)|, t);
  }

  lemma EscapeUnfolds(s: string, p: nat, t: string)
    requires t != "" && At(s, p, Escape(t) + "\"")
    ensures var e := EscapeChar(t[0]);
      At(s, p, e) && At(s, p + |e|, Escape(t[1..]) + "\"") && |Escape(t)| == |e| + |Escape(t[1..])|
    ensures p + |Escape(t)| <= |s|
  {
    var e := EscapeChar(t[0]);
    assert Escape(t) == EscapeNonempty(t) == e + Escape(t[1..]);
    assert Escape(t) + "\"" == e + (Escape(t[1..]) + "\"");
    AtConcat(s, p, e, Escape(t[1..]) + "\"");
  }

  // ----- the printing code -----

  lemma {:induction false} NothingToEscape(t: string)
    requires forall i :: 0 <= i < |t| ==> !MustEscape(t[i])
    ensures Escape(t) == t
  {
    if t != "" {
      assert Escape(t) == EscapeNonempty(t);
      NothingToEscape(t[1..]);
    }
  }

  lemma {:induction false} EscapeConcat(a: string, b: string)
    ensures Escape(a + b) == Escape(a) + Escape(b)
  {
    if a == "" {
      assert a + b == b;
    } else {
      assert (a + b)[1..] == a[1..] + b;
      assert Escape(a) == EscapeNonempty(a) && Escape(a + b) == EscapeNonempty(a + b);
      EscapeConcat(a[1..], b);
    }
  }

  /** `strnpbrk` and `containsControlCharacter0` together. */
  method NeedsEscapes(value: string) returns (r: bool)
    ensures r <==> exists i :: 0 <= i < |value| && MustEscape(value[i])
  {
    for i := 0 to |value|
      invariant forall j :: 0 <= j < i ==> value[j] !in "\"\\\n\r\t" && value[j] != 8 as char && value[j] != 12 as char
    {
      if value[i] in "\"\\\n\r\t" || value[i] == 8 as char || value[i] == 12 as char {
        return true;
      }
    }
    for i := 0 to |value|
      invariant forall j :: 0 <= j < i ==> !ControlCharacter(value[j]) && value[j] != '\0'
    {
      if ControlCharacter(value[i]) || value[i] == '\0' {
        return true;
      }
    }
    return false;
  }

  /** `valueToQuotedStringN`. The buffer ends with a NUL, so the shortcut prints its C string. */
  method ValueToQuotedString(value: string) returns (result: string)
    ensures result == Quote(value)
  {
    var needed := NeedsEscapes(value);
    if !needed {
      NothingToEscape(value);
      assert '\0' !in value;
      return "\"" + CString(value) + "\"";
    }
    result := "\"";
    for i := 0 to |value|
      invariant result == "\"" + Escape(value[..i])
    {
      EscapeConcat(value[..i], [value[i]]);
      assert value[..i + 1] == value[..i] + [value[i]];
      assert Escape([value[i]]) == EscapeNonempty([value[i]]) == EscapeChar(value[i]) + Escape([value[i]][1..]);
      assert [value[i]][1..] == "";
      result := result + EscapeChar(value[i]);
    }
    assert value[..|value|] == value;
    result := result + "\"";
  }
}

/** What the contents of a string stand for, piece by piece, and how strings are escaped in print. */
module JsonEscapes {
  import opened OrderedMap
  import opened JsonStrings

  // ----- hexadecimal digits -----

  /** The digit `c`, in either case, has the value `d`. */
  predicate IsHexDigit(c: char, d: nat) {
    d < 16 && (c == "0123456789abcdef"[d] || c == "0123456789ABCDEF"[d])
  }

  const HEX_DIGITS := "0123456789abcdefABCDEF"

  /** Four digits, the highest one first. */
  ghost predicate FourHex(x: string, n: nat) {
    |x| == 4 && exists a: nat, b: nat, c: nat, d: nat ::
      IsHexDigit(x[0], a) && IsHexDigit(x[1], b) && IsHexDigit(x[2], c) && IsHexDigit(x[3], d) &&
      n == 4096 * a + 256 * b + 16 * c + d
  }

  lemma OtherCharacter(c: char)
    ensures HexValue(c).Some? <==> c in HEX_DIGITS
  {
    if HexValue(c).Some? {
      HexDigitValue(c, HexValue(c).value);
      var d := HexValue(c).value;
      assert HEX_DIGITS[d] == "0123456789abcdef"[d];
      assert d >= 10 ==> HEX_DIGITS[d + 6] == "0123456789ABCDEF"[d];
    }
    if c in HEX_DIGITS {
      var i :| 0 <= i < |HEX_DIGITS| && HEX_DIGITS[i] == c;
      HexDigitValue(c, if i < 16 then i else i - 6);
    }
  }

  lemma HexDigitValue(c: char, d: nat)
    ensures HexValue(c) == Some(d) <==> IsHexDigit(c, d)
  {
    if d < 16 {
      HexRow(d);
    }
  }

  lemma HexRow(d: nat)
    requires d < 16
    ensures "0123456789abcdef"[d] == (if d < 10 then ('0' as int + d) as char else ('a' as int + d - 10) as char)
    ensures "0123456789ABCDEF"[d] == (if d < 10 then ('0' as int + d) as char else ('A' as int + d - 10) as char)
  {
  }

  /** The digits are read one behind the other. */
  lemma FourDigitsRead(s: string, p: nat, end: nat, a: nat, b: nat, c: nat, d: nat)
    requires p + 4 <= end <= |s|
    requires IsHexDigit(s[p], a) && IsHexDigit(s[p + 1], b) && IsHexDigit(s[p + 2], c) && IsHexDigit(s[p + 3], d)
    ensures DecodeEscapeSequence(s, p, end) == CodePoint(4096 * a + 256 * b + 16 * c + d, p + 4)
  {
    HexDigitValue(s[p], a);
    HexDigitValue(s[p + 1], b);
    HexDigitValue(s[p + 2], c);
    HexDigitValue(s[p + 3], d);
    assert DecodeHex(s, p + 3, p + 4, 256 * a + 16 * b + c) == CodePoint(4096 * a + 256 * b + 16 * c + d, p + 4);
    assert DecodeHex(s, p + 2, p + 4, 16 * a + b) == DecodeHex(s, p + 3, p + 4, 256 * a + 16 * b + c);
    assert DecodeHex(s, p + 1, p + 4, a) == DecodeHex(s, p + 2, p + 4, 16 * a + b);
  }

  /** What is no digit is reported with the place behind it. */
  lemma {:induction false} HexError(s: string, p: nat, stop: nat, read: nat)
    requires p <= stop <= |s|
    ensures var r := DecodeHex(s, p, stop, read);
      r.BadCodePoint? ==> r.message == HexDigitExpected && p < r.extra <= stop && s[r.extra - 1] !in HEX_DIGITS
    ensures DecodeHex(s, p, stop, read).CodePoint? ==>
      forall i :: p <= i < stop ==> HexValue(s[i]).Some?
    decreases stop - p
  {
    if p < stop {
      OtherCharacter(s[p]);
      if HexValue(s[p]).Some? {
        HexError(s, p + 1, stop, read * 16 + HexValue(s[p]).value);
      }
    }
  }

  /** An escape sequence reads as a number exactly if four digits of that number stand there. */
  lemma EscapeSequenceExactly(s: string, p: nat, end: nat, n: nat)
    requires p <= end <= |s|
    ensures DecodeEscapeSequence(s, p, end) == CodePoint(n, p + 4) <==> p + 4 <= end && FourHex(s[p..p + 4], n)
  {
    if p + 4 <= end {
      if FourHex(s[p..p + 4], n) {
        var a: nat, b: nat, c: nat, d: nat :|
          IsHexDigit(s[p], a) && IsHexDigit(s[p + 1], b) && IsHexDigit(s[p + 2], c) && IsHexDigit(s[p + 3], d) &&
          n == 4096 * a + 256 * b + 16 * c + d;
        FourDigitsRead(s, p, end, a, b, c, d);
      }
      if DecodeEscapeSequence(s, p, end).CodePoint? {
        DigitsThere(s, p, end);
      }
    }
  }

  lemma DigitsThere(s: string, p: nat, end: nat)
    requires p + 4 <= end <= |s| && DecodeEscapeSequence(s, p, end).CodePoint?
    ensures FourHex(s[p..p + 4], DecodeEscapeSequence(s, p, end).cp)
  {
    HexError(s, p, p + 4, 0);
    var a, b, c, d :=
      HexValue(s[p]).value, HexValue(s[p + 1]).value, HexValue(s[p + 2]).value, HexValue(s[p + 3]).value;
    HexDigitValue(s[p], a);
    HexDigitValue(s[p + 1], b);
    HexDigitValue(s[p + 2], c);
    HexDigitValue(s[p + 3], d);
    FourDigitsRead(s, p, end, a, b, c, d);
  }

  // ----- the pieces of a string -----

  /** An escape of one letter and the character it stands for. */
  predicate IsLetterEscape(letter: char, c: char) {
    exists k :: 0 <= k < 8 && letter == "\"\\/bfnrt"[k] &&
      c as int == [0x22, 0x5C, 0x2F, 0x08, 0x0C, 0x0A, 0x0D, 0x09][k]
  }

  /** A character of its own, an escape of one letter, an escape of four digits, or two of these. */
  datatype Piece =
    | Plain(c: char)
    | Letter(letter: char, c: char)
    | Unit(digits: string, cp: nat)
    | Pair(high: string, low: string, bits: nat, second: nat)

  ghost predicate PieceRule(x: Piece) {
    match x
    case Plain(c) => c != '\"' && c != '\\'
    case Letter(letter, c) => IsLetterEscape(letter, c)
    case Unit(digits, cp) => FourHex(digits, cp) && !(0xD800 <= cp <= 0xDBFF)
    case Pair(high, low, bits, second) => FourHex(high, 0xD800 + bits) && bits < 0x400 && FourHex(low, second)
  }

  function PieceText(x: Piece): string {
    match x
    case Plain(c) => [c]
    case Letter(letter, _) => ['\\', letter]
    case Unit(digits, _) => "\\u" + digits
    case Pair(high, low, _, _) => "\\u" + high + ("\\u" + low)
  }

  /** The code point of an escape with digits. Of the second half of a pair only the lower ten bits count. */
  function PieceCodePoint(x: Piece): nat
    requires x.Unit? || x.Pair?
  {
    if x.Unit? then x.cp else 0x10000 + 0x400 * x.bits + x.second % 0x400
  }

  /** The bytes that a piece stands for. */
  function PieceBytes(x: Piece): string {
    if x.Unit? || x.Pair? then CodePointToUtf8(PieceCodePoint(x)) else [x.c]
  }

  ghost predicate PiecesRule(xs: seq<Piece>) {
    forall i :: 0 <= i < |xs| ==> PieceRule(xs[i])
  }

  function PiecesText(xs: seq<Piece>): string {
    if xs == [] then "" else PieceText(xs[0]) + PiecesText(xs[1..])
  }

  function PiecesBytes(xs: seq<Piece>): string {
    if xs == [] then "" else PieceBytes(xs[0]) + PiecesBytes(xs[1..])
  }

  lemma LetterTable(letter: char, c: char)
    ensures IsLetterEscape(letter, c) <==> SimpleEscape(letter) == Some(c)
    ensures IsLetterEscape(letter, c) ==> letter != 'u'
  {
    var letters, codes := "\"\\/bfnrt", [0x22, 0x5C, 0x2F, 0x08, 0x0C, 0x0A, 0x0D, 0x09];
    if SimpleEscape(letter) == Some(c) {
      var k := if letter == '\"' then 0 else if letter == '\\' then 1 else if letter == '/' then 2
        else if letter == 'b' then 3 else if letter == 'f' then 4 else if letter == 'n' then 5
        else if letter == 'r' then 6 else 7;
      assert letter == letters[k] && c as int == codes[k];
    }
  }

  predicate Shows(s: string, p: nat, end: nat, t: string) {
    p + |t| <= end <= |s| && s[p..p + |t|] == t
  }

  lemma PieceSize(x: Piece)
    requires PieceRule(x)
    ensures |PieceText(x)| == if x.Plain? then 1 else if x.Letter? then 2 else if x.Unit? then 6 else 12
  {
  }

  /** A piece at the front of the contents contributes its bytes. */
  lemma PieceDecodes(s: string, p: nat, end: nat, x: Piece, q: nat)
    requires PieceRule(x) && Shows(s, p, end, PieceText(x)) && q == p + |PieceText(x)|
    ensures DecodeChars(s, p, end) == Prepend(PieceBytes(x), DecodeChars(s, q, end))
  {
    PieceSize(x);
    match x {
      case Plain(c) => PlainDecodes(s, p, end, c);
      case Letter(letter, c) => LetterDecodes(s, p, end, letter, c);
      case Unit(digits, cp) => UnitDecodes(s, p, end, digits, cp);
      case Pair(high, low, bits, second) => PairDecodes(s, p, end, high, low, bits, second, PieceCodePoint(x));
    }
  }

  lemma PlainDecodes(s: string, p: nat, end: nat, c: char)
    requires c != '\"' && c != '\\' && Shows(s, p, end, [c])
    ensures DecodeChars(s, p, end) == Prepend([c], DecodeChars(s, p + 1, end))
  {
    assert s[p] == s[p..p + 1][0] == c;
  }

  lemma LetterDecodes(s: string, p: nat, end: nat, letter: char, c: char)
    requires IsLetterEscape(letter, c) && Shows(s, p, end, ['\\', letter])
    ensures DecodeChars(s, p, end) == Prepend([c], DecodeChars(s, p + 2, end))
  {
    assert s[p] == s[p..p + 2][0] == '\\' && s[p + 1] == s[p..p + 2][1] == letter;
    LetterTable(letter, c);
    assert DecodeChars(s, p, end) == DecodeEscaped(s, p + 1, end);
  }

  lemma EscapeAt(s: string, p: nat, end: nat, digits: string, n: nat)
    requires Shows(s, p, end, "\\u" + digits) && FourHex(digits, n)
    ensures s[p] == '\\' && s[p + 1] == 'u' && p + 6 <= end &&
      DecodeEscapeSequence(s, p + 2, end) == CodePoint(n, p + 6)
  {
    var t := "\\u" + digits;
    assert s[p] == t[0] && s[p + 1] == t[1];
    assert s[p + 2..p + 6] == digits by {
      assert t[2..] == digits;
      assert s[p..p + 6][2..] == s[p + 2..p + 6];
    }
    EscapeSequenceExactly(s, p + 2, end, n);
  }

  lemma UnitDecodes(s: string, p: nat, end: nat, digits: string, cp: nat)
    requires Shows(s, p, end, "\\u" + digits) && FourHex(digits, cp) && !(0xD800 <= cp <= 0xDBFF)
    ensures DecodeChars(s, p, end) == Prepend(CodePointToUtf8(cp), DecodeChars(s, p + 6, end))
  {
    EscapeAt(s, p, end, digits, cp);
    assert DecodeCodePoint(s, p + 2, end) == CodePoint(cp, p + 6);
    EscapeStep(s, p, end, cp, p + 6);
  }

  lemma PairDecodes(s: string, p: nat, end: nat, high: string, low: string, bits: nat, second: nat, cp: nat)
    requires cp == 0x10000 + 0x400 * bits + second % 0x400
    requires Shows(s, p, end, "\\u" + high + ("\\u" + low))
    requires FourHex(high, 0xD800 + bits) && bits < 0x400 && FourHex(low, second)
    ensures DecodeChars(s, p, end) == Prepend(CodePointToUtf8(cp), DecodeChars(s, p + 12, end))
  {
    PairParts(s, p, end, high, low);
    EscapeAt(s, p, end, high, 0xD800 + bits);
    EscapeAt(s, p + 6, end, low, second);
    HighBits(bits);
    PairCodePoint(s, p, end, 0xD800 + bits, second, cp);
    EscapeStep(s, p, end, cp, p + 12);
  }

  lemma EscapeStep(s: string, p: nat, end: nat, cp: nat, next: nat)
    requires p + 2 <= end <= |s| && s[p] == '\\' && s[p + 1] == 'u'
    requires DecodeCodePoint(s, p + 2, end) == CodePoint(cp, next)
    ensures DecodeChars(s, p, end) == Prepend(CodePointToUtf8(cp), DecodeChars(s, next, end))
  {
    assert DecodeChars(s, p, end) == DecodeEscaped(s, p + 1, end);
  }

  lemma PairCodePoint(s: string, p: nat, end: nat, first: nat, second: nat, cp: nat)
    requires cp == Combine(first, second)
    requires p + 12 <= end <= |s| && s[p + 6] == '\\' && s[p + 7] == 'u' && 0xD800 <= first <= 0xDBFF
    requires DecodeEscapeSequence(s, p + 2, end) == CodePoint(first, p + 6)
    requires DecodeEscapeSequence(s, p + 8, end) == CodePoint(second, p + 12)
    ensures DecodeCodePoint(s, p + 2, end) == CodePoint(cp, p + 12)
  {
  }

  lemma HighBits(bits: nat)
    requires bits < 0x400
    ensures (0xD800 + bits) % 0x400 == bits
  {
    assert 0xD800 + bits == 0x400 * 54 + bits;
  }

  lemma PairParts(s: string, p: nat, end: nat, high: string, low: string)
    requires |high| == |low| == 4 && Shows(s, p, end, "\\u" + high + ("\\u" + low))
    ensures Shows(s, p, end, "\\u" + high) && Shows(s, p + 6, end, "\\u" + low)
  {
    var t := "\\u" + high + ("\\u" + low);
    assert t[..6] == "\\u" + high && t[6..] == "\\u" + low;
    assert s[p..p + 12][..6] == s[p..p + 6] && s[p..p + 12][6..] == s[p + 6..p + 12];
  }

  /** Contents that decode begin with a piece. */
  lemma FirstPiece(s: string, p: nat, end: nat) returns (x: Piece)
    requires p < end <= |s| && s[p] != '\"' && DecodeChars(s, p, end).Decoded?
    ensures PieceRule(x) && Shows(s, p, end, PieceText(x))
  {
    if s[p] != '\\' {
      x := Plain(s[p]);
    } else {
      assert DecodeChars(s, p, end) == DecodeEscaped(s, p + 1, end);
      if s[p + 1] == 'u' {
        x := FirstEscape(s, p, end);
      } else {
        x := Letter(s[p + 1], SimpleEscape(s[p + 1]).value);
        LetterTable(s[p + 1], x.c);
        assert s[p..p + 2] == [s[p], s[p + 1]];
      }
    }
  }

  lemma FirstEscape(s: string, p: nat, end: nat) returns (x: Piece)
    requires p + 2 <= end <= |s| && s[p] == '\\' && s[p + 1] == 'u' && DecodeCodePoint(s, p + 2, end).CodePoint?
    ensures PieceRule(x) && Shows(s, p, end, PieceText(x))
  {
    var first := DecodeEscapeSequence(s, p + 2, end).cp;
    EscapeSequenceExactly(s, p + 2, end, first);
    assert s[p..p + 6] == "\\u" + s[p + 2..p + 6];
    if HighSurrogate(first) {
      var second := DecodeEscapeSequence(s, p + 8, end).cp;
      EscapeSequenceExactly(s, p + 8, end, second);
      assert s[p + 6..p + 12] == "\\u" + s[p + 8..p + 12];
      x := Pair(s[p + 2..p + 6], s[p + 8..p + 12], first - 0xD800, second);
      assert s[p..p + 12] == s[p..p + 6] + s[p + 6..p + 12];
    } else {
      x := Unit(s[p + 2..p + 6], first);
    }
  }

  // ----- what decodes, and to what -----

  /** The contents are these pieces, up to their end or to a quote. */
  ghost predicate Spelled(s: string, p: nat, end: nat, xs: seq<Piece>) {
    && PiecesRule(xs) && Shows(s, p, end, PiecesText(xs))
    && (p + |PiecesText(xs)| == end || s[p + |PiecesText(xs)|] == '\"')
  }

  /** Contents decode to a text exactly if they are pieces that stand for it. */
  lemma DecodedExactly(s: string, p: nat, end: nat, t: string)
    requires p <= end <= |s|
    ensures DecodeChars(s, p, end) == Decoded(t) <==> exists xs :: Spelled(s, p, end, xs) && PiecesBytes(xs) == t
  {
    if DecodeChars(s, p, end).Decoded? {
      var xs := FindPieces(s, p, end);
    }
    forall xs | Spelled(s, p, end, xs)
      ensures DecodeChars(s, p, end) == Decoded(PiecesBytes(xs))
    {
      PiecesDecode(s, p, end, xs);
    }
  }

  lemma {:induction false} PiecesDecode(s: string, p: nat, end: nat, xs: seq<Piece>)
    requires Spelled(s, p, end, xs)
    ensures DecodeChars(s, p, end) == Decoded(PiecesBytes(xs))
    decreases |xs|
  {
    if xs != [] {
      var q := p + |PieceText(xs[0])|;
      SpelledBehind(s, p, end, xs, q);
      PieceDecodes(s, p, end, xs[0], q);
      PiecesDecode(s, q, end, xs[1..]);
      JoinBytes(s, p, end, xs, q);
    }
  }

  lemma SpelledBehind(s: string, p: nat, end: nat, xs: seq<Piece>, q: nat)
    requires xs != [] && Spelled(s, p, end, xs) && q == p + |PieceText(xs[0])|
    ensures PieceRule(xs[0]) && Shows(s, p, end, PieceText(xs[0])) && Spelled(s, q, end, xs[1..])
  {
    TextBehind(s, p, end, xs, q, PieceText(xs[0]), PiecesText(xs[1..]));
  }

  lemma TextBehind(s: string, p: nat, end: nat, xs: seq<Piece>, q: nat, t: string, rest: string)
    requires PiecesText(xs) == t + rest && q == p + |t|
    ensures Shows(s, p, end, PiecesText(xs)) <==> Shows(s, p, end, t) && Shows(s, q, end, rest)
    ensures p + |PiecesText(xs)| == q + |rest|
  {
    ShowsParts(s, p, end, t, rest);
  }

  lemma JoinBytes(s: string, p: nat, end: nat, xs: seq<Piece>, q: nat)
    requires xs != [] && p <= q <= end <= |s| && DecodeChars(s, q, end) == Decoded(PiecesBytes(xs[1..]))
    requires DecodeChars(s, p, end) == Prepend(PieceBytes(xs[0]), DecodeChars(s, q, end))
    ensures DecodeChars(s, p, end) == Decoded(PiecesBytes(xs))
  {
  }

  lemma ShowsParts(s: string, p: nat, end: nat, a: string, b: string)
    ensures Shows(s, p, end, a + b) <==> Shows(s, p, end, a) && Shows(s, p + |a|, end, b)
  {
    if p + |a| + |b| <= end <= |s| {
      var q, e := p + |a|, p + |a| + |b|;
      assert s[p..e] == s[p..q] + s[q..e];
      assert (a + b)[..|a|] == a && (a + b)[|a|..] == b;
      assert s[p..e][..|a|] == s[p..q] && s[p..e][|a|..] == s[q..e];
    }
  }

  lemma {:induction false} FindPieces(s: string, p: nat, end: nat) returns (xs: seq<Piece>)
    requires p <= end <= |s| && DecodeChars(s, p, end).Decoded?
    ensures Spelled(s, p, end, xs) && DecodeChars(s, p, end) == Decoded(PiecesBytes(xs))
    decreases end - p
  {
    if p == end || s[p] == '\"' {
      xs := [];
    } else {
      var x := FirstPiece(s, p, end);
      var q := p + |PieceText(x)|;
      PieceSize(x);
      PieceDecodes(s, p, end, x, q);
      var rest := FindPieces(s, q, end);
      xs := [x] + rest;
      SpelledInFront(s, p, end, x, rest, q);
      JoinBytes(s, p, end, xs, q);
    }
  }

  lemma SpelledInFront(s: string, p: nat, end: nat, x: Piece, rest: seq<Piece>, q: nat)
    requires PieceRule(x) && Shows(s, p, end, PieceText(x)) && q == p + |PieceText(x)| && Spelled(s, q, end, rest)
    ensures Spelled(s, p, end, [x] + rest)
  {
    var xs := [x] + rest;
    assert xs[1..] == rest;
    TextBehind(s, p, end, xs, q, PieceText(x), PiecesText(rest));
  }

  // ----- what does not -----

  /** What is wrong with contents that do not decode, and where. */
  ghost predicate Explains(s: string, end: nat, m: StringMessage, extra: nat)
    requires end <= |s|
  {
    && extra <= end
    && match m
       case EmptyEscape => extra == end > 0 && s[end - 1] == '\\'
       case BadEscape => extra >= 2 && s[extra - 2] == '\\' && s[extra - 1] !in "\"\\/bfnrtu"
       case FourDigitsExpected => extra >= 2 && s[extra - 2] == '\\' && s[extra - 1] == 'u' && end < extra + 4
       case HexDigitExpected => extra > 0 && s[extra - 1] !in HEX_DIGITS
       case SixCharactersExpected => extra >= 4 && HighHalf(s, extra) && end < extra + 6
       case SecondHalfExpected =>
         (extra >= 5 && HighHalf(s, extra - 1) && s[extra - 1] != '\\') ||
         (extra >= 6 && HighHalf(s, extra - 2) && s[extra - 2] == '\\' && s[extra - 1] != 'u')
  }

  /** The digits of the first half of a pair stand in front of `q`. */
  ghost predicate HighHalf(s: string, q: nat)
    requires 4 <= q <= |s|
  {
    HighDigits(s[q - 4..q])
  }

  ghost predicate HighDigits(x: string) {
    exists n :: FourHex(x, n) && 0xD800 <= n <= 0xDBFF
  }

  lemma SequenceError(s: string, p: nat, end: nat)
    requires 2 <= p <= end <= |s| && s[p - 2] == '\\' && s[p - 1] == 'u'
    ensures var r := DecodeEscapeSequence(s, p, end); r.BadCodePoint? ==> Explains(s, end, r.message, r.extra)
  {
    if end - p >= 4 {
      HexError(s, p, p + 4, 0);
    }
  }

  lemma CodePointError(s: string, p: nat, end: nat)
    requires 2 <= p <= end <= |s| && s[p - 2] == '\\' && s[p - 1] == 'u'
    ensures var r := DecodeCodePoint(s, p, end); r.BadCodePoint? ==> Explains(s, end, r.message, r.extra)
  {
    SequenceError(s, p, end);
    var first := DecodeEscapeSequence(s, p, end);
    if first.CodePoint? && HighSurrogate(first.cp) {
      EscapeSequenceExactly(s, p, end, first.cp);
      assert HighHalf(s, p + 4);
      if end - p >= 10 && s[p + 4] == '\\' && s[p + 5] == 'u' {
        SequenceError(s, p + 6, end);
      }
    }
  }

  /** The message that is recorded for a string says what is wrong at the place that it names. */
  lemma {:induction false} UndecodableExplained(s: string, p: nat, end: nat)
    requires p <= end <= |s| && DecodeChars(s, p, end).Undecodable?
    ensures var d := DecodeChars(s, p, end); Explains(s, end, d.message, d.extra)
    decreases end - p
  {
    if s[p] != '\\' {
      UndecodableExplained(s, p + 1, end);
    } else {
      assert DecodeChars(s, p, end) == DecodeEscaped(s, p + 1, end);
      if p + 1 < end {
        if s[p + 1] == 'u' {
          CodePointError(s, p + 2, end);
          if DecodeCodePoint(s, p + 2, end).CodePoint? {
            UndecodableExplained(s, DecodeCodePoint(s, p + 2, end).next, end);
          }
        } else if SimpleEscape(s[p + 1]).Some? {
          UndecodableExplained(s, p + 2, end);
        }
      }
    }
  }

  // ----- what is printed -----

  /** Quotes, backslashes and the five control characters with a letter of their own print as that
      escape, other characters below 32 as upper-case digits, and everything else as it is. */
  lemma EscapeMeaning(c: char)
    ensures forall letter :: letter != '/' && IsLetterEscape(letter, c) ==> EscapeChar(c) == ['\\', letter]
    ensures c as int < 0x20 && c as int !in {0x08, 0x09, 0x0A, 0x0C, 0x0D} ==>
      EscapeChar(c) == "\\u00" + ["0123456789ABCDEF"[c as int / 16], "0123456789ABCDEF"[c as int % 16]]
    ensures c as int >= 0x20 && c != '\"' && c != '\\' ==> EscapeChar(c) == [c]
  {
    forall letter | letter != '/' && IsLetterEscape(letter, c)
      ensures EscapeChar(c) == ['\\', letter]
    {
      LetterPrinted(letter, c);
    }
    if c as int < 0x20 {
      HexRow(c as int / 16);
      HexRow(c as int % 16);
      HexRow(0);
    }
  }

  lemma LetterPrinted(letter: char, c: char)
    requires letter != '/' && IsLetterEscape(letter, c)
    ensures EscapeChar(c) == ['\\', letter]
  {
    var k :| 0 <= k < 8 && letter == "\"\\/bfnrt"[k] &&
      c as int == [0x22, 0x5C, 0x2F, 0x08, 0x0C, 0x0A, 0x0D, 0x09][k];
  }
}

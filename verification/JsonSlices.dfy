/** Reading does not look beyond the value: a value's own text reads as the value. */
module JsonSlices {
  import opened Text
  import opened OrderedMap
  import opened JsonValue
  import opened JsonNumbers
  import opened JsonStrings
  import opened JsonTokens
  import opened JsonGrammar
  import opened JsonLayout
  import opened JsonRoundTrip

  /** `u` is the part of `s` from position `a` on. */
  predicate Part(s: string, u: string, a: nat) {
    a + |u| <= |s| && forall i :: 0 <= i < |u| ==> u[i] == s[a + i]
  }

  // ----- tokens -----

  lemma {:induction false} SpacesInPart(s: string, u: string, a: nat, p: nat)
    requires Part(s, u, a) && p <= |u| && SkipSpaces(s, a + p) <= a + |u|
    ensures SkipSpaces(s, a + p) == a + SkipSpaces(u, p)
    decreases |u| - p
  {
    if p < |u| && Space(u[p]) {
      SpacesInPart(s, u, a, p + 1);
    }
  }

  lemma {:induction false} DigitsInPart(s: string, u: string, a: nat, p: nat)
    requires Part(s, u, a) && p <= |u| && SkipDigits(s, a + p) <= a + |u|
    ensures SkipDigits(s, a + p) == a + SkipDigits(u, p)
    decreases |u| - p
  {
    if p < |u| && IsDigit(u[p]) {
      DigitsInPart(s, u, a, p + 1);
    }
  }

  lemma NumberInPart(s: string, u: string, a: nat, p: nat)
    requires Part(s, u, a) && p <= |u| && NumberEnd(s, a + p) <= a + |u|
    ensures NumberEnd(s, a + p) == a + NumberEnd(u, p)
  {
    DigitsInPart(s, u, a, p);
    FractionInPart(s, u, a, SkipDigits(u, p));
    ExponentInPart(s, u, a, FractionEnd(u, SkipDigits(u, p)));
  }

  lemma FractionInPart(s: string, u: string, a: nat, p: nat)
    requires Part(s, u, a) && p <= |u| && FractionEnd(s, a + p) <= a + |u|
    ensures FractionEnd(s, a + p) == a + FractionEnd(u, p)
  {
    if p < |u| && u[p] == '.' {
      DigitsInPart(s, u, a, p + 1);
    }
  }

  lemma ExponentInPart(s: string, u: string, a: nat, p: nat)
    requires Part(s, u, a) && p <= |u| && ExponentEnd(s, a + p) <= a + |u|
    ensures ExponentEnd(s, a + p) == a + ExponentEnd(u, p)
  {
    if p < |u| && (u[p] == 'e' || u[p] == 'E') {
      DigitsInPart(s, u, a, if p + 1 < |u| && (u[p + 1] == '+' || u[p + 1] == '-') then p + 2 else p + 1);
    }
  }

  lemma {:induction false} StringInPart(s: string, u: string, a: nat, p: nat)
    requires Part(s, u, a) && p <= |u| && StringEnd(s, a + p).0 && StringEnd(s, a + p).1 <= a + |u|
    ensures StringEnd(u, p).0 && StringEnd(s, a + p).1 == a + StringEnd(u, p).1
    decreases |u| - p
  {
    if p < |u| {
      if u[p] == '\\' {
        if p + 2 <= |u| {
          StringInPart(s, u, a, p + 2);
        }
      } else if u[p] != '\"' {
        StringInPart(s, u, a, p + 1);
      }
    }
  }

  lemma {:induction false} CStyleInPart(s: string, u: string, a: nat, p: nat)
    requires Part(s, u, a) && p <= |u| && CStyleStop(s, a + p) < a + |u|
    ensures CStyleStop(s, a + p) == a + CStyleStop(u, p)
    decreases |u| - p
  {
    if p + 1 < |u| && !(u[p] == '*' && u[p + 1] == '/') {
      CStyleInPart(s, u, a, p + 1);
    }
  }

  lemma {:induction false} CppStyleInPart(s: string, u: string, a: nat, p: nat)
    requires Part(s, u, a) && p <= |u| && CppStyleEnd(s, a + p) <= a + |u|
    ensures CppStyleEnd(s, a + p) == a + CppStyleEnd(u, p)
    decreases |u| - p
  {
    if p < |u| && u[p] != '\n' && u[p] != '\r' {
      CppStyleInPart(s, u, a, p + 1);
    }
  }

  lemma CommentInPart(s: string, u: string, a: nat, p: nat)
    requires Part(s, u, a) && p <= |u|
    requires var r := CommentEnd(s, a + p); r.1 < a + |u| || (r.0 && r.1 == a + |u|)
    ensures CommentEnd(u, p).0 == CommentEnd(s, a + p).0 && CommentEnd(s, a + p).1 == a + CommentEnd(u, p).1
  {
    if p < |u| {
      if u[p] == '*' {
        CStyleInPart(s, u, a, p + 1);
      } else if u[p] == '/' {
        CppStyleInPart(s, u, a, p + 1);
      }
    }
  }

  lemma {:induction false} TextInPart(s: string, u: string, a: nat, p: nat, t: string)
    requires Part(s, u, a) && p + |t| <= |u|
    ensures At(s, a + p, t) == At(u, p, t)
    decreases |t|
  {
    if t != "" {
      TextInPart(s, u, a, p + 1, t[1..]);
      assert At(s, a + p, t) == AtNonempty(s, a + p, t);
      assert At(u, p, t) == AtNonempty(u, p, t);
    }
  }

  lemma WordInPart(s: string, u: string, a: nat, p: nat, t: string)
    requires Part(s, u, a) && p <= |u| && WordEnd(s, a + p, t).1 <= a + |u|
    ensures WordEnd(u, p, t).0 == WordEnd(s, a + p, t).0 && WordEnd(s, a + p, t).1 == a + WordEnd(u, p, t).1
  {
    if p + |t| <= |u| {
      TextInPart(s, u, a, p, t);
    }
  }

  function Moved(t: Token, a: nat): Token {
    Token(t.kind, t.start + a, t.end + a)
  }

  /** The token ends in front of the end of the part, or at the end of it and in order. */
  predicate Inside(t: Token, b: nat) {
    t.end < b || (t.end == b && t.kind != EndOfStream && t.kind != ErrorToken)
  }

  lemma {:induction false} TokenInPart(s: string, u: string, a: nat, p: nat)
    requires Part(s, u, a) && p <= |u| && Inside(ReadToken(s, a + p), a + |u|)
    ensures ReadToken(s, a + p) == Moved(ReadToken(u, p), a)
    decreases |u| - p
  {
    if p < |u| {
      assert ReadToken(s, a + p) == TokenAt(s, a + p) && ReadToken(u, p) == TokenAt(u, p);
      if Space(u[p]) {
        TokenInPart(s, u, a, p + 1);
      } else {
        TokenAtInPart(s, u, a, p);
      }
    }
  }

  lemma WordTokenInPart(s: string, u: string, a: nat, p: nat)
    requires Part(s, u, a) && p < |u| && u[p] in {'t', 'f', 'n'} && TokenAt(s, a + p).end <= a + |u|
    ensures TokenAt(s, a + p) == Moved(TokenAt(u, p), a)
  {
    WordInPart(s, u, a, p + 1, if u[p] == 't' then "rue" else if u[p] == 'f' then "alse" else "ull");
  }

  lemma TokenAtInPart(s: string, u: string, a: nat, p: nat)
    requires Part(s, u, a) && p < |u| && !Space(u[p]) && Inside(TokenAt(s, a + p), a + |u|)
    ensures TokenAt(s, a + p) == Moved(TokenAt(u, p), a)
  {
    if u[p] in {'t', 'f', 'n'} {
      WordTokenInPart(s, u, a, p);
    } else if u[p] == '\"' {
      StringTokenInPart(s, u, a, p);
    } else if u[p] == '/' {
      CommentTokenInPart(s, u, a, p);
    } else if IsDigit(u[p]) || u[p] == '-' {
      NumberTokenInPart(s, u, a, p);
    } else {
      SingleInPart(s, u, a, p);
    }
  }

  lemma CommentTokenInPart(s: string, u: string, a: nat, p: nat)
    requires Part(s, u, a) && p < |u| && u[p] == '/' && Inside(TokenAt(s, a + p), a + |u|)
    ensures TokenAt(s, a + p) == Moved(TokenAt(u, p), a)
  {
    CommentInPart(s, u, a, p + 1);
  }

  lemma NumberTokenInPart(s: string, u: string, a: nat, p: nat)
    requires Part(s, u, a) && p < |u| && (IsDigit(u[p]) || u[p] == '-') && TokenAt(s, a + p).end <= a + |u|
    ensures TokenAt(s, a + p) == Moved(TokenAt(u, p), a)
  {
    var b := a + p;
    NumberStart(u, p);
    NumberStart(s, b);
    assert b + 1 == a + (p + 1);
    NumberInPart(s, u, a, p + 1);
  }

  lemma NumberStart(s: string, p: nat)
    requires p < |s| && (IsDigit(s[p]) || s[p] == '-')
    ensures TokenAt(s, p) == Token(NumberToken, p, NumberEnd(s, p + 1))
  {
  }

  /** The kind of a token of one character. */
  function SingleKind(c: char): Kind {
    match c
    case '{' => ObjectBegin
    case '}' => ObjectEnd
    case '[' => ArrayBegin
    case ']' => ArrayEnd
    case ',' => ArraySeparator
    case ':' => MemberSeparator
    case '\0' => EndOfStream
    case _ => ErrorToken
  }

  lemma SingleToken(s: string, p: nat)
    requires p < |s| && !Space(s[p]) && s[p] !in {'t', 'f', 'n', '/', '\"', '-'} && !IsDigit(s[p])
    ensures TokenAt(s, p) == Token(SingleKind(s[p]), p, p + 1)
  {
  }

  lemma SingleInPart(s: string, u: string, a: nat, p: nat)
    requires Part(s, u, a) && p < |u| && !Space(u[p]) && u[p] !in {'t', 'f', 'n', '/', '\"', '-'} && !IsDigit(u[p])
    ensures TokenAt(s, a + p) == Moved(TokenAt(u, p), a)
  {
    SingleToken(s, a + p);
    SingleToken(u, p);
  }

  /** A string token that is not closed reaches the end of the text. */
  lemma {:induction false} OpenString(s: string, p: nat)
    requires p <= |s| && !StringEnd(s, p).0
    ensures StringEnd(s, p).1 == |s|
    decreases |s| - p
  {
    if p < |s| {
      OpenString(s, if s[p] == '\\' && p + 1 < |s| then p + 2 else p + 1);
    }
  }

  lemma {:induction false} StringTokenInPart(s: string, u: string, a: nat, p: nat)
    requires Part(s, u, a) && p < |u| && u[p] == '\"' && Inside(TokenAt(s, a + p), a + |u|)
    ensures TokenAt(s, a + p) == Moved(TokenAt(u, p), a)
  {
    if !StringEnd(s, a + p + 1).0 {
      OpenString(s, a + p + 1);
    } else {
      StringInPart(s, u, a, p + 1);
    }
  }

  lemma {:induction false} NextTokenInPart(s: string, u: string, a: nat, p: nat)
    requires Part(s, u, a) && p <= |u| && Inside(NextToken(s, a + p), a + |u|)
    ensures NextToken(s, a + p) == Moved(NextToken(u, p), a)
    decreases |u| - p
  {
    var t := ReadToken(s, a + p);
    TokenInPart(s, u, a, p);
    if t.kind == CommentToken {
      NextTokenInPart(s, u, a, t.end - a);
    }
  }

  lemma FirstTokenInPart(f: Features, s: string, u: string, a: nat, p: nat)
    requires Part(s, u, a) && p <= |u| && Inside(SkipComments(f, s, a + p), a + |u|)
    ensures SkipComments(f, s, a + p) == Moved(SkipComments(f, u, p), a)
  {
    if f.allowComments {
      NextTokenInPart(s, u, a, p);
    } else {
      TokenInPart(s, u, a, p);
    }
  }

  // ----- the contents of strings -----

  lemma {:induction false} HexInPart(s: string, u: string, a: nat, p: nat, stop: nat, read: nat)
    requires Part(s, u, a) && p <= stop <= |u|
    ensures var x, y := DecodeHex(s, a + p, a + stop, read), DecodeHex(u, p, stop, read);
      x.CodePoint? == y.CodePoint? && (x.CodePoint? ==> x.cp == y.cp && x.next == a + y.next)
    decreases stop - p
  {
    if p < stop && HexValue(u[p]).Some? {
      HexInPart(s, u, a, p + 1, stop, read * 16 + HexValue(u[p]).value);
    }
  }

  lemma CodePointInPart(s: string, u: string, a: nat, p: nat, end: nat)
    requires Part(s, u, a) && p <= end <= |u|
    ensures var x, y := DecodeCodePoint(s, a + p, a + end), DecodeCodePoint(u, p, end);
      x.CodePoint? == y.CodePoint? && (x.CodePoint? ==> x.cp == y.cp && x.next == a + y.next)
  {
    if end - p >= 4 {
      HexInPart(s, u, a, p, p + 4, 0);
      if end - p >= 10 {
        HexInPart(s, u, a, p + 6, p + 10, 0);
      }
    }
  }

  /** Decoding does not look beyond the part. */
  lemma {:induction false} CharsInPart(s: string, u: string, a: nat, p: nat, end: nat)
    requires Part(s, u, a) && p <= end <= |u|
    requires DecodeChars(s, a + p, a + end).Decoded? || DecodeChars(u, p, end).Decoded?
    ensures DecodeChars(u, p, end) == DecodeChars(s, a + p, a + end)
    decreases end - p, 1
  {
    if p < end && u[p] != '\"' {
      if u[p] != '\\' {
        CharsInPart(s, u, a, p + 1, end);
      } else {
        assert DecodeChars(s, a + p, a + end) == DecodeEscaped(s, a + p + 1, a + end);
        assert DecodeChars(u, p, end) == DecodeEscaped(u, p + 1, end);
        EscapedInPart(s, u, a, p + 1, end);
      }
    }
  }

  lemma {:induction false} EscapedInPart(s: string, u: string, a: nat, p: nat, end: nat)
    requires Part(s, u, a) && p <= end <= |u|
    requires DecodeEscaped(s, a + p, a + end).Decoded? || DecodeEscaped(u, p, end).Decoded?
    ensures DecodeEscaped(u, p, end) == DecodeEscaped(s, a + p, a + end)
    decreases end - p, 0
  {
    if u[p] == 'u' {
      CodePointInPart(s, u, a, p + 1, end);
      CharsInPart(s, u, a, DecodeCodePoint(u, p + 1, end).next, end);
    } else {
      CharsInPart(s, u, a, p + 1, end);
    }
  }

  lemma NameInPart(s: string, u: string, a: nat, t: Token)
    requires Part(s, u, a) && t.start + 2 <= t.end <= |u| && TokenText(s, Moved(t, a)).Named?
    ensures TokenText(u, t) == TokenText(s, Moved(t, a))
  {
    CharsInPart(s, u, a, t.start + 1, t.end - 1);
  }

  lemma NumberOutcomeInPart(f: Features, s: string, u: string, a: nat, t: Token, old_: Value, old': Value)
    requires Part(s, u, a) && t.start <= t.end <= |u| && NumberOutcome(f, s, Moved(t, a), old_).Parsed?
    ensures NumberOutcome(f, u, t, old') == Parsed(t.end, NumberOutcome(f, s, Moved(t, a), old_).value)
  {
    SameSlice(s, u, a, t.start, t.end);
    var x := u[t.start..t.end];
    assert s[Moved(t, a).start..Moved(t, a).end] == x;
  }

  lemma SameSlice(s: string, u: string, a: nat, i: nat, j: nat)
    requires Part(s, u, a) && i <= j <= |u|
    ensures u[i..j] == s[i + a..j + a]
  {
  }

  // ----- values -----

  /** `y` is the successful outcome `x`, with its position taken in the part at `a`. */
  predicate SameOutcome(x: Outcome, y: Outcome, a: nat) {
    x.Parsed? && y.Parsed? && x.pos == a + y.pos && x.value == y.value
  }

  /** What is read within a part is read from the part alone, and on fewer levels too. */
  lemma {:induction false} ValueInPart(f: Features, s: string, u: string, a: nat, p: nat, h: nat, h': nat, old_: Value,
                                       old': Value)
    requires Part(s, u, a) && p <= |u| && h' <= h && !f.allowDroppedNullPlaceholders
    requires var x := ReadValue(f, s, a + p, h, old_); x.Parsed? && x.pos <= a + |u|
    ensures SameOutcome(ReadValue(f, s, a + p, h, old_), ReadValue(f, u, p, h', old'), a)
    decreases |u| - p, 1
  {
    ValueEnd(f, s, a + p, h, old_);
    FirstTokenInPart(f, s, u, a, p);
    ValueAtInPart(f, s, u, a, p, SkipComments(f, u, p), h, h', old_, old');
  }

  lemma {:induction false} ValueAtInPart(f: Features, s: string, u: string, a: nat, p: nat, t: Token, h: nat, h': nat,
                                         old_: Value, old': Value)
    requires Part(s, u, a) && p <= |u| && h' <= h && !f.allowDroppedNullPlaceholders
    requires t == SkipComments(f, u, p) && Moved(t, a) == SkipComments(f, s, a + p) && t.start < t.end
    requires var x := ValueAt(f, s, a + p, Moved(t, a), h, old_); x.Parsed? && x.pos <= a + |u|
    ensures SameOutcome(ValueAt(f, s, a + p, Moved(t, a), h, old_), ValueAt(f, u, p, t, h', old'), a)
    decreases |u| - p, 0
  {
    match t.kind {
      case ObjectBegin => MembersInPart(f, s, u, a, a + t.end, t.end, h, h', [], "");
      case ArrayBegin => ArrayInPart(f, s, u, a, t.end, h, h');
      case NumberToken => NumberOutcomeInPart(f, s, u, a, t, old_, old');
      case StringToken => StringOutcomeInPart(s, u, a, t, old_, old');
      case _ =>
    }
  }

  lemma StringOutcomeInPart(s: string, u: string, a: nat, t: Token, old_: Value, old': Value)
    requires Part(s, u, a) && t.start + 2 <= t.end <= |u| && StringOutcome(s, Moved(t, a), old_).Parsed?
    ensures SameOutcome(StringOutcome(s, Moved(t, a), old_), StringOutcome(u, t, old'), a)
  {
    NameInPart(s, u, a, t);
  }

  /** A value that is read ends behind its first token, which is in order. */
  lemma ValueEnd(f: Features, s: string, p: nat, h: nat, old_: Value)
    requires p <= |s| && !f.allowDroppedNullPlaceholders && ReadValue(f, s, p, h, old_).Parsed?
    ensures var t := SkipComments(f, s, p);
      t.kind != EndOfStream && t.kind != ErrorToken && t.start < t.end <= ReadValue(f, s, p, h, old_).pos
  {
    var t := SkipComments(f, s, p);
    assert ReadValue(f, s, p, h, old_) == ValueAt(f, s, p, t, h, old_);
  }

  lemma {:induction false} ArrayInPart(f: Features, s: string, u: string, a: nat, p: nat, h: nat, h': nat)
    requires Part(s, u, a) && p <= |u| && h' <= h && !f.allowDroppedNullPlaceholders
    requires var x := ArrayOutcome(f, s, a + p, h); x.Parsed? && x.pos <= a + |u|
    ensures SameOutcome(ArrayOutcome(f, s, a + p, h), ArrayOutcome(f, u, p, h'), a)
    decreases |u| - p, 5
  {
    SpacesInPart(s, u, a, p);
    var q := SkipSpaces(u, p);
    if !(a + q < |s| && s[a + q] == ']') {
      ElementsInPart(f, s, u, a, q, h, h', []);
    }
  }

  lemma {:induction false} ElementsInPart(f: Features, s: string, u: string, a: nat, p: nat, h: nat, h': nat,
                                          items: seq<Entry<nat, Value>>)
    requires Part(s, u, a) && p <= |u| && h' <= h && !f.allowDroppedNullPlaceholders
    requires var x := ReadElements(f, s, a + p, h, items); x.Parsed? && x.pos <= a + |u|
    ensures SameOutcome(ReadElements(f, s, a + p, h, items), ReadElements(f, u, p, h', items), a)
    decreases |u| - p, 4
  {
    ElementInPart(f, s, u, a, p, h, h', items);
    match ElementRound(f, s, a + p, h, items) {
      case More(q, items', _) => ElementsInPart(f, s, u, a, q - a, h, h', items');
      case Done(_) =>
    }
  }

  predicate SameRound<K(==)>(x: Round<K>, y: Round<K>, a: nat) {
    match x
    case Done(outcome) => y.Done? && SameOutcome(outcome, y.outcome, a)
    case More(q, entries, name) => y.More? && q == a + y.pos && y.entries == entries && y.name == name
  }

  lemma {:induction false} ElementInPart(f: Features, s: string, u: string, a: nat, p: nat, h: nat, h': nat,
                                         items: seq<Entry<nat, Value>>)
    requires Part(s, u, a) && p <= |u| && h' <= h && !f.allowDroppedNullPlaceholders
    requires var x := ReadElements(f, s, a + p, h, items); x.Parsed? && x.pos <= a + |u|
    ensures SameRound(ElementRound(f, s, a + p, h, items), ElementRound(f, u, p, h', items), a)
    decreases |u| - p, 3
  {
    var x, y := ReadValue(f, s, a + p, h + 1, Null), ReadValue(f, u, p, h' + 1, Null);
    SeparatorOfElement(f, s, a + p, h, items);
    ElementValueInPart(f, s, u, a, p, h, h', x, y);
    ElementRoundsAgree(f, s, u, a, p, h, h', items, x, y);
  }

  lemma {:induction false} ElementValueInPart(f: Features, s: string, u: string, a: nat, p: nat, h: nat, h': nat,
                                              x: Outcome, y: Outcome)
    requires Part(s, u, a) && p <= |u| && h' <= h && !f.allowDroppedNullPlaceholders
    requires x == ReadValue(f, s, a + p, h + 1, Null) && y == ReadValue(f, u, p, h' + 1, Null)
    requires x.Parsed? && Inside(NextToken(s, x.pos), a + |u|)
    ensures SameOutcome(x, y, a) && NextToken(s, x.pos) == Moved(NextToken(u, y.pos), a)
    decreases |u| - p, 2
  {
    ValueInPart(f, s, u, a, p, h + 1, h' + 1, Null, Null);
    NextTokenInPart(s, u, a, y.pos);
  }

  /** Elements that are read to the end start with a value and a comma or bracket behind it. */
  lemma SeparatorOfElement(f: Features, s: string, p: nat, h: nat, items: seq<Entry<nat, Value>>)
    requires p <= |s| && ReadElements(f, s, p, h, items).Parsed?
    ensures var x := ReadValue(f, s, p, h + 1, Null);
      x.Parsed? && NextToken(s, x.pos).kind in {ArrayEnd, ArraySeparator} &&
      NextToken(s, x.pos).end <= ReadElements(f, s, p, h, items).pos
  {
  }

  lemma ElementRoundsAgree(f: Features, s: string, u: string, a: nat, p: nat, h: nat, h': nat,
                           items: seq<Entry<nat, Value>>, x: Outcome, y: Outcome)
    requires a + p <= |s| && x == ReadValue(f, s, a + p, h + 1, Null)
    requires p <= |u| && y == ReadValue(f, u, p, h' + 1, Null)
    requires SameOutcome(x, y, a) && NextToken(s, x.pos) == Moved(NextToken(u, y.pos), a)
    requires NextToken(s, x.pos).kind in {ArrayEnd, ArraySeparator}
    ensures SameRound(ElementRound(f, s, a + p, h, items), ElementRound(f, u, p, h', items), a)
  {
  }

  /** An object ends behind its closing brace. */
  lemma {:induction false} MembersEnd(f: Features, s: string, p: nat, h: nat, members: seq<Entry<string, Value>>,
                                      last: string)
    requires p <= |s| && ReadMembers(f, s, p, h, members, last).Parsed?
    ensures ReadMembers(f, s, p, h, members, last).pos > p
    decreases |s| - p
  {
    match MemberRound(f, s, p, h, members, last) {
      case More(q, members', name) => MembersEnd(f, s, q, h, members', name);
      case Done(_) =>
    }
  }

  /** Position `p` of the part is position `b` of the text. */
  lemma {:induction false} MembersInPart(f: Features, s: string, u: string, a: nat, b: nat, p: nat, h: nat, h': nat,
                                         members: seq<Entry<string, Value>>, last: string)
    requires Part(s, u, a) && p <= |u| && b == a + p && h' <= h && !f.allowDroppedNullPlaceholders
    requires var x := ReadMembers(f, s, b, h, members, last); x.Parsed? && x.pos <= a + |u|
    ensures SameOutcome(ReadMembers(f, s, b, h, members, last), ReadMembers(f, u, p, h', members, last), a)
    decreases |u| - p, 3
  {
    var x, y := MemberRound(f, s, b, h, members, last), MemberRound(f, u, p, h', members, last);
    FirstRoundInside(f, s, b, h, members, last, a + |u|);
    MemberInPart(f, s, u, a, p, h, h', members, last);
    if x.More? {
      LaterRoundsInside(f, s, b, h, members, last, x);
      MembersInPart(f, s, u, a, x.pos, y.pos, h, h', x.entries, x.name);
    }
    LoopsAgree(f, s, u, a, b, p, h, h', members, last, x, y);
  }

  lemma LaterRoundsInside(f: Features, s: string, p: nat, h: nat, members: seq<Entry<string, Value>>, last: string,
                          round: Round<string>)
    requires p <= |s| && round == MemberRound(f, s, p, h, members, last) && round.More?
    ensures ReadMembers(f, s, round.pos, h, round.entries, round.name) == ReadMembers(f, s, p, h, members, last)
  {
  }

  lemma LoopsAgree(f: Features, s: string, u: string, a: nat, b: nat, p: nat, h: nat, h': nat,
                   members: seq<Entry<string, Value>>, last: string, x: Round<string>, y: Round<string>)
    requires b <= |s| && p <= |u| && SameRound(x, y, a)
    requires x == MemberRound(f, s, b, h, members, last) && y == MemberRound(f, u, p, h', members, last)
    requires x.More? ==>
      SameOutcome(ReadMembers(f, s, x.pos, h, x.entries, x.name), ReadMembers(f, u, y.pos, h', x.entries, x.name), a)
    ensures SameOutcome(ReadMembers(f, s, b, h, members, last), ReadMembers(f, u, p, h', members, last), a)
  {
  }

  lemma FirstRoundInside(f: Features, s: string, p: nat, h: nat, members: seq<Entry<string, Value>>, last: string,
                         b: nat)
    requires p <= |s| && ReadMembers(f, s, p, h, members, last).Parsed? &&
      ReadMembers(f, s, p, h, members, last).pos <= b
    ensures RoundInside(MemberRound(f, s, p, h, members, last), b)
  {
    var round := MemberRound(f, s, p, h, members, last);
    MembersLoop(f, s, p, h, members, last, round);
    if round.More? {
      MembersEnd(f, s, round.pos, h, round.entries, round.name);
    }
  }

  /** The round goes well and ends within the part, or in front of its end if it goes on. */
  predicate RoundInside<K>(round: Round<K>, b: nat) {
    if round.Done? then round.outcome.Parsed? && round.outcome.pos <= b else round.pos < b
  }

  lemma {:induction false} MemberInPart(f: Features, s: string, u: string, a: nat, p: nat, h: nat, h': nat,
                                        members: seq<Entry<string, Value>>, last: string)
    requires Part(s, u, a) && p <= |u| && h' <= h && !f.allowDroppedNullPlaceholders
    requires RoundInside(MemberRound(f, s, a + p, h, members, last), a + |u|)
    ensures SameRound(MemberRound(f, s, a + p, h, members, last), MemberRound(f, u, p, h', members, last), a)
    decreases |u| - p, 2
  {
    if NextToken(s, a + p).kind == ObjectEnd && last == "" {
      ClosingInPart(f, s, u, a, p, h, h', members);
    } else {
      var v, q, name := NameInPartThenColon(f, s, u, a, p, h, h', members, last);
      NamedMemberInPart(f, s, u, a, v, q, h, h', members, name);
    }
  }

  lemma ClosingInPart(f: Features, s: string, u: string, a: nat, p: nat, h: nat, h': nat,
                      members: seq<Entry<string, Value>>)
    requires Part(s, u, a) && p <= |u| && NextToken(s, a + p).kind == ObjectEnd && NextToken(s, a + p).end <= a + |u|
    ensures SameRound(MemberRound(f, s, a + p, h, members, ""), MemberRound(f, u, p, h', members, ""), a)
  {
    NextTokenInPart(s, u, a, p);
  }

  /** The name and the colon in front of a member value. */
  lemma NameInPartThenColon(f: Features, s: string, u: string, a: nat, p: nat, h: nat, h': nat,
                            members: seq<Entry<string, Value>>, last: string)
    returns (v: nat, q: nat, name: string)
    requires Part(s, u, a) && p <= |u| && !(NextToken(s, a + p).kind == ObjectEnd && last == "")
    requires RoundInside(MemberRound(f, s, a + p, h, members, last), a + |u|)
    ensures p < q <= |u| && v == a + q
    ensures MemberRound(f, s, a + p, h, members, last) == NamedMemberRound(f, s, v, h, members, name)
    ensures MemberRound(f, u, p, h', members, last) == NamedMemberRound(f, u, q, h', members, name)
  {
    v, name := NameOfMemberEnd(f, s, a + p, h, members, last);
    NameTokensInPart(s, u, a, p);
    q := ReadToken(u, NextToken(u, p).end).end;
    NameThenColon(f, u, p, h', members, last, NextToken(u, p), name, q);
  }

  /** The name, and where its colon ends. */
  lemma NameOfMemberEnd(f: Features, s: string, p: nat, h: nat, members: seq<Entry<string, Value>>, last: string)
    returns (v: nat, name: string)
    requires p <= |s| && !(NextToken(s, p).kind == ObjectEnd && last == "")
    requires RoundInside(MemberRound(f, s, p, h, members, last), |s| + 1)
    ensures var t := NextToken(s, p);
      && t.kind == StringToken && TokenText(s, t) == Named(name)
      && ReadToken(s, t.end).kind == MemberSeparator && ReadToken(s, t.end).end == v && p < v <= |s|
    ensures var round := NamedMemberRound(f, s, v, h, members, name);
      && MemberRound(f, s, p, h, members, last) == round
      && v <= if round.Done? then round.outcome.pos else round.pos
  {
    var t := NextToken(s, p);
    NameOfMember(f, s, p, h, members, last);
    name := TokenText(s, t).name;
    v := ReadToken(s, t.end).end;
    NamedRoundEnd(f, s, v, h, members, name);
  }

  lemma NamedRoundEnd(f: Features, s: string, v: nat, h: nat, members: seq<Entry<string, Value>>, name: string)
    requires v <= |s| && RoundInside(NamedMemberRound(f, s, v, h, members, name), |s| + 1)
    ensures var round := NamedMemberRound(f, s, v, h, members, name);
      v <= if round.Done? then round.outcome.pos else round.pos
  {
  }

  lemma NameTokensInPart(s: string, u: string, a: nat, p: nat)
    requires Part(s, u, a) && p <= |u| && NextToken(s, a + p).kind == StringToken
    requires var t := NextToken(s, a + p);
      TokenText(s, t).Named? && ReadToken(s, t.end).kind == MemberSeparator && ReadToken(s, t.end).end <= a + |u|
    ensures var t, t' := NextToken(s, a + p), NextToken(u, p);
      && t'.kind == StringToken && TokenText(u, t') == TokenText(s, t)
      && ReadToken(u, t'.end).kind == MemberSeparator && ReadToken(s, t.end).end == a + ReadToken(u, t'.end).end
  {
    NextTokenInPart(s, u, a, p);
    NameInPart(s, u, a, NextToken(u, p));
    TokenInPart(s, u, a, NextToken(u, p).end);
  }

  /** A round that goes well and does not close the object reads a string, a colon and a value. */
  lemma NameOfMember(f: Features, s: string, p: nat, h: nat, members: seq<Entry<string, Value>>, last: string)
    requires p <= |s| && !(NextToken(s, p).kind == ObjectEnd && last == "")
    requires RoundInside(MemberRound(f, s, p, h, members, last), |s| + 1)
    ensures var t := NextToken(s, p);
      && t.kind == StringToken && TokenText(s, t).Named? && ReadToken(s, t.end).kind == MemberSeparator
      && MemberRound(f, s, p, h, members, last) ==
        NamedMemberRound(f, s, ReadToken(s, t.end).end, h, members, TokenText(s, t).name)
  {
  }

  lemma {:induction false} NamedMemberInPart(f: Features, s: string, u: string, a: nat, b: nat, p: nat, h: nat, h': nat,
                                             members: seq<Entry<string, Value>>, name: string)
    requires Part(s, u, a) && p <= |u| && b == a + p && h' <= h && !f.allowDroppedNullPlaceholders
    requires RoundInside(NamedMemberRound(f, s, b, h, members, name), a + |u|)
    ensures SameRound(NamedMemberRound(f, s, b, h, members, name), NamedMemberRound(f, u, p, h', members, name), a)
    decreases |u| - p, 3
  {
    var old_ := Find(members, Key(name)).GetOr(Null);
    var x := ReadValue(f, s, b, h + 1, old_);
    var y := ReadValue(f, u, p, h' + 1, old_);
    ValueOfMember(f, s, b, h, members, name);
    MemberValueInPart(f, s, u, a, b, p, h, h', old_, x, y);
    RoundsAgree(f, s, u, a, b, p, h, h', members, name, x, y);
  }

  lemma RoundsAgree(f: Features, s: string, u: string, a: nat, b: nat, p: nat, h: nat, h': nat,
                    members: seq<Entry<string, Value>>, name: string, x: Outcome, y: Outcome)
    requires b <= |s| && x == ReadValue(f, s, b, h + 1, Find(members, Key(name)).GetOr(Null))
    requires p <= |u| && y == ReadValue(f, u, p, h' + 1, Find(members, Key(name)).GetOr(Null))
    requires SameOutcome(x, y, a) && ReadToken(s, x.pos).kind in {ObjectEnd, ArraySeparator, CommentToken}
    requires ReadToken(u, y.pos).kind == ReadToken(s, x.pos).kind &&
      NextToken(s, x.pos) == Moved(NextToken(u, y.pos), a)
    ensures SameRound(NamedMemberRound(f, s, b, h, members, name), NamedMemberRound(f, u, p, h', members, name), a)
  {
    AfterValue(f, s, b, h, members, name, x);
    AfterValue(f, u, p, h', members, name, y);
    SameRest(NextToken(s, x.pos), NextToken(u, y.pos), a, Insert(members, Key(name), x.value), name);
  }

  /** A member value within the part, with the separator behind it. */
  lemma {:induction false} MemberValueInPart(f: Features, s: string, u: string, a: nat, b: nat, p: nat, h: nat,
                                             h': nat, old_: Value, x: Outcome, y: Outcome)
    requires Part(s, u, a) && p <= |u| && b == a + p && h' <= h && !f.allowDroppedNullPlaceholders
    requires x == ReadValue(f, s, b, h + 1, old_) && y == ReadValue(f, u, p, h' + 1, old_)
    requires x.Parsed? && ReadToken(s, x.pos).kind in {ObjectEnd, ArraySeparator, CommentToken}
    requires Inside(NextToken(s, x.pos), a + |u|)
    ensures SameOutcome(x, y, a) && ReadToken(u, y.pos).kind == ReadToken(s, x.pos).kind
    ensures NextToken(s, x.pos) == Moved(NextToken(u, y.pos), a)
    decreases |u| - p, 2
  {
    ValueInPart(f, s, u, a, p, h + 1, h' + 1, old_, old_);
    SeparatorInPart(s, u, a, y.pos);
  }

  function RoundBehind(next: Token, members: seq<Entry<string, Value>>, name: string): Round<string> {
    if next.kind == ObjectEnd then Done(Parsed(next.end, Obj(members))) else More(next.end, members, name)
  }

  lemma SameRest(next: Token, next': Token, a: nat, members: seq<Entry<string, Value>>, name: string)
    requires next == Moved(next', a)
    ensures SameRound(RoundBehind(next, members, name), RoundBehind(next', members, name), a)
  {
  }

  lemma SeparatorInPart(s: string, u: string, a: nat, p: nat)
    requires Part(s, u, a) && p <= |u| && Inside(NextToken(s, a + p), a + |u|)
    requires ReadToken(s, a + p).kind in {ObjectEnd, ArraySeparator, CommentToken}
    ensures ReadToken(s, a + p) == Moved(ReadToken(u, p), a) && NextToken(s, a + p) == Moved(NextToken(u, p), a)
  {
    CommaFirst(s, a + p);
    TokenInPart(s, u, a, p);
    NextTokenInPart(s, u, a, p);
  }

  /** What follows when a value is read and a comma, brace or comment stands behind it. */
  lemma AfterValue(f: Features, s: string, p: nat, h: nat, members: seq<Entry<string, Value>>, name: string, x: Outcome)
    requires p <= |s| && x == ReadValue(f, s, p, h + 1, Find(members, Key(name)).GetOr(Null))
    requires x.Parsed? && ReadToken(s, x.pos).kind in {ObjectEnd, ArraySeparator, CommentToken}
    ensures NamedMemberRound(f, s, p, h, members, name) ==
      RoundBehind(NextToken(s, x.pos), Insert(members, Key(name), x.value), name)
  {
  }

  /** A round that goes well reads a value with a comma, brace or comment behind it. */
  lemma ValueOfMember(f: Features, s: string, p: nat, h: nat, members: seq<Entry<string, Value>>, name: string)
    requires p <= |s| && RoundInside(NamedMemberRound(f, s, p, h, members, name), |s| + 1)
    ensures var x, round :=
      ReadValue(f, s, p, h + 1, Find(members, Key(name)).GetOr(Null)), NamedMemberRound(f, s, p, h, members, name);
      x.Parsed? &&
      var next := NextToken(s, x.pos);
      && ReadToken(s, x.pos).kind in {ObjectEnd, ArraySeparator, CommentToken}
      && (round.Done? <==> next.kind == ObjectEnd)
      && next.end == if round.Done? then round.outcome.pos else round.pos
  {
  }

  lemma CommaFirst(s: string, p: nat)
    requires p <= |s|
    ensures ReadToken(s, p).end <= NextToken(s, p).end
  {
  }

  // ----- the text of a value -----

  lemma {:induction false} TokenAgain(s: string, p: nat)
    requires p <= |s| && ReadToken(s, p).kind != EndOfStream
    ensures ReadToken(s, ReadToken(s, p).start) == ReadToken(s, p)
    decreases |s| - p
  {
    if p < |s| && Space(s[p]) {
      assert ReadToken(s, p) == TokenAt(s, p) == ReadToken(s, p + 1);
      TokenAgain(s, p + 1);
    }
  }

  lemma {:induction false} NextTokenAgain(s: string, p: nat)
    requires p <= |s| && NextToken(s, p).kind != EndOfStream
    ensures NextToken(s, NextToken(s, p).start) == NextToken(s, p)
    decreases |s| - p
  {
    var t := ReadToken(s, p);
    if t.kind == CommentToken {
      NextTokenAgain(s, t.end);
    } else {
      TokenAgain(s, p);
    }
  }

  /** A value reads alike from the start of its first token. */
  lemma FromToken(f: Features, s: string, p: nat, h: nat, old_: Value)
    requires p <= |s| && !f.allowDroppedNullPlaceholders && ReadValue(f, s, p, h, old_).Parsed?
    ensures ReadValue(f, s, SkipComments(f, s, p).start, h, old_) == ReadValue(f, s, p, h, old_)
  {
    var t := SkipComments(f, s, p);
    ValueEnd(f, s, p, h, old_);
    if f.allowComments {
      NextTokenAgain(s, p);
    } else {
      TokenAgain(s, p);
    }
    assert SkipComments(f, s, t.start) == t;
    assert ReadValue(f, s, p, h, old_) == ValueAt(f, s, p, t, h, old_);
    assert ReadValue(f, s, t.start, h, old_) == ValueAt(f, s, t.start, t, h, old_);
  }

  /** The text from the first token of a value to its end parses as the value; a strict reader refuses
      one that is no container. */
  lemma SliceParses(f: Features, s: string, p: nat, h: nat, old_: Value, root: Value)
    requires p <= |s| && 1 <= h && !f.allowDroppedNullPlaceholders && ReadValue(f, s, p, h, old_).Parsed?
    ensures var x, start := ReadValue(f, s, p, h, old_), SkipComments(f, s, p).start;
      start < x.pos && Parse(f, s[start..x.pos], root) == Verdict(f, s[start..x.pos], 0, x.value)
  {
    var x, start := ReadValue(f, s, p, h, old_), SkipComments(f, s, p).start;
    ValueEnd(f, s, p, h, old_);
    FromToken(f, s, p, h, old_);
    ValueInPart(f, s, s[start..x.pos], start, 0, h, 1, old_, root);
    ParsedVerdict(f, s[start..x.pos], root, ReadValue(f, s[start..x.pos], 0, 1, root));
  }

  lemma ParsedVerdict(f: Features, document: string, root: Value, x: Outcome)
    requires x == ReadValue(f, document, 0, 1, root) && x.Parsed?
    ensures Parse(f, document, root) == Verdict(f, document, 0, x.value)
  {
  }

  // ----- all values of a document -----

  /** A value with the range of text that the reader notes for it, and the values inside it in the
      order of the text. The value of a member has the key of the member. */
  datatype Located = Located(key: string, start: nat, limit: nat, value: Value, children: seq<Located>)

  /** The items of an array whose elements are read one after the other. */
  function ItemsOf(items: seq<Entry<nat, Value>>, cs: seq<Located>): seq<Entry<nat, Value>>
    decreases |cs|
  {
    if cs == [] then items else ItemsOf(items + [Entry(|items|, cs[0].value)], cs[1..])
  }

  /** The members of an object, each stored under its key when it is read. */
  function MembersOf(members: seq<Entry<string, Value>>, cs: seq<Located>): seq<Entry<string, Value>>
    decreases |cs|
  {
    if cs == [] then members else MembersOf(Insert(members, cs[0].key, cs[0].value), cs[1..])
  }

  /** The value is made of the values of its children, and of nothing else. */
  predicate MadeOf(value: Value, cs: seq<Located>) {
    match value
    case Arr(items) => items == ItemsOf([], cs)
    case Obj(members) => members == MembersOf([], cs)
    case _ => cs == []
  }

  /** What `readValue` does behind its first token when that opens a container. */
  lemma ContainerRead(f: Features, s: string, p: nat, h: nat, old_: Value)
    requires p <= |s| && !f.allowDroppedNullPlaceholders && ReadValue(f, s, p, h, old_).Parsed?
    ensures var x, t := ReadValue(f, s, p, h, old_), SkipComments(f, s, p);
      && (t.kind == ObjectBegin ==> x == ReadMembers(f, s, t.end, h, [], ""))
      && (t.kind == ArrayBegin ==>
        var q := SkipSpaces(s, t.end);
        x == if q < |s| && s[q] == ']' then Parsed(q + 1, Arr([])) else ReadElements(f, s, q, h, []))
  {
    var t := SkipComments(f, s, p);
    assert ReadValue(f, s, p, h, old_) == ValueAt(f, s, p, t, h, old_);
    if t.kind == ArrayBegin {
      assert ValueAt(f, s, p, t, h, old_) == ArrayOutcome(f, s, t.end, h);
    }
  }

  function Locate(f: Features, s: string, key: string, p: nat, h: nat, old_: Value): Located
    requires p <= |s| && !f.allowDroppedNullPlaceholders && ReadValue(f, s, p, h, old_).Parsed?
    decreases |s| - p, 1
  {
    var x, t := ReadValue(f, s, p, h, old_), SkipComments(f, s, p);
    ValueEnd(f, s, p, h, old_);
    ContainerRead(f, s, p, h, old_);
    var children :=
      if t.kind == ObjectBegin then LocateMembers(f, s, t.end, h, [], "")
      else if t.kind != ArrayBegin || (SkipSpaces(s, t.end) < |s| && s[SkipSpaces(s, t.end)] == ']') then []
      else LocateElements(f, s, SkipSpaces(s, t.end), h, []);
    Located(key, t.start, x.pos, x.value, children)
  }

  lemma ElementRead(f: Features, s: string, p: nat, h: nat, items: seq<Entry<nat, Value>>)
    requires p <= |s| && ReadElements(f, s, p, h, items).Parsed?
    ensures ReadValue(f, s, p, h + 1, Null).Parsed?
  {
  }

  function LocateElements(f: Features, s: string, p: nat, h: nat, items: seq<Entry<nat, Value>>): seq<Located>
    requires p <= |s| && !f.allowDroppedNullPlaceholders && ReadElements(f, s, p, h, items).Parsed?
    decreases |s| - p, 2
  {
    ElementRead(f, s, p, h, items);
    [Locate(f, s, "", p, h + 1, Null)] +
    match ElementRound(f, s, p, h, items)
    case Done(_) => []
    case More(q, items', _) => LocateElements(f, s, q, h, items')
  }

  function LocateMembers(f: Features, s: string, p: nat, h: nat, members: seq<Entry<string, Value>>,
                         last: string): seq<Located>
    requires p <= |s| && !f.allowDroppedNullPlaceholders && ReadMembers(f, s, p, h, members, last).Parsed?
    decreases |s| - p, 2
  {
    var t, round := NextToken(s, p), MemberRound(f, s, p, h, members, last);
    if t.kind == ObjectEnd && last == "" then []
    else
      NameOfMember(f, s, p, h, members, last);
      var v, name := ReadToken(s, t.end).end, TokenText(s, t).name;
      ValueOfMember(f, s, v, h, members, name);
      [Locate(f, s, Key(name), v, h + 1, Find(members, Key(name)).GetOr(Null))] +
      match round
      case Done(_) => []
      case More(q, members', name') => LocateMembers(f, s, q, h, members', name')
  }

  /** One behind the other between `low` and `high`. */
  predicate InOrder(cs: seq<Located>, low: nat, high: nat) {
    && (forall i :: 0 <= i < |cs| ==> low <= cs[i].start < cs[i].limit <= high)
    && forall i, j :: 0 <= i < j < |cs| ==> cs[i].limit < cs[j].start
  }

  /** The text of every value parses as the value, on its own, and lies inside the text of the value
      around it, apart from the texts of its siblings. */
  ghost predicate Sound(f: Features, s: string, v: Located) {
    && v.start < v.limit <= |s|
    && (forall root :: Parse(f, s[v.start..v.limit], root) == Verdict(f, s[v.start..v.limit], 0, v.value))
    && MadeOf(v.value, v.children) && InOrder(v.children, v.start + 1, v.limit - 1)
    && forall i :: 0 <= i < |v.children| ==> Sound(f, s, v.children[i])
  }

  ghost predicate AllSound(f: Features, s: string, cs: seq<Located>) {
    forall i :: 0 <= i < |cs| ==> Sound(f, s, cs[i])
  }

  lemma SoundCons(f: Features, s: string, c: Located, cs: seq<Located>, low: nat, middle: nat, high: nat)
    requires low <= c.start < c.limit < middle && InOrder(cs, middle, high) && c.limit <= high
    requires Sound(f, s, c) && AllSound(f, s, cs)
    ensures InOrder([c] + cs, low, high) && AllSound(f, s, [c] + cs)
  {
  }

  lemma {:induction false} LocateSound(f: Features, s: string, key: string, p: nat, h: nat, old_: Value)
    requires p <= |s| && 1 <= h && !f.allowDroppedNullPlaceholders && ReadValue(f, s, p, h, old_).Parsed?
    ensures var v, x := Locate(f, s, key, p, h, old_), ReadValue(f, s, p, h, old_);
      Sound(f, s, v) && p <= v.start && v.limit == x.pos && v.value == x.value
    decreases |s| - p, 1
  {
    var x, t := ReadValue(f, s, p, h, old_), SkipComments(f, s, p);
    ValueEnd(f, s, p, h, old_);
    forall root
      ensures Parse(f, s[t.start..x.pos], root) == Verdict(f, s[t.start..x.pos], 0, x.value)
    {
      SliceParses(f, s, p, h, old_, root);
    }
    ChildrenSound(f, s, key, p, h, old_);
  }

  lemma {:induction false} ChildrenSound(f: Features, s: string, key: string, p: nat, h: nat, old_: Value)
    requires p <= |s| && 1 <= h && !f.allowDroppedNullPlaceholders && ReadValue(f, s, p, h, old_).Parsed?
    ensures var v := Locate(f, s, key, p, h, old_);
      && v.start < v.limit && MadeOf(v.value, v.children) && InOrder(v.children, v.start + 1, v.limit - 1)
      && AllSound(f, s, v.children)
    decreases |s| - p, 0
  {
    var t := SkipComments(f, s, p);
    ValueEnd(f, s, p, h, old_);
    ContainerRead(f, s, p, h, old_);
    if t.kind == ObjectBegin {
      MembersSound(f, s, t.end, h, [], "");
      MembersLocated(f, s, t.end, h, [], "");
    } else if t.kind == ArrayBegin && !(SkipSpaces(s, t.end) < |s| && s[SkipSpaces(s, t.end)] == ']') {
      ElementsSound(f, s, SkipSpaces(s, t.end), h, []);
      ElementsLocated(f, s, SkipSpaces(s, t.end), h, []);
    } else {
      NoContainer(f, s, p, h, old_);
    }
  }

  lemma {:induction false} ElementsSound(f: Features, s: string, p: nat, h: nat, items: seq<Entry<nat, Value>>)
    requires p <= |s| && !f.allowDroppedNullPlaceholders && ReadElements(f, s, p, h, items).Parsed?
    ensures var cs, x := LocateElements(f, s, p, h, items), ReadElements(f, s, p, h, items);
      AllSound(f, s, cs) && x.pos > p && InOrder(cs, p, x.pos - 1)
    decreases |s| - p, 4
  {
    var c := ElementSound(f, s, p, h, items);
    match ElementRound(f, s, p, h, items) {
      case Done(_) =>
      case More(q, items', _) =>
        ElementsSound(f, s, q, h, items');
        SoundCons(f, s, c, LocateElements(f, s, q, h, items'), p, q, ReadElements(f, s, q, h, items').pos - 1);
    }
  }

  lemma {:induction false} ElementSound(f: Features, s: string, p: nat, h: nat, items: seq<Entry<nat, Value>>)
    returns (c: Located)
    requires p <= |s| && !f.allowDroppedNullPlaceholders && ReadElements(f, s, p, h, items).Parsed?
    ensures var round := ElementRound(f, s, p, h, items);
      && LocateElements(f, s, p, h, items) ==
        [c] + (if round.Done? then [] else LocateElements(f, s, round.pos, h, round.entries))
      && p <= c.start < c.limit < (if round.Done? then round.outcome.pos else round.pos)
    ensures Sound(f, s, c)
    decreases |s| - p, 3
  {
    ElementEnd(f, s, p, h, items);
    c := ElementValueSound(f, s, p, h);
    LocateElementsStep(f, s, p, h, items, c, ElementRound(f, s, p, h, items));
  }

  lemma {:induction false} ElementValueSound(f: Features, s: string, p: nat, h: nat) returns (c: Located)
    requires p <= |s| && !f.allowDroppedNullPlaceholders && ReadValue(f, s, p, h + 1, Null).Parsed?
    ensures c == Locate(f, s, "", p, h + 1, Null)
    ensures Sound(f, s, c) && p <= c.start < c.limit == ReadValue(f, s, p, h + 1, Null).pos
    decreases |s| - p, 2
  {
    c := Locate(f, s, "", p, h + 1, Null);
    LocateSound(f, s, "", p, h + 1, Null);
  }

  lemma LocateElementsStep(f: Features, s: string, p: nat, h: nat, items: seq<Entry<nat, Value>>, c: Located,
                           round: Round<nat>)
    requires p <= |s| && !f.allowDroppedNullPlaceholders && ReadElements(f, s, p, h, items).Parsed?
    requires ReadValue(f, s, p, h + 1, Null).Parsed? && c == Locate(f, s, "", p, h + 1, Null)
    requires round == ElementRound(f, s, p, h, items)
    ensures round.More? ==> ReadElements(f, s, round.pos, h, round.entries).Parsed?
    ensures LocateElements(f, s, p, h, items) ==
      [c] + (if round.Done? then [] else LocateElements(f, s, round.pos, h, round.entries))
  {
  }

  lemma ElementEnd(f: Features, s: string, p: nat, h: nat, items: seq<Entry<nat, Value>>)
    requires p <= |s| && ReadElements(f, s, p, h, items).Parsed?
    ensures var x, round := ReadValue(f, s, p, h + 1, Null), ElementRound(f, s, p, h, items);
      x.Parsed? && x.pos < if round.Done? then round.outcome.pos else round.pos
  {
  }

  lemma {:induction false} MembersSound(f: Features, s: string, p: nat, h: nat, members: seq<Entry<string, Value>>,
                                        last: string)
    requires p <= |s| && !f.allowDroppedNullPlaceholders && ReadMembers(f, s, p, h, members, last).Parsed?
    ensures var cs, x := LocateMembers(f, s, p, h, members, last), ReadMembers(f, s, p, h, members, last);
      AllSound(f, s, cs) && x.pos > p && InOrder(cs, p, x.pos - 1)
    decreases |s| - p, 2
  {
    MembersEnd(f, s, p, h, members, last);
    var t := NextToken(s, p);
    if !(t.kind == ObjectEnd && last == "") {
      var c := MemberSound(f, s, p, h, members, last);
      match MemberRound(f, s, p, h, members, last) {
        case Done(_) =>
        case More(q, members', name) =>
          MembersSound(f, s, q, h, members', name);
          SoundCons(f, s, c, LocateMembers(f, s, q, h, members', name), p, q,
            ReadMembers(f, s, q, h, members', name).pos - 1);
      }
    }
  }

  lemma {:induction false} MemberSound(f: Features, s: string, p: nat, h: nat, members: seq<Entry<string, Value>>,
                                       last: string)
    returns (c: Located)
    requires p <= |s| && !f.allowDroppedNullPlaceholders && ReadMembers(f, s, p, h, members, last).Parsed?
    requires !(NextToken(s, p).kind == ObjectEnd && last == "")
    ensures var round := MemberRound(f, s, p, h, members, last);
      && LocateMembers(f, s, p, h, members, last) ==
        [c] + (if round.Done? then [] else LocateMembers(f, s, round.pos, h, round.entries, round.name))
      && p <= c.start < c.limit < (if round.Done? then round.outcome.pos else round.pos)
    ensures Sound(f, s, c)
    decreases |s| - p, 1
  {
    var t := NextToken(s, p);
    NameOfMember(f, s, p, h, members, last);
    var v, name := ReadToken(s, t.end).end, TokenText(s, t).name;
    c := MemberValueSound(f, s, v, h, members, name);
  }

  lemma {:induction false} MemberValueSound(f: Features, s: string, v: nat, h: nat, members: seq<Entry<string, Value>>,
                                            name: string)
    returns (c: Located)
    requires v <= |s| && !f.allowDroppedNullPlaceholders &&
      RoundInside(NamedMemberRound(f, s, v, h, members, name), |s| + 1)
    ensures var old_, round := Find(members, Key(name)).GetOr(Null), NamedMemberRound(f, s, v, h, members, name);
      && ReadValue(f, s, v, h + 1, old_).Parsed? && c == Locate(f, s, Key(name), v, h + 1, old_)
      && v <= c.start < c.limit < (if round.Done? then round.outcome.pos else round.pos)
    ensures Sound(f, s, c)
    decreases |s| - v, 2
  {
    var old_ := Find(members, Key(name)).GetOr(Null);
    MemberValueEnd(f, s, v, h, members, name, ReadValue(f, s, v, h + 1, old_));
    c := Locate(f, s, Key(name), v, h + 1, old_);
    LocateSound(f, s, Key(name), v, h + 1, old_);
  }

  lemma MemberValueEnd(f: Features, s: string, v: nat, h: nat, members: seq<Entry<string, Value>>, name: string,
                       x: Outcome)
    requires v <= |s| && RoundInside(NamedMemberRound(f, s, v, h, members, name), |s| + 1)
    requires x == ReadValue(f, s, v, h + 1, Find(members, Key(name)).GetOr(Null))
    ensures var round := NamedMemberRound(f, s, v, h, members, name);
      x.Parsed? && x.pos < (if round.Done? then round.outcome.pos else round.pos)
  {
    ValueOfMember(f, s, v, h, members, name);
  }

  /** The elements of an array are its located values, in order. */
  lemma {:induction false} ElementsLocated(f: Features, s: string, p: nat, h: nat, items: seq<Entry<nat, Value>>)
    requires p <= |s| && !f.allowDroppedNullPlaceholders && ReadElements(f, s, p, h, items).Parsed?
    ensures ReadElements(f, s, p, h, items).value == Arr(ItemsOf(items, LocateElements(f, s, p, h, items)))
    decreases |s| - p
  {
    ElementRead(f, s, p, h, items);
    match ElementRound(f, s, p, h, items) {
      case Done(_) =>
      case More(q, items', _) => ElementsLocated(f, s, q, h, items');
    }
  }

  /** The members of an object are its located values, each stored under its own key. */
  lemma {:induction false} MembersLocated(f: Features, s: string, p: nat, h: nat, members: seq<Entry<string, Value>>,
                                          last: string)
    requires p <= |s| && !f.allowDroppedNullPlaceholders && ReadMembers(f, s, p, h, members, last).Parsed?
    ensures ReadMembers(f, s, p, h, members, last).value ==
      Obj(MembersOf(members, LocateMembers(f, s, p, h, members, last)))
    decreases |s| - p
  {
    var t := NextToken(s, p);
    if !(t.kind == ObjectEnd && last == "") {
      NameOfMember(f, s, p, h, members, last);
      var v, name := ReadToken(s, t.end).end, TokenText(s, t).name;
      ValueOfMember(f, s, v, h, members, name);
      AfterValue(f, s, v, h, members, name, ReadValue(f, s, v, h + 1, Find(members, Key(name)).GetOr(Null)));
      match MemberRound(f, s, p, h, members, last) {
        case Done(_) =>
        case More(q, members', name') => MembersLocated(f, s, q, h, members', name');
      }
    }
  }

  /** Other values have nothing inside. */
  lemma NoContainer(f: Features, s: string, p: nat, h: nat, old_: Value)
    requires p <= |s| && !f.allowDroppedNullPlaceholders && ReadValue(f, s, p, h, old_).Parsed?
    requires var t := SkipComments(f, s, p);
      t.kind != ObjectBegin && (t.kind == ArrayBegin ==> SkipSpaces(s, t.end) < |s| && s[SkipSpaces(s, t.end)] == ']')
    ensures MadeOf(ReadValue(f, s, p, h, old_).value, [])
  {
    ContainerRead(f, s, p, h, old_);
    assert ReadValue(f, s, p, h, old_) == ValueAt(f, s, p, SkipComments(f, s, p), h, old_);
  }

  /** The last of the values with this key. */
  function LastNamed(cs: seq<Located>, key: string): Option<Value> {
    if cs == [] then None
    else
      var later := LastNamed(cs[1..], key);
      if later.Some? then later else if cs[0].key == key then Some(cs[0].value) else None
  }

  /** Under a key an object has the value that was read last under it. */
  lemma {:induction false} LastMemberStays(members: seq<Entry<string, Value>>, cs: seq<Located>, key: string)
    requires Sorted(members)
    ensures Find(MembersOf(members, cs), key) == if LastNamed(cs, key).Some? then LastNamed(cs, key)
      else Find(members, key)
    decreases |cs|
  {
    if cs != [] {
      InsertSorted(members, cs[0].key, cs[0].value);
      LastMemberStays(Insert(members, cs[0].key, cs[0].value), cs[1..], key);
    }
  }

  /** The `i`-th item is the `i`-th child. */
  lemma {:induction false} ItemsInOrder(items: seq<Entry<nat, Value>>, cs: seq<Located>)
    ensures var r := ItemsOf(items, cs);
      && |r| == |items| + |cs| && r[..|items|] == items
      && forall i :: 0 <= i < |cs| ==> r[|items| + i] == Entry(|items| + i, cs[i].value)
    decreases |cs|
  {
    if cs != [] {
      var items' := items + [Entry(|items|, cs[0].value)];
      ItemsInOrder(items', cs[1..]);
      var r := ItemsOf(items, cs);
      assert r[..|items|] == r[..|items'|][..|items|];
      assert r[|items|] == r[..|items'|][|items|];
    }
  }

  /** After a successful parse every value has a range of text that parses as that value. */
  lemma DocumentSlices(f: Features, document: string, root: Value)
    requires !f.allowDroppedNullPlaceholders
    requires Parse(f, document, root).Finished? && Parse(f, document, root).successful
    ensures ReadValue(f, document, 0, 1, root).Parsed?
    ensures Sound(f, document, Locate(f, document, "", 0, 1, root))
    ensures Locate(f, document, "", 0, 1, root).value == Parse(f, document, root).root
  {
    LocateSound(f, document, "", 0, 1, root);
  }
}

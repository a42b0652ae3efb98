/** How reading goes wrong: what leaves the reader as an exception, and where its errors point. */
module JsonExceptions {
  import opened OrderedMap
  import opened JsonValue
  import opened JsonStrings
  import opened JsonNumbers
  import opened JsonTokens
  import opened JsonGrammar
  import opened JsonLexemes
  import opened JsonEscapes

  /** The stack limit at any time; a string that is too long only if the text is at least as long; a
      number as a name only if numeric names are read. */
  predicate Possible(f: Features, s: string, e: Exception) {
    match e
    case StackLimitExceeded => true
    case StringTooLong => |s| > 0x7FFF_FFFA
    case NumberIsNoName => f.allowNumericKeys
  }

  /** The error names a range of the text from `p` on, and perhaps a place behind its first character. */
  predicate PointsInto(e: ErrorInfo, s: string, p: nat) {
    && p <= e.token.start <= e.token.end <= |s|
    && (e.extra.Some? ==> e.token.start < e.extra.value <= e.token.end)
  }

  /** The token of the error is a token of the text, and the message says what is wrong with it. */
  ghost predicate Fits(f: Features, s: string, e: ErrorInfo) {
    var t := e.token;
    && t.start <= t.end <= |s| && ReadToken(s, t.start) == t && (!e.message.InString? ==> e.extra == None)
    && match e.message
       case ValueExpected =>
         t.kind in {EndOfStream, ErrorToken, CommentToken, MemberSeparator} ||
         (t.kind in {ArraySeparator, ObjectEnd, ArrayEnd} && !f.allowDroppedNullPlaceholders)
       case NotANumber =>
         t.kind == NumberToken && DecodeNumber(s[t.start..t.end]) == Floating && f.toDouble(s[t.start..t.end]) == None
       case InString(m) => t.kind == StringToken && e.extra.Some? && Explains(s, t.end - 1, m, e.extra.value)
       case MissingColon => t.kind != MemberSeparator
       case MissingCommaOrBrace => t.kind !in {ArraySeparator, ObjectEnd, CommentToken}
       case MissingNameOrBrace => t.kind != StringToken && (t.kind == NumberToken ==> !f.allowNumericKeys)
       case MissingCommaOrBracket => t.kind !in {ArraySeparator, ArrayEnd}
       case RootNotAContainer => false
  }

  /** Reading from `p` succeeds, throws what is possible or fails with an error that points into the text
      and says what is wrong there. */
  ghost predicate Explained(f: Features, s: string, p: nat, r: Outcome) {
    (r.Thrown? ==> Possible(f, s, r.exception)) && (r.Failed? ==> PointsInto(r.error, s, p) && Fits(f, s, r.error))
  }

  /** Tokens are the same from where they start. */
  lemma TokenStands(s: string, p: nat)
    requires p <= |s|
    ensures var t := ReadToken(s, p); ReadToken(s, t.start) == t
  {
    TokenStart(s, p);
    TokenStart(s, ReadToken(s, p).start);
  }

  lemma {:induction false} NextTokenStands(s: string, p: nat)
    requires p <= |s|
    ensures var t := NextToken(s, p); ReadToken(s, t.start) == t
    decreases |s| - p
  {
    TokenStands(s, p);
    if ReadToken(s, p).kind == CommentToken {
      NextTokenStands(s, ReadToken(s, p).end);
    }
  }

  // ----- strings -----

  lemma {:induction false} HexComplains(s: string, p: nat, stop: nat, read: nat)
    requires p <= stop <= |s|
    ensures var r := DecodeHex(s, p, stop, read); r.BadCodePoint? ==> p < r.extra <= stop
    decreases stop - p
  {
    if p < stop && HexValue(s[p]).Some? {
      HexComplains(s, p + 1, stop, read * 16 + HexValue(s[p]).value);
    }
  }

  lemma CodePointComplains(s: string, p: nat, end: nat)
    requires p <= end <= |s|
    ensures var r := DecodeCodePoint(s, p, end); r.BadCodePoint? ==> p <= r.extra <= end
  {
    if end - p >= 4 {
      HexComplains(s, p, p + 4, 0);
      if end - p >= 10 {
        HexComplains(s, p + 6, p + 10, 0);
      }
    }
  }

  /** A string is never longer than the text it is decoded from; what is wrong with it lies in that text. */
  lemma {:induction false} CharsExplained(s: string, p: nat, end: nat)
    requires p <= end <= |s|
    ensures var d := DecodeChars(s, p, end); d.Decoded? ==> |d.text| <= end - p
    ensures var d := DecodeChars(s, p, end); d.Undecodable? ==> p < d.extra <= end
    decreases end - p
  {
    if p < end && s[p] != '\"' {
      if s[p] != '\\' {
        CharsExplained(s, p + 1, end);
      } else {
        assert DecodeChars(s, p, end) == DecodeEscaped(s, p + 1, end);
        if p + 1 < end && s[p + 1] == 'u' {
          CodePointComplains(s, p + 2, end);
          if DecodeCodePoint(s, p + 2, end).CodePoint? {
            CharsExplained(s, DecodeCodePoint(s, p + 2, end).next, end);
          }
        } else if p + 1 < end {
          CharsExplained(s, p + 2, end);
        }
      }
    }
  }

  lemma StringExplained(s: string, t: Token, old_: Value)
    requires t.start + 2 <= t.end <= |s|
    ensures TokenText(s, t).BadName? ==> PointsInto(TokenText(s, t).error, s, t.start)
    ensures !TokenText(s, t).NameThrows?
    ensures var r := StringOutcome(s, t, old_); r.Thrown? ==> r.exception == StringTooLong && |s| > MAX_STRING
  {
    CharsExplained(s, t.start + 1, t.end - 1);
  }

  lemma StringFits(f: Features, s: string, t: Token, e: ErrorInfo)
    requires t.start + 2 <= t.end <= |s| && t.kind == StringToken && ReadToken(s, t.start) == t
    requires TokenText(s, t) == BadName(e)
    ensures Fits(f, s, e)
  {
    var d := DecodeChars(s, t.start + 1, t.end - 1);
    assert e == ErrorInfo(t, InString(d.message), Some(d.extra));
    UndecodableExplained(s, t.start + 1, t.end - 1);
    ExplainedFits(f, s, t, d.message, d.extra);
  }

  lemma ExplainedFits(f: Features, s: string, t: Token, m: StringMessage, extra: nat)
    requires t.start + 2 <= t.end <= |s| && t.kind == StringToken && ReadToken(s, t.start) == t
    requires Explains(s, t.end - 1, m, extra)
    ensures Fits(f, s, ErrorInfo(t, InString(m), Some(extra)))
  {
  }

  lemma NameExplained(f: Features, s: string, t: Token)
    requires t.start <= t.end <= |s| && (t.kind == StringToken ==> t.start + 2 <= t.end)
    ensures var r := NameOf(f, s, t); r.NameThrows? ==> Possible(f, s, r.exception)
    ensures var r := NameOf(f, s, t); r.BadName? ==> PointsInto(r.error, s, t.start)
    ensures ReadToken(s, t.start) == t && NameOf(f, s, t).BadName? ==> Fits(f, s, NameOf(f, s, t).error)
    ensures NameOf(f, s, t).Named? ==> t.kind == StringToken
  {
    if t.kind == StringToken {
      StringExplained(s, t, Null);
      if ReadToken(s, t.start) == t && NameOf(f, s, t).BadName? {
        StringFits(f, s, t, NameOf(f, s, t).error);
      }
    }
  }

  // ----- values -----

  lemma {:induction false} ValueExplained(f: Features, s: string, p: nat, h: nat, old_: Value)
    requires p <= |s|
    ensures Explained(f, s, p, ReadValue(f, s, p, h, old_))
    decreases |s| - p, 1
  {
    if h <= STACK_LIMIT {
      var t := SkipComments(f, s, p);
      assert ReadValue(f, s, p, h, old_) == ValueAt(f, s, p, t, h, old_);
      TokenStands(s, p);
      NextTokenStands(s, p);
      match t.kind {
        case ObjectBegin => MembersExplained(f, s, t.end, h, [], "");
        case ArrayBegin => ArrayExplained(f, s, t.end, h);
        case _ => TokenExplained(f, s, p, t, h, old_);
      }
    }
  }

  /** A value of one token. */
  lemma TokenExplained(f: Features, s: string, p: nat, t: Token, h: nat, old_: Value)
    requires p <= |s| && t == SkipComments(f, s, p) && ReadToken(s, t.start) == t &&
      t.kind !in {ObjectBegin, ArrayBegin}
    ensures Explained(f, s, p, ValueAt(f, s, p, t, h, old_))
  {
    if t.kind == StringToken {
      StringExplained(s, t, old_);
      if StringOutcome(s, t, old_).Failed? {
        StringFits(f, s, t, StringOutcome(s, t, old_).error);
      }
    } else if t.kind == NumberToken {
      NumberExplained(f, s, t, old_);
    } else {
      OtherExplained(f, s, p, t, h, old_);
    }
  }

  lemma NumberExplained(f: Features, s: string, t: Token, old_: Value)
    requires t.start <= t.end <= |s| && t.kind == NumberToken && ReadToken(s, t.start) == t
    ensures Explained(f, s, t.start, NumberOutcome(f, s, t, old_))
  {
  }

  lemma OtherExplained(f: Features, s: string, p: nat, t: Token, h: nat, old_: Value)
    requires p <= |s| && t == SkipComments(f, s, p) && ReadToken(s, t.start) == t
    requires t.kind !in {ObjectBegin, ArrayBegin, StringToken, NumberToken}
    ensures Explained(f, s, p, ValueAt(f, s, p, t, h, old_))
  {
  }

  lemma {:induction false} ArrayExplained(f: Features, s: string, p: nat, h: nat)
    requires p <= |s|
    ensures Explained(f, s, p, ArrayOutcome(f, s, p, h))
    decreases |s| - p, 3
  {
    ElementsExplained(f, s, SkipSpaces(s, p), h, []);
  }

  lemma {:induction false} ElementsExplained(f: Features, s: string, p: nat, h: nat, items: seq<Entry<nat, Value>>)
    requires p <= |s|
    ensures Explained(f, s, p, ReadElements(f, s, p, h, items))
    decreases |s| - p, 2
  {
    var x := ReadValue(f, s, p, h + 1, Null);
    ValueExplained(f, s, p, h + 1, Null);
    if x.Parsed? {
      NextTokenStands(s, x.pos);
    }
    match ElementRound(f, s, p, h, items) {
      case Done(_) =>
      case More(q, items', _) => ElementsExplained(f, s, q, h, items');
    }
  }

  lemma {:induction false} NamedMemberExplained(f: Features, s: string, p: nat, h: nat,
                                                members: seq<Entry<string, Value>>, name: string)
    requires p <= |s|
    ensures var r := NamedMemberRound(f, s, p, h, members, name); r.Done? ==> Explained(f, s, p, r.outcome)
    decreases |s| - p, 2
  {
    var x := ReadValue(f, s, p, h + 1, Find(members, Key(name)).GetOr(Null));
    ValueExplained(f, s, p, h + 1, Find(members, Key(name)).GetOr(Null));
    if x.Parsed? {
      TokenStands(s, x.pos);
    }
  }

  lemma {:induction false} MembersExplained(f: Features, s: string, p: nat, h: nat, members: seq<Entry<string, Value>>,
                                            last: string)
    requires p <= |s|
    ensures Explained(f, s, p, ReadMembers(f, s, p, h, members, last))
    decreases |s| - p, 2
  {
    var t := NextToken(s, p);
    NextTokenStands(s, p);
    NameExplained(f, s, t);
    TokenStands(s, t.end);
    if t.kind != EndOfStream && NameOf(f, s, t).Named? {
      NamedMemberExplained(f, s, ReadToken(s, t.end).end, h, members, NameOf(f, s, t).name);
    }
    match MemberRound(f, s, p, h, members, last) {
      case Done(_) =>
      case More(q, members', name) => MembersExplained(f, s, q, h, members', name);
    }
  }

  // ----- what stays -----

  /** A value of one token that cannot be read leaves the value that was there. */
  lemma FailedToken(f: Features, s: string, p: nat, h: nat, old_: Value)
    requires p <= |s| && ReadValue(f, s, p, h, old_).Failed?
    requires SkipComments(f, s, p).kind !in {ObjectBegin, ArrayBegin}
    ensures ReadValue(f, s, p, h, old_).value == old_
  {
    assert ReadValue(f, s, p, h, old_) == ValueAt(f, s, p, SkipComments(f, s, p), h, old_);
  }

  /** Elements that were read stay in their places, also in front of an error. */
  lemma {:induction false} ElementsStay(f: Features, s: string, p: nat, h: nat, items: seq<Entry<nat, Value>>)
    requires p <= |s|
    ensures var r := ReadElements(f, s, p, h, items);
      !r.Thrown? ==> r.value.Arr? && items < r.value.items
    decreases |s| - p
  {
    match ElementRound(f, s, p, h, items) {
      case Done(_) =>
      case More(q, items', _) => ElementsStay(f, s, q, h, items');
    }
  }

  /** Members that were read stay, perhaps with a later value of the same name. */
  lemma {:induction false} MembersStay(f: Features, s: string, p: nat, h: nat, members: seq<Entry<string, Value>>,
                                       last: string, key: string)
    requires p <= |s| && Sorted(members) && HasKey(members, key)
    ensures var r := ReadMembers(f, s, p, h, members, last);
      !r.Thrown? ==> r.value.Obj? && Sorted(r.value.members) && HasKey(r.value.members, key)
    decreases |s| - p
  {
    MemberStays(f, s, p, h, members, last, key);
    match MemberRound(f, s, p, h, members, last) {
      case Done(_) =>
      case More(q, members', name) => MembersStay(f, s, q, h, members', name, key);
    }
  }

  lemma MemberStays(f: Features, s: string, p: nat, h: nat, members: seq<Entry<string, Value>>, last: string,
                    key: string)
    requires p <= |s| && Sorted(members) && HasKey(members, key)
    ensures var r := MemberRound(f, s, p, h, members, last);
      match r
      case Done(x) => !x.Thrown? ==> x.value.Obj? && Sorted(x.value.members) && HasKey(x.value.members, key)
      case More(_, members', _) => Sorted(members') && HasKey(members', key)
  {
    forall k, v
      ensures Sorted(Insert(members, k, v)) && HasKey(Insert(members, k, v), key)
    {
      InsertSorted(members, k, v);
    }
  }

  // ----- documents -----

  /** Without numeric names, a text that is no longer than the longest string is parsed to an end or
      ends at the stack limit. */
  lemma OnlyTheStackLimit(f: Features, document: string, root: Value)
    requires !f.allowNumericKeys && |document| <= 0x7FFF_FFFA
    ensures Parse(f, document, root).Raised? ==> Parse(f, document, root).exception == StackLimitExceeded
  {
    ValueExplained(f, document, 0, 1, root);
  }

  /** Every recorded error names a range of the document, and a place in it if it names one. It is a token
      with what the message says about it, or the whole document when a strict reader gets no container. */
  lemma ErrorsPointIntoText(f: Features, document: string, root: Value)
    ensures var r := Parse(f, document, root);
      r.Finished? ==> forall e :: e in r.errors ==> PointsInto(e, document, 0)
    ensures var r := Parse(f, document, root);
      r.Finished? ==> forall e :: e in r.errors ==> Fits(f, document, e) || RootRefused(f, document, r.root, e)
  {
    ValueExplained(f, document, 0, 1, root);
  }

  predicate RootRefused(f: Features, document: string, root: Value, e: ErrorInfo) {
    && e == ErrorInfo(Token(ErrorToken, 0, |document|), RootNotAContainer, None)
    && f.strictRoot && !root.Arr? && !root.Obj?
  }

  /** A parse is successful exactly if nothing is recorded; a strict reader records that a root is no
      container, behind what else is wrong. */
  lemma ErrorsRecorded(f: Features, document: string, root: Value)
    ensures var r, x := Parse(f, document, root), ReadValue(f, document, 0, 1, root);
      r.Finished? ==>
        && (r.successful <==> r.errors == []) && r.root == x.value
        && |r.errors| == (if x.Failed? then 1 else 0) + (if f.strictRoot && !r.root.Arr? && !r.root.Obj? then 1 else 0)
        && (x.Failed? ==> r.errors[0] == x.error)
  {
  }
}

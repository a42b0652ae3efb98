/** Whatever the reader accepts is a phrase of the grammar. */
module JsonAccepted {
  import opened Text
  import opened OrderedMap
  import opened JsonValue
  import opened JsonNumbers
  import opened JsonStrings
  import opened JsonTokens
  import opened JsonGrammar
  import opened JsonLayout
  import opened JsonRoundTrip
  import opened JsonSlices
  import opened JsonLexemes
  import opened JsonPhrases

  // ----- the phrase that was read -----

  /** The phrase stands at `p` and explains the outcome `x`. */
  predicate Stands(f: Features, s: string, p: nat, ph: Phrase, x: Outcome) {
    && x.Parsed? && Rule(f, ph) && Part(s, PhraseText(ph), p) && p + |PhraseText(ph)| == x.pos
    && PhraseValue(ph) == x.value && Ends(s, x.pos, ph)
  }

  predicate ItemsStand(f: Features, s: string, p: nat, entries: seq<Entry<nat, Value>>, items: seq<Item>, x: Outcome) {
    && x.Parsed? && items != [] && ItemsRule(f, items) && Part(s, ItemsText(items), p)
    && p + |ItemsText(items)| == x.pos && x.value == Arr(AddItems(entries, items))
  }

  predicate MembersStand(f: Features, s: string, p: nat, entries: seq<Entry<string, Value>>, last: string,
                         members: seq<Member>, closing: string, x: Outcome) {
    && x.Parsed? && MembersRule(f, members, last, closing) && Part(s, MembersText(members, closing), p)
    && p + |MembersText(members, closing)| == x.pos && x.value == Obj(AddMembers(entries, members))
  }

  lemma SkippedOut(f: Features, s: string, p: nat)
    requires p <= |s| && SkipComments(f, s, p).start < |s|
    ensures var t := SkipComments(f, s, p);
      Skipped(f, s[p..t.start]) && !Space(s[t.start]) && t == TokenAt(s, t.start) == ReadToken(s, t.start)
  {
    var t := SkipComments(f, s, p);
    if f.allowComments {
      BlankOut(s, p);
      NextStart(s, p);
    } else {
      TokenStart(s, p);
      SpacesOut(s, p);
    }
    TokenStart(s, t.start);
  }

  /** Which first tokens a value that is read has. */
  lemma FirstToken(f: Features, s: string, p: nat, h: nat, old_: Value)
    requires p <= |s| && ReadValue(f, s, p, h, old_).Parsed?
    ensures var x, t := ReadValue(f, s, p, h, old_), SkipComments(f, s, p);
      && t.start < t.end && h <= STACK_LIMIT && x == ValueAt(f, s, p, t, h, old_)
      && t.kind !in {EndOfStream, ErrorToken, CommentToken, MemberSeparator}
      && (t.kind in {ArraySeparator, ObjectEnd, ArrayEnd} ==>
        f.allowDroppedNullPlaceholders && x == Parsed(t.start, Null) && Separator(s[t.start]))
  {
    var t := SkipComments(f, s, p);
    assert ReadValue(f, s, p, h, old_) == ValueAt(f, s, p, t, h, old_);
    if t.start < |s| {
      SkippedOut(f, s, p);
    }
  }

  lemma {:induction false} FindPhrase(f: Features, s: string, p: nat, h: nat, old_: Value) returns (ph: Phrase)
    requires p <= |s| && ReadValue(f, s, p, h, old_).Parsed?
    ensures Stands(f, s, p, ph, ReadValue(f, s, p, h, old_))
    decreases |s| - p, 3
  {
    var t := SkipComments(f, s, p);
    FirstToken(f, s, p, h, old_);
    SkippedOut(f, s, p);
    if t.kind == ArrayBegin {
      ph := FindList(f, s, p, h, old_);
    } else if t.kind == ObjectBegin {
      ph := FindRecord(f, s, p, h, old_);
    } else if t.kind in {ArraySeparator, ObjectEnd, ArrayEnd} {
      ph := Nothing(s[p..t.start]);
    } else {
      ph := FindAtom(f, s, p, h, old_);
    }
  }

  lemma FindAtom(f: Features, s: string, p: nat, h: nat, old_: Value) returns (ph: Phrase)
    requires p <= |s| && ReadValue(f, s, p, h, old_).Parsed?
    requires SkipComments(f, s, p).kind in {NumberToken, StringToken, TrueToken, FalseToken, NullToken}
    ensures Stands(f, s, p, ph, ReadValue(f, s, p, h, old_))
  {
    var v, t := ReadValue(f, s, p, h, old_).value, SkipComments(f, s, p);
    ph := Atom(s[p..t.start], s[t.start..t.end], v);
    FirstToken(f, s, p, h, old_);
    SkippedOut(f, s, p);
    LexemeOut(s, t.start);
    AtomOut(f, s, p, h, old_, t);
    AtomEnds(s, t);
    AtomStands(f, s, p, t, v);
  }

  lemma AtomStands(f: Features, s: string, p: nat, t: Token, v: Value)
    requires p <= t.start < t.end <= |s| && Skipped(f, s[p..t.start]) && AtomIs(f, s[t.start..t.end], v)
    requires Lexeme(NumberToken, s[t.start..t.end]) ==> NumberEnd(s, t.start + 1) == t.end
    ensures Stands(f, s, p, Atom(s[p..t.start], s[t.start..t.end], v), Parsed(t.end, v))
  {
    PartConcat(s, s[p..t.start], s[t.start..t.end], p);
  }

  lemma AtomOut(f: Features, s: string, p: nat, h: nat, old_: Value, t: Token)
    requires p <= |s| && ReadValue(f, s, p, h, old_).Parsed? && t == SkipComments(f, s, p)
    requires t.kind in {NumberToken, StringToken, TrueToken, FalseToken, NullToken} && Lexeme(t.kind, s[t.start..t.end])
    ensures var x := ReadValue(f, s, p, h, old_); x.pos == t.end && AtomIs(f, s[t.start..t.end], x.value)
  {
    var v, x := ReadValue(f, s, p, h, old_).value, s[t.start..t.end];
    FirstToken(f, s, p, h, old_);
    TokenDecides(f, s, p, h, old_, t);
    StandsOut(f, s, t, old_, v);
    LexemeStands(f, x, t.kind, v);
  }

  lemma LexemeStands(f: Features, x: string, kind: Kind, v: Value)
    requires Lexeme(kind, x) && (kind == StringToken ==> |x| >= 2) && StandsFor(f, x, Token(kind, 0, |x|), v)
    ensures AtomIs(f, x, v)
  {
  }

  lemma AtomEnds(s: string, t: Token)
    requires t.start < |s| && !Space(s[t.start]) && t == TokenAt(s, t.start) && Lexeme(t.kind, s[t.start..t.end])
    ensures Lexeme(NumberToken, s[t.start..t.end]) ==> NumberEnd(s, t.start + 1) == t.end
  {
    if IsDigit(s[t.start]) || s[t.start] == '-' {
      NumberStart(s, t.start);
    } else {
      OtherToken(s, t.start);
    }
  }

  /** No other character starts a number. */
  lemma OtherToken(s: string, p: nat)
    requires p < |s| && !Space(s[p]) && !IsDigit(s[p]) && s[p] != '-'
    ensures TokenAt(s, p).kind != NumberToken
  {
    if s[p] !in {'t', 'f', 'n', '/', '\"'} {
      SingleToken(s, p);
    }
  }

  /** The token of a value stands for it in its own text. */
  lemma StandsOut(f: Features, s: string, t: Token, old_: Value, v: Value)
    requires t.start < t.end <= |s| && (t.kind == StringToken ==> t.start + 2 <= t.end)
    requires match t.kind
      case NumberToken => NumberOutcome(f, s, t, old_) == Parsed(t.end, v)
      case StringToken => StringOutcome(s, t, old_) == Parsed(t.end, v)
      case TrueToken => v == Bool(true)
      case FalseToken => v == Bool(false)
      case NullToken => v == Null
      case _ => false
    ensures StandsFor(f, s[t.start..t.end], Token(t.kind, 0, t.end - t.start), v)
  {
    var x := s[t.start..t.end];
    var u := Token(t.kind, 0, |x|);
    assert Moved(u, t.start) == t;
    match t.kind {
      case NumberToken => NumberOutcomeInPart(f, s, x, t.start, u, old_, Null);
      case StringToken => StringOutcomeInPart(s, x, t.start, u, old_, Null);
      case _ =>
    }
  }

  lemma {:induction false} FindList(f: Features, s: string, p: nat, h: nat, old_: Value) returns (ph: Phrase)
    requires p <= |s| && ReadValue(f, s, p, h, old_).Parsed? && SkipComments(f, s, p).kind == ArrayBegin
    ensures Stands(f, s, p, ph, ReadValue(f, s, p, h, old_))
    decreases |s| - p, 2
  {
    var t := SkipComments(f, s, p);
    FirstToken(f, s, p, h, old_);
    SkippedOut(f, s, p);
    assert ReadValue(f, s, p, h, old_) == ArrayOutcome(f, s, t.end, h);
    var q := SkipSpaces(s, t.end);
    SpacesOut(s, t.end);
    var items := [];
    if q < |s| && s[q] == ']' {
      BracketParts(s, p, t, q, items);
    } else {
      items := FindItems(f, s, q, h, []);
      BracketParts(s, p, t, q, items);
      NotAlone(s, q, items);
    }
    ph := List(s[p..t.start], s[t.end..q], items);
  }

  /** A list whose parts stand one behind the other. */
  lemma BracketParts(s: string, p: nat, t: Token, q: nat, items: seq<Item>)
    requires p <= t.start < |s| && s[t.start] == '[' && t.end == t.start + 1 <= q <= |s| && Part(s, ItemsText(items), q)
    ensures var ph := List(s[p..t.start], s[t.end..q], items);
      Part(s, PhraseText(ph), p) && p + |PhraseText(ph)| == q + |ItemsText(items)|
  {
    var inner := s[t.end..q];
    PartConcat(s, inner, ItemsText(items), t.end);
    PartConcat(s, "[", inner + ItemsText(items), t.start);
    PartConcat(s, s[p..t.start], "[" + (inner + ItemsText(items)), p);
  }

  lemma NotAlone(s: string, q: nat, items: seq<Item>)
    requires items != [] && Part(s, ItemsText(items), q) && (q < |s| ==> !Space(s[q]) && s[q] != ']')
    requires items[0].phrase.Nothing? ==> items[0].after == ""
    ensures !(|items| == 1 && items[0].phrase.Nothing? && Spaces(items[0].phrase.gap))
  {
    ItemParts(s, q, items);
    if |items| == 1 && items[0].phrase.Nothing? && items[0].phrase.gap != "" {
      assert items[0].phrase.gap[0] == s[q];
    }
  }

  lemma {:induction false} FindItems(f: Features, s: string, p: nat, h: nat, entries: seq<Entry<nat, Value>>)
    returns (items: seq<Item>)
    requires p <= |s| && ReadElements(f, s, p, h, entries).Parsed?
    ensures ItemsStand(f, s, p, entries, items, ReadElements(f, s, p, h, entries))
    decreases |s| - p, 4
  {
    var x := ReadValue(f, s, p, h + 1, Null);
    SeparatorOfElement(f, s, p, h, entries);
    var ph := FindPhrase(f, s, p, h + 1, Null);
    var t := NextToken(s, x.pos);
    var item := FindItem(f, s, p, ph, x);
    var entries' := entries + [Entry(|entries|, x.value)];
    BehindItem(f, s, p, h, entries, x, t);
    if t.kind == ArrayEnd {
      items := [item];
      LastItem(f, s, p, entries, item, t.end);
    } else {
      var rest := FindItems(f, s, t.end, h, entries');
      items := [item] + rest;
      MoreItems(f, s, p, entries, item, t.end, rest, ReadElements(f, s, t.end, h, entries'));
    }
  }

  lemma BehindItem(f: Features, s: string, p: nat, h: nat, entries: seq<Entry<nat, Value>>, x: Outcome, t: Token)
    requires p <= |s| && x == ReadValue(f, s, p, h + 1, Null) && x.Parsed? && t == NextToken(s, x.pos)
    requires t.kind in {ArrayEnd, ArraySeparator}
    ensures ReadElements(f, s, p, h, entries) ==
      if t.kind == ArrayEnd then Parsed(t.end, Arr(entries + [Entry(|entries|, x.value)]))
      else ReadElements(f, s, t.end, h, entries + [Entry(|entries|, x.value)])
  {
    ElementsLoop(f, s, p, h, entries, ElementRound(f, s, p, h, entries));
  }

  lemma FindItem(f: Features, s: string, p: nat, ph: Phrase, x: Outcome) returns (item: Item)
    requires p <= |s| && Stands(f, s, p, ph, x) && NextToken(s, x.pos).kind in {ArrayEnd, ArraySeparator}
    ensures var t := NextToken(s, x.pos); ItemAt(f, s, p, item, if t.kind == ArrayEnd then ']' else ',', t.end)
    ensures item.phrase == ph
  {
    FindAfter(s, x.pos, ph);
    item := Item(ph, s[x.pos..NextToken(s, x.pos).start]);
  }

  /** The gap behind a phrase. */
  lemma FindAfter(s: string, q: nat, ph: Phrase)
    requires q <= |s| && Ends(s, q, ph) && NextToken(s, q).start < |s|
    ensures var t := NextToken(s, q);
      && Blank(s[q..t.start]) && (ph.Nothing? ==> s[q..t.start] == "")
      && !Space(s[t.start]) && t == TokenAt(s, t.start) && t == ReadToken(s, t.start)
  {
    BlankOut(s, q);
    NextStart(s, q);
    TokenStart(s, NextToken(s, q).start);
    if ph.Nothing? {
      TokenStart(s, q);
    }
  }

  /** The item stands at `p`, with `c` behind it, up to `next`. */
  predicate ItemAt(f: Features, s: string, p: nat, item: Item, c: char, next: nat) {
    var q := p + |PhraseText(item.phrase)|;
    && Rule(f, item.phrase) && Blank(item.after) && (item.phrase.Nothing? ==> item.after == "")
    && Part(s, PhraseText(item.phrase), p) && Part(s, item.after, q) && next == q + |item.after| + 1
    && CharAt(s, next - 1, c)
  }

  lemma LastItem(f: Features, s: string, p: nat, entries: seq<Entry<nat, Value>>, item: Item, next: nat)
    requires ItemAt(f, s, p, item, ']', next)
    ensures ItemsStand(f, s, p, entries, [item],
      Parsed(next, Arr(entries + [Entry(|entries|, PhraseValue(item.phrase))])))
  {
    var t, a := PhraseText(item.phrase), item.after;
    OneItem(entries, item);
    PartConcat(s, a, "]", p + |t|);
    PartConcat(s, t, a + "]", p);
  }

  lemma OneItem(entries: seq<Entry<nat, Value>>, item: Item)
    ensures ItemsText([item]) == PhraseText(item.phrase) + (item.after + "]")
    ensures AddItems(entries, [item]) == entries + [Entry(|entries|, PhraseValue(item.phrase))]
  {
    assert [item][1..] == [] && ItemsText([]) == "]";
    assert "" + "]" == "]";
    assert AddItems(entries, [item]) == AddItems(entries + [Entry(|entries|, PhraseValue(item.phrase))], []);
  }

  lemma MoreItems(f: Features, s: string, p: nat, entries: seq<Entry<nat, Value>>, item: Item, next: nat,
                  rest: seq<Item>, x: Outcome)
    requires ItemAt(f, s, p, item, ',', next)
    requires ItemsStand(f, s, next, entries + [Entry(|entries|, PhraseValue(item.phrase))], rest, x)
    ensures ItemsStand(f, s, p, entries, [item] + rest, x)
  {
    var t, a := PhraseText(item.phrase), item.after;
    var items := [item] + rest;
    assert items[1..] == rest;
    assert ItemsText(items) == t + (a + ("," + ItemsText(rest)));
    PartConcat(s, ",", ItemsText(rest), next - 1);
    PartConcat(s, a, "," + ItemsText(rest), p + |t|);
    PartConcat(s, t, a + ("," + ItemsText(rest)), p);
  }

  lemma {:induction false} FindRecord(f: Features, s: string, p: nat, h: nat, old_: Value) returns (ph: Phrase)
    requires p <= |s| && ReadValue(f, s, p, h, old_).Parsed? && SkipComments(f, s, p).kind == ObjectBegin
    ensures Stands(f, s, p, ph, ReadValue(f, s, p, h, old_))
    decreases |s| - p, 2
  {
    var t := SkipComments(f, s, p);
    FirstToken(f, s, p, h, old_);
    SkippedOut(f, s, p);
    assert ReadValue(f, s, p, h, old_) == ReadMembers(f, s, t.end, h, [], "");
    var members, closing := FindMembers(f, s, t.end, h, [], "");
    ph := Record(s[p..t.start], members, closing);
    PartConcat(s, "{", MembersText(members, closing), t.start);
    PartConcat(s, s[p..t.start], "{" + MembersText(members, closing), p);
  }

  lemma {:induction false} FindMembers(f: Features, s: string, p: nat, h: nat, entries: seq<Entry<string, Value>>,
                                       last: string)
    returns (members: seq<Member>, closing: string)
    requires p <= |s| && ReadMembers(f, s, p, h, entries, last).Parsed?
    ensures MembersStand(f, s, p, entries, last, members, closing, ReadMembers(f, s, p, h, entries, last))
    decreases |s| - p, 4
  {
    var t := NextToken(s, p);
    MembersLoop(f, s, p, h, entries, last, MemberRound(f, s, p, h, entries, last));
    if t.kind == ObjectEnd && last == "" {
      members, closing := [], s[p..t.start];
      FindClosing(s, p);
    } else {
      var m := FindMember(f, s, p, h, entries, last);
      if m.separator == "}" {
        members, closing := [m], "";
        LastMember(f, s, p, entries, last, m);
      } else {
        var rest;
        rest, closing := FindMembers(f, s, NextMember(m, p), h, MemberAdded(entries, m), m.name);
        members := [m] + rest;
        MoreMembers(f, s, p, entries, last, m, rest, closing,
                    ReadMembers(f, s, NextMember(m, p), h, MemberAdded(entries, m), m.name));
      }
    }
  }

  lemma FindClosing(s: string, p: nat)
    requires p <= |s| && NextToken(s, p).kind == ObjectEnd
    ensures var t := NextToken(s, p); Blank(s[p..t.start]) && Part(s, s[p..t.start] + "}", p)
  {
    var t := NextToken(s, p);
    BlankOut(s, p);
    NextStart(s, p);
    PartConcat(s, s[p..t.start], "}", p);
  }

  /** The member stands at `p`. */
  predicate MemberAt(f: Features, s: string, p: nat, m: Member) {
    HeadRule(m) && Rule(f, m.phrase) && HeadAt(s, p, m) && ValueAndRest(s, ValueStart(m, p), m, "")
  }

  lemma {:induction false} FindMember(f: Features, s: string, p: nat, h: nat, entries: seq<Entry<string, Value>>,
                                      last: string)
    returns (m: Member)
    requires p <= |s| && ReadMembers(f, s, p, h, entries, last).Parsed?
    requires !(NextToken(s, p).kind == ObjectEnd && last == "")
    ensures MemberAt(f, s, p, m) && p < NextMember(m, p) <= |s|
    ensures ReadMembers(f, s, p, h, entries, last) ==
      if m.separator == "}" then Parsed(NextMember(m, p), Obj(MemberAdded(entries, m)))
      else ReadMembers(f, s, NextMember(m, p), h, MemberAdded(entries, m), m.name)
    decreases |s| - p, 3
  {
    var t := NextToken(s, p);
    FirstRoundInside(f, s, p, h, entries, last, |s|);
    NameOfMember(f, s, p, h, entries, last);
    var colon, name := ReadToken(s, t.end), TokenText(s, t).name;
    var ph, after, separator := FindMemberValue(f, s, colon.end, h, entries, name);
    m := Member(s[p..t.start], s[t.start..t.end], name, s[t.end..colon.start], ph, after, separator);
    FindHead(s, p, m);
    MemberMade(f, s, p, m);
    MembersLoop(f, s, p, h, entries, last,
      FieldRound(0, separator == "}", NextMember(m, p), MemberAdded(entries, m), name));
  }

  lemma MemberMade(f: Features, s: string, p: nat, m: Member)
    requires Blank(m.gap) && Names(m.quoted, m.name) && Spaces(m.colonGap) && HeadAt(s, p, m)
    requires ValueStands(f, s, ValueStart(m, p), m.phrase, m.after, m.separator)
    ensures MemberAt(f, s, p, m) &&
      NextMember(m, p) == ValueNext(ValueStart(m, p), m.phrase, m.after, m.separator) <= |s|
  {
  }

  lemma FindHead(s: string, p: nat, m: Member)
    requires p <= |s| && NextToken(s, p).kind == StringToken
    requires var t := NextToken(s, p);
      var colon := ReadToken(s, t.end);
      && TokenText(s, t) == Named(m.name) && colon.kind == MemberSeparator
      && m.gap == s[p..t.start] && m.quoted == s[t.start..t.end] && m.colonGap == s[t.end..colon.start]
    ensures Blank(m.gap) && Names(m.quoted, m.name) && Spaces(m.colonGap) && HeadAt(s, p, m)
    ensures ValueStart(m, p) == ReadToken(s, NextToken(s, p).end).end
  {
    var t := NextToken(s, p);
    BlankOut(s, p);
    NextStart(s, p);
    NameOut(s, t, m.quoted, m.name);
    TokenStart(s, t.end);
    SpacesOut(s, t.end);
  }

  lemma NameOut(s: string, t: Token, x: string, name: string)
    requires t.start < |s| && !Space(s[t.start]) && TokenAt(s, t.start) == t && t.kind == StringToken
    requires TokenText(s, t) == Named(name) && x == s[t.start..t.end]
    ensures Names(x, name)
  {
    TokenStart(s, t.start);
    LexemeOut(s, t.start);
    assert Moved(Token(StringToken, 0, |x|), t.start) == t;
    NameInPart(s, x, t.start, Token(StringToken, 0, |x|));
  }

  lemma {:induction false} FindMemberValue(f: Features, s: string, v: nat, h: nat, entries: seq<Entry<string, Value>>,
                                           name: string)
    returns (ph: Phrase, after: string, separator: string)
    requires v <= |s| && RoundInside(NamedMemberRound(f, s, v, h, entries, name), |s| + 1)
    requires var r := NamedMemberRound(f, s, v, h, entries, name); r.More? ==> r.pos < |s|
    ensures ValueStands(f, s, v, ph, after, separator)
    ensures NamedMemberRound(f, s, v, h, entries, name) ==
      FieldRound(0, separator == "}", ValueNext(v, ph, after, separator),
                 Insert(entries, Key(name), PhraseValue(ph)), name)
    decreases |s| - v, 4
  {
    var old_ := Find(entries, Key(name)).GetOr(Null);
    var x := ReadValue(f, s, v, h + 1, old_);
    ValueOfMember(f, s, v, h, entries, name);
    AfterValue(f, s, v, h, entries, name, x);
    ph := FindPhrase(f, s, v, h + 1, old_);
    after, separator := FindSeparator(f, s, v, ph, x);
  }

  /** The value of a member stands at `v` with what follows it. */
  predicate ValueStands(f: Features, s: string, v: nat, ph: Phrase, after: string, separator: string) {
    var q := v + |PhraseText(ph)|;
    && Rule(f, ph) && Blank(after) && (ph.Nothing? ==> after == "") && Separates(after, separator)
    && Part(s, PhraseText(ph), v) && Part(s, after, q) && Part(s, separator, q + |after|)
  }

  function ValueNext(v: nat, ph: Phrase, after: string, separator: string): nat {
    v + |PhraseText(ph)| + |after| + |separator|
  }

  lemma FindSeparator(f: Features, s: string, v: nat, ph: Phrase, x: Outcome) returns (after: string, separator: string)
    requires v <= |s| && Stands(f, s, v, ph, x) && ReadToken(s, x.pos).kind in {ObjectEnd, ArraySeparator, CommentToken}
    requires NextToken(s, x.pos).kind == ObjectEnd || NextToken(s, x.pos).end < |s|
    ensures ValueStands(f, s, v, ph, after, separator)
    ensures var t := NextToken(s, x.pos);
      ValueNext(v, ph, after, separator) == t.end && (separator == "}" <==> t.kind == ObjectEnd)
  {
    var t := NextToken(s, x.pos);
    after, separator := s[x.pos..t.start], s[t.start..t.end];
    SeparatorOut(s, x.pos);
    FindAfter(s, x.pos, ph);
    PartSlice(s, x.pos, t.start);
    PartSlice(s, t.start, t.end);
    ValueMade(f, s, v, ph, x.pos, after, t.start, separator);
  }

  lemma PartSlice(s: string, p: nat, q: nat)
    requires p <= q <= |s|
    ensures Part(s, s[p..q], p) && p + |s[p..q]| == q
  {
  }

  lemma ValueMade(f: Features, s: string, v: nat, ph: Phrase, q: nat, after: string, d: nat, separator: string)
    requires Rule(f, ph) && Part(s, PhraseText(ph), v) && q == v + |PhraseText(ph)| && d == q + |after|
    requires Part(s, after, q) && Part(s, separator, d)
    requires Blank(after) && (ph.Nothing? ==> after == "") && Separates(after, separator)
    ensures ValueStands(f, s, v, ph, after, separator) && ValueNext(v, ph, after, separator) == d + |separator|
  {
  }

  /** What stands behind a value in an object that is read. */
  lemma SeparatorOut(s: string, q: nat)
    requires q <= |s| && ReadToken(s, q).kind in {ObjectEnd, ArraySeparator, CommentToken}
    requires NextToken(s, q).kind == ObjectEnd || NextToken(s, q).end < |s|
    ensures var t := NextToken(s, q);
      && t.start < |s| && Separates(s[q..t.start], s[t.start..t.end]) &&
        (t.kind == ObjectEnd <==> s[t.start..t.end] == "}")
  {
    var t := NextToken(s, q);
    NextStart(s, q);
    BlankOut(s, q);
    TokenStart(s, t.start);
    var x := s[t.start..t.end];
    assert |x| > 0 ==> x[0] == s[t.start];
    if ReadToken(s, q).kind == CommentToken && t.kind != ObjectEnd {
      if t.kind in {EndOfStream, ErrorToken} {
        JunkOut(s, t.start);
      } else {
        LexemeOut(s, t.start);
      }
    }
  }

  lemma LastMember(f: Features, s: string, p: nat, entries: seq<Entry<string, Value>>, last: string, m: Member)
    requires MemberAt(f, s, p, m) && m.separator == "}"
    ensures MembersStand(f, s, p, entries, last, [m], "", Parsed(NextMember(m, p), Obj(MemberAdded(entries, m))))
  {
    MemberText1(s, p, m, [], "", "");
    assert AddMembers(entries, [m]) == AddMembers(MemberAdded(entries, m), []);
    assert FirstMemberRule(f, [m], "");
  }

  lemma MoreMembers(f: Features, s: string, p: nat, entries: seq<Entry<string, Value>>, last: string, m: Member,
                    rest: seq<Member>, closing: string, x: Outcome)
    requires MemberAt(f, s, p, m) && m.separator != "}"
    requires MembersStand(f, s, NextMember(m, p), MemberAdded(entries, m), m.name, rest, closing, x)
    ensures MembersStand(f, s, p, entries, last, [m] + rest, closing, x)
  {
    assert ([m] + rest)[1..] == rest;
    MemberText1(s, p, m, rest, closing, MembersText(rest, closing));
    assert FirstMemberRule(f, [m] + rest, closing);
  }

  /** A member and what follows it, joined. */
  lemma MemberText1(s: string, p: nat, m: Member, rest: seq<Member>, closing: string, text: string)
    requires HeadAt(s, p, m) && ValueAndRest(s, ValueStart(m, p), m, text)
    requires text == if m.separator == "}" then "" else MembersText(rest, closing)
    ensures Part(s, MembersText([m] + rest, closing), p)
    ensures p + |MembersText([m] + rest, closing)| == NextMember(m, p) + |text|
  {
    var value := ValueText(m, text);
    ValueJoined(s, ValueStart(m, p), m, text);
    HeadJoined(s, p, m, value);
    assert ([m] + rest)[1..] == rest;
    assert MembersText([m] + rest, closing) == m.gap + (m.quoted + (m.colonGap + (":" + value)));
  }

  lemma ValueJoined(s: string, v: nat, m: Member, text: string)
    requires ValueAndRest(s, v, m, text)
    ensures Part(s, ValueText(m, text), v)
  {
    var q := v + |PhraseText(m.phrase)|;
    PartConcat(s, m.separator, text, q + |m.after|);
    PartConcat(s, m.after, m.separator + text, q);
    PartConcat(s, PhraseText(m.phrase), m.after + (m.separator + text), v);
  }

  lemma HeadJoined(s: string, p: nat, m: Member, value: string)
    requires HeadAt(s, p, m) && Part(s, value, ValueStart(m, p))
    ensures Part(s, m.gap + (m.quoted + (m.colonGap + (":" + value))), p)
  {
    var n := p + |m.gap|;
    var e := n + |m.quoted|;
    PartConcat(s, ":", value, e + |m.colonGap|);
    PartConcat(s, m.colonGap, ":" + value, e);
    PartConcat(s, m.quoted, m.colonGap + (":" + value), n);
    PartConcat(s, m.gap, m.quoted + (m.colonGap + (":" + value)), p);
  }

  // ----- the accepted texts -----

  /** The document starts with the phrase, which stands for `v` and nests less than the stack limit of 1000. */
  predicate Describes(f: Features, document: string, ph: Phrase, v: Value) {
    && Rule(f, ph) && Part(document, PhraseText(ph), 0) && Ends(document, |PhraseText(ph)|, ph)
    && PhraseValue(ph) == v && PhraseHeight(ph) < 1000
  }

  /** The reader accepts a document as a value exactly if a phrase for this value stands at its start,
      and a strict reader only if that is a container. What follows the phrase does not matter. */
  lemma AcceptedExactly(f: Features, document: string, root: Value, v: Value)
    ensures Parse(f, document, root) == Finished(true, v, []) <==>
      (f.strictRoot ==> Container(v)) && exists ph :: Describes(f, document, ph, v)
  {
    var x := ReadValue(f, document, 0, 1, root);
    if x.Parsed? {
      var ph := FindDescription(f, document, root);
    }
    forall ph | Describes(f, document, ph, v)
      ensures x.Parsed? && x.value == v
    {
      DescribedRead(f, document, root, ph, v);
    }
    SuccessMeans(f, document, root, v);
  }

  lemma SuccessMeans(f: Features, document: string, root: Value, v: Value)
    ensures var x := ReadValue(f, document, 0, 1, root);
      Parse(f, document, root) == Finished(true, v, []) <==>
        x.Parsed? && x.value == v && (f.strictRoot ==> Container(v))
  {
  }

  lemma DescribedRead(f: Features, document: string, root: Value, ph: Phrase, v: Value)
    requires Describes(f, document, ph, v)
    ensures ReadValue(f, document, 0, 1, root) == Parsed(|PhraseText(ph)|, v)
  {
    ParsePhrase(f, document, 0, 1, root, ph, ReadValue(f, document, 0, 1, root));
  }

  lemma FindDescription(f: Features, document: string, root: Value) returns (ph: Phrase)
    requires ReadValue(f, document, 0, 1, root).Parsed?
    ensures Describes(f, document, ph, ReadValue(f, document, 0, 1, root).value)
  {
    ph := FindPhrase(f, document, 0, 1, root);
    ParsePhrase(f, document, 0, 1, root, ph, ReadValue(f, document, 0, 1, root));
  }

  /** Two phrases that end at their places in one text are equally long and stand for one value. */
  lemma Unambiguous(f: Features, s: string, p: nat, ph: Phrase, ph': Phrase)
    requires Rule(f, ph) && Part(s, PhraseText(ph), p) && Ends(s, p + |PhraseText(ph)|, ph)
    requires Rule(f, ph') && Part(s, PhraseText(ph'), p) && Ends(s, p + |PhraseText(ph')|, ph')
    requires PhraseHeight(ph) <= STACK_LIMIT && PhraseHeight(ph') <= STACK_LIMIT
    ensures |PhraseText(ph)| == |PhraseText(ph')| && PhraseValue(ph) == PhraseValue(ph')
  {
    var x := ReadValue(f, s, p, 0, Null);
    ParsePhrase(f, s, p, 0, Null, ph, x);
    ParsePhrase(f, s, p, 0, Null, ph', x);
  }

  // ----- two texts that are accepted, comments allowed or not -----

  lemma EmptyName()
    ensures Names("\"\"", "") && Blank("")
  {
    var x := "\"\"";
    assert StringEnd(x, 1) == (true, 2);
    assert TokenAt(x, 0) == Token(StringToken, 0, 2);
    TokenStart(x, 0);
    SpacesBlank("");
  }

  lemma WordAtom(f: Features, v: Value)
    requires v.Null? || v.Bool?
    ensures AtomIs(f, ScalarText(v), v)
  {
    AtSlice(ScalarText(v), 0, ScalarText(v));
    WordToken(ScalarText(v), 0, "", v);
  }

  lemma RecordAccepted(f: Features, members: seq<Member>, document: string, root: Value,
                       entries: seq<Entry<string, Value>>)
    requires MembersRule(f, members, "", "") && document == "{" + MembersText(members, "")
    requires entries == AddMembers([], members) && MembersHeight(members) < STACK_LIMIT
    ensures Parse(f, document, root) == Finished(true, Obj(entries), [])
  {
    var ph := Record("", members, "");
    SpacesBlank("");
    assert Skipped(f, "");
    assert PhraseText(ph) == "" + document;
    assert "" + document == document;
    assert Describes(f, document, ph, Obj(entries));
    AcceptedExactly(f, document, root, Obj(entries));
  }

  /** A member with the empty name and a word as its value. */
  function Unnamed(v: Value, after: string, separator: string): Member {
    Member("", "\"\"", "", "", Atom("", ScalarText(v), v), after, separator)
  }

  /** Such a member in front of others. */
  lemma UnnamedRule(f: Features, v: Value, after: string, separator: string, rest: seq<Member>)
    requires (v.Null? || v.Bool?) && Blank(after) && Separates(after, separator)
    requires if separator == "}" then rest == [] else MembersRule(f, rest, "", "")
    ensures MembersRule(f, [Unnamed(v, after, separator)] + rest, "", "")
  {
    var m := Unnamed(v, after, separator);
    EmptyName();
    WordAtom(f, v);
    assert ([m] + rest)[1..] == rest;
    assert Skipped(f, "") && Rule(f, m.phrase);
    assert HeadRule(m);
    assert FirstMemberRule(f, [m] + rest, "");
  }

  lemma UnnamedText(v: Value, after: string, separator: string, rest: seq<Member>)
    ensures MembersText([Unnamed(v, after, separator)] + rest, "") ==
      "\"\":" + (ScalarText(v) + (after + (separator + (if separator == "}" then "" else MembersText(rest, "")))))
  {
    var m := Unnamed(v, after, separator);
    var members := [m] + rest;
    assert members[1..] == rest;
    assert MembersText(members, "") == MemberText(members, "");
    UnnamedMember(m, v, members);
  }

  lemma UnnamedMember(m: Member, v: Value, members: seq<Member>)
    requires m == Unnamed(v, m.after, m.separator) && members != [] && members[0] == m
    ensures MemberText(members, "") ==
      "\"\":" + (ScalarText(v) +
        (m.after + (m.separator + (if m.separator == "}" then "" else MembersText(members[1..], "")))))
  {
    var text := if m.separator == "}" then "" else MembersText(members[1..], "");
    var x := ScalarText(v) + (m.after + (m.separator + text));
    assert "" + ScalarText(v) == ScalarText(v);
    assert MemberText(members, "") == "" + ("\"\"" + ("" + (":" + x)));
    Joined(x);
  }

  lemma Joined(x: string)
    ensures "" + ("\"\"" + ("" + (":" + x))) == "\"\":" + x
  {
    assert "\"\":" == "\"\"" + ":";
  }

  lemma UnnamedAdded(v: Value, after: string, separator: string, rest: seq<Member>, entries: seq<Entry<string, Value>>)
    ensures var members := [Unnamed(v, after, separator)] + rest;
      && AddMembers(entries, members) == AddMembers(Insert(entries, "", v), rest)
      && MembersHeight(members) == Max(1, MembersHeight(rest))
  {
    assert ([Unnamed(v, after, separator)] + rest)[1..] == rest;
    assert Key("") == "";
  }

  /** Behind a member with the empty name an object may end in a comma. */
  lemma LastCommaExample(f: Features, root: Value)
    ensures Parse(f, "{\"\":null,}", root) == Finished(true, Obj([Entry("", Null)]), [])
  {
    var members := [Unnamed(Null, "", ",")] + [];
    SpacesBlank("");
    UnnamedRule(f, Null, "", ",", []);
    UnnamedText(Null, "", ",", []);
    UnnamedAdded(Null, "", ",", [], []);
    assert MembersText(members, "") == "\"\":null,}";
    RecordAccepted(f, members, "{\"\":null,}", root, [Entry("", Null)]);
  }

  /** Behind a comment a bracket passes for the comma. */
  lemma BracketForCommaExample(f: Features, root: Value)
    ensures Parse(f, "{\"\":null/**/]}", root) == Finished(true, Obj([Entry("", Null)]), [])
  {
    var members := [Unnamed(Null, "/**/", "]")] + [];
    SpacesBlank("");
    CommentGap();
    UnnamedRule(f, Null, "/**/", "]", []);
    BracketForCommaText(members);
    RecordAccepted(f, members, "{\"\":null/**/]}", root, [Entry("", Null)]);
  }

  lemma BracketForCommaText(members: seq<Member>)
    requires members == [Unnamed(Null, "/**/", "]")] + []
    ensures "{" + MembersText(members, "") == "{\"\":null/**/]}"
    ensures AddMembers([], members) == [Entry("", Null)] && MembersHeight(members) == 1
  {
    UnnamedText(Null, "/**/", "]", []);
    UnnamedAdded(Null, "/**/", "]", [], []);
    assert MembersText(members, "") == "\"\":" + ("null" + ("/**/" + ("]" + "}")));
  }

  /** A comment is a gap, and a bracket separates members behind it. */
  lemma CommentGap()
    ensures Blank("/**/") && Separates("/**/", "]")
  {
    var w := "/**/" + ",";
    assert w[0] == '/' && w[1] == '*' && w[2] == '*' && w[3] == '/' && w[4] == ',';
    assert CStyleStop(w, 2) == 3;
    assert TokenAt(w, 0) == Token(CommentToken, 0, 4);
    TokenStart(w, 0);
    TokenStart(w, 4);
    assert NextToken(w, 0) == NextToken(w, 4);
    assert "/**/"[0] == '/';
    TokenStart("]", 0);
    assert Lexeme(ArrayEnd, "]");
  }
}

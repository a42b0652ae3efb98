/** A grammar of the texts that the reader accepts; every phrase of it is read as its value. */
module JsonPhrases {
  import opened OrderedMap
  import opened JsonValue
  import opened JsonTokens
  import opened JsonGrammar
  import opened JsonLayout
  import opened JsonSlices
  import opened JsonLexemes

  /** A text that is accepted as a value: a lexeme, a null that is left out, a list or a record, each
      behind a gap. */
  datatype Phrase =
    | Atom(gap: string, lexeme: string, value: Value)
    | Nothing(gap: string)
    | List(gap: string, inner: string, items: seq<Item>)
    | Record(gap: string, members: seq<Member>, closing: string)

  datatype Item = Item(phrase: Phrase, after: string)

  /** A member goes on to the separator behind it, or to the brace that closes its object. */
  datatype Member = Member(gap: string, quoted: string, name: string, colonGap: string,
                           phrase: Phrase, after: string, separator: string)

  function PhraseText(ph: Phrase): string {
    match ph
    case Atom(g, x, _) => g + x
    case Nothing(g) => g
    case List(g, inner, items) => g + ("[" + (inner + ItemsText(items)))
    case Record(g, members, closing) => g + ("{" + MembersText(members, closing))
  }

  function ItemsText(items: seq<Item>): string
    decreases items
  {
    if items == [] then "]"
    else
      assert items[0].phrase < items[0];
      PhraseText(items[0].phrase) + (items[0].after + ((if |items| == 1 then "" else ",") + ItemsText(items[1..])))
  }

  function MembersText(members: seq<Member>, closing: string): string
    decreases members, 1
  {
    if members == [] then closing + "}" else MemberText(members, closing)
  }

  function MemberText(members: seq<Member>, closing: string): string
    requires members != []
    decreases members, 0
  {
    assert members[0].phrase < members[0];
    var m := members[0];
    m.gap + (m.quoted + (m.colonGap + (":" + (PhraseText(m.phrase) + (m.after + (m.separator +
      if m.separator == "}" then "" else MembersText(members[1..], closing)))))))
  }

  /** In front of a value comments count as a gap only if the features allow them. */
  predicate Skipped(f: Features, w: string) {
    if f.allowComments then Blank(w) else Spaces(w)
  }

  /** The lexemes of a value: one token that stands for it. */
  predicate AtomIs(f: Features, x: string, v: Value) {
    Lexeme(ReadToken(x, 0).kind, x) && StandsFor(f, x, ReadToken(x, 0), v)
  }

  predicate StandsFor(f: Features, x: string, t: Token, v: Value)
    requires t.start <= t.end <= |x| && (t.kind == StringToken ==> t.start + 2 <= t.end)
  {
    match t.kind
    case NullToken => v == Null
    case TrueToken => v == Bool(true)
    case FalseToken => v == Bool(false)
    case NumberToken => NumberOutcome(f, x, t, Null) == Parsed(t.end, v)
    case StringToken => StringOutcome(x, t, Null) == Parsed(t.end, v)
    case _ => false
  }

  predicate Names(x: string, name: string) {
    |x| >= 2 && Lexeme(StringToken, x) && TokenText(x, Token(StringToken, 0, |x|)) == Named(name)
  }

  /** Behind a comment every token, in order or not, passes for the comma between two members. */
  predicate Separates(after: string, separator: string) {
    || separator == "," || separator == "}"
    || (!Spaces(after) && (Junk(separator) || exists kind :: kind != ObjectEnd && Lexeme(kind, separator)))
  }

  /** The rules of the grammar. */
  predicate Rule(f: Features, ph: Phrase)
    decreases ph
  {
    match ph
    case Atom(g, x, v) => Skipped(f, g) && AtomIs(f, x, v)
    case Nothing(g) => Skipped(f, g) && f.allowDroppedNullPlaceholders
    case List(g, inner, items) =>
      && Skipped(f, g) && Spaces(inner) && ItemsRule(f, items)
      && !(|items| == 1 && items[0].phrase.Nothing? && Spaces(items[0].phrase.gap))
    case Record(g, members, closing) => Skipped(f, g) && MembersRule(f, members, "", closing)
  }

  predicate ItemsRule(f: Features, items: seq<Item>)
    decreases items
  {
    items == [] || (
      assert items[0].phrase < items[0];
      && Rule(f, items[0].phrase) && Blank(items[0].after) && (items[0].phrase.Nothing? ==> items[0].after == "")
      && ItemsRule(f, items[1..]))
  }

  /** An object closes behind a value without a separator, or where a name is expected: at its start
      and behind a member with the empty name. */
  predicate MembersRule(f: Features, members: seq<Member>, last: string, closing: string)
    decreases members, 1
  {
    if members == [] then last == "" && Blank(closing) else FirstMemberRule(f, members, closing)
  }

  predicate FirstMemberRule(f: Features, members: seq<Member>, closing: string)
    requires members != []
    decreases members, 0
  {
    assert members[0].phrase < members[0];
    var m := members[0];
    && HeadRule(m) && Rule(f, m.phrase)
    && if m.separator == "}" then |members| == 1 && closing == "" else MembersRule(f, members[1..], m.name, closing)
  }

  predicate HeadRule(m: Member) {
    && Blank(m.gap) && Names(m.quoted, m.name) && Spaces(m.colonGap)
    && Blank(m.after) && (m.phrase.Nothing? ==> m.after == "") && Separates(m.after, m.separator)
  }

  function PhraseValue(ph: Phrase): Value {
    match ph
    case Atom(_, _, v) => v
    case Nothing(_) => Null
    case List(_, _, items) => Arr(AddItems([], items))
    case Record(_, members, _) => Obj(AddMembers([], members))
  }

  function AddItems(entries: seq<Entry<nat, Value>>, items: seq<Item>): seq<Entry<nat, Value>>
    decreases items
  {
    if items == [] then entries
    else
      assert items[0].phrase < items[0];
      AddItems(entries + [Entry(|entries|, PhraseValue(items[0].phrase))], items[1..])
  }

  function AddMembers(entries: seq<Entry<string, Value>>, members: seq<Member>): seq<Entry<string, Value>>
    decreases members
  {
    if members == [] then entries
    else
      assert members[0].phrase < members[0];
      AddMembers(Insert(entries, Key(members[0].name), PhraseValue(members[0].phrase)), members[1..])
  }

  /** How many nested calls of `readValue` the phrase needs. */
  function PhraseHeight(ph: Phrase): nat {
    match ph
    case List(_, _, items) => ItemsHeight(items)
    case Record(_, members, _) => MembersHeight(members)
    case _ => 0
  }

  function ItemsHeight(items: seq<Item>): nat
    decreases items
  {
    if items == [] then 0
    else
      assert items[0].phrase < items[0];
      Max(1 + PhraseHeight(items[0].phrase), ItemsHeight(items[1..]))
  }

  function MembersHeight(members: seq<Member>): nat
    decreases members
  {
    if members == [] then 0
    else
      assert members[0].phrase < members[0];
      Max(1 + PhraseHeight(members[0].phrase), MembersHeight(members[1..]))
  }

  /** A number does not go on behind its lexeme, and a null is left out in front of a separator. */
  predicate Ends(s: string, q: nat, ph: Phrase) {
    match ph
    case Atom(_, x, _) => Lexeme(NumberToken, x) ==> |x| <= q <= |s| && NumberEnd(s, q - |x| + 1) == q
    case Nothing(_) => q < |s| && Separator(s[q])
    case _ => true
  }

  // ----- a phrase is read as its value -----

  /** The outcome of reading a phrase at `p`. */
  function PhraseOutcome(ph: Phrase, p: nat, height: nat): Outcome {
    Bounded(height + PhraseHeight(ph), Parsed(p + |PhraseText(ph)|, PhraseValue(ph)))
  }

  function ItemsOutcome(entries: seq<Entry<nat, Value>>, items: seq<Item>, p: nat, height: nat): Outcome {
    Bounded(height + ItemsHeight(items), Parsed(p + |ItemsText(items)|, Arr(AddItems(entries, items))))
  }

  function MembersOutcome(entries: seq<Entry<string, Value>>, members: seq<Member>, closing: string, p: nat,
                          height: nat): Outcome {
    Bounded(height + MembersHeight(members),
      Parsed(p + |MembersText(members, closing)|, Obj(AddMembers(entries, members))))
  }

  /** Behind a gap the reader finds the token. */
  lemma SkippedIn(f: Features, s: string, p: nat, w: string)
    requires Skipped(f, w) && Part(s, w, p) && p + |w| < |s| && !Space(s[p + |w|])
    requires TokenAt(s, p + |w|).kind != CommentToken
    ensures SkipComments(f, s, p) == TokenAt(s, p + |w|)
  {
    TokenStart(s, p + |w|);
    if f.allowComments {
      BlankIn(s, p, w);
    } else {
      PartAt(s, p, w);
      TokenAfterSpaces(s, p, w);
    }
  }

  /** Behind its spaces a gap has a slash or is over. */
  lemma SkippedStart(f: Features, s: string, p: nat, w: string)
    requires Skipped(f, w) && Part(s, w, p) && p + |w| < |s| && !Space(s[p + |w|])
    ensures var q := SkipSpaces(s, p); q < |s| && (s[q] == '/' || (s[q] == s[p + |w|] && Spaces(w)))
  {
    if Spaces(w) {
      PartAt(s, p, w);
      SpacesSkipped(s, p, w);
    } else {
      BlankIn(s, p, w);
      TokenStart(s, p);
    }
  }

  lemma ValueToken(f: Features, s: string, p: nat, height: nat, old_: Value, w: string, t: Token)
    requires Skipped(f, w) && Part(s, w, p) && p + |w| < |s| && !Space(s[p + |w|]) && height <= STACK_LIMIT
    requires t == TokenAt(s, p + |w|) && t.kind != CommentToken
    ensures t == SkipComments(f, s, p) && ReadValue(f, s, p, height, old_) == ValueAt(f, s, p, t, height, old_)
  {
    SkippedIn(f, s, p, w);
  }

  lemma NameIn(s: string, p: nat, x: string)
    requires Part(s, x, p) && |x| >= 2 && TokenText(x, Token(StringToken, 0, |x|)).Named?
    ensures TokenText(s, Token(StringToken, p, p + |x|)) == TokenText(x, Token(StringToken, 0, |x|))
  {
    CharsInPart(s, x, p, 1, |x| - 1);
  }

  lemma StringAtomIn(s: string, p: nat, x: string, v: Value, old_: Value)
    requires Part(s, x, p) && |x| >= 2 && StringOutcome(x, Token(StringToken, 0, |x|), Null) == Parsed(|x|, v)
    ensures StringOutcome(s, Token(StringToken, p, p + |x|), old_) == Parsed(p + |x|, v)
  {
    NameIn(s, p, x);
  }

  lemma NumberAtomIn(f: Features, s: string, p: nat, x: string, v: Value, old_: Value)
    requires Part(s, x, p) && NumberOutcome(f, x, Token(NumberToken, 0, |x|), Null) == Parsed(|x|, v)
    ensures NumberOutcome(f, s, Token(NumberToken, p, p + |x|), old_) == Parsed(p + |x|, v)
  {
    SameSlice(s, x, p, 0, |x|);
    assert x[0..|x|] == x;
  }

  /** The first token decides what a value is that is no container. */
  lemma TokenDecides(f: Features, s: string, p: nat, height: nat, old_: Value, t: Token)
    requires p <= |s| && height <= STACK_LIMIT && t == SkipComments(f, s, p)
    ensures t.kind == NumberToken ==> ReadValue(f, s, p, height, old_) == NumberOutcome(f, s, t, old_)
    ensures t.kind == StringToken ==> ReadValue(f, s, p, height, old_) == StringOutcome(s, t, old_)
    ensures t.kind == TrueToken ==> ReadValue(f, s, p, height, old_) == Parsed(t.end, Bool(true))
    ensures t.kind == FalseToken ==> ReadValue(f, s, p, height, old_) == Parsed(t.end, Bool(false))
    ensures t.kind == NullToken ==> ReadValue(f, s, p, height, old_) == Parsed(t.end, Null)
  {
  }

  /** A lexeme stands for its value wherever it stands. */
  lemma AtomIn(f: Features, s: string, p: nat, height: nat, old_: Value, kind: Kind, q: nat, x: string, v: Value)
    requires p <= |s| && height <= STACK_LIMIT && Part(s, x, q) && (kind == StringToken ==> |x| >= 2)
    requires StandsFor(f, x, Token(kind, 0, |x|), v) && SkipComments(f, s, p) == Token(kind, q, q + |x|)
    ensures ReadValue(f, s, p, height, old_) == Parsed(q + |x|, v)
  {
    TokenDecides(f, s, p, height, old_, Token(kind, q, q + |x|));
    match kind {
      case NumberToken => NumberAtomIn(f, s, q, x, v, old_);
      case StringToken => StringAtomIn(s, q, x, v, old_);
      case _ =>
    }
  }

  lemma ParseAtom(f: Features, s: string, p: nat, height: nat, old_: Value, g: string, x: string, v: Value)
    requires Skipped(f, g) && AtomIs(f, x, v) && Part(s, g, p) && Part(s, x, p + |g|) && height <= STACK_LIMIT
    requires Lexeme(NumberToken, x) ==> NumberEnd(s, p + |g| + 1) == p + |g| + |x|
    ensures p <= |s| && ReadValue(f, s, p, height, old_) == Parsed(p + |g| + |x|, v)
  {
    var kind := ReadToken(x, 0).kind;
    LexemeIn(s, p + |g|, kind, x);
    SkippedIn(f, s, p, g);
    AtomIn(f, s, p, height, old_, kind, p + |g|, x, v);
  }

  lemma ParseNothing(f: Features, s: string, p: nat, height: nat, old_: Value, g: string)
    requires Skipped(f, g) && Part(s, g, p) && p + |g| < |s| && Separator(s[p + |g|])
    requires f.allowDroppedNullPlaceholders && height <= STACK_LIMIT
    ensures ReadValue(f, s, p, height, old_) == Parsed(p + |g|, Null)
  {
    ValueToken(f, s, p, height, old_, g, TokenAt(s, p + |g|));
  }

  /** Every phrase is read as its value, unless it nests too deep: then the reader throws. */
  lemma {:induction false} ParsePhrase(f: Features, s: string, p: nat, height: nat, old_: Value, ph: Phrase, r: Outcome)
    requires Rule(f, ph) && Part(s, PhraseText(ph), p) && Ends(s, p + |PhraseText(ph)|, ph)
    requires p <= |s| && r == ReadValue(f, s, p, height, old_)
    ensures r == PhraseOutcome(ph, p, height)
    decreases ph, 2
  {
    if height <= STACK_LIMIT {
      match ph {
        case Atom(g, x, v) =>
          PartConcat(s, g, x, p);
          ParseAtom(f, s, p, height, old_, g, x, v);
        case Nothing(g) => ParseNothing(f, s, p, height, old_, g);
        case List(_, _, _) => ParseList(f, s, p, height, old_, ph, r);
        case Record(_, _, _) => ParseRecord(f, s, p, height, old_, ph, r);
      }
    }
  }

  lemma {:induction false} ParseList(f: Features, s: string, p: nat, height: nat, old_: Value, ph: Phrase, r: Outcome)
    requires ph.List? && Rule(f, ph) && Part(s, PhraseText(ph), p) && height <= STACK_LIMIT
    requires p <= |s| && r == ReadValue(f, s, p, height, old_)
    ensures r == PhraseOutcome(ph, p, height)
    decreases ph, 1
  {
    BracketIn(s, p, ph.gap, "[", ph.inner + ItemsText(ph.items));
    BracketToken(f, s, p, height, old_, ph.gap);
    ParseBracketed(f, s, p + |ph.gap| + 1, height, ph.inner, ph.items);
    assert PhraseText(ph) == ph.gap + ("[" + (ph.inner + ItemsText(ph.items)));
  }

  lemma BracketIn(s: string, p: nat, g: string, bracket: string, rest: string)
    requires |bracket| == 1 && Part(s, g + (bracket + rest), p)
    ensures Part(s, g, p) && CharAt(s, p + |g|, bracket[0]) && Part(s, rest, p + |g| + 1)
  {
    PartConcat(s, g, bracket + rest, p);
    PartConcat(s, bracket, rest, p + |g|);
    assert s[p + |g|] == bracket[0];
  }

  /** A container starts with its bracket. */
  lemma BracketToken(f: Features, s: string, p: nat, height: nat, old_: Value, g: string)
    requires Skipped(f, g) && Part(s, g, p) && p + |g| < |s| && s[p + |g|] in {'[', '{'} && height <= STACK_LIMIT
    ensures ReadValue(f, s, p, height, old_) ==
      if s[p + |g|] == '[' then ArrayOutcome(f, s, p + |g| + 1, height)
      else ReadMembers(f, s, p + |g| + 1, height, [], "")
  {
    ValueToken(f, s, p, height, old_, g, TokenAt(s, p + |g|));
  }

  /** What stands between the brackets of a list. */
  lemma {:induction false} ParseBracketed(f: Features, s: string, p: nat, height: nat, inner: string, items: seq<Item>)
    requires Spaces(inner) && ItemsRule(f, items) && Part(s, inner + ItemsText(items), p)
    requires !(|items| == 1 && items[0].phrase.Nothing? && Spaces(items[0].phrase.gap))
    requires p <= |s| && height <= STACK_LIMIT
    ensures ArrayOutcome(f, s, p, height) == ItemsOutcome([], items, p + |inner|, height)
    decreases items, 3
  {
    var q := p + |inner|;
    PartConcat(s, inner, ItemsText(items), p);
    PartAt(s, p, inner);
    SpacesSkipped(s, p, inner);
    if items == [] {
      assert ItemsText(items) == "]" && s[q] == "]"[0];
    } else {
      ItemsStart(f, s, q, items);
      FromSpaces(f, s, p, height);
      FromSpaces(f, s, q, height);
      ParseItems(f, s, q, height, [], items, ReadElements(f, s, q, height, []));
    }
  }

  /** The text of the items in its parts. */
  lemma ItemParts(s: string, p: nat, items: seq<Item>)
    requires items != [] && Part(s, ItemsText(items), p)
    ensures Part(s, PhraseText(items[0].phrase), p) && Part(s, items[0].after, p + |PhraseText(items[0].phrase)|)
    ensures CharAt(s, NextItem(items, p) - 1, if |items| == 1 then ']' else ',')
    ensures |items| == 1 ==> p + |ItemsText(items)| == NextItem(items, p)
    ensures |items| > 1 ==>
      Part(s, ItemsText(items[1..]), NextItem(items, p)) &&
      p + |ItemsText(items)| == NextItem(items, p) + |ItemsText(items[1..])|
  {
    if |items| == 1 {
      LastItemParts(s, p, items);
    } else {
      MoreItemParts(s, p, items);
    }
  }

  lemma LastItemParts(s: string, p: nat, items: seq<Item>)
    requires |items| == 1 && Part(s, ItemsText(items), p)
    ensures Part(s, PhraseText(items[0].phrase), p) && Part(s, items[0].after, p + |PhraseText(items[0].phrase)|)
    ensures CharAt(s, NextItem(items, p) - 1, ']') && p + |ItemsText(items)| == NextItem(items, p)
  {
    FirstItemText(items);
    SeparatedParts(s, p, PhraseText(items[0].phrase), items[0].after, "]", "");
  }

  lemma MoreItemParts(s: string, p: nat, items: seq<Item>)
    requires |items| > 1 && Part(s, ItemsText(items), p)
    ensures Part(s, PhraseText(items[0].phrase), p) && Part(s, items[0].after, p + |PhraseText(items[0].phrase)|)
    ensures CharAt(s, NextItem(items, p) - 1, ',') && Part(s, ItemsText(items[1..]), NextItem(items, p))
    ensures p + |ItemsText(items)| == NextItem(items, p) + |ItemsText(items[1..])|
  {
    FirstItemText(items);
    SeparatedParts(s, p, PhraseText(items[0].phrase), items[0].after, ",", ItemsText(items[1..]));
  }

  lemma FirstItemText(items: seq<Item>)
    requires items != []
    ensures ItemsText(items) == PhraseText(items[0].phrase) + (items[0].after +
      (if |items| == 1 then "]" + "" else "," + ItemsText(items[1..])))
  {
    if |items| == 1 {
      assert "" + "]" == "]" + "";
      assert items[1..] == [];
    }
  }

  lemma SeparatedParts(s: string, p: nat, t: string, a: string, c: string, rest: string)
    requires |c| == 1 && Part(s, t + (a + (c + rest)), p)
    ensures Part(s, t, p) && Part(s, a, p + |t|) && CharAt(s, p + |t| + |a|, c[0]) && Part(s, rest, p + |t| + |a| + 1)
  {
    PartConcat(s, t, a + (c + rest), p);
    PartConcat(s, a, c + rest, p + |t|);
    PartConcat(s, c, rest, p + |t| + |a|);
    assert s[p + |t| + |a|] == c[0];
  }

  /** Items do not begin with a closing bracket. */
  lemma ItemsStart(f: Features, s: string, p: nat, items: seq<Item>)
    requires items != [] && ItemsRule(f, items) && Part(s, ItemsText(items), p)
    requires !(|items| == 1 && items[0].phrase.Nothing? && Spaces(items[0].phrase.gap))
    ensures SkipSpaces(s, p) < |s| && s[SkipSpaces(s, p)] != ']'
  {
    ItemParts(s, p, items);
    PhraseStart(f, s, p, items[0].phrase);
  }

  lemma PhraseStart(f: Features, s: string, p: nat, ph: Phrase)
    requires Rule(f, ph) && Part(s, PhraseText(ph), p)
    requires ph.Nothing? ==>
      p + |ph.gap| < |s| && !Space(s[p + |ph.gap|]) && (s[p + |ph.gap|] == ']' ==> !Spaces(ph.gap))
    ensures SkipSpaces(s, p) < |s| && s[SkipSpaces(s, p)] != ']'
  {
    var q := p + |ph.gap|;
    match ph {
      case Atom(g, x, v) =>
        PartConcat(s, g, x, p);
        TokenStart(x, 0);
        assert x[0] == s[q];
      case Nothing(g) =>
      case List(g, inner, items) =>
        PartConcat(s, g, "[" + (inner + ItemsText(items)), p);
        assert s[q] == ("[" + (inner + ItemsText(items)))[0];
      case Record(g, members, closing) =>
        PartConcat(s, g, "{" + MembersText(members, closing), p);
        assert s[q] == ("{" + MembersText(members, closing))[0];
    }
    SkippedStart(f, s, p, ph.gap);
  }

  lemma {:induction false} ParseItems(f: Features, s: string, p: nat, height: nat,
                                      entries: seq<Entry<nat, Value>>, items: seq<Item>, r: Outcome)
    requires items != [] && ItemsRule(f, items) && Part(s, ItemsText(items), p) && height <= STACK_LIMIT
    requires p <= |s| && r == ReadElements(f, s, p, height, entries)
    ensures r == ItemsOutcome(entries, items, p, height)
    decreases items, 2
  {
    ParseItem(f, s, p, height, entries, items);
    ElementsLoop(f, s, p, height, entries, ElementRound(f, s, p, height, entries));
    ItemParts(s, p, items);
    if |items| > 1 && height + 1 + PhraseHeight(items[0].phrase) <= STACK_LIMIT {
      ParseItems(f, s, NextItem(items, p), height, ItemAdded(entries, items), items[1..], r);
    }
    ItemsOutcomeStep(entries, items, p, height);
  }

  lemma ItemsOutcomeStep(entries: seq<Entry<nat, Value>>, items: seq<Item>, p: nat, height: nat)
    requires items != []
    requires p + |ItemsText(items)| == NextItem(items, p) + if |items| == 1 then 0 else |ItemsText(items[1..])|
    ensures ItemsOutcome(entries, items, p, height) ==
      if height + 1 + PhraseHeight(items[0].phrase) > STACK_LIMIT then Thrown(StackLimitExceeded)
      else if |items| == 1 then Parsed(NextItem(items, p), Arr(ItemAdded(entries, items)))
      else ItemsOutcome(ItemAdded(entries, items), items[1..], NextItem(items, p), height)
  {
    ItemsHeightStep(items);
    assert AddItems(entries, items) == AddItems(ItemAdded(entries, items), items[1..]);
    if |items| == 1 {
      assert items[1..] == [];
    }
  }

  lemma ItemsHeightStep(items: seq<Item>)
    requires items != []
    ensures ItemsHeight(items) == Max(1 + PhraseHeight(items[0].phrase), ItemsHeight(items[1..]))
  {
  }

  function NextItem(items: seq<Item>, p: nat): nat
    requires items != []
  {
    p + |PhraseText(items[0].phrase)| + |items[0].after| + 1
  }

  function ItemAdded(entries: seq<Entry<nat, Value>>, items: seq<Item>): seq<Entry<nat, Value>>
    requires items != []
  {
    entries + [Entry(|entries|, PhraseValue(items[0].phrase))]
  }

  /** The round of the first item. */
  lemma {:induction false} ParseItem(f: Features, s: string, p: nat, height: nat,
                                     entries: seq<Entry<nat, Value>>, items: seq<Item>)
    requires items != [] && ItemsRule(f, items) && Part(s, ItemsText(items), p) && height <= STACK_LIMIT && p <= |s|
    ensures ElementRound(f, s, p, height, entries) ==
      ItemRound(height + 1 + PhraseHeight(items[0].phrase), |items| == 1, NextItem(items, p), ItemAdded(entries, items))
    decreases items, 1
  {
    var q, next := ParseItemValue(f, s, p, height, items);
    ItemStep(f, s, p, height, entries, height + 1 + PhraseHeight(items[0].phrase), q, PhraseValue(items[0].phrase),
             next);
  }

  /** The first item ends at `q`, with the token `next` behind it. */
  lemma {:induction false} ParseItemValue(f: Features, s: string, p: nat, height: nat, items: seq<Item>)
    returns (q: nat, next: Token)
    requires items != [] && ItemsRule(f, items) && Part(s, ItemsText(items), p) && p <= |s|
    ensures var ph := items[0].phrase;
      ReadValue(f, s, p, height + 1, Null) == Bounded(height + 1 + PhraseHeight(ph), Parsed(q, PhraseValue(ph)))
    ensures q <= |s| && next == NextToken(s, q)
    ensures next.end == NextItem(items, p) && next.kind == if |items| == 1 then ArrayEnd else ArraySeparator
    decreases items, 0
  {
    assert items[0].phrase < items[0];
    q := p + |PhraseText(items[0].phrase)|;
    ItemParts(s, p, items);
    ParseChildPhrase(f, s, p, height, Null, items[0].phrase, items[0].after);
    next := CommaOrBracket(s, q, items[0].after);
  }

  function ItemRound(levels: nat, last: bool, next: nat, entries: seq<Entry<nat, Value>>): Round<nat> {
    if levels > STACK_LIMIT then Done(Thrown(StackLimitExceeded))
    else if last then Done(Parsed(next, Arr(entries)))
    else More(next, entries, "")
  }

  lemma CommaOrBracket(s: string, q: nat, a: string) returns (next: Token)
    requires Blank(a) && Part(s, a, q) && q + |a| < |s| && s[q + |a|] in {',', ']'}
    ensures next == NextToken(s, q) && next.end == q + |a| + 1
    ensures next.kind == if s[q + |a|] == ',' then ArraySeparator else ArrayEnd
  {
    BlankIn(s, q, a);
    TokenStart(s, q + |a|);
    next := NextToken(s, q);
  }

  lemma ItemStep(f: Features, s: string, p: nat, height: nat, entries: seq<Entry<nat, Value>>,
                 levels: nat, q: nat, v: Value, next: Token)
    requires p <= |s| && q <= |s| && ReadValue(f, s, p, height + 1, Null) == Bounded(levels, Parsed(q, v))
    requires next == NextToken(s, q) && next.kind in {ArraySeparator, ArrayEnd}
    ensures ElementRound(f, s, p, height, entries) ==
      ItemRound(levels, next.kind == ArrayEnd, next.end, entries + [Entry(|entries|, v)])
  {
  }

  /** A phrase one level deeper, with a gap and a separator behind it, or a gap with a comment. */
  lemma {:induction false} ParseChildPhrase(f: Features, s: string, p: nat, height: nat, old_: Value, ph: Phrase,
                                            a: string)
    requires Rule(f, ph) && Part(s, PhraseText(ph), p) && Blank(a) && (ph.Nothing? ==> a == "")
    requires var q := p + |PhraseText(ph)|; Part(s, a, q) && q + |a| < |s| && (a == "" ==> Separator(s[q + |a|]))
    ensures ReadValue(f, s, p, height + 1, old_) == PhraseOutcome(ph, p, height + 1)
    decreases ph, 3
  {
    ChildEnds(f, s, p, ph, a);
    ParsePhrase(f, s, p, height + 1, old_, ph, ReadValue(f, s, p, height + 1, old_));
  }

  /** In front of a gap and a separator, or a gap with a comment, a phrase ends. */
  lemma ChildEnds(f: Features, s: string, p: nat, ph: Phrase, a: string)
    requires Rule(f, ph) && Part(s, PhraseText(ph), p) && Blank(a) && (ph.Nothing? ==> a == "")
    requires var q := p + |PhraseText(ph)|; Part(s, a, q) && q + |a| < |s| && (a == "" ==> Separator(s[q + |a|]))
    ensures Ends(s, p + |PhraseText(ph)|, ph)
  {
    var q := p + |PhraseText(ph)|;
    if a != "" {
      BlankStart(a);
      assert s[q] == a[0];
    }
    if ph.Atom? && Lexeme(NumberToken, ph.lexeme) {
      PartConcat(s, ph.gap, ph.lexeme, p);
      NumberEnds(s, p + |ph.gap|, ph.lexeme);
    }
  }

  lemma NumberEnds(s: string, p: nat, x: string)
    requires Lexeme(NumberToken, x) && Part(s, x, p) && p + |x| < |s| && Stop(s[p + |x|])
    ensures NumberEnd(s, p + 1) == p + |x|
  {
    TokenStart(x, 0);
    StopEndsNumber(s, x, p);
  }

  lemma {:induction false} ParseRecord(f: Features, s: string, p: nat, height: nat, old_: Value, ph: Phrase, r: Outcome)
    requires ph.Record? && Rule(f, ph) && Part(s, PhraseText(ph), p) && height <= STACK_LIMIT
    requires p <= |s| && r == ReadValue(f, s, p, height, old_)
    ensures r == PhraseOutcome(ph, p, height)
    decreases ph, 1
  {
    BracketIn(s, p, ph.gap, "{", MembersText(ph.members, ph.closing));
    BracketToken(f, s, p, height, old_, ph.gap);
    ParseMembers(f, s, p + |ph.gap| + 1, height, [], "", ph.members, ph.closing, r);
    RecordOutcome(ph, p, height);
  }

  lemma RecordOutcome(ph: Phrase, p: nat, height: nat)
    requires ph.Record?
    ensures PhraseOutcome(ph, p, height) == MembersOutcome([], ph.members, ph.closing, p + |ph.gap| + 1, height)
  {
    assert PhraseText(ph) == ph.gap + ("{" + MembersText(ph.members, ph.closing));
  }

  /** The text of a member from its value to its separator, with what follows. */
  function ValueText(m: Member, rest: string): string {
    PhraseText(m.phrase) + (m.after + (m.separator + rest))
  }

  function RestText(members: seq<Member>, closing: string): string
    requires members != []
  {
    if members[0].separator == "}" then "" else MembersText(members[1..], closing)
  }

  /** The position of the value of a member at `p`. */
  function ValueStart(m: Member, p: nat): nat {
    p + |m.gap| + |m.quoted| + |m.colonGap| + 1
  }

  /** The position behind the separator of a member with its value at `v`. */
  function BehindValue(m: Member, v: nat): nat {
    v + |PhraseText(m.phrase)| + |m.after| + |m.separator|
  }

  function NextMember(m: Member, p: nat): nat {
    BehindValue(m, ValueStart(m, p))
  }

  /** The text of the members in its parts. */
  lemma MemberParts(s: string, p: nat, members: seq<Member>, closing: string)
    requires members != [] && Part(s, MembersText(members, closing), p)
    ensures HeadAt(s, p, members[0])
    ensures ValueAndRest(s, ValueStart(members[0], p), members[0], RestText(members, closing))
    ensures p + |MembersText(members, closing)| == NextMember(members[0], p) + |RestText(members, closing)|
  {
    var m, rest := members[0], RestText(members, closing);
    assert MembersText(members, closing) == MemberText(members, closing);
    assert MemberText(members, closing) == m.gap + (m.quoted + (m.colonGap + (":" + ValueText(m, rest))));
    HeadParts(s, p, m, ValueText(m, rest));
    ValueParts(s, ValueStart(m, p), m, rest);
  }

  lemma HeadParts(s: string, p: nat, m: Member, value: string)
    requires Part(s, m.gap + (m.quoted + (m.colonGap + (":" + value))), p)
    ensures HeadAt(s, p, m) && Part(s, value, ValueStart(m, p))
  {
    var n := p + |m.gap|;
    var e := n + |m.quoted|;
    var c := e + |m.colonGap|;
    PartConcat(s, m.gap, m.quoted + (m.colonGap + (":" + value)), p);
    PartConcat(s, m.quoted, m.colonGap + (":" + value), n);
    PartConcat(s, m.colonGap, ":" + value, e);
    PartConcat(s, ":", value, c);
    assert s[c] == ":"[0];
  }

  predicate HeadAt(s: string, p: nat, m: Member) {
    var n := p + |m.gap|;
    var e := n + |m.quoted|;
    && Part(s, m.gap, p) && Part(s, m.quoted, n) && Part(s, m.colonGap, e)
    && CharAt(s, e + |m.colonGap|, ':') && ValueStart(m, p) <= |s|
  }

  predicate ValueAndRest(s: string, v: nat, m: Member, rest: string) {
    var q := v + |PhraseText(m.phrase)|;
    var d := q + |m.after|;
    && Part(s, PhraseText(m.phrase), v) && Part(s, m.after, q) && Part(s, m.separator, d)
    && Part(s, rest, d + |m.separator|)
  }

  lemma ValueParts(s: string, v: nat, m: Member, rest: string)
    requires Part(s, ValueText(m, rest), v)
    ensures ValueAndRest(s, v, m, rest)
  {
    var t := PhraseText(m.phrase);
    PartConcat(s, t, m.after + (m.separator + rest), v);
    PartConcat(s, m.after, m.separator + rest, v + |t|);
    PartConcat(s, m.separator, rest, v + |t| + |m.after|);
  }

  /** Where members are read, white space, a slash, a quote or a brace comes first. */
  lemma MembersStart(f: Features, s: string, p: nat, members: seq<Member>, last: string, closing: string)
    requires MembersRule(f, members, last, closing) && Part(s, MembersText(members, closing), p)
    ensures p < |s| && Stop(s[p])
  {
    if members == [] {
      PartConcat(s, closing, "}", p);
      assert s[p + |closing|] == "}"[0];
      BlankBefore(s, p, closing);
    } else {
      MemberParts(s, p, members, closing);
      TokenStart(members[0].quoted, 0);
      assert members[0].quoted[0] == s[p + |members[0].gap|];
      BlankBefore(s, p, members[0].gap);
    }
  }

  lemma BlankBefore(s: string, p: nat, gap: string)
    requires Blank(gap) && Part(s, gap, p) && p + |gap| < |s| && Stop(s[p + |gap|])
    ensures Stop(s[p])
  {
    if gap != "" {
      BlankStart(gap);
      assert gap[0] == s[p];
    }
  }

  lemma CloseIn(f: Features, s: string, p: nat, height: nat, entries: seq<Entry<string, Value>>, closing: string)
    requires Blank(closing) && Part(s, closing + "}", p) && p <= |s|
    ensures ReadMembers(f, s, p, height, entries, "") == Parsed(p + |closing| + 1, Obj(entries))
  {
    var q := p + |closing|;
    PartConcat(s, closing, "}", p);
    assert s[q] == "}"[0];
    BlankIn(s, p, closing);
    TokenStart(s, q);
  }

  /** The name of a member and its colon. */
  lemma HeadIn(f: Features, s: string, p: nat, height: nat, entries: seq<Entry<string, Value>>, last: string, m: Member)
    requires HeadRule(m) && HeadAt(s, p, m) && p <= |s|
    ensures MemberRound(f, s, p, height, entries, last) ==
      NamedMemberRound(f, s, ValueStart(m, p), height, entries, m.name)
  {
    var n := p + |m.gap|;
    var e := n + |m.quoted|;
    HeadToken(s, p, m);
    PartAt(s, e, m.colonGap);
    ColonToken(s, e, m.colonGap);
    NameThenColon(f, s, p, height, entries, last, Token(StringToken, n, e), m.name, ValueStart(m, p));
  }

  lemma HeadToken(s: string, p: nat, m: Member)
    requires HeadRule(m) && HeadAt(s, p, m) && p <= |s|
    ensures var t := Token(StringToken, p + |m.gap|, p + |m.gap| + |m.quoted|);
      NextToken(s, p) == t && t.start + 2 <= t.end <= |s| && TokenText(s, t) == Named(m.name)
  {
    LexemeIn(s, p + |m.gap|, StringToken, m.quoted);
    BlankIn(s, p, m.gap);
    NameIn(s, p + |m.gap|, m.quoted);
  }

  /** What separates two members or closes their object, behind the value at `q`. */
  lemma SeparatorIn(s: string, q: nat, after: string, x: string)
    requires Blank(after) && Separates(after, x) && Part(s, after, q) && Part(s, x, q + |after|)
    requires x != "}" ==> var next := q + |after| + |x|; next < |s| && Stop(s[next])
    ensures q <= |s| && ReadToken(s, q).kind in {ObjectEnd, ArraySeparator, CommentToken}
    ensures NextToken(s, q).end == q + |after| + |x| && (NextToken(s, q).kind == ObjectEnd <==> x == "}")
  {
    var d := q + |after|;
    SeparatorTokenIn(s, d, after, x);
    BlankIn(s, q, after);
    TokenStart(s, d);
    if Spaces(after) {
      PartAt(s, q, after);
      TokenAfterSpaces(s, q, after);
    }
  }

  lemma SeparatorTokenIn(s: string, d: nat, after: string, x: string)
    requires Separates(after, x) && Part(s, x, d)
    requires x != "}" ==> d + |x| < |s| && Stop(s[d + |x|])
    ensures d < |s| && !Space(s[d]) && TokenAt(s, d).kind != CommentToken && TokenAt(s, d).end == d + |x|
    ensures TokenAt(s, d).kind == ObjectEnd <==> x == "}"
    ensures Spaces(after) ==> TokenAt(s, d).kind in {ObjectEnd, ArraySeparator}
  {
    if x in {",", "}"} {
      assert s[d] == x[0];
    } else if Junk(x) {
      JunkIn(s, d, x);
    } else {
      var kind :| kind != ObjectEnd && Lexeme(kind, x);
      TokenStart(x, 0);
      if kind == NumberToken {
        StopEndsNumber(s, x, d);
      }
      LexemeIn(s, d, kind, x);
    }
  }

  lemma {:induction false} ParseMembers(f: Features, s: string, p: nat, height: nat, entries: seq<Entry<string, Value>>,
                                        last: string, members: seq<Member>, closing: string, r: Outcome)
    requires MembersRule(f, members, last, closing) && Part(s, MembersText(members, closing), p) &&
      height <= STACK_LIMIT
    requires p <= |s| && r == ReadMembers(f, s, p, height, entries, last)
    ensures r == MembersOutcome(entries, members, closing, p, height)
    decreases members, 3
  {
    if members == [] {
      CloseIn(f, s, p, height, entries, closing);
    } else {
      MemberParts(s, p, members, closing);
      ParseFirstMember(f, s, p, height, entries, last, members, closing, r);
      if members[0].separator != "}" && height + 1 + PhraseHeight(members[0].phrase) <= STACK_LIMIT {
        ParseOtherMembers(f, s, p, height, entries, members, closing, r);
      } else {
        MembersOutcomeStep(entries, members, closing, p, height);
      }
    }
  }

  /** Behind the first member and its separator. */
  lemma {:induction false} ParseOtherMembers(f: Features, s: string, p: nat, height: nat,
                                             entries: seq<Entry<string, Value>>,
                                             members: seq<Member>, closing: string, r: Outcome)
    requires members != [] && FirstMemberRule(f, members, closing) && Part(s, MembersText(members, closing), p)
    requires members[0].separator != "}" && height + 1 + PhraseHeight(members[0].phrase) <= STACK_LIMIT
    requires NextMember(members[0], p) <= |s|
    requires r == ReadMembers(f, s, NextMember(members[0], p), height, MemberAdded(entries, members[0]),
      members[0].name)
    ensures r == MembersOutcome(entries, members, closing, p, height)
    decreases members, 2
  {
    OtherMembersAt(f, s, p, members, closing);
    MembersOutcomeStep(entries, members, closing, p, height);
    ParseMembers(f, s, NextMember(members[0], p), height, MemberAdded(entries, members[0]), members[0].name,
                 members[1..], closing, r);
  }

  lemma OtherMembersAt(f: Features, s: string, p: nat, members: seq<Member>, closing: string)
    requires members != [] && FirstMemberRule(f, members, closing) && Part(s, MembersText(members, closing), p)
    requires members[0].separator != "}"
    ensures MembersRule(f, members[1..], members[0].name, closing)
    ensures Part(s, MembersText(members[1..], closing), NextMember(members[0], p))
    ensures p + |MembersText(members, closing)| == NextMember(members[0], p) + |RestText(members, closing)|
  {
    MemberParts(s, p, members, closing);
  }

  lemma MembersOutcomeStep(entries: seq<Entry<string, Value>>, members: seq<Member>, closing: string, p: nat,
                           height: nat)
    requires members != [] && (members[0].separator == "}" ==> |members| == 1)
    requires p + |MembersText(members, closing)| == NextMember(members[0], p) + |RestText(members, closing)|
    ensures MembersOutcome(entries, members, closing, p, height) ==
      if height + 1 + PhraseHeight(members[0].phrase) > STACK_LIMIT then Thrown(StackLimitExceeded)
      else if members[0].separator == "}" then Parsed(NextMember(members[0], p), Obj(MemberAdded(entries, members[0])))
      else MembersOutcome(MemberAdded(entries, members[0]), members[1..], closing, NextMember(members[0], p), height)
  {
    if members[0].separator == "}" {
      assert members[1..] == [];
      assert AddMembers(entries, members) == AddMembers(MemberAdded(entries, members[0]), []);
    }
  }

  /** The first member and what follows it. */
  lemma {:induction false} ParseFirstMember(f: Features, s: string, p: nat, height: nat,
                                            entries: seq<Entry<string, Value>>,
                                            last: string, members: seq<Member>, closing: string, r: Outcome)
    requires members != [] && FirstMemberRule(f, members, closing) && Part(s, MembersText(members, closing), p)
    requires height <= STACK_LIMIT && p <= |s| && r == ReadMembers(f, s, p, height, entries, last)
    ensures var m, next := members[0], NextMember(members[0], p);
      if height + 1 + PhraseHeight(m.phrase) > STACK_LIMIT then r == Thrown(StackLimitExceeded)
      else if m.separator == "}" then r == Parsed(next, Obj(MemberAdded(entries, m)))
      else next <= |s| && r == ReadMembers(f, s, next, height, MemberAdded(entries, m), m.name)
    decreases members, 2
  {
    var m := members[0];
    ParseMember(f, s, p, height, entries, last, members, closing);
    MembersLoop(f, s, p, height, entries, last,
                FieldRound(height + 1 + PhraseHeight(m.phrase), m.separator == "}", NextMember(m, p),
                           MemberAdded(entries, m), m.name));
  }

  function MemberAdded(entries: seq<Entry<string, Value>>, m: Member): seq<Entry<string, Value>> {
    Insert(entries, Key(m.name), PhraseValue(m.phrase))
  }

  /** The round of the first member. */
  lemma {:induction false} ParseMember(f: Features, s: string, p: nat, height: nat, entries: seq<Entry<string, Value>>,
                                       last: string, members: seq<Member>, closing: string)
    requires members != [] && FirstMemberRule(f, members, closing) && Part(s, MembersText(members, closing), p)
    requires height <= STACK_LIMIT && p <= |s|
    ensures MemberRound(f, s, p, height, entries, last) ==
      FieldRound(height + 1 + PhraseHeight(members[0].phrase), members[0].separator == "}", NextMember(members[0], p),
                 MemberAdded(entries, members[0]), members[0].name)
    decreases members, 1
  {
    ParseHead(f, s, p, height, entries, last, members, closing);
    ParseFirstValue(f, s, p, height, entries, members, closing);
  }

  lemma ParseHead(f: Features, s: string, p: nat, height: nat, entries: seq<Entry<string, Value>>,
                  last: string, members: seq<Member>, closing: string)
    requires members != [] && FirstMemberRule(f, members, closing) && Part(s, MembersText(members, closing), p) &&
      p <= |s|
    ensures ValueStart(members[0], p) <= |s|
    ensures MemberRound(f, s, p, height, entries, last) ==
      NamedMemberRound(f, s, ValueStart(members[0], p), height, entries, members[0].name)
  {
    MemberParts(s, p, members, closing);
    HeadIn(f, s, p, height, entries, last, members[0]);
  }

  lemma {:induction false} ParseFirstValue(f: Features, s: string, p: nat, height: nat,
                                           entries: seq<Entry<string, Value>>,
                                           members: seq<Member>, closing: string)
    requires members != [] && FirstMemberRule(f, members, closing) && Part(s, MembersText(members, closing), p)
    requires height <= STACK_LIMIT && ValueStart(members[0], p) <= |s|
    ensures NamedMemberRound(f, s, ValueStart(members[0], p), height, entries, members[0].name) ==
      FieldRound(height + 1 + PhraseHeight(members[0].phrase), members[0].separator == "}", NextMember(members[0], p),
                 MemberAdded(entries, members[0]), members[0].name)
    decreases members, 0
  {
    ValueReady(f, s, p, members, closing);
    ParseMemberValue(f, s, ValueStart(members[0], p), height, entries, members[0], RestText(members, closing));
  }

  lemma ValueReady(f: Features, s: string, p: nat, members: seq<Member>, closing: string)
    requires members != [] && FirstMemberRule(f, members, closing) && Part(s, MembersText(members, closing), p)
    ensures var m, v := members[0], ValueStart(members[0], p);
      && Rule(f, m.phrase) && HeadRule(m) && ValueAndRest(s, v, m, RestText(members, closing))
      && (m.separator != "}" ==> BehindValue(m, v) < |s| && Stop(s[BehindValue(m, v)]))
  {
    MemberParts(s, p, members, closing);
    BehindMember(f, s, p, members, closing);
  }

  /** Behind a separator another member or the closing brace begins. */
  lemma BehindMember(f: Features, s: string, p: nat, members: seq<Member>, closing: string)
    requires members != [] && FirstMemberRule(f, members, closing) && Part(s, MembersText(members, closing), p)
    ensures members[0].separator != "}" ==> NextMember(members[0], p) < |s| && Stop(s[NextMember(members[0], p)])
  {
    if members[0].separator != "}" {
      MemberParts(s, p, members, closing);
      MembersStart(f, s, NextMember(members[0], p), members[1..], members[0].name, closing);
    }
  }

  lemma {:induction false} ParseMemberValue(f: Features, s: string, v: nat, height: nat,
                                            entries: seq<Entry<string, Value>>, m: Member, rest: string)
    requires Rule(f, m.phrase) && HeadRule(m) && ValueAndRest(s, v, m, rest) && height <= STACK_LIMIT
    requires m.separator != "}" ==> BehindValue(m, v) < |s| && Stop(s[BehindValue(m, v)])
    ensures NamedMemberRound(f, s, v, height, entries, m.name) ==
      FieldRound(height + 1 + PhraseHeight(m.phrase), m.separator == "}", BehindValue(m, v),
                 MemberAdded(entries, m), m.name)
    decreases m, 3
  {
    var q := BehindPhrase(s, v, m, rest);
    ParseMemberPhrase(f, s, v, height, Find(entries, Key(m.name)).GetOr(Null), m, rest);
    GapMemberStep(f, s, v, height, entries, m.name, height + 1 + PhraseHeight(m.phrase), q, PhraseValue(m.phrase));
  }

  /** The separator behind the value of a member. */
  lemma BehindPhrase(s: string, v: nat, m: Member, rest: string) returns (q: nat)
    requires HeadRule(m) && ValueAndRest(s, v, m, rest)
    requires m.separator != "}" ==> BehindValue(m, v) < |s| && Stop(s[BehindValue(m, v)])
    ensures q == v + |PhraseText(m.phrase)| <= |s|
    ensures ReadToken(s, q).kind in {ObjectEnd, ArraySeparator, CommentToken}
    ensures NextToken(s, q).end == BehindValue(m, v) && (NextToken(s, q).kind == ObjectEnd <==> m.separator == "}")
  {
    q := v + |PhraseText(m.phrase)|;
    SeparatorIn(s, q, m.after, m.separator);
  }

  lemma {:induction false} ParseMemberPhrase(f: Features, s: string, v: nat, height: nat, old_: Value, m: Member,
                                             rest: string)
    requires Rule(f, m.phrase) && HeadRule(m) && ValueAndRest(s, v, m, rest)
    ensures v <= |s|
    ensures ReadValue(f, s, v, height + 1, old_) ==
      Bounded(height + 1 + PhraseHeight(m.phrase), Parsed(v + |PhraseText(m.phrase)|, PhraseValue(m.phrase)))
    decreases m, 2
  {
    SeparatorStarts(m, s, v + |PhraseText(m.phrase)|);
    ParseChildPhrase(f, s, v, height, old_, m.phrase, m.after);
  }

  lemma GapMemberStep(f: Features, s: string, v: nat, height: nat, entries: seq<Entry<string, Value>>, name: string,
                      levels: nat, q: nat, value: Value)
    requires v <= |s| && q <= |s|
    requires ReadValue(f, s, v, height + 1, Find(entries, Key(name)).GetOr(Null)) == Bounded(levels, Parsed(q, value))
    requires ReadToken(s, q).kind in {ObjectEnd, ArraySeparator, CommentToken}
    ensures NamedMemberRound(f, s, v, height, entries, name) ==
      FieldRound(levels, NextToken(s, q).kind == ObjectEnd, NextToken(s, q).end,
                 Insert(entries, Key(name), value), name)
  {
  }

  lemma SeparatorStarts(m: Member, s: string, q: nat)
    requires HeadRule(m) && Part(s, m.separator, q + |m.after|)
    ensures q + |m.after| < |s| && (m.after == "" ==> Separator(s[q + |m.after|]))
  {
    if m.after == "" {
      assert m.separator in {",", "}"};
    } else if !Junk(m.separator) && m.separator !in {",", "}"} {
      var kind :| kind != ObjectEnd && Lexeme(kind, m.separator);
    }
    assert m.separator[0] == s[q + |m.after|];
  }
}

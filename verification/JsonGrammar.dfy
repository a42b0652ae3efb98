/** The tokens of the JSON reader, as functions of the text and a position. */
module JsonTokens {
  import opened Text
  import opened JsonNumbers
  import opened JsonStrings

  datatype Kind =
    | EndOfStream
    | ObjectBegin
    | ObjectEnd
    | ArrayBegin
    | ArrayEnd
    | StringToken
    | NumberToken
    | TrueToken
    | FalseToken
    | NullToken
    | ArraySeparator
    | MemberSeparator
    | CommentToken
    | ErrorToken

  datatype Token = Token(kind: Kind, start: nat, end: nat)

  predicate Space(c: char) {
    c == ' ' || c == '\t' || c == '\r' || c == '\n'
  }

  function SkipSpaces(s: string, p: nat): (q: nat)
    requires p <= |s|
    ensures p <= q <= |s| && (q < |s| ==> !Space(s[q]))
    decreases |s| - p
  {
    if p < |s| && Space(s[p]) then SkipSpaces(s, p + 1) else p
  }

  function SkipDigits(s: string, p: nat): (q: nat)
    requires p <= |s|
    ensures p <= q <= |s| && (q < |s| ==> !IsDigit(s[q]))
    decreases |s| - p
  {
    if p < |s| && IsDigit(s[p]) then SkipDigits(s, p + 1) else p
  }

  /** `readNumber`: digits, a fraction, an exponent, each possibly empty. */
  function NumberEnd(s: string, p: nat): (q: nat)
    requires p <= |s|
    ensures p <= q <= |s|
  {
    ExponentEnd(s, FractionEnd(s, SkipDigits(s, p)))
  }

  function FractionEnd(s: string, p: nat): (q: nat)
    requires p <= |s|
    ensures p <= q <= |s|
  {
    if p < |s| && s[p] == '.' then SkipDigits(s, p + 1) else p
  }

  function ExponentEnd(s: string, p: nat): (q: nat)
    requires p <= |s|
    ensures p <= q <= |s|
  {
    if p < |s| && (s[p] == 'e' || s[p] == 'E') then
      SkipDigits(s, if p + 1 < |s| && (s[p + 1] == '+' || s[p + 1] == '-') then p + 2 else p + 1)
    else p
  }

  /** Where the loop of `readCStyleComment` stops: on the slash that closes, or at the last byte. */
  function CStyleStop(s: string, p: nat): (q: nat)
    requires p <= |s|
    ensures p <= q <= |s|
    decreases |s| - p
  {
    if p + 1 >= |s| then p
    else if s[p] == '*' && s[p + 1] == '/' then p + 1
    else CStyleStop(s, p + 1)
  }

  function CppStyleEnd(s: string, p: nat): (q: nat)
    requires p <= |s|
    ensures p <= q <= |s|
    decreases |s| - p
  {
    if p == |s| then p
    else if s[p] == '\n' then p + 1
    else if s[p] == '\r' then (if p + 1 < |s| && s[p + 1] == '\n' then p + 2 else p + 1)
    else CppStyleEnd(s, p + 1)
  }

  /** `readComment`, behind the first slash. */
  function CommentEnd(s: string, p: nat): (r: (bool, nat))
    requires p <= |s|
    ensures p <= r.1 <= |s|
  {
    if p == |s| then (false, p)
    else if s[p] == '*' then
      var q := CStyleStop(s, p + 1);
      if q < |s| then (s[q] == '/', q + 1) else (false, q)
    else if s[p] == '/' then (true, CppStyleEnd(s, p + 1))
    else (false, p + 1)
  }

  /** `match`: the rest of a keyword, or no progress. */
  function WordEnd(s: string, p: nat, rest: string): (r: (bool, nat))
    requires p <= |s|
    ensures p <= r.1 <= |s|
  {
    if At(s, p, rest) then (true, p + |rest|) else (false, p)
  }

  function Checked(kind: Kind, start: nat, r: (bool, nat)): (t: Token)
    ensures t.start == start && t.end == r.1
    ensures t.kind == kind || t.kind == ErrorToken
  {
    Token(if r.0 then kind else ErrorToken, start, r.1)
  }

  /** `readToken`, skipping white space first. It makes progress except at the end of the text. */
  function ReadToken(s: string, p: nat): (t: Token)
    requires p <= |s|
    ensures p <= t.start <= t.end <= |s|
    ensures t.kind != EndOfStream ==> t.start < t.end
    ensures t.kind == StringToken ==> t.start + 2 <= t.end
    ensures t.kind in {ArraySeparator, ObjectEnd, ArrayEnd} ==> t.end == t.start + 1
    decreases |s| - p, 1
  {
    if p == |s| then Token(EndOfStream, p, p) else TokenAt(s, p)
  }

  /** The switch of `readToken` over the character at `q`. */
  function TokenAt(s: string, q: nat): (t: Token)
    requires q < |s|
    ensures q <= t.start <= t.end <= |s|
    ensures t.kind != EndOfStream ==> t.start < t.end
    ensures t.kind == StringToken ==> t.start + 2 <= t.end
    ensures t.kind in {ArraySeparator, ObjectEnd, ArrayEnd} ==> t.end == t.start + 1
    decreases |s| - q, 0
  {
    match s[q]
    case ' ' | '\t' | '\r' | '\n' => ReadToken(s, q + 1)
    case '{' => Token(ObjectBegin, q, q + 1)
    case '}' => Token(ObjectEnd, q, q + 1)
    case '[' => Token(ArrayBegin, q, q + 1)
    case ']' => Token(ArrayEnd, q, q + 1)
    case ',' => Token(ArraySeparator, q, q + 1)
    case ':' => Token(MemberSeparator, q, q + 1)
    case '\0' => Token(EndOfStream, q, q + 1)
    case '\"' => Checked(StringToken, q, StringEnd(s, q + 1))
    case '/' => Checked(CommentToken, q, CommentEnd(s, q + 1))
    case 't' => Checked(TrueToken, q, WordEnd(s, q + 1, "rue"))
    case 'f' => Checked(FalseToken, q, WordEnd(s, q + 1, "alse"))
    case 'n' => Checked(NullToken, q, WordEnd(s, q + 1, "ull"))
    case c =>
      if IsDigit(c) || c == '-' then Token(NumberToken, q, NumberEnd(s, q + 1))
      else Token(ErrorToken, q, q + 1)
  }

  /** White space in front of a token does not matter. */
  lemma {:induction false} SpacesBeforeToken(s: string, p: nat)
    requires p <= |s|
    ensures ReadToken(s, p) == ReadToken(s, SkipSpaces(s, p))
    decreases |s| - p
  {
    if p < |s| && Space(s[p]) {
      assert ReadToken(s, p) == TokenAt(s, p) == ReadToken(s, p + 1);
      SpacesBeforeToken(s, p + 1);
    }
  }

  /** The next token that is no comment. */
  function NextToken(s: string, p: nat): (t: Token)
    requires p <= |s|
    ensures p <= t.start <= t.end <= |s| && t.kind != CommentToken
    ensures t.kind != EndOfStream ==> t.start < t.end
    ensures t.kind == StringToken ==> t.start + 2 <= t.end
    ensures t.kind in {ArraySeparator, ObjectEnd, ArrayEnd} ==> t.end == t.start + 1
    decreases |s| - p
  {
    var t := ReadToken(s, p);
    if t.kind == CommentToken then NextToken(s, t.end) else t
  }
}

/** What the reader makes of a text: the specification the `Reader` class is proved against. */
module JsonGrammar {
  import opened OrderedMap
  import opened JsonValue
  import opened JsonNumbers
  import opened JsonStrings
  import opened JsonTokens

  /** `Features`, and the stream extraction of a double, which is foreign code. */
  datatype Features = Features(
    allowComments: bool,
    strictRoot: bool,
    allowDroppedNullPlaceholders: bool,
    allowNumericKeys: bool,
    toDouble: string -> Option<int>)

  const STACK_LIMIT: nat := 1000

  datatype Message =
    | ValueExpected
    | NotANumber
    | InString(message: StringMessage)
    | MissingColon
    | MissingCommaOrBrace
    | MissingNameOrBrace
    | MissingCommaOrBracket
    | RootNotAContainer

  datatype ErrorInfo = ErrorInfo(token: Token, message: Message, extra: Option<nat>)

  /** What leaves the reader as a C++ exception. */
  datatype Exception = StackLimitExceeded | StringTooLong | NumberIsNoName

  /** How reading a value ends. A failure leaves what was read so far and one error. */
  datatype Outcome =
    | Parsed(pos: nat, value: Value)
    | Failed(pos: nat, value: Value, error: ErrorInfo)
    | Thrown(exception: Exception)

  datatype NameResult = Named(name: string) | BadName(error: ErrorInfo) | NameThrows(exception: Exception)

  function SkipComments(f: Features, s: string, p: nat): (t: Token)
    requires p <= |s|
    ensures p <= t.start <= t.end <= |s|
    ensures t.kind != EndOfStream ==> t.start < t.end
    ensures t.kind == StringToken ==> t.start + 2 <= t.end
    ensures t.kind in {ArraySeparator, ObjectEnd, ArrayEnd} ==> t.end == t.start + 1
  {
    if f.allowComments then NextToken(s, p) else ReadToken(s, p)
  }

  /** `recoverFromError`: the position behind the next `until` or the end of the stream. */
  function Recover(s: string, p: nat, until: Kind): (q: nat)
    requires p <= |s|
    ensures p <= q <= |s|
    decreases |s| - p
  {
    var t := ReadToken(s, p);
    if t.kind == until || t.kind == EndOfStream then t.end else Recover(s, t.end, until)
  }

  /** `Value(const std::string&)`: the length is cut to 32 bits and must leave room for the prefix. */
  function StringValue(t: string): Option<Value> {
    var length := |t| % 0x1_0000_0000;
    if length <= MAX_STRING then Some(Str(t[..length])) else None
  }

  /** `CZString`: the length of a key is cut to 30 bits. */
  function Key(name: string): (k: string)
    ensures |name| < KEY_LIMIT ==> k == name
  {
    name[..|name| % KEY_LIMIT]
  }

  function NumberOutcome(f: Features, s: string, t: Token, old_: Value): Outcome
    requires t.start <= t.end <= |s|
  {
    match DecodeNumber(s[t.start..t.end])
    case Integer(v) => Parsed(t.end, v)
    case Floating =>
      match f.toDouble(s[t.start..t.end])
      case Some(bits) => Parsed(t.end, Real(bits))
      case None => Failed(t.end, old_, ErrorInfo(t, NotANumber, None))
  }

  /** `decodeString` of a string token. */
  function TokenText(s: string, t: Token): NameResult
    requires t.start + 2 <= t.end <= |s|
  {
    match DecodeChars(s, t.start + 1, t.end - 1)
    case Decoded(text) => Named(text)
    case Undecodable(m, x) => BadName(ErrorInfo(t, InString(m), Some(x)))
  }

  function StringOutcome(s: string, t: Token, old_: Value): Outcome
    requires t.start + 2 <= t.end <= |s|
  {
    match TokenText(s, t)
    case Named(text) => (match StringValue(text) case Some(v) => Parsed(t.end, v) case None => Thrown(StringTooLong))
    case BadName(error) => Failed(t.end, old_, error)
    case NameThrows(e) => Thrown(e)
  }

  /** The name of an object member. A decoded number has no C string: `asCString` throws. */
  function NameOf(f: Features, s: string, t: Token): NameResult
    requires t.start <= t.end <= |s|
    requires t.kind == StringToken ==> t.start + 2 <= t.end
  {
    if t.kind == StringToken then TokenText(s, t)
    else if t.kind == NumberToken && f.allowNumericKeys then
      match NumberOutcome(f, s, t, Null)
      case Failed(_, _, error) => BadName(error)
      case _ => NameThrows(NumberIsNoName)
    else BadName(ErrorInfo(t, MissingNameOrBrace, None))
  }

  /** `readValue` with `height` values on the node stack, the topmost one being `old_`. */
  function ReadValue(f: Features, s: string, p: nat, height: nat, old_: Value): (r: Outcome)
    requires p <= |s|
    ensures !r.Thrown? ==> p <= r.pos <= |s|
    decreases |s| - p, 1
  {
    if height > STACK_LIMIT then Thrown(StackLimitExceeded)
    else ValueAt(f, s, p, SkipComments(f, s, p), height, old_)
  }

  /** The switch of `readValue` over its first token. */
  function ValueAt(f: Features, s: string, p: nat, t: Token, height: nat, old_: Value): (r: Outcome)
    requires p <= |s| && t == SkipComments(f, s, p)
    ensures !r.Thrown? ==> p <= r.pos <= |s|
    decreases |s| - p, 0
  {
    match t.kind
    case ObjectBegin => ReadMembers(f, s, t.end, height, [], "")
    case ArrayBegin => ArrayOutcome(f, s, t.end, height)
    case NumberToken => NumberOutcome(f, s, t, old_)
    case StringToken => StringOutcome(s, t, old_)
    case TrueToken => Parsed(t.end, Bool(true))
    case FalseToken => Parsed(t.end, Bool(false))
    case NullToken => Parsed(t.end, Null)
    case ArraySeparator | ObjectEnd | ArrayEnd =>
      if f.allowDroppedNullPlaceholders then Parsed(t.end - 1, Null)
      else Failed(t.end, old_, ErrorInfo(t, ValueExpected, None))
    case _ => Failed(t.end, old_, ErrorInfo(t, ValueExpected, None))
  }

  /** One round of the loop over elements or members: the container is done, or the loop goes on. */
  datatype Round<K> =
    | Done(outcome: Outcome)
    | More(pos: nat, entries: seq<Entry<K, Value>>, name: string)

  /** `readArray`, behind the bracket. */
  function ArrayOutcome(f: Features, s: string, p: nat, height: nat): (r: Outcome)
    requires p <= |s|
    ensures !r.Thrown? ==> p <= r.pos <= |s|
    decreases |s| - p, 5
  {
    var q := SkipSpaces(s, p);
    if q < |s| && s[q] == ']' then Parsed(q + 1, Arr([])) else ReadElements(f, s, q, height, [])
  }

  /** The loop of `readArray`, in front of an element. */
  function ReadElements(f: Features, s: string, p: nat, height: nat, items: seq<Entry<nat, Value>>): (r: Outcome)
    requires p <= |s|
    ensures !r.Thrown? ==> p <= r.pos <= |s|
    decreases |s| - p, 4
  {
    match ElementRound(f, s, p, height, items)
    case Done(outcome) => outcome
    case More(q, items', _) => ReadElements(f, s, q, height, items')
  }

  function ElementRound(f: Features, s: string, p: nat, height: nat, items: seq<Entry<nat, Value>>): (r: Round<nat>)
    requires p <= |s|
    ensures r.More? ==> p < r.pos <= |s|
    ensures r.Done? && !r.outcome.Thrown? ==> p <= r.outcome.pos <= |s|
    decreases |s| - p, 2
  {
    match ReadValue(f, s, p, height + 1, Null)
    case Thrown(e) => Done(Thrown(e))
    case Failed(q, v, error) => Done(Failed(Recover(s, q, ArrayEnd), Arr(items + [Entry(|items|, v)]), error))
    case Parsed(q, v) =>
      var items' := items + [Entry(|items|, v)];
      var t := NextToken(s, q);
      if t.kind == ArrayEnd then Done(Parsed(t.end, Arr(items')))
      else if t.kind == ArraySeparator then More(t.end, items', "")
      else Done(Failed(Recover(s, t.end, ArrayEnd), Arr(items'), ErrorInfo(t, MissingCommaOrBracket, None)))
  }

  /** The loop of `readObject`, in front of a member; `last` is the name of the previous member. */
  function ReadMembers(f: Features, s: string, p: nat, height: nat,
                       members: seq<Entry<string, Value>>, last: string): (r: Outcome)
    requires p <= |s|
    ensures !r.Thrown? ==> p <= r.pos <= |s|
    decreases |s| - p, 4
  {
    match MemberRound(f, s, p, height, members, last)
    case Done(outcome) => outcome
    case More(q, members', name) => ReadMembers(f, s, q, height, members', name)
  }

  function MemberRound(f: Features, s: string, p: nat, height: nat,
                       members: seq<Entry<string, Value>>, last: string): (r: Round<string>)
    requires p <= |s|
    ensures r.More? ==> p < r.pos <= |s|
    ensures r.Done? && !r.outcome.Thrown? ==> p <= r.outcome.pos <= |s|
    decreases |s| - p, 3
  {
    var t := NextToken(s, p);
    if t.kind == ObjectEnd && last == "" then Done(Parsed(t.end, Obj(members)))
    else
      match NameOf(f, s, t)
      case NameThrows(e) => Done(Thrown(e))
      case BadName(error) => Done(Failed(Recover(s, t.end, ObjectEnd), Obj(members), error))
      case Named(name) =>
        var colon := ReadToken(s, t.end);
        if colon.kind != MemberSeparator
        then Done(Failed(Recover(s, colon.end, ObjectEnd), Obj(members), ErrorInfo(colon, MissingColon, None)))
        else NamedMemberRound(f, s, colon.end, height, members, name)
  }

  /** The rest of that round, behind the colon. */
  function NamedMemberRound(f: Features, s: string, p: nat, height: nat,
                            members: seq<Entry<string, Value>>, name: string): (r: Round<string>)
    requires p <= |s|
    ensures r.More? ==> p <= r.pos <= |s|
    ensures r.Done? && !r.outcome.Thrown? ==> p <= r.outcome.pos <= |s|
    decreases |s| - p, 2
  {
    match ReadValue(f, s, p, height + 1, Find(members, Key(name)).GetOr(Null))
    case Thrown(e) => Done(Thrown(e))
    case Failed(q, v, error) => Done(Failed(Recover(s, q, ObjectEnd), Obj(Insert(members, Key(name), v)), error))
    case Parsed(q, v) =>
      var members' := Insert(members, Key(name), v);
      var comma := ReadToken(s, q);
      if comma.kind != ObjectEnd && comma.kind != ArraySeparator && comma.kind != CommentToken
      then Done(Failed(Recover(s, comma.end, ObjectEnd), Obj(members'), ErrorInfo(comma, MissingCommaOrBrace, None)))
      else
        var next := NextToken(s, q);
        if next.kind == ObjectEnd then Done(Parsed(next.end, Obj(members')))
        else More(next.end, members', name)
  }

  /** How `parse` ends: with a verdict, the root and the recorded errors, or with an exception. */
  datatype ParseResult =
    | Finished(successful: bool, root: Value, errors: seq<ErrorInfo>)
    | Raised(exception: Exception)

  function Parse(f: Features, document: string, root: Value): ParseResult {
    match ReadValue(f, document, 0, 1, root)
    case Thrown(e) => Raised(e)
    case Failed(_, v, error) =>
      if f.strictRoot && !v.Arr? && !v.Obj? then Finished(false, v, [error, RootError(document)])
      else Finished(false, v, [error])
    case Parsed(_, v) =>
      if f.strictRoot && !v.Arr? && !v.Obj? then Finished(false, v, [RootError(document)])
      else Finished(true, v, [])
  }

  function RootError(document: string): ErrorInfo {
    ErrorInfo(Token(ErrorToken, 0, |document|), RootNotAContainer, None)
  }
}

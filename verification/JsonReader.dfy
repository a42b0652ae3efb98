/** The `Reader` class: a cursor, a stack of values under construction, and a list of errors. */
module JsonReader {
  import opened Text
  import opened OrderedMap
  import opened JsonValue
  import opened JsonNumbers
  import opened JsonStrings
  import opened JsonTokens
  import opened JsonGrammar

  /** How a method of the reader comes back: with its result, or with an exception. */
  datatype Flow = Returned(ok: bool) | Throws(exception: Exception)

  class Reader {
    const features: Features
    var document: string
    var current: nat
    // The C++ stack points into the tree; here each entry holds its value until it is popped.
    var nodes: seq<Value>
    var errors: seq<ErrorInfo>

    ghost predicate Valid()
      reads this
    {
      current <= |document|
    }

    constructor (features: Features)
      ensures Valid() && this.features == features && errors == []
    {
      this.features := features;
      document, current, nodes, errors := "", 0, [], [];
    }

    // ----- characters and tokens -----

    method GetNextChar() returns (c: char)
      requires Valid()
      modifies this`current
      ensures Valid()
      ensures if old(current) == |document| then c == '\0' && current == old(current)
              else c == document[old(current)] && current == old(current) + 1
    {
      if current == |document| {
        return '\0';
      }
      c := document[current];
      current := current + 1;
    }

    method SkipWhiteSpace()
      requires Valid()
      modifies this`current
      ensures Valid() && current == SkipSpaces(document, old(current))
    {
      while current != |document|
        invariant Valid()
        invariant SkipSpaces(document, current) == SkipSpaces(document, old(current))
        decreases |document| - current
      {
        var c := document[current];
        if c == ' ' || c == '\t' || c == '\r' || c == '\n' {
          current := current + 1;
        } else {
          break;
        }
      }
    }

    method Match(pattern: string) returns (ok: bool)
      requires Valid()
      modifies this`current
      ensures Valid() && (ok, current) == WordEnd(document, old(current), pattern)
    {
      AtSlice(document, current, pattern);
      if |document| - current < |pattern| {
        return false;
      }
      var index := |pattern|;
      while index != 0
        invariant 0 <= index <= |pattern|
        invariant forall i :: index <= i < |pattern| ==> document[current + i] == pattern[i]
      {
        index := index - 1;
        if document[current + index] != pattern[index] {
          assert document[current..current + |pattern|][index] != pattern[index];
          return false;
        }
      }
      assert document[current..current + |pattern|] == pattern;
      current := current + |pattern|;
      return true;
    }

    method ReadString() returns (ok: bool)
      requires Valid()
      modifies this`current
      ensures Valid() && (ok, current) == StringEnd(document, old(current))
    {
      var c := '\0';
      while current != |document|
        invariant Valid() && c != '\"'
        invariant StringEnd(document, current) == StringEnd(document, old(current))
        decreases |document| - current
      {
        c := GetNextChar();
        if c == '\\' {
          var _ := GetNextChar();
        } else if c == '\"' {
          break;
        }
      }
      return c == '\"';
    }

    method ReadCStyleComment() returns (ok: bool)
      requires Valid()
      modifies this`current
      ensures Valid()
      ensures var q := CStyleStop(document, old(current));
        (ok, current) == if q < |document| then (document[q] == '/', q + 1) else (false, q)
    {
      while current + 1 < |document|
        invariant Valid()
        invariant CStyleStop(document, current) == CStyleStop(document, old(current))
        decreases |document| - current
      {
        var c := GetNextChar();
        if c == '*' && document[current] == '/' {
          assert CStyleStop(document, old(current)) == current;
          break;
        }
      }
      var last := GetNextChar();
      return last == '/';
    }

    method ReadCppStyleComment()
      requires Valid()
      modifies this`current
      ensures Valid() && current == CppStyleEnd(document, old(current))
    {
      while current != |document|
        invariant Valid()
        invariant CppStyleEnd(document, current) == CppStyleEnd(document, old(current))
        decreases |document| - current
      {
        var c := GetNextChar();
        if c == '\n' {
          return;
        }
        if c == '\r' {
          if current != |document| && document[current] == '\n' {
            var _ := GetNextChar();
          }
          return;
        }
      }
    }

    /** Comments are recognised and dropped. */
    method ReadComment() returns (ok: bool)
      requires Valid()
      modifies this`current
      ensures Valid() && (ok, current) == CommentEnd(document, old(current))
    {
      var c := GetNextChar();
      if c == '*' {
        ok := ReadCStyleComment();
      } else if c == '/' {
        ReadCppStyleComment();
        ok := true;
      } else {
        ok := false;
      }
    }

    /** `c = (current_ = p) < end_ ? *p++ : '\0'`. */
    method Step(p: nat) returns (c: char, next: nat)
      requires p <= |document|
      modifies this`current
      ensures current == p && Lookahead(p, c, next)
    {
      current := p;
      if p < |document| {
        return document[p], p + 1;
      }
      return '\0', p;
    }

    /** `c` is the character at `p` (NUL at the end) and `next` lies behind it. */
    ghost predicate Lookahead(p: nat, c: char, next: nat)
      reads this`document
    {
      p <= |document| && if p < |document| then c == document[p] && next == p + 1 else c == '\0' && next == p
    }

    method ReadNumber()
      requires Valid()
      modifies this`current
      ensures Valid() && current == NumberEnd(document, old(current))
    {
      var c, p := '0', current; // stopgap for the character already consumed
      c, p := Step(p);
      c, p := ReadDigits(c, p);
      ghost var integral := current;
      if c == '.' {
        c, p := Step(p);
        c, p := ReadDigits(c, p);
      }
      assert current == FractionEnd(document, integral);
      ReadExponent(c, p);
    }

    /** The last part of `readNumber`. */
    method ReadExponent(c0: char, p0: nat)
      requires Valid() && Lookahead(current, c0, p0)
      modifies this`current
      ensures Valid() && current == ExponentEnd(document, old(current))
    {
      var c, p := c0, p0;
      if c == 'e' || c == 'E' {
        c, p := Step(p);
        if c == '+' || c == '-' {
          c, p := Step(p);
        }
        c, p := ReadDigits(c, p);
      }
    }

    /** The loop over digits that `readNumber` writes three times. */
    method ReadDigits(c0: char, p0: nat) returns (c: char, p: nat)
      requires Valid() && Lookahead(current, c0, p0)
      modifies this`current
      ensures Valid() && Lookahead(current, c, p)
      ensures current == SkipDigits(document, old(current))
    {
      c, p := c0, p0;
      while '0' <= c <= '9'
        invariant Valid() && Lookahead(current, c, p)
        invariant SkipDigits(document, current) == SkipDigits(document, old(current))
        decreases |document| - current
      {
        c, p := Step(p);
      }
    }

    method ReadToken() returns (token: Token)
      requires Valid()
      modifies this`current
      ensures Valid() && token == JsonTokens.ReadToken(document, old(current)) && current == token.end
    {
      SpacesBeforeToken(document, current);
      SkipWhiteSpace();
      var start := current;
      assert current < |document| ==> JsonTokens.ReadToken(document, current) == TokenAt(document, current);
      var c := GetNextChar();
      var kind, ok := ErrorToken, true;
      match c {
        case '{' => kind := ObjectBegin;
        case '}' => kind := ObjectEnd;
        case '[' => kind := ArrayBegin;
        case ']' => kind := ArrayEnd;
        case '\"' =>
          kind := StringToken;
          ok := ReadString();
        case '/' =>
          kind := CommentToken;
          ok := ReadComment();
        case 't' =>
          kind := TrueToken;
          ok := Match("rue");
        case 'f' =>
          kind := FalseToken;
          ok := Match("alse");
        case 'n' =>
          kind := NullToken;
          ok := Match("ull");
        case ',' => kind := ArraySeparator;
        case ':' => kind := MemberSeparator;
        case '\0' => kind := EndOfStream;
        case _ =>
          if '0' <= c <= '9' || c == '-' {
            kind := NumberToken;
            ReadNumber();
          } else {
            ok := false;
          }
      }
      if !ok {
        kind := ErrorToken;
      }
      token := Token(kind, start, current);
    }

    /** The loops that read on while they find comments. */
    method ReadBeyondComments() returns (token: Token)
      requires Valid()
      modifies this`current
      ensures Valid() && token == NextToken(document, old(current)) && current == token.end
    {
      token := ReadToken();
      while token.kind == CommentToken
        invariant Valid() && current == token.end
        invariant token == JsonTokens.ReadToken(document, old(current)) || old(current) < current
        invariant (if token.kind == CommentToken then NextToken(document, current) else token) ==
          NextToken(document, old(current))
        decreases |document| - current, if token.kind == CommentToken then 1 else 0
      {
        token := ReadToken();
      }
    }

    method SkipCommentTokens() returns (token: Token)
      requires Valid()
      modifies this`current
      ensures Valid() && token == SkipComments(features, document, old(current)) && current == token.end
    {
      if features.allowComments {
        token := ReadBeyondComments();
      } else {
        token := ReadToken();
      }
    }

    // ----- errors -----

    method AddError(token: Token, message: Message, extra: Option<nat>) returns (ok: bool)
      modifies this`errors
      ensures !ok && errors == old(errors) + [ErrorInfo(token, message, extra)]
    {
      errors := errors + [ErrorInfo(token, message, extra)];
      return false;
    }

    /** Recovery moves the cursor and neither adds nor loses an error. */
    method RecoverFromError(until: Kind) returns (ok: bool)
      requires Valid()
      modifies this`current, this`errors
      ensures Valid() && !ok && current == Recover(document, old(current), until)
      ensures errors == old(errors)
    {
      var errorCount := |errors|;
      while true
        invariant Valid() && errors == old(errors)
        invariant Recover(document, current, until) == Recover(document, old(current), until)
        decreases |document| - current
      {
        var skip := ReadToken();
        if skip.kind == until || skip.kind == EndOfStream {
          break;
        }
      }
      errors := errors[..errorCount];
      return false;
    }

    method AddErrorAndRecover(token: Token, message: Message, until: Kind) returns (ok: bool)
      requires Valid()
      modifies this`current, this`errors
      ensures Valid() && !ok && current == Recover(document, old(current), until)
      ensures errors == old(errors) + [ErrorInfo(token, message, None)]
    {
      var _ := AddError(token, message, None);
      ok := RecoverFromError(until);
    }

    // ----- strings and numbers -----

    /** The recorded errors grew by the one that `message` at `extra` stands for. */
    ghost predicate Complained(errors0: seq<ErrorInfo>, token: Token, message: StringMessage, extra: nat)
      reads this`errors
    {
      errors == errors0 + [ErrorInfo(token, InString(message), Some(extra))]
    }

    method DecodeUnicodeEscapeSequence(token: Token, p: nat, end: nat) returns (ok: bool, unicode: nat, next: nat)
      requires p <= end <= |document|
      modifies this`errors
      ensures match DecodeEscapeSequence(document, p, end)
        case CodePoint(cp, q) => ok && unicode == cp && next == q && errors == old(errors)
        case BadCodePoint(m, x) => !ok && Complained(old(errors), token, m, x)
    {
      unicode, next := 0, p;
      if end - next < 4 {
        ok := AddError(token, InString(FourDigitsExpected), Some(next));
        return;
      }
      for index := 0 to 4
        invariant next == p + index
        invariant errors == old(errors)
        invariant DecodeHex(document, next, p + 4, unicode) == DecodeHex(document, p, p + 4, 0)
      {
        var c := document[next];
        next := next + 1;
        match HexValue(c) {
          case Some(digit) => unicode := unicode * 16 + digit;
          case None =>
            ok := AddError(token, InString(HexDigitExpected), Some(next));
            return;
        }
      }
      ok := true;
    }

    method DecodeUnicodeCodePoint(token: Token, p: nat, end: nat) returns (ok: bool, unicode: nat, next: nat)
      requires p <= end <= |document|
      modifies this`errors
      ensures match DecodeCodePoint(document, p, end)
        case CodePoint(cp, q) => ok && unicode == cp && next == q && errors == old(errors)
        case BadCodePoint(m, x) => !ok && Complained(old(errors), token, m, x)
    {
      ok, unicode, next := DecodeUnicodeEscapeSequence(token, p, end);
      if !ok {
        return;
      }
      if 0xD800 <= unicode <= 0xDBFF {
        if end - next < 6 {
          ok := AddError(token, InString(SixCharactersExpected), Some(next));
          return;
        }
        next := next + 1;
        var escaped := document[next - 1] == '\\';
        if escaped {
          next := next + 1;
          escaped := document[next - 1] == 'u';
        }
        if !escaped {
          ok := AddError(token, InString(SecondHalfExpected), Some(next));
          return;
        }
        var surrogatePair;
        ok, surrogatePair, next := DecodeUnicodeEscapeSequence(token, next, end);
        unicode := Combine(unicode, surrogatePair);
      }
    }

    /** The branch of `decodeString` behind a backslash. */
    method DecodeEscape(token: Token, p: nat, end: nat) returns (ok: bool, text: string, next: nat)
      requires p <= end <= |document|
      modifies this`errors
      ensures ok ==> p < next <= end
      ensures ok ==> errors == old(errors)
      ensures ok ==> DecodeEscaped(document, p, end) == Prepend(text, DecodeChars(document, next, end))
      ensures !ok ==> match DecodeEscaped(document, p, end)
        case Decoded(_) => false
        case Undecodable(m, x) => Complained(old(errors), token, m, x)
    {
      text, next := "", p;
      if p == end {
        ok := AddError(token, InString(EmptyEscape), Some(p));
        return;
      }
      var escape := document[p];
      next := p + 1;
      if escape == 'u' {
        var unicode;
        ok, unicode, next := DecodeUnicodeCodePoint(token, next, end);
        text := CodePointToUtf8(unicode);
      } else {
        match SimpleEscape(escape) {
          case Some(plain) => return true, [plain], next;
          case None => ok := AddError(token, InString(BadEscape), Some(next));
        }
      }
    }

    method DecodeString(token: Token) returns (ok: bool, decoded: string)
      requires token.start + 2 <= token.end <= |document|
      modifies this`errors
      ensures match TokenText(document, token)
        case Named(text) => ok && decoded == text && errors == old(errors)
        case BadName(error) => !ok && errors == old(errors) + [error]
        case NameThrows(_) => false
    {
      decoded := "";
      var p, end := token.start + 1, token.end - 1;
      ghost var whole := DecodeChars(document, p, end);
      assert whole == Prepend("", whole) by {
        if whole.Decoded? { assert "" + whole.text == whole.text; }
      }
      while p != end
        invariant token.start + 1 <= p <= end
        invariant errors == old(errors)
        invariant whole == Prepend(decoded, DecodeChars(document, p, end))
        decreases end - p
      {
        var c := document[p];
        ghost var rest := DecodeChars(document, p, end);
        p := p + 1;
        var text := [c];
        if c == '\"' {
          break;
        } else if c == '\\' {
          ok, text, p := DecodeEscape(token, p, end);
          if !ok {
            return;
          }
        }
        assert rest == Prepend(text, DecodeChars(document, p, end));
        PrependTwice(decoded, text, DecodeChars(document, p, end));
        decoded := decoded + text;
      }
      assert whole == Decoded(decoded);
      ok := true;
    }

    /** `decodeNumber(Token&, Value&)`, falling back to `decodeDouble`. */
    method DecodeNumberToken(token: Token) returns (ok: bool, decoded: Value)
      requires token.start < token.end <= |document|
      modifies this`errors
      ensures match NumberOutcome(features, document, token, Null)
        case Parsed(_, v) => ok && decoded == v && errors == old(errors)
        case Failed(_, _, error) => !ok && errors == old(errors) + [error]
        case Thrown(_) => false
    {
      var number := ComputeNumber(document, token.start, token.end);
      match number {
        case Integer(v) => return true, v;
        case Floating =>
          match features.toDouble(document[token.start..token.end]) {
            case Some(bits) => return true, Real(bits);
            case None =>
              ok := AddError(token, NotANumber, None);
              decoded := Null;
          }
      }
    }

    // ----- values -----

    /** The value on top of the node stack. */
    function CurrentValue(): Value
      reads this
      requires nodes != []
    {
      nodes[|nodes| - 1]
    }

    method SetCurrentValue(v: Value)
      requires nodes != []
      modifies this`nodes
      ensures nodes == old(nodes)[..|old(nodes)| - 1] + [v]
    {
      nodes := nodes[..|nodes| - 1] + [v];
    }

    /** The state agrees with `r`: only the top of the stack changed, errors grew by at most the one of `r`,
        and the result is true exactly when no error was added. */
    ghost predicate Reached(r: Outcome, flow: Flow, below: seq<Value>, errors0: seq<ErrorInfo>)
      reads this
    {
      match r
      case Thrown(e) => flow == Throws(e) && errors == errors0
      case Parsed(q, v) => flow == Returned(true) && current == q && nodes == below + [v] && errors == errors0
      case Failed(q, v, error) =>
        flow == Returned(false) && current == q && nodes == below + [v] && errors == errors0 + [error]
    }

    method ReadValue() returns (flow: Flow)
      requires Valid() && nodes != []
      modifies this
      ensures Valid() && document == old(document)
      ensures Reached(JsonGrammar.ReadValue(features, document, old(current), |old(nodes)|, old(CurrentValue())),
                      flow, old(nodes[..|nodes| - 1]), old(errors))
      decreases |document| - current, 1
    {
      if |nodes| > STACK_LIMIT {
        return Throws(StackLimitExceeded);
      }
      ghost var start := current;
      var token := SkipCommentTokens();
      flow := ReadValueAt(start, token);
    }

    /** The switch over the first token of a value, which starts behind `start`. */
    method ReadValueAt(ghost start: nat, token: Token) returns (flow: Flow)
      requires Valid() && nodes != [] && current == token.end
      requires start <= |document| && token == SkipComments(features, document, start)
      modifies this
      ensures Valid() && document == old(document)
      ensures Reached(ValueAt(features, document, start, token, |old(nodes)|, old(CurrentValue())),
                      flow, old(nodes[..|nodes| - 1]), old(errors))
      decreases |document| - start, 0
    {
      ghost var below := nodes[..|nodes| - 1];
      match token.kind {
        case ObjectBegin =>
          flow := ReadObject();
        case ArrayBegin =>
          flow := ReadArray();
        case NumberToken =>
          var ok, decoded := DecodeNumberToken(token);
          if ok {
            SetCurrentValue(decoded);
          }
          flow := Returned(ok);
        case StringToken =>
          var ok, decoded := DecodeString(token);
          if !ok {
            return Returned(false);
          }
          match StringValue(decoded) {
            case Some(v) => SetCurrentValue(v);
            case None => return Throws(StringTooLong);
          }
          flow := Returned(true);
        case TrueToken =>
          SetCurrentValue(Bool(true));
          flow := Returned(true);
        case FalseToken =>
          SetCurrentValue(Bool(false));
          flow := Returned(true);
        case NullToken =>
          SetCurrentValue(Null);
          flow := Returned(true);
        case ArraySeparator | ObjectEnd | ArrayEnd =>
          flow := ReadDroppedNull(token);
        case _ =>
          var ok := AddError(token, ValueExpected, None);
          flow := Returned(ok);
      }
    }

    /** A separator or closing bracket where a value should be: it is un-read, or an error. */
    method ReadDroppedNull(token: Token) returns (flow: Flow)
      requires Valid() && nodes != [] && 0 < current == token.end
      modifies this`current, this`nodes, this`errors
      ensures Valid() && current == if features.allowDroppedNullPlaceholders then token.end - 1 else token.end
      ensures flow == Returned(features.allowDroppedNullPlaceholders)
      ensures if features.allowDroppedNullPlaceholders
        then nodes == old(nodes[..|nodes| - 1]) + [Null] && errors == old(errors)
        else nodes == old(nodes) && errors == old(errors) + [ErrorInfo(token, ValueExpected, None)]
    {
      if features.allowDroppedNullPlaceholders {
        current := current - 1;
        SetCurrentValue(Null);
        return Returned(true);
      }
      var ok := AddError(token, ValueExpected, None);
      flow := Returned(ok);
    }

    /** `nodes_.push(&value); readValue(); nodes_.pop()`: the value handed back, the stack as before. */
    method ReadChild(initial: Value) returns (flow: Flow, v: Value)
      requires Valid() && nodes != []
      modifies this
      ensures Valid() && document == old(document)
      ensures match JsonGrammar.ReadValue(features, document, old(current), |old(nodes)| + 1, initial)
        case Thrown(e) => flow == Throws(e) && errors == old(errors)
        case Parsed(q, value) =>
          flow == Returned(true) && v == value && current == q && nodes == old(nodes) && errors == old(errors)
        case Failed(q, value, error) =>
          flow == Returned(false) && v == value && current == q && nodes == old(nodes) &&
            errors == old(errors) + [error]
      decreases |document| - current, 2
    {
      ghost var below := nodes;
      nodes := nodes + [initial];
      assert nodes[..|nodes| - 1] == below;
      flow := ReadValue();
      v := initial;
      if flow.Returned? {
        v := CurrentValue();
        nodes := nodes[..|nodes| - 1];
      }
    }

    /** Every element is read into a new null on top of the stack. */
    method ReadArray() returns (flow: Flow)
      requires Valid() && nodes != []
      modifies this
      ensures Valid() && document == old(document)
      ensures Reached(ArrayOutcome(features, document, old(current), |old(nodes)|),
                      flow, old(nodes[..|nodes| - 1]), old(errors))
      decreases |document| - current, 4
    {
      ghost var below, height := nodes[..|nodes| - 1], |nodes|;
      SetCurrentValue(Arr([]));
      SkipWhiteSpace();
      if current != |document| && document[current] == ']' {
        assert JsonTokens.ReadToken(document, current) == TokenAt(document, current);
        var _ := ReadToken();
        return Returned(true);
      }
      var items: seq<Entry<nat, Value>> := [];
      ghost var goal := ReadElements(features, document, current, height, []);
      var more := true;
      flow := Returned(true);
      while more
        invariant Valid() && document == old(document) && old(current) <= current
        invariant nodes == below + [Arr(items)] && errors == old(errors)
        invariant goal == if more then ReadElements(features, document, current, height, items)
          else Parsed(current, Arr(items))
        invariant flow == Returned(true)
        decreases if more then 1 else 0, |document| - current
      {
        flow, more, items := ReadElement(items);
        if flow != Returned(true) {
          return;
        }
      }
    }

    /** One round of the loop of `readArray`. */
    method ReadElement(items0: seq<Entry<nat, Value>>) returns (flow: Flow, more: bool, items: seq<Entry<nat, Value>>)
      requires Valid() && nodes != [] && nodes[|nodes| - 1] == Arr(items0)
      modifies this
      ensures Valid() && document == old(document)
      ensures match ElementRound(features, document, old(current), |old(nodes)|, items0)
        case Done(r) => !more && Reached(r, flow, old(nodes[..|nodes| - 1]), old(errors)) &&
          (r.Parsed? ==> r.value == Arr(items))
        case More(q, entries, _) =>
          more && flow == Returned(true) && current == q && items == entries
          && nodes == old(nodes[..|nodes| - 1]) + [Arr(items)] && errors == old(errors)
      decreases |document| - current, 3
    {
      var v;
      more, items := false, items0;
      flow, v := ReadChild(Null);
      if flow.Throws? {
        return;
      }
      items := items + [Entry(|items|, v)];
      SetCurrentValue(Arr(items));
      if !flow.ok {
        var ok := RecoverFromError(ArrayEnd);
        flow := Returned(ok);
        return;
      }
      var token := ReadBeyondComments();
      if token.kind != ArraySeparator && token.kind != ArrayEnd {
        var ok := AddErrorAndRecover(token, MissingCommaOrBracket, ArrayEnd);
        flow := Returned(ok);
        return;
      }
      more := token.kind != ArrayEnd;
    }

    /** Every member is read into the value its name has so far; the entry is stored when it is popped. */
    method ReadObject() returns (flow: Flow)
      requires Valid() && nodes != []
      modifies this
      ensures Valid() && document == old(document)
      ensures Reached(ReadMembers(features, document, old(current), |old(nodes)|, [], ""),
                      flow, old(nodes[..|nodes| - 1]), old(errors))
      decreases |document| - current, 5
    {
      ghost var below, height := nodes[..|nodes| - 1], |nodes|;
      SetCurrentValue(Obj([]));
      var members: seq<Entry<string, Value>>, name := [], "";
      ghost var goal := ReadMembers(features, document, current, height, [], "");
      var more := true;
      flow := Returned(true);
      while more
        invariant Valid() && document == old(document) && old(current) <= current
        invariant nodes == below + [Obj(members)] && errors == old(errors)
        invariant goal == if more then ReadMembers(features, document, current, height, members, name)
          else Parsed(current, Obj(members))
        invariant flow == Returned(true)
        decreases if more then 1 else 0, |document| - current
      {
        flow, more, members, name := ReadMemberOrEnd(members, name);
        if flow != Returned(true) {
          return;
        }
      }
    }

    /** One round of the loop of `readObject`: the end, or a name and a colon, then the member. */
    method ReadMemberOrEnd(members0: seq<Entry<string, Value>>, last: string)
      returns (flow: Flow, more: bool, members: seq<Entry<string, Value>>, name: string)
      requires Valid() && nodes != [] && nodes[|nodes| - 1] == Obj(members0)
      modifies this
      ensures Valid() && document == old(document)
      ensures match MemberRound(features, document, old(current), |old(nodes)|, members0, last)
        case Done(r) => !more && Reached(r, flow, old(nodes[..|nodes| - 1]), old(errors)) &&
          (r.Parsed? ==> r.value == Obj(members))
        case More(q, entries, next) =>
          more && flow == Returned(true) && current == q && members == entries && name == next
          && nodes == old(nodes[..|nodes| - 1]) + [Obj(members)] && errors == old(errors)
      decreases |document| - current, 4
    {
      more, members, name := false, members0, last;
      ghost var below := nodes[..|nodes| - 1];
      assert nodes == below + [Obj(members0)];
      var tokenName := ReadBeyondComments();
      if tokenName.kind == ObjectEnd && name == "" {
        return Returned(true), false, members, name;
      }
      var ok;
      flow, ok, name := ReadName(tokenName);
      if flow != Returned(true) {
        return;
      }
      var colon := ReadToken();
      if colon.kind != MemberSeparator {
        ok := AddErrorAndRecover(colon, MissingColon, ObjectEnd);
        flow := Returned(ok);
      } else {
        flow, more, members := ReadNamedMember(members, name);
      }
    }

    /** The name of a member; without one the rest of the object is skipped. */
    method ReadName(tokenName: Token) returns (flow: Flow, ok: bool, name: string)
      requires Valid() && current == tokenName.end && tokenName.start <= tokenName.end
      requires tokenName.kind != EndOfStream ==> tokenName.start < tokenName.end
      requires tokenName.kind == StringToken ==> tokenName.start + 2 <= tokenName.end
      modifies this`current, this`errors
      ensures Valid()
      ensures match NameOf(features, document, tokenName)
        case Named(text) => flow == Returned(true) && ok && name == text && current == old(current) &&
          errors == old(errors)
        case NameThrows(e) => flow == Throws(e) && errors == old(errors)
        case BadName(error) =>
          flow == Returned(false) && !ok && current == Recover(document, old(current), ObjectEnd)
          && errors == old(errors) + [error]
    {
      name := "";
      ok := false;
      if tokenName.kind == StringToken {
        ok, name := DecodeString(tokenName);
        if !ok {
          ok := RecoverFromError(ObjectEnd);
        }
      } else if tokenName.kind == NumberToken && features.allowNumericKeys {
        var number;
        ok, number := DecodeNumberToken(tokenName);
        if ok {
          flow := Throws(NumberIsNoName);
          return;
        }
        ok := RecoverFromError(ObjectEnd);
      } else {
        ok := AddErrorAndRecover(tokenName, MissingNameOrBrace, ObjectEnd);
      }
      flow := Returned(ok);
    }

    /** The rest of that round, behind the colon. */
    method ReadNamedMember(members0: seq<Entry<string, Value>>, name: string)
      returns (flow: Flow, more: bool, members: seq<Entry<string, Value>>)
      requires Valid() && nodes != [] && nodes[|nodes| - 1] == Obj(members0)
      modifies this
      ensures Valid() && document == old(document)
      ensures match NamedMemberRound(features, document, old(current), |old(nodes)|, members0, name)
        case Done(r) => !more && Reached(r, flow, old(nodes[..|nodes| - 1]), old(errors)) &&
          (r.Parsed? ==> r.value == Obj(members))
        case More(q, entries, next) =>
          more && flow == Returned(true) && current == q && members == entries && name == next
          && nodes == old(nodes[..|nodes| - 1]) + [Obj(members)] && errors == old(errors)
      decreases |document| - current, 3
    {
      var v;
      more, members := false, members0;
      flow, v := ReadChild(Find(members, Key(name)).GetOr(Null));
      if flow.Throws? {
        return;
      }
      members := Insert(members, Key(name), v);
      SetCurrentValue(Obj(members));
      if !flow.ok {
        var ok := RecoverFromError(ObjectEnd);
        flow := Returned(ok);
        return;
      }
      ghost var afterValue := current;
      var comma := ReadToken();
      if comma.kind != ObjectEnd && comma.kind != ArraySeparator && comma.kind != CommentToken {
        var ok := AddErrorAndRecover(comma, MissingCommaOrBrace, ObjectEnd);
        flow := Returned(ok);
        return;
      }
      if comma.kind == CommentToken {
        comma := ReadBeyondComments();
      }
      assert comma == NextToken(document, afterValue);
      more := comma.kind != ObjectEnd;
    }

    /** `parse(begin, end, root)`: it ends on every text; it is true exactly when no error was recorded. */
    method Parse(text: string, root: Value) returns (flow: Flow, result: Value)
      modifies this
      ensures Valid() && document == text
      ensures match JsonGrammar.Parse(features, text, root)
        case Raised(e) => flow == Throws(e)
        case Finished(successful, v, errs) => flow == Returned(successful) && result == v && errors == errs
      ensures flow.Returned? ==> (flow.ok <==> errors == [])
      ensures flow.Returned? && !flow.ok && !features.strictRoot ==> |errors| == 1
    {
      document, current, errors := text, 0, [];
      nodes := [root];
      flow := ReadValue();
      if flow.Throws? {
        return flow, root;
      }
      var _ := SkipCommentTokens();
      result := CurrentValue();
      if features.strictRoot {
        if !result.Arr? && !result.Obj? {
          var ok := AddError(Token(ErrorToken, 0, |document|), RootNotAContainer, None);
          return Returned(ok), result;
        }
      }
    }
  }

  lemma PrependTwice(a: string, b: string, d: Decoded)
    ensures Prepend(a + b, d) == Prepend(a, Prepend(b, d))
  {
    if d.Decoded? {
      assert a + b + d.text == a + (b + d.text);
    }
  }
}

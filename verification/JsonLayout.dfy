/** Texts that print a value with any white space between the tokens, and how the reader reads them. */
module JsonLayout {
  import opened Text
  import opened OrderedMap
  import opened JsonValue
  import opened JsonNumbers
  import opened JsonStrings
  import opened JsonTokens
  import opened JsonGrammar

  /** A value with its text: white space, the lexeme of a leaf, the quoted name of a field.
      `Dropped` is a null printed as nothing. */
  datatype Tree =
    | Leaf(space: string, lexeme: string, value: Value)
    | Dropped(space: string)
    | ArrayTree(space: string, elements: seq<Element>)
    | ObjectTree(space: string, fields: seq<Field>)

  datatype Element = Element(tree: Tree, after: string)

  datatype Field = Field(space: string, quoted: string, name: string, beforeColon: string, tree: Tree, after: string)

  predicate Spaces(w: string) {
    forall i :: 0 <= i < |w| ==> Space(w[i])
  }

  /** Values that print as one token and come back with the same tag. */
  predicate Scalar(v: Value) {
    match v
    case Null => true
    case Bool(_) => true
    case Int(i) => MIN_LARGEST_INT <= i <= MAX_INT
    case UInt(u) => MAX_INT < u <= MAX_LARGEST_UINT
    case Str(s) => |s| <= MAX_STRING
    case _ => false
  }

  function ScalarText(v: Value): string {
    match v
    case Null => "null"
    case Bool(b) => if b then "true" else "false"
    case Int(i) => IntegerText(i)
    case UInt(u) => IntegerText(u)
    case Str(s) => Quote(s)
    case _ => ""
  }

  function TreeText(t: Tree): string {
    match t
    case Leaf(w, x, _) => w + x
    case Dropped(w) => w
    case ArrayTree(w, es) => w + ("[" + (ElementsText(es) + "]"))
    case ObjectTree(w, fs) => w + ("{" + (FieldsText(fs) + "}"))
  }

  function ElementsText(es: seq<Element>): string
    decreases es
  {
    if es == [] then ""
    else
      assert es[0].tree < es[0];
      TreeText(es[0].tree) + (es[0].after + (if |es| == 1 then "" else "," + ElementsText(es[1..])))
  }

  function FieldsText(fs: seq<Field>): string
    decreases fs
  {
    if fs == [] then ""
    else
      assert fs[0].tree < fs[0];
      fs[0].space + (fs[0].quoted + (fs[0].beforeColon + (":" + (TreeText(fs[0].tree) +
        (fs[0].after + (if |fs| == 1 then "" else "," + FieldsText(fs[1..])))))))
  }

  /** A dropped null stands directly before a separator or bracket, and is never alone in an array:
      that text reads as an empty array. */
  predicate WellFormed(t: Tree, drop: bool) {
    match t
    case Leaf(w, x, v) => Spaces(w) && Scalar(v) && x == ScalarText(v)
    case Dropped(w) => Spaces(w) && drop
    case ArrayTree(w, es) => Spaces(w) && !(|es| == 1 && es[0].tree.Dropped?) && ElementsWellFormed(es, drop)
    case ObjectTree(w, fs) => Spaces(w) && FieldsWellFormed(fs, drop)
  }

  predicate ElementsWellFormed(es: seq<Element>, drop: bool)
    decreases es
  {
    es == [] || (
      assert es[0].tree < es[0];
      && WellFormed(es[0].tree, drop) && Spaces(es[0].after) && (es[0].tree.Dropped? ==> es[0].after == "")
      && ElementsWellFormed(es[1..], drop))
  }

  predicate FieldsWellFormed(fs: seq<Field>, drop: bool)
    decreases fs, 1
  {
    fs == [] || FirstFieldWellFormed(fs, drop)
  }

  predicate FirstFieldWellFormed(fs: seq<Field>, drop: bool)
    requires fs != []
    decreases fs, 0
  {
    assert fs[0].tree < fs[0];
    && WellFormed(fs[0].tree, drop) && Spaces(fs[0].after) && (fs[0].tree.Dropped? ==> fs[0].after == "")
    && Spaces(fs[0].space) && Spaces(fs[0].beforeColon) && fs[0].quoted == Quote(fs[0].name)
    && FieldsWellFormed(fs[1..], drop)
  }

  /** The value a tree stands for: members go one by one into the map of their object. */
  function TreeValue(t: Tree): Value {
    match t
    case Leaf(_, _, v) => v
    case Dropped(_) => Null
    case ArrayTree(_, es) => Arr(AddElements([], es))
    case ObjectTree(_, fs) => Obj(AddFields([], fs))
  }

  function AddElements(items: seq<Entry<nat, Value>>, es: seq<Element>): seq<Entry<nat, Value>>
    decreases es
  {
    if es == [] then items
    else
      assert es[0].tree < es[0];
      AddElements(items + [Entry(|items|, TreeValue(es[0].tree))], es[1..])
  }

  function AddFields(members: seq<Entry<string, Value>>, fs: seq<Field>): seq<Entry<string, Value>>
    decreases fs
  {
    if fs == [] then members
    else
      assert fs[0].tree < fs[0];
      AddFields(Insert(members, Key(fs[0].name), TreeValue(fs[0].tree)), fs[1..])
  }

  /** How many nested calls of `readValue` the tree needs. */
  function Height(t: Tree): nat {
    match t
    case ArrayTree(_, es) => if es == [] then 0 else 1 + ElementsHeight(es)
    case ObjectTree(_, fs) => if fs == [] then 0 else 1 + FieldsHeight(fs)
    case _ => 0
  }

  function ElementsHeight(es: seq<Element>): nat
    decreases es
  {
    if es == [] then 0
    else
      assert es[0].tree < es[0];
      var h, rest := Height(es[0].tree), ElementsHeight(es[1..]);
      if h < rest then rest else h
  }

  function FieldsHeight(fs: seq<Field>): nat
    decreases fs
  {
    if fs == [] then 0
    else
      assert fs[0].tree < fs[0];
      var h, rest := Height(fs[0].tree), FieldsHeight(fs[1..]);
      if h < rest then rest else h
  }

  // ----- tokens of a layout -----

  lemma {:induction false} SpacesSkipped(s: string, p: nat, w: string)
    requires At(s, p, w) && Spaces(w)
    ensures SkipSpaces(s, p) == SkipSpaces(s, p + |w|)
    decreases |w|
  {
    if w != "" {
      AtFirst(s, p, w);
      SpacesSkipped(s, p + 1, w[1..]);
    }
  }

  /** White space in front of a token does not matter. */
  lemma TokenAfterSpaces(s: string, p: nat, w: string)
    requires At(s, p, w) && Spaces(w) && p + |w| < |s| && !Space(s[p + |w|])
    ensures ReadToken(s, p) == TokenAt(s, p + |w|)
    ensures ReadToken(s, p).kind != CommentToken ==> NextToken(s, p) == TokenAt(s, p + |w|)
  {
    SpacesSkipped(s, p, w);
    SpacesBeforeToken(s, p);
    assert SkipSpaces(s, p + |w|) == p + |w|;
  }

  /** No number goes on at `q`. */
  predicate NumberStops(s: string, q: nat) {
    q < |s| ==> !IsDigit(s[q]) && s[q] != '.' && s[q] != 'e' && s[q] != 'E'
  }

  predicate Separator(c: char) {
    c == ',' || c == ']' || c == '}'
  }

  /** White space, or white space and one of the separators. */
  lemma StopsAt(s: string, q: nat, w: string)
    requires At(s, q, w) && Spaces(w) && (q + |w| < |s| ==> Separator(s[q + |w|]))
    ensures NumberStops(s, q)
  {
    if w != "" {
      AtFirst(s, q, w);
    }
  }

  lemma {:induction false} DigitsSkipped(s: string, p: nat, t: string)
    requires At(s, p, t) && AllDigits(t)
    ensures SkipDigits(s, p) == SkipDigits(s, p + |t|)
    decreases |t|
  {
    if t != "" {
      AtFirst(s, p, t);
      DigitsSkipped(s, p + 1, t[1..]);
    }
  }

  /** The token in front of which `readValue` stands decides its outcome. */
  lemma ScalarOutcome(f: Features, s: string, p: nat, height: nat, old_: Value, t: Token)
    requires p <= |s| && height <= STACK_LIMIT && ReadToken(s, p) == t
    ensures t.kind == NumberToken ==> ReadValue(f, s, p, height, old_) == NumberOutcome(f, s, t, old_)
    ensures t.kind == StringToken ==> ReadValue(f, s, p, height, old_) == StringOutcome(s, t, old_)
    ensures t.kind == TrueToken ==> ReadValue(f, s, p, height, old_) == Parsed(t.end, Bool(true))
    ensures t.kind == FalseToken ==> ReadValue(f, s, p, height, old_) == Parsed(t.end, Bool(false))
    ensures t.kind == NullToken ==> ReadValue(f, s, p, height, old_) == Parsed(t.end, Null)
  {
    if t.kind != CommentToken {
      assert SkipComments(f, s, p) == t;
    }
  }

  // A printed integer is one number token with exactly its text.

  lemma IntegerShape(s: string, q: nat, x: string, n: int)
    requires x == IntegerText(n) && At(s, q, x) && NumberStops(s, q + |x|)
    ensures x != "" && (IsDigit(x[0]) || x[0] == '-') && CharAt(s, q, x[0])
    ensures SkipDigits(s, q + 1) == q + |x|
  {
    var d := Decimal(if n < 0 then -n else n);
    AtFirst(s, q, x);
    assert AllDigits(x[1..]) by {
      assert n < 0 ==> x[1..] == d;
    }
    DigitsSkipped(s, q + 1, x[1..]);
  }

  lemma IntegerToken(s: string, p: nat, w: string, x: string, n: int)
    requires At(s, p, w) && Spaces(w)
    requires x == IntegerText(n) && At(s, p + |w|, x) && NumberStops(s, p + |w| + |x|)
    ensures p <= |s| && ReadToken(s, p) == Token(NumberToken, p + |w|, p + |w| + |x|)
  {
    IntegerShape(s, p + |w|, x, n);
    TokenAfterSpaces(s, p, w);
  }

  lemma IntegerDecodes(f: Features, s: string, t: Token, n: int, old_: Value)
    requires MIN_LARGEST_INT <= n <= MAX_LARGEST_UINT
    requires t.start <= t.end <= |s| && s[t.start..t.end] == IntegerText(n)
    ensures NumberOutcome(f, s, t, old_) == Parsed(t.end, NumberValue(n))
  {
    NumberRoundTrip(n);
  }

  lemma ParseInteger(f: Features, s: string, p: nat, height: nat, old_: Value, w: string, x: string, n: int)
    requires At(s, p, w) && Spaces(w) && height <= STACK_LIMIT && MIN_LARGEST_INT <= n <= MAX_LARGEST_UINT
    requires x == IntegerText(n) && At(s, p + |w|, x) && NumberStops(s, p + |w| + |x|)
    ensures ReadValue(f, s, p, height, old_) == Parsed(p + |w| + |x|, NumberValue(n))
  {
    var t := Token(NumberToken, p + |w|, p + |w| + |x|);
    IntegerToken(s, p, w, x, n);
    AtSlice(s, p + |w|, x);
    IntegerDecodes(f, s, t, n, old_);
    ScalarOutcome(f, s, p, height, old_, t);
  }

  // A printed keyword is one token.

  function WordKind(v: Value): Kind {
    if v == Null then NullToken else if v == Bool(true) then TrueToken else FalseToken
  }

  lemma WordToken(s: string, p: nat, w: string, v: Value)
    requires At(s, p, w) && Spaces(w) && (v.Null? || v.Bool?) && At(s, p + |w|, ScalarText(v))
    ensures p <= |s| && ReadToken(s, p) == Token(WordKind(v), p + |w|, p + |w| + |ScalarText(v)|)
  {
    AtFirst(s, p + |w|, ScalarText(v));
    assert "null"[1..] == "ull" && "true"[1..] == "rue" && "false"[1..] == "alse";
    TokenAfterSpaces(s, p, w);
  }

  lemma ParseWord(f: Features, s: string, p: nat, height: nat, old_: Value, w: string, v: Value)
    requires At(s, p, w) && Spaces(w) && height <= STACK_LIMIT && (v.Null? || v.Bool?) && At(s, p + |w|, ScalarText(v))
    ensures ReadValue(f, s, p, height, old_) == Parsed(p + |w| + |ScalarText(v)|, v)
  {
    WordToken(s, p, w, v);
    ScalarOutcome(f, s, p, height, old_, Token(WordKind(v), p + |w|, p + |w| + |ScalarText(v)|));
  }

  // A printed string is one token and decodes to the string.

  lemma QuoteShape(s: string, q: nat, t: string)
    requires At(s, q, Quote(t))
    ensures |Quote(t)| == |Escape(t)| + 2
    ensures q + |Quote(t)| <= |s| && s[q] == '\"' && At(s, q + 1, Escape(t) + "\"")
  {
    var body := Escape(t) + "\"";
    assert Quote(t) == ['\"'] + body;
    AtConcat(s, q, ['\"'], body);
    AtFirst(s, q, ['\"']);
  }

  lemma {:induction false} QuotedScan(s: string, q: nat, x: string, t: string)
    requires x == Quote(t) && At(s, q, x)
    ensures q + 2 <= q + |x| <= |s| && s[q] == '\"' && StringEnd(s, q + 1) == (true, q + |x|)
    ensures DecodeChars(s, q + 1, q + |x| - 1) == Decoded(t)
  {
    QuoteShape(s, q, t);
    QuoteRoundTrip(s, q + 1, t);
    assert q + 1 + |Escape(t)| == q + |x| - 1;
  }

  lemma QuotedTokenAt(s: string, p: nat, w: string, end: nat)
    requires At(s, p, w) && Spaces(w) && CharAt(s, p + |w|, '\"') && StringEnd(s, p + |w| + 1) == (true, end)
    ensures p <= |s| && ReadToken(s, p) == NextToken(s, p) == Token(StringToken, p + |w|, end)
  {
    TokenAfterSpaces(s, p, w);
  }

  lemma TokenDecodes(s: string, token: Token, t: string)
    requires token.start + 2 <= token.end <= |s|
    requires DecodeChars(s, token.start + 1, token.end - 1) == Decoded(t)
    ensures TokenText(s, token) == Named(t)
  {
  }

  lemma QuotedToken(s: string, p: nat, w: string, x: string, t: string)
    requires At(s, p, w) && Spaces(w) && x == Quote(t) && At(s, p + |w|, x)
    ensures var token := Token(StringToken, p + |w|, p + |w| + |x|);
      && p <= |s| && ReadToken(s, p) == NextToken(s, p) == token
      && token.start + 2 <= token.end <= |s| && TokenText(s, token) == Named(t)
  {
    QuotedScan(s, p + |w|, x, t);
    QuotedTokenAt(s, p, w, p + |w| + |x|);
    TokenDecodes(s, Token(StringToken, p + |w|, p + |w| + |x|), t);
  }

  lemma ShortString(s: string, token: Token, old_: Value, t: string)
    requires token.start + 2 <= token.end <= |s| && TokenText(s, token) == Named(t) && |t| <= MAX_STRING
    ensures StringOutcome(s, token, old_) == Parsed(token.end, Str(t))
  {
    assert t[..|t|] == t;
  }

  lemma ParseQuoted(f: Features, s: string, p: nat, height: nat, old_: Value, w: string, x: string, t: string)
    requires At(s, p, w) && Spaces(w) && height <= STACK_LIMIT && |t| <= MAX_STRING
    requires x == Quote(t) && At(s, p + |w|, x)
    ensures ReadValue(f, s, p, height, old_) == Parsed(p + |w| + |x|, Str(t))
  {
    var token := Token(StringToken, p + |w|, p + |w| + |x|);
    QuotedToken(s, p, w, x, t);
    ShortString(s, token, old_, t);
    ScalarOutcome(f, s, p, height, old_, token);
  }

  /** A scalar is read back from its text. */
  lemma ParseLeaf(f: Features, s: string, p: nat, height: nat, old_: Value, w: string, x: string, v: Value)
    requires Spaces(w) && Scalar(v) && x == ScalarText(v) && At(s, p, w) && At(s, p + |w|, x)
    requires NumberStops(s, p + |w| + |x|) && height <= STACK_LIMIT
    ensures ReadValue(f, s, p, height, old_) == Parsed(p + |w| + |x|, v)
  {
    match v {
      case Str(t) => ParseQuoted(f, s, p, height, old_, w, x, t);
      case Int(i) => ParseInteger(f, s, p, height, old_, w, x, i);
      case UInt(u) => ParseInteger(f, s, p, height, old_, w, x, u);
      case Null => ParseWord(f, s, p, height, old_, w, v);
      case Bool(_) => ParseWord(f, s, p, height, old_, w, v);
      case _ =>
    }
  }

  lemma ScalarStart(v: Value)
    requires Scalar(v)
    ensures ScalarText(v) != "" && !Space(ScalarText(v)[0]) && ScalarText(v)[0] != ']'
  {
  }

  // ----- where the parts of a layout stand -----

  function TreeLength(t: Tree): nat {
    match t
    case Leaf(w, x, _) => |w| + |x|
    case Dropped(w) => |w|
    case ArrayTree(w, es) => |w| + 2 + ElementsLength(es)
    case ObjectTree(w, fs) => |w| + 2 + FieldsLength(fs)
  }

  function ElementsLength(es: seq<Element>): nat
    decreases es
  {
    if es == [] then 0
    else
      assert es[0].tree < es[0];
      TreeLength(es[0].tree) + |es[0].after| + if |es| == 1 then 0 else 1 + ElementsLength(es[1..])
  }

  function FieldsLength(fs: seq<Field>): nat
    decreases fs
  {
    if fs == [] then 0
    else
      assert fs[0].tree < fs[0];
      NameLength(fs[0]) + TreeLength(fs[0].tree) + |fs[0].after| + if |fs| == 1 then 0 else 1 + FieldsLength(fs[1..])
  }

  /** The length of a field up to and with its colon. */
  function NameLength(field: Field): nat {
    |field.space| + |field.quoted| + |field.beforeColon| + 1
  }

  predicate CharAt(s: string, p: nat, c: char) {
    p < |s| && s[p] == c
  }

  /** The tree stands at `p`. */
  predicate TreeAt(s: string, p: nat, t: Tree)
    decreases t
  {
    match t
    case Leaf(w, x, _) => At(s, p, w) && At(s, p + |w|, x)
    case Dropped(w) => At(s, p, w)
    case ArrayTree(w, es) => At(s, p, w) && CharAt(s, p + |w|, '[') && ElementsAt(s, p + |w| + 1, es)
    case ObjectTree(w, fs) => At(s, p, w) && CharAt(s, p + |w|, '{') && FieldsAt(s, p + |w| + 1, fs)
  }

  /** The elements and the closing bracket stand at `p`. */
  predicate ElementsAt(s: string, p: nat, es: seq<Element>)
    decreases es
  {
    if es == [] then CharAt(s, p, ']')
    else
      assert es[0].tree < es[0];
      var q := p + TreeLength(es[0].tree);
      && TreeAt(s, p, es[0].tree) && At(s, q, es[0].after)
      && if |es| == 1 then CharAt(s, q + |es[0].after|, ']')
         else CharAt(s, q + |es[0].after|, ',') && ElementsAt(s, q + |es[0].after| + 1, es[1..])
  }

  predicate NameAt(s: string, p: nat, field: Field) {
    && At(s, p, field.space) && At(s, p + |field.space|, field.quoted)
    && At(s, p + |field.space| + |field.quoted|, field.beforeColon) && CharAt(s, p + NameLength(field) - 1, ':')
  }

  predicate FieldsAt(s: string, p: nat, fs: seq<Field>)
    decreases fs, 1
  {
    if fs == [] then CharAt(s, p, '}') else FirstFieldAt(s, p, fs)
  }

  predicate FirstFieldAt(s: string, p: nat, fs: seq<Field>)
    requires fs != []
    decreases fs, 0
  {
    assert fs[0].tree < fs[0];
    var v := p + NameLength(fs[0]);
    var q := v + TreeLength(fs[0].tree);
    && NameAt(s, p, fs[0]) && TreeAt(s, v, fs[0].tree) && At(s, q, fs[0].after)
    && if |fs| == 1 then CharAt(s, q + |fs[0].after|, '}')
       else CharAt(s, q + |fs[0].after|, ',') && FieldsAt(s, q + |fs[0].after| + 1, fs[1..])
  }

  /** A text that shows the text of a tree shows its parts where they belong. */
  lemma {:induction false} TreeParts(s: string, p: nat, t: Tree)
    requires At(s, p, TreeText(t))
    ensures TreeAt(s, p, t) && TreeLength(t) == |TreeText(t)|
    decreases t, 1
  {
    match t {
      case Leaf(w, x, _) => AtConcat(s, p, w, x);
      case Dropped(w) =>
      case ArrayTree(w, es) =>
        BracketSplit(s, p, w, '[', ElementsText(es) + "]");
        ElementsParts(s, p + |w| + 1, es);
      case ObjectTree(w, fs) =>
        BracketSplit(s, p, w, '{', FieldsText(fs) + "}");
        FieldsParts(s, p + |w| + 1, fs);
    }
  }

  lemma BracketSplit(s: string, p: nat, w: string, bracket: char, rest: string)
    requires At(s, p, w + ([bracket] + rest))
    ensures At(s, p, w) && CharAt(s, p + |w|, bracket) && At(s, p + |w| + 1, rest)
  {
    AtConcat(s, p, w, [bracket] + rest);
    AtConcat(s, p + |w|, [bracket], rest);
  }

  lemma {:induction false} ElementsParts(s: string, p: nat, es: seq<Element>)
    requires At(s, p, ElementsText(es) + "]")
    ensures ElementsAt(s, p, es) && ElementsLength(es) == |ElementsText(es)|
    decreases es, 0
  {
    if es == [] {
      AtConcat(s, p, "", "]");
    } else {
      var t, a := TreeText(es[0].tree), es[0].after;
      var rest := if |es| == 1 then "" else "," + ElementsText(es[1..]);
      Regroup(s, p, t, a, rest, ']');
      assert es[0].tree < es[0];
      TreeParts(s, p, es[0].tree);
      if |es| > 1 {
        CommaSplit(s, p + |t| + |a|, ElementsText(es[1..]), ']');
        ElementsParts(s, p + |t| + |a| + 1, es[1..]);
      }
    }
  }

  lemma Regroup(s: string, p: nat, t: string, a: string, rest: string, close: char)
    requires At(s, p, (t + (a + rest)) + [close])
    ensures At(s, p, t) && At(s, p + |t|, a) && At(s, p + |t| + |a|, rest + [close])
    ensures rest == "" ==> CharAt(s, p + |t| + |a|, close)
  {
    assert (t + (a + rest)) + [close] == t + (a + (rest + [close]));
    AtConcat(s, p, t, a + (rest + [close]));
    AtConcat(s, p + |t|, a, rest + [close]);
    if rest == "" {
      assert rest + [close] == [close];
    }
  }

  lemma CommaSplit(s: string, p: nat, rest: string, close: char)
    requires At(s, p, ("," + rest) + [close])
    ensures CharAt(s, p, ',') && At(s, p + 1, rest + [close])
  {
    assert ("," + rest) + [close] == "," + (rest + [close]);
    AtConcat(s, p, ",", rest + [close]);
    AtFirst(s, p, ",");
  }

  lemma {:induction false} FieldsParts(s: string, p: nat, fs: seq<Field>)
    requires At(s, p, FieldsText(fs) + "}")
    ensures FieldsAt(s, p, fs) && FieldsLength(fs) == |FieldsText(fs)|
    decreases fs, 0
  {
    if fs == [] {
      AtConcat(s, p, "", "}");
    } else {
      var t, a := TreeText(fs[0].tree), fs[0].after;
      var rest := if |fs| == 1 then "" else "," + FieldsText(fs[1..]);
      var v := p + NameLength(fs[0]);
      NameParts(s, p, fs[0], t + (a + rest));
      Regroup(s, v, t, a, rest, '}');
      assert fs[0].tree < fs[0];
      TreeParts(s, v, fs[0].tree);
      if |fs| > 1 {
        CommaSplit(s, v + |t| + |a|, FieldsText(fs[1..]), '}');
        FieldsParts(s, v + |t| + |a| + 1, fs[1..]);
      }
      assert FirstFieldAt(s, p, fs);
    }
  }

  lemma NameParts(s: string, p: nat, field: Field, rest: string)
    requires At(s, p, (field.space + (field.quoted + (field.beforeColon + (":" + rest)))) + "}")
    ensures NameAt(s, p, field) && At(s, p + NameLength(field), rest + "}")
  {
    var w, n, c := field.space, field.quoted, field.beforeColon;
    assert (w + (n + (c + (":" + rest)))) + "}" == w + (n + (c + (":" + (rest + "}")))) by {
      assert (c + (":" + rest)) + "}" == c + (":" + (rest + "}"));
      assert (n + (c + (":" + rest))) + "}" == n + (c + (":" + (rest + "}")));
    }
    AtConcat(s, p, w, n + (c + (":" + (rest + "}"))));
    AtConcat(s, p + |w|, n, c + (":" + (rest + "}")));
    AtConcat(s, p + |w| + |n|, c, ":" + (rest + "}"));
    AtConcat(s, p + |w| + |n| + |c|, ":", rest + "}");
    AtFirst(s, p + |w| + |n| + |c|, ":");
  }

  // ----- reading a layout -----

  /** What may stand behind the text of a tree: no number goes on, and a dropped null is followed at
      once by a separator that the reader un-reads. */
  predicate Followed(f: Features, t: Tree, s: string, q: nat) {
    && NumberStops(s, q)
    && (t.Dropped? ==> f.allowDroppedNullPlaceholders && q < |s| && Separator(s[q]))
  }

  lemma ParseDropped(f: Features, s: string, p: nat, height: nat, old_: Value, w: string)
    requires At(s, p, w) && Spaces(w) && p + |w| < |s| && Separator(s[p + |w|])
    requires f.allowDroppedNullPlaceholders && height <= STACK_LIMIT
    ensures ReadValue(f, s, p, height, old_) == Parsed(p + |w|, Null)
  {
    TokenAfterSpaces(s, p, w);
  }

  /** A container starts with its bracket. */
  lemma ParseBracket(f: Features, s: string, p: nat, height: nat, old_: Value, w: string)
    requires At(s, p, w) && Spaces(w) && p + |w| < |s| && height <= STACK_LIMIT
    ensures s[p + |w|] == '[' ==> ReadValue(f, s, p, height, old_) == ArrayOutcome(f, s, p + |w| + 1, height)
    ensures s[p + |w|] == '{' ==> ReadValue(f, s, p, height, old_) == ReadMembers(f, s, p + |w| + 1, height, [], "")
  {
    if s[p + |w|] == '[' || s[p + |w|] == '{' {
      TokenAfterSpaces(s, p, w);
    }
  }

  /** The outcome of reading something that needs `levels` entries on the node stack. */
  function Bounded(levels: nat, r: Outcome): Outcome {
    if levels > STACK_LIMIT then Thrown(StackLimitExceeded) else r
  }

  /** The outcome of reading a layout at `p`. */
  function TreeOutcome(t: Tree, p: nat, height: nat): Outcome {
    Bounded(height + Height(t), Parsed(p + TreeLength(t), TreeValue(t)))
  }

  /** The outcome of the loop over elements or members, up to its closing bracket. */
  function ElementsOutcome(items: seq<Entry<nat, Value>>, es: seq<Element>, p: nat, height: nat): Outcome {
    Bounded(height + 1 + ElementsHeight(es), Parsed(p + ElementsLength(es) + 1, Arr(AddElements(items, es))))
  }

  function FieldsOutcome(members: seq<Entry<string, Value>>, fs: seq<Field>, p: nat, height: nat): Outcome {
    Bounded(height + 1 + FieldsHeight(fs), Parsed(p + FieldsLength(fs) + 1, Obj(AddFields(members, fs))))
  }

  /** Every layout of a value is read as that value, unless it nests too deep: then the reader throws.
      Here and below `r` is what the reader makes of the text at `p`. */
  lemma {:induction false} ParseTree(f: Features, s: string, p: nat, height: nat, old_: Value, t: Tree, r: Outcome)
    requires WellFormed(t, f.allowDroppedNullPlaceholders)
    requires TreeAt(s, p, t) && Followed(f, t, s, p + TreeLength(t))
    requires p <= |s| && r == ReadValue(f, s, p, height, old_)
    ensures r == TreeOutcome(t, p, height)
    decreases t, 2
  {
    if height <= STACK_LIMIT {
      match t {
        case Leaf(w, x, v) => ParseLeaf(f, s, p, height, old_, w, x, v);
        case Dropped(w) => ParseDropped(f, s, p, height, old_, w);
        case ArrayTree(w, es) => ParseArrayTree(f, s, p, height, old_, w, es, r);
        case ObjectTree(w, fs) => ParseObjectTree(f, s, p, height, old_, w, fs, r);
      }
    }
  }

  lemma {:induction false} ParseArrayTree(f: Features, s: string, p: nat, height: nat, old_: Value,
                                          w: string, es: seq<Element>, r: Outcome)
    requires Spaces(w) && ElementsWellFormed(es, f.allowDroppedNullPlaceholders) && !(|es| == 1 && es[0].tree.Dropped?)
    requires At(s, p, w) && CharAt(s, p + |w|, '[') && ElementsAt(s, p + |w| + 1, es) && height <= STACK_LIMIT
    requires r == ReadValue(f, s, p, height, old_)
    ensures r == TreeOutcome(ArrayTree(w, es), p, height)
    decreases es, 4
  {
    ParseBracket(f, s, p, height, old_, w);
    ParseArray(f, s, p + |w| + 1, height, es, r);
    ArrayTreeOutcome(w, es, p, height);
  }

  lemma ArrayTreeOutcome(w: string, es: seq<Element>, p: nat, height: nat)
    ensures TreeOutcome(ArrayTree(w, es), p, height) ==
      if es == [] then Bounded(height, Parsed(p + |w| + 2, Arr([]))) else ElementsOutcome([], es, p + |w| + 1, height)
  {
    assert TreeLength(ArrayTree(w, es)) == |w| + 2 + ElementsLength(es) &&
      TreeValue(ArrayTree(w, es)) == Arr(AddElements([], es));
  }

  lemma {:induction false} ParseObjectTree(f: Features, s: string, p: nat, height: nat, old_: Value,
                                           w: string, fs: seq<Field>, r: Outcome)
    requires Spaces(w) && FieldsWellFormed(fs, f.allowDroppedNullPlaceholders)
    requires At(s, p, w) && CharAt(s, p + |w|, '{') && FieldsAt(s, p + |w| + 1, fs) && height <= STACK_LIMIT
    requires r == ReadValue(f, s, p, height, old_)
    ensures r == TreeOutcome(ObjectTree(w, fs), p, height)
    decreases fs, 5
  {
    ParseBracket(f, s, p, height, old_, w);
    if fs == [] {
      EmptyObject(f, s, p + |w| + 1, height);
    } else {
      ParseFields(f, s, p + |w| + 1, height, [], "", fs, r);
    }
    ObjectTreeOutcome(w, fs, p, height);
  }

  lemma ObjectTreeOutcome(w: string, fs: seq<Field>, p: nat, height: nat)
    ensures TreeOutcome(ObjectTree(w, fs), p, height) ==
      if fs == [] then Bounded(height, Parsed(p + |w| + 2, Obj([]))) else FieldsOutcome([], fs, p + |w| + 1, height)
  {
    assert TreeLength(ObjectTree(w, fs)) == |w| + 2 + FieldsLength(fs) &&
      TreeValue(ObjectTree(w, fs)) == Obj(AddFields([], fs));
  }

  /** Starting in front of white space or behind it makes no difference to a value. */
  lemma FromSpaces(f: Features, s: string, p: nat, height: nat)
    requires p <= |s|
    ensures ReadElements(f, s, SkipSpaces(s, p), height, []) == ReadElements(f, s, p, height, [])
  {
    var q := SkipSpaces(s, p);
    SpacesBeforeToken(s, p);
    assert ReadToken(s, q) == ReadToken(s, p);
    assert ReadValue(f, s, q, height + 1, Null) == ReadValue(f, s, p, height + 1, Null);
  }

  /** A tree that prints something does not begin with a closing bracket. */
  lemma TreeStart(s: string, p: nat, t: Tree, drop: bool)
    requires WellFormed(t, drop) && !t.Dropped? && TreeAt(s, p, t)
    ensures SkipSpaces(s, p) < |s| && s[SkipSpaces(s, p)] != ']'
  {
    if t.Leaf? {
      ScalarStart(t.value);
      AtFirst(s, p + |t.space|, t.lexeme);
    }
    SpacesSkipped(s, p, t.space);
  }

  /** The text between the brackets of an array does not start with the closing one. */
  lemma {:induction false} ParseArray(f: Features, s: string, p: nat, height: nat, es: seq<Element>, r: Outcome)
    requires ElementsWellFormed(es, f.allowDroppedNullPlaceholders) && !(|es| == 1 && es[0].tree.Dropped?)
    requires ElementsAt(s, p, es) && height <= STACK_LIMIT
    requires p <= |s| && r == ArrayOutcome(f, s, p, height)
    ensures r == if es == [] then Parsed(p + 1, Arr([])) else ElementsOutcome([], es, p, height)
    decreases es, 3
  {
    if es != [] {
      if es[0].tree.Dropped? {
        SpacesSkipped(s, p, es[0].tree.space);
      } else {
        TreeStart(s, p, es[0].tree, f.allowDroppedNullPlaceholders);
      }
      FromSpaces(f, s, p, height);
      ParseElements(f, s, p, height, [], es, r);
    }
  }

  lemma {:induction false} ParseElements(f: Features, s: string, p: nat, height: nat,
                                         items: seq<Entry<nat, Value>>, es: seq<Element>, r: Outcome)
    requires es != [] && ElementsWellFormed(es, f.allowDroppedNullPlaceholders)
    requires ElementsAt(s, p, es) && height <= STACK_LIMIT
    requires p <= |s| && r == ReadElements(f, s, p, height, items)
    ensures r == ElementsOutcome(items, es, p, height)
    decreases es, 2
  {
    FirstElementRound(f, s, p, height, items, es);
    ElementsLoop(f, s, p, height, items, ElementRound(f, s, p, height, items));
    if height + 1 + Height(es[0].tree) > STACK_LIMIT {
      ElementsTooDeep(items, es, p, height);
    } else if |es| == 1 {
      LastElement(items, es, p, height);
    } else {
      ParseOtherElements(f, s, p, height, items, es, r);
    }
  }

  /** Behind the first element and its comma. */
  lemma {:induction false} ParseOtherElements(f: Features, s: string, p: nat, height: nat,
                                              items: seq<Entry<nat, Value>>, es: seq<Element>, r: Outcome)
    requires |es| > 1 && ElementsWellFormed(es, f.allowDroppedNullPlaceholders) && ElementsAt(s, p, es)
    requires height + 1 + Height(es[0].tree) <= STACK_LIMIT && NextElement(es, p) <= |s|
    requires r == ReadElements(f, s, NextElement(es, p), height, items + [Entry(|items|, TreeValue(es[0].tree))])
    ensures r == ElementsOutcome(items, es, p, height)
    decreases es, 1
  {
    ParseElements(f, s, NextElement(es, p), height, items + [Entry(|items|, TreeValue(es[0].tree))], es[1..], r);
    MoreElements(items, es, p, height);
  }

  /** The position behind the first element and what separates it from the next one. */
  function NextElement(es: seq<Element>, p: nat): nat
    requires es != []
  {
    p + TreeLength(es[0].tree) + |es[0].after| + 1
  }

  lemma ElementsTooDeep(items: seq<Entry<nat, Value>>, es: seq<Element>, p: nat, height: nat)
    requires es != [] && height + 1 + Height(es[0].tree) > STACK_LIMIT
    ensures ElementsOutcome(items, es, p, height) == Thrown(StackLimitExceeded)
  {
  }

  lemma LastElement(items: seq<Entry<nat, Value>>, es: seq<Element>, p: nat, height: nat)
    requires |es| == 1 && height + 1 + Height(es[0].tree) <= STACK_LIMIT
    ensures ElementsOutcome(items, es, p, height) ==
      Parsed(NextElement(es, p), Arr(items + [Entry(|items|, TreeValue(es[0].tree))]))
  {
    var items' := items + [Entry(|items|, TreeValue(es[0].tree))];
    assert ElementsHeight(es[1..]) == 0 && AddElements(items', es[1..]) == items';
    assert p + ElementsLength(es) + 1 == NextElement(es, p);
    assert ElementsHeight(es) == Height(es[0].tree) && AddElements(items, es) == items';
  }

  lemma MoreElements(items: seq<Entry<nat, Value>>, es: seq<Element>, p: nat, height: nat)
    requires |es| > 1 && height + 1 + Height(es[0].tree) <= STACK_LIMIT
    ensures ElementsOutcome(items, es, p, height) ==
      ElementsOutcome(items + [Entry(|items|, TreeValue(es[0].tree))], es[1..], NextElement(es, p), height)
  {
    var h, rest := Height(es[0].tree), ElementsHeight(es[1..]);
    assert ElementsHeight(es) == if h < rest then rest else h;
    assert p + ElementsLength(es) == NextElement(es, p) + ElementsLength(es[1..]);
    assert AddElements(items, es) == AddElements(items + [Entry(|items|, TreeValue(es[0].tree))], es[1..]);
  }

  /** The round of the first element, up to the separator behind it. */
  lemma {:induction false} FirstElementRound(f: Features, s: string, p: nat, height: nat,
                                             items: seq<Entry<nat, Value>>, es: seq<Element>)
    requires es != [] && ElementsWellFormed(es, f.allowDroppedNullPlaceholders)
    requires ElementsAt(s, p, es) && height <= STACK_LIMIT && p <= |s|
    ensures ElementRound(f, s, p, height, items) ==
      var items' := items + [Entry(|items|, TreeValue(es[0].tree))];
      if height + 1 + Height(es[0].tree) > STACK_LIMIT then Done(Thrown(StackLimitExceeded))
      else if |es| == 1 then Done(Parsed(NextElement(es, p), Arr(items')))
      else More(NextElement(es, p), items', "")
    decreases es, 0
  {
    var t, a := es[0].tree, es[0].after;
    assert t < es[0];
    ParseChild(f, s, p, height, Null, t, a);
    ElementStep(f, s, p, height, items, height + 1 + Height(t), p + TreeLength(t), TreeValue(t), a);
  }

  lemma ElementsLoop(f: Features, s: string, p: nat, height: nat, items: seq<Entry<nat, Value>>, round: Round<nat>)
    requires p <= |s| && round == ElementRound(f, s, p, height, items)
    ensures ReadElements(f, s, p, height, items) ==
      match round { case Done(outcome) => outcome case More(q, items', _) => ReadElements(f, s, q, height, items') }
  {
  }

  /** White space and a separator: numbers stop there, and it is the next token. */
  lemma SeparatorToken(s: string, q: nat, w: string)
    requires At(s, q, w) && Spaces(w) && q + |w| < |s| && Separator(s[q + |w|])
    ensures NumberStops(s, q)
    ensures ReadToken(s, q) == NextToken(s, q)
    ensures var end := q + |w|;
      ReadToken(s, q) ==
        Token(if s[end] == ',' then ArraySeparator else if s[end] == ']' then ArrayEnd else ObjectEnd, end, end + 1)
  {
    StopsAt(s, q, w);
    TokenAfterSpaces(s, q, w);
  }

  /** One round of the element loop, by the outcome of its value and the separator behind it. */
  lemma {:induction false} ElementStep(f: Features, s: string, p: nat, height: nat, items: seq<Entry<nat, Value>>,
                                       levels: nat, q: nat, v: Value, w: string)
    requires p <= |s| && ReadValue(f, s, p, height + 1, Null) == Bounded(levels, Parsed(q, v))
    requires At(s, q, w) && Spaces(w) && q + |w| < |s| && s[q + |w|] in {',', ']'}
    ensures ElementRound(f, s, p, height, items) ==
      var items' := items + [Entry(|items|, v)];
      if levels > STACK_LIMIT then Done(Thrown(StackLimitExceeded))
      else if s[q + |w|] == ']' then Done(Parsed(q + |w| + 1, Arr(items')))
      else More(q + |w| + 1, items', "")
  {
    SeparatorToken(s, q, w);
  }

  /** A name and its colon. */
  lemma ParseName(f: Features, s: string, p: nat, height: nat,
                  members: seq<Entry<string, Value>>, last: string, field: Field)
    requires Spaces(field.space) && Spaces(field.beforeColon) && field.quoted == Quote(field.name)
    requires NameAt(s, p, field)
    ensures MemberRound(f, s, p, height, members, last) ==
      NamedMemberRound(f, s, p + NameLength(field), height, members, field.name)
  {
    var q := p + |field.space|;
    var end := q + |field.quoted|;
    QuotedToken(s, p, field.space, field.quoted, field.name);
    ColonToken(s, end, field.beforeColon);
    NameThenColon(f, s, p, height, members, last, Token(StringToken, q, end), field.name, p + NameLength(field));
  }

  lemma ColonToken(s: string, p: nat, w: string)
    requires At(s, p, w) && Spaces(w) && CharAt(s, p + |w|, ':')
    ensures p <= |s| && ReadToken(s, p) == Token(MemberSeparator, p + |w|, p + |w| + 1)
  {
    TokenAfterSpaces(s, p, w);
  }

  lemma NameThenColon(f: Features, s: string, p: nat, height: nat,
                      members: seq<Entry<string, Value>>, last: string,
                      token: Token, name: string, v: nat)
    requires p <= |s| && NextToken(s, p) == token && token.kind == StringToken && TokenText(s, token) == Named(name)
    requires ReadToken(s, token.end).kind == MemberSeparator && ReadToken(s, token.end).end == v
    ensures MemberRound(f, s, p, height, members, last) == NamedMemberRound(f, s, v, height, members, name)
  {
  }

  /** One round of the member loop behind a name and its colon, by the outcome of the value and the
      separator behind it. */
  lemma MemberStep(f: Features, s: string, height: nat, members: seq<Entry<string, Value>>,
                   v: nat, name: string, levels: nat, q: nat, value: Value, w: string, next: nat)
    requires v <= |s|
    requires ReadValue(f, s, v, height + 1, Find(members, Key(name)).GetOr(Null)) == Bounded(levels, Parsed(q, value))
    requires At(s, q, w) && Spaces(w) && next == q + |w| + 1 && next <= |s| && s[next - 1] in {',', '}'}
    ensures NamedMemberRound(f, s, v, height, members, name) ==
      FieldRound(levels, s[next - 1] == '}', next, Insert(members, Key(name), value), name)
  {
    SeparatorToken(s, q, w);
  }

  lemma {:induction false} ParseFields(f: Features, s: string, p: nat, height: nat,
                                       members: seq<Entry<string, Value>>, last: string, fs: seq<Field>, r: Outcome)
    requires fs != [] && FieldsWellFormed(fs, f.allowDroppedNullPlaceholders)
    requires FieldsAt(s, p, fs) && height <= STACK_LIMIT
    requires p <= |s| && r == ReadMembers(f, s, p, height, members, last)
    ensures r == FieldsOutcome(members, fs, p, height)
    decreases fs, 4
  {
    ParseFirstField(f, s, p, height, members, last, fs, r);
    if height + 1 + Height(fs[0].tree) > STACK_LIMIT {
      FieldsTooDeep(members, fs, p, height);
    } else if |fs| == 1 {
      LastField(members, fs, p, height);
    } else {
      ParseOtherFields(f, s, p, height, members, fs, r);
    }
  }

  /** The first field and what follows it. */
  lemma {:induction false} ParseFirstField(f: Features, s: string, p: nat, height: nat,
                                           members: seq<Entry<string, Value>>, last: string, fs: seq<Field>, r: Outcome)
    requires fs != [] && FieldsWellFormed(fs, f.allowDroppedNullPlaceholders)
    requires FieldsAt(s, p, fs) && height <= STACK_LIMIT
    requires p <= |s| && r == ReadMembers(f, s, p, height, members, last)
    ensures
      if height + 1 + Height(fs[0].tree) > STACK_LIMIT then r == Thrown(StackLimitExceeded)
      else if |fs| == 1 then r == Parsed(NextField(fs, p), Obj(FirstAdded(members, fs)))
      else (
        && NextField(fs, p) <= |s|
        && r == ReadMembers(f, s, NextField(fs, p), height, FirstAdded(members, fs), fs[0].name))
    decreases fs, 2
  {
    FirstFieldRound(f, s, p, height, members, last, fs);
    MembersLoop(f, s, p, height, members, last, MemberRound(f, s, p, height, members, last));
  }

  /** Behind the first field and its comma. */
  lemma {:induction false} ParseOtherFields(f: Features, s: string, p: nat, height: nat,
                                            members: seq<Entry<string, Value>>, fs: seq<Field>, r: Outcome)
    requires |fs| > 1 && FieldsWellFormed(fs, f.allowDroppedNullPlaceholders) && FieldsAt(s, p, fs)
    requires height + 1 + Height(fs[0].tree) <= STACK_LIMIT && NextField(fs, p) <= |s|
    requires r == ReadMembers(f, s, NextField(fs, p), height, FirstAdded(members, fs), fs[0].name)
    ensures r == FieldsOutcome(members, fs, p, height)
    decreases fs, 2
  {
    FieldsTail(f, s, p, fs);
    ParseFields(f, s, NextField(fs, p), height, FirstAdded(members, fs), fs[0].name, fs[1..], r);
    MoreFields(members, fs, p, height);
  }

  /** The position behind the first field and what separates it from the next one. */
  function NextField(fs: seq<Field>, p: nat): nat
    requires fs != []
  {
    p + NameLength(fs[0]) + TreeLength(fs[0].tree) + |fs[0].after| + 1
  }

  function FirstAdded(members: seq<Entry<string, Value>>, fs: seq<Field>): seq<Entry<string, Value>>
    requires fs != []
  {
    Insert(members, Key(fs[0].name), TreeValue(fs[0].tree))
  }

  lemma FieldsTooDeep(members: seq<Entry<string, Value>>, fs: seq<Field>, p: nat, height: nat)
    requires fs != [] && height + 1 + Height(fs[0].tree) > STACK_LIMIT
    ensures FieldsOutcome(members, fs, p, height) == Thrown(StackLimitExceeded)
  {
  }

  lemma LastField(members: seq<Entry<string, Value>>, fs: seq<Field>, p: nat, height: nat)
    requires |fs| == 1 && height + 1 + Height(fs[0].tree) <= STACK_LIMIT
    ensures FieldsOutcome(members, fs, p, height) == Parsed(NextField(fs, p), Obj(FirstAdded(members, fs)))
  {
    assert FieldsHeight(fs[1..]) == 0 && AddFields(FirstAdded(members, fs), fs[1..]) == FirstAdded(members, fs);
    assert p + FieldsLength(fs) + 1 == NextField(fs, p);
    assert FieldsHeight(fs) == Height(fs[0].tree) && AddFields(members, fs) == FirstAdded(members, fs);
  }

  lemma MoreFields(members: seq<Entry<string, Value>>, fs: seq<Field>, p: nat, height: nat)
    requires |fs| > 1 && height + 1 + Height(fs[0].tree) <= STACK_LIMIT
    ensures FieldsOutcome(members, fs, p, height) ==
      FieldsOutcome(FirstAdded(members, fs), fs[1..], NextField(fs, p), height)
  {
    var h, rest := Height(fs[0].tree), FieldsHeight(fs[1..]);
    assert FieldsHeight(fs) == if h < rest then rest else h;
    assert p + FieldsLength(fs) == NextField(fs, p) + FieldsLength(fs[1..]);
    assert AddFields(members, fs) == AddFields(FirstAdded(members, fs), fs[1..]);
  }

  lemma FieldsHead(f: Features, s: string, p: nat, fs: seq<Field>)
    requires fs != [] && FieldsWellFormed(fs, f.allowDroppedNullPlaceholders) && FieldsAt(s, p, fs)
    ensures var v := p + NameLength(fs[0]);
      && WellFormed(fs[0].tree, f.allowDroppedNullPlaceholders) && Spaces(fs[0].after)
      && (fs[0].tree.Dropped? ==> fs[0].after == "")
      && Spaces(fs[0].space) && Spaces(fs[0].beforeColon) && fs[0].quoted == Quote(fs[0].name)
      && NameAt(s, p, fs[0]) && TreeAt(s, v, fs[0].tree) && At(s, v + TreeLength(fs[0].tree), fs[0].after)
      && CharAt(s, NextField(fs, p) - 1, if |fs| == 1 then '}' else ',')
  {
    assert FirstFieldWellFormed(fs, f.allowDroppedNullPlaceholders) && FirstFieldAt(s, p, fs);
  }

  lemma FieldsTail(f: Features, s: string, p: nat, fs: seq<Field>)
    requires fs != [] && FieldsWellFormed(fs, f.allowDroppedNullPlaceholders) && FieldsAt(s, p, fs)
    ensures FieldsWellFormed(fs[1..], f.allowDroppedNullPlaceholders)
    ensures |fs| > 1 ==> FieldsAt(s, NextField(fs, p), fs[1..])
  {
    assert FirstFieldWellFormed(fs, f.allowDroppedNullPlaceholders) && FirstFieldAt(s, p, fs);
  }

  lemma {:induction false} FirstFieldRound(f: Features, s: string, p: nat, height: nat,
                                           members: seq<Entry<string, Value>>, last: string, fs: seq<Field>)
    requires fs != [] && FieldsWellFormed(fs, f.allowDroppedNullPlaceholders)
    requires FieldsAt(s, p, fs) && height <= STACK_LIMIT && p <= |s|
    ensures MemberRound(f, s, p, height, members, last) ==
      FieldRound(height + 1 + Height(fs[0].tree), |fs| == 1, NextField(fs, p), FirstAdded(members, fs), fs[0].name)
    decreases fs, 1
  {
    FirstName(f, s, p, height, members, last, fs);
    FirstValue(f, s, p, height, members, fs);
  }

  lemma FirstName(f: Features, s: string, p: nat, height: nat,
                  members: seq<Entry<string, Value>>, last: string, fs: seq<Field>)
    requires fs != [] && FieldsWellFormed(fs, f.allowDroppedNullPlaceholders) && FieldsAt(s, p, fs) && p <= |s|
    ensures p + NameLength(fs[0]) <= |s|
    ensures MemberRound(f, s, p, height, members, last) ==
      NamedMemberRound(f, s, p + NameLength(fs[0]), height, members, fs[0].name)
  {
    FirstNameAt(f, s, p, fs);
    ParseName(f, s, p, height, members, last, fs[0]);
  }

  lemma FirstNameAt(f: Features, s: string, p: nat, fs: seq<Field>)
    requires fs != [] && FieldsWellFormed(fs, f.allowDroppedNullPlaceholders) && FieldsAt(s, p, fs)
    ensures Spaces(fs[0].space) && Spaces(fs[0].beforeColon) && fs[0].quoted == Quote(fs[0].name)
    ensures NameAt(s, p, fs[0]) && p + NameLength(fs[0]) <= |s|
  {
    assert FirstFieldWellFormed(fs, f.allowDroppedNullPlaceholders) && FirstFieldAt(s, p, fs);
  }

  lemma {:induction false} FirstValue(f: Features, s: string, p: nat, height: nat,
                                      members: seq<Entry<string, Value>>, fs: seq<Field>)
    requires fs != [] && FieldsWellFormed(fs, f.allowDroppedNullPlaceholders)
    requires FieldsAt(s, p, fs) && height <= STACK_LIMIT && p + NameLength(fs[0]) <= |s|
    ensures NamedMemberRound(f, s, p + NameLength(fs[0]), height, members, fs[0].name) ==
      FieldRound(height + 1 + Height(fs[0].tree), |fs| == 1, NextField(fs, p), FirstAdded(members, fs), fs[0].name)
    decreases fs, 0
  {
    FieldsHead(f, s, p, fs);
    assert fs[0].tree < fs[0];
    ParseField(f, s, height, members, p + NameLength(fs[0]), fs[0].name, fs[0].tree, fs[0].after, NextField(fs, p));
  }

  lemma MembersLoop(f: Features, s: string, p: nat, height: nat,
                    members: seq<Entry<string, Value>>, last: string, round: Round<string>)
    requires p <= |s| && round == MemberRound(f, s, p, height, members, last)
    ensures ReadMembers(f, s, p, height, members, last) ==
      match round {
        case Done(outcome) => outcome
        case More(q, members', name) => ReadMembers(f, s, q, height, members', name)
      }
  {
  }

  /** The value of a field at `v` and the separator behind it, up to `next`. */
  lemma {:induction false} ParseField(f: Features, s: string, height: nat, members: seq<Entry<string, Value>>,
                                      v: nat, name: string, t: Tree, a: string, next: nat)
    requires v <= |s| && height <= STACK_LIMIT
    requires WellFormed(t, f.allowDroppedNullPlaceholders) && Spaces(a) && (t.Dropped? ==> a == "")
    requires TreeAt(s, v, t) && At(s, v + TreeLength(t), a)
    requires next == v + TreeLength(t) + |a| + 1 && (CharAt(s, next - 1, '}') || CharAt(s, next - 1, ','))
    ensures NamedMemberRound(f, s, v, height, members, name) ==
      FieldRound(height + 1 + Height(t), s[next - 1] == '}', next, Insert(members, Key(name), TreeValue(t)), name)
    decreases t, 4
  {
    ParseChild(f, s, v, height, Find(members, Key(name)).GetOr(Null), t, a);
    MemberStep(f, s, height, members, v, name, height + 1 + Height(t), v + TreeLength(t), TreeValue(t), a, next);
  }

  /** How a round of the member loop ends that needs `levels` entries on the node stack. */
  function FieldRound(levels: nat, last: bool, next: nat, members: seq<Entry<string, Value>>,
                      name: string): Round<string> {
    if levels > STACK_LIMIT then Done(Thrown(StackLimitExceeded))
    else if last then Done(Parsed(next, Obj(members)))
    else More(next, members, name)
  }

  lemma SeparatorFollows(f: Features, t: Tree, s: string, q: nat, a: string)
    requires WellFormed(t, f.allowDroppedNullPlaceholders) && Spaces(a) && (t.Dropped? ==> a == "")
    requires At(s, q, a) && q + |a| < |s| && Separator(s[q + |a|])
    ensures Followed(f, t, s, q)
  {
    StopsAt(s, q, a);
  }

  /** The value of an element or a member at `v`, one level deeper, with white space and a separator behind it. */
  lemma {:induction false} ParseChild(f: Features, s: string, v: nat, height: nat, old_: Value, t: Tree, a: string)
    requires WellFormed(t, f.allowDroppedNullPlaceholders) && TreeAt(s, v, t) && v <= |s|
    requires Spaces(a) && (t.Dropped? ==> a == "") && At(s, v + TreeLength(t), a)
    requires v + TreeLength(t) + |a| < |s| && Separator(s[v + TreeLength(t) + |a|])
    ensures ReadValue(f, s, v, height + 1, old_) == TreeOutcome(t, v, height + 1)
    decreases t, 3
  {
    SeparatorFollows(f, t, s, v + TreeLength(t), a);
    ParseTree(f, s, v, height + 1, old_, t, ReadValue(f, s, v, height + 1, old_));
  }

  lemma EmptyObject(f: Features, s: string, p: nat, height: nat)
    requires CharAt(s, p, '}')
    ensures ReadMembers(f, s, p, height, [], "") == Parsed(p + 1, Obj([]))
  {
    SeparatorToken(s, p, "");
  }

  // ----- trees that grow at the end, as the writers produce them -----

  function Max(a: nat, b: nat): nat {
    if a < b then b else a
  }

  lemma {:induction false} ElementsSnoc(es: seq<Element>, e: Element, items: seq<Entry<nat, Value>>, drop: bool)
    ensures ElementsText(es + [e]) == ElementsText(es) + (if es == [] then "" else ",") + (TreeText(e.tree) + e.after)
    ensures ElementsHeight(es + [e]) == Max(ElementsHeight(es), Height(e.tree))
    ensures AddElements(items, es + [e]) == AddElements(items, es) + [Entry(|items| + |es|, TreeValue(e.tree))]
    ensures ElementsWellFormed(es + [e], drop) <==>
      (ElementsWellFormed(es, drop) && WellFormed(e.tree, drop) && Spaces(e.after) &&
        (e.tree.Dropped? ==> e.after == ""))
    decreases |es|
  {
    if es == [] {
      assert es + [e] == [e];
      assert [e][1..] == [];
    } else {
      assert (es + [e])[1..] == es[1..] + [e];
      ElementsSnoc(es[1..], e, items + [Entry(|items|, TreeValue(es[0].tree))], drop);
      ElementsTextSnoc(es, e);
    }
  }

  lemma {:induction false} ElementsTextSnoc(es: seq<Element>, e: Element)
    requires es != []
    requires ElementsText(es[1..] + [e]) ==
      ElementsText(es[1..]) + (if es[1..] == [] then "" else ",") + (TreeText(e.tree) + e.after)
    ensures ElementsText(es + [e]) == ElementsText(es) + "," + (TreeText(e.tree) + e.after)
  {
    assert (es + [e])[1..] == es[1..] + [e];
    var t, a, x := TreeText(es[0].tree), es[0].after, TreeText(e.tree) + e.after;
    assert ElementsText(es + [e]) == t + (a + ("," + ElementsText(es[1..] + [e])));
    if |es| == 1 {
      assert ElementsText(es[1..] + [e]) == x;
      assert t + (a + ("," + x)) == (t + (a + "")) + "," + x;
    } else {
      var rest := ElementsText(es[1..]);
      assert t + (a + ("," + (rest + "," + x))) == (t + (a + ("," + rest))) + "," + x;
    }
  }

  lemma {:induction false} FieldsSnoc(fs: seq<Field>, e: Field, members: seq<Entry<string, Value>>, drop: bool)
    ensures FieldsText(fs + [e]) == FieldsText(fs) + (if fs == [] then "" else ",") +
      (e.space + (e.quoted + (e.beforeColon + (":" + (TreeText(e.tree) + e.after)))))
    ensures FieldsHeight(fs + [e]) == Max(FieldsHeight(fs), Height(e.tree))
    ensures AddFields(members, fs + [e]) == Insert(AddFields(members, fs), Key(e.name), TreeValue(e.tree))
    ensures FieldsWellFormed(fs + [e], drop) <==>
      (FieldsWellFormed(fs, drop) && WellFormed(e.tree, drop) && Spaces(e.after) && (e.tree.Dropped? ==> e.after == "")
      && Spaces(e.space) && Spaces(e.beforeColon) && e.quoted == Quote(e.name))
    decreases |fs|
  {
    if fs == [] {
      assert fs + [e] == [e];
      assert [e][1..] == [];
      assert FieldsWellFormed([e], drop) == FirstFieldWellFormed([e], drop);
    } else {
      assert (fs + [e])[1..] == fs[1..] + [e];
      FieldsSnoc(fs[1..], e, Insert(members, Key(fs[0].name), TreeValue(fs[0].tree)), drop);
      FieldsTextSnoc(fs, e);
      assert FieldsWellFormed(fs + [e], drop) == FirstFieldWellFormed(fs + [e], drop);
      assert FieldsWellFormed(fs, drop) == FirstFieldWellFormed(fs, drop);
    }
  }

  lemma {:induction false} FieldsTextSnoc(fs: seq<Field>, e: Field)
    requires fs != []
    requires FieldsText(fs[1..] + [e]) == FieldsText(fs[1..]) + (if fs[1..] == [] then "" else ",") +
      (e.space + (e.quoted + (e.beforeColon + (":" + (TreeText(e.tree) + e.after)))))
    ensures FieldsText(fs + [e]) == FieldsText(fs) + "," +
      (e.space + (e.quoted + (e.beforeColon + (":" + (TreeText(e.tree) + e.after)))))
  {
    assert (fs + [e])[1..] == fs[1..] + [e];
    var x := e.space + (e.quoted + (e.beforeColon + (":" + (TreeText(e.tree) + e.after))));
    var w, n, c, t, a := fs[0].space, fs[0].quoted, fs[0].beforeColon, TreeText(fs[0].tree), fs[0].after;
    var rest := if |fs| == 1 then "" else "," + FieldsText(fs[1..]);
    assert "," + FieldsText(fs[1..] + [e]) == rest + ("," + x);
    PushRight(w, n, c, t, a, rest, "," + x);
  }

  lemma PushRight(w: string, n: string, c: string, t: string, a: string, rest: string, x: string)
    ensures w + (n + (c + (":" + (t + (a + (rest + x)))))) == (w + (n + (c + (":" + (t + (a + rest)))))) + x
  {
    assert t + (a + (rest + x)) == (t + (a + rest)) + x;
    assert c + (":" + ((t + (a + rest)) + x)) == (c + (":" + (t + (a + rest)))) + x;
    assert w + (n + ((c + (":" + (t + (a + rest)))) + x)) == (w + (n + (c + (":" + (t + (a + rest)))))) + x;
  }

  /** `es` prints as `text`, reads as `items` and nests `height` deep. */
  predicate ElementsShow(es: seq<Element>, drop: bool, text: string, items: seq<Entry<nat, Value>>, height: nat) {
    && ElementsText(es) == text && ElementsWellFormed(es, drop)
    && AddElements([], es) == items && |items| == |es| && ElementsHeight(es) == height
  }

  lemma ElementsShowSnoc(es: seq<Element>, e: Element, drop: bool,
                         text: string, items: seq<Entry<nat, Value>>, height: nat)
    requires ElementsShow(es, drop, text, items, height)
    requires WellFormed(e.tree, drop) && Spaces(e.after) && (e.tree.Dropped? ==> e.after == "")
    ensures ElementsShow(es + [e], drop, text + (if es == [] then "" else ",") + (TreeText(e.tree) + e.after),
                         items + [Entry(|es|, TreeValue(e.tree))], Max(height, Height(e.tree)))
  {
    ElementsSnoc(es, e, [], drop);
  }

  /** `fs` prints as `text`, reads as `members` and nests `height` deep. */
  predicate FieldsShow(fs: seq<Field>, drop: bool, text: string, members: seq<Entry<string, Value>>, height: nat) {
    && FieldsText(fs) == text && FieldsWellFormed(fs, drop)
    && AddFields([], fs) == members && FieldsHeight(fs) == height
  }

  lemma FieldsShowSnoc(fs: seq<Field>, e: Field, drop: bool,
                       text: string, members: seq<Entry<string, Value>>, height: nat)
    requires FieldsShow(fs, drop, text, members, height)
    requires WellFormed(e.tree, drop) && Spaces(e.after) && (e.tree.Dropped? ==> e.after == "")
    requires Spaces(e.space) && Spaces(e.beforeColon) && e.quoted == Quote(e.name)
    ensures FieldsShow(fs + [e], drop, text + (if fs == [] then "" else ",") +
                       (e.space + (e.quoted + (e.beforeColon + (":" + (TreeText(e.tree) + e.after))))),
                       Insert(members, Key(e.name), TreeValue(e.tree)), Max(height, Height(e.tree)))
  {
    FieldsSnoc(fs, e, [], drop);
  }
}

/** What the tokens of the reader and the gaps between them look like. */
module JsonShapes {
  import opened Text
  import opened JsonNumbers
  import opened JsonStrings
  import opened JsonTokens
  import opened JsonSlices
  import opened JsonLexemes

  // ----- numbers -----

  predicate Digits(x: string) {
    forall i :: 0 <= i < |x| ==> '0' <= x[i] <= '9'
  }

  predicate Fraction(x: string) {
    x == "" || (x[0] == '.' && Digits(x[1..]))
  }

  predicate Exponent(x: string) {
    x == "" || (x[0] in "eE" && (Digits(x[1..]) || (|x| > 1 && x[1] in "+-" && Digits(x[2..]))))
  }

  /** A minus or a digit, more digits, a fraction and an exponent. Digits may be missing everywhere. */
  ghost predicate NumberShape(x: string) {
    exists first: char, digits: string, fraction: string, exponent: string ::
      NumberOfParts(x, first, digits, fraction, exponent)
  }

  predicate NumberOfParts(x: string, first: char, digits: string, fraction: string, exponent: string) {
    && x == [first] + digits + (fraction + exponent) && (first == '-' || Digits([first]))
    && Digits(digits) && Fraction(fraction) && Exponent(exponent)
  }

  lemma {:induction false} SkipsDigits(s: string, p: nat, q: nat)
    requires p <= q <= |s|
    ensures SkipDigits(s, p) == q <==> Digits(s[p..q]) && (q < |s| ==> !IsDigit(s[q]))
    decreases |s| - p
  {
    if p < q {
      assert s[p..q][0] == s[p];
      if IsDigit(s[p]) {
        SkipsDigits(s, p + 1, q);
        assert s[p..q] == [s[p]] + s[p + 1..q];
      }
    }
  }

  lemma FractionEnds(s: string, p: nat, q: nat)
    requires p <= q <= |s| && (q < |s| ==> !IsDigit(s[q]) && s[q] != '.')
    ensures FractionEnd(s, p) == q <==> Fraction(s[p..q])
  {
    if p < |s| && s[p] == '.' {
      if p < q {
        SkipsDigits(s, p + 1, q);
        assert s[p..q][1..] == s[p + 1..q];
      }
    } else if p < q {
      assert s[p..q][0] == s[p];
    }
  }

  lemma ExponentEnds(s: string, p: nat)
    requires p <= |s|
    ensures ExponentEnd(s, p) == |s| <==> Exponent(s[p..])
  {
    if p < |s| {
      assert s[p..][0] == s[p];
      SkipsDigits(s, p + 1, |s|);
      Behind(s, p, 1);
      if p + 1 < |s| {
        assert s[p..][1] == s[p + 1];
        SkipsDigits(s, p + 2, |s|);
        Behind(s, p, 2);
      }
    }
  }

  lemma Behind(s: string, p: nat, k: nat)
    requires p + k <= |s|
    ensures s[p..][k..] == s[p + k..] == s[p + k..|s|]
  {
  }

  /** A number token is read to its end exactly if it has this shape. */
  lemma NumberExactly(x: string)
    requires x != ""
    ensures (x[0] == '-' || IsDigit(x[0])) && NumberEnd(x, 1) == |x| <==> NumberShape(x)
  {
    if (x[0] == '-' || IsDigit(x[0])) && NumberEnd(x, 1) == |x| {
      NumberParts(x);
    }
    if NumberShape(x) {
      var first: char, digits: string, fraction: string, exponent: string :|
        NumberOfParts(x, first, digits, fraction, exponent);
      NumberReads(x, first, digits, fraction, exponent);
    }
  }

  lemma NumberParts(x: string)
    requires x != "" && (x[0] == '-' || IsDigit(x[0])) && NumberEnd(x, 1) == |x|
    ensures NumberShape(x)
  {
    var d := SkipDigits(x, 1);
    var e := FractionEnd(x, d);
    SkipsDigits(x, 1, d);
    ExponentEnds(x, e);
    FractionPart(x, d, e);
    FourParts(x, d, e);
    PartsMake(x, x[0], x[1..d], x[d..e], x[e..]);
  }

  lemma PartsMake(x: string, first: char, digits: string, fraction: string, exponent: string)
    requires NumberOfParts(x, first, digits, fraction, exponent)
    ensures NumberShape(x)
  {
  }

  lemma FourParts(x: string, d: nat, e: nat)
    requires 1 <= d <= e <= |x|
    ensures x == [x[0]] + x[1..d] + (x[d..e] + x[e..])
    ensures Digits([x[0]]) <==> IsDigit(x[0])
  {
    assert [x[0]][0] == x[0];
  }

  lemma FractionPart(x: string, d: nat, e: nat)
    requires d <= |x| && e == FractionEnd(x, d)
    ensures Fraction(x[d..e])
  {
    if d < |x| && x[d] == '.' {
      SkipsDigits(x, d + 1, e);
      assert x[d..e][1..] == x[d + 1..e];
    }
  }

  lemma NumberReads(x: string, first: char, digits: string, fraction: string, exponent: string)
    requires NumberOfParts(x, first, digits, fraction, exponent)
    ensures x != "" && (x[0] == '-' || IsDigit(x[0])) && NumberEnd(x, 1) == |x|
  {
    var d := 1 + |digits|;
    var e := d + |fraction|;
    assert x[1..d] == digits && x[d..e] == fraction && x[e..] == exponent && x[0] == first;
    assert Digits([first]) ==> [first][0] == first && IsDigit(first);
    assert d < |x| ==> x[d] == (fraction + exponent)[0];
    SkipsDigits(x, 1, d);
    assert e < |x| ==> x[e] == exponent[0];
    FractionEnds(x, d, e);
    ExponentEnds(x, e);
  }

  // ----- strings -----

  /** The contents of a string token: a backslash takes the next character with it. */
  predicate Contents(body: string) {
    body == "" ||
    (body[0] != '\"' && body[0] != '\\' && Contents(body[1..])) ||
    (|body| > 1 && body[0] == '\\' && Contents(body[2..]))
  }

  lemma {:induction false} StringExactly(s: string, p: nat, q: nat)
    requires p < q <= |s|
    ensures StringEnd(s, p) == (true, q) <==> s[q - 1] == '\"' && Contents(s[p..q - 1])
    decreases q - p
  {
    var body := s[p..q - 1];
    if p == q - 1 {
      StringGoesOn(s, p);
    } else {
      assert body[0] == s[p] && body[1..] == s[p + 1..q - 1];
      if s[p] == '\\' {
        if p + 1 == q - 1 {
          assert |body| == 1;
          StringGoesOn(s, p);
        } else {
          assert body[2..] == s[p + 2..q - 1];
          StringExactly(s, p + 2, q);
        }
      } else if s[p] != '\"' {
        StringExactly(s, p + 1, q);
      }
    }
  }

  lemma StringGoesOn(s: string, p: nat)
    requires p < |s|
    ensures StringEnd(s, p) == (true, p + 1) <==> s[p] == '\"'
    ensures s[p] == '\\' && p + 1 < |s| ==> StringEnd(s, p) != (true, p + 2)
  {
  }

  // ----- lexemes -----

  ghost predicate Shape(kind: Kind, x: string) {
    match kind
    case ObjectBegin => x == "{"
    case ObjectEnd => x == "}"
    case ArrayBegin => x == "["
    case ArrayEnd => x == "]"
    case ArraySeparator => x == ","
    case MemberSeparator => x == ":"
    case TrueToken => x == "true"
    case FalseToken => x == "false"
    case NullToken => x == "null"
    case NumberToken => x != "" && NumberShape(x)
    case StringToken => |x| >= 2 && x[0] == x[|x| - 1] == '\"' && Contents(x[1..|x| - 1])
    case _ => false
  }

  /** These are the tokens in order. */
  lemma LexemeExactly(kind: Kind, x: string)
    ensures Lexeme(kind, x) <==> Shape(kind, x)
  {
    TokenStart(x, 0);
    if x != "" && !Space(x[0]) {
      assert ReadToken(x, 0) == TokenAt(x, 0);
      if x[0] == '\"' {
        StringLexeme(kind, x);
      } else if IsDigit(x[0]) || x[0] == '-' {
        NumberLexeme(kind, x);
      } else if x[0] in {'t', 'f', 'n'} {
        WordLexeme(kind, x);
      } else {
        OtherLexeme(kind, x);
      }
    } else {
      NoLexeme(kind, x);
    }
  }

  /** The kinds of shape that a text with this first character has. */
  lemma ShapeStart(kind: Kind, x: string)
    requires Shape(kind, x)
    ensures x != "" && !Space(x[0])
    ensures kind == StringToken <==> x[0] == '\"'
    ensures kind == NumberToken <==> IsDigit(x[0]) || x[0] == '-'
    ensures kind in {TrueToken, FalseToken, NullToken} <==> x[0] in {'t', 'f', 'n'}
  {
    if kind == NumberToken {
      NumberExactly(x);
    }
  }

  lemma NoLexeme(kind: Kind, x: string)
    requires x == "" || Space(x[0])
    ensures !Lexeme(kind, x) && !Shape(kind, x)
  {
    TokenStart(x, 0);
    if Shape(kind, x) {
      ShapeStart(kind, x);
    }
  }

  lemma StringLexeme(kind: Kind, x: string)
    requires x != "" && x[0] == '\"' && ReadToken(x, 0) == TokenAt(x, 0)
    ensures Lexeme(kind, x) <==> Shape(kind, x)
  {
    if Shape(kind, x) {
      ShapeStart(kind, x);
    }
    if |x| >= 2 {
      StringExactly(x, 1, |x|);
    }
  }

  lemma NumberLexeme(kind: Kind, x: string)
    requires x != "" && (IsDigit(x[0]) || x[0] == '-') && ReadToken(x, 0) == TokenAt(x, 0)
    ensures Lexeme(kind, x) <==> Shape(kind, x)
  {
    if Shape(kind, x) {
      ShapeStart(kind, x);
    }
    NumberStart(x, 0);
    NumberExactly(x);
  }

  lemma WordLexeme(kind: Kind, x: string)
    requires x != "" && x[0] in {'t', 'f', 'n'} && ReadToken(x, 0) == TokenAt(x, 0)
    ensures Lexeme(kind, x) <==> Shape(kind, x)
  {
    var rest, word := WordRead(x);
    OneWord(kind, x, rest, word);
    WordShape(kind, x, rest, word);
  }

  lemma WordShape(kind: Kind, x: string, rest: string, word: Kind)
    requires x != "" && x[0] in {'t', 'f', 'n'}
    requires (rest, word) == if x[0] == 't' then ("rue", TrueToken) else if x[0] == 'f' then ("alse", FalseToken)
      else ("ull", NullToken)
    ensures Shape(kind, x) <==> kind == word && x == [x[0]] + rest
  {
    if Shape(kind, x) {
      ShapeStart(kind, x);
    }
    assert [x[0]] + rest == if x[0] == 't' then "true" else if x[0] == 'f' then "false" else "null";
  }

  lemma WordRead(x: string) returns (rest: string, word: Kind)
    requires x != "" && x[0] in {'t', 'f', 'n'}
    ensures (rest, word) == if x[0] == 't' then ("rue", TrueToken) else if x[0] == 'f' then ("alse", FalseToken)
      else ("ull", NullToken)
    ensures TokenAt(x, 0) == Checked(word, 0, WordEnd(x, 1, rest))
  {
    rest, word := if x[0] == 't' then "rue" else if x[0] == 'f' then "alse" else "ull",
      if x[0] == 't' then TrueToken else if x[0] == 'f' then FalseToken else NullToken;
  }

  lemma OneWord(kind: Kind, x: string, rest: string, word: Kind)
    requires x != "" && rest != "" && word in {TrueToken, FalseToken, NullToken}
    requires ReadToken(x, 0) == Checked(word, 0, WordEnd(x, 1, rest))
    ensures Lexeme(kind, x) <==> kind == word && x == [x[0]] + rest
  {
    AtSlice(x, 1, rest);
    if |x| == 1 + |rest| {
      assert x == [x[0]] + x[1..] && x[1..] == x[1..1 + |rest|];
    }
    if x == [x[0]] + rest {
      assert x[1..1 + |rest|] == rest;
    }
  }

  lemma OtherLexeme(kind: Kind, x: string)
    requires x != "" && !Space(x[0]) && x[0] !in {'\"', 't', 'f', 'n', '-'} && !IsDigit(x[0])
    requires ReadToken(x, 0) == TokenAt(x, 0)
    ensures Lexeme(kind, x) <==> Shape(kind, x)
  {
    if Shape(kind, x) {
      ShapeStart(kind, x);
    }
    if x[0] != '/' {
      SingleToken(x, 0);
      assert |x| == 1 ==> x == [x[0]];
    }
  }

  // ----- gaps -----

  /** A comment: up to the first closing mark, or to the end of its line. */
  predicate CommentShape(x: string) {
    || (|x| >= 4 && x[..2] == "/*" && x[|x| - 2..] == "*/" &&
        forall i :: 2 <= i < |x| - 2 ==> !(x[i] == '*' && x[i + 1] == '/'))
    || (|x| >= 3 && x[..2] == "//" && LineEnd(x, if |x| >= 4 && x[|x| - 2..] == "\r\n" then |x| - 2 else |x| - 1))
  }

  /** Only the characters from `n` on end the line. */
  predicate LineEnd(x: string, n: nat)
    requires 2 <= n < |x|
  {
    x[n] in "\r\n" && forall i :: 2 <= i < n ==> x[i] !in "\r\n"
  }

  /** White space and comments one behind the other; a carriage return and a line feed belong together. */
  ghost predicate GapShape(w: string)
    decreases |w|
  {
    || w == ""
    || (w[0] in " \t\r\n" && GapShape(w[1..]))
    || exists n: nat :: CommentInFront(w, n) && GapShape(w[n..])
  }

  predicate CommentInFront(w: string, n: nat) {
    0 < n <= |w| && CommentShape(w[..n]) && !(n < |w| && w[n - 1] == '\r' && w[n] == '\n')
  }

  lemma {:induction false} CStyleExactly(s: string, p: nat, n: nat)
    requires p <= n - 2 && 2 <= n < |s|
    ensures CStyleStop(s, p) == n - 1 <==>
      s[n - 2] == '*' && s[n - 1] == '/' && forall i :: p <= i < n - 2 ==> !(s[i] == '*' && s[i + 1] == '/')
    decreases n - p
  {
    if !(s[p] == '*' && s[p + 1] == '/') {
      if p < n - 2 {
        CStyleExactly(s, p + 1, n);
      } else {
        StopBehind(s, p + 1);
      }
    }
  }

  /** The mark ends behind its first character. */
  lemma {:induction false} StopBehind(s: string, p: nat)
    requires p + 1 < |s|
    ensures CStyleStop(s, p) > p
    decreases |s| - p
  {
    if !(s[p] == '*' && s[p + 1] == '/') && p + 2 < |s| {
      StopBehind(s, p + 1);
    }
  }

  /** The line goes from `p` to its end in front of `n`. */
  predicate LineAt(s: string, p: nat, n: nat)
    requires n < |s|
  {
    && p < n && s[n - 1] in "\r\n" && !(s[n - 1] == '\r' && s[n] == '\n')
    && forall i :: p <= i < LineBreak(s, p, n) ==> s[i] !in "\r\n"
  }

  /** Where the characters stand that end the line in front of `n`. */
  function LineBreak(s: string, p: nat, n: nat): nat
    requires p < n <= |s|
  {
    if p + 2 <= n && s[n - 2] == '\r' && s[n - 1] == '\n' then n - 2 else n - 1
  }

  lemma {:induction false} CppStyleExactly(s: string, p: nat, n: nat)
    requires p <= n < |s|
    ensures CppStyleEnd(s, p) == n <==> LineAt(s, p, n)
    decreases |s| - p
  {
    if s[p] !in "\r\n" && p < n {
      CppStyleExactly(s, p + 1, n);
    }
  }

  /** A comment token in front of more text has the shape of a comment. */
  lemma CommentExactly(s: string, n: nat)
    requires 0 < n < |s| && !Space(s[0])
    ensures TokenAt(s, 0) == Token(CommentToken, 0, n) <==> CommentShape(s[..n]) && !(s[n - 1] == '\r' && s[n] == '\n')
  {
    if n >= 2 && s[0] == '/' && s[1] == '*' {
      BlockExactly(s, n);
    } else if n >= 2 && s[0] == '/' && s[1] == '/' {
      LineExactly(s, n);
    } else {
      NoComment(s, n);
    }
  }

  lemma NoComment(s: string, n: nat)
    requires 0 < n < |s| && !Space(s[0]) && !(n >= 2 && s[0] == '/' && s[1] in {'*', '/'})
    ensures TokenAt(s, 0) != Token(CommentToken, 0, n) && !CommentShape(s[..n])
  {
    if s[0] == '/' {
      SlashToken(s, n);
    } else {
      NoSlash(s);
    }
    if n >= 2 {
      assert s[..n][..2] == [s[0], s[1]];
    }
  }

  lemma SlashToken(s: string, n: nat)
    requires 0 < n < |s| && s[0] == '/' && !(n >= 2 && s[1] in {'*', '/'})
    ensures TokenAt(s, 0) != Token(CommentToken, 0, n)
  {
  }

  lemma NoSlash(s: string)
    requires s != "" && s[0] != '/' && !Space(s[0])
    ensures TokenAt(s, 0).kind != CommentToken
  {
    if IsDigit(s[0]) || s[0] == '-' {
      NumberStart(s, 0);
    } else if s[0] !in {'t', 'f', 'n', '\"'} {
      SingleToken(s, 0);
    }
  }

  lemma BlockExactly(s: string, n: nat)
    requires 2 <= n < |s| && s[0] == '/' && s[1] == '*'
    ensures TokenAt(s, 0) == Token(CommentToken, 0, n) <==> CommentShape(s[..n]) && !(s[n - 1] == '\r' && s[n] == '\n')
  {
    if 3 < |s| {
      StopBehind(s, 2);
    }
    if n >= 4 {
      CStyleExactly(s, 2, n);
      var x := s[..n];
      assert x[..2] == [s[0], s[1]] && x[n - 2..] == [s[n - 2], s[n - 1]];
      assert forall i :: 0 <= i < n ==> x[i] == s[i];
    }
  }

  lemma LineExactly(s: string, n: nat)
    requires 2 <= n < |s| && s[0] == '/' && s[1] == '/'
    ensures TokenAt(s, 0) == Token(CommentToken, 0, n) <==> CommentShape(s[..n]) && !(s[n - 1] == '\r' && s[n] == '\n')
  {
    CppStyleExactly(s, 2, n);
  }

  /** Behind `n` characters of a gap the rest of it is a gap. */
  lemma GapTail(w: string, n: nat)
    requires n <= |w|
    ensures NextToken(w + ",", n).start == |w| <==> Blank(w[n..])
  {
    var s, u, m := w + ",", w[n..] + ",", |w| - n;
    assert forall i :: n <= i < n + m ==> s[i] == u[i - n];
    assert Alike(s, n, u, 0, m) && Alike(u, 0, s, n, m);
    TokenStart(s, |w|);
    TokenStart(u, m);
    if NextToken(s, n).start == |w| {
      GapMoves(s, n, u, 0, m);
    }
    if Blank(w[n..]) {
      GapMoves(u, 0, s, n, m);
    }
  }

  /** Gaps are exactly the texts of this shape. */
  lemma {:induction false} GapExactly(w: string)
    ensures Blank(w) <==> GapShape(w)
    decreases |w|
  {
    var s := w + ",";
    TokenStart(s, 0);
    if w == "" {
    } else if Space(w[0]) {
      GapExactly(w[1..]);
      SpaceInFront(w);
    } else {
      if GapShape(w) {
        var n: nat :| CommentInFront(w, n) && GapShape(w[n..]);
        GapExactly(w[n..]);
        CommentFirst(w, n);
      }
      if Blank(w) {
        var n := FirstComment(w);
        GapExactly(w[n..]);
      }
    }
  }

  lemma SpaceInFront(w: string)
    requires w != "" && Space(w[0])
    ensures Blank(w) <==> Blank(w[1..])
    ensures forall n: nat :: !CommentInFront(w, n)
  {
    GapTail(w, 1);
    var s := w + ",";
    SpacesBeforeToken(s, 0);
    SpacesBeforeToken(s, 1);
    forall n: nat
      ensures !CommentInFront(w, n)
    {
      if CommentInFront(w, n) {
        CommentStart(w, n);
      }
    }
  }

  lemma CommentStart(w: string, n: nat)
    requires CommentInFront(w, n)
    ensures w[0] == '/'
  {
    assert w[..n][..2][0] == w[0];
  }

  lemma CommentFirst(w: string, n: nat)
    requires CommentInFront(w, n) && Blank(w[n..])
    ensures Blank(w)
  {
    var s := w + ",";
    assert s[..n] == w[..n];
    CommentStart(w, n);
    CommentExactly(s, n);
    TokenStart(s, 0);
    GapTail(w, n);
  }

  lemma FirstComment(w: string) returns (n: nat)
    requires Blank(w) && w != "" && !Space(w[0])
    ensures 0 < n && CommentInFront(w, n) && Blank(w[n..])
  {
    var s := w + ",";
    TokenStart(s, 0);
    n := TokenAt(s, 0).end;
    NextBehind(s, 0);
    CommentExactly(s, n);
    assert s[..n] == w[..n];
    GapTail(w, n);
  }

  // ----- what is left open at the end of a text -----

  lemma {:induction false} StopsAtLast(s: string, p: nat)
    requires p < |s| && forall i :: p <= i < |s| - 1 ==> !(s[i] == '*' && s[i + 1] == '/')
    ensures CStyleStop(s, p) == |s| - 1
    decreases |s| - p
  {
    if p + 1 < |s| {
      StopsAtLast(s, p + 1);
    }
  }

  /** A block comment that is not closed reaches to the end of the text. It passes for closed if the text
      ends in a slash. */
  lemma OpenBlock(s: string)
    requires |s| >= 2 && s[..2] == "/*" && forall i :: 2 <= i < |s| - 1 ==> !(s[i] == '*' && s[i + 1] == '/')
    ensures TokenAt(s, 0) == Token(if |s| > 2 && s[|s| - 1] == '/' then CommentToken else ErrorToken, 0, |s|)
  {
    assert s[0] == s[..2][0] && s[1] == s[..2][1];
    if |s| > 2 {
      StopsAtLast(s, 2);
    }
  }

  /** The string that starts the text ends in front of `q`. */
  predicate ClosesAt(s: string, q: nat) {
    1 < q <= |s| && s[q - 1] == '\"' && Contents(s[1..q - 1])
  }

  lemma QuoteCloses(s: string, q: nat)
    requires 1 <= |s| && StringEnd(s, 1) == (true, q)
    ensures ClosesAt(s, q)
  {
    StringExactly(s, 1, q);
  }

  /** A string without its closing quote reaches there too and is no string. */
  lemma OpenQuote(s: string)
    requires s != "" && s[0] == '\"' && forall q :: !ClosesAt(s, q)
    ensures TokenAt(s, 0) == Token(ErrorToken, 0, |s|)
  {
    if StringEnd(s, 1).0 {
      var q := StringEnd(s, 1).1;
      QuoteCloses(s, q);
    } else {
      OpenString(s, 1);
    }
  }
}

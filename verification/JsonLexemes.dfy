/** Tokens and the gaps between them as texts of their own, taken out of a document or put into one. */
module JsonLexemes {
  import opened Text
  import opened JsonNumbers
  import opened JsonStrings
  import opened JsonTokens
  import opened JsonLayout
  import opened JsonSlices

  /** The text is one token in order. */
  predicate Lexeme(kind: Kind, x: string) {
    kind !in {EndOfStream, ErrorToken, CommentToken} && ReadToken(x, 0) == Token(kind, 0, |x|)
  }

  /** Bytes that start no token, and a slash that starts no comment. */
  predicate Junk(x: string) {
    || (|x| == 1 && !Space(x[0]) && !IsDigit(x[0]) && x[0] !in {'{', '}', '[', ']', ',', ':', '\"', '/', '-'})
    || (|x| == 2 && x[0] == '/' && x[1] !in {'*', '/'})
  }

  /** White space and closed comments: in front of a comma all of it is skipped. */
  predicate Blank(w: string) {
    NextToken(w + ",", 0).start == |w|
  }

  /** What may stand behind a number in any text. */
  predicate Stop(c: char) {
    Space(c) || c in {'/', '\"', ',', ']', '}'}
  }

  // ----- parts of a text -----

  lemma PartConcat(s: string, a: string, b: string, p: nat)
    ensures Part(s, a + b, p) <==> Part(s, a, p) && Part(s, b, p + |a|)
  {
    if Part(s, a + b, p) {
      assert forall i :: 0 <= i < |a| ==> (a + b)[i] == a[i];
      assert forall i :: 0 <= i < |b| ==> (a + b)[|a| + i] == b[i];
    }
    if Part(s, a, p) && Part(s, b, p + |a|) {
      forall i | 0 <= i < |a + b|
        ensures (a + b)[i] == s[p + i]
      {
        if i >= |a| {
          assert (a + b)[i] == b[i - |a|];
        }
      }
    }
  }

  lemma {:induction false} PartAt(s: string, p: nat, t: string)
    ensures Part(s, t, p) <==> At(s, p, t)
    decreases |t|
  {
    if p + |t| <= |s| && t != "" {
      PartAt(s, p + 1, t[1..]);
      PartConcat(s, [t[0]], t[1..], p);
      assert [t[0]] + t[1..] == t;
      assert At(s, p, t) == AtNonempty(s, p, t);
    }
  }

  // ----- a lexeme in a text -----

  /** Where a token starts. */
  lemma {:induction false} TokenStart(s: string, p: nat)
    requires p <= |s|
    ensures ReadToken(s, p).start == SkipSpaces(s, p)
    ensures SkipSpaces(s, p) < |s| ==> ReadToken(s, p) == TokenAt(s, SkipSpaces(s, p))
    decreases |s| - p
  {
    if p < |s| && Space(s[p]) {
      assert ReadToken(s, p) == TokenAt(s, p) == ReadToken(s, p + 1);
      TokenStart(s, p + 1);
    }
  }

  lemma {:induction false} DigitsIn(s: string, x: string, a: nat, p: nat)
    requires Part(s, x, a) && p <= |x| && (a + |x| < |s| ==> !IsDigit(s[a + |x|]))
    ensures SkipDigits(s, a + p) == a + SkipDigits(x, p)
    decreases |x| - p
  {
    if p < |x| && IsDigit(x[p]) {
      DigitsIn(s, x, a, p + 1);
    }
  }

  lemma StopEndsNumber(s: string, x: string, a: nat)
    requires Part(s, x, a) && x != "" && NumberEnd(x, 1) == |x| && (a + |x| < |s| ==> Stop(s[a + |x|]))
    ensures NumberEnd(s, a + 1) == a + |x|
  {
    DigitsIn(s, x, a, 1);
    FractionIn(s, x, a, SkipDigits(x, 1));
    ExponentIn(s, x, a, FractionEnd(x, SkipDigits(x, 1)));
  }

  lemma FractionIn(s: string, x: string, a: nat, p: nat)
    requires Part(s, x, a) && p <= |x| && (a + |x| < |s| ==> Stop(s[a + |x|]))
    ensures FractionEnd(s, a + p) == a + FractionEnd(x, p)
  {
    if p < |x| && x[p] == '.' {
      DigitsIn(s, x, a, p + 1);
    }
  }

  lemma ExponentIn(s: string, x: string, a: nat, p: nat)
    requires Part(s, x, a) && p <= |x| && (a + |x| < |s| ==> Stop(s[a + |x|]))
    ensures ExponentEnd(s, a + p) == a + ExponentEnd(x, p)
  {
    if p < |x| && (x[p] == 'e' || x[p] == 'E') {
      DigitsIn(s, x, a, if p + 1 < |x| && (x[p + 1] == '+' || x[p + 1] == '-') then p + 2 else p + 1);
    }
  }

  lemma {:induction false} StringIn(s: string, x: string, a: nat, p: nat)
    requires Part(s, x, a) && p <= |x| && StringEnd(x, p).0
    ensures StringEnd(s, a + p) == (true, a + StringEnd(x, p).1)
    decreases |x| - p
  {
    if p < |x| {
      if x[p] == '\\' {
        StringIn(s, x, a, if p + 1 == |x| then p + 1 else p + 2);
      } else if x[p] != '\"' {
        StringIn(s, x, a, p + 1);
      }
    }
  }

  /** A lexeme is read as that token wherever it stands; a number must not go on behind it. */
  lemma LexemeIn(s: string, p: nat, kind: Kind, x: string)
    requires Lexeme(kind, x) && Part(s, x, p) && (kind == NumberToken ==> NumberEnd(s, p + 1) == p + |x|)
    ensures p < |s| && !Space(s[p]) && ReadToken(s, p) == TokenAt(s, p) == Token(kind, p, p + |x|)
  {
    TokenStart(x, 0);
    assert x != "" && x[0] == s[p];
    if x[0] == '\"' {
      StringIn(s, x, p, 1);
    } else if x[0] in {'t', 'f', 'n'} {
      TextInPart(s, x, p, 1, if x[0] == 't' then "rue" else if x[0] == 'f' then "alse" else "ull");
    }
  }

  /** Every token in order is a lexeme. */
  lemma LexemeOut(s: string, p: nat)
    requires p <= |s| && ReadToken(s, p).kind !in {EndOfStream, ErrorToken, CommentToken}
    ensures var t := ReadToken(s, p); Lexeme(t.kind, s[t.start..t.end]) && Part(s, s[t.start..t.end], t.start)
  {
    var t := ReadToken(s, p);
    TokenAgain(s, p);
    TokenInPart(s, s[t.start..t.end], t.start, 0);
  }

  lemma JunkIn(s: string, p: nat, x: string)
    requires Junk(x) && Part(s, x, p) && p + |x| < |s| && Stop(s[p + |x|])
    ensures p < |s| && !Space(s[p]) && TokenAt(s, p).kind in {EndOfStream, ErrorToken} && TokenAt(s, p).end == p + |x|
  {
    assert x[0] == s[p];
    if x[0] in {'t', 'f', 'n'} {
      NoWord(s, p + 1);
    } else if |x| == 2 {
      assert x[1] == s[p + 1];
    }
  }

  lemma NoWord(s: string, p: nat)
    requires p < |s| && Stop(s[p])
    ensures !At(s, p, "rue") && !At(s, p, "alse") && !At(s, p, "ull")
  {
  }

  /** A token out of order, with more text behind it, is junk. */
  lemma JunkOut(s: string, p: nat)
    requires p < |s| && !Space(s[p]) && TokenAt(s, p).kind in {EndOfStream, ErrorToken} && TokenAt(s, p).end < |s|
    ensures Junk(s[p..TokenAt(s, p).end])
  {
    if s[p] == '\"' {
      OpenString(s, p + 1);
    } else if s[p] == '/' {
      SlashOut(s, p);
    }
  }

  lemma SlashOut(s: string, p: nat)
    requires p < |s| && s[p] == '/' && TokenAt(s, p).kind == ErrorToken && TokenAt(s, p).end < |s|
    ensures TokenAt(s, p).end == p + 2 && s[p + 1] !in {'*', '/'}
  {
    if s[p + 1] == '*' {
      CStyleClosed(s, p + 2);
    }
  }

  lemma {:induction false} CStyleClosed(s: string, p: nat)
    requires p <= |s| && CStyleStop(s, p) + 1 < |s|
    ensures p < CStyleStop(s, p) && s[CStyleStop(s, p)] == '/'
    decreases |s| - p
  {
    if !(s[p] == '*' && s[p + 1] == '/') {
      CStyleClosed(s, p + 1);
    }
  }

  // ----- a gap in a text -----

  /** The `n` characters of `s` at `a` are those of `u` at `b`. */
  predicate Alike(s: string, a: nat, u: string, b: nat, n: nat) {
    a + n <= |s| && b + n <= |u| && forall i :: a <= i < a + n ==> s[i] == u[i - a + b]
  }

  lemma {:induction false} CStyleMoves(s: string, a: nat, u: string, b: nat, n: nat, i: nat)
    requires Alike(s, a, u, b, n) && a + n < |s| && b + n < |u| && a + i <= |s|
    requires CStyleStop(s, a + i) + 1 == a + n
    ensures i < n && CStyleStop(u, b + i) + 1 == b + n
    decreases |s| - a - i
  {
    if !(s[a + i] == '*' && s[a + i + 1] == '/') {
      CStyleMoves(s, a, u, b, n, i + 1);
    }
  }

  lemma {:induction false} CppStyleMoves(s: string, a: nat, u: string, b: nat, n: nat, i: nat)
    requires Alike(s, a, u, b, n) && a + n < |s| && b + n < |u| && a + i <= |s| &&
      (u[b + n] == '\n' ==> s[a + n] == '\n')
    requires CppStyleEnd(s, a + i) == a + n
    ensures i < n && CppStyleEnd(u, b + i) == b + n
    decreases |s| - a - i
  {
    if s[a + i] != '\n' && s[a + i] != '\r' {
      CppStyleMoves(s, a, u, b, n, i + 1);
    }
  }

  /** A comment that ends in front of the end of the text is a comment in other places too. */
  lemma CommentMoves(s: string, a: nat, u: string, b: nat, n: nat)
    requires Alike(s, a, u, b, n) && a + n < |s| && b + n < |u| && (u[b + n] == '\n' ==> s[a + n] == '\n')
    requires !Space(s[a]) && TokenAt(s, a) == Token(CommentToken, a, a + n)
    ensures TokenAt(u, b) == Token(CommentToken, b, b + n)
  {
    assert s[a] == '/' == u[b];
    assert CommentEnd(s, a + 1) == (true, a + n);
    assert s[a + 1] == u[b + 1];
    if s[a + 1] == '*' {
      CStyleMoves(s, a, u, b, n, 2);
      assert u[b + n - 1] == s[a + n - 1] == '/';
    } else {
      CppStyleMoves(s, a, u, b, n, 2);
    }
  }

  lemma {:induction false} SpacesMove(s: string, a: nat, u: string, b: nat, n: nat)
    requires Alike(s, a, u, b, n) && SkipSpaces(s, a) == a + n
    ensures SkipSpaces(u, b) == SkipSpaces(u, b + n)
    decreases n
  {
    if n > 0 {
      assert Space(s[a]);
      assert u[b] == s[a];
      assert Alike(s, a + 1, u, b + 1, n - 1);
      SpacesMove(s, a + 1, u, b + 1, n - 1);
    }
  }

  /** What is skipped in one place is skipped in another one. */
  lemma {:induction false} GapMoves(s: string, a: nat, u: string, b: nat, n: nat)
    requires Alike(s, a, u, b, n) && a + n < |s| && b + n < |u| && !Space(u[b + n])
    requires NextToken(s, a).start == a + n
    ensures NextToken(u, b) == NextToken(u, b + n)
    ensures ReadToken(s, a).kind == CommentToken ==> ReadToken(u, b).kind == CommentToken
    decreases n
  {
    var t := ReadToken(s, a);
    if t.kind == CommentToken {
      var e := t.end - a;
      FirstCommentMoves(s, a, u, b, n, t.start - a, e);
      assert Alike(s, a + e, u, b + e, n - e);
      GapMoves(s, a + e, u, b + e, n - e);
      AfterComment(u, b, b + e);
    } else {
      LastSpacesMove(s, a, u, b, n);
    }
  }

  lemma AfterComment(u: string, b: nat, e: nat)
    requires b <= |u| && ReadToken(u, b).kind == CommentToken && ReadToken(u, b).end == e
    ensures NextToken(u, b) == NextToken(u, e)
  {
  }

  lemma LastSpacesMove(s: string, a: nat, u: string, b: nat, n: nat)
    requires Alike(s, a, u, b, n) && ReadToken(s, a).kind != CommentToken && NextToken(s, a).start == a + n
    ensures NextToken(u, b) == NextToken(u, b + n)
  {
    TokenStart(s, a);
    SpacesMove(s, a, u, b, n);
    SameTokenBehind(u, b, b + n);
  }

  lemma SameTokenBehind(u: string, b: nat, c: nat)
    requires b <= |u| && c <= |u| && SkipSpaces(u, b) == SkipSpaces(u, c)
    ensures NextToken(u, b) == NextToken(u, c)
  {
    SpacesBeforeToken(u, b);
    SpacesBeforeToken(u, c);
  }

  lemma FirstCommentMoves(s: string, a: nat, u: string, b: nat, n: nat, c: nat, e: nat)
    requires Alike(s, a, u, b, n) && a + n < |s| && b + n < |u| && !Space(u[b + n])
    requires c < e <= n && ReadToken(s, a) == Token(CommentToken, a + c, a + e)
    ensures ReadToken(u, b) == Token(CommentToken, b + c, b + e)
  {
    TokenStart(s, a);
    TokenStart(u, b);
    assert Alike(s, a, u, b, c);
    SpacesMove(s, a, u, b, c);
    assert Alike(s, a + c, u, b + c, e - c);
    assert s[a + c] == u[b + c];
    CommentMoves(s, a + c, u, b + c, e - c);
  }

  /** A gap is skipped in front of any token. */
  lemma BlankIn(s: string, p: nat, w: string)
    requires Blank(w) && Part(s, w, p) && p + |w| < |s| && !Space(s[p + |w|])
    ensures NextToken(s, p) == NextToken(s, p + |w|)
    ensures !Spaces(w) ==> ReadToken(s, p).kind == CommentToken
  {
    assert Alike(w + ",", 0, s, p, |w|);
    GapMoves(w + ",", 0, s, p, |w|);
    if ReadToken(w + ",", 0).kind != CommentToken {
      TokenStart(w + ",", 0);
      SpacesOut(w + ",", 0);
      assert (w + ",")[..|w|] == w;
    }
  }

  /** What is skipped in front of a token is a gap. */
  lemma BlankOut(s: string, p: nat)
    requires p <= |s| && NextToken(s, p).start < |s|
    ensures Blank(s[p..NextToken(s, p).start])
    ensures ReadToken(s, p).kind == CommentToken ==> !Spaces(s[p..NextToken(s, p).start])
  {
    var w := s[p..NextToken(s, p).start];
    NextStart(s, p);
    assert Alike(s, p, w + ",", 0, |w|);
    GapMoves(s, p, w + ",", 0, |w|);
    TokenStart(w + ",", |w|);
    if ReadToken(s, p).kind == CommentToken {
      SlashInside(s, p);
    }
  }

  lemma SlashInside(s: string, p: nat)
    requires p <= |s| && ReadToken(s, p).kind == CommentToken
    ensures !Spaces(s[p..NextToken(s, p).start])
  {
    var c := ReadToken(s, p).start;
    TokenStart(s, p);
    NextBehind(s, p);
    assert s[p..NextToken(s, p).start][c - p] == s[c] == '/';
  }

  /** The next token starts with no space. */
  lemma {:induction false} NextStart(s: string, p: nat)
    requires p <= |s|
    ensures var t := NextToken(s, p); t.start < |s| ==> !Space(s[t.start]) && TokenAt(s, t.start) == t
    decreases |s| - p
  {
    var t := ReadToken(s, p);
    TokenStart(s, p);
    if t.kind == CommentToken {
      NextStart(s, t.end);
    }
  }

  lemma NextBehind(s: string, p: nat)
    requires p <= |s| && ReadToken(s, p).kind == CommentToken
    ensures ReadToken(s, p).end <= NextToken(s, p).start
  {
  }

  lemma {:induction false} SpacesOut(s: string, p: nat)
    requires p <= |s|
    ensures Spaces(s[p..SkipSpaces(s, p)])
    decreases |s| - p
  {
    if p < |s| && Space(s[p]) {
      SpacesOut(s, p + 1);
      var q := SkipSpaces(s, p);
      assert s[p..q] == [s[p]] + s[p + 1..q];
    }
  }

  /** A gap is empty or starts with white space or a slash. */
  lemma BlankStart(w: string)
    requires Blank(w) && w != ""
    ensures Space(w[0]) || w[0] == '/'
  {
    TokenStart(w + ",", 0);
    assert (w + ",")[0] == w[0];
  }

  /** Nothing is a gap, and so is white space. */
  lemma SpacesBlank(w: string)
    requires Spaces(w)
    ensures Blank(w)
  {
    PartAt(w + ",", 0, w);
    assert Part(w + ",", w, 0);
    SpacesSkipped(w + ",", 0, w);
    TokenStart(w + ",", 0);
  }
}

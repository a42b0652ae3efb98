/** What single tokens stand for. */
module JsonAtoms {
  import opened OrderedMap
  import opened JsonValue
  import opened JsonNumbers
  import opened JsonStrings
  import opened JsonTokens
  import opened JsonGrammar
  import opened JsonLexemes
  import opened JsonPhrases
  import opened JsonEscapes
  import opened JsonShapes

  /** Digits behind an optional minus, in 64 bits. */
  predicate IsInteger(x: string) {
    AllDigits(Magnitude(x)) && -0x8000_0000_0000_0000 <= NumberOf(x) <= 0xFFFF_FFFF_FFFF_FFFF
  }

  /** An integer is a signed number as far as an `int` goes, other numbers are doubles. */
  predicate NumberIs(f: Features, x: string, v: Value) {
    if IsInteger(x) then v == (if NumberOf(x) <= 0x7FFF_FFFF then Int(NumberOf(x)) else UInt(NumberOf(x)))
    else v.Real? && f.toDouble(x) == Some(v.bits)
  }

  /** Quotes around pieces that stand for `t`. */
  ghost predicate StringIs(x: string, t: string) {
    && |x| >= 2 && x[0] == x[|x| - 1] == '\"' && Contents(x[1..|x| - 1])
    && exists xs :: Spelled(x, 1, |x| - 1, xs) && PiecesBytes(xs) == t
  }

  /** Keywords, numbers and strings with their values. The length of a string is cut to 32 bits. */
  ghost predicate AtomShape(f: Features, x: string, v: Value) {
    || (x == "null" && v == Null) || (x == "true" && v == Bool(true)) || (x == "false" && v == Bool(false))
    || (x != "" && NumberShape(x) && NumberIs(f, x, v))
    || exists t :: StringIs(x, t) && StringOf(t, v)
  }

  predicate StringOf(t: string, v: Value) {
    var n := |t| % 0x1_0000_0000;
    n <= 0x7FFF_FFFA && v == Str(t[..n])
  }

  /** The names of members. */
  lemma NamesExactly(x: string, name: string)
    ensures Names(x, name) <==> StringIs(x, name)
  {
    LexemeExactly(StringToken, x);
    if |x| >= 2 {
      DecodedExactly(x, 1, |x| - 1, name);
    }
  }

  lemma NumberAtom(f: Features, x: string, v: Value)
    ensures NumberOutcome(f, x, Token(NumberToken, 0, |x|), Null) == Parsed(|x|, v) <==> NumberIs(f, x, v)
  {
    assert x[0..|x|] == x;
  }

  lemma StringAtom(x: string, v: Value)
    requires |x| >= 2 && Lexeme(StringToken, x)
    ensures StringOutcome(x, Token(StringToken, 0, |x|), Null) == Parsed(|x|, v) <==>
      exists t :: StringIs(x, t) && StringOf(t, v)
  {
    var d := DecodeChars(x, 1, |x| - 1);
    forall t
      ensures StringIs(x, t) <==> d == Decoded(t)
    {
      NamesExactly(x, t);
    }
    assert d.Decoded? ==> StringIs(x, d.text);
  }

  /** The values of single tokens are exactly these. */
  lemma AtomExactly(f: Features, x: string, v: Value)
    ensures AtomIs(f, x, v) <==> AtomShape(f, x, v)
  {
    var kind := ReadToken(x, 0).kind;
    LexemeExactly(kind, x);
    if Lexeme(kind, x) {
      AtomOfKind(f, x, v, kind);
    } else {
      NoAtom(f, x, v);
    }
  }

  lemma AtomOfKind(f: Features, x: string, v: Value, kind: Kind)
    requires Lexeme(kind, x) && Shape(kind, x)
    ensures AtomIs(f, x, v) <==> AtomShape(f, x, v)
  {
    OneKind(kind, x);
    if kind == NumberToken {
      NumberAtom(f, x, v);
    } else if kind == StringToken {
      StringAtom(x, v);
    }
  }

  /** A text has one shape at most. */
  lemma OneKind(kind: Kind, x: string)
    requires Shape(kind, x)
    ensures kind == NumberToken <==> x != "" && NumberShape(x)
    ensures forall t :: StringIs(x, t) ==> kind == StringToken
    ensures kind == NullToken <==> x == "null"
    ensures kind == TrueToken <==> x == "true"
    ensures kind == FalseToken <==> x == "false"
  {
    ShapeStart(kind, x);
    if NumberShape(x) {
      ShapeStart(NumberToken, x);
    }
    if |x| >= 2 && Shape(StringToken, x) {
      ShapeStart(StringToken, x);
    }
  }

  lemma NoAtom(f: Features, x: string, v: Value)
    requires !Lexeme(ReadToken(x, 0).kind, x)
    ensures !AtomIs(f, x, v) && !AtomShape(f, x, v)
  {
    forall kind
      ensures !Shape(kind, x)
    {
      LexemeExactly(kind, x);
    }
    assert !Shape(NullToken, x) && !Shape(TrueToken, x) && !Shape(FalseToken, x) && !Shape(NumberToken, x);
    assert !Shape(StringToken, x);
  }

  /** The names that a key holds: it counts to 2^30 and starts again. */
  lemma KeyCut(name: string)
    ensures |name| < 0x4000_0000 ==> Key(name) == name
    ensures 0x4000_0000 <= |name| < 0x8000_0000 ==> Key(name) == name[..|name| - 0x4000_0000]
  {
  }
}

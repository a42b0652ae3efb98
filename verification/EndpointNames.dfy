/** Endpoint names of serializable objects: lower case, hyphens between words, '/' for "::". */
module EndpointNames {
  import opened OrderedMap

  predicate IsUpper(c: char) {
    'A' <= c <= 'Z'
  }

  predicate IsLower(c: char) {
    'a' <= c <= 'z'
  }

  function ToLower(c: char): char {
    if IsUpper(c) then (c as int - 'A' as int + 'a' as int) as char else c
  }

  function Lowered(s: string): string {
    seq(|s|, i requires 0 <= i < |s| => ToLower(s[i]))
  }

  // ----- replacing -----

  /** Replaces the matches from left to right; a match never overlaps the one before. */
  function Replaced(s: string, search: string, replace: string): string
    requires search != ""
  {
    if |s| < |search| then s
    else if search <= s then replace + Replaced(s[|search|..], search, replace)
    else [s[0]] + Replaced(s[1..], search, replace)
  }

  /** `std::string::find`. */
  method FindFrom(s: string, t: string, pos: nat) returns (r: Option<nat>)
    requires t != "" && pos <= |s|
    ensures r.Some? ==> pos <= r.value && r.value + |t| <= |s| && t <= s[r.value..]
    ensures forall i :: pos <= i < |s| && t <= s[i..] ==> r.Some? && r.value <= i
  {
    var i := pos;
    while i < |s|
      invariant pos <= i <= |s|
      invariant forall j :: pos <= j < i ==> !(t <= s[j..])
    {
      if t <= s[i..] {
        return Some(i);
      }
      i := i + 1;
    }
    return None;
  }

  /** Characters in front of the first match stay. */
  lemma {:induction false} ReplacedSkips(s: string, n: nat, search: string, replace: string)
    requires search != "" && n <= |s|
    requires forall i :: 0 <= i < n ==> !(search <= s[i..])
    ensures Replaced(s, search, replace) == s[..n] + Replaced(s[n..], search, replace)
    decreases n
  {
    if n > 0 {
      assert s[0..] == s;
      if |s| < |search| {
        assert s == s[..n] + s[n..];
      } else {
        assert forall i :: 0 <= i < n - 1 ==> s[1..][i..] == s[i + 1..];
        ReplacedSkips(s[1..], n - 1, search, replace);
        assert s[1..][n - 1..] == s[n..];
        assert s[..n] == [s[0]] + s[1..][..n - 1];
      }
    }
  }

  /** `_replaceAll`. */
  method ReplaceAll(subject0: string, search: string, replace: string) returns (subject: string)
    requires search != ""
    ensures subject == Replaced(subject0, search, replace)
  {
    subject := subject0;
    var pos := 0;
    var found := FindFrom(subject, search, pos);
    while found.Some?
      invariant 0 <= pos <= |subject|
      invariant Replaced(subject0, search, replace) == subject[..pos] + Replaced(subject[pos..], search, replace)
      invariant found.Some? ==>
        pos <= found.value && found.value + |search| <= |subject| && search <= subject[found.value..]
      invariant forall i :: pos <= i < |subject| && search <= subject[i..] ==> found.Some? && found.value <= i
      decreases |subject| - pos
    {
      var at := found.value;
      ReplaceStep(subject, pos, at, search, replace);
      subject := subject[..at] + replace + subject[at + |search|..];
      pos := at + |replace|;
      found := FindFrom(subject, search, pos);
    }
    assert forall i :: 0 <= i < |subject| - pos ==> subject[pos..][i..] == subject[pos + i..];
    ReplacedSkips(subject[pos..], |subject| - pos, search, replace);
  }

  lemma ReplaceStep(s: string, pos: nat, at: nat, search: string, replace: string)
    requires search != "" && pos <= at && at + |search| <= |s| && search <= s[at..]
    requires forall i :: pos <= i < at ==> !(search <= s[i..])
    ensures var s' := s[..at] + replace + s[at + |search|..];
      s[..pos] + Replaced(s[pos..], search, replace) ==
      s'[..at + |replace|] + Replaced(s'[at + |replace|..], search, replace)
  {
    var rest, tail := s[pos..], s[at + |search|..];
    assert forall i :: 0 <= i < at - pos ==> rest[i..] == s[pos + i..];
    ReplacedSkips(rest, at - pos, search, replace);
    assert rest[at - pos..] == s[at..] && s[at..][|search|..] == tail;
    Regroup(s, pos, at, replace, tail, Replaced(tail, search, replace));
  }

  lemma Regroup(s: string, pos: nat, at: nat, replace: string, tail: string, replaced: string)
    requires pos <= at <= |s|
    ensures s[..pos] + (s[pos..][..at - pos] + (replace + replaced)) == (s[..at] + replace) + replaced
    ensures (s[..at] + replace + tail)[..at + |replace|] == s[..at] + replace
    ensures (s[..at] + replace + tail)[at + |replace|..] == tail
  {
    assert s[..pos] + s[pos..][..at - pos] == s[..at];
  }

  // ----- hyphens -----

  /** A word starts at `i` behind a lower-case letter. */
  predicate WordStart(s: string, i: nat)
    requires i < |s|
  {
    i > 0 && IsUpper(s[i]) && s[i - 1] != '-' && IsLower(s[i - 1])
  }

  /** The first `n` characters in lower case, with a hyphen in front of every word start. */
  function Hyphenated(s: string, n: nat): string
    requires n <= |s|
  {
    if n == 0 then ""
    else Hyphenated(s, n - 1) + (if WordStart(s, n - 1) then "-" else "") + [ToLower(s[n - 1])]
  }

  /** `_camelCaseToHyphenated`. */
  method CamelCaseToHyphenated(camelCase: string) returns (r: string)
    ensures r == Hyphenated(camelCase, |camelCase|)
  {
    if camelCase == "" {
      return camelCase;
    }
    var str := [ToLower(camelCase[0])];
    assert Hyphenated(camelCase, 0) == "";
    for it := 1 to |camelCase|
      invariant Lowered(str) == Hyphenated(camelCase, it)
    {
      ghost var before := str;
      if IsUpper(camelCase[it]) && camelCase[it - 1] != '-' && IsLower(camelCase[it - 1]) {
        str := str + "-";
      }
      str := str + [camelCase[it]];
      assert Lowered(str) ==
        Lowered(before) + (if WordStart(camelCase, it) then "-" else "") + [ToLower(camelCase[it])];
    }
    r := Lowered(str);
  }

  function Converted(endpoint: string): string {
    var replaced := Replaced(endpoint, "::", "/");
    Hyphenated(replaced, |replaced|)
  }

  /** `_convertEndpointName`. */
  method ConvertEndpointName(endpoint: string) returns (r: string)
    ensures r == Converted(endpoint)
  {
    var replaced := ReplaceAll(endpoint, "::", "/");
    r := CamelCaseToHyphenated(replaced);
  }

  // ----- a converted name stays -----

  predicate NoDoubleColon(s: string) {
    forall i :: 0 <= i < |s| - 1 ==> !(s[i] == ':' && s[i + 1] == ':')
  }

  predicate NoUpper(s: string) {
    forall i :: 0 <= i < |s| ==> !IsUpper(s[i])
  }

  lemma TwoColons(s: string)
    requires |s| >= 2
    ensures "::" <= s <==> s[0] == ':' && s[1] == ':'
  {
    if s[0] == ':' && s[1] == ':' {
      assert s[..2] == "::";
    }
  }

  lemma {:induction false} ReplacedNoDoubleColon(s: string)
    ensures NoDoubleColon(Replaced(s, "::", "/"))
    ensures Replaced(s, "::", "/") != "" && Replaced(s, "::", "/")[0] == ':' ==> s[0] == ':' && !("::" <= s)
  {
    if |s| >= 2 {
      TwoColons(s);
      if "::" <= s {
        ReplacedNoDoubleColon(s[2..]);
      } else {
        ReplacedNoDoubleColon(s[1..]);
      }
    }
  }

  lemma {:induction false} HyphenatedPlain(s: string, n: nat)
    requires n <= |s| && NoDoubleColon(s)
    ensures NoDoubleColon(Hyphenated(s, n)) && NoUpper(Hyphenated(s, n))
    ensures n > 0 ==> var h := Hyphenated(s, n); h != "" && h[|h| - 1] == ToLower(s[n - 1])
  {
    if n > 0 {
      HyphenatedPlain(s, n - 1);
    }
  }

  lemma {:induction false} NothingToReplace(s: string)
    requires NoDoubleColon(s)
    ensures Replaced(s, "::", "/") == s
  {
    if |s| >= 2 {
      TwoColons(s);
      assert NoDoubleColon(s[1..]) by {
        assert forall i :: 0 <= i < |s| - 1 ==> s[1..][i] == s[i + 1];
      }
      NothingToReplace(s[1..]);
      assert s == [s[0]] + s[1..];
    }
  }

  lemma {:induction false} NothingToHyphenate(s: string, n: nat)
    requires n <= |s| && NoUpper(s)
    ensures Hyphenated(s, n) == s[..n]
  {
    if n > 0 {
      NothingToHyphenate(s, n - 1);
      assert s[..n] == s[..n - 1] + [s[n - 1]];
    }
  }

  // ----- what a converted name is made of -----

  /** A single character is printed in lower case. */
  lemma OneCharacter(c: char)
    ensures Hyphenated([c], 1) == [if 'A' <= c <= 'Z' then (c as int + 32) as char else c]
  {
    assert Hyphenated([c], 0) == "";
  }

  /** Two parts of a name are converted one by one, with a hyphen between them exactly if the first part
      ends in a lower-case letter and the second one starts with an upper-case letter. */
  lemma {:induction false} HyphenBetween(a: string, b: string)
    requires a != "" && b != ""
    ensures Hyphenated(a + b, |a + b|) ==
      Hyphenated(a, |a|) + (if 'a' <= a[|a| - 1] <= 'z' && 'A' <= b[0] <= 'Z' then "-" else "") + Hyphenated(b, |b|)
  {
    HyphenatedParts(a, b, |b|);
  }

  lemma {:induction false} HyphenatedFront(s: string, t: string, n: nat)
    requires n <= |s|
    ensures Hyphenated(s + t, n) == Hyphenated(s, n)
  {
    if n > 0 {
      HyphenatedFront(s, t, n - 1);
    }
  }

  lemma {:induction false} HyphenatedParts(a: string, b: string, n: nat)
    requires a != "" && 0 < n <= |b|
    ensures Hyphenated(a + b, |a| + n) ==
      Hyphenated(a, |a|) + (if 'a' <= a[|a| - 1] <= 'z' && 'A' <= b[0] <= 'Z' then "-" else "") + Hyphenated(b, n)
  {
    var s := a + b;
    assert s[|a| + n - 1] == b[n - 1] && s[|a| - 1] == a[|a| - 1];
    if n == 1 {
      HyphenatedFront(a, b, |a|);
      assert Hyphenated(b, 0) == "";
    } else {
      HyphenatedParts(a, b, n - 1);
      assert s[|a| + n - 2] == b[n - 2];
    }
  }

  /** A name is converted segment by segment: segments free of "::" that do not end in a colon are joined
      by "/" where they were joined by "::". */
  lemma {:induction false} SegmentReplaced(segment: string, rest: string)
    requires NoDoubleColon(segment) && (segment == "" || segment[|segment| - 1] != ':')
    ensures Replaced(segment + ("::" + rest), "::", "/") == segment + ("/" + Replaced(rest, "::", "/"))
    ensures Replaced(segment, "::", "/") == segment
    decreases |segment|
  {
    var s := segment + ("::" + rest);
    NothingToReplace(segment);
    TwoColons(s);
    if segment == "" {
      assert s == "::" + rest && s[2..] == rest;
    } else {
      assert s[0] == segment[0] && s[1..] == segment[1..] + ("::" + rest);
      assert |segment| > 1 ==> s[1] == segment[1];
      assert NoDoubleColon(segment[1..]) by {
        assert forall i :: 0 <= i < |segment| - 1 ==> segment[1..][i] == segment[i + 1];
      }
      SegmentReplaced(segment[1..], rest);
      assert segment == [segment[0]] + segment[1..];
    }
  }

  /** Converting a converted name changes nothing: an object is found again under its endpoint name. */
  lemma ConvertedIdempotent(name: string)
    ensures Converted(Converted(name)) == Converted(name)
    ensures NoUpper(Converted(name)) && NoDoubleColon(Converted(name))
  {
    var replaced, c := Replaced(name, "::", "/"), Converted(name);
    ReplacedNoDoubleColon(name);
    HyphenatedPlain(replaced, |replaced|);
    NothingToReplace(c);
    NothingToHyphenate(c, |c|);
  }
}

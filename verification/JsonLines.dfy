/** An indented document as a list of lines. */
module JsonLines {
  import opened Text
  import opened JsonValue
  import opened JsonNumbers
  import opened JsonStrings
  import opened JsonLayout
  import opened JsonStyledWriter

  /** A line and how many containers are open around it. */
  datatype Line = Line(depth: nat, text: string)

  function Blanks(n: nat): string {
    seq(n, _ => ' ')
  }

  /** Three blanks for every open container. */
  function LineOf(l: Line): string {
    Blanks(3 * l.depth) + (l.text + "\n")
  }

  function TextOf(ls: seq<Line>): string {
    if ls == [] then "" else LineOf(ls[0]) + TextOf(ls[1..])
  }

  /** The elements of an array that is printed on one line. */
  function Joined(vs: seq<Value>): string {
    if vs == [] then ""
    else if |vs| == 1 then FlatText(vs[0])
    else Joined(vs[..|vs| - 1]) + ", " + FlatText(vs[|vs| - 1])
  }

  /** The lines of a value: `head` stands in front of it on its first line, `tail` behind it on its last.
      Elements and members begin lines of their own, and so does the bracket that closes their container. */
  function Lines(head: string, depth: nat, v: Value, tail: string): seq<Line>
    decreases Depth(v), 1
  {
    match v
    case Arr(items) =>
      if items == [] then [Line(depth, head + ("[]" + tail))]
      else if !MultiLine(Dense(items)) then [Line(depth, head + (("[ " + Joined(Dense(items)) + " ]") + tail))]
      else [Line(depth, head + "[")] + ItemLines(depth + 1, v, |Dense(items)|) + [Line(depth, "]" + tail)]
    case Obj(members) =>
      if members == [] then [Line(depth, head + ("{}" + tail))]
      else [Line(depth, head + "{")] + MemberLines(depth + 1, v, |members|) + [Line(depth, "}" + tail)]
    case _ => [Line(depth, head + (ScalarText(v) + tail))]
  }

  /** A comma stands behind every element but the last one. */
  function ItemLines(depth: nat, v: Value, n: nat): seq<Line>
    requires v.Arr? && n <= |Dense(v.items)|
    decreases Depth(v), 0, n
  {
    if n == 0 then []
    else
      ItemInside(v.items, n - 1);
      ItemLines(depth, v, n - 1) + Lines("", depth, Dense(v.items)[n - 1], if n == |Dense(v.items)| then "" else ",")
  }

  function MemberLines(depth: nat, v: Value, n: nat): seq<Line>
    requires v.Obj? && n <= |v.members|
    decreases Depth(v), 0, n
  {
    if n == 0 then []
    else
      var m := v.members[n - 1];
      MemberLines(depth, v, n - 1) +
      Lines(Quote(CString(m.key)) + " : ", depth, m.value, if n == |v.members| then "" else ",")
  }

  // ----- texts -----

  lemma {:induction false} TextConcat(a: seq<Line>, b: seq<Line>)
    ensures TextOf(a + b) == TextOf(a) + TextOf(b)
    decreases |a|
  {
    if a == [] {
      assert a + b == b;
    } else {
      assert (a + b)[1..] == a[1..] + b;
      TextConcat(a[1..], b);
    }
  }

  lemma OneLineText(l: Line)
    ensures TextOf([l]) == LineOf(l)
  {
    assert [l][1..] == [];
    assert LineOf(l) + "" == LineOf(l);
  }

  lemma {:induction false} JoinedLine(vs: seq<Value>, n: nat)
    requires n <= |vs|
    ensures FlatLine(vs, n) == Joined(vs[..n])
  {
    if n > 1 {
      JoinedLine(vs, n - 1);
      assert vs[..n][..n - 1] == vs[..n - 1];
    }
  }

  /** What a value prints does not end in white space. */
  predicate Solid(t: string) {
    t != "" && t[|t| - 1] != ' ' && t[|t| - 1] != '\n'
  }

  lemma ScalarSolid(v: Value)
    requires Representable(v) && !v.Arr? && !v.Obj?
    ensures Solid(ScalarText(v))
  {
    match v {
      case Int(i) => DigitsSolid(if i < 0 then -i else i);
      case UInt(u) => DigitsSolid(u);
      case _ =>
    }
  }

  lemma DigitsSolid(n: nat)
    ensures Solid(Decimal(n))
  {
    var t := Decimal(n);
    assert IsDigit(t[|t| - 1]);
  }

  lemma StyledSolid(document: string, indent: string, v: Value)
    requires Representable(v)
    ensures Solid(Styled(document, indent, v))
  {
    match v {
      case Arr(items) =>
      case Obj(members) =>
      case _ => ScalarSolid(v);
    }
  }

  /** Behind something solid a new line begins. */
  lemma NewLine(document: string, indent: string)
    requires Solid(document)
    ensures Indented(document, indent) == document + "\n" + indent
  {
  }

  /** In front of a value that stands behind a blank or at the very beginning none does. */
  predicate Ready(document: string, indent: string) {
    if document == "" then indent == "" else document[|document| - 1] == ' '
  }

  lemma NoNewLine(document: string, indent: string)
    requires Ready(document, indent)
    ensures Indented(document, indent) == document
  {
  }

  // ----- the lines of a printed value -----

  lemma DeeperIndent(depth: nat)
    ensures Blanks(3 * depth) + INDENT == Blanks(3 * (depth + 1))
  {
  }

  /** Behind `before` and the blanks of its line the printer adds exactly the lines of the value. */
  lemma {:induction false} StyledLines(before: string, head: string, depth: nat, v: Value, tail: string)
    requires Representable(v) && Ready(before + Blanks(3 * depth) + head, Blanks(3 * depth))
    ensures Styled(before + Blanks(3 * depth) + head, Blanks(3 * depth), v) + (tail + "\n") ==
      before + TextOf(Lines(head, depth, v, tail))
    decreases Depth(v), 2
  {
    match v {
      case Arr(items) =>
        if items == [] {
          LineEnds(before, head, depth, "[]", tail);
        } else if MultiLine(Dense(items)) {
          StyledArrayLines(before, head, depth, v, tail);
        } else {
          JoinedLine(Dense(items), |Dense(items)|);
          assert Dense(items)[..|Dense(items)|] == Dense(items);
          assert SingleLine(Dense(items)) == "[ " + Joined(Dense(items)) + " ]";
          LineEnds(before, head, depth, SingleLine(Dense(items)), tail);
        }
      case Obj(members) =>
        if members == [] {
          LineEnds(before, head, depth, "{}", tail);
        } else {
          StyledObjectLines(before, head, depth, v, tail);
        }
      case _ => LineEnds(before, head, depth, ScalarText(v), tail);
    }
  }

  lemma LineEnds(before: string, head: string, depth: nat, text: string, tail: string)
    ensures ((before + Blanks(3 * depth) + head) + text) + (tail + "\n") ==
      before + TextOf([Line(depth, head + (text + tail))])
  {
    OneLineText(Line(depth, head + (text + tail)));
  }

  /** A container on several lines, from the text of the lines between its brackets. */
  lemma Bracketed(before: string, head: string, depth: nat, open: string, inside: seq<Line>, close: string,
                  tail: string, document: string)
    requires document + ("" + "\n") == before + Blanks(3 * depth) + head + open + "\n" + TextOf(inside)
    ensures document + "\n" + Blanks(3 * depth) + close + (tail + "\n") ==
      before + TextOf([Line(depth, head + open)] + inside + [Line(depth, close + tail)])
  {
    var first, last := Line(depth, head + open), Line(depth, close + tail);
    OneLineText(first);
    OneLineText(last);
    TextConcat([first], inside);
    TextConcat([first] + inside, [last]);
    BracketText(before, Blanks(3 * depth), head, open, TextOf(inside), close, tail, document);
  }

  lemma BracketText(before: string, blanks: string, head: string, open: string, inside: string, close: string,
                    tail: string, document: string)
    requires document + ("" + "\n") == before + blanks + head + open + "\n" + inside
    ensures document + "\n" + blanks + close + (tail + "\n") ==
      before + ((blanks + ((head + open) + "\n")) + inside + (blanks + ((close + tail) + "\n")))
  {
    assert "" + "\n" == "\n";
    assert document + "\n" == before + (blanks + ((head + open) + "\n")) + inside;
  }

  lemma {:induction false} StyledArrayLines(before: string, head: string, depth: nat, v: Value, tail: string)
    requires Representable(v) && v.Arr? && v.items != [] && MultiLine(Dense(v.items))
    requires Ready(before + Blanks(3 * depth) + head, Blanks(3 * depth))
    ensures Styled(before + Blanks(3 * depth) + head, Blanks(3 * depth), v) + (tail + "\n") ==
      before + TextOf(Lines(head, depth, v, tail))
    decreases Depth(v), 1
  {
    var start, indent, n := before + Blanks(3 * depth) + head, Blanks(3 * depth), |Dense(v.items)|;
    NoNewLine(start, indent);
    DeeperIndent(depth);
    var lines := StyledItems(start + "[", Blanks(3 * (depth + 1)), v, n);
    StyledItemLines(start + "[", Blanks(3 * (depth + 1)), depth + 1, v, n);
    NewLine(lines, indent);
    Bracketed(before, head, depth, "[", ItemLines(depth + 1, v, n), "]", tail, lines);
  }

  /** `text` with `comma` behind it is the document and these lines behind it. */
  ghost predicate AddsLines(text: string, comma: string, document: string, ls: seq<Line>) {
    Solid(text) && text + (comma + "\n") == document + "\n" + TextOf(ls)
  }

  lemma {:induction false} StepByStep(p: nat -> bool, n: nat)
    requires p(0) && forall k: nat :: k < n && p(k) ==> p(k + 1)
    ensures p(n)
  {
    if n > 0 {
      StepByStep(p, n - 1);
    }
  }

  /** The lines of the first `n` elements, with what separates the last of them from the next one. */
  ghost predicate ItemsPrinted(document: string, indent: string, depth: nat, v: Value, n: nat)
    requires v.Arr? && n <= |Dense(v.items)|
  {
    AddsLines(StyledItems(document, indent, v, n), if n == 0 || n == |Dense(v.items)| then "" else ",", document,
              ItemLines(depth, v, n))
  }

  ghost function ItemsDone(document: string, indent: string, depth: nat, v: Value): nat -> bool
    requires v.Arr?
  {
    (n: nat) => n <= |Dense(v.items)| && ItemsPrinted(document, indent, depth, v, n)
  }

  lemma {:induction false} StyledItemLines(document: string, indent: string, depth: nat, v: Value, n: nat)
    requires Representable(v) && v.Arr? && n <= |Dense(v.items)| && Solid(document)
    requires depth > 0 && indent == Blanks(3 * depth)
    ensures ItemsDone(document, indent, depth, v)(n)
    decreases Depth(v), 0, 1
  {
    NoItems(document, indent, depth, v);
    var done := ItemsDone(document, indent, depth, v);
    forall k: nat | k < n && done(k)
      ensures done(k + 1)
    {
      NextItemLines(document, indent, depth, v, k);
    }
    StepByStep(done, n);
  }

  lemma NoItems(document: string, indent: string, depth: nat, v: Value)
    requires v.Arr? && Solid(document)
    ensures ItemsDone(document, indent, depth, v)(0)
  {
  }

  /** In front of the next one a new line begins. */
  lemma BeforeItemLine(document: string, indent: string, depth: nat, v: Value, n: nat)
    requires v.Arr? && n < |Dense(v.items)| && ItemsPrinted(document, indent, depth, v, n)
    ensures var before := document + "\n" + TextOf(ItemLines(depth, v, n));
      var d := BeforeItem(document, indent, v, n);
      Indented(d, indent) == before + indent + ""
  {
    var d := BeforeItem(document, indent, v, n);
    NewLine(d, indent);
    assert d + "\n" == document + "\n" + TextOf(ItemLines(depth, v, n));
  }

  lemma {:induction false} NextItemLines(document: string, indent: string, depth: nat, v: Value, n: nat)
    requires Representable(v) && v.Arr? && n < |Dense(v.items)| && ItemsPrinted(document, indent, depth, v, n)
    requires depth > 0 && indent == Blanks(3 * depth)
    ensures ItemsPrinted(document, indent, depth, v, n + 1)
    decreases Depth(v), 0, 0
  {
    var before, head := document + "\n" + TextOf(ItemLines(depth, v, n)), "";
    var comma := if n + 1 == |Dense(v.items)| then "" else ",";
    BeforeItemLine(document, indent, depth, v, n);
    ItemInside(v.items, n);
    ItemAtRepresentable(v.items, n);
    StyledLines(before, head, depth, Dense(v.items)[n], comma);
    StyledSolid(before + indent + head, indent, Dense(v.items)[n]);
    TextConcat(ItemLines(depth, v, n), Lines(head, depth, Dense(v.items)[n], comma));
    assert ItemLines(depth, v, n + 1) == ItemLines(depth, v, n) + Lines(head, depth, Dense(v.items)[n], comma);
    MoreLines(document, ItemLines(depth, v, n), Lines(head, depth, Dense(v.items)[n], comma));
  }

  lemma MoreLines(document: string, a: seq<Line>, b: seq<Line>)
    ensures (document + "\n" + TextOf(a)) + TextOf(b) == document + "\n" + TextOf(a + b)
  {
    TextConcat(a, b);
  }

  lemma {:induction false} StyledObjectLines(before: string, head: string, depth: nat, v: Value, tail: string)
    requires Representable(v) && v.Obj? && v.members != []
    requires Ready(before + Blanks(3 * depth) + head, Blanks(3 * depth))
    ensures Styled(before + Blanks(3 * depth) + head, Blanks(3 * depth), v) + (tail + "\n") ==
      before + TextOf(Lines(head, depth, v, tail))
    decreases Depth(v), 1
  {
    var start, indent, n := before + Blanks(3 * depth) + head, Blanks(3 * depth), |v.members|;
    NoNewLine(start, indent);
    DeeperIndent(depth);
    var lines := StyledMembers(start + "{", Blanks(3 * (depth + 1)), v, n);
    StyledMemberLines(start + "{", Blanks(3 * (depth + 1)), depth + 1, v, n);
    NewLine(lines, indent);
    Bracketed(before, head, depth, "{", MemberLines(depth + 1, v, n), "}", tail, lines);
  }

  /** The lines of the first `n` members, with what separates the last of them from the next one. */
  ghost predicate MembersPrinted(document: string, indent: string, depth: nat, v: Value, n: nat)
    requires v.Obj? && n <= |v.members|
  {
    AddsLines(StyledMembers(document, indent, v, n), if n == 0 || n == |v.members| then "" else ",", document,
              MemberLines(depth, v, n))
  }

  ghost function MembersDone(document: string, indent: string, depth: nat, v: Value): nat -> bool
    requires v.Obj?
  {
    (n: nat) => n <= |v.members| && MembersPrinted(document, indent, depth, v, n)
  }

  lemma {:induction false} StyledMemberLines(document: string, indent: string, depth: nat, v: Value, n: nat)
    requires Representable(v) && v.Obj? && n <= |v.members| && Solid(document)
    requires depth > 0 && indent == Blanks(3 * depth)
    ensures MembersDone(document, indent, depth, v)(n)
    decreases Depth(v), 0, 1
  {
    NoMembers(document, indent, depth, v);
    var done := MembersDone(document, indent, depth, v);
    forall k: nat | k < n && done(k)
      ensures done(k + 1)
    {
      NextMemberLines(document, indent, depth, v, k);
    }
    StepByStep(done, n);
  }

  lemma NoMembers(document: string, indent: string, depth: nat, v: Value)
    requires v.Obj? && Solid(document)
    ensures MembersDone(document, indent, depth, v)(0)
  {
  }

  /** In front of the next one a new line begins. */
  lemma BeforeMemberLine(document: string, indent: string, depth: nat, v: Value, n: nat)
    requires v.Obj? && n < |v.members| && MembersPrinted(document, indent, depth, v, n)
    ensures var before := document + "\n" + TextOf(MemberLines(depth, v, n));
      var d := BeforeMember(document, indent, v, n);
      NameBehind(d, indent, v.members[n].key) + " " == before + indent + (Quote(CString(v.members[n].key)) + " : ")
  {
    var d := BeforeMember(document, indent, v, n);
    NewLine(d, indent);
    assert d + "\n" == document + "\n" + TextOf(MemberLines(depth, v, n));
    NameText(d, indent, Quote(CString(v.members[n].key)));
  }

  lemma NameText(d: string, indent: string, name: string)
    ensures (d + "\n" + indent + (name + " :")) + " " == (d + "\n") + indent + (name + " : ")
  {
  }

  lemma {:induction false} NextMemberLines(document: string, indent: string, depth: nat, v: Value, n: nat)
    requires Representable(v) && v.Obj? && n < |v.members| && MembersPrinted(document, indent, depth, v, n)
    requires depth > 0 && indent == Blanks(3 * depth)
    ensures MembersPrinted(document, indent, depth, v, n + 1)
    decreases Depth(v), 0, 0
  {
    var before, head := document + "\n" + TextOf(MemberLines(depth, v, n)), Quote(CString(v.members[n].key)) + " : ";
    var comma := if n + 1 == |v.members| then "" else ",";
    BeforeMemberLine(document, indent, depth, v, n);
    StyledLines(before, head, depth, v.members[n].value, comma);
    StyledSolid(before + indent + head, indent, v.members[n].value);
    TextConcat(MemberLines(depth, v, n), Lines(head, depth, v.members[n].value, comma));
    assert MemberLines(depth, v, n + 1) == MemberLines(depth, v, n) + Lines(head, depth, v.members[n].value, comma);
    MoreLines(document, MemberLines(depth, v, n), Lines(head, depth, v.members[n].value, comma));
  }

  /** An indented document is the lines of its value. */
  lemma DocumentLines(v: Value)
    requires Representable(v)
    ensures StyledDocument(v) == TextOf(Lines("", 0, v, ""))
  {
    StyledLines("", "", 0, v, "");
    assert "" + Blanks(0) + "" == "" && Blanks(3 * 0) == "";
    assert "" + "\n" == "\n" && "" + TextOf(Lines("", 0, v, "")) == TextOf(Lines("", 0, v, ""));
  }
}

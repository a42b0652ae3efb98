/** What the reader makes of an indented document. */
module JsonStyledRoundTrip {
  import opened Text
  import opened OrderedMap
  import opened JsonValue
  import opened JsonStrings
  import opened JsonGrammar
  import opened JsonLayout
  import opened JsonFastWriter
  import opened JsonRoundTrip
  import opened JsonStyledWriter

  // ----- the width of a line -----

  /** The text of an array on one line has `lineLength` characters, up to the 32 bits of the counter. */
  lemma SingleLineLength(vs: seq<Value>)
    requires vs != []
    ensures |SingleLine(vs)| == 4 + (|vs| - 1) * 2 + FlatLength(vs, |vs|)
    ensures Wrap(|SingleLine(vs)|) == LineLength(vs)
  {
    FlatLineLength(vs, |vs|);
  }

  lemma {:induction false} FlatLineLength(vs: seq<Value>, n: nat)
    requires 0 < n <= |vs|
    ensures |FlatLine(vs, n)| == (n - 1) * 2 + FlatLength(vs, n)
  {
    if n > 1 {
      FlatLineLength(vs, n - 1);
    }
  }

  /** A scalar or an empty container. */
  predicate Small(v: Value) {
    v == Arr([]) || v == Obj([]) || (!v.Arr? && !v.Obj?)
  }

  /** An array is printed on one line exactly when it has at most 24 elements, all of them scalars or empty
      containers, and the line stays left of the margin; its text must not reach the 32 bits of the counter. */
  lemma OneLine(vs: seq<Value>)
    requires vs != [] && |vs| * 3 < 0x1_0000_0000 && |SingleLine(vs)| < 0x1_0000_0000
    ensures !MultiLine(vs) <==>
      |vs| <= 24 && (forall i :: 0 <= i < |vs| ==> Small(vs[i])) && |SingleLine(vs)| < 74
  {
    SingleLineLength(vs);
    assert forall i :: 0 <= i < |vs| ==> (Small(vs[i]) <==> Flat(vs[i]));
  }

  // ----- the value of an indented document -----

  /** What the reader gives back: a name ends at its first NUL, and of the members whose names then
      coincide the last one stays. */
  function CutNames(v: Value): Value
    decreases Depth(v), 1
  {
    match v
    case Int(i) => NumberValue(i)
    case UInt(u) => NumberValue(u)
    case Arr(items) => Arr(CutItems(v, |Dense(items)|))
    case Obj(members) => Obj(CutMembers(v, |members|))
    case _ => v
  }

  function CutItems(v: Value, n: nat): (r: seq<Entry<nat, Value>>)
    requires v.Arr? && n <= |Dense(v.items)|
    ensures |r| == n
    decreases Depth(v), 0, n
  {
    if n == 0 then []
    else
      ItemInside(v.items, n - 1);
      CutItems(v, n - 1) + [Entry(n - 1, CutNames(Dense(v.items)[n - 1]))]
  }

  function CutMembers(v: Value, n: nat): seq<Entry<string, Value>>
    requires v.Obj? && n <= |v.members|
    decreases Depth(v), 0, n
  {
    if n == 0 then []
    else Insert(CutMembers(v, n - 1), CString(v.members[n - 1].key), CutNames(v.members[n - 1].value))
  }

  // ----- the layout of an indented document -----

  /** Behind `document` and the white space `lead` the printer adds the text of `t`, a layout of `v`. */
  ghost predicate LaidOut(t: Tree, text: string, document: string, v: Value) {
    && text == document + TreeText(t) && WellFormed(t, false)
    && TreeValue(t) == CutNames(v) && Height(t) == Depth(v)
  }

  lemma LeadIsSpace(document: string, indent: string)
    requires Spaces(indent)
    ensures Spaces(Lead(document, indent)) && Spaces(indent + INDENT)
  {
  }

  lemma {:induction false} StyledLayout(document: string, lead: string, indent: string, v: Value) returns (t: Tree)
    requires Representable(v) && Spaces(lead) && Spaces(indent)
    ensures LaidOut(t, Styled(document + lead, indent, v), document, v)
    decreases Depth(v), 3
  {
    match v {
      case Arr(items) =>
        if items == [] {
          t := ArrayTree(lead, []);
          assert document + lead + "[]" == document + (lead + ("[" + ("" + "]")));
        } else if MultiLine(Dense(items)) {
          t := LinesLayout(document, lead, indent, v);
        } else {
          t := SingleLineLayout(document, lead, indent, v);
        }
      case Obj(members) =>
        if members == [] {
          t := ObjectTree(lead, []);
          assert document + lead + "{}" == document + (lead + ("{" + ("" + "}")));
        } else {
          t := MembersLayout(document, lead, indent, v);
        }
      case _ =>
        t := ScalarLayout(document, lead, indent, v);
    }
  }

  lemma ScalarLayout(document: string, lead: string, indent: string, v: Value) returns (t: Tree)
    requires Representable(v) && !Container(v) && Spaces(lead)
    ensures LaidOut(t, Styled(document + lead, indent, v), document, v)
    ensures t == Leaf(lead, ScalarText(v), CutNames(v))
  {
    t := Leaf(lead, ScalarText(v), CutNames(v));
    assert (document + lead) + ScalarText(v) == document + (lead + ScalarText(v));
  }

  /** `lead` and the text around the elements. */
  lemma Around(document: string, lead: string, open: string, inside: string, close: string)
    ensures ((document + lead + open) + inside) + close == document + (lead + (open + (inside + close)))
  {
  }

  lemma NoneDropped(lead: string, es: seq<Element>)
    requires ElementsWellFormed(es, false) && es != [] && Spaces(lead)
    ensures WellFormed(ArrayTree(lead, es), false)
  {
    assert es[0].tree < es[0];
  }

  lemma {:induction false} LinesLayout(document: string, lead: string, indent: string, v: Value) returns (t: Tree)
    requires Representable(v) && v.Arr? && v.items != [] && MultiLine(Dense(v.items)) && Spaces(lead) && Spaces(indent)
    ensures LaidOut(t, Styled(document + lead, indent, v), document, v)
    decreases Depth(v), 2
  {
    var n, first := |Dense(v.items)|, lead + Lead(document + lead, indent);
    LeadIsSpace(document + lead, indent);
    var start := document + first + "[";
    assert Indented(document + lead, indent) + "[" == start;
    var lines := StyledItems(start, indent + INDENT, v, n);
    LeadIsSpace(lines, indent);
    var es := LineElements(start, indent + INDENT, v, n, Lead(lines, indent));
    t := ArrayTree(first, es);
    NoneDropped(first, es);
    Around(document, first, "[", ElementsText(es), "]");
    ItemsDepth(v);
  }

  lemma {:induction false} SingleLineLayout(document: string, lead: string, indent: string, v: Value) returns (t: Tree)
    requires Representable(v) && v.Arr? && v.items != [] && !MultiLine(Dense(v.items)) && Spaces(lead)
    ensures LaidOut(t, Styled(document + lead, indent, v), document, v)
    decreases Depth(v), 2
  {
    var vs := Dense(v.items);
    var es := LineOfElements(v, |vs|, " ");
    t := ArrayTree(lead, es);
    NoneDropped(lead, es);
    var joined := FlatLine(vs, |vs|);
    assert "[ " + (joined + " ]") == "[" + ((" " + joined + " ") + "]");
    assert (document + lead) + SingleLine(vs) == document + (lead + SingleLine(vs));
    ItemsDepth(v);
  }

  /** The depth of an array by its dense elements. */
  lemma ItemsDepth(v: Value)
    requires Representable(v) && v.Arr? && v.items != []
    ensures Depth(v) == 1 + ValuesDepth(Dense(v.items)[..|Dense(v.items)|])
  {
    DenseDepth(v.items);
    assert Dense(v.items)[..|Dense(v.items)|] == Dense(v.items);
  }

  lemma ValuesDepthSnoc(vs: seq<Value>, n: nat)
    requires n < |vs|
    ensures ValuesDepth(vs[..n + 1]) == Max(ValuesDepth(vs[..n]), Depth(vs[n]))
  {
    var a, b := vs[..n], vs[..n + 1];
    assert b == a + [vs[n]];
    ValuesDepthLeast(a, ValuesDepth(b)) by {
      forall i | 0 <= i < |a|
        ensures Depth(a[i]) <= ValuesDepth(b)
      {
        assert a[i] == b[i];
      }
    }
    assert b[n] == vs[n];
    ValuesDepthLeast(b, Max(ValuesDepth(a), Depth(vs[n]))) by {
      forall i | 0 <= i < |b|
        ensures Depth(b[i]) <= Max(ValuesDepth(a), Depth(vs[n]))
      {
        assert i < n ==> b[i] == a[i];
      }
    }
  }

  /** The first `n` elements as a layout; white space `after` stands behind the last one. */
  ghost predicate ElementsLaidOut(es: seq<Element>, text: string, v: Value, n: nat)
    requires v.Arr? && n <= |Dense(v.items)|
  {
    |es| == n && ElementsShow(es, false, text, CutItems(v, n), ValuesDepth(Dense(v.items)[..n]))
  }

  lemma ElementsGrowBy(es: seq<Element>, e: Element, text: string, v: Value, n: nat)
    requires Representable(v) && v.Arr? && n < |Dense(v.items)| && ElementsLaidOut(es, text, v, n)
    requires WellFormed(e.tree, false) && Spaces(e.after)
    requires TreeValue(e.tree) == CutNames(Dense(v.items)[n]) && Height(e.tree) == Depth(Dense(v.items)[n])
    ensures ElementsLaidOut(es + [e], text + (if n == 0 then "" else ",") + (TreeText(e.tree) + e.after), v, n + 1)
  {
    ElementsShowSnoc(es, e, false, text, CutItems(v, n), ValuesDepth(Dense(v.items)[..n]));
    ValuesDepthSnoc(Dense(v.items), n);
  }

  /** `es` are the first `n` elements printed behind `document`, with white space `after` behind the last one. */
  ghost predicate ElementsPrinted(es: seq<Element>, document: string, indent: string, v: Value, n: nat, after: string)
    requires v.Arr? && n <= |Dense(v.items)|
  {
    StyledItems(document, indent, v, n) + after == document + ElementsText(es) &&
      ElementsLaidOut(es, ElementsText(es), v, n)
  }

  /** `t` is element `k` printed behind the elements in front of it. */
  ghost predicate ItemPrinted(t: Tree, document: string, indent: string, v: Value, k: nat)
    requires v.Arr? && k < |Dense(v.items)|
  {
    var d := BeforeItem(document, indent, v, k);
    LaidOut(t, Styled(d + Lead(d, indent), indent, Dense(v.items)[k]), d, Dense(v.items)[k])
  }

  lemma {:induction false} LineElements(document: string, indent: string, v: Value, n: nat, after: string)
    returns (es: seq<Element>)
    requires Representable(v) && v.Arr? && 0 < n <= |Dense(v.items)| && Spaces(indent) && Spaces(after)
    ensures ElementsPrinted(es, document, indent, v, n, after)
    decreases Depth(v), 1
  {
    NoElements(document, indent, v);
    es := [];
    for k := 0 to n - 1
      invariant ElementsPrinted(es, document, indent, v, k, "")
    {
      es := LineElement(document, indent, v, k, es, "");
    }
    es := LineElement(document, indent, v, n - 1, es, after);
  }

  lemma {:induction false} LineElement(document: string, indent: string, v: Value, k: nat, es: seq<Element>,
                                       after: string)
    returns (es': seq<Element>)
    requires Representable(v) && v.Arr? && k < |Dense(v.items)| && Spaces(indent) && Spaces(after)
    requires ElementsPrinted(es, document, indent, v, k, "")
    ensures ElementsPrinted(es', document, indent, v, k + 1, after)
    decreases Depth(v), 0, 1
  {
    var t := LineItem(document, indent, v, k);
    es' := LineElementsGrow(document, indent, v, k, es, t, after);
  }

  lemma {:induction false} LineItem(document: string, indent: string, v: Value, k: nat) returns (t: Tree)
    requires Representable(v) && v.Arr? && k < |Dense(v.items)| && Spaces(indent)
    ensures ItemPrinted(t, document, indent, v, k)
    decreases Depth(v), 0, 0
  {
    var d := BeforeItem(document, indent, v, k);
    ItemInside(v.items, k);
    ItemAtRepresentable(v.items, k);
    LeadIsSpace(d, indent);
    t := StyledLayout(d, Lead(d, indent), indent, Dense(v.items)[k]);
  }

  lemma NoElements(document: string, indent: string, v: Value)
    requires v.Arr?
    ensures ElementsPrinted([], document, indent, v, 0, "")
  {
  }

  lemma LineElementsGrow(document: string, indent: string, v: Value, n: nat, es: seq<Element>, t: Tree, after: string)
    returns (es': seq<Element>)
    requires Representable(v) && v.Arr? && n < |Dense(v.items)| && Spaces(after)
    requires ElementsPrinted(es, document, indent, v, n, "") && ItemPrinted(t, document, indent, v, n)
    ensures ElementsPrinted(es', document, indent, v, n + 1, after)
  {
    es' := es + [Element(t, after)];
    var text := ElementsText(es) + (if n == 0 then "" else ",") + (TreeText(t) + after);
    ElementsGrowBy(es, Element(t, after), ElementsText(es), v, n);
    assert ElementsText(es') == text;
    StyledItemsStep(document, indent, v, n, ElementsText(es), t, after);
  }

  lemma StyledItemsStep(document: string, indent: string, v: Value, n: nat, before: string, t: Tree, after: string)
    requires v.Arr? && n < |Dense(v.items)| && StyledItems(document, indent, v, n) + "" == document + before
    requires var d := BeforeItem(document, indent, v, n);
      LaidOut(t, Styled(d + Lead(d, indent), indent, Dense(v.items)[n]), d, Dense(v.items)[n])
    ensures StyledItems(document, indent, v, n + 1) + after ==
      document + (before + (if n == 0 then "" else ",") + (TreeText(t) + after))
  {
    assert StyledItems(document, indent, v, n) == document + before;
    LineText(document, before, if n == 0 then "" else ",", TreeText(t), after);
  }

  lemma LineText(document: string, before: string, comma: string, t: string, after: string)
    ensures (((document + before) + comma) + t) + after == document + (before + comma + (t + after))
  {
  }

  lemma FlatLayout(v: Value) returns (t: Tree)
    requires Representable(v) && Flat(v)
    ensures TreeText(t) == " " + FlatText(v) && WellFormed(t, false) && TreeValue(t) == CutNames(v) &&
      Height(t) == Depth(v)
  {
    match v {
      case Arr(_) => t := ArrayTree(" ", []);
      case Obj(_) => t := ObjectTree(" ", []);
      case _ => t := Leaf(" ", ScalarText(v), CutNames(v));
    }
  }

  /** What stands between the brackets of a single line. */
  function LineInside(vs: seq<Value>, n: nat, after: string): string
    requires n <= |vs|
  {
    if n == 0 then "" else " " + FlatLine(vs, n) + after
  }

  /** `es` are the first `n` elements on a single line, with white space `after` behind the last one. */
  ghost predicate OnLine(es: seq<Element>, v: Value, n: nat, after: string)
    requires v.Arr? && n <= |Dense(v.items)|
  {
    ElementsLaidOut(es, LineInside(Dense(v.items), n, after), v, n)
  }

  lemma LineOfElements(v: Value, n: nat, after: string) returns (es: seq<Element>)
    requires Representable(v) && v.Arr? && n <= |Dense(v.items)| && Spaces(after) && AllFlat(Dense(v.items))
    ensures OnLine(es, v, n, after)
  {
    es := [];
    NoneOnLine(v, after);
    NoneOnLine(v, "");
    if n > 0 {
      for k := 0 to n - 1
        invariant OnLine(es, v, k, "")
      {
        es := LineGrows(v, k, es, "");
      }
      es := LineGrows(v, n - 1, es, after);
    }
  }

  lemma NoneOnLine(v: Value, after: string)
    requires v.Arr?
    ensures OnLine([], v, 0, after)
  {
  }

  /** One more element on the line. */
  lemma LineGrows(v: Value, n: nat, before: seq<Element>, after: string) returns (es: seq<Element>)
    requires Representable(v) && v.Arr? && n < |Dense(v.items)| && Spaces(after) && AllFlat(Dense(v.items))
    requires OnLine(before, v, n, "")
    ensures OnLine(es, v, n + 1, after)
  {
    ItemAtRepresentable(v.items, n);
    var t := FlatLayout(Dense(v.items)[n]);
    es := before + [Element(t, after)];
    ElementsGrowBy(before, Element(t, after), LineInside(Dense(v.items), n, ""), v, n);
    InsideGrows(Dense(v.items), n, after);
  }

  lemma InsideGrows(vs: seq<Value>, n: nat, after: string)
    requires n < |vs|
    ensures LineInside(vs, n, "") + (if n == 0 then "" else ",") + ((" " + FlatText(vs[n])) + after) ==
      LineInside(vs, n + 1, after)
  {
    JoinText(FlatLine(vs, n), FlatText(vs[n]), after);
  }

  lemma JoinText(joined: string, t: string, after: string)
    ensures (" " + joined + "") + "," + ((" " + t) + after) == " " + (joined + ", " + t) + after
    ensures "" + "" + ((" " + t) + after) == " " + ("" + "" + t) + after
  {
  }

  lemma {:induction false} MembersLayout(document: string, lead: string, indent: string, v: Value) returns (t: Tree)
    requires Representable(v) && v.Obj? && v.members != [] && Spaces(lead) && Spaces(indent)
    ensures LaidOut(t, Styled(document + lead, indent, v), document, v)
    decreases Depth(v), 2
  {
    var n, first := |v.members|, lead + Lead(document + lead, indent);
    LeadIsSpace(document + lead, indent);
    var start := document + first + "{";
    assert Indented(document + lead, indent) + "{" == start;
    var lines := StyledMembers(start, indent + INDENT, v, n);
    LeadIsSpace(lines, indent);
    var fs := LineFields(start, indent + INDENT, v, n, Lead(lines, indent));
    t := ObjectTree(first, fs);
    Around(document, first, "{", FieldsText(fs), "}");
    assert v.members[..n] == v.members;
  }

  ghost predicate FieldsLaidOut(fs: seq<Field>, text: string, v: Value, n: nat)
    requires v.Obj? && n <= |v.members|
  {
    |fs| == n && FieldsShow(fs, false, text, CutMembers(v, n), EntriesDepth(v.members[..n]))
  }

  /** `fs` are the first `n` members printed behind `document`, with white space `after` behind the last one. */
  ghost predicate FieldsPrinted(fs: seq<Field>, document: string, indent: string, v: Value, n: nat, after: string)
    requires v.Obj? && n <= |v.members|
  {
    StyledMembers(document, indent, v, n) + after == document + FieldsText(fs) &&
      FieldsLaidOut(fs, FieldsText(fs), v, n)
  }

  /** `e` is the member `m` printed behind `document`. */
  ghost predicate FieldPrinted(e: Field, document: string, indent: string, m: Entry<string, Value>, after: string) {
    && e.space == Lead(document, indent) && Spaces(e.space) && e.name == CString(m.key) && e.quoted == Quote(e.name)
    && e.beforeColon == " " && Spaces(e.beforeColon) && e.after == after
    && LaidOut(e.tree, Styled(NameBehind(document, indent, m.key) + " ", indent, m.value),
      NameBehind(document, indent, m.key), m.value)
  }

  lemma {:induction false} LineFields(document: string, indent: string, v: Value, n: nat, after: string)
    returns (fs: seq<Field>)
    requires Representable(v) && v.Obj? && 0 < n <= |v.members| && Spaces(indent) && Spaces(after)
    ensures FieldsPrinted(fs, document, indent, v, n, after)
    decreases Depth(v), 1
  {
    NoFields(document, indent, v);
    fs := [];
    for k := 0 to n - 1
      invariant FieldsPrinted(fs, document, indent, v, k, "")
    {
      fs := LineFieldBehind(document, indent, v, k, fs, "");
    }
    fs := LineFieldBehind(document, indent, v, n - 1, fs, after);
  }

  lemma {:induction false} LineFieldBehind(document: string, indent: string, v: Value, k: nat, fs: seq<Field>,
                                           after: string)
    returns (fs': seq<Field>)
    requires Representable(v) && v.Obj? && k < |v.members| && Spaces(indent) && Spaces(after)
    requires FieldsPrinted(fs, document, indent, v, k, "")
    ensures FieldsPrinted(fs', document, indent, v, k + 1, after)
    decreases Depth(v), 0, 1
  {
    var e := LineField(document, indent, v, k, after);
    fs' := LineFieldsGrow(document, indent, v, k, fs, e, after);
  }

  lemma NoFields(document: string, indent: string, v: Value)
    requires v.Obj?
    ensures FieldsPrinted([], document, indent, v, 0, "")
  {
  }

  lemma LineFieldsGrow(document: string, indent: string, v: Value, n: nat, fs: seq<Field>, e: Field, after: string)
    returns (fs': seq<Field>)
    requires Representable(v) && v.Obj? && n < |v.members| && Spaces(after)
    requires FieldsPrinted(fs, document, indent, v, n, "")
    requires FieldPrinted(e, BeforeMember(document, indent, v, n), indent, v.members[n], after)
    ensures FieldsPrinted(fs', document, indent, v, n + 1, after)
  {
    fs' := fs + [e];
    var text := FieldsText(fs) + (if n == 0 then "" else ",") +
      (e.space + (e.quoted + (e.beforeColon + (":" + (TreeText(e.tree) + e.after)))));
    FieldsGrowBy(fs, e, FieldsText(fs), v, n);
    assert FieldsText(fs') == text;
    StyledMembersStep(document, indent, v, n, FieldsText(fs), e);
  }

  /** Member `k` behind the members in front of it, as a field with the white space `after` behind it. */
  lemma {:induction false} LineField(document: string, indent: string, v: Value, k: nat, after: string)
    returns (e: Field)
    requires Representable(v) && v.Obj? && k < |v.members| && Spaces(indent)
    ensures FieldPrinted(e, BeforeMember(document, indent, v, k), indent, v.members[k], after)
    decreases Depth(v), 0, 0
  {
    var d, m := BeforeMember(document, indent, v, k), v.members[k];
    MemberInside(v, k);
    LeadIsSpace(d, indent);
    var t := StyledLayout(NameBehind(d, indent, m.key), " ", indent, m.value);
    e := Field(Lead(d, indent), Quote(CString(m.key)), CString(m.key), " ", t, after);
  }

  lemma MemberInside(v: Value, k: nat)
    requires Representable(v) && v.Obj? && k < |v.members|
    ensures Representable(v.members[k].value) && Depth(v.members[k].value) < Depth(v)
  {
  }

  lemma StyledMembersStep(document: string, indent: string, v: Value, n: nat, before: string, e: Field)
    requires v.Obj? && n < |v.members| && StyledMembers(document, indent, v, n) + "" == document + before
    requires var d, m := BeforeMember(document, indent, v, n), v.members[n];
      && e.space == Lead(d, indent) && e.quoted == Quote(CString(m.key)) && e.beforeColon == " "
      && LaidOut(e.tree, Styled(NameBehind(d, indent, m.key) + " ", indent, m.value), NameBehind(d, indent, m.key),
        m.value)
    ensures StyledMembers(document, indent, v, n + 1) + e.after ==
      document + (before + (if n == 0 then "" else ",") +
      (e.space + (e.quoted + (e.beforeColon + (":" + (TreeText(e.tree) + e.after))))))
  {
    assert StyledMembers(document, indent, v, n) == document + before;
    FieldLineText(document, before, if n == 0 then "" else ",", e.space, e.quoted, TreeText(e.tree), e.after);
  }

  lemma FieldsGrowBy(fs: seq<Field>, e: Field, text: string, v: Value, n: nat)
    requires Representable(v) && v.Obj? && n < |v.members| && FieldsLaidOut(fs, text, v, n)
    requires WellFormed(e.tree, false) && Spaces(e.after)
    requires Spaces(e.space) && Spaces(e.beforeColon) && e.quoted == Quote(e.name) &&
      e.name == CString(v.members[n].key)
    requires TreeValue(e.tree) == CutNames(v.members[n].value) && Height(e.tree) == Depth(v.members[n].value)
    ensures FieldsLaidOut(fs + [e], text + (if n == 0 then "" else ",") +
              (e.space + (e.quoted + (e.beforeColon + (":" + (TreeText(e.tree) + e.after))))), v, n + 1)
  {
    FieldsShowSnoc(fs, e, false, text, CutMembers(v, n), EntriesDepth(v.members[..n]));
    assert v.members[..n + 1] == v.members[..n] + [v.members[n]];
    EntriesDepthSnoc(v.members[..n], v.members[n]);
    assert Key(e.name) == e.name;
  }

  lemma FieldLineText(document: string, before: string, comma: string, space: string, quoted: string,
                      t: string, after: string)
    ensures (((((document + before) + comma) + space) + (quoted + " :")) + t) + after ==
      document + (before + comma + (space + (quoted + (" " + (":" + (t + after))))))
  {
    assert quoted + (" " + (":" + (t + after))) == (quoted + " :") + t + after;
  }

  // ----- the round trip -----

  /** The reader gives back every indented value, with its names cut, unless it nests too deep. */
  lemma StyledRoundTrip(f: Features, v: Value, root: Value)
    requires Representable(v)
    ensures Parse(f, StyledDocument(v), root) == Verdict(f, StyledDocument(v), Depth(v), CutNames(v))
  {
    var t := DocumentLayout(v);
    if f.allowDroppedNullPlaceholders {
      WellFormedMore(t, false);
    }
    ParseLayout(f, StyledDocument(v), root, t, "\n");
  }

  lemma DocumentLayout(v: Value) returns (t: Tree)
    requires Representable(v)
    ensures TreeText(t) == Styled("", "", v) && WellFormed(t, false) && TreeValue(t) == CutNames(v) &&
      Height(t) == Depth(v)
  {
    t := StyledLayout("", "", "", v);
    assert "" + "" == "" && "" + TreeText(t) == TreeText(t);
  }

  // ----- what cutting names loses -----

  predicate NulFree(v: Value)
    decreases Depth(v)
  {
    match v
    case Arr(items) => forall i :: 0 <= i < |Dense(items)| ==> (ItemInside(items, i); NulFree(Dense(items)[i]))
    case Obj(members) => forall i :: 0 <= i < |members| ==> '\0' !in members[i].key && NulFree(members[i].value)
    case _ => true
  }

  /** Cutting names changes a value if and only if one of its names contains a NUL. */
  lemma {:induction false} CutNamesLoses(v: Value)
    requires Representable(v)
    ensures CutNames(v) == Canon(false, v) <==> NulFree(v)
    decreases Depth(v), 1
  {
    match v {
      case Arr(_) => CutItemsLose(v);
      case Obj(_) => CutMembersLose(v);
      case _ =>
    }
  }

  lemma {:induction false} CutItemsLose(v: Value)
    requires Representable(v) && v.Arr?
    ensures CutNames(v) == Canon(false, v) <==> NulFree(v)
    decreases Depth(v), 0
  {
    var n := |Dense(v.items)|;
    CutItemsValues(v, n);
    var a, b := CutItems(v, n), CanonItems(false, v, n);
    forall i | 0 <= i < n
      ensures a[i] == b[i] <==> NulFree(Dense(v.items)[i])
    {
      ItemInside(v.items, i);
      ItemAtRepresentable(v.items, i);
      CutNamesLoses(Dense(v.items)[i]);
    }
  }

  lemma {:induction false} CutMembersLose(v: Value)
    requires Representable(v) && v.Obj?
    ensures CutNames(v) == Canon(false, v) <==> NulFree(v)
    decreases Depth(v), 0
  {
    var n := |v.members|;
    var a, b := CutMembers(v, n), CanonMembers(false, v, n);
    if i :| 0 <= i < n && '\0' in v.members[i].key {
      CutMembersNulFree(v, n);
      assert b[i].key == v.members[i].key;
    } else {
      CutMembersPlain(v, n);
      forall i | 0 <= i < n
        ensures a[i] == b[i] <==> NulFree(v.members[i].value)
      {
        CutNamesLoses(v.members[i].value);
      }
    }
  }

  lemma {:induction false} CutItemsValues(v: Value, n: nat)
    requires v.Arr? && n <= |Dense(v.items)|
    ensures forall i :: 0 <= i < n ==> CutItems(v, n)[i] == Entry(i, CutNames(Dense(v.items)[i]))
  {
    if n > 0 {
      CutItemsValues(v, n - 1);
    }
  }

  lemma {:induction false} InsertKeepsNulFree(m: seq<Entry<string, Value>>, key: string, value: Value)
    requires (forall i :: 0 <= i < |m| ==> '\0' !in m[i].key) && '\0' !in key
    ensures forall i :: 0 <= i < |Insert(m, key, value)| ==> '\0' !in Insert(m, key, value)[i].key
  {
    if m != [] && StringLess(m[0].key, key) {
      InsertKeepsNulFree(m[1..], key, value);
    }
  }

  lemma {:induction false} CutMembersNulFree(v: Value, n: nat)
    requires v.Obj? && n <= |v.members|
    ensures forall i :: 0 <= i < |CutMembers(v, n)| ==> '\0' !in CutMembers(v, n)[i].key
  {
    if n > 0 {
      CutMembersNulFree(v, n - 1);
      InsertKeepsNulFree(CutMembers(v, n - 1), CString(v.members[n - 1].key), CutNames(v.members[n - 1].value));
    }
  }

  lemma {:induction false} CutMembersPlain(v: Value, n: nat)
    requires v.Obj? && Sorted(v.members) && n <= |v.members|
    requires forall i :: 0 <= i < n ==> '\0' !in v.members[i].key
    ensures |CutMembers(v, n)| == n
    ensures forall i :: 0 <= i < n ==> CutMembers(v, n)[i] == Entry(v.members[i].key, CutNames(v.members[i].value))
  {
    if n > 0 {
      CutMembersPlain(v, n - 1);
      InsertLast(CutMembers(v, n - 1), v.members[n - 1].key, CutNames(v.members[n - 1].value));
    }
  }

  /** The indented and the compact document of a value read alike if and only if no name contains a
      NUL, or both nest too deep. */
  lemma PrintersAgree(f: Features, v: Value, root: Value)
    requires Representable(v)
    ensures Parse(f, StyledDocument(v), root) == Parse(f, FastDocument(FastOptions(false, false, false), v), root) <==>
      NulFree(v) || Depth(v) >= 1000
  {
    var o := FastOptions(false, false, false);
    CanonDepth(v);
    CutNamesLoses(v);
    StyledRoundTrip(f, v, root);
    ReadsBack(f, o, v, root);
    CutKeepsShape(v);
    VerdictsAgree(f, StyledDocument(v), FastDocument(o, v), Depth(v), CutNames(v), Canon(false, v));
  }

  lemma CutKeepsShape(v: Value)
    ensures Container(CutNames(v)) == Container(Canon(false, v)) == Container(v)
    ensures !Container(v) ==> StyledDocument(v) == FastDocument(FastOptions(false, false, false), v)
  {
  }

  /** Verdicts on two documents agree if and only if their values do or both nest too deep. */
  lemma VerdictsAgree(f: Features, a: string, b: string, levels: nat, v: Value, w: Value)
    requires Container(v) == Container(w) && (!Container(v) ==> a == b)
    ensures Verdict(f, a, levels, v) == Verdict(f, b, levels, w) <==> v == w || levels >= STACK_LIMIT
  {
  }
}

/** The compact printer, and its text as a layout. */
module JsonFastWriter {
  import opened Text
  import opened OrderedMap
  import opened JsonValue
  import opened JsonNumbers
  import opened JsonStrings
  import opened JsonGrammar
  import opened JsonLayout

  datatype FastOptions = FastOptions(yamlCompatibility: bool, dropNullPlaceholders: bool, omitEndingLineFeed: bool)

  // ----- what is printed -----

  function Colon(o: FastOptions): string {
    if o.yamlCompatibility then ": " else ":"
  }

  function FastText(o: FastOptions, v: Value): string
    decreases Depth(v), 1
  {
    match v
    case Null => if o.dropNullPlaceholders then "" else "null"
    case Arr(items) => "[" + (FastItems(o, v, |Dense(items)|) + "]")
    case Obj(members) => "{" + (FastMembers(o, v, |members|) + "}")
    case _ => ScalarText(v)
  }

  /** The first `n` values of an array, gaps printed as null. */
  function FastItems(o: FastOptions, v: Value, n: nat): string
    requires v.Arr? && n <= |Dense(v.items)|
    decreases Depth(v), 0, n
  {
    if n == 0 then ""
    else
      ItemInside(v.items, n - 1);
      FastItems(o, v, n - 1) + (if n == 1 then "" else ",") + FastText(o, Dense(v.items)[n - 1])
  }

  function FastMembers(o: FastOptions, v: Value, n: nat): string
    requires v.Obj? && n <= |v.members|
    decreases Depth(v), 0, n
  {
    if n == 0 then ""
    else
      FastMembers(o, v, n - 1) + (if n == 1 then "" else ",") +
      (Quote(v.members[n - 1].key) + (Colon(o) + FastText(o, v.members[n - 1].value)))
  }

  function FastDocument(o: FastOptions, v: Value): string {
    FastText(o, v) + if o.omitEndingLineFeed then "" else "\n"
  }

  lemma NextItem(o: FastOptions, v: Value, k: nat, start: string)
    requires v.Arr? && k < |Dense(v.items)|
    ensures (start + FastItems(o, v, k)) + ((if k == 0 then "" else ",") + FastText(o, Dense(v.items)[k])) ==
      start + FastItems(o, v, k + 1)
  {
  }

  lemma NextMember(o: FastOptions, v: Value, k: nat, start: string)
    requires v.Obj? && k < |v.members|
    ensures (start + FastMembers(o, v, k)) + (if k == 0 then "" else ",") +
      (Quote(v.members[k].key) + (Colon(o) + FastText(o, v.members[k].value))) == start + FastMembers(o, v, k + 1)
  {
  }

  lemma Close(before: string, open: string, inside: string, close: string)
    ensures ((before + open) + inside) + close == before + (open + (inside + close))
  {
  }

  /** The writer object: `document_` is all its state. */
  class FastWriter {
    const options: FastOptions
    var document: string

    constructor (options: FastOptions)
      ensures this.options == options && document == ""
    {
      this.options := options;
      document := "";
    }

    method Write(root: Value) returns (text: string)
      requires Representable(root)
      modifies this
      ensures text == document == FastDocument(options, root)
    {
      document := "";
      WriteValue(root);
      if !options.omitEndingLineFeed {
        document := document + "\n";
      }
      text := document;
    }

    method WriteValue(value: Value)
      requires Representable(value)
      modifies this
      ensures document == old(document) + FastText(options, value)
      decreases Depth(value), 2
    {
      match value {
        case Null =>
          if !options.dropNullPlaceholders {
            document := document + "null";
          }
        case Int(i) =>
          var t := ValueToString(i);
          document := document + t;
        case UInt(u) =>
          var t := ValueToString(u);
          document := document + t;
        case Real(_) =>
        case Str(s) =>
          var t := ValueToQuotedString(s);
          document := document + t;
        case Bool(b) =>
          document := document + if b then "true" else "false";
        case Arr(_) => WriteArray(value);
        case Obj(_) => WriteObject(value);
      }
    }

    method WriteArray(value: Value)
      requires Representable(value) && value.Arr?
      modifies this
      ensures document == old(document) + ("[" + (FastItems(options, value, |Dense(value.items)|) + "]"))
      decreases Depth(value), 1
    {
      document := document + "[";
      ghost var start := document;
      var size := ArraySize(value.items);
      for index := 0 to size
        invariant document == start + FastItems(options, value, index)
      {
        WriteItem(value, index);
        NextItem(options, value, index, start);
      }
      Close(old(document), "[", FastItems(options, value, size), "]");
      document := document + "]";
    }

    /** One element: `value[index]`, null in a gap. */
    method WriteItem(value: Value, index: nat)
      requires Representable(value) && value.Arr? && index < ArraySize(value.items)
      modifies this
      ensures document ==
        old(document) + ((if index == 0 then "" else ",") + FastText(options, Dense(value.items)[index]))
      decreases Depth(value), 0
    {
      if index > 0 {
        document := document + ",";
      }
      ItemInside(value.items, index);
      ItemAtRepresentable(value.items, index);
      WriteValue(ItemAt(value.items, index));
    }

    method WriteObject(value: Value)
      requires Representable(value) && value.Obj?
      modifies this
      ensures document == old(document) + ("{" + (FastMembers(options, value, |value.members|) + "}"))
      decreases Depth(value), 1
    {
      document := document + "{";
      ghost var start := document;
      for k := 0 to |value.members|
        invariant document == start + FastMembers(options, value, k)
      {
        WriteMember(value, k);
        NextMember(options, value, k, start);
      }
      Close(old(document), "{", FastMembers(options, value, |value.members|), "}");
      document := document + "}";
    }

    /** One member: its name as a string, and the value the object has under that name. */
    method WriteMember(value: Value, k: nat)
      requires Representable(value) && value.Obj? && k < |value.members|
      modifies this
      ensures document == old(document) + (if k == 0 then "" else ",") +
        (Quote(value.members[k].key) + (Colon(options) + FastText(options, value.members[k].value)))
      decreases Depth(value), 0
    {
      var name := value.members[k].key;
      ghost var before := document + if k == 0 then "" else ",";
      if k > 0 {
        document := document + ",";
      }
      var quoted := ValueToQuotedString(name);
      document := document + quoted;
      document := document + if options.yamlCompatibility then ": " else ":";
      FindIndex(value.members, k);
      MemberJoined(before, quoted, Colon(options), FastText(options, value.members[k].value));
      WriteValue(Find(value.members, Key(name)).GetOr(Null));
    }
  }

  lemma MemberJoined(before: string, quoted: string, colon: string, text: string)
    ensures ((before + quoted) + colon) + text == before + (quoted + (colon + text))
  {
  }

  // ----- the layout of a printed value -----

  /** The text of `v` behind the white space `lead`, as a tree. */
  function FastTree(o: FastOptions, v: Value, lead: string): Tree
    decreases Depth(v), 1
  {
    match v
    case Null => if o.dropNullPlaceholders then Dropped(lead) else Leaf(lead, "null", Null)
    case Int(i) => Leaf(lead, ScalarText(v), NumberValue(i))
    case UInt(u) => Leaf(lead, ScalarText(v), NumberValue(u))
    case Arr(items) =>
      if o.dropNullPlaceholders && Dense(items) == [Null] then ArrayTree(lead, [])
      else ArrayTree(lead, FastElements(o, v, |Dense(items)|))
    case Obj(members) => ObjectTree(lead, FastFields(o, v, |members|))
    case _ => Leaf(lead, ScalarText(v), v)
  }

  function FastElements(o: FastOptions, v: Value, n: nat): (es: seq<Element>)
    requires v.Arr? && n <= |Dense(v.items)|
    ensures |es| == n
    decreases Depth(v), 0, n
  {
    if n == 0 then []
    else
      ItemInside(v.items, n - 1);
      FastElements(o, v, n - 1) + [Element(FastTree(o, Dense(v.items)[n - 1], ""), "")]
  }

  function FastFields(o: FastOptions, v: Value, n: nat): (fs: seq<Field>)
    requires v.Obj? && n <= |v.members|
    ensures |fs| == n
    decreases Depth(v), 0, n
  {
    if n == 0 then [] else FastFields(o, v, n - 1) + [FastField(o, v, n - 1)]
  }

  function FastField(o: FastOptions, v: Value, k: nat): Field
    requires v.Obj? && k < |v.members|
    decreases Depth(v), 0, k
  {
    Field("", Quote(v.members[k].key), v.members[k].key, "",
          FastTree(o, v.members[k].value, if o.yamlCompatibility then " " else ""), "")
  }

  /** The printed text is the text of that tree; the tree is well formed and stands for `Canon`. */
  ghost predicate Faithful(o: FastOptions, v: Value, lead: string) {
    var t := FastTree(o, v, lead);
    && TreeText(t) == lead + FastText(o, v)
    && WellFormed(t, o.dropNullPlaceholders)
    && TreeValue(t) == Canon(o.dropNullPlaceholders, v)
    && Height(t) == Depth(Canon(o.dropNullPlaceholders, v))
  }

  lemma {:induction false} FastTreeFaithful(o: FastOptions, v: Value, lead: string)
    requires Representable(v) && Spaces(lead)
    ensures Faithful(o, v, lead)
    decreases Depth(v), 1
  {
    match v {
      case Arr(items) => ArrayFaithful(o, v, lead);
      case Obj(members) => ObjectFaithful(o, v, lead);
      case _ =>
    }
  }

  lemma {:induction false} ArrayFaithful(o: FastOptions, v: Value, lead: string)
    requires Representable(v) && v.Arr? && Spaces(lead)
    ensures Faithful(o, v, lead)
    decreases Depth(v), 0, 2
  {
    if o.dropNullPlaceholders && Dense(v.items) == [Null] {
      LoneNullFaithful(o, v, lead);
    } else {
      ElementsFaithful(o, v, |Dense(v.items)|);
      FullArrayFaithful(o, v, lead);
    }
  }

  lemma LoneNullFaithful(o: FastOptions, v: Value, lead: string)
    requires v.Arr? && Spaces(lead) && o.dropNullPlaceholders && Dense(v.items) == [Null]
    ensures Faithful(o, v, lead)
  {
    assert FastItems(o, v, 1) == FastItems(o, v, 0) + "" + "";
    assert FastText(o, v) == "[" + "" + "]";
  }

  lemma FullArrayFaithful(o: FastOptions, v: Value, lead: string)
    requires v.Arr? && Spaces(lead) && !(o.dropNullPlaceholders && Dense(v.items) == [Null])
    requires ElementsShown(o, v, |Dense(v.items)|)
    ensures Faithful(o, v, lead)
  {
    var n := |Dense(v.items)|;
    if n == 1 {
      LoneElement(o, v);
    }
    assert FastTree(o, v, lead) == ArrayTree(lead, FastElements(o, v, n));
    assert Canon(o.dropNullPlaceholders, v) == Arr(CanonItems(o.dropNullPlaceholders, v, n));
  }

  lemma LoneElement(o: FastOptions, v: Value)
    requires v.Arr? && !(o.dropNullPlaceholders && Dense(v.items) == [Null]) && |Dense(v.items)| == 1
    ensures !FastElements(o, v, 1)[0].tree.Dropped?
  {
    assert FastElements(o, v, 1) == [Element(FastTree(o, Dense(v.items)[0], ""), "")];
    assert Dense(v.items) == [Dense(v.items)[0]];
  }

  /** The first `n` elements print, read and nest as they should. */
  ghost predicate ElementsShown(o: FastOptions, v: Value, n: nat)
    requires v.Arr? && n <= |Dense(v.items)|
  {
    var r := CanonItems(o.dropNullPlaceholders, v, n);
    ElementsShow(FastElements(o, v, n), o.dropNullPlaceholders, FastItems(o, v, n), r, EntriesDepth<nat>(r))
  }

  lemma {:induction false} ElementsFaithful(o: FastOptions, v: Value, n: nat)
    requires Representable(v) && v.Arr? && n <= |Dense(v.items)|
    ensures ElementsShown(o, v, n)
    decreases Depth(v), 0, 1
  {
    assert ElementsShown(o, v, 0);
    for k := 0 to n
      invariant ElementsShown(o, v, k)
    {
      ElementFaithful(o, v, k);
    }
  }

  lemma {:induction false} ElementFaithful(o: FastOptions, v: Value, k: nat)
    requires Representable(v) && v.Arr? && k < |Dense(v.items)| && ElementsShown(o, v, k)
    ensures ElementsShown(o, v, k + 1)
    decreases Depth(v), 0, 0
  {
    var x := Dense(v.items)[k];
    ItemInside(v.items, k);
    ItemAtRepresentable(v.items, k);
    FastTreeFaithful(o, x, "");
    ElementsGrow(FastElements(o, v, k), FastTree(o, x, ""), o.dropNullPlaceholders, FastItems(o, v, k),
                 CanonItems(o.dropNullPlaceholders, v, k), FastText(o, x));
    ItemsUnfold(o, v, k + 1);
  }

  /** One more element. */
  lemma ElementsGrow(es: seq<Element>, t: Tree, drop: bool, text: string,
                     r: seq<Entry<nat, Value>>, itemText: string)
    requires ElementsShow(es, drop, text, r, EntriesDepth<nat>(r))
    requires TreeText(t) == "" + itemText && WellFormed(t, drop) && Height(t) == Depth(TreeValue(t))
    ensures var r': seq<Entry<nat, Value>> := r + [Entry(|es|, TreeValue(t))];
      ElementsShow(es + [Element(t, "")], drop, text + (if es == [] then "" else ",") + itemText, r',
        EntriesDepth<nat>(r'))
  {
    assert TreeText(t) + "" == itemText;
    ElementsShowSnoc(es, Element(t, ""), drop, text, r, EntriesDepth<nat>(r));
    EntriesDepthSnoc<nat>(r, Entry(|es|, TreeValue(t)));
  }

  lemma ItemsUnfold(o: FastOptions, v: Value, n: nat)
    requires v.Arr? && 0 < n <= |Dense(v.items)|
    ensures Depth(Dense(v.items)[n - 1]) < Depth(v)
    ensures var x := Dense(v.items)[n - 1];
      && FastElements(o, v, n) == FastElements(o, v, n - 1) + [Element(FastTree(o, x, ""), "")]
      && FastItems(o, v, n) == FastItems(o, v, n - 1) + (if n == 1 then "" else ",") + FastText(o, x)
      && CanonItems(o.dropNullPlaceholders, v, n) ==
        CanonItems(o.dropNullPlaceholders, v, n - 1) + [Entry(n - 1, Canon(o.dropNullPlaceholders, x))]
  {
    ItemInside(v.items, n - 1);
  }

  lemma MembersUnfold(o: FastOptions, v: Value, n: nat)
    requires v.Obj? && 0 < n <= |v.members|
    ensures var m := v.members[n - 1];
      && FastFields(o, v, n) == FastFields(o, v, n - 1) + [FastField(o, v, n - 1)]
      && FastMembers(o, v, n) ==
        FastMembers(o, v, n - 1) + (if n == 1 then "" else ",") + (Quote(m.key) + (Colon(o) + FastText(o, m.value)))
      && CanonMembers(o.dropNullPlaceholders, v, n) ==
        CanonMembers(o.dropNullPlaceholders, v, n - 1) + [Entry(m.key, Canon(o.dropNullPlaceholders, m.value))]
  {
  }

  lemma {:induction false} EntriesDepthSnoc<K>(es: seq<Entry<K, Value>>, e: Entry<K, Value>)
    ensures EntriesDepth(es + [e]) == Max(EntriesDepth(es), Depth(e.value))
    decreases |es|
  {
    if es == [] {
      assert es + [e] == [e] && [e][1..] == [];
    } else {
      assert (es + [e])[1..] == es[1..] + [e];
      EntriesDepthSnoc(es[1..], e);
    }
  }

  lemma {:induction false} ObjectFaithful(o: FastOptions, v: Value, lead: string)
    requires Representable(v) && v.Obj? && Spaces(lead)
    ensures Faithful(o, v, lead)
    decreases Depth(v), 0, 2
  {
    FieldsFaithful(o, v, |v.members|);
  }

  /** The first `n` members print, read and nest as they should. */
  ghost predicate FieldsShown(o: FastOptions, v: Value, n: nat)
    requires v.Obj? && n <= |v.members|
  {
    var r := CanonMembers(o.dropNullPlaceholders, v, n);
    FieldsShow(FastFields(o, v, n), o.dropNullPlaceholders, FastMembers(o, v, n), r, EntriesDepth(r))
  }

  lemma {:induction false} FieldsFaithful(o: FastOptions, v: Value, n: nat)
    requires Representable(v) && v.Obj? && n <= |v.members|
    ensures FieldsShown(o, v, n)
    decreases Depth(v), 0, 1
  {
    assert FieldsShown(o, v, 0);
    for k := 0 to n
      invariant FieldsShown(o, v, k)
    {
      FieldFaithful(o, v, k);
    }
  }

  lemma {:induction false} FieldFaithful(o: FastOptions, v: Value, k: nat)
    requires Representable(v) && v.Obj? && k < |v.members| && FieldsShown(o, v, k)
    ensures FieldsShown(o, v, k + 1)
    decreases Depth(v), 0, 0
  {
    FastTreeFaithful(o, v.members[k].value, if o.yamlCompatibility then " " else "");
    FieldFits(o, v, k);
    FieldsGrow(FastFields(o, v, k), FastField(o, v, k), o.dropNullPlaceholders, FastMembers(o, v, k),
               CanonMembers(o.dropNullPlaceholders, v, k));
    MembersUnfold(o, v, k + 1);
  }

  lemma FieldFits(o: FastOptions, v: Value, k: nat)
    requires Representable(v) && v.Obj? && k < |v.members|
    requires Faithful(o, v.members[k].value, if o.yamlCompatibility then " " else "")
    ensures var e := FastField(o, v, k);
      && WellFormed(e.tree, o.dropNullPlaceholders) && Spaces(e.space) && Spaces(e.beforeColon) &&
        e.quoted == Quote(e.name)
      && e.after == "" && Height(e.tree) == Depth(TreeValue(e.tree)) && Key(e.name) == e.name == v.members[k].key
      && TreeValue(e.tree) == Canon(o.dropNullPlaceholders, v.members[k].value)
      && e.space + (e.quoted + (e.beforeColon + (":" + (TreeText(e.tree) + e.after)))) ==
        Quote(e.name) + (Colon(o) + FastText(o, v.members[k].value))
    ensures forall i :: 0 <= i < k ==> StringLess(CanonMembers(o.dropNullPlaceholders, v, k)[i].key, v.members[k].key)
  {
    FieldText(o, v.members[k].key, FastText(o, v.members[k].value), if o.yamlCompatibility then " " else "");
  }

  /** One more field, under a key greater than all others. */
  lemma FieldsGrow(fs: seq<Field>, e: Field, drop: bool, text: string, r: seq<Entry<string, Value>>)
    requires FieldsShow(fs, drop, text, r, EntriesDepth(r))
    requires WellFormed(e.tree, drop) && Spaces(e.space) && Spaces(e.beforeColon) && e.quoted == Quote(e.name) &&
      e.after == ""
    requires Height(e.tree) == Depth(TreeValue(e.tree))
    requires Key(e.name) == e.name && forall i :: 0 <= i < |r| ==> StringLess(r[i].key, e.name)
    ensures var r' := r + [Entry(e.name, TreeValue(e.tree))];
      FieldsShow(fs + [e], drop, text + (if fs == [] then "" else ",") +
                 (e.space + (e.quoted + (e.beforeColon + (":" + (TreeText(e.tree) + e.after))))), r', EntriesDepth(r'))
  {
    FieldsShowSnoc(fs, e, drop, text, r, EntriesDepth(r));
    InsertLast(r, e.name, TreeValue(e.tree));
    EntriesDepthSnoc(r, Entry(e.name, TreeValue(e.tree)));
  }

  lemma FieldText(o: FastOptions, key: string, text: string, lead: string)
    requires lead == if o.yamlCompatibility then " " else ""
    ensures "" + (Quote(key) + ("" + (":" + (lead + text + "")))) == Quote(key) + (Colon(o) + text)
  {
  }
}

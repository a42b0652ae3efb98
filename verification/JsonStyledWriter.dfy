/** The indenting printer. */
module JsonStyledWriter {
  import opened Text
  import opened OrderedMap
  import opened JsonValue
  import opened JsonNumbers
  import opened JsonStrings
  import opened JsonGrammar
  import opened JsonLayout
  import opened JsonFastWriter

  const RIGHT_MARGIN: nat := 74
  const INDENT := "   "

  // ----- what is printed -----

  /** A value that fits on the line of its array: a scalar or an empty container. */
  predicate Flat(v: Value) {
    match v
    case Arr(items) => items == []
    case Obj(members) => members == []
    case _ => true
  }

  function FlatText(v: Value): string {
    match v
    case Arr(_) => "[]"
    case Obj(_) => "{}"
    case _ => ScalarText(v)
  }

  /** The texts of the first `n` values, separated. */
  function FlatLine(vs: seq<Value>, n: nat): string
    requires n <= |vs|
  {
    if n == 0 then "" else FlatLine(vs, n - 1) + (if n == 1 then "" else ", ") + FlatText(vs[n - 1])
  }

  /** The characters of the first `n` texts. */
  function FlatLength(vs: seq<Value>, n: nat): nat
    requires n <= |vs|
  {
    if n == 0 then 0 else FlatLength(vs, n - 1) + |FlatText(vs[n - 1])|
  }

  /** A 32-bit `ArrayIndex`. */
  function Wrap(n: int): nat {
    n % 0x1_0000_0000
  }

  lemma WrapSum(a: int, b: int)
    ensures Wrap(Wrap(a) + Wrap(b)) == Wrap(a + b)
  {
  }

  /** `lineLength`: brackets, separators and elements, in 32 bits. */
  function LineLength(vs: seq<Value>): nat
    requires vs != []
  {
    Wrap(4 + (|vs| - 1) * 2 + FlatLength(vs, |vs|))
  }

  predicate AllFlat(vs: seq<Value>) {
    forall i :: 0 <= i < |vs| ==> Flat(vs[i])
  }

  /** Does an array with these elements take several lines? */
  predicate MultiLine(vs: seq<Value>)
    requires vs != []
  {
    Wrap(|vs| * 3) >= RIGHT_MARGIN || !AllFlat(vs) || LineLength(vs) >= RIGHT_MARGIN
  }

  function SingleLine(vs: seq<Value>): string {
    "[ " + (FlatLine(vs, |vs|) + " ]")
  }

  /** What `writeIndent` adds behind `document`. */
  function Lead(document: string, indent: string): string {
    if document == "" then indent
    else
      var last := document[|document| - 1];
      if last == ' ' then "" else if last == '\n' then indent else "\n" + indent
  }

  function Indented(document: string, indent: string): string {
    document + Lead(document, indent)
  }

  /** The document with `v` printed behind it. */
  function Styled(document: string, indent: string, v: Value): string
    decreases Depth(v), 1
  {
    match v
    case Arr(items) =>
      if items == [] then document + "[]"
      else if MultiLine(Dense(items)) then
        var d := StyledItems(Indented(document, indent) + "[", indent + INDENT, v, |Dense(items)|);
        Indented(d, indent) + "]"
      else document + SingleLine(Dense(items))
    case Obj(members) =>
      if members == [] then document + "{}"
      else
        var d := StyledMembers(Indented(document, indent) + "{", indent + INDENT, v, |members|);
        Indented(d, indent) + "}"
    case _ => document + ScalarText(v)
  }

  /** The document behind `n` elements, each on lines of its own. */
  function StyledItems(document: string, indent: string, v: Value, n: nat): string
    requires v.Arr? && n <= |Dense(v.items)|
    decreases Depth(v), 0, n
  {
    if n == 0 then document
    else
      ItemInside(v.items, n - 1);
      Styled(Indented(BeforeItem(document, indent, v, n - 1), indent), indent, Dense(v.items)[n - 1])
  }

  function BeforeItem(document: string, indent: string, v: Value, n: nat): string
    requires v.Arr? && n < |Dense(v.items)|
    decreases Depth(v), 0, n + 1, 0
  {
    StyledItems(document, indent, v, n) + if n == 0 then "" else ","
  }

  /** The document behind `n` members; names print up to their first NUL. */
  function StyledMembers(document: string, indent: string, v: Value, n: nat): string
    requires v.Obj? && n <= |v.members|
    decreases Depth(v), 0, n
  {
    if n == 0 then document
    else
      var m := v.members[n - 1];
      Styled(NameBehind(BeforeMember(document, indent, v, n - 1), indent, m.key) + " ", indent, m.value)
  }

  function BeforeMember(document: string, indent: string, v: Value, n: nat): string
    requires v.Obj? && n < |v.members|
    decreases Depth(v), 0, n + 1, 0
  {
    StyledMembers(document, indent, v, n) + if n == 0 then "" else ","
  }

  function NameBehind(document: string, indent: string, key: string): string {
    Indented(document, indent) + (Quote(CString(key)) + " :")
  }

  function StyledDocument(v: Value): string {
    Styled("", "", v) + "\n"
  }

  lemma StyledFlat(document: string, indent: string, v: Value)
    requires Flat(v)
    ensures Styled(document, indent, v) == document + FlatText(v)
  {
  }

  lemma NextFlat(vs: seq<Value>, n: nat, start: string)
    requires n < |vs|
    ensures ((start + FlatLine(vs, n)) + (if n == 0 then "" else ", ")) + FlatText(vs[n]) == start + FlatLine(vs, n + 1)
    ensures (start + FlatLine(vs, n)) + "" == start + FlatLine(vs, n)
  {
    Regroup(start, FlatLine(vs, n), if n == 0 then "" else ", ", FlatText(vs[n]));
  }

  lemma Regroup(a: string, b: string, c: string, d: string)
    ensures ((a + b) + c) + d == a + ((b + c) + d)
  {
  }

  lemma IndentUndone(indent: string)
    ensures (indent + INDENT)[..|indent + INDENT| - |INDENT|] == indent
  {
  }

  lemma LinesDone(document: string, indent: string, v: Value)
    requires v.Arr? && v.items != [] && MultiLine(Dense(v.items))
    ensures Styled(document, indent, v) ==
      Indented(StyledItems(Indented(document, indent) + "[", indent + INDENT, v, ArraySize(v.items)), indent) + "]"
  {
  }

  // ----- the writer object -----

  /** `texts` are the texts of the first `n` values. */
  predicate MeasuredTo(texts: seq<string>, vs: seq<Value>, n: nat) {
    |texts| == n <= |vs| && forall i :: 0 <= i < n ==> texts[i] == FlatText(vs[i])
  }

  lemma MeasuredMore(texts: seq<string>, vs: seq<Value>, n: nat)
    requires MeasuredTo(texts, vs, n) && n < |vs|
    ensures MeasuredTo(texts + [FlatText(vs[n])], vs, n + 1)
  {
  }

  /** `texts` are the texts of the values, all flat. */
  predicate Measured(texts: seq<string>, vs: seq<Value>) {
    |texts| == |vs| && forall i :: 0 <= i < |vs| ==> Flat(vs[i]) && texts[i] == FlatText(vs[i])
  }

  class StyledWriter {
    var document: string
    var childValues: seq<string>
    var indentString: string
    var addChildValues: bool

    constructor ()
      ensures document == "" && childValues == [] && indentString == "" && !addChildValues
    {
      document, childValues, indentString, addChildValues := "", [], "", false;
    }

    method Write(root: Value) returns (text: string)
      requires Representable(root)
      modifies this
      ensures text == document == StyledDocument(root)
      ensures indentString == "" && !addChildValues
    {
      document := "";
      addChildValues := false;
      indentString := "";
      WriteValue(root);
      document := document + "\n";
      text := document;
    }

    /** Prints behind the document or, while the line of an array is measured, into `childValues`:
        then only scalars and empty containers are printed. */
    method WriteValue(value: Value)
      requires Representable(value) && (addChildValues ==> Flat(value))
      modifies this
      ensures indentString == old(indentString) && addChildValues == old(addChildValues)
      ensures addChildValues ==> document == old(document) && childValues == old(childValues) + [FlatText(value)]
      ensures !addChildValues ==> document == Styled(old(document), indentString, value)
      decreases Depth(value), 4
    {
      match value {
        case Null => PushValue("null");
        case Int(i) =>
          var t := ValueToString(i);
          PushValue(t);
        case UInt(u) =>
          var t := ValueToString(u);
          PushValue(t);
        case Str(s) =>
          var t := ValueToQuotedString(s);
          PushValue(t);
        case Bool(b) => PushValue(if b then "true" else "false");
        case Arr(_) => WriteArrayValue(value);
        case Obj(members) =>
          if members == [] {
            PushValue("{}");
          } else {
            WriteMembers(value);
          }
      }
    }

    method WriteMembers(value: Value)
      requires Representable(value) && value.Obj? && value.members != [] && !addChildValues
      modifies this
      ensures indentString == old(indentString) && !addChildValues
      ensures document == Styled(old(document), indentString, value)
      decreases Depth(value), 2
    {
      var members := value.members;
      WriteWithIndent("{");
      Indent();
      ghost var start := document;
      var k := 0;
      while true
        invariant 0 <= k < |members| && !addChildValues && indentString == old(indentString) + INDENT
        invariant document == BeforeMember(start, indentString, value, k)
        decreases |members| - k
      {
        WriteMember(value, k, start);
        k := k + 1;
        if k == |members| {
          break;
        }
        document := document + ",";
      }
      IndentUndone(old(indentString));
      Unindent();
      WriteWithIndent("}");
    }

    method WriteMember(value: Value, k: nat, ghost start: string)
      requires Representable(value) && value.Obj? && k < |value.members| && !addChildValues
      requires document == BeforeMember(start, indentString, value, k)
      modifies this
      ensures indentString == old(indentString) && !addChildValues
      ensures document == StyledMembers(start, indentString, value, k + 1)
      decreases Depth(value), 1
    {
      var name := value.members[k].key;
      var quoted := ValueToQuotedString(CString(name));
      WriteWithIndent(quoted);
      ghost var before := Indented(old(document), indentString);
      assert (before + quoted) + " : " == (before + (quoted + " :")) + " ";
      document := document + " : ";
      FindIndex(value.members, k);
      WriteValue(Find(value.members, Key(name)).GetOr(Null));
    }

    method WriteArrayValue(value: Value)
      requires Representable(value) && value.Arr? && (addChildValues ==> Flat(value))
      modifies this
      ensures indentString == old(indentString) && addChildValues == old(addChildValues)
      ensures addChildValues ==> document == old(document) && childValues == old(childValues) + ["[]"]
      ensures !addChildValues ==> document == Styled(old(document), indentString, value)
      decreases Depth(value), 3
    {
      var size := ArraySize(value.items);
      if size == 0 {
        PushValue("[]");
      } else {
        var isArrayMultiLine := IsMultilineArray(value);
        if isArrayMultiLine {
          WriteLines(value);
        } else {
          assert |childValues| == size;
          WriteSingleLine(Dense(value.items));
        }
      }
    }

    method WriteSingleLine(ghost vs: seq<Value>)
      requires Measured(childValues, vs)
      modifies this`document
      ensures document == old(document) + SingleLine(vs)
    {
      document := document + "[ ";
      ghost var start := document;
      for index := 0 to |childValues|
        invariant document == start + FlatLine(vs, index)
      {
        if index > 0 {
          document := document + ", ";
        }
        document := document + childValues[index];
        NextFlat(vs, index, start);
      }
      Close(old(document), "[ ", FlatLine(vs, |vs|), " ]");
      document := document + " ]";
    }

    /** One element a line; their texts may be at hand from measuring the line. */
    method WriteLines(value: Value)
      requires Representable(value) && value.Arr? && value.items != [] && MultiLine(Dense(value.items)) &&
        !addChildValues
      requires childValues != [] ==> Measured(childValues, Dense(value.items))
      modifies this
      ensures indentString == old(indentString) && !addChildValues
      ensures document == Styled(old(document), indentString, value)
      decreases Depth(value), 2
    {
      WriteWithIndent("[");
      Indent();
      WriteEachLine(value, document);
      IndentUndone(old(indentString));
      LinesDone(old(document), old(indentString), value);
      Unindent();
      WriteWithIndent("]");
    }

    method WriteEachLine(value: Value, ghost start: string)
      requires Representable(value) && value.Arr? && value.items != [] && !addChildValues
      requires childValues != [] ==> Measured(childValues, Dense(value.items))
      requires document == start
      modifies this
      ensures indentString == old(indentString) && !addChildValues
      ensures document == StyledItems(start, indentString, value, ArraySize(value.items))
      decreases Depth(value), 1
    {
      var size := ArraySize(value.items);
      var hasChildValue := childValues != [];
      var index := 0;
      while true
        invariant 0 <= index < size && !addChildValues && indentString == old(indentString)
        invariant hasChildValue ==> Measured(childValues, Dense(value.items))
        invariant document == BeforeItem(start, indentString, value, index)
        decreases size - index
      {
        WriteLine(value, index, hasChildValue, start);
        index := index + 1;
        if index == size {
          break;
        }
        document := document + ",";
      }
    }

    method WriteLine(value: Value, index: nat, hasChildValue: bool, ghost start: string)
      requires Representable(value) && value.Arr? && index < ArraySize(value.items) && !addChildValues
      requires hasChildValue ==> Measured(childValues, Dense(value.items))
      requires document == BeforeItem(start, indentString, value, index)
      modifies this
      ensures indentString == old(indentString) && !addChildValues
      ensures hasChildValue ==> childValues == old(childValues)
      ensures document == StyledItems(start, indentString, value, index + 1)
      decreases Depth(value), 0
    {
      ItemInside(value.items, index);
      if hasChildValue {
        WriteWithIndent(childValues[index]);
        StyledFlat(Indented(old(document), indentString), indentString, Dense(value.items)[index]);
      } else {
        WriteIndent();
        ItemAtRepresentable(value.items, index);
        WriteValue(ItemAt(value.items, index));
      }
    }

    /** Measures the array; when all elements are flat their texts are left in `childValues`. */
    method IsMultilineArray(value: Value) returns (isMultiLine: bool)
      requires Representable(value) && value.Arr? && value.items != [] && !addChildValues
      modifies this
      ensures document == old(document) && indentString == old(indentString) && !addChildValues
      ensures isMultiLine == MultiLine(Dense(value.items))
      ensures !isMultiLine || childValues != [] ==>
        Measured(childValues, Dense(value.items))
      decreases Depth(value), 2
    {
      var size := ArraySize(value.items);
      ghost var vs := Dense(value.items);
      isMultiLine := Wrap(size * 3) >= RIGHT_MARGIN;
      childValues := [];
      var index := 0;
      while index < size && !isMultiLine
        invariant 0 <= index <= size && childValues == []
        invariant !isMultiLine ==> forall i :: 0 <= i < index ==> Flat(vs[i])
        invariant isMultiLine ==> Wrap(size * 3) >= RIGHT_MARGIN || exists i :: 0 <= i < |vs| && !Flat(vs[i])
        invariant Wrap(size * 3) >= RIGHT_MARGIN ==> isMultiLine
      {
        isMultiLine := !Flat(ItemAt(value.items, index));
        assert vs[index] == ItemAt(value.items, index);
        index := index + 1;
      }
      if !isMultiLine {
        addChildValues := true;
        var lineLength := MeasureLine(value, size);
        addChildValues := false;
        isMultiLine := lineLength >= RIGHT_MARGIN;
      }
    }

    /** Collects the texts of the elements and adds up their lengths. */
    method MeasureLine(value: Value, size: nat) returns (lineLength: nat)
      requires Representable(value) && value.Arr? && size == ArraySize(value.items) > 0
      requires forall i :: 0 <= i < size ==> Flat(Dense(value.items)[i])
      requires addChildValues && childValues == []
      modifies this
      ensures document == old(document) && indentString == old(indentString) && addChildValues
      ensures Measured(childValues, Dense(value.items)) && lineLength == LineLength(Dense(value.items))
      decreases Depth(value), 1
    {
      ghost var vs, width := Dense(value.items), 4 + (size - 1) * 2;
      lineLength := Wrap(4 + (size - 1) * 2);
      for index := 0 to size
        invariant document == old(document) && indentString == old(indentString) && addChildValues
        invariant MeasuredTo(childValues, vs, index)
        invariant lineLength == Wrap(width) && width == 4 + (size - 1) * 2 + FlatLength(vs, index)
      {
        ghost var texts := childValues;
        MeasureItem(value, index);
        MeasuredMore(texts, vs, index);
        lineLength := Widen(lineLength, width, |childValues[index]|);
        width := width + |childValues[index]|;
      }
    }

    method MeasureItem(value: Value, index: nat)
      requires Representable(value) && value.Arr? && index < ArraySize(value.items)
      requires Flat(Dense(value.items)[index]) && addChildValues
      modifies this
      ensures document == old(document) && indentString == old(indentString) && addChildValues
      ensures childValues == old(childValues) + [FlatText(Dense(value.items)[index])]
      decreases Depth(value), 0
    {
      ItemInside(value.items, index);
      ItemAtRepresentable(value.items, index);
      WriteValue(ItemAt(value.items, index));
    }

    /** Adds to the 32-bit line length. */
    method Widen(lineLength: nat, ghost width: int, more: nat) returns (r: nat)
      requires lineLength == Wrap(width)
      ensures r == Wrap(width + more)
    {
      WrapSum(width, more);
      r := Wrap(lineLength + Wrap(more));
    }

    method PushValue(value: string)
      modifies this`document, this`childValues
      ensures addChildValues ==> document == old(document) && childValues == old(childValues) + [value]
      ensures !addChildValues ==> document == old(document) + value && childValues == old(childValues)
    {
      if addChildValues {
        childValues := childValues + [value];
      } else {
        document := document + value;
      }
    }

    method WriteIndent()
      modifies this`document
      ensures document == Indented(old(document), indentString)
    {
      if document != "" {
        var last := document[|document| - 1];
        if last == ' ' {
          return;
        }
        if last != '\n' {
          document := document + "\n";
        }
      }
      document := document + indentString;
    }

    method WriteWithIndent(value: string)
      modifies this`document
      ensures document == Indented(old(document), indentString) + value
    {
      WriteIndent();
      document := document + value;
    }

    method Indent()
      modifies this`indentString
      ensures indentString == old(indentString) + INDENT
    {
      indentString := indentString + INDENT;
    }

    method Unindent()
      requires |indentString| >= |INDENT|
      modifies this`indentString
      ensures indentString == old(indentString[..|indentString| - |INDENT|])
    {
      indentString := indentString[..|indentString| - |INDENT|];
    }
  }
}

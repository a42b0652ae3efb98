/** The layout of compact documents: its white space, the nulls that are printed as nothing, and readers that
    do not allow these. */
module JsonDropped {
  import opened Text
  import opened OrderedMap
  import opened JsonValue
  import opened JsonStrings
  import opened JsonTokens
  import opened JsonGrammar
  import opened JsonLayout
  import opened JsonFastWriter

  /** Somewhere in the layout a null is printed as nothing. */
  predicate Gap(t: Tree) {
    match t
    case Leaf(_, _, _) => false
    case Dropped(_) => true
    case ArrayTree(_, es) => ElementsGap(es)
    case ObjectTree(_, fs) => FieldsGap(fs)
  }

  predicate ElementsGap(es: seq<Element>)
    decreases es
  {
    es != [] && (assert es[0].tree < es[0]; Gap(es[0].tree) || ElementsGap(es[1..]))
  }

  predicate FieldsGap(fs: seq<Field>)
    decreases fs
  {
    fs != [] && (assert fs[0].tree < fs[0]; Gap(fs[0].tree) || FieldsGap(fs[1..]))
  }

  /** Without gaps a layout is well formed for every reader. */
  lemma {:induction false} Ungapped(t: Tree)
    requires WellFormed(t, true) && !Gap(t)
    ensures WellFormed(t, false)
    decreases t, 1
  {
    match t {
      case ArrayTree(_, es) => UngappedElements(es);
      case ObjectTree(_, fs) => UngappedFields(fs);
      case Leaf(_, _, _) =>
    }
  }

  lemma {:induction false} UngappedElements(es: seq<Element>)
    requires ElementsWellFormed(es, true) && !ElementsGap(es)
    ensures ElementsWellFormed(es, false)
    decreases es, 0
  {
    if es != [] {
      assert es[0].tree < es[0];
      Ungapped(es[0].tree);
      UngappedElements(es[1..]);
    }
  }

  lemma {:induction false} UngappedFields(fs: seq<Field>)
    requires FieldsWellFormed(fs, true) && !FieldsGap(fs)
    ensures FieldsWellFormed(fs, false)
    decreases fs, 0
  {
    if fs != [] {
      assert FieldsWellFormed(fs, true) == FirstFieldWellFormed(fs, true);
      assert fs[0].tree < fs[0];
      Ungapped(fs[0].tree);
      UngappedFields(fs[1..]);
      assert FirstFieldWellFormed(fs, false);
    }
  }

  // ----- a reader that does not allow dropped nulls reads no layout with a gap -----

  lemma {:induction false} GapRejected(f: Features, s: string, p: nat, height: nat, old_: Value, t: Tree)
    requires !f.allowDroppedNullPlaceholders && WellFormed(t, true) && Gap(t)
    requires p <= |s| && TreeAt(s, p, t)
    requires t.Dropped? ==> p + TreeLength(t) < |s| && Separator(s[p + TreeLength(t)])
    ensures !ReadValue(f, s, p, height, old_).Parsed?
    decreases t, 2
  {
    if height <= STACK_LIMIT {
      match t {
        case Dropped(w) => SeparatorRejected(f, s, p, height, old_, w);
        case ArrayTree(_, _) => ArrayGapRejected(f, s, p, height, old_, t);
        case ObjectTree(_, _) => ObjectGapRejected(f, s, p, height, old_, t);
      }
    }
  }

  lemma {:induction false} ArrayGapRejected(f: Features, s: string, p: nat, height: nat, old_: Value, t: Tree)
    requires !f.allowDroppedNullPlaceholders && height <= STACK_LIMIT && t.ArrayTree? && WellFormed(t, true) && Gap(t)
    requires p <= |s| && TreeAt(s, p, t)
    ensures !ReadValue(f, s, p, height, old_).Parsed?
    decreases t, 1
  {
    ParseBracket(f, s, p, height, old_, t.space);
    ArrayRejected(f, s, p + |t.space| + 1, height, t.elements);
  }

  lemma {:induction false} ObjectGapRejected(f: Features, s: string, p: nat, height: nat, old_: Value, t: Tree)
    requires !f.allowDroppedNullPlaceholders && height <= STACK_LIMIT && t.ObjectTree? && WellFormed(t, true) && Gap(t)
    requires p <= |s| && TreeAt(s, p, t)
    ensures !ReadValue(f, s, p, height, old_).Parsed?
    decreases t, 1
  {
    ParseBracket(f, s, p, height, old_, t.space);
    FieldsRejected(f, s, p + |t.space| + 1, height, [], "", t.fields);
  }

  lemma {:induction false} SeparatorRejected(f: Features, s: string, p: nat, height: nat, old_: Value, w: string)
    requires !f.allowDroppedNullPlaceholders && height <= STACK_LIMIT
    requires At(s, p, w) && Spaces(w) && p + |w| < |s| && Separator(s[p + |w|])
    ensures !ReadValue(f, s, p, height, old_).Parsed?
  {
    SeparatorToken(s, p, w);
    assert ReadValue(f, s, p, height, old_) == ValueAt(f, s, p, ReadToken(s, p), height, old_);
  }

  lemma {:induction false} ArrayRejected(f: Features, s: string, p: nat, height: nat, es: seq<Element>)
    requires !f.allowDroppedNullPlaceholders && ElementsWellFormed(es, true) && ElementsGap(es)
    requires !(|es| == 1 && es[0].tree.Dropped?) && p <= |s| && ElementsAt(s, p, es)
    ensures !ArrayOutcome(f, s, p, height).Parsed?
    decreases es, 2
  {
    if es[0].tree.Dropped? {
      SpacesSkipped(s, p, es[0].tree.space);
    } else {
      TreeStart(s, p, es[0].tree, true);
    }
    FromSpaces(f, s, p, height);
    ElementsRejected(f, s, p, height, [], es);
  }

  lemma {:induction false} ElementsRejected(f: Features, s: string, p: nat, height: nat,
                                            items: seq<Entry<nat, Value>>, es: seq<Element>)
    requires !f.allowDroppedNullPlaceholders && ElementsWellFormed(es, true) && ElementsGap(es)
    requires p <= |s| && ElementsAt(s, p, es)
    ensures !ReadElements(f, s, p, height, items).Parsed?
    decreases es, 1
  {
    var t := es[0].tree;
    assert t < es[0];
    ElementsLoop(f, s, p, height, items, ElementRound(f, s, p, height, items));
    if Gap(t) {
      GapRejected(f, s, p, height + 1, Null, t);
    } else {
      FullElement(f, s, p, height, items, es);
      if height + 1 + Height(t) <= STACK_LIMIT {
        ElementsRejected(f, s, NextElement(es, p), height, items + [Entry(|items|, TreeValue(t))], es[1..]);
      }
    }
  }

  /** An element without a gap in front of others. */
  lemma {:induction false} FullElement(f: Features, s: string, p: nat, height: nat,
                                       items: seq<Entry<nat, Value>>, es: seq<Element>)
    requires !f.allowDroppedNullPlaceholders && ElementsWellFormed(es, true) && |es| > 1 && !Gap(es[0].tree)
    requires p <= |s| && ElementsAt(s, p, es)
    ensures NextElement(es, p) <= |s| && ElementsAt(s, NextElement(es, p), es[1..])
    ensures ElementRound(f, s, p, height, items) ==
      if height + 1 + Height(es[0].tree) > STACK_LIMIT then Done(Thrown(StackLimitExceeded))
      else More(NextElement(es, p), items + [Entry(|items|, TreeValue(es[0].tree))], "")
  {
    var t, a := es[0].tree, es[0].after;
    Ungapped(t);
    ParseChild(f, s, p, height, Null, t, a);
    ElementStep(f, s, p, height, items, height + 1 + Height(t), p + TreeLength(t), TreeValue(t), a);
  }

  lemma {:induction false} FieldsRejected(f: Features, s: string, p: nat, height: nat,
                                          members: seq<Entry<string, Value>>, last: string, fs: seq<Field>)
    requires !f.allowDroppedNullPlaceholders && FieldsWellFormed(fs, true) && FieldsGap(fs)
    requires p <= |s| && FieldsAt(s, p, fs)
    ensures !ReadMembers(f, s, p, height, members, last).Parsed?
    decreases fs, 2
  {
    assert fs[0].tree < fs[0];
    FieldNamed(f, s, p, height, members, last, fs);
    if Gap(fs[0].tree) {
      FieldGapRejected(f, s, p + NameLength(fs[0]), height, members, fs[0]);
      MembersLoop(f, s, p, height, members, last, MemberRound(f, s, p, height, members, last));
    } else {
      FullField(f, s, p, height, members, fs);
      LaterFieldsAt(f, s, p, fs);
      LaterFieldsRejected(f, s, p, height, members, last, height + 1 + Height(fs[0].tree), NextField(fs, p),
                          FirstAdded(members, fs), fs[0].name, fs[1..]);
    }
  }

  /** The value of a field stands at `v`, in front of a separator where it is a dropped null. */
  predicate FieldValueAt(s: string, v: nat, t: Tree) {
    && v <= |s| && WellFormed(t, true) && TreeAt(s, v, t)
    && (t.Dropped? ==> v + TreeLength(t) < |s| && Separator(s[v + TreeLength(t)]))
  }

  lemma {:induction false} FieldGapRejected(f: Features, s: string, v: nat, height: nat,
                                            members: seq<Entry<string, Value>>, field: Field)
    requires !f.allowDroppedNullPlaceholders && Gap(field.tree) && FieldValueAt(s, v, field.tree)
    ensures var r := NamedMemberRound(f, s, v, height, members, field.name); r.Done? && !r.outcome.Parsed?
    decreases field, 3
  {
    GapRejected(f, s, v, height + 1, Find(members, Key(field.name)).GetOr(Null), field.tree);
  }

  /** A field is passed, and the fields behind it are rejected. */
  lemma {:induction false} LaterFieldsRejected(f: Features, s: string, p: nat, height: nat,
                                               members: seq<Entry<string, Value>>, last: string,
                                               levels: nat, q: nat, next: seq<Entry<string, Value>>, name: string,
                                               fs: seq<Field>)
    requires !f.allowDroppedNullPlaceholders && p <= |s| && q <= |s|
    requires FieldsWellFormed(fs, true) && FieldsGap(fs) && FieldsAt(s, q, fs)
    requires MemberRound(f, s, p, height, members, last) == FieldRound(levels, false, q, next, name)
    ensures !ReadMembers(f, s, p, height, members, last).Parsed?
    decreases fs, 4
  {
    FieldsRejected(f, s, q, height, next, name, fs);
    MembersLoop(f, s, p, height, members, last, MemberRound(f, s, p, height, members, last));
  }

  lemma LaterFieldsAt(f: Features, s: string, p: nat, fs: seq<Field>)
    requires FieldsWellFormed(fs, true) && FieldsGap(fs) && !Gap(fs[0].tree) && FieldsAt(s, p, fs)
    ensures |fs| > 1 && FieldsWellFormed(fs[1..], true) && FieldsGap(fs[1..]) && FieldsAt(s, NextField(fs, p), fs[1..])
  {
    FieldsTail(f.(allowDroppedNullPlaceholders := true), s, p, fs);
  }

  /** The name of the first field, and its value behind that. */
  lemma FieldNamed(f: Features, s: string, p: nat, height: nat,
                   members: seq<Entry<string, Value>>, last: string, fs: seq<Field>)
    requires fs != [] && FieldsWellFormed(fs, true) && p <= |s| && FieldsAt(s, p, fs)
    ensures FieldValueAt(s, p + NameLength(fs[0]), fs[0].tree)
    ensures MemberRound(f, s, p, height, members, last) ==
      NamedMemberRound(f, s, p + NameLength(fs[0]), height, members, fs[0].name)
  {
    FieldValueThere(f, s, p, fs);
    FieldNameThere(f, s, p, fs);
    ParseName(f, s, p, height, members, last, fs[0]);
  }

  lemma FieldValueThere(f: Features, s: string, p: nat, fs: seq<Field>)
    requires fs != [] && FieldsWellFormed(fs, true) && FieldsAt(s, p, fs)
    ensures FieldValueAt(s, p + NameLength(fs[0]), fs[0].tree)
  {
    FieldsHead(f.(allowDroppedNullPlaceholders := true), s, p, fs);
  }

  lemma FieldNameThere(f: Features, s: string, p: nat, fs: seq<Field>)
    requires fs != [] && FieldsWellFormed(fs, true) && FieldsAt(s, p, fs)
    ensures Spaces(fs[0].space) && Spaces(fs[0].beforeColon) && fs[0].quoted == Quote(fs[0].name) && NameAt(s, p, fs[0])
  {
    FieldsHead(f.(allowDroppedNullPlaceholders := true), s, p, fs);
  }

  /** A field without a gap in front of others. */
  lemma {:induction false} FullField(f: Features, s: string, p: nat, height: nat,
                                     members: seq<Entry<string, Value>>, fs: seq<Field>)
    requires !f.allowDroppedNullPlaceholders && FieldsWellFormed(fs, true) && |fs| > 1 && !Gap(fs[0].tree)
    requires FieldsAt(s, p, fs) && p + NameLength(fs[0]) <= |s|
    ensures NextField(fs, p) <= |s|
    ensures NamedMemberRound(f, s, p + NameLength(fs[0]), height, members, fs[0].name) ==
      FieldRound(height + 1 + Height(fs[0].tree), false, NextField(fs, p), FirstAdded(members, fs), fs[0].name)
  {
    var t, v, a := fs[0].tree, p + NameLength(fs[0]), fs[0].after;
    FieldsHead(f.(allowDroppedNullPlaceholders := true), s, p, fs);
    Ungapped(t);
    FullValue(f, s, v, height, members, fs[0].name, t, a, NextField(fs, p));
  }

  lemma FullValue(f: Features, s: string, v: nat, height: nat, members: seq<Entry<string, Value>>, name: string,
                  t: Tree, a: string, next: nat)
    requires WellFormed(t, false) && !f.allowDroppedNullPlaceholders && Spaces(a) && (t.Dropped? ==> a == "")
    requires TreeAt(s, v, t) && At(s, v + TreeLength(t), a) && v <= |s|
    requires next == v + TreeLength(t) + |a| + 1 && CharAt(s, next - 1, ',')
    ensures NamedMemberRound(f, s, v, height, members, name) ==
      FieldRound(height + 1 + Height(t), false, next, Insert(members, Key(name), TreeValue(t)), name)
  {
    if height <= STACK_LIMIT {
      ParseField(f, s, height, members, v, name, t, a, next);
    } else {
      assert ReadValue(f, s, v, height + 1, Find(members, Key(name)).GetOr(Null)) == Thrown(StackLimitExceeded);
    }
  }

  // ----- which values print with a gap -----

  /** A null that the compact printer drops, but for one that is alone in its array: there nothing is
      missing from the text. */
  predicate Vanishes(v: Value)
    decreases Depth(v)
  {
    match v
    case Null => true
    case Arr(items) =>
      Dense(items) != [Null] &&
      exists i :: 0 <= i < |Dense(items)| && (ItemInside(items, i); Vanishes(Dense(items)[i]))
    case Obj(members) => exists i :: 0 <= i < |members| && Vanishes(members[i].value)
    case _ => false
  }

  lemma {:induction false} ElementsGapIff(es: seq<Element>)
    ensures ElementsGap(es) <==> exists i :: 0 <= i < |es| && Gap(es[i].tree)
    decreases |es|
  {
    if es != [] {
      ElementsGapIff(es[1..]);
      assert forall i :: 0 <= i < |es[1..]| ==> es[1..][i] == es[i + 1];
      if i :| 0 <= i < |es| && Gap(es[i].tree) {
        assert i > 0 ==> es[1..][i - 1] == es[i];
      }
    }
  }

  lemma {:induction false} FieldsGapIff(fs: seq<Field>)
    ensures FieldsGap(fs) <==> exists i :: 0 <= i < |fs| && Gap(fs[i].tree)
    decreases |fs|
  {
    if fs != [] {
      FieldsGapIff(fs[1..]);
      assert forall i :: 0 <= i < |fs[1..]| ==> fs[1..][i] == fs[i + 1];
      if i :| 0 <= i < |fs| && Gap(fs[i].tree) {
        assert i > 0 ==> fs[1..][i - 1] == fs[i];
      }
    }
  }

  lemma {:induction false} FastElementAt(o: FastOptions, v: Value, n: nat, i: nat)
    requires v.Arr? && i < n <= |Dense(v.items)|
    ensures FastElements(o, v, n)[i].tree == FastTree(o, Dense(v.items)[i], "")
    ensures FastElements(o, v, n)[i].after == ""
    decreases n
  {
    ItemInside(v.items, n - 1);
    if i < n - 1 {
      FastElementAt(o, v, n - 1, i);
    }
  }

  lemma {:induction false} FastFieldAt(o: FastOptions, v: Value, n: nat, i: nat)
    requires v.Obj? && i < n <= |v.members|
    ensures FastFields(o, v, n)[i] == FastField(o, v, i)
    decreases n
  {
    if i < n - 1 {
      FastFieldAt(o, v, n - 1, i);
    }
  }

  /** The layout of a printed value has a gap exactly if nulls are dropped and one of them vanishes. */
  lemma {:induction false} FastGap(o: FastOptions, v: Value, lead: string)
    ensures Gap(FastTree(o, v, lead)) <==> o.dropNullPlaceholders && Vanishes(v)
    decreases Depth(v), 1
  {
    match v {
      case Arr(_) => FastArrayGap(o, v, lead);
      case Obj(_) => FastObjectGap(o, v, lead);
      case _ =>
    }
  }

  lemma {:induction false} FastArrayGap(o: FastOptions, v: Value, lead: string)
    requires v.Arr?
    ensures Gap(FastTree(o, v, lead)) <==> o.dropNullPlaceholders && Vanishes(v)
    decreases Depth(v), 0
  {
    if !(o.dropNullPlaceholders && Dense(v.items) == [Null]) {
      var n := |Dense(v.items)|;
      var es := FastElements(o, v, n);
      ElementsGapIff(es);
      forall i | 0 <= i < n
        ensures Gap(es[i].tree) <==> o.dropNullPlaceholders && Vanishes(Dense(v.items)[i])
      {
        ItemInside(v.items, i);
        FastElementAt(o, v, n, i);
        FastGap(o, Dense(v.items)[i], "");
      }
    }
  }

  lemma {:induction false} FastObjectGap(o: FastOptions, v: Value, lead: string)
    requires v.Obj?
    ensures Gap(FastTree(o, v, lead)) <==> o.dropNullPlaceholders && Vanishes(v)
    decreases Depth(v), 0
  {
    var n := |v.members|;
    var fs := FastFields(o, v, n);
    FieldsGapIff(fs);
    forall i | 0 <= i < n
      ensures Gap(fs[i].tree) <==> o.dropNullPlaceholders && Vanishes(v.members[i].value)
    {
      FastFieldAt(o, v, n, i);
      FastGap(o, v.members[i].value, if o.yamlCompatibility then " " else "");
    }
  }

  // ----- the white space of the compact printer -----

  /** There is no white space between the tokens of the layout but `gap` behind every colon. */
  predicate Tight(t: Tree, lead: string, gap: string) {
    && t.space == lead
    && match t
       case ArrayTree(_, es) => forall i :: 0 <= i < |es| ==> Tight(es[i].tree, "", gap) && es[i].after == ""
       case ObjectTree(_, fs) =>
         forall i :: 0 <= i < |fs| ==>
           Tight(fs[i].tree, gap, gap) && fs[i].space == "" && fs[i].beforeColon == "" && fs[i].after == ""
       case _ => true
  }

  lemma {:induction false} FastTight(o: FastOptions, v: Value, lead: string)
    ensures Tight(FastTree(o, v, lead), lead, if o.yamlCompatibility then " " else "")
    decreases Depth(v)
  {
    match v {
      case Arr(items) =>
        var n := |Dense(items)|;
        forall i | 0 <= i < n
          ensures var e := FastElements(o, v, n)[i];
            Tight(e.tree, "", if o.yamlCompatibility then " " else "") && e.after == ""
        {
          ItemInside(items, i);
          FastElementAt(o, v, n, i);
          FastTight(o, Dense(items)[i], "");
        }
      case Obj(members) =>
        var n, gap := |members|, if o.yamlCompatibility then " " else "";
        forall i | 0 <= i < n
          ensures var e := FastFields(o, v, n)[i];
            Tight(e.tree, gap, gap) && e.space == "" && e.beforeColon == "" && e.after == ""
        {
          FastFieldAt(o, v, n, i);
          FastTight(o, members[i].value, gap);
        }
      case _ =>
    }
  }

  /** A compact document is a layout of its value without white space but for a blank behind every colon if
      this is asked for, and a line feed at the end unless that is omitted. */
  lemma CompactDocument(o: FastOptions, v: Value) returns (t: Tree)
    requires Representable(v)
    ensures FastDocument(o, v) == TreeText(t) + (if o.omitEndingLineFeed then "" else "\n")
    ensures Tight(t, "", if o.yamlCompatibility then " " else "")
    ensures WellFormed(t, o.dropNullPlaceholders) && TreeValue(t) == Canon(o.dropNullPlaceholders, v)
    ensures Gap(t) <==> o.dropNullPlaceholders && Vanishes(v)
  {
    t := FastTree(o, v, "");
    FastTreeFaithful(o, v, "");
    FastTight(o, v, "");
    FastGap(o, v, "");
    assert "" + FastText(o, v) == FastText(o, v);
  }
}

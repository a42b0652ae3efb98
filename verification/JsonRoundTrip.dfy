/** What the reader makes of what the compact printer prints. */
module JsonRoundTrip {
  import opened Text
  import opened OrderedMap
  import opened JsonValue
  import opened JsonTokens
  import opened JsonGrammar
  import opened JsonLayout
  import opened JsonFastWriter
  import opened JsonDropped

  predicate Container(v: Value) {
    v.Arr? || v.Obj?
  }

  /** A layout stays well formed where dropped nulls are allowed. */
  lemma {:induction false} WellFormedMore(t: Tree, drop: bool)
    requires WellFormed(t, drop)
    ensures WellFormed(t, true)
    decreases t, 1
  {
    match t {
      case ArrayTree(_, es) => ElementsWellFormedMore(es, drop);
      case ObjectTree(_, fs) => FieldsWellFormedMore(fs, drop);
      case _ =>
    }
  }

  lemma {:induction false} ElementsWellFormedMore(es: seq<Element>, drop: bool)
    requires ElementsWellFormed(es, drop)
    ensures ElementsWellFormed(es, true)
    decreases es, 0
  {
    if es != [] {
      assert es[0].tree < es[0];
      WellFormedMore(es[0].tree, drop);
      ElementsWellFormedMore(es[1..], drop);
    }
  }

  lemma {:induction false} FieldsWellFormedMore(fs: seq<Field>, drop: bool)
    requires FieldsWellFormed(fs, drop)
    ensures FieldsWellFormed(fs, true)
    decreases fs, 0
  {
    if fs != [] {
      assert FieldsWellFormed(fs, drop) == FirstFieldWellFormed(fs, drop);
      assert fs[0].tree < fs[0];
      WellFormedMore(fs[0].tree, drop);
      FieldsWellFormedMore(fs[1..], drop);
      assert FirstFieldWellFormed(fs, true);
    }
  }

  /** The verdict of `parse` on a document that reads as `v` on `levels` nested levels. */
  function Verdict(f: Features, document: string, levels: nat, v: Value): ParseResult {
    if levels >= STACK_LIMIT then Raised(StackLimitExceeded)
    else if f.strictRoot && !Container(v) then Finished(false, v, [RootError(document)])
    else Finished(true, v, [])
  }

  /** A document that starts with the layout of a value and goes on with anything that ends a number. */
  lemma {:induction false} ParseLayout(f: Features, document: string, root: Value, t: Tree, rest: string)
    requires WellFormed(t, f.allowDroppedNullPlaceholders) && !t.Dropped?
    requires document == TreeText(t) + rest && NumberStops(document, |TreeText(t)|)
    ensures Parse(f, document, root) == Verdict(f, document, Height(t), TreeValue(t))
  {
    LayoutInFront(document, t, rest);
    ParseTree(f, document, 0, 1, root, t, ReadValue(f, document, 0, 1, root));
  }

  lemma {:induction false} LayoutInFront(document: string, t: Tree, rest: string)
    requires document == TreeText(t) + rest
    ensures TreeAt(document, 0, t) && TreeLength(t) == |TreeText(t)|
  {
    AtSlice(document, 0, TreeText(t));
    TreeParts(document, 0, t);
  }

  /** Does the reader see everything that is printed: no null is dropped as the root, and where dropped
      nulls are not allowed none vanishes from the text? */
  predicate Readable(f: Features, o: FastOptions, v: Value) {
    o.dropNullPlaceholders ==> !v.Null? && (f.allowDroppedNullPlaceholders || !Vanishes(v))
  }

  /** Round trip: for all options, the reader gives back every value that is readable as printed, in
      canonical form, unless it nests too deep or is refused as a root; no other value parses at all. */
  lemma {:induction false} FastRoundTrip(f: Features, o: FastOptions, v: Value, root: Value)
    requires Representable(v)
    ensures Readable(f, o, v) ==>
      var c := Canon(o.dropNullPlaceholders, v);
      Parse(f, FastDocument(o, v), root) == Verdict(f, FastDocument(o, v), Depth(c), c)
    ensures !Readable(f, o, v) ==>
      var r := Parse(f, FastDocument(o, v), root); !(r.Finished? && r.successful)
  {
    if Readable(f, o, v) {
      ReadsBack(f, o, v, root);
    } else {
      Refused(f, o, v, root);
    }
  }

  lemma ReadsBack(f: Features, o: FastOptions, v: Value, root: Value)
    requires Representable(v) && Readable(f, o, v)
    ensures var c := Canon(o.dropNullPlaceholders, v);
      Parse(f, FastDocument(o, v), root) == Verdict(f, FastDocument(o, v), Depth(c), c)
  {
    var t := FastLayout(o, v);
    ReadableLayout(f, o, v, t);
    ParseLayout(f, FastDocument(o, v), root, t, if o.omitEndingLineFeed then "" else "\n");
  }

  lemma ReadableLayout(f: Features, o: FastOptions, v: Value, t: Tree)
    requires Readable(f, o, v) && WellFormed(t, o.dropNullPlaceholders)
    requires Gap(t) <==> o.dropNullPlaceholders && Vanishes(v)
    ensures WellFormed(t, f.allowDroppedNullPlaceholders)
  {
    if f.allowDroppedNullPlaceholders {
      WellFormedMore(t, o.dropNullPlaceholders);
    } else if o.dropNullPlaceholders {
      Ungapped(t);
    }
  }

  lemma Refused(f: Features, o: FastOptions, v: Value, root: Value)
    requires Representable(v) && !Readable(f, o, v)
    ensures var r := Parse(f, FastDocument(o, v), root); !(r.Finished? && r.successful)
  {
    if v.Null? {
      DroppedRoot(f, o, root);
    } else {
      var t := FastLayout(o, v);
      LayoutRefused(f, FastDocument(o, v), root, t, if o.omitEndingLineFeed then "" else "\n");
    }
  }

  lemma LayoutRefused(f: Features, document: string, root: Value, t: Tree, rest: string)
    requires !f.allowDroppedNullPlaceholders && WellFormed(t, true) && Gap(t) && !t.Dropped?
    requires document == TreeText(t) + rest
    ensures var r := Parse(f, document, root); !(r.Finished? && r.successful)
  {
    LayoutInFront(document, t, rest);
    GapRejected(f, document, 0, 1, root, t);
  }

  lemma {:induction false} FastLayout(o: FastOptions, v: Value) returns (t: Tree)
    requires Representable(v) && !(o.dropNullPlaceholders && v.Null?)
    ensures TreeText(t) == FastText(o, v) && WellFormed(t, o.dropNullPlaceholders) && !t.Dropped?
    ensures var c := Canon(o.dropNullPlaceholders, v); TreeValue(t) == c && Height(t) == Depth(c)
    ensures Gap(t) <==> o.dropNullPlaceholders && Vanishes(v)
  {
    t := FastTree(o, v, "");
    FastTreeFaithful(o, v, "");
    FastGap(o, v, "");
    assert "" + FastText(o, v) == FastText(o, v);
  }

  /** A dropped null root prints as nothing, which is no document. */
  lemma {:induction false} DroppedRoot(f: Features, o: FastOptions, root: Value)
    requires o.dropNullPlaceholders
    ensures Parse(f, FastDocument(o, Null), root).Finished?
    ensures !Parse(f, FastDocument(o, Null), root).successful
  {
    var d := FastDocument(o, Null);
    SpacesBeforeToken(d, 0);
    assert d == "" || (d == "\n" && SkipSpaces(d, 0) == SkipSpaces(d, 1) == 1);
    var t := ReadToken(d, 0);
    assert t.kind == EndOfStream;
    assert SkipComments(f, d, 0) == t;
    assert ReadValue(f, d, 0, 1, root) == ValueAt(f, d, 0, t, 1, root);
  }

  // ----- what dropping nulls loses -----

  /** Some array inside `v` is exactly `[null]`. */
  predicate LoneNull(v: Value)
    decreases Depth(v)
  {
    match v
    case Arr(items) =>
      Dense(items) == [Null] ||
      exists i :: 0 <= i < |Dense(items)| && (ItemInside(items, i); LoneNull(Dense(items)[i]))
    case Obj(members) => exists i :: 0 <= i < |members| && LoneNull(members[i].value)
    case _ => false
  }

  /** Dropping nulls loses information exactly for such values. */
  lemma {:induction false} DropLoses(v: Value)
    ensures Canon(true, v) == Canon(false, v) <==> !LoneNull(v)
    decreases Depth(v)
  {
    match v {
      case Arr(items) =>
        var n := |Dense(items)|;
        var a, b := CanonItems(true, v, n), CanonItems(false, v, n);
        forall i | 0 <= i < n
          ensures a[i] == b[i] <==> !LoneNull(Dense(items)[i])
        {
          ItemInside(items, i);
          DropLoses(Dense(items)[i]);
        }
      case Obj(members) =>
        var a, b := CanonMembers(true, v, |members|), CanonMembers(false, v, |members|);
        forall i | 0 <= i < |members|
          ensures a[i] == b[i] <==> !LoneNull(members[i].value)
        {
          DropLoses(members[i].value);
        }
      case _ =>
    }
  }

  /** Without dropped nulls, canonical form keeps the nesting. */
  lemma {:induction false} CanonDepth(v: Value)
    requires Representable(v)
    ensures Depth(Canon(false, v)) == Depth(v)
    decreases Depth(v)
  {
    match v {
      case Arr(items) =>
        var n := |Dense(items)|;
        var c, d := CanonItems(false, v, n), Dense(items);
        forall i | 0 <= i < n
          ensures Depth(c[i].value) == Depth(d[i])
        {
          ItemInside(items, i);
          ItemAtRepresentable(items, i);
          CanonDepth(d[i]);
        }
        DenseDepth(items);
        EntriesDepthLeast(c, ValuesDepth(d));
        ValuesDepthLeast(d, EntriesDepth(c));
      case Obj(members) =>
        var c := CanonMembers(false, v, |members|);
        forall i | 0 <= i < |members|
          ensures Depth(c[i].value) == Depth(members[i].value)
        {
          CanonDepth(members[i].value);
        }
        EntriesDepthLeast(c, EntriesDepth(members));
        EntriesDepthLeast(members, EntriesDepth(c));
      case _ =>
    }
  }

  /** `v` is null or has a null at some depth, also in a gap of an array. */
  predicate HasNull(v: Value)
    decreases Depth(v)
  {
    match v
    case Null => true
    case Arr(items) => exists i :: 0 <= i < |Dense(items)| && (ItemInside(items, i); HasNull(Dense(items)[i]))
    case Obj(members) => exists i :: 0 <= i < |members| && HasNull(members[i].value)
    case _ => false
  }

  /** A null vanishes from the text or is alone in its array. */
  lemma {:induction false} NullsVanish(v: Value)
    ensures HasNull(v) <==> Vanishes(v) || LoneNull(v)
    decreases Depth(v)
  {
    match v {
      case Arr(items) =>
        if Dense(items) == [Null] {
          assert HasNull(Dense(items)[0]);
        }
        forall i | 0 <= i < |Dense(items)|
          ensures HasNull(Dense(items)[i]) <==> Vanishes(Dense(items)[i]) || LoneNull(Dense(items)[i])
        {
          ItemInside(items, i);
          NullsVanish(Dense(items)[i]);
        }
      case Obj(members) =>
        forall i | 0 <= i < |members|
          ensures HasNull(members[i].value) <==> Vanishes(members[i].value) || LoneNull(members[i].value)
        {
          NullsVanish(members[i].value);
        }
      case _ =>
    }
  }

  /** For all options, the round trip is exact if and only if no dropped null was the root or alone in its
      array, or anywhere at all where the reader does not allow dropped nulls, the value nests less than
      the stack limit, and a strict reader gets a container. */
  lemma {:induction false} RoundTripExactly(f: Features, o: FastOptions, v: Value, root: Value)
    requires Representable(v)
    ensures Parse(f, FastDocument(o, v), root) == Finished(true, Canon(false, v), []) <==>
      && (o.dropNullPlaceholders ==> !v.Null? && !LoneNull(v) && (f.allowDroppedNullPlaceholders || !HasNull(v)))
      && Depth(v) < 1000 && (f.strictRoot ==> Container(v))
  {
    NullsVanish(v);
    if Readable(f, o, v) {
      ReadsBackExactly(f, o, v, root);
    } else {
      Refused(f, o, v, root);
    }
  }

  lemma ReadsBackExactly(f: Features, o: FastOptions, v: Value, root: Value)
    requires Representable(v) && Readable(f, o, v)
    ensures Parse(f, FastDocument(o, v), root) == Finished(true, Canon(false, v), []) <==>
      && (o.dropNullPlaceholders ==> !LoneNull(v)) && Depth(v) < STACK_LIMIT && (f.strictRoot ==> Container(v))
  {
    DropLoses(v);
    CanonDepth(v);
    ReadsBack(f, o, v, root);
  }

  /** A reader with its default features refuses what a printer that drops nulls makes of `[null,true]`. */
  lemma {:induction false} DefaultReaderExample(f: Features, root: Value)
    requires !f.allowDroppedNullPlaceholders
    ensures var o, v := FastOptions(false, true, false), Arr([Entry(0, Null), Entry(1, Bool(true))]);
      var r := Parse(f, FastDocument(o, v), root); !(r.Finished? && r.successful)
  {
    var v := Arr([Entry(0, Null), Entry(1, Bool(true))]);
    assert Dense(v.items)[0] == Null && |Dense(v.items)| == 2;
    assert Vanishes(Dense(v.items)[0]);
    Refused(f, FastOptions(false, true, false), v, root);
  }

  // ----- printing again -----

  lemma {:induction false} CanonDenseSize(drop: bool, v: Value)
    requires v.Arr?
    ensures |Dense(CanonItems(drop, v, |Dense(v.items)|))| == |Dense(v.items)|
  {
  }

  /** The dense view of canonical items. */
  lemma {:induction false} CanonDenseAt(drop: bool, v: Value, i: nat)
    requires v.Arr? && i < |Dense(v.items)|
    ensures var c := CanonItems(drop, v, |Dense(v.items)|);
      i < |Dense(c)| && Dense(c)[i] == Canon(drop, Dense(v.items)[i])
    ensures Depth(Dense(v.items)[i]) < Depth(v)
  {
    ItemInside(v.items, i);
    ItemAtIndex(CanonItems(drop, v, |Dense(v.items)|), i);
  }

  /** A canonical value prints like the value it came from. */
  lemma {:induction false} CanonPrintsAlike(o: FastOptions, v: Value)
    ensures FastText(o, Canon(o.dropNullPlaceholders, v)) == FastText(o, v)
    decreases Depth(v), 1
  {
    match v {
      case Arr(_) => ArrayPrintsAlike(o, v);
      case Obj(members) => MembersPrintAlike(o, v, |members|);
      case _ =>
    }
  }

  lemma {:induction false} ArrayPrintsAlike(o: FastOptions, v: Value)
    requires v.Arr?
    ensures FastText(o, Canon(o.dropNullPlaceholders, v)) == FastText(o, v)
    decreases Depth(v), 0, 2
  {
    var n := |Dense(v.items)|;
    ItemsPrintAlike(o, v, n);
    ArrayText(o, v);
    if o.dropNullPlaceholders && Dense(v.items) == [Null] {
      LoneNullText(o, v);
    } else {
      ArrayText(o, Arr(CanonItems(o.dropNullPlaceholders, v, n)));
    }
  }

  lemma ArrayText(o: FastOptions, v: Value)
    requires v.Arr?
    ensures FastText(o, v) == "[" + FastItems(o, v, |Dense(v.items)|) + "]"
  {
  }

  lemma LoneNullText(o: FastOptions, v: Value)
    requires v.Arr? && o.dropNullPlaceholders && Dense(v.items) == [Null]
    ensures FastItems(o, v, 1) == "" && FastText(o, Arr([])) == "[" + "" + "]"
  {
    assert FastItems(o, v, 1) == FastItems(o, v, 0) + "" + "";
  }

  /** The first `n` elements print alike in the array and in its canonical form. */
  ghost predicate Alike(o: FastOptions, v: Value, n: nat)
    requires v.Arr? && n <= |Dense(v.items)|
  {
    var c := Arr(CanonItems(o.dropNullPlaceholders, v, |Dense(v.items)|));
    |Dense(c.items)| == |Dense(v.items)| && FastItems(o, c, n) == FastItems(o, v, n)
  }

  lemma {:induction false} ItemsPrintAlike(o: FastOptions, v: Value, n: nat)
    requires v.Arr? && n <= |Dense(v.items)|
    ensures Alike(o, v, n)
    decreases Depth(v), 0, 1
  {
    CanonDenseSize(o.dropNullPlaceholders, v);
    assert Alike(o, v, 0);
    for k := 0 to n
      invariant Alike(o, v, k)
    {
      ItemPrintsAlike(o, v, k);
    }
  }

  lemma {:induction false} ItemPrintsAlike(o: FastOptions, v: Value, k: nat)
    requires v.Arr? && k < |Dense(v.items)| && Alike(o, v, k)
    ensures Alike(o, v, k + 1)
    decreases Depth(v), 0, 0
  {
    CanonDenseAt(o.dropNullPlaceholders, v, k);
    CanonPrintsAlike(o, Dense(v.items)[k]);
    ItemsStep(o, v, k + 1);
    ItemsStep(o, Arr(CanonItems(o.dropNullPlaceholders, v, |Dense(v.items)|)), k + 1);
  }

  lemma {:induction false} ItemsStep(o: FastOptions, v: Value, n: nat)
    requires v.Arr? && 0 < n <= |Dense(v.items)|
    ensures FastItems(o, v, n) ==
      FastItems(o, v, n - 1) + (if n == 1 then "" else ",") + FastText(o, Dense(v.items)[n - 1])
  {
  }

  lemma {:induction false} MembersPrintAlike(o: FastOptions, v: Value, n: nat)
    requires v.Obj? && n <= |v.members|
    ensures FastMembers(o, Obj(CanonMembers(o.dropNullPlaceholders, v, |v.members|)), n) == FastMembers(o, v, n)
    decreases Depth(v), 0, n
  {
    if n > 0 {
      MembersPrintAlike(o, v, n - 1);
      CanonPrintsAlike(o, v.members[n - 1].value);
    }
  }

  /** Whatever the reader made of a printed value prints as the same document. */
  lemma {:induction false} PrintAgain(f: Features, o: FastOptions, v: Value, root: Value)
    requires Representable(v)
    ensures var r := Parse(f, FastDocument(o, v), root);
      r.Finished? && r.successful ==> FastDocument(o, r.root) == FastDocument(o, v)
  {
    FastRoundTrip(f, o, v, root);
    CanonPrintsAlike(o, v);
  }

  /** Canonical form is reached in one step. */
  lemma {:induction false} CanonIdempotent(drop: bool, v: Value)
    ensures Canon(drop, Canon(drop, v)) == Canon(drop, v)
    decreases Depth(v), 1
  {
    match v {
      case Arr(_) => CanonArrayIdempotent(drop, v);
      case Obj(members) =>
        var c := Obj(CanonMembers(drop, v, |members|));
        var d := CanonMembers(drop, c, |members|);
        forall i | 0 <= i < |members|
          ensures d[i] == c.members[i]
        {
          CanonIdempotent(drop, members[i].value);
        }
      case _ =>
    }
  }

  lemma {:induction false} CanonArrayIdempotent(drop: bool, v: Value)
    requires v.Arr?
    ensures Canon(drop, Canon(drop, v)) == Canon(drop, v)
    decreases Depth(v), 0, |Dense(v.items)| + 1
  {
    var n := |Dense(v.items)|;
    if !(drop && Dense(v.items) == [Null]) {
      var c := Arr(CanonItems(drop, v, n));
      assert Canon(drop, v) == c;
      CanonItemsIdempotent(drop, v, n);
      LoneStays(drop, v);
      assert Canon(drop, c) == Arr(CanonItems(drop, c, |Dense(c.items)|));
    }
  }

  lemma {:induction false} LoneStays(drop: bool, v: Value)
    requires v.Arr?
    ensures var c := CanonItems(drop, v, |Dense(v.items)|);
      |Dense(c)| == |Dense(v.items)| && (Dense(c) == [Null] ==> Dense(v.items) == [Null])
  {
    CanonDenseSize(drop, v);
    if |Dense(v.items)| == 1 {
      CanonDenseAt(drop, v, 0);
      assert Dense(v.items) == [Dense(v.items)[0]];
    }
  }

  lemma {:induction false} CanonItemsIdempotent(drop: bool, v: Value, n: nat)
    requires v.Arr? && n <= |Dense(v.items)|
    ensures var c := Arr(CanonItems(drop, v, |Dense(v.items)|));
      n <= |Dense(c.items)| && CanonItems(drop, c, n) == CanonItems(drop, v, n)
    decreases Depth(v), 0, n
  {
    CanonDenseSize(drop, v);
    if n > 0 {
      CanonItemsIdempotent(drop, v, n - 1);
      CanonDenseAt(drop, v, n - 1);
      CanonIdempotent(drop, Dense(v.items)[n - 1]);
    }
  }
}

/** The values of the JSON engine. */
module JsonValue {
  import opened OrderedMap

  const MAX_INT: int := 0x7FFF_FFFF
  const MAX_LARGEST_INT: int := 0x7FFF_FFFF_FFFF_FFFF
  const MIN_LARGEST_INT: int := -0x8000_0000_0000_0000
  const MAX_LARGEST_UINT: int := 0xFFFF_FFFF_FFFF_FFFF

  /** A string value stores its length in front of its bytes: this is the longest that fits. */
  const MAX_STRING: int := MAX_INT - 5

  /** The length of a key is stored in 30 bits. */
  const KEY_LIMIT: int := 0x4000_0000

  /** Constructors stand in the order of the source's `ValueType`, except that `Bool` follows `Str`.
      Arrays are sparse: an item carries its index. A double is its bit pattern. */
  datatype Value =
    | Null
    | Int(i: int)
    | UInt(u: nat)
    | Real(bits: int)
    | Str(s: string)
    | Bool(b: bool)
    | Arr(items: seq<Entry<nat, Value>>)
    | Obj(members: seq<Entry<string, Value>>)

  /** `Value::size` of an array: the highest index plus one. */
  function ArraySize(items: seq<Entry<nat, Value>>): nat {
    if items == [] then 0 else items[|items| - 1].key + 1
  }

  /** Array indices strictly increase. */
  predicate Ascending(items: seq<Entry<nat, Value>>) {
    forall i, j :: 0 <= i < j < |items| ==> items[i].key < items[j].key
  }

  /** The nesting of containers that hold something. */
  function Depth(v: Value): nat {
    match v
    case Arr(items) => if items == [] then 0 else 1 + EntriesDepth(items)
    case Obj(members) => if members == [] then 0 else 1 + EntriesDepth(members)
    case _ => 0
  }

  function EntriesDepth<K>(es: seq<Entry<K, Value>>): (d: nat)
    ensures forall i :: 0 <= i < |es| ==> (assert es[i].value < es[i]; Depth(es[i].value)) <= d
    decreases es
  {
    if es == [] then 0
    else
      assert es[0].value < es[0];
      var h, t := Depth(es[0].value), EntriesDepth(es[1..]);
      assert forall i :: 0 < i < |es| ==> es[i] == es[1..][i - 1];
      if h < t then t else h
  }

  function ValuesDepth(vs: seq<Value>): (d: nat)
    ensures forall i :: 0 <= i < |vs| ==> Depth(vs[i]) <= d
  {
    if vs == [] then 0
    else
      var h, t := Depth(vs[0]), ValuesDepth(vs[1..]);
      assert forall i :: 0 < i < |vs| ==> vs[i] == vs[1..][i - 1];
      if h < t then t else h
  }

  /** The value at an index: null in a gap (`Value::operator[](ArrayIndex) const`). */
  function ItemAt(items: seq<Entry<nat, Value>>, index: nat): (v: Value)
    ensures Depth(v) <= EntriesDepth(items)
  {
    if items == [] then Null
    else if items[0].key == index then items[0].value
    else ItemAt(items[1..], index)
  }

  /** The first `n` values of an array, gaps included. */
  function DenseTo(items: seq<Entry<nat, Value>>, n: nat): (vs: seq<Value>)
    ensures |vs| == n && forall i :: 0 <= i < n ==> vs[i] == ItemAt(items, i)
  {
    if n == 0 then [] else DenseTo(items, n - 1) + [ItemAt(items, n - 1)]
  }

  function Dense(items: seq<Entry<nat, Value>>): (vs: seq<Value>)
    ensures |vs| == ArraySize(items)
    ensures ValuesDepth(vs) <= EntriesDepth(items)
  {
    var vs := DenseTo(items, ArraySize(items));
    ValuesDepthLeast(vs, EntriesDepth(items));
    vs
  }

  lemma ValuesDepthLeast(vs: seq<Value>, d: nat)
    requires forall i :: 0 <= i < |vs| ==> Depth(vs[i]) <= d
    ensures ValuesDepth(vs) <= d
  {
    if vs != [] {
      assert forall i :: 0 <= i < |vs[1..]| ==> vs[1..][i] == vs[i + 1];
      ValuesDepthLeast(vs[1..], d);
    }
  }

  /** Every item is one of the dense values. */
  lemma {:induction false} ItemAtIndex(items: seq<Entry<nat, Value>>, i: nat)
    requires Ascending(items) && i < |items|
    ensures ItemAt(items, items[i].key) == items[i].value
  {
    if i > 0 {
      assert items[0].key < items[i].key;
      assert items[1..][i - 1] == items[i];
      ItemAtIndex(items[1..], i - 1);
    }
  }

  /** Where no item is stored there is null. */
  lemma {:induction false} ItemAtGap(items: seq<Entry<nat, Value>>, index: nat)
    requires forall i :: 0 <= i < |items| ==> items[i].key != index
    ensures ItemAt(items, index) == Null
  {
    if items != [] {
      assert forall i :: 0 <= i < |items[1..]| ==> items[1..][i] == items[i + 1];
      ItemAtGap(items[1..], index);
    }
  }

  /** The dense view loses no nesting. */
  lemma DenseDepth(items: seq<Entry<nat, Value>>)
    requires Ascending(items)
    ensures ValuesDepth(Dense(items)) == EntriesDepth(items)
  {
    var d := ValuesDepth(Dense(items));
    forall i | 0 <= i < |items|
      ensures Depth(items[i].value) <= d
    {
      ItemAtIndex(items, i);
      assert items[i].key < ArraySize(items);
      assert Dense(items)[items[i].key] == items[i].value;
    }
    EntriesDepthLeast(items, d);
  }

  lemma EntriesDepthLeast<K>(es: seq<Entry<K, Value>>, d: nat)
    requires forall i :: 0 <= i < |es| ==> Depth(es[i].value) <= d
    ensures EntriesDepth(es) <= d
  {
    if es != [] {
      assert forall i :: 0 <= i < |es[1..]| ==> es[1..][i] == es[i + 1];
      EntriesDepthLeast(es[1..], d);
    }
  }

  /** What the C++ class can hold: 64-bit integers, bounded strings and keys, ordered maps, and
      array sizes that an `int` index reaches. Doubles are left out. */
  predicate Representable(v: Value) {
    match v
    case Null => true
    case Bool(_) => true
    case Int(i) => MIN_LARGEST_INT <= i <= MAX_LARGEST_INT
    case UInt(u) => u <= MAX_LARGEST_UINT
    case Real(_) => false
    case Str(s) => |s| <= MAX_STRING
    case Arr(items) =>
      && Ascending(items) && ArraySize(items) <= MAX_INT
      && forall i :: 0 <= i < |items| ==> Representable(items[i].value)
    case Obj(members) =>
      && Sorted(members)
      && forall i :: 0 <= i < |members| ==> |members[i].key| < KEY_LIMIT && Representable(members[i].value)
  }

  lemma {:induction false} ItemAtRepresentable(items: seq<Entry<nat, Value>>, index: nat)
    requires forall i :: 0 <= i < |items| ==> Representable(items[i].value)
    ensures Representable(ItemAt(items, index))
  {
    if items != [] && items[0].key != index {
      assert forall i :: 0 <= i < |items[1..]| ==> items[1..][i] == items[i + 1];
      ItemAtRepresentable(items[1..], index);
    }
  }

  /** The tag `decodeNumber` gives to an integer. */
  function NumberValue(n: int): Value {
    if n <= MAX_INT then Int(n) else UInt(n)
  }

  /** The value a reader gives back for a printed `v`: integers carry the reader's tag and array
      gaps are explicit nulls. With `drop` nulls print as nothing, and `[null]` prints like `[]`. */
  function Canon(drop: bool, v: Value): Value
    decreases Depth(v), 1
  {
    match v
    case Int(i) => NumberValue(i)
    case UInt(u) => NumberValue(u)
    case Arr(items) =>
      if drop && Dense(items) == [Null] then Arr([])
      else Arr(CanonItems(drop, v, |Dense(items)|))
    case Obj(members) => Obj(CanonMembers(drop, v, |members|))
    case _ => v
  }

  function CanonItems(drop: bool, v: Value, n: nat): (r: seq<Entry<nat, Value>>)
    requires v.Arr? && n <= |Dense(v.items)|
    ensures |r| == n
    ensures forall i :: 0 <= i < n ==>
      r[i].key == i && (ItemInside(v.items, i); r[i].value == Canon(drop, Dense(v.items)[i]))
    decreases Depth(v), 0, n
  {
    if n == 0 then []
    else
      ItemInside(v.items, n - 1);
      CanonItems(drop, v, n - 1) + [Entry(n - 1, Canon(drop, Dense(v.items)[n - 1]))]
  }

  function CanonMembers(drop: bool, v: Value, n: nat): (r: seq<Entry<string, Value>>)
    requires v.Obj? && n <= |v.members|
    ensures |r| == n
    ensures forall i :: 0 <= i < n ==> r[i] == Entry(v.members[i].key, Canon(drop, v.members[i].value))
    decreases Depth(v), 0, n
  {
    if n == 0 then []
    else CanonMembers(drop, v, n - 1) + [Entry(v.members[n - 1].key, Canon(drop, v.members[n - 1].value))]
  }

  /** Elements of the dense view nest less deep than their array. */
  lemma ItemInside(items: seq<Entry<nat, Value>>, i: nat)
    requires i < |Dense(items)|
    ensures Depth(Dense(items)[i]) < Depth(Arr(items))
  {
    assert items != [];
  }
}

/** `Value::operator<`, `operator==` and `compare`. */
module JsonOrder {
  import opened Text
  import opened OrderedMap
  import opened JsonValue

  /** The conversion of a difference of two `size_t` to a 32-bit `int`. */
  function ToInt32(d: int): (r: int)
    ensures -0x8000_0000 <= d <= MAX_INT ==> r == d
  {
    var m := d % 0x1_0000_0000;
    if m <= MAX_INT then m else m - 0x1_0000_0000
  }

  /** Position in the source's `ValueType`. */
  function TypeRank(v: Value): nat {
    match v
    case Null => 0
    case Int(_) => 1
    case UInt(_) => 2
    case Real(_) => 3
    case Str(_) => 4
    case Bool(_) => 5
    case Arr(_) => 6
    case Obj(_) => 7
  }

  /** The number of nodes of a value: the measure of the comparison. */
  function Nodes(v: Value): nat {
    match v
    case Arr(items) => 1 + EntriesNodes(items)
    case Obj(members) => 1 + EntriesNodes(members)
    case _ => 1
  }

  function EntriesNodes<K>(es: seq<Entry<K, Value>>): nat
    decreases es
  {
    if es == [] then 0
    else
      assert es[0].value < es[0];
      1 + Nodes(es[0].value) + EntriesNodes(es[1..])
  }

  /** `operator<`; the comparison of doubles is a parameter. */
  predicate Less(a: Value, b: Value, realLess: (int, int) -> bool)
    decreases Nodes(a) + Nodes(b)
  {
    if TypeRank(a) != TypeRank(b) then TypeRank(a) < TypeRank(b)
    else match a
      case Null => false
      case Int(i) => i < b.i
      case UInt(u) => u < b.u
      case Real(bits) => realLess(bits, b.bits)
      case Str(s) => MemcmpLess(s, b.s)
      case Bool(x) => !x && b.b
      case Arr(items) =>
        var delta := ToInt32(|items| - |b.items|);
        if delta != 0 then delta < 0 else EntriesLess(items, b.items, IndexLess, realLess)
      case Obj(members) =>
        var delta := ToInt32(|members| - |b.members|);
        if delta != 0 then delta < 0 else EntriesLess(members, b.members, MemcmpLess, realLess)
  }

  predicate IndexLess(i: nat, j: nat) {
    i < j
  }

  /** `std::lexicographical_compare` over the (key, value) pairs of two maps. */
  predicate EntriesLess<K>(a: seq<Entry<K, Value>>, b: seq<Entry<K, Value>>,
                           keyLess: (K, K) -> bool, realLess: (int, int) -> bool)
    decreases EntriesNodes(a) + EntriesNodes(b)
  {
    if b == [] then false
    else if a == [] then true
    else if PairLess(a[0].key, b[0].key, Less(a[0].value, b[0].value, realLess), keyLess) then true
    else if PairLess(b[0].key, a[0].key, Less(b[0].value, a[0].value, realLess), keyLess) then false
    else EntriesLess(a[1..], b[1..], keyLess, realLess)
  }

  /** `operator<` on pairs, given the comparison of the second components. */
  predicate PairLess<K>(k: K, l: K, valueLess: bool, keyLess: (K, K) -> bool) {
    keyLess(k, l) || (!keyLess(l, k) && valueLess)
  }

  /** `operator==`; the equality of doubles is a parameter. */
  predicate Equal(a: Value, b: Value, realEqual: (int, int) -> bool)
    decreases Nodes(a)
  {
    if TypeRank(a) != TypeRank(b) then false
    else match a
      case Null => true
      case Int(i) => i == b.i
      case UInt(u) => u == b.u
      case Real(bits) => realEqual(bits, b.bits)
      case Str(s) => |s| == |b.s| && Memcmp(s, b.s) == 0
      case Bool(x) => x == b.b
      case Arr(items) => |items| == |b.items| && EntriesEqual(items, b.items, IndexEqual, realEqual)
      case Obj(members) => |members| == |b.members| && EntriesEqual(members, b.members, KeyEqual, realEqual)
  }

  predicate IndexEqual(i: nat, j: nat) {
    i == j
  }

  /** `CZString::operator==` for string keys. */
  predicate KeyEqual(k: string, l: string) {
    |k| == |l| && Memcmp(k, l) == 0
  }

  predicate EntriesEqual<K>(a: seq<Entry<K, Value>>, b: seq<Entry<K, Value>>,
                            keyEqual: (K, K) -> bool, realEqual: (int, int) -> bool)
    requires |a| == |b|
    decreases EntriesNodes(a)
  {
    a == [] ||
    (keyEqual(a[0].key, b[0].key) && Equal(a[0].value, b[0].value, realEqual) &&
     EntriesEqual(a[1..], b[1..], keyEqual, realEqual))
  }

  /** `Value::compare`. */
  function Compare(a: Value, b: Value, realLess: (int, int) -> bool): int {
    if Less(a, b, realLess) then -1 else if Less(b, a, realLess) then 1 else 0
  }

  /** No double inside, and no container with more than `n` entries. */
  predicate Within(v: Value, n: nat)
    decreases Nodes(v)
  {
    match v
    case Real(_) => false
    case Arr(items) => |items| <= n && EntriesWithin(items, n)
    case Obj(members) => |members| <= n && EntriesWithin(members, n)
    case _ => true
  }

  predicate EntriesWithin<K>(es: seq<Entry<K, Value>>, n: nat)
    decreases EntriesNodes(es)
  {
    es == [] || (Within(es[0].value, n) && EntriesWithin(es[1..], n))
  }

  // ----- strict total order -----

  /** The three laws of a strict total order on the keys of a map. */
  ghost predicate StrictTotal<K(!new)>(less: (K, K) -> bool) {
    && (forall x :: !less(x, x))
    && (forall x, y :: x == y || less(x, y) || less(y, x))
    && (forall x, y, z :: less(x, y) && less(y, z) ==> less(x, z))
  }

  lemma KeyOrders()
    ensures StrictTotal(MemcmpLess) && StrictTotal(IndexLess)
  {
    forall x
      ensures !MemcmpLess(x, x)
    {
      MemcmpIsLexicographic(x, x);
      StringLessIrreflexive(x);
    }
    forall x, y
      ensures x == y || MemcmpLess(x, y) || MemcmpLess(y, x)
    {
      MemcmpIsLexicographic(x, y);
      MemcmpIsLexicographic(y, x);
      StringLessTotal(x, y);
    }
    forall x, y, z | MemcmpLess(x, y) && MemcmpLess(y, z)
      ensures MemcmpLess(x, z)
    {
      MemcmpIsLexicographic(x, y);
      MemcmpIsLexicographic(y, z);
      MemcmpIsLexicographic(x, z);
      StringLessTransitive(x, y, z);
    }
  }

  /** Exactly one of `a < b`, `a == b` and `b < a` holds. */
  lemma {:induction false} Trichotomy(a: Value, b: Value, realLess: (int, int) -> bool)
    requires Within(a, MAX_INT) && Within(b, MAX_INT)
    ensures a == b ==> !Less(a, b, realLess)
    ensures a != b ==> Less(a, b, realLess) != Less(b, a, realLess)
    decreases Nodes(a)
  {
    KeyOrders();
    match (a, b) {
      case (Arr(x), Arr(y)) => if |x| == |y| { EntriesTrichotomy(x, y, IndexLess, realLess); }
      case (Obj(x), Obj(y)) => if |x| == |y| { EntriesTrichotomy(x, y, MemcmpLess, realLess); }
      case _ =>
    }
  }

  lemma {:induction false} EntriesTrichotomy<K(!new)>(a: seq<Entry<K, Value>>, b: seq<Entry<K, Value>>,
                                                      keyLess: (K, K) -> bool, realLess: (int, int) -> bool)
    requires |a| == |b| && EntriesWithin(a, MAX_INT) && EntriesWithin(b, MAX_INT) && StrictTotal(keyLess)
    ensures a == b ==> !EntriesLess(a, b, keyLess, realLess)
    ensures a != b ==> EntriesLess(a, b, keyLess, realLess) != EntriesLess(b, a, keyLess, realLess)
    decreases EntriesNodes(a)
  {
    if a != [] {
      Trichotomy(a[0].value, b[0].value, realLess);
      EntriesTrichotomy(a[1..], b[1..], keyLess, realLess);
      if a[0] == b[0] && a[1..] == b[1..] {
        assert a == [a[0]] + a[1..] == b;
      }
    }
  }

  /** `operator<` is transitive. */
  lemma {:induction false} Transitivity(a: Value, b: Value, c: Value, realLess: (int, int) -> bool)
    requires Within(a, MAX_INT) && Within(b, MAX_INT) && Within(c, MAX_INT)
    requires Less(a, b, realLess) && Less(b, c, realLess)
    ensures Less(a, c, realLess)
    decreases Nodes(a)
  {
    KeyOrders();
    match (a, b, c) {
      case (Arr(x), Arr(y), Arr(z)) =>
        if |x| == |y| == |z| { EntriesTransitivity(x, y, z, IndexLess, realLess); }
      case (Obj(x), Obj(y), Obj(z)) =>
        if |x| == |y| == |z| { EntriesTransitivity(x, y, z, MemcmpLess, realLess); }
      case _ =>
    }
  }

  lemma {:induction false} EntriesTransitivity<K(!new)>(a: seq<Entry<K, Value>>, b: seq<Entry<K, Value>>,
                                                        c: seq<Entry<K, Value>>,
                                                        keyLess: (K, K) -> bool, realLess: (int, int) -> bool)
    requires |a| == |b| == |c| && StrictTotal(keyLess)
    requires EntriesWithin(a, MAX_INT) && EntriesWithin(b, MAX_INT) && EntriesWithin(c, MAX_INT)
    requires EntriesLess(a, b, keyLess, realLess) && EntriesLess(b, c, keyLess, realLess)
    ensures EntriesLess(a, c, keyLess, realLess)
    decreases EntriesNodes(a)
  {
    var u, v, w := a[0].value, b[0].value, c[0].value;
    var k, l, m := a[0].key, b[0].key, c[0].key;
    Trichotomy(u, v, realLess);
    Trichotomy(v, w, realLess);
    Trichotomy(u, w, realLess);
    if Less(u, v, realLess) && Less(v, w, realLess) {
      Transitivity(u, v, w, realLess);
    }
    assert keyLess(k, l) && keyLess(l, m) ==> keyLess(k, m);
    if k == l && u == v && l == m && v == w {
      EntriesTransitivity(a[1..], b[1..], c[1..], keyLess, realLess);
    }
  }

  lemma {:induction false} MemcmpZero(a: string, b: string)
    requires |a| == |b|
    ensures Memcmp(a, b) == 0 <==> a == b
  {
    if a != "" {
      MemcmpZero(a[1..], b[1..]);
      if a[0] == b[0] && a[1..] == b[1..] {
        assert a == [a[0]] + a[1..] == b;
      }
    }
  }

  /** `operator==` is equality of the two values. */
  lemma {:induction false} EqualIsEquality(a: Value, b: Value, realEqual: (int, int) -> bool)
    requires Within(a, MAX_INT)
    ensures Equal(a, b, realEqual) <==> a == b
    decreases Nodes(a)
  {
    match (a, b) {
      case (Str(x), Str(y)) => if |x| == |y| { MemcmpZero(x, y); }
      case (Arr(x), Arr(y)) => if |x| == |y| { EntriesEquality(x, y, IndexEqual, realEqual); }
      case (Obj(x), Obj(y)) =>
        forall k: string, l: string
          ensures KeyEqual(k, l) <==> k == l
        {
          if |k| == |l| { MemcmpZero(k, l); }
        }
        if |x| == |y| { EntriesEquality(x, y, KeyEqual, realEqual); }
      case _ =>
    }
  }

  lemma {:induction false} EntriesEquality<K(!new)>(a: seq<Entry<K, Value>>, b: seq<Entry<K, Value>>,
                                                    keyEqual: (K, K) -> bool, realEqual: (int, int) -> bool)
    requires |a| == |b| && EntriesWithin(a, MAX_INT)
    requires forall k, l :: keyEqual(k, l) <==> k == l
    ensures EntriesEqual(a, b, keyEqual, realEqual) <==> a == b
    decreases EntriesNodes(a)
  {
    if a != [] {
      EqualIsEquality(a[0].value, b[0].value, realEqual);
      EntriesEquality(a[1..], b[1..], keyEqual, realEqual);
      if a[0] == b[0] && a[1..] == b[1..] {
        assert a == [a[0]] + a[1..] == b;
      }
    }
  }

  /** `compare` is 0 exactly on equal values, agrees with `operator==` and changes sign with its arguments. */
  lemma CompareSigns(a: Value, b: Value, realLess: (int, int) -> bool, realEqual: (int, int) -> bool)
    requires Within(a, MAX_INT) && Within(b, MAX_INT)
    ensures Compare(a, b, realLess) == 0 <==> a == b
    ensures Compare(a, b, realLess) == 0 <==> Equal(a, b, realEqual)
    ensures Compare(a, b, realLess) == -Compare(b, a, realLess)
  {
    Trichotomy(a, b, realLess);
    EqualIsEquality(a, b, realEqual);
  }

  // ----- which order it is -----

  /** Null, signed and unsigned integers, doubles, strings, booleans, arrays, objects. */
  predicate EarlierType(a: Value, b: Value) {
    || (a.Null? && !b.Null?)
    || (a.Int? && (b.UInt? || b.Real? || b.Str? || b.Bool? || b.Arr? || b.Obj?))
    || (a.UInt? && (b.Real? || b.Str? || b.Bool? || b.Arr? || b.Obj?))
    || (a.Real? && (b.Str? || b.Bool? || b.Arr? || b.Obj?))
    || (a.Str? && (b.Bool? || b.Arr? || b.Obj?))
    || (a.Bool? && (b.Arr? || b.Obj?))
    || (a.Arr? && b.Obj?)
  }

  /** `a` comes first: by type, by number, by the characters of a string; a container by its size, and
      with the same size where the two differ first, by the key and then by the value. */
  ghost predicate Before(a: Value, b: Value)
    decreases Nodes(a), 1
  {
    || EarlierType(a, b)
    || (a.Int? && b.Int? && a.i < b.i)
    || (a.UInt? && b.UInt? && a.u < b.u)
    || (a.Str? && b.Str? && StringLess(a.s, b.s))
    || (a == Bool(false) && b == Bool(true))
    || (a.Arr? && b.Arr? && |a.items| < |b.items|)
    || (a.Arr? && b.Arr? && |a.items| == |b.items| && exists i :: 0 <= i < |a.items| && ItemBefore(a, b, i))
    || (a.Obj? && b.Obj? && |a.members| < |b.members|)
    || (a.Obj? && b.Obj? && |a.members| == |b.members| && exists i :: 0 <= i < |a.members| && MemberBefore(a, b, i))
  }

  ghost predicate ItemBefore(a: Value, b: Value, i: nat)
    requires a.Arr? && b.Arr? && i < |a.items| && i < |b.items|
    decreases Nodes(a), 0
  {
    var x, y := a.items[i], b.items[i];
    EntryInside(a.items, i);
    a.items[..i] == b.items[..i] && (x.key < y.key || (x.key == y.key && Before(x.value, y.value)))
  }

  ghost predicate MemberBefore(a: Value, b: Value, i: nat)
    requires a.Obj? && b.Obj? && i < |a.members| && i < |b.members|
    decreases Nodes(a), 0
  {
    var x, y := a.members[i], b.members[i];
    EntryInside(a.members, i);
    a.members[..i] == b.members[..i] && (StringLess(x.key, y.key) || (x.key == y.key && Before(x.value, y.value)))
  }

  lemma {:induction false} EntryInside<K>(es: seq<Entry<K, Value>>, i: nat)
    requires i < |es|
    ensures Nodes(es[i].value) < EntriesNodes(es)
    decreases i
  {
    if i > 0 {
      assert es[1..][i - 1] == es[i];
      EntryInside(es[1..], i - 1);
    }
  }

  /** Position `i` is where two maps of one size differ first, and `a` comes first there. */
  ghost predicate FirstAt<K>(a: seq<Entry<K, Value>>, b: seq<Entry<K, Value>>, i: nat,
                             keyLess: (K, K) -> bool, realLess: (int, int) -> bool)
    requires i < |a| && i < |b|
  {
    && a[..i] == b[..i]
    && (keyLess(a[i].key, b[i].key) || (a[i].key == b[i].key && Less(a[i].value, b[i].value, realLess)))
  }

  /** One map is less than another one of its size exactly if it comes first where they differ first. */
  lemma {:induction false} FirstDifference<K(!new)>(a: seq<Entry<K, Value>>, b: seq<Entry<K, Value>>,
                                                    keyLess: (K, K) -> bool, realLess: (int, int) -> bool)
    requires |a| == |b| && EntriesWithin(a, MAX_INT) && EntriesWithin(b, MAX_INT) && StrictTotal(keyLess)
    ensures EntriesLess(a, b, keyLess, realLess) <==>
      exists i :: 0 <= i < |a| && FirstAt(a, b, i, keyLess, realLess)
    decreases |a|
  {
    if a != [] {
      Trichotomy(a[0].value, b[0].value, realLess);
      if a[0] == b[0] {
        FirstDifference(a[1..], b[1..], keyLess, realLess);
        LaterDifference(a, b, keyLess, realLess);
      } else {
        forall i | 0 <= i < |a| && FirstAt(a, b, i, keyLess, realLess)
          ensures i == 0
        {
          SameFront(a, b, i);
        }
        assert FirstAt(a, b, 0, keyLess, realLess) <==>
          keyLess(a[0].key, b[0].key) || (a[0].key == b[0].key && Less(a[0].value, b[0].value, realLess));
      }
    }
  }

  lemma SameFront<K>(a: seq<Entry<K, Value>>, b: seq<Entry<K, Value>>, i: nat)
    requires i <= |a| && i <= |b| && a[..i] == b[..i]
    ensures i > 0 ==> a[0] == b[0]
  {
    if i > 0 {
      assert a[..i][0] == b[..i][0];
    }
  }

  lemma LaterDifference<K(!new)>(a: seq<Entry<K, Value>>, b: seq<Entry<K, Value>>,
                                 keyLess: (K, K) -> bool, realLess: (int, int) -> bool)
    requires |a| == |b| > 0 && a[0] == b[0] && StrictTotal(keyLess) && !Less(a[0].value, b[0].value, realLess)
    ensures (exists i :: 0 <= i < |a| && FirstAt(a, b, i, keyLess, realLess)) <==>
      exists i :: 0 <= i < |a[1..]| && FirstAt(a[1..], b[1..], i, keyLess, realLess)
  {
    if i :| 0 <= i < |a| && FirstAt(a, b, i, keyLess, realLess) {
      assert a[1..][..i - 1] == a[..i][1..] == b[..i][1..] == b[1..][..i - 1];
      assert FirstAt(a[1..], b[1..], i - 1, keyLess, realLess);
    }
    if i :| 0 <= i < |a[1..]| && FirstAt(a[1..], b[1..], i, keyLess, realLess) {
      assert a[..i + 1] == [a[0]] + a[1..][..i] == [b[0]] + b[1..][..i] == b[..i + 1];
      assert FirstAt(a, b, i + 1, keyLess, realLess);
    }
  }

  /** That is the order of `operator<`. */
  lemma {:induction false} OrderMeaning(a: Value, b: Value, realLess: (int, int) -> bool)
    requires Within(a, MAX_INT) && Within(b, MAX_INT)
    ensures Less(a, b, realLess) <==> Before(a, b)
    decreases Nodes(a), 1
  {
    match (a, b) {
      case (Str(x), Str(y)) => MemcmpIsLexicographic(x, y);
      case (Arr(_), Arr(_)) => ArrayOrder(a, b, realLess);
      case (Obj(_), Obj(_)) => ObjectOrder(a, b, realLess);
      case _ =>
    }
  }

  lemma {:induction false} EntryWithin<K>(es: seq<Entry<K, Value>>, i: nat, n: nat)
    requires EntriesWithin(es, n) && i < |es|
    ensures Within(es[i].value, n)
    decreases i
  {
    if i > 0 {
      assert es[1..][i - 1] == es[i];
      EntryWithin(es[1..], i - 1, n);
    }
  }

  lemma {:induction false} ArrayOrder(a: Value, b: Value, realLess: (int, int) -> bool)
    requires Within(a, MAX_INT) && Within(b, MAX_INT) && a.Arr? && b.Arr?
    ensures Less(a, b, realLess) <==> Before(a, b)
    decreases Nodes(a), 0
  {
    var x, y := a.items, b.items;
    if |x| == |y| {
      KeyOrders();
      FirstDifference(x, y, IndexLess, realLess);
      forall i | 0 <= i < |x|
        ensures FirstAt(x, y, i, IndexLess, realLess) <==> ItemBefore(a, b, i)
      {
        EntryInside(x, i);
        EntryWithin(x, i, MAX_INT);
        EntryWithin(y, i, MAX_INT);
        OrderMeaning(x[i].value, y[i].value, realLess);
      }
    }
  }

  lemma {:induction false} ObjectOrder(a: Value, b: Value, realLess: (int, int) -> bool)
    requires Within(a, MAX_INT) && Within(b, MAX_INT) && a.Obj? && b.Obj?
    ensures Less(a, b, realLess) <==> Before(a, b)
    decreases Nodes(a), 0
  {
    var x, y := a.members, b.members;
    if |x| == |y| {
      KeyOrders();
      FirstDifference(x, y, MemcmpLess, realLess);
      forall i | 0 <= i < |x|
        ensures FirstAt(x, y, i, MemcmpLess, realLess) <==> MemberBefore(a, b, i)
      {
        EntryInside(x, i);
        EntryWithin(x, i, MAX_INT);
        EntryWithin(y, i, MAX_INT);
        OrderMeaning(x[i].value, y[i].value, realLess);
        MemcmpIsLexicographic(x[i].key, y[i].key);
      }
    }
  }

  /** `compare` is negative exactly if the first value comes first, positive exactly if the second does. */
  lemma CompareMeaning(a: Value, b: Value, realLess: (int, int) -> bool)
    requires Within(a, MAX_INT) && Within(b, MAX_INT)
    ensures Compare(a, b, realLess) < 0 <==> Before(a, b)
    ensures Compare(a, b, realLess) > 0 <==> Before(b, a)
    ensures Compare(a, b, realLess) == 0 <==> a == b
  {
    OrderMeaning(a, b, realLess);
    OrderMeaning(b, a, realLess);
    Trichotomy(a, b, realLess);
  }

  // ----- how large containers may be -----

  ghost predicate OneHolds(a: Value, b: Value, realLess: (int, int) -> bool) {
    && (a == b ==> !Less(a, b, realLess))
    && (a != b ==> Less(a, b, realLess) != Less(b, a, realLess))
  }

  lemma {:induction false} WithinMore(v: Value, n: nat, m: nat)
    requires Within(v, n) && n <= m
    ensures Within(v, m)
    decreases Nodes(v)
  {
    match v {
      case Arr(items) => EntriesWithinMore(items, n, m);
      case Obj(members) => EntriesWithinMore(members, n, m);
      case _ =>
    }
  }

  lemma {:induction false} EntriesWithinMore<K>(es: seq<Entry<K, Value>>, n: nat, m: nat)
    requires EntriesWithin(es, n) && n <= m
    ensures EntriesWithin(es, m)
    decreases EntriesNodes(es)
  {
    if es != [] {
      WithinMore(es[0].value, n, m);
      EntriesWithinMore(es[1..], n, m);
    }
  }

  function Nulls(size: nat): seq<Entry<nat, Value>> {
    seq(size, i requires 0 <= i < size => Entry(i, Null))
  }

  lemma {:induction false} NullsWithin(es: seq<Entry<nat, Value>>, n: nat)
    requires forall i :: 0 <= i < |es| ==> es[i].value == Null
    ensures EntriesWithin(es, n)
  {
    if es != [] {
      NullsWithin(es[1..], n);
    }
  }

  /** An array of 2^31 nulls and the empty one: the difference of their sizes changes its sign. */
  lemma OversizeBreaksOrder(realLess: (int, int) -> bool)
    ensures Less(Arr(Nulls(MAX_INT + 1)), Arr([]), realLess) && Less(Arr([]), Arr(Nulls(MAX_INT + 1)), realLess)
  {
    assert ToInt32(MAX_INT + 1) < 0 && ToInt32(0 - (MAX_INT + 1)) < 0;
  }

  /** Of any two values with at most `n` entries in a container exactly one of `a < b`, `a == b` and
      `b < a` holds, if and only if `n` is a size that an `int` holds. */
  lemma TrichotomyBound(n: nat, realLess: (int, int) -> bool)
    ensures (forall a, b :: Within(a, n) && Within(b, n) ==> OneHolds(a, b, realLess)) <==> n < 0x8000_0000
  {
    if n <= MAX_INT {
      forall a, b | Within(a, n) && Within(b, n)
        ensures OneHolds(a, b, realLess)
      {
        WithinMore(a, n, MAX_INT);
        WithinMore(b, n, MAX_INT);
        Trichotomy(a, b, realLess);
      }
    } else {
      var big := Arr(Nulls(MAX_INT + 1));
      NullsWithin(big.items, n);
      OversizeBreaksOrder(realLess);
      assert Within(big, n) && Within(Arr([]), n) && !OneHolds(big, Arr([]), realLess);
    }
  }
}

/** Text as the C++ sources see it, and `std::map` as its in-order sequence of entries. */
module Text {

  /** `s` shows `t` at position `p`. */
  predicate At(s: string, p: nat, t: string)
    decreases |t|, 1
  {
    p + |t| <= |s| && (t == "" || AtNonempty(s, p, t))
  }

  predicate AtNonempty(s: string, p: nat, t: string)
    requires t != "" && p + |t| <= |s|
    decreases |t|, 0
  {
    s[p] == t[0] && At(s, p + 1, t[1..])
  }

  lemma {:induction false} AtConcat(s: string, p: nat, a: string, b: string)
    ensures At(s, p, a + b) <==> At(s, p, a) && At(s, p + |a|, b)
    decreases |a|
  {
    if a == "" {
      assert a + b == b;
    } else if p + |a| + |b| <= |s| {
      assert (a + b)[1..] == a[1..] + b;
      AtConcat(s, p + 1, a[1..], b);
      assert At(s, p, a + b) == AtNonempty(s, p, a + b);
      assert At(s, p, a) == AtNonempty(s, p, a);
    }
  }

  lemma AtFirst(s: string, p: nat, t: string)
    requires At(s, p, t) && t != ""
    ensures p < |s| && s[p] == t[0] && At(s, p + 1, t[1..])
  {
    assert AtNonempty(s, p, t);
  }

  lemma {:induction false} AtChars(s: string, p: nat, t: string)
    requires At(s, p, t)
    ensures forall i :: 0 <= i < |t| ==> s[p + i] == t[i]
    decreases |t|
  {
    if t != "" {
      AtFirst(s, p, t);
      AtChars(s, p + 1, t[1..]);
      forall i | 0 <= i < |t|
        ensures s[p + i] == t[i]
      {
        if i > 0 {
          assert s[p + 1 + (i - 1)] == t[1..][i - 1];
        }
      }
    }
  }

  /** The slice at `p` is `t`. */
  lemma {:induction false} AtSlice(s: string, p: nat, t: string)
    ensures At(s, p, t) <==> p + |t| <= |s| && s[p..p + |t|] == t
    decreases |t|
  {
    if p + |t| <= |s| && t != "" {
      assert At(s, p, t) == AtNonempty(s, p, t);
      AtSlice(s, p + 1, t[1..]);
      assert s[p..p + |t|] == [s[p]] + s[p + 1..p + |t|];
      assert t == [t[0]] + t[1..];
    }
  }

  /** The lexicographic order on the characters, a prefix first. */
  predicate StringLess(a: string, b: string)
    decreases |a|
  {
    b != "" && (a == "" || a[0] < b[0] || (a[0] == b[0] && StringLess(a[1..], b[1..])))
  }

  /** The sign of `memcmp` over the first `|a|` bytes of two buffers of one length. */
  function Memcmp(a: string, b: string): int
    requires |a| == |b|
  {
    if a == "" then 0
    else if a[0] < b[0] then -1
    else if a[0] > b[0] then 1
    else Memcmp(a[1..], b[1..])
  }

  /** `CZString::operator<`: `memcmp` over the common length, then the shorter string first. */
  predicate MemcmpLess(a: string, b: string) {
    var n := if |a| < |b| then |a| else |b|;
    var comp := Memcmp(a[..n], b[..n]);
    comp < 0 || (comp == 0 && |a| < |b|)
  }

  /** That is the lexicographic order. */
  lemma {:induction false} MemcmpIsLexicographic(a: string, b: string)
    ensures MemcmpLess(a, b) <==> StringLess(a, b)
    decreases |a|
  {
    if a != "" && b != "" {
      var n := if |a| < |b| then |a| else |b|;
      assert a[..n][1..] == a[1..][..n - 1];
      assert b[..n][1..] == b[1..][..n - 1];
      MemcmpIsLexicographic(a[1..], b[1..]);
    }
  }

  lemma {:induction false} StringLessIrreflexive(a: string)
    ensures !StringLess(a, a)
  {
    if a != "" {
      StringLessIrreflexive(a[1..]);
    }
  }

  lemma {:induction false} StringLessTotal(a: string, b: string)
    ensures a == b || StringLess(a, b) || StringLess(b, a)
  {
    if a != "" && b != "" && a[0] == b[0] {
      StringLessTotal(a[1..], b[1..]);
      if a[1..] == b[1..] {
        assert a == [a[0]] + a[1..] == b;
      }
    }
  }

  lemma {:induction false} StringLessTransitive(a: string, b: string, c: string)
    requires StringLess(a, b) && StringLess(b, c)
    ensures StringLess(a, c)
  {
    if a != "" && a[0] == b[0] && b[0] == c[0] {
      StringLessTransitive(a[1..], b[1..], c[1..]);
    }
  }

  /** A string is less than the strings that it is a proper prefix of, and than those with a greater
      character where the two differ first. */
  lemma {:induction false} LexicographicMeaning(a: string, b: string)
    ensures StringLess(a, b) <==> a < b || exists i :: 0 <= i < |a| && i < |b| && a[..i] == b[..i] && a[i] < b[i]
  {
    if a != "" && b != "" {
      assert a == [a[0]] + a[1..] && b == [b[0]] + b[1..];
      LexicographicMeaning(a[1..], b[1..]);
      if a[0] == b[0] {
        DifferLater(a, b);
      }
    }
  }

  lemma DifferLater(a: string, b: string)
    requires a != "" && b != "" && a[0] == b[0]
    ensures (exists i :: 0 <= i < |a| && i < |b| && a[..i] == b[..i] && a[i] < b[i]) <==>
      exists i :: 0 <= i < |a[1..]| && i < |b[1..]| && a[1..][..i] == b[1..][..i] && a[1..][i] < b[1..][i]
  {
    if i :| 0 <= i < |a| && i < |b| && a[..i] == b[..i] && a[i] < b[i] {
      assert a[1..][..i - 1] == a[..i][1..] == b[..i][1..] == b[1..][..i - 1];
      assert a[1..][i - 1] == a[i] && b[1..][i - 1] == b[i];
    }
    if i :| 0 <= i < |a[1..]| && i < |b[1..]| && a[1..][..i] == b[1..][..i] && a[1..][i] < b[1..][i] {
      assert a[..i + 1] == [a[0]] + a[1..][..i] == [b[0]] + b[1..][..i] == b[..i + 1];
      assert a[1..][i] == a[i + 1] && b[1..][i] == b[i + 1];
    }
  }

  /** Of two prefixes of one string the greater one is the longer one. */
  lemma {:induction false} PrefixOrder(a: string, b: string, path: string)
    requires a <= path && b <= path
    ensures StringLess(a, b) <==> |a| < |b|
  {
    if a != "" && b != "" {
      assert a[0] == path[0] == b[0];
      PrefixOrder(a[1..], b[1..], path[1..]);
    }
  }

  /** What a C string reader sees of `s`: the part before the first NUL. */
  function CString(s: string): (r: string)
    ensures r <= s && '\0' !in r
    ensures r == s || s[|r|] == '\0'
    ensures '\0' !in s ==> r == s
  {
    if s == "" || s[0] == '\0' then ""
    else
      assert s == [s[0]] + s[1..];
      [s[0]] + CString(s[1..])
  }
}

/** `std::map` as the sequence of its entries in iteration order. */
module OrderedMap {
  import opened Text

  datatype Option<+T> = None | Some(value: T) {
    function GetOr(default: T): T {
      match this
      case None => default
      case Some(v) => v
    }
  }

  datatype Entry<+K, +V> = Entry(key: K, value: V)

  /** Keys strictly increase, as in a `std::map` keyed by strings. */
  predicate Sorted<V>(m: seq<Entry<string, V>>) {
    forall i, j :: 0 <= i < j < |m| ==> StringLess(m[i].key, m[j].key)
  }

  /** Every key of the map is greater than `key`. */
  predicate AllGreater<V>(m: seq<Entry<string, V>>, key: string) {
    forall i :: 0 <= i < |m| ==> StringLess(key, m[i].key)
  }

  /** The look-up walks to the first key that is not smaller, as `lower_bound` does. */
  function Find<V>(m: seq<Entry<string, V>>, key: string): Option<V> {
    if m == [] then None
    else if StringLess(m[0].key, key) then Find(m[1..], key)
    else if m[0].key == key then Some(m[0].value)
    else None
  }

  /** `m[key] = value`. */
  function Insert<V>(m: seq<Entry<string, V>>, key: string, value: V): seq<Entry<string, V>> {
    if m == [] then [Entry(key, value)]
    else if StringLess(m[0].key, key) then [m[0]] + Insert(m[1..], key, value)
    else if m[0].key == key then [Entry(key, value)] + m[1..]
    else [Entry(key, value)] + m
  }

  function Erase<V>(m: seq<Entry<string, V>>, key: string): seq<Entry<string, V>> {
    if m == [] then []
    else if StringLess(m[0].key, key) then [m[0]] + Erase(m[1..], key)
    else if m[0].key == key then m[1..]
    else m
  }

  predicate HasKey<V>(m: seq<Entry<string, V>>, key: string) {
    Find(m, key).Some?
  }

  lemma SortedTail<V>(m: seq<Entry<string, V>>)
    requires m != []
    ensures Sorted(m) <==> Sorted(m[1..]) && AllGreater(m[1..], m[0].key)
  {
    if Sorted(m[1..]) && AllGreater(m[1..], m[0].key) {
      forall i, j | 0 <= i < j < |m|
        ensures StringLess(m[i].key, m[j].key)
      {
        assert m[j] == m[1..][j - 1];
        if i > 0 {
          assert m[i] == m[1..][i - 1];
        }
      }
    }
    if Sorted(m) {
      forall i | 0 <= i < |m[1..]|
        ensures StringLess(m[0].key, m[1..][i].key)
      {
        assert m[1..][i] == m[i + 1];
      }
    }
  }

  /** A key below all others is not found. */
  lemma FindSmaller<V>(m: seq<Entry<string, V>>, key: string)
    requires AllGreater(m, key)
    ensures Find(m, key) == None
  {
    if m != [] {
      assert StringLess(key, m[0].key);
      StringLessIrreflexive(key);
      if StringLess(m[0].key, key) {
        StringLessTransitive(key, m[0].key, key);
      }
    }
  }

  /** In a sorted sequence `Find` answers for every entry. */
  lemma {:induction false} FindIndex<V>(m: seq<Entry<string, V>>, i: nat)
    requires Sorted(m) && i < |m|
    ensures Find(m, m[i].key) == Some(m[i].value)
  {
    SortedTail(m);
    if i == 0 {
      StringLessIrreflexive(m[0].key);
    } else {
      assert m[i] == m[1..][i - 1];
      FindIndex(m[1..], i - 1);
    }
  }

  /** `Find` answers with an entry of the map. */
  lemma {:induction false} FindSome<V>(m: seq<Entry<string, V>>, key: string) returns (i: nat)
    requires Find(m, key).Some?
    ensures i < |m| && m[i] == Entry(key, Find(m, key).value)
  {
    if StringLess(m[0].key, key) {
      var j := FindSome(m[1..], key);
      i := j + 1;
    } else {
      i := 0;
    }
  }

  lemma AllGreaterTransitive<V>(m: seq<Entry<string, V>>, a: string, b: string)
    requires StringLess(a, b) && AllGreater(m, b)
    ensures AllGreater(m, a)
  {
    forall i | 0 <= i < |m|
      ensures StringLess(a, m[i].key)
    {
      StringLessTransitive(a, b, m[i].key);
    }
  }

  /** Insertion keeps the order, sets its key and no other. */
  lemma {:induction false} InsertSorted<V>(m: seq<Entry<string, V>>, key: string, value: V)
    requires Sorted(m)
    ensures Sorted(Insert(m, key, value))
    ensures forall k :: StringLess(k, key) && AllGreater(m, k) ==> AllGreater(Insert(m, key, value), k)
    ensures forall k :: Find(Insert(m, key, value), k) == if k == key then Some(value) else Find(m, k)
  {
    var r := Insert(m, key, value);
    if m != [] {
      SortedTail(m);
      StringLessTotal(m[0].key, key);
      if StringLess(m[0].key, key) {
        InsertSorted(m[1..], key, value);
        assert r[0] == m[0] && r[1..] == Insert(m[1..], key, value);
      } else {
        assert r[0] == Entry(key, value) && r[1..] == if m[0].key == key then m[1..] else m;
        if m[0].key != key {
          AllGreaterTransitive(m[1..], key, m[0].key);
        }
      }
    }
    SortedTail(r);
    StringLessIrreflexive(key);
    forall k
      ensures Find(r, k) == if k == key then Some(value) else Find(m, k)
    {
      StringLessTotal(k, key);
      if m != [] && !StringLess(m[0].key, key) && m[0].key != key && StringLess(m[0].key, k) {
        StringLessTransitive(key, m[0].key, k);
      }
      if m != [] && !StringLess(m[0].key, key) && k != key && StringLess(k, key) {
        FindBelow(m, k, key);
      }
      if m != [] && StringLess(m[0].key, key) && k == key {
        assert Find(r, k) == Find(r[1..], k);
      }
    }
  }

  /** Keys below the first one are not found. */
  lemma FindBelow<V>(m: seq<Entry<string, V>>, k: string, key: string)
    requires Sorted(m) && m != [] && StringLess(k, key) && !StringLess(m[0].key, key)
    ensures Find(m, k) == None
  {
    StringLessTotal(m[0].key, key);
    if m[0].key != key {
      StringLessTransitive(k, key, m[0].key);
    }
    SortedTail(m);
    AllGreaterTransitive(m[1..], k, m[0].key);
    assert AllGreater(m, k) by {
      forall i | 0 <= i < |m|
        ensures StringLess(k, m[i].key)
      {
        if i > 0 {
          assert m[i] == m[1..][i - 1];
        }
      }
    }
    FindSmaller(m, k);
  }

  /** Erasing keeps the order, removes its key and no other. */
  lemma {:induction false} EraseSorted<V>(m: seq<Entry<string, V>>, key: string)
    requires Sorted(m)
    ensures Sorted(Erase(m, key))
    ensures forall k :: AllGreater(m, k) ==> AllGreater(Erase(m, key), k)
    ensures forall k :: Find(Erase(m, key), k) == if k == key then None else Find(m, k)
  {
    var r := Erase(m, key);
    StringLessIrreflexive(key);
    if m != [] {
      SortedTail(m);
      StringLessTotal(m[0].key, key);
      if StringLess(m[0].key, key) {
        EraseSorted(m[1..], key);
        assert r[0] == m[0] && r[1..] == Erase(m[1..], key);
        SortedTail(r);
        forall k | AllGreater(m, k)
          ensures AllGreater(r, k)
        {
          assert AllGreater(m[1..], k) by {
            assert forall i :: 0 <= i < |m[1..]| ==> m[1..][i] == m[i + 1];
          }
          assert StringLess(k, m[0].key);
        }
      } else if m[0].key == key {
        FindSmaller(m[1..], key);
        forall k | k != key
          ensures Find(r, k) == Find(m, k)
        {
          StringLessTotal(k, key);
          if StringLess(k, key) {
            AllGreaterTransitive(m[1..], k, key);
            FindSmaller(m[1..], k);
            FindBelow(m, k, key);
          }
        }
      } else {
        assert !StringLess(m[0].key, key);
      }
    }
  }

  /** A key greater than all others goes to the end. */
  lemma {:induction false} InsertLast<V>(m: seq<Entry<string, V>>, key: string, value: V)
    requires forall i :: 0 <= i < |m| ==> StringLess(m[i].key, key)
    ensures Insert(m, key, value) == m + [Entry(key, value)]
    ensures Find(m, key) == None
  {
    if m != [] {
      assert forall i :: 0 <= i < |m[1..]| ==> m[1..][i] == m[i + 1];
      InsertLast(m[1..], key, value);
      assert m == [m[0]] + m[1..];
    }
  }
}

/** What the REST server answers in a given state. */
module HttpAnswers {
  import opened Text
  import opened OrderedMap
  import opened JsonValue
  import opened JsonGrammar
  import opened JsonStyledWriter
  import opened JsonStyledRoundTrip
  import opened HttpRouter
  import opened HttpServer

  // ----- methods of an endpoint -----

  /** The names of those of the first `k` methods that have a handler for the endpoint. */
  function NamesUpTo(r: Routes, endpoint: string, k: nat): (names: seq<string>)
    requires WellFormed(r) && k <= METHODS
    ensures |names| <= k
  {
    if k == 0 then []
    else
      NamesUpTo(r, endpoint, k - 1) +
      if HasKey(r.methods[k - 1], endpoint) then [MethodName(MethodAt(k - 1))] else []
  }

  function AllowedNames(r: Routes, endpoint: string): seq<string>
    requires WellFormed(r)
  {
    NamesUpTo(r, endpoint, |r.methods|)
  }

  /** A method is named exactly if it has a handler. */
  lemma {:induction false} NamesMeaning(r: Routes, endpoint: string, k: nat, verb: Method)
    requires WellFormed(r) && k <= METHODS && verb != ALL
    ensures MethodName(verb) in NamesUpTo(r, endpoint, k) <==> Slot(verb) < k && Handles(r, verb, endpoint)
  {
    if k > 0 {
      NamesMeaning(r, endpoint, k - 1, verb);
      MethodNamed(verb, k - 1);
    }
  }

  lemma MethodNamed(verb: Method, k: nat)
    requires verb != ALL && k < METHODS
    ensures MethodName(verb) == MethodName(MethodAt(k)) <==> Slot(verb) == k
  {
    assert "GET" != "PUT" && "POST" != "DELETE";
  }

  lemma {:induction false} NamesEmpty(r: Routes, endpoint: string, k: nat)
    requires WellFormed(r) && k <= METHODS
    ensures NamesUpTo(r, endpoint, k) == [] <==> forall i :: 0 <= i < k ==> !HasKey(r.methods[i], endpoint)
  {
    if k > 0 {
      NamesEmpty(r, endpoint, k - 1);
    }
  }

  // ----- the registry -----

  /** `body[key].append(name)`: a new member starts as null, which `append` turns into an array. */
  function Appended(old_: Option<Value>, name: string): Value {
    match old_
    case Some(Arr(items)) => Arr(items + [Entry(ArraySize(items), Str(name))])
    case _ => Arr([Entry(0, Str(name))])
  }

  function AppendAll(body: seq<Entry<string, Value>>, m: FuncMap, name: string): seq<Entry<string, Value>>
    decreases |m|
  {
    if m == [] then body
    else
      var n := |m| - 1;
      AppendAll(Insert(body, m[n].key, Appended(Find(body, m[n].key), name)), m[..n], name)
  }

  function RegistryUpTo(r: Routes, k: nat): seq<Entry<string, Value>>
    requires WellFormed(r) && k <= METHODS
  {
    if k == 0 then [] else AppendAll(RegistryUpTo(r, k - 1), r.methods[k - 1], MethodName(MethodAt(k - 1)))
  }

  function RegistryValue(r: Routes): Value
    requires WellFormed(r)
  {
    Obj(RegistryUpTo(r, |r.methods|))
  }

  function NamesArray(names: seq<string>): Value {
    Arr(seq(|names|, i requires 0 <= i < |names| => Entry(i, Str(names[i]))))
  }

  lemma HasKeyIff<V>(m: seq<Entry<string, V>>, key: string)
    requires Sorted(m)
    ensures HasKey(m, key) <==> exists i :: 0 <= i < |m| && m[i].key == key
  {
    if HasKey(m, key) {
      var i := FindSome(m, key);
    } else if i :| 0 <= i < |m| && m[i].key == key {
      FindIndex(m, i);
    }
  }

  /** The last key of a map stands nowhere else in it. */
  lemma HasKeyFront<V>(m: seq<Entry<string, V>>, key: string)
    requires Sorted(m) && m != []
    ensures var n := |m| - 1;
      && (HasKey(m, key) <==> key == m[n].key || HasKey(m[..n], key))
      && !(key == m[n].key && HasKey(m[..n], key))
  {
    var n := |m| - 1;
    HasKeyIff(m, key);
    HasKeyIff(m[..n], key);
    if HasKey(m, key) && key != m[n].key {
      var i :| 0 <= i < |m| && m[i].key == key;
      assert m[..n][i].key == key;
    }
    if HasKey(m[..n], key) {
      var i :| 0 <= i < n && m[..n][i].key == key;
      assert m[i].key == key && StringLess(m[i].key, m[n].key);
      StringLessIrreflexive(key);
    }
  }

  lemma {:induction false} AppendAllFinds(body: seq<Entry<string, Value>>, m: FuncMap, name: string, key: string)
    requires Sorted(body) && Sorted(m)
    ensures Sorted(AppendAll(body, m, name))
    ensures Find(AppendAll(body, m, name), key) ==
      if HasKey(m, key) then Some(Appended(Find(body, key), name)) else Find(body, key)
    decreases |m|
  {
    if m != [] {
      var n := |m| - 1;
      var value := Appended(Find(body, m[n].key), name);
      InsertSorted(body, m[n].key, value);
      AppendAllFinds(Insert(body, m[n].key, value), m[..n], name, key);
      HasKeyFront(m, key);
    }
  }

  /** The registry lists every endpoint that has a handler, and no other, with the names that an
      `Allow` header for it joins. */
  lemma {:induction false} RegistryEntry(r: Routes, k: nat, endpoint: string)
    requires WellFormed(r) && k <= METHODS
    ensures Sorted(RegistryUpTo(r, k))
    ensures var names := NamesUpTo(r, endpoint, k);
      Find(RegistryUpTo(r, k), endpoint) == if names == [] then None else Some(NamesArray(names))
  {
    if k > 0 {
      RegistryEntry(r, k - 1, endpoint);
      RegistryStep(RegistryUpTo(r, k - 1), r.methods[k - 1], endpoint, NamesUpTo(r, endpoint, k - 1),
        MethodName(MethodAt(k - 1)));
    }
  }

  lemma RegistryStep(body: seq<Entry<string, Value>>, m: FuncMap, endpoint: string,
                     names: seq<string>, name: string)
    requires Sorted(body) && Sorted(m)
    requires Find(body, endpoint) == if names == [] then None else Some(NamesArray(names))
    ensures Sorted(AppendAll(body, m, name))
    ensures var names' := names + if HasKey(m, endpoint) then [name] else [];
      Find(AppendAll(body, m, name), endpoint) == if names' == [] then None else Some(NamesArray(names'))
  {
    AppendAllFinds(body, m, name, endpoint);
    ArrayGrows(names, name);
    assert names + [] == names;
  }

  lemma ArrayGrows(names: seq<string>, name: string)
    ensures Appended(if names == [] then None else Some(NamesArray(names)), name) == NamesArray(names + [name])
  {
    var items := NamesArray(names).items;
    assert NamesArray(names + [name]).items == items + [Entry(|names|, Str(name))];
    assert ArraySize(items) == |names|;
    if names == [] {
      assert NamesArray([name]).items == [Entry(0, Str(name))];
    }
  }

  function Registry(r: Routes): string
    requires WellFormed(r)
  {
    StyledDocument(RegistryValue(r))
  }

  /** Every endpoint is a name whose length the JSON engine stores. */
  ghost predicate ShortNames(r: Routes)
    requires WellFormed(r)
  {
    forall k, e :: 0 <= k < METHODS && HasKey(r.methods[k], e) ==> |e| < 0x4000_0000
  }

  /** A client that reads the registry page gets exactly the registry if and only if no endpoint
      contains a NUL. */
  lemma RegistryReadsBack(f: Features, r: Routes, root: Value)
    requires WellFormed(r) && ShortNames(r)
    ensures Parse(f, Registry(r), root) == Finished(true, RegistryValue(r), []) <==>
      forall k, e :: 0 <= k < METHODS && HasKey(r.methods[k], e) ==> '\0' !in e
  {
    var members := RegistryValue(r).members;
    RegistryPlain(r);
    ObjectReadsBack(f, members, root);
    forall i | 0 <= i < |members|
      ensures exists k :: 0 <= k < METHODS && HasKey(r.methods[k], members[i].key)
    {
      RegistryMember(r, i);
    }
    forall k, e | 0 <= k < METHODS && HasKey(r.methods[k], e)
      ensures exists i :: 0 <= i < |members| && members[i].key == e
    {
      RegistryEntry(r, |r.methods|, e);
      NamesEmpty(r, e, |r.methods|);
      var i := FindSome(members, e);
    }
  }

  lemma RegistryPlain(r: Routes)
    requires WellFormed(r) && ShortNames(r)
    ensures var members := RegistryValue(r).members;
      Sorted(members) && forall i :: 0 <= i < |members| ==> |members[i].key| < KEY_LIMIT && Plain(members[i].value)
    ensures Representable(RegistryValue(r))
  {
    var members := RegistryValue(r).members;
    RegistryEntry(r, |r.methods|, "");
    forall i | 0 <= i < |members|
      ensures |members[i].key| < KEY_LIMIT && Plain(members[i].value)
    {
      RegistryMember(r, i);
    }
  }

  lemma ObjectReadsBack(f: Features, members: seq<Entry<string, Value>>, root: Value)
    requires Sorted(members)
    requires forall i :: 0 <= i < |members| ==> |members[i].key| < KEY_LIMIT && Plain(members[i].value)
    ensures Parse(f, StyledDocument(Obj(members)), root) == Finished(true, Obj(members), []) <==>
      forall i :: 0 <= i < |members| ==> '\0' !in members[i].key
  {
    EntriesDepthLeast(members, 1);
    assert CanonMembers(false, Obj(members), |members|) == members;
    CutNamesLoses(Obj(members));
    StyledRoundTrip(f, Obj(members), root);
  }

  /** What holds for an array of method names. */
  ghost predicate Plain(v: Value) {
    Representable(v) && Depth(v) <= 1 && NulFree(v) && Canon(false, v) == v
  }

  /** A member of the registry is an endpoint with a handler. */
  lemma RegistryMember(r: Routes, i: nat)
    requires WellFormed(r) && i < |RegistryValue(r).members|
    ensures var m := RegistryValue(r).members[i];
      Plain(m.value) && exists k :: 0 <= k < METHODS && HasKey(r.methods[k], m.key)
  {
    var members := RegistryValue(r).members;
    var names := AllowedNames(r, members[i].key);
    RegistryEntry(r, |r.methods|, members[i].key);
    FindIndex(members, i);
    NamesShort(r, members[i].key, |r.methods|);
    NamesEmpty(r, members[i].key, |r.methods|);
    NamesPlain(names);
  }

  lemma {:induction false} NamesShort(r: Routes, endpoint: string, k: nat)
    requires WellFormed(r) && k <= METHODS
    ensures forall i :: 0 <= i < |NamesUpTo(r, endpoint, k)| ==> 0 < |NamesUpTo(r, endpoint, k)[i]| <= 7
  {
    if k > 0 {
      NamesShort(r, endpoint, k - 1);
    }
  }

  lemma NamesPlain(names: seq<string>)
    requires |names| <= METHODS && forall i :: 0 <= i < |names| ==> |names[i]| <= 7
    ensures Plain(NamesArray(names))
  {
    var v := NamesArray(names);
    EntriesDepthLeast<nat>(v.items, 0);
    forall i | 0 <= i < |names|
      ensures Dense(v.items)[i] == Str(names[i])
    {
      ItemAtIndex(v.items, i);
    }
    var c := CanonItems(false, v, |Dense(v.items)|);
    forall i | 0 <= i < |names|
      ensures c[i] == v.items[i]
    {
    }
    assert c == v.items;
  }

  // ----- requests -----

  /** `_endsWithSchema`. */
  predicate EndsWithSchema(path: string) {
    |path| >= |SCHEMA| && path[|path| - |SCHEMA|..] == SCHEMA
  }

  function LastSlash(path: string): (r: Option<nat>)
    ensures r.Some? ==> r.value < |path| && path[r.value] == '/'
    ensures forall i :: 0 <= i < |path| && path[i] == '/' ==> r.Some? && i <= r.value
  {
    if path == "" then None
    else if path[|path| - 1] == '/' then Some(|path| - 1)
    else LastSlash(path[..|path| - 1])
  }

  /** `path.substr(0, path.find_last_of('/'))`: without a slash it is the whole path. */
  function SchemaEndpoint(path: string): string {
    match LastSlash(path)
    case Some(i) => path[..i]
    case None => path
  }

  function SchemaFor(r: Routes, path: string): Option<string> {
    if EndsWithSchema(path) then Find(r.schemas, SchemaEndpoint(path)) else None
  }

  /** What the server does with a request. */
  datatype Decision =
    | PathTooShort
    | RegistryPage
    | SchemaPage(schema: string)
    | Routed(target: Target)
    | MethodNotAllowed(names: seq<string>)
    | NotFound

  /** `respondTo`, where `path` starts with its slash; `substr(1)` throws when there is none. */
  function Decide(r: Routes, verb: Method, path: string): Decision
    requires WellFormed(r) && verb != ALL
  {
    if path == "" then PathTooShort
    else
      var p := path[1..];
      if verb == GET && p == REGISTRY then RegistryPage
      else if verb == GET && SchemaFor(r, p).Some? then SchemaPage(SchemaFor(r, p).value)
      else
        match Route(Functions(r, verb), p)
        case Some(target) => Routed(target)
        case None =>
          var names := AllowedNames(r, p);
          if names != [] then MethodNotAllowed(names) else NotFound
  }

  /** A registered endpoint takes exactly its own path from its handler. */
  lemma ExactRoute(m: FuncMap, path: string)
    requires Sorted(m)
    ensures HasKey(m, path) <==> Route(m, path).Some? && Route(m, path).value.endpoint == path
  {
    FindIffEntry(m, path);
    FirstPrefixIsLongest(m, path);
    if HasKey(m, path) {
      var e := Entry(path, Find(m, path).value);
      assert LongestPrefix(m, path, e);
    }
    if Route(m, path).Some? {
      RouteMeaning(m, path, Route(m, path).value);
    }
  }

  /** A 405 lists the methods that have a handler for exactly this path, at least one, and never the
      refused one; a 404 means that there are none. */
  lemma Refusal(r: Routes, verb: Method, path: string, other: Method)
    requires WellFormed(r) && verb != ALL && other != ALL && path != ""
    ensures var d := Decide(r, verb, path);
      d.MethodNotAllowed? ==>
        d.names != [] && MethodName(verb) !in d.names &&
          (MethodName(other) in d.names <==> Handles(r, other, path[1..]))
    ensures Decide(r, verb, path).NotFound? ==> !Handles(r, other, path[1..])
  {
    ExactRoute(Functions(r, verb), path[1..]);
    NamesMeaning(r, path[1..], |r.methods|, verb);
    NamesMeaning(r, path[1..], |r.methods|, other);
  }

  /** Some endpoint of the method takes the path: exactly, by its slash, or as "/". */
  lemma RouteExists(m: FuncMap, path: string)
    requires Sorted(m)
    ensures Route(m, path).Some? <==>
      HasKey(m, path) || HasKey(m, "/") || (FirstPrefix(m, path).Some? && EndsInSlash(FirstPrefix(m, path).value.key))
  {
    ExactRoute(m, path);
    FirstPrefixIsLongest(m, path);
    var first := FirstPrefix(m, path);
    if first.Some? {
      StripTaken(first.value.key, path);
      FindIffEntry(m, path);
    }
  }

  /** A refusal names the methods that the server would route for the path, and no others, if and only if
      no method without a handler for exactly this path has "/" or, as its longest prefix of the path, an
      endpoint that ends in a slash. */
  lemma RefusalNamesRoutes(r: Routes, verb: Method, path: string)
    requires WellFormed(r) && verb != ALL && Decide(r, verb, path).MethodNotAllowed?
    ensures (forall v :: v != ALL ==>
      (MethodName(v) in Decide(r, verb, path).names <==> Route(Functions(r, v), path[1..]).Some?)) <==>
      forall v :: v != ALL && !Handles(r, v, path[1..]) ==>
        var m := Functions(r, v); var first := FirstPrefix(m, path[1..]);
        !HasKey(m, "/") && !(first.Some? && EndsInSlash(first.value.key))
  {
    forall v | v != ALL
      ensures MethodName(v) in Decide(r, verb, path).names <==> Handles(r, v, path[1..])
      ensures var m := Functions(r, v); var first := FirstPrefix(m, path[1..]);
        Route(m, path[1..]).Some? <==>
          HasKey(m, path[1..]) || HasKey(m, "/") || (first.Some? && EndsInSlash(first.value.key))
    {
      NamesMeaning(r, path[1..], |r.methods|, v);
      RouteExists(Functions(r, v), path[1..]);
    }
  }

  /** The schema of an endpoint is served under its name and "/schema". */
  lemma SchemaServed(r: Routes, endpoint: string, schema: string)
    requires WellFormed(r) && Find(r.schemas, endpoint) == Some(schema)
    ensures Decide(r, GET, "/" + endpoint + "/" + SCHEMA) == SchemaPage(schema)
  {
    var p := endpoint + "/" + SCHEMA;
    assert ("/" + endpoint + "/" + SCHEMA)[1..] == p;
    SchemaPath(endpoint, p);
  }

  lemma SchemaPath(endpoint: string, p: string)
    requires p == endpoint + "/" + SCHEMA
    ensures EndsWithSchema(p) && SchemaEndpoint(p) == endpoint && p != REGISTRY
  {
    assert p[|p| - |SCHEMA|..] == SCHEMA;
    assert p[|endpoint|] == '/' && forall i :: |endpoint| < i < |p| ==> p[i] == SCHEMA[i - |endpoint| - 1];
    assert LastSlash(p) == Some(|endpoint|);
    assert p[..|endpoint|] == endpoint;
    assert p[|p| - 1] == SCHEMA[|SCHEMA| - 1] == 'a' && REGISTRY[|REGISTRY| - 1] == 'y';
  }

  /** What was registered as a schema is served until the endpoint is removed. */
  lemma SchemaServedInRun(r: Routes, calls: seq<Call>, endpoint: string, schema: string)
    requires Valid(r) && Find(r.schemas, endpoint) == Some(schema)
    requires forall i :: 0 <= i < |calls| ==> HttpServer.Allowed(calls[i]) && !Removes(calls[i], endpoint)
    ensures Decide(Follow(r, calls), GET, "/" + endpoint + "/" + SCHEMA) == SchemaPage(schema)
  {
    SchemaStaysInRun(r, calls, endpoint);
    SchemaServed(Follow(r, calls), endpoint, schema);
  }

  // ----- preflight requests -----

  datatype Preflight = Accepted(allowMethods: string) | Rejected | NoPath

  /** `processCorsPreflightRequest` for the method and path that the client asks about. */
  function PreflightAnswer(r: Routes, requested: Method, path: string): Preflight
    requires WellFormed(r) && requested != ALL
  {
    if path == "" then NoPath
    else
      var p := path[1..];
      var isSchemaRequest := SchemaFor(r, p).Some? && requested == GET;
      if !Handles(r, requested, p) && !isSchemaRequest then Rejected
      else Accepted(if isSchemaRequest then MethodName(GET) else Joined(AllowedNames(r, p)))
  }

  /** A preflight request is accepted exactly if the request that it announces gets a schema or goes to
      an endpoint with exactly this path; the methods that it lists include the announced one. */
  lemma PreflightHonest(r: Routes, requested: Method, path: string)
    requires Valid(r) && requested != ALL
    ensures var d := Decide(r, requested, path);
      PreflightAnswer(r, requested, path).Accepted? <==> d.SchemaPage? || (d.Routed? && d.target.endpoint == path[1..])
    ensures PreflightAnswer(r, requested, path).Accepted? ==>
      exists names :: PreflightAnswer(r, requested, path).allowMethods == Joined(names) &&
        MethodName(requested) in names
  {
    if path != "" {
      ExactRoute(Functions(r, requested), path[1..]);
      assert !HasKey(r.methods[Slot(GET)], REGISTRY);
      PreflightLists(r, requested, path);
    }
  }

  lemma PreflightLists(r: Routes, requested: Method, path: string)
    requires WellFormed(r) && requested != ALL && PreflightAnswer(r, requested, path) != NoPath
    ensures PreflightAnswer(r, requested, path).Accepted? ==>
      exists names :: PreflightAnswer(r, requested, path).allowMethods == Joined(names) &&
        MethodName(requested) in names
  {
    var p := path[1..];
    if PreflightAnswer(r, requested, path).Accepted? {
      if SchemaFor(r, p).Some? && requested == GET {
        assert Joined([MethodName(GET)]) == MethodName(GET);
        assert MethodName(requested) in [MethodName(GET)];
      } else {
        NamesMeaning(r, p, |r.methods|, requested);
      }
    }
  }

  predicate Serves(d: Decision) {
    d.RegistryPage? || d.SchemaPage? || d.Routed?
  }

  /** A preflight request is accepted exactly when the server would serve the announced request if and
      only if there is a handler or a schema for exactly this path, or else the registry is not asked for
      and neither "/" nor a slash-terminated longest prefix takes the path. */
  lemma PreflightAgrees(r: Routes, requested: Method, path: string)
    requires Valid(r) && requested != ALL && path != ""
    ensures var p, m := path[1..], Functions(r, requested); var first := FirstPrefix(m, p);
      (PreflightAnswer(r, requested, path).Accepted? <==> Serves(Decide(r, requested, path))) <==>
        || Handles(r, requested, p)
        || (requested == GET && SchemaFor(r, p).Some?)
        || (!(requested == GET && p == REGISTRY) && !HasKey(m, "/") && !(first.Some? && EndsInSlash(first.value.key)))
  {
    RouteExists(Functions(r, requested), path[1..]);
    ExactRoute(Functions(r, requested), path[1..]);
    assert !HasKey(r.methods[Slot(GET)], REGISTRY);
  }

  /** Whatever is registered, the registry is served and a preflight request for it is rejected. */
  lemma RegistryPreflight(r: Routes)
    requires Valid(r)
    ensures Decide(r, GET, "/" + REGISTRY) == RegistryPage
    ensures PreflightAnswer(r, GET, "/" + REGISTRY) == Rejected
  {
    assert ("/" + REGISTRY)[1..] == REGISTRY;
    assert !HasKey(r.methods[Slot(GET)], REGISTRY);
    assert REGISTRY[|REGISTRY| - 1] == 'y' && SCHEMA[|SCHEMA| - 1] == 'a';
  }
}

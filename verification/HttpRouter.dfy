/** Routing of the REST server: which endpoint answers which request. */
module HttpRouter {
  import opened Text
  import opened OrderedMap

  datatype Method = GET | POST | PUT | PATCH | DELETE | OPTIONS | ALL

  datatype Code = OK | NOT_SUPPORTED | NOT_FOUND | BAD_REQUEST | INTERNAL_SERVER_ERROR | OtherCode(number: nat)

  datatype Request = Request(verb: Method, path: string, source: string, query: string, body: string)

  datatype Response = Response(code: Code, body: string, headers: map<string, string>)

  /** How answering ends: with a response, a standard exception or something else that was thrown. */
  datatype Reply = Answered(response: Response) | Threw(what: string) | ThrewUnknown | ThrewOutOfRange

  /** Handlers are user code. */
  type RESTFunc = Request -> Reply

  /** The source orders this map by `std::greater`: it iterates from the last entry to the first one. */
  type FuncMap = seq<Entry<string, RESTFunc>>

  /** `_schemas` and `_methods`, one map for every method but `ALL`. */
  datatype Routes = Routes(schemas: seq<Entry<string, string>>, methods: seq<FuncMap>)

  const METHODS: nat := 6
  const JSON_TYPE := "application/json"
  const REGISTRY := "registry"
  const SCHEMA := "schema"

  function Slot(verb: Method): nat {
    match verb
    case GET => 0
    case POST => 1
    case PUT => 2
    case PATCH => 3
    case DELETE => 4
    case OPTIONS => 5
    case ALL => 6
  }

  /** The methods in the order in which answers list them. */
  function MethodAt(k: nat): Method {
    match k
    case 0 => GET
    case 1 => POST
    case 2 => PUT
    case 3 => PATCH
    case 4 => DELETE
    case 5 => OPTIONS
    case _ => ALL
  }

  function MethodName(verb: Method): string {
    match verb
    case GET => "GET"
    case POST => "POST"
    case PUT => "PUT"
    case PATCH => "PATCH"
    case DELETE => "DELETE"
    case OPTIONS => "OPTIONS"
    case ALL => "ALL"
  }

  /** The first `n` names, separated. */
  function JoinedTo(names: seq<string>, n: nat): string
    requires n <= |names|
  {
    if n == 0 then "" else JoinedTo(names, n - 1) + (if n == 1 then "" else ", ") + names[n - 1]
  }

  function Joined(names: seq<string>): string {
    JoinedTo(names, |names|)
  }

  predicate WellFormed(r: Routes) {
    && |r.methods| == METHODS && Sorted(r.schemas)
    && forall k :: 0 <= k < METHODS ==> Sorted(r.methods[k])
  }

  function Functions(r: Routes, verb: Method): FuncMap
    requires WellFormed(r) && verb != ALL
  {
    r.methods[Slot(verb)]
  }

  // ----- the first prefix is the longest one -----

  /** `std::find_if` over the map in its iteration order. */
  function FirstPrefix(m: FuncMap, path: string): Option<Entry<string, RESTFunc>> {
    if m == [] then None
    else
      var n := |m| - 1;
      if m[n].key <= path then Some(m[n]) else FirstPrefix(m[..n], path)
  }

  /** `e` is registered and the longest prefix of the path that is. */
  ghost predicate LongestPrefix(m: FuncMap, path: string, e: Entry<string, RESTFunc>) {
    e in m && e.key <= path && forall k :: 0 <= k < |m| && m[k].key <= path ==> |m[k].key| <= |e.key|
  }

  lemma {:induction false} FirstPrefixIsLongest(m: FuncMap, path: string)
    requires Sorted(m)
    ensures FirstPrefix(m, path) == None <==> forall k :: 0 <= k < |m| ==> !(m[k].key <= path)
    ensures forall e :: FirstPrefix(m, path) == Some(e) <==> LongestPrefix(m, path, e)
  {
    if m != [] {
      var n := |m| - 1;
      if m[n].key <= path {
        forall k | 0 <= k < n && m[k].key <= path
          ensures |m[k].key| < |m[n].key|
        {
          PrefixOrder(m[k].key, m[n].key, path);
        }
      } else {
        FirstPrefixIsLongest(m[..n], path);
        assert m == m[..n] + [m[n]];
      }
    }
  }

  // ----- dispatch -----

  /** `*endpoint.rbegin() == '/'`; the empty endpoint does not end in a slash. */
  predicate EndsInSlash(endpoint: string) {
    endpoint != "" && endpoint[|endpoint| - 1] == '/'
  }

  /** `_removeEndpointFromPath`. */
  function RemoveEndpoint(endpoint: string, path: string): string {
    if endpoint == "/" then path
    else if |endpoint| >= |path| then ""
    else path[|endpoint|..]
  }

  /** An endpoint takes the paths that equal it or, when it ends in a slash, continue it. */
  predicate Takes(endpoint: string, path: string) {
    endpoint <= path && (endpoint == path || EndsInSlash(endpoint))
  }

  /** It takes exactly its own path and, if it ends in a slash, all paths that go on behind that. */
  lemma TakesMeaning(endpoint: string, path: string)
    ensures Takes(endpoint, path) <==>
      exists rest: string :: path == endpoint + rest && (rest == "" || exists front: string :: endpoint == front + "/")
  {
    if Takes(endpoint, path) {
      assert path == endpoint + path[|endpoint|..];
      if endpoint != path {
        assert endpoint == endpoint[..|endpoint| - 1] + "/";
      }
    }
    if rest: string :| path == endpoint + rest && (rest == "" || exists front: string :: endpoint == front + "/") {
      if rest != "" {
        var front: string :| endpoint == front + "/";
        assert endpoint[|endpoint| - 1] == "/"[0];
      } else {
        assert path == endpoint;
      }
    }
  }

  datatype Target = Target(endpoint: string, func: RESTFunc, rest: string)

  function Route(m: FuncMap, path: string): Option<Target> {
    var first := FirstPrefix(m, path);
    if first.Some? && (RemoveEndpoint(first.value.key, path) == "" || EndsInSlash(first.value.key)) then
      Some(Target(first.value.key, first.value.value, RemoveEndpoint(first.value.key, path)))
    else
      match Find(m, "/")
      case Some(func) => Some(Target("/", func, path))
      case None => None
  }

  /** A request goes to the longest registered prefix if that takes the path, else to "/" if that is
      registered. The handler sees the rest of the path; "/" sees all of it. */
  lemma RouteMeaning(m: FuncMap, path: string, t: Target)
    requires Sorted(m)
    ensures Route(m, path) == Some(t) <==>
      && t.rest == RemoveEndpoint(t.endpoint, path)
      && Entry(t.endpoint, t.func) in m
      && ((LongestPrefix(m, path, Entry(t.endpoint, t.func)) && Takes(t.endpoint, path)) ||
          (t.endpoint == "/" && forall e :: LongestPrefix(m, path, e) ==> !Takes(e.key, path)))
    ensures Route(m, path) == Some(t) && t.endpoint != "/" ==> t.endpoint + t.rest == path
    ensures Route(m, path) == Some(t) && t.endpoint == "/" ==> t.rest == path
  {
    FirstPrefixIsLongest(m, path);
    FindIffEntry(m, "/");
    var first := FirstPrefix(m, path);
    if first.Some? {
      StripTaken(first.value.key, path);
    }
    if t.endpoint <= path {
      StripTaken(t.endpoint, path);
    }
    assert forall e :: LongestPrefix(m, path, e) ==> first == Some(e);
  }

  lemma StripTaken(endpoint: string, path: string)
    requires endpoint <= path
    ensures (RemoveEndpoint(endpoint, path) == "" || EndsInSlash(endpoint)) <==> Takes(endpoint, path)
    ensures endpoint != "/" ==> endpoint + RemoveEndpoint(endpoint, path) == path
  {
  }

  lemma FindIffEntry<V>(m: seq<Entry<string, V>>, key: string)
    requires Sorted(m)
    ensures forall v :: Find(m, key) == Some(v) <==> Entry(key, v) in m
  {
    if Find(m, key).Some? {
      var i := FindSome(m, key);
    }
    forall v | Entry(key, v) in m
      ensures Find(m, key) == Some(v)
    {
      var i :| 0 <= i < |m| && m[i] == Entry(key, v);
      FindIndex(m, i);
    }
  }

  /** The longest of the registered endpoints that take the path. */
  ghost predicate LongestTaker(m: FuncMap, path: string, e: Entry<string, RESTFunc>) {
    && e in m && Takes(e.key, path)
    && forall k :: 0 <= k < |m| && Takes(m[k].key, path) ==> |m[k].key| <= |e.key|
  }

  /** A path under a slash-terminated endpoint is not always passed to it: of the endpoints that take
      the path the longest one gets it if and only if it is "/" or no longer prefix of the path is
      registered. */
  lemma TakenUnlessBlocked(m: FuncMap, path: string, e: Entry<string, RESTFunc>)
    requires Sorted(m) && LongestTaker(m, path, e)
    ensures Route(m, path) == Some(Target(e.key, e.value, RemoveEndpoint(e.key, path))) <==>
      e.key == "/" || forall k :: 0 <= k < |m| && m[k].key <= path ==> |m[k].key| <= |e.key|
  {
    RouteMeaning(m, path, Target(e.key, e.value, RemoveEndpoint(e.key, path)));
    FirstPrefixIsLongest(m, path);
    if e.key == "/" && FirstPrefix(m, path).Some? && Takes(FirstPrefix(m, path).value.key, path) {
      var f := FirstPrefix(m, path).value;
      assert |f.key| <= 1 && "/" <= path;
      assert f.key == path[..|f.key|] && e.key == path[..1];
      assert |e.key| <= |f.key|;
      FindIffEntry(m, "/");
    }
  }

  /** Such a blocked path is answered by nobody. */
  lemma BlockedExample(f: RESTFunc, g: RESTFunc)
    ensures var m := [Entry("a/", f), Entry("a/b", g)];
      Sorted(m) && LongestTaker(m, "a/bc", Entry("a/", f)) && Route(m, "a/bc") == None
  {
    var m := [Entry("a/", f), Entry("a/b", g)];
    PrefixOrder("a/", "a/b", "a/bc");
    assert "a/" <= "a/bc" && "a/b" <= "a/bc";
    RouteMeaning(m, "a/bc", Target("a/", f, "bc"));
    assert FirstPrefix(m, "a/bc") == Some(m[1]);
    assert RemoveEndpoint("a/b", "a/bc") == "c";
    assert !StringLess("a/", "/");
    assert Find(m, "/") == None;
  }
}

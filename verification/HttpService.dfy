/** The server object behind the REST interface. */
module HttpService {
  import opened OrderedMap
  import opened JsonValue
  import opened JsonStyledWriter
  import opened EndpointNames
  import opened HttpRouter
  import opened HttpServer
  import opened HttpAnswers

  /** How a call of user code ends. */
  datatype UserResult<+T> = Returned(value: T) | Raised(what: string) | RaisedUnknown

  const ALLOW := "Allow"
  const CONTENT_TYPE := "Content-Type"
  const ALLOW_HEADERS := "Access-Control-Allow-Headers"
  const ALLOW_METHODS := "Access-Control-Allow-Methods"
  const ALLOW_ORIGIN := "Access-Control-Allow-Origin"

  function Failure<T>(r: UserResult<T>): Reply
    requires !r.Returned?
  {
    if r.Raised? then Threw(r.what) else ThrewUnknown
  }

  /** The handler that `handlePUT` wraps around a function of the request body. */
  function PutHandler(func: string -> UserResult<bool>): RESTFunc {
    (request: Request) =>
      var r := func(request.body);
      if r.Returned? then Answered(Response(if r.value then OK else BAD_REQUEST, "", map[])) else Failure(r)
  }

  function GetHandler(func: () -> UserResult<string>): RESTFunc {
    (request: Request) =>
      var r := func();
      if r.Returned? then Answered(Response(OK, r.value, map[CONTENT_TYPE := JSON_TYPE])) else Failure(r)
  }

  /** The reply to a request, and the request as its handler has seen it. */
  function Respond(r: Routes, request: Request): (Reply, Request)
    requires WellFormed(r) && request.verb != ALL
  {
    match Decide(r, request.verb, request.path)
    case PathTooShort => (ThrewOutOfRange, request)
    case RegistryPage => (Answered(Response(OK, Registry(r), map[CONTENT_TYPE := JSON_TYPE])), request)
    case SchemaPage(schema) => (Answered(Response(OK, schema, map[CONTENT_TYPE := JSON_TYPE])), request)
    case Routed(t) => (t.func(request.(path := t.rest)), request.(path := t.rest))
    case MethodNotAllowed(names) => (Answered(Response(NOT_SUPPORTED, "", map[ALLOW := Joined(names)])), request)
    case NotFound => (Answered(Response(NOT_FOUND, "", map[])), request)
  }

  /** What a GET request finds without a handler. */
  function PageFor(r: Routes, path: string): Option<string>
    requires WellFormed(r)
  {
    if path == REGISTRY then Some(Registry(r)) else SchemaFor(r, path)
  }

  /** What the handlers make of a request for which there is no page. */
  function ByHandler(r: Routes, request: Request): (Reply, Request)
    requires WellFormed(r) && request.verb != ALL && request.path != ""
  {
    match Route(Functions(r, request.verb), request.path[1..])
    case Some(t) => (t.func(request.(path := t.rest)), request.(path := t.rest))
    case None =>
      var names := AllowedNames(r, request.path[1..]);
      (Answered(if names != [] then Response(NOT_SUPPORTED, "", map[ALLOW := Joined(names)])
        else Response(NOT_FOUND, "", map[])), request)
  }

  lemma RespondParts(r: Routes, request: Request)
    requires WellFormed(r) && request.verb != ALL && request.path != ""
    ensures var page := PageFor(r, request.path[1..]);
      Respond(r, request) ==
        if request.verb == GET && page.Some? then
          (Answered(Response(OK, page.value, map[CONTENT_TYPE := JSON_TYPE])), request)
        else ByHandler(r, request)
  {
  }

  /** A request with what the connection knows about its origin; `requested` is `ALL` when no method is announced. */
  datatype Message = Message(request: Request, origin: string, requested: Method,
                             response: Option<Response>, corsHeaders: map<string, string>)

  predicate IsPreflight(message: Message) {
    message.origin != "" && message.request.verb == OPTIONS && message.requested != ALL
  }

  datatype Processed = Processed(message: Message) | Propagated

  /** The response to a reply: what was thrown becomes an internal error. `rangeText` is what the
      library says about `substr` of an empty path. */
  function ResponseOf(reply: Reply, rangeText: string): Response {
    match reply
    case Answered(response) => response
    case Threw(what) => Response(INTERNAL_SERVER_ERROR, "Request handler exception: " + what, map[])
    case ThrewOutOfRange => Response(INTERNAL_SERVER_ERROR, "Request handler exception: " + rangeText, map[])
    case ThrewUnknown => Response(INTERNAL_SERVER_ERROR, "An unknown exception occurred", map[])
  }

  function Preflighted(r: Routes, message: Message): Processed
    requires WellFormed(r) && message.requested != ALL
  {
    match PreflightAnswer(r, message.requested, message.request.path)
    case NoPath => Propagated
    case Rejected => Processed(message.(response := Some(Response(NOT_SUPPORTED, "", map[]))))
    case Accepted(text) =>
      Processed(message.(
        response := Some(Response(OK, "", map[])),
        corsHeaders := map[ALLOW_HEADERS := "Content-Type", ALLOW_METHODS := text, ALLOW_ORIGIN := "*"]))
  }

  function ProcessMessage(r: Routes, message: Message, rangeText: string): Processed
    requires WellFormed(r) && message.request.verb != ALL
  {
    if IsPreflight(message) then Preflighted(r, message)
    else
      var (reply, request) := Respond(r, message.request);
      Processed(message.(
        request := request,
        response := Some(ResponseOf(reply, rangeText)),
        corsHeaders := if message.origin != "" then map[ALLOW_ORIGIN := "*"] else message.corsHeaders))
  }

  /** Every message is answered, except a preflight with an empty path: that one throws out of `process`. */
  lemma AnsweredUnlessEmptyPreflight(r: Routes, message: Message, rangeText: string)
    requires WellFormed(r) && message.request.verb != ALL
    ensures ProcessMessage(r, message, rangeText).Processed? <==> !(IsPreflight(message) && message.request.path == "")
    ensures ProcessMessage(r, message, rangeText).Processed? ==>
      ProcessMessage(r, message, rangeText).message.response.Some?
  {
  }

  class Server {
    var schemas: seq<Entry<string, string>>
    var methods: seq<FuncMap>

    ghost function State(): Routes
      reads this
    {
      Routes(schemas, methods)
    }

    constructor ()
      ensures State() == EMPTY && Valid(State())
    {
      schemas := [];
      methods := [[], [], [], [], [], []];
    }

    method GetSchema(endpoint: string) returns (schema: string)
      ensures schema == SchemaOf(State(), endpoint)
    {
      schema := Find(schemas, endpoint).GetOr("");
    }

    method AddSchema(endpoint: string, schema: string) returns (result: Registration)
      modifies this`schemas
      ensures (result, State()) == RegisterSchema(old(State()), endpoint, schema)
    {
      var exist := GetSchema(endpoint);
      if exist == "" {
        schemas := Insert(schemas, endpoint, schema);
        result := Registered;
      } else if schema != exist {
        result := SchemaDiffers;
      } else {
        result := Registered;
      }
    }

    method AddHandler(verb: Method, endpoint: string, func: RESTFunc) returns (result: Registration)
      requires Valid(State()) && verb != ALL
      modifies this`methods
      ensures (result, State()) == Handle(old(State()), verb, endpoint, func) && Valid(State())
    {
      HandleValid(State(), verb, endpoint, func);
      if endpoint == REGISTRY {
        return ReservedName;
      }
      var m := methods[Slot(verb)];
      if HasKey(m, endpoint) {
        return Taken;
      }
      methods := methods[Slot(verb) := Insert(m, endpoint, func)];
      result := Registered;
    }

    method HandlePut(endpoint: string, schema: string, func: string -> UserResult<bool>) returns (result: Registration)
      requires Valid(State())
      modifies this
      ensures (result, State()) == HandleWithSchema(old(State()), PUT, endpoint, schema, PutHandler(func)) &&
        Valid(State())
    {
      HandleWithSchemaValid(State(), PUT, endpoint, schema, PutHandler(func));
      if endpoint == REGISTRY {
        return ReservedName;
      }
      result := AddHandler(PUT, endpoint, PutHandler(func));
      if result == Registered && schema != "" {
        result := AddSchema(endpoint, schema);
      }
    }

    method HandleGet(endpoint: string, schema: string, func: () -> UserResult<string>) returns (result: Registration)
      requires Valid(State())
      modifies this
      ensures (result, State()) == HandleWithSchema(old(State()), GET, endpoint, schema, GetHandler(func)) &&
        Valid(State())
    {
      HandleWithSchemaValid(State(), GET, endpoint, schema, GetHandler(func));
      if endpoint == REGISTRY {
        return ReservedName;
      }
      result := AddHandler(GET, endpoint, GetHandler(func));
      if result == Registered && schema != "" {
        result := AddSchema(endpoint, schema);
      }
    }

    /** `erase` from one of the maps. */
    method EraseFrom(k: nat, endpoint: string) returns (found: bool)
      requires |methods| == METHODS && k < METHODS
      modifies this`methods
      ensures methods == old(methods)[k := Erase(old(methods)[k], endpoint)]
      ensures found == HasKey(old(methods)[k], endpoint)
    {
      found := HasKey(methods[k], endpoint);
      methods := methods[k := Erase(methods[k], endpoint)];
    }

    method RemoveSerializable(typeName: string) returns (found: bool)
      requires Valid(State())
      modifies this
      ensures State() == RemoveObject(old(State()), Converted(typeName)) && Valid(State())
      ensures found ==
        (Handles(old(State()), PUT, Converted(typeName)) || Handles(old(State()), GET, Converted(typeName)))
    {
      RemoveValid(State(), Converted(typeName));
      var endpoint := ConvertEndpointName(typeName);
      schemas := Erase(schemas, endpoint);
      var foundPut := EraseFrom(Slot(PUT), endpoint);
      var foundGet := EraseFrom(Slot(GET), endpoint);
      found := foundPut || foundGet;
    }

    method RemoveEndpoint(endpoint: string) returns (found: bool)
      requires Valid(State())
      modifies this
      ensures State() == Remove(old(State()), endpoint) && Valid(State())
      ensures found == exists k :: 0 <= k < METHODS && HasKey(old(methods)[k], endpoint)
    {
      RemoveValid(State(), endpoint);
      schemas := Erase(schemas, endpoint);
      found := false;
      for k := 0 to METHODS
        invariant |methods| == METHODS && schemas == Erase(old(schemas), endpoint)
        invariant forall i :: 0 <= i < METHODS ==>
          methods[i] == if i < k then Erase(old(methods)[i], endpoint) else old(methods)[i]
        invariant found == exists i :: 0 <= i < k && HasKey(old(methods)[i], endpoint)
      {
        var erased := EraseFrom(k, endpoint);
        if erased {
          found := true;
        }
      }
      assert methods == Remove(old(State()), endpoint).methods;
    }

    method GetAllowedMethods(endpoint: string) returns (text: string)
      requires WellFormed(State())
      ensures text == Joined(AllowedNames(State(), endpoint))
    {
      text := "";
      for k := 0 to |methods|
        invariant text == Joined(NamesUpTo(State(), endpoint, k))
      {
        JoinedNames(State(), endpoint, k);
        if HasKey(methods[k], endpoint) {
          text := text + if text == "" then MethodName(MethodAt(k)) else ", " + MethodName(MethodAt(k));
        }
      }
    }

    method AppendNames(body0: seq<Entry<string, Value>>, m: FuncMap, name: string)
      returns (body: seq<Entry<string, Value>>)
      ensures body == AppendAll(body0, m, name)
    {
      body := body0;
      var i := |m|;
      assert m[..i] == m;
      while i > 0
        invariant 0 <= i <= |m| && AppendAll(body0, m, name) == AppendAll(body, m[..i], name)
      {
        assert m[..i][..i - 1] == m[..i - 1];
        i := i - 1;
        body := Insert(body, m[i].key, Appended(Find(body, m[i].key), name));
      }
    }

    method RegistryBody() returns (body: seq<Entry<string, Value>>)
      requires Valid(State())
      ensures Obj(body) == RegistryValue(State())
    {
      body := [];
      for k := 0 to |methods|
        invariant body == RegistryUpTo(State(), k)
      {
        body := AppendNames(body, methods[k], MethodName(MethodAt(k)));
      }
    }

    method GetRegistry() returns (text: string)
      requires Valid(State()) && ShortNames(State())
      ensures text == Registry(State())
    {
      var body := RegistryBody();
      RegistryPlain(State());
      var writer := new StyledWriter();
      text := writer.Write(Obj(body));
    }

    method FindFirst(m: FuncMap, path: string) returns (it: Option<Entry<string, RESTFunc>>)
      ensures it == FirstPrefix(m, path)
    {
      var i := |m|;
      assert m[..i] == m;
      while i > 0
        invariant 0 <= i <= |m| && FirstPrefix(m, path) == FirstPrefix(m[..i], path)
      {
        assert m[..i][..i - 1] == m[..i - 1];
        i := i - 1;
        if m[i].key <= path {
          return Some(m[i]);
        }
      }
      return None;
    }

    method RespondTo(request0: Request) returns (reply: Reply, request: Request)
      requires Valid(State()) && ShortNames(State()) && request0.verb != ALL
      ensures (reply, request) == Respond(State(), request0)
    {
      request := request0;
      if request.path == "" {
        return ThrewOutOfRange, request;
      }
      RespondParts(State(), request);
      if request.verb == GET {
        var page := FindPage(request.path[1..]);
        if page.Some? {
          return Answered(Response(OK, page.value, map[CONTENT_TYPE := JSON_TYPE])), request;
        }
      }
      reply, request := HandleOrRefuse(request);
    }

    /** The part of `respondTo` behind the pages. */
    method HandleOrRefuse(request0: Request) returns (reply: Reply, request: Request)
      requires Valid(State()) && request0.verb != ALL && request0.path != ""
      ensures (reply, request) == ByHandler(State(), request0)
    {
      request := request0;
      var path := request.path[1..];
      var dispatched, target := Dispatch(methods[Slot(request.verb)], path);
      if dispatched {
        request := request.(path := target.rest);
        return target.func(request), request;
      }
      reply := Refuse(path);
    }

    /** What a GET request finds without a handler: the registry or a schema. */
    method FindPage(path: string) returns (page: Option<string>)
      requires Valid(State()) && ShortNames(State())
      ensures page == PageFor(State(), path)
    {
      if path == REGISTRY {
        var registry := GetRegistry();
        return Some(registry);
      }
      if EndsWithSchema(path) {
        return Find(schemas, SchemaEndpoint(path));
      }
      return None;
    }

    /** The handler that takes the path, if there is one. */
    method Dispatch(m: FuncMap, path: string) returns (found: bool, target: Target)
      ensures found == Route(m, path).Some?
      ensures found ==> Route(m, path) == Some(target)
    {
      target := Target("", request => ThrewUnknown, "");
      var it := FindFirst(m, path);
      if it.Some? {
        var pathStripped := HttpRouter.RemoveEndpoint(it.value.key, path);
        if pathStripped == "" || EndsInSlash(it.value.key) {
          return true, Target(it.value.key, it.value.value, pathStripped);
        }
      }
      var root := Find(m, "/");
      if root.Some? {
        return true, Target("/", root.value, path);
      }
      return false, target;
    }

    method Refuse(path: string) returns (reply: Reply)
      requires WellFormed(State())
      ensures var names := AllowedNames(State(), path);
        reply == Answered(if names != [] then Response(NOT_SUPPORTED, "", map[ALLOW := Joined(names)])
          else Response(NOT_FOUND, "", map[]))
    {
      var allowedMethods := GetAllowedMethods(path);
      JoinedEmpty(State(), path, |methods|);
      if allowedMethods != "" {
        return Answered(Response(NOT_SUPPORTED, "", map[ALLOW := allowedMethods]));
      }
      return Answered(Response(NOT_FOUND, "", map[]));
    }

    method ProcessPreflight(message: Message) returns (r: Processed)
      requires WellFormed(State()) && message.requested != ALL
      ensures r == Preflighted(State(), message)
    {
      if message.request.path == "" {
        return Propagated;
      }
      var path := message.request.path[1..];
      var isSchemaRequest := IsSchemaRequest(message);
      if !HasKey(methods[Slot(message.requested)], path) && !isSchemaRequest {
        return Processed(message.(response := Some(Response(NOT_SUPPORTED, "", map[]))));
      }
      var names := GetAllowedMethods(path);
      return Processed(message.(
        response := Some(Response(OK, "", map[])),
        corsHeaders := map[ALLOW_HEADERS := "Content-Type", ALLOW_METHODS := if isSchemaRequest then "GET" else names,
                           ALLOW_ORIGIN := "*"]));
    }

    method IsSchemaRequest(message: Message) returns (r: bool)
      requires message.request.path != ""
      ensures r == (SchemaFor(State(), message.request.path[1..]).Some? && message.requested == GET)
    {
      var path := message.request.path[1..];
      if !EndsWithSchema(path) {
        return false;
      }
      if !HasKey(schemas, SchemaEndpoint(path)) {
        return false;
      }
      return message.requested == GET;
    }

    method Process(message: Message, rangeText: string) returns (r: Processed)
      requires Valid(State()) && ShortNames(State()) && message.request.verb != ALL
      ensures r == ProcessMessage(State(), message, rangeText)
      ensures r.Processed? <==> !(IsPreflight(message) && message.request.path == "")
      ensures r.Processed? ==> r.message.response.Some?
    {
      AnsweredUnlessEmptyPreflight(State(), message, rangeText);
      if IsPreflight(message) {
        r := ProcessPreflight(message);
      } else {
        var reply, request := RespondTo(message.request);
        r := Processed(message.(
          request := request,
          response := Some(ResponseOf(reply, rangeText)),
          corsHeaders := if message.origin != "" then map[ALLOW_ORIGIN := "*"] else message.corsHeaders));
      }
    }
  }

  lemma {:induction false} JoinedPrefix(names: seq<string>, name: string, n: nat)
    requires n <= |names|
    ensures JoinedTo(names + [name], n) == JoinedTo(names, n)
  {
    if n > 0 {
      JoinedPrefix(names, name, n - 1);
    }
  }

  lemma JoinedMore(names: seq<string>, name: string)
    ensures Joined(names + [name]) == Joined(names) + (if names == [] then "" else ", ") + name
  {
    JoinedPrefix(names, name, |names|);
  }

  lemma JoinedNames(r: Routes, endpoint: string, k: nat)
    requires WellFormed(r) && k < METHODS
    ensures var text, name := Joined(NamesUpTo(r, endpoint, k)), MethodName(MethodAt(k));
      Joined(NamesUpTo(r, endpoint, k + 1)) ==
        if HasKey(r.methods[k], endpoint) then text + (if text == "" then name else ", " + name) else text
  {
    var names, name := NamesUpTo(r, endpoint, k), MethodName(MethodAt(k));
    JoinedEmpty(r, endpoint, k);
    JoinedAppend(names, name);
    assert NamesUpTo(r, endpoint, k + 1) == if HasKey(r.methods[k], endpoint) then names + [name] else names;
  }

  lemma JoinedAppend(names: seq<string>, name: string)
    requires Joined(names) == "" <==> names == []
    ensures Joined(names + [name]) == Joined(names) + (if Joined(names) == "" then name else ", " + name)
  {
    JoinedMore(names, name);
    var text := Joined(names);
    assert text + "" + name == text + name;
    assert text + ", " + name == text + (", " + name);
  }

  /** The text of an `Allow` header is empty only if it lists nothing. */
  lemma JoinedEmpty(r: Routes, endpoint: string, k: nat)
    requires WellFormed(r) && k <= METHODS
    ensures Joined(NamesUpTo(r, endpoint, k)) == "" <==> NamesUpTo(r, endpoint, k) == []
  {
    NamesShort(r, endpoint, k);
    LastJoined(NamesUpTo(r, endpoint, k));
  }

  lemma LastJoined(names: seq<string>)
    ensures names != [] ==> |Joined(names)| >= |names[|names| - 1]|
    ensures Joined([]) == ""
  {
  }

  /** What a client learns from an accepted preflight holds: the listed methods include the announced
      one, and the request itself is answered by the schema of its path or by the handler registered
      for exactly this path, with the header that lets the client see the answer. */
  lemma PreflightThenRequest(r: Routes, preflight: Message, request: Request, origin: string, rangeText: string)
    requires Valid(r) && IsPreflight(preflight) && origin != ""
    requires request.verb == preflight.requested && request.path == preflight.request.path
    requires var p := ProcessMessage(r, preflight, rangeText); p.Processed? && p.message.response.value.code == OK
    ensures var p := ProcessMessage(r, preflight, rangeText).message;
      && ALLOW_METHODS in p.corsHeaders
      && exists names :: p.corsHeaders[ALLOW_METHODS] == Joined(names) && MethodName(request.verb) in names
    ensures var q := ProcessMessage(r, Message(request, origin, ALL, None, map[]), rangeText);
      && q.Processed? && q.message.corsHeaders == map[ALLOW_ORIGIN := "*"]
      && (q.message.response ==
        Some(Response(OK, SchemaFor(r, request.path[1..]).GetOr(""), map[CONTENT_TYPE := JSON_TYPE])) ||
          exists func :: Find(Functions(r, request.verb), request.path[1..]) == Some(func) &&
            q.message.response == Some(ResponseOf(func(q.message.request), rangeText)))
  {
    PreflightHonest(r, request.verb, request.path);
    var d := Decide(r, request.verb, request.path);
    if d.Routed? {
      var path := request.path[1..];
      RouteMeaning(Functions(r, request.verb), path, d.target);
      FindIffEntry(Functions(r, request.verb), path);
      assert Find(Functions(r, request.verb), path) == Some(d.target.func);
    }
  }
}

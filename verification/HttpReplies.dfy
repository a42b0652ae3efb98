/** What a client of the REST server gets to see. */
module HttpReplies {
  import opened OrderedMap
  import opened JsonStyledWriter
  import opened HttpRouter
  import opened HttpServer
  import opened HttpAnswers
  import opened HttpService

  // ----- the allowed methods -----

  function NameIf(handled: bool, name: string): seq<string> {
    if handled then [name] else []
  }

  function GetPostPut(r: Routes, endpoint: string): seq<string>
    requires WellFormed(r)
  {
    NameIf(Handles(r, GET, endpoint), "GET") + NameIf(Handles(r, POST, endpoint), "POST") +
    NameIf(Handles(r, PUT, endpoint), "PUT")
  }

  function PatchDeleteOptions(r: Routes, endpoint: string): seq<string>
    requires WellFormed(r)
  {
    NameIf(Handles(r, PATCH, endpoint), "PATCH") + NameIf(Handles(r, DELETE, endpoint), "DELETE") +
    NameIf(Handles(r, OPTIONS, endpoint), "OPTIONS")
  }

  /** The names of the methods with a handler for the endpoint, in this order. */
  lemma AllowedNamesAre(r: Routes, endpoint: string)
    requires WellFormed(r)
    ensures AllowedNames(r, endpoint) == GetPostPut(r, endpoint) + PatchDeleteOptions(r, endpoint)
  {
    FirstNames(r, endpoint);
    LastNames(r, endpoint);
  }

  lemma FirstNames(r: Routes, endpoint: string)
    requires WellFormed(r)
    ensures NamesUpTo(r, endpoint, 3) == GetPostPut(r, endpoint)
  {
    NextName(r, endpoint, GET);
    NextName(r, endpoint, POST);
    NextName(r, endpoint, PUT);
    ThreeNames([], NameIf(Handles(r, GET, endpoint), "GET"), NameIf(Handles(r, POST, endpoint), "POST"),
               NameIf(Handles(r, PUT, endpoint), "PUT"),
               NamesUpTo(r, endpoint, 1), NamesUpTo(r, endpoint, 2), NamesUpTo(r, endpoint, 3));
  }

  lemma LastNames(r: Routes, endpoint: string)
    requires WellFormed(r)
    ensures NamesUpTo(r, endpoint, 6) == NamesUpTo(r, endpoint, 3) + PatchDeleteOptions(r, endpoint)
  {
    NextName(r, endpoint, PATCH);
    NextName(r, endpoint, DELETE);
    NextName(r, endpoint, OPTIONS);
    ThreeNames(NamesUpTo(r, endpoint, 3), NameIf(Handles(r, PATCH, endpoint), "PATCH"),
               NameIf(Handles(r, DELETE, endpoint), "DELETE"), NameIf(Handles(r, OPTIONS, endpoint), "OPTIONS"),
               NamesUpTo(r, endpoint, 4), NamesUpTo(r, endpoint, 5), NamesUpTo(r, endpoint, 6));
  }

  lemma ThreeNames(before: seq<string>, a: seq<string>, b: seq<string>, c: seq<string>,
                   one: seq<string>, two: seq<string>, three: seq<string>)
    requires one == before + a && two == one + b && three == two + c
    ensures three == before + (a + b + c) && (before == [] ==> three == a + b + c)
  {
  }

  lemma NextName(r: Routes, endpoint: string, verb: Method)
    requires WellFormed(r) && verb != ALL
    ensures Slot(verb) < METHODS
    ensures NamesUpTo(r, endpoint, Slot(verb) + 1) ==
      NamesUpTo(r, endpoint, Slot(verb)) + NameIf(Handles(r, verb, endpoint), MethodName(verb))
  {
  }

  /** Names are joined by a comma and a blank. */
  lemma JoinedMeaning(names: seq<string>, name: string)
    ensures Joined([]) == ""
    ensures Joined(names + [name]) == if names == [] then name else Joined(names) + (", " + name)
  {
    JoinedMore(names, name);
    if names == [] {
      assert "" + "" + name == name;
    } else {
      assert Joined(names) + ", " + name == Joined(names) + (", " + name);
    }
  }

  // ----- schema requests -----

  /** A path asks for a schema if it ends in "schema", with or without a slash in front of that; the endpoint
      is what stands in front of the last slash, or the whole path without one. */
  lemma SchemaRequest(path: string)
    ensures EndsWithSchema(path) <==> exists front: string :: path == front + "schema"
    ensures '/' !in path ==> SchemaEndpoint(path) == path
    ensures forall e: string, tail: string :: path == e + "/" + tail && '/' !in tail ==> SchemaEndpoint(path) == e
  {
    if EndsWithSchema(path) {
      assert path == path[..|path| - 6] + "schema";
    }
    forall e: string, tail: string | path == e + "/" + tail && '/' !in tail
      ensures SchemaEndpoint(path) == e
    {
      assert path[|e|] == '/';
      assert forall i :: |e| < i < |path| ==> path[i] == tail[i - |e| - 1];
      assert LastSlash(path) == Some(|e|);
    }
  }

  // ----- replies -----

  /** The handler of a readable object answers with its text, that of a writable one with the success of the
      write; what they throw is passed on. */
  lemma ObjectReplies(put: string -> UserResult<bool>, get: () -> UserResult<string>, request: Request)
    ensures put(request.body) == Returned(true) ==> PutHandler(put)(request) == Answered(Response(OK, "", map[]))
    ensures put(request.body) == Returned(false) ==>
      PutHandler(put)(request) == Answered(Response(BAD_REQUEST, "", map[]))
    ensures forall what :: put(request.body) == Raised(what) ==> PutHandler(put)(request) == Threw(what)
    ensures put(request.body) == RaisedUnknown ==> PutHandler(put)(request) == ThrewUnknown
    ensures forall text :: get() == Returned(text) ==>
      GetHandler(get)(request) == Answered(Response(OK, text, map["Content-Type" := "application/json"]))
    ensures forall what :: get() == Raised(what) ==> GetHandler(get)(request) == Threw(what)
    ensures get() == RaisedUnknown ==> GetHandler(get)(request) == ThrewUnknown
  {
  }

  /** The page that a path shows to a GET request: the registry, or the schema of an endpoint. */
  ghost predicate ShowsPage(r: Routes, path: string, page: string)
    requires WellFormed(r)
  {
    || (path == "registry" && page == StyledDocument(RegistryValue(r)))
    || (path != "registry" && (exists front: string :: path == front + "schema") &&
        Find(r.schemas, SchemaEndpoint(path)) == Some(page))
  }

  /** The reply to a request, by its method and by its path behind the slash: a page, what the handler of
      the route says to the rest of the path, a refusal that lists the allowed methods, or not found. */
  lemma ReplyMeaning(r: Routes, request: Request)
    requires WellFormed(r) && request.verb != ALL && request.path != ""
    ensures var path, route := request.path[1..], Route(Functions(r, request.verb), request.path[1..]);
      && (forall page :: request.verb == GET && ShowsPage(r, path, page) ==>
           Respond(r, request) == (Answered(Response(OK, page, map["Content-Type" := "application/json"])), request))
      && ((request.verb != GET || forall page :: !ShowsPage(r, path, page)) ==>
           Respond(r, request) ==
             match route
             case Some(t) => (t.func(request.(path := t.rest)), request.(path := t.rest))
             case None =>
               (Answered(if AllowedNames(r, path) == [] then Response(NOT_FOUND, "", map[])
                         else Response(NOT_SUPPORTED, "", map["Allow" := Joined(AllowedNames(r, path))])), request))
  {
    var path := request.path[1..];
    SchemaRequest(path);
    RespondParts(r, request);
    forall page: string
      ensures ShowsPage(r, path, page) <==> PageFor(r, path) == Some(page)
    {
    }
    assert PageFor(r, path).Some? ==> ShowsPage(r, path, PageFor(r, path).value);
  }

  /** What was thrown becomes an internal error. */
  lemma ErrorReplies(what: string, rangeText: string)
    ensures ResponseOf(Threw(what), rangeText) ==
      Response(INTERNAL_SERVER_ERROR, "Request handler exception: " + what, map[])
    ensures ResponseOf(ThrewOutOfRange, rangeText) ==
      Response(INTERNAL_SERVER_ERROR, "Request handler exception: " + rangeText, map[])
    ensures ResponseOf(ThrewUnknown, rangeText) ==
      Response(INTERNAL_SERVER_ERROR, "An unknown exception occurred", map[])
    ensures forall response :: ResponseOf(Answered(response), rangeText) == response
  {
  }

  /** A message is a preflight request if it has an origin, announces a method and is an OPTIONS request.
      All other messages are answered; a message with an origin may be read from anywhere. */
  lemma MessageReplies(r: Routes, message: Message, rangeText: string)
    requires WellFormed(r) && message.request.verb != ALL
    requires message.origin == "" || message.request.verb != OPTIONS || message.requested == ALL
    ensures var (reply, request) := Respond(r, message.request);
      var p := ProcessMessage(r, message, rangeText);
      && p.Processed? && p.message.request == request && p.message.response == Some(ResponseOf(reply, rangeText))
      && p.message.corsHeaders ==
        (if message.origin == "" then message.corsHeaders else map["Access-Control-Allow-Origin" := "*"])
      && p.message.origin == message.origin && p.message.requested == message.requested
  {
  }

  /** A preflight request for a path behind its slash is granted or refused; if it is granted, the method
      that is allowed for a schema is GET, and for an endpoint all of its methods are. */
  lemma PreflightReplies(r: Routes, message: Message, rangeText: string)
    requires WellFormed(r) && message.request.verb == OPTIONS && message.origin != "" && message.requested != ALL
    requires message.request.path != ""
    ensures var path := message.request.path[1..];
      var schema := message.requested == GET && (exists front: string :: path == front + "schema") &&
        HasKey(r.schemas, SchemaEndpoint(path));
      ProcessMessage(r, message, rangeText) ==
        if !schema && !Handles(r, message.requested, path) then
          Processed(message.(response := Some(Response(NOT_SUPPORTED, "", map[]))))
        else
          Processed(message.(
            response := Some(Response(OK, "", map[])),
            corsHeaders := map["Access-Control-Allow-Headers" := "Content-Type",
                               "Access-Control-Allow-Methods" :=
                                 if schema then "GET" else Joined(AllowedNames(r, path)),
                               "Access-Control-Allow-Origin" := "*"]))
  {
    SchemaRequest(message.request.path[1..]);
  }
}

/** Which handlers and schemas the calls of a run leave at the REST server. */
module HttpRuns {
  import opened OrderedMap
  import opened HttpRouter
  import opened HttpServer

  // ----- one call -----

  function HandlerOf(r: Routes, verb: Method, endpoint: string): Option<RESTFunc>
    requires WellFormed(r) && verb != ALL
  {
    Find(Functions(r, verb), endpoint)
  }

  predicate Registers(c: Call) {
    c.CallHandle? || c.CallHandlePut? || c.CallHandleGet?
  }

  /** The call offers a handler for this method and endpoint. No handler can be offered for "registry". */
  predicate Offers(c: Call, verb: Method, endpoint: string) {
    && Registers(c) && c.endpoint == endpoint && endpoint != "registry"
    && verb == if c.CallHandlePut? then PUT else if c.CallHandleGet? then GET else c.verb
  }

  /** `remove(endpoint)` takes away the handlers of all methods, `remove(serializable)` those of PUT and GET. */
  predicate TakesAway(c: Call, verb: Method, endpoint: string) {
    (c.CallRemove? || (c.CallRemoveObject? && (verb == PUT || verb == GET))) && c.endpoint == endpoint
  }

  lemma SlotsDiffer(v: Method, w: Method)
    ensures Slot(v) == Slot(w) <==> v == w
  {
  }

  lemma HandledOf(r: Routes, v: Method, e: string, func: RESTFunc, verb: Method, endpoint: string)
    requires Valid(r) && v != ALL && verb != ALL
    ensures Valid(Handle(r, v, e, func).1)
    ensures HandlerOf(Handle(r, v, e, func).1, verb, endpoint) ==
      if v == verb && e == endpoint && e != "registry" && HandlerOf(r, verb, endpoint) == None then Some(func)
      else HandlerOf(r, verb, endpoint)
    ensures Handle(r, v, e, func).0 ==
      if e == "registry" then ReservedName else if HandlerOf(r, v, e).Some? then Taken else Registered
  {
    HandleValid(r, v, e, func);
    InsertSorted(Functions(r, v), e, func);
    SlotsDiffer(v, verb);
  }

  /** A call stores the handler that it offers exactly if there is none, takes away the handlers that it
      removes, and leaves all others. */
  lemma HandlerStep(r: Routes, c: Call, verb: Method, endpoint: string)
    requires Valid(r) && Allowed(c) && verb != ALL
    ensures WellFormed(Step(r, c))
    ensures HandlerOf(Step(r, c), verb, endpoint) ==
      if TakesAway(c, verb, endpoint) then None
      else if Offers(c, verb, endpoint) && HandlerOf(r, verb, endpoint) == None then Some(c.func)
      else HandlerOf(r, verb, endpoint)
  {
    StepValid(r, c);
    match c {
      case CallHandle(v, e, func) => HandledOf(r, v, e, func, verb, endpoint);
      case CallHandlePut(e, schema, func) => HandledOf(r, PUT, e, func, verb, endpoint);
      case CallHandleGet(e, schema, func) => HandledOf(r, GET, e, func, verb, endpoint);
      case CallRemove(e) => EraseSorted(r.methods[Slot(verb)], e);
      case CallRemoveObject(e) => EraseSorted(r.methods[Slot(verb)], e);
    }
  }

  /** How a registering call ends. */
  function ResultOf(r: Routes, c: Call): Registration
    requires WellFormed(r) && Allowed(c) && Registers(c)
  {
    match c
    case CallHandle(verb, endpoint, func) => Handle(r, verb, endpoint, func).0
    case CallHandlePut(endpoint, schema, func) => HandleWithSchema(r, PUT, endpoint, schema, func).0
    case CallHandleGet(endpoint, schema, func) => HandleWithSchema(r, GET, endpoint, schema, func).0
  }

  function VerbOf(c: Call): Method
    requires Registers(c)
  {
    if c.CallHandlePut? then PUT else if c.CallHandleGet? then GET else c.verb
  }

  /** The schema that comes with a call; the empty text is none. */
  function SchemaWith(c: Call): string {
    if c.CallHandlePut? || c.CallHandleGet? then c.schema else ""
  }

  /** A call is refused for "registry", for an endpoint that has a handler of the method, and, although the
      handler is stored then, for a schema other than the one that the endpoint has. */
  lemma ResultMeaning(r: Routes, c: Call)
    requires Valid(r) && Allowed(c) && Registers(c)
    ensures var schema := Find(r.schemas, c.endpoint);
      ResultOf(r, c) ==
        if c.endpoint == "registry" then ReservedName
        else if HandlerOf(r, VerbOf(c), c.endpoint).Some? then Taken
        else if SchemaWith(c) != "" && schema.Some? && schema.value != SchemaWith(c) then SchemaDiffers
        else Registered
  {
    HandledOf(r, VerbOf(c), c.endpoint, c.func, VerbOf(c), c.endpoint);
    assert Find(r.schemas, c.endpoint).Some? ==> HasKey(r.schemas, c.endpoint);
  }

  /** A schema is stored with a handler that is stored, unless the endpoint has one; both kinds of removal
      take it away; no other call changes it. */
  lemma SchemaStep(r: Routes, c: Call, endpoint: string)
    requires Valid(r) && Allowed(c)
    ensures Find(Step(r, c).schemas, endpoint) ==
      if (c.CallRemove? || c.CallRemoveObject?) && c.endpoint == endpoint then None
      else if Registers(c) && Offers(c, VerbOf(c), endpoint) && HandlerOf(r, VerbOf(c), endpoint) == None &&
        SchemaWith(c) != "" && Find(r.schemas, endpoint) == None then Some(SchemaWith(c))
      else Find(r.schemas, endpoint)
  {
    assert HasKey(r.schemas, endpoint) ==> Find(r.schemas, endpoint).value != "";
    match c {
      case CallHandle(v, e, func) =>
      case CallHandlePut(e, schema, func) => InsertSorted(r.schemas, e, schema);
      case CallHandleGet(e, schema, func) => InsertSorted(r.schemas, e, schema);
      case CallRemove(e) => EraseSorted(r.schemas, e);
      case CallRemoveObject(e) => EraseSorted(r.schemas, e);
    }
  }

  // ----- a run -----

  /** Call `i` offers the handler, is not undone, and every earlier offer is taken away in front of it. */
  ghost predicate StoredBy(calls: seq<Call>, i: nat, verb: Method, endpoint: string)
    requires i < |calls|
  {
    && Offers(calls[i], verb, endpoint)
    && (forall j :: i < j < |calls| ==> !TakesAway(calls[j], verb, endpoint))
    && forall j :: 0 <= j < i && Offers(calls[j], verb, endpoint) ==>
         exists k :: j < k < i && TakesAway(calls[k], verb, endpoint)
  }

  ghost predicate AllAllowed(calls: seq<Call>) {
    forall i :: 0 <= i < |calls| ==> Allowed(calls[i])
  }

  /** Behind a run that starts without a handler, as every server does, the handler of an endpoint is the one
      that was offered first since the last removal, and there is none if none was offered. */
  lemma HandlerAfterRun(r: Routes, calls: seq<Call>, verb: Method, endpoint: string, func: RESTFunc)
    requires Valid(r) && AllAllowed(calls) && verb != ALL && HandlerOf(r, verb, endpoint) == None
    ensures HandlerOf(Follow(r, calls), verb, endpoint) == Some(func) <==>
      exists i :: 0 <= i < |calls| && StoredBy(calls, i, verb, endpoint) && calls[i].func == func
  {
    RunHandler(r, calls, verb, endpoint);
    if i :| 0 <= i < |calls| && StoredBy(calls, i, verb, endpoint) && calls[i].func == func {
      forall k | 0 <= k < |calls| && StoredBy(calls, k, verb, endpoint)
        ensures k == i
      {
        OneStored(calls, i, k, verb, endpoint);
      }
    }
  }

  /** No two calls do so. */
  lemma OneStored(calls: seq<Call>, i: nat, k: nat, verb: Method, endpoint: string)
    requires i < |calls| && k < |calls| && StoredBy(calls, i, verb, endpoint) && StoredBy(calls, k, verb, endpoint)
    ensures i == k
  {
  }

  lemma {:induction false} RunHandler(r: Routes, calls: seq<Call>, verb: Method, endpoint: string)
    requires Valid(r) && AllAllowed(calls) && verb != ALL && HandlerOf(r, verb, endpoint) == None
    ensures var h := HandlerOf(Follow(r, calls), verb, endpoint);
      if h.Some? then exists i :: 0 <= i < |calls| && StoredBy(calls, i, verb, endpoint) && calls[i].func == h.value
      else forall i :: 0 <= i < |calls| ==> !StoredBy(calls, i, verb, endpoint)
    decreases |calls|
  {
    if calls != [] {
      var n := |calls| - 1;
      RunHandler(r, calls[..n], verb, endpoint);
      HandlerStep(Follow(r, calls[..n]), calls[n], verb, endpoint);
      LastCall(calls, verb, endpoint);
    }
  }

  /** What the last call does to who stored the handler. */
  lemma LastCall(calls: seq<Call>, verb: Method, endpoint: string)
    requires calls != []
    ensures var n := |calls| - 1;
      && (forall i :: 0 <= i < n ==>
           (StoredBy(calls, i, verb, endpoint) <==>
            StoredBy(calls[..n], i, verb, endpoint) && !TakesAway(calls[n], verb, endpoint)))
      && (StoredBy(calls, n, verb, endpoint) <==>
           Offers(calls[n], verb, endpoint) && forall i :: 0 <= i < n ==> !StoredBy(calls[..n], i, verb, endpoint))
  {
    var n := |calls| - 1;
    forall i | 0 <= i < n
      ensures StoredBy(calls, i, verb, endpoint) <==>
        StoredBy(calls[..n], i, verb, endpoint) && !TakesAway(calls[n], verb, endpoint)
    {
      EarlierCall(calls, i, verb, endpoint);
    }
    if Offers(calls[n], verb, endpoint) && forall i :: 0 <= i < n ==> !StoredBy(calls[..n], i, verb, endpoint) {
      forall j | 0 <= j < n && Offers(calls[j], verb, endpoint)
        ensures exists k :: j < k < n && TakesAway(calls[k], verb, endpoint)
      {
        assert calls[..n][j] == calls[j];
        UndoneUnlessStored(calls[..n], j, verb, endpoint);
        var k :| j < k < n && TakesAway(calls[..n][k], verb, endpoint);
        assert calls[k] == calls[..n][k];
      }
    }
  }

  lemma EarlierCall(calls: seq<Call>, i: nat, verb: Method, endpoint: string)
    requires i < |calls| - 1
    ensures StoredBy(calls, i, verb, endpoint) <==>
      StoredBy(calls[..|calls| - 1], i, verb, endpoint) && !TakesAway(calls[|calls| - 1], verb, endpoint)
  {
    var before := calls[..|calls| - 1];
    assert forall j :: 0 <= j < |before| ==> before[j] == calls[j];
  }

  /** When no call stored the handler, every offer was taken away. */
  lemma UndoneUnlessStored(calls: seq<Call>, j: nat, verb: Method, endpoint: string)
    requires j < |calls| && Offers(calls[j], verb, endpoint)
    requires forall i :: 0 <= i < |calls| ==> !StoredBy(calls, i, verb, endpoint)
    ensures exists k :: j < k < |calls| && TakesAway(calls[k], verb, endpoint)
    decreases j
  {
    if forall k :: j < k < |calls| ==> !TakesAway(calls[k], verb, endpoint) {
      assert !StoredBy(calls, j, verb, endpoint);
      var i :| 0 <= i < j && Offers(calls[i], verb, endpoint) &&
        forall k :: i < k < j ==> !TakesAway(calls[k], verb, endpoint);
      UndoneUnlessStored(calls, i, verb, endpoint);
    }
  }
}

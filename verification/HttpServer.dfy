/** The REST server: registering and removing endpoints, and what every run of such calls keeps. */
module HttpServer {
  import opened OrderedMap
  import opened HttpRouter

  // ----- registration -----

  /** How registering ends: done, refused because the endpoint is taken, or with an exception. */
  datatype Registration = Registered | Taken | ReservedName | SchemaDiffers

  function WithFunctions(r: Routes, verb: Method, m: FuncMap): Routes
    requires WellFormed(r) && verb != ALL
  {
    r.(methods := r.methods[Slot(verb) := m])
  }

  /** `getSchema`: empty if there is none. */
  function SchemaOf(r: Routes, endpoint: string): string {
    Find(r.schemas, endpoint).GetOr("")
  }

  /** `registerSchema`. */
  function RegisterSchema(r: Routes, endpoint: string, schema: string): (Registration, Routes) {
    var exist := SchemaOf(r, endpoint);
    if exist == "" then (Registered, r.(schemas := Insert(r.schemas, endpoint, schema)))
    else (if schema == exist then Registered else SchemaDiffers, r)
  }

  /** `handle(method, endpoint, func)`. */
  function Handle(r: Routes, verb: Method, endpoint: string, func: RESTFunc): (Registration, Routes)
    requires WellFormed(r) && verb != ALL
  {
    if endpoint == REGISTRY then (ReservedName, r)
    else if HasKey(Functions(r, verb), endpoint) then (Taken, r)
    else (Registered, WithFunctions(r, verb, Insert(Functions(r, verb), endpoint, func)))
  }

  /** `handlePUT` and `handleGET`: the schema is registered behind the handler, which stays in any case. */
  function HandleWithSchema(r: Routes, verb: Method, endpoint: string, schema: string, func: RESTFunc)
    : (Registration, Routes)
    requires WellFormed(r) && verb != ALL
  {
    var done := Handle(r, verb, endpoint, func);
    if done.0 != Registered || schema == "" then done else RegisterSchema(done.1, endpoint, schema)
  }

  /** `remove(endpoint)`: `erase` from all maps. */
  function Remove(r: Routes, endpoint: string): Routes
    requires WellFormed(r)
  {
    Routes(Erase(r.schemas, endpoint), seq(METHODS, k requires 0 <= k < METHODS => Erase(r.methods[k], endpoint)))
  }

  /** `remove(serializable)`: only the handlers that a serializable registers. */
  function RemoveObject(r: Routes, endpoint: string): Routes
    requires WellFormed(r)
  {
    Routes(Erase(r.schemas, endpoint),
           seq(METHODS, k requires 0 <= k < METHODS =>
             if k == Slot(PUT) || k == Slot(GET) then Erase(r.methods[k], endpoint) else r.methods[k]))
  }

  predicate Handles(r: Routes, verb: Method, endpoint: string)
    requires WellFormed(r) && verb != ALL
  {
    HasKey(Functions(r, verb), endpoint)
  }

  // ----- what holds in every reachable state -----

  /** Schemas are never empty and belong to endpoints that can be read or written; "registry" is no
      endpoint. */
  ghost predicate Valid(r: Routes) {
    && WellFormed(r)
    && (forall k :: 0 <= k < METHODS ==> !HasKey(r.methods[k], REGISTRY))
    && forall e :: HasKey(r.schemas, e) ==>
         Find(r.schemas, e).value != "" && (Handles(r, GET, e) || Handles(r, PUT, e))
  }

  datatype Call =
    | CallHandle(verb: Method, endpoint: string, func: RESTFunc)
    | CallHandlePut(endpoint: string, schema: string, func: RESTFunc)
    | CallHandleGet(endpoint: string, schema: string, func: RESTFunc)
    | CallRemove(endpoint: string)
    | CallRemoveObject(endpoint: string)

  predicate Allowed(c: Call) {
    c.CallHandle? ==> c.verb != ALL
  }

  function Step(r: Routes, c: Call): Routes
    requires WellFormed(r) && Allowed(c)
  {
    match c
    case CallHandle(verb, endpoint, func) => Handle(r, verb, endpoint, func).1
    case CallHandlePut(endpoint, schema, func) => HandleWithSchema(r, PUT, endpoint, schema, func).1
    case CallHandleGet(endpoint, schema, func) => HandleWithSchema(r, GET, endpoint, schema, func).1
    case CallRemove(endpoint) => Remove(r, endpoint)
    case CallRemoveObject(endpoint) => RemoveObject(r, endpoint)
  }

  const EMPTY := Routes([], [[], [], [], [], [], []])

  lemma HandleValid(r: Routes, verb: Method, endpoint: string, func: RESTFunc)
    requires Valid(r) && verb != ALL
    ensures Valid(Handle(r, verb, endpoint, func).1)
  {
    InsertSorted(Functions(r, verb), endpoint, func);
    var r' := Handle(r, verb, endpoint, func).1;
    forall k | 0 <= k < METHODS
      ensures Sorted(r'.methods[k]) && !HasKey(r'.methods[k], REGISTRY)
    {
      assert k != Slot(verb) ==> r'.methods[k] == r.methods[k];
    }
    forall e | HasKey(r'.schemas, e)
      ensures Handles(r', GET, e) || Handles(r', PUT, e)
    {
      assert HasKey(r.schemas, e);
    }
  }

  lemma RegisterSchemaValid(r: Routes, endpoint: string, schema: string)
    requires Valid(r) && schema != "" && (Handles(r, GET, endpoint) || Handles(r, PUT, endpoint))
    ensures Valid(RegisterSchema(r, endpoint, schema).1)
  {
    InsertSorted(r.schemas, endpoint, schema);
    var r' := RegisterSchema(r, endpoint, schema).1;
    forall e | HasKey(r'.schemas, e)
      ensures Find(r'.schemas, e).value != "" && (Handles(r', GET, e) || Handles(r', PUT, e))
    {
      assert e != endpoint ==> HasKey(r.schemas, e);
    }
  }

  lemma HandleWithSchemaValid(r: Routes, verb: Method, endpoint: string, schema: string, func: RESTFunc)
    requires Valid(r) && (verb == GET || verb == PUT)
    ensures Valid(HandleWithSchema(r, verb, endpoint, schema, func).1)
  {
    HandleValid(r, verb, endpoint, func);
    var done := Handle(r, verb, endpoint, func);
    if done.0 == Registered && schema != "" {
      InsertSorted(Functions(r, verb), endpoint, func);
      RegisterSchemaValid(done.1, endpoint, schema);
    }
  }

  lemma RemoveValid(r: Routes, endpoint: string)
    requires Valid(r)
    ensures Valid(Remove(r, endpoint)) && Valid(RemoveObject(r, endpoint))
  {
    EraseSorted(r.schemas, endpoint);
    forall k | 0 <= k < METHODS
      ensures Sorted(Erase(r.methods[k], endpoint)) && !HasKey(Erase(r.methods[k], endpoint), REGISTRY)
      ensures forall e :: HasKey(Erase(r.methods[k], endpoint), e) <==> e != endpoint && HasKey(r.methods[k], e)
    {
      EraseSorted(r.methods[k], endpoint);
    }
    forall e | HasKey(Erase(r.schemas, endpoint), e)
      ensures e != endpoint && HasKey(r.schemas, e) && Find(Erase(r.schemas, endpoint), e) == Find(r.schemas, e)
    {
    }
  }

  /** Every call keeps this, also a call that throws. */
  lemma StepValid(r: Routes, c: Call)
    requires Valid(r) && Allowed(c)
    ensures Valid(Step(r, c))
  {
    match c {
      case CallHandle(verb, endpoint, func) => HandleValid(r, verb, endpoint, func);
      case CallHandlePut(endpoint, schema, func) => HandleWithSchemaValid(r, PUT, endpoint, schema, func);
      case CallHandleGet(endpoint, schema, func) => HandleWithSchemaValid(r, GET, endpoint, schema, func);
      case CallRemove(endpoint) => RemoveValid(r, endpoint);
      case CallRemoveObject(endpoint) => RemoveValid(r, endpoint);
    }
  }

  /** The state behind a run of calls, which may throw. */
  ghost function Follow(r: Routes, calls: seq<Call>): (r': Routes)
    requires Valid(r) && forall i :: 0 <= i < |calls| ==> Allowed(calls[i])
    ensures Valid(r')
  {
    if calls == [] then r
    else
      var n := |calls| - 1;
      var before := Follow(r, calls[..n]);
      StepValid(before, calls[n]);
      Step(before, calls[n])
  }

  predicate Removes(c: Call, endpoint: string) {
    (c.CallRemove? || c.CallRemoveObject?) && c.endpoint == endpoint
  }

  /** A registered schema changes in no call but the one that removes it, and that one removes it. */
  lemma SchemaStays(r: Routes, c: Call, endpoint: string)
    requires Valid(r) && Allowed(c)
    ensures HasKey(r.schemas, endpoint) && !Removes(c, endpoint) ==>
      Find(Step(r, c).schemas, endpoint) == Find(r.schemas, endpoint)
    ensures Removes(c, endpoint) ==> Find(Step(r, c).schemas, endpoint) == None
  {
    match c {
      case CallHandlePut(e, schema, func) => InsertSorted(r.schemas, e, schema);
      case CallHandleGet(e, schema, func) => InsertSorted(r.schemas, e, schema);
      case CallRemove(e) => EraseSorted(r.schemas, e);
      case CallRemoveObject(e) => EraseSorted(r.schemas, e);
      case CallHandle(_, _, _) =>
    }
  }

  /** Over any run of calls that does not remove it, a schema stays as it is. */
  lemma {:induction false} SchemaStaysInRun(r: Routes, calls: seq<Call>, endpoint: string)
    requires Valid(r) && HasKey(r.schemas, endpoint)
    requires forall i :: 0 <= i < |calls| ==> Allowed(calls[i]) && !Removes(calls[i], endpoint)
    ensures Find(Follow(r, calls).schemas, endpoint) == Find(r.schemas, endpoint)
    decreases |calls|
  {
    if calls != [] {
      var n := |calls| - 1;
      SchemaStaysInRun(r, calls[..n], endpoint);
      SchemaStays(Follow(r, calls[..n]), calls[n], endpoint);
    }
  }
}

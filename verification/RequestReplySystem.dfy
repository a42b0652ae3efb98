/** All clients, servers and messages under way, as a state machine. */
module RequestReplySystem {
  import opened OrderedMap
  import opened RequestReply

  /** A request is known by its client and the id in its envelope. */
  datatype Key = Key(client: nat, id: nat)

  datatype Packet = Packet(key: Key, body: Body)

  datatype Asked = Asked(request: Body, func: ReplyFunc)

  /** The reply that was made for a request, and the handlers its server had then. */
  datatype Made = Made(handlers: map<nat, HandleFunc>, reply: Body)

  datatype Call = Call(key: Key, func: ReplyFunc, reply: Body, result: CallResult)

  /** `sending` is the callback of a request that is sent and not yet stored; `calls` counts the calls
      of `request`. */
  datatype ClientState = ClientState(id: nat, handlers: map<nat, ReplyFunc>, sending: Option<ReplyFunc>, calls: nat)

  /** `slot` is the request that the server works on. */
  datatype ServerState = ServerState(handlers: map<nat, HandleFunc>, slot: Option<Packet>)

  /** The network holds packets in no order. The rest is history: what was asked, which replies were
      made, which callbacks ran, which packets were lost, how often a reply found no handler. */
  datatype System = System(
    clients: seq<ClientState>, servers: seq<ServerState>, requests: seq<Packet>, replies: seq<Packet>,
    asked: map<Key, Asked>, made: map<Key, Made>, log: seq<Call>, lost: seq<Packet>, unrequested: nat)

  datatype Step =
    | Send(c: nat, request: Body, func: ReplyFunc)
    | SendFails(c: nat)
    | Register(c: nat)
    | Deliver(i: nat)
    | Receive(server: nat, i: nat)
    | Reply(server: nat)
    | SetHandlers(server: nat, handlers: map<nat, HandleFunc>)
    | LoseRequest(i: nat)
    | LoseReply(i: nat)

  function Without<T>(s: seq<T>, i: nat): seq<T>
    requires i < |s|
  {
    s[..i] + s[i + 1..]
  }

  /** A client is single-threaded: between sending a request and storing its callback it does nothing
      else. A server takes a request when it has answered the one before. */
  predicate Enabled(s: System, step: Step) {
    match step
    case Send(c, _, _) => c < |s.clients| && s.clients[c].sending.None?
    case SendFails(c) => c < |s.clients| && s.clients[c].sending.None?
    case Register(c) => c < |s.clients| && s.clients[c].sending.Some?
    case Deliver(i) =>
      i < |s.replies| && s.replies[i].key.client < |s.clients| && s.clients[s.replies[i].key.client].sending.None?
    case Receive(server, i) => server < |s.servers| && i < |s.requests| && s.servers[server].slot.None?
    case Reply(server) => server < |s.servers| && s.servers[server].slot.Some?
    case SetHandlers(server, _) => server < |s.servers|
    case LoseRequest(i) => i < |s.requests|
    case LoseReply(i) => i < |s.replies|
  }

  function Next(s: System, step: Step): System
    requires Enabled(s, step)
  {
    match step
    case Send(c, request, func) =>
      var client := s.clients[c];
      var key := Key(c, NextId(client.id));
      s.(clients := s.clients[c := client.(id := key.id, sending := Some(func), calls := client.calls + 1)],
         requests := s.requests + [Packet(key, request)],
         asked := s.asked[key := Asked(request, func)])
    case SendFails(c) =>
      var client := s.clients[c];
      s.(clients := s.clients[c := client.(id := NextId(client.id), calls := client.calls + 1)])
    case Register(c) =>
      var client := s.clients[c];
      s.(clients := s.clients[c :=
        client.(handlers := client.handlers[client.id := client.sending.value], sending := None)])
    case Deliver(i) => Delivered(s, i)
    case Receive(server, i) =>
      s.(servers := s.servers[server := s.servers[server].(slot := Some(s.requests[i]))],
         requests := Without(s.requests, i))
    case Reply(server) =>
      var packet := s.servers[server].slot.value;
      var reply := Answer(s.servers[server].handlers, packet.body);
      s.(servers := s.servers[server := s.servers[server].(slot := None)],
         replies := s.replies + [Packet(packet.key, reply)],
         made := s.made[packet.key := Made(s.servers[server].handlers, reply)])
    case SetHandlers(server, handlers) =>
      s.(servers := s.servers[server := s.servers[server].(handlers := handlers)])
    case LoseRequest(i) => s.(requests := Without(s.requests, i), lost := s.lost + [s.requests[i]])
    case LoseReply(i) => s.(replies := Without(s.replies, i), lost := s.lost + [s.replies[i]])
  }

  /** `Client::process` on a reply. */
  function Delivered(s: System, i: nat): System
    requires Enabled(s, Deliver(i))
  {
    var packet := s.replies[i];
    var key := packet.key;
    var client := s.clients[key.client];
    var rest := s.(replies := Without(s.replies, i));
    var (processed, handlers) := HandleReply(client.handlers, Message(key.id, packet.body));
    if processed.Called? then
      rest.(clients := s.clients[key.client := client.(handlers := handlers)],
            log := s.log + [Call(key, client.handlers[key.id], packet.body, processed.result)])
    else rest.(unrequested := s.unrequested + 1, lost := s.lost + [packet])
  }

  predicate Initial(s: System) {
    && (forall c :: 0 <= c < |s.clients| ==> s.clients[c] == ClientState(0, map[], None, 0))
    && (forall i :: 0 <= i < |s.servers| ==> s.servers[i].slot == None)
    && s.requests == [] && s.replies == [] && s.asked == map[] && s.made == map[] && s.log == [] && s.lost == []
    && s.unrequested == 0
  }

  /** A run: states and the steps between them. */
  ghost predicate Run(states: seq<System>, steps: seq<Step>) {
    && |states| == |steps| + 1 && Initial(states[0])
    && forall i {:trigger steps[i]} :: 0 <= i < |steps| ==>
      Enabled(states[i], steps[i]) && states[i + 1] == Next(states[i], steps[i])
  }

  /** No client has used up its 64-bit ids. */
  predicate IdsLeft(s: System) {
    forall c :: 0 <= c < |s.clients| ==> s.clients[c].calls < ID_LIMIT
  }

  // ----- where the requests are -----

  function One(b: bool): nat {
    if b then 1 else 0
  }

  /** How many of the packets have this key. */
  function Count(ps: seq<Packet>, key: Key): nat {
    if ps == [] then 0 else Count(ps[..|ps| - 1], key) + One(ps[|ps| - 1].key == key)
  }

  function CountCalls(log: seq<Call>, key: Key): nat {
    if log == [] then 0 else CountCalls(log[..|log| - 1], key) + One(log[|log| - 1].key == key)
  }

  predicate Holds(server: ServerState, key: Key) {
    server.slot.Some? && server.slot.value.key == key
  }

  function CountSlots(servers: seq<ServerState>, key: Key): nat {
    if servers == [] then 0 else CountSlots(servers[..|servers| - 1], key) + One(Holds(servers[|servers| - 1], key))
  }

  function Busy(servers: seq<ServerState>): nat {
    if servers == [] then 0 else Busy(servers[..|servers| - 1]) + One(servers[|servers| - 1].slot.Some?)
  }

  lemma CountSnoc(ps: seq<Packet>, p: Packet, key: Key)
    ensures Count(ps + [p], key) == Count(ps, key) + One(p.key == key)
  {
    assert (ps + [p])[..|ps|] == ps;
  }

  lemma {:induction false} CountWithout(ps: seq<Packet>, i: nat, key: Key)
    requires i < |ps|
    ensures Count(ps, key) == Count(Without(ps, i), key) + One(ps[i].key == key)
    decreases |ps|
  {
    var n := |ps| - 1;
    if i == n {
      assert Without(ps, i) == ps[..n];
    } else {
      CountWithout(ps[..n], i, key);
      WithoutFront(ps, i);
      CountSnoc(Without(ps[..n], i), ps[n], key);
    }
  }

  lemma WithoutFront<T>(s: seq<T>, i: nat)
    requires i < |s| - 1
    ensures Without(s, i) == Without(s[..|s| - 1], i) + [s[|s| - 1]]
  {
  }

  lemma CountCallsSnoc(log: seq<Call>, e: Call, key: Key)
    ensures CountCalls(log + [e], key) == CountCalls(log, key) + One(e.key == key)
  {
    assert (log + [e])[..|log|] == log;
  }

  lemma {:induction false} CountCallsIn(log: seq<Call>, i: nat)
    requires i < |log|
    ensures CountCalls(log, log[i].key) >= 1
    ensures forall j :: i < j < |log| && log[j].key == log[i].key ==> CountCalls(log, log[i].key) >= 2
    decreases |log|
  {
    var n := |log| - 1;
    if i < n {
      CountCallsIn(log[..n], i);
      forall j | i < j < |log| && log[j].key == log[i].key
        ensures CountCalls(log, log[i].key) >= 2
      {
        if j < n {
          assert log[..n][j].key == log[..n][i].key;
        }
      }
    }
  }

  lemma {:induction false} SlotsUpdate(servers: seq<ServerState>, i: nat, server: ServerState, key: Key)
    requires i < |servers|
    ensures CountSlots(servers[i := server], key) + One(Holds(servers[i], key)) ==
      CountSlots(servers, key) + One(Holds(server, key))
    ensures Busy(servers[i := server]) + One(servers[i].slot.Some?) == Busy(servers) + One(server.slot.Some?)
    decreases |servers|
  {
    var n := |servers| - 1;
    if i < n {
      SlotsUpdate(servers[..n], i, server, key);
      assert servers[i := server][..n] == servers[..n][i := server];
    } else {
      assert servers[i := server][..n] == servers[..n];
    }
  }

  // ----- the invariant -----

  function Places(s: System, key: Key): nat {
    Count(s.requests, key) + CountSlots(s.servers, key) + Count(s.replies, key) + CountCalls(s.log, key) +
      Count(s.lost, key)
  }

  /** Every request is in exactly one place, and nothing else is anywhere. */
  ghost predicate Conserved(s: System) {
    && (forall key :: Places(s, key) == One(key in s.asked))
    && |s.requests| + Busy(s.servers) + |s.replies| + |s.log| + |s.lost| == |s.asked|
  }

  /** Ids are handed out in order, and every request has one of them. */
  ghost predicate IdsInOrder(clients: seq<ClientState>, asked: map<Key, Asked>) {
    && (forall c :: 0 <= c < |clients| ==> clients[c].id == clients[c].calls)
    && forall k :: k in asked ==> k.client < |clients| && 1 <= k.id <= clients[k.client].id
  }

  /** A packet on its way to a server carries the request that was asked. */
  predicate CarriesRequest(p: Packet, asked: map<Key, Asked>) {
    p.key in asked && p.body == asked[p.key].request
  }

  ghost predicate RequestsRight(requests: seq<Packet>, servers: seq<ServerState>, asked: map<Key, Asked>) {
    && (forall p :: p in requests ==> CarriesRequest(p, asked))
    && forall server :: server in servers && server.slot.Some? ==> CarriesRequest(server.slot.value, asked)
  }

  /** A reply is the answer of some handlers to the request under its key. */
  ghost predicate MadeRight(made: map<Key, Made>, asked: map<Key, Asked>) {
    forall k :: k in made ==> k in asked && made[k].reply == Answer(made[k].handlers, asked[k].request)
  }

  ghost predicate RepliesRight(replies: seq<Packet>, made: map<Key, Made>) {
    forall p :: p in replies ==> p.key in made && p.body == made[p.key].reply
  }

  /** The callback of the request got the reply that was made for the request. */
  ghost predicate CallRight(e: Call, made: map<Key, Made>, asked: map<Key, Asked>) {
    && e.key in made && e.key in asked
    && e.func == asked[e.key].func && e.reply == made[e.key].reply && e.result == e.func(e.reply)
  }

  ghost predicate CallsRight(log: seq<Call>, made: map<Key, Made>, asked: map<Key, Asked>) {
    forall e :: e in log ==> CallRight(e, made, asked)
  }

  predicate Answered(log: seq<Call>, key: Key) {
    exists i :: 0 <= i < |log| && log[i].key == key && log[i].result == CallReturned
  }

  /** A client waits for exactly the requests that are stored and not answered. */
  ghost predicate Waiting(c: nat, client: ClientState, asked: map<Key, Asked>, log: seq<Call>) {
    && (forall id :: id in client.handlers <==>
         Key(c, id) in asked && !(client.sending.Some? && id == client.id) && !Answered(log, Key(c, id)))
    && (forall id :: id in client.handlers ==> Key(c, id) in asked && client.handlers[id] == asked[Key(c, id)].func)
    && (client.sending.Some? ==>
         Key(c, client.id) in asked && client.sending.value == asked[Key(c, client.id)].func &&
           !Answered(log, Key(c, client.id)))
  }

  ghost predicate AllWaiting(clients: seq<ClientState>, asked: map<Key, Asked>, log: seq<Call>) {
    forall c :: 0 <= c < |clients| ==> Waiting(c, clients[c], asked, log)
  }

  /** The rest of the invariant: all but the counting. */
  ghost predicate Others(s: System) {
    && IdsInOrder(s.clients, s.asked) && RequestsRight(s.requests, s.servers, s.asked)
    && MadeRight(s.made, s.asked) && RepliesRight(s.replies, s.made) && CallsRight(s.log, s.made, s.asked)
    && AllWaiting(s.clients, s.asked, s.log) && s.unrequested == 0
  }

  ghost predicate Inv(s: System) {
    Conserved(s) && Others(s)
  }

  lemma CountIn(ps: seq<Packet>, p: Packet)
    requires p in ps
    ensures Count(ps, p.key) >= 1
  {
    var i :| 0 <= i < |ps| && ps[i] == p;
    CountWithout(ps, i, p.key);
  }

  lemma CountSlotsIn(servers: seq<ServerState>, i: nat)
    requires i < |servers| && servers[i].slot.Some?
    ensures CountSlots(servers, servers[i].slot.value.key) >= 1
  {
    SlotsUpdate(servers, i, servers[i].(slot := None), servers[i].slot.value.key);
  }

  lemma WithoutIn<T>(s: seq<T>, i: nat)
    requires i < |s|
    ensures forall x :: x in Without(s, i) ==> x in s
  {
  }

  lemma UpdateIn(servers: seq<ServerState>, i: nat, server: ServerState)
    requires i < |servers|
    ensures forall x :: x in servers[i := server] ==> x == server || x in servers
  {
  }

  lemma NotAnswered(s: System, key: Key)
    requires CallsRight(s.log, s.made, s.asked) && key !in s.asked
    ensures !Answered(s.log, key)
  {
    forall i | 0 <= i < |s.log|
      ensures s.log[i].key != key
    {
      assert s.log[i] in s.log;
    }
  }

  // Sending: the next id of a client is new.

  lemma SendKeeps(s: System, c: nat, request: Body, func: ReplyFunc)
    requires Inv(s) && Enabled(s, Send(c, request, func)) && s.clients[c].calls + 1 < ID_LIMIT
    ensures Inv(Next(s, Send(c, request, func)))
  {
    SmallId(s.clients[c].id);
    IdsMore(s.clients, c, s.asked, Asked(request, func));
    SendConserved(s, c, request, func);
    SendOthers(s, c, request, func);
  }

  lemma SendOthers(s: System, c: nat, request: Body, func: ReplyFunc)
    requires Others(s) && Enabled(s, Send(c, request, func)) && s.clients[c].calls + 1 < ID_LIMIT
    ensures Others(Next(s, Send(c, request, func)))
  {
    var a := Asked(request, func);
    var client := s.clients[c].(id := s.clients[c].id + 1, sending := Some(func), calls := s.clients[c].calls + 1);
    var key := Key(c, client.id);
    SendFields(s, c, request, func);
    SendClients(s, c, a);
    AskedMore(s, key, a);
    assert Others(s.(clients := s.clients[c := client], requests := s.requests + [Packet(key, request)],
                     asked := s.asked[key := a]));
  }

  lemma SendClients(s: System, c: nat, a: Asked)
    requires Others(s) && c < |s.clients| && s.clients[c].sending.None?
    ensures Key(c, s.clients[c].id + 1) !in s.asked
    ensures var client :=
      s.clients[c].(id := s.clients[c].id + 1, sending := Some(a.func), calls := s.clients[c].calls + 1);
      IdsInOrder(s.clients[c := client], s.asked[Key(c, client.id) := a]) &&
      AllWaiting(s.clients[c := client], s.asked[Key(c, client.id) := a], s.log)
  {
    IdsMore(s.clients, c, s.asked, a);
    NotAnswered(s, Key(c, s.clients[c].id + 1));
    SendWaiting(s.clients, c, s.asked, s.log, a);
  }

  /** The fields that a request changes, and those that it keeps. */
  lemma SendFields(s: System, c: nat, request: Body, func: ReplyFunc)
    requires Enabled(s, Send(c, request, func)) && s.clients[c].id + 1 < ID_LIMIT
    ensures var client :=
      s.clients[c].(id := s.clients[c].id + 1, sending := Some(func), calls := s.clients[c].calls + 1);
      Next(s, Send(c, request, func)) == s.(
        clients := s.clients[c := client], requests := s.requests + [Packet(Key(c, client.id), request)],
        asked := s.asked[Key(c, client.id) := Asked(request, func)])
  {
    SmallId(s.clients[c].id);
  }

  lemma SmallId(id: nat)
    requires id + 1 < ID_LIMIT
    ensures NextId(id) == id + 1
  {
  }

  lemma IdsMore(clients: seq<ClientState>, c: nat, asked: map<Key, Asked>, a: Asked)
    requires IdsInOrder(clients, asked) && c < |clients|
    ensures Key(c, clients[c].id + 1) !in asked
    ensures var client := clients[c].(id := clients[c].id + 1, sending := Some(a.func), calls := clients[c].calls + 1);
      IdsInOrder(clients[c := client], asked[Key(c, client.id) := a])
  {
  }

  /** A new key in the history changes nothing for the old ones. */
  lemma AskedMore(s: System, key: Key, a: Asked)
    requires RequestsRight(s.requests, s.servers, s.asked) && MadeRight(s.made, s.asked) &&
      CallsRight(s.log, s.made, s.asked)
    requires key !in s.asked
    ensures RequestsRight(s.requests + [Packet(key, a.request)], s.servers, s.asked[key := a])
    ensures MadeRight(s.made, s.asked[key := a]) && CallsRight(s.log, s.made, s.asked[key := a])
  {
  }

  lemma SendConserved(s: System, c: nat, request: Body, func: ReplyFunc)
    requires Conserved(s) && Enabled(s, Send(c, request, func)) && Key(c, NextId(s.clients[c].id)) !in s.asked
    ensures Conserved(Next(s, Send(c, request, func)))
  {
    var s', new_ := Next(s, Send(c, request, func)), Key(c, NextId(s.clients[c].id));
    forall key
      ensures Places(s', key) == One(key in s'.asked)
    {
      CountSnoc(s.requests, Packet(new_, request), key);
      assert Places(s, key) == One(key in s.asked);
    }
    assert |s'.asked| == |s.asked| + 1;
  }

  lemma SendWaiting(clients: seq<ClientState>, c: nat, asked: map<Key, Asked>, log: seq<Call>, a: Asked)
    requires AllWaiting(clients, asked, log) && c < |clients| && clients[c].sending.None?
    requires Key(c, clients[c].id + 1) !in asked && !Answered(log, Key(c, clients[c].id + 1))
    ensures var client := clients[c].(id := clients[c].id + 1, sending := Some(a.func), calls := clients[c].calls + 1);
      AllWaiting(clients[c := client], asked[Key(c, client.id) := a], log)
  {
    forall d | 0 <= d < |clients| && d != c
      ensures Waiting(d, clients[d], asked[Key(c, clients[c].id + 1) := a], log)
    {
      WaitingOther(d, clients[d], asked, log, Key(c, clients[c].id + 1), a);
    }
    SendWaitingSelf(c, clients[c], asked, log, a);
  }

  lemma WaitingOther(d: nat, client: ClientState, asked: map<Key, Asked>, log: seq<Call>, key: Key, a: Asked)
    requires Waiting(d, client, asked, log) && key.client != d
    ensures Waiting(d, client, asked[key := a], log)
  {
  }

  lemma SendWaitingSelf(c: nat, client: ClientState, asked: map<Key, Asked>, log: seq<Call>, a: Asked)
    requires Waiting(c, client, asked, log) && client.sending.None?
    requires Key(c, client.id + 1) !in asked && !Answered(log, Key(c, client.id + 1))
    ensures Waiting(c, client.(id := client.id + 1, sending := Some(a.func), calls := client.calls + 1),
                    asked[Key(c, client.id + 1) := a], log)
  {
  }

  /** A step that changes one client and moves no packet. */
  lemma ClientChanges(s: System, c: nat, client: ClientState)
    requires Inv(s) && c < |s.clients| && Waiting(c, client, s.asked, s.log)
    requires s.clients[c].id <= client.id == client.calls
    ensures Inv(s.(clients := s.clients[c := client]))
  {
    SamePlaces(s, s.(clients := s.clients[c := client]));
    ClientFields(s.clients, c, client, s.asked, s.log);
  }

  lemma ClientFields(clients: seq<ClientState>, c: nat, client: ClientState, asked: map<Key, Asked>, log: seq<Call>)
    requires AllWaiting(clients, asked, log) && IdsInOrder(clients, asked) && c < |clients|
    requires Waiting(c, client, asked, log) && clients[c].id <= client.id == client.calls
    ensures AllWaiting(clients[c := client], asked, log) && IdsInOrder(clients[c := client], asked)
  {
    forall d | 0 <= d < |clients| && d != c
      ensures Waiting(d, clients[d], asked, log)
    {
    }
  }

  lemma SendFailsKeeps(s: System, c: nat)
    requires Inv(s) && Enabled(s, SendFails(c)) && s.clients[c].calls + 1 < ID_LIMIT
    ensures Inv(Next(s, SendFails(c)))
  {
    IdIsCalls(s, c);
    SendFailsFields(s, c);
    IdUsedKeeps(s, c);
  }

  lemma IdIsCalls(s: System, c: nat)
    requires Others(s) && c < |s.clients|
    ensures s.clients[c].id == s.clients[c].calls
  {
  }

  /** An id that is used up for nothing. */
  lemma IdUsedKeeps(s: System, c: nat)
    requires Inv(s) && c < |s.clients| && s.clients[c].sending.None?
    ensures var client := s.clients[c].(id := s.clients[c].id + 1, calls := s.clients[c].calls + 1);
      Inv(s.(clients := s.clients[c := client]))
  {
    var client := s.clients[c].(id := s.clients[c].id + 1, calls := s.clients[c].calls + 1);
    IdUsedWaiting(s, c);
    ClientChanges(s, c, client);
  }

  lemma IdUsedWaiting(s: System, c: nat)
    requires Others(s) && c < |s.clients| && s.clients[c].sending.None?
    ensures var client := s.clients[c].(id := s.clients[c].id + 1, calls := s.clients[c].calls + 1);
      client.id == client.calls && Waiting(c, client, s.asked, s.log)
  {
    IdIsCalls(s, c);
    assert Waiting(c, s.clients[c], s.asked, s.log);
    SendFailsWaiting(c, s.clients[c], s.asked, s.log);
  }

  lemma SendFailsFields(s: System, c: nat)
    requires Enabled(s, SendFails(c)) && s.clients[c].id + 1 < ID_LIMIT
    ensures var client := s.clients[c].(id := s.clients[c].id + 1, calls := s.clients[c].calls + 1);
      Next(s, SendFails(c)) == s.(clients := s.clients[c := client])
  {
    SmallId(s.clients[c].id);
  }

  lemma SendFailsWaiting(c: nat, client: ClientState, asked: map<Key, Asked>, log: seq<Call>)
    requires Waiting(c, client, asked, log) && client.sending.None?
    ensures Waiting(c, client.(id := client.id + 1, calls := client.calls + 1), asked, log)
  {
  }

  lemma SamePlaces(s: System, s': System)
    requires Conserved(s)
    requires s.requests == s'.requests && s.servers == s'.servers && s.replies == s'.replies && s.log == s'.log
    requires s.lost == s'.lost && s.asked == s'.asked
    ensures Conserved(s')
  {
    forall key
      ensures Places(s', key) == One(key in s'.asked)
    {
      assert Places(s, key) == One(key in s.asked);
    }
  }

  lemma RegisterKeeps(s: System, c: nat)
    requires Inv(s) && Enabled(s, Register(c))
    ensures Inv(Next(s, Register(c)))
  {
    var client := s.clients[c];
    assert Waiting(c, client, s.asked, s.log);
    RegisterWaiting(c, client, s.asked, s.log);
    ClientChanges(s, c, client.(handlers := client.handlers[client.id := client.sending.value], sending := None));
  }

  lemma RegisterWaiting(c: nat, client: ClientState, asked: map<Key, Asked>, log: seq<Call>)
    requires Waiting(c, client, asked, log) && client.sending.Some?
    ensures Waiting(c, client.(handlers := client.handlers[client.id := client.sending.value], sending := None),
                    asked, log)
  {
  }

  // Receiving: the request moves from the network into the server.

  lemma ReceiveKeeps(s: System, server: nat, i: nat)
    requires Inv(s) && Enabled(s, Receive(server, i))
    ensures Inv(Next(s, Receive(server, i)))
  {
    ReceiveConserved(s, server, i);
    WithoutIn(s.requests, i);
    UpdateIn(s.servers, server, s.servers[server].(slot := Some(s.requests[i])));
    assert s.requests[i] in s.requests;
  }

  lemma ReceiveConserved(s: System, server: nat, i: nat)
    requires Conserved(s) && Enabled(s, Receive(server, i))
    ensures Conserved(Next(s, Receive(server, i)))
  {
    var s' := Next(s, Receive(server, i));
    forall key
      ensures Places(s', key) == One(key in s'.asked)
    {
      ReceivePlaces(s, server, i, key);
      assert Places(s, key) == One(key in s.asked);
    }
    SlotsUpdate(s.servers, server, s'.servers[server], Key(0, 0));
  }

  lemma ReceivePlaces(s: System, server: nat, i: nat, key: Key)
    requires Enabled(s, Receive(server, i))
    ensures Places(Next(s, Receive(server, i)), key) == Places(s, key)
  {
    CountWithout(s.requests, i, key);
    SlotsUpdate(s.servers, server, s.servers[server].(slot := Some(s.requests[i])), key);
  }

  // Replying: the reply takes the place of the request.

  lemma ReplyKeeps(s: System, server: nat)
    requires Inv(s) && Enabled(s, Reply(server))
    ensures Inv(Next(s, Reply(server)))
  {
    var packet := s.servers[server].slot.value;
    ReplyConserved(s, server);
    ReplyIsNew(s, server);
    UpdateIn(s.servers, server, s.servers[server].(slot := None));
    assert s.servers[server] in s.servers;
    MadeMore(s, packet, Made(s.servers[server].handlers, Answer(s.servers[server].handlers, packet.body)));
  }

  lemma MadeMore(s: System, packet: Packet, m: Made)
    requires MadeRight(s.made, s.asked) && RepliesRight(s.replies, s.made) && CallsRight(s.log, s.made, s.asked)
    requires CarriesRequest(packet, s.asked) && m.reply == Answer(m.handlers, packet.body)
    requires forall p :: p in s.replies ==> p.key != packet.key
    requires forall e :: e in s.log ==> e.key != packet.key
    ensures var made' := s.made[packet.key := m];
      MadeRight(made', s.asked) && RepliesRight(s.replies + [Packet(packet.key, m.reply)], made') &&
        CallsRight(s.log, made', s.asked)
  {
  }

  lemma ReplyConserved(s: System, server: nat)
    requires Conserved(s) && Enabled(s, Reply(server))
    ensures Conserved(Next(s, Reply(server)))
  {
    var s' := Next(s, Reply(server));
    forall key
      ensures Places(s', key) == One(key in s'.asked)
    {
      ReplyPlaces(s, server, key);
      assert Places(s, key) == One(key in s.asked);
    }
    SlotsUpdate(s.servers, server, s'.servers[server], Key(0, 0));
  }

  lemma ReplyPlaces(s: System, server: nat, key: Key)
    requires Enabled(s, Reply(server))
    ensures Places(Next(s, Reply(server)), key) == Places(s, key)
  {
    var packet := s.servers[server].slot.value;
    CountSnoc(s.replies, Packet(packet.key, Answer(s.servers[server].handlers, packet.body)), key);
    SlotsUpdate(s.servers, server, s.servers[server].(slot := None), key);
  }

  /** A request at a server has no reply on its way and no call behind it. */
  lemma ReplyIsNew(s: System, server: nat)
    requires Conserved(s) && server < |s.servers| && s.servers[server].slot.Some?
    ensures forall p :: p in s.replies ==> p.key != s.servers[server].slot.value.key
    ensures forall e :: e in s.log ==> e.key != s.servers[server].slot.value.key
  {
    var key := s.servers[server].slot.value.key;
    CountSlotsIn(s.servers, server);
    assert Places(s, key) == One(key in s.asked);
    forall p | p in s.replies
      ensures p.key != key
    {
      CountIn(s.replies, p);
    }
    forall e | e in s.log
      ensures e.key != key
    {
      var i :| 0 <= i < |s.log| && s.log[i] == e;
      CountCallsIn(s.log, i);
    }
  }

  // Delivering: the reply ends in a call of its callback.

  /** A reply that reaches a client that is not sending finds its callback. */
  lemma ReplyExpected(s: System, p: Packet)
    requires Inv(s) && p in s.replies && s.clients[p.key.client].sending.None?
    ensures p.key in s.asked && p.key.id in s.clients[p.key.client].handlers
    ensures !Answered(s.log, p.key)
  {
    CountIn(s.replies, p);
    assert Places(s, p.key) == One(p.key in s.asked);
    if j :| 0 <= j < |s.log| && s.log[j].key == p.key {
      CountCallsIn(s.log, j);
    }
    assert Waiting(p.key.client, s.clients[p.key.client], s.asked, s.log);
  }

  lemma DeliverKeeps(s: System, i: nat)
    requires Inv(s) && Enabled(s, Deliver(i))
    ensures Inv(Next(s, Deliver(i)))
  {
    assert s.replies[i] in s.replies;
    ReplyExpected(s, s.replies[i]);
    DeliverConserved(s, i);
    DeliverOthers(s, i);
  }

  lemma DeliverOthers(s: System, i: nat)
    requires Others(s) && Enabled(s, Deliver(i)) && s.replies[i].key.id in s.clients[s.replies[i].key.client].handlers
    ensures Others(Next(s, Deliver(i)))
  {
    var e := Next(s, Deliver(i)).log[|s.log|];
    WithoutIn(s.replies, i);
    DeliverRight(s, i);
    DeliverWaiting(s.clients, s.replies[i].key, s.asked, s.log, e);
    DeliverFields(s, i, e);
  }

  /** The fields that a delivery changes, and those that it keeps. */
  lemma DeliverFields(s: System, i: nat, e: Call)
    requires Enabled(s, Deliver(i)) && s.replies[i].key.id in s.clients[s.replies[i].key.client].handlers
    requires e == Next(s, Deliver(i)).log[|s.log|]
    ensures var s', key := Next(s, Deliver(i)), s.replies[i].key;
      var client := s.clients[key.client];
      var handlers := if e.result == CallReturned then client.handlers - {key.id} else client.handlers;
      s' == s.(replies := Without(s.replies, i), log := s.log + [e],
               clients := s.clients[key.client := client.(handlers := handlers)])
  {
  }

  lemma DeliverRight(s: System, i: nat)
    requires Others(s) && Enabled(s, Deliver(i)) && s.replies[i].key.id in s.clients[s.replies[i].key.client].handlers
    ensures CallsRight(Next(s, Deliver(i)).log, s.made, s.asked)
  {
    var key := s.replies[i].key;
    assert s.replies[i] in s.replies;
    assert Waiting(key.client, s.clients[key.client], s.asked, s.log);
    assert CallRight(Next(s, Deliver(i)).log[|s.log|], s.made, s.asked);
  }

  lemma DeliverConserved(s: System, i: nat)
    requires Conserved(s) && Enabled(s, Deliver(i)) &&
      s.replies[i].key.id in s.clients[s.replies[i].key.client].handlers
    ensures Conserved(Next(s, Deliver(i)))
  {
    var s' := Next(s, Deliver(i));
    forall key
      ensures Places(s', key) == One(key in s'.asked)
    {
      CountWithout(s.replies, i, key);
      CountCallsSnoc(s.log, s'.log[|s.log|], key);
      assert Places(s, key) == One(key in s.asked);
    }
  }

  lemma AnsweredSnoc(log: seq<Call>, e: Call, key: Key)
    ensures Answered(log + [e], key) <==> Answered(log, key) || (e.key == key && e.result == CallReturned)
  {
    if Answered(log, key) {
      var i :| 0 <= i < |log| && log[i].key == key && log[i].result == CallReturned;
      assert (log + [e])[i] == log[i];
    }
    if e.key == key && e.result == CallReturned {
      assert (log + [e])[|log|] == e;
    }
  }

  lemma DeliverWaiting(clients: seq<ClientState>, key: Key, asked: map<Key, Asked>, log: seq<Call>, e: Call)
    requires AllWaiting(clients, asked, log) && key.client < |clients| && e.key == key
    requires clients[key.client].sending.None? && key.id in clients[key.client].handlers
    ensures var client := clients[key.client];
      var handlers := if e.result == CallReturned then client.handlers - {key.id} else client.handlers;
      AllWaiting(clients[key.client := client.(handlers := handlers)], asked, log + [e])
  {
    forall d, id
      ensures Answered(log + [e], Key(d, id)) <==>
        Answered(log, Key(d, id)) || (key == Key(d, id) && e.result == CallReturned)
    {
      AnsweredSnoc(log, e, Key(d, id));
    }
    forall d | 0 <= d < |clients| && d != key.client
      ensures Waiting(d, clients[d], asked, log + [e])
    {
      assert Waiting(d, clients[d], asked, log);
    }
    assert Waiting(key.client, clients[key.client], asked, log);
  }

  // Losing a packet, or changing the handlers of a server.

  lemma LoseKeeps(s: System, step: Step)
    requires Inv(s) && Enabled(s, step) && (step.LoseRequest? || step.LoseReply?)
    ensures Inv(Next(s, step))
  {
    LoseConserved(s, step);
    WithoutIn(if step.LoseRequest? then s.requests else s.replies, step.i);
  }

  lemma LoseConserved(s: System, step: Step)
    requires Conserved(s) && Enabled(s, step) && (step.LoseRequest? || step.LoseReply?)
    ensures Conserved(Next(s, step))
  {
    var s' := Next(s, step);
    forall key
      ensures Places(s', key) == One(key in s'.asked)
    {
      LosePlaces(s, step, key);
      assert Places(s, key) == One(key in s.asked);
    }
  }

  lemma LosePlaces(s: System, step: Step, key: Key)
    requires Enabled(s, step) && (step.LoseRequest? || step.LoseReply?)
    ensures Places(Next(s, step), key) == Places(s, key)
  {
    var ps := if step.LoseRequest? then s.requests else s.replies;
    CountWithout(ps, step.i, key);
    CountSnoc(s.lost, ps[step.i], key);
  }

  lemma SetHandlersKeeps(s: System, server: nat, handlers: map<nat, HandleFunc>)
    requires Inv(s) && Enabled(s, SetHandlers(server, handlers))
    ensures Inv(Next(s, SetHandlers(server, handlers)))
  {
    SetHandlersConserved(s, server, handlers);
    UpdateIn(s.servers, server, s.servers[server].(handlers := handlers));
    assert s.servers[server] in s.servers;
  }

  lemma SetHandlersConserved(s: System, server: nat, handlers: map<nat, HandleFunc>)
    requires Conserved(s) && Enabled(s, SetHandlers(server, handlers))
    ensures Conserved(Next(s, SetHandlers(server, handlers)))
  {
    var s' := Next(s, SetHandlers(server, handlers));
    forall key
      ensures Places(s', key) == One(key in s'.asked)
    {
      SlotsUpdate(s.servers, server, s'.servers[server], key);
      assert Places(s, key) == One(key in s.asked);
    }
    SlotsUpdate(s.servers, server, s'.servers[server], Key(0, 0));
  }

  // ----- runs -----

  lemma CallsGrow(s: System, step: Step)
    requires Enabled(s, step)
    ensures |Next(s, step).clients| == |s.clients|
    ensures forall c :: 0 <= c < |s.clients| ==> s.clients[c].calls <= Next(s, step).clients[c].calls
    ensures (step.Send? || step.SendFails?) ==> Next(s, step).clients[step.c].calls == s.clients[step.c].calls + 1
    ensures IdsLeft(Next(s, step)) ==> IdsLeft(s)
  {
    if IdsLeft(Next(s, step)) {
      forall c | 0 <= c < |s.clients|
        ensures s.clients[c].calls < ID_LIMIT
      {
        assert Next(s, step).clients[c].calls < ID_LIMIT;
      }
    }
  }

  lemma StepKeeps(s: System, step: Step)
    requires Inv(s) && Enabled(s, step) && IdsLeft(Next(s, step))
    ensures Inv(Next(s, step))
  {
    CallsGrow(s, step);
    match step {
      case Send(c, request, func) => SendKeeps(s, c, request, func);
      case SendFails(c) => SendFailsKeeps(s, c);
      case Register(c) => RegisterKeeps(s, c);
      case Deliver(i) => DeliverKeeps(s, i);
      case Receive(server, i) => ReceiveKeeps(s, server, i);
      case Reply(server) => ReplyKeeps(s, server);
      case SetHandlers(server, handlers) => SetHandlersKeeps(s, server, handlers);
      case LoseRequest(_) => LoseKeeps(s, step);
      case LoseReply(_) => LoseKeeps(s, step);
    }
  }

  /** In every state of a run in which no client has used up its ids, the invariant holds. */
  lemma {:induction false} RunKeeps(states: seq<System>, steps: seq<Step>)
    requires Run(states, steps) && IdsLeft(states[|steps|])
    ensures Inv(states[|steps|])
    decreases |steps|
  {
    var n := |steps| - 1;
    if steps == [] {
      InitialInv(states[0]);
    } else {
      var before := states[n];
      CallsGrow(before, steps[n]);
      assert Run(states[..n + 1], steps[..n]);
      RunKeeps(states[..n + 1], steps[..n]);
      StepKeeps(before, steps[n]);
    }
  }

  lemma InitialInv(s: System)
    requires Initial(s)
    ensures Inv(s)
  {
    forall key
      ensures Places(s, key) == One(key in s.asked)
    {
      NoSlots(s.servers, key);
    }
    NoSlots(s.servers, Key(0, 0));
  }

  lemma {:induction false} NoSlots(servers: seq<ServerState>, key: Key)
    requires forall i :: 0 <= i < |servers| ==> servers[i].slot == None
    ensures CountSlots(servers, key) == 0 && Busy(servers) == 0
  {
    if servers != [] {
      NoSlots(servers[..|servers| - 1], key);
    }
  }

  // ----- an example -----

  /** One client asks one server that has no handler. */
  function ExampleStep(k: nat, request: Body, func: ReplyFunc): Step {
    match k
    case 0 => Send(0, request, func)
    case 1 => Register(0)
    case 2 => Receive(0, 0)
    case 3 => Reply(0)
    case _ => Deliver(0)
  }

  function ExampleState(k: nat, request: Body, func: ReplyFunc): System {
    var key := Key(0, 1);
    var asked, made := map[key := Asked(request, func)], map[key := Made(map[], ZERO)];
    var client, server := ClientState(1, map[1 := func], None, 1), ServerState(map[], None);
    match k
    case 0 => System([ClientState(0, map[], None, 0)], [server], [], [], map[], map[], [], [], 0)
    case 1 => System([ClientState(1, map[], Some(func), 1)], [server], [Packet(key, request)], [], asked, map[],
                     [], [], 0)
    case 2 => System([client], [server], [Packet(key, request)], [], asked, map[], [], [], 0)
    case 3 => System([client], [ServerState(map[], Some(Packet(key, request)))], [], [], asked, map[], [], [], 0)
    case 4 => System([client], [server], [], [Packet(key, ZERO)], asked, made, [], [], 0)
    case _ =>
      var result := func(ZERO);
      System([client.(handlers := if result == CallReturned then map[] else client.handlers)], [server], [], [],
             asked, made, [Call(key, func, ZERO, result)], [], 0)
  }

  lemma ExampleSend(request: Body, func: ReplyFunc)
    ensures Enabled(ExampleState(0, request, func), ExampleStep(0, request, func))
    ensures Next(ExampleState(0, request, func), ExampleStep(0, request, func)) == ExampleState(1, request, func)
  {
  }

  lemma ExampleRegister(request: Body, func: ReplyFunc)
    ensures Enabled(ExampleState(1, request, func), ExampleStep(1, request, func))
    ensures Next(ExampleState(1, request, func), ExampleStep(1, request, func)) == ExampleState(2, request, func)
  {
  }

  lemma ExampleReceive(request: Body, func: ReplyFunc)
    ensures Enabled(ExampleState(2, request, func), ExampleStep(2, request, func))
    ensures Next(ExampleState(2, request, func), ExampleStep(2, request, func)) == ExampleState(3, request, func)
  {
  }

  lemma ExampleReply(request: Body, func: ReplyFunc)
    ensures Enabled(ExampleState(3, request, func), ExampleStep(3, request, func))
    ensures Next(ExampleState(3, request, func), ExampleStep(3, request, func)) == ExampleState(4, request, func)
  {
  }

  lemma ExampleDeliver(request: Body, func: ReplyFunc)
    ensures Enabled(ExampleState(4, request, func), ExampleStep(4, request, func))
    ensures Next(ExampleState(4, request, func), ExampleStep(4, request, func)) == ExampleState(5, request, func)
  {
    assert ExampleState(4, request, func).clients[0].handlers - {1} == map[];
  }

  lemma ExampleNext(k: nat, request: Body, func: ReplyFunc)
    requires k < 5
    ensures Enabled(ExampleState(k, request, func), ExampleStep(k, request, func))
    ensures Next(ExampleState(k, request, func), ExampleStep(k, request, func)) == ExampleState(k + 1, request, func)
  {
    match k {
      case 0 => ExampleSend(request, func);
      case 1 => ExampleRegister(request, func);
      case 2 => ExampleReceive(request, func);
      case 3 => ExampleReply(request, func);
      case 4 => ExampleDeliver(request, func);
    }
  }

  /** The callback runs once, with the zero reply. */
  lemma ExampleRun(request: Body, func: ReplyFunc) returns (states: seq<System>, steps: seq<Step>)
    ensures Run(states, steps) && IdsLeft(states[|steps|])
    ensures states[|steps|].log == [Call(Key(0, 1), func, ZERO, func(ZERO))]
  {
    steps := seq(5, k requires 0 <= k < 5 => ExampleStep(k, request, func));
    states := seq(6, k requires 0 <= k < 6 => ExampleState(k, request, func));
    forall k | 0 <= k < 5
      ensures Enabled(states[k], steps[k]) && states[k + 1] == Next(states[k], steps[k])
    {
      ExampleNext(k, request, func);
    }
  }

  // ----- which step did what -----

  /** The first `n` steps of a run are a run. */
  lemma {:induction false} RunPrefix(states: seq<System>, steps: seq<Step>, n: nat)
    requires Run(states, steps) && IdsLeft(states[|steps|]) && n <= |steps|
    ensures Run(states[..n + 1], steps[..n]) && IdsLeft(states[n])
    decreases |steps| - n
  {
    assert forall i :: 0 <= i < n ==> steps[..n][i] == steps[i];
    if n < |steps| {
      RunPrefix(states, steps, n + 1);
      assert states[n + 1] == Next(states[n], steps[n]);
      CallsGrow(states[n], steps[n]);
    }
  }

  lemma InvInRun(states: seq<System>, steps: seq<Step>, n: nat)
    requires Run(states, steps) && IdsLeft(states[|steps|]) && n <= |steps|
    ensures Inv(states[n])
  {
    RunPrefix(states, steps, n);
    RunKeeps(states[..n + 1], steps[..n]);
  }

  /** Step `i` sent the request that is known by `key`. */
  ghost predicate SentAt(states: seq<System>, steps: seq<Step>, i: nat, key: Key, request: Body, func: ReplyFunc) {
    && i < |steps| && i + 1 < |states| && steps[i] == Send(key.client, request, func)
    && key.client < |states[i + 1].clients| && states[i + 1].clients[key.client].id == key.id
  }

  /** In step `j` a server replied to the request that is known by `key`. */
  predicate RepliesTo(states: seq<System>, steps: seq<Step>, j: nat, key: Key) {
    && j < |steps| && j < |states| && steps[j].Reply? && steps[j].server < |states[j].servers|
    && Holds(states[j].servers[steps[j].server], key)
  }

  /** It had the request `request`, and `reply` is the answer of the handlers that it had then. */
  ghost predicate RepliedAt(states: seq<System>, steps: seq<Step>, j: nat, key: Key, request: Body, reply: Body) {
    && RepliesTo(states, steps, j, key)
    && states[j].servers[steps[j].server].slot == Some(Packet(key, request))
    && reply == Answer(states[j].servers[steps[j].server].handlers, request)
  }

  lemma SendIsNew(s: System, c: nat, request: Body, func: ReplyFunc)
    requires Inv(s) && Enabled(s, Send(c, request, func)) && IdsLeft(Next(s, Send(c, request, func)))
    ensures var key, s' := Key(c, s.clients[c].id + 1), Next(s, Send(c, request, func));
      && key !in s.asked && s'.asked == s.asked[key := Asked(request, func)]
      && s'.requests == s.requests + [Packet(key, request)] && s'.servers == s.servers && s'.clients[c].id == key.id
  {
    CallsLeft(s, c, request, func);
    IdIsCalls(s, c);
    NextKeyNew(s, c);
    SendFieldsAre(s, c, request, func);
  }

  lemma NextKeyNew(s: System, c: nat)
    requires Others(s) && c < |s.clients|
    ensures Key(c, s.clients[c].id + 1) !in s.asked
  {
  }

  lemma SendFieldsAre(s: System, c: nat, request: Body, func: ReplyFunc)
    requires Enabled(s, Send(c, request, func)) && s.clients[c].id + 1 < ID_LIMIT
    ensures var key, s' := Key(c, s.clients[c].id + 1), Next(s, Send(c, request, func));
      && s'.asked == s.asked[key := Asked(request, func)]
      && s'.requests == s.requests + [Packet(key, request)] && s'.servers == s.servers && s'.clients[c].id == key.id
  {
    SendFields(s, c, request, func);
  }

  lemma CallsLeft(s: System, c: nat, request: Body, func: ReplyFunc)
    requires Enabled(s, Send(c, request, func)) && IdsLeft(Next(s, Send(c, request, func)))
    ensures s.clients[c].calls + 1 < ID_LIMIT
  {
    assert Next(s, Send(c, request, func)).clients[c].calls < ID_LIMIT;
  }

  /** What a step asks is new; what was asked before stays. */
  lemma AskedStep(s: System, step: Step, key: Key)
    requires Inv(s) && Enabled(s, step) && IdsLeft(Next(s, step))
    ensures key in s.asked ==> key in Next(s, step).asked && Next(s, step).asked[key] == s.asked[key]
    ensures key !in s.asked && key in Next(s, step).asked ==>
      step == Send(key.client, Next(s, step).asked[key].request, Next(s, step).asked[key].func) &&
      key.client < |Next(s, step).clients| && Next(s, step).clients[key.client].id == key.id
  {
    if step.Send? {
      SendIsNew(s, step.c, step.request, step.func);
    }
  }

  /** How often a request is still in front of its reply. */
  function Ahead(s: System, key: Key): nat {
    Count(s.requests, key) + CountSlots(s.servers, key)
  }

  lemma AheadShrinks(s: System, step: Step, key: Key)
    requires Inv(s) && Enabled(s, step) && IdsLeft(Next(s, step)) && key in s.asked
    ensures Ahead(Next(s, step), key) <= Ahead(s, key)
  {
    match step {
      case Send(c, request, func) =>
        SendIsNew(s, c, request, func);
        CountSnoc(s.requests, Packet(Key(c, s.clients[c].id + 1), request), key);
      case Receive(server, i) => ReceiveAhead(s, server, i, key);
      case Reply(server) => SlotsUpdate(s.servers, server, s.servers[server].(slot := None), key);
      case SetHandlers(server, handlers) => SlotsUpdate(s.servers, server, s.servers[server].(handlers := handlers),
        key);
      case LoseRequest(i) => CountWithout(s.requests, i, key);
      case SendFails(_) =>
      case Register(_) =>
      case Deliver(_) =>
      case LoseReply(_) =>
    }
  }

  lemma ReceiveAhead(s: System, server: nat, i: nat, key: Key)
    requires Enabled(s, Receive(server, i))
    ensures Ahead(Next(s, Receive(server, i)), key) == Ahead(s, key)
  {
    CountWithout(s.requests, i, key);
    SlotsUpdate(s.servers, server, s.servers[server].(slot := Some(s.requests[i])), key);
  }

  /** What was asked stays asked, and moves only forward. */
  lemma {:induction false} LaterInRun(states: seq<System>, steps: seq<Step>, i: nat, key: Key)
    requires Run(states, steps) && IdsLeft(states[|steps|]) && i <= |steps| && key in states[i].asked
    ensures key in states[|steps|].asked && states[|steps|].asked[key] == states[i].asked[key]
    ensures Ahead(states[|steps|], key) <= Ahead(states[i], key)
    decreases |steps|
  {
    var n := |steps| - 1;
    if i <= n {
      RunPrefix(states, steps, n);
      LaterInRun(states[..n + 1], steps[..n], i, key);
      InvInRun(states, steps, n);
      assert states[n + 1] == Next(states[n], steps[n]);
      AskedStep(states[n], steps[n], key);
      AheadShrinks(states[n], steps[n], key);
    }
  }

  /** What is asked was sent in some step. */
  lemma {:induction false} AskedInRun(states: seq<System>, steps: seq<Step>, key: Key) returns (i: nat)
    requires Run(states, steps) && IdsLeft(states[|steps|]) && key in states[|steps|].asked
    ensures SentAt(states, steps, i, key, states[|steps|].asked[key].request, states[|steps|].asked[key].func)
    decreases |steps|
  {
    var n := |steps| - 1;
    RunPrefix(states, steps, n);
    InvInRun(states, steps, n);
    assert states[n + 1] == Next(states[n], steps[n]);
    AskedStep(states[n], steps[n], key);
    if key in states[n].asked {
      i := AskedInRun(states[..n + 1], steps[..n], key);
    } else {
      i := n;
    }
  }

  lemma MadeStep(s: System, step: Step, key: Key)
    requires Enabled(s, step) && key in Next(s, step).made && !(step.Reply? && Holds(s.servers[step.server], key))
    ensures key in s.made && s.made[key] == Next(s, step).made[key]
  {
  }

  /** What is made was replied in some step. */
  lemma {:induction false} MadeInRun(states: seq<System>, steps: seq<Step>, key: Key) returns (j: nat)
    requires Run(states, steps) && IdsLeft(states[|steps|])
    requires key in states[|steps|].made && key in states[|steps|].asked
    ensures RepliedAt(states, steps, j, key, states[|steps|].asked[key].request, states[|steps|].made[key].reply)
    decreases |steps|
  {
    var n := |steps| - 1;
    RunPrefix(states, steps, n);
    InvInRun(states, steps, n);
    var before := states[n];
    assert states[n + 1] == Next(before, steps[n]);
    AskedStep(before, steps[n], key);
    if RepliesTo(states, steps, n, key) {
      j := n;
      assert before.servers[steps[n].server] in before.servers;
    } else {
      MadeStep(before, steps[n], key);
      j := MadeInRun(states[..n + 1], steps[..n], key);
    }
  }

  /** A request is replied to in at most one step. */
  lemma RepliedOnce(states: seq<System>, steps: seq<Step>, j: nat, k: nat, key: Key)
    requires Run(states, steps) && IdsLeft(states[|steps|])
    requires RepliesTo(states, steps, j, key) && RepliesTo(states, steps, k, key)
    ensures j == k
  {
    if j < k {
      NoSecondReply(states, steps, j, k, key);
    } else if k < j {
      NoSecondReply(states, steps, k, j, key);
    }
  }

  lemma NoSecondReply(states: seq<System>, steps: seq<Step>, j: nat, k: nat, key: Key)
    requires Run(states, steps) && IdsLeft(states[|steps|]) && j < k < |steps|
    requires RepliesTo(states, steps, j, key)
    ensures !RepliesTo(states, steps, k, key)
  {
    Cleared(states, steps, j, key);
    RunPrefix(states, steps, k);
    LaterInRun(states[..k + 1], steps[..k], j + 1, key);
    HeldIsAhead(states[k], key);
  }

  lemma HeldIsAhead(s: System, key: Key)
    ensures Ahead(s, key) == 0 ==> forall server :: 0 <= server < |s.servers| ==> !Holds(s.servers[server], key)
  {
    forall server | 0 <= server < |s.servers| && Holds(s.servers[server], key)
      ensures Ahead(s, key) > 0
    {
      CountSlotsIn(s.servers, server);
    }
  }

  lemma Cleared(states: seq<System>, steps: seq<Step>, j: nat, key: Key)
    requires Run(states, steps) && IdsLeft(states[|steps|]) && RepliesTo(states, steps, j, key)
    ensures key in states[j + 1].asked && Ahead(states[j + 1], key) == 0
  {
    StepInRun(states, steps, j);
    ConservedInRun(states, steps, j + 1);
    GoneAfterReply(states[j], states[j + 1], steps[j].server, key);
  }

  lemma StepInRun(states: seq<System>, steps: seq<Step>, j: nat)
    requires Run(states, steps) && j < |steps|
    ensures Enabled(states[j], steps[j]) && states[j + 1] == Next(states[j], steps[j])
  {
  }

  lemma ConservedInRun(states: seq<System>, steps: seq<Step>, n: nat)
    requires Run(states, steps) && IdsLeft(states[|steps|]) && n <= |steps|
    ensures Conserved(states[n])
  {
    InvInRun(states, steps, n);
  }

  lemma GoneAfterReply(s: System, s': System, server: nat, key: Key)
    requires Enabled(s, Reply(server)) && Holds(s.servers[server], key) && s' == Next(s, Reply(server)) && Conserved(s')
    ensures key in s'.asked && Ahead(s', key) == 0
  {
    CountIn(s'.replies, s'.replies[|s.replies|]);
    assert Places(s', key) == One(key in s'.asked);
  }

  /** Some step sent the request of this call, and a later one replied to exactly that request. */
  ghost predicate GotOwnReply(states: seq<System>, steps: seq<Step>, e: Call) {
    exists request, i: nat, j: nat ::
      i < j && SentAt(states, steps, i, e.key, request, e.func) && RepliedAt(states, steps, j, e.key, request, e.reply)
  }

  /** A callback runs at most once. It is the callback of a request that some step sent, and it gets the
      reply that a server made in a later step, with the handlers it had then, for exactly that request. */
  lemma AtMostOnce(states: seq<System>, steps: seq<Step>)
    requires Run(states, steps) && IdsLeft(states[|steps|])
    ensures var s := states[|steps|];
      forall i, j :: 0 <= i < j < |s.log| ==> s.log[i].key != s.log[j].key
    ensures var s := states[|steps|];
      forall e :: e in s.log ==> GotOwnReply(states, steps, e)
  {
    var s := states[|steps|];
    RunKeeps(states, steps);
    forall i, j | 0 <= i < j < |s.log|
      ensures s.log[i].key != s.log[j].key
    {
      CountCallsIn(s.log, i);
      assert Places(s, s.log[i].key) == One(s.log[i].key in s.asked);
    }
    forall e | e in s.log
      ensures GotOwnReply(states, steps, e)
    {
      var i, j := OwnReply(states, steps, e);
    }
  }

  lemma OwnReply(states: seq<System>, steps: seq<Step>, e: Call) returns (i: nat, j: nat)
    requires Run(states, steps) && IdsLeft(states[|steps|]) && e in states[|steps|].log
    ensures e.key in states[|steps|].asked && i < j
    ensures SentAt(states, steps, i, e.key, states[|steps|].asked[e.key].request, e.func)
    ensures RepliedAt(states, steps, j, e.key, states[|steps|].asked[e.key].request, e.reply)
  {
    RunKeeps(states, steps);
    assert CallRight(e, states[|steps|].made, states[|steps|].asked);
    j := MadeInRun(states, steps, e.key);
    RunPrefix(states, steps, j);
    InvInRun(states, steps, j);
    assert states[j].servers[steps[j].server] in states[j].servers;
    i := AskedInRun(states[..j + 1], steps[..j], e.key);
    LaterInRun(states, steps, j, e.key);
  }

  /** No reply comes unrequested, and every request is on its way, at a server, on its way back,
      delivered or lost. */
  lemma NothingVanishes(states: seq<System>, steps: seq<Step>)
    requires Run(states, steps) && IdsLeft(states[|steps|])
    ensures var s := states[|steps|];
      s.unrequested == 0 && |s.asked| == |s.requests| + Busy(s.servers) + |s.replies| + |s.log| + |s.lost|
  {
    RunKeeps(states, steps);
  }

  /** The ids of the requests of a client, and of those whose callback has returned. */
  ghost function AskedIds(s: System, c: nat): set<nat> {
    set k | k in s.asked && k.client == c :: k.id
  }

  ghost function AnsweredIds(s: System, c: nat): set<nat> {
    set e | e in s.log && e.key.client == c && e.result == CallReturned :: e.key.id
  }

  /** Between its calls a client has a pending handler for exactly its unanswered requests. */
  lemma PendingIsUnanswered(states: seq<System>, steps: seq<Step>, c: nat)
    requires Run(states, steps) && IdsLeft(states[|steps|])
    requires c < |states[|steps|].clients| && states[|steps|].clients[c].sending.None?
    ensures var s := states[|steps|];
      s.clients[c].handlers.Keys == AskedIds(s, c) - AnsweredIds(s, c) &&
      |s.clients[c].handlers| == |AskedIds(s, c)| - |AnsweredIds(s, c)|
  {
    var s := states[|steps|];
    RunKeeps(states, steps);
    assert Waiting(c, s.clients[c], s.asked, s.log);
    forall id
      ensures id in AskedIds(s, c) <==> Key(c, id) in s.asked
      ensures id in AnsweredIds(s, c) <==> Answered(s.log, Key(c, id))
      ensures id in AnsweredIds(s, c) ==> id in AskedIds(s, c)
    {
      if id in AnsweredIds(s, c) {
        var e :| e in s.log && e.key.client == c && e.result == CallReturned && e.key.id == id;
        assert e.key == Key(c, id) && CallRight(e, s.made, s.asked);
      }
      if Answered(s.log, Key(c, id)) {
        var i :| 0 <= i < |s.log| && s.log[i].key == Key(c, id) && s.log[i].result == CallReturned;
        assert s.log[i] in s.log;
      }
    }
    assert s.clients[c].handlers.Keys == AskedIds(s, c) - AnsweredIds(s, c);
    assert AnsweredIds(s, c) <= AskedIds(s, c);
  }
}

/** Requests and replies: the client and the server object. */
module RequestReply {
  import opened OrderedMap
  import opened Frames

  const ID_LIMIT: nat := 0x1_0000_0000_0000_0000

  type uint128 = n: nat | n < 0x1_0000_0000_0000_0000_0000_0000_0000_0000

  /** A request or reply without its envelope: an identifier and perhaps a payload. */
  datatype Body = Body(id: uint128, payload: Option<string>)

  /** The reply when there is no handler or when the handler throws. */
  const ZERO := Body(0, None)

  /** `ReplyData`: a pointer, which may be null, and a size. */
  datatype HandlerResult = Replied(id: uint128, isNull: bool, bytes: string) | HandlerThrew

  datatype CallResult = CallReturned | CallThrew

  type HandleFunc = Option<string> -> HandlerResult

  type ReplyFunc = Body -> CallResult

  /** A payload travels only if there is a pointer and a size. */
  function Payload(isNull: bool, bytes: string): Option<string> {
    if !isNull && bytes != "" then Some(bytes) else None
  }

  /** The reply of a server to a request. */
  function Answer(handlers: map<nat, HandleFunc>, request: Body): Body {
    if request.id !in handlers then ZERO
    else
      match handlers[request.id](request.payload)
      case Replied(id, isNull, bytes) => Body(id, Payload(isNull, bytes))
      case HandlerThrew => ZERO
  }

  function NextId(id: nat): (r: nat)
    ensures r < ID_LIMIT
    ensures id < 0x1_0000_0000_0000_0000 ==> r == if id == 0xFFFF_FFFF_FFFF_FFFF then 0 else id + 1
  {
    (id + 1) % ID_LIMIT
  }

  /** A reply behind its envelope, the id that the client gave to the request. */
  datatype Message = Message(id: nat, body: Body)

  datatype Processed = NothingThere | Unrequested(id: nat) | Called(result: CallResult)

  /** What a client does with a reply: it calls the handler and forgets it; when the call throws, the
      handler stays. A reply without a handler is an error. */
  function HandleReply(handlers: map<nat, ReplyFunc>, message: Message): (Processed, map<nat, ReplyFunc>) {
    if message.id !in handlers then (Unrequested(message.id), handlers)
    else
      var result := handlers[message.id](message.body);
      (Called(result), if result == CallReturned then handlers - {message.id} else handlers)
  }

  // ----- messages in frames -----

  /** An identifier, flagged when a payload follows, and the payload. */
  function BodyFrames(body: Body): seq<Frame> {
    [Frame(Bytes(body.id, REQUEST_ID_SIZE), body.payload.Some?)] +
    if body.payload.Some? then [Frame(body.payload.value, false)] else []
  }

  /** The id of the client and the delimiter in front. */
  function MessageFrames(message: Message): seq<Frame> {
    [Frame(Bytes(message.id, ID_SIZE), true), Frame("", true)] + BodyFrames(message.body)
  }

  lemma Limits()
    ensures Pow256(ID_SIZE) == ID_LIMIT
    ensures Pow256(REQUEST_ID_SIZE) == 0x1_0000_0000_0000_0000_0000_0000_0000_0000
  {
    assert Pow256(4) == 0x1_0000_0000;
    assert Pow256(8) == 0x1_0000_0000 * Pow256(4);
    assert Pow256(12) == 0x1_0000_0000 * Pow256(8);
    assert Pow256(16) == 0x1_0000_0000 * Pow256(12);
  }

  /** The identifier in a frame of its size; `other` stands in when the size is wrong. */
  function RequestIdIn(frame: Frame, other: uint128): uint128 {
    Limits();
    if |frame.bytes| == REQUEST_ID_SIZE then Number(frame.bytes) else other
  }

  lemma IdsRoundTrip(id: nat, requestID: uint128, more: bool)
    ensures id < ID_LIMIT ==> Number(Bytes(id, ID_SIZE)) == id
    ensures RequestIdIn(Frame(Bytes(requestID, REQUEST_ID_SIZE), more), 0) == requestID
  {
    Limits();
    NumberOfBytes(requestID, REQUEST_ID_SIZE);
    if id < ID_LIMIT {
      NumberOfBytes(id, ID_SIZE);
    }
  }

  /** A request is one message, and so is a reply. The second frame of a reply is there exactly with a payload. */
  lemma FramesComplete(message: Message)
    ensures Complete(BodyFrames(message.body)) && Complete(MessageFrames(message))
    ensures |BodyFrames(message.body)| == if message.body.payload.Some? then 2 else 1
  {
  }

  /** What a server receives in front of what waits behind it. */
  function ReceivedBody(inbox: seq<Frame>): (Body, seq<Frame>)
    requires inbox != [] && Whole(inbox)
  {
    var id := RequestIdIn(inbox[0], 0);
    if inbox[0].more then (Body(id, Some(inbox[1].bytes)), inbox[2..]) else (Body(id, None), inbox[1..])
  }

  /** What a client receives: no message if an id or delimiter comes alone. `unset` stands for an id that
      was not received, because the frame has another size. */
  function ReceivedMessage(inbox: seq<Frame>, unset: nat): (Option<Message>, seq<Frame>)
    requires Whole(inbox)
  {
    if inbox == [] then (None, [])
    else if !inbox[0].more then (None, inbox[1..])
    else if !inbox[1].more then (None, inbox[2..])
    else
      var id := if |inbox[0].bytes| == ID_SIZE then Number(inbox[0].bytes) else unset;
      var (body, rest) := ReceivedBody(inbox[2..]);
      (Some(Message(id, body)), rest)
  }

  lemma WholeBehind(frames: seq<Frame>, rest: seq<Frame>)
    requires Complete(frames) && Whole(rest)
    ensures Whole(frames + rest)
  {
  }

  /** A request or reply arrives as it was sent. */
  lemma BodyArrives(body: Body, rest: seq<Frame>)
    requires Whole(rest)
    ensures Whole(BodyFrames(body) + rest) && ReceivedBody(BodyFrames(body) + rest) == (body, rest)
  {
    FramesComplete(Message(0, body));
    WholeBehind(BodyFrames(body), rest);
    IdsRoundTrip(0, body.id, body.payload.Some?);
  }

  lemma MessageArrives(message: Message, rest: seq<Frame>, unset: nat)
    requires Whole(rest) && message.id < ID_LIMIT
    ensures Whole(MessageFrames(message) + rest)
    ensures ReceivedMessage(MessageFrames(message) + rest, unset) == (Some(message), rest)
  {
    FramesComplete(message);
    WholeBehind(MessageFrames(message), rest);
    IdsRoundTrip(message.id, message.body.id, message.body.payload.Some?);
    BodyArrives(message.body, rest);
    MessageParts(message, rest);
  }

  lemma MessageParts(message: Message, rest: seq<Frame>)
    ensures var inbox := MessageFrames(message) + rest;
      && |inbox| >= 3 && inbox[0] == Frame(Bytes(message.id, ID_SIZE), true) && inbox[1] == Frame("", true)
      && inbox[2..] == BodyFrames(message.body) + rest
  {
  }

  /** The round trip: behind the envelope the server finds the request as it was sent, and what it sends
      back behind the same envelope is its reply, under the id of the request. */
  lemma Exchange(message: Message, reply: Body, waiting: seq<Frame>, behind: seq<Frame>, unset: nat)
    requires message.id < ID_LIMIT && Whole(waiting) && Whole(behind)
    ensures var arrived := Contents(MessageFrames(message)) + waiting;
      Whole(arrived) && arrived != [] && ReceivedBody(arrived) == (message.body, waiting)
    ensures var back := Envelope(MessageFrames(message)) + BodyFrames(reply) + behind;
      Whole(back) && ReceivedMessage(back, unset) == (Some(Message(message.id, reply)), behind)
  {
    var frames := MessageFrames(message);
    assert frames[0].bytes != "" && frames[1..][0] == Frame("", true);
    assert Contents(frames) == Contents(frames[1..]) == frames[1..][1..] == BodyFrames(message.body);
    assert Envelope(frames) == [frames[0]] + Envelope(frames[1..]) == [frames[0], frames[1]];
    BodyArrives(message.body, waiting);
    MessageArrives(Message(message.id, reply), behind, unset);
    assert Envelope(frames) + BodyFrames(reply) == MessageFrames(Message(message.id, reply));
  }

  // ----- the two objects -----

  class Client {
    var id: nat
    var handlers: map<nat, ReplyFunc>
    // What the socket has taken, and what waits there to be received.
    var outbox: seq<Frame>
    var inbox: seq<Frame>

    constructor ()
      ensures id == 0 && handlers == map[] && outbox == inbox == []
    {
      id, handlers, outbox, inbox := 0, map[], [], [];
    }

    /** `_send`: the socket takes the frame or reports an error. */
    method SendFrame(frame: Frame, accepted: bool) returns (ok: bool)
      modifies this`outbox
      ensures ok == accepted && outbox == if accepted then old(outbox) + [frame] else old(outbox)
    {
      if accepted {
        outbox := outbox + [frame];
      }
      return accepted;
    }

    /** `accepts` says of every frame whether the socket takes it. The first refusal ends the call, and
        the handler is stored only behind the last frame. */
    method Request(requestID: uint128, isNull: bool, bytes: string, func: ReplyFunc, accepts: nat -> bool)
      returns (ok: bool)
      modifies this
      ensures inbox == old(inbox) && id == NextId(old(id))
      ensures var frames := MessageFrames(Message(id, Body(requestID, Payload(isNull, bytes))));
        outbox == old(outbox) + Taken(frames, accepts) && (ok <==> Taken(frames, accepts) == frames)
      ensures handlers == if ok then old(handlers)[id := func] else old(handlers)
    {
      var hasPayload := !isNull && bytes != "";
      id := NextId(id);
      ghost var frames := MessageFrames(Message(id, Body(requestID, Payload(isNull, bytes))));
      FramesComplete(Message(id, Body(requestID, Payload(isNull, bytes))));
      TakenPrefix(frames, accepts);
      ok := SendFrame(Frame(Bytes(id, ID_SIZE), true), accepts(0));
      if ok {
        ok := SendFrame(Frame("", true), accepts(1));
      }
      if ok {
        ok := SendFrame(Frame(Bytes(requestID, REQUEST_ID_SIZE), hasPayload), accepts(2));
      }
      if !ok {
        return false;
      }
      if hasPayload {
        ok := SendFrame(Frame(bytes, false), accepts(3));
        if !ok {
          return false;
        }
      }
      handlers := handlers[id := func];
      ok := true;
    }

    /** `_recv`: the bytes if there is a frame and it has the wanted size, and whether more follow. */
    method ReceiveFrame(size: nat) returns (bytes: Option<string>, more: bool)
      modifies this`inbox
      ensures old(inbox) == [] ==> inbox == [] && bytes == None && !more
      ensures old(inbox) != [] ==> inbox == old(inbox)[1..] && more == old(inbox)[0].more
      ensures old(inbox) != [] ==> bytes == if |old(inbox)[0].bytes| == size then Some(old(inbox)[0].bytes) else None
    {
      if inbox == [] {
        return None, false;
      }
      var frame := inbox[0];
      inbox := inbox[1..];
      return if |frame.bytes| == size then Some(frame.bytes) else None, frame.more;
    }

    /** Receives the next reply, if there is one, and hands it to its handler. */
    method Process(unset: nat) returns (r: Processed)
      requires Whole(inbox)
      modifies this`handlers, this`inbox
      ensures inbox == ReceivedMessage(old(inbox), unset).1
      ensures (r, handlers) ==
        match ReceivedMessage(old(inbox), unset).0
        case None => (NothingThere, old(handlers))
        case Some(message) => HandleReply(old(handlers), message)
    {
      ghost var waiting := inbox;
      var idBytes, more := ReceiveFrame(ID_SIZE);
      if !more {
        return NothingThere;
      }
      var _, more' := ReceiveFrame(0);
      if !more' {
        return NothingThere;
      }
      var id := if idBytes.Some? then Number(idBytes.value) else unset;
      assert inbox == waiting[2..];
      var replyID := RequestIdIn(inbox[0], 0);
      var _, payload := ReceiveFrame(REQUEST_ID_SIZE);
      var data := None;
      if payload {
        data := Some(inbox[0].bytes);
        inbox := inbox[1..];
      }
      if id !in handlers {
        return Unrequested(id);
      }
      var result := handlers[id](Body(replyID, data));
      if result == CallReturned {
        handlers := handlers - {id};
      }
      return Called(result);
    }
  }

  /** What a server sends back, frame by frame: the zero identifier alone when there is no handler or the
      handler throws, else the identifier and, exactly with a pointer and a size, the data behind it. */
  predicate RepliesWith(handlers: map<nat, HandleFunc>, request: Body, sent: seq<Frame>) {
    if request.id !in handlers || handlers[request.id](request.payload).HandlerThrew? then
      sent == [Frame(Bytes(0, REQUEST_ID_SIZE), false)]
    else
      var reply := handlers[request.id](request.payload);
      var hasReplyData := !reply.isNull && |reply.bytes| > 0;
      && |sent| == (if hasReplyData then 2 else 1)
      && sent[0] == Frame(Bytes(reply.id, REQUEST_ID_SIZE), hasReplyData)
      && (hasReplyData ==> sent[1] == Frame(reply.bytes, false))
  }

  /** These frames are the frames of `Answer`, and they are one message. */
  lemma RepliesWithAnswer(handlers: map<nat, HandleFunc>, request: Body, sent: seq<Frame>)
    ensures RepliesWith(handlers, request, sent) <==> sent == BodyFrames(Answer(handlers, request))
    ensures RepliesWith(handlers, request, sent) ==> Complete(sent)
  {
    var frames := BodyFrames(Answer(handlers, request));
    FramesComplete(Message(0, Answer(handlers, request)));
    if RepliesWith(handlers, request, sent) {
      assert |sent| == |frames| && forall i :: 0 <= i < |frames| ==> sent[i] == frames[i];
    }
  }

  class Server {
    var handlers: map<nat, HandleFunc>
    // What waits at the reply socket, without envelope, and what it has taken.
    var inbox: seq<Frame>
    var outbox: seq<Frame>

    constructor ()
      ensures handlers == map[] && inbox == outbox == []
    {
      handlers, inbox, outbox := map[], [], [];
    }

    method Handle(request: nat, func: HandleFunc) returns (ok: bool)
      modifies this`handlers
      ensures ok == (request !in old(handlers))
      ensures handlers == if ok then old(handlers)[request := func] else old(handlers)
    {
      if request in handlers {
        return false;
      }
      handlers := handlers[request := func];
      return true;
    }

    method Remove(request: nat) returns (ok: bool)
      modifies this`handlers
      ensures ok == (request in old(handlers)) && handlers == old(handlers) - {request}
    {
      ok := request in handlers;
      handlers := handlers - {request};
    }

    method SendFrame(frame: Frame, accepted: bool) returns (ok: bool)
      modifies this`outbox
      ensures ok == accepted && outbox == if accepted then old(outbox) + [frame] else old(outbox)
    {
      if accepted {
        outbox := outbox + [frame];
      }
      return accepted;
    }

    /** Receives one request and sends one reply. It throws, before it answers, on an identifier of the
        wrong size. When the socket takes all frames, exactly one whole message is sent. */
    method Process(accepts: nat -> bool) returns (ok: bool)
      requires inbox != [] && Whole(inbox)
      modifies this`inbox, this`outbox
      ensures ok <==> |old(inbox)[0].bytes| == REQUEST_ID_SIZE
      ensures !ok ==> outbox == old(outbox) && inbox == old(inbox)[1..]
      ensures ok ==> inbox == ReceivedBody(old(inbox)).1
      ensures ok ==>
        outbox == old(outbox) + Taken(BodyFrames(Answer(handlers, ReceivedBody(old(inbox)).0)), accepts)
      ensures ok && accepts(0) && accepts(1) ==>
        var sent := outbox[|old(outbox)|..];
        outbox == old(outbox) + sent && Complete(sent) && RepliesWith(handlers, ReceivedBody(old(inbox)).0, sent)
    {
      var frame := inbox[0];
      ghost var waiting := inbox;
      inbox := inbox[1..];
      if |frame.bytes| != REQUEST_ID_SIZE {
        return false;
      }
      var requestID := RequestIdIn(frame, 0);
      var payload := None;
      if frame.more {
        payload := Some(inbox[0].bytes);
        inbox := inbox[1..];
      }
      ghost var sent := SendReply(Body(requestID, payload), accepts);
      assert ReceivedBody(waiting) == (Body(requestID, payload), inbox);
      if accepts(0) && accepts(1) {
        AllTaken(BodyFrames(Answer(handlers, Body(requestID, payload))), accepts, 0);
        RepliesWithAnswer(handlers, Body(requestID, payload), sent);
        assert outbox[|old(outbox)|..] == sent;
      }
      ok := true;
    }

    /** Looks up the handler, calls it and sends what comes back; a handler that throws sends nothing of its own. */
    method SendReply(request: Body, accepts: nat -> bool) returns (ghost sent: seq<Frame>)
      modifies this`outbox
      ensures outbox == old(outbox) + sent && sent == Taken(BodyFrames(Answer(handlers, request)), accepts)
    {
      TakenReply(BodyFrames(Answer(handlers, request)), accepts);
      sent := Taken(BodyFrames(Answer(handlers, request)), accepts);
      if request.id !in handlers {
        var _ := SendFrame(Frame(Bytes(0, REQUEST_ID_SIZE), false), accepts(0));
        return;
      }
      match handlers[request.id](request.payload) {
        case Replied(id, isNull, bytes) =>
          var hasReplyData := !isNull && bytes != "";
          var first := SendFrame(Frame(Bytes(id, REQUEST_ID_SIZE), hasReplyData), accepts(0));
          if first && hasReplyData {
            var _ := SendFrame(Frame(bytes, false), accepts(1));
          }
        case HandlerThrew =>
          var _ := SendFrame(Frame(Bytes(0, REQUEST_ID_SIZE), false), accepts(0));
      }
    }
  }
}

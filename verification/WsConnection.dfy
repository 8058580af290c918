/** The two ends of a connection as objects: the client's pending queries and the server's send queue. */
module WsConnection {
  import opened Correlation

  /** Requests and responses have one shape, a numbered payload; any other text is no message. */
  datatype Frame = Message(id: nat, payload: Payload) | Text(text: Payload)

  /** The messages of the requests written, by id. */
  function Messages(written: seq<Frame>): map<Id, Payload> {
    if written == [] then map[]
    else
      var before, last := Messages(written[..|written| - 1]), written[|written| - 1];
      if last.Message? then before[last.id := last.payload] else before
  }

  lemma MessagesSnoc(written: seq<Frame>, id: nat, msg: Payload)
    ensures Messages(written + [Message(id, msg)]) == Messages(written)[id := msg]
  {
    assert (written + [Message(id, msg)])[..|written|] == written;
  }

  /** Frames are numbered 1, 2, 3, ... as they are written. */
  predicate InOrder(written: seq<Frame>) {
    forall i :: 0 <= i < |written| ==> written[i].Message? && written[i].id == i + 1
  }

  lemma InOrderSnoc(written: seq<Frame>, msg: Payload)
    requires InOrder(written)
    ensures InOrder(written + [Message(|written| + 1, msg)])
  {
  }

  /** A Go channel of capacity one. */
  class ResultChan {
    var buf: seq<Payload>

    constructor ()
      ensures buf == []
    {
      buf := [];
    }

    /** Sending on a full channel would block: the caller has to know that it is empty. */
    method Put(p: Payload)
      requires buf == []
      modifies this
      ensures buf == [p]
    {
      buf := [p];
    }
  }

  ghost predicate Distinct(chans: map<nat, ResultChan>) {
    forall i, j :: i in chans && j in chans && i != j ==> chans[i] != chans[j]
  }

  lemma DistinctSnoc(chans: map<nat, ResultChan>, id: nat, c: ResultChan)
    requires Distinct(chans) && c !in chans.Values
    ensures Distinct(chans[id := c])
  {
  }

  class ClientConnection {
    var requestId: nat
    var queries: map<nat, ResultChan>
    var written: seq<Frame>
    ghost var made: map<nat, ResultChan>  // every channel ever handed to a caller, by id

    /** Each frame written has a channel of its own; that of a pending query has never been used. */
    ghost predicate Valid()
      reads this, made.Values
    {
      && |written| == requestId && InOrder(written)
      && (forall id :: id in made <==> 1 <= id <= requestId)
      && Distinct(made)
      && (forall id :: id in queries ==> id in made && queries[id] == made[id] && made[id].buf == [])
    }

    /** What the connection's state machine knows of this object. */
    ghost function View(): ClientPart
      requires Valid()
      reads this, made.Values
    {
      ClientPart(requestId, Messages(written), queries.Keys,
                 map id | id in made :: made[id].buf)
    }

    constructor ()
      ensures Valid() && requestId == 0 && queries == map[] && written == []
      ensures View() == PartOf(INIT)
    {
      requestId, queries, written, made := 0, map[], [], map[];
    }

    /** Numbers the request, writes its frame, and then enters its channel into the table. */
    method Send(msg: Payload) returns (result: ResultChan)
      requires Valid()
      modifies this
      ensures Valid() && fresh(result) && made == old(made)[requestId := result]
      ensures written == old(written) + [Message(requestId, msg)]
      ensures queries == old(queries)[requestId := result] && result.buf == []
      ensures View() == AfterSend(old(View()), msg)
    {
      hide Messages, InOrder, Distinct;
      ghost var before := View();
      requestId := requestId + 1;
      result := new ResultChan();
      written := written + [Message(requestId, msg)];
      queries := queries[requestId := result];
      made := made[requestId := result];
      InOrderSnoc(old(written), msg);
      DistinctSnoc(old(made), requestId, result);
      MessagesSnoc(old(written), requestId, msg);
      assert View().bufs == before.bufs[requestId := []];
    }

    /** Hands a response to the query with its id, once, without ever waiting; any other is dropped. */
    method HandleResponse(id: nat, payload: Payload)
      requires Valid()
      modifies this`queries, queries.Values
      ensures Valid() && View() == AfterResponse(old(View()), id, payload)
      ensures queries == old(queries) - {id}
      ensures id in old(queries) ==> made[id].buf == [payload]
      ensures forall i :: i in made && (i == id ==> id !in old(queries)) ==> made[i].buf == old(made[i].buf)
    {
      hide Messages, InOrder;
      ghost var before := View();
      if id in queries {
        var resChan := queries[id];
        resChan.Put(payload);
        queries := queries - {id};
        assert View().bufs == before.bufs[id := [payload]];
      }
    }

    /** The long timeout of a query. */
    method Expire(id: nat)
      requires Valid()
      modifies this`queries
      ensures Valid() && View() == AfterExpire(old(View()), id)
      ensures queries == old(queries) - {id}
    {
      queries := queries - {id};
    }
  }

  class ServerConnection {
    var send: seq<Frame>

    constructor ()
      ensures send == []
    {
      send := [];
    }

    /** Answers under the id of the request with what the handler says; a frame that is no message is answered
        with plain text. */
    method Handle(message: Frame, rh: Payload -> Payload)
      modifies this
      ensures |send| == |old(send)| + 1 && send[..|old(send)|] == old(send)
      ensures message.Message? ==> send[|old(send)|] == Message(message.id, rh(message.payload))
      ensures message.Text? ==> send[|old(send)|].Text?
      ensures send[|old(send)|] == Reply(message, rh)
    {
      match message
      case Message(id, payload) =>
        var answer := rh(payload);
        send := send + [Message(id, answer)];
      case Text(_) =>
        send := send + [Text("parse failed")];
    }
  }

  function Reply(message: Frame, rh: Payload -> Payload): (f: Frame)
    ensures message.Message? <==> f.Message?
    ensures f.Message? ==> f.id == message.id && f.payload == rh(message.payload)
  {
    match message
    case Message(id, payload) => Message(id, rh(payload))
    case Text(_) => Text("parse failed")
  }

  /** The frame that the server queues for a request is what the state machine's handler answers. */
  lemma ReplyIsHandled(s: State, id: Id, rh: Payload -> Payload)
    requires id in s.requests
    ensures var f := Reply(Message(id, s.requests[id]), rh);
            && f.Message? && Enabled(s, Handle(f.id, f.payload))
            && (f.id, s.requests[id], rh(s.requests[id])) in Step(s, Handle(f.id, f.payload)).answers
  {
  }

  /** From end to end: a call whose frame the server replies to, and whose reply is read, returns what the
      server's handler makes of the caller's message. */
  lemma CallReturnsHandlersAnswer(ls: seq<Label>, msg: Payload, rh: Payload -> Payload)
    requires Exec(ls).sender.Free? && Exec(ls).reader.Idle?
    ensures var id := Exec(ls).requestId + 1;
            var f := Reply(Message(id, msg), rh);
            && f.Message?
            && var t := Exec(ls + SendAndAnswer(f.id, msg, f.payload) + [Read(f.id, f.payload)]
                             + [Put] + [Delete] + [Receive(id)]);
               id in t.calls && t.calls[id] == Returned(rh(msg))
  {
    CallCompletes(ls, msg, rh(msg));
  }
}

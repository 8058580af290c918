/** The JavaScript client: its fields and the effect of each browser event on them. */
module JsClient {
  datatype Request = Request(action: string, option1: string, option2: string)

  /** A request as it is handed to the socket. */
  datatype Sent = Sent(id: nat, request: Request)

  /** A promise; `Disconnected` is the rejection issued when the connection closes. */
  datatype Promise = Waiting | Resolved(result: string) | Failed(error: string) | Disconnected

  /** The part of a response that settles a promise. */
  datatype Payload = Payload(success: bool, result: string, error: string)

  datatype Client = Client(
    requestId: nat,
    requestMapping: map<nat, nat>,  // request id to promise, promises counted from the first ever made
    pendingSend: seq<Sent>,
    isOpen: bool,
    connectionTimes: nat,
    wire: seq<Sent>,                // what the current socket has been given
    promises: seq<Promise>)

  const BLANK: Client := Client(0, map[], [], false, 0, [], [])

  ghost predicate Sound(c: Client) {
    forall id :: id in c.requestMapping ==> c.requestMapping[id] < |c.promises|
  }

  /** Only the first settlement of a promise has an effect. */
  function Settle(p: Promise, outcome: Promise): Promise {
    if p == Waiting then outcome else p
  }

  function Outcome(p: Payload): Promise {
    if p.success then Resolved(p.result) else Failed(p.error)
  }

  function AfterConnect(c: Client): Client {
    Client(0, map[], [], false, c.connectionTimes + 1, [], c.promises)
  }

  function AfterCall(c: Client, request: Request): Client {
    var id := c.requestId + 1;
    var sent := [Sent(id, request)];
    c.(requestId := id,
       requestMapping := c.requestMapping[id := |c.promises|],
       promises := c.promises + [Waiting],
       wire := if c.isOpen then c.wire + sent else c.wire,
       pendingSend := if c.isOpen then c.pendingSend else c.pendingSend + sent)
  }

  function AfterOpen(c: Client): Client {
    c.(isOpen := true, wire := c.wire + c.pendingSend, pendingSend := [])
  }

  /** The entry stays in the table: the program deletes a key of the entry, not the entry. */
  function AfterMessage(c: Client, id: nat, payload: Payload): Client
    requires Sound(c)
  {
    if id !in c.requestMapping then c else
      var i := c.requestMapping[id];
      c.(promises := c.promises[i := Settle(c.promises[i], Outcome(payload))])
  }

  ghost function AfterClose(c: Client): Client {
    c.(promises := seq(|c.promises|, i requires 0 <= i < |c.promises| =>
         if i in c.requestMapping.Values then Settle(c.promises[i], Disconnected) else c.promises[i]),
       requestMapping := map[],
       isOpen := false)
  }

  class BaseApiClient {
    var requestId: nat
    var requestMapping: map<nat, nat>
    var pendingSend: seq<Sent>
    var isOpen: bool
    var connectionTimes: nat
    var wire: seq<Sent>
    var promises: seq<Promise>

    ghost function View(): Client
      reads this
    {
      Client(requestId, requestMapping, pendingSend, isOpen, connectionTimes, wire, promises)
    }

    constructor ()
      ensures View() == AfterConnect(BLANK)
    {
      connectionTimes, promises := 0, [];
      new;
      CreateConnection();
    }

    method CreateConnection()
      modifies this
      ensures View() == AfterConnect(old(View()))
    {
      requestId := 0;
      requestMapping := map[];
      wire := [];
      pendingSend := [];
      isOpen := false;
      connectionTimes := connectionTimes + 1;
    }

    method SendRequest(request: Request) returns (promise: nat)
      modifies this
      ensures View() == AfterCall(old(View()), request)
      ensures promise == |old(promises)|
    {
      promise := |promises|;
      promises := promises + [Waiting];
      requestId := requestId + 1;
      requestMapping := requestMapping[requestId := promise];
      var send := Sent(requestId, request);
      if isOpen {
        wire := wire + [send];
      } else {
        pendingSend := pendingSend + [send];
      }
    }

    method OnOpen()
      modifies this
      ensures View() == AfterOpen(old(View()))
      ensures wire == old(wire) + old(pendingSend) && pendingSend == [] && isOpen
    {
      isOpen := true;
      SendAllPending();
    }

    method SendAllPending()
      modifies this`wire, this`pendingSend
      ensures wire == old(wire) + old(pendingSend) && pendingSend == []
    {
      for i := 0 to |pendingSend|
        invariant pendingSend == old(pendingSend)
        invariant wire == old(wire) + pendingSend[..i]
      {
        wire := wire + [pendingSend[i]];
      }
      pendingSend := [];
    }

    method OnMessage(id: nat, payload: Payload)
      requires Sound(View())
      modifies this`promises
      ensures View() == AfterMessage(old(View()), id, payload)
      ensures id in requestMapping && old(promises[requestMapping[id]]) == Waiting ==>
                promises[requestMapping[id]] == if payload.success then Resolved(payload.result)
                                                else Failed(payload.error)
    {
      if id in requestMapping {
        SettleAt(requestMapping[id], Outcome(payload));
      }
    }

    method SettleAt(i: nat, outcome: Promise)
      requires i < |promises|
      modifies this`promises
      ensures promises == old(promises[i := Settle(promises[i], outcome)])
    {
      if promises[i] == Waiting {
        promises := promises[i := outcome];
      }
    }

    method OnClose()
      requires Sound(View())
      modifies this
      ensures View() == AfterClose(old(View()))
    {
      RejectAll();
      isOpen := false;
    }

    method RejectAll()
      requires Sound(View())
      modifies this`promises, this`requestMapping
      ensures requestMapping == map[]
      ensures promises == AfterClose(old(View())).promises
    {
      var left := requestMapping.Keys;
      while left != {}
        invariant left <= requestMapping.Keys && requestMapping == old(requestMapping)
        invariant |promises| == |old(promises)|
        invariant forall i :: 0 <= i < |promises| ==>
          promises[i] == old(promises[i]) || promises[i] == Settle(old(promises[i]), Disconnected)
        invariant forall i :: 0 <= i < |promises| && i !in requestMapping.Values ==>
          promises[i] == old(promises[i])
        invariant forall id :: id in requestMapping && id !in left ==>
          promises[requestMapping[id]] == Settle(old(promises[requestMapping[id]]), Disconnected)
      {
        var id :| id in left;
        SettleAt(requestMapping[id], Disconnected);
        left := left - {id};
      }
      requestMapping := map[];
    }
  }
}

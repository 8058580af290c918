/** Requests and responses over one connection: the client's table of pending queries, its reader, the
    server's handlers, and timeouts, in every interleaving. */
module Correlation {
  type Id = nat
  type Payload = string

  /** A result channel holds at most one payload; `puts` counts what was ever sent on it. */
  datatype Chan = Chan(buf: seq<Payload>, puts: nat)

  datatype Reader = Idle | Loaded(id: Id, payload: Payload) | Deleting(id: Id) | Stopped

  datatype Call = Waiting | Returned(payload: Payload) | TimedOut

  /** A Send in progress: its frame is on the wire but its channel is not in the table yet. */
  datatype Sender = Free | Written(id: Id)

  datatype State = State(
    requestId: nat,
    sender: Sender,
    requests: map<Id, Payload>,          // frames written, by id
    queries: set<Id>,                    // ids with a channel in the table
    chans: map<Id, Chan>,
    answers: set<(Id, Payload, Payload)>,  // (id, message, answer) for every handler that has finished
    reader: Reader,
    calls: map<Id, Call>)

  datatype Label =
    | Write(msg: Payload)             // Send: number the request and write its frame
    | Store                           // Send: put the channel into the table
    | Handle(id: Id, answer: Payload) // a server handler finishes, in any order, perhaps more than once
    | Read(id: Id, payload: Payload)  // the reader receives a response frame
    | Put                             // the reader sends on the channel
    | Delete                          // the reader deletes the query
    | Stop                            // the reader meets an error or is told to stop
    | Receive(id: Id)                 // SendSync receives its result
    | Timeout(id: Id)                 // SendSync gives up
    | Expire(id: Id)                  // the long timeout deletes the query

  const INIT: State := State(0, Free, map[], {}, map[], {}, Idle, map[])

  ghost predicate Enabled(s: State, l: Label) {
    match l
    case Write(_) => s.sender.Free?
    case Store => s.sender.Written?
    case Handle(id, _) => id in s.requests
    case Read(id, payload) => s.reader.Idle? && exists m :: (id, m, payload) in s.answers
    case Put => s.reader.Loaded? && s.reader.id in s.chans && s.chans[s.reader.id].buf == []
    case Delete => s.reader.Deleting?
    case Stop => s.reader.Idle?
    case Receive(id) => id in s.calls && s.calls[id].Waiting? && id in s.chans && s.chans[id].buf != []
    case Timeout(id) => id in s.calls && s.calls[id].Waiting?
    case Expire(_) => true
  }

  ghost function Step(s: State, l: Label): State {
    if !Enabled(s, l) then s
    else match l
      case Write(msg) =>
        var id := s.requestId + 1;
        s.(requestId := id, sender := Written(id), requests := s.requests[id := msg],
           chans := s.chans[id := Chan([], 0)])
      case Store =>
        var id := s.sender.id;
        s.(sender := Free, queries := s.queries + {id}, calls := s.calls[id := Waiting])
      case Handle(id, answer) => s.(answers := s.answers + {(id, s.requests[id], answer)})
      case Read(id, payload) => if id in s.queries then s.(reader := Loaded(id, payload)) else s
      case Put =>
        var id := s.reader.id;
        s.(reader := Deleting(id), chans := s.chans[id := Chan([s.reader.payload], s.chans[id].puts + 1)])
      case Delete => s.(reader := Idle, queries := s.queries - {s.reader.id})
      case Stop => s.(reader := Stopped)
      case Receive(id) =>
        s.(calls := s.calls[id := Returned(s.chans[id].buf[0])], chans := s.chans[id := s.chans[id].(buf := [])])
      case Timeout(id) => s.(calls := s.calls[id := TimedOut])
      case Expire(id) => s.(queries := s.queries - {id})
  }

  ghost function Exec(ls: seq<Label>): State {
    if ls == [] then INIT else Step(Exec(ls[..|ls| - 1]), ls[|ls| - 1])
  }

  // ---- The invariant -----------------------------------------------------

  /** A handler answered the request with this id, and its message, with this payload. */
  predicate Answered(s: State, id: Id, payload: Payload) {
    id in s.requests && (id, s.requests[id], payload) in s.answers
  }

  /** Ids are issued once, in order. */
  ghost predicate Numbered(s: State) {
    && (forall id :: id in s.requests <==> 1 <= id <= s.requestId)
    && s.chans.Keys == s.requests.Keys
    && s.queries <= s.requests.Keys && s.calls.Keys <= s.requests.Keys
    && (s.sender.Written? ==> s.sender.id == s.requestId >= 1 && s.sender.id !in s.queries && s.sender.id !in s.calls)
    && (forall id :: id in s.requests && id !in s.calls ==> s.sender == Written(id))
    && (forall id, m, p :: (id, m, p) in s.answers ==> id in s.requests && s.requests[id] == m)
  }

  /** While a query is in the table and not being deleted, or its response is in the reader's hand, its
      channel has never been used. */
  ghost predicate Unused(s: State) {
    && (forall id :: id in s.chans ==> s.chans[id].puts <= 1 && (s.chans[id].puts == 0 ==> s.chans[id].buf == []))
    && (forall id :: id in s.queries && s.reader != Deleting(id) ==> id in s.chans && s.chans[id].puts == 0)
    && (s.reader.Loaded? ==> s.reader.id in s.chans && s.chans[s.reader.id].puts == 0)
    && (s.sender.Written? ==> s.sender.id in s.chans && s.chans[s.sender.id].puts == 0)
    && (s.reader.Deleting? ==> s.reader.id in s.calls)
    && (s.reader.Loaded? ==> s.reader.id in s.calls)
  }

  /** Whatever is in the reader's hand, in a channel, or returned answers the request of that id. */
  ghost predicate Correlated(s: State) {
    && (s.reader.Loaded? ==> Answered(s, s.reader.id, s.reader.payload))
    && (forall id :: id in s.chans ==> forall p :: p in s.chans[id].buf ==> Answered(s, id, p))
    && (forall id :: id in s.calls && s.calls[id].Returned? ==> Answered(s, id, s.calls[id].payload))
  }

  predicate IsSending(l: Label) {
    l.Write? || l.Store?
  }

  predicate IsReading(l: Label) {
    l.Read? || l.Put? || l.Delete? || l.Stop?
  }

  lemma SendingNumbered(s: State, l: Label)
    requires Numbered(s) && IsSending(l)
    ensures Numbered(Step(s, l))
  {
  }

  lemma ReadingNumbered(s: State, l: Label)
    requires Numbered(s) && IsReading(l)
    ensures Numbered(Step(s, l))
  {
  }

  lemma OtherNumbered(s: State, l: Label)
    requires Numbered(s) && !IsSending(l) && !IsReading(l)
    ensures Numbered(Step(s, l))
  {
  }

  lemma StepNumbered(s: State, l: Label)
    requires Numbered(s)
    ensures Numbered(Step(s, l))
  {
    hide Numbered, Step;
    if IsSending(l) {
      SendingNumbered(s, l);
    } else if IsReading(l) {
      ReadingNumbered(s, l);
    } else {
      OtherNumbered(s, l);
    }
  }

  lemma SendingUnused(s: State, l: Label)
    requires Numbered(s) && Unused(s) && IsSending(l)
    ensures Unused(Step(s, l))
  {
  }

  lemma ReadingUnused(s: State, l: Label)
    requires Numbered(s) && Unused(s) && IsReading(l)
    ensures Unused(Step(s, l))
  {
  }

  lemma OtherUnused(s: State, l: Label)
    requires Numbered(s) && Unused(s) && !IsSending(l) && !IsReading(l)
    ensures Unused(Step(s, l))
  {
  }

  lemma StepUnused(s: State, l: Label)
    requires Numbered(s) && Unused(s)
    ensures Unused(Step(s, l))
  {
    hide Numbered, Unused, Step;
    if IsSending(l) {
      SendingUnused(s, l);
    } else if IsReading(l) {
      ReadingUnused(s, l);
    } else {
      OtherUnused(s, l);
    }
  }

  lemma StepCorrelated(s: State, l: Label)
    requires Numbered(s) && Correlated(s)
    ensures Correlated(Step(s, l))
  {
    var t := Step(s, l);
    assert forall id, p :: Answered(s, id, p) ==> Answered(t, id, p);
  }

  lemma {:induction false} ExecInv(ls: seq<Label>)
    ensures Numbered(Exec(ls)) && Unused(Exec(ls)) && Correlated(Exec(ls))
  {
    if ls != [] {
      ExecInv(ls[..|ls| - 1]);
      StepNumbered(Exec(ls[..|ls| - 1]), ls[|ls| - 1]);
      StepUnused(Exec(ls[..|ls| - 1]), ls[|ls| - 1]);
      StepCorrelated(Exec(ls[..|ls| - 1]), ls[|ls| - 1]);
    }
  }

  // ---- The theorems ------------------------------------------------------

  /** A SendSync that succeeds returns what the handler answered to its own message. */
  lemma SendSyncReturnsOwnAnswer(ls: seq<Label>, id: Id)
    requires id in Exec(ls).calls && Exec(ls).calls[id].Returned?
    ensures var s := Exec(ls);
            id in s.requests && (id, s.requests[id], s.calls[id].payload) in s.answers
  {
    ExecInv(ls);
  }

  lemma RequestsStay(s: State, l: Label, id: Id)
    requires Numbered(s) && id in s.requests
    ensures id in Step(s, l).requests && Step(s, l).requests[id] == s.requests[id]
  {
  }

  /** The message of an id never changes: each call has an id of its own. */
  lemma {:induction false} IdsAreNotReused(ls: seq<Label>, i: nat, id: Id)
    requires i <= |ls| && id in Exec(ls[..i]).requests
    ensures id in Exec(ls).requests && Exec(ls).requests[id] == Exec(ls[..i]).requests[id]
    decreases |ls|
  {
    hide Step, Numbered, Unused, Correlated;
    if i < |ls| {
      assert ls[..|ls| - 1][..i] == ls[..i];
      IdsAreNotReused(ls[..|ls| - 1], i, id);
      ExecInv(ls[..|ls| - 1]);
      RequestsStay(Exec(ls[..|ls| - 1]), ls[|ls| - 1], id);
    } else {
      assert ls[..i] == ls;
    }
  }

  /** No channel ever receives a second payload. */
  lemma OnePayloadPerChannel(ls: seq<Label>, id: Id)
    requires id in Exec(ls).chans
    ensures Exec(ls).chans[id].puts <= 1
  {
    ExecInv(ls);
  }

  /** The reader finds room in the channel whenever it has a response to put there. */
  lemma ReaderNeverBlocks(ls: seq<Label>)
    requires Exec(ls).reader.Loaded?
    ensures Enabled(Exec(ls), Put)
  {
    ExecInv(ls);
  }

  /** A response that overtakes the table entry of its request is dropped. */
  lemma EarlyResponseIsDropped(ls: seq<Label>, payload: Payload)
    requires Exec(ls).sender.Written? && Enabled(Exec(ls), Read(Exec(ls).sender.id, payload))
    ensures Step(Exec(ls), Read(Exec(ls).sender.id, payload)) == Exec(ls)
  {
    ExecInv(ls);
  }

  /** At step j the reader received this response, and its query was in the table. */
  ghost predicate ReadInTime(ls: seq<Label>, j: nat, id: Id, payload: Payload) {
    && j < |ls| && ls[j] == Read(id, payload)
    && Enabled(Exec(ls[..j]), ls[j]) && id in Exec(ls[..j]).queries
  }

  ghost predicate CameInTime(ls: seq<Label>, id: Id, payload: Payload) {
    exists j: nat :: ReadInTime(ls, j, id, payload)
  }

  ghost predicate AllInTime(ls: seq<Label>, s: State) {
    && (s.reader.Loaded? ==> CameInTime(ls, s.reader.id, s.reader.payload))
    && (forall id, p :: id in s.chans && p in s.chans[id].buf ==> CameInTime(ls, id, p))
    && (forall id :: id in s.calls && s.calls[id].Returned? ==> CameInTime(ls, id, s.calls[id].payload))
  }

  lemma InTimeStays(init: seq<Label>, l: Label, id: Id, payload: Payload)
    requires CameInTime(init, id, payload)
    ensures CameInTime(init + [l], id, payload)
  {
    var j: nat :| ReadInTime(init, j, id, payload);
    assert (init + [l])[..j] == init[..j];
    assert ReadInTime(init + [l], j, id, payload);
  }

  lemma StepInTime(init: seq<Label>, l: Label)
    requires AllInTime(init, Exec(init))
    ensures AllInTime(init + [l], Step(Exec(init), l))
  {
    hide CameInTime;
    var s := Exec(init);
    forall id, p | CameInTime(init, id, p)
      ensures CameInTime(init + [l], id, p)
    {
      InTimeStays(init, l, id, p);
    }
    if l.Read? && Enabled(s, l) && l.id in s.queries {
      ReadNow(init, l.id, l.payload);
    }
  }

  lemma ReadNow(init: seq<Label>, id: Id, payload: Payload)
    requires Enabled(Exec(init), Read(id, payload)) && id in Exec(init).queries
    ensures CameInTime(init + [Read(id, payload)], id, payload)
  {
    assert (init + [Read(id, payload)])[..|init|] == init;
    assert ReadInTime(init + [Read(id, payload)], |init|, id, payload);
  }

  lemma {:induction false} ExecInTime(ls: seq<Label>)
    ensures AllInTime(ls, Exec(ls))
  {
    hide Step, AllInTime;
    if ls != [] {
      ExecInTime(ls[..|ls| - 1]);
      StepInTime(ls[..|ls| - 1], ls[|ls| - 1]);
      assert ls == ls[..|ls| - 1] + [ls[|ls| - 1]];
    } else {
      NothingYet();
    }
  }

  lemma NothingYet()
    ensures AllInTime([], INIT)
  {
  }

  /** A call returns only what the reader received while its query was in the table: one whose responses all
      came earlier than that, or after the query had expired, can only time out. */
  lemma LateOrEarlyNeverReturns(ls: seq<Label>, id: Id)
    requires id in Exec(ls).calls && Exec(ls).calls[id].Returned?
    ensures exists j: nat :: ReadInTime(ls, j, id, Exec(ls).calls[id].payload)
  {
    ExecInTime(ls);
  }

  lemma ExecSnoc(ls: seq<Label>, l: Label)
    ensures Exec(ls + [l]) == Step(Exec(ls), l)
  {
    assert (ls + [l])[..|ls|] == ls;
  }

  /** In every run, a response that the reader receives while its query is in the table is handed over: the
      waiting call returns exactly that payload, and the query is gone. */
  lemma ResponseIsHandedOver(ls: seq<Label>, id: Id, payload: Payload)
    requires Enabled(Exec(ls), Read(id, payload)) && id in Exec(ls).queries
    requires id in Exec(ls).calls && Exec(ls).calls[id] == Waiting
    ensures var t := Step(Step(Step(Step(Exec(ls), Read(id, payload)), Put), Delete), Receive(id));
            && id in t.calls && t.calls[id] == Returned(payload)
            && id !in t.queries && t.queries == Exec(ls).queries - {id}
  {
    ExecInv(ls);
  }

  lemma ReadThrough(ls: seq<Label>, id: Id, payload: Payload)
    requires Enabled(Exec(ls), Read(id, payload)) && id in Exec(ls).queries
    requires id in Exec(ls).calls && Exec(ls).calls[id] == Waiting
    ensures var t := Exec(ls + [Read(id, payload)] + [Put] + [Delete] + [Receive(id)]);
            id in t.calls && t.calls[id] == Returned(payload)
  {
    hide Exec, Step, Enabled;
    ResponseIsHandedOver(ls, id, payload);
    var d := ls + [Read(id, payload)];
    ExecSnoc(ls, Read(id, payload));
    ExecSnoc(d, Put);
    ExecSnoc(d + [Put], Delete);
    ExecSnoc(d + [Put] + [Delete], Receive(id));
  }

  function SendAndAnswer(id: Id, msg: Payload, answer: Payload): seq<Label> {
    [Write(msg), Store, Handle(id, answer)]
  }

  lemma AfterSendAndAnswer(ls: seq<Label>, msg: Payload, answer: Payload)
    requires Exec(ls).sender.Free? && Exec(ls).reader.Idle?
    ensures var id := Exec(ls).requestId + 1;
            var t := Exec(ls + SendAndAnswer(id, msg, answer));
            && Enabled(t, Read(id, answer)) && id in t.queries && id in t.calls && t.calls[id] == Waiting
            && id in t.requests && t.requests[id] == msg
  {
    hide Exec, Step, Enabled;
    SentAndAnswered(Exec(ls), msg, answer);
    var id := Exec(ls).requestId + 1;
    var a := ls + [Write(msg)];
    ExecSnoc(ls, Write(msg));
    ExecSnoc(a, Store);
    ExecSnoc(a + [Store], Handle(id, answer));
    assert ls + SendAndAnswer(id, msg, answer) == a + [Store] + [Handle(id, answer)];
  }

  /** From every reachable state in which nobody is sending and the reader is at its loop: a message that is
      sent, answered and read in that order comes back as the result of its own call. */
  lemma CallCompletes(ls: seq<Label>, msg: Payload, answer: Payload)
    requires Exec(ls).sender.Free? && Exec(ls).reader.Idle?
    ensures var id := Exec(ls).requestId + 1;
            var sent := ls + SendAndAnswer(id, msg, answer);
            var t := Exec(sent + [Read(id, answer)] + [Put] + [Delete] + [Receive(id)]);
            && id in t.calls && t.calls[id] == Returned(answer)
            && id in Exec(sent).requests && Exec(sent).requests[id] == msg
  {
    hide Exec, Step, Enabled;
    AfterSendAndAnswer(ls, msg, answer);
    var id := Exec(ls).requestId + 1;
    ReadThrough(ls + SendAndAnswer(id, msg, answer), id, answer);
  }

  lemma SentAndAnswered(s: State, msg: Payload, answer: Payload)
    requires s.sender.Free? && s.reader.Idle?
    ensures var id := s.requestId + 1;
            var t := Step(Step(Step(s, Write(msg)), Store), Handle(id, answer));
            && Enabled(t, Read(id, answer)) && id in t.queries && id in t.calls && t.calls[id] == Waiting
            && id in t.requests && t.requests[id] == msg
  {
    var id := s.requestId + 1;
    var t := Step(Step(Step(s, Write(msg)), Store), Handle(id, answer));
    assert (id, msg, answer) in t.answers;
  }

  /** A call returns at most once and never after it has timed out. */
  lemma {:induction false} OutcomeIsFinal(ls: seq<Label>, i: nat, id: Id)
    requires i <= |ls| && id in Exec(ls[..i]).calls && Exec(ls[..i]).calls[id] != Waiting
    ensures id in Exec(ls).calls && Exec(ls).calls[id] == Exec(ls[..i]).calls[id]
    decreases |ls|
  {
    hide Step, Numbered, Unused, Correlated;
    if i < |ls| {
      assert ls[..|ls| - 1][..i] == ls[..i];
      OutcomeIsFinal(ls[..|ls| - 1], i, id);
      ExecInv(ls[..|ls| - 1]);
      OutcomeStays(Exec(ls[..|ls| - 1]), ls[|ls| - 1], id);
    } else {
      assert ls[..i] == ls;
    }
  }

  lemma OutcomeStays(s: State, l: Label, id: Id)
    requires Numbered(s) && id in s.calls && s.calls[id] != Waiting
    ensures id in Step(s, l).calls && Step(s, l).calls[id] == s.calls[id]
  {
  }

  /** After the short timeout a waiting call has failed; after the long one its query is gone. */
  lemma TimeoutsEnd(s: State, id: Id)
    ensures id in s.calls && s.calls[id].Waiting? ==>
              id in Step(s, Timeout(id)).calls && Step(s, Timeout(id)).calls[id] == TimedOut
    ensures Step(s, Expire(id)).queries == s.queries - {id}
  {
  }

  /** A reader that has met an error reads nothing more, and its result channels stay as they are but for
      those who receive from them. */
  lemma StopIsFinal(s: State, l: Label)
    ensures s.reader.Idle? ==> Step(s, Stop).reader.Stopped?
    ensures s.reader.Stopped? ==> Step(s, l).reader.Stopped?
    ensures s.reader.Stopped? ==> forall id :: id in s.chans && !(l.Write? && id == s.requestId + 1) ==>
              id in Step(s, l).chans && Step(s, l).chans[id].puts == s.chans[id].puts
  {
  }

  // ---- The part of the state that the client's object holds ----------------

  datatype ClientPart = ClientPart(requestId: nat, requests: map<Id, Payload>, queries: set<Id>,
                                   bufs: map<Id, seq<Payload>>)

  function PartOf(s: State): ClientPart {
    ClientPart(s.requestId, s.requests, s.queries, map id | id in s.chans :: s.chans[id].buf)
  }

  function AfterSend(c: ClientPart, msg: Payload): ClientPart {
    var id := c.requestId + 1;
    ClientPart(id, c.requests[id := msg], c.queries + {id}, c.bufs[id := []])
  }

  function AfterResponse(c: ClientPart, id: Id, payload: Payload): ClientPart {
    if id in c.queries then c.(queries := c.queries - {id}, bufs := c.bufs[id := [payload]]) else c
  }

  function AfterExpire(c: ClientPart, id: Id): ClientPart {
    c.(queries := c.queries - {id})
  }

  /** Send is Write and then Store. */
  lemma SendComposes(s: State, msg: Payload)
    requires s.sender.Free?
    ensures var t := Step(Step(s, Write(msg)), Store);
            t.sender.Free? && PartOf(t) == AfterSend(PartOf(s), msg)
  {
  }

  lemma ResponseSteps(s: State, id: Id, payload: Payload)
    requires Enabled(s, Read(id, payload))
    requires id in s.queries ==> id in s.chans && s.chans[id].buf == []
    ensures var t := Step(Step(Step(s, Read(id, payload)), Put), Delete);
            && t.reader.Idle? && PartOf(t) == AfterResponse(PartOf(s), id, payload)
            && (id !in s.queries ==> t == s)
  {
  }

  /** Handling a response is Read, Put and Delete; when its query is not in the table all three do nothing. */
  lemma ResponseComposes(ls: seq<Label>, id: Id, payload: Payload)
    requires Enabled(Exec(ls), Read(id, payload))
    ensures var s := Exec(ls);
            var t := Step(Step(Step(s, Read(id, payload)), Put), Delete);
            && t.reader.Idle? && PartOf(t) == AfterResponse(PartOf(s), id, payload)
            && (id !in s.queries ==> t == s)
  {
    ExecInv(ls);
    hide Step, Exec, PartOf, Numbered, Correlated;
    ResponseSteps(Exec(ls), id, payload);
  }

  lemma ExpireComposes(s: State, id: Id)
    ensures PartOf(Step(s, Expire(id))) == AfterExpire(PartOf(s), id)
  {
  }
}

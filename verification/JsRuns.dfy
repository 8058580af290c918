/** Every run of the JavaScript client against a socket that opens, delivers, closes and is replaced. */
module JsRuns {
  import opened JsClient

  datatype Phase = Connecting | Open | Closed

  datatype Label =
    | Call(request: Request)
    | Opened
    | Message(id: nat, payload: Payload)
    | Garbage                     // a frame that does not parse: the handler throws before any change
    | Close
    | Reconnect

  /** When a promise was made: in which connection, after that connection closed or before, for what. */
  datatype Birth = Birth(connection: nat, inGap: bool, request: Request)

  datatype State = State(
    client: Client,
    phase: Phase,
    calls: seq<Request>,   // requests made since the current connection was created
    atClose: nat,          // how many of them preceded its close
    births: seq<Birth>)    // one for each promise

  const START: State := State(AfterConnect(BLANK), Connecting, [], 0, [])

  ghost predicate Enabled(s: State, l: Label) {
    match l
    case Call(_) => true
    case Opened => s.phase == Connecting
    case Message(_, _) => s.phase == Open
    case Garbage => s.phase == Open
    case Close => s.phase != Closed
    case Reconnect => s.phase == Closed
  }

  ghost function Step(s: State, l: Label): State
    requires Sound(s.client)
  {
    match l
    case Call(request) =>
      s.(client := AfterCall(s.client, request),
         calls := s.calls + [request],
         births := s.births + [Birth(s.client.connectionTimes, s.phase == Closed, request)])
    case Opened => s.(client := AfterOpen(s.client), phase := Open)
    case Message(id, payload) => s.(client := AfterMessage(s.client, id, payload))
    case Garbage => s
    case Close => s.(client := AfterClose(s.client), phase := Closed, atClose := |s.calls|)
    case Reconnect => s.(client := AfterConnect(s.client), phase := Connecting, calls := [])
  }

  /** The states reached by a run, one after each label. */
  ghost predicate Run(s: State, labels: seq<Label>, t: State)
    decreases |labels|
  {
    Sound(s.client) &&
    if labels == [] then t == s
    else Enabled(s, labels[0]) && Run(Step(s, labels[0]), labels[1..], t)
  }

  function Numbered(calls: seq<Request>): (r: seq<Sent>)
    ensures |r| == |calls|
    ensures forall i :: 0 <= i < |r| ==> r[i] == Sent(i + 1, calls[i])
  {
    seq(|calls|, i requires 0 <= i < |calls| => Sent(i + 1, calls[i]))
  }

  /** The number of promises made before the current connection. */
  function Base(s: State): int {
    |s.births| - |s.calls|
  }

  /** The first request of this connection still in the table. */
  function FirstMapped(s: State): nat {
    if s.phase == Closed then s.atClose else 0
  }

  ghost predicate Shape(s: State) {
    && |s.client.promises| == |s.births| >= |s.calls|
    && s.client.requestId == |s.calls|
    && (s.client.isOpen <==> s.phase == Open)
    && FirstMapped(s) <= |s.calls|
  }

  /** Ids on the wire and in the queue are 1, 2, 3, ... in call order. */
  ghost predicate InOrder(s: State) {
    && s.client.wire + s.client.pendingSend == Numbered(s.calls)
    && (s.phase == Open ==> s.client.pendingSend == [])
    && (s.phase == Connecting ==> s.client.wire == [])
  }

  /** No response ever shrinks the table. */
  ghost predicate TableIsFull(s: State) {
    && (forall id :: id in s.client.requestMapping <==> FirstMapped(s) < id <= |s.calls|)
    && (forall id :: id in s.client.requestMapping ==> s.client.requestMapping[id] == Base(s) + id - 1)
  }

  ghost predicate BirthsAreRight(s: State)
    requires |s.calls| <= |s.births|
  {
    && (forall i :: 0 <= i < Base(s) ==> s.births[i].connection < s.client.connectionTimes)
    && (forall i :: Base(s) <= i < |s.births| ==>
          s.births[i] == Birth(s.client.connectionTimes,
                               s.phase == Closed && i >= Base(s) + s.atClose,
                               s.calls[i - Base(s)]))
  }

  /** Is promise i one that no event can reach any more? */
  ghost predicate OutOfReach(s: State, i: nat)
    requires i < |s.births|
  {
    s.births[i].connection < s.client.connectionTimes || (s.phase == Closed && !s.births[i].inGap)
  }

  ghost predicate Settlement(s: State)
    requires |s.client.promises| == |s.births|
  {
    && (forall i :: 0 <= i < |s.births| && s.births[i].inGap ==> s.client.promises[i] == Waiting)
    && (forall i :: 0 <= i < |s.births| && !s.births[i].inGap && OutOfReach(s, i) ==>
          s.client.promises[i] != Waiting)
  }

  ghost predicate Inv(s: State) {
    Shape(s) && InOrder(s) && TableIsFull(s) && BirthsAreRight(s) && Settlement(s)
  }

  lemma InvIsSound(s: State)
    requires Inv(s)
    ensures Sound(s.client)
  {
  }

  lemma CallKeepsOrder(s: State, l: Label)
    requires Shape(s) && InOrder(s) && l.Call? && Sound(s.client)
    ensures InOrder(Step(s, l))
  {
    var t := Step(s, l);
    assert Numbered(t.calls) == Numbered(s.calls) + [Sent(|s.calls| + 1, l.request)];
  }

  lemma CallKeepsTable(s: State, l: Label)
    requires Shape(s) && TableIsFull(s) && l.Call? && Enabled(s, l) && Sound(s.client)
    ensures Shape(Step(s, l)) && TableIsFull(Step(s, l))
  {
  }

  lemma CallKeepsBirths(s: State, l: Label)
    requires Shape(s) && BirthsAreRight(s) && l.Call? && Enabled(s, l) && Sound(s.client)
    ensures |Step(s, l).calls| <= |Step(s, l).births| && BirthsAreRight(Step(s, l))
  {
    assert Base(Step(s, l)) == Base(s);
  }

  lemma CallKeepsSettlement(s: State, l: Label)
    requires Shape(s) && Settlement(s) && l.Call? && Enabled(s, l) && Sound(s.client)
    ensures Shape(Step(s, l)) && Settlement(Step(s, l))
  {
  }

  lemma CallKeeps(s: State, l: Label)
    requires Inv(s) && l.Call? && Enabled(s, l) && Sound(s.client)
    ensures Inv(Step(s, l))
  {
    hide Step, InOrder, TableIsFull, BirthsAreRight, Settlement;
    CallKeepsOrder(s, l);
    CallKeepsTable(s, l);
    CallKeepsBirths(s, l);
    CallKeepsSettlement(s, l);
  }

  lemma MessageKeeps(s: State, l: Label)
    requires Inv(s) && l.Message? && Enabled(s, l) && Sound(s.client)
    ensures Inv(Step(s, l))
  {
  }

  /** Closing rejects what still waits among the promises of the connection and touches no other. */
  lemma CloseEffect(s: State, i: nat)
    requires Inv(s) && s.phase != Closed && Sound(s.client) && i < |s.births|
    ensures |AfterClose(s.client).promises| == |s.births|
    ensures AfterClose(s.client).promises[i] ==
            if i < Base(s) then s.client.promises[i] else Settle(s.client.promises[i], Disconnected)
  {
    hide InOrder, BirthsAreRight, Settlement;
    assert i >= Base(s) ==> i - Base(s) + 1 in s.client.requestMapping;
  }

  lemma CloseKeeps(s: State, l: Label)
    requires Inv(s) && l.Close? && Enabled(s, l) && Sound(s.client)
    ensures Inv(Step(s, l))
  {
    hide Step, AfterClose;
    var t := Step(s, l);
    CloseIs(s, l);
    forall i | 0 <= i < |s.births|
      ensures t.client.promises[i] ==
              if i < Base(s) then s.client.promises[i] else Settle(s.client.promises[i], Disconnected)
    {
      CloseEffect(s, i);
    }
    assert Base(t) == Base(s);
  }

  lemma CloseIs(s: State, l: Label)
    requires Sound(s.client) && l.Close?
    ensures var t := Step(s, l);
            t.phase == Closed && t.calls == s.calls && t.births == s.births && t.atClose == |s.calls| &&
            t.client == s.client.(promises := AfterClose(s.client).promises,
                                  requestMapping := map[], isOpen := false) &&
            |t.client.promises| == |s.client.promises|
  {
  }

  lemma StepKeeps(s: State, l: Label)
    requires Inv(s) && Enabled(s, l) && Sound(s.client)
    ensures Inv(Step(s, l))
  {
    match l
    case Call(_) => CallKeeps(s, l);
    case Message(_, _) => MessageKeeps(s, l);
    case Close => CloseKeeps(s, l);
    case Opened =>
    case Garbage =>
    case Reconnect => assert Numbered([]) == [];
  }

  lemma {:induction false} RunKeeps(s: State, labels: seq<Label>, t: State)
    requires Inv(s) && Run(s, labels, t)
    ensures Inv(t)
    decreases |labels|
  {
    if labels != [] {
      StepKeeps(s, labels[0]);
      RunKeeps(Step(s, labels[0]), labels[1..], t);
    }
  }

  ghost predicate Reachable(t: State) {
    exists labels :: Run(START, labels, t)
  }

  lemma ReachableInv(t: State)
    requires Reachable(t)
    ensures Inv(t)
  {
    var labels :| Run(START, labels, t);
    assert Numbered([]) == [];
    assert Inv(START);
    RunKeeps(START, labels, t);
  }

  /** The client never gets stuck in a state its handlers cannot run from. */
  lemma HandlersStaySound(t: State, l: Label)
    requires Reachable(t) && Enabled(t, l)
    ensures Sound(t.client) && Sound(Step(t, l).client)
  {
    ReachableInv(t);
    InvIsSound(t);
    StepKeeps(t, l);
    InvIsSound(Step(t, l));
  }

  /** On each connection the ids sent are 1, 2, 3, ... in call order, queued calls first. */
  lemma WireIsNumbered(t: State)
    requires Reachable(t)
    ensures t.client.wire + t.client.pendingSend == Numbered(t.calls)
    ensures t.phase == Open ==> t.client.wire == Numbered(t.calls)
    ensures t.phase == Connecting ==> t.client.wire == []
  {
    ReachableInv(t);
    assert t.phase == Open ==> t.client.wire + t.client.pendingSend == t.client.wire;
  }

  /** A promise of an earlier connection is unsettled exactly when it was made in the gap before a reconnect. */
  lemma LostIffMadeInGap(t: State, i: nat)
    requires Reachable(t) && i < |t.births|
    requires t.births[i].connection < t.client.connectionTimes
    ensures |t.client.promises| == |t.births|
    ensures t.client.promises[i] == Waiting <==> t.births[i].inGap
  {
    ReachableInv(t);
  }

  /** Closing settles every promise made since the connection was created, opened or not. */
  lemma CloseSettlesAll(t: State, i: nat)
    requires Reachable(t) && Enabled(t, Close) && i < |t.births|
    requires t.births[i].connection == t.client.connectionTimes
    ensures Sound(t.client) && i < |Step(t, Close).client.promises|
    ensures i < |t.client.promises|
    ensures Step(t, Close).client.promises[i] ==
            if t.client.promises[i] == Waiting then Disconnected else t.client.promises[i]
  {
    ReachableInv(t);
    InvIsSound(t);
    assert t.births[i].connection == t.client.connectionTimes ==> i >= Base(t);
    CloseEffect(t, i);
  }

  /** The table holds one entry for every request of the connection, answered or not. */
  lemma AnswersNeverShrinkTable(t: State)
    requires Reachable(t) && t.phase != Closed
    ensures forall id :: id in t.client.requestMapping <==> 1 <= id <= t.client.requestId
    ensures t.client.requestId == |t.calls|
  {
    ReachableInv(t);
  }

  /** One step neither unsettles a promise nor forgets one. */
  lemma StepRespectsSettled(s: State, l: Label, i: nat)
    requires Inv(s) && Enabled(s, l) && Sound(s.client) && i < |s.births|
    ensures i < |Step(s, l).births| && Step(s, l).births[i] == s.births[i]
    ensures i < |Step(s, l).client.promises|
    ensures s.client.promises[i] != Waiting ==> Step(s, l).client.promises[i] == s.client.promises[i]
  {
  }

  lemma {:induction false} RunRespectsSettled(s: State, labels: seq<Label>, t: State, i: nat)
    requires Inv(s) && Run(s, labels, t) && i < |s.births|
    ensures Inv(t) && i < |t.births| && t.births[i] == s.births[i]
    ensures s.client.promises[i] != Waiting ==> t.client.promises[i] == s.client.promises[i]
    decreases |labels|
  {
    if labels != [] {
      StepKeeps(s, labels[0]);
      StepRespectsSettled(s, labels[0], i);
      RunRespectsSettled(Step(s, labels[0]), labels[1..], t, i);
    }
  }

  /** What a promise was settled with it keeps; one made in the gap is never settled by any later event. */
  lemma SettledForGoodOrNever(s: State, labels: seq<Label>, t: State, i: nat)
    requires Reachable(s) && Run(s, labels, t) && i < |s.births|
    ensures i < |s.client.promises| && i < |t.client.promises|
    ensures s.client.promises[i] != Waiting ==> t.client.promises[i] == s.client.promises[i]
    ensures s.births[i].inGap ==> t.client.promises[i] == Waiting
  {
    ReachableInv(s);
    RunRespectsSettled(s, labels, t, i);
  }

  /** A response settles the promise of the call with that id on this connection, and no other. */
  lemma ResponseSettlesItsCall(t: State, id: nat, payload: Payload, i: nat)
    requires Reachable(t) && Enabled(t, Message(id, payload)) && i < |t.births|
    ensures Sound(t.client) && i < |t.client.promises| == |Step(t, Message(id, payload)).client.promises|
    ensures Step(t, Message(id, payload)).client.promises[i] ==
            if 1 <= id <= |t.calls| && i == Base(t) + id - 1
            then Settle(t.client.promises[i], Outcome(payload)) else t.client.promises[i]
  {
    ReachableInv(t);
    InvIsSound(t);
  }

  /** A success resolves the waiting promise with its result, anything else rejects it with its error. */
  lemma ResponseResolvesOrRejects(t: State, id: nat, payload: Payload)
    requires Reachable(t) && Enabled(t, Message(id, payload)) && 1 <= id <= |t.calls|
    ensures var i := Base(t) + id - 1;
            && Sound(t.client) && 0 <= i < |t.client.promises| == |Step(t, Message(id, payload)).client.promises|
            && (t.client.promises[i] == Waiting ==>
                  Step(t, Message(id, payload)).client.promises[i] ==
                  if payload.success then Resolved(payload.result) else Failed(payload.error))
  {
    ReachableInv(t);
    InvIsSound(t);
  }

  /** What a client has to go through before it is open. */
  function Opening(phase: Phase): seq<Label> {
    match phase
    case Open => []
    case Connecting => [Opened]
    case Closed => [Reconnect, Opened]
  }

  lemma {:induction false} RunConcat(s: State, a: seq<Label>, t: State, b: seq<Label>, u: State)
    requires Run(s, a, t) && Run(t, b, u)
    ensures Run(s, a + b, u)
    decreases |a|
  {
    if a == [] {
      assert a + b == b;
    } else {
      assert (a + b)[0] == a[0] && (a + b)[1..] == a[1..] + b;
      RunConcat(Step(s, a[0]), a[1..], t, b, u);
    }
  }

  lemma StillReachable(s: State, labels: seq<Label>, t: State)
    requires Reachable(s) && Run(s, labels, t)
    ensures Reachable(t)
  {
    var before :| Run(START, before, s);
    RunConcat(START, before, s, labels, t);
  }

  /** From every reachable state the client can open, and no promise is touched by it. */
  lemma CanOpen(s: State) returns (t: State)
    requires Reachable(s)
    ensures Run(s, Opening(s.phase), t) && Reachable(t) && t.phase == Open
    ensures t.births == s.births && t.client.promises == s.client.promises
  {
    ReachableInv(s);
    InvIsSound(s);
    match s.phase {
      case Open =>
        t := s;
      case Connecting =>
        StepKeeps(s, Opened);
        t := Step(s, Opened);
        InvIsSound(t);
      case Closed =>
        var mid := Step(s, Reconnect);
        StepKeeps(s, Reconnect);
        InvIsSound(mid);
        StepKeeps(mid, Opened);
        t := Step(mid, Opened);
        InvIsSound(t);
        assert [Reconnect, Opened][1..] == [Opened] && [Opened][1..] == [];
    }
    StillReachable(s, Opening(s.phase), t);
  }

  /** Once it is open a call is sent at once, under the next id, and the response to that id settles it. */
  lemma CallIsAnswered(s: State, request: Request, payload: Payload)
    requires Reachable(s) && s.phase == Open
    ensures Sound(s.client) && Sound(Step(s, Call(request)).client)
    ensures var sent := Step(s, Call(request));
            var id := |s.calls| + 1;
            && sent.phase == Open && sent.client.wire == s.client.wire + [Sent(id, request)]
            && Enabled(sent, Message(id, payload))
            && var t := Step(sent, Message(id, payload));
               && |t.births| == |s.births| + 1 == |t.client.promises| && t.births[|s.births|].request == request
               && t.client.promises[|s.births|] ==
                  if payload.success then Resolved(payload.result) else Failed(payload.error)
  {
    ReachableInv(s);
    InvIsSound(s);
    StepKeeps(s, Call(request));
    InvIsSound(Step(s, Call(request)));
    hide InOrder, Settlement;
  }

  /** Until its connection closes, a promise waits exactly as long as no response with its id arrives. */
  lemma {:induction false} WaitsUntilAnswered(s: State, labels: seq<Label>, t: State, id: nat)
    requires Reachable(s) && s.phase != Closed && 1 <= id <= |s.calls| && Run(s, labels, t)
    requires forall l :: l in labels ==> !l.Close?
    ensures |s.client.promises| == |s.births| >= |s.calls| && |t.client.promises| >= |s.births|
    ensures t.client.promises[Base(s) + id - 1] == Waiting <==>
            s.client.promises[Base(s) + id - 1] == Waiting && forall l :: l in labels && l.Message? ==> l.id != id
  {
    ReachableInv(s);
    WaitsFrom(s, labels, t, id);
  }

  lemma OneStepWaits(s: State, l: Label, id: nat)
    requires Inv(s) && Sound(s.client) && Enabled(s, l) && s.phase != Closed && !l.Close? && 1 <= id <= |s.calls|
    ensures var u := Step(s, l);
            Base(u) == Base(s) && |u.calls| >= |s.calls| && u.phase != Closed &&
            |u.client.promises| == |u.births| >= |s.births| &&
            (u.client.promises[Base(s) + id - 1] == Waiting <==>
               s.client.promises[Base(s) + id - 1] == Waiting && !(l.Message? && l.id == id))
  {
    hide InOrder, BirthsAreRight, Settlement;
  }

  lemma {:induction false} WaitsFrom(s: State, labels: seq<Label>, t: State, id: nat)
    requires Inv(s) && s.phase != Closed && 1 <= id <= |s.calls| && Run(s, labels, t)
    requires forall l :: l in labels ==> !l.Close?
    ensures |t.client.promises| >= |s.births|
    ensures t.client.promises[Base(s) + id - 1] == Waiting <==>
            s.client.promises[Base(s) + id - 1] == Waiting && forall l :: l in labels && l.Message? ==> l.id != id
    decreases |labels|
  {
    hide Step, InOrder, TableIsFull, BirthsAreRight, Settlement;
    if labels != [] {
      var l, u := labels[0], Step(s, labels[0]);
      StepKeeps(s, l);
      OneStepWaits(s, l, id);
      WaitsFrom(u, labels[1..], t, id);
      assert labels == [l] + labels[1..];
    }
  }

  // ----- a server that answers what it was asked -----

  /** Every response so far answered the request that this connection sent under that id. */
  ghost predicate HonestRun(s: State, labels: seq<Label>, t: State, reply: Request -> Payload)
    decreases |labels|
  {
    Sound(s.client) &&
    if labels == [] then t == s
    else
      && Enabled(s, labels[0])
      && (labels[0].Message? && 1 <= labels[0].id <= |s.calls| ==>
            labels[0].payload == reply(s.calls[labels[0].id - 1]))
      && HonestRun(Step(s, labels[0]), labels[1..], t, reply)
  }

  /** Each promise waits, or was rejected by the close of its connection, or was settled by the reply to its
      own request: resolved with the result of a success, rejected with the error of a failure. */
  ghost predicate OwnAnswer(s: State, i: nat, reply: Request -> Payload)
    requires i < |s.births| == |s.client.promises|
  {
    var answer := reply(s.births[i].request);
    match s.client.promises[i]
    case Waiting => true
    case Disconnected => OutOfReach(s, i) && !s.births[i].inGap
    case Resolved(result) => answer.success && result == answer.result
    case Failed(error) => !answer.success && error == answer.error
  }

  ghost predicate OwnAnswers(s: State, reply: Request -> Payload) {
    |s.client.promises| == |s.births| && forall i: nat :: i < |s.births| ==> OwnAnswer(s, i, reply)
  }

  lemma MessageKeepsOwnAnswer(s: State, l: Label, i: nat, reply: Request -> Payload)
    requires Inv(s) && Sound(s.client) && l.Message? && Enabled(s, l)
    requires i < |s.births| == |s.client.promises| && OwnAnswer(s, i, reply)
    requires 1 <= l.id <= |s.calls| ==> l.payload == reply(s.calls[l.id - 1])
    ensures i < |Step(s, l).births| == |Step(s, l).client.promises| && OwnAnswer(Step(s, l), i, reply)
  {
    hide InOrder, Settlement;
  }

  lemma CloseKeepsOwnAnswer(s: State, l: Label, i: nat, reply: Request -> Payload)
    requires Inv(s) && Sound(s.client) && l.Close? && Enabled(s, l)
    requires i < |s.births| == |s.client.promises| && OwnAnswer(s, i, reply)
    ensures i < |Step(s, l).births| == |Step(s, l).client.promises| && OwnAnswer(Step(s, l), i, reply)
  {
    CloseIs(s, l);
    CloseEffect(s, i);
    hide Step, AfterClose, InOrder, TableIsFull;
  }

  lemma OtherKeepsOwnAnswer(s: State, l: Label, i: nat, reply: Request -> Payload)
    requires Inv(s) && Sound(s.client) && !l.Message? && !l.Close? && Enabled(s, l)
    requires |s.births| == |s.client.promises| && (i < |s.births| ==> OwnAnswer(s, i, reply))
    requires i < |Step(s, l).births|
    ensures i < |Step(s, l).births| == |Step(s, l).client.promises| && OwnAnswer(Step(s, l), i, reply)
  {
    hide InOrder, TableIsFull, Settlement;
  }

  lemma StepKeepsOwnAnswers(s: State, l: Label, reply: Request -> Payload)
    requires Inv(s) && Sound(s.client) && Enabled(s, l) && OwnAnswers(s, reply)
    requires l.Message? && 1 <= l.id <= |s.calls| ==> l.payload == reply(s.calls[l.id - 1])
    ensures OwnAnswers(Step(s, l), reply)
  {
    StepKeeps(s, l);
    hide InOrder, TableIsFull, BirthsAreRight, Settlement, OwnAnswer, AfterClose;
    forall i: nat | i < |Step(s, l).births|
      ensures OwnAnswer(Step(s, l), i, reply)
    {
      if l.Message? {
        MessageKeepsOwnAnswer(s, l, i, reply);
      } else if l.Close? {
        CloseKeepsOwnAnswer(s, l, i, reply);
      } else {
        OtherKeepsOwnAnswer(s, l, i, reply);
      }
    }
  }

  lemma {:induction false} HonestRunKeepsOwnAnswers(s: State, labels: seq<Label>, t: State, reply: Request -> Payload)
    requires Inv(s) && OwnAnswers(s, reply) && HonestRun(s, labels, t, reply)
    ensures OwnAnswers(t, reply)
    decreases |labels|
  {
    hide Inv, Step, OwnAnswers;
    if labels != [] {
      StepKeeps(s, labels[0]);
      StepKeepsOwnAnswers(s, labels[0], reply);
      HonestRunKeepsOwnAnswers(Step(s, labels[0]), labels[1..], t, reply);
    }
  }

  /** However responses are ordered, repeated or cut off by closes, no promise gets another call's answer. */
  lemma PromisesGetOwnAnswers(labels: seq<Label>, t: State, reply: Request -> Payload)
    requires HonestRun(START, labels, t, reply)
    ensures OwnAnswers(t, reply)
  {
    assert Numbered([]) == [];
    HonestRunKeepsOwnAnswers(START, labels, t, reply);
  }
}

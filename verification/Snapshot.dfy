/** The concurrent snapshot behind Items: one goroutine per shard copies the shard into a channel under
    its read lock, one per channel moves tuples on, and the caller collects them, while writers run. */
module Snapshot {
  import opened Fnv
  import opened Options
  import opened Records
  import opened ShardedMap

  datatype Tuple = Tuple(key: Key, val: Record)

  datatype Chan = Chan(buf: seq<Tuple>, cap: nat, closed: bool)

  /** Where the copying goroutine of a shard stands. */
  datatype Copier =
    | NotStarted
    | Locked                           // holds the read lock
    | Made                             // has made its channel
    | Feeding(todo: map<Key, Record>)  // has signalled; still to send
    | Unlocked
    | Closed

  /** Where the goroutine that drains a shard's channel stands. */
  datatype Mover = Off | Ready | Holding(t: Tuple) | Finished

  /** A shard, its channel and its two goroutines; `taken` records what the shard held when it was locked. */
  datatype Lane = Lane(items: map<Key, Record>, copier: Copier, chan: Option<Chan>, mover: Mover,
                       taken: map<Key, Record>)

  /** `out` appears when snapshot has returned and the movers have been launched. */
  datatype State = State(lanes: seq<Lane>, out: Option<Chan>, received: seq<Tuple>, tmp: map<Key, Record>,
                         done: bool)

  datatype Label =
    | Write(i: nat, items: map<Key, Record>)  // any operation of a writer on shard i
    | Lock(i: nat)
    | Make(i: nat)
    | Signal(i: nat)
    | Send(i: nat, key: Key)
    | Unlock(i: nat)
    | Close(i: nat)
    | Launch
    | Take(i: nat)
    | Push(i: nat)
    | Finish(i: nat)
    | CloseOut
    | Receive
    | Stop

  function Init(views: Views<Record>): State {
    State(seq(|views|, i requires 0 <= i < |views| => Lane(views[i], NotStarted, None, Off, map[])),
          None, [], map[], false)
  }

  predicate ReadLocked(l: Lane) {
    l.copier.Locked? || l.copier.Made? || l.copier.Feeding?
  }

  predicate Signalled(l: Lane) {
    l.copier.Feeding? || l.copier.Unlocked? || l.copier.Closed?
  }

  predicate OnLane(l: Label) {
    !l.Launch? && !l.CloseOut? && !l.Receive? && !l.Stop?
  }

  /** Can the step happen at this lane? `room` says that `out` can take one more tuple. */
  predicate LaneEnabled(lane: Lane, l: Label, room: bool)
    requires OnLane(l)
  {
    match l
    case Write(i, items) => !ReadLocked(lane) && forall k :: k in items ==> Index(k) == i
    case Lock(_) => lane.copier.NotStarted?
    case Make(_) => lane.copier.Locked?
    case Signal(_) => lane.copier.Made?
    case Send(_, key) =>
      && lane.copier.Feeding? && key in lane.copier.todo
      && lane.chan.Some? && |lane.chan.value.buf| < lane.chan.value.cap
    case Unlock(_) => lane.copier == Feeding(map[])
    case Close(_) => lane.copier.Unlocked? && lane.chan.Some?
    case Take(_) => lane.mover.Ready? && lane.chan.Some? && lane.chan.value.buf != []
    case Push(_) => lane.mover.Holding? && room
    case Finish(_) =>
      lane.mover.Ready? && lane.chan.Some? && lane.chan.value.closed && lane.chan.value.buf == []
  }

  predicate HasRoom(s: State) {
    s.out.Some? && |s.out.value.buf| < s.out.value.cap
  }

  predicate Enabled(s: State, l: Label) {
    if OnLane(l) then l.i < |s.lanes| && LaneEnabled(s.lanes[l.i], l, HasRoom(s))
    else match l
      case Launch => s.out.None? && forall i :: 0 <= i < |s.lanes| ==> Signalled(s.lanes[i])
      case CloseOut =>
        s.out.Some? && !s.out.value.closed && forall i :: 0 <= i < |s.lanes| ==> s.lanes[i].mover.Finished?
      case Receive => s.out.Some? && s.out.value.buf != []
      case _ => s.out.Some? && s.out.value.closed && s.out.value.buf == [] && !s.done
  }

  /** The new state of the lane. */
  function LaneStep(lane: Lane, l: Label, room: bool): Lane
    requires OnLane(l) && LaneEnabled(lane, l, room)
  {
    match l
    case Write(_, items) => lane.(items := items)
    case Lock(_) => lane.(copier := Locked, taken := lane.items)
    case Make(_) => lane.(copier := Made, chan := Some(Chan([], |lane.items|, false)))
    case Signal(_) => lane.(copier := Feeding(lane.items))
    case Send(_, key) =>
      lane.(copier := Feeding(lane.copier.todo - {key}),
            chan := Some(lane.chan.value.(buf := lane.chan.value.buf + [Tuple(key, lane.copier.todo[key])])))
    case Unlock(_) => lane.(copier := Unlocked)
    case Close(_) => lane.(copier := Closed, chan := Some(lane.chan.value.(closed := true)))
    case Take(_) =>
      lane.(chan := Some(lane.chan.value.(buf := lane.chan.value.buf[1..])), mover := Holding(lane.chan.value.buf[0]))
    case Push(_) => lane.(mover := Ready)
    case Finish(_) => lane.(mover := Finished)
  }

  function Step(s: State, l: Label): State {
    if !Enabled(s, l) then s
    else if OnLane(l) then
      var lane := s.lanes[l.i];
      s.(lanes := s.lanes[l.i := LaneStep(lane, l, HasRoom(s))],
         out := if l.Push? then Some(s.out.value.(buf := s.out.value.buf + [lane.mover.t])) else s.out)
    else match l
      case Launch =>
        s.(lanes := seq(|s.lanes|, i requires 0 <= i < |s.lanes| => s.lanes[i].(mover := Ready)),
           out := Some(Chan([], Total(s.lanes, Capacity), false)))
      case CloseOut => s.(out := Some(s.out.value.(closed := true)))
      case Receive =>
        var t := s.out.value.buf[0];
        s.(out := Some(s.out.value.(buf := s.out.value.buf[1..])),
           received := s.received + [t], tmp := s.tmp[t.key := t.val])
      case _ => s.(done := true)
  }

  function Capacity(l: Lane): nat {
    if l.chan.Some? then l.chan.value.cap else 0
  }

  function Exec(s: State, ls: seq<Label>): State {
    if ls == [] then s else Step(Exec(s, ls[..|ls| - 1]), ls[|ls| - 1])
  }

  // ---- Sums over the lanes -----------------------------------------------

  function Total(lanes: seq<Lane>, f: Lane -> nat): nat {
    if lanes == [] then 0 else Total(lanes[..|lanes| - 1], f) + f(lanes[|lanes| - 1])
  }

  lemma {:induction false} TotalUpdate(lanes: seq<Lane>, i: nat, l: Lane, f: Lane -> nat)
    requires i < |lanes|
    ensures Total(lanes[i := l], f) == Total(lanes, f) - f(lanes[i]) + f(l)
    ensures f(lanes[i]) <= Total(lanes, f)
  {
    var n := |lanes| - 1;
    if i < n {
      assert lanes[i := l][..n] == lanes[..n][i := l];
      TotalUpdate(lanes[..n], i, l, f);
    } else {
      assert lanes[i := l][..n] == lanes[..n];
    }
  }

  lemma {:induction false} TotalSame(a: seq<Lane>, b: seq<Lane>, f: Lane -> nat, g: Lane -> nat)
    requires |a| == |b| && forall i :: 0 <= i < |a| ==> f(a[i]) == g(b[i])
    ensures Total(a, f) == Total(b, g)
  {
    if a != [] {
      TotalSame(a[..|a| - 1], b[..|b| - 1], f, g);
    }
  }

  /** A writer gets to a shard exactly when no copier holds its read lock, and then puts there what it likes. */
  lemma WritersAreLockedOut(s: State, i: nat, items: map<Key, Record>)
    requires i < |s.lanes| && forall k :: k in items ==> Index(k) == i
    ensures Enabled(s, Write(i, items)) <==> !(s.lanes[i].copier.Locked? || s.lanes[i].copier.Made?
                                               || s.lanes[i].copier.Feeding?)
    ensures Enabled(s, Write(i, items)) ==>
              Step(s, Write(i, items)) == s.(lanes := s.lanes[i := s.lanes[i].(items := items)])
  {
  }

  // ---- Where the tuples are ----------------------------------------------

  /** What the copier has still to send. */
  function Todo(l: Lane): map<Key, Record> {
    match l.copier
    case Locked => l.taken
    case Made => l.taken
    case Feeding(todo) => todo
    case _ => map[]
  }

  function Buf(l: Lane): seq<Tuple> {
    if l.chan.Some? then l.chan.value.buf else []
  }

  function Held(l: Lane): seq<Tuple> {
    if l.mover.Holding? then [l.mover.t] else []
  }

  function OutBuf(s: State): seq<Tuple> {
    if s.out.Some? then s.out.value.buf else []
  }

  predicate InMap(m: map<Key, Record>, t: Tuple) {
    t.key in m && m[t.key] == t.val
  }

  /** How often the tuple occurs in the lane. */
  function Upstream(l: Lane, t: Tuple): nat {
    (if InMap(Todo(l), t) then 1 else 0) + multiset(Buf(l))[t] + multiset(Held(l))[t]
  }

  /** How often the tuple occurs past the lanes. */
  function Downstream(s: State, t: Tuple): nat {
    multiset(OutBuf(s))[t] + multiset(s.received)[t]
  }

  /** How many tuples of a lane have still to reach `out`. */
  function Waiting(l: Lane): nat {
    |Todo(l)| + |Buf(l)| + |Held(l)|
  }

  function Taken(l: Lane): nat {
    |l.taken|
  }

  // ---- The invariant -----------------------------------------------------

  ghost predicate LaneShape(i: nat, l: Lane, launched: bool) {
    && (forall k :: k in l.items ==> Index(k) == i)
    && (forall k :: k in l.taken ==> Index(k) == i)
    && (ReadLocked(l) ==> l.taken == l.items)
    && (l.copier.NotStarted? ==> l.taken == map[])
    && (l.chan.Some? <==> !l.copier.NotStarted? && !l.copier.Locked?)
    && (l.chan.Some? ==> l.chan.value.cap == |l.taken| && (l.chan.value.closed <==> l.copier.Closed?))
    && (l.copier.Made? ==> Buf(l) == [])
    && (l.mover.Off? <==> !launched)
    && (l.mover.Finished? ==> l.copier.Closed? && Buf(l) == [])
  }

  ghost predicate LaneTuples(i: nat, l: Lane, launched: bool) {
    && (forall k :: k in Todo(l) ==> InMap(l.taken, Tuple(k, Todo(l)[k])))
    && (forall t :: t in Buf(l) || t in Held(l) ==> Index(t.key) == i)
    && Waiting(l) <= |l.taken|
    && (!launched ==> Waiting(l) == |l.taken|)
  }

  ghost predicate LanesInv(s: State) {
    && |s.lanes| == SHARD_COUNT
    && forall i: nat :: i < |s.lanes| ==>
         LaneShape(i, s.lanes[i], s.out.Some?) && LaneTuples(i, s.lanes[i], s.out.Some?)
  }

  ghost predicate OutInv(s: State) {
    && (s.out.None? ==> s.received == [] && !s.done)
    && (s.out.Some? ==>
          && (forall i :: 0 <= i < |s.lanes| ==> Signalled(s.lanes[i]))
          && s.out.value.cap == Total(s.lanes, Taken)
          && Total(s.lanes, Waiting) + |s.out.value.buf| + |s.received| == s.out.value.cap
          && (s.out.value.closed ==> forall i :: 0 <= i < |s.lanes| ==> s.lanes[i].mover.Finished?))
    && (s.done ==> s.out.Some? && s.out.value.closed && s.out.value.buf == [])
  }

  /** Every tuple a shard held when it was locked is in exactly one place, and nothing else is anywhere. */
  ghost predicate Conserved(s: State) {
    |s.lanes| == SHARD_COUNT && forall t: Tuple :: ConservedAt(s, t)
  }

  predicate ConservedAt(s: State, t: Tuple)
    requires |s.lanes| == SHARD_COUNT
  {
    var l := s.lanes[Index(t.key)];
    Upstream(l, t) + Downstream(s, t) == if InMap(l.taken, t) then 1 else 0
  }

  /** The collected map is the set of received tuples. */
  ghost predicate Collected(s: State) {
    && (forall t :: t in s.received ==> InMap(s.tmp, t))
    && (forall k :: k in s.tmp ==> Tuple(k, s.tmp[k]) in s.received)
  }

  ghost predicate Inv(s: State) {
    LanesInv(s) && OutInv(s) && Conserved(s) && Collected(s)
  }

  // ---- Steps keep the invariant ------------------------------------------

  lemma DropOne(m: map<Key, Record>, k: Key)
    requires k in m
    ensures |m - {k}| == |m| - 1
  {
    assert (m - {k}).Keys == m.Keys - {k};
  }

  /** A lane that satisfies the invariant, and a step it can take. */
  ghost predicate Movable(i: nat, lane: Lane, l: Label, launched: bool, room: bool) {
    && LaneShape(i, lane, launched) && LaneTuples(i, lane, launched)
    && OnLane(l) && l.i == i && LaneEnabled(lane, l, room)
    && (room ==> launched) && (launched ==> Signalled(lane))
  }

  lemma ShapeKept(i: nat, lane: Lane, l: Label, launched: bool, room: bool)
    requires Movable(i, lane, l, launched, room)
    ensures LaneShape(i, LaneStep(lane, l, room), launched)
    ensures l.Lock? ==> !launched
    ensures !l.Lock? ==> LaneStep(lane, l, room).taken == lane.taken
  {
  }

  /** Most steps of a lane move no tuple. */
  lemma StillSteps(i: nat, lane: Lane, l: Label, launched: bool, room: bool)
    requires Movable(i, lane, l, launched, room) && !l.Lock? && !l.Send? && !l.Take? && !l.Push?
    ensures var lane' := LaneStep(lane, l, room);
            Todo(lane') == Todo(lane) && Buf(lane') == Buf(lane) && Held(lane') == Held(lane)
  {
  }

  lemma LockTakesAll(i: nat, lane: Lane, launched: bool, room: bool)
    requires Movable(i, lane, Lock(i), launched, room)
    ensures Todo(lane) == map[] && Buf(lane) == [] && Held(lane) == []
    ensures var lane' := LaneStep(lane, Lock(i), room);
            lane'.taken == lane.items && Todo(lane') == lane.items && Buf(lane') == [] && Held(lane') == []
  {
  }

  lemma SendMovesOne(i: nat, lane: Lane, key: Key, launched: bool, room: bool)
    requires Movable(i, lane, Send(i, key), launched, room)
    ensures var lane' := LaneStep(lane, Send(i, key), room);
            && key in Todo(lane) && Todo(lane') == Todo(lane) - {key}
            && Buf(lane') == Buf(lane) + [Tuple(key, Todo(lane)[key])] && Held(lane') == Held(lane)
  {
  }

  lemma TakeMovesOne(i: nat, lane: Lane, launched: bool, room: bool)
    requires Movable(i, lane, Take(i), launched, room)
    ensures var lane' := LaneStep(lane, Take(i), room);
            && Todo(lane') == Todo(lane) && Held(lane) == []
            && Buf(lane) == Held(lane') + Buf(lane') && |Held(lane')| == 1
  {
  }

  lemma PushMovesOne(i: nat, lane: Lane, launched: bool, room: bool)
    requires Movable(i, lane, Push(i), launched, room)
    ensures var lane' := LaneStep(lane, Push(i), room);
            && Todo(lane') == Todo(lane) && Buf(lane') == Buf(lane)
            && Held(lane) == [lane.mover.t] && Held(lane') == []
  {
  }

  lemma TuplesKept(i: nat, lane: Lane, l: Label, launched: bool, room: bool)
    requires Movable(i, lane, l, launched, room)
    ensures LaneTuples(i, LaneStep(lane, l, room), launched)
    ensures !l.Lock? ==> Waiting(LaneStep(lane, l, room)) == Waiting(lane) - if l.Push? then 1 else 0
  {
    hide LaneStep, Todo, Buf, Held, LaneShape;
    ShapeKept(i, lane, l, launched, room);
    match l
    case Lock(_) =>
      LockTakesAll(i, lane, launched, room);
    case Send(_, key) =>
      SendMovesOne(i, lane, key, launched, room);
      DropOne(Todo(lane), key);
      assert InMap(lane.taken, Tuple(key, Todo(lane)[key]));
      TakenIndex(i, lane, key, launched);
    case Take(_) =>
      TakeMovesOne(i, lane, launched, room);
    case Push(_) =>
      PushMovesOne(i, lane, launched, room);
    case _ =>
      StillSteps(i, lane, l, launched, room);
  }

  lemma TakenIndex(i: nat, lane: Lane, key: Key, launched: bool)
    requires LaneShape(i, lane, launched) && key in lane.taken
    ensures Index(key) == i
  {
  }

  lemma LaneConserves(i: nat, lane: Lane, l: Label, launched: bool, room: bool, t: Tuple)
    requires Movable(i, lane, l, launched, room)
    ensures var lane' := LaneStep(lane, l, room);
            if l.Lock? then Upstream(lane, t) == 0 && Upstream(lane', t) == if InMap(lane'.taken, t) then 1 else 0
            else Upstream(lane', t) == Upstream(lane, t) - if l.Push? && lane.mover.t == t then 1 else 0
  {
    hide LaneStep, Todo, Buf, Held, LaneShape, LaneTuples;
    match l
    case Lock(_) =>
      LockTakesAll(i, lane, launched, room);
    case Send(_, key) =>
      SendMovesOne(i, lane, key, launched, room);
    case Take(_) =>
      TakeMovesOne(i, lane, launched, room);
    case Push(_) =>
      PushMovesOne(i, lane, launched, room);
    case _ =>
      StillSteps(i, lane, l, launched, room);
  }

  lemma LaneIsMovable(s: State, l: Label)
    requires LanesInv(s) && OutInv(s) && OnLane(l) && Enabled(s, l)
    ensures Movable(l.i, s.lanes[l.i], l, s.out.Some?, HasRoom(s))
  {
  }

  /** A lane's step changes that lane, and `out` if it pushes. */
  lemma LaneStepIs(s: State, l: Label)
    requires OnLane(l) && Enabled(s, l)
    ensures var t := Step(s, l);
            && t.lanes == s.lanes[l.i := LaneStep(s.lanes[l.i], l, HasRoom(s))]
            && (if l.Push? then
                  && HasRoom(s) && s.lanes[l.i].mover.Holding?
                  && t.out == Some(s.out.value.(buf := s.out.value.buf + [s.lanes[l.i].mover.t]))
                else t.out == s.out)
            && t.received == s.received && t.tmp == s.tmp && t.done == s.done
  {
  }

  lemma StepKeepsLanes(s: State, l: Label)
    requires LanesInv(s) && OutInv(s) && Enabled(s, l)
    ensures LanesInv(Step(s, l))
  {
    hide LaneStep, LaneEnabled;
    if OnLane(l) {
      LaneStepKeepsLanes(s, l);
    } else if l.Launch? {
      LaunchKeepsLanes(s);
    }
  }

  lemma LaneStepKeepsLanes(s: State, l: Label)
    requires LanesInv(s) && OutInv(s) && OnLane(l) && Enabled(s, l)
    ensures LanesInv(Step(s, l))
  {
    hide Step, LaneStep, LaneShape, LaneTuples, Movable;
    LaneIsMovable(s, l);
    LaneStepIs(s, l);
    ShapeKept(l.i, s.lanes[l.i], l, s.out.Some?, HasRoom(s));
    TuplesKept(l.i, s.lanes[l.i], l, s.out.Some?, HasRoom(s));
  }

  lemma LaneLaunched(i: nat, lane: Lane)
    requires LaneShape(i, lane, false) && LaneTuples(i, lane, false) && Signalled(lane)
    ensures var lane' := lane.(mover := Ready);
            && LaneShape(i, lane', true) && LaneTuples(i, lane', true)
            && Capacity(lane) == Taken(lane') == Waiting(lane')
  {
  }

  lemma LaunchKeepsLanes(s: State)
    requires LanesInv(s) && Enabled(s, Launch)
    ensures LanesInv(Step(s, Launch))
  {
    hide LaneShape, LaneTuples, Signalled, Total;
    forall i: nat | i < |s.lanes|
      ensures LaneShape(i, Step(s, Launch).lanes[i], true) && LaneTuples(i, Step(s, Launch).lanes[i], true)
    {
      LaneLaunched(i, s.lanes[i]);
    }
  }

  lemma SignalledStays(lane: Lane, l: Label, room: bool)
    requires OnLane(l) && LaneEnabled(lane, l, room)
    ensures Signalled(lane) ==> Signalled(LaneStep(lane, l, room))
    ensures lane.mover.Finished? ==> LaneStep(lane, l, room).mover.Finished?
    ensures lane.mover.Finished? ==> !l.Push?
  {
  }

  lemma LaneStepKeepsOut(s: State, l: Label)
    requires LanesInv(s) && OutInv(s) && OnLane(l) && Enabled(s, l)
    ensures OutInv(Step(s, l))
  {
    hide Step, LaneStep, LaneShape, LaneTuples, Movable, Waiting, Total;
    LaneStepIs(s, l);
    var lane, lane' := s.lanes[l.i], LaneStep(s.lanes[l.i], l, HasRoom(s));
    LaneIsMovable(s, l);
    ShapeKept(l.i, lane, l, s.out.Some?, HasRoom(s));
    TuplesKept(l.i, lane, l, s.out.Some?, HasRoom(s));
    TotalUpdate(s.lanes, l.i, lane', Waiting);
    TotalUpdate(s.lanes, l.i, lane', Taken);
    SignalledStays(lane, l, HasRoom(s));
  }

  lemma LaunchKeepsOut(s: State)
    requires LanesInv(s) && OutInv(s) && Enabled(s, Launch)
    ensures OutInv(Step(s, Launch))
  {
    hide LaneShape, LaneTuples, Waiting, Taken, Capacity, Total;
    var t := Step(s, Launch);
    forall i | 0 <= i < |s.lanes|
      ensures Capacity(s.lanes[i]) == Taken(t.lanes[i]) == Waiting(t.lanes[i]) && Signalled(t.lanes[i])
    {
      LaneLaunched(i, s.lanes[i]);
    }
    TotalSame(s.lanes, t.lanes, Capacity, Taken);
    TotalSame(s.lanes, t.lanes, Capacity, Waiting);
  }

  lemma StepKeepsOut(s: State, l: Label)
    requires LanesInv(s) && OutInv(s) && Enabled(s, l)
    ensures OutInv(Step(s, l))
  {
    if OnLane(l) {
      LaneStepKeepsOut(s, l);
    } else if l.Launch? {
      LaunchKeepsOut(s);
    }
  }

  lemma LaunchConserves(s: State, t: Tuple)
    requires LanesInv(s) && ConservedAt(s, t) && Enabled(s, Launch)
    ensures ConservedAt(Step(s, Launch), t)
  {
    hide LaneTuples, Total, Signalled;
    var i := Index(t.key);
    assert LaneShape(i, s.lanes[i], false);
    assert Step(s, Launch).lanes[i] == s.lanes[i].(mover := Ready);
  }

  lemma ReceiveConserves(s: State, t: Tuple)
    requires |s.lanes| == SHARD_COUNT && ConservedAt(s, t) && Enabled(s, Receive)
    ensures ConservedAt(Step(s, Receive), t)
  {
    hide Upstream;
    assert OutBuf(s) == [OutBuf(s)[0]] + OutBuf(s)[1..];
  }

  lemma StepConserves(s: State, l: Label, t: Tuple)
    requires LanesInv(s) && OutInv(s) && ConservedAt(s, t) && Enabled(s, l)
    ensures ConservedAt(Step(s, l), t)
  {
    hide LaneStep, LaneEnabled, LaneShape, LaneTuples, Upstream;
    if OnLane(l) {
      LaneStepConservesAt(s, l, t);
    } else if l.Receive? {
      ReceiveConserves(s, t);
    } else if l.Launch? {
      LaunchConserves(s, t);
    }
  }

  lemma LaneStepConservesAt(s: State, l: Label, t: Tuple)
    requires LanesInv(s) && OutInv(s) && ConservedAt(s, t) && OnLane(l) && Enabled(s, l)
    ensures ConservedAt(Step(s, l), t)
  {
    hide Step, LaneStep, LaneShape, LaneTuples, Upstream, Movable;
    LaneStepIs(s, l);
    var lane := s.lanes[l.i];
    LaneIsMovable(s, l);
    ShapeKept(l.i, lane, l, s.out.Some?, HasRoom(s));
    LaneConserves(l.i, lane, l, s.out.Some?, HasRoom(s), t);
    HeldHere(l.i, lane, l, s.out.Some?, HasRoom(s));
  }

  lemma HeldHere(i: nat, lane: Lane, l: Label, launched: bool, room: bool)
    requires Movable(i, lane, l, launched, room)
    ensures l.Push? ==> Index(lane.mover.t.key) == i
    ensures l.Lock? ==> lane.taken == map[]
  {
    assert l.Push? ==> lane.mover.t in Held(lane);
  }

  lemma ReceiveKeepsCollected(s: State)
    requires Inv(s) && Enabled(s, Receive)
    ensures Collected(Step(s, Receive))
  {
    hide LanesInv, OutInv, Upstream;
    var t := s.out.value.buf[0];
    assert OutBuf(s)[0] == t;
    forall u | u in s.received
      ensures u.key != t.key
    {
      assert ConservedAt(s, t) && ConservedAt(s, u);
      assert multiset(s.received)[u] > 0 && multiset(OutBuf(s))[t] > 0;
    }
    assert forall k :: k in s.tmp ==> Tuple(k, s.tmp[k]) in s.received + [t];
  }

  lemma StepInv(s: State, l: Label)
    requires Inv(s)
    ensures Inv(Step(s, l))
  {
    hide ConservedAt, OutInv, LanesInv, LaneStep, LaneEnabled, LaneShape, LaneTuples;
    if Enabled(s, l) {
      StepKeepsLanes(s, l);
      StepKeepsOut(s, l);
      StepKeepsCollected(s, l);
      forall t: Tuple
        ensures ConservedAt(Step(s, l), t)
      {
        StepConserves(s, l, t);
      }
      assert |Step(s, l).lanes| == SHARD_COUNT;
    }
  }

  lemma StepKeepsCollected(s: State, l: Label)
    requires Inv(s) && Enabled(s, l)
    ensures Collected(Step(s, l))
  {
    hide LanesInv, OutInv, ConservedAt, LaneEnabled, LaneStep;
    if l.Receive? {
      ReceiveKeepsCollected(s);
    }
  }

  lemma InitInv(views: Views<Record>)
    requires WellSharded(views)
    ensures Inv(Init(views))
  {
    var s := Init(views);
    forall i: nat | i < |s.lanes|
      ensures LaneShape(i, s.lanes[i], false) && LaneTuples(i, s.lanes[i], false)
    {
    }
    forall t: Tuple
      ensures ConservedAt(s, t)
    {
    }
  }

  lemma {:induction false} ExecInv(views: Views<Record>, ls: seq<Label>)
    requires WellSharded(views)
    ensures Inv(Exec(Init(views), ls))
  {
    if ls == [] {
      InitInv(views);
    } else {
      ExecInv(views, ls[..|ls| - 1]);
      StepInv(Exec(Init(views), ls[..|ls| - 1]), ls[|ls| - 1]);
    }
  }
}

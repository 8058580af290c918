/** What the concurrent snapshot guarantees to the caller of Items. */
module SnapshotResults {
  import opened Fnv
  import opened Options
  import opened Records
  import opened ShardedMap
  import opened Snapshot
  import opened Merge

  // ---- No step ever waits for room ---------------------------------------

  /** In every reachable state a copier with something to send, and a mover with a tuple in hand, find
      room in their channel. */
  lemma ChannelsNeverFull(views: Views<Record>, ls: seq<Label>, i: nat)
    requires WellSharded(views) && i < SHARD_COUNT
    ensures var s := Exec(Init(views), ls);
            && |s.lanes| == SHARD_COUNT
            && (forall k :: s.lanes[i].copier.Feeding? && k in s.lanes[i].copier.todo ==> Enabled(s, Send(i, k)))
            && (s.lanes[i].mover.Holding? ==> Enabled(s, Push(i)))
  {
    ExecInv(views, ls);
    RoomLeft(Exec(Init(views), ls), i);
  }

  lemma SendRoom(i: nat, lane: Lane, k: Key, launched: bool)
    requires LaneShape(i, lane, launched) && LaneTuples(i, lane, launched)
    requires lane.copier.Feeding? && k in lane.copier.todo
    ensures LaneEnabled(lane, Send(i, k), false)
  {
    DropOne(lane.copier.todo, k);
  }

  lemma PushRoom(s: State, i: nat)
    requires LanesInv(s) && OutInv(s) && i < |s.lanes| && s.lanes[i].mover.Holding?
    ensures HasRoom(s)
  {
    hide Total;
    assert LaneShape(i, s.lanes[i], s.out.Some?);
    TotalUpdate(s.lanes, i, s.lanes[i], Waiting);
  }

  lemma RoomLeft(s: State, i: nat)
    requires LanesInv(s) && OutInv(s) && i < |s.lanes|
    ensures forall k :: s.lanes[i].copier.Feeding? && k in s.lanes[i].copier.todo ==> Enabled(s, Send(i, k))
    ensures s.lanes[i].mover.Holding? ==> Enabled(s, Push(i))
  {
    hide LaneShape, LaneTuples, Total;
    if s.lanes[i].mover.Holding? {
      PushRoom(s, i);
    }
    forall k | s.lanes[i].copier.Feeding? && k in s.lanes[i].copier.todo
      ensures Enabled(s, Send(i, k))
    {
      SendRoom(i, s.lanes[i], k, s.out.Some?);
    }
  }

  /** `out` is closed only after every shard's channel has been closed and drained. */
  lemma OutClosesLast(views: Views<Record>, ls: seq<Label>, i: nat)
    requires WellSharded(views) && i < SHARD_COUNT
    ensures var s := Exec(Init(views), ls);
            s.out.Some? && s.out.value.closed ==>
              && i < |s.lanes| && s.lanes[i].chan.Some?
              && s.lanes[i].chan.value.closed && s.lanes[i].chan.value.buf == [] && !s.lanes[i].mover.Holding?
  {
    ExecInv(views, ls);
    var s := Exec(Init(views), ls);
    assert LaneShape(i, s.lanes[i], s.out.Some?);
  }

  // ---- The result --------------------------------------------------------

  /** No tuple is received twice, so none is overwritten in the result. */
  lemma NoKeyTwice(views: Views<Record>, ls: seq<Label>, a: nat, b: nat)
    requires WellSharded(views) && a < b < |Exec(Init(views), ls).received|
    ensures Exec(Init(views), ls).received[a].key != Exec(Init(views), ls).received[b].key
  {
    ExecInv(views, ls);
    var s := Exec(Init(views), ls);
    var t, u := s.received[a], s.received[b];
    assert ConservedAt(s, t) && ConservedAt(s, u);
    assert multiset(s.received)[u] > 0 && multiset(s.received)[t] > 0;
    if t.key == u.key {
      assert t == u;
      TwiceInMultiset(s.received, a, b);
    }
  }

  lemma TwiceInMultiset(q: seq<Tuple>, a: nat, b: nat)
    requires a < b < |q| && q[a] == q[b]
    ensures multiset(q)[q[a]] >= 2
  {
    assert q == q[..b] + q[b..];
    assert q[..b][a] in multiset(q[..b]) && q[b..][0] in multiset(q[b..]);
  }

  /** When the caller has finished, it holds exactly what each shard held when it was locked. */
  lemma CollectsTaken(s: State, k: Key)
    requires Inv(s) && s.done
    ensures Lookup(s.tmp, k) == Lookup(s.lanes[Index(k)].taken, k)
  {
    var i := Index(k);
    var lane := s.lanes[i];
    assert LaneShape(i, lane, true) && LaneTuples(i, lane, true);
    forall v
      ensures InMap(lane.taken, Tuple(k, v)) <==> Tuple(k, v) in s.received
    {
      assert ConservedAt(s, Tuple(k, v));
      assert Upstream(lane, Tuple(k, v)) == 0 && OutBuf(s) == [];
      assert multiset(s.received)[Tuple(k, v)] > 0 <==> Tuple(k, v) in s.received;
    }
    if k in lane.taken {
      assert InMap(lane.taken, Tuple(k, lane.taken[k]));
    }
    if k in s.tmp {
      assert Tuple(k, s.tmp[k]) in s.received;
    }
  }

  /** A locked shard's copy is what the shard held at a moment before snapshot returned. */
  lemma {:induction false} TakenAtAMoment(views: Views<Record>, ls: seq<Label>, i: nat) returns (t: nat)
    requires WellSharded(views) && i < SHARD_COUNT
    requires |Exec(Init(views), ls).lanes| == SHARD_COUNT && !Exec(Init(views), ls).lanes[i].copier.NotStarted?
    ensures t <= |ls| && |Exec(Init(views), ls[..t]).lanes| == SHARD_COUNT
    ensures Exec(Init(views), ls[..t]).out.None?
    ensures Exec(Init(views), ls[..t]).lanes[i].items == Exec(Init(views), ls).lanes[i].taken
  {
    var init, l := ls[..|ls| - 1], ls[|ls| - 1];
    var s := Exec(Init(views), init);
    ExecInv(views, init);
    if s.lanes[i].copier.NotStarted? {
      t := |ls| - 1;
      assert l == Lock(i) && Enabled(s, l);
      assert !Signalled(s.lanes[i]);
    } else {
      t := TakenAtAMoment(views, init, i);
      assert init[..t] == ls[..t];
      TakenStays(s, l, i);
    }
  }

  lemma TakenStays(s: State, l: Label, i: nat)
    requires i < |s.lanes| && !s.lanes[i].copier.NotStarted?
    ensures i < |Step(s, l).lanes| && Step(s, l).lanes[i].taken == s.lanes[i].taken
  {
    hide Total, LaneStep, LaneEnabled, HasRoom;
    if OnLane(l) && Enabled(s, l) {
      LaneTakenStays(s.lanes[l.i], l, HasRoom(s));
    }
  }

  lemma LaneTakenStays(lane: Lane, l: Label, room: bool)
    requires OnLane(l) && LaneEnabled(lane, l, room)
    ensures !lane.copier.NotStarted? ==> LaneStep(lane, l, room).taken == lane.taken
    ensures !l.Write? ==> LaneStep(lane, l, room).items == lane.items
  {
  }

  /** The result restricted to a shard is the exact contents of that shard at one moment between the
      call and snapshot's return, whatever the writers did meanwhile. */
  lemma PerShardLinearizable(views: Views<Record>, ls: seq<Label>, i: nat)
    requires WellSharded(views) && i < SHARD_COUNT && Exec(Init(views), ls).done
    ensures exists t: nat ::
              && t <= |ls| && |Exec(Init(views), ls[..t]).lanes| == SHARD_COUNT
              && Exec(Init(views), ls[..t]).out.None?
              && forall k :: Index(k) == i ==>
                   Lookup(Exec(Init(views), ls).tmp, k) == Lookup(Exec(Init(views), ls[..t]).lanes[i].items, k)
  {
    var s := Exec(Init(views), ls);
    ExecInv(views, ls);
    assert Signalled(s.lanes[i]);
    var t := TakenAtAMoment(views, ls, i);
    forall k | Index(k) == i
      ensures Lookup(s.tmp, k) == Lookup(Exec(Init(views), ls[..t]).lanes[i].items, k)
    {
      CollectsTaken(s, k);
    }
  }

  lemma QuietAt(views: Views<Record>, ls: seq<Label>, k: Key)
    requires WellSharded(views) && Exec(Init(views), ls).done
    requires forall j :: 0 <= j < |ls| ==> !ls[j].Write?
    ensures Lookup(Exec(Init(views), ls).tmp, k) == Lookup(Flat(views), k)
  {
    var i := Index(k);
    ExecInv(views, ls);
    assert Signalled(Exec(Init(views), ls).lanes[i]);
    var t := TakenAtAMoment(views, ls, i);
    ItemsStay(views, ls[..t], i);
    CollectsTaken(Exec(Init(views), ls), k);
    FlatLookup(views, k);
  }

  /** With no writer about, the result is the flat map. */
  lemma QuietSnapshotIsFlat(views: Views<Record>, ls: seq<Label>)
    requires WellSharded(views) && Exec(Init(views), ls).done
    requires forall j :: 0 <= j < |ls| ==> !ls[j].Write?
    ensures Exec(Init(views), ls).tmp == Flat(views)
  {
    hide Exec, Flat;
    forall k
      ensures Lookup(Exec(Init(views), ls).tmp, k) == Lookup(Flat(views), k)
    {
      QuietAt(views, ls, k);
    }
    MapsEqual(Exec(Init(views), ls).tmp, Flat(views));
  }

  lemma {:induction false} ItemsStay(views: Views<Record>, ls: seq<Label>, i: nat)
    requires WellSharded(views) && i < SHARD_COUNT
    requires forall j :: 0 <= j < |ls| ==> !ls[j].Write?
    ensures var s := Exec(Init(views), ls); |s.lanes| == SHARD_COUNT && s.lanes[i].items == views[i]
  {
    if ls != [] {
      ItemsStay(views, ls[..|ls| - 1], i);
      OnlyWritesWrite(Exec(Init(views), ls[..|ls| - 1]), ls[|ls| - 1], i);
    }
  }

  lemma OnlyWritesWrite(s: State, l: Label, i: nat)
    requires i < |s.lanes| && !l.Write?
    ensures |Step(s, l).lanes| == |s.lanes| && Step(s, l).lanes[i].items == s.lanes[i].items
  {
    hide Total, LaneStep, LaneEnabled, HasRoom;
    if OnLane(l) && Enabled(s, l) {
      LaneTakenStays(s.lanes[l.i], l, HasRoom(s));
    }
  }

  // ---- Progress ----------------------------------------------------------

  function Fresh(l: Lane): nat {
    if l.copier.NotStarted? then 1 else 0
  }

  /** What a locked lane still has to do: four hops for each tuple not yet sent, three in the channel,
      two in hand, and one for each change of its goroutines. */
  function Work(l: Lane): nat {
    4 * |Todo(l)| + 3 * |Buf(l)| + 2 * |Held(l)|
    + (match l.copier case NotStarted => 0 case Locked => 4 case Made => 3 case Feeding(_) => 2 case Unlocked => 1
                      case Closed => 0)
    + if l.mover.Finished? then 0 else 1
  }

  function OutWork(s: State): nat {
    |OutBuf(s)| + (if s.out.Some? then 0 else 1) + (if s.out.Some? && s.out.value.closed then 0 else 1)
    + if s.done then 0 else 1
  }

  function Remaining(s: State): nat {
    Total(s.lanes, Work) + OutWork(s)
  }

  lemma LaneWorkFalls(i: nat, lane: Lane, l: Label, launched: bool, room: bool)
    requires Movable(i, lane, l, launched, room) && !l.Write?
    ensures l.Lock? ==> Fresh(LaneStep(lane, l, room)) < Fresh(lane)
    ensures !l.Lock? ==> Fresh(LaneStep(lane, l, room)) == Fresh(lane)
                         && Work(LaneStep(lane, l, room)) + (if l.Push? then 1 else 0) < Work(lane)
  {
    if l.Send? {
      SendMovesOne(i, lane, l.key, launched, room);
      DropOne(Todo(lane), l.key);
    } else if l.Take? {
      TakeMovesOne(i, lane, launched, room);
    } else if l.Push? {
      PushMovesOne(i, lane, launched, room);
    } else if !l.Lock? {
      StillSteps(i, lane, l, launched, room);
    }
  }

  lemma WriteCostsNothing(lane: Lane, l: Label, room: bool)
    requires l.Write? && LaneEnabled(lane, l, room)
    ensures Fresh(LaneStep(lane, l, room)) == Fresh(lane) && Work(LaneStep(lane, l, room)) == Work(lane)
  {
  }

  /** Every step of the pipeline lowers (shards not yet locked, work left) lexicographically, and no
      writer raises it. */
  lemma MeasureFalls(s: State, l: Label)
    requires LanesInv(s) && OutInv(s) && Enabled(s, l)
    ensures var t := Step(s, l);
            if l.Write? then Total(t.lanes, Fresh) == Total(s.lanes, Fresh) && Remaining(t) == Remaining(s)
            else || Total(t.lanes, Fresh) < Total(s.lanes, Fresh)
                 || (Total(t.lanes, Fresh) == Total(s.lanes, Fresh) && Remaining(t) < Remaining(s))
  {
    hide Work, Fresh, LaneStep, LaneShape, LaneTuples, Total, Movable, Waiting;
    if OnLane(l) {
      LaneStepMeasure(s, l);
    } else if l.Launch? {
      LaunchMeasure(s);
    }
  }

  lemma LaneStepMeasure(s: State, l: Label)
    requires LanesInv(s) && OutInv(s) && OnLane(l) && Enabled(s, l)
    ensures var t := Step(s, l);
            if l.Write? then Total(t.lanes, Fresh) == Total(s.lanes, Fresh) && Remaining(t) == Remaining(s)
            else || Total(t.lanes, Fresh) < Total(s.lanes, Fresh)
                 || (Total(t.lanes, Fresh) == Total(s.lanes, Fresh) && Remaining(t) < Remaining(s))
  {
    hide Work, Fresh, Step, LaneStep, LaneShape, LaneTuples, Total, Movable, Waiting, LaneEnabled;
    var lane := s.lanes[l.i];
    LaneIsMovable(s, l);
    LaneStepIs(s, l);
    if l.Write? {
      WriteCostsNothing(lane, l, HasRoom(s));
    } else {
      LaneWorkFalls(l.i, lane, l, s.out.Some?, HasRoom(s));
    }
    TotalUpdate(s.lanes, l.i, LaneStep(lane, l, HasRoom(s)), Fresh);
    TotalUpdate(s.lanes, l.i, LaneStep(lane, l, HasRoom(s)), Work);
  }

  lemma LaunchMeasure(s: State)
    requires LanesInv(s) && OutInv(s) && Enabled(s, Launch)
    ensures var t := Step(s, Launch);
            Total(t.lanes, Fresh) == Total(s.lanes, Fresh) && Remaining(t) < Remaining(s)
  {
    var t := Step(s, Launch);
    forall i: nat | i < |s.lanes|
      ensures Fresh(s.lanes[i]) == Fresh(t.lanes[i]) && Work(s.lanes[i]) == Work(t.lanes[i])
    {
      assert LaneShape(i, s.lanes[i], false);
    }
    TotalSame(s.lanes, t.lanes, Fresh, Fresh);
    TotalSame(s.lanes, t.lanes, Work, Work);
  }

  lemma CopierCanGoOn(s: State, i: nat) returns (l: Label)
    requires LanesInv(s) && OutInv(s) && i < |s.lanes| && !s.lanes[i].copier.Closed?
    ensures !l.Write? && Enabled(s, l)
  {
    hide LaneTuples, Total;
    assert LaneShape(i, s.lanes[i], s.out.Some?);
    RoomLeft(s, i);
    match s.lanes[i].copier
    case NotStarted => l := Lock(i);
    case Locked => l := Make(i);
    case Made => l := Signal(i);
    case Feeding(todo) =>
      if k :| k in todo {
        l := Send(i, k);
      } else {
        assert todo == map[];
        l := Unlock(i);
      }
    case Unlocked => l := Close(i);
  }

  lemma MoverCanGoOn(s: State, i: nat) returns (l: Label)
    requires LanesInv(s) && OutInv(s) && i < |s.lanes| && s.out.Some?
    requires s.lanes[i].copier.Closed? && !s.lanes[i].mover.Finished?
    ensures !l.Write? && Enabled(s, l)
  {
    hide LaneTuples, Total;
    assert LaneShape(i, s.lanes[i], true);
    RoomLeft(s, i);
    if s.lanes[i].mover.Holding? {
      l := Push(i);
    } else if s.lanes[i].chan.value.buf != [] {
      l := Take(i);
    } else {
      l := Finish(i);
    }
  }

  /** Until the caller has everything, some step of the pipeline can be taken. */
  lemma SomeStepEnabled(s: State) returns (l: Label)
    requires LanesInv(s) && OutInv(s) && !s.done
    ensures !l.Write? && Enabled(s, l)
  {
    hide LanesInv, LaneEnabled, HasRoom, Total;
    if i: nat :| i < |s.lanes| && !s.lanes[i].copier.Closed? {
      l := CopierCanGoOn(s, i);
    } else if s.out.None? {
      l := Launch;
    } else if i: nat :| i < |s.lanes| && !s.lanes[i].mover.Finished? {
      l := MoverCanGoOn(s, i);
    } else if !s.out.value.closed {
      l := CloseOut;
    } else if s.out.value.buf != [] {
      l := Receive;
    } else {
      l := Stop;
    }
  }

  /** From every state that satisfies the invariant the pipeline runs to completion by itself. */
  lemma {:induction false} RunsToEnd(s: State) returns (ls: seq<Label>)
    requires Inv(s)
    ensures Exec(s, ls).done
    decreases Total(s.lanes, Fresh), Remaining(s)
  {
    if s.done {
      return [];
    }
    var l := SomeStepEnabled(s);
    MeasureFalls(s, l);
    StepInv(s, l);
    hide Inv, Total, Remaining;
    var rest := RunsToEnd(Step(s, l));
    ls := [l] + rest;
    ExecConcat(s, [l], rest);
    ExecOne(s, l);
  }

  lemma ExecOne(s: State, l: Label)
    ensures Exec(s, [l]) == Step(s, l)
  {
    assert [l][..0] == [] && Exec(s, []) == s;
  }

  lemma {:induction false} ExecConcat(s: State, a: seq<Label>, b: seq<Label>)
    ensures Exec(s, a + b) == Exec(Exec(s, a), b)
    decreases |b|
  {
    if b == [] {
      assert a + b == a;
    } else {
      assert (a + b)[..|a + b| - 1] == a + b[..|b| - 1];
      ExecConcat(s, a, b[..|b| - 1]);
    }
  }

  /** Items can finish from every reachable state: there is no deadlock. */
  lemma ItemsCanFinish(views: Views<Record>, ls: seq<Label>)
    requires WellSharded(views)
    ensures exists more :: Exec(Init(views), ls + more).done
  {
    ExecInv(views, ls);
    var more := RunsToEnd(Exec(Init(views), ls));
    ExecConcat(Init(views), ls, more);
  }
}

/** How large versions can get, and where the values come from. */
module Clocks {
  import opened Fnv
  import opened Options
  import opened Records
  import opened Cluster

  ghost predicate ClocksWithin(s: State, key: Key, bound: int) {
    && (forall n :: n in s.stores && key in s.stores[n] ==> 1 <= s.stores[n][key].ver <= bound)
    && (forall i: nat :: IssuedFor(s, i, key) ==> 1 <= VersionOf(s, i) <= bound)
  }

  /** What a step does to the key at one node. */
  lemma StoredClock(s: State, l: Label, key: Key, bound: nat, n: Node)
    requires ClocksWithin(s, key, bound) && n in Step(s, l, Unbounded).stores
    ensures var t := Step(s, l, Unbounded);
            key in t.stores[n] ==> 1 <= t.stores[n][key].ver <= if IsClientOp(l, key) then bound + 1 else bound
  {
    assert l.Deliver? && IssuedFor(s, l.i, key) ==> 1 <= VersionOf(s, l.i) <= bound;
  }

  lemma IssuedClock(s: State, l: Label, key: Key, bound: nat, i: nat)
    requires ClocksWithin(s, key, bound) && IssuedFor(Step(s, l, Unbounded), i, key)
    ensures 1 <= VersionOf(Step(s, l, Unbounded), i) <= if IsClientOp(l, key) then bound + 1 else bound
  {
    assert i < |s.issued| ==> IssuedFor(s, i, key);
  }

  lemma StepClocks(s: State, l: Label, key: Key, bound: nat)
    requires ClocksWithin(s, key, bound)
    ensures ClocksWithin(Step(s, l, Unbounded), key, if IsClientOp(l, key) then bound + 1 else bound)
  {
    hide Step;
    var t := Step(s, l, Unbounded);
    forall n | n in t.stores && key in t.stores[n]
      ensures 1 <= t.stores[n][key].ver <= if IsClientOp(l, key) then bound + 1 else bound
    {
      StoredClock(s, l, key, bound, n);
    }
    forall i: nat | IssuedFor(t, i, key)
      ensures 1 <= VersionOf(t, i) <= if IsClientOp(l, key) then bound + 1 else bound
    {
      IssuedClock(s, l, key, bound, i);
    }
  }

  /** Every stored or issued version of a key is at most the number of client operations on it. */
  lemma {:induction false} ClockBound(nodes: set<Node>, ls: seq<Label>, key: Key)
    ensures ClocksWithin(Run(nodes, ls), key, ClientOps(ls, key))
  {
    if ls != [] {
      ClockBound(nodes, ls[..|ls| - 1], key);
      StepClocks(Run(nodes, ls[..|ls| - 1]), ls[|ls| - 1], key, ClientOps(ls[..|ls| - 1], key));
    }
  }

  function Reads(n: Node, key: Key, count: nat): seq<Label> {
    if count == 0 then [] else Reads(n, key, count - 1) + [Get(n, key)]
  }

  /** One more read of a key that n holds. */
  lemma ReadOnce(s: State, n: Node, key: Key, r: Record)
    requires n in s.stores && Lookup(s.stores[n], key) == Some(r)
    ensures var t := Step(s, Get(n, key), Unbounded);
            n in t.stores && Lookup(t.stores[n], key) == Some(r.(ver := r.ver + 1))
  {
  }

  lemma FirstSet(nodes: set<Node>, n: Node, key: Key, value: Value)
    requires n in nodes
    ensures var t := Step(Init(nodes), Set(n, key, value), Unbounded);
            n in t.stores && Lookup(t.stores[n], key) == Some(Record(value, 1))
  {
  }

  lemma NothingDone(s: State, key: Key, w: Width)
    ensures Exec(s, [], w) == s && ClientOps([], key) == 0
  {
  }

  lemma NoReads(n: Node, key: Key, value: Value)
    ensures [Set(n, key, value)] + Reads(n, key, 0) == [] + [Set(n, key, value)]
  {
  }

  lemma OneMoreRead(n: Node, key: Key, value: Value, count: nat)
    requires count > 0
    ensures [Set(n, key, value)] + Reads(n, key, count)
         == [Set(n, key, value)] + Reads(n, key, count - 1) + [Get(n, key)]
  {
  }

  lemma SetOnce(nodes: set<Node>, n: Node, key: Key, value: Value)
    requires n in nodes
    ensures var ls := [Set(n, key, value)] + Reads(n, key, 0);
            var s := Run(nodes, ls);
            && n in s.stores && ClientOps(ls, key) == 1 && Lookup(s.stores[n], key) == Some(Record(value, 1))
  {
    hide Exec, Step, ClientOps, Lookup, Reads, Init;
    NoReads(n, key, value);
    NothingDone(Init(nodes), key, Unbounded);
    ExecSnoc(Init(nodes), [], Set(n, key, value), Unbounded);
    OpsSnoc([], Set(n, key, value), key);
    FirstSet(nodes, n, key, value);
  }

  /** The bound is met: one Set and then reads only. */
  lemma {:induction false} ClockBoundTight(nodes: set<Node>, n: Node, key: Key, value: Value, count: nat)
    requires n in nodes
    ensures var ls := [Set(n, key, value)] + Reads(n, key, count);
            var s := Run(nodes, ls);
            && n in s.stores
            && ClientOps(ls, key) == count + 1
            && Lookup(s.stores[n], key) == Some(Record(value, count + 1))
  {
    hide Exec, Step, ClientOps, Lookup, Reads, Init;
    if count == 0 {
      SetOnce(nodes, n, key, value);
    } else {
      ClockBoundTight(nodes, n, key, value, count - 1);
      var before := [Set(n, key, value)] + Reads(n, key, count - 1);
      OneMoreRead(n, key, value, count);
      ExecSnoc(Init(nodes), before, Get(n, key), Unbounded);
      OpsSnoc(before, Get(n, key), key);
      ReadOnce(Run(nodes, before), n, key, Record(value, count));
    }
  }

  lemma OpsSnoc(ls: seq<Label>, l: Label, key: Key)
    ensures ClientOps(ls + [l], key) == ClientOps(ls, key) + if IsClientOp(l, key) then 1 else 0
  {
    assert (ls + [l])[..|ls|] == ls;
  }

  // ---- int64 -------------------------------------------------------------

  lemma {:induction false} ClientOpsMonotone(ls: seq<Label>, i: nat, key: Key)
    requires i <= |ls|
    ensures ClientOps(ls[..i], key) <= ClientOps(ls, key)
    decreases |ls|
  {
    if i < |ls| {
      assert ls[..|ls| - 1][..i] == ls[..i];
      ClientOpsMonotone(ls[..|ls| - 1], i, key);
    } else {
      assert ls[..i] == ls;
    }
  }

  /** The operation takes the version after the largest int64: a Remove announces it, the others store it. */
  predicate Wraps(s: State, l: Label) {
    && !l.Deliver? && l.n in s.stores && l.key in s.stores[l.n]
    && s.stores[l.n][l.key].ver == INT64_MAX
  }

  /** One step differs exactly when it wraps. */
  lemma StepsDifferIfWraps(s: State, l: Label)
    ensures Step(s, l, Int64) == Step(s, l, Unbounded) <==> !Wraps(s, l)
  {
    var t, u := Step(s, l, Int64), Step(s, l, Unbounded);
    if Wraps(s, l) {
      if l.Remove? {
        assert t.issued[|s.issued|] != u.issued[|s.issued|];
      } else {
        assert t.stores[l.n][l.key].ver != u.stores[l.n][l.key].ver;
      }
    }
  }

  ghost predicate SameAllAlong(nodes: set<Node>, ls: seq<Label>) {
    forall j :: 0 <= j <= |ls| ==> Exec(Init(nodes), ls[..j], Int64) == Run(nodes, ls[..j])
  }

  ghost predicate NeverWraps(nodes: set<Node>, ls: seq<Label>) {
    forall j :: 0 <= j < |ls| ==> !Wraps(Run(nodes, ls[..j]), ls[j])
  }

  lemma SameSnoc(nodes: set<Node>, init: seq<Label>, l: Label)
    ensures SameAllAlong(nodes, init + [l]) <==>
            SameAllAlong(nodes, init) && Exec(Init(nodes), init + [l], Int64) == Run(nodes, init + [l])
  {
    hide Exec;
    var ls := init + [l];
    assert forall j :: 0 <= j <= |init| ==> ls[..j] == init[..j];
    assert ls[..|ls|] == ls;
  }

  lemma NeverWrapsSnoc(nodes: set<Node>, init: seq<Label>, l: Label)
    ensures NeverWraps(nodes, init + [l]) <==> NeverWraps(nodes, init) && !Wraps(Run(nodes, init), l)
  {
    hide Exec, Wraps;
    var ls := init + [l];
    assert forall j :: 0 <= j < |init| ==> ls[..j] == init[..j] && ls[j] == init[j];
    assert ls[..|init|] == init;
  }

  lemma SameAtEnd(nodes: set<Node>, ls: seq<Label>)
    requires SameAllAlong(nodes, ls)
    ensures Exec(Init(nodes), ls, Int64) == Run(nodes, ls)
  {
    assert ls[..|ls|] == ls;
  }

  /** The int64 clocks of the program behave as unbounded ones all along a run exactly when no operation in it
      takes the version after the largest int64. */
  lemma {:induction false} Int64Exactly(nodes: set<Node>, ls: seq<Label>)
    ensures SameAllAlong(nodes, ls) <==> NeverWraps(nodes, ls)
  {
    if ls != [] {
      var init, l := ls[..|ls| - 1], ls[|ls| - 1];
      Int64Exactly(nodes, init);
      assert ls == init + [l];
      hide Exec, Step, Wraps, SameAllAlong, NeverWraps;
      SameSnoc(nodes, init, l);
      NeverWrapsSnoc(nodes, init, l);
      if SameAllAlong(nodes, init) {
        SameAtEnd(nodes, init);
        ExecSnoc(Init(nodes), init, l, Int64);
        ExecSnoc(Init(nodes), init, l, Unbounded);
        StepsDifferIfWraps(Run(nodes, init), l);
      }
    } else {
      assert ls[..0] == [];
    }
  }

  /** With fewer than 2^63 client operations on each key, int64 clocks never wrap. */
  lemma Int64Suffices(nodes: set<Node>, ls: seq<Label>)
    requires forall key :: ClientOps(ls, key) <= INT64_MAX
    ensures NeverWraps(nodes, ls) && Exec(Init(nodes), ls, Int64) == Run(nodes, ls)
  {
    hide Exec, ClientOps, Wraps;
    forall j | 0 <= j < |ls|
      ensures !Wraps(Run(nodes, ls[..j]), ls[j])
    {
      if !ls[j].Deliver? {
        FewOpsNeverWrap(nodes, ls, j);
      } else {
        DeliveryNeverWraps(Run(nodes, ls[..j]), ls[j]);
      }
    }
    Int64Exactly(nodes, ls);
    assert ls[..|ls|] == ls;
  }

  lemma DeliveryNeverWraps(s: State, l: Label)
    requires l.Deliver?
    ensures !Wraps(s, l)
  {
  }

  lemma FewOpsNeverWrap(nodes: set<Node>, ls: seq<Label>, j: nat)
    requires j < |ls| && !ls[j].Deliver? && ClientOps(ls, ls[j].key) <= INT64_MAX
    ensures !Wraps(Run(nodes, ls[..j]), ls[j])
  {
    hide Exec, ClientOps;
    var before, l := ls[..j], ls[j];
    ClientOpsMonotone(ls, j + 1, l.key);
    assert ls[..j + 1] == before + [l];
    OpsSnoc(before, l, l.key);
    ClockBound(nodes, before, l.key);
  }

  /** One operation more can wrap: 2^63 - 1 operations bring a clock to its last positive value. */
  lemma Int64Overflows(nodes: set<Node>, n: Node, key: Key, value: Value)
    requires n in nodes
    ensures exists ls ::
              && ClientOps(ls, key) == INT64_MAX + 1
              && n in Exec(Init(nodes), ls, Int64).stores
              && Lookup(Exec(Init(nodes), ls, Int64).stores[n], key) == Some(Record(value, -INT64_MAX - 1))
  {
    var before := [Set(n, key, value)] + Reads(n, key, INT64_MAX - 1);
    ClockBoundTight(nodes, n, key, value, INT64_MAX - 1);
    forall k
      ensures ClientOps(before, k) <= INT64_MAX
    {
      OpsOfOneKey(n, key, value, INT64_MAX - 1, k);
    }
    Int64Suffices(nodes, before);
    var ls := before + [Get(n, key)];
    ExecSnoc(Init(nodes), before, Get(n, key), Int64);
    assert ls[..|before|] == before;
    assert ClientOps(ls, key) == INT64_MAX + 1;
  }

  lemma {:induction false} OpsOfOneKey(n: Node, key: Key, value: Value, count: nat, k: Key)
    ensures ClientOps([Set(n, key, value)] + Reads(n, key, count), k) <= count + 1
  {
    hide ClientOps, Reads;
    if count == 0 {
      NoReads(n, key, value);
      NothingDone(Init({}), k, Unbounded);
      OpsSnoc([], Set(n, key, value), k);
    } else {
      OpsOfOneKey(n, key, value, count - 1, k);
      var before := [Set(n, key, value)] + Reads(n, key, count - 1);
      OneMoreRead(n, key, value, count);
      OpsSnoc(before, Get(n, key), k);
    }
  }

  // ---- Epochs ------------------------------------------------------------

  predicate Holds(s: State, n: Node, key: Key) {
    n in s.stores && key in s.stores[n]
  }

  /** From state s on, n has held the key at every moment before the end of ls. */
  ghost predicate HeldThroughout(s: State, ls: seq<Label>, n: Node, key: Key) {
    forall j :: 0 <= j < |ls| ==> Holds(Exec(s, ls[..j], Unbounded), n, key)
  }

  /** Message i is about the key, issued by n, and was not there when `from` messages had been issued. */
  predicate NewBy(t: State, from: nat, n: Node, key: Key, i: nat) {
    from <= i && IssuedFor(t, i, key) && t.issued[i].src == n
  }

  /** The versions n has issued for the key since then climb from above `ver`. */
  ghost predicate Climbing(t: State, from: nat, ver: int, n: Node, key: Key) {
    && (forall i: nat :: NewBy(t, from, n, key, i) ==> ver < VersionOf(t, i))
    && (forall i: nat, j: nat :: i < j && NewBy(t, from, n, key, i) && NewBy(t, from, n, key, j)
          ==> VersionOf(t, i) < VersionOf(t, j))
  }

  /** n's clock is at `ver` or later, and not behind anything it issued since then. */
  ghost predicate ClockAhead(t: State, from: nat, ver: int, n: Node, key: Key)
    requires Holds(t, n, key)
  {
    && ver <= t.stores[n][key].ver
    && forall i: nat :: NewBy(t, from, n, key, i) ==> VersionOf(t, i) <= t.stores[n][key].ver
  }

  lemma StepClimbs(s: State, l: Label, from: nat, ver: int, n: Node, key: Key)
    requires from <= |s.issued| && Holds(s, n, key)
    requires Climbing(s, from, ver, n, key) && ClockAhead(s, from, ver, n, key)
    ensures var t := Step(s, l, Unbounded);
            && Climbing(t, from, ver, n, key)
            && (Holds(t, n, key) ==> ClockAhead(t, from, ver, n, key))
  {
    var t := Step(s, l, Unbounded);
    assert forall i: nat :: i < |s.issued| && NewBy(t, from, n, key, i) ==> NewBy(s, from, n, key, i);
    assert forall i: nat :: i < |s.issued| && IssuedFor(t, i, key) ==> VersionOf(t, i) == VersionOf(s, i);
  }

  /** While a node holds a key its clock never goes back, and the versions it issues for the key in
      that time, a closing Remove included, strictly increase from above the clock it started with. */
  lemma {:induction false} EpochMonotone(s: State, ls: seq<Label>, n: Node, key: Key)
    requires Holds(s, n, key) && HeldThroughout(s, ls, n, key)
    ensures var t := Exec(s, ls, Unbounded);
            && Climbing(t, |s.issued|, s.stores[n][key].ver, n, key)
            && (Holds(t, n, key) ==> ClockAhead(t, |s.issued|, s.stores[n][key].ver, n, key))
  {
    if ls != [] {
      var init := ls[..|ls| - 1];
      assert HeldThroughout(s, init, n, key) by {
        assert forall j :: 0 <= j < |init| ==> init[..j] == ls[..j];
      }
      EpochMonotone(s, init, n, key);
      ExecGrows(s, init, Unbounded);
      assert Holds(Exec(s, init, Unbounded), n, key);
      StepClimbs(Exec(s, init, Unbounded), ls[|ls| - 1], |s.issued|, s.stores[n][key].ver, n, key);
    }
  }

  // ---- Provenance --------------------------------------------------------

  ghost predicate WasSet(ls: seq<Label>, key: Key, value: Value) {
    exists j :: 0 <= j < |ls| && ls[j].Set? && ls[j].key == key && ls[j].value == value
  }

  ghost predicate AllFrom(s: State, ls: seq<Label>, key: Key) {
    && (forall n :: n in s.stores && key in s.stores[n] ==> WasSet(ls, key, s.stores[n][key].value))
    && (forall i: nat :: IssuedFor(s, i, key) && s.issued[i].msg.Updated?
          ==> WasSet(ls, key, s.issued[i].msg.value))
  }

  lemma WasSetSnoc(ls: seq<Label>, l: Label, key: Key)
    ensures forall v :: WasSet(ls, key, v) ==> WasSet(ls + [l], key, v)
    ensures l.Set? && l.key == key ==> WasSet(ls + [l], key, l.value)
  {
    forall v | WasSet(ls, key, v)
      ensures WasSet(ls + [l], key, v)
    {
      var j :| 0 <= j < |ls| && ls[j].Set? && ls[j].key == key && ls[j].value == v;
      assert (ls + [l])[j] == ls[j];
    }
    assert (ls + [l])[|ls|] == l;
  }

  /** Every value stored or issued for a key was the argument of an earlier Set of that key. */
  lemma {:induction false} Provenance(nodes: set<Node>, ls: seq<Label>, key: Key)
    ensures AllFrom(Run(nodes, ls), ls, key)
  {
    if ls != [] {
      var init, l := ls[..|ls| - 1], ls[|ls| - 1];
      var s, t := Run(nodes, init), Run(nodes, ls);
      Provenance(nodes, init, key);
      assert ls == init + [l];
      WasSetSnoc(init, l, key);
      assert forall i: nat :: i < |s.issued| && IssuedFor(t, i, key) ==> IssuedFor(s, i, key);
      if l.Deliver? && CanDeliver(s, l.i, l.n) && s.issued[l.i].msg.key == key {
        assert IssuedFor(s, l.i, key);
      }
    }
  }
}

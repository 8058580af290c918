/** When do all nodes end up with the same value of a key? The exact condition, for every state, and for
    networks that may or may not repeat a delivery. */
module Convergence {
  import opened Fnv
  import opened Options
  import opened Records
  import opened Cluster

  predicate UpdateOf(s: State, i: nat, key: Key) {
    IssuedFor(s, i, key) && s.issued[i].msg.Updated?
  }

  predicate RemovalOf(s: State, i: nat, key: Key) {
    IssuedFor(s, i, key) && s.issued[i].msg.Removed?
  }

  /** All nodes show the same thing under the key. */
  ghost predicate ValuesAgree(s: State, key: Key) {
    forall n, m :: n in s.stores && m in s.stores ==> ValueAt(s, n, key) == ValueAt(s, m, key)
  }

  ghost predicate OnlyDeliveries(ds: seq<Label>) {
    forall j :: 0 <= j < |ds| ==> ds[j].Deliver?
  }

  /** Deliveries that the network may still make; unless it may deliver `again`, each at most once. */
  ghost predicate Schedule(s: State, ds: seq<Label>, again: bool) {
    && OnlyDeliveries(ds)
    && (again || (&& (forall j :: 0 <= j < |ds| ==>
                        CanDeliver(s, ds[j].i, ds[j].n) && (ds[j].i, ds[j].n) !in s.seen)
                  && (forall j, k :: 0 <= j < k < |ds| ==> ds[j] != ds[k])))
  }

  /** However the network completes the deliveries, all nodes end up with the same value. */
  ghost predicate AlwaysConverges(s: State, key: Key, again: bool) {
    forall ds ::
      Schedule(s, ds, again) && Quiescent(Exec(s, ds, Unbounded), key) ==> ValuesAgree(Exec(s, ds, Unbounded), key)
  }

  // ---- What a node is bound to end with ----------------------------------

  /** n can be told message i, perhaps not for the first time. */
  predicate CanHear(s: State, i: nat, n: Node, again: bool)
    requires i < |s.issued|
  {
    s.issued[i].src != n && (again || (i, n) !in s.seen)
  }

  predicate UpdateFor(s: State, i: nat, n: Node, key: Key, again: bool) {
    UpdateOf(s, i, key) && CanHear(s, i, n, again)
  }

  predicate RemovalFor(s: State, i: nat, n: Node, key: Key, again: bool) {
    RemovalOf(s, i, key) && CanHear(s, i, n, again)
  }

  /** A record of this version and value can only be replaced, at n, by one with the same value. */
  ghost predicate Stands(s: State, n: Node, key: Key, ver: int, v: Value, again: bool) {
    && (forall i: nat :: RemovalFor(s, i, n, key, again) ==> VersionOf(s, i) < ver)
    && (forall i: nat :: UpdateFor(s, i, n, key, again) && ver <= VersionOf(s, i) ==> s.issued[i].msg.value == v)
  }

  /** Update i has yet to reach n, will be accepted when it does, and stands from then on. */
  ghost predicate Awaits(s: State, n: Node, key: Key, i: nat, v: Value, again: bool)
    requires n in s.stores
  {
    && UpdateFor(s, i, n, key, false) && s.issued[i].msg.value == v
    && (key in s.stores[n] ==> s.stores[n][key].ver <= VersionOf(s, i))
    && Stands(s, n, key, VersionOf(s, i), v, again)
  }

  ghost predicate EndsWith(s: State, n: Node, key: Key, v: Value, again: bool)
    requires n in s.stores
  {
    || (key in s.stores[n] && s.stores[n][key].value == v && Stands(s, n, key, s.stores[n][key].ver, v, again))
    || exists i: nat :: Awaits(s, n, key, i, v, again)
  }

  ghost predicate RemovalComing(s: State, n: Node, key: Key, ver: int) {
    exists i: nat :: RemovalFor(s, i, n, key, false) && ver <= VersionOf(s, i)
  }

  ghost predicate EndsAbsent(s: State, n: Node, key: Key, again: bool)
    requires n in s.stores
  {
    && (forall i: nat :: !UpdateFor(s, i, n, key, again))
    && (key in s.stores[n] ==> RemovalComing(s, n, key, s.stores[n][key].ver))
  }

  ghost predicate Ends(s: State, n: Node, key: Key, o: Option<Value>, again: bool)
    requires n in s.stores
  {
    if o.Some? then EndsWith(s, n, key, o.value, again) else EndsAbsent(s, n, key, again)
  }

  ghost predicate AllEnd(s: State, key: Key, o: Option<Value>, again: bool) {
    forall n :: n in s.stores ==> Ends(s, n, key, o, again)
  }

  /** Every message about the key has reached n. */
  ghost predicate QuietAt(s: State, n: Node, key: Key) {
    forall i: nat :: IssuedFor(s, i, key) ==> Has(s, i, n)
  }

  // ---- Schedules ---------------------------------------------------------

  lemma {:induction false} SeenAfter(s: State, ds: seq<Label>)
    requires OnlyDeliveries(ds)
    ensures var t := Exec(s, ds, Unbounded);
            && t.issued == s.issued && t.stores.Keys == s.stores.Keys && s.seen <= t.seen
            && (forall i: nat, n: Node :: (i, n) in t.seen ==> (i, n) in s.seen || Deliver(i, n) in ds)
            && (forall i: nat, n: Node :: Deliver(i, n) in ds && CanDeliver(s, i, n) ==> (i, n) in t.seen)
  {
    if ds != [] {
      SeenAfter(s, ds[..|ds| - 1]);
      assert ds == ds[..|ds| - 1] + [ds[|ds| - 1]];
    }
  }

  lemma ScheduleConcat(s: State, ds: seq<Label>, es: seq<Label>, again: bool)
    requires Schedule(s, ds, again) && Schedule(Exec(s, ds, Unbounded), es, again)
    ensures Schedule(s, ds + es, again)
  {
    SeenAfter(s, ds);
  }

  lemma ScheduleOne(s: State, i: nat, n: Node, again: bool)
    requires CanDeliver(s, i, n) && CanHear(s, i, n, again)
    ensures Schedule(s, [Deliver(i, n)], again)
  {
  }

  // ---- The condition suffices --------------------------------------------

  lemma FewerMessages(s: State, t: State, n: Node, key: Key, again: bool)
    requires s.issued == t.issued && s.seen <= t.seen
    ensures forall i: nat :: UpdateFor(t, i, n, key, again) ==> UpdateFor(s, i, n, key, again)
    ensures forall i: nat :: RemovalFor(t, i, n, key, again) ==> RemovalFor(s, i, n, key, again)
    ensures forall ver, v :: Stands(s, n, key, ver, v, again) ==> Stands(t, n, key, ver, v, again)
  {
    assert forall i: nat :: UpdateFor(t, i, n, key, again) ==> UpdateFor(s, i, n, key, again);
    assert forall i: nat :: RemovalFor(t, i, n, key, again) ==> RemovalFor(s, i, n, key, again);
  }

  /** n hears message i while it holds a record that stands. */
  lemma HearingKeepsStanding(s: State, i: nat, n: Node, key: Key, v: Value, again: bool)
    requires n in s.stores && CanDeliver(s, i, n) && IssuedFor(s, i, key) && CanHear(s, i, n, again)
    requires key in s.stores[n] && s.stores[n][key].value == v && Stands(s, n, key, s.stores[n][key].ver, v, again)
    ensures EndsWith(Step(s, Deliver(i, n), Unbounded), n, key, v, again)
  {
    FewerMessages(s, Step(s, Deliver(i, n), Unbounded), n, key, again);
    assert UpdateFor(s, i, n, key, again) || RemovalFor(s, i, n, key, again);
  }

  /** n hears message i while it awaits update w. */
  lemma HearingKeepsAwaiting(s: State, i: nat, n: Node, key: Key, v: Value, w: nat, again: bool)
    requires n in s.stores && CanDeliver(s, i, n) && IssuedFor(s, i, key) && CanHear(s, i, n, again)
    requires Awaits(s, n, key, w, v, again)
    ensures EndsWith(Step(s, Deliver(i, n), Unbounded), n, key, v, again)
  {
    var t := Step(s, Deliver(i, n), Unbounded);
    FewerMessages(s, t, n, key, again);
    assert UpdateFor(s, i, n, key, again) || RemovalFor(s, i, n, key, again);
    assert w != i && !(UpdateFor(s, i, n, key, again) && VersionOf(s, w) < VersionOf(s, i))
           ==> Awaits(t, n, key, w, v, again);
  }

  lemma HearingElsewhere(s: State, i: nat, m: Node, n: Node, key: Key, v: Value, again: bool)
    requires n in s.stores && EndsWith(s, n, key, v, again)
    requires !(CanDeliver(s, i, m) && m == n && IssuedFor(s, i, key))
    ensures var t := Step(s, Deliver(i, m), Unbounded); n in t.stores && EndsWith(t, n, key, v, again)
  {
    var t := Step(s, Deliver(i, m), Unbounded);
    FewerMessages(s, t, n, key, again);
    assert forall w: nat :: Awaits(s, n, key, w, v, again) ==> Awaits(t, n, key, w, v, again);
  }

  lemma DeliveryKeepsWith(s: State, i: nat, m: Node, n: Node, key: Key, v: Value, again: bool)
    requires n in s.stores && EndsWith(s, n, key, v, again) && (again || (i, m) !in s.seen)
    ensures var t := Step(s, Deliver(i, m), Unbounded); n in t.stores && EndsWith(t, n, key, v, again)
  {
    hide Stands, Awaits;
    if !(CanDeliver(s, i, m) && m == n && IssuedFor(s, i, key)) {
      HearingElsewhere(s, i, m, n, key, v, again);
    } else if w: nat :| Awaits(s, n, key, w, v, again) {
      HearingKeepsAwaiting(s, i, n, key, v, w, again);
    } else {
      HearingKeepsStanding(s, i, n, key, v, again);
    }
  }

  lemma DeliveryKeepsAbsent(s: State, i: nat, m: Node, n: Node, key: Key, again: bool)
    requires n in s.stores && EndsAbsent(s, n, key, again) && (again || (i, m) !in s.seen)
    ensures var t := Step(s, Deliver(i, m), Unbounded); n in t.stores && EndsAbsent(t, n, key, again)
  {
    var t := Step(s, Deliver(i, m), Unbounded);
    FewerMessages(s, t, n, key, again);
    assert !UpdateFor(s, i, n, key, again);
    if key in t.stores[n] {
      var w: nat :| RemovalFor(s, w, n, key, false) && s.stores[n][key].ver <= VersionOf(s, w);
      assert RemovalFor(t, w, n, key, false);
    }
  }

  lemma {:induction false} DeliveriesKeepEnds(s: State, ds: seq<Label>, key: Key, o: Option<Value>, again: bool)
    requires Schedule(s, ds, again) && AllEnd(s, key, o, again)
    ensures AllEnd(Exec(s, ds, Unbounded), key, o, again)
  {
    if ds != [] {
      hide EndsWith, EndsAbsent;
      var init, l := ds[..|ds| - 1], ds[|ds| - 1];
      var mid := Exec(s, init, Unbounded);
      DeliveriesKeepEnds(s, init, key, o, again);
      SeenAfter(s, init);
      assert !again ==> l !in init && (l.i, l.n) !in mid.seen;
      forall n | n in Exec(s, ds, Unbounded).stores
        ensures Ends(Exec(s, ds, Unbounded), n, key, o, again)
      {
        if o.Some? {
          DeliveryKeepsWith(mid, l.i, l.n, n, key, o.value, again);
        } else {
          DeliveryKeepsAbsent(mid, l.i, l.n, n, key, again);
        }
      }
    }
  }

  /** A node that has everything shows what it was bound to end with. */
  lemma QuietShowsEnd(s: State, n: Node, key: Key, o: Option<Value>, again: bool)
    requires n in s.stores && QuietAt(s, n, key) && Ends(s, n, key, o, again)
    ensures ValueAt(s, n, key) == o
  {
    assert forall i: nat :: !UpdateFor(s, i, n, key, false) && !RemovalFor(s, i, n, key, false);
  }

  lemma AllEndSuffices(s: State, key: Key, o: Option<Value>, again: bool)
    requires AllEnd(s, key, o, again)
    ensures AlwaysConverges(s, key, again)
  {
    forall ds, n | Schedule(s, ds, again) && Quiescent(Exec(s, ds, Unbounded), key)
                   && n in Exec(s, ds, Unbounded).stores
      ensures ValueAt(Exec(s, ds, Unbounded), n, key) == o
    {
      DeliveriesKeepEnds(s, ds, key, o, again);
      QuietShowsEnd(Exec(s, ds, Unbounded), n, key, o, again);
    }
  }

  // ---- Deliveries to one node --------------------------------------------

  ghost predicate LocalTo(ds: seq<Label>, n: Node) {
    forall j :: 0 <= j < |ds| ==> ds[j].Deliver? && ds[j].n == n
  }

  /** t differs from s at most in what n stores and has seen. */
  ghost predicate OnlyAt(s: State, t: State, n: Node) {
    && t.issued == s.issued && t.stores.Keys == s.stores.Keys
    && (forall m :: m in s.stores && m != n ==> t.stores[m] == s.stores[m])
    && (forall i: nat, m :: m != n ==> ((i, m) in t.seen <==> (i, m) in s.seen))
  }

  /** s and t look the same to n. */
  ghost predicate SameAt(s: State, t: State, n: Node) {
    && t.issued == s.issued && n in s.stores && n in t.stores && t.stores[n] == s.stores[n]
    && (forall i: nat :: (i, n) in t.seen <==> (i, n) in s.seen)
  }

  lemma {:induction false} LocalStays(s: State, ds: seq<Label>, n: Node)
    requires LocalTo(ds, n)
    ensures OnlyAt(s, Exec(s, ds, Unbounded), n)
  {
    if ds != [] {
      LocalStays(s, ds[..|ds| - 1], n);
    }
  }

  lemma {:induction false} LocalTransfers(s: State, t: State, ds: seq<Label>, n: Node)
    requires LocalTo(ds, n) && SameAt(s, t, n)
    ensures SameAt(Exec(s, ds, Unbounded), Exec(t, ds, Unbounded), n)
  {
    if ds != [] {
      LocalTransfers(s, t, ds[..|ds| - 1], n);
    }
  }

  lemma ExecOne(s: State, l: Label)
    ensures Exec(s, [l], Unbounded) == Step(s, l, Unbounded)
  {
    assert [l][..0] == [] && Exec(s, [], Unbounded) == s;
  }

  lemma ExecFirst(s: State, l: Label, rest: seq<Label>)
    ensures Exec(s, [l] + rest, Unbounded) == Exec(Step(s, l, Unbounded), rest, Unbounded)
  {
    ExecOne(s, l);
    ExecConcat(s, [l], rest, Unbounded);
  }

  /** n's clock and every update it has yet to receive are at most ver. */
  ghost predicate Capped(s: State, n: Node, key: Key, ver: int)
    requires n in s.stores
  {
    && (key in s.stores[n] ==> s.stores[n][key].ver <= ver)
    && (forall i: nat :: UpdateFor(s, i, n, key, false) ==> VersionOf(s, i) <= ver)
  }

  /** Nothing that n has yet to receive would be accepted. */
  ghost predicate Deaf(s: State, n: Node, key: Key)
    requires n in s.stores
  {
    && (forall i: nat :: UpdateFor(s, i, n, key, false) ==>
          key in s.stores[n] && VersionOf(s, i) < s.stores[n][key].ver)
    && (forall i: nat :: RemovalFor(s, i, n, key, false) && key in s.stores[n] ==>
          VersionOf(s, i) < s.stores[n][key].ver)
  }

  lemma DeliverCapped(s: State, i: nat, n: Node, key: Key, ver: int)
    requires n in s.stores && IssuedFor(s, i, key) && !Has(s, i, n)
    ensures var t := Step(s, Deliver(i, n), Unbounded);
            && n in t.stores
            && (Capped(s, n, key, ver) ==> Capped(t, n, key, ver))
            && (Deaf(s, n, key) ==> Deaf(t, n, key) && Lookup(t.stores[n], key) == Lookup(s.stores[n], key))
  {
    var t := Step(s, Deliver(i, n), Unbounded);
    FewerMessages(s, t, n, key, false);
    assert UpdateFor(s, i, n, key, false) || RemovalFor(s, i, n, key, false);
  }

  /** Telling n those messages of todo that it has yet to receive. */
  lemma {:induction false} Finish(s: State, n: Node, key: Key, todo: set<nat>, ver: int, again: bool)
    returns (ds: seq<Label>)
    requires n in s.stores
    ensures LocalTo(ds, n) && Schedule(s, ds, again)
    ensures forall j :: 0 <= j < |ds| ==> ds[j].i in todo
    ensures var t := Exec(s, ds, Unbounded);
            && n in t.stores && t.issued == s.issued
            && (forall i: nat :: IssuedFor(t, i, key) && (i in todo || Has(s, i, n)) ==> Has(t, i, n))
            && (Capped(s, n, key, ver) ==> Capped(t, n, key, ver))
            && (Deaf(s, n, key) ==> Lookup(t.stores[n], key) == Lookup(s.stores[n], key))
    decreases todo
  {
    hide Capped, Deaf, Schedule;
    if todo == {} {
      ds := [];
      NoDeliveries(s, again);
    } else {
      var i :| i in todo;
      if IssuedFor(s, i, key) && !Has(s, i, n) {
        var l := Deliver(i, n);
        DeliverCapped(s, i, n, key, ver);
        ScheduleOne(s, i, n, again);
        ExecOne(s, l);
        var rest := Finish(Step(s, l, Unbounded), n, key, todo - {i}, ver, again);
        ds := [l] + rest;
        ScheduleConcat(s, [l], rest, again);
        ExecFirst(s, l, rest);
        LocalStays(s, ds, n);
      } else {
        ds := Finish(s, n, key, todo - {i}, ver, again);
        LocalStays(s, ds, n);
      }
    }
  }

  lemma NoDeliveries(s: State, again: bool)
    ensures Schedule(s, [], again) && Exec(s, [], Unbounded) == s
  {
  }

  function UpTo(k: nat): (ids: set<nat>)
    ensures forall i: nat :: i in ids <==> i < k
  {
    if k == 0 then {} else UpTo(k - 1) + {k - 1}
  }

  /** Telling the nodes in todo everything, and the others nothing. */
  lemma {:induction false} FinishAll(s: State, key: Key, todo: set<Node>, again: bool) returns (ds: seq<Label>)
    requires forall n :: n in s.stores && n !in todo ==> QuietAt(s, n, key)
    ensures Schedule(s, ds, again)
    ensures var t := Exec(s, ds, Unbounded);
            && Quiescent(t, key) && t.stores.Keys == s.stores.Keys
            && forall n :: n in s.stores && n !in todo ==> t.stores[n] == s.stores[n]
    decreases todo
  {
    if todo == {} {
      ds := [];
    } else {
      hide Schedule;
      NoDeliveries(s, again);
      var n :| n in todo;
      var first := [];
      if n in s.stores {
        first := Finish(s, n, key, UpTo(|s.issued|), 0, again);
      }
      var mid := Exec(s, first, Unbounded);
      LocalStays(s, first, n);
      StillQuiet(s, mid, n, key);
      var rest := FinishAll(mid, key, todo - {n}, again);
      ds := first + rest;
      ScheduleConcat(s, first, rest, again);
      ExecConcat(s, first, rest, Unbounded);
    }
  }

  lemma StillQuiet(s: State, t: State, n: Node, key: Key)
    requires OnlyAt(s, t, n)
    ensures forall m :: m != n && QuietAt(s, m, key) ==> QuietAt(t, m, key)
  {
    forall m, i: nat | m != n && QuietAt(s, m, key) && IssuedFor(t, i, key)
      ensures Has(t, i, m)
    {
      assert IssuedFor(s, i, key);
    }
  }

  // ---- The condition is necessary ----------------------------------------

  /** Some order of deliveries to n leaves it with o and nothing to receive. */
  ghost predicate CanEnd(s: State, n: Node, key: Key, o: Option<Value>, again: bool) {
    exists ds :: LocalTo(ds, n) && Schedule(s, ds, again) && EndsSo(Exec(s, ds, Unbounded), n, key, o)
  }

  ghost predicate EndsSo(t: State, n: Node, key: Key, o: Option<Value>) {
    n in t.stores && QuietAt(t, n, key) && ValueAt(t, n, key) == o
  }

  lemma SomeEnd(s: State, n: Node, key: Key, again: bool) returns (o: Option<Value>)
    requires n in s.stores
    ensures CanEnd(s, n, key, o, again)
    ensures Deaf(s, n, key) ==> o == ValueAt(s, n, key)
  {
    var ds := Finish(s, n, key, UpTo(|s.issued|), 0, again);
    LocalStays(s, ds, n);
    o := ValueAt(Exec(s, ds, Unbounded), n, key);
    assert EndsSo(Exec(s, ds, Unbounded), n, key, o);
  }

  /** Telling n everything but message i. */
  lemma AllBut(s: State, n: Node, key: Key, i: nat, again: bool) returns (ds: seq<Label>)
    requires n in s.stores && i < |s.issued| && CanHear(s, i, n, again)
    ensures LocalTo(ds, n) && Schedule(s, ds, again)
    ensures Schedule(Exec(s, ds, Unbounded), [Deliver(i, n)], again)
    ensures var mid := Exec(s, ds, Unbounded);
            && n in mid.stores && mid.issued == s.issued
            && (forall j: nat :: IssuedFor(mid, j, key) && j != i ==> Has(mid, j, n))
            && (Capped(s, n, key, VersionOf(s, i)) ==> Capped(mid, n, key, VersionOf(s, i)))
  {
    hide Exec, Schedule, Capped, Deaf;
    ds := Finish(s, n, key, UpTo(|s.issued|) - {i}, VersionOf(s, i), again);
    HeardLater(s, ds, i, n, again);
  }

  lemma EndsAfter(s: State, n: Node, key: Key, ds: seq<Label>, l: Label, o: Option<Value>, again: bool)
    requires LocalTo(ds, n) && l.Deliver? && l.n == n
    requires Schedule(s, ds, again) && Schedule(Exec(s, ds, Unbounded), [l], again)
    requires EndsSo(Step(Exec(s, ds, Unbounded), l, Unbounded), n, key, o)
    ensures CanEnd(s, n, key, o, again)
  {
    hide Exec, Step, Schedule, EndsSo;
    ScheduleConcat(s, ds, [l], again);
    ExecSnoc(s, ds, l, Unbounded);
    assert LocalTo(ds + [l], n);
  }

  /** A message at least as new as everything else n meets can have the last word. */
  lemma LastWord(s: State, n: Node, key: Key, i: nat, again: bool) returns (o: Option<Value>)
    requires n in s.stores && (UpdateFor(s, i, n, key, again) || RemovalFor(s, i, n, key, again))
    ensures CanEnd(s, n, key, o, again)
    ensures UpdateFor(s, i, n, key, again) ==> o.Some?
    ensures Capped(s, n, key, VersionOf(s, i)) ==>
              o == if s.issued[i].msg.Updated? then Some(s.issued[i].msg.value) else None
  {
    hide Exec, Step, Schedule, EndsSo, CanEnd, Capped, ValueAt;
    var ds := AllBut(s, n, key, i, again);
    o := LastHeard(Exec(s, ds, Unbounded), n, key, i);
    EndsAfter(s, n, key, ds, Deliver(i, n), o, again);
  }

  lemma LastHeard(s: State, n: Node, key: Key, i: nat) returns (o: Option<Value>)
    requires n in s.stores && CanDeliver(s, i, n) && IssuedFor(s, i, key)
    requires forall j: nat :: IssuedFor(s, j, key) && j != i ==> Has(s, j, n)
    ensures EndsSo(Step(s, Deliver(i, n), Unbounded), n, key, o)
    ensures UpdateOf(s, i, key) ==> o.Some?
    ensures Capped(s, n, key, VersionOf(s, i)) ==>
              o == if s.issued[i].msg.Updated? then Some(s.issued[i].msg.value) else None
  {
    var t := Step(s, Deliver(i, n), Unbounded);
    o := ValueAt(t, n, key);
    assert QuietAt(t, n, key) by {
      assert forall j: nat :: IssuedFor(t, j, key) ==> IssuedFor(s, j, key);
    }
  }

  lemma HeardLater(s: State, ds: seq<Label>, i: nat, n: Node, again: bool)
    requires i < |s.issued| && n in s.stores && CanHear(s, i, n, again)
    requires OnlyDeliveries(ds) && forall j :: 0 <= j < |ds| ==> ds[j].i != i
    ensures Schedule(Exec(s, ds, Unbounded), [Deliver(i, n)], again)
  {
    SeenAfter(s, ds);
    ScheduleOne(Exec(s, ds, Unbounded), i, n, again);
  }

  /** n holds or awaits a version that tops what it has yet to receive, but it does not stand: n can end
      with something else. */
  lemma Spoiler(s: State, n: Node, key: Key, ver: int, v: Value, again: bool) returns (o: Option<Value>)
    requires n in s.stores && Capped(s, n, key, ver) && !Stands(s, n, key, ver, v, again)
    ensures o != Some(v) && CanEnd(s, n, key, o, again)
  {
    var i: nat :| (RemovalFor(s, i, n, key, again) && ver <= VersionOf(s, i))
                  || (UpdateFor(s, i, n, key, again) && ver <= VersionOf(s, i) && s.issued[i].msg.value != v);
    o := LastWord(s, n, key, i, again);
  }

  /** The newest update that n has yet to receive. */
  lemma NewestUnseen(s: State, n: Node, key: Key) returns (top: Option<nat>)
    ensures top.Some? ==> UpdateFor(s, top.value, n, key, false)
    ensures forall i: nat :: UpdateFor(s, i, n, key, false) ==> top.Some? && VersionOf(s, i) <= VersionOf(s, top.value)
  {
    top := None;
    for j := 0 to |s.issued|
      invariant top.Some? ==> UpdateFor(s, top.value, n, key, false)
      invariant forall i: nat :: i < j && UpdateFor(s, i, n, key, false) ==>
                  top.Some? && VersionOf(s, i) <= VersionOf(s, top.value)
    {
      if UpdateFor(s, j, n, key, false) && (top.None? || VersionOf(s, top.value) < VersionOf(s, j)) {
        top := Some(j);
      }
    }
  }

  lemma ElseThanValue(s: State, n: Node, key: Key, v: Value, again: bool) returns (o: Option<Value>)
    requires n in s.stores && !EndsWith(s, n, key, v, again)
    ensures o != Some(v) && CanEnd(s, n, key, o, again)
  {
    var top := NewestUnseen(s, n, key);
    assert forall i: nat :: RemovalFor(s, i, n, key, false) ==> RemovalFor(s, i, n, key, again);
    if top.Some? && (key in s.stores[n] ==> s.stores[n][key].ver <= VersionOf(s, top.value)) {
      assert !Awaits(s, n, key, top.value, v, again);
      if s.issued[top.value].msg.value != v {
        o := LastWord(s, n, key, top.value, again);
      } else {
        o := Spoiler(s, n, key, VersionOf(s, top.value), v, again);
      }
    } else if key in s.stores[n] && !Stands(s, n, key, s.stores[n][key].ver, v, again) {
      o := Spoiler(s, n, key, s.stores[n][key].ver, v, again);
    } else {
      o := SomeEnd(s, n, key, again);
    }
  }

  lemma ElseThanAbsent(s: State, n: Node, key: Key, again: bool) returns (o: Option<Value>)
    requires n in s.stores && !EndsAbsent(s, n, key, again)
    ensures o.Some? && CanEnd(s, n, key, o, again)
  {
    if i: nat :| UpdateFor(s, i, n, key, again) {
      o := LastWord(s, n, key, i, again);
    } else {
      assert forall i: nat :: !UpdateFor(s, i, n, key, false) by {
        assert forall i: nat :: UpdateFor(s, i, n, key, false) ==> UpdateFor(s, i, n, key, again);
      }
      o := SomeEnd(s, n, key, again);
    }
  }

  /** Nodes that everything has reached still show what they do when the others are told the rest. */
  lemma CompleteOthers(s: State, key: Key, n: Node, m: Node, again: bool) returns (rest: seq<Label>)
    requires n in s.stores && m in s.stores && QuietAt(s, n, key) && QuietAt(s, m, key)
    ensures Schedule(s, rest, again)
    ensures var t := Exec(s, rest, Unbounded);
            && Quiescent(t, key) && n in t.stores && m in t.stores
            && ValueAt(t, n, key) == ValueAt(s, n, key) && ValueAt(t, m, key) == ValueAt(s, m, key)
  {
    rest := FinishAll(s, key, s.stores.Keys - {n, m}, again);
  }

  lemma SameAtShowsSame(s: State, t: State, n: Node, key: Key, o: Option<Value>)
    requires SameAt(s, t, n) && EndsSo(s, n, key, o)
    ensures EndsSo(t, n, key, o)
  {
    assert forall i: nat :: IssuedFor(t, i, key) ==> IssuedFor(s, i, key);
  }

  lemma ScheduleElsewhere(s: State, t: State, n: Node, es: seq<Label>, m: Node, again: bool)
    requires OnlyAt(s, t, n) && n != m && LocalTo(es, m) && Schedule(s, es, again)
    ensures Schedule(t, es, again)
  {
  }

  /** Deliveries to n and deliveries to m do not disturb each other. */
  lemma EndsCompose(s: State, key: Key, n: Node, m: Node, ds: seq<Label>, es: seq<Label>,
                    o: Option<Value>, p: Option<Value>, again: bool)
    requires n in s.stores && m in s.stores && n != m && LocalTo(ds, n) && LocalTo(es, m)
    requires Schedule(s, ds, again) && Schedule(s, es, again)
    requires EndsSo(Exec(s, ds, Unbounded), n, key, o) && EndsSo(Exec(s, es, Unbounded), m, key, p)
    ensures Schedule(s, ds + es, again)
    ensures var b := Exec(s, ds + es, Unbounded); EndsSo(b, n, key, o) && EndsSo(b, m, key, p)
  {
    hide Exec, EndsSo, Schedule;
    var a := Exec(s, ds, Unbounded);
    LocalStays(s, ds, n);
    LocalTransfers(s, a, es, m);
    LocalStays(a, es, m);
    ExecConcat(s, ds, es, Unbounded);
    ScheduleElsewhere(s, a, n, es, m, again);
    ScheduleConcat(s, ds, es, again);
    SameAtShowsSame(Exec(s, es, Unbounded), Exec(a, es, Unbounded), m, key, p);
    SameAtShowsSame(a, Exec(a, es, Unbounded), n, key, o);
  }

  /** What different nodes end with is chosen independently. */
  lemma EndsMeet(s: State, key: Key, n: Node, m: Node, o: Option<Value>, p: Option<Value>, again: bool)
    requires AlwaysConverges(s, key, again) && n in s.stores && m in s.stores && n != m
    requires CanEnd(s, n, key, o, again) && CanEnd(s, m, key, p, again)
    ensures o == p
  {
    hide Quiescent, QuietAt, ValueAt, Schedule;
    var ds :| LocalTo(ds, n) && Schedule(s, ds, again) && EndsSo(Exec(s, ds, Unbounded), n, key, o);
    var es :| LocalTo(es, m) && Schedule(s, es, again) && EndsSo(Exec(s, es, Unbounded), m, key, p);
    EndsCompose(s, key, n, m, ds, es, o, p, again);
    var rest := CompleteOthers(Exec(s, ds + es, Unbounded), key, n, m, again);
    ScheduleConcat(s, ds + es, rest, again);
    ExecConcat(s, ds + es, rest, Unbounded);
  }

  lemma AllEndNeeded(s: State, key: Key, again: bool) returns (o: Option<Value>)
    requires AlwaysConverges(s, key, again) && |s.stores| > 1
    ensures AllEnd(s, key, o, again)
  {
    hide AlwaysConverges, CanEnd, EndsWith, EndsAbsent;
    var n, m := TwoNodes(s);
    o := SomeEnd(s, n, key, again);
    forall p | p in s.stores
      ensures Ends(s, p, key, o, again)
    {
      if !Ends(s, p, key, o, again) {
        var other;
        if o.Some? {
          other := ElseThanValue(s, p, key, o.value, again);
        } else {
          other := ElseThanAbsent(s, p, key, again);
        }
        if p != n {
          EndsMeet(s, key, n, p, o, other, again);
        } else {
          var third := SomeEnd(s, m, key, again);
          EndsMeet(s, key, n, m, o, third, again);
          EndsMeet(s, key, n, m, other, third, again);
        }
      }
    }
  }

  lemma TwoNodes(s: State) returns (n: Node, m: Node)
    requires |s.stores| > 1
    ensures n in s.stores && m in s.stores && n != m
  {
    n :| n in s.stores;
    assert |s.stores.Keys - {n}| > 0;
    m :| m in s.stores.Keys - {n};
  }

  /** Whatever has happened, every way of completing the deliveries makes all nodes agree on the key
      exactly when there is a single node, or some outcome that every node is bound to end with. */
  lemma ConvergesExactly(s: State, key: Key, again: bool)
    ensures AlwaysConverges(s, key, again) <==> |s.stores| <= 1 || exists o :: AllEnd(s, key, o, again)
  {
    hide AlwaysConverges, AllEnd;
    if o :| AllEnd(s, key, o, again) {
      AllEndSuffices(s, key, o, again);
    } else if |s.stores| <= 1 {
      OneNodeConverges(s, key, again);
    } else if AlwaysConverges(s, key, again) {
      var o := AllEndNeeded(s, key, again);
    }
  }

  lemma OneNodeConverges(s: State, key: Key, again: bool)
    requires |s.stores| <= 1
    ensures AlwaysConverges(s, key, again)
  {
    forall ds
      ensures ValuesAgree(Exec(s, ds, Unbounded), key)
    {
      var t := Exec(s, ds, Unbounded);
      ExecGrows(s, ds, Unbounded);
      forall n, m | n in t.stores && m in t.stores
        ensures n == m
      {
        SubsetSize({n, m}, s.stores.Keys);
      }
    }
  }

  lemma SubsetSize(a: set<Node>, b: set<Node>)
    requires a <= b
    ensures |a| <= |b|
  {
    assert b == a + (b - a);
  }
}

/** Consequences of the convergence condition: keys that are only Set, keys that removals keep apart, repair
    by a later Set, and concrete runs that diverge. */
module Outcomes {
  import opened Fnv
  import opened Options
  import opened Records
  import opened Cluster
  import opened Convergence

  /** Message i is an update of the highest version ever issued for the key. */
  ghost predicate IsNewest(s: State, i: nat, key: Key) {
    UpdateOf(s, i, key) && forall j: nat :: UpdateOf(s, j, key) ==> VersionOf(s, j) <= VersionOf(s, i)
  }

  /** No removal of the key was issued with this version or a later one. */
  ghost predicate Outranks(s: State, key: Key, ver: int) {
    forall j: nat :: RemovalOf(s, j, key) ==> VersionOf(s, j) < ver
  }

  ghost predicate EverSet(s: State, key: Key) {
    exists i: nat :: UpdateOf(s, i, key)
  }

  // ---- What every run keeps ----------------------------------------------

  ghost predicate Known(s: State) {
    && (forall i: nat, n :: (i, n) in s.seen ==> i < |s.issued|)
    && (forall i: nat :: i < |s.issued| ==> s.issued[i].src in s.stores)
  }

  /** A node's clock is at least the version of every update it has, unless a removal got in between. */
  ghost predicate Covered(s: State, key: Key) {
    forall i: nat, n ::
      (UpdateOf(s, i, key) && n in s.stores && Has(s, i, n) && Outranks(s, key, VersionOf(s, i)))
      ==> key in s.stores[n] && VersionOf(s, i) <= s.stores[n][key].ver
  }

  /** n stores what update i says. */
  predicate Stores(s: State, n: Node, i: nat)
    requires n in s.stores && i < |s.issued|
  {
    var m := s.issued[i].msg;
    m.Updated? && Lookup(s.stores[n], m.key) == Some(Record(m.value, m.ver))
  }

  ghost predicate StoresSome(s: State, n: Node, key: Key)
    requires n in s.stores
  {
    exists i: nat :: UpdateOf(s, i, key) && Stores(s, n, i)
  }

  /** A node whose clock equals the version of an update it has stores an update of that version. */
  ghost predicate TiesFollowed(s: State, key: Key) {
    forall n, j: nat ::
      (n in s.stores && key in s.stores[n] && UpdateOf(s, j, key) && Has(s, j, n)
       && VersionOf(s, j) == s.stores[n][key].ver && Outranks(s, key, VersionOf(s, j)))
      ==> StoresSome(s, n, key)
  }

  /** A node does not issue one version twice unless a removal got in between. */
  ghost predicate VersionsDistinct(s: State, key: Key) {
    forall i: nat, j: nat ::
      (i < j && UpdateOf(s, i, key) && UpdateOf(s, j, key) && s.issued[i].src == s.issued[j].src
       && Outranks(s, key, VersionOf(s, i)))
      ==> VersionOf(s, i) < VersionOf(s, j)
  }

  ghost predicate Inv(s: State, key: Key) {
    Known(s) && Covered(s, key) && TiesFollowed(s, key) && VersionsDistinct(s, key)
  }

  /** A step only appends to what was issued. */
  lemma StepIssues(s: State, l: Label, key: Key)
    ensures var t := Step(s, l, Unbounded);
            && s.issued <= t.issued <= s.issued + t.issued[|s.issued|..]
            && t.stores.Keys == s.stores.Keys
            && (forall i: nat :: i < |s.issued| ==> (UpdateOf(t, i, key) <==> UpdateOf(s, i, key)))
            && (forall ver :: Outranks(t, key, ver) ==> Outranks(s, key, ver))
  {
    var t := Step(s, l, Unbounded);
    assert forall i: nat :: RemovalOf(s, i, key) ==> RemovalOf(t, i, key) && VersionOf(t, i) == VersionOf(s, i);
  }

  lemma StepCovered(s: State, l: Label, key: Key)
    requires Known(s) && Covered(s, key)
    ensures Covered(Step(s, l, Unbounded), key)
  {
    var t := Step(s, l, Unbounded);
    StepIssues(s, l, key);
    forall i: nat, n | UpdateOf(t, i, key) && n in t.stores && Has(t, i, n) && Outranks(t, key, VersionOf(t, i))
      ensures key in t.stores[n] && VersionOf(t, i) <= t.stores[n][key].ver
    {
      if i < |s.issued| && Has(s, i, n) {
        assert VersionOf(s, i) <= s.stores[n][key].ver;
        assert l.Remove? && l.n == n && l.key == key ==> RemovalOf(t, |s.issued|, key);
        assert l.Deliver? && RemovalOf(s, l.i, key) ==> RemovalOf(t, l.i, key);
      }
    }
  }

  /** Why a step leaves TiesFollowed true of node n and update j. */
  lemma TieFollowedAfter(s: State, l: Label, key: Key, n: Node, j: nat)
    requires Known(s) && Covered(s, key) && TiesFollowed(s, key)
    requires var t := Step(s, l, Unbounded);
             n in t.stores && key in t.stores[n] && UpdateOf(t, j, key) && Has(t, j, n)
             && VersionOf(t, j) == t.stores[n][key].ver && Outranks(t, key, VersionOf(t, j))
    ensures StoresSome(Step(s, l, Unbounded), n, key)
  {
    var t := Step(s, l, Unbounded);
    StepIssues(s, l, key);
    if j == |s.issued| {
      assert Stores(t, n, j);
    } else if l.Deliver? && l.n == n && CanDeliver(s, l.i, n) && UpdateOf(s, l.i, key) && Stores(t, n, l.i) {
      assert UpdateOf(t, l.i, key);
    } else {
      assert UpdateOf(s, j, key) && Has(s, j, n);
      assert Lookup(t.stores[n], key) == Lookup(s.stores[n], key);
      assert StoresSome(s, n, key);
      var i: nat :| UpdateOf(s, i, key) && Stores(s, n, i);
      assert UpdateOf(t, i, key) && Stores(t, n, i);
    }
  }

  lemma StepTiesFollowed(s: State, l: Label, key: Key)
    requires Known(s) && Covered(s, key) && TiesFollowed(s, key)
    ensures TiesFollowed(Step(s, l, Unbounded), key)
  {
    hide Step, StoresSome, Covered, Known;
    var t := Step(s, l, Unbounded);
    forall n, j: nat | n in t.stores && key in t.stores[n] && UpdateOf(t, j, key) && Has(t, j, n)
                       && VersionOf(t, j) == t.stores[n][key].ver && Outranks(t, key, VersionOf(t, j))
      ensures StoresSome(t, n, key)
    {
      TieFollowedAfter(s, l, key, n, j);
    }
  }

  lemma StepVersionsDistinct(s: State, l: Label, key: Key)
    requires Known(s) && Covered(s, key) && VersionsDistinct(s, key)
    ensures VersionsDistinct(Step(s, l, Unbounded), key)
  {
    var t := Step(s, l, Unbounded);
    StepIssues(s, l, key);
    forall i: nat, j: nat | i < j && UpdateOf(t, i, key) && UpdateOf(t, j, key)
                            && t.issued[i].src == t.issued[j].src && Outranks(t, key, VersionOf(t, i))
      ensures VersionOf(t, i) < VersionOf(t, j)
    {
      assert UpdateOf(s, i, key) && Has(s, i, s.issued[i].src);
    }
  }

  lemma StepInv(s: State, l: Label, key: Key)
    requires Inv(s, key)
    ensures Inv(Step(s, l, Unbounded), key)
  {
    StepCovered(s, l, key);
    StepTiesFollowed(s, l, key);
    StepVersionsDistinct(s, l, key);
  }

  lemma {:induction false} ExecInv(s: State, ls: seq<Label>, key: Key)
    requires Inv(s, key)
    ensures Inv(Exec(s, ls, Unbounded), key)
  {
    if ls != [] {
      ExecInv(s, ls[..|ls| - 1], key);
      StepInv(Exec(s, ls[..|ls| - 1], Unbounded), ls[|ls| - 1], key);
    }
  }

  lemma RunInv(nodes: set<Node>, ls: seq<Label>, key: Key)
    ensures Inv(Run(nodes, ls), key) && Run(nodes, ls).stores.Keys == nodes
  {
    ExecInv(Init(nodes), ls, key);
    RunKeepsNodes(nodes, ls);
  }

  /** The newest update of the key, where it outranks the removals, binds every node that has it: the clock
      is at least there, and if just there, the value is one of the newest. */
  lemma NewestIsHeld(s: State, key: Key, n: Node, i: nat)
    requires Inv(s, key) && n in s.stores && i < |s.issued| && Has(s, i, n)
    requires IsNewest(s, i, key) && Outranks(s, key, VersionOf(s, i))
    ensures key in s.stores[n] && VersionOf(s, i) <= s.stores[n][key].ver
    ensures s.stores[n][key].ver == VersionOf(s, i) ==>
              exists j: nat :: IsNewest(s, j, key) && s.issued[j].msg.value == s.stores[n][key].value
  {
    if s.stores[n][key].ver == VersionOf(s, i) {
      assert StoresSome(s, n, key);
      var j: nat :| UpdateOf(s, j, key) && Stores(s, n, j);
      assert IsNewest(s, j, key);
    }
  }

  // ---- Removals ----------------------------------------------------------

  /** No update outranks removal r, and n is another node whose clock is not past it. */
  ghost predicate Exposed(s: State, r: nat, n: Node, key: Key) {
    && RemovalOf(s, r, key) && n in s.stores && n != s.issued[r].src
    && (forall i: nat :: UpdateOf(s, i, key) ==> VersionOf(s, i) <= VersionOf(s, r))
    && (key in s.stores[n] ==> s.stores[n][key].ver <= VersionOf(s, r))
  }

  /** A node that can hear a removal topping all it stores or awaits is not bound to end with any value. */
  lemma ToppingRemovalSpoils(s: State, key: Key, r: nat, n: Node, v: Value, again: bool)
    requires n in s.stores && RemovalFor(s, r, n, key, again) && Capped(s, n, key, VersionOf(s, r))
    ensures !EndsWith(s, n, key, v, again)
  {
  }

  /** Where some node of two or more can hear a removal topping all it stores or awaits, the one agreement
      possible is that the key is gone: the cluster converges exactly when no node can hear an update any more,
      and each lacks the key or has a removal coming that takes it. This holds of both kinds of network. */
  lemma RemovalAllowsOnlyAbsence(s: State, key: Key, r: nat, n: Node, again: bool)
    requires n in s.stores && |s.stores| > 1
    requires RemovalFor(s, r, n, key, again) && Capped(s, n, key, VersionOf(s, r))
    ensures AlwaysConverges(s, key, again) <==> forall m :: m in s.stores ==> EndsAbsent(s, m, key, again)
  {
    hide AlwaysConverges, EndsWith, EndsAbsent;
    ConvergesExactly(s, key, again);
    forall v
      ensures !AllEnd(s, key, Some(v), again)
    {
      ToppingRemovalSpoils(s, key, r, n, v, again);
      assert !Ends(s, n, key, Some(v), again);
    }
    assert AllEnd(s, key, None, again) <==> forall m :: m in s.stores ==> EndsAbsent(s, m, key, again);
    if o :| AllEnd(s, key, o, again) {
      assert o == None;
    }
  }

  /** Without tombstones, and where the network may repeat deliveries, a key that was ever set does not
      converge when a removal at least as new as every update can still reach a node, other than its issuer,
      whose clock is not past it: a late update brings the key back somewhere. */
  lemma RemovalPreventsConvergence(nodes: set<Node>, ls: seq<Label>, key: Key, r: nat, n: Node, u: nat)
    requires Exposed(Run(nodes, ls), r, n, key) && UpdateOf(Run(nodes, ls), u, key)
    ensures !AlwaysConverges(Run(nodes, ls), key, true)
  {
    var s := Run(nodes, ls);
    RunInv(nodes, ls, key);
    SubsetSize({n, s.issued[r].src}, s.stores.Keys);
    assert RemovalFor(s, r, n, key, true);
    RemovalAllowsOnlyAbsence(s, key, r, n, true);
    var p := if s.issued[u].src == n then s.issued[r].src else n;
    assert UpdateFor(s, u, p, key, true);
    assert !EndsAbsent(s, p, key, true);
  }

  ghost predicate Absent(s: State, key: Key) {
    !EverSet(s, key) && forall n :: n in s.stores ==> key !in s.stores[n]
  }

  lemma {:induction false} NeverSetNeverHeld(nodes: set<Node>, ls: seq<Label>, key: Key)
    requires !EverSet(Run(nodes, ls), key)
    ensures Absent(Run(nodes, ls), key)
  {
    if ls != [] {
      var mid, t := Run(nodes, ls[..|ls| - 1]), Run(nodes, ls);
      var l := ls[|ls| - 1];
      StepIssues(mid, l, key);
      assert forall i: nat :: UpdateOf(mid, i, key) ==> UpdateOf(t, i, key);
      NeverSetNeverHeld(nodes, ls[..|ls| - 1], key);
      if l.Set? && l.key == key && l.n in mid.stores {
        assert UpdateOf(t, |mid.issued|, key);
      }
      if l.Deliver? {
        assert !UpdateOf(mid, l.i, key);
      }
    }
  }

  // ---- Keys that clients only Set ----------------------------------------

  /** Clients never read or remove the key; anything may happen to the other keys. */
  ghost predicate OnlySets(ls: seq<Label>, key: Key) {
    forall j :: 0 <= j < |ls| && (ls[j].Get? || ls[j].Remove?) ==> ls[j].key != key
  }

  /** No removal is known and no clock is past the issued versions. */
  ghost predicate ClocksIssued(s: State, key: Key) {
    && (forall i: nat :: !RemovalOf(s, i, key))
    && (forall n :: n in s.stores && key in s.stores[n] ==> ReachedBy(s, key, s.stores[n][key].ver))
  }

  ghost predicate ReachedBy(s: State, key: Key, ver: int) {
    exists i: nat :: UpdateOf(s, i, key) && ver <= VersionOf(s, i)
  }

  lemma {:induction false} OnlySetsInv(nodes: set<Node>, ls: seq<Label>, key: Key)
    requires OnlySets(ls, key)
    ensures ClocksIssued(Run(nodes, ls), key)
  {
    if ls != [] {
      var s, t := Run(nodes, ls[..|ls| - 1]), Run(nodes, ls);
      var l := ls[|ls| - 1];
      OnlySetsInv(nodes, ls[..|ls| - 1], key);
      StepIssues(s, l, key);
      forall ver | ReachedBy(s, key, ver)
        ensures ReachedBy(t, key, ver)
      {
        var i: nat :| UpdateOf(s, i, key) && ver <= VersionOf(s, i);
        assert UpdateOf(t, i, key);
      }
      forall n | n in t.stores && key in t.stores[n] && Lookup(t.stores[n], key) != Lookup(s.stores[n], key)
        ensures ReachedBy(t, key, t.stores[n][key].ver)
      {
        var i := if l.Set? then |s.issued| else l.i;
        assert UpdateOf(t, i, key);
      }
      assert forall i: nat :: i < |s.issued| ==> (RemovalOf(t, i, key) <==> RemovalOf(s, i, key));
    }
  }

  /** Once every update is delivered, every node is at the highest version ever issued. */
  lemma ClocksConverge(nodes: set<Node>, ls: seq<Label>, key: Key, n: Node, i: nat)
    requires OnlySets(ls, key) && n in nodes
    requires Quiescent(Run(nodes, ls), key) && IsNewest(Run(nodes, ls), i, key)
    ensures var s := Run(nodes, ls);
            && n in s.stores && key in s.stores[n]
            && s.stores[n][key].ver == VersionOf(s, i)
            && exists j: nat :: IsNewest(s, j, key) && s.stores[n][key].value == s.issued[j].msg.value
  {
    RunInv(nodes, ls, key);
    OnlySetsInv(nodes, ls, key);
    var s := Run(nodes, ls);
    assert IssuedFor(s, i, key) && Has(s, i, n);
    NewestIsHeld(s, key, n, i);
  }

  ghost predicate NewestAgree(s: State, key: Key) {
    forall i: nat, j: nat ::
      IsNewest(s, i, key) && IsNewest(s, j, key) ==> s.issued[i].msg.value == s.issued[j].msg.value
  }

  /** When the newest values agree, each node is bound to end with theirs. */
  lemma AgreeingNewestBind(s: State, key: Key, n: Node, top: nat, again: bool)
    requires Inv(s, key) && ClocksIssued(s, key) && NewestAgree(s, key) && n in s.stores && IsNewest(s, top, key)
    ensures EndsWith(s, n, key, s.issued[top].msg.value, again)
  {
    var v := s.issued[top].msg.value;
    assert forall i: nat :: UpdateOf(s, i, key) && VersionOf(s, top) <= VersionOf(s, i) ==> IsNewest(s, i, key);
    assert Stands(s, n, key, VersionOf(s, top), v, again);
    if Has(s, top, n) {
      NewestIsHeld(s, key, n, top);
    } else {
      assert Awaits(s, n, key, top, v, again);
    }
  }

  lemma AgreeingNewestConverge(s: State, key: Key, again: bool)
    requires Inv(s, key) && ClocksIssued(s, key) && NewestAgree(s, key) && EverSet(s, key)
    ensures AlwaysConverges(s, key, again)
  {
    var u: nat :| UpdateOf(s, u, key);
    var top := NewestExists(s, key, u);
    forall n | n in s.stores
      ensures Ends(s, n, key, Some(s.issued[top].msg.value), again)
    {
      AgreeingNewestBind(s, key, n, top, again);
    }
    AllEndSuffices(s, key, Some(s.issued[top].msg.value), again);
  }

  lemma DifferingNewestDivide(s: State, key: Key, i: nat, j: nat)
    requires Inv(s, key) && ClocksIssued(s, key)
    requires IsNewest(s, i, key) && IsNewest(s, j, key) && s.issued[i].msg.value != s.issued[j].msg.value
    ensures !AlwaysConverges(s, key, true)
  {
    var n, m := s.issued[i].src, s.issued[j].src;
    assert n != m by {
      assert VersionOf(s, i) == VersionOf(s, j);
    }
    assert UpdateFor(s, j, n, key, true) && UpdateFor(s, i, m, key, true);
    SubsetSize({n, m}, s.stores.Keys);
    ConvergesExactly(s, key, true);
    forall o
      ensures !AllEnd(s, key, o, true)
    {
      assert o == None ==> !Ends(s, n, key, o, true);
      if o.Some? {
        BoundToHeard(s, n, key, o.value, j);
        BoundToHeard(s, m, key, o.value, i);
      }
    }
  }

  /** A node bound to end with v at a version that newest update j reaches can only end with j's value. */
  lemma BoundToHeard(s: State, n: Node, key: Key, v: Value, j: nat)
    requires ClocksIssued(s, key) && n in s.stores && IsNewest(s, j, key) && UpdateFor(s, j, n, key, true)
    ensures EndsWith(s, n, key, v, true) ==> v == s.issued[j].msg.value
  {
  }

  lemma NeverSetConverges(s: State, key: Key, again: bool)
    requires Absent(s, key)
    ensures AlwaysConverges(s, key, again)
  {
    AllEndSuffices(s, key, None, again);
  }

  lemma RepeatsOnlyHinder(s: State, key: Key)
    requires AlwaysConverges(s, key, true)
    ensures AlwaysConverges(s, key, false)
  {
    assert forall ds :: Schedule(s, ds, false) ==> Schedule(s, ds, true);
  }

  /** Every newest update that n can hear carries v, and if n has all of them it shows v. */
  ghost predicate LedTo(s: State, n: Node, key: Key, v: Value, again: bool)
    requires n in s.stores
  {
    && (forall i: nat :: IsNewest(s, i, key) && CanHear(s, i, n, again) ==> s.issued[i].msg.value == v)
    && ((forall i: nat :: IsNewest(s, i, key) ==> Has(s, i, n)) ==> ValueAt(s, n, key) == Some(v))
  }

  lemma BoundIsLed(s: State, n: Node, key: Key, v: Value, top: nat, again: bool)
    requires Inv(s, key) && ClocksIssued(s, key) && n in s.stores && IsNewest(s, top, key)
    requires EndsWith(s, n, key, v, again)
    ensures LedTo(s, n, key, v, again)
  {
    forall i: nat | IsNewest(s, i, key) && CanHear(s, i, n, again)
      ensures s.issued[i].msg.value == v
    {
      assert UpdateFor(s, i, n, key, again);
    }
    if forall i: nat :: IsNewest(s, i, key) ==> Has(s, i, n) {
      NewestIsHeld(s, key, n, top);
      assert forall w: nat ::
        UpdateFor(s, w, n, key, false) && VersionOf(s, top) <= VersionOf(s, w) ==> IsNewest(s, w, key);
    }
  }

  lemma LedIsBound(s: State, n: Node, key: Key, v: Value, top: nat, again: bool)
    requires Inv(s, key) && ClocksIssued(s, key) && n in s.stores && IsNewest(s, top, key)
    requires LedTo(s, n, key, v, again)
    ensures EndsWith(s, n, key, v, again)
  {
    assert forall i: nat ::
      UpdateFor(s, i, n, key, again) && VersionOf(s, top) <= VersionOf(s, i) ==> IsNewest(s, i, key);
    assert Stands(s, n, key, VersionOf(s, top), v, again);
    if forall i: nat :: IsNewest(s, i, key) ==> Has(s, i, n) {
      NewestIsHeld(s, key, n, top);
    } else {
      var i: nat :| IsNewest(s, i, key) && !Has(s, i, n);
      assert VersionOf(s, i) == VersionOf(s, top) && Awaits(s, n, key, i, v, again);
    }
  }

  /** Some node holds or can hear of a key that is only Set. */
  lemma SetKeyStays(s: State, n: Node, key: Key, top: nat, again: bool)
    requires Inv(s, key) && ClocksIssued(s, key) && n in s.stores && IsNewest(s, top, key)
    ensures !EndsAbsent(s, n, key, again)
  {
    if Has(s, top, n) {
      NewestIsHeld(s, key, n, top);
    } else {
      assert UpdateFor(s, top, n, key, again);
    }
  }

  ghost predicate AllLedTo(s: State, key: Key, v: Value, again: bool) {
    forall n :: n in s.stores ==> LedTo(s, n, key, v, again)
  }

  lemma SetKeyConvergesIff(s: State, key: Key, top: nat, again: bool)
    requires Inv(s, key) && ClocksIssued(s, key) && IsNewest(s, top, key) && |s.stores| > 1
    ensures AlwaysConverges(s, key, again) <==> exists v :: AllLedTo(s, key, v, again)
  {
    hide AlwaysConverges, EndsWith, EndsAbsent, LedTo, Inv, ClocksIssued;
    ConvergesExactly(s, key, again);
    var some :| some in s.stores;
    SetKeyStays(s, some, key, top, again);
    assert !AllEnd(s, key, None, again) by {
      assert !Ends(s, some, key, None, again);
    }
    forall v
      ensures AllEnd(s, key, Some(v), again) <==> AllLedTo(s, key, v, again)
    {
      SetKeyBoundIffLed(s, key, v, top, again);
    }
    if o :| AllEnd(s, key, o, again) {
      assert AllEnd(s, key, Some(o.value), again);
    }
  }

  lemma SetKeyBoundIffLed(s: State, key: Key, v: Value, top: nat, again: bool)
    requires Inv(s, key) && ClocksIssued(s, key) && IsNewest(s, top, key)
    ensures AllEnd(s, key, Some(v), again) <==> AllLedTo(s, key, v, again)
  {
    hide EndsWith, LedTo, Inv, ClocksIssued;
    forall n | n in s.stores
      ensures Ends(s, n, key, Some(v), again) <==> LedTo(s, n, key, v, again)
    {
      if EndsWith(s, n, key, v, again) {
        BoundIsLed(s, n, key, v, top, again);
      }
      if LedTo(s, n, key, v, again) {
        LedIsBound(s, n, key, v, top, again);
      }
    }
  }

  /** A key that is only Set, whether or not the network may repeat deliveries, converges under every
      schedule exactly when there is one node, or nothing was Set, or one value that every node is led to. */
  lemma SetsConvergeIff(nodes: set<Node>, ls: seq<Label>, key: Key, again: bool)
    requires OnlySets(ls, key)
    ensures AlwaysConverges(Run(nodes, ls), key, again) <==>
            |nodes| <= 1 || !EverSet(Run(nodes, ls), key) || exists v :: AllLedTo(Run(nodes, ls), key, v, again)
  {
    hide AlwaysConverges, Inv, ClocksIssued, Absent, LedTo;
    var s := Run(nodes, ls);
    RunInv(nodes, ls, key);
    OnlySetsInv(nodes, ls, key);
    assert |s.stores| == |s.stores.Keys|;
    if |nodes| <= 1 {
      OneNodeConverges(s, key, again);
    } else if !EverSet(s, key) {
      NeverSetNeverHeld(nodes, ls, key);
      NeverSetConverges(s, key, again);
    } else {
      var u: nat :| UpdateOf(s, u, key);
      var top := NewestExists(s, key, u);
      SetKeyConvergesIff(s, key, top, again);
    }
  }

  /** Where the network may repeat deliveries, a key that is only Set converges under every schedule exactly
      when the Sets that issued its highest version agree on the value; where it may not, that suffices. */
  lemma ConvergesIffNewestAgree(nodes: set<Node>, ls: seq<Label>, key: Key)
    requires OnlySets(ls, key)
    ensures AlwaysConverges(Run(nodes, ls), key, true) <==> NewestAgree(Run(nodes, ls), key)
    ensures NewestAgree(Run(nodes, ls), key) ==> AlwaysConverges(Run(nodes, ls), key, false)
  {
    hide AlwaysConverges, Inv, ClocksIssued, Absent;
    var s := Run(nodes, ls);
    RunInv(nodes, ls, key);
    OnlySetsInv(nodes, ls, key);
    if !EverSet(s, key) {
      NeverSetNeverHeld(nodes, ls, key);
      NeverSetConverges(s, key, true);
    } else if NewestAgree(s, key) {
      AgreeingNewestConverge(s, key, true);
    } else {
      var i: nat, j: nat :|
        IsNewest(s, i, key) && IsNewest(s, j, key) && s.issued[i].msg.value != s.issued[j].msg.value;
      DifferingNewestDivide(s, key, i, j);
    }
    if NewestAgree(s, key) {
      RepeatsOnlyHinder(s, key);
    }
  }

  lemma NewestExists(s: State, key: Key, u: nat) returns (top: nat)
    requires UpdateOf(s, u, key)
    ensures IsNewest(s, top, key)
  {
    top := u;
    for j := 0 to |s.issued|
      invariant UpdateOf(s, top, key)
      invariant forall k: nat :: k < j && UpdateOf(s, k, key) ==> VersionOf(s, k) <= VersionOf(s, top)
    {
      if UpdateOf(s, j, key) && VersionOf(s, top) < VersionOf(s, j) {
        top := j;
      }
    }
  }

  // ---- Repair ------------------------------------------------------------

  ghost predicate NoClientOps(ls: seq<Label>, key: Key) {
    forall j :: 0 <= j < |ls| ==> !IsClientOp(ls[j], key)
  }

  /** Every version issued for the key and every clock of it is below ver. */
  ghost predicate Below(s: State, key: Key, ver: int) {
    && (forall i: nat :: IssuedFor(s, i, key) ==> VersionOf(s, i) < ver)
    && (forall n :: n in s.stores && key in s.stores[n] ==> s.stores[n][key].ver < ver)
  }

  /** Message p is the only one of its version, and no clock is past it. */
  ghost predicate Leads(s: State, p: nat, key: Key) {
    && UpdateOf(s, p, key)
    && (forall i: nat :: IssuedFor(s, i, key) && i != p ==> VersionOf(s, i) < VersionOf(s, p))
    && (forall n :: n in s.stores && key in s.stores[n] ==> s.stores[n][key].ver <= VersionOf(s, p))
  }

  lemma {:induction false} StillLeads(s: State, ls: seq<Label>, p: nat, key: Key)
    requires Leads(s, p, key) && NoClientOps(ls, key)
    ensures Leads(Exec(s, ls, Unbounded), p, key) && Exec(s, ls, Unbounded).issued[p] == s.issued[p]
  {
    if ls != [] {
      var mid, t := Exec(s, ls[..|ls| - 1], Unbounded), Exec(s, ls, Unbounded);
      var l := ls[|ls| - 1];
      StillLeads(s, ls[..|ls| - 1], p, key);
      assert !IsClientOp(l, key);
      assert forall i: nat :: IssuedFor(t, i, key) ==> IssuedFor(mid, i, key);
      if l.Deliver? && CanDeliver(mid, l.i, l.n) && mid.issued[l.i].msg.key == key {
        assert IssuedFor(mid, l.i, key);
      }
    }
  }

  /** A Set whose version tops everything known about the key, with no later client operation on it, is
      what every node holds after delivery, whatever conflicts, reads and removals came before. */
  lemma Repair(nodes: set<Node>, before: seq<Label>, n: Node, key: Key, value: Value, after: seq<Label>, m: Node)
    requires n in nodes && m in nodes && NoClientOps(after, key)
    requires var s := Run(nodes, before);
             n in s.stores && Below(s, key, SetRecord(Lookup(s.stores[n], key), value, Unbounded).ver)
    requires Quiescent(Run(nodes, before + [Set(n, key, value)] + after), key)
    ensures var s, t := Run(nodes, before), Run(nodes, before + [Set(n, key, value)] + after);
            && n in s.stores && m in t.stores
            && Lookup(t.stores[m], key) == Some(SetRecord(Lookup(s.stores[n], key), value, Unbounded))
  {
    var l := Set(n, key, value);
    var s := Run(nodes, before);
    var mid := Step(s, l, Unbounded);
    ExecSnoc(Init(nodes), before, l, Unbounded);
    ExecConcat(Init(nodes), before + [l], after, Unbounded);
    var t := Exec(mid, after, Unbounded);
    var p := |s.issued|;
    assert Leads(mid, p, key) by {
      assert UpdateOf(mid, p, key);
      assert forall i: nat :: IssuedFor(mid, i, key) && i != p ==> IssuedFor(s, i, key);
    }
    StillLeads(mid, after, p, key);
    RunInv(nodes, before + [l] + after, key);
    assert IsNewest(t, p, key) && Outranks(t, key, VersionOf(t, p));
    NewestIsHeld(t, key, m, p);
  }

  /** In particular, where the key is only Set, a Set at a node that has received every update issued
      so far repairs whatever earlier ties left the nodes disagreeing about. */
  lemma ConflictRepair(nodes: set<Node>, before: seq<Label>, n: Node, key: Key, value: Value, after: seq<Label>,
                       m: Node)
    requires n in nodes && m in nodes && OnlySets(before, key) && NoClientOps(after, key)
    requires forall i: nat :: IssuedFor(Run(nodes, before), i, key) ==> Has(Run(nodes, before), i, n)
    requires Quiescent(Run(nodes, before + [Set(n, key, value)] + after), key)
    ensures var s, t := Run(nodes, before), Run(nodes, before + [Set(n, key, value)] + after);
            && n in s.stores && m in t.stores
            && Lookup(t.stores[m], key) == Some(SetRecord(Lookup(s.stores[n], key), value, Unbounded))
  {
    var s := Run(nodes, before);
    RunInv(nodes, before, key);
    OnlySetsInv(nodes, before, key);
    forall i: nat | IssuedFor(s, i, key)
      ensures key in s.stores[n] && VersionOf(s, i) <= s.stores[n][key].ver
    {
      assert UpdateOf(s, i, key) || RemovalOf(s, i, key);
      assert Has(s, i, n);
    }
    Repair(nodes, before, n, key, value, after, m);
  }

  // ---- Runs that diverge -------------------------------------------------

  const KEY: Key := [107]
  const VALUE_A: Value := [97]
  const VALUE_B: Value := [98]

  function Play(ls: seq<Label>): State {
    Run({0, 1}, ls)
  }

  /** Every message has reached every node, and yet the nodes differ. */
  ghost predicate Diverged(s: State) {
    Quiescent(s, KEY) && !ValuesAgree(s, KEY)
  }

  lemma PlayOn(ls: seq<Label>, l: Label)
    ensures Play(ls + [l]) == Step(Play(ls), l, Unbounded)
  {
    ExecSnoc(Init({0, 1}), ls, l, Unbounded);
  }

  function SetBoth(): seq<Label> {
    [] + [Set(0, KEY, VALUE_A)] + [Set(1, KEY, VALUE_B)]
  }

  lemma AfterSetBoth()
    ensures var s := Play(SetBoth());
            && s.stores.Keys == {0, 1} && s.seen == {}
            && s.issued == [Broadcast(0, Updated(KEY, VALUE_A, 1)), Broadcast(1, Updated(KEY, VALUE_B, 1))]
            && Lookup(s.stores[0], KEY) == Some(Record(VALUE_A, 1))
            && Lookup(s.stores[1], KEY) == Some(Record(VALUE_B, 1))
  {
    PlayOn([], Set(0, KEY, VALUE_A));
    PlayOn([] + [Set(0, KEY, VALUE_A)], Set(1, KEY, VALUE_B));
  }

  /** Two simultaneous Sets swap their values for good. */
  lemma TieDiverges()
    ensures Diverged(Play(SetBoth() + [Deliver(0, 1)] + [Deliver(1, 0)]))
  {
    AfterSetBoth();
    PlayOn(SetBoth(), Deliver(0, 1));
    PlayOn(SetBoth() + [Deliver(0, 1)], Deliver(1, 0));
    hide SetBoth;
    var t := Play(SetBoth() + [Deliver(0, 1)] + [Deliver(1, 0)]);
    assert ValueAt(t, 0, KEY) == Some(VALUE_B) && ValueAt(t, 1, KEY) == Some(VALUE_A);
  }

  /** The value the owner set has reached the replica, and the replica has read it twice. */
  function ReadTwice(): seq<Label> {
    [] + [Set(0, KEY, VALUE_A)] + [Deliver(0, 1)] + [Get(1, KEY)] + [Get(1, KEY)]
  }

  lemma AfterReadTwice()
    ensures var s := Play(ReadTwice());
            && s.stores.Keys == {0, 1} && s.issued == [Broadcast(0, Updated(KEY, VALUE_A, 1))] && s.seen == {(0, 1)}
            && Lookup(s.stores[0], KEY) == Some(Record(VALUE_A, 1))
            && Lookup(s.stores[1], KEY) == Some(Record(VALUE_A, 3))
  {
    var a := [] + [Set(0, KEY, VALUE_A)];
    PlayOn([], Set(0, KEY, VALUE_A));
    PlayOn(a, Deliver(0, 1));
    PlayOn(a + [Deliver(0, 1)], Get(1, KEY));
    PlayOn(a + [Deliver(0, 1)] + [Get(1, KEY)], Get(1, KEY));
  }

  /** Two reads at a replica make it refuse the owner's next update. */
  lemma ReadsDiverge()
    ensures Diverged(Play(ReadTwice() + [Set(0, KEY, VALUE_B)] + [Deliver(1, 1)]))
  {
    AfterReadTwice();
    PlayOn(ReadTwice(), Set(0, KEY, VALUE_B));
    PlayOn(ReadTwice() + [Set(0, KEY, VALUE_B)], Deliver(1, 1));
    var t := Play(ReadTwice() + [Set(0, KEY, VALUE_B)] + [Deliver(1, 1)]);
    assert ValueAt(t, 0, KEY) == Some(VALUE_B) && ValueAt(t, 1, KEY) == Some(VALUE_A);
  }

  /** An update that arrives after the removal of its key brings the key back. */
  lemma LateUpdateDiverges()
    ensures Diverged(Play([] + [Set(0, KEY, VALUE_A)] + [Remove(0, KEY)] + [Deliver(1, 1)] + [Deliver(0, 1)]))
  {
    var a := [] + [Set(0, KEY, VALUE_A)] + [Remove(0, KEY)];
    PlayOn([], Set(0, KEY, VALUE_A));
    PlayOn([] + [Set(0, KEY, VALUE_A)], Remove(0, KEY));
    PlayOn(a, Deliver(1, 1));
    PlayOn(a + [Deliver(1, 1)], Deliver(0, 1));
    var t := Play(a + [Deliver(1, 1)] + [Deliver(0, 1)]);
    assert ValueAt(t, 0, KEY) == None && ValueAt(t, 1, KEY) == Some(VALUE_A);
  }

  /** The value the owner set has reached the replica, and then the owner has removed the key. */
  function SetThenRemoved(): seq<Label> {
    [] + [Set(0, KEY, VALUE_A)] + [Deliver(0, 1)] + [Remove(0, KEY)]
  }

  lemma AfterSetThenRemoved()
    ensures var s := Play(SetThenRemoved());
            && s.stores.Keys == {0, 1} && s.seen == {(0, 1)}
            && s.issued == [Broadcast(0, Updated(KEY, VALUE_A, 1)), Broadcast(0, Removed(KEY, 2))]
            && KEY !in s.stores[0] && Lookup(s.stores[1], KEY) == Some(Record(VALUE_A, 1))
  {
    var a := [] + [Set(0, KEY, VALUE_A)];
    PlayOn([], Set(0, KEY, VALUE_A));
    PlayOn(a, Deliver(0, 1));
    PlayOn(a + [Deliver(0, 1)], Remove(0, KEY));
  }

  /** The hypothesis of RemovalPreventsConvergence tells the two kinds of network apart: once the update has
      been delivered, its removal takes the key away for good only if the update cannot come again. */
  lemma RepeatedUpdateMatters()
    ensures var s := Play(SetThenRemoved());
            Exposed(s, 1, 1, KEY) && AlwaysConverges(s, KEY, false) && !AlwaysConverges(s, KEY, true)
  {
    var s := Play(SetThenRemoved());
    AfterSetThenRemoved();
    hide Exec, SetThenRemoved, AlwaysConverges;
    assert UpdateOf(s, 0, KEY);
    RemovalPreventsConvergence({0, 1}, SetThenRemoved(), KEY, 1, 1, 0);
    assert RemovalFor(s, 1, 1, KEY, false);
    AllEndSuffices(s, KEY, None, false);
  }

  /** Three nodes set the key at the same time, the middle one to another value, which has reached the others. */
  function ThreeSets(): seq<Label> {
    [] + [Set(0, KEY, VALUE_A)] + [Set(1, KEY, VALUE_B)] + [Set(2, KEY, VALUE_A)]
  }

  function Outnumbered(): State {
    Run({0, 1, 2}, ThreeSets() + [Deliver(1, 0)] + [Deliver(1, 2)])
  }

  lemma AfterThreeSets()
    ensures var s := Run({0, 1, 2}, ThreeSets());
            && s.stores.Keys == {0, 1, 2} && s.seen == {}
            && s.issued == [Broadcast(0, Updated(KEY, VALUE_A, 1)), Broadcast(1, Updated(KEY, VALUE_B, 1)),
                            Broadcast(2, Updated(KEY, VALUE_A, 1))]
            && Lookup(s.stores[0], KEY) == Some(Record(VALUE_A, 1))
            && Lookup(s.stores[1], KEY) == Some(Record(VALUE_B, 1))
            && Lookup(s.stores[2], KEY) == Some(Record(VALUE_A, 1))
  {
    var s := Init({0, 1, 2});
    var a := [] + [Set(0, KEY, VALUE_A)];
    var b := a + [Set(1, KEY, VALUE_B)];
    ExecSnoc(s, [], Set(0, KEY, VALUE_A), Unbounded);
    ExecSnoc(s, a, Set(1, KEY, VALUE_B), Unbounded);
    ExecSnoc(s, b, Set(2, KEY, VALUE_A), Unbounded);
  }

  lemma AfterOutnumbered()
    ensures var s := Outnumbered();
            && s.stores.Keys == {0, 1, 2} && s.seen == {(1, 0), (1, 2)}
            && s.issued == [Broadcast(0, Updated(KEY, VALUE_A, 1)), Broadcast(1, Updated(KEY, VALUE_B, 1)),
                            Broadcast(2, Updated(KEY, VALUE_A, 1))]
            && forall n :: n in s.stores ==> Lookup(s.stores[n], KEY) == Some(Record(VALUE_B, 1))
  {
    AfterThreeSets();
    hide Exec, ThreeSets;
    ExecSnoc(Init({0, 1, 2}), ThreeSets(), Deliver(1, 0), Unbounded);
    ExecSnoc(Init({0, 1, 2}), ThreeSets() + [Deliver(1, 0)], Deliver(1, 2), Unbounded);
  }

  /** Only the others' messages of value A can still reach a node. */
  lemma OutnumberedHears(n: Node, j: nat)
    requires n in {0, 1, 2}
    ensures !RemovalFor(Outnumbered(), j, n, KEY, false)
    ensures UpdateFor(Outnumbered(), j, n, KEY, false) ==> Outnumbered().issued[j].msg == Updated(KEY, VALUE_A, 1)
  {
    AfterOutnumbered();
    hide Outnumbered;
    assert j < 3 || !IssuedFor(Outnumbered(), j, KEY);
  }

  lemma OutnumberedUnseen(n: Node, i: nat)
    requires n in {0, 1, 2} && i in {0, 2} && i != n
    ensures UpdateFor(Outnumbered(), i, n, KEY, false) && VersionOf(Outnumbered(), i) == 1
  {
    AfterOutnumbered();
    hide Outnumbered;
  }

  lemma OutnumberedAwaits(n: Node, i: nat)
    requires n in {0, 1, 2} && i in {0, 2} && i != n
    ensures n in Outnumbered().stores && Awaits(Outnumbered(), n, KEY, i, VALUE_A, false)
  {
    var s := Outnumbered();
    AfterOutnumbered();
    hide Outnumbered, Awaits;
    OutnumberedUnseen(n, i);
    forall j: nat
      ensures !RemovalFor(s, j, n, KEY, false)
      ensures UpdateFor(s, j, n, KEY, false) ==> s.issued[j].msg == Updated(KEY, VALUE_A, 1)
    {
      OutnumberedHears(n, j);
    }
    assert Lookup(s.stores[n], KEY) == Some(Record(VALUE_B, 1));
    AwaitsFirst(s, n, KEY, i, VALUE_A);
  }

  /** An update that all others n has yet to hear repeat, and that nothing removes. */
  lemma AwaitsFirst(s: State, n: Node, key: Key, i: nat, v: Value)
    requires n in s.stores && UpdateFor(s, i, n, key, false)
    requires forall j: nat :: UpdateFor(s, j, n, key, false) ==> s.issued[j].msg.value == v
    requires forall j: nat :: !RemovalFor(s, j, n, key, false)
    requires key in s.stores[n] ==> s.stores[n][key].ver <= VersionOf(s, i)
    ensures Awaits(s, n, key, i, v, false)
  {
  }

  lemma OutnumberedNewest()
    ensures !NewestAgree(Outnumbered(), KEY)
  {
    var s := Outnumbered();
    AfterOutnumbered();
    hide Outnumbered;
    assert UpdateOf(s, 0, KEY) && UpdateOf(s, 1, KEY);
    assert IsNewest(s, 0, KEY) && IsNewest(s, 1, KEY);
  }

  /** Where no delivery repeats, the newest values need not agree: here every node has yet to hear the value
      that two of the three Sets wrote, and can never hear the other one again. */
  lemma AgreementNotNeededOnce()
    ensures !NewestAgree(Outnumbered(), KEY) && AlwaysConverges(Outnumbered(), KEY, false)
  {
    var s := Outnumbered();
    OutnumberedNewest();
    RunKeepsNodes({0, 1, 2}, ThreeSets() + [Deliver(1, 0)] + [Deliver(1, 2)]);
    hide Run, ThreeSets, AlwaysConverges, NewestAgree, Awaits;
    forall n | n in s.stores
      ensures Ends(s, n, KEY, Some(VALUE_A), false)
    {
      OutnumberedAwaits(n, if n == 0 then 2 else 0);
    }
    AllEndSuffices(s, KEY, Some(VALUE_A), false);
  }
}

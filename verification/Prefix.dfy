/** Replicas of a key with one owner follow the owner's history, removals included. */
module Prefix {
  import opened Fnv
  import opened Options
  import opened Records
  import opened Cluster

  /** Clients touch the key at its owner only; anything may happen to the other keys. */
  ghost predicate OwnedBy(ls: seq<Label>, o: Node, key: Key) {
    forall j :: 0 <= j < |ls| && IsClientOp(ls[j], key) ==> ls[j].n == o
  }

  /** The link from o delivers in the order of emission, without gaps or repetitions. */
  predicate InOrder(s: State, l: Label, o: Node) {
    l.Deliver? && CanDeliver(s, l.i, l.n) && s.issued[l.i].src == o ==> l.i == Received(s, o, l.n, 0)
  }

  ghost predicate FifoFrom(nodes: set<Node>, ls: seq<Label>, o: Node) {
    forall j :: 0 <= j < |ls| ==> InOrder(Run(nodes, ls[..j]), ls[j], o)
  }

  /** The first message from o, at or after `from`, that n does not have; all of them before it, n has. */
  function Received(s: State, o: Node, n: Node, from: nat): (g: nat)
    requires from <= |s.issued|
    ensures from <= g <= |s.issued|
    ensures forall i: nat :: from <= i < g && s.issued[i].src == o ==> Has(s, i, n)
    ensures g < |s.issued| ==> s.issued[g].src == o && !Has(s, g, n)
    decreases |s.issued| - from
  {
    if from == |s.issued| || (s.issued[from].src == o && !Has(s, from, n)) then from
    else Received(s, o, n, from + 1)
  }

  /** The last message about the key. */
  function LastMessage(issued: seq<Broadcast>, key: Key): Option<Message> {
    if issued == [] then None
    else if issued[|issued| - 1].msg.key == key then Some(issued[|issued| - 1].msg)
    else LastMessage(issued[..|issued| - 1], key)
  }

  /** The key as it stands after message m, up to reads at the owner. */
  predicate Reflects(st: Store, key: Key, m: Option<Message>, exact: bool) {
    if m.Some? && m.value.Updated? then
      && key in st && st[key].value == m.value.value && m.value.ver <= st[key].ver
      && (exact ==> st[key].ver == m.value.ver)
    else key !in st
  }

  /** Each message about the key follows from the one before it: removals end an epoch, versions climb in it. */
  predicate Follows(m: Message, before: Option<Message>) {
    if before.Some? && before.value.Updated? then before.value.ver < m.ver else m.Updated?
  }

  ghost predicate Links(s: State) {
    forall i: nat, n :: (i, n) in s.seen ==> i < |s.issued| && n in s.stores
  }

  ghost predicate Sources(s: State, o: Node, key: Key) {
    forall i: nat :: IssuedFor(s, i, key) ==> s.issued[i].src == o
  }

  ghost predicate Chain(s: State, key: Key) {
    forall i: nat :: IssuedFor(s, i, key) ==> Follows(s.issued[i].msg, LastMessage(s.issued[..i], key))
  }

  /** Each node has received a prefix of what o issued. */
  ghost predicate Prefixes(s: State, o: Node) {
    forall i: nat, n :: i < |s.issued| && (i, n) in s.seen && s.issued[i].src == o ==> i < Received(s, o, n, 0)
  }

  /** Each node stores what the last message of its prefix says. */
  ghost predicate Views(s: State, o: Node, key: Key) {
    forall n :: n in s.stores ==> Reflects(s.stores[n], key, View(s, o, n, key), n != o)
  }

  ghost predicate PrefixInv(s: State, o: Node, key: Key) {
    Links(s) && Sources(s, o, key) && Chain(s, key) && Prefixes(s, o) && Views(s, o, key)
  }

  /** The last message about the key that n has. */
  function View(s: State, o: Node, n: Node, key: Key): Option<Message> {
    LastMessage(s.issued[..Received(s, o, n, 0)], key)
  }

  // ---- Reading a prefix --------------------------------------------------

  /** Messages that are not about the key do not change its last message. */
  lemma {:induction false} SkipOthers(issued: seq<Broadcast>, key: Key, a: nat, b: nat)
    requires a <= b <= |issued|
    requires forall i :: a <= i < b ==> issued[i].msg.key != key
    ensures LastMessage(issued[..b], key) == LastMessage(issued[..a], key)
  {
    if a < b {
      assert issued[..b][..b - 1] == issued[..b - 1];
      SkipOthers(issued, key, a, b - 1);
    }
  }

  /** Received depends only on what n has of o's messages. */
  lemma {:induction false} ReceivedIs(s: State, o: Node, n: Node, from: nat, g: nat)
    requires from <= g <= |s.issued|
    requires forall i: nat :: from <= i < g && s.issued[i].src == o ==> Has(s, i, n)
    requires g < |s.issued| ==> s.issued[g].src == o && !Has(s, g, n)
    ensures Received(s, o, n, from) == g
    decreases g - from
  {
    if from < g {
      ReceivedIs(s, o, n, from + 1, g);
    }
  }

  // ---- Steps -------------------------------------------------------------

  /** A step that issues nothing and tells n nothing from o leaves n's prefix alone. */
  lemma SamePrefix(s: State, t: State, o: Node, n: Node)
    requires t.issued == s.issued
    requires forall i: nat :: i < |s.issued| && s.issued[i].src == o ==> ((i, n) in t.seen <==> (i, n) in s.seen)
    ensures Received(t, o, n, 0) == Received(s, o, n, 0)
  {
    ReceivedIs(t, o, n, 0, Received(s, o, n, 0));
  }

  /** A new message by o reaches no one else at once; o itself is always up to date. */
  lemma PrefixAfterIssue(s: State, t: State, b: Broadcast, o: Node, n: Node)
    requires t.issued == s.issued + [b] && t.seen == s.seen
    requires forall i: nat, m :: (i, m) in s.seen ==> i < |s.issued|
    ensures var g := Received(s, o, n, 0);
            Received(t, o, n, 0) == if g < |s.issued| || (b.src == o && n != o) then g else |t.issued|
  {
    var g := Received(s, o, n, 0);
    ReceivedIs(t, o, n, 0, if g < |s.issued| || (b.src == o && n != o) then g else |t.issued|);
  }

  lemma OwnerHasAll(s: State, o: Node)
    ensures Received(s, o, o, 0) == |s.issued|
  {
  }

  /** Delivering the next message of the link extends n's prefix up to the next one from o. */
  lemma PrefixAfterDelivery(s: State, t: State, o: Node, n: Node)
    requires var g := Received(s, o, n, 0);
             && g < |s.issued| && t.issued == s.issued && t.seen == s.seen + {(g, n)}
             && forall i: nat :: i < |s.issued| && (i, n) in s.seen && s.issued[i].src == o ==> i < g
    requires n != o
    ensures var g, h := Received(s, o, n, 0), Received(t, o, n, 0);
            && g < h && forall i :: g < i < h ==> s.issued[i].src != o
  {
    var g, h := Received(s, o, n, 0), Received(t, o, n, 0);
    forall i: nat | g < i < h
      ensures s.issued[i].src != o
    {
      assert s.issued[i].src == o ==> Has(t, i, n);
    }
  }

  /** A message that follows the one a store reflects is what the store reflects next. */
  lemma ReflectsNext(st: Store, key: Key, before: Option<Message>, m: Message)
    requires Reflects(st, key, before, true) && (m.key == key ==> Follows(m, before))
    ensures Reflects(AfterMessage(st, m), key, if m.key == key then Some(m) else before, true)
  {
  }

  lemma LastMessageNext(issued: seq<Broadcast>, key: Key, i: nat)
    requires i < |issued|
    ensures LastMessage(issued[..i + 1], key) ==
            if issued[i].msg.key == key then Some(issued[i].msg) else LastMessage(issued[..i], key)
  {
    assert issued[..i + 1][..i] == issued[..i];
  }

  /** What the next message of the link does to the receiver's view of the key. */
  lemma DeliveryReflected(s: State, i: nat, n: Node, o: Node, key: Key)
    requires PrefixInv(s, o, key) && CanDeliver(s, i, n) && s.issued[i].src == o && i == Received(s, o, n, 0)
    ensures var t := Step(s, Deliver(i, n), Unbounded);
            && i < Received(t, o, n, 0)
            && Reflects(t.stores[n], key, View(t, o, n, key), true)
  {
    var t := Step(s, Deliver(i, n), Unbounded);
    PrefixAfterDelivery(s, t, o, n);
    var h := Received(t, o, n, 0);
    forall j: nat | i < j < h
      ensures s.issued[j].msg.key != key
    {
      assert s.issued[j].msg.key == key ==> IssuedFor(s, j, key);
    }
    assert s.issued[i].msg.key == key ==> IssuedFor(s, i, key);
    hide Reflects, Follows, LastMessage, Received;
    SkipOthers(s.issued, key, i + 1, h);
    LastMessageNext(s.issued, key, i);
    ReflectsNext(s.stores[n], key, LastMessage(s.issued[..i], key), s.issued[i].msg);
  }

  /** A delivery that is not from o to n changes neither n's prefix nor n's view of the key. */
  lemma OtherDelivery(s: State, i: nat, m: Node, n: Node, o: Node, key: Key)
    requires PrefixInv(s, o, key) && CanDeliver(s, i, m) && n in s.stores && !(n == m && s.issued[i].src == o)
    ensures var t := Step(s, Deliver(i, m), Unbounded);
            && Received(t, o, n, 0) == Received(s, o, n, 0)
            && Reflects(t.stores[n], key, View(t, o, n, key), n != o)
  {
    SamePrefix(s, Step(s, Deliver(i, m), Unbounded), o, n);
    assert n == m ==> !IssuedFor(s, i, key);
  }

  lemma DeliveryKeepsPrefixes(s: State, i: nat, m: Node, o: Node, key: Key)
    requires PrefixInv(s, o, key) && CanDeliver(s, i, m) && InOrder(s, Deliver(i, m), o)
    ensures Prefixes(Step(s, Deliver(i, m), Unbounded), o)
  {
    var t := Step(s, Deliver(i, m), Unbounded);
    forall j: nat, n | j < |t.issued| && (j, n) in t.seen && t.issued[j].src == o
      ensures j < Received(t, o, n, 0)
    {
      if n == m && s.issued[i].src == o {
        PrefixAfterDelivery(s, t, o, n);
      } else {
        SamePrefix(s, t, o, n);
      }
    }
  }

  lemma DeliveryKeepsViews(s: State, i: nat, m: Node, o: Node, key: Key)
    requires PrefixInv(s, o, key) && CanDeliver(s, i, m) && InOrder(s, Deliver(i, m), o)
    ensures Views(Step(s, Deliver(i, m), Unbounded), o, key)
  {
    hide View, Reflects, PrefixInv, Received;
    var t := Step(s, Deliver(i, m), Unbounded);
    forall n | n in t.stores
      ensures Reflects(t.stores[n], key, View(t, o, n, key), n != o)
    {
      if n == m && s.issued[i].src == o {
        DeliveryReflected(s, i, n, o, key);
      } else {
        OtherDelivery(s, i, m, n, o, key);
      }
    }
  }

  lemma StepDelivery(s: State, i: nat, m: Node, o: Node, key: Key)
    requires PrefixInv(s, o, key) && InOrder(s, Deliver(i, m), o)
    ensures PrefixInv(Step(s, Deliver(i, m), Unbounded), o, key)
  {
    hide Views, Prefixes, Received, LastMessage, Follows;
    if CanDeliver(s, i, m) {
      var t := Step(s, Deliver(i, m), Unbounded);
      DeliveryKeepsPrefixes(s, i, m, o, key);
      DeliveryKeepsViews(s, i, m, o, key);
      assert forall j: nat :: IssuedFor(t, j, key) <==> IssuedFor(s, j, key);
    }
  }

  /** The guards accept the next message of the link: it follows what the replica stores. */
  lemma DeliveredFollows(s: State, i: nat, n: Node, o: Node, key: Key)
    requires PrefixInv(s, o, key) && CanDeliver(s, i, n) && i == Received(s, o, n, 0) && s.issued[i].msg.key == key
    ensures var r := Lookup(s.stores[n], key);
            if s.issued[i].msg.Updated? then r.Some? ==> r.value.ver < s.issued[i].msg.ver
            else r.Some? && r.value.ver < s.issued[i].msg.ver
  {
    assert IssuedFor(s, i, key);
    assert n != o;
  }

  /** t is s with one more message issued. */
  ghost predicate Issues(s: State, t: State, b: Broadcast) {
    t.issued == s.issued + [b] && t.seen == s.seen && t.stores.Keys == s.stores.Keys
  }

  lemma IssueKeepsChain(s: State, t: State, b: Broadcast, o: Node, key: Key)
    requires Sources(s, o, key) && Chain(s, key) && Issues(s, t, b)
    requires b.msg.key == key ==> b.src == o && Follows(b.msg, LastMessage(s.issued, key))
    ensures Sources(t, o, key) && Chain(t, key)
  {
    forall i: nat | IssuedFor(t, i, key)
      ensures t.issued[i].src == o && Follows(t.issued[i].msg, LastMessage(t.issued[..i], key))
    {
      assert t.issued[..i] == if i < |s.issued| then s.issued[..i] else s.issued;
      if i < |s.issued| {
        assert IssuedFor(s, i, key);
      }
    }
  }

  lemma IssueKeepsPrefixes(s: State, t: State, b: Broadcast, o: Node)
    requires Links(s) && Prefixes(s, o) && Issues(s, t, b)
    ensures Links(t) && Prefixes(t, o)
  {
    forall i: nat, n | i < |t.issued| && (i, n) in t.seen && t.issued[i].src == o
      ensures i < Received(t, o, n, 0)
    {
      PrefixAfterIssue(s, t, b, o, n);
    }
  }

  /** What issuing one message does to the view of each node. */
  lemma ViewAfterIssue(s: State, t: State, b: Broadcast, o: Node, n: Node, key: Key)
    requires Links(s) && Issues(s, t, b) && (b.msg.key == key ==> b.src == o)
    ensures View(t, o, n, key) == if b.msg.key == key && n == o then Some(b.msg) else View(s, o, n, key)
  {
    var g, h := Received(s, o, n, 0), Received(t, o, n, 0);
    PrefixAfterIssue(s, t, b, o, n);
    if n == o {
      OwnerHasAll(s, o);
    }
    assert t.issued[..g] == s.issued[..g];
    if h == |t.issued| && g == |s.issued| {
      LastMessageNext(t.issued, key, |s.issued|);
    }
  }

  lemma IssueKeepsInv(s: State, t: State, b: Broadcast, o: Node, key: Key)
    requires PrefixInv(s, o, key) && Issues(s, t, b)
    requires b.msg.key == key ==> b.src == o && Follows(b.msg, LastMessage(s.issued, key))
    requires forall n :: n in t.stores && n != o ==> Lookup(t.stores[n], key) == Lookup(s.stores[n], key)
    requires o in t.stores ==>
               Reflects(t.stores[o], key, if b.msg.key == key then Some(b.msg) else View(s, o, o, key), false)
    ensures PrefixInv(t, o, key)
  {
    IssueKeepsChain(s, t, b, o, key);
    IssueKeepsPrefixes(s, t, b, o);
    hide View, Chain, Sources, Prefixes, Follows;
    forall n | n in t.stores
      ensures Reflects(t.stores[n], key, View(t, o, n, key), n != o)
    {
      assert Reflects(s.stores[n], key, View(s, o, n, key), n != o);
      ViewAfterIssue(s, t, b, o, n, key);
    }
  }

  lemma QuietKeepsInv(s: State, t: State, o: Node, key: Key)
    requires PrefixInv(s, o, key) && t.issued == s.issued && t.seen == s.seen && t.stores.Keys == s.stores.Keys
    requires forall n :: n in t.stores && n != o ==> Lookup(t.stores[n], key) == Lookup(s.stores[n], key)
    requires o in t.stores ==> Reflects(t.stores[o], key, View(s, o, o, key), false)
    ensures PrefixInv(t, o, key)
  {
    assert forall i: nat :: IssuedFor(t, i, key) <==> IssuedFor(s, i, key);
    forall n
      ensures Received(t, o, n, 0) == Received(s, o, n, 0)
    {
      SamePrefix(s, t, o, n);
    }
    forall n | n in t.stores
      ensures Reflects(t.stores[n], key, View(t, o, n, key), n != o)
    {
      assert Reflects(s.stores[n], key, View(s, o, n, key), n != o);
    }
  }

  /** What the owner issues follows what it issued before, and its store keeps reflecting it. */
  lemma OwnerFollows(st: Store, key: Key, value: Value, before: Option<Message>)
    requires Reflects(st, key, before, false)
    ensures var m := SetMessage(st, key, value, Unbounded);
            Follows(m, before) && Reflects(AfterSet(st, key, value, Unbounded), key, Some(m), false)
    ensures Reflects(AfterGet(st, key, Unbounded), key, before, false)
    ensures key in st ==> var m := RemoveMessage(st, key, Unbounded);
                          Follows(m, before) && Reflects(AfterRemove(st, key), key, Some(m), false)
  {
  }

  lemma OwnerReflects(s: State, o: Node, key: Key)
    requires PrefixInv(s, o, key)
    ensures View(s, o, o, key) == LastMessage(s.issued, key)
    ensures o in s.stores ==> Reflects(s.stores[o], key, View(s, o, o, key), false)
  {
    OwnerHasAll(s, o);
    assert s.issued[..|s.issued|] == s.issued;
  }

  /** A client step at the owner, or on another key. */
  lemma StepClient(s: State, l: Label, o: Node, key: Key)
    requires PrefixInv(s, o, key) && !l.Deliver? && (l.key == key ==> l.n == o)
    ensures PrefixInv(Step(s, l, Unbounded), o, key)
  {
    hide PrefixInv, View, Received, LastMessage, Follows, Reflects;
    var t := Step(s, l, Unbounded);
    if l.n in s.stores {
      var st, before := s.stores[l.n], View(s, o, o, key);
      OwnerReflects(s, o, key);
      if o in s.stores {
        OwnerFollows(s.stores[o], key, if l.Set? then l.value else [], before);
        if o != l.n || l.key != key {
          assert Lookup(t.stores[o], key) == Lookup(s.stores[o], key);
          SameReflection(s.stores[o], t.stores[o], key, before);
        }
      }
      match l
      case Set(n, k, v) =>
        IssueKeepsInv(s, t, Broadcast(n, SetMessage(st, k, v, Unbounded)), o, key);
      case Get(n, k) =>
        QuietKeepsInv(s, t, o, key);
      case Remove(n, k) =>
        if k in st {
          IssueKeepsInv(s, t, Broadcast(n, RemoveMessage(st, k, Unbounded)), o, key);
        }
    }
  }

  lemma SameReflection(st: Store, st': Store, key: Key, m: Option<Message>)
    requires Lookup(st, key) == Lookup(st', key) && Reflects(st, key, m, false)
    ensures Reflects(st', key, m, false)
  {
  }

  lemma {:induction false} RunPrefix(nodes: set<Node>, ls: seq<Label>, o: Node, key: Key)
    requires OwnedBy(ls, o, key) && FifoFrom(nodes, ls, o)
    ensures PrefixInv(Run(nodes, ls), o, key)
  {
    if ls != [] {
      var init, l := ls[..|ls| - 1], ls[|ls| - 1];
      assert FifoFrom(nodes, init, o) by {
        assert forall j :: 0 <= j < |init| ==> init[..j] == ls[..j] && init[j] == ls[j];
      }
      RunPrefix(nodes, init, o, key);
      assert InOrder(Run(nodes, init), l, o);
      if l.Deliver? {
        StepDelivery(Run(nodes, init), l.i, l.n, o, key);
      } else {
        StepClient(Run(nodes, init), l, o, key);
      }
    }
  }

  // ---- The theorems ------------------------------------------------------

  lemma PrefixOfRun(nodes: set<Node>, ls: seq<Label>, o: Node, key: Key, t: nat)
    requires OwnedBy(ls, o, key) && FifoFrom(nodes, ls, o) && t <= |ls|
    ensures PrefixInv(Run(nodes, ls[..t]), o, key)
  {
    assert forall j :: 0 <= j < t ==> ls[..t][..j] == ls[..j] && ls[..t][j] == ls[j];
    RunPrefix(nodes, ls[..t], o, key);
  }

  /** With one owner and ordered links no replica ever turns a message about the key away. */
  lemma GuardsAccept(nodes: set<Node>, ls: seq<Label>, o: Node, key: Key, i: nat, n: Node)
    requires OwnedBy(ls, o, key) && FifoFrom(nodes, ls + [Deliver(i, n)], o)
    requires CanDeliver(Run(nodes, ls), i, n) && Run(nodes, ls).issued[i].msg.key == key
    ensures var s := Run(nodes, ls);
            var m, r := s.issued[i].msg, Lookup(s.stores[n], key);
            if m.Updated? then r.Some? ==> r.value.ver < m.ver else RemovableAt(r, m.ver) && r.value.ver < m.ver
  {
    var all := ls + [Deliver(i, n)];
    assert all[..|ls|] == ls && all[|ls|] == Deliver(i, n);
    assert OwnedBy(all, o, key);
    PrefixOfRun(nodes, all, o, key, |ls|);
    assert InOrder(Run(nodes, ls), Deliver(i, n), o);
    assert IssuedFor(Run(nodes, ls), i, key);
    DeliveredFollows(Run(nodes, ls), i, n, o, key);
  }

  /** The first moment by which g messages had been issued. */
  function EmitTime(nodes: set<Node>, ls: seq<Label>, g: nat): (t: nat)
    ensures t <= |ls|
  {
    if ls == [] then 0
    else if g <= |Run(nodes, ls[..|ls| - 1]).issued| then EmitTime(nodes, ls[..|ls| - 1], g)
    else |ls|
  }

  lemma {:induction false} IssuedByEmitTime(nodes: set<Node>, ls: seq<Label>, g: nat)
    requires g <= |Run(nodes, ls).issued|
    ensures Run(nodes, ls[..EmitTime(nodes, ls, g)]).issued == Run(nodes, ls).issued[..g]
  {
    if ls != [] {
      var init, t := ls[..|ls| - 1], EmitTime(nodes, ls, g);
      if g <= |Run(nodes, init).issued| {
        IssuedByEmitTime(nodes, init, g);
        assert ls[..t] == init[..t];
        assert Run(nodes, init).issued[..g] == Run(nodes, ls).issued[..g];
      } else {
        assert ls[..t] == ls;
      }
    }
  }

  lemma {:induction false} EmitTimeMonotone(nodes: set<Node>, ls: seq<Label>, g: nat, h: nat)
    requires g <= h
    ensures EmitTime(nodes, ls, g) <= EmitTime(nodes, ls, h)
  {
    if ls != [] {
      EmitTimeMonotone(nodes, ls[..|ls| - 1], g, h);
    }
  }

  /** The moment of the owner's history that replica n shows. */
  function Shown(nodes: set<Node>, ls: seq<Label>, o: Node, n: Node): nat {
    EmitTime(nodes, ls, Received(Run(nodes, ls), o, n, 0))
  }

  lemma SameMessageSameValue(st: Store, st': Store, key: Key, m: Option<Message>, a: bool, b: bool)
    requires Reflects(st, key, m, a) && Reflects(st', key, m, b)
    ensures Lookup(ValuesOf(st), key) == Lookup(ValuesOf(st'), key)
  {
  }

  /** What a replica holds for the key, absence included, is what the owner held at some past moment. */
  lemma ReplicaShowsPastOwner(nodes: set<Node>, ls: seq<Label>, o: Node, key: Key, n: Node)
    requires OwnedBy(ls, o, key) && FifoFrom(nodes, ls, o) && n in nodes && o in nodes
    ensures var t := Shown(nodes, ls, o, n);
            && t <= |ls|
            && n in Run(nodes, ls).stores && o in Run(nodes, ls[..t]).stores
            && ValueAt(Run(nodes, ls), n, key) == ValueAt(Run(nodes, ls[..t]), o, key)
  {
    var s, t := Run(nodes, ls), Shown(nodes, ls, o, n);
    var past := Run(nodes, ls[..t]);
    RunPrefix(nodes, ls, o, key);
    PrefixOfRun(nodes, ls, o, key, t);
    RunKeepsNodes(nodes, ls);
    RunKeepsNodes(nodes, ls[..t]);
    IssuedByEmitTime(nodes, ls, Received(s, o, n, 0));
    OwnerReflects(past, o, key);
    assert View(past, o, o, key) == View(s, o, n, key);
    SameMessageSameValue(s.stores[n], past.stores[o], key, View(s, o, n, key), n != o, false);
  }

  /** That moment only moves forward. */
  lemma ReplicaMovesForward(nodes: set<Node>, ls: seq<Label>, l: Label, o: Node, n: Node)
    ensures Shown(nodes, ls, o, n) <= Shown(nodes, ls + [l], o, n)
  {
    var s, t := Run(nodes, ls), Run(nodes, ls + [l]);
    ExecSnoc(Init(nodes), ls, l, Unbounded);
    assert (ls + [l])[..|ls|] == ls;
    var g, h := Received(s, o, n, 0), Received(t, o, n, 0);
    assert g <= h;
    EmitTimeMonotone(nodes, ls, g, h);
    EmitTimeMonotone(nodes, ls + [l], g, h);
  }

  /** When everything is delivered, every replica shows what the owner holds now. */
  lemma QuiescentReplicaMatchesOwner(nodes: set<Node>, ls: seq<Label>, o: Node, key: Key, n: Node)
    requires OwnedBy(ls, o, key) && FifoFrom(nodes, ls, o) && n in nodes && o in nodes
    requires Quiescent(Run(nodes, ls), key)
    ensures var s := Run(nodes, ls);
            n in s.stores && o in s.stores && ValueAt(s, n, key) == ValueAt(s, o, key)
  {
    var s := Run(nodes, ls);
    RunPrefix(nodes, ls, o, key);
    RunKeepsNodes(nodes, ls);
    OwnerReflects(s, o, key);
    var g := Received(s, o, n, 0);
    forall i: nat | g <= i < |s.issued|
      ensures s.issued[i].msg.key != key
    {
      assert s.issued[i].msg.key == key ==> IssuedFor(s, i, key) && Has(s, i, n);
      if n == o {
        OwnerHasAll(s, o);
      }
    }
    SkipOthers(s.issued, key, g, |s.issued|);
    assert s.issued[..|s.issued|] == s.issued;
    SameMessageSameValue(s.stores[n], s.stores[o], key, View(s, o, n, key), n != o, false);
  }
}

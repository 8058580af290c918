/** Replication as a step machine over a fixed set of nodes.

    A client step at one node changes its store and may issue a message for every other node. The
    network may deliver any issued message to any node at any later moment, in any order and any
    number of times; a message that is never delivered is lost. */
module Cluster {
  import opened Fnv
  import opened Options
  import opened Records

  type Node = nat

  datatype Label =
    | Set(n: Node, key: Key, value: Value)
    | Get(n: Node, key: Key)
    | Remove(n: Node, key: Key)
    | Deliver(i: nat, n: Node)

  /** A message and the node that issued it to all its peers. */
  datatype Broadcast = Broadcast(src: Node, msg: Message)

  datatype State = State(
    stores: map<Node, Store>,
    issued: seq<Broadcast>,   // everything issued so far, oldest first
    seen: set<(nat, Node)>)   // (i, n): message i has reached node n at least once

  function Init(nodes: set<Node>): State {
    State(map n | n in nodes :: map[], [], {})
  }

  function Step(s: State, l: Label, w: Width): State {
    match l
    case Set(n, key, value) =>
      if n !in s.stores then s else
      var st := s.stores[n];
      State(s.stores[n := AfterSet(st, key, value, w)],
            s.issued + [Broadcast(n, SetMessage(st, key, value, w))], s.seen)
    case Get(n, key) =>
      if n !in s.stores then s else
      s.(stores := s.stores[n := AfterGet(s.stores[n], key, w)])
    case Remove(n, key) =>
      if n !in s.stores || key !in s.stores[n] then s else
      var st := s.stores[n];
      State(s.stores[n := AfterRemove(st, key)],
            s.issued + [Broadcast(n, RemoveMessage(st, key, w))], s.seen)
    case Deliver(i, n) =>
      if !CanDeliver(s, i, n) then s else
      s.(stores := s.stores[n := AfterMessage(s.stores[n], s.issued[i].msg)], seen := s.seen + {(i, n)})
  }

  predicate CanDeliver(s: State, i: nat, n: Node) {
    i < |s.issued| && n in s.stores && s.issued[i].src != n
  }

  function Exec(s: State, ls: seq<Label>, w: Width): State {
    if ls == [] then s else Step(Exec(s, ls[..|ls| - 1], w), ls[|ls| - 1], w)
  }

  /** The state reached from empty stores. */
  function Run(nodes: set<Node>, ls: seq<Label>): State {
    Exec(Init(nodes), ls, Unbounded)
  }

  lemma {:induction false} ExecConcat(s: State, a: seq<Label>, b: seq<Label>, w: Width)
    ensures Exec(s, a + b, w) == Exec(Exec(s, a, w), b, w)
    decreases |b|
  {
    if b == [] {
      assert a + b == a;
    } else {
      assert (a + b)[..|a + b| - 1] == a + b[..|b| - 1];
      ExecConcat(s, a, b[..|b| - 1], w);
    }
  }

  lemma ExecSnoc(s: State, ls: seq<Label>, l: Label, w: Width)
    ensures Exec(s, ls + [l], w) == Step(Exec(s, ls, w), l, w)
  {
    assert (ls + [l])[..|ls|] == ls;
  }

  /** Nodes are never added or dropped, and nothing issued is ever withdrawn. */
  lemma {:induction false} ExecGrows(s: State, ls: seq<Label>, w: Width)
    ensures var t := Exec(s, ls, w);
            t.stores.Keys == s.stores.Keys && s.issued <= t.issued && s.seen <= t.seen
  {
    if ls != [] {
      ExecGrows(s, ls[..|ls| - 1], w);
    }
  }

  lemma RunKeepsNodes(nodes: set<Node>, ls: seq<Label>)
    ensures Run(nodes, ls).stores.Keys == nodes
  {
    ExecGrows(Init(nodes), ls, Unbounded);
  }

  // ---- Notions shared by the theorems ------------------------------------

  predicate IssuedFor(s: State, i: nat, key: Key) {
    i < |s.issued| && s.issued[i].msg.key == key
  }

  function VersionOf(s: State, i: nat): int
    requires i < |s.issued|
  {
    s.issued[i].msg.ver
  }

  function ValueAt(s: State, n: Node, key: Key): Option<Value>
    requires n in s.stores
  {
    Lookup(ValuesOf(s.stores[n]), key)
  }

  /** Node n issued message i itself or has received it. */
  predicate Has(s: State, i: nat, n: Node)
    requires i < |s.issued|
  {
    s.issued[i].src == n || (i, n) in s.seen
  }

  /** Every message about the key has reached every node. */
  ghost predicate Quiescent(s: State, key: Key) {
    forall i: nat, n :: IssuedFor(s, i, key) && n in s.stores ==> Has(s, i, n)
  }

  predicate IsClientOp(l: Label, key: Key) {
    !l.Deliver? && l.key == key
  }

  function ClientOps(ls: seq<Label>, key: Key): nat {
    if ls == [] then 0
    else ClientOps(ls[..|ls| - 1], key) + if IsClientOp(ls[|ls| - 1], key) then 1 else 0
  }
}

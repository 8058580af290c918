/** The replication client with its table of peers, and the server that applies what peers send. */
module Replication {
  import opened Fnv
  import opened Options
  import opened Records
  import opened Storages

  type Address = string
  type Conn = nat

  /** What travels between instances. */
  datatype Request = Sync(msg: Message) | RegisterNode(address: Address)

  type Table = map<Address, Option<Conn>>

  /** Entering an address forgets any connection kept under it; a node never enters itself. */
  function Entered(nodes: Table, self: Address, addresses: set<Address>): Table {
    nodes + map a | a in addresses && a != self :: None
  }

  /** A node's peers after entering addresses: those it had and the others entered, but never itself. */
  lemma EnteredKeys(nodes: Table, self: Address, addresses: set<Address>)
    ensures Entered(nodes, self, addresses).Keys == nodes.Keys + (addresses - {self})
  {
  }

  /** A node that registers is dialled afresh: a connection kept under its address is not used again. */
  lemma EnteringDropsConnection(nodes: Table, self: Address, a: Address)
    requires a != self
    ensures a in Entered(nodes, self, {a}) && Entered(nodes, self, {a})[a] == None
    ensures forall b :: b != a ==> Lookup(Entered(nodes, self, {a}), b) == Lookup(nodes, b)
  {
  }

  /** A connection for the address: the one kept, or a new one if dialling works. */
  function ConnFor(nodes: Table, dial: map<Address, Conn>, a: Address): Option<Conn>
    requires a in nodes
  {
    if nodes[a].Some? then nodes[a] else Lookup(dial, a)
  }

  /** The connections in the table once every peer without one has been dialled. */
  function Dialled(nodes: Table, dial: map<Address, Conn>): Table {
    map a | a in nodes :: ConnFor(nodes, dial, a)
  }

  /** Who is sent a request, and over which connection: a peer that cannot be dialled is skipped. */
  function Told(nodes: Table, dial: map<Address, Conn>, r: Request): map<Address, (Conn, Request)> {
    map a | a in nodes && ConnFor(nodes, dial, a).Some? :: (ConnFor(nodes, dial, a).value, r)
  }

  /** Every peer with a connection or that can be dialled is told, over the one it has or else the new one,
      which is kept; a peer with neither is not told and stays in the table. */
  lemma WhoIsTold(nodes: Table, dial: map<Address, Conn>, r: Request, a: Address)
    ensures a in Told(nodes, dial, r) <==> a in nodes && (nodes[a].Some? || a in dial)
    ensures a in Told(nodes, dial, r) ==>
              && Told(nodes, dial, r)[a] == (if nodes[a].Some? then nodes[a].value else dial[a], r)
              && Lookup(Dialled(nodes, dial), a) == Some(Some(Told(nodes, dial, r)[a].0))
    ensures a in nodes && a !in Told(nodes, dial, r) ==> Lookup(Dialled(nodes, dial), a) == Some(None)
    ensures Dialled(nodes, dial).Keys == nodes.Keys
  {
  }

  lemma EnteredTwice(nodes: Table, self: Address, some: set<Address>, a: Address)
    ensures Entered(Entered(nodes, self, some), self, {a}) == Entered(nodes, self, some + {a})
  {
  }

  lemma EnteredOne(nodes: Table, self: Address, a: Address)
    ensures Entered(nodes, self, {a}) == if self != a then nodes[a := None] else nodes
  {
  }

  function Members(list: seq<Address>): (members: set<Address>)
    ensures forall a :: a in members <==> a in list
  {
    if list == [] then {} else Members(list[..|list| - 1]) + {list[|list| - 1]}
  }

  class Client {
    const selfAddress: Address
    var nodes: Table
    var launched: nat  // how often Announce has been launched as a goroutine

    constructor (selfAddress: Address)
      ensures this.selfAddress == selfAddress && nodes == map[] && launched == 0
    {
      this.selfAddress := selfAddress;
      nodes, launched := map[], 0;
    }

    method HandleRegisterRequest(address: Address)
      modifies this`nodes
      ensures nodes == Entered(old(nodes), selfAddress, {address})
    {
      EnteredOne(nodes, selfAddress, address);
      if selfAddress != address {
        nodes := nodes[address := None];
      }
    }

    /** `addresses` is None when the request cannot be decoded. On success Announce is launched. */
    method HandleNewNodesRequest(addresses: Option<seq<Address>>) returns (ok: bool)
      modifies this
      ensures launched == old(launched) + if ok then 1 else 0
      ensures ok == addresses.Some?
      ensures nodes == if ok then Entered(old(nodes), selfAddress, Members(addresses.value)) else old(nodes)
    {
      if addresses.None? {
        return false;
      }
      var list := addresses.value;
      for i := 0 to |list|
        invariant launched == old(launched)
        invariant nodes == Entered(old(nodes), selfAddress, Members(list[..i]))
      {
        EnteredTwice(old(nodes), selfAddress, Members(list[..i]), list[i]);
        assert list[..i + 1][..i] == list[..i];
        EnteredOne(nodes, selfAddress, list[i]);
        if selfAddress != list[i] {
          nodes := nodes[list[i] := None];
        }
      }
      assert list[..|list|] == list;
      launched := launched + 1;
      ok := true;
    }

    /** Sends the request once to every peer that has a connection or can be dialled. `dial` holds the
        dials that work; sends that fail are only logged. */
    method ForNodes(dial: map<Address, Conn>, r: Request) returns (sent: map<Address, (Conn, Request)>)
      modifies this`nodes
      ensures forall a :: a in sent <==> a in old(nodes) && (old(nodes)[a].Some? || a in dial)
      ensures forall a :: a in sent ==>
                sent[a] == (if old(nodes)[a].Some? then old(nodes)[a].value else dial[a], r)
      ensures nodes.Keys == old(nodes).Keys
      ensures forall a :: a in nodes ==>
                nodes[a] == if old(nodes)[a].None? && a in dial then Some(dial[a]) else old(nodes)[a]
      ensures sent == Told(old(nodes), dial, r) && nodes == Dialled(old(nodes), dial)
    {
      sent := map[];
      var rest := nodes.Keys;
      while rest != {}
        invariant rest <= nodes.Keys && nodes.Keys == old(nodes.Keys)
        invariant forall a :: a in sent <==> a in old(nodes) && a !in rest && ConnFor(old(nodes), dial, a).Some?
        invariant forall a :: a in sent ==> sent[a] == (ConnFor(old(nodes), dial, a).value, r)
        invariant forall a :: a in nodes ==>
          nodes[a] == if a in rest then old(nodes)[a] else ConnFor(old(nodes), dial, a)
      {
        var a :| a in rest;
        rest := rest - {a};
        var con := nodes[a];
        if con.None? {
          con := Lookup(dial, a);
          if con.None? {
            continue;
          }
          nodes := nodes[a := con];
        }
        sent := sent[a := (con.value, r)];
      }
    }

    method HandleUpdated(dial: map<Address, Conn>, key: Key, value: Value, ver: int)
      returns (sent: map<Address, (Conn, Request)>)
      modifies this`nodes
      ensures sent == Told(old(nodes), dial, Sync(Updated(key, value, ver)))
      ensures forall a :: a in sent <==> a in old(nodes) && (old(nodes)[a].Some? || a in dial)
      ensures nodes == Dialled(old(nodes), dial)
    {
      sent := ForNodes(dial, Sync(Updated(key, value, ver)));
    }

    method HandleRemoved(dial: map<Address, Conn>, key: Key, ver: int) returns (sent: map<Address, (Conn, Request)>)
      modifies this`nodes
      ensures sent == Told(old(nodes), dial, Sync(Removed(key, ver)))
      ensures forall a :: a in sent <==> a in old(nodes) && (old(nodes)[a].Some? || a in dial)
      ensures nodes == Dialled(old(nodes), dial)
    {
      sent := ForNodes(dial, Sync(Removed(key, ver)));
    }

    /** The goroutine launched by HandleNewNodesRequest. */
    method Announce(dial: map<Address, Conn>) returns (sent: map<Address, (Conn, Request)>)
      modifies this`nodes
      ensures sent == Told(old(nodes), dial, RegisterNode(selfAddress))
      ensures forall a :: a in sent <==> a in old(nodes) && (old(nodes)[a].Some? || a in dial)
      ensures nodes == Dialled(old(nodes), dial)
    {
      sent := ForNodes(dial, RegisterNode(selfAddress));
    }
  }

  class Server {
    const storage: Storage
    const client: Client

    constructor (storage: Storage, client: Client)
      ensures this.storage == storage && this.client == client
    {
      this.storage := storage;
      this.client := client;
    }

    /** The routes: an update or removal goes to the storage, a register request to the peer table. */
    method Route(r: Request)
      requires storage.Valid()
      modifies storage.data.shards, client`nodes
      ensures storage.Valid()
      ensures storage.Contents() == if r.Sync? then AfterMessage(old(storage.Contents()), r.msg)
                                    else old(storage.Contents())
      ensures client.nodes == if r.Sync? then old(client.nodes)
                              else Entered(old(client.nodes), client.selfAddress, {r.address})
    {
      match r
      case Sync(Updated(key, value, ver)) => storage.SetWithVersion(key, value, ver);
      case Sync(Removed(key, ver)) => storage.RemoveWithVersion(key, ver);
      case RegisterNode(address) => client.HandleRegisterRequest(address);
    }
  }
}

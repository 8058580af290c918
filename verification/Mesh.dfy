/** How the instances that the hub starts come to know each other, and over which connections they talk. */
module Mesh {
  import opened Options
  import opened HubSpec
  import opened Replication

  /** Peer tables belong to processes, and a connection in them leads to one process, named by its number.
      A process that was sent the list of nodes announces itself once its goroutine gets to run: it visits
      its peers one by one, and each register message then travels to one process. */
  datatype State = State(hub: Hub, tables: map<nat, Table>, announcing: set<nat>, visits: set<(nat, Address)>,
                         registers: set<(nat, nat)>)

  datatype MeshLabel =
    | Request(l: Label, handled: bool)  // `handled`: NODES took effect although its answer was lost
    | Announce(p: nat)
    | Visit(p: nat, a: Address)         // the announcement gets to one peer
    | Talk(p: nat, a: Address)          // so does any other broadcast, which keeps the connection it makes
    | Deliver(p: nat, q: nat)
    | Lose(p: nat, q: nat)

  function TableOf(s: State, p: nat): Table {
    if p in s.tables then s.tables[p] else map[]
  }

  function PeersOf(s: State, p: nat): set<Address> {
    TableOf(s, p).Keys
  }

  predicate IsAlive(h: Hub, p: nat) {
    p < |h.world.procs| && h.world.procs[p].alive
  }

  /** The running process of a registered instance; there is no other running process. */
  function LiveAt(h: Hub, a: Address): Option<nat> {
    if a in h.reg && h.reg[a].worker.Some? && IsAlive(h, h.reg[a].worker.value) then h.reg[a].worker else None
  }

  /** Dialling an address reaches the process that runs there. */
  function Dials(h: Hub, a: Address): map<Address, Conn> {
    if LiveAt(h, a).Some? then map[a := LiveAt(h, a).value] else map[]
  }

  /** Who p tells that it is there when its loop gets to a: nobody, or one process over the connection it
      kept, wherever that leads, or over a new one. */
  function Reaches(s: State, p: nat, a: Address): set<nat>
    requires p < |s.hub.world.procs|
  {
    var told := Told(TableOf(s, p), Dials(s.hub, a), RegisterNode(s.hub.world.procs[p].address));
    if a in told then {told[a].0} else {}
  }

  function Keeping(s: State, p: nat, a: Address): map<nat, Table>
    requires a in TableOf(s, p)
  {
    s.tables[p := TableOf(s, p)[a := Dialled(TableOf(s, p), Dials(s.hub, a))[a]]]
  }

  /** A new process reads the NODES request if the steps before it succeed. */
  predicate ReadsNodes(h: Hub, l: Label, handled: bool) {
    && l.Run? && (l.address !in h.reg || !l.answers)
    && l.o.path && l.o.start && l.o.dial && l.o.ping && (l.o.nodes || handled)
  }

  function Step(s: State, l: MeshLabel): State {
    match l
    case Request(r, handled) =>
      var hub := HubSpec.Step(s.hub, r);
      var p := |s.hub.world.procs|;
      if ReadsNodes(s.hub, r, handled) then
        s.(hub := hub, tables := s.tables[p := Entered(map[], r.address, s.hub.reg.Keys)],
           announcing := s.announcing + {p})
      else s.(hub := hub)
    case Announce(p) =>
      if p in s.announcing && IsAlive(s.hub, p) then
        s.(announcing := s.announcing - {p}, visits := s.visits + set a | a in PeersOf(s, p) :: (p, a))
      else s
    case Visit(p, a) =>
      if (p, a) in s.visits && IsAlive(s.hub, p) && a in TableOf(s, p) then
        s.(visits := s.visits - {(p, a)}, tables := Keeping(s, p, a),
           registers := s.registers + set q | q in Reaches(s, p, a) :: (p, q))
      else s
    case Talk(p, a) =>
      if IsAlive(s.hub, p) && a in TableOf(s, p) then s.(tables := Keeping(s, p, a)) else s
    case Deliver(p, q) =>
      if (p, q) in s.registers && IsAlive(s.hub, q) && p < |s.hub.world.procs| then
        var procs := s.hub.world.procs;
        s.(registers := s.registers - {(p, q)},
           tables := s.tables[q := Entered(TableOf(s, q), procs[q].address, {procs[p].address})])
      else s
    case Lose(p, q) =>
      // Reliable delivery: a message is lost only with its sender or its receiver.
      if !IsAlive(s.hub, p) || !IsAlive(s.hub, q) then s.(registers := s.registers - {(p, q)}) else s
  }

  const INITIAL: State := State(HubSpec.EMPTY, map[], {}, {}, {})

  function Exec(ls: seq<MeshLabel>): State {
    if ls == [] then INITIAL else Step(Exec(ls[..|ls| - 1]), ls[|ls| - 1])
  }

  // ---- The invariant -----------------------------------------------------

  /** pa lists b, and if it keeps a connection under b it leads to pb. */
  predicate Knows(s: State, pa: nat, b: Address, pb: nat) {
    b in TableOf(s, pa) && (TableOf(s, pa)[b] == None || TableOf(s, pa)[b] == Some(pb))
  }

  /** Word from pb to the process pa of address a is on its way. */
  predicate Pending(s: State, pb: nat, a: Address, pa: nat) {
    (pb, pa) in s.registers || (pb, a) in s.visits || pb in s.announcing
  }

  /** A live node knows every older one; a younger one it knows or will hear from. */
  predicate Connected(s: State, a: Address, pa: nat, b: Address, pb: nat) {
    Knows(s, pa, b, pb) || (pa < pb && Pending(s, pb, a, pa))
  }

  ghost predicate AllConnected(s: State) {
    forall a, b :: a != b && LiveAt(s.hub, a).Some? && LiveAt(s.hub, b).Some?
      ==> Connected(s, a, LiveAt(s.hub, a).value, b, LiveAt(s.hub, b).value)
  }

  ghost predicate NoSelf(s: State) {
    forall p: nat :: p < |s.hub.world.procs| ==> s.hub.world.procs[p].address !in PeersOf(s, p)
  }

  ghost predicate Inv(s: State) {
    && HubSpec.Inv(s.hub) && AllConnected(s) && NoSelf(s)
    && (forall p :: p in s.tables ==> p < |s.hub.world.procs|)
  }

  /** What a hub request does to the processes: it may add one, under the requested address, and the
      processes of other addresses go on as they were. */
  lemma RequestEffect(h: Hub, l: Label)
    requires HubSpec.Inv(h) && !l.Crash?
    ensures var h' := HubSpec.Step(h, l);
            && |h.world.procs| <= |h'.world.procs| <= |h.world.procs| + 1
            && (forall p: nat :: p < |h.world.procs| ==> h'.world.procs[p].address == h.world.procs[p].address)
            && (|h'.world.procs| > |h.world.procs| ==> h'.world.procs[|h.world.procs|].address == l.address)
            && (forall b :: b != l.address ==> LiveAt(h', b) == LiveAt(h, b))
            && (forall b :: LiveAt(h', b).Some? ==> b in h'.reg && Healthy(h', b))
  {
    StepInv(h, l);
    assert forall b :: b in h.reg ==> Healthy(h, b);
    match l
    case Run(a, answers, o) =>
      RunEffect(h, a, answers, o);
    case Remove(a) =>
      if a in h.reg {
        assert forall b :: b in h.reg && b != a ==> h.reg[b].worker != h.reg[a].worker;
      }
  }

  lemma RunEffect(h: Hub, a: Address, answers: bool, o: Outcome)
    requires HubSpec.Inv(h)
    ensures var h' := RunRequest(h, a, answers, o).0;
            && |h.world.procs| <= |h'.world.procs| <= |h.world.procs| + 1
            && (forall p: nat :: p < |h.world.procs| ==> h'.world.procs[p].address == h.world.procs[p].address)
            && (|h'.world.procs| > |h.world.procs| ==> h'.world.procs[|h.world.procs|].address == a)
            && (forall b :: b != a ==> LiveAt(h', b) == LiveAt(h, b))
  {
    hide HubSpec.Start;
    if a in h.reg {
      assert Healthy(h, a);
      RestartIsRemoveThenStart(h, a, o);
      StartEffect(Inst(a, None, None), RemoveRequest(h, a).0.world, o);
      forall b | b in h.reg && b != a
        ensures h.reg[b].worker != h.reg[a].worker
      {
        assert Healthy(h, b);
      }
    } else {
      StartEffect(Inst(a, None, None), h.world, o);
      assert forall b :: b in h.reg ==> Healthy(h, b);
    }
  }

  /** After a RUN request the address is live either as before or with the new process, which then has
      read the list of nodes. */
  lemma RunLive(h: Hub, a: Address, answers: bool, o: Outcome, handled: bool)
    requires HubSpec.Inv(h)
    ensures var h' := RunRequest(h, a, answers, o).0;
            LiveAt(h', a).Some? ==>
              || (LiveAt(h', a) == LiveAt(h, a) && !ReadsNodes(h, Run(a, answers, o), handled))
              || (LiveAt(h', a) == Some(|h.world.procs|) && ReadsNodes(h, Run(a, answers, o), handled))
  {
    if a in h.reg {
      assert Healthy(h, a);
      RestartIsRemoveThenStart(h, a, o);
    }
    StartEffect(Inst(a, None, None), if a in h.reg then RemoveRequest(h, a).0.world else h.world, o);
  }

  lemma LiveIsOld(h: Hub, a: Address)
    requires LiveAt(h, a).Some?
    ensures LiveAt(h, a).value < |h.world.procs| && a in h.reg
  {
  }

  /** Two nodes that the request is not about stay connected. */
  lemma OthersStayConnected(s: State, l: Label, handled: bool, a: Address, pa: nat, b: Address, pb: nat)
    requires Connected(s, a, pa, b, pb) && pa < |s.hub.world.procs| && pb < |s.hub.world.procs|
    ensures Connected(Step(s, Request(l, handled)), a, pa, b, pb)
  {
    hide HubSpec.Step, ReadsNodes;
  }

  /** The node that a request starts knows the registered ones and is about to announce itself to them. */
  lemma NewcomerConnects(s: State, l: Label, handled: bool, b: Address, pb: nat)
    requires ReadsNodes(s.hub, l, handled) && b in s.hub.reg && b != l.address && pb < |s.hub.world.procs|
    ensures var t := Step(s, Request(l, handled));
            && Connected(t, l.address, |s.hub.world.procs|, b, pb)
            && Connected(t, b, pb, l.address, |s.hub.world.procs|)
  {
    hide HubSpec.Step, ReadsNodes;
  }

  lemma RequestKeepsConnected(s: State, l: Label, handled: bool)
    requires Inv(s) && !l.Crash?
    ensures AllConnected(Step(s, Request(l, handled)))
  {
    hide HubSpec.Step, HubSpec.Inv, RunRequest, Connected, ReadsNodes, Healthy;
    var t := Step(s, Request(l, handled));
    RequestEffect(s.hub, l);
    if l.Run? {
      LiveAfterRun(s.hub, l, handled);
    } else {
      GoneAfterRemove(s.hub, l);
    }
    forall a, b | a != b && LiveAt(t.hub, a).Some? && LiveAt(t.hub, b).Some?
      ensures Connected(t, a, LiveAt(t.hub, a).value, b, LiveAt(t.hub, b).value)
    {
      if LiveAt(t.hub, a) == LiveAt(s.hub, a) && LiveAt(t.hub, b) == LiveAt(s.hub, b) {
        LiveIsOld(s.hub, a);
        LiveIsOld(s.hub, b);
        OthersStayConnected(s, l, handled, a, LiveAt(s.hub, a).value, b, LiveAt(s.hub, b).value);
      } else if a == l.address {
        LiveIsOld(s.hub, b);
        NewcomerConnects(s, l, handled, b, LiveAt(s.hub, b).value);
      } else {
        LiveIsOld(s.hub, a);
        NewcomerConnects(s, l, handled, a, LiveAt(s.hub, a).value);
      }
    }
  }

  lemma LiveAfterRun(h: Hub, l: Label, handled: bool)
    requires HubSpec.Inv(h) && l.Run?
    ensures var h' := HubSpec.Step(h, l);
            LiveAt(h', l.address).Some? && LiveAt(h', l.address) != LiveAt(h, l.address) ==>
              LiveAt(h', l.address) == Some(|h.world.procs|) && ReadsNodes(h, l, handled)
  {
    hide HubSpec.Inv, RunRequest, ReadsNodes;
    RunLive(h, l.address, l.answers, l.o, handled);
  }

  lemma GoneAfterRemove(h: Hub, l: Label)
    requires l.Remove?
    ensures LiveAt(HubSpec.Step(h, l), l.address).None?
  {
  }

  lemma RequestKeepsNoSelf(s: State, l: Label, handled: bool)
    requires Inv(s)
    ensures var t := Step(s, Request(l, handled));
            NoSelf(t) && forall p :: p in t.tables ==> p < |t.hub.world.procs|
  {
    if !l.Crash? {
      RequestEffect(s.hub, l);
    }
    if ReadsNodes(s.hub, l, handled) {
      NodesNeedProcess(s.hub, l, handled);
      EnteredKeys(map[], l.address, s.hub.reg.Keys);
    }
  }

  lemma NodesNeedProcess(h: Hub, l: Label, handled: bool)
    requires HubSpec.Inv(h) && ReadsNodes(h, l, handled)
    ensures |HubSpec.Step(h, l).world.procs| == |h.world.procs| + 1
  {
    if l.address in h.reg {
      assert Healthy(h, l.address);
      RestartIsRemoveThenStart(h, l.address, l.o);
    }
  }

  lemma CrashKeepsConnected(s: State, p: nat, handled: bool)
    requires Inv(s)
    ensures AllConnected(Step(s, Request(Crash(p), handled)))
  {
    var t := Step(s, Request(Crash(p), handled));
    forall a, b | a != b && LiveAt(t.hub, a).Some? && LiveAt(t.hub, b).Some?
      ensures Connected(t, a, LiveAt(t.hub, a).value, b, LiveAt(t.hub, b).value)
    {
      assert LiveAt(t.hub, a) == LiveAt(s.hub, a) && LiveAt(t.hub, b) == LiveAt(s.hub, b);
    }
  }

  /** Live processes carry the address under which they are registered. */
  lemma LiveAddress(h: Hub, a: Address)
    requires HubSpec.Inv(h) && LiveAt(h, a).Some?
    ensures IsAlive(h, LiveAt(h, a).value) && h.world.procs[LiveAt(h, a).value].address == a
  {
    assert Healthy(h, a);
  }

  lemma AnnounceKeepsPair(s: State, l: MeshLabel, a: Address, pa: nat, b: Address, pb: nat)
    requires (l.Announce? || l.Lose?) && Connected(s, a, pa, b, pb) && Connected(s, b, pb, a, pa)
    requires IsAlive(s.hub, pa) && IsAlive(s.hub, pb)
    ensures Connected(Step(s, l), a, pa, b, pb)
  {
  }

  /** Using a connection keeps what a node knows: it is the right one, or is made now to the right process. */
  lemma TalkKeepsPair(s: State, l: MeshLabel, a: Address, pa: nat, b: Address, pb: nat)
    requires (l.Visit? || l.Talk?) && Connected(s, a, pa, b, pb) && Connected(s, b, pb, a, pa)
    requires LiveAt(s.hub, a) == Some(pa) && LiveAt(s.hub, b) == Some(pb) && pa != pb
    ensures Connected(Step(s, l), a, pa, b, pb)
  {
  }

  lemma DeliverKeepsPair(s: State, p: nat, q: nat, a: Address, pa: nat, b: Address, pb: nat)
    requires Connected(s, a, pa, b, pb) && pa < |s.hub.world.procs| && pb < |s.hub.world.procs| && a != b
    requires s.hub.world.procs[pa].address == a && s.hub.world.procs[pb].address == b
    ensures Connected(Step(s, Deliver(p, q)), a, pa, b, pb)
  {
    if Step(s, Deliver(p, q)) != s {
      var procs := s.hub.world.procs;
      if procs[p].address != procs[q].address {
        EnteringDropsConnection(TableOf(s, q), procs[q].address, procs[p].address);
      }
    }
  }

  lemma OwnStepsKeepConnected(s: State, l: MeshLabel)
    requires Inv(s) && !l.Request?
    ensures AllConnected(Step(s, l))
  {
    hide Connected, NoSelf, HubSpec.Inv;
    var t := Step(s, l);
    forall a, b | a != b && LiveAt(t.hub, a).Some? && LiveAt(t.hub, b).Some?
      ensures Connected(t, a, LiveAt(t.hub, a).value, b, LiveAt(t.hub, b).value)
    {
      var pa, pb := LiveAt(s.hub, a).value, LiveAt(s.hub, b).value;
      LiveAddress(s.hub, a);
      LiveAddress(s.hub, b);
      if l.Deliver? {
        DeliverKeepsPair(s, l.p, l.q, a, pa, b, pb);
      } else if l.Visit? || l.Talk? {
        TalkKeepsPair(s, l, a, pa, b, pb);
      } else {
        AnnounceKeepsPair(s, l, a, pa, b, pb);
      }
    }
  }

  lemma OwnStepsKeepNoSelf(s: State, l: MeshLabel)
    requires Inv(s) && !l.Request?
    ensures var t := Step(s, l);
            NoSelf(t) && forall p :: p in t.tables ==> p < |t.hub.world.procs|
  {
    var t := Step(s, l);
    if l.Deliver? && t != s {
      EnteredKeys(TableOf(s, l.q), s.hub.world.procs[l.q].address, {s.hub.world.procs[l.p].address});
    }
    forall p: nat | p < |t.hub.world.procs|
      ensures t.hub.world.procs[p].address !in PeersOf(t, p)
    {
      assert s.hub.world.procs[p].address !in PeersOf(s, p);
    }
  }

  lemma StepKeepsInv(s: State, l: MeshLabel)
    requires Inv(s)
    ensures Inv(Step(s, l))
  {
    hide AllConnected, HubSpec.Inv, HubSpec.Step, ReadsNodes, NoSelf;
    if l.Request? {
      StepInv(s.hub, l.l);
      RequestKeepsNoSelf(s, l.l, l.handled);
      if l.l.Crash? {
        CrashKeepsConnected(s, l.l.p, l.handled);
      } else {
        RequestKeepsConnected(s, l.l, l.handled);
      }
    } else {
      OwnStepsKeepConnected(s, l);
      OwnStepsKeepNoSelf(s, l);
    }
  }

  lemma {:induction false} ExecInv(ls: seq<MeshLabel>)
    ensures Inv(Exec(ls))
  {
    if ls != [] {
      ExecInv(ls[..|ls| - 1]);
      StepKeepsInv(Exec(ls[..|ls| - 1]), ls[|ls| - 1]);
    }
  }

  // ---- The theorems ------------------------------------------------------

  function Requests(ls: seq<MeshLabel>): seq<Label> {
    if ls == [] then []
    else Requests(ls[..|ls| - 1]) + if ls[|ls| - 1].Request? then [ls[|ls| - 1].l] else []
  }

  /** The hub of the mesh is the hub of HubSpec after the same requests and crashes, so all that is proved of
      that one holds here. */
  lemma {:induction false} HubRunsUnchanged(ls: seq<MeshLabel>)
    ensures Exec(ls).hub == HubSpec.Exec(Requests(ls))
  {
    if ls != [] {
      var init, l := ls[..|ls| - 1], ls[|ls| - 1];
      HubRunsUnchanged(init);
      hide HubSpec.Step, ReadsNodes;
      if l.Request? {
        assert Requests(ls)[..|Requests(init)|] == Requests(init);
      } else {
        assert Requests(ls) == Requests(init);
      }
    }
  }

  /** For every two live registered nodes a and b, a lists b, keeping no connection but one to b's live
      process, or b is the younger and word from it to a's very process is pending: across starts, crashes,
      restarts and removals, messages lost with restarted processes, and connections kept to dead ones. */
  lemma FullMesh(ls: seq<MeshLabel>, a: Address, b: Address)
    requires a != b && LiveAt(Exec(ls).hub, a).Some? && LiveAt(Exec(ls).hub, b).Some?
    ensures Connected(Exec(ls), a, LiveAt(Exec(ls).hub, a).value, b, LiveAt(Exec(ls).hub, b).value)
  {
    ExecInv(ls);
  }

  /** A node that lists a live peer under a connection to a process that is gone will hear from the peer's new
      process, which then makes it dial afresh. */
  lemma StaleConnectionIsCorrected(ls: seq<MeshLabel>, a: Address, b: Address, q: nat)
    requires a != b && LiveAt(Exec(ls).hub, a).Some? && LiveAt(Exec(ls).hub, b).Some?
    requires Lookup(TableOf(Exec(ls), LiveAt(Exec(ls).hub, a).value), b) == Some(Some(q))
    requires q != LiveAt(Exec(ls).hub, b).value
    ensures var s := Exec(ls);
            var pa, pb := LiveAt(s.hub, a).value, LiveAt(s.hub, b).value;
            Pending(s, pb, a, pa) && ((pb, pa) in s.registers ==> Knows(Step(s, Deliver(pb, pa)), pa, b, pb))
  {
    ExecInv(ls);
    var s := Exec(ls);
    var pa, pb := LiveAt(s.hub, a).value, LiveAt(s.hub, b).value;
    LiveAddress(s.hub, a);
    LiveAddress(s.hub, b);
    EnteringDropsConnection(TableOf(s, pa), a, b);
    hide HubSpec.Inv;
  }

  /** No live process has still to announce itself or has an announcement on its way. What dead processes
      left behind does not matter. */
  ghost predicate Settled(s: State) {
    && (forall p :: p in s.announcing ==> !IsAlive(s.hub, p))
    && (forall p, a :: (p, a) in s.visits ==> !IsAlive(s.hub, p))
    && (forall p, q :: (p, q) in s.registers ==> !IsAlive(s.hub, p))
  }

  /** Once the live processes have announced themselves, the live nodes all list each other, and every
      connection kept between them leads to the process that runs. */
  lemma QuietMeshIsComplete(ls: seq<MeshLabel>, a: Address, b: Address)
    requires Settled(Exec(ls)) && a != b
    requires LiveAt(Exec(ls).hub, a).Some? && LiveAt(Exec(ls).hub, b).Some?
    ensures Knows(Exec(ls), LiveAt(Exec(ls).hub, a).value, b, LiveAt(Exec(ls).hub, b).value)
    ensures LiveAt(Exec(ls).hub, a).value < |Exec(ls).hub.world.procs|
    ensures Reaches(Exec(ls), LiveAt(Exec(ls).hub, a).value, b) == {LiveAt(Exec(ls).hub, b).value}
  {
    FullMesh(ls, a, b);
  }

  /** Any broadcast of a live node, announcement or not, keeps the connection it used: the one in its table, or
      else the one it could make. Other entries and other tables stay as they are. */
  lemma TalkingKeepsConnection(s: State, p: nat, a: Address)
    requires IsAlive(s.hub, p) && a in TableOf(s, p)
    ensures var t := Step(s, Talk(p, a));
            && PeersOf(t, p) == PeersOf(s, p)
            && TableOf(t, p)[a] == (if TableOf(s, p)[a].Some? then TableOf(s, p)[a] else LiveAt(s.hub, a))
            && (forall b :: b != a ==> Lookup(TableOf(t, p), b) == Lookup(TableOf(s, p), b))
            && (forall q :: q != p ==> TableOf(t, q) == TableOf(s, q))
            && ((p, a) in s.visits ==> Step(s, Visit(p, a)).tables == t.tables)
  {
  }

  /** A register message that arrives puts its sender into the receiver's table, without a connection. */
  lemma DeliveryTeaches(ls: seq<MeshLabel>, a: Address, b: Address)
    requires a != b && LiveAt(Exec(ls).hub, a).Some? && LiveAt(Exec(ls).hub, b).Some?
    requires (LiveAt(Exec(ls).hub, b).value, LiveAt(Exec(ls).hub, a).value) in Exec(ls).registers
    ensures var s := Exec(ls);
            var pa, pb := LiveAt(s.hub, a).value, LiveAt(s.hub, b).value;
            var t := Step(s, Deliver(pb, pa));
            Lookup(TableOf(t, pa), b) == Some(None) && t.registers == s.registers - {(pb, pa)}
  {
    hide Exec, AllConnected, NoSelf, HubSpec.Inv, Healthy;
    ExecInv(ls);
    var s := Exec(ls);
    LiveAddress(s.hub, a);
    LiveAddress(s.hub, b);
    EnteringDropsConnection(TableOf(s, LiveAt(s.hub, a).value), a, b);
  }

  // ---- The announcements can always be completed --------------------------

  ghost predicate VisitsListed(s: State) {
    forall p, a :: (p, a) in s.visits ==> p in s.tables && a in s.tables[p]
  }

  lemma StepKeepsVisits(s: State, l: MeshLabel)
    requires VisitsListed(s) && (forall p :: p in s.tables ==> p < |s.hub.world.procs|)
    ensures VisitsListed(Step(s, l))
  {
    hide HubSpec.Step, ReadsNodes;
  }

  lemma {:induction false} ExecVisits(ls: seq<MeshLabel>)
    ensures VisitsListed(Exec(ls))
  {
    hide Step;
    if ls != [] {
      ExecVisits(ls[..|ls| - 1]);
      ExecInv(ls[..|ls| - 1]);
      StepKeepsVisits(Exec(ls[..|ls| - 1]), ls[|ls| - 1]);
    }
  }

  lemma ExecSnoc(ls: seq<MeshLabel>, l: MeshLabel)
    ensures Exec(ls + [l]) == Step(Exec(ls), l)
  {
    assert (ls + [l])[..|ls|] == ls;
  }

  /** The step that settles one thing a live process has still to do: it leaves less to announce, or else less
      to visit, or else less on its way. */
  lemma SettlingStep(s: State) returns (l: MeshLabel)
    requires VisitsListed(s) && !Settled(s)
    ensures !l.Request? && Step(s, l).hub == s.hub
    ensures var t := Step(s, l);
            || t.announcing < s.announcing
            || (t.announcing == s.announcing && t.visits < s.visits)
            || (t.announcing == s.announcing && t.visits == s.visits && t.registers < s.registers)
  {
    if p :| p in s.announcing && IsAlive(s.hub, p) {
      l := Announce(p);
    } else if p, a :| (p, a) in s.visits && IsAlive(s.hub, p) {
      l := Visit(p, a);
    } else {
      var p, q :| (p, q) in s.registers && IsAlive(s.hub, p);
      l := if IsAlive(s.hub, q) then Deliver(p, q) else Lose(p, q);
    }
  }

  /** Every run can go on, without another request, until all live nodes have announced themselves. */
  lemma {:induction false} CanSettle(ls: seq<MeshLabel>) returns (more: seq<MeshLabel>)
    ensures Settled(Exec(ls + more)) && Exec(ls + more).hub == Exec(ls).hub
    decreases Exec(ls).announcing, Exec(ls).visits, Exec(ls).registers
  {
    hide Exec, Step, Settled;
    if Settled(Exec(ls)) {
      more := [];
      assert ls + [] == ls;
    } else {
      ExecVisits(ls);
      var l := SettlingStep(Exec(ls));
      ExecSnoc(ls, l);
      var rest := CanSettle(ls + [l]);
      more := [l] + rest;
      assert ls + more == ls + [l] + rest;
    }
  }

  /** So from every reachable state the mesh can become complete: all live nodes listing each other. */
  lemma MeshCanComplete(ls: seq<MeshLabel>)
    ensures exists more :: Exec(ls + more).hub == Exec(ls).hub && Complete(Exec(ls + more))
  {
    hide Exec;
    var more := CanSettle(ls);
    forall a, b | a != b && LiveAt(Exec(ls + more).hub, a).Some? && LiveAt(Exec(ls + more).hub, b).Some?
      ensures b in PeersOf(Exec(ls + more), LiveAt(Exec(ls + more).hub, a).value)
    {
      QuietMeshIsComplete(ls + more, a, b);
    }
  }

  ghost predicate Complete(s: State) {
    forall a, b :: a != b && LiveAt(s.hub, a).Some? && LiveAt(s.hub, b).Some?
      ==> b in PeersOf(s, LiveAt(s.hub, a).value)
  }

  /** No node ever lists itself. */
  lemma NobodyListsItself(ls: seq<MeshLabel>, p: nat)
    requires p < |Exec(ls).hub.world.procs|
    ensures Exec(ls).hub.world.procs[p].address !in PeersOf(Exec(ls), p)
  {
    ExecInv(ls);
  }
}

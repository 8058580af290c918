/** The hub's process supervisor as a state machine over requests, with every fallible call an outcome
    chosen by the environment and workers free to crash at any moment. */
module HubSpec {
  import opened Options

  type Address = string

  /** A child process: `kills` counts the Kill calls on its worker. */
  datatype Proc = Proc(address: Address, started: bool, alive: bool, kills: nat)

  /** A websocket from the hub to an instance. */
  datatype Sock = Sock(address: Address, closes: nat)

  /** Every process and socket ever made. `panicked`: a request met an instance without a socket. */
  datatype World = World(procs: seq<Proc>, socks: seq<Sock>, panicked: bool)

  datatype Inst = Inst(address: Address, worker: Option<nat>, ws: Option<nat>)

  /** Which of the calls in `start` succeed. */
  datatype Outcome = Outcome(path: bool, start: bool, dial: bool, ping: bool, nodes: bool)

  predicate AllWell(o: Outcome) {
    o.path && o.start && o.dial && o.ping && o.nodes
  }

  datatype Started = Started(inst: Inst, world: World, ok: bool)

  function KillProc(w: World, p: nat): World {
    if p < |w.procs| then w.(procs := w.procs[p := w.procs[p].(alive := false, kills := w.procs[p].kills + 1)]) else w
  }

  function CloseSock(w: World, q: nat): World {
    if q < |w.socks| then w.(socks := w.socks[q := w.socks[q].(closes := w.socks[q].closes + 1)]) else w
  }

  predicate Launched(i: Inst) {
    i.ws.Some? && i.worker.Some?
  }

  function UnsafeKill(i: Inst, w: World): (Inst, World) {
    if Launched(i) then (i.(ws := None, worker := None), KillProc(CloseSock(w, i.ws.value), i.worker.value)) else (i, w)
  }

  /** A worker is returned even when the process does not start. */
  function RunWorker(i: Inst, w: World, o: Outcome): Started {
    if !o.path then Started(i, w, false)
    else Started(i.(worker := Some(|w.procs|)),
                 w.(procs := w.procs + [Proc(i.address, o.start, o.start, 0)]), o.start)
  }

  /** A failed ping leaves a closed socket behind. */
  function CreateWs(i: Inst, w: World, o: Outcome): Started {
    if !o.dial then Started(i.(ws := None), w, false)
    else
      var dialed := w.(socks := w.socks + [Sock(i.address, 0)]);
      var q := |w.socks|;
      if o.ping then Started(i.(ws := Some(q)), dialed, true)
      else Started(i.(ws := Some(q)), CloseSock(dialed, q), false)
  }

  function Start(i: Inst, w: World, o: Outcome): Started {
    var r := RunWorker(i, w, o);
    if !r.ok then r
    else
      var c := CreateWs(r.inst, r.world, o);
      if !c.ok then
        Started(c.inst.(worker := None),
                if c.inst.worker.Some? then KillProc(c.world, c.inst.worker.value) else c.world, false)
      else if !o.nodes then
        var (i', w') := UnsafeKill(c.inst, c.world);
        Started(i', w', false)
      else c
  }

  function Restart(i: Inst, w: World, o: Outcome): Started {
    var (i', w') := UnsafeKill(i, w);
    Start(i', w', o)
  }

  // ---- Requests ----------------------------------------------------------

  datatype Hub = Hub(reg: map<Address, Inst>, world: World)

  datatype Label =
    | Run(address: Address, answers: bool, o: Outcome)  // `answers`: a registered instance answers its ping
    | Remove(address: Address)
    | Crash(p: nat)

  /** A RUN request for a registered address: the new state and whether the request succeeds. */
  function RunRegistered(h: Hub, address: Address, answers: bool, o: Outcome): (Hub, bool)
    requires address in h.reg
  {
    var i := h.reg[address];
    if i.ws.None? then (h.(world := h.world.(panicked := true)), false)
    else if answers then (h, true)
    else
      var r := Restart(i, h.world, o);
      if r.ok then (Hub(h.reg[address := r.inst], r.world), true)
      else (Hub(h.reg - {address}, UnsafeKill(r.inst, r.world).1), false)
  }

  /** A RUN request for a new address. */
  function RunNew(h: Hub, address: Address, o: Outcome): (Hub, bool) {
    var r := Start(Inst(address, None, None), h.world, o);
    if r.ok then (Hub(h.reg[address := r.inst], r.world), true) else (h.(world := r.world), false)
  }

  function RunRequest(h: Hub, address: Address, answers: bool, o: Outcome): (Hub, bool) {
    if address in h.reg then RunRegistered(h, address, answers, o) else RunNew(h, address, o)
  }

  function RemoveRequest(h: Hub, address: Address): (Hub, bool) {
    if address !in h.reg then (h, false)
    else (Hub(h.reg - {address}, UnsafeKill(h.reg[address], h.world).1), true)
  }

  function Step(h: Hub, l: Label): Hub {
    match l
    case Run(address, answers, o) => RunRequest(h, address, answers, o).0
    case Remove(address) => RemoveRequest(h, address).0
    case Crash(p) =>
      if p < |h.world.procs| then h.(world := h.world.(procs := h.world.procs[p := h.world.procs[p].(alive := false)]))
      else h
  }

  const EMPTY: Hub := Hub(map[], World([], [], false))

  function Exec(ls: seq<Label>): Hub {
    if ls == [] then EMPTY else Step(Exec(ls[..|ls| - 1]), ls[|ls| - 1])
  }

  // ---- The invariant -----------------------------------------------------

  /** A registered instance is launched: its process was started and never killed, its socket is open. */
  ghost predicate Healthy(h: Hub, a: Address)
    requires a in h.reg
  {
    var i := h.reg[a];
    && i.address == a && Launched(i)
    && i.worker.value < |h.world.procs| && i.ws.value < |h.world.socks|
    && h.world.procs[i.worker.value].(alive := true) == Proc(a, true, true, 0)
    && h.world.socks[i.ws.value] == Sock(a, 0)
  }

  /** A process is either out of use, having been killed once if it was started, or the registered one. */
  predicate ProcAccounted(h: Hub, p: nat)
    requires p < |h.world.procs|
  {
    var c := h.world.procs[p];
    if !c.started then !c.alive && c.kills == 0
    else if c.kills == 0 then c.address in h.reg && h.reg[c.address].worker == Some(p)
    else !c.alive && c.kills == 1
  }

  predicate SockAccounted(h: Hub, q: nat)
    requires q < |h.world.socks|
  {
    var c := h.world.socks[q];
    if c.closes == 0 then c.address in h.reg && h.reg[c.address].ws == Some(q) else c.closes == 1
  }

  ghost predicate Inv(h: Hub) {
    && (forall a :: a in h.reg ==> Healthy(h, a))
    && (forall p: nat :: p < |h.world.procs| ==> ProcAccounted(h, p))
    && (forall q: nat :: q < |h.world.socks| ==> SockAccounted(h, q))
    && !h.world.panicked
  }

  /** What `start` leaves of an instance that has nothing yet: on success one running process and one open
      socket, on failure nothing that runs, nothing open, and nothing that a later kill would touch. */
  lemma StartEffect(i: Inst, w: World, o: Outcome)
    requires i.worker.None? && i.ws.None?
    ensures var r := Start(i, w, o);
            && r.inst.address == i.address && r.world.panicked == w.panicked
            && w.procs <= r.world.procs && |r.world.procs| == |w.procs| + (if o.path then 1 else 0)
            && w.socks <= r.world.socks
            && |r.world.socks| == |w.socks| + (if o.path && o.start && o.dial then 1 else 0)
            && (r.ok <==> AllWell(o))
            && (if r.ok then
                  && r.inst == Inst(i.address, Some(|w.procs|), Some(|w.socks|))
                  && r.world.procs == w.procs + [Proc(i.address, true, true, 0)]
                  && r.world.socks == w.socks + [Sock(i.address, 0)]
                else
                  // A process that did not start leaves its worker behind, a failed ping its closed socket.
                  && r.inst == Inst(i.address, if o.path && !o.start then Some(|w.procs|) else None,
                                    if o.path && o.start && o.dial && !o.ping then Some(|w.socks|) else None)
                  && !Launched(r.inst)
                  && (o.path ==>
                        r.world.procs[|w.procs|] == Proc(i.address, o.start, false, if o.start then 1 else 0))
                  && (o.path && o.start && o.dial ==> r.world.socks[|w.socks|] == Sock(i.address, 1)))
  {
  }

  /** Killing a registered instance kills its process once and closes its socket once. */
  lemma KillEffect(h: Hub, a: Address)
    requires Inv(h) && a in h.reg
    ensures var (i, w) := UnsafeKill(h.reg[a], h.world);
            && i == Inst(a, None, None)
            && Inv(Hub(h.reg - {a}, w))
  {
    assert Healthy(h, a);
    var (i, w) := UnsafeKill(h.reg[a], h.world);
    var h' := Hub(h.reg - {a}, w);
    forall b | b in h'.reg
      ensures Healthy(h', b)
    {
      assert Healthy(h, b);
    }
    forall p: nat | p < |w.procs|
      ensures ProcAccounted(h', p)
    {
      assert ProcAccounted(h, p);
    }
    forall q: nat | q < |w.socks|
      ensures SockAccounted(h', q)
    {
      assert SockAccounted(h, q);
    }
  }

  /** Starting an instance under an address that is not registered, and registering it if that works. */
  lemma StartKeepsInv(h: Hub, a: Address, o: Outcome)
    requires Inv(h) && a !in h.reg
    ensures var r := Start(Inst(a, None, None), h.world, o);
            if r.ok then Inv(Hub(h.reg[a := r.inst], r.world)) else Inv(Hub(h.reg, r.world))
  {
    StartEffect(Inst(a, None, None), h.world, o);
    hide Start;
    var r := Start(Inst(a, None, None), h.world, o);
    var h' := if r.ok then Hub(h.reg[a := r.inst], r.world) else Hub(h.reg, r.world);
    forall b | b in h'.reg
      ensures Healthy(h', b)
    {
      assert b != a ==> Healthy(h, b);
    }
    forall p: nat | p < |h'.world.procs|
      ensures ProcAccounted(h', p)
    {
      assert p < |h.world.procs| ==> ProcAccounted(h, p);
    }
    forall q: nat | q < |h'.world.socks|
      ensures SockAccounted(h', q)
    {
      assert q < |h.world.socks| ==> SockAccounted(h, q);
    }
  }

  lemma CrashKeepsInv(h: Hub, p: nat)
    requires Inv(h)
    ensures Inv(Step(h, Crash(p)))
  {
    var h' := Step(h, Crash(p));
    forall b | b in h'.reg
      ensures Healthy(h', b)
    {
      assert Healthy(h, b);
    }
    forall c: nat | c < |h'.world.procs|
      ensures ProcAccounted(h', c)
    {
      assert ProcAccounted(h, c);
    }
    assert forall q: nat :: q < |h.world.socks| ==> SockAccounted(h, q) ==> SockAccounted(h', q);
  }

  /** Restarting is removing and starting anew. */
  lemma RestartIsRemoveThenStart(h: Hub, a: Address, o: Outcome)
    requires Inv(h) && a in h.reg
    ensures var gone := RemoveRequest(h, a).0;
            && a !in gone.reg && Inv(gone)
            && Restart(h.reg[a], h.world, o) == Start(Inst(a, None, None), gone.world, o)
            && h.reg - {a} == gone.reg
  {
    KillEffect(h, a);
  }

  lemma RunKeepsInv(h: Hub, a: Address, answers: bool, o: Outcome)
    requires Inv(h)
    ensures Inv(RunRequest(h, a, answers, o).0)
  {
    hide Start;
    if a in h.reg {
      assert Healthy(h, a);
      RestartIsRemoveThenStart(h, a, o);
      var gone := RemoveRequest(h, a).0;
      StartKeepsInv(gone, a, o);
      StartEffect(Inst(a, None, None), gone.world, o);
      assert h.reg[a := Start(Inst(a, None, None), gone.world, o).inst]
          == gone.reg[a := Start(Inst(a, None, None), gone.world, o).inst];
    } else {
      StartKeepsInv(h, a, o);
    }
  }

  lemma StepInv(h: Hub, l: Label)
    requires Inv(h)
    ensures Inv(Step(h, l))
  {
    match l
    case Run(a, answers, o) => RunKeepsInv(h, a, answers, o);
    case Remove(a) => if a in h.reg { KillEffect(h, a); }
    case Crash(p) => CrashKeepsInv(h, p);
  }

  lemma {:induction false} ExecInv(ls: seq<Label>)
    ensures Inv(Exec(ls))
  {
    if ls != [] {
      ExecInv(ls[..|ls| - 1]);
      StepInv(Exec(ls[..|ls| - 1]), ls[|ls| - 1]);
    }
  }

  // ---- The theorems ------------------------------------------------------

  /** After any requests and crashes, each running process belongs to exactly one registered instance,
      the one under its own address. */
  lemma NoLeakedProcess(ls: seq<Label>, p: nat)
    requires p < |Exec(ls).world.procs| && Exec(ls).world.procs[p].alive
    ensures var h := Exec(ls);
            var a := h.world.procs[p].address;
            && a in h.reg && h.reg[a].worker == Some(p)
            && forall b :: b in h.reg && h.reg[b].worker == Some(p) ==> b == a
  {
    ExecInv(ls);
    var h := Exec(ls);
    assert ProcAccounted(h, p);
    forall b | b in h.reg && h.reg[b].worker == Some(p)
      ensures b == h.world.procs[p].address
    {
      assert Healthy(h, b);
    }
  }

  /** No address has two running processes. */
  lemma NoDoubledProcess(ls: seq<Label>, p: nat, q: nat)
    requires p < |Exec(ls).world.procs| && q < |Exec(ls).world.procs| && p != q
    requires Exec(ls).world.procs[p].alive && Exec(ls).world.procs[q].alive
    ensures Exec(ls).world.procs[p].address != Exec(ls).world.procs[q].address
  {
    NoLeakedProcess(ls, p);
    NoLeakedProcess(ls, q);
  }

  /** Every registered instance is launched with an open socket, so a ping always has one to use. */
  lemma RegisteredIsLaunched(ls: seq<Label>, a: Address)
    requires a in Exec(ls).reg
    ensures Healthy(Exec(ls), a) && !Exec(ls).world.panicked
  {
    ExecInv(ls);
  }

  /** Kill is called at most once on each worker and never on one that did not start; a started process
      without its registered instance has been killed. */
  lemma KillDiscipline(ls: seq<Label>, p: nat)
    requires p < |Exec(ls).world.procs|
    ensures var h := Exec(ls);
            var c := h.world.procs[p];
            && c.kills <= (if c.started then 1 else 0)
            && (c.started ==> (c.kills == 0 <==> c.address in h.reg && h.reg[c.address].worker == Some(p)))
  {
    ExecInv(ls);
    var h := Exec(ls);
    assert ProcAccounted(h, p);
    var a := h.world.procs[p].address;
    assert a in h.reg ==> Healthy(h, a);
  }

  /** Each socket is closed at most once, and is open exactly while its instance is registered with it. */
  lemma CloseDiscipline(ls: seq<Label>, q: nat)
    requires q < |Exec(ls).world.socks|
    ensures var h := Exec(ls);
            var c := h.world.socks[q];
            && c.closes <= 1
            && (c.closes == 0 <==> c.address in h.reg && h.reg[c.address].ws == Some(q))
  {
    ExecInv(ls);
    var h := Exec(ls);
    assert SockAccounted(h, q);
    var a := h.world.socks[q].address;
    assert a in h.reg ==> Healthy(h, a);
  }

  /** A RUN request reports success exactly when its address is registered afterwards, and touches no
      other registration. */
  lemma RunReportsRegistration(ls: seq<Label>, a: Address, answers: bool, o: Outcome)
    ensures var (h', ok) := RunRequest(Exec(ls), a, answers, o);
            && (ok <==> a in h'.reg)
            && h'.reg - {a} == Exec(ls).reg - {a}
  {
    ExecInv(ls);
    assert a in Exec(ls).reg ==> Healthy(Exec(ls), a);
    hide Start, UnsafeKill;
  }

  /** A RUN request for a registered instance that answers its ping changes nothing and succeeds. */
  lemma AnsweringIsLeftAlone(ls: seq<Label>, a: Address, o: Outcome)
    requires a in Exec(ls).reg
    ensures RunRequest(Exec(ls), a, true, o) == (Exec(ls), true)
  {
    ExecInv(ls);
    assert Healthy(Exec(ls), a);
  }

  /** The instance registered under a, if any, has been killed and its socket closed, once each; everything
      else in the world is as it was. */
  ghost predicate OldIsGone(h: Hub, a: Address, w: World) {
    && |h.world.procs| <= |w.procs| && |h.world.socks| <= |w.socks|
    && (forall p: nat :: p < |h.world.procs| ==>
          w.procs[p] == (if a in h.reg && h.reg[a].worker == Some(p)
                         then h.world.procs[p].(alive := false, kills := 1) else h.world.procs[p]))
    && (forall q: nat :: q < |h.world.socks| ==>
          w.socks[q] == (if a in h.reg && h.reg[a].ws == Some(q)
                         then h.world.socks[q].(closes := 1) else h.world.socks[q]))
  }

  lemma RemoveEffect(h: Hub, a: Address)
    requires Inv(h)
    ensures var h' := RemoveRequest(h, a).0;
            && h'.reg == h.reg - {a} && OldIsGone(h, a, h'.world) && h'.world.panicked == h.world.panicked
            && |h'.world.procs| == |h.world.procs| && |h'.world.socks| == |h.world.socks|
  {
    if a in h.reg {
      assert Healthy(h, a);
    }
  }

  /** A RUN request for any other address starts a process and a socket and registers them, exactly when all
      steps of the start work; otherwise the address ends up unregistered. An instance that does not answer
      is killed first. */
  lemma RunStartsAfresh(ls: seq<Label>, a: Address, answers: bool, o: Outcome)
    requires !(a in Exec(ls).reg && answers)
    ensures var h := Exec(ls);
            var (h', ok) := RunRequest(h, a, answers, o);
            var p, q := |h.world.procs|, |h.world.socks|;
            && (ok <==> AllWell(o))
            && h'.reg == (if ok then h.reg[a := Inst(a, Some(p), Some(q))] else h.reg - {a})
            && |h'.world.procs| == p + (if o.path then 1 else 0)
            && |h'.world.socks| == q + (if o.path && o.start && o.dial then 1 else 0)
            && (ok ==> h'.world.procs[p] == Proc(a, true, true, 0) && h'.world.socks[q] == Sock(a, 0))
            && OldIsGone(h, a, h'.world)
  {
    ExecInv(ls);
    hide Start, UnsafeKill, Inv, Exec;
    var h := Exec(ls);
    RemoveEffect(h, a);
    var gone := RemoveRequest(h, a).0;
    StartEffect(Inst(a, None, None), gone.world, o);
    if a in h.reg {
      RestartIsRemoveThenStart(h, a, o);
      HealthyNow(h, a);
      UnlaunchedStays(Start(Inst(a, None, None), gone.world, o));
      assert h.reg[a := Inst(a, Some(|h.world.procs|), Some(|h.world.socks|))]
          == gone.reg[a := Inst(a, Some(|h.world.procs|), Some(|h.world.socks|))];
    }
  }

  lemma HealthyNow(h: Hub, a: Address)
    requires Inv(h) && a in h.reg
    ensures h.reg[a].ws.Some?
  {
    assert Healthy(h, a);
  }

  lemma UnlaunchedStays(r: Started)
    ensures !Launched(r.inst) ==> UnsafeKill(r.inst, r.world) == (r.inst, r.world)
  {
  }

  /** A REMOVE request succeeds exactly for a registered address; it kills that instance's process and closes
      its socket, and leaves everything else as it was. */
  lemma RemoveKillsOne(ls: seq<Label>, a: Address)
    ensures var h := Exec(ls);
            var (h', ok) := RemoveRequest(h, a);
            && (ok <==> a in h.reg)
            && h'.reg == h.reg - {a} && OldIsGone(h, a, h'.world)
            && |h'.world.procs| == |h.world.procs| && |h'.world.socks| == |h.world.socks|
  {
    ExecInv(ls);
    RemoveEffect(Exec(ls), a);
  }

  /** A crash ends one process and touches nothing else; the hub does not notice. */
  lemma CrashEndsOne(h: Hub, p: nat)
    requires p < |h.world.procs|
    ensures var h' := Step(h, Crash(p));
            && h'.reg == h.reg && h'.world.socks == h.world.socks && |h'.world.procs| == |h.world.procs|
            && forall c: nat :: c < |h.world.procs| ==>
                 h'.world.procs[c] == (if c == p then h.world.procs[p].(alive := false) else h.world.procs[c])
  {
  }

  // ---- Shutdown ----------------------------------------------------------

  /** The loop over the listed instances, in whatever order the register lists them, as far as it gets. */
  function Shutdown(h: Hub, order: seq<Address>): World {
    if order == [] then h.world
    else
      var w := Shutdown(h, order[..|order| - 1]);
      var a := order[|order| - 1];
      if a in h.reg then UnsafeKill(h.reg[a], w).1 else w
  }

  ghost predicate Distinct(order: seq<Address>) {
    forall i, j :: 0 <= i < j < |order| ==> order[i] != order[j]
  }

  function Without(reg: map<Address, Inst>, order: seq<Address>): map<Address, Inst> {
    map a | a in reg && a !in order :: reg[a]
  }

  lemma {:induction false} ShutdownRemoves(h: Hub, order: seq<Address>)
    requires Inv(h) && Distinct(order)
    ensures Inv(Hub(Without(h.reg, order), Shutdown(h, order)))
  {
    if order == [] {
      assert Without(h.reg, []) == h.reg;
    } else {
      var init, a := order[..|order| - 1], order[|order| - 1];
      ShutdownRemoves(h, init);
      assert order == init + [a];
      var mid := Hub(Without(h.reg, init), Shutdown(h, init));
      if a in h.reg {
        KillEffect(mid, a);
        assert mid.reg - {a} == Without(h.reg, order);
      } else {
        assert mid.reg == Without(h.reg, order);
      }
    }
  }

  /** Once the loop over all listed instances has completed, no process the hub started is running and every
      socket was closed exactly once. */
  lemma ShutdownLeavesNothing(ls: seq<Label>, order: seq<Address>)
    requires Distinct(order) && forall a :: a in Exec(ls).reg ==> a in order
    ensures var w := Shutdown(Exec(ls), order);
            && (forall p :: 0 <= p < |w.procs| ==> !w.procs[p].alive && w.procs[p].kills <= 1)
            && (forall q :: 0 <= q < |w.socks| ==> w.socks[q].closes == 1)
  {
    ExecInv(ls);
    ShutdownRemoves(Exec(ls), order);
    var h := Hub(Without(Exec(ls).reg, order), Shutdown(Exec(ls), order));
    assert h.reg == map[];
    forall p | 0 <= p < |h.world.procs|
      ensures !h.world.procs[p].alive && h.world.procs[p].kills <= 1
    {
      assert ProcAccounted(h, p);
    }
    forall q | 0 <= q < |h.world.socks|
      ensures h.world.socks[q].closes == 1
    {
      assert SockAccounted(h, q);
    }
  }

  // ---- Exit before the loop is over --------------------------------------

  /** The goroutine that serves requests ends the program as soon as the listener has been shut down, while
      the loop may still be running: after k kills, and perhaps with the next instance's socket closed. */
  function Interrupted(h: Hub, order: seq<Address>, k: nat, closing: bool): World
    requires k <= |order|
  {
    var w := Shutdown(h, order[..k]);
    if closing && k < |order| && order[k] in h.reg && Launched(h.reg[order[k]])
    then CloseSock(w, h.reg[order[k]].ws.value) else w
  }

  /** How far the loop got with the instance at an address. */
  predicate Reached(order: seq<Address>, k: nat, closing: bool, a: Address)
    requires k <= |order|
  {
    a in order[..k] || (closing && k < |order| && a == order[k])
  }

  /** What killing the instance at a does to each process and socket. */
  lemma KillTouches(h: Hub, a: Address)
    requires Inv(h) && a in h.reg
    ensures var w := UnsafeKill(h.reg[a], h.world).1;
            && |w.procs| == |h.world.procs| && |w.socks| == |h.world.socks|
            && (forall p: nat :: p < |w.procs| ==>
                  && w.procs[p].address == h.world.procs[p].address
                  && (w.procs[p].alive <==> h.world.procs[p].alive && h.world.procs[p].address != a))
            && (forall q: nat :: q < |w.socks| ==>
                  && w.socks[q].address == h.world.socks[q].address
                  && (w.socks[q].closes > 0 <==> h.world.socks[q].closes > 0 || h.world.socks[q].address == a))
  {
    assert Healthy(h, a);
    forall p: nat | p < |h.world.procs|
      ensures h.world.procs[p].alive && h.world.procs[p].address == a ==> h.reg[a].worker == Some(p)
    {
      assert ProcAccounted(h, p);
    }
    forall q: nat | q < |h.world.socks|
      ensures h.world.socks[q].closes == 0 && h.world.socks[q].address == a ==> h.reg[a].ws == Some(q)
    {
      assert SockAccounted(h, q);
    }
  }

  /** The loop kills exactly the live processes of the addresses it has reached, and closes their sockets. */
  lemma {:induction false} ShutdownTouches(h: Hub, order: seq<Address>)
    requires Inv(h) && Distinct(order) && forall a :: a in order ==> a in h.reg
    ensures var w := Shutdown(h, order);
            && |w.procs| == |h.world.procs| && |w.socks| == |h.world.socks|
            && (forall p: nat :: p < |w.procs| ==>
                  && w.procs[p].address == h.world.procs[p].address
                  && (w.procs[p].alive <==> h.world.procs[p].alive && h.world.procs[p].address !in order))
            && (forall q: nat :: q < |w.socks| ==>
                  && w.socks[q].address == h.world.socks[q].address
                  && (w.socks[q].closes > 0 <==> h.world.socks[q].closes > 0 || h.world.socks[q].address in order))
  {
    if order != [] {
      var init, a := order[..|order| - 1], order[|order| - 1];
      assert order == init + [a];
      ShutdownTouches(h, init);
      ShutdownRemoves(h, init);
      hide Shutdown, UnsafeKill, Inv;
      ShutdownSnoc(h, init, a);
      KillTouches(Hub(Without(h.reg, init), Shutdown(h, init)), a);
    }
  }

  lemma ShutdownSnoc(h: Hub, init: seq<Address>, a: Address)
    requires a in h.reg
    ensures Shutdown(h, init + [a]) == UnsafeKill(h.reg[a], Shutdown(h, init)).1
  {
    assert (init + [a])[..|init|] == init;
  }

  /** The register is listed: every registered address, each once. */
  ghost predicate Lists(order: seq<Address>, h: Hub) {
    Distinct(order) && forall a :: a in order <==> a in h.reg
  }

  /** What an exit leaves: the processes running before under the addresses not yet killed, and open exactly
      the sockets of those whose socket the loop had not reached. */
  lemma InterruptedLeaves(ls: seq<Label>, order: seq<Address>, k: nat, closing: bool)
    requires Lists(order, Exec(ls)) && k <= |order|
    ensures var h := Exec(ls);
            var w := Interrupted(h, order, k, closing);
            && |w.procs| == |h.world.procs| && |w.socks| == |h.world.socks|
            && (forall p: nat :: p < |w.procs| ==>
                  (w.procs[p].alive <==> h.world.procs[p].alive && h.world.procs[p].address !in order[..k]))
            && (forall q: nat :: q < |w.socks| ==>
                  (w.socks[q].closes > 0 <==>
                     h.world.socks[q].closes > 0 || Reached(order, k, closing, h.world.socks[q].address)))
  {
    var h := Exec(ls);
    ExecInv(ls);
    ShutdownTouches(h, order[..k]);
    ShutdownRemoves(h, order[..k]);
    hide Exec, Shutdown;
    if closing && k < |order| {
      var mid := Hub(Without(h.reg, order[..k]), Shutdown(h, order[..k]));
      assert Healthy(mid, order[k]);
      forall q: nat | q < |mid.world.socks|
        ensures mid.world.socks[q].closes == 0 && mid.world.socks[q].address == order[k]
                ==> mid.reg[order[k]].ws == Some(q)
      {
        assert SockAccounted(mid, q);
      }
    }
  }

  /** An early exit leaves no process running exactly when every address with a live process had been killed,
      and no socket open exactly when the loop had reached every registered address. */
  lemma ExitIsCleanIff(ls: seq<Label>, order: seq<Address>, k: nat, closing: bool)
    requires Lists(order, Exec(ls)) && k <= |order|
    ensures var h := Exec(ls);
            var w := Interrupted(h, order, k, closing);
            && ((forall p: nat :: p < |w.procs| ==> !w.procs[p].alive) <==>
                  forall p: nat :: p < |h.world.procs| && h.world.procs[p].alive ==>
                    h.world.procs[p].address in order[..k])
            && ((forall q: nat :: q < |w.socks| ==> w.socks[q].closes > 0) <==>
                  forall a :: a in h.reg ==> Reached(order, k, closing, a))
  {
    var h := Exec(ls);
    ExecInv(ls);
    InterruptedLeaves(ls, order, k, closing);
    var w := Interrupted(h, order, k, closing);
    hide Exec, Interrupted, Reached;
    forall a | a in h.reg
      ensures Healthy(h, a)
    {
    }
    forall q: nat | q < |h.world.socks| && h.world.socks[q].closes == 0
      ensures h.world.socks[q].address in h.reg
    {
      assert SockAccounted(h, q);
    }
    if forall q: nat :: q < |w.socks| ==> w.socks[q].closes > 0 {
      forall a | a in h.reg
        ensures Reached(order, k, closing, a)
      {
        assert w.socks[h.reg[a].ws.value].closes > 0;
      }
    }
  }

  /** One instance, and an exit before the loop gets to it: its process goes on without a hub. */
  lemma EarlyExitOrphans()
    ensures var h := Exec([Run("a", false, Outcome(true, true, true, true, true))]);
            var w := Interrupted(h, ["a"], 0, false);
            && Lists(["a"], h) && |w.procs| == 1 && w.procs[0].alive && |w.socks| == 1 && w.socks[0].closes == 0
  {
    var l := Run("a", false, Outcome(true, true, true, true, true));
    assert [l][..0] == [] && Exec([]) == EMPTY;
    assert Exec([l]) == Step(EMPTY, l);
  }
}

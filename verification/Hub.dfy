/** The hub's classes: instances, the register, and the request handlers, step by step as the program
    performs them, tied to the state machine of HubSpec. */
module Hubs {
  import opened Options
  import HubSpec

  type Address = HubSpec.Address

  /** The processes and sockets of the operating system, updated in place. */
  class System {
    var world: HubSpec.World

    constructor ()
      ensures world == HubSpec.EMPTY.world
    {
      world := HubSpec.EMPTY.world;
    }

    /** processes.Run: a worker comes back whether or not the process starts. */
    method RunProcess(address: Address, started: bool) returns (worker: nat)
      modifies this
      ensures worker == |old(world.procs)|
      ensures world == old(world).(procs := old(world.procs) + [HubSpec.Proc(address, started, started, 0)])
    {
      worker := |world.procs|;
      world := world.(procs := world.procs + [HubSpec.Proc(address, started, started, 0)]);
    }

    method Dial(address: Address) returns (ws: nat)
      modifies this
      ensures ws == |old(world.socks)|
      ensures world == old(world).(socks := old(world.socks) + [HubSpec.Sock(address, 0)])
    {
      ws := |world.socks|;
      world := world.(socks := world.socks + [HubSpec.Sock(address, 0)]);
    }

    method Kill(worker: nat)
      modifies this
      ensures world == HubSpec.KillProc(old(world), worker)
    {
      world := HubSpec.KillProc(world, worker);
    }

    /** A request met an instance without a socket. */
    method Panic()
      modifies this
      ensures world == old(world).(panicked := true)
    {
      world := world.(panicked := true);
    }

    method Close(ws: nat)
      modifies this
      ensures world == HubSpec.CloseSock(old(world), ws)
    {
      world := HubSpec.CloseSock(world, ws);
    }
  }

  class Instance {
    const address: Address
    const system: System
    var worker: Option<nat>
    var ws: Option<nat>

    ghost function Val(): HubSpec.Inst
      reads this
    {
      HubSpec.Inst(address, worker, ws)
    }

    ghost function Both(): (HubSpec.Inst, HubSpec.World)
      reads this, system
    {
      (Val(), system.world)
    }

    constructor (address: Address, system: System)
      ensures this.address == address && this.system == system && worker == None && ws == None
    {
      this.address := address;
      this.system := system;
      worker, ws := None, None;
    }

    predicate Launched()
      reads this
    {
      ws.Some? && worker.Some?
    }

    method UnsafeKill()
      modifies this, system
      ensures Both() == HubSpec.UnsafeKill(old(Val()), old(system.world))
    {
      if Launched() {
        system.Close(ws.value);
        ws := None;
        system.Kill(worker.value);
        worker := None;
      }
    }

    method Start(o: HubSpec.Outcome) returns (ok: bool)
      modifies this, system
      ensures HubSpec.Started(Val(), system.world, ok) == HubSpec.Start(old(Val()), old(system.world), o)
    {
      ok := RunWorker(o);
      if !ok { return; }
      ok := CreateWs(o);
      if !ok {
        if worker.Some? { system.Kill(worker.value); }
        worker := None;
        return;
      }
      ok := o.nodes;
      if !ok {
        UnsafeKill();
      }
    }

    method RunWorker(o: HubSpec.Outcome) returns (ok: bool)
      modifies this, system
      ensures HubSpec.Started(Val(), system.world, ok) == HubSpec.RunWorker(old(Val()), old(system.world), o)
    {
      if !o.path { return false; }
      var w := system.RunProcess(address, o.start);
      worker := Some(w);
      ok := o.start;
    }

    method CreateWs(o: HubSpec.Outcome) returns (ok: bool)
      modifies this, system
      ensures HubSpec.Started(Val(), system.world, ok) == HubSpec.CreateWs(old(Val()), old(system.world), o)
    {
      if !o.dial {
        ws := None;
        return false;
      }
      var q := system.Dial(address);
      ws := Some(q);
      ok := o.ping;
      if !ok {
        system.Close(q);
      }
    }

    method Restart(o: HubSpec.Outcome) returns (ok: bool)
      modifies this, system
      ensures HubSpec.Started(Val(), system.world, ok) == HubSpec.Restart(old(Val()), old(system.world), o)
    {
      UnsafeKill();
      ok := Start(o);
    }
  }

  class Register {
    var data: map<Address, Instance>

    constructor ()
      ensures data == map[]
    {
      data := map[];
    }

    method Add(address: Address, i: Instance)
      modifies this
      ensures data == old(data)[address := i]
    {
      data := data[address := i];
    }

    method Remove(key: Address)
      modifies this
      ensures data == old(data) - {key}
    {
      data := data - {key};
    }

    /** The addresses, each once, in some order. */
    method Keys() returns (result: seq<Address>)
      ensures HubSpec.Distinct(result) && forall a :: a in result <==> a in data
    {
      result := [];
      var rest := data.Keys;
      while rest != {}
        invariant rest <= data.Keys
        invariant HubSpec.Distinct(result)
        invariant forall a :: a in result <==> a in data.Keys - rest
      {
        var k :| k in rest;
        assert k !in result;
        result := result + [k];
        rest := rest - {k};
      }
    }
  }

  class Server {
    const system: System
    const register: Register

    /** An instance is registered under its own address, so no two addresses share one. */
    ghost predicate Valid()
      reads this, register
    {
      forall a :: a in register.data ==> register.data[a].address == a && register.data[a].system == system
    }

    ghost function View(): HubSpec.Hub
      reads register, register.data.Values, system
    {
      HubSpec.Hub(map a | a in register.data :: register.data[a].Val(), system.world)
    }

    constructor ()
      ensures Valid() && View() == HubSpec.EMPTY && fresh(system) && fresh(register)
    {
      system := new System();
      register := new Register();
      new;
    }

    /** The RUN request. */
    method Run(address: Address, answers: bool, o: HubSpec.Outcome) returns (ok: bool)
      requires Valid()
      modifies register, register.data.Values, system
      ensures Valid()
      ensures (View(), ok) == HubSpec.RunRequest(old(View()), address, answers, o)
      ensures forall a :: a in register.data ==>
                (a in old(register.data) && register.data[a] == old(register.data[a])) || fresh(register.data[a])
    {
      if address in register.data {
        ok := RunRegistered(address, answers, o);
      } else {
        ok := RunNew(address, o);
      }
    }

    method RunRegistered(address: Address, answers: bool, o: HubSpec.Outcome) returns (ok: bool)
      requires Valid() && address in register.data
      modifies register, register.data[address], system
      ensures Valid()
      ensures forall a :: a in register.data ==> a in old(register.data) && register.data[a] == old(register.data[a])
      ensures (View(), ok) == HubSpec.RunRegistered(old(View()), address, answers, o)
      ensures answers && old(register.data[address].ws.Some?) ==> ok && View() == old(View())
    {
      hide HubSpec.Restart, HubSpec.UnsafeKill;
      ghost var before := View();
      var i := register.data[address];
      assert before.reg[address] == i.Val();
      if i.ws.None? {
        system.Panic();
        ViewIs(before.reg, address);
        return false;
      }
      if answers {
        return true;
      }
      ok := i.Restart(o);
      if ok {
        ViewIs(before.reg, address);
      } else {
        i.UnsafeKill();
        register.Remove(address);
        ViewIs(before.reg, address);
      }
    }

    /** The registrations are those of `reg` but for the one of `address`, which is as it stands. */
    lemma ViewIs(reg: map<Address, HubSpec.Inst>, address: Address)
      requires forall a :: a in register.data && a != address ==> a in reg && register.data[a].Val() == reg[a]
      requires forall a :: a in reg && a != address ==> a in register.data
      ensures View().reg == if address in register.data then reg[address := register.data[address].Val()]
                            else reg - {address}
      ensures (address in register.data <==> address in reg)
           && (address in reg ==> register.data[address].Val() == reg[address])
           ==> View().reg == reg
    {
    }

    method NewInstance(address: Address, o: HubSpec.Outcome) returns (i: Instance, ok: bool)
      modifies system
      ensures fresh(i) && i.address == address && i.system == system
      ensures HubSpec.Started(i.Val(), system.world, ok)
           == HubSpec.Start(HubSpec.Inst(address, None, None), old(system.world), o)
    {
      i := new Instance(address, system);
      ok := i.Start(o);
    }

    method RunNew(address: Address, o: HubSpec.Outcome) returns (ok: bool)
      requires Valid() && address !in register.data
      modifies register, system
      ensures Valid()
      ensures if ok then address in register.data && fresh(register.data[address])
                         && register.data == old(register.data)[address := register.data[address]]
              else register.data == old(register.data)
      ensures (View(), ok) == HubSpec.RunNew(old(View()), address, o)
    {
      hide HubSpec.Start;
      ghost var before := View();
      var i;
      i, ok := NewInstance(address, o);
      if ok {
        register.Add(address, i);
        ViewIs(before.reg, address);
      } else {
        ViewIs(before.reg, address);
      }
    }

    /** The REMOVE request. */
    method Remove(address: Address) returns (ok: bool)
      requires Valid()
      modifies register, register.data.Values, system
      ensures Valid()
      ensures forall a :: a in register.data ==> a in old(register.data) && register.data[a] == old(register.data[a])
      ensures (View(), ok) == HubSpec.RemoveRequest(old(View()), address)
    {
      hide HubSpec.UnsafeKill;
      ghost var before := View();
      ok := address in register.data;
      if ok {
        var i := register.data[address];
        assert before.reg[address] == i.Val();
        i.UnsafeKill();
        assert forall a :: a in register.data && a != address ==> register.data[a].Val() == before.reg[a];
        register.Remove(address);
      }
      assert View().reg == HubSpec.RemoveRequest(before, address).0.reg;
    }
  }
}

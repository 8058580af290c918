/** The hub's kill discipline meets the killers' handshake: no request of the hub hangs in Kill. */
module Supervision {
  import HubSpec
  import Worker

  /** However far the handshake of one of the hub's workers has got, every Kill that the hub has called on
      it can still return, and has waited for the process when it does. */
  lemma HubKillsReturn(requests: seq<HubSpec.Label>, p: nat, ls: seq<Worker.Label>)
    requires p < |HubSpec.Exec(requests).world.procs|
    requires Worker.Exec(Worker.Run(HubSpec.Exec(requests).world.procs[p].started), ls).calls
          == HubSpec.Exec(requests).world.procs[p].kills
    ensures var s := Worker.Exec(Worker.Run(HubSpec.Exec(requests).world.procs[p].started), ls);
            && (s.returned > 0 ==> s.proc.Reaped?)
            && exists more :: Worker.NoNewCalls(more) && Worker.Exec(s, more).returned == s.calls
  {
    var started := HubSpec.Exec(requests).world.procs[p].started;
    HubSpec.KillDiscipline(requests, p);
    Worker.KillsReturnIff(started, ls);
    Worker.OneKillReturns(started, ls);
  }

  /** They do return, under every schedule: after so far, the handshake can take only so many steps more, and
      when it has none left to take every Kill is back. */
  lemma HubKillsReturnUnderAnySchedule(requests: seq<HubSpec.Label>, p: nat, ls: seq<Worker.Label>,
                                       more: seq<Worker.Label>)
    requires p < |HubSpec.Exec(requests).world.procs|
    requires Worker.Exec(Worker.Run(HubSpec.Exec(requests).world.procs[p].started), ls).calls
          == HubSpec.Exec(requests).world.procs[p].kills
    requires Worker.Happens(Worker.Exec(Worker.Run(HubSpec.Exec(requests).world.procs[p].started), ls), more)
    ensures var s := Worker.Exec(Worker.Run(HubSpec.Exec(requests).world.procs[p].started), ls);
            var t := Worker.Exec(s, more);
            && |more| <= Worker.Potential(s)
            && (Worker.AtRest(t) ==> t.returned == s.calls && (s.calls > 0 ==> t.proc.Reaped?))
  {
    var started := HubSpec.Exec(requests).world.procs[p].started;
    var s := Worker.Exec(Worker.Run(started), ls);
    HubSpec.KillDiscipline(requests, p);
    Worker.ExecInv(started, ls);
    Worker.HappensWithinPotential(s, more);
    if s.calls == 1 {
      Worker.KillReturnsUnderAnySchedule(s, more);
    }
  }
}

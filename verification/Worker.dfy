/** The handshake between a killer and the goroutines that watch one child process. */
module Worker {
  /** The child: never started, alive, dead, or dead and waited for. */
  datatype Proc = NotStarted | Alive | Dead | Reaped

  /** Where the watching loop stands: at its select, or reporting an exit. */
  datatype Watch = Selecting | GotExit | Stopped

  /** The three channels hold at most one token each. `calls` counts the Kill calls made so far;
      `calling` of them have still to put their token, `waiting` wait for an answer, `returned` are back. */
  datatype State = State(proc: Proc, watch: Watch, killTokens: nat, waitTokens: nat, stopTokens: nat,
                         calls: nat, calling: nat, waiting: nat, returned: nat)

  datatype Label =
    | Exit        // the child dies on its own
    | Call        // somebody calls Kill
    | PutToken    // Kill sends on killWorkersChan
    | KillChild   // the loop takes the token and kills the child
    | Reap        // Wait returns and the loop receives its result
    | PutStop     // the loop sends on stopChan
    | PutWait     // the loop sends on killWaitChan
    | Return      // Kill receives from killWaitChan

  function Run(started: bool): State {
    State(if started then Alive else NotStarted, Selecting, 0, 0, 0, 0, 0, 0, 0)
  }

  predicate Enabled(s: State, l: Label) {
    match l
    case Exit => s.proc.Alive?
    case Call => true
    case PutToken => s.calling > 0 && s.killTokens < 1
    case KillChild => !s.proc.NotStarted? && s.watch.Selecting? && s.killTokens > 0
    case Reap => s.proc.Dead? && s.watch.Selecting?
    case PutStop => s.watch.GotExit? && s.stopTokens < 1
    case PutWait => s.watch.Stopped? && s.waitTokens < 1
    case Return => s.waiting > 0 && s.waitTokens > 0
  }

  function Step(s: State, l: Label): State {
    if !Enabled(s, l) then s
    else match l
      case Exit => s.(proc := Dead)
      case Call => s.(calls := s.calls + 1, calling := s.calling + 1)
      case PutToken => s.(calling := s.calling - 1, killTokens := s.killTokens + 1, waiting := s.waiting + 1)
      case KillChild => s.(killTokens := s.killTokens - 1, proc := if s.proc.Alive? then Dead else s.proc)
      case Reap => s.(proc := Reaped, watch := GotExit)
      case PutStop => s.(watch := Stopped, stopTokens := s.stopTokens + 1)
      case PutWait => s.(watch := Selecting, waitTokens := s.waitTokens + 1)
      case Return => s.(waiting := s.waiting - 1, waitTokens := s.waitTokens - 1, returned := s.returned + 1)
  }

  function Exec(s: State, ls: seq<Label>): State {
    if ls == [] then s else Step(Exec(s, ls[..|ls| - 1]), ls[|ls| - 1])
  }

  // ---- What every run keeps ----------------------------------------------

  function Reporting(s: State): nat {
    if s.watch.Selecting? then 0 else 1
  }

  /** One exit report is on its way or has been handed to a killer once the child is reaped: never two. */
  ghost predicate Inv(s: State) {
    && s.calls == s.calling + s.waiting + s.returned
    && s.killTokens <= 1 && s.killTokens <= s.waiting + s.returned
    && s.returned + s.waitTokens + Reporting(s) == (if s.proc.Reaped? then 1 else 0)
    && s.stopTokens == (if s.proc.Reaped? && !s.watch.GotExit? then 1 else 0)
    // The killer's token is still in the channel of a child that it has not reached.
    && (s.proc.NotStarted? || s.proc.Alive? ==> s.waiting == s.killTokens)
  }

  lemma StepInv(s: State, l: Label)
    requires Inv(s)
    ensures Inv(Step(s, l))
    ensures Step(s, l).proc.NotStarted? <==> s.proc.NotStarted?
  {
    match l
    case Exit =>
    case Call =>
    case PutToken =>
    case KillChild =>
    case Reap =>
    case PutStop =>
    case PutWait =>
    case Return =>
  }

  lemma {:induction false} ExecKeepsInv(s: State, ls: seq<Label>)
    requires Inv(s)
    ensures Inv(Exec(s, ls))
    ensures Exec(s, ls).proc.NotStarted? <==> s.proc.NotStarted?
  {
    hide Inv, Step;
    if ls != [] {
      ExecKeepsInv(s, ls[..|ls| - 1]);
      StepInv(Exec(s, ls[..|ls| - 1]), ls[|ls| - 1]);
    }
  }

  lemma ExecInv(started: bool, ls: seq<Label>)
    ensures Inv(Exec(Run(started), ls))
    ensures Exec(Run(started), ls).proc.NotStarted? <==> !started
  {
    hide Step;
    ExecKeepsInv(Run(started), ls);
  }

  /** At most one Kill ever returns, only after the child has been waited for, and none if the child
      was never started. */
  lemma OneKillReturns(started: bool, ls: seq<Label>)
    ensures var s := Exec(Run(started), ls);
            && s.returned <= (if started then 1 else 0)
            && (s.returned > 0 ==> s.proc.Reaped?)
  {
    ExecInv(started, ls);
  }

  /** The watching loop never waits for room in the channels it reports on. */
  lemma ReportsNeverBlock(started: bool, ls: seq<Label>)
    ensures var s := Exec(Run(started), ls);
            && (s.watch.GotExit? ==> Enabled(s, PutStop))
            && (s.watch.Stopped? ==> Enabled(s, PutWait))
  {
    ExecInv(started, ls);
  }

  // ---- When every Kill can return ----------------------------------------

  function Potential(s: State): nat {
    (match s.proc case Alive => 5 case Dead => 4 case _ => 0)
    + (match s.watch case Selecting => 0 case GotExit => 2 case Stopped => 1)
    + 3 * s.calling + s.killTokens + s.waiting
  }

  /** While a started child's only Kill is outstanding, the machinery has a step to take that brings its
      return nearer. */
  lemma KillAdvances(s: State) returns (l: Label)
    requires Inv(s) && !s.proc.NotStarted? && s.calls == 1 && s.returned == 0
    ensures l != Exit && l != Call && Enabled(s, l) && Potential(Step(s, l)) < Potential(s)
    ensures Step(s, l).calls == 1
  {
    if s.calling > 0 {
      l := PutToken;
    } else if s.watch.GotExit? {
      l := PutStop;
    } else if s.watch.Stopped? {
      l := PutWait;
    } else if s.waitTokens > 0 {
      l := Return;
    } else if s.proc.Dead? {
      l := Reap;
    } else {
      l := KillChild;
    }
  }

  /** Every step but a new call uses potential up. */
  lemma PotentialFalls(s: State, l: Label)
    requires Enabled(s, l) && l != Call
    ensures Potential(Step(s, l)) < Potential(s)
  {
  }

  /** Steps that all happen, whoever chooses them, with no further call of Kill. */
  ghost predicate Happens(s: State, ls: seq<Label>)
    decreases |ls|
  {
    ls == [] || (Enabled(s, ls[0]) && ls[0] != Call && Happens(Step(s, ls[0]), ls[1..]))
  }

  /** Nothing can happen but a new call or the child's own death. */
  ghost predicate AtRest(s: State) {
    forall l :: Enabled(s, l) ==> l == Call || l == Exit
  }

  lemma {:induction false} HappensWithinPotential(s: State, ls: seq<Label>)
    requires Inv(s) && Happens(s, ls)
    ensures Inv(Exec(s, ls)) && Exec(s, ls).calls == s.calls
    ensures Exec(s, ls).proc.NotStarted? <==> s.proc.NotStarted?
    ensures |ls| + Potential(Exec(s, ls)) <= Potential(s)
    decreases |ls|
  {
    if ls != [] {
      PotentialFalls(s, ls[0]);
      StepInv(s, ls[0]);
      HappensWithinPotential(Step(s, ls[0]), ls[1..]);
      ExecFirst(s, ls[0], ls[1..]);
      assert [ls[0]] + ls[1..] == ls;
    }
  }

  /** The only Kill on a started child returns under every schedule that keeps taking steps: there are at
      most as many as the potential allows, and while it has not returned there is one more to take. */
  lemma KillReturnsUnderAnySchedule(s: State, ls: seq<Label>)
    requires Inv(s) && !s.proc.NotStarted? && s.calls == 1 && Happens(s, ls)
    ensures |ls| <= Potential(s)
    ensures AtRest(Exec(s, ls)) ==> Exec(s, ls).returned == 1 && Exec(s, ls).proc.Reaped?
  {
    HappensWithinPotential(s, ls);
    if AtRest(Exec(s, ls)) && Exec(s, ls).returned == 0 {
      var l := KillAdvances(Exec(s, ls));
    }
  }

  ghost predicate NoNewCalls(ls: seq<Label>) {
    Call !in ls
  }

  lemma {:induction false} KillCompletes(s: State) returns (ls: seq<Label>)
    requires Inv(s) && !s.proc.NotStarted? && s.calls == 1
    ensures NoNewCalls(ls) && Exec(s, ls).returned == 1
    decreases Potential(s)
  {
    if s.returned == 1 {
      return [];
    }
    var l := KillAdvances(s);
    var rest := KillCompletes(Step(s, l));
    ls := [l] + rest;
    ExecFirst(s, l, rest);
  }

  lemma {:induction false} ExecFirst(s: State, l: Label, rest: seq<Label>)
    ensures Exec(s, [l] + rest) == Exec(Step(s, l), rest)
    decreases |rest|
  {
    if rest == [] {
      assert [l] + rest == [l] && [l][..0] == [];
      assert Exec(s, []) == s;
    } else {
      assert ([l] + rest)[..|rest|] == [l] + rest[..|rest| - 1];
      ExecFirst(s, l, rest[..|rest| - 1]);
    }
  }

  lemma {:induction false} CallsFixed(s: State, ls: seq<Label>)
    requires NoNewCalls(ls)
    ensures Exec(s, ls).calls == s.calls
  {
    if ls != [] {
      CallsFixed(s, ls[..|ls| - 1]);
    }
  }

  lemma {:induction false} ExecConcat(s: State, a: seq<Label>, b: seq<Label>)
    ensures Exec(s, a + b) == Exec(Exec(s, a), b)
    decreases |b|
  {
    if b == [] {
      assert a + b == a;
    } else {
      assert (a + b)[..|a + b| - 1] == a + b[..|b| - 1];
      ExecConcat(s, a, b[..|b| - 1]);
    }
  }

  /** All Kill calls made so far can still return exactly when there was none, or just one on a child
      that was started. A second Kill, and any Kill of a child whose start failed, waits for ever. */
  lemma KillsReturnIff(started: bool, ls: seq<Label>)
    ensures var s := Exec(Run(started), ls);
            (exists more :: NoNewCalls(more) && Exec(s, more).returned == s.calls)
              <==> s.calls == 0 || (started && s.calls == 1)
  {
    var s := Exec(Run(started), ls);
    ExecInv(started, ls);
    if s.calls == 0 {
      assert NoNewCalls([]) && Exec(s, []).returned == 0;
    } else if started && s.calls == 1 {
      var more := KillCompletes(s);
    } else {
      forall more | NoNewCalls(more)
        ensures Exec(s, more).returned != s.calls
      {
        ExecConcat(Run(started), ls, more);
        OneKillReturns(started, ls + more);
      }
    }
  }
}

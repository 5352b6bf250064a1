/** Ownership of a process held before its first instruction: whatever goes wrong, dropping the owner kills it. */
module SuspendedSpawn {
  import opened Wrappers

  datatype SpawnState = Suspending | Suspended | Running | Terminating | Terminated

  datatype Observation = SeenRunning | SeenStopped | SeenExited

  datatype GateState = Held | Released | GateTerminated

  /** A FrontBoard gate may lack a status command; asking it then fails. */
  datatype Gate = NoGate | SimulatorWait | FrontBoardScene(hasStatusCommand: bool)

  /** How a resume or terminate action can end. */
  datatype Acting = Done | NoSuchProcess | ActionFailed

  const MAX_TIMEOUT := 60_000_000_000  // nanoseconds

  datatype Options = Options(timeout: nat, poll: nat)

  predicate ValidOptions(o: Options) {
    0 < o.timeout <= MAX_TIMEOUT && 0 < o.poll <= o.timeout
  }

  // ---- waiting -------------------------------------------------------------------------------------------

  /** The clock never runs backwards, sleeping takes at least as long as asked, and observing may fail. */
  class Watch {
    var now: nat
    var ticks: nat
    var seen: seq<Option<Observation>>  // every observation so far, `None` for one that failed
    const script: nat -> Option<Observation>
    const drift: nat -> nat

    constructor (script: nat -> Option<Observation>, drift: nat -> nat)
      ensures seen == []
    {
      now, ticks, seen, this.script, this.drift := 0, 0, [], script, drift;
    }

    method Now() returns (t: nat)
      modifies this`now, this`ticks
      ensures old(now) <= now == t
    {
      now, ticks := now + drift(ticks), ticks + 1;
      t := now;
    }

    method Sleep(d: nat)
      modifies this`now, this`ticks
      ensures old(now) + d <= now
    {
      now, ticks := now + d + drift(ticks), ticks + 1;
    }

    method Observe() returns (o: Option<Observation>)
      modifies this`now, this`ticks, this`seen
      ensures old(now) <= now && seen == old(seen) + [o]
    {
      o := script(|seen|);
      now, ticks, seen := now + drift(ticks), ticks + 1, seen + [o];
    }
  }

  function Rounds(o: Options): nat
    requires 0 < o.poll
  {
    (o.timeout + o.poll - 1) / o.poll
  }

  lemma RoundsSuffice(o: Options, k: nat, slept: nat)
    requires 0 < o.poll && slept == k * o.poll && slept < o.timeout
    ensures k + 1 <= Rounds(o)
  {
    var n := o.timeout + o.poll - 1;
    assert n == o.poll * (n / o.poll) + n % o.poll;
    assert o.poll * Rounds(o) > o.poll * k;
  }

  /**
   Polls until an observation is wanted or the deadline has passed.  The result is the last observation; all the
   earlier ones were unwanted; and there are at most one more of them than the timeout has poll intervals.
   */
  method WaitFor(watch: Watch, options: Options, wanted: set<Observation>)
    returns (r: Option<Observation>, ghost deadline: nat)
    requires ValidOptions(options)
    modifies watch
    ensures old(watch.now) + options.timeout <= deadline
    ensures |old(watch.seen)| < |watch.seen| && old(watch.seen) <= watch.seen
    ensures |watch.seen| - |old(watch.seen)| <= Rounds(options) + 1
    ensures r == watch.seen[|watch.seen| - 1]
    ensures r.Some? ==> r.value in wanted || deadline <= watch.now
    ensures forall i | |old(watch.seen)| <= i < |watch.seen| - 1 :: watch.seen[i].Some? && watch.seen[i].value !in wanted
  {
    var start := watch.Now();
    deadline := start + options.timeout;
    var limit := start + options.timeout;
    ghost var k: nat := 0;
    ghost var slept: nat := 0;
    while true
      invariant slept == k * options.poll
      invariant |watch.seen| == |old(watch.seen)| + k && old(watch.seen) <= watch.seen
      invariant forall i | |old(watch.seen)| <= i < |watch.seen| :: watch.seen[i].Some? && watch.seen[i].value !in wanted
      invariant k <= Rounds(options)
      invariant start + slept <= watch.now || limit <= watch.now
      decreases Rounds(options) - k
    {
      r := watch.Observe();
      if r.None? || r.value in wanted {
        return;
      }
      var checked := watch.Now();
      if checked >= limit {
        return;
      }
      assert slept < options.timeout;
      RoundsSuffice(options, k, slept);
      var later := watch.Now();
      var remaining := if later < limit then limit - later else 0;
      watch.Sleep(if options.poll < remaining then options.poll else remaining);
      assert (k + 1) * options.poll == slept + options.poll;
      k, slept := k + 1, slept + options.poll;
    }
  }

  /** What `WaitFor` promises: `waited` is what the watch saw last, and anything unwanted took until the deadline. */
  ghost predicate Waited(watch: Watch, seen: seq<Option<Observation>>, since: nat, options: Options,
                         wanted: set<Observation>, waited: Option<Observation>)
    reads watch
  {
    && |seen| < |watch.seen| && seen <= watch.seen
    && waited == watch.seen[|watch.seen| - 1]
    && (waited.Some? && waited.value !in wanted ==> since + options.timeout <= watch.now)
    && (forall i | |seen| <= i < |watch.seen| - 1 :: watch.seen[i].Some? && watch.seen[i].value !in wanted)
  }

  // ---- the owner -----------------------------------------------------------------------------------------

  datatype Owner = Owner(state: SpawnState, releasedToCaller: bool, gate: Gate)

  /** One call on the owner, with everything the outside world answered to it. */
  datatype Operation =
    | ConfirmSuspended(waited: Option<Observation>)
    | ConfirmInitialSuspension(observed: Option<Observation>, status: Option<GateState>)
    | Resume(resuming: Acting, status: Option<GateState>)
    | Terminate(terminating: Acting, waited: Option<Observation>)

  function AskGate(gate: Gate, status: Option<GateState>): Option<GateState> {
    if gate.FrontBoardScene? && gate.hasStatusCommand then status else None
  }

  function AfterConfirm(o: Owner, waited: Option<Observation>): (Owner, bool) {
    match waited
    case Some(SeenStopped) => (o.(state := Suspended), true)
    case Some(SeenExited) => (o.(state := Terminated), false)
    case _ => (o, false)
  }

  function AfterConfirmInitial(o: Owner, observed: Option<Observation>, status: Option<GateState>): (Owner, bool) {
    match o.gate
    case NoGate => (o, false)
    case SimulatorWait => AfterConfirm(o, observed)
    case FrontBoardScene(_) =>
      if observed.None? then (o, false)
      else if observed.value == SeenExited then (o.(state := Terminated), false)
      else match AskGate(o.gate, status)
        case None => (o, false)
        case Some(Held) => (o.(state := Suspended), true)
        case Some(Released) => (o.(state := Running), false)
        case Some(GateTerminated) => (o.(state := Terminated), false)
  }

  function AfterResume(o: Owner, resuming: Acting, status: Option<GateState>): (Owner, bool) {
    if o.state != Suspended then (o, o.state == Running && o.releasedToCaller)
    else match resuming
      case NoSuchProcess => (o.(state := Terminated), false)
      case ActionFailed => (o, false)
      case Done =>
        if !o.gate.FrontBoardScene? || AskGate(o.gate, status) == Some(Released) then
          (o.(state := Running, releasedToCaller := true), true)
        else if AskGate(o.gate, status) == Some(GateTerminated) then (o.(state := Terminated), false)
        else (o, false)
  }

  function AfterTerminate(o: Owner, terminating: Acting, waited: Option<Observation>): (Owner, bool) {
    if o.state == Terminated then (o, true)
    else
      var kept := o.(releasedToCaller := false);
      if o.state != Terminating && terminating == NoSuchProcess then (kept.(state := Terminated), true)
      else if o.state != Terminating && terminating == ActionFailed then (kept, false)
      else if waited == Some(SeenExited) then (kept.(state := Terminated), true)
      else (kept.(state := Terminating), false)
  }

  function After(o: Owner, op: Operation): (Owner, bool) {
    match op
    case ConfirmSuspended(waited) => AfterConfirm(o, waited)
    case ConfirmInitialSuspension(observed, status) => AfterConfirmInitial(o, observed, status)
    case Resume(resuming, status) => AfterResume(o, resuming, status)
    case Terminate(terminating, waited) => AfterTerminate(o, terminating, waited)
  }

  /** What the launcher's control layer is asked to do to the process. */
  datatype Control = SendResume | SendTerminate | QueryStatus

  function Sends(o: Owner, op: Operation): seq<Control> {
    var query := if o.gate.FrontBoardScene? && o.gate.hasStatusCommand then [QueryStatus] else [];
    match op
    case ConfirmSuspended(_) => []
    case ConfirmInitialSuspension(observed, _) =>
      if observed in {Some(SeenRunning), Some(SeenStopped)} then query else []
    case Resume(resuming, _) =>
      if o.state != Suspended then [] else [SendResume] + if resuming == Done then query else []
    case Terminate(_, _) => if o.state in {Terminating, Terminated} then [] else [SendTerminate]
  }

  /** Dropping the owner leaves the process alone; otherwise it is told to terminate. */
  predicate DropSpares(o: Owner) {
    o.releasedToCaller || o.state == Terminated
  }

  class SpawnOwner {
    var state: SpawnState
    var releasedToCaller: bool
    const gate: Gate
    const options: Options
    ghost var sent: seq<Control>  // every control action so far

    function Contents(): Owner
      reads this
    {
      Owner(state, releasedToCaller, gate)
    }

    constructor (state: SpawnState, gate: Gate, options: Options)
      requires ValidOptions(options)
      ensures Contents() == Owner(state, false, gate) && this.options == options && sent == []
    {
      this.state, this.releasedToCaller, this.gate, this.options, sent := state, false, gate, options, [];
    }

    method ConfirmSuspended(watch: Watch) returns (ok: bool, ghost waited: Option<Observation>)
      requires ValidOptions(options)
      modifies this`state, watch
      ensures (Contents(), ok) == After(old(Contents()), Operation.ConfirmSuspended(waited))
      ensures Waited(watch, old(watch.seen), old(watch.now), options, {SeenStopped, SeenExited}, waited)
    {
      var observation, deadline := WaitFor(watch, options, {SeenStopped, SeenExited});
      waited := observation;
      if observation == Some(SeenStopped) {
        state := Suspended;
        return true, waited;
      }
      if observation == Some(SeenExited) {
        state := Terminated;
      }
      ok := false;
    }

    method ConfirmInitialSuspension(watch: Watch, status: Option<GateState>)
      returns (ok: bool, ghost observed: Option<Observation>)
      requires ValidOptions(options)
      modifies this`state, this`sent, watch
      ensures (Contents(), ok) == After(old(Contents()), Operation.ConfirmInitialSuspension(observed, status))
      ensures sent == old(sent) + Sends(old(Contents()), Operation.ConfirmInitialSuspension(observed, status))
      ensures match gate
              case NoGate => watch.seen == old(watch.seen) && observed == None
              case SimulatorWait =>
                Waited(watch, old(watch.seen), old(watch.now), options, {SeenStopped, SeenExited}, observed)
              case FrontBoardScene(_) => watch.seen == old(watch.seen) + [observed]
    {
      match gate {
        case NoGate =>
          return false, None;
        case SimulatorWait =>
          ok, observed := ConfirmSuspended(watch);
        case FrontBoardScene(_) =>
          var observation := watch.Observe();
          observed := observation;
          if observation.None? {
            return false, observed;
          }
          if observation.value == SeenExited {
            state := Terminated;
            return false, observed;
          }
          sent := sent + if gate.hasStatusCommand then [QueryStatus] else [];
          match AskGate(gate, status) {
            case None => ok := false;
            case Some(Held) => state := Suspended; ok := true;
            case Some(Released) => state := Running; ok := false;
            case Some(GateTerminated) => state := Terminated; ok := false;
          }
      }
    }

    method Resume(resuming: Acting, status: Option<GateState>) returns (ok: bool)
      modifies this`state, this`releasedToCaller, this`sent
      ensures (Contents(), ok) == After(old(Contents()), Operation.Resume(resuming, status))
      ensures sent == old(sent) + Sends(old(Contents()), Operation.Resume(resuming, status))
    {
      if state != Suspended {
        return state == Running && releasedToCaller;
      }
      sent := sent + [SendResume];
      match resuming {
        case NoSuchProcess =>
          state := Terminated;
          return false;
        case ActionFailed =>
          return false;
        case Done =>
          if gate.FrontBoardScene? {
            sent := sent + if gate.hasStatusCommand then [QueryStatus] else [];
            match AskGate(gate, status) {
              case None => return false;
              case Some(Released) =>
              case Some(Held) => return false;
              case Some(GateTerminated) => state := Terminated; return false;
            }
          }
          state := Running;
          releasedToCaller := true;
          return true;
      }
    }

    method Terminate(terminating: Acting, watch: Watch) returns (ok: bool, ghost waited: Option<Observation>)
      requires ValidOptions(options)
      modifies this`state, this`releasedToCaller, this`sent, watch
      ensures (Contents(), ok) == After(old(Contents()), Operation.Terminate(terminating, waited))
      ensures sent == old(sent) + Sends(old(Contents()), Operation.Terminate(terminating, waited))
      ensures if old(state) == Terminating || (old(state) != Terminated && terminating == Done) then
                && Waited(watch, old(watch.seen), old(watch.now), options, {SeenExited}, waited)
                && (ok <==> watch.seen[|watch.seen| - 1] == Some(SeenExited))
                && state == if ok then Terminated else Terminating
              else watch.seen == old(watch.seen) && waited == None
    {
      waited := None;
      if state == Terminated {
        return true, waited;
      }
      releasedToCaller := false;
      if state != Terminating {
        sent := sent + [SendTerminate];
        match terminating {
          case Done => state := Terminating;
          case NoSuchProcess => state := Terminated; return true, waited;
          case ActionFailed => return false, waited;
        }
      }
      var observation, deadline := WaitFor(watch, options, {SeenExited});
      waited := observation;
      if observation == Some(SeenExited) {
        state := Terminated;
        return true, waited;
      }
      ok := false;
    }

    method Drop() returns (killed: bool)
      modifies this`state, this`sent
      ensures killed <==> !DropSpares(old(Contents()))
      ensures state == if killed then Terminating else old(state)
      ensures sent == old(sent) + if killed then [SendTerminate] else []
    {
      killed := !releasedToCaller && state != Terminated;
      if killed {
        sent := sent + [SendTerminate];
        state := Terminating;
      }
    }
  }

  // ---- what an answer means ------------------------------------------------------------------------------

  /** The operation was told that the process is held before its first instruction. */
  predicate SaysHeld(o: Owner, op: Operation) {
    match op
    case ConfirmSuspended(waited) => waited == Some(SeenStopped)
    case ConfirmInitialSuspension(observed, status) =>
      || (o.gate.SimulatorWait? && observed == Some(SeenStopped))
      || (o.gate.FrontBoardScene? && observed in {Some(SeenRunning), Some(SeenStopped)}
          && o.gate.hasStatusCommand && status == Some(Held))
    case _ => false
  }

  /** The gate's provider said, before any resume, that the process already runs. */
  predicate SaysLetGo(o: Owner, op: Operation) {
    && op.ConfirmInitialSuspension? && op.observed in {Some(SeenRunning), Some(SeenStopped)}
    && o.gate.FrontBoardScene? && o.gate.hasStatusCommand && op.status == Some(Released)
  }

  /** The process was told to terminate, now or before, and has not been seen to be gone. */
  predicate StillGoing(o: Owner, op: Operation) {
    && op.Terminate? && op.waited != Some(SeenExited)
    && (o.state == Terminating || (o.state != Terminated && op.terminating == Done))
  }

  /** The state that the answers to this operation tell of, if they tell of any. */
  function Told(o: Owner, op: Operation): Option<SpawnState> {
    if SaysHeld(o, op) then Some(Suspended)
    else if SaysLetGo(o, op) || Releases(o, op) then Some(Running)
    else if SaysGone(o, op) then Some(Terminated)
    else if StillGoing(o, op) then Some(Terminating)
    else None
  }

  lemma StateFollowsAnswers(o: Owner, op: Operation)
    ensures After(o, op).0.state == if Told(o, op).Some? then Told(o, op).value else o.state
  {
  }

  /** An operation reports success exactly when the owner has what was asked for. */
  lemma SuccessMeans(o: Owner, op: Operation)
    ensures var (after, ok) := After(o, op);
            ok <==>
              match op
              case ConfirmSuspended(_) => SaysHeld(o, op)
              case ConfirmInitialSuspension(_, _) => SaysHeld(o, op)
              case Resume(_, _) => after.state == Running && after.releasedToCaller
              case Terminate(_, _) => after.state == Terminated
  {
  }

  // ---- all sequences of operations -----------------------------------------------------------------------

  function Run(o: Owner, ops: seq<Operation>): Owner {
    if ops == [] then o else After(Run(o, ops[..|ops| - 1]), ops[|ops| - 1]).0
  }

  predicate Attempts(o: Owner, op: Operation) {
    op.Terminate? && o.state != Terminated
  }

  /** A resume that went through, confirmed by the provider where a FrontBoard gate exists. */
  predicate Releases(o: Owner, op: Operation) {
    && op.Resume? && o.state == Suspended && op.resuming == Done
    && (o.gate.FrontBoardScene? ==> o.gate.hasStatusCommand && op.status == Some(Released))
  }

  ghost predicate ReleasedSince(o: Owner, ops: seq<Operation>, i: nat) {
    && i < |ops|
    && Releases(Run(o, ops[..i]), ops[i])
    && forall j | i < j < |ops| :: !Attempts(Run(o, ops[..j]), ops[j])
  }

  lemma OneOperation(o: Owner, op: Operation)
    ensures After(o, op).0.gate == o.gate
    ensures After(o, op).0.releasedToCaller <==> Releases(o, op) || (!Attempts(o, op) && o.releasedToCaller)
  {
  }

  /** Being released since operation `i` survives exactly the operations that do not attempt to terminate. */
  lemma SinceOneMore(o: Owner, ops: seq<Operation>, i: nat)
    requires i < |ops| - 1
    ensures var before := ops[..|ops| - 1];
            ReleasedSince(o, ops, i) <==> ReleasedSince(o, before, i) && !Attempts(Run(o, before), ops[|ops| - 1])
  {
    hide Run, Attempts, Releases;
    var before := ops[..|ops| - 1];
    assert forall j | 0 <= j < |before| :: before[j] == ops[j] && before[..j] == ops[..j];
  }

  lemma {:induction false} ReleasedExactly(o: Owner, ops: seq<Operation>)
    requires !o.releasedToCaller
    ensures Run(o, ops).gate == o.gate
    ensures Run(o, ops).releasedToCaller <==> exists i :: ReleasedSince(o, ops, i)
  {
    hide After, Attempts, Releases;
    if ops != [] {
      var n := |ops| - 1;
      var (before, last) := (ops[..n], ops[n]);
      ReleasedExactly(o, before);
      OneOperation(Run(o, before), last);
      forall i: nat | i < n
        ensures ReleasedSince(o, ops, i) <==> ReleasedSince(o, before, i) && !Attempts(Run(o, before), last)
      {
        SinceOneMore(o, ops, i);
      }
      assert ReleasedSince(o, ops, n) <==> Releases(Run(o, before), last);
    }
  }

  /**
   After any sequence of operations, dropping the owner spares the process in exactly two cases: it is recorded as
   terminated, or an earlier resume went through and nobody has tried to terminate it since.
   */
  lemma DropFailsClosed(o: Owner, ops: seq<Operation>)
    requires !o.releasedToCaller
    ensures DropSpares(Run(o, ops)) <==> Run(o, ops).state == Terminated || exists i :: ReleasedSince(o, ops, i)
  {
    ReleasedExactly(o, ops);
  }

  /** The state is always the one last told of; `last` is when that was, or -1 if it is the one from the start. */
  lemma {:induction false} StateIsLastTold(o: Owner, ops: seq<Operation>) returns (last: int)
    ensures -1 <= last < |ops|
    ensures if last == -1 then Run(o, ops).state == o.state
            else Told(Run(o, ops[..last]), ops[last]) == Some(Run(o, ops).state)
    ensures forall j | last < j < |ops| :: Told(Run(o, ops[..j]), ops[j]) == None
  {
    hide After, Told;
    last := -1;
    if ops != [] {
      var n := |ops| - 1;
      var before := Run(o, ops[..n]);
      StateFollowsAnswers(before, ops[n]);
      if Told(before, ops[n]).Some? {
        last := n;
      } else {
        last := StateIsLastTold(o, ops[..n]);
        assert forall j | 0 <= j < n :: ops[..n][..j] == ops[..j];
      }
    }
  }

  // ---- why a process counts as gone ----------------------------------------------------------------------

  /** The outside world said, in answer to this operation, that the process no longer exists. */
  predicate SaysGone(o: Owner, op: Operation) {
    match op
    case ConfirmSuspended(waited) => waited == Some(SeenExited)
    case ConfirmInitialSuspension(observed, status) =>
      match o.gate {
        case NoGate => false
        case SimulatorWait => observed == Some(SeenExited)
        case FrontBoardScene(_) =>
          observed == Some(SeenExited) || (observed.Some? && AskGate(o.gate, status) == Some(GateTerminated))
      }
    case Resume(resuming, status) =>
      o.state == Suspended
      && (resuming == NoSuchProcess || (resuming == Done && AskGate(o.gate, status) == Some(GateTerminated)))
    case Terminate(terminating, waited) =>
      o.state != Terminated
      && if o.state == Terminating then waited == Some(SeenExited)
         else terminating == NoSuchProcess || (terminating == Done && waited == Some(SeenExited))
  }

  ghost predicate SaidGone(o: Owner, ops: seq<Operation>, i: nat) {
    i < |ops| && SaysGone(Run(o, ops[..i]), ops[i])
  }

  lemma OneGone(o: Owner, op: Operation)
    ensures SaysGone(o, op) ==> After(o, op).0.state == Terminated
    ensures After(o, op).0.state == Terminated ==> SaysGone(o, op) || o.state == Terminated
  {
  }

  lemma {:induction false} TerminatedWasSaid(o: Owner, ops: seq<Operation>) returns (i: nat)
    requires o.state != Terminated && Run(o, ops).state == Terminated
    ensures SaidGone(o, ops, i)
  {
    hide After, SaysGone;
    var n := |ops| - 1;
    OneGone(Run(o, ops[..n]), ops[n]);
    if SaysGone(Run(o, ops[..n]), ops[n]) {
      i := n;
    } else {
      i := TerminatedWasSaid(o, ops[..n]);
      assert ops[..n][..i] == ops[..i];
    }
  }

  /** A process is spared only on evidence: somebody said it is gone, or it was released and never taken back. */
  lemma SparedOnlyOnEvidence(o: Owner, ops: seq<Operation>)
    requires !o.releasedToCaller && o.state != Terminated && DropSpares(Run(o, ops))
    ensures (exists i :: SaidGone(o, ops, i)) || (exists i :: ReleasedSince(o, ops, i))
  {
    hide After, SaysGone, Releases, Attempts;
    DropFailsClosed(o, ops);
    if Run(o, ops).state == Terminated {
      var i := TerminatedWasSaid(o, ops);
    }
  }
}

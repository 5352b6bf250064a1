/** Safety of the session protocol over whole runs, with replies lost anywhere and threads interleaved freely. */
module SessionTheorems {
  import opened Wrappers
  import opened HookCommand
  import opened AgentRegistry
  import opened SessionProtocol
  import opened SessionInvariant
  import opened SessionSteps

  datatype Trace = Trace(states: seq<Sys>, steps: seq<Step>)

  /** A session from its creation on, against an agent that may already have served other clients. */
  ghost predicate IsRun(r: Trace) {
    && |r.states| == |r.steps| + 1
    && r.states[0] == Start(r.states[0].owner, r.states[0].agent)
    && Kept(r.states[0].agent)
    && forall i | 0 <= i < |r.steps| :: Enabled(r.states[i], r.steps[i]) && r.states[i + 1] == Apply(r.states[i], r.steps[i])
  }

  lemma {:induction false} RunInv(r: Trace, i: nat)
    requires IsRun(r) && i < |r.states|
    ensures Inv(r.states[i])
  {
    hide Inv, Enabled, Apply;
    if i == 0 {
      StartInv(r.states[0].owner, r.states[0].agent);
    } else {
      RunInv(r, i - 1);
      assert Enabled(r.states[i - 1], r.steps[i - 1]);
      StepInv(r.states[i - 1], r.steps[i - 1]);
    }
  }

  // ---- the controller and the agent ----------------------------------------------------------------------

  /** The controller never claims more progress for a hook than the agent has made. */
  lemma ControllerNeverAhead(r: Trace, i: nat, token: U64)
    requires IsRun(r) && i < |r.states| && token in r.states[i].session.hooks
    ensures var (agent, lease) := (r.states[i].agent, r.states[i].session.hooks[token]);
            && Known(agent, token)
            && AgentReceipt(agent, token).request == lease.receipt.request
            && AgentReceipt(agent, token).token == Some(token)
            && (HandleReleased(lease.receipt) ==> AgentReceipt(agent, token).life.ownership == Released)
            && (lease.target == Restored ==> AgentReceipt(agent, token).life.targetState == Restored)
  {
    hide Kept, SessionOk, PcOk, Exclusive;
    RunInv(r, i);
    assert LeaseBacked(r.states[i].agent, r.states[i].owner, token, r.states[i].session.hooks[token]);
  }

  predicate TargetForward(a: TargetState, b: TargetState) {
    a == b || b == Restored
  }

  /** One step forward for everything that has a direction. */
  ghost predicate Advanced(a: Sys, b: Sys) {
    && Grows(a.agent, b.agent)
    && (forall k | k in a.session.hooks ::
          && k in b.session.hooks
          && Forward(a.session.hooks[k].receipt, b.session.hooks[k].receipt)
          && TargetForward(a.session.hooks[k].target, b.session.hooks[k].target))
    && (a.session.state == Detached ==> b.session.state == Detached && b.session.hooks.Keys == a.session.hooks.Keys)
    && a.shutdowns <= b.shutdowns
  }

  lemma AdvancedSelf(a: Sys)
    ensures Advanced(a, a)
  {
  }

  lemma LeaseAdvanced(s: Sys, agent: Table, token: U64, lease: Lease)
    requires Grows(s.agent, agent) && token in s.session.hooks
    requires Forward(s.session.hooks[token].receipt, lease.receipt)
    requires TargetForward(s.session.hooks[token].target, lease.target)
    ensures Advanced(s, WithLease(s, agent, token, lease))
  {
    hide Grows;
  }

  /** Steps that may change the agent and no lease that is already there. */
  lemma AgentStepAdvances(s: Sys, step: Step)
    requires Inv(s) && Enabled(s, step)
    requires step.ExecuteCall? || step.Adopt? || step.OtherClient?
    ensures Advanced(s, Apply(s, step))
  {
    hide Kept, Grows, Backed, ReleaseLease, Call, Serve, SessionOk, Exclusive, LeaseBacked;
    GrowsSelf(s.agent);
    match step
    case ExecuteCall(t, native, delivery, _) =>
      CallGrows(s.agent, DoExecute(At(s, t).request), native, delivery);
    case Adopt(t, native, delivery) =>
      assert PcOk(s, At(s, t));
      ReleaseLeaseConverges(s.agent, s.owner, At(s, t).receipt.token.value, At(s, t).receipt, native, delivery);
    case OtherClient(command, native) =>
      ServeKeeps(s.agent, command, native);
  }

  /** Steps that change neither the agent nor a lease. */
  lemma QuietStepAdvances(s: Sys, step: Step)
    requires Inv(s) && Enabled(s, step)
    requires !(step.ExecuteCall? || step.Adopt? || step.OtherClient? || step.CleanOne? || step.ReleaseHook? || step.UninstallHook?)
    ensures Advanced(s, Apply(s, step))
  {
    hide Kept, Grows, Backed, LeaseBacked, Forward, ValidRequest;
    GrowsSelf(s.agent);
    ForwardSelf(s.session.hooks);
    if NoWriter(s) { GateHidesDetaching(s); }
    if step.FinishCleaning? || step.ShutDown? {
      assert PcOk(s, At(s, step.t));
    }
  }

  lemma ForwardSelf(hooks: map<U64, Lease>)
    ensures forall k | k in hooks :: Forward(hooks[k].receipt, hooks[k].receipt)
  {
  }

  lemma StepAdvances(s: Sys, step: Step)
    requires Inv(s) && Enabled(s, step)
    ensures Advanced(s, Apply(s, step))
  {
    hide Kept, Grows, Backed, ReleaseLease, UninstallLease, SessionOk, Exclusive, Advanced;
    match step
    case CleanOne(t, token, native, delivery) =>
      LeaseStepAdvances(s, token, native, delivery);
      AdvancedStaysOnGoto(s, token, native, delivery, t);
    case ReleaseHook(_, token, native, delivery) =>
      LeaseStepAdvances(s, token, native, delivery);
    case UninstallHook(_, token, native, delivery, again, redelivery) =>
      UninstallStepAdvances(s, token, native, delivery, again, redelivery);
    case ExecuteCall(_, _, _, _) => AgentStepAdvances(s, step);
    case Adopt(_, _, _) => AgentStepAdvances(s, step);
    case OtherClient(_, _) => AgentStepAdvances(s, step);
    case _ => QuietStepAdvances(s, step);
  }

  lemma AdvancedStaysOnGoto(s: Sys, token: U64, native: Native, delivery: Delivery, t: Tid)
    requires At(s, t).Cleaning? && token in s.session.hooks && s.session.hooks[token].receipt.token.Some?
    requires Advanced(s, AfterReleaseHook(s, token, native, delivery))
    ensures Advanced(s, AfterCleanOne(s, t, token, native, delivery))
  {
    hide Grows, ReleaseLease, Forward;
  }

  lemma CallGrows(agent: Table, command: Command, native: Native, delivery: Delivery)
    requires Kept(agent)
    ensures Grows(agent, Call(agent, command, native, delivery).0)
  {
    hide Kept, Grows, Serve;
    GrowsSelf(agent);
    ServeKeeps(agent, command, native);
  }

  lemma LeaseStepAdvances(s: Sys, token: U64, native: Native, delivery: Delivery)
    requires Inv(s) && token in s.session.hooks
    ensures s.session.hooks[token].receipt.token.Some?
    ensures var lease := s.session.hooks[token];
            var (agent, receipt, _) := ReleaseLease(s.agent, lease.receipt, native, delivery);
            Advanced(s, WithLease(s, agent, token, lease.(receipt := receipt)))
    ensures Advanced(s, AfterReleaseHook(s, token, native, delivery))
  {
    hide Kept, Grows, ReleaseLease, SessionOk, PcOk, Advanced;
    var lease := s.session.hooks[token];
    assert LeaseBacked(s.agent, s.owner, token, lease);
    ReleaseLeaseConverges(s.agent, s.owner, token, lease.receipt, native, delivery);
    var (agent, receipt, _) := ReleaseLease(s.agent, lease.receipt, native, delivery);
    LeaseAdvanced(s, agent, token, lease.(receipt := receipt));
  }

  lemma UninstallStepAdvances(s: Sys, token: U64, native: Native, delivery: Delivery, again: Native, redelivery: Delivery)
    requires Inv(s) && token in s.session.hooks && s.session.hooks[token].receipt.token.Some?
    ensures Advanced(s, AfterUninstallHook(s, token, native, delivery, again, redelivery))
  {
    hide Kept, Grows, ReleaseLease, UninstallLease, SessionOk, PcOk, Advanced;
    var lease := s.session.hooks[token];
    assert LeaseBacked(s.agent, s.owner, token, lease);
    AdvancedSelf(s);
    if !HandleReleased(lease.receipt) {
      UninstallLeaseConverges(s.agent, s.owner, token, lease.receipt, native, delivery);
      var (agent, receipt, result) := UninstallLease(s.agent, lease.receipt, native, delivery);
      LeaseAdvanced(s, agent, token, Lease(receipt, if result.Success? then Restored else lease.target));
    }
  }

  lemma AdvancedOn(a: Sys, b: Sys, c: Sys)
    requires Advanced(a, b) && Advanced(b, c)
    ensures Advanced(a, c)
  {
    GrowsOn(a.agent, b.agent, c.agent);
    hide Grows;
  }

  /** Over any stretch of a run: leases, receipts and target states only move forward; Detached is final. */
  lemma {:induction false} OnlyForward(r: Trace, i: nat, j: nat)
    requires IsRun(r) && i <= j < |r.states|
    ensures Advanced(r.states[i], r.states[j])
    decreases j
  {
    hide Advanced, Enabled, Apply, Inv;
    if i == j {
      AdvancedSelf(r.states[i]);
    } else {
      OnlyForward(r, i, j - 1);
      RunInv(r, j - 1);
      assert Enabled(r.states[j - 1], r.steps[j - 1]);
      StepAdvances(r.states[j - 1], r.steps[j - 1]);
      AdvancedOn(r.states[i], r.states[j - 1], r.states[j]);
    }
  }

  /** A detached session holds no backend and no live hook, from then on, in the controller and in the agent. */
  lemma DetachedForGood(r: Trace, i: nat, j: nat, token: U64)
    requires IsRun(r) && i <= j < |r.states| && r.states[i].session.state == Detached
    ensures r.states[j].session.state == Detached && r.states[j].session.backend == None
    ensures r.states[j].session.hooks.Keys == r.states[i].session.hooks.Keys
    ensures token in r.states[j].session.hooks ==>
              && HandleReleased(r.states[j].session.hooks[token].receipt)
              && Known(r.states[j].agent, token)
              && AgentReceipt(r.states[j].agent, token).life.ownership == Released
  {
    OnlyForward(r, i, j);
    RunInv(r, j);
    hide IsRun, Kept, PcOk, Grows;
    if token in r.states[j].session.hooks {
      assert LeaseBacked(r.states[j].agent, r.states[j].owner, token, r.states[j].session.hooks[token]);
    }
  }

  // ---- identity ------------------------------------------------------------------------------------------

  /** A session holds at most one lease for a request, whatever replies were lost and repeated. */
  lemma OneLeasePerRequest(r: Trace, i: nat, a: U64, b: U64)
    requires IsRun(r) && i < |r.states| && a in r.states[i].session.hooks && b in r.states[i].session.hooks
    requires r.states[i].session.hooks[a].receipt.request.requestId == r.states[i].session.hooks[b].receipt.request.requestId
    ensures a == b
  {
    RunInv(r, i);
    hide IsRun, WellKept, WellRejected, PcOk, SessionOk;
    var s := r.states[i];
    assert LeaseBacked(s.agent, s.owner, a, s.session.hooks[a]);
    assert LeaseBacked(s.agent, s.owner, b, s.session.hooks[b]);
  }

  /**
   When an execute reply is adopted, its token is either new to the session or comes with a lease for the very
   same request, so the duplicate-token branch, which would release a live hook, is never taken.
   */
  lemma DuplicateTokenUnreachable(r: Trace, i: nat, t: Tid)
    requires IsRun(r) && i < |r.states| && At(r.states[i], t).Adopting?
    ensures var (hooks, receipt) := (r.states[i].session.hooks, At(r.states[i], t).receipt);
            && receipt.token.Some? && receipt.token.value != 0
            && (receipt.token.value in hooks ==> hooks[receipt.token.value].receipt.request == At(r.states[i], t).request)
            && (receipt.token.value in hooks <==> HasRequest(hooks, At(r.states[i], t).request.requestId))
  {
    RunInv(r, i);
    hide IsRun, WellKept, WellRejected, SessionOk, Exclusive;
    var s := r.states[i];
    var (request, receipt) := (At(s, t).request, At(s, t).receipt);
    assert PcOk(s, At(s, t));
    var token := receipt.token.value;
    if token in s.session.hooks {
      assert LeaseBacked(s.agent, s.owner, token, s.session.hooks[token]);
      TokenIdentifiesRequest(s.agent, s.owner, token, s.session.hooks[token].receipt, receipt);
    }
    if HasRequest(s.session.hooks, request.requestId) {
      var k :| k in s.session.hooks && s.session.hooks[k].receipt.request.requestId == request.requestId;
      assert LeaseBacked(s.agent, s.owner, k, s.session.hooks[k]);
    }
  }

  /** A lease's own release or uninstall is never told that the token is unknown, foreign or without a handle. */
  lemma OwnActionsNeverRefused(r: Trace, i: nat, token: U64, native: Native)
    requires IsRun(r) && i < |r.states| && token in r.states[i].session.hooks
    ensures var (agent, owner) := (r.states[i].agent, r.states[i].session.hooks[token].receipt.request.ownerId);
            var (released, uninstalled) :=
              (Serve(agent, DoRelease(owner, token), native).1, Serve(agent, DoUninstall(owner, token), native).1);
            && (released.ErrorReply? ==> released.code == AdapterFailed)
            && (uninstalled.ErrorReply? ==> uninstalled.code in {AlreadyReleased, NativeUninstallUnavailable, AdapterFailed})
  {
    hide IsRun, Kept, SessionOk, PcOk, Exclusive, Serve;
    RunInv(r, i);
    var s := r.states[i];
    assert LeaseBacked(s.agent, s.owner, token, s.session.hooks[token]);
    BackedFacts(s.agent, s.owner, token, s.session.hooks[token].receipt);
    OwnReleaseIsAnswered(s.agent, s.owner, token, native);
    OwnUninstallIsAnswered(s.agent, s.owner, token, native);
  }

  /**
   A reply that arrives once the session is no longer attaching or attached is not adopted: the hook is released
   instead, and unless that release is lost or refused natively the agent no longer owns it.
   */
  lemma LateReplyIsReleased(r: Trace, i: nat, t: Tid, native: Native, delivery: Delivery)
    requires IsRun(r) && i < |r.steps| && r.steps[i] == Adopt(t, native, delivery)
    requires !CanAdopt(r.states[i].session)
    ensures r.states[i + 1].session == r.states[i].session
    ensures var (request, token) := (At(r.states[i], t).request, At(r.states[i], t).receipt.token.value);
            !HasRequest(r.states[i].session.hooks, request.requestId) && native.releasing.Success?
            && (delivery.Lost? ==> delivery.acted) ==>
              && Known(r.states[i + 1].agent, token)
              && AgentReceipt(r.states[i + 1].agent, token).life.ownership == Released
  {
    RunInv(r, i);
    var s := r.states[i];
    assert Enabled(s, r.steps[i]) && r.states[i + 1] == Apply(s, r.steps[i]);
    assert PcOk(s, At(s, t));
    hide IsRun, SessionOk, Exclusive, WellRejected;
    var token := At(s, t).receipt.token.value;
    BackedFacts(s.agent, s.owner, token, At(s, t).receipt);
    TokenMeansHandle(s.agent.tokens[token], s.agent.records[s.agent.tokens[token]]);
  }

  // ---- the backend and the gate --------------------------------------------------------------------------

  /** `ShutDown` really calls `backend.detach`. */
  predicate CallsDetach(s: Sys, step: Step) {
    step.ShutDown? && At(s, step.t).ShuttingDown? && At(s, step.t).backend.Some?
  }

  /** While `backend.detach` runs, no rpc_call, execute_command or health_check is inside the backend. */
  lemma DetachExcludesCalls(r: Trace, i: nat, u: Tid)
    requires IsRun(r) && i < |r.steps| && CallsDetach(r.states[i], r.steps[i])
    ensures !At(r.states[i], u).InBackend?
    ensures u != r.steps[i].t ==> !Writes(At(r.states[i], u))
  {
    RunInv(r, i);
    hide IsRun, Kept, SessionOk, PcOk;
  }

  /** After a `backend.detach` that succeeded there is no other, and no call enters the backend again. */
  lemma DetachSucceedsOnce(r: Trace, i: nat, j: nat)
    requires IsRun(r) && i < j < |r.steps|
    requires CallsDetach(r.states[i], r.steps[i]) && r.steps[i].ok
    ensures !CallsDetach(r.states[j], r.steps[j])
    ensures !r.steps[j].EnterBackend?
  {
    RunInv(r, j);
    assert Enabled(r.states[i], r.steps[i]) && r.states[i + 1] == Apply(r.states[i], r.steps[i]);
    assert r.states[i + 1].shutdowns == r.states[i].shutdowns + [true];
    OnlyForward(r, i + 1, j);
    assert r.states[j].shutdowns[|r.states[i].shutdowns|];
    assert Enabled(r.states[j], r.steps[j]);
    hide IsRun, Kept, Grows, Exclusive;
    assert r.steps[j].ShutDown? ==> PcOk(r.states[j], At(r.states[j], r.steps[j].t));
  }

  /** Outside a detach in progress the state tells exactly who is responsible for the backend. */
  lemma BackendOwnership(r: Trace, i: nat)
    requires IsRun(r) && i < |r.states|
    ensures var (session, shutdowns) := (r.states[i].session, r.states[i].shutdowns);
            && (session.state in {Attaching, Detaching, Detached} ==> session.backend == None)
            && (session.state == Attached ==> session.backend.Some? && true !in shutdowns)
            && (session.state == Failed ==>
                  || (session.backend.Some? && !session.backendShutdown && true !in shutdowns)
                  || (session.backend == None && session.backendShutdown))
            && (forall n | 0 <= n < |shutdowns| - 1 :: !shutdowns[n])
  {
    RunInv(r, i);
    hide IsRun, Kept, PcOk, Exclusive;
  }

  // ---- what the session's clients see --------------------------------------------------------------------

  predicate SessionEdge(a: SessionState, b: SessionState) {
    || a == b
    || (a == Attaching && b in {Attached, Failed, Detached})
    || (a == Attached && b in {Failed, Detaching})
    || (a == Failed && b == Detaching)
    || (a == Detaching && b in {Failed, Detached})
  }

  /** `detach` reports success only on a session that is Detached, never on one another thread is detaching. */
  lemma DetachMeansDetached(r: Trace, i: nat)
    requires IsRun(r) && i < |r.steps| && Enabled(r.states[i], r.steps[i]) && DetachSucceeds(r.states[i], r.steps[i])
    ensures r.states[i + 1].session.state == Detached
  {
    RunInv(r, i);
    assert r.states[i + 1] == Apply(r.states[i], r.steps[i]);
    hide IsRun, Kept, SessionOk;
    if r.steps[i].StartDetach? {
      GateHidesDetaching(r.states[i]);
    }
  }

  lemma StepFollowsEdge(s: Sys, step: Step)
    requires Inv(s) && Enabled(s, step)
    ensures SessionEdge(s.session.state, Apply(s, step).session.state)
    ensures s.session.state != Detached && Apply(s, step).session.state == Detached ==> DetachSucceeds(s, step)
  {
    hide Kept, SessionOk, Exclusive, Call, ReleaseLease, UninstallLease, ValidRequest, AllReleased, Backed, NoHolder;
    if step.FinishCleaning? || step.ShutDown? {
      assert PcOk(s, At(s, step.t));
    }
  }

  /** Detached is entered only by a detach that succeeds, and every change of state follows the life cycle. */
  lemma StatesFollowEdges(r: Trace, i: nat)
    requires IsRun(r) && i < |r.steps|
    ensures SessionEdge(r.states[i].session.state, r.states[i + 1].session.state)
    ensures Enabled(r.states[i], r.steps[i])
    ensures r.states[i].session.state != Detached && r.states[i + 1].session.state == Detached ==>
              DetachSucceeds(r.states[i], r.steps[i])
  {
    hide Inv, Enabled, Apply, DetachSucceeds;
    RunInv(r, i);
    assert Enabled(r.states[i], r.steps[i]);
    StepFollowsEdge(r.states[i], r.steps[i]);
  }

  // ---- convergence ---------------------------------------------------------------------------------------

  /** The lease that a release, uninstall or cleanup step talks to the agent about. */
  predicate TalksAbout(s: Sys, step: Step, token: U64) {
    && (step.ReleaseHook? || step.UninstallHook? || step.CleanOne?)
    && step.token == token && step.delivery.Delivered?
    && token in s.session.hooks && !HandleReleased(s.session.hooks[token].receipt)
  }

  lemma AnswerConverges(s: Sys, step: Step, token: U64)
    requires Inv(s) && Enabled(s, step) && TalksAbout(s, step, token)
    ensures token in Apply(s, step).session.hooks && Known(Apply(s, step).agent, token)
    ensures Apply(s, step).session.hooks[token].receipt == AgentReceipt(Apply(s, step).agent, token)
  {
    hide Kept, Grows, Exclusive, SessionOk, PcOk, ReleaseLease, UninstallLease, Serve, Forward;
    assert LeaseBacked(s.agent, s.owner, token, s.session.hooks[token]);
    var cached := s.session.hooks[token].receipt;
    if step.UninstallHook? {
      UninstallLeaseConverges(s.agent, s.owner, token, cached, step.native, Delivered);
      var (after, heard, _) := UninstallLease(s.agent, cached, step.native, Delivered);
      BackedFacts(after, s.owner, token, heard);
    } else {
      ReleaseLeaseConverges(s.agent, s.owner, token, cached, step.native, Delivered);
      var (after, heard, _) := ReleaseLease(s.agent, cached, step.native, Delivered);
      BackedFacts(after, s.owner, token, heard);
    }
  }

  /**
   Whatever replies were lost before, one answered round trip makes the lease's receipt equal to the agent's,
   in every outcome: done now, done before, unavailable, or refused by the adapter.
   */
  lemma OneAnswerConverges(r: Trace, i: nat, token: U64)
    requires IsRun(r) && i < |r.steps| && TalksAbout(r.states[i], r.steps[i], token)
    ensures token in r.states[i + 1].session.hooks && Known(r.states[i + 1].agent, token)
    ensures r.states[i + 1].session.hooks[token].receipt == AgentReceipt(r.states[i + 1].agent, token)
  {
    hide Inv, Enabled, Apply;
    RunInv(r, i);
    assert Enabled(r.states[i], r.steps[i]);
    AnswerConverges(r.states[i], r.steps[i], token);
  }

  lemma UninstallOutcome(record: Record, token: U64, native: Native)
    requires record.handle.Some? && record.receipt.life.ownership in {Owned, Released}
    ensures var (before, owned) := (record.receipt.life, record.receipt.life.ownership == Owned);
            var (after, reply) :=
              UninstallRecord(record, record.receipt.request.ownerId, token, native.uninstalling, native.releasing);
            && (reply.UninstallReply? <==>
                  if owned then native.uninstalling == Uninstalled && native.releasing.Success?
                  else before.targetState == Restored)
            && after.receipt.life.targetState ==
                 if owned && native.uninstalling == Uninstalled then Restored else before.targetState
  {
  }

  lemma UninstallLeaseOutcome(agent: Table, owner: string, token: U64, cached: Receipt, native: Native)
    requires Kept(agent) && Backed(agent, owner, token, cached)
    ensures var before := AgentReceipt(agent, token).life;
            var (after, heard, result) := UninstallLease(agent, cached, native, Delivered);
            && before.ownership in {Owned, Released} && before.targetState in {Installed, Restored}
            && Known(after, token)
            && (result.Success? <==>
                  if before.ownership == Owned then native.uninstalling == Uninstalled && native.releasing.Success?
                  else before.targetState == Restored)
            && AgentReceipt(after, token).life.targetState ==
                 if before.ownership == Owned && native.uninstalling == Uninstalled then Restored else before.targetState
  {
    hide Kept, Grows, WellKept, UninstallRecord, Forward, Backed, UninstallLease;
    BackedFacts(agent, owner, token, cached);
    var record := agent.records[agent.tokens[token]];
    KeptRecord(agent, agent.tokens[token]);
    TokenMeansHandle(agent.tokens[token], record);
    UninstallOutcome(record, token, native);
    UninstallAnswers(record, token, native.uninstalling, native.releasing);
    UninstallAdvances(agent.tokens[token], record, owner, token, native.uninstalling, native.releasing);
    UninstallLeaseIs(agent, owner, token, cached, native);
  }

  lemma KeptRecord(agent: Table, id: string)
    requires Kept(agent) && id in agent.records
    ensures WellKept(id, agent.records[id])
    ensures agent.records[id].receipt.token.Some? ==> agent.records[id].handle.Some?
  {
  }

  /** An answered uninstall of a lease is the uninstall of its record, and succeeds exactly when the reply says so. */
  lemma UninstallLeaseIs(agent: Table, owner: string, token: U64, cached: Receipt, native: Native)
    requires Backed(agent, owner, token, cached)
    requires var record := agent.records[agent.tokens[token]];
             Forward(record.receipt, UninstallRecord(record, owner, token, native.uninstalling, native.releasing).0.receipt)
    requires var record := agent.records[agent.tokens[token]];
             var (next, reply) := UninstallRecord(record, owner, token, native.uninstalling, native.releasing);
             reply.UninstallReply? ==> reply.receipt == next.receipt
    ensures var record := agent.records[agent.tokens[token]];
            var (next, reply) := UninstallRecord(record, owner, token, native.uninstalling, native.releasing);
            var (after, _, result) := UninstallLease(agent, cached, native, Delivered);
            && Known(after, token) && after.records[after.tokens[token]] == next
            && (result.Success? <==> reply.UninstallReply?)
  {
    hide UninstallRecord;
  }

  // ---- the target state shown to users -------------------------------------------------------------------

  /** The controller shows a hook as installed that the agent has restored. */
  predicate TargetLags(s: Sys, token: U64) {
    && token in s.session.hooks && Known(s.agent, token)
    && s.session.hooks[token].target == Installed
    && AgentReceipt(s.agent, token).life.targetState == Restored
  }

  /** The shown target can differ from the agent's in that one way only. */
  lemma LaggingIsTheOnlyDifference(s: Sys, token: U64)
    requires Inv(s) && token in s.session.hooks
    ensures Known(s.agent, token)
    ensures s.session.hooks[token].target != AgentReceipt(s.agent, token).life.targetState <==> TargetLags(s, token)
  {
    hide Kept, SessionOk, PcOk, Exclusive;
    assert LeaseBacked(s.agent, s.owner, token, s.session.hooks[token]);
    var id := s.agent.tokens[token];
    KeptRecord(s.agent, id);
    TokenMeansHandle(id, s.agent.records[id]);
  }

  /**
   Even after an answered uninstall the target state shown to users may stay behind.  It does exactly when the lease
   showed Installed, the agent still owned the hook, the uninstall was not completed by the native release, and the
   target is restored by now, by this attempt or by an earlier one.
   */
  lemma ShownTargetLagsExactly(s: Sys, step: Step, token: U64)
    requires Inv(s) && Enabled(s, step) && step.UninstallHook? && TalksAbout(s, step, token)
    ensures Known(s.agent, token)
    ensures var (after, before) := (Apply(s, step), AgentReceipt(s.agent, token).life);
            && token in after.session.hooks && Known(after.agent, token)
            && (after.session.hooks[token].target != AgentReceipt(after.agent, token).life.targetState <==>
                  && s.session.hooks[token].target == Installed
                  && before.ownership == Owned
                  && !(step.native.uninstalling == Uninstalled && step.native.releasing.Success?)
                  && (before.targetState == Restored || step.native.uninstalling == Uninstalled))
  {
    hide Kept, Grows, Exclusive, SessionOk, PcOk, Backed, UninstallLease, ReleaseLease, Forward;
    LaggingIsTheOnlyDifference(s, token);
    assert LeaseBacked(s.agent, s.owner, token, s.session.hooks[token]);
    var cached := s.session.hooks[token].receipt;
    UninstallLeaseConverges(s.agent, s.owner, token, cached, step.native, Delivered);
    UninstallLeaseOutcome(s.agent, s.owner, token, cached, step.native);
    var (agent, heard, result) := UninstallLease(s.agent, cached, step.native, step.delivery);
    assert Known(agent, token);
    assert Apply(s, step).agent == agent;
  }

  lemma StuckStep(s: Sys, step: Step, token: U64)
    requires Inv(s) && Enabled(s, step) && TargetLags(s, token) && HandleReleased(s.session.hooks[token].receipt)
    ensures TargetLags(Apply(s, step), token) && HandleReleased(Apply(s, step).session.hooks[token].receipt)
  {
    hide Inv, Enabled, Apply, Advanced;
    StepAdvances(s, step);
    TargetStays(s, step, token);
    LagCarries(s, Apply(s, step), token);
  }

  lemma LagCarries(a: Sys, b: Sys, token: U64)
    requires Advanced(a, b) && TargetLags(a, token) && HandleReleased(a.session.hooks[token].receipt)
    requires token in b.session.hooks && b.session.hooks[token].target == Installed
    ensures TargetLags(b, token) && HandleReleased(b.session.hooks[token].receipt)
  {
    SameToken(a.agent, b.agent, token);
  }

  /** No step writes the target of a lease whose handle is released. */
  lemma TargetStays(s: Sys, step: Step, token: U64)
    requires Enabled(s, step) && token in s.session.hooks && HandleReleased(s.session.hooks[token].receipt)
    ensures token in Apply(s, step).session.hooks
    ensures Apply(s, step).session.hooks[token].target == s.session.hooks[token].target
  {
    hide Serve, Call, ReleaseLease, UninstallLease, NoHolder, NoWriter, HasRequest, ValidRequest, Adoptable;
  }

  /** A lag that meets a released lease is for ever: no release, uninstall or detach shows the restored target. */
  lemma {:induction false} ReleasedLagStays(r: Trace, i: nat, j: nat, token: U64)
    requires IsRun(r) && i <= j < |r.states|
    requires TargetLags(r.states[i], token) && HandleReleased(r.states[i].session.hooks[token].receipt)
    ensures TargetLags(r.states[j], token) && HandleReleased(r.states[j].session.hooks[token].receipt)
    decreases j
  {
    hide Inv, Enabled, Apply, TargetLags;
    if i < j {
      ReleasedLagStays(r, i, j - 1, token);
      RunInv(r, j - 1);
      assert Enabled(r.states[j - 1], r.steps[j - 1]);
      StuckStep(r.states[j - 1], r.steps[j - 1], token);
    }
  }

  /** The step repairs the lag of this hook. */
  ghost predicate Repairs(s: Sys, t: Tid, token: U64, step: Step) {
    step.UninstallHook? && step.t == t && step.token == token && Enabled(s, step) && !TargetLags(Apply(s, step), token)
  }

  lemma UninstallIsPossible(s: Sys, t: Tid, token: U64, native: Native)
    requires SessionProtocol.At(s, t).Idle? && NoHolder(s)
    requires token in s.session.hooks && s.session.hooks[token].receipt.token.Some?
    requires !HandleReleased(s.session.hooks[token].receipt)
    ensures var step := UninstallHook(t, token, native, Delivered, native, Delivered);
            Enabled(s, step) && TalksAbout(s, step, token)
  {
    hide NoHolder, HandleReleased;
  }

  /** An answered uninstall whose native uninstall and release both go through. */
  lemma FullUninstallRepairs(s: Sys, t: Tid, token: U64, native: Native)
    requires Inv(s) && TargetLags(s, token) && SessionProtocol.At(s, t).Idle? && NoHolder(s)
    requires !HandleReleased(s.session.hooks[token].receipt)
    requires native.uninstalling == Uninstalled && native.releasing.Success?
    ensures Repairs(s, t, token, UninstallHook(t, token, native, Delivered, native, Delivered))
  {
    var step := UninstallHook(t, token, native, Delivered, native, Delivered);
    hide Inv, NoHolder, Apply, Enabled, HandleReleased, TalksAbout;
    LeaseTokenIs(s, token);
    UninstallIsPossible(s, t, token, native);
    ShownTargetLagsExactly(s, step, token);
    StepInv(s, step);
    LaggingIsTheOnlyDifference(Apply(s, step), token);
  }

  /** A lag can be repaired by an uninstall, at once and whoever asks, if and only if the cached lease is not released. */
  lemma LagIsRepairable(s: Sys, t: Tid, token: U64)
    requires Inv(s) && TargetLags(s, token) && SessionProtocol.At(s, t).Idle? && NoHolder(s)
    ensures !HandleReleased(s.session.hooks[token].receipt) <==> exists step: Step :: Repairs(s, t, token, step)
  {
    assert token in s.session.hooks;
    hide Inv, NoHolder, TargetLags, Apply, Enabled;
    if HandleReleased(s.session.hooks[token].receipt) {
      forall step: Step
        ensures !Repairs(s, t, token, step)
      {
        if step.UninstallHook? && Enabled(s, step) { StuckStep(s, step, token); }
      }
    } else {
      FullUninstallRepairs(s, t, token, Native(ExecutionFailure("", "", false), Uninstalled, Success(true)));
    }
  }

  lemma LeaseTokenIs(s: Sys, token: U64)
    requires Inv(s) && token in s.session.hooks
    ensures s.session.hooks[token].receipt.token == Some(token)
  {
    hide Kept, SessionOk, PcOk, Exclusive;
    assert LeaseBacked(s.agent, s.owner, token, s.session.hooks[token]);
  }
}

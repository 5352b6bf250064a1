/** Every step of the session protocol keeps its invariant. */
module SessionSteps {
  import opened Wrappers
  import opened HookCommand
  import opened AgentRegistry
  import opened SessionProtocol
  import opened SessionInvariant

  function AgentReceipt(agent: Table, token: U64): Receipt
    requires Known(agent, token)
  {
    agent.records[agent.tokens[token]].receipt
  }

  lemma BackedFacts(agent: Table, owner: string, token: U64, cached: Receipt)
    requires Backed(agent, owner, token, cached)
    ensures token in agent.tokens && Known(agent, token)
    ensures AgentReceipt(agent, token).request.ownerId == owner
    ensures Forward(cached, AgentReceipt(agent, token))
    ensures Backed(agent, owner, token, AgentReceipt(agent, token))
    ensures cached.token == Some(token) && cached.request.ownerId == owner
    ensures SameIdentity(AgentReceipt(agent, token), cached)
  {
  }

  /**
   A lease's own release: the agent grows, the cached receipt moves forward and stays backed, success means
   released, and an answered call leaves the cache equal to the agent's receipt whatever the answer was.
   */
  lemma ReleaseLeaseConverges(agent: Table, owner: string, token: U64, cached: Receipt, native: Native, delivery: Delivery)
    requires Kept(agent) && Backed(agent, owner, token, cached)
    ensures var (after, heard, result) := ReleaseLease(agent, cached, native, delivery);
            && Kept(after) && Grows(agent, after)
            && Backed(after, owner, token, heard) && Forward(cached, heard)
            && (result.Success? ==> HandleReleased(heard))
            && (HandleReleased(cached) ==> after == agent && heard == cached)
            && (delivery.Delivered? && !HandleReleased(cached) ==> heard == AgentReceipt(after, token))
  {
    hide Kept, Grows, Serve, Backed, SameIdentity;
    var command := DoRelease(owner, token);
    var after := Serve(agent, command, native).0;
    GrowsSelf(agent);
    BackedFacts(agent, owner, token, cached);
    ServeKeeps(agent, command, native);
    BackedStays(agent, after, owner, token, cached);
    BackedFacts(after, owner, token, cached);
    SameToken(agent, after, token);
    OwnReleaseIsAnswered(agent, owner, token, native);
  }

  lemma SameToken(a: Table, b: Table, token: U64)
    requires Grows(a, b) && Known(a, token)
    ensures Known(b, token) && b.tokens[token] == a.tokens[token]
  {
  }

  lemma UninstallLeaseConverges(agent: Table, owner: string, token: U64, cached: Receipt, native: Native, delivery: Delivery)
    requires Kept(agent) && Backed(agent, owner, token, cached)
    ensures var (after, heard, result) := UninstallLease(agent, cached, native, delivery);
            && Kept(after) && Grows(agent, after)
            && Backed(after, owner, token, heard) && Forward(cached, heard)
            && (result.Success? ==> HandleReleased(heard) && heard.life.targetState == Restored)
            && (delivery.Delivered? ==> heard == AgentReceipt(after, token))
  {
    hide Kept, Grows, Serve, Backed, SameIdentity;
    var command := DoUninstall(owner, token);
    var after := Serve(agent, command, native).0;
    GrowsSelf(agent);
    BackedFacts(agent, owner, token, cached);
    ServeKeeps(agent, command, native);
    BackedStays(agent, after, owner, token, cached);
    BackedFacts(after, owner, token, cached);
    SameToken(agent, after, token);
    OwnUninstallIsAnswered(agent, owner, token, native);
  }

  /** One lease moves forward together with the agent. */
  lemma WithLeaseInv(s: Sys, agent: Table, token: U64, lease: Lease)
    requires Inv(s) && Kept(agent) && Grows(s.agent, agent)
    requires token in s.session.hooks && LeaseBacked(agent, s.owner, token, lease)
    requires Forward(s.session.hooks[token].receipt, lease.receipt)
    ensures Inv(WithLease(s, agent, token, lease))
  {
    hide Kept, Grows, Backed, LeaseBacked, PcOk, SessionOk;
    AgentGrowsInv(s, agent);
    var mid, s' := s.(agent := agent), WithLease(s, agent, token, lease);
    forall t | t in s.threads
      ensures PcOk(s', s.threads[t])
    {
      ForwardLeaseKeepsPc(mid, token, lease, s.threads[t]);
    }
    ForwardLeaseKeepsSession(mid.session, s.shutdowns, token, lease);
    forall k | k in s'.session.hooks
      ensures LeaseBacked(agent, s.owner, k, s'.session.hooks[k])
    {
      assert k != token ==> LeaseBacked(agent, s.owner, k, mid.session.hooks[k]);
    }
  }

  lemma ForwardLeaseKeepsPc(s: Sys, token: U64, lease: Lease, pc: Pc)
    requires PcOk(s, pc) && token in s.session.hooks && Forward(s.session.hooks[token].receipt, lease.receipt)
    ensures PcOk(WithLease(s, s.agent, token, lease), pc)
  {
    hide Backed;
  }

  lemma ForwardLeaseKeepsSession(session: Lifecycle, shutdowns: seq<bool>, token: U64, lease: Lease)
    requires SessionOk(session, shutdowns)
    requires token in session.hooks && Forward(session.hooks[token].receipt, lease.receipt)
    ensures SessionOk(session.(hooks := session.hooks[token := lease]), shutdowns)
  {
  }

  lemma ReleaseHookInv(s: Sys, token: U64, native: Native, delivery: Delivery)
    requires Inv(s) && token in s.session.hooks && s.session.hooks[token].receipt.token.Some?
    ensures Inv(AfterReleaseHook(s, token, native, delivery))
  {
    hide Kept, Grows, Backed, ReleaseLease, PcOk, SessionOk;
    var lease := s.session.hooks[token];
    assert LeaseBacked(s.agent, s.owner, token, lease);
    ReleaseLeaseConverges(s.agent, s.owner, token, lease.receipt, native, delivery);
    var (agent, receipt, _) := ReleaseLease(s.agent, lease.receipt, native, delivery);
    BackedStays(s.agent, agent, s.owner, token, lease.receipt);
    WithLeaseInv(s, agent, token, lease.(receipt := receipt));
  }

  lemma UninstallHookInv(s: Sys, token: U64, native: Native, delivery: Delivery, again: Native, redelivery: Delivery)
    requires Inv(s) && token in s.session.hooks && s.session.hooks[token].receipt.token.Some?
    ensures Inv(AfterUninstallHook(s, token, native, delivery, again, redelivery))
  {
    hide Kept, Grows, Backed, ReleaseLease, UninstallLease, PcOk, SessionOk;
    var lease := s.session.hooks[token];
    assert LeaseBacked(s.agent, s.owner, token, lease);
    if !HandleReleased(lease.receipt) {
      UninstallLeaseConverges(s.agent, s.owner, token, lease.receipt, native, delivery);
      var (agent, receipt, result) := UninstallLease(s.agent, lease.receipt, native, delivery);
      BackedStays(s.agent, agent, s.owner, token, lease.receipt);
      RestoredIsBacked(agent, s.owner, token, receipt);
      var target := if result.Success? then Restored else lease.target;
      WithLeaseInv(s, agent, token, Lease(receipt, target));
    }
  }

  lemma RestoredIsBacked(agent: Table, owner: string, token: U64, receipt: Receipt)
    requires Backed(agent, owner, token, receipt)
    ensures receipt.life.targetState == Restored ==> AgentReceipt(agent, token).life.targetState == Restored
  {
  }

  lemma CleanOneInv(s: Sys, t: Tid, token: U64, native: Native, delivery: Delivery)
    requires Inv(s) && Enabled(s, CleanOne(t, token, native, delivery))
    ensures Inv(AfterCleanOne(s, t, token, native, delivery))
  {
    hide Kept, Grows, Backed, ReleaseLease, SessionOk, NextOk;
    var (pc, lease) := (At(s, t), s.session.hooks[token]);
    assert PcOk(s, pc);
    assert LeaseBacked(s.agent, s.owner, token, lease);
    ReleaseLeaseConverges(s.agent, s.owner, token, lease.receipt, native, delivery);
    var (agent, receipt, result) := ReleaseLease(s.agent, lease.receipt, native, delivery);
    BackedStays(s.agent, agent, s.owner, token, lease.receipt);
    WithLeaseInv(s, agent, token, lease.(receipt := receipt));
    var mid := WithLease(s, agent, token, lease.(receipt := receipt));
    assert PcOk(mid, mid.threads[t]);
    GotoInv(mid, t, Cleaning(pc.todo - {token}, pc.failed || result.Failure?, pc.next));
  }

  lemma ExecuteCallInv(s: Sys, t: Tid, native: Native, delivery: Delivery, known: bool)
    requires Inv(s) && At(s, t).Calling?
    ensures Inv(AfterExecuteCall(s, t, native, delivery, known))
  {
    hide SessionOk, LeaseBacked, Exclusive, ValidRequest;
    var request := At(s, t).request;
    assert PcOk(s, At(s, t));
    var command := DoExecute(request);
    ServeKeeps(s.agent, command, native);
    var (agent, reply) := Call(s.agent, command, native, delivery);
    assert Kept(agent) && Grows(s.agent, agent) by { GrowsSelf(s.agent); }
    AgentGrowsInv(s, agent);
    ExecuteReplyIsBacked(s.agent, request, native);
    GotoInv(s.(agent := agent), t, At(AfterExecuteCall(s, t, native, delivery, known), t));
  }

  /** A receipt in an execute reply is the receipt of the record that its own token leads to. */
  lemma ExecuteReplyIsBacked(agent: Table, request: Request, native: Native)
    requires Kept(agent)
    ensures var (after, reply) := Serve(agent, DoExecute(request), native);
            reply.ExecuteReply? && reply.receipt.token.Some? && reply.receipt.request == request ==>
              Backed(after, request.ownerId, reply.receipt.token.value, reply.receipt)
  {
    hide ValidRequest, WellKept, WellRejected, Grows, Forward;
    ServeKeeps(agent, DoExecute(request), native);
    var (after, reply) := Serve(agent, DoExecute(request), native);
    var id := request.requestId;
    if reply.ExecuteReply? && reply.receipt.token.Some? {
      ExecuteReplyIsRecorded(agent, request, native);
      RecordIsBacked(after, id);
    }
  }

  lemma ExecuteReplyIsRecorded(agent: Table, request: Request, native: Native)
    requires Kept(agent)
    ensures var (after, reply) := Serve(agent, DoExecute(request), native);
            reply.ExecuteReply? ==> request.requestId in after.records && reply.receipt == after.records[request.requestId].receipt
  {
    hide ValidRequest, Indexed;
    if request.requestId in agent.rejected {
      assert WellRejected(request.requestId, agent.rejected[request.requestId]);
    }
  }

  lemma RecordIsBacked(agent: Table, id: string)
    requires Kept(agent) && id in agent.records && agent.records[id].receipt.token.Some?
    ensures var receipt := agent.records[id].receipt; Backed(agent, receipt.request.ownerId, receipt.token.value, receipt)
  {
    assert WellKept(id, agent.records[id]);
  }

  /** Two leases, or a lease and a reply in flight, with one token are for one request. */
  lemma TokenIdentifiesRequest(agent: Table, owner: string, token: U64, a: Receipt, b: Receipt)
    requires Backed(agent, owner, token, a) && Backed(agent, owner, token, b)
    ensures a.request == b.request
  {
  }

  lemma AdoptInv(s: Sys, t: Tid, native: Native, delivery: Delivery)
    requires Inv(s) && Enabled(s, Adopt(t, native, delivery))
    ensures Inv(AfterAdopt(s, t, native, delivery))
  {
    hide Kept, Grows, Backed, SessionOk, NextOk, ReleaseLease;
    var (request, receipt) := (At(s, t).request, At(s, t).receipt);
    assert PcOk(s, At(s, t));
    var token := receipt.token.value;
    ReleaseLeaseConverges(s.agent, s.owner, token, receipt, native, delivery);
    if HasRequest(s.session.hooks, request.requestId) {
      GotoInv(s, t, Idle);
    } else if !CanAdopt(s.session) || token == 0 || token in s.session.hooks {
      var agent := ReleaseLease(s.agent, receipt, native, delivery).0;
      AgentGrowsInv(s, agent);
      GotoInv(s.(agent := agent), t, Idle);
    } else {
      assert LeaseBacked(s.agent, s.owner, token, Lease(receipt, Installed));
      NewLeaseInv(s, token, Lease(receipt, Installed));
      GotoInv(WithLease(s, s.agent, token, Lease(receipt, Installed)), t, Idle);
    }
  }

  lemma NewLeaseInv(s: Sys, token: U64, lease: Lease)
    requires Inv(s) && NoHolder(s) && CanAdopt(s.session)
    requires LeaseBacked(s.agent, s.owner, token, lease)
    ensures Inv(WithLease(s, s.agent, token, lease))
  {
    hide Kept, Backed, NextOk, LeaseBacked;
    var s' := WithLease(s, s.agent, token, lease);
    forall t | t in s.threads
      ensures PcOk(s', s.threads[t])
    {
      assert PcOk(s, s.threads[t]);
    }
  }

  lemma FinishCleaningInv(s: Sys, t: Tid)
    requires Inv(s) && Enabled(s, FinishCleaning(t))
    ensures Inv(AfterFinishCleaning(s, t))
  {
    hide Kept, Grows, Backed;
    assert PcOk(s, At(s, t));
    var s' := AfterFinishCleaning(s, t);
    if At(s, t).next.ThenIdle? {
      GotoInv(s, t, Idle);
    } else {
      HolderInv(s, t, s'.session, s.shutdowns, Idle);
    }
  }

  lemma StartDetachInv(s: Sys, t: Tid)
    requires Inv(s) && Enabled(s, StartDetach(t))
    ensures Inv(AfterStartDetach(s, t))
  {
    hide Kept, Grows, Backed;
    GateHidesDetaching(s);
    var s' := AfterStartDetach(s, t);
    match s.session.state
    case Attaching => GotoInv(s, t, At(s', t));
    case Attached => HolderInv(s, t, s'.session, s.shutdowns, At(s', t));
    case Failed => HolderInv(s, t, s'.session, s.shutdowns, At(s', t));
    case Detached =>
  }

  lemma ShutDownInv(s: Sys, t: Tid, ok: bool)
    requires Inv(s) && Enabled(s, ShutDown(t, ok))
    ensures Inv(Apply(s, ShutDown(t, ok)))
  {
    hide Kept, Grows, Backed;
    assert PcOk(s, At(s, t));
    var s' := Apply(s, ShutDown(t, ok));
    HolderInv(s, t, s'.session, s'.shutdowns, At(s', t));
  }

  lemma GateStepInv(s: Sys, step: Step)
    requires Inv(s) && Enabled(s, step)
    requires step.EnterBackend? || step.LeaveBackend? || step.StartExecute? || step.StartCleanup?
             || step.FailAttach? || step.CompleteAttach? || step.MarkFailure?
    ensures Inv(Apply(s, step))
  {
    hide Kept, Grows, Backed, ValidRequest;
    var s' := Apply(s, step);
    if NoWriter(s) { GateHidesDetaching(s); }
    match step
    case EnterBackend(t) => GotoInv(s, t, InBackend);
    case LeaveBackend(t) => GotoInv(s, t, Idle);
    case StartExecute(t, request) => GotoInv(s, t, Calling(request));
    case StartCleanup(t) => GotoInv(s, t, At(s', t));
    case CompleteAttach(t, _) =>
      if s.session.state == Attaching {
        CompleteAttachInv(s, t, s'.session);
      }
    case FailAttach(t) => HolderInv(s, t, s'.session, s.shutdowns, At(s', t));
    case MarkFailure(t) =>
      if s.session.state in {Attached, Failed} {
        HolderInv(s, t, s'.session, s.shutdowns, At(s', t));
      } else {
        GotoInv(s, t, Idle);
      }
  }

  lemma CompleteAttachInv(s: Sys, t: Tid, session: Lifecycle)
    requires Inv(s) && NoHolder(s) && s.session.state == Attaching
    requires session == s.session.(state := Attached, backend := session.backend, backendShutdown := false)
    requires session.backend.Some?
    ensures Inv(s.(session := session))
  {
    hide Kept, Backed, LeaseBacked;
    var s' := s.(session := session);
    forall u | u in s.threads
      ensures PcOk(s', s.threads[u])
    {
      assert PcOk(s, s.threads[u]);
    }
  }

  lemma StepInv(s: Sys, step: Step)
    requires Inv(s) && Enabled(s, step)
    ensures Inv(Apply(s, step))
  {
    match step
    case ExecuteCall(t, native, delivery, known) => ExecuteCallInv(s, t, native, delivery, known);
    case Adopt(t, native, delivery) => AdoptInv(s, t, native, delivery);
    case StartDetach(t) => StartDetachInv(s, t);
    case ShutDown(t, ok) => ShutDownInv(s, t, ok);
    case CleanOne(t, token, native, delivery) => CleanOneInv(s, t, token, native, delivery);
    case FinishCleaning(t) => FinishCleaningInv(s, t);
    case ReleaseHook(_, token, native, delivery) => ReleaseHookInv(s, token, native, delivery);
    case UninstallHook(_, token, native, delivery, again, redelivery) =>
      UninstallHookInv(s, token, native, delivery, again, redelivery);
    case OtherClient(command, native) =>
      ServeKeeps(s.agent, command, native);
      AgentGrowsInv(s, Serve(s.agent, command, native).0);
    case _ => GateStepInv(s, step);
  }
}

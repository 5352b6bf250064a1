/** The invariant of the session protocol, and its preservation by every step. */
module SessionInvariant {
  import opened Wrappers
  import opened HookCommand
  import opened AgentRegistry
  import opened SessionProtocol

  /** The agent has the hook that `receipt` describes, at the same or a later stage of its life. */
  predicate Backed(agent: Table, owner: string, token: U64, receipt: Receipt) {
    && token != 0
    && receipt.token == Some(token)
    && receipt.request.ownerId == owner
    && Known(agent, token)
    && agent.tokens[token] == receipt.request.requestId
    && Forward(receipt, agent.records[agent.tokens[token]].receipt)
  }

  predicate LeaseBacked(agent: Table, owner: string, token: U64, lease: Lease) {
    && Backed(agent, owner, token, lease.receipt)
    && (lease.target == Installed
        || (lease.target == Restored && agent.records[agent.tokens[token]].receipt.life.targetState == Restored))
  }

  predicate AllReleased(hooks: map<U64, Lease>, except: set<U64>) {
    forall k | k in hooks && k !in except :: HandleReleased(hooks[k].receipt)
  }

  predicate NeverSucceeded(shutdowns: seq<bool>) {
    true !in shutdowns
  }

  predicate OnlyLastSucceeds(shutdowns: seq<bool>) {
    forall i | 0 <= i < |shutdowns| - 1 :: !shutdowns[i]
  }

  predicate SessionOk(session: Lifecycle, shutdowns: seq<bool>) {
    match session.state
    case Attaching => session.backend == None && !session.backendShutdown && shutdowns == []
    case Attached => session.backend.Some? && !session.backendShutdown && NeverSucceeded(shutdowns)
    case Detaching => session.backend == None
    case Detached => session.backend == None && session.backendShutdown && AllReleased(session.hooks, {})
    case Failed =>
      || (session.backend.Some? && !session.backendShutdown && NeverSucceeded(shutdowns))
      || (session.backend == None && session.backendShutdown)
  }

  predicate NextOk(session: Lifecycle, shutdowns: seq<bool>, next: AfterCleanup) {
    match next
    case ThenIdle => session.state != Detaching
    case ThenDetachedUnattached => session.state == Attaching
    case ThenDetached(ok, backend) =>
      && session.state == Detaching
      && (backend == None <==> session.backendShutdown)
      && (backend == None ==> ok)
      && (!ok ==> NeverSucceeded(shutdowns))
  }

  predicate PcOk(s: Sys, pc: Pc) {
    match pc
    case Idle => true
    case InBackend => true
    case Marking => true
    case Calling(request) => request.ownerId == s.owner
    case Adopting(request, receipt) =>
      && receipt.token.Some?
      && receipt.request == request
      && receipt.life.ownership == Owned && receipt.life.targetState == Installed
      && Backed(s.agent, s.owner, receipt.token.value, receipt)
    case ShuttingDown(backend) =>
      && s.session.state == Detaching
      && (backend == None <==> s.session.backendShutdown)
      && (backend.Some? ==> NeverSucceeded(s.shutdowns))
    case Cleaning(todo, failed, next) =>
      && todo <= s.session.hooks.Keys
      && (!failed ==> AllReleased(s.session.hooks, todo))
      && NextOk(s.session, s.shutdowns, next)
  }

  predicate Detaches(pc: Pc) {
    pc.ShuttingDown? || (pc.Cleaning? && pc.next.ThenDetached?)
  }

  predicate Exclusive(s: Sys) {
    forall t, u | t in s.threads && u in s.threads && t != u && Writes(s.threads[t]) ::
      !Writes(s.threads[u]) && !Reads(s.threads[u])
  }

  ghost predicate Inv(s: Sys) {
    && Kept(s.agent)
    && Exclusive(s)
    && (forall k | k in s.session.hooks :: LeaseBacked(s.agent, s.owner, k, s.session.hooks[k]))
    && SessionOk(s.session, s.shutdowns)
    && OnlyLastSucceeds(s.shutdowns)
    && (s.session.state == Detaching ==> exists t :: t in s.threads && Detaches(s.threads[t]))
    && (forall t | t in s.threads :: PcOk(s, s.threads[t]))
  }

  function Start(owner: string, agent: Table): Sys {
    Sys(owner, agent, NEW_SESSION, map[], [])
  }

  lemma StartInv(owner: string, agent: Table)
    requires Kept(agent)
    ensures Inv(Start(owner, agent))
  {
  }

  // ---- growth of the agent's table -----------------------------------------------------------------------

  lemma BackedStays(a: Table, b: Table, owner: string, token: U64, receipt: Receipt)
    requires Backed(a, owner, token, receipt) && Grows(a, b)
    ensures Backed(b, owner, token, receipt)
    ensures a.records[a.tokens[token]].receipt.life.targetState == Restored ==>
              b.records[b.tokens[token]].receipt.life.targetState == Restored
  {
  }

  /** A change to the agent alone, whoever caused it, is harmless. */
  lemma AgentGrowsInv(s: Sys, agent: Table)
    requires Inv(s) && Kept(agent) && Grows(s.agent, agent)
    ensures Inv(s.(agent := agent))
  {
    hide Kept, Grows, Backed, SessionOk, NextOk;
    var s' := s.(agent := agent);
    forall k | k in s.session.hooks
      ensures LeaseBacked(agent, s.owner, k, s.session.hooks[k])
    {
      BackedStays(s.agent, agent, s.owner, k, s.session.hooks[k].receipt);
    }
    forall t | t in s.threads
      ensures PcOk(s', s.threads[t])
    {
      assert PcOk(s, s.threads[t]);
      if s.threads[t].Adopting? {
        BackedStays(s.agent, agent, s.owner, s.threads[t].receipt.token.value, s.threads[t].receipt);
      }
    }
  }

  /** A thread moves on while the session stays as it is. */
  lemma GotoInv(s: Sys, t: Tid, pc: Pc)
    requires Inv(s) && PcOk(s, pc)
    requires Writes(pc) ==> Writes(At(s, t)) || NoHolder(s)
    requires Reads(pc) ==> Reads(At(s, t)) || NoWriter(s)
    requires Detaches(At(s, t)) ==> Detaches(pc)
    ensures Inv(Goto(s, t, pc))
  {
    hide Kept, Backed, SessionOk, NextOk, LeaseBacked;
    var s' := Goto(s, t, pc);
    forall u | u in s'.threads
      ensures PcOk(s', s'.threads[u])
    {
      assert u != t ==> PcOk(s, s.threads[u]);
    }
    if s.session.state == Detaching {
      var u :| u in s.threads && Detaches(s.threads[u]);
      assert u in s'.threads && Detaches(s'.threads[u]);
    }
  }

  predicate AloneInGate(s: Sys, t: Tid) {
    forall u | u in s.threads && u != t :: !Writes(s.threads[u]) && !Reads(s.threads[u])
  }

  /** The thread that holds the write gate may change the session, as long as its own claims hold afterwards. */
  lemma HolderInv(s: Sys, t: Tid, session: Lifecycle, shutdowns: seq<bool>, pc: Pc)
    requires Inv(s) && AloneInGate(s, t)
    requires var s' := Goto(s.(session := session, shutdowns := shutdowns), t, pc);
             && SessionOk(session, shutdowns) && OnlyLastSucceeds(shutdowns) && PcOk(s', pc)
             && (session.state == Detaching ==> Detaches(pc))
             && !Reads(pc)
             && (forall k | k in session.hooks :: LeaseBacked(s.agent, s.owner, k, session.hooks[k]))
    ensures Inv(Goto(s.(session := session, shutdowns := shutdowns), t, pc))
  {
    hide Kept, Backed, SessionOk, NextOk, LeaseBacked;
    var s' := Goto(s.(session := session, shutdowns := shutdowns), t, pc);
    forall u | u in s'.threads
      ensures PcOk(s', s'.threads[u])
    {
      assert u != t ==> PcOk(s, s.threads[u]);
    }
    if session.state == Detaching {
      assert t in s'.threads && Detaches(s'.threads[t]);
    }
  }

  /** Detaching is only ever seen by threads that do not hold the gate. */
  lemma GateHidesDetaching(s: Sys)
    requires Inv(s) && NoWriter(s)
    ensures s.session.state != Detaching
  {
    hide Kept, SessionOk, LeaseBacked, PcOk;
  }
}

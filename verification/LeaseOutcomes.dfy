/** What a lease's own release and uninstall do, outcome by outcome, and what a cleanup does to all leases together. */
module LeaseOutcomes {
  import opened Wrappers
  import opened HookCommand
  import opened AgentRegistry
  import opened AgentOutcomes
  import opened SessionProtocol
  import opened SessionInvariant
  import opened SessionSteps

  // ---- one lease -----------------------------------------------------------------------------------------

  /** The life of an owned hook after a release that reached the agent. */
  function ReleasedLife(life: Life, native: Native): Life {
    match native.releasing
    case Success(_) => Life(Released, life.targetState, None)
    case Failure(text) => Life(Owned, life.targetState, Some(FromAdapter(text)))
  }

  /**
   A release not yet known to be done: a lost call is an adapter error that leaves the cache alone; an answered one
   is a success unless the native release failed, and the cache then holds what the agent holds.
   */
  lemma ReleaseLeaseAnswer(agent: Table, owner: string, token: U64, cached: Receipt, native: Native, delivery: Delivery)
    requires Kept(agent) && Backed(agent, owner, token, cached) && Known(agent, token)
    ensures var (after, heard, result) := ReleaseLease(agent, cached, native, delivery);
            var receipt := AgentReceipt(agent, token);
            if HandleReleased(cached) then after == agent && heard == cached && result == Success(false)
            else
              var life := if HandleReleased(receipt) then receipt.life else ReleasedLife(receipt.life, native);
              && after == (if (delivery.Lost? && !delivery.acted) || HandleReleased(receipt) then agent
                           else Living(agent, token, life))
              && heard == (if delivery.Lost? then cached else receipt.(life := life))
              && result == if delivery.Lost? then Failure(Adapter)
                           else if HandleReleased(receipt) then Success(false)
                           else if native.releasing.Success? then Success(native.releasing.value)
                           else Failure(Adapter)
  {
    hide Kept, Serve;
    BackedFacts(agent, owner, token, cached);
    OwnReleaseOutcome(agent, token, native);
  }

  /** The answer to an uninstall that reached the agent. */
  function UninstallAnswer(receipt: Receipt, native: Native): Result<(), LeaseError> {
    if HandleReleased(receipt) then
      if receipt.life.targetState == Restored then Success(()) else Failure(WasReleased)
    else
      match native.uninstalling
      case Uninstalled => if native.releasing.Success? then Success(()) else Failure(Adapter)
      case Unavailable => Failure(UninstallIsUnavailable)
      case HandleGone => Failure(WasReleased)
      case UninstallFailure(_) => Failure(Adapter)
  }

  lemma UninstallLeaseAnswer(agent: Table, owner: string, token: U64, cached: Receipt, native: Native, delivery: Delivery)
    requires Kept(agent) && Backed(agent, owner, token, cached) && Known(agent, token)
    ensures var (after, heard, result) := UninstallLease(agent, cached, native, delivery);
            var receipt := AgentReceipt(agent, token);
            var life := if HandleReleased(receipt) then receipt.life else UninstallVerdict(receipt.life, native).0;
            && after == (if (delivery.Lost? && !delivery.acted) || HandleReleased(receipt) then agent
                         else Living(agent, token, life))
            && heard == (if delivery.Lost? then cached else receipt.(life := life))
            && result == (if delivery.Lost? then Failure(Adapter) else UninstallAnswer(receipt, native))
            && (result.Success? ==> HandleReleased(heard))
  {
    hide Kept, Serve;
    BackedFacts(agent, owner, token, cached);
    OwnUninstallOutcome(agent, token, native);
  }

  /** A release succeeds exactly when the lease ends up released. */
  lemma ReleaseSucceedsExactly(agent: Table, owner: string, token: U64, cached: Receipt, native: Native, delivery: Delivery)
    requires Kept(agent) && Backed(agent, owner, token, cached)
    ensures var (_, heard, result) := ReleaseLease(agent, cached, native, delivery);
            result.Success? <==> HandleReleased(heard)
  {
    hide Kept, ReleaseLease;
    ReleaseLeaseAnswer(agent, owner, token, cached, native, delivery);
  }

  // ---- what can become a lease ---------------------------------------------------------------------------

  /** An answer can be adopted exactly when the agent then has a hook of this very request, owned and installed. */
  lemma AdoptableExactly(agent: Table, request: Request, native: Native, knownBackend: bool)
    requires Kept(agent) && ValidRequest(request)
    ensures var (after, reply) := Serve(agent, DoExecute(request), native);
            (reply.ExecuteReply? && Adoptable(request, reply.receipt, knownBackend)) <==>
              && knownBackend && request.requestId in after.records
              && var record := after.records[request.requestId];
              && record.request == request
              && record.receipt.life.ownership == Owned && record.receipt.life.targetState == Installed
  {
    hide ValidRequest;
    var id := request.requestId;
    if id in agent.records {
      assert WellKept(id, agent.records[id]);
    }
    if id in agent.rejected {
      assert WellRejected(id, agent.rejected[id]);
    }
  }

  // ---- all leases ----------------------------------------------------------------------------------------

  /** The two tables agree on the hook that `token` leads to. */
  predicate SameHook(a: Table, b: Table, token: U64) {
    && Known(a, token) && Known(b, token)
    && a.tokens[token] == b.tokens[token] && a.records[a.tokens[token]] == b.records[b.tokens[token]]
  }

  /** The tables may differ in the receipts of the hooks that the tokens lead to, and in nothing else. */
  ghost predicate OnlyHooks(a: Table, b: Table, tokens: set<U64>) {
    && b.tokens == a.tokens && b.rejected == a.rejected && b.records.Keys == a.records.Keys
    && forall id | id in a.records && (forall k | k in tokens && k in a.tokens :: a.tokens[k] != id) ::
         b.records[id] == a.records[id]
  }

  /** What the native layer and the transport do when the release of a given hook is attempted. */
  type World = U64 -> (Native, Delivery)

  /** One attempt at releasing the lease of `token`, made in the state `agent`. */
  function Attempt(agent: Table, lease: Lease, token: U64, world: World): (Table, Receipt, Result<bool, LeaseError>)
    requires lease.receipt.token.Some?
  {
    ReleaseLease(agent, lease.receipt, world(token).0, world(token).1)
  }

  /**
   Every lease was tried once: each lease and each hook is as a single attempt leaves it, whatever the order was in
   which they were tried, and nothing else has changed.
   */
  ghost predicate EachTried(agent: Table, hooks: map<U64, Lease>, world: World, after: Table, left: map<U64, Lease>) {
    && left.Keys == hooks.Keys
    && OnlyHooks(agent, after, hooks.Keys)
    && forall k | k in hooks :: TriedOnce(agent, hooks[k], k, world, after, left[k])
  }

  predicate TriedOnce(agent: Table, lease: Lease, token: U64, world: World, after: Table, left: Lease) {
    && lease.receipt.token.Some?
    && var (served, receipt, _) := Attempt(agent, lease, token, world);
    && left == lease.(receipt := receipt)
    && SameHook(served, after, token)
  }

  /** A release depends on one hook, and touches no other. */
  lemma ReleaseLeaseIsLocal(a: Table, b: Table, cached: Receipt, native: Native, delivery: Delivery)
    requires cached.token.Some? && SameHook(a, b, cached.token.value)
    ensures var (after, heard, result) := ReleaseLease(a, cached, native, delivery);
            var (after', heard', result') := ReleaseLease(b, cached, native, delivery);
            && heard == heard' && result == result' && SameHook(after, after', cached.token.value)
            && OnlyHooks(a, after, {cached.token.value})
  {
    hide ReleaseRecord;
  }

  /** A cleanup under way: the leases in `todo` are still to be tried. */
  ghost predicate TriedBut(agent: Table, hooks: map<U64, Lease>, world: World, todo: set<U64>, after: Table, left: map<U64, Lease>) {
    && todo <= left.Keys == hooks.Keys
    && OnlyHooks(agent, after, hooks.Keys)
    && (forall k | k in todo :: left[k] == hooks[k] && SameHook(agent, after, k))
    && (forall k | k in hooks && k !in todo :: TriedOnce(agent, hooks[k], k, world, after, left[k]))
  }

  lemma NoneTried(agent: Table, hooks: map<U64, Lease>, world: World)
    requires forall k | k in hooks :: Known(agent, k)
    ensures TriedBut(agent, hooks, world, hooks.Keys, agent, hooks)
  {
  }

  lemma AllTried(agent: Table, hooks: map<U64, Lease>, world: World, after: Table, left: map<U64, Lease>)
    requires TriedBut(agent, hooks, world, {}, after, left)
    ensures EachTried(agent, hooks, world, after, left)
  {
    hide TriedOnce, OnlyHooks;
  }

  lemma OneMoreTried(agent: Table, hooks: map<U64, Lease>, world: World, todo: set<U64>, after: Table, left: map<U64, Lease>, k: U64)
    requires TriedBut(agent, hooks, world, todo, after, left) && Indexed(agent) && k in todo
    requires left[k].receipt.token == Some(k)
    ensures var (served, receipt, _) := Attempt(after, left[k], k, world);
            TriedBut(agent, hooks, world, todo - {k}, served, left[k := left[k].(receipt := receipt)])
  {
    hide ReleaseLease, Indexed;
    var (native, delivery) := world(k);
    var (served, receipt, _) := Attempt(after, left[k], k, world);
    SameHookBack(agent, after, k);
    ReleaseLeaseIsLocal(after, agent, left[k].receipt, native, delivery);
    OnlyHooksOn(agent, after, served, hooks.Keys, k);
    var left' := left[k := left[k].(receipt := receipt)];
    SameHookBack(served, Attempt(agent, hooks[k], k, world).0, k);
    assert TriedOnce(agent, hooks[k], k, world, served, left'[k]);
    forall other | other in hooks && other != k
      ensures other in todo ==> SameHook(agent, served, other)
      ensures other !in todo ==> TriedOnce(agent, hooks[other], other, world, served, left'[other])
    {
      if other in todo {
        OtherHookStays(agent, after, served, k, other);
      } else {
        OtherTriedStays(agent, hooks[other], world, after, served, left[other], k, other);
      }
    }
  }

  lemma SameHookBack(a: Table, b: Table, k: U64)
    requires SameHook(a, b, k)
    ensures SameHook(b, a, k)
  {
  }

  lemma OnlyHooksOn(a: Table, b: Table, c: Table, tokens: set<U64>, k: U64)
    requires OnlyHooks(a, b, tokens) && OnlyHooks(b, c, {k}) && k in tokens && k in b.tokens
    ensures OnlyHooks(a, c, tokens)
  {
    forall id | id in a.records && (forall j | j in tokens && j in a.tokens :: a.tokens[j] != id)
      ensures c.records[id] == a.records[id]
    {
      assert b.tokens[k] != id;
    }
  }

  lemma OtherHookStays(agent: Table, a: Table, b: Table, k: U64, other: U64)
    requires Indexed(agent) && a.tokens == agent.tokens && OnlyHooks(a, b, {k}) && SameHook(agent, a, other)
    requires k != other && k in agent.tokens
    ensures SameHook(agent, b, other)
  {
    assert a.tokens[k] != a.tokens[other];
  }

  lemma OtherTriedStays(agent: Table, lease: Lease, world: World, a: Table, b: Table, left: Lease, k: U64, other: U64)
    requires Indexed(agent) && a.tokens == agent.tokens && OnlyHooks(a, b, {k}) && TriedOnce(agent, lease, other, world, a, left)
    requires k != other && k in agent.tokens
    ensures TriedOnce(agent, lease, other, world, b, left)
  {
    hide ReleaseLease;
    assert a.tokens[k] != a.tokens[other];
  }
}

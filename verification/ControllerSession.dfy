/**
 The session object itself: fields updated in place, a cleanup loop over the leases, and early returns.  Each method,
 run by one thread while no other holds the command gate, is proved to be a path of the session protocol, so that
 what the protocol keeps over every interleaving is kept by these bodies.
 */
module ControllerSession {
  import opened Wrappers
  import opened HookCommand
  import opened AgentRegistry
  import opened AgentOutcomes
  import opened SessionProtocol
  import opened SessionInvariant
  import opened SessionSteps
  import opened SessionTheorems
  import opened LeaseOutcomes

  /** Why an execute did not lead to a lease. */
  datatype Why = BadRequest | BoundElsewhere | NoBackend | CallFailed | AgentSays(code: ErrorCode) | UnexpectedReply

  datatype HookError =
    | InvalidToken
    | TokenNotFound
    | DuplicateHook
    | HookAlreadyReleased
    | UninstallNotAvailable
    | SessionNotReady
    | InvalidHandle
    | NotExecuted(why: Why, uncertain: bool)  // whether the target may have been touched all the same
    | AdapterError

  // ---- paths ---------------------------------------------------------------------------------------------

  /** Where `steps` lead from `s`, if each of them is enabled in turn. */
  function Follow(s: Sys, steps: seq<Step>): Option<Sys> {
    if steps == [] then Some(s)
    else
      match Follow(s, steps[..|steps| - 1])
      case None => None
      case Some(last) =>
        if Enabled(last, steps[|steps| - 1]) then Some(Apply(last, steps[|steps| - 1])) else None
  }

  lemma OneMore(s: Sys, steps: seq<Step>, last: Sys, step: Step)
    requires Follow(s, steps) == Some(last) && Enabled(last, step)
    ensures Follow(s, steps + [step]) == Some(Apply(last, step))
  {
    hide Enabled, Apply;
    assert (steps + [step])[..|steps|] == steps;
  }

  /** Whatever a session method does, the invariant stays and nothing moves backward. */
  lemma {:induction false} PathKeeps(s: Sys, steps: seq<Step>)
    requires Inv(s) && Follow(s, steps).Some?
    ensures Inv(Follow(s, steps).value) && Advanced(s, Follow(s, steps).value)
  {
    hide Inv, Advanced, Enabled, Apply;
    if steps == [] {
      AdvancedSelf(s);
    } else {
      var n := |steps| - 1;
      PathKeeps(s, steps[..n]);
      var last := Follow(s, steps[..n]).value;
      StepInv(last, steps[n]);
      StepAdvances(last, steps[n]);
      AdvancedOn(s, last, Apply(last, steps[n]));
    }
  }

  lemma ExecuteIgnores(t: Table, request: Request, native: Native)
    ensures Serve(t, DoExecute(request), native)
         == Serve(t, DoExecute(request), Native(native.execution, Unavailable, Success(false)))
  {
    hide Execute;
  }

  // ---- what the hook actions answer ------------------------------------------------------------------------

  /** The answer to a release, from what the lease last heard, what the agent holds, and how the call goes. */
  function ReleaseAnswer(cached: Receipt, held: Receipt, native: Native, delivery: Delivery): Result<bool, HookError> {
    if HandleReleased(cached) then Success(false)
    else if delivery.Lost? then Failure(AdapterError)
    else if HandleReleased(held) then Success(false)
    else if native.releasing.Success? then Success(native.releasing.value)
    else Failure(AdapterError)
  }

  function UninstallAnswerOf(lease: Lease, held: Receipt, native: Native, delivery: Delivery): Result<bool, HookError> {
    if HandleReleased(lease.receipt) then
      if lease.target == Restored then Success(false) else Failure(HookAlreadyReleased)
    else if delivery.Lost? then Failure(AdapterError)
    else if HandleReleased(held) then
      if held.life.targetState == Restored then Success(true) else Failure(HookAlreadyReleased)
    else
      match native.uninstalling
      case Uninstalled => if native.releasing.Success? then Success(true) else Failure(AdapterError)
      case Unavailable => Failure(UninstallNotAvailable)
      case HandleGone => Failure(HookAlreadyReleased)
      case UninstallFailure(_) => Failure(AdapterError)
  }

  class Session {
    const owner: string
    const agent: ExternalHookRegistry  // on the other side of the transport
    var state: SessionState
    var backend: Option<nat>
    var backendShutdown: bool
    var hooks: map<U64, Lease>
    ghost var shutdowns: seq<bool>

    function Fields(): Lifecycle
      reads this
    {
      Lifecycle(state, backend, backendShutdown, hooks)
    }

    ghost function View(threads: map<Tid, Pc>): Sys
      reads this, agent
    {
      Sys(owner, agent.Contents(), Fields(), threads, shutdowns)
    }

    /** Thread `t` is at `pc`, with the protocol's invariant in force. */
    ghost predicate Running(threads: map<Tid, Pc>, t: Tid, pc: Pc)
      reads this, agent
    {
      t in threads && threads[t] == pc && Inv(View(threads))
    }

    /** The same, and no other thread holds the gate, as write access to it demands. */
    ghost predicate Ready(threads: map<Tid, Pc>, t: Tid, pc: Pc)
      reads this, agent
    {
      Running(threads, t, pc) && AloneInGate(View(threads), t)
    }

    constructor (owner: string, agent: ExternalHookRegistry)
      requires agent.Valid()
      ensures this.owner == owner && this.agent == agent
      ensures View(map[]) == Start(owner, agent.Contents()) && Inv(View(map[]))
    {
      this.owner, this.agent := owner, agent;
      state, backend, backendShutdown, hooks, shutdowns := Attaching, None, false, map[], [];
      new;
      StartInv(owner, agent.Contents());
    }

    method Send(command: Command, native: Native, delivery: Delivery) returns (reply: Option<Reply>)
      requires agent.Valid() && !command.DoStatus?
      modifies agent
      ensures (agent.Contents(), reply) == Call(old(agent.Contents()), command, native, delivery)
      ensures agent.Valid()
    {
      if delivery.Lost? && !delivery.acted {
        return None;
      }
      var answer;
      match command {
        case DoExecute(request) =>
          ExecuteIgnores(agent.Contents(), request, native);
          var log;
          answer, log := agent.Execute(request, native.execution);
        case DoRelease(ownerId, token) =>
          var log;
          answer, log := agent.Release(ownerId, token, native);
        case DoUninstall(ownerId, token) =>
          var log;
          answer, log := agent.Uninstall(ownerId, token, native);
      }
      reply := if delivery.Delivered? then Some(answer) else None;
    }

    method Release(cached: Receipt, native: Native, delivery: Delivery)
      returns (receipt: Receipt, r: Result<bool, LeaseError>)
      requires agent.Valid() && cached.token.Some?
      modifies agent
      ensures (agent.Contents(), receipt, r) == ReleaseLease(old(agent.Contents()), cached, native, delivery)
      ensures agent.Valid()
    {
      hide Call;
      if HandleReleased(cached) {
        return cached, Success(false);
      }
      var reply := Send(DoRelease(cached.request.ownerId, cached.token.value), native, delivery);
      receipt, r := cached, Failure(Adapter);
      match reply {
        case Some(ReleaseReply(heard, changed)) =>
          if SameIdentity(heard, cached) {
            receipt, r := heard, Success(changed);
          }
        case Some(ErrorReply(code, _, _, _, about, _)) =>
          if about.Some? {
            receipt := UpdateReceipt(cached, about.value);
          }
          r := Failure(LeaseErrorOf(code));
        case _ =>
      }
    }

    method Uninstall(cached: Receipt, native: Native, delivery: Delivery)
      returns (receipt: Receipt, r: Result<(), LeaseError>)
      requires agent.Valid() && cached.token.Some?
      modifies agent
      ensures (agent.Contents(), receipt, r) == UninstallLease(old(agent.Contents()), cached, native, delivery)
      ensures agent.Valid()
    {
      hide Call;
      var reply := Send(DoUninstall(cached.request.ownerId, cached.token.value), native, delivery);
      receipt, r := cached, Failure(Adapter);
      match reply {
        case Some(UninstallReply(heard, _)) =>
          if SameIdentity(heard, cached) {
            receipt, r := heard, Success(());
          }
        case Some(ErrorReply(code, _, _, _, about, _)) =>
          if about.Some? {
            receipt := UpdateReceipt(cached, about.value);
          }
          r := Failure(LeaseErrorOf(code));
        case _ =>
      }
    }

    /** `cleanup_external_hooks_locked`: every lease not yet released is tried once, in whatever order. */
    method CleanUp(ghost threads: map<Tid, Pc>, ghost t: Tid, ghost next: AfterCleanup, world: World,
                   ghost start: Sys, ghost path: seq<Step>)
      returns (failed: bool, ghost steps: seq<Step>)
      requires Ready(threads, t, Cleaning(hooks.Keys, false, next)) && Follow(start, path) == Some(View(threads))
      modifies this`hooks, agent
      ensures Follow(start, steps) == Some(View(threads[t := Cleaning({}, failed, next)]))
      ensures Ready(threads[t := Cleaning({}, failed, next)], t, Cleaning({}, failed, next))
      ensures EachTried(old(agent.Contents()), old(hooks), world, agent.Contents(), hooks)
      ensures failed <==> !AllReleased(hooks, {})
    {
      hide Inv, Enabled, Apply, AloneInGate, Follow, ReleaseLease, HandleReleased, Kept, Grows;
      hide TriedBut, EachTried, AllReleased, Indexed;
      failed, steps := false, path;
      var todo := hooks.Keys;
      ghost var agent0 := agent.Contents();
      LeasesAreKnown(View(threads));
      NoneTried(agent0, hooks, world);
      NoneReleased(hooks);
      assert threads[t := Cleaning(todo, failed, next)] == threads;
      while todo != {}
        invariant todo <= hooks.Keys == old(hooks.Keys)
        invariant TriedBut(agent0, old(hooks), world, todo, agent.Contents(), hooks)
        invariant failed <==> !AllReleased(hooks, todo)
        invariant Follow(start, steps) == Some(View(threads[t := Cleaning(todo, failed, next)]))
        invariant Ready(threads[t := Cleaning(todo, failed, next)], t, Cleaning(todo, failed, next))
        decreases todo
      {
        var k :| k in todo;
        var (native, delivery) := world(k);
        ghost var before := View(threads[t := Cleaning(todo, failed, next)]);
        LeaseHasToken(before, k);
        AgentIsKept(before);
        OwnReleaseSucceeds(before, k, native, delivery);
        OneMoreTried(agent0, old(hooks), world, todo, agent.Contents(), hooks, k);
        var lease := hooks[k];
        var receipt, r := Release(lease.receipt, native, delivery);
        OneMoreReleased(hooks, todo, k, lease.(receipt := receipt));
        hooks := hooks[k := lease.(receipt := receipt)];
        failed := failed || r.Failure?;
        todo := todo - {k};
        ghost var after := View(threads[t := Cleaning(todo, failed, next)]);
        CleanOneIs(before, after, t, k, native, delivery);
        Took(start, steps, before, CleanOne(t, k, native, delivery), after, t);
        steps := steps + [CleanOne(t, k, native, delivery)];
      }
      AllTried(agent0, old(hooks), world, agent.Contents(), hooks);
    }

    method CompleteAttach(ghost threads: map<Tid, Pc>, ghost t: Tid, newBackend: nat)
      returns (ok: bool, ghost steps: seq<Step>)
      requires Ready(threads, t, Idle)
      modifies this`state, this`backend, this`backendShutdown
      ensures Follow(old(View(threads)), steps) == Some(View(threads))
      ensures ok <==> old(state) == Attaching
      ensures if ok then state == Attached && backend == Some(newBackend) && !backendShutdown
              else Fields() == old(Fields())
    {
      hide Inv;
      steps := [];
      if state != Attaching {
        return false, steps;
      }
      ghost var before := View(threads);
      backend := Some(newBackend);
      backendShutdown := false;
      state := Attached;
      Took(before, [], before, SessionProtocol.Step.CompleteAttach(t, newBackend), View(threads), t);
      return true, [SessionProtocol.Step.CompleteAttach(t, newBackend)];
    }

    /** The last step of a cleanup that decides nothing: the thread lets go of the gate. */
    ghost method LetGo(threads: map<Tid, Pc>, t: Tid, failed: bool, start: Sys, steps: seq<Step>)
      requires Ready(threads, t, Cleaning({}, failed, ThenIdle)) && Follow(start, steps) == Some(View(threads))
      ensures Follow(start, steps + [FinishCleaning(t)]) == Some(View(threads[t := Idle]))
      ensures Ready(threads[t := Idle], t, Idle)
    {
      hide Inv;
      Took(start, steps, View(threads), FinishCleaning(t), View(threads[t := Idle]), t);
    }

    /** A cleanup that decides nothing, and the gate let go after it. */
    method CleanAndLetGo(ghost threads: map<Tid, Pc>, ghost t: Tid, world: World, ghost start: Sys, ghost path: seq<Step>)
      returns (ghost steps: seq<Step>)
      requires Ready(threads, t, Cleaning(hooks.Keys, false, ThenIdle)) && Follow(start, path) == Some(View(threads))
      modifies this`hooks, agent
      ensures Follow(start, steps) == Some(View(threads[t := Idle]))
      ensures Ready(threads[t := Idle], t, Idle)
      ensures EachTried(old(agent.Contents()), old(hooks), world, agent.Contents(), hooks)
    {
      hide Inv, AloneInGate, EachTried, AllReleased, Follow;
      var failed;
      failed, steps := CleanUp(threads, t, ThenIdle, world, start, path);
      LetGo(threads[t := Cleaning({}, failed, ThenIdle)], t, failed, start, steps);
      assert threads[t := Cleaning({}, failed, ThenIdle)][t := Idle] == threads[t := Idle];
      steps := steps + [FinishCleaning(t)];
    }

    method FailAttach(ghost threads: map<Tid, Pc>, ghost t: Tid, world: World)
      returns (ok: bool, ghost steps: seq<Step>)
      requires Ready(threads, t, Idle)
      modifies this`state, this`backendShutdown, this`hooks, agent
      ensures Follow(old(View(threads)), steps) == Some(View(threads))
      ensures ok <==> old(state) == Attaching
      ensures state == if ok then Failed else old(state)
      ensures backendShutdown <==> ok || old(backendShutdown)
      ensures ok ==> EachTried(old(agent.Contents()), old(hooks), world, agent.Contents(), hooks)
      ensures !ok ==> agent.Contents() == old(agent.Contents()) && hooks == old(hooks)
    {
      hide Inv, NoHolder, AloneInGate, EachTried, AllReleased;
      steps := [];
      if state != Attaching {
        return false, steps;
      }
      ghost var start := View(threads);
      NobodyElse(start, t);
      state := Failed;
      backendShutdown := true;
      ghost var pc := Cleaning(hooks.Keys, false, ThenIdle);
      Took(start, [], start, SessionProtocol.Step.FailAttach(t), View(threads[t := pc]), t);
      steps := CleanAndLetGo(threads[t := pc], t, world, start, [SessionProtocol.Step.FailAttach(t)]);
      BackToIdle(threads, t, pc);
      return true, steps;
    }

    /** Also run at the end of an execute whose transport failed, where the thread comes in as `Marking`. */
    method MarkTransportFailure(ghost threads: map<Tid, Pc>, ghost t: Tid, world: World, ghost start: Sys, ghost path: seq<Step>)
      returns (ok: bool, ghost steps: seq<Step>)
      requires Ready(threads, t, Idle) || Ready(threads, t, Marking)
      requires Follow(start, path) == Some(View(threads))
      modifies this`state, this`hooks, agent
      ensures Follow(start, steps) == Some(View(threads[t := Idle]))
      ensures Ready(threads[t := Idle], t, Idle)
      ensures ok <==> old(state) in {Attached, Failed}
      ensures state == if ok then Failed else old(state)
      ensures ok ==> EachTried(old(agent.Contents()), old(hooks), world, agent.Contents(), hooks)
      ensures !ok ==> agent.Contents() == old(agent.Contents()) && hooks == old(hooks)
    {
      hide Inv, NoHolder, AloneInGate, Enabled, Apply, EachTried, AllReleased, Follow;
      ghost var before := View(threads);
      NobodyElse(before, t);
      MarkFailureIs(before, t);
      if state != Attached && state != Failed {
        Took(start, path, before, MarkFailure(t), View(threads[t := Idle]), t);
        return false, path + [MarkFailure(t)];
      }
      state := Failed;
      ghost var pc := Cleaning(hooks.Keys, false, ThenIdle);
      Took(start, path, before, MarkFailure(t), View(threads[t := pc]), t);
      steps := CleanAndLetGo(threads[t := pc], t, world, start, path + [MarkFailure(t)]);
      assert threads[t := pc][t := Idle] == threads[t := Idle];
      return true, steps;
    }

    /**
     `detached` is what `backend.detach` would answer; the result tells whether this detach succeeded.  The backend is
     shut down exactly when one is held, and every lease is tried, whether or not that went well.
     */
    method Detach(ghost threads: map<Tid, Pc>, ghost t: Tid, detached: bool, world: World)
      returns (ok: bool, ghost steps: seq<Step>)
      requires Ready(threads, t, Idle)
      modifies this`state, this`backend, this`backendShutdown, this`hooks, this`shutdowns, agent
      ensures Follow(old(View(threads)), steps) == Some(View(threads))
      ensures state == if ok then SessionState.Detached else Failed
      ensures old(state) != SessionState.Detached ==>
                EachTried(old(agent.Contents()), old(hooks), world, agent.Contents(), hooks)
      ensures match old(state)
              case Attaching =>
                && (ok <==> AllReleased(hooks, {}))
                && backend == None && backendShutdown && shutdowns == old(shutdowns)
              case Attached | Failed =>
                && shutdowns == old(shutdowns) + (if old(backend).Some? then [detached] else [])
                && (ok <==> (old(backend).None? || detached) && AllReleased(hooks, {}))
                && backend == (if detached then None else old(backend))
                && (backendShutdown <==> old(backend).None? || detached)
              case _ =>
                ok && agent.Contents() == old(agent.Contents()) && Fields() == old(Fields()) && shutdowns == old(shutdowns)
    {
      hide Inv, NoHolder, AloneInGate, Enabled, Apply, EachTried, AllReleased;
      ghost var start := View(threads);
      AttachingHasNoBackend(start);
      NobodyElse(start, t);
      GateHidesDetaching(start);
      if state == Detaching || state == Detached {
        StartDetachIs(start, t);
        Took(start, [], start, StartDetach(t), View(threads), t);
        return true, [StartDetach(t)];
      }
      if state == Attaching {
        ok, steps := DetachUnattached(threads, t, world);
      } else {
        ok, steps := DetachAttached(threads, t, detached, world);
      }
    }

    method DetachUnattached(ghost threads: map<Tid, Pc>, ghost t: Tid, world: World)
      returns (ok: bool, ghost steps: seq<Step>)
      requires Ready(threads, t, Idle) && NoHolder(View(threads)) && state == Attaching
      modifies this`state, this`backendShutdown, this`hooks, agent
      ensures Follow(old(View(threads)), steps) == Some(View(threads))
      ensures state == if ok then SessionState.Detached else Failed
      ensures backendShutdown && (ok <==> AllReleased(hooks, {}))
      ensures EachTried(old(agent.Contents()), old(hooks), world, agent.Contents(), hooks)
    {
      hide Inv, NoHolder, AloneInGate, Enabled, Apply, EachTried, AllReleased;
      ghost var start := View(threads);
      StartDetachIs(start, t);
      ghost var pc := Cleaning(hooks.Keys, false, ThenDetachedUnattached);
      Took(start, [], start, StartDetach(t), View(threads[t := pc]), t);
      ok, steps := CleanUnattached(threads[t := pc], t, world, start, [StartDetach(t)]);
      BackToIdle(threads, t, pc);
    }

    method DetachAttached(ghost threads: map<Tid, Pc>, ghost t: Tid, detached: bool, world: World)
      returns (ok: bool, ghost steps: seq<Step>)
      requires Ready(threads, t, Idle) && NoHolder(View(threads)) && state in {Attached, Failed}
      modifies this`state, this`backend, this`backendShutdown, this`hooks, this`shutdowns, agent
      ensures Follow(old(View(threads)), steps) == Some(View(threads))
      ensures state == if ok then SessionState.Detached else Failed
      ensures ok <==> (old(backend).None? || detached) && AllReleased(hooks, {})
      ensures shutdowns == old(shutdowns) + (if old(backend).Some? then [detached] else [])
      ensures backend == (if detached then None else old(backend))
      ensures backendShutdown <==> old(backend).None? || detached
      ensures EachTried(old(agent.Contents()), old(hooks), world, agent.Contents(), hooks)
    {
      hide Inv, NoHolder, AloneInGate, Enabled, Apply, EachTried, AllReleased;
      ghost var start := View(threads);
      HeldUnlessShutDown(start);
      StartDetachIs(start, t);
      state := Detaching;
      var taken := None;
      if !backendShutdown {
        taken := backend;
        backend := None;
      }
      Took(start, [], start, StartDetach(t), View(threads[t := ShuttingDown(taken)]), t);
      ok, steps := ShutDownAndClean(threads[t := ShuttingDown(taken)], t, taken, detached, world, start, [StartDetach(t)]);
      BackToIdle(threads, t, ShuttingDown(taken));
    }

    /** A detach that comes before any backend was published has only leases to clean up. */
    method CleanUnattached(ghost threads: map<Tid, Pc>, ghost t: Tid, world: World, ghost start: Sys, ghost path: seq<Step>)
      returns (ok: bool, ghost steps: seq<Step>)
      requires Ready(threads, t, Cleaning(hooks.Keys, false, ThenDetachedUnattached))
      requires Follow(start, path) == Some(View(threads))
      modifies this`state, this`backendShutdown, this`hooks, agent
      ensures Follow(start, steps) == Some(View(threads[t := Idle]))
      ensures state == if ok then SessionState.Detached else Failed
      ensures backendShutdown && (ok <==> AllReleased(hooks, {}))
      ensures EachTried(old(agent.Contents()), old(hooks), world, agent.Contents(), hooks)
    {
      hide Inv, AloneInGate, Enabled, Apply, EachTried, AllReleased, Follow;
      var failed;
      failed, steps := CleanUp(threads, t, ThenDetachedUnattached, world, start, path);
      ghost var before := View(threads[t := Cleaning({}, failed, ThenDetachedUnattached)]);
      state := SessionState.Detached;
      backendShutdown := true;
      if failed {
        state := Failed;
      }
      FinishIs(before, t, failed, ThenDetachedUnattached, Fields());
      assert before.threads[t := Idle] == threads[t := Idle];
      Took(start, steps, before, FinishCleaning(t), View(threads[t := Idle]), t);
      return !failed, steps + [FinishCleaning(t)];
    }

    /** The second half of a detach, from the call of `backend.detach` on. */
    method ShutDownAndClean(ghost threads: map<Tid, Pc>, ghost t: Tid, taken: Option<nat>, detached: bool, world: World,
                            ghost start: Sys, ghost path: seq<Step>)
      returns (ok: bool, ghost steps: seq<Step>)
      requires Ready(threads, t, ShuttingDown(taken)) && Follow(start, path) == Some(View(threads))
      modifies this`state, this`backend, this`backendShutdown, this`hooks, this`shutdowns, agent
      ensures Follow(start, steps) == Some(View(threads[t := Idle]))
      ensures state == if ok then SessionState.Detached else Failed
      ensures ok <==> (taken.None? || detached) && AllReleased(hooks, {})
      ensures shutdowns == old(shutdowns) + (if taken.Some? then [detached] else [])
      ensures backend == (if detached then None else taken)
      ensures backendShutdown <==> taken.None? || detached
      ensures EachTried(old(agent.Contents()), old(hooks), world, agent.Contents(), hooks)
    {
      hide Inv, AloneInGate, Enabled, Apply, EachTried, AllReleased, Follow;
      ghost var before := View(threads);
      TakenUnlessShutDown(before, t);
      var shutDown := taken.None? || detached;
      ShutDownIs(before, t, taken, shutDown);
      shutdowns := if taken.Some? then shutdowns + [shutDown] else shutdowns;
      ghost var next := ThenDetached(shutDown, taken);
      ghost var pc := Cleaning(hooks.Keys, false, next);
      Took(start, path, before, ShutDown(t, shutDown), View(threads[t := pc]), t);
      var failed;
      failed, steps := CleanUp(threads[t := pc], t, next, world, start, path + [ShutDown(t, shutDown)]);
      assert threads[t := pc][t := Cleaning({}, failed, next)] == threads[t := Cleaning({}, failed, next)];
      before := View(threads[t := Cleaning({}, failed, next)]);
      if shutDown && !failed {
        state := SessionState.Detached;
        backend := None;
        backendShutdown := true;
      } else {
        state := Failed;
        if shutDown {
          backendShutdown := true;
          backend := None;
        } else if !backendShutdown {
          backend := taken;
        }
      }
      ok := shutDown && !failed;
      FinishIs(before, t, failed, next, Fields());
      assert before.threads[t := Idle] == threads[t := Idle];
      Took(start, steps, before, FinishCleaning(t), View(threads[t := Idle]), t);
      steps := steps + [FinishCleaning(t)];
    }

    /** The gate part that `rpc_call`, `execute_command` and `health_check` share: which backend the call runs in. */
    method BackendCall(ghost threads: map<Tid, Pc>, ghost t: Tid) returns (used: Option<nat>, ghost steps: seq<Step>)
      requires Running(threads, t, Idle) && NoWriter(View(threads))
      ensures Follow(View(threads), steps) == Some(View(threads))
      ensures used.Some? <==> state == Attached
      ensures used.Some? ==> used == backend
    {
      hide Inv, NoWriter, AloneInGate;
      steps := [];
      ghost var start := View(threads);
      AttachedHasBackend(start);
      if state != Attached || backend.None? {
        return None, steps;
      }
      Took(start, [], start, EnterBackend(t), View(threads[t := InBackend]), t);
      assert threads[t := InBackend][t := Idle] == threads;
      Took(start, [EnterBackend(t)], View(threads[t := InBackend]), LeaveBackend(t), View(threads), t);
      return backend, [EnterBackend(t), LeaveBackend(t)];
    }

    method ReleaseExternalHook(ghost threads: map<Tid, Pc>, ghost t: Tid, token: U64, native: Native, delivery: Delivery)
      returns (r: Result<bool, HookError>, ghost steps: seq<Step>)
      requires Ready(threads, t, Idle)
      modifies this`hooks, agent
      ensures Follow(old(View(threads)), steps) == Some(View(threads))
      ensures token !in old(hooks) ==>
                && r == Failure(if token == 0 then InvalidToken else TokenNotFound)
                && agent.Contents() == old(agent.Contents()) && hooks == old(hooks)
      ensures token in old(hooks) ==>
                var lease := old(hooks)[token];
                && lease.receipt.token == Some(token) && Known(old(agent.Contents()), token)
                && var (served, receipt, _) := ReleaseLease(old(agent.Contents()), lease.receipt, native, delivery);
                && agent.Contents() == served && hooks == old(hooks)[token := lease.(receipt := receipt)]
                && r == ReleaseAnswer(lease.receipt, AgentReceipt(old(agent.Contents()), token), native, delivery)
                && (r.Success? <==> HandleReleased(receipt))
    {
      hide Inv, NoHolder, AloneInGate, Enabled, Apply, ReleaseLease, HandleReleased, Kept, Grows;
      steps := [];
      ghost var start := View(threads);
      TokensAreNotZero(start);
      if token == 0 {
        return Failure(InvalidToken), steps;
      }
      if token !in hooks {
        return Failure(TokenNotFound), steps;
      }
      var lease := hooks[token];
      LeaseHasToken(start, token);
      LeasesAreKnown(start);
      OwnReleaseSucceeds(start, token, native, delivery);
      OwnReleaseAnswers(start, token, native, delivery);
      if HandleReleased(lease.receipt) {
        return Success(false), steps;
      }
      AgentIsKept(start);
      NobodyElse(start, t);
      var receipt, released := Release(lease.receipt, native, delivery);
      hooks := hooks[token := lease.(receipt := receipt)];
      ReleaseHookIs(start, View(threads), t, token, native, delivery);
      Took(start, [], start, ReleaseHook(t, token, native, delivery), View(threads), t);
      steps := [ReleaseHook(t, token, native, delivery)];
      r := if released.Success? then Success(released.value) else Failure(AdapterError);
    }

    method UninstallExternalHook(ghost threads: map<Tid, Pc>, ghost t: Tid, token: U64, native: Native, delivery: Delivery,
                                 again: Native, redelivery: Delivery)
      returns (r: Result<bool, HookError>, ghost steps: seq<Step>)
      requires Ready(threads, t, Idle)
      modifies this`hooks, agent
      ensures Follow(old(View(threads)), steps) == Some(View(threads))
      ensures token !in old(hooks) ==>
                && r == Failure(if token == 0 then InvalidToken else TokenNotFound)
                && agent.Contents() == old(agent.Contents()) && hooks == old(hooks)
      ensures token in old(hooks) ==>
                var lease := old(hooks)[token];
                && lease.receipt.token == Some(token) && Known(old(agent.Contents()), token)
                && r == UninstallAnswerOf(lease, AgentReceipt(old(agent.Contents()), token), native, delivery)
                && if HandleReleased(lease.receipt) then agent.Contents() == old(agent.Contents()) && hooks == old(hooks)
                   else
                     var (served, receipt, _) := UninstallLease(old(agent.Contents()), lease.receipt, native, delivery);
                     && agent.Contents() == served
                     && hooks == old(hooks)[token := Lease(receipt, if r.Success? then Restored else lease.target)]
                     && (r.Success? ==> HandleReleased(receipt))
    {
      hide Inv, NoHolder, AloneInGate, Enabled, Apply, ReleaseLease, UninstallLease, HandleReleased, Kept, Grows;
      steps := [];
      ghost var start := View(threads);
      TokensAreNotZero(start);
      if token == 0 {
        return Failure(InvalidToken), steps;
      }
      if token !in hooks {
        return Failure(TokenNotFound), steps;
      }
      var lease := hooks[token];
      LeaseHasToken(start, token);
      LeasesAreKnown(start);
      if HandleReleased(lease.receipt) {
        if lease.target == Restored {
          return Success(false), steps;
        }
        return Failure(HookAlreadyReleased), steps;
      }
      AgentIsKept(start);
      NobodyElse(start, t);
      OwnUninstallKeeps(start, token, native, delivery);
      var receipt, uninstalled := Uninstall(lease.receipt, native, delivery);
      match uninstalled {
        case Failure(error) =>
          hooks := hooks[token := lease.(receipt := receipt)];
          match error {
            case UninstallIsUnavailable => r := Failure(UninstallNotAvailable);
            case WasReleased => r := Failure(HookAlreadyReleased);
            case Adapter => r := Failure(AdapterError);
          }
        case Success(_) =>
          hooks := hooks[token := Lease(receipt, Restored)];
          if HandleReleased(receipt) {
            r := Success(true);
          } else {
            var last, released := Release(receipt, again, redelivery);
            hooks := hooks[token := Lease(last, Restored)];
            r := if released.Success? then Success(released.value) else Failure(AdapterError);
          }
      }
      OwnUninstallAnswers(start, token, native, delivery);
      UninstallHookIs(start, View(threads), t, token, native, delivery, again, redelivery);
      Took(start, [], start, UninstallHook(t, token, native, delivery, again, redelivery), View(threads), t);
      steps := [UninstallHook(t, token, native, delivery, again, redelivery)];
    }

    method FindRemoteReceipt(requestId: string) returns (r: Option<Receipt>)
      ensures r.Some? <==> HasRequest(hooks, requestId)
      ensures r.Some? ==>
                r.value.request.requestId == requestId && exists k :: k in hooks && hooks[k].receipt == r.value
    {
      var todo := hooks.Keys;
      while todo != {}
        invariant todo <= hooks.Keys
        invariant forall k | k in hooks && k !in todo :: hooks[k].receipt.request.requestId != requestId
        decreases todo
      {
        var k :| k in todo;
        if hooks[k].receipt.request.requestId == requestId {
          return Some(hooks[k].receipt);
        }
        todo := todo - {k};
      }
      r := None;
    }

    /** The second critical section of an execute: look again, then insert the lease or give the hook back. */
    method AdoptRemote(ghost threads: map<Tid, Pc>, ghost t: Tid, request: Request, receipt: Receipt,
                       native: Native, delivery: Delivery, ghost start: Sys, ghost path: seq<Step>)
      returns (r: Result<Receipt, HookError>, ghost steps: seq<Step>)
      requires Ready(threads, t, Adopting(request, receipt)) && receipt.token.Some? && receipt.request == request
      requires Follow(start, path) == Some(View(threads))
      modifies this`hooks, agent
      ensures Follow(start, steps) == Some(View(threads[t := Idle]))
      ensures forall k | k in old(hooks) && old(hooks)[k].receipt.request.requestId == request.requestId ::
                && r == Existing(request, old(hooks)[k])
                && hooks == old(hooks) && agent.Contents() == old(agent.Contents())
      ensures !HasRequest(old(hooks), request.requestId) ==>
                if state in {Attaching, Attached} then
                  && r == Success(receipt) && hooks == old(hooks)[receipt.token.value := Lease(receipt, Installed)]
                  && agent.Contents() == old(agent.Contents())
                else
                  && r == Failure(SessionNotReady) && hooks == old(hooks)
                  && agent.Contents() == ReleaseLease(old(agent.Contents()), receipt, native, delivery).0
    {
      hide Inv, NoHolder, AloneInGate, HasRequest, Enabled, Apply, ReleaseLease, Kept, Grows;
      ghost var before := View(threads);
      NobodyElse(before, t);
      AgentIsKept(before);
      AdoptIs(before, t, native, delivery);
      steps := path + [Adopt(t, native, delivery)];
      var found := FindRemoteReceipt(request.requestId);
      if found.Some? {
        ghost var k :| k in hooks && hooks[k].receipt == found.value;
        OneLeasePerRequestNow(before, k);
        Took(start, path, before, Adopt(t, native, delivery), View(threads[t := Idle]), t);
        return if found.value.request == request then Success(found.value) else Failure(NotExecuted(BoundElsewhere, false)),
               steps;
      }
      NoLeaseFor(hooks, request.requestId);
      var token := receipt.token.value;
      if state != Attaching && state != Attached {
        r := Failure(SessionNotReady);
      } else if token == 0 {
        r := Failure(InvalidToken);
      } else if token in hooks {
        r := Failure(DuplicateHook);
      } else {
        hooks := hooks[token := Lease(receipt, Installed)];
        r := Success(receipt);
      }
      if r.Failure? {
        var last, released := Release(receipt, native, delivery);
      }
      AdoptedTokenIsNew(before, t);
      Took(start, path, before, Adopt(t, native, delivery), View(threads[t := Idle]), t);
    }

    /**
     Other threads may be inside the backend while the request is checked and sent.  Taking the write gate afterwards
     waits for them: where it is taken, `left` has them gone.

     A request that is invalid, someone else's, untimely, or already bound to a lease is answered without a word to the
     agent; any other is sent, and the answer, or the loss of it, decides as `Concluded` says.
     */
    method ExecuteExternalHook(ghost threads: map<Tid, Pc>, ghost t: Tid, request: Request, knownBackend: bool,
                               native: Native, delivery: Delivery, world: World)
      returns (r: Result<Receipt, HookError>, ghost steps: seq<Step>, ghost left: map<Tid, Pc>)
      requires Running(threads, t, Idle) && NoWriter(View(threads))
      modifies this`state, this`hooks, agent
      ensures Follow(old(View(threads)), steps) == Some(View(left))
      ensures left == threads || left == WithoutReaders(threads)
      ensures !ValidRequest(request) ==> r == Failure(NotExecuted(BadRequest, false))
      ensures ValidRequest(request) && request.ownerId != owner ==> r == Failure(InvalidHandle)
      ensures ValidRequest(request) && request.ownerId == owner && old(state) != Attached ==> r == Failure(SessionNotReady)
      ensures ValidRequest(request) && request.ownerId == owner && old(state) == Attached ==>
                forall k | k in old(hooks) && old(hooks)[k].receipt.request.requestId == request.requestId ::
                  r == Existing(request, old(hooks)[k])
      ensures !ToBeSent(request, owner, old(state), old(hooks)) ==>
                agent.Contents() == old(agent.Contents()) && hooks == old(hooks) && state == old(state)
      ensures ToBeSent(request, owner, old(state), old(hooks)) ==>
                var (served, reply) := Call(old(agent.Contents()), DoExecute(request), native, delivery);
                Concluded(request, reply, knownBackend, delivery, world, served, old(hooks), r)
    {
      hide Inv, NoHolder, NoWriter, AloneInGate, HasRequest, ValidRequest, Call, Enabled, Apply, Concluded;
      steps, left := [], threads;
      ghost var start := View(threads);
      if !ValidRequest(request) {
        return Failure(NotExecuted(BadRequest, false)), steps, left;
      }
      if request.ownerId != owner {
        return Failure(InvalidHandle), steps, left;
      }
      if state != Attached {
        return Failure(SessionNotReady), steps, left;
      }
      var found := FindRemoteReceipt(request.requestId);
      if found.Some? {
        ghost var k :| k in hooks && hooks[k].receipt == found.value;
        OneLeasePerRequestNow(start, k);
        return if found.value.request == request then Success(found.value) else Failure(NotExecuted(BoundElsewhere, false)),
               steps, left;
      }
      NoLeaseFor(hooks, request.requestId);
      AttachedHasBackend(start);
      if backend.None? {
        return Failure(NotExecuted(NoBackend, false)), steps, left;
      }
      r, steps, left := SendExecute(threads, t, request, knownBackend, native, delivery, world);
    }

    /** The part of an execute outside every critical section: the command goes out. */
    method SendExecute(ghost threads: map<Tid, Pc>, ghost t: Tid, request: Request, knownBackend: bool,
                       native: Native, delivery: Delivery, world: World)
      returns (r: Result<Receipt, HookError>, ghost steps: seq<Step>, ghost left: map<Tid, Pc>)
      requires Running(threads, t, Idle) && NoWriter(View(threads)) && ToBeSent(request, owner, state, hooks) && backend.Some?
      modifies this`state, this`hooks, agent
      ensures Follow(old(View(threads)), steps) == Some(View(left))
      ensures left == threads || left == WithoutReaders(threads)
      ensures var (served, reply) := Call(old(agent.Contents()), DoExecute(request), native, delivery);
              Concluded(request, reply, knownBackend, delivery, world, served, old(hooks), r)
    {
      hide Inv, NoHolder, NoWriter, AloneInGate, HasRequest, ValidRequest, Call, Enabled, Apply, Concluded;
      steps, left := [], threads;
      ghost var start := View(threads);
      StartExecuteIs(start, t, request);
      Took(start, [], start, StartExecute(t, request), View(threads[t := Calling(request)]), t);
      steps := [StartExecute(t, request)];
      ghost var before := View(threads[t := Calling(request)]);
      AgentIsKept(before);
      var reply := Send(DoExecute(request), native, delivery);
      ghost var pc := PcOf(request, reply, delivery, knownBackend);
      assert threads[t := Calling(request)][t := pc] == threads[t := pc];
      ExecuteCallIs(before, t, request, native, delivery, knownBackend, reply);
      Took(start, steps, before, ExecuteCall(t, native, delivery, knownBackend), View(threads[t := pc]), t);
      steps := steps + [ExecuteCall(t, native, delivery, knownBackend)];
      NoReaderIs(threads, t, pc);
      NoWriterStays(start, View(threads[t := pc]), t);
      r, steps, left := ConcludeExecute(threads, t, request, reply, knownBackend, delivery, world, start, steps);
    }

    /** What has become of an execute that was sent, `served` being the agent after the call. */
    ghost predicate Concluded(request: Request, reply: Option<Reply>, knownBackend: bool, delivery: Delivery, world: World,
                              served: Table, hooks0: map<U64, Lease>, r: Result<Receipt, HookError>)
      reads this, agent
    {
      match reply
      case None =>
        var transport := delivery.Lost? && delivery.transport;
        && r == Failure(NotExecuted(CallFailed, transport))
        && if transport then state == Failed && EachTried(served, hooks0, world, agent.Contents(), hooks)
           else state == Attached && agent.Contents() == served && hooks == hooks0
      case Some(answer) =>
        && state == Attached && agent.Contents() == served
        && match answer
           case ExecuteReply(receipt, _) =>
             if Adoptable(request, receipt, knownBackend) then
               r == Success(receipt) && hooks == hooks0[receipt.token.value := Lease(receipt, Installed)]
             else
               && r == Failure(if receipt.token == Some(0) then InvalidToken else InvalidHandle)
               && hooks == hooks0
           case ErrorReply(code, _, _, _, about, _) =>
             var uncertain := code == TargetStateUncertain || (about.Some? && about.value.life.targetState == Uncertain);
             r == Failure(NotExecuted(AgentSays(code), uncertain)) && hooks == hooks0
           case _ => r == Failure(NotExecuted(UnexpectedReply, false)) && hooks == hooks0
    }

    /** What follows the answer, or the loss of it. */
    method ConcludeExecute(ghost threads: map<Tid, Pc>, ghost t: Tid, request: Request, reply: Option<Reply>,
                           knownBackend: bool, delivery: Delivery, world: World, ghost start: Sys, ghost path: seq<Step>)
      returns (r: Result<Receipt, HookError>, ghost steps: seq<Step>, ghost left: map<Tid, Pc>)
      requires t in threads && threads[t] == Idle && state == Attached && !HasRequest(hooks, request.requestId)
      requires var pc := PcOf(request, reply, delivery, knownBackend);
               && Running(threads[t := pc], t, pc) && NoWriter(View(threads[t := pc]))
               && Follow(start, path) == Some(View(threads[t := pc]))
      modifies this`state, this`hooks, agent
      ensures Follow(start, steps) == Some(View(left))
      ensures left == threads || left == WithoutReaders(threads)
      ensures Concluded(request, reply, knownBackend, delivery, world, old(agent.Contents()), old(hooks), r)
    {
      hide Inv, NoHolder, NoWriter, AloneInGate, HasRequest, Follow, EachTried;
      steps, left := path, threads;
      ghost var pc := PcOf(request, reply, delivery, knownBackend);
      NoReaderIs(threads, t, pc);
      assert threads[t := Idle] == threads;
      match reply {
        case None =>
          if delivery.Lost? && delivery.transport {
            var marked;
            steps := ReadersLeave(start, steps, View(threads[t := pc]), t);
            left := WithoutReaders(threads);
            marked, steps := MarkTransportFailure(left[t := pc], t, world, start, steps);
            return Failure(NotExecuted(CallFailed, true)), steps, left;
          }
          r := Failure(NotExecuted(CallFailed, false));
        case Some(ExecuteReply(receipt, _)) =>
          if !Adoptable(request, receipt, knownBackend) {
            return Failure(if receipt.token == Some(0) then InvalidToken else InvalidHandle), steps, left;
          }
          var (releasing, redelivery) := world(receipt.token.value);
          steps := ReadersLeave(start, steps, View(threads[t := pc]), t);
          left := WithoutReaders(threads);
          r, steps := AdoptRemote(left[t := pc], t, request, receipt, releasing, redelivery, start, steps);
        case Some(ErrorReply(code, _, _, _, about, _)) =>
          r := Failure(NotExecuted(AgentSays(code), code == TargetStateUncertain
                                                    || (about.Some? && about.value.life.targetState == Uncertain)));
        case Some(_) =>
          r := Failure(NotExecuted(UnexpectedReply, false));
      }
    }
  }

  /** The answer to a request whose identifier a lease already bears. */
  function Existing(request: Request, lease: Lease): Result<Receipt, HookError> {
    if lease.receipt.request == request then Success(lease.receipt) else Failure(NotExecuted(BoundElsewhere, false))
  }

  predicate ToBeSent(request: Request, owner: string, state: SessionState, hooks: map<U64, Lease>) {
    && ValidRequest(request) && request.ownerId == owner
    && state == Attached && !HasRequest(hooks, request.requestId)
  }

  lemma NoLeaseFor(hooks: map<U64, Lease>, requestId: string)
    requires !HasRequest(hooks, requestId)
    ensures forall k | k in hooks :: hooks[k].receipt.request.requestId != requestId
  {
  }

  lemma OneLeasePerRequestNow(s: Sys, a: U64)
    requires Inv(s) && a in s.session.hooks
    ensures forall b | b in s.session.hooks
                       && s.session.hooks[a].receipt.request.requestId == s.session.hooks[b].receipt.request.requestId :: a == b
    ensures HasRequest(s.session.hooks, s.session.hooks[a].receipt.request.requestId)
  {
    hide PcOk, SessionOk, Exclusive;
    assert LeaseBacked(s.agent, s.owner, a, s.session.hooks[a]);
    forall b | b in s.session.hooks
               && s.session.hooks[a].receipt.request.requestId == s.session.hooks[b].receipt.request.requestId
      ensures a == b
    {
      assert LeaseBacked(s.agent, s.owner, b, s.session.hooks[b]);
    }
  }

  /** The token of a receipt about to be adopted is not zero, and belongs to no lease of another request. */
  lemma AdoptedTokenIsNew(s: Sys, t: Tid)
    requires Inv(s) && t in s.threads && s.threads[t].Adopting?
    ensures var (request, receipt) := (s.threads[t].request, s.threads[t].receipt);
            && receipt.token.Some? && receipt.token.value != 0
            && (receipt.token.value in s.session.hooks ==> HasRequest(s.session.hooks, request.requestId))
  {
    hide Kept, SessionOk, Exclusive;
    var receipt := s.threads[t].receipt;
    assert PcOk(s, s.threads[t]);
    var token := receipt.token.value;
    if token in s.session.hooks {
      assert LeaseBacked(s.agent, s.owner, token, s.session.hooks[token]);
      TokenIdentifiesRequest(s.agent, s.owner, token, s.session.hooks[token].receipt, receipt);
    }
  }

  /** Every thread inside the backend has come out of it. */
  function WithoutReaders(threads: map<Tid, Pc>): map<Tid, Pc> {
    map u | u in threads :: if threads[u].InBackend? then Idle else threads[u]
  }

  lemma NoReaderIs(threads: map<Tid, Pc>, t: Tid, pc: Pc)
    requires t in threads && threads[t] == Idle && !pc.InBackend?
    ensures WithoutReaders(threads[t := pc]) == WithoutReaders(threads)[t := pc]
    ensures WithoutReaders(threads)[t := pc][t := Idle] == WithoutReaders(threads)
    ensures WithoutReaders(threads)[t := Idle] == WithoutReaders(threads)
  {
  }

  lemma NoWriterStays(a: Sys, b: Sys, t: Tid)
    requires NoWriter(a) && t in b.threads && !Writes(b.threads[t]) && b.threads == a.threads[t := b.threads[t]]
    ensures NoWriter(b)
  {
  }

  /** Waiting for the write gate: one after the other, the threads inside the backend leave it. */
  lemma ReadersLeave(start: Sys, path: seq<Step>, s: Sys, t: Tid) returns (steps: seq<Step>)
    requires Follow(start, path) == Some(s) && Inv(s) && NoWriter(s)
    ensures Follow(start, steps) == Some(s.(threads := WithoutReaders(s.threads)))
    ensures Inv(s.(threads := WithoutReaders(s.threads)))
    ensures AloneInGate(s.(threads := WithoutReaders(s.threads)), t)
  {
    hide Inv, Follow;
    steps := path;
    var todo := set u | u in s.threads && s.threads[u].InBackend?;
    var now := s;
    while todo != {}
      invariant todo <= s.threads.Keys == now.threads.Keys && now == s.(threads := now.threads)
      invariant forall u | u in s.threads ::
                  now.threads[u] == if s.threads[u].InBackend? && u !in todo then Idle else s.threads[u]
      invariant forall u | u in todo :: s.threads[u].InBackend?
      invariant Follow(start, steps) == Some(now) && Inv(now)
      decreases todo
    {
      var u :| u in todo;
      var next := Goto(now, u, Idle);
      Took(start, steps, now, LeaveBackend(u), next, u);
      now, todo, steps := next, todo - {u}, steps + [LeaveBackend(u)];
    }
    assert now.threads == WithoutReaders(s.threads);
  }

  lemma Took(start: Sys, steps: seq<Step>, before: Sys, step: Step, after: Sys, t: Tid)
    requires Follow(start, steps) == Some(before) && Inv(before) && Enabled(before, step) && Apply(before, step) == after
    requires t in before.threads && t in after.threads && after.threads == before.threads[t := after.threads[t]]
    ensures Follow(start, steps + [step]) == Some(after) && Inv(after)
    ensures AloneInGate(before, t) ==> AloneInGate(after, t)
  {
    hide Inv, Enabled, Apply;
    OneMore(start, steps, before, step);
    StepInv(before, step);
  }

  lemma NobodyElse(s: Sys, t: Tid)
    requires AloneInGate(s, t) && !Writes(At(s, t)) && !Reads(At(s, t))
    ensures NoHolder(s) && NoWriter(s)
  {
  }

  lemma StartDetachIs(s: Sys, t: Tid)
    requires At(s, t).Idle? && NoHolder(s)
    ensures Enabled(s, StartDetach(t))
    ensures var s' := Apply(s, StartDetach(t));
            match s.session.state
            case Attaching => s' == Goto(s, t, Cleaning(s.session.hooks.Keys, false, ThenDetachedUnattached))
            case Attached | Failed =>
              if s.session.backendShutdown then
                s' == Goto(s.(session := s.session.(state := Detaching)), t, ShuttingDown(None))
              else
                s' == Goto(s.(session := s.session.(state := Detaching, backend := None)), t, ShuttingDown(s.session.backend))
            case Detaching | Detached => s' == s
  {
  }

  lemma ShutDownIs(s: Sys, t: Tid, taken: Option<nat>, ok: bool)
    requires At(s, t) == ShuttingDown(taken) && (taken.None? ==> ok)
    ensures Enabled(s, ShutDown(t, ok))
    ensures Apply(s, ShutDown(t, ok)) ==
              Goto(s.(shutdowns := if taken.Some? then s.shutdowns + [ok] else s.shutdowns), t,
                   Cleaning(s.session.hooks.Keys, false, ThenDetached(ok, taken)))
  {
  }

  lemma FinishIs(s: Sys, t: Tid, failed: bool, next: AfterCleanup, session: Lifecycle)
    requires At(s, t) == Cleaning({}, failed, next)
    requires session == AfterFinishCleaning(s, t).session
    ensures Enabled(s, FinishCleaning(t))
    ensures Apply(s, FinishCleaning(t)) == Goto(s.(session := session), t, Idle)
  {
  }

  lemma OwnUninstallKeeps(s: Sys, token: U64, native: Native, delivery: Delivery)
    requires Inv(s) && token in s.session.hooks && s.session.hooks[token].receipt.token.Some?
    ensures var (agent, receipt, r) := UninstallLease(s.agent, s.session.hooks[token].receipt, native, delivery);
            receipt.token.Some? && Kept(agent)
  {
    hide PcOk, SessionOk, Exclusive, UninstallLease;
    assert LeaseBacked(s.agent, s.owner, token, s.session.hooks[token]);
    UninstallLeaseConverges(s.agent, s.owner, token, s.session.hooks[token].receipt, native, delivery);
  }

  lemma OwnUninstallAnswers(s: Sys, token: U64, native: Native, delivery: Delivery)
    requires Inv(s) && token in s.session.hooks && s.session.hooks[token].receipt.token.Some? && Known(s.agent, token)
    requires !HandleReleased(s.session.hooks[token].receipt)
    ensures var (_, receipt, r) := UninstallLease(s.agent, s.session.hooks[token].receipt, native, delivery);
            (r.Success? ==> HandleReleased(receipt)) &&
            UninstallAnswerOf(s.session.hooks[token], AgentReceipt(s.agent, token), native, delivery) ==
              match r
              case Success(_) => Success(true)
              case Failure(UninstallIsUnavailable) => Failure(UninstallNotAvailable)
              case Failure(WasReleased) => Failure(HookAlreadyReleased)
              case Failure(Adapter) => Failure(AdapterError)
  {
    hide Kept, PcOk, SessionOk, Exclusive, UninstallLease, UninstallVerdict, Backed, Living;
    assert LeaseBacked(s.agent, s.owner, token, s.session.hooks[token]);
    UninstallLeaseAnswer(s.agent, s.owner, token, s.session.hooks[token].receipt, native, delivery);
  }

  lemma OwnReleaseAnswers(s: Sys, token: U64, native: Native, delivery: Delivery)
    requires Inv(s) && token in s.session.hooks && s.session.hooks[token].receipt.token.Some? && Known(s.agent, token)
    ensures var (agent, receipt, r) := ReleaseLease(s.agent, s.session.hooks[token].receipt, native, delivery);
            && ReleaseAnswer(s.session.hooks[token].receipt, AgentReceipt(s.agent, token), native, delivery) ==
                 (if r.Success? then Success(r.value) else Failure(AdapterError))
            && (HandleReleased(s.session.hooks[token].receipt) ==>
                  agent == s.agent && receipt == s.session.hooks[token].receipt && r == Success(false))
  {
    hide PcOk, SessionOk, Exclusive, ReleaseLease;
    assert LeaseBacked(s.agent, s.owner, token, s.session.hooks[token]);
    ReleaseLeaseAnswer(s.agent, s.owner, token, s.session.hooks[token].receipt, native, delivery);
  }

  lemma UninstallHookIs(s: Sys, after: Sys, t: Tid, token: U64, native: Native, delivery: Delivery,
                        again: Native, redelivery: Delivery)
    requires At(s, t).Idle? && NoHolder(s)
    requires token in s.session.hooks && s.session.hooks[token].receipt.token.Some?
    requires !HandleReleased(s.session.hooks[token].receipt)
    requires var lease := s.session.hooks[token];
             var (agent, receipt, r) := UninstallLease(s.agent, lease.receipt, native, delivery);
             && receipt.token.Some?
             && after.owner == s.owner && after.shutdowns == s.shutdowns && after.threads == s.threads
             && if r.Failure? then
                  after.agent == agent && after.session == s.session.(hooks := s.session.hooks[token := lease.(receipt := receipt)])
                else if HandleReleased(receipt) then
                  after.agent == agent && after.session == s.session.(hooks := s.session.hooks[token := Lease(receipt, Restored)])
                else
                  var (agent', last, _) := ReleaseLease(agent, receipt, again, redelivery);
                  after.agent == agent' && after.session == s.session.(hooks := s.session.hooks[token := Lease(last, Restored)])
    ensures Enabled(s, UninstallHook(t, token, native, delivery, again, redelivery))
    ensures Apply(s, UninstallHook(t, token, native, delivery, again, redelivery)) == after
  {
    hide ReleaseLease, UninstallLease, NoHolder;
  }

  lemma StartExecuteIs(s: Sys, t: Tid, request: Request)
    requires At(s, t).Idle? && NoWriter(s) && ValidRequest(request) && request.ownerId == s.owner
    requires s.session.state == Attached && s.session.backend.Some? && !HasRequest(s.session.hooks, request.requestId)
    ensures Enabled(s, StartExecute(t, request))
    ensures Apply(s, StartExecute(t, request)) == Goto(s, t, Calling(request))
  {
    hide ValidRequest, NoWriter, HasRequest;
  }

  lemma ExecuteCallIs(s: Sys, t: Tid, request: Request, native: Native, delivery: Delivery, known: bool, reply: Option<Reply>)
    requires At(s, t) == Calling(request) && reply == Call(s.agent, DoExecute(request), native, delivery).1
    ensures Enabled(s, ExecuteCall(t, native, delivery, known))
    ensures Apply(s, ExecuteCall(t, native, delivery, known)) ==
              Goto(s.(agent := Call(s.agent, DoExecute(request), native, delivery).0), t,
                   PcOf(request, reply, delivery, known))
  {
    hide Call, Adoptable;
  }

  lemma MarkFailureIs(s: Sys, t: Tid)
    requires (At(s, t).Idle? || At(s, t).Marking?) && NoHolder(s)
    ensures Enabled(s, MarkFailure(t))
    ensures Apply(s, MarkFailure(t)) ==
              if s.session.state in {Attached, Failed} then
                Goto(s.(session := s.session.(state := Failed)), t, Cleaning(s.session.hooks.Keys, false, ThenIdle))
              else Goto(s, t, Idle)
  {
  }

  lemma AdoptIs(s: Sys, t: Tid, native: Native, delivery: Delivery)
    requires At(s, t).Adopting? && At(s, t).receipt.token.Some? && NoHolder(s)
    ensures Enabled(s, Adopt(t, native, delivery))
    ensures Apply(s, Adopt(t, native, delivery)) == AfterAdopt(s, t, native, delivery)
  {
  }

  lemma BackToIdle(threads: map<Tid, Pc>, t: Tid, pc: Pc)
    requires t in threads && threads[t] == Idle
    ensures threads[t := pc][t := Idle] == threads == threads[t := Idle]
  {
  }

  lemma AttachedHasBackend(s: Sys)
    requires Inv(s)
    ensures s.session.state == Attached ==> s.session.backend.Some?
  {
  }

  lemma AttachingHasNoBackend(s: Sys)
    requires Inv(s)
    ensures s.session.state == Attaching ==> s.session.backend == None
  {
  }

  lemma HeldUnlessShutDown(s: Sys)
    requires Inv(s) && s.session.state in {Attached, Failed}
    ensures s.session.backend.None? <==> s.session.backendShutdown
  {
  }

  lemma TakenUnlessShutDown(s: Sys, t: Tid)
    requires Inv(s) && t in s.threads && s.threads[t].ShuttingDown?
    ensures s.threads[t].backend.None? <==> s.session.backendShutdown
  {
    hide Kept, Exclusive, SessionOk, LeaseBacked;
    assert PcOk(s, s.threads[t]);
  }

  lemma TokensAreNotZero(s: Sys)
    requires Inv(s)
    ensures 0 !in s.session.hooks
  {
    hide Kept, PcOk, SessionOk, Exclusive;
    forall k | k in s.session.hooks
      ensures k != 0
    {
      assert LeaseBacked(s.agent, s.owner, k, s.session.hooks[k]);
    }
  }

  lemma OwnReleaseSucceeds(s: Sys, token: U64, native: Native, delivery: Delivery)
    requires Inv(s) && token in s.session.hooks && s.session.hooks[token].receipt.token.Some?
    ensures var (_, receipt, r) := ReleaseLease(s.agent, s.session.hooks[token].receipt, native, delivery);
            r.Success? <==> HandleReleased(receipt)
  {
    hide PcOk, SessionOk, Exclusive, ReleaseLease, Backed;
    assert LeaseBacked(s.agent, s.owner, token, s.session.hooks[token]);
    ReleaseSucceedsExactly(s.agent, s.owner, token, s.session.hooks[token].receipt, native, delivery);
  }

  lemma ReleaseHookIs(s: Sys, after: Sys, t: Tid, token: U64, native: Native, delivery: Delivery)
    requires At(s, t).Idle? && NoHolder(s)
    requires token in s.session.hooks && s.session.hooks[token].receipt.token.Some?
    requires var lease := s.session.hooks[token];
             var (agent, receipt, _) := ReleaseLease(s.agent, lease.receipt, native, delivery);
             && after.agent == agent && after.owner == s.owner && after.shutdowns == s.shutdowns
             && after.session == s.session.(hooks := s.session.hooks[token := lease.(receipt := receipt)])
             && after.threads == s.threads
    ensures Enabled(s, ReleaseHook(t, token, native, delivery))
    ensures Apply(s, ReleaseHook(t, token, native, delivery)) == after
  {
    hide ReleaseLease;
  }

  lemma LeaseHasToken(s: Sys, token: U64)
    requires Inv(s) && token in s.session.hooks
    ensures s.session.hooks[token].receipt.token == Some(token)
  {
    hide Kept, PcOk, SessionOk, Exclusive;
    assert LeaseBacked(s.agent, s.owner, token, s.session.hooks[token]);
  }

  lemma AgentIsKept(s: Sys)
    requires Inv(s)
    ensures Kept(s.agent) && Indexed(s.agent)
  {
  }

  lemma LeasesAreKnown(s: Sys)
    requires Inv(s)
    ensures Indexed(s.agent)
    ensures forall k | k in s.session.hooks :: Known(s.agent, k)
  {
    hide PcOk, SessionOk, Exclusive;
    forall k | k in s.session.hooks
      ensures Known(s.agent, k)
    {
      assert LeaseBacked(s.agent, s.owner, k, s.session.hooks[k]);
    }
  }

  lemma NoneReleased(hooks: map<U64, Lease>)
    ensures AllReleased(hooks, hooks.Keys)
  {
  }

  lemma OneMoreReleased(hooks: map<U64, Lease>, todo: set<U64>, k: U64, lease: Lease)
    requires k in hooks && k in todo
    ensures AllReleased(hooks[k := lease], todo - {k}) <==> AllReleased(hooks, todo) && HandleReleased(lease.receipt)
  {
    hide HandleReleased;
    var hooks' := hooks[k := lease];
    if AllReleased(hooks', todo - {k}) {
      assert k in hooks' && k !in todo - {k};
      forall j | j in hooks && j !in todo
        ensures HandleReleased(hooks[j].receipt)
      {
        assert j in hooks' && j !in todo - {k};
      }
    }
  }

  lemma CleanOneIs(s: Sys, after: Sys, t: Tid, token: U64, native: Native, delivery: Delivery)
    requires t in s.threads && s.threads[t].Cleaning? && token in s.threads[t].todo
    requires token in s.session.hooks && s.session.hooks[token].receipt.token.Some?
    requires var lease := s.session.hooks[token];
             var (agent, receipt, r) := ReleaseLease(s.agent, lease.receipt, native, delivery);
             var pc := s.threads[t];
             && after.agent == agent && after.owner == s.owner && after.shutdowns == s.shutdowns
             && after.session == s.session.(hooks := s.session.hooks[token := lease.(receipt := receipt)])
             && after.threads == s.threads[t := Cleaning(pc.todo - {token}, pc.failed || r.Failure?, pc.next)]
    ensures Enabled(s, CleanOne(t, token, native, delivery))
    ensures Apply(s, CleanOne(t, token, native, delivery)) == after
  {
    hide ReleaseLease;
  }
}

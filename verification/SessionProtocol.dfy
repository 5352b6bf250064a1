/**
 One controller session against one agent: any number of controller threads, a reader/writer command gate,
 a transport that may lose a command or its reply, and other clients of the same agent.

 The lifecycle mutex is held for the whole of every critical section except while the backend shuts down, so a
 step is one stretch between two points where another thread or the agent's other clients can be noticed.
 */
module SessionProtocol {
  import opened Wrappers
  import opened HookCommand
  import opened AgentRegistry

  datatype SessionState = Attaching | Attached | Detaching | Detached | Failed

  /** A remote lease: the receipt as last heard from the agent, and the target state shown to users. */
  datatype Lease = Lease(receipt: Receipt, target: TargetState)

  datatype Lifecycle = Lifecycle(
    state: SessionState,
    backend: Option<nat>,
    backendShutdown: bool,
    hooks: map<U64, Lease>)

  const NEW_SESSION := Lifecycle(Attaching, None, false, map[])

  // ---- the transport -------------------------------------------------------------------------------------

  /** A call is answered, or fails with or without the agent having acted; a failed call is never answered later. */
  datatype Delivery = Delivered | Lost(acted: bool, transport: bool)

  function Call(agent: Table, command: Command, native: Native, delivery: Delivery): (Table, Option<Reply>) {
    var (after, reply) := Serve(agent, command, native);
    match delivery
    case Delivered => (after, Some(reply))
    case Lost(acted, _) => (if acted then after else agent, None)
  }

  // ---- the lease -----------------------------------------------------------------------------------------

  datatype LeaseError = UninstallIsUnavailable | WasReleased | Adapter

  predicate SameIdentity(a: Receipt, b: Receipt) {
    a.request.requestId == b.request.requestId && a.request.ownerId == b.request.ownerId && a.token == b.token
  }

  function UpdateReceipt(cached: Receipt, heard: Receipt): Receipt {
    if SameIdentity(heard, cached) then heard else cached
  }

  function LeaseErrorOf(code: ErrorCode): LeaseError {
    match code
    case NativeUninstallUnavailable => UninstallIsUnavailable
    case AlreadyReleased => WasReleased
    case _ => Adapter
  }

  function HeardRelease(cached: Receipt, reply: Option<Reply>): (Receipt, Result<bool, LeaseError>) {
    match reply
    case Some(ReleaseReply(receipt, changed)) =>
      if SameIdentity(receipt, cached) then (receipt, Success(changed)) else (cached, Failure(Adapter))
    case Some(ErrorReply(code, _, _, _, about, _)) =>
      (if about.Some? then UpdateReceipt(cached, about.value) else cached, Failure(LeaseErrorOf(code)))
    case _ => (cached, Failure(Adapter))
  }

  function HeardUninstall(cached: Receipt, reply: Option<Reply>): (Receipt, Result<(), LeaseError>) {
    match reply
    case Some(UninstallReply(receipt, _)) =>
      if SameIdentity(receipt, cached) then (receipt, Success(())) else (cached, Failure(Adapter))
    case Some(ErrorReply(code, _, _, _, about, _)) =>
      (if about.Some? then UpdateReceipt(cached, about.value) else cached, Failure(LeaseErrorOf(code)))
    case _ => (cached, Failure(Adapter))
  }

  predicate HandleReleased(receipt: Receipt) {
    receipt.life.ownership == Released
  }

  /** `release` on a lease: nothing is sent once the cached receipt says released. */
  function ReleaseLease(agent: Table, cached: Receipt, native: Native, delivery: Delivery)
    : (Table, Receipt, Result<bool, LeaseError>)
    requires cached.token.Some?
  {
    if HandleReleased(cached) then (agent, cached, Success(false))
    else
      var (after, reply) := Call(agent, DoRelease(cached.request.ownerId, cached.token.value), native, delivery);
      var (heard, result) := HeardRelease(cached, reply);
      (after, heard, result)
  }

  function UninstallLease(agent: Table, cached: Receipt, native: Native, delivery: Delivery)
    : (Table, Receipt, Result<(), LeaseError>)
    requires cached.token.Some?
  {
    var (after, reply) := Call(agent, DoUninstall(cached.request.ownerId, cached.token.value), native, delivery);
    var (heard, result) := HeardUninstall(cached, reply);
    (after, heard, result)
  }

  // ---- threads -------------------------------------------------------------------------------------------

  datatype AfterCleanup =
    | ThenIdle
    | ThenDetachedUnattached
    | ThenDetached(shutdown: bool, backend: Option<nat>)

  datatype Pc =
    | Idle
    | InBackend                                     // rpc_call, execute_command or health_check, read gate held
    | Calling(request: Request)                     // execute: checked, no gate, command on its way
    | Adopting(request: Request, receipt: Receipt)  // execute: receipt accepted, waiting for the write gate
    | Marking                                       // a transport failure is to be recorded
    | ShuttingDown(backend: Option<nat>)            // detach: write gate held, inside backend.detach
    | Cleaning(todo: set<U64>, failed: bool, next: AfterCleanup)  // write gate held, releasing leases

  type Tid = nat

  datatype Sys = Sys(
    owner: string,
    agent: Table,
    session: Lifecycle,
    threads: map<Tid, Pc>,
    shutdowns: seq<bool>)  // the outcome of every backend.detach so far

  function At(s: Sys, t: Tid): Pc {
    if t in s.threads then s.threads[t] else Idle
  }

  function Goto(s: Sys, t: Tid, pc: Pc): Sys {
    s.(threads := s.threads[t := pc])
  }

  predicate Reads(pc: Pc) { pc.InBackend? }

  predicate Writes(pc: Pc) { pc.ShuttingDown? || pc.Cleaning? }

  predicate NoWriter(s: Sys) {
    forall t | t in s.threads :: !Writes(s.threads[t])
  }

  predicate NoHolder(s: Sys) {
    forall t | t in s.threads :: !Writes(s.threads[t]) && !Reads(s.threads[t])
  }

  // ---- steps ---------------------------------------------------------------------------------------------

  predicate HasRequest(hooks: map<U64, Lease>, requestId: string) {
    exists k | k in hooks :: hooks[k].receipt.request.requestId == requestId
  }

  predicate Adoptable(request: Request, receipt: Receipt, knownBackend: bool) {
    && receipt.token.Some? && receipt.token.value != 0
    && receipt.request == request
    && receipt.life.ownership == Owned && receipt.life.targetState == Installed
    && knownBackend
  }

  predicate CanAdopt(session: Lifecycle) {
    session.state in {Attaching, Attached}
  }

  datatype Step =
    | EnterBackend(t: Tid)
    | LeaveBackend(t: Tid)
    | CompleteAttach(t: Tid, backend: nat)
    | FailAttach(t: Tid)
    | StartExecute(t: Tid, request: Request)
    | ExecuteCall(t: Tid, native: Native, delivery: Delivery, knownBackend: bool)
    | Adopt(t: Tid, native: Native, delivery: Delivery)
    | MarkFailure(t: Tid)
    | StartDetach(t: Tid)
    | ShutDown(t: Tid, ok: bool)
    | StartCleanup(t: Tid)
    | CleanOne(t: Tid, token: U64, native: Native, delivery: Delivery)
    | FinishCleaning(t: Tid)
    | ReleaseHook(t: Tid, token: U64, native: Native, delivery: Delivery)
    | UninstallHook(t: Tid, token: U64, native: Native, delivery: Delivery, again: Native, redelivery: Delivery)
    | OtherClient(command: Command, native: Native)

  predicate Enabled(s: Sys, step: Step) {
    match step
    case EnterBackend(t) =>
      At(s, t).Idle? && NoWriter(s) && s.session.state == Attached && s.session.backend.Some?
    case LeaveBackend(t) => At(s, t).InBackend?
    case CompleteAttach(t, _) => At(s, t).Idle? && NoHolder(s)
    case FailAttach(t) => At(s, t).Idle? && NoHolder(s) && s.session.state == Attaching
    case StartExecute(t, request) =>
      && At(s, t).Idle? && NoWriter(s)
      && ValidRequest(request) && request.ownerId == s.owner
      && s.session.state == Attached && s.session.backend.Some?
      && !HasRequest(s.session.hooks, request.requestId)
    case ExecuteCall(t, _, _, _) => At(s, t).Calling?
    case Adopt(t, _, _) => At(s, t).Adopting? && At(s, t).receipt.token.Some? && NoHolder(s)
    case MarkFailure(t) => (At(s, t).Idle? || At(s, t).Marking?) && NoHolder(s)
    case StartDetach(t) => At(s, t).Idle? && NoHolder(s)
    case ShutDown(t, ok) => At(s, t).ShuttingDown? && (At(s, t).backend.None? ==> ok)
    case StartCleanup(t) => At(s, t).Idle? && NoHolder(s)
    case CleanOne(t, k, _, _) =>
      && At(s, t).Cleaning? && k in At(s, t).todo
      && k in s.session.hooks && s.session.hooks[k].receipt.token.Some?
    case FinishCleaning(t) => At(s, t).Cleaning? && At(s, t).todo == {}
    case ReleaseHook(t, k, _, _) =>
      At(s, t).Idle? && NoHolder(s) && k in s.session.hooks && s.session.hooks[k].receipt.token.Some?
    case UninstallHook(t, k, _, _, _, _) =>
      At(s, t).Idle? && NoHolder(s) && k in s.session.hooks && s.session.hooks[k].receipt.token.Some?
    case OtherClient(_, _) => true
  }

  function WithLease(s: Sys, agent: Table, token: U64, lease: Lease): Sys {
    s.(agent := agent, session := s.session.(hooks := s.session.hooks[token := lease]))
  }

  /** Where a thread goes on from the answer to its execute. */
  function PcOf(request: Request, reply: Option<Reply>, delivery: Delivery, knownBackend: bool): Pc {
    match reply
    case Some(ExecuteReply(receipt, _)) =>
      if Adoptable(request, receipt, knownBackend) then Adopting(request, receipt) else Idle
    case Some(_) => Idle
    case None => if delivery.Lost? && delivery.transport then Marking else Idle
  }

  function AfterExecuteCall(s: Sys, t: Tid, native: Native, delivery: Delivery, knownBackend: bool): Sys
    requires At(s, t).Calling?
  {
    var request := At(s, t).request;
    var (agent, reply) := Call(s.agent, DoExecute(request), native, delivery);
    Goto(s.(agent := agent), t, PcOf(request, reply, delivery, knownBackend))
  }

  function AfterAdopt(s: Sys, t: Tid, native: Native, delivery: Delivery): Sys
    requires At(s, t).Adopting? && At(s, t).receipt.token.Some?
  {
    var (request, receipt) := (At(s, t).request, At(s, t).receipt);
    var token := receipt.token.value;
    if HasRequest(s.session.hooks, request.requestId) then
      Goto(s, t, Idle)
    else if !CanAdopt(s.session) || token == 0 || token in s.session.hooks then
      Goto(s.(agent := ReleaseLease(s.agent, receipt, native, delivery).0), t, Idle)
    else
      Goto(WithLease(s, s.agent, token, Lease(receipt, Installed)), t, Idle)
  }

  function AfterStartDetach(s: Sys, t: Tid): Sys {
    match s.session.state
    case Attaching => Goto(s, t, Cleaning(s.session.hooks.Keys, false, ThenDetachedUnattached))
    case Attached | Failed =>
      var taken := if s.session.backendShutdown then None else s.session.backend;
      var left := if s.session.backendShutdown then s.session.backend else None;
      Goto(s.(session := s.session.(state := Detaching, backend := left)), t, ShuttingDown(taken))
    case Detaching | Detached => s
  }

  function AfterCleanOne(s: Sys, t: Tid, token: U64, native: Native, delivery: Delivery): Sys
    requires At(s, t).Cleaning? && token in s.session.hooks && s.session.hooks[token].receipt.token.Some?
  {
    var (pc, lease) := (At(s, t), s.session.hooks[token]);
    var (agent, receipt, result) := ReleaseLease(s.agent, lease.receipt, native, delivery);
    Goto(WithLease(s, agent, token, lease.(receipt := receipt)), t,
         Cleaning(pc.todo - {token}, pc.failed || result.Failure?, pc.next))
  }

  function AfterFinishCleaning(s: Sys, t: Tid): Sys
    requires At(s, t).Cleaning?
  {
    var pc := At(s, t);
    var session :=
      match pc.next
      case ThenIdle => s.session
      case ThenDetachedUnattached =>
        s.session.(state := if pc.failed then Failed else Detached, backendShutdown := true)
      case ThenDetached(ok, backend) =>
        if ok && !pc.failed then s.session.(state := Detached, backend := None, backendShutdown := true)
        else if ok then s.session.(state := Failed, backend := None, backendShutdown := true)
        else if !s.session.backendShutdown then s.session.(state := Failed, backend := backend)
        else s.session.(state := Failed);
    Goto(s.(session := session), t, Idle)
  }

  function AfterReleaseHook(s: Sys, token: U64, native: Native, delivery: Delivery): Sys
    requires token in s.session.hooks && s.session.hooks[token].receipt.token.Some?
  {
    var lease := s.session.hooks[token];
    var (agent, receipt, _) := ReleaseLease(s.agent, lease.receipt, native, delivery);
    WithLease(s, agent, token, lease.(receipt := receipt))
  }

  function AfterUninstallHook(s: Sys, token: U64, native: Native, delivery: Delivery,
                              again: Native, redelivery: Delivery): Sys
    requires token in s.session.hooks && s.session.hooks[token].receipt.token.Some?
  {
    var lease := s.session.hooks[token];
    if HandleReleased(lease.receipt) then s
    else
      var (agent, receipt, result) := UninstallLease(s.agent, lease.receipt, native, delivery);
      if result.Failure? then WithLease(s, agent, token, lease.(receipt := receipt))
      else if HandleReleased(receipt) || receipt.token.None? then
        WithLease(s, agent, token, Lease(receipt, Restored))
      else
        var (agent', receipt', _) := ReleaseLease(agent, receipt, again, redelivery);
        WithLease(s, agent', token, Lease(receipt', Restored))
  }

  function Apply(s: Sys, step: Step): Sys
    requires Enabled(s, step)
  {
    match step
    case EnterBackend(t) => Goto(s, t, InBackend)
    case LeaveBackend(t) => Goto(s, t, Idle)
    case CompleteAttach(t, backend) =>
      if s.session.state != Attaching then s
      else s.(session := s.session.(state := Attached, backend := Some(backend), backendShutdown := false))
    case FailAttach(t) =>
      Goto(s.(session := s.session.(state := Failed, backendShutdown := true)), t,
           Cleaning(s.session.hooks.Keys, false, ThenIdle))
    case StartExecute(t, request) => Goto(s, t, Calling(request))
    case ExecuteCall(t, native, delivery, known) => AfterExecuteCall(s, t, native, delivery, known)
    case Adopt(t, native, delivery) => AfterAdopt(s, t, native, delivery)
    case MarkFailure(t) =>
      if s.session.state in {Attached, Failed} then
        Goto(s.(session := s.session.(state := Failed)), t, Cleaning(s.session.hooks.Keys, false, ThenIdle))
      else Goto(s, t, Idle)
    case StartDetach(t) => AfterStartDetach(s, t)
    case ShutDown(t, ok) =>
      var backend := At(s, t).backend;
      Goto(s.(shutdowns := if backend.Some? then s.shutdowns + [ok] else s.shutdowns), t,
           Cleaning(s.session.hooks.Keys, false, ThenDetached(ok, backend)))
    case StartCleanup(t) => Goto(s, t, Cleaning(s.session.hooks.Keys, false, ThenIdle))
    case CleanOne(t, token, native, delivery) => AfterCleanOne(s, t, token, native, delivery)
    case FinishCleaning(t) => AfterFinishCleaning(s, t)
    case ReleaseHook(t, token, native, delivery) => AfterReleaseHook(s, token, native, delivery)
    case UninstallHook(t, token, native, delivery, again, redelivery) =>
      AfterUninstallHook(s, token, native, delivery, again, redelivery)
    case OtherClient(command, native) => s.(agent := Serve(s.agent, command, native).0)
  }

  /** `detach` on the session returns without an error at the end of this step. */
  predicate DetachSucceeds(s: Sys, step: Step)
    requires Enabled(s, step)
  {
    || (step.StartDetach? && s.session.state in {Detaching, Detached})
    || (step.FinishCleaning? && !At(s, step.t).failed
        && (At(s, step.t).next.ThenDetachedUnattached? || (At(s, step.t).next.ThenDetached? && At(s, step.t).next.shutdown)))
  }
}

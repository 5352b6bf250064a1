/** What each command does, said field by field, and what follows for whole runs. */
module AgentOutcomes {
  import opened Wrappers
  import opened HookCommand
  import opened AgentRegistry
  import opened AgentRuns

  /** The table with nothing changed but the life of the hook that `token` leads to. */
  function Living(t: Table, token: U64, life: Life): Table
    requires Known(t, token)
  {
    var id := t.tokens[token];
    t.(records := t.records[id := t.records[id].(receipt := t.records[id].receipt.(life := life))])
  }

  function ReceiptOf(t: Table, token: U64): Receipt
    requires Known(t, token)
  {
    t.records[t.tokens[token]].receipt
  }

  // ---- refusals ------------------------------------------------------------------------------------------

  /** Someone else's token: nothing changes, nothing native is called, and the reply says whose it is not. */
  lemma ForeignOwnerIsRefused(t: Table, ownerId: string, token: U64, native: Native)
    requires Kept(t) && Known(t, token) && ReceiptOf(t, token).request.ownerId != ownerId
    ensures forall command | command in {DoRelease(ownerId, token), DoUninstall(ownerId, token)} ::
              && Serve(t, command, native) ==
                   (t, ErrorReply(OwnerMismatch, TokenOfAnotherOwner(token), Some(t.tokens[token]), Some(token),
                                  Some(ReceiptOf(t, token)), false))
              && Calls(t, command, native) == []
  {
    var id := t.tokens[token];
    assert WellKept(id, t.records[id]);
    assert t.records == t.records[id := t.records[id]];
  }

  lemma UnknownTokenIsRefused(t: Table, ownerId: string, token: U64, native: Native)
    requires Kept(t) && token !in t.tokens
    ensures forall command | command in {DoRelease(ownerId, token), DoUninstall(ownerId, token)} ::
              && Serve(t, command, native) ==
                   (t, ErrorReply(NotFound, TokenNotKnown(token), None, Some(token), None, false))
              && Calls(t, command, native) == []
  {
  }

  // ---- the owner's own commands --------------------------------------------------------------------------

  lemma OwnReleaseOutcome(t: Table, token: U64, native: Native)
    requires Kept(t) && token in t.tokens && Known(t, token)
    ensures var (id, receipt) := (t.tokens[token], ReceiptOf(t, token));
            var command := DoRelease(receipt.request.ownerId, token);
            var (after, reply) := Serve(t, command, native);
            if receipt.life.ownership == Released then
              after == t && reply == ReleaseReply(receipt, false) && Calls(t, command, native) == []
            else
              && Calls(t, command, native) == [ReleaseHandle(id, token)]
              && match native.releasing
                 case Success(changed) =>
                   var life := Life(Released, receipt.life.targetState, None);
                   after == Living(t, token, life) && reply == ReleaseReply(receipt.(life := life), changed)
                 case Failure(text) =>
                   var life := Life(Owned, receipt.life.targetState, Some(FromAdapter(text)));
                   && after == Living(t, token, life)
                   && reply == ErrorReply(AdapterFailed, FromAdapter(text), Some(id), Some(token),
                                          Some(receipt.(life := life)), false)
  {
    hide ValidRequest;
    var id := t.tokens[token];
    assert WellKept(id, t.records[id]);
    TokenMeansHandle(id, t.records[id]);
    assert t.records == t.records[id := t.records[id]];
  }

  /** The life after an uninstall of an owned hook, and the error, if any, that answers it. */
  function UninstallVerdict(life: Life, native: Native): (Life, Option<(ErrorCode, Message)>) {
    match native.uninstalling
    case Uninstalled =>
      (match native.releasing
       case Success(_) => (Life(Released, Restored, None), None)
       case Failure(text) =>
         (Life(Owned, Restored, Some(FromAdapter(text))), Some((AdapterFailed, FromAdapter(text)))))
    case Unavailable =>
      (Life(Owned, life.targetState, Some(NativeUninstallIsUnavailable)),
       Some((NativeUninstallUnavailable, NativeUninstallIsUnavailable)))
    case HandleGone =>
      (Life(Released, life.targetState, life.lastError), Some((AlreadyReleased, HandleWasAlreadyReleased)))
    case UninstallFailure(text) =>
      (Life(Owned, life.targetState, Some(FromAdapter(text))), Some((AdapterFailed, FromAdapter(text))))
  }

  lemma OwnUninstallOutcome(t: Table, token: U64, native: Native)
    requires Kept(t) && token in t.tokens && Known(t, token)
    ensures var (id, receipt) := (t.tokens[token], ReceiptOf(t, token));
            var command := DoUninstall(receipt.request.ownerId, token);
            var (after, reply) := Serve(t, command, native);
            if receipt.life.ownership == Released then
              && after == t && Calls(t, command, native) == []
              && reply ==
                   if receipt.life.targetState == Restored then UninstallReply(receipt, false)
                   else ErrorReply(AlreadyReleased, StillInstalledAfterRelease, Some(id), Some(token), Some(receipt), false)
            else
              var (life, error) := UninstallVerdict(receipt.life, native);
              && after == Living(t, token, life)
              && reply ==
                   (match error
                    case None => UninstallReply(receipt.(life := life), true)
                    case Some((code, message)) =>
                      ErrorReply(code, message, Some(id), Some(token), Some(receipt.(life := life)), false))
              && Calls(t, command, native) ==
                   [UninstallHandle(id, token)] + if native.uninstalling == Uninstalled then [ReleaseHandle(id, token)] else []
  {
    hide ValidRequest;
    var id := t.tokens[token];
    assert WellKept(id, t.records[id]);
    TokenMeansHandle(id, t.records[id]);
    assert t.records == t.records[id := t.records[id]];
  }

  // ---- execution -----------------------------------------------------------------------------------------

  /** The receipt of a fresh hook repeats the request and hands on what the native layer said about the handle. */
  lemma FreshHookOutcome(t: Table, request: Request, handle: Handle, native: Native)
    requires CallsExecutor(t, request) && native.execution == Issued(handle)
    requires handle.token != 0 && handle.token !in t.tokens
    ensures var (after, reply) := Serve(t, DoExecute(request), native);
            && reply.ExecuteReply? && !reply.replayed
            && var receipt := reply.receipt;
            && receipt.request == request && receipt.token == Some(handle.token) && receipt.backend == handle.backend
            && receipt.original == handle.original && receipt.nativeResult == handle.nativeResult
            && receipt.nativeUninstallAvailable == handle.uninstallAvailable
            && receipt.life == Life(Owned, Installed, None)
            && after == Table(t.records[request.requestId := Record(request, receipt, Some(handle), None)], t.rejected,
                              t.tokens[handle.token := request.requestId])
            && Calls(t, DoExecute(request), native) == [CallExecutor(request)]
  {
    hide ValidRequest;
  }

  /** A token that cannot be taken: the handle goes back, the reply is kept for retries, and no hook is recorded. */
  lemma RejectedHandleOutcome(t: Table, request: Request, handle: Handle, native: Native)
    requires CallsExecutor(t, request) && native.execution == Issued(handle)
    requires handle.token == 0 || handle.token in t.tokens
    ensures var (after, reply) := Serve(t, DoExecute(request), native);
            && reply == ErrorReply(DuplicateToken, TokenAlreadyOwned(handle.token), Some(request.requestId),
                                   Some(handle.token), None, false)
            && after == Table(t.records, t.rejected[request.requestId := (request, reply)], t.tokens)
            && Calls(t, DoExecute(request), native) ==
                 [CallExecutor(request), ReleaseHandle(request.requestId, handle.token)]
  {
    hide ValidRequest;
  }

  /** A failed execution leaves an orphan when the target may have been touched, and only a rejection when not. */
  lemma FailedExecutionOutcome(t: Table, request: Request, backend: string, text: string, uncertain: bool, native: Native)
    requires CallsExecutor(t, request) && native.execution == ExecutionFailure(backend, text, uncertain)
    ensures var (id, message) := (request.requestId, FromAdapter(text));
            var orphan := Receipt(request, None, backend, None, None, false, Life(Orphaned, Uncertain, Some(message)));
            var (after, reply) := Serve(t, DoExecute(request), native);
            && Calls(t, DoExecute(request), native) == [CallExecutor(request)]
            && if uncertain then
                 && reply == ErrorReply(TargetStateUncertain, message, Some(id), None, Some(orphan), false)
                 && after == Table(t.records[id := Record(request, orphan, None, Some((TargetStateUncertain, message)))],
                                   t.rejected, t.tokens)
               else
                 && reply == ErrorReply(ExecutionFailed, message, Some(id), None, None, false)
                 && after == Table(t.records, t.rejected[id := (request, reply)], t.tokens)
  {
    hide ValidRequest;
  }

  /** A request that is not valid changes nothing and calls nothing. */
  lemma InvalidRequestOutcome(t: Table, request: Request, native: Native)
    requires !ValidRequest(request)
    ensures Serve(t, DoExecute(request), native) ==
              (t, ErrorReply(ExecutionFailed, InvalidRequest, Some(request.requestId), None, None, false))
    ensures Calls(t, DoExecute(request), native) == []
  {
    hide ValidRequest;
  }

  /** A request whose identifier is taken changes nothing and calls nothing; the reply tells what has become of it. */
  lemma RepeatedRequestOutcome(t: Table, request: Request, native: Native)
    requires Kept(t) && ValidRequest(request) && !CallsExecutor(t, request)
    ensures var (id, (after, reply)) := (request.requestId, Serve(t, DoExecute(request), native));
            && after == t && Calls(t, DoExecute(request), native) == []
            && if id in t.records then
                 var record := t.records[id];
                 reply ==
                   if record.request != request then
                     ErrorReply(RequestIdConflict, AlreadyBound, Some(id), record.receipt.token, Some(record.receipt), true)
                   else if record.receipt.life.ownership == Orphaned then
                     ErrorReply(TargetStateUncertain, record.receipt.life.lastError.value, Some(id), None, Some(record.receipt), true)
                   else ExecuteReply(record.receipt, true)
               else
                 && id in t.rejected
                 && var (previous, first) := t.rejected[id];
                 && first.ErrorReply?
                 && reply ==
                      if previous != request then ErrorReply(RequestIdConflict, AlreadyBound, Some(id), None, None, true)
                      else first.(replayed := true)
  {
    hide ValidRequest;
    var id := request.requestId;
    if id in t.records {
      assert WellKept(id, t.records[id]);
    } else {
      assert WellRejected(id, t.rejected[id]);
    }
  }

  /** A status reply lists exactly the owner's hooks, each with its current receipt. */
  lemma StatusListsOwnHooks(t: Table, ownerId: string, native: Native)
    requires Kept(t)
    ensures var (after, reply) := Serve(t, DoStatus(ownerId), native);
            && after == t && reply.StatusReply? && reply.ownerId == ownerId
            && (forall id :: id in reply.hooks <==> id in t.records && t.records[id].request.ownerId == ownerId)
            && (forall id | id in reply.hooks :: reply.hooks[id] == t.records[id].receipt)
    ensures Calls(t, DoStatus(ownerId), native) == []
  {
    forall id | id in t.records
      ensures t.records[id].receipt.request == t.records[id].request
    {
      assert WellKept(id, t.records[id]);
    }
  }

  // ---- when a hook changes -------------------------------------------------------------------------------

  /** The command that gives up ownership of this hook: its own owner's, with the native layer going along. */
  predicate GivesUp(receipt: Receipt, token: U64, command: Command, native: Native) {
    || (command == DoRelease(receipt.request.ownerId, token) && native.releasing.Success?)
    || (command == DoUninstall(receipt.request.ownerId, token)
        && (native.uninstalling == HandleGone || (native.uninstalling == Uninstalled && native.releasing.Success?)))
  }

  predicate Restores(receipt: Receipt, token: U64, command: Command, native: Native) {
    command == DoUninstall(receipt.request.ownerId, token) && native.uninstalling == Uninstalled
  }

  /** An owned hook becomes Released exactly when its owner gives it up, and Restored exactly when its owner restores it. */
  lemma OwnedHookChanges(t: Table, command: Command, native: Native, token: U64)
    requires Kept(t) && token in t.tokens && Known(t, token) && ReceiptOf(t, token).life.ownership == Owned
    ensures var (before, after) := (ReceiptOf(t, token), Serve(t, command, native).0);
            && Known(after, token)
            && (ReceiptOf(after, token).life.ownership == Released <==> GivesUp(before, token, command, native))
            && ReceiptOf(after, token).life.targetState ==
                 if Restores(before, token, command, native) then Restored else before.life.targetState
    ensures GivesUp(ReceiptOf(t, token), token, command, native) ==>
              if command.DoRelease? then Calls(t, command, native) == [ReleaseHandle(t.tokens[token], token)]
              else UninstallHandle(t.tokens[token], token) in Calls(t, command, native)
                   && (native.uninstalling == Uninstalled ==> ReleaseHandle(t.tokens[token], token) in Calls(t, command, native))
  {
    hide ValidRequest;
    match command
    case DoExecute(request) => OtherHooksStay(t, request, native, token);
    case DoStatus(_) =>
    case DoRelease(ownerId, k) => ActionOnHook(t, command, native, token, ownerId, k);
    case DoUninstall(ownerId, k) => ActionOnHook(t, command, native, token, ownerId, k);
  }

  lemma OtherHooksStay(t: Table, request: Request, native: Native, token: U64)
    requires Kept(t) && token in t.tokens && Known(t, token)
    ensures var after := Serve(t, DoExecute(request), native).0;
            Known(after, token) && ReceiptOf(after, token) == ReceiptOf(t, token)
  {
    hide ValidRequest, WellKept, WellRejected;
  }

  lemma ActionOnHook(t: Table, command: Command, native: Native, token: U64, ownerId: string, k: U64)
    requires Kept(t) && token in t.tokens && Known(t, token) && ReceiptOf(t, token).life.ownership == Owned
    requires command in {DoRelease(ownerId, k), DoUninstall(ownerId, k)}
    ensures var (before, after) := (ReceiptOf(t, token), Serve(t, command, native).0);
            && Known(after, token)
            && (ReceiptOf(after, token).life.ownership == Released <==> GivesUp(before, token, command, native))
            && ReceiptOf(after, token).life.targetState ==
                 if Restores(before, token, command, native) then Restored else before.life.targetState
    ensures GivesUp(ReceiptOf(t, token), token, command, native) ==>
              if command.DoRelease? then Calls(t, command, native) == [ReleaseHandle(t.tokens[token], token)]
              else UninstallHandle(t.tokens[token], token) in Calls(t, command, native)
                   && (native.uninstalling == Uninstalled ==> ReleaseHandle(t.tokens[token], token) in Calls(t, command, native))
  {
    hide Kept, Serve, Calls, UninstallVerdict;
    if k !in t.tokens {
      UnknownTokenIsRefused(t, ownerId, k, native);
    } else {
      TokenLeads(t, k);
      if ReceiptOf(t, k).request.ownerId != ownerId {
        ForeignOwnerIsRefused(t, ownerId, k, native);
      } else if k == token {
        OwnAction(t, command, native, token);
      } else {
        ActionElsewhere(t, command, native, k, token);
      }
    }
  }

  lemma OwnAction(t: Table, command: Command, native: Native, token: U64)
    requires Kept(t) && token in t.tokens && Known(t, token) && ReceiptOf(t, token).life.ownership == Owned
    requires var ownerId := ReceiptOf(t, token).request.ownerId;
             command in {DoRelease(ownerId, token), DoUninstall(ownerId, token)}
    ensures var (before, after) := (ReceiptOf(t, token), Serve(t, command, native).0);
            && Known(after, token)
            && (ReceiptOf(after, token).life.ownership == Released <==> GivesUp(before, token, command, native))
            && ReceiptOf(after, token).life.targetState ==
                 if Restores(before, token, command, native) then Restored else before.life.targetState
    ensures GivesUp(ReceiptOf(t, token), token, command, native) ==>
              if command.DoRelease? then Calls(t, command, native) == [ReleaseHandle(t.tokens[token], token)]
              else UninstallHandle(t.tokens[token], token) in Calls(t, command, native)
                   && (native.uninstalling == Uninstalled ==> ReleaseHandle(t.tokens[token], token) in Calls(t, command, native))
  {
    hide Kept, Serve, Calls;
    if command.DoRelease? { OwnReleaseOutcome(t, token, native); } else { OwnUninstallOutcome(t, token, native); }
  }

  lemma ActionElsewhere(t: Table, command: Command, native: Native, k: U64, token: U64)
    requires Kept(t) && token in t.tokens && Known(t, token) && k in t.tokens && Known(t, k) && k != token
    requires var ownerId := ReceiptOf(t, k).request.ownerId; command in {DoRelease(ownerId, k), DoUninstall(ownerId, k)}
    ensures Known(Serve(t, command, native).0, token) && ReceiptOf(Serve(t, command, native).0, token) == ReceiptOf(t, token)
  {
    OtherRecord(t, k, token);
    hide Kept, Serve, Calls, UninstallVerdict;
    if command.DoRelease? { OwnReleaseOutcome(t, k, native); } else { OwnUninstallOutcome(t, k, native); }
  }

  lemma OtherRecord(t: Table, a: U64, b: U64)
    requires Indexed(t) && a in t.tokens && b in t.tokens && a != b
    ensures t.tokens[a] != t.tokens[b]
  {
  }

  // ---- runs ----------------------------------------------------------------------------------------------

  /** Over whole runs a foreign release or uninstall is refused, changes nothing and calls nothing. */
  lemma ForeignCommandChangesNothing(es: seq<Event>, i: nat, ownerId: string, token: U64)
    requires i < |es| && es[i].command in {DoRelease(ownerId, token), DoUninstall(ownerId, token)}
    requires Known(Before(es, i), token) && ReceiptOf(Before(es, i), token).request.ownerId != ownerId
    ensures Before(es, i + 1) == Before(es, i) && CallsAt(es, i) == []
    ensures ReplyAt(es, i).ErrorReply? && ReplyAt(es, i).code == OwnerMismatch
    ensures ReplyAt(es, i).about == Some(ReceiptOf(Before(es, i), token))
  {
    hide Run, Kept, Serve, Calls;
    RunKept(es[..i]);
    OneEvent(es, i);
    ForeignOwnerIsRefused(Before(es, i), ownerId, token, es[i].native);
  }

  /** Event `m` is the owner's own and made the native call that gives this hook up. */
  ghost predicate GivenUpAt(es: seq<Event>, m: nat, token: U64) {
    && m < |es| && Known(Before(es, m), token)
    && var (t, event) := (Before(es, m), es[m]);
    && GivesUp(ReceiptOf(t, token), token, event.command, event.native)
    && if event.command.DoRelease? then ReleaseHandle(t.tokens[token], token) in CallsAt(es, m)
       else UninstallHandle(t.tokens[token], token) in CallsAt(es, m)
  }

  /** A hook that is Released by `j` and was owned at `i` was given up in between by its owner, and natively. */
  lemma {:induction false} ReleasedByItsOwner(es: seq<Event>, i: nat, j: nat, token: U64) returns (m: nat)
    requires i <= j <= |es| && Known(Before(es, i), token) && ReceiptOf(Before(es, i), token).life.ownership == Owned
    requires Known(Before(es, j), token) && ReceiptOf(Before(es, j), token).life.ownership == Released
    ensures i <= m < j && GivenUpAt(es, m, token)
    decreases j - i
  {
    hide Run, Kept, Serve, Calls, GivesUp, Grows;
    RunKept(es[..i]);
    OneEvent(es, i);
    OwnedHookChanges(Before(es, i), es[i].command, es[i].native, token);
    if ReceiptOf(Before(es, i + 1), token).life.ownership == Released {
      m := i;
    } else {
      StillOwned(Before(es, i), Before(es, i + 1), token);
      m := ReleasedByItsOwner(es, i + 1, j, token);
    }
  }

  lemma StillOwned(a: Table, b: Table, token: U64)
    requires Grows(a, b) && Known(a, token) && Known(b, token) && ReceiptOf(a, token).life.ownership == Owned
    requires ReceiptOf(b, token).life.ownership != Released
    ensures ReceiptOf(b, token).life.ownership == Owned
  {
  }
}

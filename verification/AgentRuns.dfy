/** What holds of the agent's hook table over any sequence of commands, however the native layer answers. */
module AgentRuns {
  import opened Wrappers
  import opened HookCommand
  import opened AgentRegistry

  datatype Event = Event(command: Command, native: Native)

  function Run(es: seq<Event>): Table {
    if es == [] then EMPTY
    else
      var last := es[|es| - 1];
      Serve(Run(es[..|es| - 1]), last.command, last.native).0
  }

  /** The table just before event `i`, and the reply that event gets. */
  function Before(es: seq<Event>, i: nat): Table
    requires i <= |es|
  {
    Run(es[..i])
  }

  function ReplyAt(es: seq<Event>, i: nat): Reply
    requires i < |es|
  {
    Serve(Before(es, i), es[i].command, es[i].native).1
  }

  lemma {:induction false} RunKept(es: seq<Event>)
    ensures Kept(Run(es))
  {
    if es != [] {
      RunKept(es[..|es| - 1]);
      ServeKeeps(Run(es[..|es| - 1]), es[|es| - 1].command, es[|es| - 1].native);
    }
  }

  lemma OneEvent(es: seq<Event>, i: nat)
    requires i < |es|
    ensures Before(es, i + 1) == Serve(Before(es, i), es[i].command, es[i].native).0
    ensures Grows(Before(es, i), Before(es, i + 1))
  {
    assert es[..i + 1][..i] == es[..i];
    RunKept(es[..i]);
    ServeKeeps(Before(es, i), es[i].command, es[i].native);
  }

  /** Both life fields of every hook only move forward, and no binding is ever lost or changed. */
  lemma {:induction false} NeverBackward(es: seq<Event>, i: nat, j: nat)
    requires i <= j <= |es|
    ensures Grows(Before(es, i), Before(es, j))
    decreases j - i
  {
    hide Run, Grows;
    if i < j {
      OneEvent(es, j - 1);
      NeverBackward(es, i, j - 1);
      GrowsOn(Before(es, i), Before(es, j - 1), Before(es, j));
    } else {
      GrowsSelf(Before(es, i));
    }
  }

  ghost predicate ExecutesAt(es: seq<Event>, i: nat, request: Request) {
    i < |es| && es[i].command == DoExecute(request) && CallsExecutor(Before(es, i), request)
  }

  /** The request an identifier is bound to, once it has been executed. */
  function Binding(t: Table, id: string): Option<Request> {
    if id in t.records then Some(t.records[id].request)
    else if id in t.rejected then Some(t.rejected[id].0)
    else None
  }

  lemma BindingStays(a: Table, b: Table, id: string)
    requires Grows(a, b) && Kept(b) && Binding(a, id).Some?
    ensures Binding(b, id) == Binding(a, id)
  {
    hide WellKept, WellRejected;
  }

  lemma ExecutionBinds(es: seq<Event>, i: nat, j: nat, request: Request)
    requires ExecutesAt(es, i, request) && i < j <= |es|
    ensures Binding(Before(es, j), request.requestId) == Some(request)
  {
    hide Kept, Grows, ValidRequest;
    OneEvent(es, i);
    NeverBackward(es, i + 1, j);
    RunKept(es[..j]);
    BindingStays(Before(es, i + 1), Before(es, j), request.requestId);
  }

  /** The native executor runs at most once for any request identifier, however often it is retried. */
  lemma AtMostOnce(es: seq<Event>, i: nat, j: nat, first: Request, second: Request)
    requires ExecutesAt(es, i, first) && ExecutesAt(es, j, second)
    requires first.requestId == second.requestId
    ensures i == j
  {
    hide Run, Serve, Kept, ValidRequest;
    if i < j {
      ExecutionBinds(es, i, j, first);
    } else if j < i {
      ExecutionBinds(es, j, i, second);
    }
  }

  /** `again` is what `first` becomes when the same request is sent later. */
  predicate Replays(first: Reply, again: Reply) {
    || (first.ErrorReply? && again == ErrorReply(first.code, first.message, first.requestId, first.token, first.about, true))
    || (first.ExecuteReply? && again.ExecuteReply? && again.replayed && Forward(first.receipt, again.receipt))
  }

  lemma FreshOutcomeReplays(t: Table, request: Request, execution: Execution, later: Table)
    requires CallsExecutor(t, request) && Kept(later)
    requires Grows(ExecuteFresh(t, request, execution).0, later)
    ensures !CallsExecutor(later, request)
    ensures Replays(ExecuteFresh(t, request, execution).1, Replay(later, request))
  {
    hide ValidRequest, Replay, Replays, WellKept, WellRejected, Indexed;
    var bound := ExecuteFresh(t, request, execution).0;
    var id := request.requestId;
    if id in bound.records {
      assert WellKept(id, later.records[id]);
      hide Kept, Grows, ExecuteFresh, CallsExecutor;
      RecordReplays(t, request, execution, later);
    } else {
      assert id in later.rejected && id !in later.records;
      hide Kept, Grows, ExecuteFresh, CallsExecutor;
      RejectionReplays(t, request, execution, later);
    }
  }

  lemma RecordReplays(t: Table, request: Request, execution: Execution, later: Table)
    requires var (id, bound) := (request.requestId, ExecuteFresh(t, request, execution).0);
             && CallsExecutor(t, request)
             && id in bound.records && id in later.records && WellKept(id, later.records[id])
             && later.records[id] == bound.records[id].(receipt := later.records[id].receipt)
             && Forward(bound.records[id].receipt, later.records[id].receipt)
    ensures !CallsExecutor(later, request)
    ensures Replays(ExecuteFresh(t, request, execution).1, Replay(later, request))
  {
    hide ValidRequest;
  }

  lemma RejectionReplays(t: Table, request: Request, execution: Execution, later: Table)
    requires var (id, bound) := (request.requestId, ExecuteFresh(t, request, execution).0);
             && CallsExecutor(t, request)
             && id !in bound.records && id in bound.rejected && id !in later.records && id in later.rejected
             && later.rejected[id] == bound.rejected[id]
    ensures !CallsExecutor(later, request)
    ensures Replays(ExecuteFresh(t, request, execution).1, Replay(later, request))
  {
    hide ValidRequest;
  }

  /**
   A retry of an executed request gets the recorded outcome: an error unchanged but for `replayed`, a hook's
   receipt as it now stands.  Another request under the same identifier is refused.  Neither changes the table.
   */
  lemma RetryReplays(es: seq<Event>, i: nat, j: nat, request: Request, retry: Request)
    requires ExecutesAt(es, i, request) && i < j < |es|
    requires es[j].command == DoExecute(retry) && ValidRequest(retry) && retry.requestId == request.requestId
    ensures Before(es, j + 1) == Before(es, j)
    ensures retry == request ==> Replays(ReplyAt(es, i), ReplyAt(es, j))
    ensures retry != request ==>
              && ReplyAt(es, j).ErrorReply? && ReplyAt(es, j).code == RequestIdConflict && ReplyAt(es, j).replayed
  {
    hide Run, Kept, Grows, ValidRequest;
    ExecutionBinds(es, i, j, request);
    OneEvent(es, i);
    OneEvent(es, j);
    NeverBackward(es, i + 1, j);
    RunKept(es[..j]);
    if retry == request {
      FreshOutcomeReplays(Before(es, i), request, es[i].native.execution, Before(es, j));
    }
  }

  predicate Changes(reply: Reply, token: U64) {
    (reply.ReleaseReply? || reply.UninstallReply?) && reply.changed && reply.receipt.token == Some(token)
  }

  predicate IsReleased(t: Table, token: U64) {
    Known(t, token) && t.records[t.tokens[token]].receipt.life.ownership == Released
  }

  lemma ChangingTakesOwnership(t: Table, command: Command, native: Native, token: U64)
    requires Kept(t) && Changes(Serve(t, command, native).1, token)
    ensures !IsReleased(t, token) && IsReleased(Serve(t, command, native).0, token)
  {
    hide ValidRequest, WellKept, WellRejected, Indexed;
    match command
    case DoExecute(request) =>
      if !CallsExecutor(t, request) && request.requestId in t.rejected {
        RejectionIsError(t, request.requestId);
      }
    case DoStatus(_) =>
    case DoRelease(ownerId, k) =>
      TokenIsBorne(t, k);
      ReleaseChanges(t.records[t.tokens[k]], ownerId, k, native);
    case DoUninstall(ownerId, k) =>
      TokenIsBorne(t, k);
      UninstallChanges(t.records[t.tokens[k]], ownerId, k, native);
  }

  lemma TokenIsBorne(t: Table, token: U64)
    requires Indexed(t) && token in t.tokens
    ensures Known(t, token) && t.records[t.tokens[token]].receipt.token == Some(token)
  {
  }

  lemma ReleaseChanges(record: Record, ownerId: string, token: U64, native: Native)
    ensures var (after, reply) := ReleaseRecord(record, ownerId, token, native.releasing);
            (reply.ReleaseReply? && reply.changed ==>
               record.receipt.life.ownership != Released && after.receipt.life.ownership == Released
               && reply.receipt.token == record.receipt.token)
  {
  }

  lemma UninstallChanges(record: Record, ownerId: string, token: U64, native: Native)
    ensures var (after, reply) := UninstallRecord(record, ownerId, token, native.uninstalling, native.releasing);
            (reply.UninstallReply? && reply.changed ==>
               record.receipt.life.ownership != Released && after.receipt.life.ownership == Released
               && reply.receipt.token == record.receipt.token)
  {
  }

  lemma RejectionIsError(t: Table, id: string)
    requires Kept(t) && id in t.rejected
    ensures t.rejected[id].1.ErrorReply?
  {
    assert WellRejected(id, t.rejected[id]);
  }

  lemma ReleasedStays(a: Table, b: Table, token: U64)
    requires Grows(a, b) && IsReleased(a, token)
    ensures IsReleased(b, token)
  {
  }

  /** Each token sees at most one reply that claims to have changed it. */
  lemma ChangedAtMostOnce(es: seq<Event>, i: nat, j: nat, token: U64)
    requires i < |es| && j < |es| && Changes(ReplyAt(es, i), token) && Changes(ReplyAt(es, j), token)
    ensures i == j
  {
    hide Run, Serve, Kept, Grows;
    var first, second := if i <= j then i else j, if i <= j then j else i;
    if first < second {
      RunKept(es[..first]);
      RunKept(es[..second]);
      ChangingTakesOwnership(Before(es, first), es[first].command, es[first].native, token);
      ChangingTakesOwnership(Before(es, second), es[second].command, es[second].native, token);
      OneEvent(es, first);
      NeverBackward(es, first + 1, second);
      ReleasedStays(Before(es, first + 1), Before(es, second), token);
    }
  }

  ghost predicate IssuesAt(es: seq<Event>, i: nat, request: Request, handle: Handle) {
    ExecutesAt(es, i, request) && es[i].native.execution == Issued(handle)
  }

  predicate Holds(t: Table, request: Request, handle: Handle) {
    && request.requestId in t.records
    && t.records[request.requestId].request == request
    && t.records[request.requestId].handle == Some(handle)
    && handle.token in t.tokens && t.tokens[handle.token] == request.requestId
  }

  lemma HoldingStays(a: Table, b: Table, request: Request, handle: Handle)
    requires Grows(a, b) && Holds(a, request, handle)
    ensures Holds(b, request, handle)
  {
  }

  /** The calls that event `i` makes on the native layer. */
  function CallsAt(es: seq<Event>, i: nat): seq<NativeCall>
    requires i < |es|
  {
    Calls(Before(es, i), es[i].command, es[i].native)
  }

  /** No other record holds the handle of `request`, under any identifier. */
  ghost predicate HeldAlone(t: Table, request: Request, handle: Handle) {
    && Holds(t, request, handle)
    && forall id | id in t.records && t.records[id].handle.Some? && t.records[id].handle.value.token == handle.token ::
         id == request.requestId
  }

  lemma HoldingIsAlone(t: Table, request: Request, handle: Handle)
    requires Kept(t) && Holds(t, request, handle)
    ensures HeldAlone(t, request, handle)
  {
    forall id | id in t.records && t.records[id].handle.Some? && t.records[id].handle.value.token == handle.token
      ensures id == request.requestId
    {
      assert WellKept(id, t.records[id]);
      TokenMeansHandle(id, t.records[id]);
    }
  }

  /**
   Every handle the native layer issued is either held in exactly one record, that of its request, for the rest of
   the run, or released in the very event that rejects it and never recorded.
   */
  lemma IssuedHandleIsHeld(es: seq<Event>, i: nat, request: Request, handle: Handle)
    requires IssuesAt(es, i, request, handle)
    ensures var given := ReleaseHandle(request.requestId, handle.token);
            || (ReplyAt(es, i).ExecuteReply? && HeldAlone(Run(es), request, handle) && given !in CallsAt(es, i))
            || (ReplyAt(es, i).ErrorReply? && ReplyAt(es, i).code == DuplicateToken
                && given in CallsAt(es, i) && request.requestId !in Run(es).records)
  {
    hide Run, Kept, Grows, ValidRequest, HeldAlone;
    OneEvent(es, i);
    NeverBackward(es, i + 1, |es|);
    assert es[..|es|] == es;
    RunKept(es);
    if ReplyAt(es, i).ExecuteReply? {
      HoldingStays(Before(es, i + 1), Run(es), request, handle);
      HoldingIsAlone(Run(es), request, handle);
    } else {
      assert CallsAt(es, i)[1] == ReleaseHandle(request.requestId, handle.token);
      RejectionStays(Before(es, i + 1), Run(es), request.requestId);
    }
  }

  predicate Touches(call: NativeCall, id: string) {
    (call.ReleaseHandle? || call.UninstallHandle?) && call.requestId == id
  }

  /** A command touches the handle of a request only while it executes that request or its record owns the handle. */
  lemma TouchingIsOwning(t: Table, command: Command, native: Native, call: NativeCall, id: string)
    requires Kept(t) && call in Calls(t, command, native) && Touches(call, id)
    ensures || (command.DoExecute? && command.request.requestId == id && CallsExecutor(t, command.request))
            || (id in t.records && t.records[id].receipt.life.ownership == Owned)
  {
    hide ValidRequest, WellRejected;
    if command.DoRelease? || command.DoUninstall? {
      assert WellKept(t.tokens[command.token], t.records[t.tokens[command.token]]);
      TokenMeansHandle(t.tokens[command.token], t.records[t.tokens[command.token]]);
    }
  }

  /** Once a hook is Released, no native call touches its handle again until the table is dropped. */
  lemma ReleasedIsLeftAlone(es: seq<Event>, i: nat, j: nat, id: string, call: NativeCall)
    requires i <= j < |es| && id in Before(es, i).records
    requires Before(es, i).records[id].receipt.life.ownership == Released
    requires call in CallsAt(es, j)
    ensures !Touches(call, id)
  {
    hide Run, Kept, Calls;
    NeverBackward(es, i, j);
    RunKept(es[..j]);
    if Touches(call, id) {
      TouchingIsOwning(Before(es, j), es[j].command, es[j].native, call, id);
    }
  }

  /** A rejected handle is touched by nothing but its rejection, which releases it once. */
  lemma RejectedIsTouchedOnce(es: seq<Event>, i: nat, j: nat, request: Request, handle: Handle, call: NativeCall)
    requires IssuesAt(es, i, request, handle) && request.requestId !in Run(es).records
    requires j < |es| && call in CallsAt(es, j) && Touches(call, request.requestId)
    ensures i == j
    ensures CallsAt(es, i) == [CallExecutor(request), ReleaseHandle(request.requestId, handle.token)]
  {
    hide Run, Kept, ValidRequest, Calls;
    RunKept(es[..j]);
    TouchingIsOwning(Before(es, j), es[j].command, es[j].native, call, request.requestId);
    NeverBackward(es, j, |es|);
    assert es[..|es|] == es;
    AtMostOnce(es, i, j, request, es[j].command.request);
    IssuedHandleIsHeld(es, i, request, handle);
    OneRejection(Before(es, i), request, handle, es[i].native);
  }

  lemma OneRejection(t: Table, request: Request, handle: Handle, native: Native)
    requires CallsExecutor(t, request) && native.execution == Issued(handle)
    requires ReleaseHandle(request.requestId, handle.token) in Calls(t, DoExecute(request), native)
    ensures Calls(t, DoExecute(request), native)
         == [CallExecutor(request), ReleaseHandle(request.requestId, handle.token)]
  {
    hide CallsExecutor;
  }

  lemma RejectionStays(a: Table, b: Table, id: string)
    requires Grows(a, b) && Kept(b) && id in a.rejected
    ensures id in b.rejected && id !in b.records
  {
    hide WellKept, WellRejected;
  }

  /** Conversely, every handle in the table was issued for exactly the record it is in, by exactly one event. */
  lemma {:induction false} HeldHandleWasIssued(es: seq<Event>, request: Request, handle: Handle) returns (i: nat)
    requires Holds(Run(es), request, handle)
    ensures IssuesAt(es, i, request, handle)
    ensures forall j, other, h :: IssuesAt(es, j, other, h) && other.requestId == request.requestId ==> j == i
  {
    hide Kept, Grows, ValidRequest;
    var n := |es| - 1;
    OneEvent(es, n);
    RunKept(es[..n]);
    assert es[..n + 1] == es;
    if request.requestId in Before(es, n).records {
      HoldingWasThere(Before(es, n), Run(es), request, handle);
      i := HeldHandleWasIssued(es[..n], request, handle);
      assert es[..n][..i] == es[..i];
    } else {
      i := n;
      NewHoldingIsIssued(Before(es, n), es[n].command, es[n].native, request, handle);
    }
    forall j, other, h | IssuesAt(es, j, other, h) && other.requestId == request.requestId
      ensures j == i
    {
      AtMostOnce(es, i, j, request, other);
    }
  }

  lemma HoldingWasThere(a: Table, b: Table, request: Request, handle: Handle)
    requires Kept(a) && Grows(a, b) && Holds(b, request, handle) && request.requestId in a.records
    ensures Holds(a, request, handle)
  {
    var id := request.requestId;
    assert WellKept(id, a.records[id]);
    TokenMeansHandle(id, a.records[id]);
  }

  lemma NewHoldingIsIssued(t: Table, command: Command, native: Native, request: Request, handle: Handle)
    requires Holds(Serve(t, command, native).0, request, handle) && request.requestId !in t.records
    ensures command == DoExecute(request) && CallsExecutor(t, request) && native.execution == Issued(handle)
  {
  }
}

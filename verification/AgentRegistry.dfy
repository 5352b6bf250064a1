/**
 The agent's table of native hook handles.  The native layer is an adversary: what the executor and a
 handle would answer arrives as an argument, and the table may only use it where the agent calls out.
 */
module AgentRegistry {
  import opened Wrappers
  import opened HookCommand

  /** What a successful native installation hands over; its token never changes. */
  datatype Handle = Handle(
    token: U64,
    backend: string,
    original: Option<U64>,
    nativeResult: Option<int>,
    uninstallAvailable: bool)

  datatype Execution = Issued(handle: Handle) | ExecutionFailure(backend: string, text: string, uncertain: bool)

  datatype Uninstalling = Uninstalled | Unavailable | HandleGone | UninstallFailure(text: string)

  /** The answers the native layer would give if the current command reached it. */
  datatype Native = Native(execution: Execution, uninstalling: Uninstalling, releasing: Result<bool, string>)

  datatype Record = Record(
    request: Request,
    receipt: Receipt,
    handle: Option<Handle>,
    cachedError: Option<(ErrorCode, Message)>)

  datatype Table = Table(
    records: map<string, Record>,
    rejected: map<string, (Request, Reply)>,
    tokens: map<U64, string>)

  const EMPTY := Table(map[], map[], map[])

  function Error(code: ErrorCode, message: Message, requestId: Option<string>, token: Option<U64>,
                 about: Option<Receipt>, replayed: bool): Reply {
    ErrorReply(code, message, requestId, token, about, replayed)
  }

  function ReceiptFor(request: Request, handle: Handle): Receipt {
    Receipt(request, Some(handle.token), handle.backend, handle.original, handle.nativeResult,
            handle.uninstallAvailable, Life(Owned, Installed, None))
  }

  function OrphanReceipt(request: Request, backend: string, reason: Message): Receipt {
    Receipt(request, None, backend, None, None, false, Life(Orphaned, Uncertain, Some(reason)))
  }

  function ReplayError(reply: Reply): Reply {
    if reply.ErrorReply? then reply.(replayed := true) else reply
  }

  /** Only a valid request with a fresh identifier reaches the native executor. */
  predicate CallsExecutor(t: Table, request: Request) {
    ValidRequest(request) && request.requestId !in t.records && request.requestId !in t.rejected
  }

  function Replay(t: Table, request: Request): Reply
    requires !CallsExecutor(t, request)
  {
    var id := request.requestId;
    if !ValidRequest(request) then
      Error(ExecutionFailed, InvalidRequest, Some(id), None, None, false)
    else if id in t.records then
      var record := t.records[id];
      if record.request != request then
        Error(RequestIdConflict, AlreadyBound, Some(id), record.receipt.token, Some(record.receipt), true)
      else match record.cachedError
        case Some((code, message)) => Error(code, message, Some(id), record.receipt.token, Some(record.receipt), true)
        case None => ExecuteReply(record.receipt, true)
    else
      var (previous, reply) := t.rejected[id];
      if previous != request then Error(RequestIdConflict, AlreadyBound, Some(id), None, None, true)
      else ReplayError(reply)
  }

  function ExecuteFresh(t: Table, request: Request, execution: Execution): (Table, Reply) {
    var id := request.requestId;
    match execution
    case Issued(handle) =>
      if handle.token == 0 || handle.token in t.tokens then
        var reply := Error(DuplicateToken, TokenAlreadyOwned(handle.token), Some(id), Some(handle.token), None, false);
        (t.(rejected := t.rejected[id := (request, reply)]), reply)
      else
        var receipt := ReceiptFor(request, handle);
        (t.(tokens := t.tokens[handle.token := id],
            records := t.records[id := Record(request, receipt, Some(handle), None)]),
         ExecuteReply(receipt, false))
    case ExecutionFailure(backend, text, uncertain) =>
      if uncertain then
        var receipt := OrphanReceipt(request, backend, FromAdapter(text));
        var reply := Error(TargetStateUncertain, FromAdapter(text), Some(id), None, Some(receipt), false);
        (t.(records := t.records[id := Record(request, receipt, None, Some((TargetStateUncertain, FromAdapter(text))))]),
         reply)
      else
        var reply := Error(ExecutionFailed, FromAdapter(text), Some(id), None, None, false);
        (t.(rejected := t.rejected[id := (request, reply)]), reply)
  }

  function Execute(t: Table, request: Request, execution: Execution): (Table, Reply) {
    if CallsExecutor(t, request) then ExecuteFresh(t, request, execution) else (t, Replay(t, request))
  }

  function Status(t: Table, ownerId: string): Reply {
    StatusReply(ownerId, map id | id in t.records && t.records[id].receipt.request.ownerId == ownerId :: t.records[id].receipt)
  }

  function NotKnown(token: U64): Reply {
    Error(NotFound, TokenNotKnown(token), None, Some(token), None, false)
  }

  /** Every reply about a known token carries the record's identity and its current receipt. */
  function About(record: Record, token: U64, code: ErrorCode, message: Message): Reply {
    Error(code, message, Some(record.request.requestId), Some(token), Some(record.receipt), false)
  }

  function WithLife(record: Record, life: Life): Record {
    record.(receipt := record.receipt.(life := life))
  }

  function ReleaseRecord(record: Record, ownerId: string, token: U64, releasing: Result<bool, string>): (Record, Reply) {
    if record.receipt.request.ownerId != ownerId then
      (record, About(record, token, OwnerMismatch, TokenOfAnotherOwner(token)))
    else if record.receipt.life.ownership == Released then
      (record, ReleaseReply(record.receipt, false))
    else if record.receipt.life.ownership == Orphaned then
      (record, About(record, token, TargetStateUncertain, NoReleasableHandle))
    else if record.handle.None? then
      (record, About(record, token, AdapterFailed, NoNativeHandle))
    else match releasing
      case Success(changed) =>
        var after := WithLife(record, record.receipt.life.(ownership := Released, lastError := None));
        (after, ReleaseReply(after.receipt, changed))
      case Failure(text) =>
        var after := WithLife(record, record.receipt.life.(lastError := Some(FromAdapter(text))));
        (after, About(after, token, AdapterFailed, FromAdapter(text)))
  }

  function UninstallRecord(record: Record, ownerId: string, token: U64,
                           uninstalling: Uninstalling, releasing: Result<bool, string>): (Record, Reply) {
    var receipt := record.receipt;
    if receipt.request.ownerId != ownerId then
      (record, About(record, token, OwnerMismatch, TokenOfAnotherOwner(token)))
    else if receipt.life.ownership == Released then
      if receipt.life.targetState == Restored then (record, UninstallReply(receipt, false))
      else (record, About(record, token, AlreadyReleased, StillInstalledAfterRelease))
    else if record.handle.None? then
      (record, About(record, token, TargetStateUncertain, NoUninstallHandle))
    else match uninstalling
      case Uninstalled =>
        (match releasing
         case Success(_) =>
           var after := WithLife(record, record.receipt.life.(ownership := Released, targetState := Restored, lastError := None));
           (after, UninstallReply(after.receipt, true))
         case Failure(text) =>
           var after := WithLife(record, record.receipt.life.(targetState := Restored, lastError := Some(FromAdapter(text))));
           (after, About(after, token, AdapterFailed, FromAdapter(text))))
      case Unavailable =>
        var after := WithLife(record, record.receipt.life.(lastError := Some(NativeUninstallIsUnavailable)));
        (after, About(after, token, NativeUninstallUnavailable, NativeUninstallIsUnavailable))
      case HandleGone =>
        var after := WithLife(record, record.receipt.life.(ownership := Released));
        (after, About(after, token, AlreadyReleased, HandleWasAlreadyReleased))
      case UninstallFailure(text) =>
        var after := WithLife(record, record.receipt.life.(lastError := Some(FromAdapter(text))));
        (after, About(after, token, AdapterFailed, FromAdapter(text)))
  }

  /** Every token leads to the record that bears it, and every token-bearing record is led to. */
  predicate Indexed(t: Table) {
    && (forall k | k in t.tokens ::
          k != 0 && t.tokens[k] in t.records && t.records[t.tokens[k]].receipt.token == Some(k))
    && (forall id | id in t.records && t.records[id].receipt.token.Some? ::
          t.records[id].receipt.token.value in t.tokens && t.tokens[t.records[id].receipt.token.value] == id)
  }

  predicate WellKept(id: string, record: Record) {
    && record.request.requestId == id
    && record.receipt.request == record.request
    && match record.handle
       case Some(handle) =>
         && record.cachedError == None
         && Forward(ReceiptFor(record.request, handle), record.receipt)
       case None =>
         && record.cachedError.Some?
         && record.cachedError.value.0 == TargetStateUncertain
         && record.receipt == OrphanReceipt(record.request, record.receipt.backend, record.cachedError.value.1)
  }

  predicate WellRejected(id: string, entry: (Request, Reply)) {
    && entry.0.requestId == id
    && entry.1.ErrorReply?
    && entry.1.code in {DuplicateToken, ExecutionFailed}
    && entry.1.about == None
    && entry.1.requestId == Some(id)
    && !entry.1.replayed
  }

  /** The table's invariant. */
  ghost predicate Kept(t: Table) {
    && Indexed(t)
    && (forall id | id in t.records :: WellKept(id, t.records[id]))
    && (forall id | id in t.rejected :: WellRejected(id, t.rejected[id]))
    && t.records.Keys !! t.rejected.Keys
  }

  datatype Command =
    | DoExecute(request: Request)
    | DoStatus(ownerId: string)
    | DoRelease(ownerId: string, token: U64)
    | DoUninstall(ownerId: string, token: U64)

  /** A token with no record would be a panic; `Indexed` rules it out, so which reply stands here is moot. */
  predicate Known(t: Table, token: U64) {
    token in t.tokens && t.tokens[token] in t.records
  }

  function Serve(t: Table, command: Command, native: Native): (Table, Reply) {
    match command
    case DoExecute(request) => Execute(t, request, native.execution)
    case DoStatus(ownerId) => (t, Status(t, ownerId))
    case DoRelease(ownerId, token) =>
      if !Known(t, token) then (t, NotKnown(token))
      else
        var (record, reply) := ReleaseRecord(t.records[t.tokens[token]], ownerId, token, native.releasing);
        (t.(records := t.records[t.tokens[token] := record]), reply)
    case DoUninstall(ownerId, token) =>
      if !Known(t, token) then (t, NotKnown(token))
      else
        var (record, reply) :=
          UninstallRecord(t.records[t.tokens[token]], ownerId, token, native.uninstalling, native.releasing);
        (t.(records := t.records[t.tokens[token] := record]), reply)
  }

  // ---- what reaches the native layer ---------------------------------------------------------------------

  /** A handle is known by the request it was issued for, which at most one execution can ever answer. */
  datatype NativeCall =
    | CallExecutor(request: Request)
    | ReleaseHandle(requestId: string, token: U64)
    | UninstallHandle(requestId: string, token: U64)

  /** An issued handle whose token cannot be taken is given back at once. */
  function ExecuteCalls(t: Table, request: Request, execution: Execution): seq<NativeCall> {
    if !CallsExecutor(t, request) then []
    else if execution.Issued? && (execution.handle.token == 0 || execution.handle.token in t.tokens) then
      [CallExecutor(request), ReleaseHandle(request.requestId, execution.handle.token)]
    else [CallExecutor(request)]
  }

  function ReleaseCalls(record: Record, ownerId: string): seq<NativeCall> {
    if record.receipt.request.ownerId != ownerId || record.receipt.life.ownership != Owned || record.handle.None? then []
    else [ReleaseHandle(record.request.requestId, record.handle.value.token)]
  }

  /** A native uninstall that went through is followed by the release of the handle. */
  function UninstallCalls(record: Record, ownerId: string, uninstalling: Uninstalling): seq<NativeCall> {
    if record.receipt.request.ownerId != ownerId || record.receipt.life.ownership == Released || record.handle.None? then []
    else
      var (id, token) := (record.request.requestId, record.handle.value.token);
      if uninstalling == Uninstalled then [UninstallHandle(id, token), ReleaseHandle(id, token)]
      else [UninstallHandle(id, token)]
  }

  /** The calls a command makes on the native layer, in order. */
  function Calls(t: Table, command: Command, native: Native): seq<NativeCall> {
    match command
    case DoExecute(request) => ExecuteCalls(t, request, native.execution)
    case DoStatus(_) => []
    case DoRelease(ownerId, token) => if Known(t, token) then ReleaseCalls(t.records[t.tokens[token]], ownerId) else []
    case DoUninstall(ownerId, token) =>
      if Known(t, token) then UninstallCalls(t.records[t.tokens[token]], ownerId, native.uninstalling) else []
  }

  /** Nothing is forgotten, and every receipt is where it was or further along. */
  ghost predicate Grows(before: Table, after: Table) {
    && (forall id | id in before.records ::
          && id in after.records
          && after.records[id] == before.records[id].(receipt := after.records[id].receipt)
          && Forward(before.records[id].receipt, after.records[id].receipt))
    && (forall id | id in before.rejected :: id in after.rejected && after.rejected[id] == before.rejected[id])
    && (forall k | k in before.tokens :: k in after.tokens && after.tokens[k] == before.tokens[k])
  }

  lemma GrowsSelf(a: Table)
    ensures Grows(a, a)
  {
  }

  lemma GrowsOn(a: Table, b: Table, c: Table)
    requires Grows(a, b) && Grows(b, c)
    ensures Grows(a, c)
  {
    forall id | id in a.records
      ensures id in c.records && c.records[id] == a.records[id].(receipt := c.records[id].receipt)
      ensures Forward(a.records[id].receipt, c.records[id].receipt)
    {
      assert id in b.records;
    }
  }

  /** A record bears a token exactly when it holds a handle, and then it is neither orphaned nor uncertain. */
  lemma TokenMeansHandle(id: string, record: Record)
    requires WellKept(id, record)
    ensures record.receipt.token.Some? <==> record.handle.Some?
    ensures record.handle.Some? ==>
              && record.receipt.token == Some(record.handle.value.token)
              && record.receipt.life.ownership in {Owned, Released}
              && record.receipt.life.targetState in {Installed, Restored}
  {
  }

  /** One record may be replaced by itself further along. */
  ghost predicate Advances(id: string, before: Record, after: Record) {
    WellKept(id, after) && after == before.(receipt := after.receipt) && Forward(before.receipt, after.receipt)
  }

  lemma TokenLeads(t: Table, token: U64)
    requires Kept(t)
    ensures token in t.tokens ==> t.tokens[token] in t.records
  {
  }

  lemma ReleaseAdvances(id: string, record: Record, ownerId: string, token: U64, releasing: Result<bool, string>)
    requires WellKept(id, record)
    ensures Advances(id, record, ReleaseRecord(record, ownerId, token, releasing).0)
  {
    var after := ReleaseRecord(record, ownerId, token, releasing).0;
    if record.handle.Some? {
      assert Forward(ReceiptFor(record.request, record.handle.value), after.receipt);
    }
  }

  lemma UninstallAdvances(id: string, record: Record, ownerId: string, token: U64,
                          uninstalling: Uninstalling, releasing: Result<bool, string>)
    requires WellKept(id, record)
    ensures Advances(id, record, UninstallRecord(record, ownerId, token, uninstalling, releasing).0)
  {
    var after := UninstallRecord(record, ownerId, token, uninstalling, releasing).0;
    if record.handle.Some? {
      assert Forward(ReceiptFor(record.request, record.handle.value), after.receipt);
    }
  }

  lemma ReplacingKeeps(t: Table, id: string, record: Record)
    requires Kept(t) && id in t.records && Advances(id, t.records[id], record)
    ensures Kept(t.(records := t.records[id := record]))
    ensures Grows(t, t.(records := t.records[id := record]))
  {
    hide WellKept, WellRejected;
    var after := t.(records := t.records[id := record]);
    forall other | other in after.records
      ensures WellKept(other, after.records[other])
      ensures after.records[other].receipt.token == t.records[other].receipt.token
    {
      assert WellKept(other, t.records[other]);
    }
  }

  lemma RejectingKeeps(t: Table, id: string, entry: (Request, Reply))
    requires Kept(t) && id !in t.records && id !in t.rejected && WellRejected(id, entry)
    ensures Kept(t.(rejected := t.rejected[id := entry]))
    ensures Grows(t, t.(rejected := t.rejected[id := entry]))
  {
  }

  function Recorded(t: Table, id: string, record: Record): Table {
    var tokens := match record.receipt.token case Some(k) => t.tokens[k := id] case None => t.tokens;
    Table(t.records[id := record], t.rejected, tokens)
  }

  lemma RecordingKeeps(t: Table, id: string, record: Record)
    requires Kept(t) && id !in t.records && id !in t.rejected && WellKept(id, record)
    requires record.receipt.token.Some? ==> record.receipt.token.value != 0 && record.receipt.token.value !in t.tokens
    ensures Kept(Recorded(t, id, record))
    ensures Grows(t, Recorded(t, id, record))
  {
    hide WellKept, WellRejected, Indexed, Grows;
    RecordingIndexes(t, id, record);
    RecordingGrows(t, id, record);
  }

  lemma RecordingIndexes(t: Table, id: string, record: Record)
    requires Indexed(t) && id !in t.records
    requires record.receipt.token.Some? ==> record.receipt.token.value != 0 && record.receipt.token.value !in t.tokens
    ensures Indexed(Recorded(t, id, record))
  {
  }

  lemma RecordingGrows(t: Table, id: string, record: Record)
    requires id !in t.records
    requires record.receipt.token.Some? ==> record.receipt.token.value !in t.tokens
    ensures Grows(t, Recorded(t, id, record))
  {
  }

  lemma ExecuteKeeps(t: Table, request: Request, execution: Execution)
    requires Kept(t) && CallsExecutor(t, request)
    ensures Kept(ExecuteFresh(t, request, execution).0)
    ensures Grows(t, ExecuteFresh(t, request, execution).0)
  {
    hide Kept, Grows, ValidRequest;
    var after := ExecuteFresh(t, request, execution).0;
    var id := request.requestId;
    match execution
    case Issued(handle) =>
      if handle.token == 0 || handle.token in t.tokens {
        RejectingKeeps(t, id, after.rejected[id]);
      } else {
        RecordingKeeps(t, id, Record(request, ReceiptFor(request, handle), Some(handle), None));
      }
    case ExecutionFailure(backend, text, uncertain) =>
      if uncertain {
        RecordingKeeps(t, id, after.records[id]);
      } else {
        RejectingKeeps(t, id, after.rejected[id]);
      }
  }

  lemma ServeKeeps(t: Table, command: Command, native: Native)
    requires Kept(t)
    ensures Kept(Serve(t, command, native).0)
    ensures Grows(t, Serve(t, command, native).0)
  {
    match command
    case DoExecute(request) =>
      if CallsExecutor(t, request) { ExecuteKeeps(t, request, native.execution); }
    case DoStatus(_) =>
    case DoRelease(ownerId, token) =>
      if token in t.tokens {
        var id := t.tokens[token];
        assert WellKept(id, t.records[id]);
        ReleaseAdvances(id, t.records[id], ownerId, token, native.releasing);
        ReplacingKeeps(t, id, ReleaseRecord(t.records[id], ownerId, token, native.releasing).0);
      }
    case DoUninstall(ownerId, token) =>
      if token in t.tokens {
        var id := t.tokens[token];
        assert WellKept(id, t.records[id]);
        UninstallAdvances(id, t.records[id], ownerId, token, native.uninstalling, native.releasing);
        ReplacingKeeps(t, id, UninstallRecord(t.records[id], ownerId, token, native.uninstalling, native.releasing).0);
      }
  }

  /**
   The owner's own release or uninstall always finds its record and its handle: the replies that would say
   otherwise cannot occur, and whatever the reply is, it carries the record's receipt as it now stands.
   */
  lemma OwnReleaseIsAnswered(t: Table, ownerId: string, token: U64, native: Native)
    requires Kept(t) && token in t.tokens && t.records[t.tokens[token]].receipt.request.ownerId == ownerId
    ensures t.records[t.tokens[token]].handle.Some?
    ensures var (after, reply) := Serve(t, DoRelease(ownerId, token), native);
            var receipt := after.records[t.tokens[token]].receipt;
            || (reply.ReleaseReply? && reply.receipt == receipt && receipt.life.ownership == Released)
            || (reply.ErrorReply? && reply.code == AdapterFailed && reply.message.FromAdapter?
                && reply.about == Some(receipt) && receipt.life.ownership == Owned)
  {
    var id := t.tokens[token];
    TokenMeansHandle(id, t.records[id]);
  }

  lemma UninstallAnswers(record: Record, token: U64, uninstalling: Uninstalling, releasing: Result<bool, string>)
    requires record.handle.Some? && record.receipt.life.ownership in {Owned, Released}
    ensures var (after, reply) := UninstallRecord(record, record.receipt.request.ownerId, token, uninstalling, releasing);
            || (reply.UninstallReply? && reply.receipt == after.receipt
                && after.receipt.life.ownership == Released && after.receipt.life.targetState == Restored)
            || (reply.ErrorReply? && reply.about == Some(after.receipt)
                && reply.code in {AlreadyReleased, NativeUninstallUnavailable, AdapterFailed}
                && (reply.code == AlreadyReleased <==> after.receipt.life.ownership == Released))
  {
  }

  lemma OwnUninstallIsAnswered(t: Table, ownerId: string, token: U64, native: Native)
    requires Kept(t) && token in t.tokens && t.records[t.tokens[token]].receipt.request.ownerId == ownerId
    ensures var (after, reply) := Serve(t, DoUninstall(ownerId, token), native);
            var receipt := after.records[t.tokens[token]].receipt;
            || (reply.UninstallReply? && reply.receipt == receipt
                && receipt.life.ownership == Released && receipt.life.targetState == Restored)
            || (reply.ErrorReply? && reply.about == Some(receipt)
                && reply.code in {AlreadyReleased, NativeUninstallUnavailable, AdapterFailed}
                && (reply.code == AlreadyReleased <==> receipt.life.ownership == Released))
  {
    var id := t.tokens[token];
    TokenMeansHandle(id, t.records[id]);
    UninstallAnswers(t.records[id], token, native.uninstalling, native.releasing);
  }

  class ExternalHookRegistry {
    var records: map<string, Record>
    var rejected: map<string, (Request, Reply)>
    var tokens: map<U64, string>

    function Contents(): Table
      reads this
    {
      Table(records, rejected, tokens)
    }

    ghost predicate Valid()
      reads this
    {
      Kept(Contents())
    }

    constructor ()
      ensures Valid() && Contents() == EMPTY
    {
      records, rejected, tokens := map[], map[], map[];
    }

    method Execute(request: Request, execution: Execution) returns (reply: Reply, log: seq<NativeCall>)
      requires Valid()
      modifies this
      ensures Valid() && Grows(old(Contents()), Contents())
      ensures (Contents(), reply) == Serve(old(Contents()), DoExecute(request), Native(execution, Unavailable, Success(false)))
      ensures log == ExecuteCalls(old(Contents()), request, execution)
    {
      hide Kept, Grows, ValidRequest;
      ServeKeeps(Contents(), DoExecute(request), Native(execution, Unavailable, Success(false)));
      log := [];
      var id := request.requestId;
      if !ValidRequest(request) {
        return Error(ExecutionFailed, InvalidRequest, Some(id), None, None, false), log;
      }
      if id in records {
        var record := records[id];
        if record.request != request {
          return Error(RequestIdConflict, AlreadyBound, Some(id), record.receipt.token, Some(record.receipt), true), log;
        }
        match record.cachedError {
          case Some((code, message)) =>
            return Error(code, message, Some(id), record.receipt.token, Some(record.receipt), true), log;
          case None =>
            return ExecuteReply(record.receipt, true), log;
        }
      }
      if id in rejected {
        var (previous, earlier) := rejected[id];
        if previous != request {
          return Error(RequestIdConflict, AlreadyBound, Some(id), None, None, true), log;
        }
        return ReplayError(earlier), log;
      }
      log := log + [CallExecutor(request)];
      match execution {
        case Issued(handle) =>
          if handle.token == 0 || handle.token in tokens {
            log := log + [ReleaseHandle(id, handle.token)];
            reply := Error(DuplicateToken, TokenAlreadyOwned(handle.token), Some(id), Some(handle.token), None, false);
            rejected := rejected[id := (request, reply)];
            return;
          }
          var receipt := ReceiptFor(request, handle);
          tokens := tokens[handle.token := id];
          records := records[id := Record(request, receipt, Some(handle), None)];
          reply := ExecuteReply(receipt, false);
        case ExecutionFailure(backend, text, uncertain) =>
          if uncertain {
            var receipt := OrphanReceipt(request, backend, FromAdapter(text));
            reply := Error(TargetStateUncertain, FromAdapter(text), Some(id), None, Some(receipt), false);
            records := records[id := Record(request, receipt, None, Some((TargetStateUncertain, FromAdapter(text))))];
          } else {
            reply := Error(ExecutionFailed, FromAdapter(text), Some(id), None, None, false);
            rejected := rejected[id := (request, reply)];
          }
      }
    }

    method Status(ownerId: string) returns (reply: Reply)
      requires Valid()
      ensures reply == Serve(Contents(), DoStatus(ownerId), Native(ExecutionFailure("", "", false), Unavailable, Success(false))).1
    {
      var hooks: map<string, Receipt> := map[];
      var rest := records.Keys;
      while rest != {}
        invariant rest <= records.Keys
        invariant hooks == map id | id in records && id !in rest && records[id].receipt.request.ownerId == ownerId ::
                    records[id].receipt
        decreases rest
      {
        var id :| id in rest;
        if records[id].receipt.request.ownerId == ownerId {
          hooks := hooks[id := records[id].receipt];
        }
        rest := rest - {id};
      }
      reply := StatusReply(ownerId, hooks);
    }

    /** The record is borrowed in place: only the changing part of its receipt is written. */
    method SetLife(id: string, life: Life)
      requires id in records
      modifies this`records
      ensures records == old(records)[id := WithLife(old(records)[id], life)]
    {
      records := records[id := records[id].(receipt := records[id].receipt.(life := life))];
    }

    method Release(ownerId: string, token: U64, native: Native)
      returns (reply: Reply, log: seq<NativeCall>)
      requires Valid()
      modifies this`records
      ensures Valid() && Grows(old(Contents()), Contents())
      ensures (Contents(), reply) == Serve(old(Contents()), DoRelease(ownerId, token), native)
      ensures log == Calls(old(Contents()), DoRelease(ownerId, token), native)
    {
      hide Kept, Grows;
      log := [];
      ServeKeeps(Contents(), DoRelease(ownerId, token), native);
      TokenLeads(Contents(), token);
      if token !in tokens {
        return NotKnown(token), log;
      }
      var id := tokens[token];
      assert records == records[id := records[id]];
      if records[id].receipt.request.ownerId != ownerId {
        return About(records[id], token, OwnerMismatch, TokenOfAnotherOwner(token)), log;
      }
      if records[id].receipt.life.ownership == Released {
        return ReleaseReply(records[id].receipt, false), log;
      }
      var record := records[id];
      if record.receipt.life.ownership == Orphaned {
        return About(record, token, TargetStateUncertain, NoReleasableHandle), log;
      }
      if record.handle.None? {
        return About(record, token, AdapterFailed, NoNativeHandle), log;
      }
      assert record.receipt.life.ownership == Owned;
      log := log + [ReleaseHandle(record.request.requestId, record.handle.value.token)];
      match native.releasing {
        case Success(changed) =>
          SetLife(id, records[id].receipt.life.(ownership := Released, lastError := None));
          reply := ReleaseReply(records[id].receipt, changed);
        case Failure(text) =>
          SetLife(id, records[id].receipt.life.(lastError := Some(FromAdapter(text))));
          reply := About(records[id], token, AdapterFailed, FromAdapter(text));
      }
    }

    method Uninstall(ownerId: string, token: U64, native: Native)
      returns (reply: Reply, log: seq<NativeCall>)
      requires Valid()
      modifies this`records
      ensures Valid() && Grows(old(Contents()), Contents())
      ensures (Contents(), reply) == Serve(old(Contents()), DoUninstall(ownerId, token), native)
      ensures log == Calls(old(Contents()), DoUninstall(ownerId, token), native)
    {
      hide Kept, Grows;
      log := [];
      ServeKeeps(Contents(), DoUninstall(ownerId, token), native);
      TokenLeads(Contents(), token);
      if token !in tokens {
        return NotKnown(token), log;
      }
      var id := tokens[token];
      assert records == records[id := records[id]];
      var record := records[id];
      var receipt := record.receipt;
      if receipt.request.ownerId != ownerId {
        return About(record, token, OwnerMismatch, TokenOfAnotherOwner(token)), log;
      }
      if receipt.life.ownership == Released {
        if receipt.life.targetState == Restored {
          return UninstallReply(receipt, false), log;
        }
        return About(record, token, AlreadyReleased, StillInstalledAfterRelease), log;
      }
      if record.handle.None? {
        return About(record, token, TargetStateUncertain, NoUninstallHandle), log;
      }
      var handle := record.handle.value;
      log := log + [UninstallHandle(record.request.requestId, handle.token)];
      match native.uninstalling {
        case Uninstalled =>
          log := log + [ReleaseHandle(record.request.requestId, handle.token)];
          match native.releasing {
            case Success(_) =>
              SetLife(id, records[id].receipt.life.(ownership := Released, targetState := Restored, lastError := None));
              reply := UninstallReply(records[id].receipt, true);
            case Failure(text) =>
              SetLife(id, records[id].receipt.life.(targetState := Restored, lastError := Some(FromAdapter(text))));
              reply := About(records[id], token, AdapterFailed, FromAdapter(text));
          }
        case Unavailable =>
          SetLife(id, records[id].receipt.life.(lastError := Some(NativeUninstallIsUnavailable)));
          reply := About(records[id], token, NativeUninstallUnavailable, NativeUninstallIsUnavailable);
        case HandleGone =>
          SetLife(id, records[id].receipt.life.(ownership := Released));
          reply := About(records[id], token, AlreadyReleased, HandleWasAlreadyReleased);
        case UninstallFailure(text) =>
          SetLife(id, records[id].receipt.life.(lastError := Some(FromAdapter(text))));
          reply := About(records[id], token, AdapterFailed, FromAdapter(text));
      }
    }

    /** Dropping the table releases every handle it was ever given and did not refuse, each once. */
    method Drop() returns (log: seq<NativeCall>)
      requires Valid()
      ensures forall call :: call in log <==>
                && call.ReleaseHandle? && call.requestId in records
                && records[call.requestId].handle.Some? && records[call.requestId].handle.value.token == call.token
      ensures forall i, j :: 0 <= i < j < |log| ==> log[i] != log[j]
    {
      log := [];
      var rest := records.Keys;
      while rest != {}
        invariant rest <= records.Keys
        invariant forall call :: call in log <==>
                    && call.ReleaseHandle? && call.requestId in records && call.requestId !in rest
                    && records[call.requestId].handle.Some? && records[call.requestId].handle.value.token == call.token
        invariant forall i, j :: 0 <= i < j < |log| ==> log[i] != log[j]
        decreases rest
      {
        var id :| id in rest;
        rest := rest - {id};
        if records[id].handle.Some? {
          var call := ReleaseHandle(id, records[id].handle.value.token);
          assert forall i | 0 <= i < |log| :: log[i] in log;
          log := log + [call];
        }
      }
    }
  }
}

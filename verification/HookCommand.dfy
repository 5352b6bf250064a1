/** The external-hook part of the wire contract: requests, receipts and replies. */
module HookCommand {
  import opened Text
  import opened Wrappers

  const ID_MAX_LEN := 128
  const IMAGE_MAX_LEN := 4096

  datatype Operation = Install | Replace

  datatype Request = Request(
    requestId: string,
    ownerId: string,
    operation: Operation,
    backendImage: string,
    target: U64,
    replacement: U64)

  datatype Ownership = Owned | Released | Orphaned

  datatype TargetState = Installed | Restored | Uncertain

  /** The part of a receipt that changes while the hook lives. */
  datatype Life = Life(ownership: Ownership, targetState: TargetState, lastError: Option<Message>)

  /**
   A receipt repeats the six fields of the request it answers, so they are kept as that request; what the
   agent may still change afterwards is kept apart as `life`.
   */
  datatype Receipt = Receipt(
    request: Request,
    token: Option<U64>,
    backend: string,
    original: Option<U64>,
    nativeResult: Option<int>,
    nativeUninstallAvailable: bool,
    life: Life)

  /** Reply texts, one constructor for each text the agent can produce. */
  datatype Message =
    | InvalidRequest
    | AlreadyBound
    | TokenAlreadyOwned(token: U64)
    | TokenNotKnown(token: U64)
    | TokenOfAnotherOwner(token: U64)
    | NoReleasableHandle
    | NoNativeHandle
    | NoUninstallHandle
    | StillInstalledAfterRelease
    | NativeUninstallIsUnavailable
    | HandleWasAlreadyReleased
    | FromAdapter(text: string)

  datatype ErrorCode =
    | RequestIdConflict
    | NotFound
    | OwnerMismatch
    | DuplicateToken
    | ExecutionFailed
    | TargetStateUncertain
    | NativeUninstallUnavailable
    | AlreadyReleased
    | AdapterFailed

  datatype Reply =
    | ExecuteReply(receipt: Receipt, replayed: bool)
    | StatusReply(ownerId: string, hooks: map<string, Receipt>)
    | ReleaseReply(receipt: Receipt, changed: bool)
    | UninstallReply(receipt: Receipt, changed: bool)
    | ErrorReply(code: ErrorCode, message: Message, requestId: Option<string>, token: Option<U64>,
                 about: Option<Receipt>, replayed: bool)

  predicate IsIdChar(c: char) {
    'a' <= c <= 'z' || 'A' <= c <= 'Z' || '0' <= c <= '9' || c in "._:-"
  }

  predicate ValidId(s: string) {
    0 < |s| <= ID_MAX_LEN && forall c | c in s :: IsIdChar(c)
  }

  predicate ValidRequest(request: Request) {
    var image := Trim(request.backendImage);
    && ValidId(request.requestId)
    && ValidId(request.ownerId)
    && image != []
    && Utf8Len(image) <= IMAGE_MAX_LEN
    && '\0' !in image
    && request.target != 0
    && request.replacement != 0
  }

  /** `later` is the same life as `earlier`, at the same or a further stage. */
  predicate Onward(earlier: Life, later: Life) {
    && (earlier.ownership == later.ownership || (earlier.ownership == Owned && later.ownership == Released))
    && (earlier.targetState == later.targetState || (earlier.targetState == Installed && later.targetState == Restored))
  }

  /** The same hook, no earlier in its life. */
  predicate Forward(earlier: Receipt, later: Receipt) {
    later == earlier.(life := later.life) && Onward(earlier.life, later.life)
  }
}

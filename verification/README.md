# ios-rustfrida, verified

A Dafny model of the parts of ios-rustfrida whose correctness is hardest to see from any one function, with proofs of
the properties those parts exist for. `dafny verify dfyconfig.toml` checks everything.

**External hooks.** A hook's native handle lives in the agent; the controller holds a lease with the receipt it last
heard. Between them is a transport that may lose a command or its reply at any point, and both ends are used by several
threads and clients at once.

- `HookCommand`, `Text`: requests, receipts, replies and their validation.
- `AgentRegistry`: the agent's table of records, rejections and tokens. The native executor and handles are adversaries:
  whatever they would answer is an argument. The class `ExternalHookRegistry` updates its maps in place and is proved
  against functions on table values, with a log of the native calls it makes. `AgentRuns` proves what holds over any
  sequence of commands, `AgentOutcomes` what each command does, field by field, and who can change a hook.
- `SessionProtocol`: the controller session as a transition system. A step is one stretch of code between two points at
  which another thread can be noticed; execute is three steps, detach is a shutdown followed by a cleanup of single
  releases, and other clients of the same agent may act between any two steps. `SessionInvariant` and `SessionSteps` carry
  the invariant through every step, `SessionTheorems` states the results for whole runs,
  `SessionLag` gives two concrete ones. `LeaseOutcomes` says what a lease's own release and uninstall do in every case, and
  what a cleanup does to all leases together.
- `ControllerSession`: the session as an object with mutable fields, its cleanup loop and its early returns. Every method
  is proved to be a path of `SessionProtocol`, so the results above hold of these bodies, and its result and new state are
  given for every input.
- `ServerProtocol`: the session registry and the frontend above it, with check-then-remove detaches interleaved in any
  way; `ServerObjects`: the same as mutable objects, each operation proved to be a path of that protocol.

**LINKEDIT decoders.** `Uleb128`, `FunctionStarts`, `ExportsTrie`, `ExportsTrieEncoding`, `ExportsTrieLayout`,
`ExportsTrieWriter`, `ExportsTrieContents`, `ChainedPages`, `ChainedSegments`, `ChainedImports` and `ChainedContents`, over `Layout`, `CStrings` and
`LittleEndian`, model the decoders of untrusted bytes: each loop is proved against a recursive reading, and each reading is proved
to invert an encoder and to accept exactly what the bytes hold.

**Small machines.** `SuspendedSpawn` (who kills a held process), `HttpRequest`, `HttpRequestPrinting` and
`HttpRequestOutcomes` (reading over arbitrary buffers, reading back what a client prints, and which requests are accepted or
refused), `ShellWords`, `ShellGrammar`, `ControlTemplate` and `InsertedWords` (quoting, tokenizing, rendering, and when an
inserted value stays one word).

Modelling decisions that matter for reading the results:

- A failed call is never answered later, and a handle's token never changes; `usize` has 64 bits.
- Reply texts are a datatype with one constructor per text. The agent's `expect` on a token without a record is the case
  that the predicate `Known` excludes, and `Kept` proves it cannot occur.
- In `SessionProtocol` the lifecycle mutex and the write gate are held throughout a release or an uninstall, so each is one
  step with both of its possible calls. `backend.detach` and every single release of a cleanup are steps of their own.
- A registry detach that runs under the frontend's lock is marked with the frontend operation it belongs to, because the
  frontend's own fields are settled when it ends.
- A detach waits for the gate of its session. Where another thread has a detach of that session under way, how that one
  ends is an argument (`Answer.other`), and it ends first; calls inside the backend leave it before the gate is taken.
- Words are those of the controller's own tokenizer; a shell's operators and expansions are not modelled.
- The native outcome of a control action, an observation or a release attempt is an argument; what was observed and sent is
  kept in a log (`Watch.seen`, `SpawnOwner.sent`, the native calls of the agent's table).
- Proof-only parameters of the object methods (`threads`, `t`, `start`, `path`, `steps`) name the protocol state around the
  running thread and the path taken; they carry no information into the bodies.

Where the code does less than one might expect, the model follows the code, and the exact extent is a theorem:

- after an answered uninstall the shown target state may still lag behind the agent's, in exactly the cases that
  `ShownTargetLagsExactly` names; once the lease is released such a lag is for ever (`ReleasedLagStays`), before that it
  can be repaired (`LagIsRepairable`), and `SessionLag` gives runs that end in either;
- a value inserted into a control command is one word only between texts that `SafeSurroundings` characterizes; inside
  quotes of the template it is not (`QuotedPlaceholderBreaks`);
- a chain run that begins at entry 0x7fff cannot be pointed at, since the pointer would spell START_NONE
  (`PagesInvertEncode`);
- an empty value is quoted as nothing at all and vanishes when tokenized (`TokenizeInvertsQuote`);
- the tenth byte of a ULEB128 number may carry bits beyond the 64th, which are shifted out instead of refused
  (`ReadUleb128`).

## Model

| member | source | states |
|---|---|---|
| AgentRegistry.ExternalHookRegistry.constructor | ios-rustfrida/agent/src/lib.rs:287-292 | a new table is empty and well kept |
| AgentRegistry.ExternalHookRegistry.Execute | ios-rustfrida/agent/src/lib.rs:295-437 | the table, the reply and the log of native calls are those of the execute command: the executor is called exactly when a valid request brings a fresh identifier, and a handle whose token is zero or already owned is released at once; the invariant is kept and nothing already bound changes |
| AgentRegistry.ExternalHookRegistry.Release | ios-rustfrida/agent/src/lib.rs:451-520 | the table, the reply and the native calls are those of the release command; the invariant is kept and the record only moves forward |
| AgentRegistry.ExternalHookRegistry.Uninstall | ios-rustfrida/agent/src/lib.rs:522-629 | the table, the reply and the native calls are those of the uninstall command, in all five native outcomes; the invariant is kept and the record only moves forward |
| AgentRegistry.ExternalHookRegistry.Drop | ios-rustfrida/agent/src/lib.rs:650-658 | dropping the table calls the native release of every handle in a record, each exactly once, and nothing else |
| AgentRegistry.TokenMeansHandle | ios-rustfrida/agent/src/lib.rs:280-285 | a record bears a token exactly when it holds a live handle, with that handle's token, and is then neither orphaned nor uncertain |
| AgentRegistry.ServeKeeps | ios-rustfrida/agent/src/lib.rs:295-629 | every command keeps the table well kept (tokens and token-bearing records are mutual inverses, no identifier is both recorded and rejected) and only moves receipts forward, whatever the native layer answers |
| AgentRegistry.OwnReleaseIsAnswered | ios-rustfrida/agent/src/lib.rs:451-520 | an owner's release of a known token finds record and handle; it ends Released with the current receipt in the reply, or with an adapter error that also carries it |
| AgentRegistry.OwnUninstallIsAnswered | ios-rustfrida/agent/src/lib.rs:522-629 | an owner's uninstall of a known token finds record and handle; every reply carries the current receipt, and an error is AlreadyReleased exactly when the record then is Released |
| AgentRuns.RunKept | ios-rustfrida/agent/src/lib.rs:287-629 | the table's invariant holds after every sequence of commands and native answers |
| AgentRuns.NeverBackward | ios-rustfrida/agent/src/lib.rs:451-629 | over any stretch of a run no binding is lost or changed and both life fields of every hook only move forward |
| AgentRuns.ExecutionBinds | ios-rustfrida/agent/src/lib.rs:295-437 | once a request has been executed its identifier stays bound to that very request |
| AgentRuns.AtMostOnce | ios-rustfrida/agent/src/lib.rs:295-349 | the native executor runs at most once for any request identifier in any run |
| AgentRuns.RetryReplays | ios-rustfrida/agent/src/lib.rs:310-349 | a retry gets the recorded outcome, errors identical except for `replayed`, hooks with the receipt as it stands; a different request under the same identifier is refused; neither changes the table |
| AgentRuns.FreshOutcomeReplays | ios-rustfrida/agent/src/lib.rs:351-437 | each of the four outcomes of an execution is what a later identical request is answered with |
| AgentRuns.ChangingTakesOwnership | ios-rustfrida/agent/src/lib.rs:489-519 | a reply that claims a change marks the moment ownership of the token became Released |
| AgentRuns.ChangedAtMostOnce | ios-rustfrida/agent/src/lib.rs:451-629 | each token sees at most one reply that says `changed` in any run |
| AgentRuns.IssuedHandleIsHeld | ios-rustfrida/agent/src/lib.rs:351-400 | every handle the native layer issued is either in exactly one record, that of its request, for the rest of the run, or released natively in the very event that rejects it and never recorded |
| AgentRuns.RejectedIsTouchedOnce | ios-rustfrida/agent/src/lib.rs:353-370 | a rejected handle is touched by one native call in the whole run, the release in its own rejection |
| AgentRuns.ReleasedIsLeftAlone | ios-rustfrida/agent/src/lib.rs:473-520 | once a hook is Released no native call touches its handle again until the table is dropped |
| AgentRuns.HeldHandleWasIssued | ios-rustfrida/agent/src/lib.rs:351-400 | conversely every handle in the table was issued by exactly one event, for the record it is in |
| AgentOutcomes.ForeignOwnerIsRefused | ios-rustfrida/agent/src/lib.rs:463-471 | a release or uninstall by someone who does not own the token changes nothing, calls nothing native, and answers OwnerMismatch with the record's identifier and current receipt |
| AgentOutcomes.UnknownTokenIsRefused | ios-rustfrida/agent/src/lib.rs:452-462 | an unknown token changes nothing, calls nothing native, and answers NotFound |
| AgentOutcomes.OwnReleaseOutcome | ios-rustfrida/agent/src/lib.rs:473-520 | an owner's release, field by field: a released hook is left alone and not touched natively; an owned one has its handle released once, and becomes Released with the `changed` the handle gave, or stays owned with the failure recorded and AdapterFailed |
| AgentOutcomes.OwnUninstallOutcome | ios-rustfrida/agent/src/lib.rs:522-629 | an owner's uninstall, field by field: which life and which error code each of the five native outcomes leads to, the native calls made, and that nothing else in the table changes |
| AgentOutcomes.FreshHookOutcome | ios-rustfrida/agent/src/lib.rs:369-384 | a fresh hook's receipt repeats the request and hands on token, backend, original, native result and uninstall availability of the handle; table, reply and native calls are given in full |
| AgentOutcomes.RejectedHandleOutcome | ios-rustfrida/agent/src/lib.rs:353-368 | a handle whose token is zero or taken is released at once, answered DuplicateToken, and only the rejection is kept |
| AgentOutcomes.FailedExecutionOutcome | ios-rustfrida/agent/src/lib.rs:385-435 | a failed execution leaves an orphan when the target may have been touched, and only a rejection when not |
| AgentOutcomes.InvalidRequestOutcome | ios-rustfrida/agent/src/lib.rs:299-308 | an invalid request changes nothing and calls nothing |
| AgentOutcomes.RepeatedRequestOutcome | ios-rustfrida/agent/src/lib.rs:310-349 | a request whose identifier is taken changes nothing and calls nothing; its reply is the recorded outcome with the current receipt, or a conflict |
| AgentRegistry.ExternalHookRegistry.Status | ios-rustfrida/agent/src/lib.rs:439-449 | reads the table and answers the status command |
| AgentOutcomes.StatusListsOwnHooks | ios-rustfrida/agent/src/lib.rs:439-449 | a status reply lists exactly the owner's hooks, each with its current receipt |
| AgentOutcomes.OwnedHookChanges | ios-rustfrida/agent/src/lib.rs:451-629 | under any command at all, an owned hook becomes Released if and only if its own owner gives it up and the native layer goes along, and Restored if and only if its own owner has it uninstalled natively; giving up makes the native call |
| AgentOutcomes.ForeignCommandChangesNothing | ios-rustfrida/agent/src/lib.rs:451-629 | at any point of any run a foreign release or uninstall is refused, changes nothing and calls nothing native |
| AgentOutcomes.ReleasedByItsOwner | ios-rustfrida/agent/src/lib.rs:451-629 | over any run, a hook that was owned and is Released was given up in between by its own owner, with the native call made |
| SessionSteps.ReleaseLeaseConverges | ios-rustfrida/controller/src/session.rs:548-570 | a lease's release, with its reply delivered or lost: the agent only moves forward, the cache stays backed by it, success means released, and an answered call leaves the cache equal to the agent's receipt |
| SessionSteps.UninstallLeaseConverges | ios-rustfrida/controller/src/session.rs:572-591 | the same for a lease's uninstall; success means released and restored |
| SessionSteps.ExecuteReplyIsBacked | ios-rustfrida/controller/src/session.rs:873-921 | the receipt in an execute reply is the receipt of the record that its own token leads to |
| LeaseOutcomes.ReleaseLeaseAnswer | ios-rustfrida/controller/src/session.rs:548-570 | a lease's release in every case: nothing is sent once it is known to be released; a lost call is an adapter error and leaves the cache; an answered one succeeds unless the native release failed, and gives the cache what the agent holds |
| LeaseOutcomes.UninstallLeaseAnswer | ios-rustfrida/controller/src/session.rs:572-591 | a lease's uninstall in every case: which of the three errors answers which outcome in the agent, what the agent and the cache hold afterwards, and that success means released |
| LeaseOutcomes.AdoptableExactly | ios-rustfrida/controller/src/session.rs:1423-1463 | an execute reply can be adopted if and only if the backend is known and the agent then has a hook of this very request, owned and installed |
| LeaseOutcomes.ReleaseLeaseIsLocal | ios-rustfrida/controller/src/session.rs:1298-1325 | releasing one lease depends on its own hook alone and touches no other, so the order of a cleanup does not matter |
| SessionSteps.AdoptInv | ios-rustfrida/controller/src/session.rs:921-940 | adopting an execute reply, late or not, keeps the invariant |
| SessionSteps.UninstallHookInv | ios-rustfrida/controller/src/session.rs:988-1048 | uninstalling a hook keeps the invariant wherever the one or two calls are lost |
| SessionSteps.CleanOneInv | ios-rustfrida/controller/src/session.rs:1298-1325 | each turn of the cleanup loop keeps the invariant |
| SessionSteps.FinishCleaningInv | ios-rustfrida/controller/src/session.rs:1201-1263 | the end of a cleanup, in each of its places, keeps the invariant |
| SessionSteps.StepInv | ios-rustfrida/controller/src/session.rs:738-1263 | every step of every thread, and of every other client of the agent, keeps the protocol's invariant |
| SessionInvariant.GateHidesDetaching | ios-rustfrida/controller/src/session.rs:1195-1230 | no thread that can take the gate sees the session as Detaching |
| SessionTheorems.RunInv | ios-rustfrida/controller/src/session.rs:680-1263 | the invariant holds in every reachable state, for any number of threads and any lost replies |
| SessionTheorems.ControllerNeverAhead | ios-rustfrida/controller/src/session.rs:481-591 | the controller is never ahead: a lease cached as released is Released in the agent, a hook shown as Restored is Restored there |
| SessionTheorems.OnlyForward | ios-rustfrida/controller/src/session.rs:953-1048 | over any stretch of a run, agent receipts, cached receipts and shown target states only move forward and leases are never dropped |
| SessionTheorems.DetachedForGood | ios-rustfrida/controller/src/session.rs:1195-1263 | Detached is never left; a detached session has no backend, gains no lease, and every lease it holds is released in the controller and in the agent |
| SessionTheorems.OneLeasePerRequest | ios-rustfrida/controller/src/session.rs:1474-1483 | a session holds at most one lease for a request, whatever was lost and repeated |
| SessionTheorems.DuplicateTokenUnreachable | ios-rustfrida/controller/src/session.rs:1327-1347 | a reply about to be adopted has a token that is new or belongs to a lease for the very same request, so the duplicate-token branch never releases a live hook |
| SessionTheorems.OwnActionsNeverRefused | ios-rustfrida/controller/src/session.rs:548-591 | a lease's own release or uninstall is never answered NotFound, OwnerMismatch or TargetStateUncertain |
| SessionTheorems.LateReplyIsReleased | ios-rustfrida/controller/src/session.rs:1327-1336 | an execute reply that arrives after the session left Attaching and Attached is not adopted; unless a lease for that very request is already held, its hook is released, and the agent owns it no more unless that release is lost before the agent acts or fails natively |
| SessionTheorems.DetachExcludesCalls | ios-rustfrida/controller/src/session.rs:1068-1153 | while `backend.detach` runs, no call is inside the backend and no other thread holds the write gate |
| SessionTheorems.DetachSucceedsOnce | ios-rustfrida/controller/src/session.rs:1195-1263 | after the first successful `backend.detach` there is no other, and no call enters the backend again |
| SessionTheorems.BackendOwnership | ios-rustfrida/controller/src/session.rs:738-766 | outside a detach in progress: Attaching and Detached hold no backend, Attached holds one not shut down, Failed holds one not shut down or has completed shutdown; only the last `backend.detach` can have succeeded |
| SessionTheorems.DetachMeansDetached | ios-rustfrida/controller/src/session.rs:1195-1263 | a detach that reports success leaves the session Detached |
| SessionTheorems.StatesFollowEdges | ios-rustfrida/controller/src/session.rs:86-92 | every change of state follows the life cycle, and Detached is entered only by a detach that succeeds |
| SessionTheorems.OneAnswerConverges | ios-rustfrida/controller/src/session.rs:494-591 | whatever replies were lost before, one answered release or uninstall makes the cached receipt equal to the agent's |
| SessionTheorems.ShownTargetLagsExactly | ios-rustfrida/controller/src/session.rs:1003-1048 | after an answered uninstall, from any state of the agent's record, the shown target differs from the agent's if and only if the lease showed Installed, the agent still owned the hook, the native uninstall and release did not both succeed, and the target is restored by this attempt or an earlier one |
| SessionTheorems.LaggingIsTheOnlyDifference | ios-rustfrida/controller/src/session.rs:988-1048 | shown target and the agent's can differ in one way only: Installed is shown and the agent has restored |
| SessionTheorems.ReleasedLagStays | ios-rustfrida/controller/src/session.rs:998-1006 | a lag that meets a released lease stays for the rest of the run, whatever is called |
| SessionTheorems.LagIsRepairable | ios-rustfrida/controller/src/session.rs:998-1048 | some uninstall can repair a lag at once if and only if the cached lease is not released |
| SessionLag.LagIsReachable | ios-rustfrida/controller/src/session.rs:988-1048 | a run in which an answered uninstall leaves the lag, and a longer one in which an answered retry that the adapter refuses leaves it again |
| SessionLag.ReleasedLagIsReachable | ios-rustfrida/controller/src/session.rs:953-1006 | a run that ends in a lag no call can repair: an uninstall carried out whose answer is lost, then an answered release |
| ControllerSession.PathKeeps | ios-rustfrida/controller/src/session.rs:738-1263 | whatever path of protocol steps a session method takes, the invariant stays and nothing moves backward |
| ControllerSession.Session.constructor | ios-rustfrida/controller/src/session.rs:680-698 | a new session is the start of the protocol |
| ControllerSession.Session.Release | ios-rustfrida/controller/src/session.rs:548-570 | the object's release computes the protocol's lease release, on the agent and on the cached receipt |
| ControllerSession.Session.Uninstall | ios-rustfrida/controller/src/session.rs:572-591 | the object's uninstall computes the protocol's lease uninstall |
| ControllerSession.Session.CleanUp | ios-rustfrida/controller/src/session.rs:1298-1325 | the cleanup loop is one protocol step per lease; every lease is tried once, each hook and lease ends as that one attempt leaves it, nothing else in the agent changes, and a failure is reported if and only if some lease is not released afterwards |
| ControllerSession.Session.CompleteAttach | ios-rustfrida/controller/src/session.rs:738-752 | succeeds exactly from Attaching and publishes the backend, is the protocol's step, and otherwise changes nothing |
| ControllerSession.Session.FailAttach | ios-rustfrida/controller/src/session.rs:754-766 | succeeds exactly from Attaching, ends Failed with every lease tried, and is a path of the protocol; otherwise nothing changes |
| ControllerSession.Session.MarkTransportFailure | ios-rustfrida/controller/src/session.rs:1168-1191 | succeeds exactly from Attached and Failed, ends Failed with every lease tried, and is a path of the protocol; otherwise nothing changes |
| ControllerSession.Session.Detach | ios-rustfrida/controller/src/session.rs:1195-1263 | is a path of the protocol; the backend's detach is called if and only if one is held; every lease is tried; from Attached or Failed it succeeds if and only if that call did (or was made before) and every lease is released afterwards, from Attaching if and only if every lease is released, from Detached always and changing nothing; a backend whose detach failed is kept for the next try |
| ControllerSession.Session.BackendCall | ios-rustfrida/controller/src/session.rs:1068-1153 | a call reaches the backend exactly when the session is Attached, whatever other calls are inside it |
| ControllerSession.Session.ReleaseExternalHook | ios-rustfrida/controller/src/session.rs:953-983 | is a path of the protocol; an unknown token is refused and nothing changes; otherwise agent and lease end as the lease's release leaves them, with success, AdapterError and the `changed` answer given case by case; success if and only if the lease is released |
| ControllerSession.Session.UninstallExternalHook | ios-rustfrida/controller/src/session.rs:988-1048 | is a path of the protocol; which of the errors answers which outcome in the agent is given case by case; agent and lease end as the lease's uninstall leaves them, shown as Restored exactly on success, which means released; a lease released before is left as it is |
| ControllerSession.Session.FindRemoteReceipt | ios-rustfrida/controller/src/session.rs:1474-1483 | finds a lease for the request identifier exactly when there is one |
| ControllerSession.Session.AdoptRemote | ios-rustfrida/controller/src/session.rs:921-940 | the second critical section of an execute is the protocol's adoption step: a lease for the request decides alone; otherwise the receipt becomes a lease in Attaching and Attached, and in any other state is given back to the agent and refused |
| ControllerSession.Session.ExecuteExternalHook | ios-rustfrida/controller/src/session.rs:816-941 | the whole execute is a path of the protocol; invalid, foreign, untimely and already bound requests are each answered without reaching the agent; any other is sent once, and every reply and every loss leads to exactly the stated result, leases, agent and state: an adoptable receipt is returned and held under its token, a transport failure fails the session and tries every lease |
| ServerProtocol.ActionInv | ios-rustfrida/controller/src/server.rs:133-309 | every registry and frontend step of every thread keeps the invariant |
| ServerProtocol.CapacityAndIdentifiers | ios-rustfrida/controller/src/server.rs:133-152 | in every reachable state the registry is within its capacity, identifiers strictly increase in the order of reservation, and each entry leads to the session of that identifier |
| ServerProtocol.IdentifiersNeverReused | ios-rustfrida/controller/src/server.rs:133-152 | a session keeps its identifier for ever, so none is given out twice, and Detached is final |
| ServerProtocol.LateRemovalIsHarmless | ios-rustfrida/controller/src/server.rs:265-289 | a removal that comes arbitrarily late after its detach removes only the session it detached, which is Detached |
| ServerProtocol.ClosedMeansEmpty | ios-rustfrida/controller/src/server_frontend.rs:941-957 | whenever the frontend is closed the registry is empty and no frontend detach is under way, if all launches go through the frontend |
| ServerProtocol.ClosedForGood | ios-rustfrida/controller/src/server_frontend.rs:476-488 | once closed: closed for ever, registry empty for ever, no new reservation, and every reservation ever handed out is Detached, so a late `complete` fails |
| ServerProtocol.ActiveIsRegistered | ios-rustfrida/controller/src/server_frontend.rs:869-987 | whenever the frontend lock is free an active session is a registered one, as long as every detach goes through the frontend |
| ServerObjects.SessionRegistry.Reserve | ios-rustfrida/controller/src/server.rs:133-152 | reserves the next identifier and an attaching session, or changes nothing and says whether capacity or identifiers ran out |
| ServerObjects.SessionRegistry.Settle | ios-rustfrida/controller/src/session.rs:1195-1200 | taking a session's write gate waits for a detach that another thread has under way |
| ServerObjects.SessionRegistry.DetachSession | ios-rustfrida/controller/src/session.rs:1195-1263 | a session's detach seen from outside: clean as answered, or because the session is Detached once the gate is free; it ends Detached or Failed |
| ServerObjects.SessionRegistry.Snapshot | ios-rustfrida/controller/src/server.rs:275-275 | the registered sessions, each once |
| ServerObjects.SessionRegistry.DetachAndRemove | ios-rustfrida/controller/src/server.rs:265-289 | detaches one session, removes it exactly when that succeeded, and is a path of the protocol |
| ServerObjects.SessionRegistry.Detach | ios-rustfrida/controller/src/server.rs:265-272 | an unregistered identifier is refused and nothing changes; otherwise that session alone is detached, as its answer has it, and removed exactly when that succeeded |
| ServerObjects.SessionRegistry.DetachAll | ios-rustfrida/controller/src/server.rs:274-289 | every session of the snapshot is tried once, in turn, and gets one report under its own identifier, clean if and only if its detach ended well; exactly those are removed, and no other session changes |
| ServerObjects.ServerFrontend.ReserveLaunch | ios-rustfrida/controller/src/server_frontend.rs:823-831 | when open and with no active session, reserves the next identifier unless capacity or identifiers ran out; each refusal is given exactly when it applies and changes nothing |
| ServerObjects.ServerFrontend.UseSession | ios-rustfrida/controller/src/server_frontend.rs:869-888 | a registered, attached session becomes active, from server mode of an open frontend; each of the four refusals is given exactly when it applies |
| ServerObjects.ServerFrontend.Back | ios-rustfrida/controller/src/server_frontend.rs:890-898 | leaves the active session and says which it was, exactly when the frontend is open and there is one |
| ServerObjects.ServerFrontend.Detach | ios-rustfrida/controller/src/server_frontend.rs:900-917 | is a path of the protocol; a registered session is detached as its answer has it, removed and made inactive exactly when that succeeded; a miss clears a stale active mode and changes nothing else |
| ServerObjects.ServerFrontend.Reconcile | ios-rustfrida/controller/src/server_frontend.rs:1002-1014 | searching the reports and then the registry clears the active session exactly when it is no longer registered |
| ServerObjects.ServerFrontend.DetachAll | ios-rustfrida/controller/src/server_frontend.rs:919-930 | is a path of the protocol; every registered session has one report, clean if and only if its detach ended well, and stays registered if and only if not; the active mode is cleared exactly when its session is gone |
| ServerObjects.ServerFrontend.Exit | ios-rustfrida/controller/src/server_frontend.rs:941-957 | is a path of the protocol with the same reports; the frontend closes if and only if every report is clean |
| ServerObjects.ServerFrontend.ReconcileFailure | ios-rustfrida/controller/src/server_frontend.rs:961-987 | is a path of the protocol; the failed session is no longer active; it is detached and, on success, removed exactly when it is registered and attached or failed once its gate is free |
| Uleb128.Number | ios-rustfrida/native-api/src/exports_trie.rs:45-62 | a number is read from at most ten bytes |
| Uleb128.NumberIsExact | ios-rustfrida/native-api/src/exports_trie.rs:45-62 | a number is read exactly where at most nine groups go on and the next one does not, with the value those groups spell; a tenth that goes on is oversized, and the end of the bytes before a last group is truncation |
| Uleb128.ReadUleb128 | ios-rustfrida/native-api/src/exports_trie.rs:45-62 | or-ing shifted groups bit by bit into a 64-bit word computes the encoded number modulo 2^64, or fails where the bytes end or an eleventh group would be needed |
| Uleb128.OrIsAdding | ios-rustfrida/native-api/src/exports_trie.rs:51-51 | a group shifted to its place is or-ed in by adding it, also where the shift drops its upper bits |
| Uleb128.EncodeUleb128 | ios-rustfrida/native-api/src/exports_trie.rs:430-444 | the encoding loop computes the recursive encoding |
| Uleb128.ReadInvertsEncode | ios-rustfrida/native-api/src/exports_trie.rs:45-62 | every 64-bit number takes at most ten bytes and is read back exactly, whatever surrounds it |
| FunctionStarts.DecodeFunctionStarts | ios-rustfrida/native-api/src/function_starts.rs:60-77 | the decoding loop computes the recursive reading of the delta list, overflow cases included |
| FunctionStarts.DecodeInvertsEncode | ios-rustfrida/native-api/src/function_starts.rs:60-77 | every strictly increasing list of positive offsets that fits the address space decodes back exactly, whatever padding follows the zero |
| FunctionStarts.AcceptedIsIncreasing | ios-rustfrida/native-api/src/function_starts.rs:60-77 | every accepted table is strictly increasing, each address being base plus offset |
| FunctionStarts.AcceptedExactly | ios-rustfrida/native-api/src/function_starts.rs:60-77 | a table is accepted as these starts if and only if their deltas are written one after the other and then the bytes end or a zero stands; it is refused for a reason if and only if after some starts a number cannot be read for that reason or a function would lie outside the address space |
| ExportsTrie.ReadNode | ios-rustfrida/native-api/src/exports_trie.rs:111-189 | reading a node with a moving cursor computes what the blob says about that node |
| ExportsTrie.DecodeExportsTrie | ios-rustfrida/native-api/src/exports_trie.rs:97-225 | ends on every blob; succeeds exactly when every node reachable from the root decodes, and else fails as the node decoded last does; then yields exactly one entry per reachable node that announces a terminal, named by the edge labels of some path to it, sorted by name and flags; each entry says, field by field, the numbers and strings the blob holds for its node; on success and on failure no offset is decoded twice, all are reachable, and there are no more of them than bytes |
| ExportsTrie.SortSorts | ios-rustfrida/native-api/src/exports_trie.rs:222-224 | the order by name and then flags: the sorted list is in order and a permutation |
| ExportsTrie.NameLeqMeans | ios-rustfrida/native-api/src/exports_trie.rs:222-224 | of two names a prefix comes first, and otherwise the first byte that differs decides |
| ExportsTrie.ExportSays | ios-rustfrida/native-api/src/exports_trie.rs:127-183 | what an entry says: the flags in the blob; offset as written and address equal to it when absolute and to base plus offset when not; a resolver exactly when flagged; a re-export with its ordinal and, where the import name is empty, its own name |
| ExportsTrie.SearchIsComplete | ios-rustfrida/native-api/src/exports_trie.rs:108-221 | with nothing left on the stack, the offsets visited are exactly the reachable ones |
| ExportsTrie.NoMoreEntriesThanBytes | ios-rustfrida/native-api/src/exports_trie.rs:108-221 | however nodes are shared there are no more entries than bytes |
| ExportsTrie.TreeListsItsPaths | ios-rustfrida/native-api/src/exports_trie.rs:108-221 | on a tree-shaped trie each terminal path gives its own entry, at exactly one place |
| ExportsTrieEncoding.TerminalReadsBack | ios-rustfrida/native-api/src/exports_trie.rs:135-171 | an encoded terminal (re-export, absolute or relative address, with or without a resolver) is read back exactly |
| ExportsTrieEncoding.NodeReadsBack | ios-rustfrida/native-api/src/exports_trie.rs:121-213 | wherever an encoded node sits in the blob, its terminal and its edges are read back, in order |
| ExportsTrieContents.TerminalIsExact | ios-rustfrida/native-api/src/exports_trie.rs:127-171 | a terminal payload is read if and only if the blob holds its numbers and strings one after the other as its flags demand |
| ExportsTrieContents.EdgesAreExact | ios-rustfrida/native-api/src/exports_trie.rs:192-213 | edges are read if and only if they are written one after the other, each child inside the blob |
| ExportsTrieContents.NodeIsExact | ios-rustfrida/native-api/src/exports_trie.rs:118-213 | a node is read if and only if its announced size, a payload that ends no later than announced (absent exactly at size zero), the edge count and the edges lie there |
| ExportsTrieLayout.DecodeLayout | ios-rustfrida/native-api/src/exports_trie.rs:97-225 | decoding a trie laid out in the blob in any way succeeds and gives exactly its recursive enumeration of terminal paths, sorted by name and flags, each entry with the fields of its terminal |
| ExportsTrieWriter.WriteThenDecode | ios-rustfrida/native-api/src/exports_trie.rs:97-225 | writing a finite trie to bytes and decoding them gives its terminal paths, sorted by name and flags, each entry with the fields of its terminal |
| ChainedPages.ReadRun | ios-rustfrida/native-api/src/chained_fixups.rs:228-249 | the inner loop computes the recursive reading of a run |
| ChainedPages.ParsePages | ios-rustfrida/native-api/src/chained_fixups.rs:198-274 | the page loop computes the recursive reading of the table, with as many pages as announced and the exact counts of pages with fixups and with runs |
| ChainedPages.RunIsExact | ios-rustfrida/native-api/src/chained_fixups.rs:228-249 | a run reads as `starts` if and only if those are the entries up to the first one marked LAST, inside the record and the payload; otherwise the parse fails |
| ChainedPages.PagesAreExact | ios-rustfrida/native-api/src/chained_fixups.rs:198-274 | parsing yields a page list if and only if its length is the announced one and every table entry says its page |
| ChainedPages.PagesInvertEncode | ios-rustfrida/native-api/src/chained_fixups.rs:198-274 | encoded pages come back exactly if and only if no run had to begin at entry 0x7fff, whose pointer spells START_NONE |
| ChainedSegments.ParseSegments | ios-rustfrida/native-api/src/chained_fixups.rs:277-334 | the segment loop computes the recursive reading of the starts table |
| ChainedSegments.AcceptedRecordFits | ios-rustfrida/native-api/src/chained_fixups.rs:295-331 | an accepted record lies inside the payload, has the page count it announces, and its counts are those of its pages |
| ChainedSegments.RecordInvertsEncode | ios-rustfrida/native-api/src/chained_fixups.rs:295-331 | a segment record comes back with all its fields, pages and counts |
| ChainedSegments.SegmentsInvertEncode | ios-rustfrida/native-api/src/chained_fixups.rs:277-334 | an encoded starts table comes back slot by slot, empty slots skipped, wherever it sits in the payload |
| ChainedContents.RecordIsExact | ios-rustfrida/native-api/src/chained_fixups.rs:295-331 | a segment record is read if and only if its fixed fields and its pages lie there, inside the size it announces and the payload |
| ChainedContents.SegmentsAreExact | ios-rustfrida/native-api/src/chained_fixups.rs:277-334 | a starts table is read as these segments if and only if they are, in order, those its non-zero slots lead to, and every other slot is zero |
| ChainedImports.OrdinalsCorrespond | ios-rustfrida/native-api/src/chained_fixups.rs:187-195 | raw ordinals of any width from 4 bits and the ordinals in [-15, 2^bits - 16] correspond one to one |
| ChainedImports.ParseImports | ios-rustfrida/native-api/src/chained_fixups.rs:336-420 | the import loop computes the recursive reading of the table, in each format and for unsupported ones |
| ChainedImports.ImportsInvertEncode | ios-rustfrida/native-api/src/chained_fixups.rs:336-420 | an encoded import table of any of the three formats comes back exactly, signed addends and resolved names included, whatever the unused bits are |
| ChainedContents.ImportsAreExact | ios-rustfrida/native-api/src/chained_fixups.rs:336-420 | an import table is read if and only if every announced entry lies in its place in its format, with its name where it says; a table with entries in any other format is refused |
| SuspendedSpawn.WaitFor | ios-rustfrida/controller/src/suspended_spawn.rs:466-478 | observes at most ceil(timeout / poll) + 1 times, and returns a wanted observation or the last one once the deadline has passed |
| SuspendedSpawn.SpawnOwner.ConfirmSuspended | ios-rustfrida/controller/src/suspended_spawn.rs:371-393 | waits on the watch, and follows what was seen last: stopped is success, exited is termination, anything else comes only with a failed observation or a passed deadline |
| SuspendedSpawn.SpawnOwner.ConfirmInitialSuspension | ios-rustfrida/controller/src/suspended_spawn.rs:395-439 | waits, observes once or does neither, as the gate demands; asks the provider exactly when the process was seen and a status command exists; and follows those answers |
| SuspendedSpawn.SpawnOwner.Resume | ios-rustfrida/controller/src/suspended_spawn.rs:179-236 | sends the resume action exactly when suspended, asks the provider exactly after it went through, and follows their answers |
| SuspendedSpawn.SpawnOwner.Terminate | ios-rustfrida/controller/src/suspended_spawn.rs:238-278 | sends the terminate action exactly when none went out before; whenever one went through it waits on the watch, and then success, and the recorded termination, mean that the last observation made saw the process gone |
| SuspendedSpawn.SpawnOwner.Drop | ios-rustfrida/controller/src/suspended_spawn.rs:514-527 | dropping sends the terminate action exactly when the process was not released to the caller and is not recorded as terminated |
| SuspendedSpawn.StateFollowsAnswers | ios-rustfrida/controller/src/suspended_spawn.rs:179-512 | after each operation the state is the one its answers tell of (held, running, gone, told to go), and unchanged where they tell of none |
| SuspendedSpawn.SuccessMeans | ios-rustfrida/controller/src/suspended_spawn.rs:179-439 | a confirmation succeeds if and only if the process is told to be held, a resume if and only if the owner then counts it as running and released, a terminate if and only if it is then recorded as terminated |
| SuspendedSpawn.StateIsLastTold | ios-rustfrida/controller/src/suspended_spawn.rs:179-512 | after any operations the state is the one the answers last told of |
| SuspendedSpawn.ReleasedExactly | ios-rustfrida/controller/src/suspended_spawn.rs:179-278 | after any operations the owner counts as released if and only if some resume went through (confirmed as released by a FrontBoard provider) and no terminate was attempted since |
| SuspendedSpawn.DropFailsClosed | ios-rustfrida/controller/src/suspended_spawn.rs:514-527 | dropping spares the process in exactly two cases: recorded as terminated, or released and not attempted to terminate since |
| SuspendedSpawn.TerminatedWasSaid | ios-rustfrida/controller/src/suspended_spawn.rs:371-512 | a process is recorded as terminated only if some operation was told that it is gone |
| SuspendedSpawn.SparedOnlyOnEvidence | ios-rustfrida/controller/src/suspended_spawn.rs:514-527 | a process is spared only if an operation was told that it is gone, or it was released and nobody tried to terminate it since |
| HttpRequest.ReadCrlfLine | ios-rustfrida/controller/src/http_rpc.rs:280-331 | however the bytes are split into buffers, the result and the number of bytes consumed are those of the unsplit stream |
| HttpRequestOutcomes.LineIsExact | ios-rustfrida/controller/src/http_rpc.rs:280-331 | every outcome of reading a line: a line is its text and CRLF within the limit; a bare line feed, a line that is too long, an unfinished one and a broken connection are each refused exactly when they occur |
| HttpRequest.ReadExact | ios-rustfrida/controller/src/http_rpc.rs:266-277 | the body and the bytes taken do not depend on the buffers |
| HttpRequestOutcomes.BodyIsExact | ios-rustfrida/controller/src/http_rpc.rs:266-277 | the body is the declared number of bytes that follow; if the connection ends sooner, what it is refused for |
| HttpRequest.ParseHeaderLine | ios-rustfrida/controller/src/http_rpc.rs:373-405 | an accepted line splits at its first colon into a token and the value with all blanks around it gone and no control byte; each of the three refusals is given exactly when its condition holds |
| HttpRequest.TrimHeaderValue | ios-rustfrida/controller/src/http_rpc.rs:407-415 | what is left has no blank at either end, and nothing but blanks was taken away |
| HttpRequest.ReadRequest | ios-rustfrida/controller/src/http_rpc.rs:157-278 | however the bytes are split into buffers, outcome and consumption are those of the unsplit stream, for accepted and refused requests |
| HttpRequest.AcceptedTakesExactly | ios-rustfrida/controller/src/http_rpc.rs:157-278 | an accepted request takes its header block, ended by an empty line, and then exactly the bytes its head declares (RFC 9112, sections 2.2 and 6.3) |
| HttpRequest.AcceptedNeedsNoMore | ios-rustfrida/controller/src/http_rpc.rs:157-278 | whatever follows an accepted request, and however the stream ends, plays no part in it |
| HttpRequestPrinting.RequestLineReadsBack | ios-rustfrida/controller/src/http_rpc.rs:333-371 | a printed request line gives back method and target |
| HttpRequestOutcomes.RequestLineIsExact | ios-rustfrida/controller/src/http_rpc.rs:333-371 | which request lines are refused for what: not three parts, a method that is no token, a version other than HTTP/1.1, a target that is not a path or has a fragment, the first failing one counting |
| HttpRequestOutcomes.AcceptedLineIsPrinted | ios-rustfrida/controller/src/http_rpc.rs:333-371 | the accepted request lines are exactly the printed ones |
| HttpRequestPrinting.HeaderLineReadsBack | ios-rustfrida/controller/src/http_rpc.rs:373-415 | a printed header line gives back name and value, whatever blanks surround the value |
| HttpRequestPrinting.HeadReadsBack | ios-rustfrida/controller/src/http_rpc.rs:173-230 | the head is read exactly as its lines say one after the other, refusals included, and an accepted one takes exactly their bytes |
| HttpRequestOutcomes.OneLineRefusal | ios-rustfrida/controller/src/http_rpc.rs:182-234 | what a header line is refused for, given the lines before it |
| HttpRequestOutcomes.FoldedIsExact | ios-rustfrida/controller/src/http_rpc.rs:173-230 | header lines are accepted together if and only if each is acceptable, Host and Content-Length come at most once each, and all fit the limit; they declare what any of them declares |
| HttpRequestOutcomes.VerdictIsExact | ios-rustfrida/controller/src/http_rpc.rs:237-264 | acceptable header lines are refused together for exactly the stated reasons; without Content-Length any method but POST has an empty body |
| HttpRequestPrinting.RequestReadsBack | ios-rustfrida/controller/src/http_rpc.rs:157-278 | a printed request whose header lines together yield its body's length is read back exactly, and nothing after it is taken |
| HttpRequestPrinting.PrintedRequestReadsBack | ios-rustfrida/controller/src/http_rpc.rs:157-278 | a request printed with Host, Content-Length in decimal and any other well-formed fields is read back exactly, and nothing after it is taken |
| HttpRequestPrinting.AcceptedBodyIsDeclared | ios-rustfrida/controller/src/http_rpc.rs:173-278 | the body of an accepted request is as long as its one Content-Length line says in decimal, and empty if there is none (RFC 9112, section 6.3) |
| HttpRequestOutcomes.AcceptedExactly | ios-rustfrida/controller/src/http_rpc.rs:157-278 | a request is accepted, with this method, target and body, if and only if the connection begins with it printed: a request line, acceptable header lines with Host and without Transfer-Encoding, and a body of the declared length |
| ShellWords.ShellQuoteReplacement | ios-rustfrida/controller/src/launch.rs:586-602 | the quoting loop computes the recursive quotation |
| ShellWords.Tokenize | ios-rustfrida/controller/src/server_frontend.rs:388-453 | the tokenizer's loop computes the character-by-character automaton |
| ShellWords.ScanAppend | ios-rustfrida/controller/src/server_frontend.rs:388-453 | tokenizing a line is tokenizing its halves in turn |
| ShellWords.TokenizeInvertsQuote | ios-rustfrida/controller/src/launch.rs:586-602 | tokenizing the space-joined quotations gives the values back, the empty ones dropped; the whole list comes back if and only if none is empty (POSIX.1-2017 XCU section 2.2) |
| ShellWords.EveryStyleIsOneWord | ios-rustfrida/controller/src/server_frontend.rs:388-453 | double-quoted or backslash-escaped, every value is one word, exactly itself; only double quotes can spell the empty one |
| ShellGrammar.TokenizingIsReading | ios-rustfrida/controller/src/server_frontend.rs:388-453 | every line reads as white space and pieces of words (bare, escaped, single-quoted, double-quoted), possibly with something unfinished at the end; tokenizing gives what any such reading means: adjacent pieces are one word, and an unfinished quote or escape is refused as such |
| ControlTemplate.RenderControlCommand | ios-rustfrida/controller/src/launch.rs:461-517 | renders exactly the acceptable templates, and then equals one substitution pass over the segments of the template as given |
| ControlTemplate.SegmentsCoverTemplate | ios-rustfrida/controller/src/launch.rs:488-516 | cutting a template into segments loses nothing |
| ControlTemplate.SegmentsAreExact | ios-rustfrida/controller/src/launch.rs:492-500 | the segments of a template are the one way of cutting it so that each placeholder closes at the first place it can, double braces are not read as single ones, and only a brace that nothing closes is ordinary |
| ControlTemplate.OnePlaceholder | ios-rustfrida/controller/src/launch.rs:558-572 | which value each of the five names stands for, and that any other, or one without a gate, is kept |
| ControlTemplate.CheckControlCommand | ios-rustfrida/controller/src/launch.rs:467-488 | accepts exactly the acceptable templates, and says too long, not one line, or unsupported action exactly when that is the first requirement to fail |
| ControlTemplate.UnknownIsKept | ios-rustfrida/controller/src/launch.rs:505-509 | a template without known placeholders is rendered as it is |
| InsertedWords.InsertedValueIsOneWord | ios-rustfrida/controller/src/launch.rs:488-516 | a placeholder between rendered segments: the rendering is text, quoted value, text; after a text that leaves the tokenizer outside quotes and escapes with an empty word, the value arrives as exactly the next whole word if and only if the text after adds nothing to that word |
| InsertedWords.SafeSurroundings | ios-rustfrida/controller/src/launch.rs:461-516 | two texts are safe around a placeholder for every valid value if and only if the first is neutral in that sense and the second adds nothing to the word |
| InsertedWords.BlankAddsNothing | ios-rustfrida/controller/src/launch.rs:461-516 | nothing, or white space and any well-formed rest, adds nothing to the word |
| InsertedWords.QuotedPlaceholderBreaks | ios-rustfrida/controller/src/launch.rs:586-602 | a placeholder that the template itself puts inside quotes breaks: the value `a b` arrives as two words |

## Left out

- The native adapter and its FFI (`adopt_external_hook`, `NativeExternalHookLease`, adapter decisions): calls into code that is not part of this model; the agent's executor and handle are arbitrary answers instead.
- A session's and a hook's `last_error` texts, the counters of the cleanup report, session metadata, snapshots and all message formatting: user interface.
- JSON encoding of commands and replies, sockets, HTTP routing and responses, and the health loop: I/O; a health failure is a step that may happen at any time.
- Threads blocking on locks, and lock poisoning: a step that needs a lock is enabled only when the lock is free.
- `SessionRegistry::attach` as an object method: the protocol has its two halves and its unconditional rollback as separate steps.
- SessionTheorems.DuplicateTokenUnreachable: is about sessions whose leases are all remote; a natively adopted lease sits in the same map and its token is not the agent's.
- SessionTheorems.OneLeasePerRequest: is about sessions whose leases are all remote; a native lease has no request.
- SessionTheorems.DetachedForGood: is about sessions whose leases are all remote; a native lease has no record in the agent.
- Session `Drop`, which tries to release every lease once more after the last use of the session.
- ControllerSession.Session.CleanUp: visits the leases in an arbitrary order, where the source goes by ascending token; the results hold for every order.
- ServerObjects.SessionRegistry.DetachAll: takes the sessions of its snapshot in an arbitrary order, where the source goes by ascending identifier.
- ServerObjects.SessionRegistry.Reserve: sessions are entries of an arena in the order of reservation instead of shared pointers, and what a session's own detach answers is an argument.
- SessionTheorems.LateReplyIsReleased: does not promise the release when its command is lost or the adapter refuses it, because the code tries only once.
- SessionTheorems.ControllerNeverAhead: is not an equality, because the agent may be further along after a lost reply.
- SuspendedSpawn.DropFailsClosed: leaves out `refresh`, which is marked as dead code and may move a terminated owner to another state; process spawning, signals and the real clock are arguments.
- HttpRequest.ReadRequest: percent-decoding of paths and the text of failures are not modelled; a failure is its error code.
- ExportsTrie.DecodeExportsTrie: derived entry fields (kind names, the weak-definition flag) are functions of the flags and are not repeated; lossy UTF-8 conversion is a function given with the blob.
- ChainedImports.ImportsInvertEncode: names are the bytes up to their NUL, without the lossy UTF-8 conversion; format and pointer-format names are left out.
- ControlTemplate.RenderControlCommand: the process identifier comes as its decimal text; `render_spawn_command`, which replaces twice in a row, is not modelled.
- Load-command walking, dependency and version queries, QuickJS, the legacy command parser tables, the framing protocol and the build scripts: raw memory, library code or long lists of simple cases.
- Memory exhaustion: vectors reserved by an announced count are taken to fit.
- AgentOutcomes.StatusListsOwnHooks: gives the hooks by request identifier; the order in which the source lists them is not modelled.
- HttpRequestOutcomes.AcceptedExactly: says which requests are accepted; the reason a refused one is given is stated stage by stage (line, request line, header line, head, body), not for the request as a whole.
- ChainedContents.SegmentsAreExact: says which tables are accepted; which of several faults a refused one is reported for is not stated.

/** Runs in which the target state shown to users stays behind the agent's: one that can be repaired, one that cannot. */
module SessionLag {
  import opened Text
  import opened Wrappers
  import opened HookCommand
  import opened AgentRegistry
  import opened SessionProtocol
  import opened SessionInvariant
  import opened SessionSteps
  import opened SessionTheorems

  function Last(r: Trace): Sys
    requires r.states != []
  {
    r.states[|r.states| - 1]
  }

  lemma Extended(r: Trace, step: Step) returns (longer: Trace)
    requires IsRun(r) && r.states != [] && Enabled(Last(r), step)
    ensures IsRun(longer) && longer.states != [] && Last(longer) == Apply(Last(r), step)
    ensures longer.steps == r.steps + [step]
    ensures Inv(Last(r)) && Inv(Last(longer))
  {
    hide Enabled, Apply, Inv;
    longer := Trace(r.states + [Apply(Last(r), step)], r.steps + [step]);
    forall i | 0 <= i < |longer.steps|
      ensures Enabled(longer.states[i], longer.steps[i])
      ensures longer.states[i + 1] == Apply(longer.states[i], longer.steps[i])
    {
      if i < |r.steps| {
        assert Enabled(r.states[i], r.steps[i]) && r.states[i + 1] == Apply(r.states[i], r.steps[i]);
      }
    }
    RunInv(longer, |r.steps| + 1);
    RunInv(r, |r.steps|);
  }

  const REQUEST := Request("hook", "session:1", Install, "a", 1, 2)
  const HANDLE := Handle(5, "backend", None, None, true)
  const RECEIPT := ReceiptFor(REQUEST, HANDLE)
  const INSTALLING := Native(Issued(HANDLE), Unavailable, Success(true))

  lemma RequestIsValid()
    ensures ValidRequest(REQUEST)
  {
    assert Trim("a") == "a" && "a"[1..] == "" && Utf8Len("a") == 1;
    assert forall c | c in "hook" || c in "session:1" :: IsIdChar(c);
  }

  /** The agent and the session once one hook has been executed and adopted. */
  function Hooked(life: Life, lease: Lease): Sys {
    Sys("session:1",
        Table(map["hook" := Record(REQUEST, RECEIPT.(life := life), Some(HANDLE), None)], map[], map[5 := "hook"]),
        Lifecycle(Attached, Some(7), false, map[5 := lease]),
        map[0 := Idle], [])
  }

  lemma HookedRun() returns (r: Trace)
    ensures IsRun(r) && r.states != [] && Last(r) == Hooked(RECEIPT.life, Lease(RECEIPT, Installed))
  {
    RequestIsValid();
    hide ValidRequest, Inv;
    var start := Start("session:1", EMPTY);
    r := Trace([start], []);
    r := Extended(r, CompleteAttach(0, 7));
    assert !HasRequest(map[], "hook");
    r := Extended(r, StartExecute(0, REQUEST));
    r := Extended(r, ExecuteCall(0, INSTALLING, Delivered, true));
    assert SessionProtocol.At(Last(r), 0) == Adopting(REQUEST, RECEIPT);
    r := Extended(r, Adopt(0, INSTALLING, Delivered));
    assert Last(r).threads == map[0 := Idle];
  }

  /** The native uninstall went through, the native release after it did not, and the answer arrived. */
  const HALFWAY := Native(INSTALLING.execution, Uninstalled, Failure("busy"))

  const REFUSING := Native(INSTALLING.execution, UninstallFailure("gone"), Success(true))

  const RESTORING := Native(INSTALLING.execution, Uninstalled, Success(true))

  function Settled(life: Life, target: TargetState): Sys {
    Hooked(life, Lease(RECEIPT.(life := life), target))
  }

  function Uninstalls(native: Native, delivery: Delivery): Step {
    UninstallHook(0, 5, native, delivery, native, delivery)
  }

  const HALFWAY_LIFE := Life(Owned, Restored, Some(FromAdapter("busy")))

  lemma HalfwayStep()
    ensures Enabled(Settled(RECEIPT.life, Installed), Uninstalls(HALFWAY, Delivered))
    ensures Apply(Settled(RECEIPT.life, Installed), Uninstalls(HALFWAY, Delivered)) == Settled(HALFWAY_LIFE, Installed)
  {
  }

  lemma RefusedStep()
    ensures Enabled(Settled(HALFWAY_LIFE, Installed), Uninstalls(REFUSING, Delivered))
    ensures Apply(Settled(HALFWAY_LIFE, Installed), Uninstalls(REFUSING, Delivered))
         == Settled(HALFWAY_LIFE.(lastError := Some(FromAdapter("gone"))), Installed)
  {
  }

  /** The lag arises from one answered uninstall, and an answered retry that the adapter refuses leaves it as it is. */
  lemma LagIsReachable() returns (first: Trace, second: Trace)
    ensures IsRun(first) && TargetLags(Last(first), 5) && !HandleReleased(Last(first).session.hooks[5].receipt)
    ensures IsRun(second) && TargetLags(Last(second), 5) && !HandleReleased(Last(second).session.hooks[5].receipt)
    ensures |second.steps| == |first.steps| + 1 && second.steps[..|first.steps|] == first.steps
    ensures second.steps[|first.steps|] == Uninstalls(REFUSING, Delivered)
  {
    var r := HookedRun();
    HalfwayStep();
    RefusedStep();
    hide IsRun, Inv, Enabled, Apply;
    assert RECEIPT.(life := RECEIPT.life) == RECEIPT;
    first := Extended(r, Uninstalls(HALFWAY, Delivered));
    second := Extended(first, Uninstalls(REFUSING, Delivered));
  }

  const GONE := Life(Released, Restored, None)

  /** An uninstall that the agent carries out and whose answer is lost, then an answered release. */
  lemma LostUninstall()
    ensures Enabled(Settled(RECEIPT.life, Installed), Uninstalls(RESTORING, Lost(true, false)))
    ensures Apply(Settled(RECEIPT.life, Installed), Uninstalls(RESTORING, Lost(true, false)))
         == Hooked(GONE, Lease(RECEIPT, Installed))
  {
  }

  lemma AnsweredRelease()
    ensures Enabled(Hooked(GONE, Lease(RECEIPT, Installed)), ReleaseHook(0, 5, RESTORING, Delivered))
    ensures Apply(Hooked(GONE, Lease(RECEIPT, Installed)), ReleaseHook(0, 5, RESTORING, Delivered))
         == Settled(GONE, Installed)
  {
  }

  /** A lag that no call can repair is reachable as well. */
  lemma ReleasedLagIsReachable() returns (r: Trace)
    ensures IsRun(r) && TargetLags(Last(r), 5) && HandleReleased(Last(r).session.hooks[5].receipt)
  {
    r := HookedRun();
    LostUninstall();
    AnsweredRelease();
    hide IsRun, Inv, Enabled, Apply;
    assert RECEIPT.(life := RECEIPT.life) == RECEIPT;
    r := Extended(r, Uninstalls(RESTORING, Lost(true, false)));
    r := Extended(r, ReleaseHook(0, 5, RESTORING, Delivered));
  }
}

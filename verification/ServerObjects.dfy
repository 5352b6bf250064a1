/**
 The registry and the frontend as objects updated in place.  Each frontend operation, run by one thread while no
 other holds a lock, is proved to be a path of the server protocol.  The sessions themselves live in an arena, in the
 order of their reservation, and what a session's own detach would answer is an argument.
 */
module ServerObjects {
  import opened Wrappers
  import opened SessionProtocol
  import opened SessionTheorems
  import opened ServerProtocol

  datatype ServerError =
    | FrontendClosed
    | CapacityReached
    | IdExhausted
    | NotFound
    | NotAttached
    | ModeActive(id: Id)
    | NoActiveSession

  // ---- paths ---------------------------------------------------------------------------------------------

  /** Where `actions` lead from `s`, if each of them is enabled in turn. */
  function Follow(s: Server, actions: seq<Action>): Option<Server> {
    if actions == [] then Some(s)
    else
      match Follow(s, actions[..|actions| - 1])
      case None => None
      case Some(last) =>
        if ServerProtocol.Enabled(last, actions[|actions| - 1]) then
          Some(ServerProtocol.Apply(last, actions[|actions| - 1]))
        else None
  }

  lemma NoSteps(s: Server)
    ensures Follow(s, []) == Some(s)
  {
  }

  lemma Took(start: Server, actions: seq<Action>, before: Server, a: Action, after: Server)
    requires Follow(start, actions) == Some(before) && ServerInv(before)
    requires ServerProtocol.Enabled(before, a) && ServerProtocol.Apply(before, a) == after
    ensures Follow(start, actions + [a]) == Some(after) && ServerInv(after)
  {
    hide ServerInv, ServerProtocol.Enabled, ServerProtocol.Apply;
    assert (actions + [a])[..|actions|] == actions;
    ActionInv(before, a);
  }

  /** What a session's detach answers, and how one already under way in another thread ends before this one starts. */
  datatype Answer = Answer(clean: bool, other: bool)

  /** The state in which the write gate of a session is found once it is free. */
  function Settled(state: SessionState, other: bool): SessionState {
    if state != Detaching then state else if other then SessionState.Detached else Failed
  }

  /** Whether a detach of this session ends well. */
  predicate EndsWell(session: Session, answer: Answer) {
    answer.clean || Settled(session.state, answer.other) == SessionState.Detached
  }

  function AfterDetach(session: Session, answer: Answer): Session {
    session.(state := if EndsWell(session, answer) then SessionState.Detached else Failed)
  }

  lemma MoveIs(s: Server, o: Obj, state: SessionState)
    requires o < |s.objects| && SessionEdge(s.objects[o].state, state)
    ensures ServerProtocol.Enabled(s, MoveSession(o, state))
    ensures ServerProtocol.Apply(s, MoveSession(o, state)) == s.(objects := s.objects[o := s.objects[o].(state := state)])
  {
  }

  class SessionRegistry {
    const capacity: nat
    var nextId: Option<U64>
    var objects: seq<Session>
    var sessions: map<Id, Obj>

    /** The server as a whole, when all but the registry's own part is as in `frame`. */
    ghost function View(frame: Server): Server
      reads this
    {
      frame.(capacity := capacity, nextId := nextId, objects := objects, registry := sessions)
    }

    constructor (capacity: nat)
      ensures this.capacity == capacity && View(NewServer(capacity)) == NewServer(capacity)
    {
      this.capacity, nextId, objects, sessions := capacity, Some(1), [], map[];
    }

    method Reserve() returns (r: Result<Obj, ServerError>)
      modifies this`nextId, this`objects, this`sessions
      ensures r.Success? <==> old(|sessions| < capacity && nextId.Some? && nextId.value != 0)
      ensures r.Success? ==> r.value == old(|objects|) && objects == old(objects) + [Session(old(nextId.value), Attaching)]
      ensures r.Success? ==> sessions == old(sessions)[old(nextId.value) := r.value]
      ensures r.Success? ==> nextId == if old(nextId.value) + 1 < TWO_64 then Some(old(nextId.value) + 1) else None
      ensures r.Failure? ==> objects == old(objects) && sessions == old(sessions) && nextId == old(nextId)
      ensures r.Failure? ==> r.error == if old(|sessions|) >= capacity then CapacityReached else IdExhausted
    {
      if |sessions| >= capacity {
        return Failure(CapacityReached);
      }
      if nextId.None? {
        return Failure(IdExhausted);
      }
      var id := nextId.value;
      if id == 0 {
        return Failure(IdExhausted);
      }
      nextId := if id + 1 < TWO_64 then Some(id + 1) else None;
      var o := |objects|;
      objects := objects + [Session(id, Attaching)];
      sessions := sessions[id := o];
      r := Success(o);
    }

    /** One session goes from one state of its life cycle to the next. */
    method MoveTo(ghost frame: Server, o: Obj, state: SessionState, ghost start: Server, ghost path: seq<Action>)
      returns (ghost actions: seq<Action>)
      requires o < |objects| && SessionEdge(objects[o].state, state)
      requires Follow(start, path) == Some(View(frame)) && ServerInv(View(frame))
      modifies this`objects
      ensures objects == old(objects)[o := old(objects)[o].(state := state)]
      ensures Follow(start, actions) == Some(View(frame)) && ServerInv(View(frame))
    {
      hide ServerInv, ServerProtocol.Enabled, ServerProtocol.Apply, Follow, SessionEdge;
      ghost var before := View(frame);
      MoveIs(before, o, state);
      objects := objects[o := objects[o].(state := state)];
      Took(start, path, before, MoveSession(o, state), View(frame));
      actions := path + [MoveSession(o, state)];
    }

    /** Taking a session's write gate waits for a detach that another thread has under way on it. */
    method Settle(ghost frame: Server, o: Obj, other: bool, ghost start: Server, ghost path: seq<Action>)
      returns (ghost actions: seq<Action>)
      requires o < |objects|
      requires Follow(start, path) == Some(View(frame)) && ServerInv(View(frame))
      modifies this`objects
      ensures objects == old(objects)[o := old(objects)[o].(state := Settled(old(objects)[o].state, other))]
      ensures Follow(start, actions) == Some(View(frame)) && ServerInv(View(frame))
    {
      hide ServerInv, Follow;
      actions := path;
      if objects[o].state == Detaching {
        actions := MoveTo(frame, o, if other then SessionState.Detached else Failed, start, actions);
      }
    }

    /** `Session::detach` as seen from outside: clean if it says so, and always on a session that is Detached. */
    method DetachSession(ghost frame: Server, o: Obj, answer: Answer, ghost start: Server, ghost path: seq<Action>)
      returns (ok: bool, ghost actions: seq<Action>)
      requires o < |objects|
      requires Follow(start, path) == Some(View(frame)) && ServerInv(View(frame))
      modifies this`objects
      ensures objects == old(objects)[o := AfterDetach(old(objects)[o], answer)]
      ensures ok <==> EndsWell(old(objects)[o], answer)
      ensures Follow(start, actions) == Some(View(frame)) && ServerInv(View(frame))
    {
      hide ServerInv, Follow;
      actions := Settle(frame, o, answer.other, start, path);
      if objects[o].state == SessionState.Detached {
        return true, actions;
      }
      if objects[o].state in {Attached, Failed} {
        actions := MoveTo(frame, o, Detaching, start, actions);
      }
      actions := MoveTo(frame, o, if answer.clean then SessionState.Detached else Failed, start, actions);
      ok := answer.clean;
    }

    /** `Session::mark_unhealthy` and its like, on a session that was attached or has already failed. */
    method MarkFailed(o: Obj)
      requires o < |objects|
      modifies this`objects
      ensures objects == old(objects)[o := old(objects)[o].(state := Failed)]
    {
      objects := objects[o := objects[o].(state := Failed)];
    }

    /** One session is detached and, once that succeeded, taken out; a failed one stays for another try. */
    method DetachAndRemove(ghost frame: Server, ghost t: Tid, o: Obj, answer: Answer, ghost start: Server, ghost path: seq<Action>)
      returns (ok: bool, ghost actions: seq<Action>)
      requires o < |objects|
      requires t in frame.threads && Next(frame.threads[t], o)
      requires Follow(start, path) == Some(View(frame)) && ServerInv(View(frame))
      modifies this`objects, this`sessions
      ensures objects == old(objects)[o := AfterDetach(old(objects)[o], answer)]
      ensures ok <==> EndsWell(old(objects)[o], answer)
      ensures sessions == if ok then old(sessions) - {old(objects)[o].id} else old(sessions)
      ensures Follow(start, actions) == Some(View(ServerProtocol.Goto(frame, t, Done(frame.threads[t], objects[o].id, ok))))
      ensures ServerInv(View(ServerProtocol.Goto(frame, t, Done(frame.threads[t], objects[o].id, ok))))
    {
      hide ServerInv, ServerProtocol.Enabled, ServerProtocol.Apply, Done, Follow;
      ok, actions := DetachSession(frame, o, answer, start, path);
      ghost var w := frame.threads[t];
      ghost var before := View(frame);
      ReturnIs(before, t, o, ok);
      if !ok {
        Took(start, actions, before, DetachReturns(t, false), View(ServerProtocol.Goto(frame, t, Done(w, objects[o].id, false))));
        return false, actions + [DetachReturns(t, false)];
      }
      ghost var removing := ServerProtocol.Goto(frame, t, w.(removing := true));
      Took(start, actions, before, DetachReturns(t, true), View(removing));
      actions := RemoveDetached(removing, t, o, w, start, actions + [DetachReturns(t, true)]);
      assert frame.threads[t := w.(removing := true)][t := Done(w, objects[o].id, true)]
          == frame.threads[t := Done(w, objects[o].id, true)];
    }

    method RemoveDetached(ghost frame: Server, ghost t: Tid, o: Obj, ghost w: Work, ghost start: Server, ghost path: seq<Action>)
      returns (ghost actions: seq<Action>)
      requires o < |objects|
      requires t in frame.threads && Next(w, o) && frame.threads[t] == w.(removing := true)
      requires Follow(start, path) == Some(View(frame)) && ServerInv(View(frame))
      modifies this`sessions
      ensures sessions == old(sessions) - {objects[o].id}
      ensures Follow(start, actions) == Some(View(ServerProtocol.Goto(frame, t, Done(w, objects[o].id, true))))
      ensures ServerInv(View(ServerProtocol.Goto(frame, t, Done(w, objects[o].id, true))))
    {
      hide ServerInv, ServerProtocol.Enabled, ServerProtocol.Apply, Done, Follow;
      ghost var before := View(frame);
      sessions := sessions - {objects[o].id};
      RemoveIs(before, t, o, w);
      Took(start, path, before, Remove(t), View(ServerProtocol.Goto(frame, t, Done(w, objects[o].id, true))));
      actions := path + [Remove(t)];
    }

    /** Nothing comes back for an identifier that is not registered. */
    method Detach(ghost frame: Server, ghost t: Tid, id: Id, ghost kind: Kind, answer: Answer,
                  ghost start: Server, ghost path: seq<Action>)
      returns (r: Option<bool>, ghost actions: seq<Action>)
      requires t in frame.threads && frame.threads[t] == Looking(id, kind)
      requires Follow(start, path) == Some(View(frame)) && ServerInv(View(frame))
      modifies this`objects, this`sessions
      ensures id !in old(sessions) ==> r == None && objects == old(objects) && sessions == old(sessions)
      ensures id in old(sessions) ==>
                var o := old(sessions)[id];
                && o < |old(objects)| && r == Some(EndsWell(old(objects)[o], answer))
                && objects == old(objects)[o := AfterDetach(old(objects)[o], answer)]
                && sessions == if EndsWell(old(objects)[o], answer) then old(sessions) - {id} else old(sessions)
      ensures var last := match r
                case None => ServerProtocol.Goto(AfterMiss(frame, id, kind), t, Resting)
                case Some(ok) =>
                  ServerProtocol.Goto(frame, t, Draining([], false, if ok then {id} else {}, !ok, kind));
              Follow(start, actions) == Some(View(last)) && ServerInv(View(last))
    {
      hide ServerInv, ServerProtocol.Enabled, ServerProtocol.Apply;
      ghost var before := View(frame);
      RegistryPoints(before);
      LookUpIs(before, t, id, kind);
      actions := path + [LookUp(t)];
      if id !in sessions {
        Took(start, path, before, LookUp(t), View(ServerProtocol.Goto(AfterMiss(frame, id, kind), t, Resting)));
        return None, actions;
      }
      var o := sessions[id];
      ghost var w := Draining([o], false, {}, false, kind);
      Took(start, path, before, LookUp(t), View(ServerProtocol.Goto(frame, t, w)));
      var ok;
      ok, actions := DetachAndRemove(ServerProtocol.Goto(frame, t, w), t, o, answer, start, actions);
      ghost var last := Done(w, id, ok);
      assert last == Draining([], false, if ok then {id} else {}, !ok, kind);
      assert frame.threads[t := w][t := last] == frame.threads[t := last];
      return Some(ok), actions;
    }

    /** The sessions registered now, each once. */
    method Snapshot() returns (todo: seq<Obj>)
      requires forall id | id in sessions :: sessions[id] < |objects| && objects[sessions[id]].id == id
      ensures forall o :: o in todo <==> o in sessions.Values
      ensures forall i, j :: 0 <= i < j < |todo| ==> todo[i] != todo[j]
    {
      todo := [];
      var rest := sessions.Keys;
      while rest != {}
        invariant rest <= sessions.Keys
        invariant forall o :: o in todo <==> exists id :: id in sessions && id !in rest && sessions[id] == o
        invariant forall i, j :: 0 <= i < j < |todo| ==> todo[i] != todo[j]
        decreases rest
      {
        var id :| id in rest;
        rest := rest - {id};
        assert forall i | 0 <= i < |todo| :: todo[i] in todo;
        assert sessions[id] !in todo;
        todo := todo + [sessions[id]];
      }
    }

    /** Every session of the snapshot is tried once; the reports say which were detached. */
    method DetachAll(ghost frame: Server, ghost t: Tid, todo: seq<Obj>, ghost kind: Kind, answers: Obj -> Answer,
                     ghost start: Server, ghost path: seq<Action>)
      returns (reports: seq<(Id, bool)>, ghost actions: seq<Action>)
      requires t in frame.threads && frame.threads[t] == Draining(todo, false, {}, false, kind)
      requires forall o | o in todo :: o < |objects|
      requires forall i, j :: 0 <= i < j < |todo| ==> todo[i] != todo[j]
      requires Follow(start, path) == Some(View(frame)) && ServerInv(View(frame))
      modifies this`objects, this`sessions
      ensures Reported(reports, old(objects), todo, answers)
      ensures Tried(old(objects), objects, todo, answers)
      ensures sessions == old(sessions) - Cleaned(reports)
      ensures var last := ServerProtocol.Goto(frame, t, Draining([], false, Cleaned(reports), HasFailure(reports), kind));
              Follow(start, actions) == Some(View(last)) && ServerInv(View(last))
    {
      hide ServerInv, ServerProtocol.Enabled, ServerProtocol.Apply, Follow, Cleaned, HasFailure, Done, Tried, Reported;
      hide EndsWell;
      reports, actions := [], path;
      var i := 0;
      NothingReported(todo, kind);
      NothingTried(objects, sessions, answers);
      ghost var w := Remaining(todo, i, reports, kind);
      assert frame.threads[t := w] == frame.threads;
      assert todo[..0] == [];
      while i < |todo|
        invariant 0 <= i <= |todo| && i == |reports|
        invariant Reported(reports, old(objects), todo[..i], answers)
        invariant Tried(old(objects), objects, todo[..i], answers)
        invariant sessions == old(sessions) - Cleaned(reports)
        invariant w == Remaining(todo, i, reports, kind)
        invariant Follow(start, actions) == Some(View(ServerProtocol.Goto(frame, t, w)))
        invariant ServerInv(View(ServerProtocol.Goto(frame, t, w)))
      {
        var o := todo[i];
        TriedLeaves(old(objects), objects, todo, i, answers);
        var id := objects[o].id;
        ghost var before := objects;
        var ok;
        ok, actions := DetachAndRemove(ServerProtocol.Goto(frame, t, w), t, o, answers(o), start, actions);
        TriedOneMore(old(objects), before, objects, todo, i, reports, answers);
        ReportGrows(reports, id, ok);
        RemainingShrinks(todo, i, reports, kind, id, ok);
        assert frame.threads[t := w][t := Done(w, id, ok)] == frame.threads[t := Done(w, id, ok)];
        w := Done(w, id, ok);
        reports := reports + [(id, ok)];
        i := i + 1;
      }
      assert todo[i..] == [] && todo[..i] == todo;
    }
  }

  /** One report for each session, in order, under its own identifier: clean exactly when its detach ends well. */
  predicate Reported(reports: seq<(Id, bool)>, before: seq<Session>, todo: seq<Obj>, answers: Obj -> Answer) {
    && |reports| == |todo|
    && forall i | 0 <= i < |todo| ::
         todo[i] < |before| && reports[i] == (before[todo[i]].id, EndsWell(before[todo[i]], answers(todo[i])))
  }

  /** The sessions of `todo` are detached or failed, as their answers have it; the others are as they were. */
  predicate Tried(before: seq<Session>, after: seq<Session>, todo: seq<Obj>, answers: Obj -> Answer) {
    && |after| == |before|
    && forall o | 0 <= o < |before| :: after[o] == if o in todo then AfterDetach(before[o], answers(o)) else before[o]
  }

  lemma NothingTried(objects: seq<Session>, sessions: map<Id, Obj>, answers: Obj -> Answer)
    ensures Reported([], objects, [], answers) && Tried(objects, objects, [], answers)
    ensures sessions == sessions - Cleaned([])
  {
    assert Cleaned([]) == {};
  }

  lemma TriedLeaves(before: seq<Session>, now: seq<Session>, todo: seq<Obj>, i: nat, answers: Obj -> Answer)
    requires i < |todo| && (forall j, k :: 0 <= j < k < |todo| ==> todo[j] != todo[k])
    requires (forall o | o in todo :: o < |before|) && Tried(before, now, todo[..i], answers)
    ensures todo[i] < |now| == |before| && now[todo[i]] == before[todo[i]]
  {
    assert todo[i] in todo;
    assert todo[i] !in todo[..i];
  }

  lemma TriedOneMore(before: seq<Session>, now: seq<Session>, after: seq<Session>, todo: seq<Obj>, i: nat,
                     reports: seq<(Id, bool)>, answers: Obj -> Answer)
    requires i < |todo| && todo[i] < |now| == |before| && now[todo[i]] == before[todo[i]]
    requires Tried(before, now, todo[..i], answers) && Reported(reports, before, todo[..i], answers)
    requires after == now[todo[i] := AfterDetach(now[todo[i]], answers(todo[i]))]
    ensures Tried(before, after, todo[..i + 1], answers)
    ensures var report := (before[todo[i]].id, EndsWell(before[todo[i]], answers(todo[i])));
            Reported(reports + [report], before, todo[..i + 1], answers)
  {
    hide AfterDetach, EndsWell;
    assert todo[..i + 1] == todo[..i] + [todo[i]];
  }

  /** What is left to do once the first `i` sessions have been reported on. */
  function Remaining(todo: seq<Obj>, i: nat, reports: seq<(Id, bool)>, kind: Kind): Work
    requires i <= |todo|
  {
    Draining(todo[i..], false, Cleaned(reports), HasFailure(reports), kind)
  }

  lemma NothingReported(todo: seq<Obj>, kind: Kind)
    ensures Remaining(todo, 0, [], kind) == Draining(todo, false, {}, false, kind)
  {
    assert Cleaned([]) == {} && todo[0..] == todo;
  }

  lemma RemainingShrinks(todo: seq<Obj>, i: nat, reports: seq<(Id, bool)>, kind: Kind, id: Id, ok: bool)
    requires i < |todo|
    ensures Next(Remaining(todo, i, reports, kind), todo[i])
    ensures Done(Remaining(todo, i, reports, kind), id, ok) == Remaining(todo, i + 1, reports + [(id, ok)], kind)
  {
    hide Cleaned, HasFailure;
    ReportGrows(reports, id, ok);
    assert todo[i..][1..] == todo[i + 1..];
  }

  /** A thread in the middle of a detach whose next session is `o`. */
  predicate Next(w: Work, o: Obj) {
    w.Draining? && !w.removing && w.todo != [] && w.todo[0] == o
  }

  function Done(w: Work, id: Id, ok: bool): Work
    requires w.Draining? && w.todo != []
  {
    if ok then w.(todo := w.todo[1..], cleaned := w.cleaned + {id}) else w.(todo := w.todo[1..], failed := true)
  }

  function AfterMiss(s: Server, id: Id, kind: Kind): Server {
    Unlocked(if kind.ForDetach? then WithoutActive(s, id) else s, kind)
  }

  function Cleaned(reports: seq<(Id, bool)>): set<Id> {
    set r | r in reports && r.1 :: r.0
  }

  predicate HasFailure(reports: seq<(Id, bool)>) {
    exists r | r in reports :: !r.1
  }

  lemma ReportGrows(reports: seq<(Id, bool)>, id: Id, ok: bool)
    ensures Cleaned(reports + [(id, ok)]) == Cleaned(reports) + if ok then {id} else {}
    ensures HasFailure(reports + [(id, ok)]) <==> HasFailure(reports) || !ok
  {
    assert (id, ok) in reports + [(id, ok)];
  }

  lemma RegistryPoints(s: Server)
    requires ServerInv(s)
    ensures forall id | id in s.registry :: s.registry[id] < |s.objects| && s.objects[s.registry[id]].id == id
  {
  }

  lemma LookUpIs(s: Server, t: Tid, id: Id, kind: Kind)
    requires ServerProtocol.At(s, t) == Looking(id, kind) && (id in s.registry ==> s.registry[id] < |s.objects|)
    ensures ServerProtocol.Enabled(s, LookUp(t))
    ensures ServerProtocol.Apply(s, LookUp(t)) ==
              if id in s.registry then ServerProtocol.Goto(s, t, Draining([s.registry[id]], false, {}, false, kind))
              else ServerProtocol.Goto(AfterMiss(s, id, kind), t, Resting)
  {
  }

  lemma ReturnIs(s: Server, t: Tid, o: Obj, ok: bool)
    requires t in s.threads && Next(s.threads[t], o) && o < |s.objects|
    requires ok ==> s.objects[o].state == SessionState.Detached
    ensures ServerProtocol.Enabled(s, DetachReturns(t, ok))
    ensures ServerProtocol.Apply(s, DetachReturns(t, ok)) ==
              ServerProtocol.Goto(s, t, if ok then s.threads[t].(removing := true) else Done(s.threads[t], s.objects[o].id, false))
  {
  }

  lemma RemoveIs(s: Server, t: Tid, o: Obj, w: Work)
    requires Next(w, o) && t in s.threads && s.threads[t] == w.(removing := true) && o < |s.objects|
    ensures ServerProtocol.Enabled(s, Remove(t))
    ensures ServerProtocol.Apply(s, Remove(t)) ==
              ServerProtocol.Goto(s.(registry := s.registry - {s.objects[o].id}), t, Done(w, s.objects[o].id, true))
  {
  }

  class ServerFrontend {
    const registry: SessionRegistry
    var active: Option<Id>
    var closed: bool

    /** The frontend's lock is free between operations; `unguarded` sessions are not its own. */
    ghost function View(threads: map<Tid, Work>, unguarded: set<Obj>): Server
      reads this, registry
    {
      registry.View(Server(0, None, [], unguarded, map[], active, closed, None, threads))
    }

    ghost predicate Ready(threads: map<Tid, Work>, unguarded: set<Obj>, t: Tid)
      reads this, registry
    {
      && t in threads && threads[t] == Resting
      && ServerInv(View(threads, unguarded))
    }

    constructor (registry: SessionRegistry)
      ensures this.registry == registry && active == None && !closed
    {
      this.registry, active, closed := registry, None, false;
    }

    method ReserveLaunch(ghost threads: map<Tid, Work>, ghost unguarded: set<Obj>, ghost t: Tid)
      returns (r: Result<Obj, ServerError>, ghost actions: seq<Action>)
      requires Ready(threads, unguarded, t)
      modifies registry`nextId, registry`objects, registry`sessions
      ensures Follow(old(View(threads, unguarded)), actions) == Some(View(threads, unguarded))
      ensures Ready(threads, unguarded, t)
      ensures closed ==> r == Failure(FrontendClosed)
      ensures !closed && active.Some? ==> r == Failure(ModeActive(active.value))
      ensures !closed && active.None? ==>
                if |old(registry.sessions)| >= registry.capacity then r == Failure(CapacityReached)
                else if old(registry.nextId).None? then r == Failure(IdExhausted)
                else
                  var (id, o) := (old(registry.nextId).value, |old(registry.objects)|);
                  && r == Success(o) && registry.objects == old(registry.objects) + [Session(id, Attaching)]
                  && registry.sessions == old(registry.sessions)[id := o]
                  && registry.nextId == if id + 1 < TWO_64 then Some(id + 1) else None
      ensures r.Failure? ==> registry.objects == old(registry.objects) && registry.sessions == old(registry.sessions)
                             && registry.nextId == old(registry.nextId)
    {
      hide ServerInv;
      actions := [];
      if closed {
        return Failure(FrontendClosed), actions;
      }
      if active.Some? {
        return Failure(ModeActive(active.value)), actions;
      }
      ghost var before := View(threads, unguarded);
      NextIdIsNotZero(before);
      r := registry.Reserve();
      if r.Success? {
        Took(before, [], before, ServerProtocol.Action.ReserveLaunch(t), View(threads, unguarded));
        actions := [ServerProtocol.Action.ReserveLaunch(t)];
      }
    }

    method UseSession(ghost threads: map<Tid, Work>, ghost unguarded: set<Obj>, ghost t: Tid, id: Id)
      returns (r: Result<(), ServerError>, ghost actions: seq<Action>)
      requires Ready(threads, unguarded, t)
      modifies this`active
      ensures Follow(old(View(threads, unguarded)), actions) == Some(View(threads, unguarded))
      ensures Ready(threads, unguarded, t)
      ensures active == if r.Success? then Some(id) else old(active)
      ensures closed ==> r == Failure(FrontendClosed)
      ensures !closed && old(active).Some? ==> r == Failure(ModeActive(old(active).value))
      ensures !closed && old(active).None? ==>
                if id !in registry.sessions then r == Failure(NotFound)
                else
                  && registry.sessions[id] < |registry.objects|
                  && r == if registry.objects[registry.sessions[id]].state == Attached then Success(()) else Failure(NotAttached)
    {
      hide ServerInv;
      actions := [];
      if closed {
        return Failure(FrontendClosed), actions;
      }
      if active.Some? {
        return Failure(ModeActive(active.value)), actions;
      }
      if id !in registry.sessions {
        return Failure(NotFound), actions;
      }
      ghost var before := View(threads, unguarded);
      RegistryPoints(before);
      if registry.objects[registry.sessions[id]].state != Attached {
        return Failure(NotAttached), actions;
      }
      active := Some(id);
      Took(before, [], before, ServerProtocol.Action.UseSession(t, id), View(threads, unguarded));
      return Success(()), [ServerProtocol.Action.UseSession(t, id)];
    }

    method Back(ghost threads: map<Tid, Work>, ghost unguarded: set<Obj>, ghost t: Tid)
      returns (r: Result<Id, ServerError>, ghost actions: seq<Action>)
      requires Ready(threads, unguarded, t)
      modifies this`active
      ensures Follow(old(View(threads, unguarded)), actions) == Some(View(threads, unguarded))
      ensures Ready(threads, unguarded, t)
      ensures r == if closed then Failure(FrontendClosed)
                   else if old(active).None? then Failure(NoActiveSession)
                   else Success(old(active).value)
      ensures active == if closed then old(active) else None
    {
      hide ServerInv;
      actions := [];
      if closed {
        return Failure(FrontendClosed), actions;
      }
      if active.None? {
        return Failure(NoActiveSession), actions;
      }
      ghost var before := View(threads, unguarded);
      var id := active.value;
      active := None;
      Took(before, [], before, ServerProtocol.Action.Back(t), View(threads, unguarded));
      return Success(id), [ServerProtocol.Action.Back(t)];
    }

    method Detach(ghost threads: map<Tid, Work>, ghost unguarded: set<Obj>, ghost t: Tid, id: Id, answer: Answer)
      returns (r: Result<bool, ServerError>, ghost actions: seq<Action>)
      requires Ready(threads, unguarded, t)
      modifies this`active, registry`objects, registry`sessions
      ensures Follow(old(View(threads, unguarded)), actions) == Some(View(threads, unguarded))
      ensures Ready(threads, unguarded, t)
      ensures !closed && id in old(registry.sessions) ==>
                var o := old(registry.sessions)[id];
                && o < |old(registry.objects)|
                && var ok := EndsWell(old(registry.objects)[o], answer);
                && r == Success(ok)
                && registry.objects == old(registry.objects)[o := AfterDetach(old(registry.objects)[o], answer)]
                && registry.sessions == (if ok then old(registry.sessions) - {id} else old(registry.sessions))
                && active == if ok && old(active) == Some(id) then None else old(active)
      ensures closed || id !in old(registry.sessions) ==>
                && r == Failure(if closed then FrontendClosed else NotFound)
                && registry.objects == old(registry.objects) && registry.sessions == old(registry.sessions)
                && active == if !closed && old(active) == Some(id) then None else old(active)
    {
      hide ServerInv, ServerProtocol.Enabled, ServerProtocol.Apply;
      actions := [];
      if closed {
        return Failure(FrontendClosed), actions;
      }
      ghost var start := View(threads, unguarded);
      ghost var kind := ForDetach(id);
      ghost var looking := start.(lock := Some(t), threads := threads[t := Looking(id, kind)]);
      StartDetachIs(start, t, id);
      actions := [ServerProtocol.Action.StartDetach(t, id, kind)];
      Took(start, [], start, ServerProtocol.Action.StartDetach(t, id, kind), looking);
      var outcome;
      outcome, actions := registry.Detach(looking, t, id, kind, answer, start, actions);
      if outcome.None? {
        MissIs(registry.View(looking), threads, t, id);
        if active == Some(id) {
          active := None;
        }
        return Failure(NotFound), actions;
      }
      ghost var cleaned := if outcome.value then {id} else {};
      ghost var before := registry.View(ServerProtocol.Goto(looking, t, Draining([], false, cleaned, !outcome.value, kind)));
      FinishIs(before, threads, t, cleaned, !outcome.value, kind);
      if outcome.value && active == Some(id) {
        active := None;
      }
      Took(start, actions, before, Finish(t), View(threads, unguarded));
      return Success(outcome.value), actions + [Finish(t)];
    }

    /** The part that `detach_all` and `exit` share, up to the moment the frontend's own fields are settled. */
    method Drain(ghost threads: map<Tid, Work>, ghost unguarded: set<Obj>, ghost t: Tid, ghost kind: Kind, answers: Obj -> Answer)
      returns (reports: seq<(Id, bool)>, ghost before: Server, ghost actions: seq<Action>)
      requires Ready(threads, unguarded, t) && !closed && kind in {ForDetachAll, ForExit}
      modifies registry`objects, registry`sessions
      ensures Follow(old(View(threads, unguarded)), actions) == Some(before) && ServerInv(before)
      ensures before == View(threads[t := Draining([], false, Cleaned(reports), HasFailure(reports), kind)], unguarded).(lock := Some(t))
      ensures forall id | id in Cleaned(reports) :: id !in registry.sessions
      ensures AllTried(old(registry.objects), old(registry.sessions), answers, reports, registry.objects, registry.sessions)
    {
      hide AllTried, Tried, Reported, EndsWell;
      hide ServerInv, ServerProtocol.Enabled, ServerProtocol.Apply;
      ghost var start := View(threads, unguarded);
      RegistryPoints(start);
      var todo := registry.Snapshot();
      ghost var draining := start.(lock := Some(t), threads := threads[t := Draining(todo, false, {}, false, kind)]);
      StartDetachAllIs(start, t, todo, kind);
      Took(start, [], start, ServerProtocol.Action.StartDetachAll(t, todo, kind), draining);
      reports, actions := registry.DetachAll(draining, t, todo, kind, answers, start,
                                             [ServerProtocol.Action.StartDetachAll(t, todo, kind)]);
      ghost var w := Draining([], false, Cleaned(reports), HasFailure(reports), kind);
      assert threads[t := Draining(todo, false, {}, false, kind)][t := w] == threads[t := w];
      before := registry.View(ServerProtocol.Goto(draining, t, w));
      CleanedIsGone(before, t);
      AllAreTried(start, todo, answers, reports, registry.objects, registry.sessions);
    }

    /** `reconcile_active_after_reports`: the first report about the active session decides, or its absence. */
    method Reconcile(reports: seq<(Id, bool)>)
      requires forall id | id in Cleaned(reports) :: id !in registry.sessions
      modifies this`active
      ensures active == if old(active).Some? && old(active).value !in registry.sessions then None else old(active)
    {
      if active.None? {
        return;
      }
      var id := active.value;
      var i := 0;
      while i < |reports| && reports[i].0 != id
        invariant 0 <= i <= |reports|
      {
        i := i + 1;
      }
      if i < |reports| && reports[i].1 {
        assert reports[i] in reports && id in Cleaned(reports);
        active := None;
      } else if id !in registry.sessions {
        active := None;
      }
    }

    method DetachAll(ghost threads: map<Tid, Work>, ghost unguarded: set<Obj>, ghost t: Tid, answers: Obj -> Answer)
      returns (r: Result<seq<(Id, bool)>, ServerError>, ghost actions: seq<Action>)
      requires Ready(threads, unguarded, t)
      modifies this`active, registry`objects, registry`sessions
      ensures Follow(old(View(threads, unguarded)), actions) == Some(View(threads, unguarded))
      ensures Ready(threads, unguarded, t)
      ensures closed ==>
                && r == Failure(FrontendClosed) && active == old(active)
                && registry.objects == old(registry.objects) && registry.sessions == old(registry.sessions)
      ensures !closed ==>
                && r.Success?
                && AllTried(old(registry.objects), old(registry.sessions), answers, r.value, registry.objects, registry.sessions)
                && active == if old(active).Some? && old(active).value !in registry.sessions then None else old(active)
    {
      hide AllTried;
      hide ServerInv, ServerProtocol.Enabled, ServerProtocol.Apply;
      actions := [];
      if closed {
        return Failure(FrontendClosed), actions;
      }
      ghost var start := View(threads, unguarded);
      var reports;
      ghost var before;
      reports, before, actions := Drain(threads, unguarded, t, ForDetachAll, answers);
      FinishIs(before, threads, t, Cleaned(reports), HasFailure(reports), ForDetachAll);
      Reconcile(reports);
      Took(start, actions, before, Finish(t), View(threads, unguarded));
      return Success(reports), actions + [Finish(t)];
    }

    /** The frontend closes only when every report is clean and nothing was registered meanwhile. */
    method Exit(ghost threads: map<Tid, Work>, ghost unguarded: set<Obj>, ghost t: Tid, answers: Obj -> Answer)
      returns (r: Result<seq<(Id, bool)>, ServerError>, ghost actions: seq<Action>)
      requires Ready(threads, unguarded, t)
      modifies this`active, this`closed, registry`objects, registry`sessions
      ensures Follow(old(View(threads, unguarded)), actions) == Some(View(threads, unguarded))
      ensures Ready(threads, unguarded, t)
      ensures old(closed) ==>
                && r == Failure(FrontendClosed) && closed && active == old(active)
                && registry.objects == old(registry.objects) && registry.sessions == old(registry.sessions)
      ensures !old(closed) ==>
                && r.Success?
                && AllTried(old(registry.objects), old(registry.sessions), answers, r.value, registry.objects, registry.sessions)
                && active == (if old(active).Some? && old(active).value !in registry.sessions then None else old(active))
                && (closed <==> forall report | report in r.value :: report.1)
    {
      hide AllTried;
      hide ServerInv, ServerProtocol.Enabled, ServerProtocol.Apply;
      actions := [];
      if closed {
        return Failure(FrontendClosed), actions;
      }
      ghost var start := View(threads, unguarded);
      var reports;
      ghost var before;
      reports, before, actions := Drain(threads, unguarded, t, ForExit, answers);
      FinishIs(before, threads, t, Cleaned(reports), HasFailure(reports), ForExit);
      Reconcile(reports);
      var allClean := true;
      var i := 0;
      while i < |reports|
        invariant 0 <= i <= |reports| && (allClean <==> forall j | 0 <= j < i :: reports[j].1)
      {
        allClean := allClean && reports[i].1;
        i := i + 1;
      }
      CleanMeansEmpty(old(registry.objects), old(registry.sessions), answers, reports, registry.objects, registry.sessions);
      closed := allClean && |registry.sessions| == 0;
      Took(start, actions, before, Finish(t), View(threads, unguarded));
      return Success(reports), actions + [Finish(t)];
    }

    /**
     A transport failure seen on session `o`: the active mode is cleared at once, and a session that was attached or
     has already failed is detached.
     */
    method ReconcileFailure(ghost threads: map<Tid, Work>, ghost unguarded: set<Obj>, ghost t: Tid, o: Obj, answer: Answer)
      returns (r: Option<bool>, ghost actions: seq<Action>)
      requires Ready(threads, unguarded, t) && o < |registry.objects|
      modifies this`active, registry`objects, registry`sessions
      ensures Follow(old(View(threads, unguarded)), actions) == Some(View(threads, unguarded))
      ensures Ready(threads, unguarded, t)
      ensures active == if old(active) == Some(old(registry.objects[o].id)) then None else old(active)
      ensures var (session, settled) := (old(registry.objects)[o], Settled(old(registry.objects)[o].state, answer.other));
              if settled !in {Attached, Failed} then
                && r == None && registry.sessions == old(registry.sessions)
                && registry.objects == old(registry.objects)[o := session.(state := settled)]
              else if session.id !in old(registry.sessions) then
                && r == None && registry.sessions == old(registry.sessions)
                && registry.objects == old(registry.objects)[o := session.(state := Failed)]
              else
                && r == Some(answer.clean)
                && registry.sessions == (if answer.clean then old(registry.sessions) - {session.id} else old(registry.sessions))
                && registry.objects ==
                     old(registry.objects)[o := session.(state := if answer.clean then SessionState.Detached else Failed)]
    {
      hide ServerInv, ServerProtocol.Enabled, ServerProtocol.Apply, Follow, EndsWell, AfterDetach;
      ghost var start := View(threads, unguarded);
      var id := registry.objects[o].id;
      if active == Some(id) {
        active := None;
      }
      NoSteps(start);
      actions := registry.Settle(start, o, answer.other, start, []);
      ghost var settled := registry.View(start);
      StartReapIs(settled, t, o);
      if registry.objects[o].state != Attached && registry.objects[o].state != Failed {
        Took(start, actions, settled, ServerProtocol.Action.StartReap(t, o, false, ForReconcile), View(threads, unguarded));
        return None, actions + [ServerProtocol.Action.StartReap(t, o, false, ForReconcile)];
      }
      r, actions := MarkAndReap(threads, unguarded, t, o, answer, start, settled, actions);
    }

    /** The session is marked failed under the lock and then detached. */
    method MarkAndReap(ghost threads: map<Tid, Work>, ghost unguarded: set<Obj>, ghost t: Tid, o: Obj, answer: Answer,
                       ghost start: Server, ghost settled: Server, ghost path: seq<Action>)
      returns (r: Option<bool>, ghost actions: seq<Action>)
      requires t in threads && threads[t] == Resting
      requires o < |registry.objects| && registry.objects[o].state in {Attached, Failed}
      requires View(threads, unguarded) == WithoutActive(settled, registry.objects[o].id)
      requires settled == registry.View(settled)
      requires Follow(start, path) == Some(settled) && ServerInv(settled)
      modifies registry`objects, registry`sessions
      ensures Follow(start, actions) == Some(View(threads, unguarded)) && ServerInv(View(threads, unguarded))
      ensures var session := old(registry.objects)[o];
              if session.id !in old(registry.sessions) then
                && r == None && registry.sessions == old(registry.sessions)
                && registry.objects == old(registry.objects)[o := session.(state := Failed)]
              else
                && r == Some(answer.clean)
                && registry.sessions == (if answer.clean then old(registry.sessions) - {session.id} else old(registry.sessions))
                && registry.objects ==
                     old(registry.objects)[o := session.(state := if answer.clean then SessionState.Detached else Failed)]
    {
      hide ServerInv, ServerProtocol.Enabled, ServerProtocol.Apply, Follow, EndsWell, AfterDetach;
      var id := registry.objects[o].id;
      ghost var marked := Marked(settled, o);
      MarkIs(settled, o);
      Took(start, path, settled, MoveSession(o, Failed), marked);
      actions := path + [MoveSession(o, Failed)];
      registry.MarkFailed(o);
      StartReapIs(marked, t, o);
      ghost var looking := marked.(active := active, lock := Some(t), threads := threads[t := Looking(id, ForReconcile)]);
      Took(start, actions, marked, ServerProtocol.Action.StartReap(t, o, true, ForReconcile), looking);
      actions := actions + [ServerProtocol.Action.StartReap(t, o, true, ForReconcile)];
      if id in registry.sessions { OnlyItself(marked, o); }
      FailedEnds(registry.objects, o, answer);
      r, actions := Reap(threads, unguarded, t, id, answer, start, looking, actions);
    }

    /** The detach that follows the marking, with the frontend's lock held. */
    method Reap(ghost threads: map<Tid, Work>, ghost unguarded: set<Obj>, ghost t: Tid, id: Id, answer: Answer,
                ghost start: Server, ghost looking: Server, ghost path: seq<Action>)
      returns (r: Option<bool>, ghost actions: seq<Action>)
      requires t in threads && threads[t] == Resting
      requires looking == View(threads[t := Looking(id, ForReconcile)], unguarded).(lock := Some(t))
      requires Follow(start, path) == Some(looking) && ServerInv(looking)
      modifies registry`objects, registry`sessions
      ensures Follow(start, actions) == Some(View(threads, unguarded)) && ServerInv(View(threads, unguarded))
      ensures id !in old(registry.sessions) ==>
                r == None && registry.objects == old(registry.objects) && registry.sessions == old(registry.sessions)
      ensures id in old(registry.sessions) ==>
                var o := old(registry.sessions)[id];
                && o < |old(registry.objects)| && r == Some(EndsWell(old(registry.objects)[o], answer))
                && registry.objects == old(registry.objects)[o := AfterDetach(old(registry.objects)[o], answer)]
                && registry.sessions == if r.value then old(registry.sessions) - {id} else old(registry.sessions)
    {
      hide ServerInv, ServerProtocol.Enabled, ServerProtocol.Apply;
      r, actions := registry.Detach(looking, t, id, ForReconcile, answer, start, path);
      if r.None? {
        ReapMissIs(registry.View(looking), threads, t, id);
        return None, actions;
      }
      ghost var cleaned := if r.value then {id} else {};
      ghost var before := registry.View(ServerProtocol.Goto(looking, t, Draining([], false, cleaned, !r.value, ForReconcile)));
      ReapFinishIs(before, threads, t, cleaned, !r.value);
      Took(start, actions, before, Finish(t), View(threads, unguarded));
      actions := actions + [Finish(t)];
    }
  }

  /**
   Every registered session was tried once: it has one report, clean exactly when its detach ended well, and it stays
   registered exactly when it did not.  Sessions that were not registered are as they were.
   */
  ghost predicate AllTried(objects: seq<Session>, sessions: map<Id, Obj>, answers: Obj -> Answer, reports: seq<(Id, bool)>,
                           after: seq<Session>, left: map<Id, Obj>) {
    && (forall i, j | 0 <= i < j < |reports| :: reports[i].0 != reports[j].0)
    && (forall id | id in sessions :: sessions[id] < |objects|)
    && (forall id, ok :: (id, ok) in reports <==>
          id in sessions && (ok <==> EndsWell(objects[sessions[id]], answers(sessions[id]))))
    && |after| == |objects|
    && (forall o | 0 <= o < |objects| ::
          after[o] == if o in sessions.Values then AfterDetach(objects[o], answers(o)) else objects[o])
    && (forall id :: id in left <==> id in sessions && !EndsWell(objects[sessions[id]], answers(sessions[id])))
    && (forall id | id in left :: left[id] == sessions[id])
  }

  lemma AllAreTried(s: Server, todo: seq<Obj>, answers: Obj -> Answer, reports: seq<(Id, bool)>,
                    after: seq<Session>, left: map<Id, Obj>)
    requires forall id | id in s.registry :: s.registry[id] < |s.objects| && s.objects[s.registry[id]].id == id
    requires forall o :: o in todo <==> o in s.registry.Values
    requires forall i, j :: 0 <= i < j < |todo| ==> todo[i] != todo[j]
    requires Reported(reports, s.objects, todo, answers) && Tried(s.objects, after, todo, answers)
    requires left == s.registry - Cleaned(reports)
    ensures AllTried(s.objects, s.registry, answers, reports, after, left)
  {
    hide EndsWell, AfterDetach;
    EachReported(s, todo, answers, reports);
    forall i, j | 0 <= i < j < |reports|
      ensures reports[i].0 != reports[j].0
    {
      assert todo[i] in todo && todo[j] in todo && todo[i] != todo[j];
      assert s.registry[reports[i].0] == todo[i] && s.registry[reports[j].0] == todo[j];
    }
    forall id
      ensures id in left <==> id in s.registry && !EndsWell(s.objects[s.registry[id]], answers(s.registry[id]))
    {
      assert id in Cleaned(reports) <==> (id, true) in reports;
    }
  }

  lemma EachReported(s: Server, todo: seq<Obj>, answers: Obj -> Answer, reports: seq<(Id, bool)>)
    requires forall id | id in s.registry :: s.registry[id] < |s.objects| && s.objects[s.registry[id]].id == id
    requires forall o :: o in todo <==> o in s.registry.Values
    requires Reported(reports, s.objects, todo, answers)
    ensures forall i | 0 <= i < |reports| :: reports[i].0 in s.registry && s.registry[reports[i].0] == todo[i]
    ensures forall id, ok :: (id, ok) in reports <==>
              id in s.registry && (ok <==> EndsWell(s.objects[s.registry[id]], answers(s.registry[id])))
  {
    hide EndsWell;
    forall i | 0 <= i < |reports|
      ensures reports[i].0 in s.registry && s.registry[reports[i].0] == todo[i]
    {
      assert todo[i] in todo;
      var id :| id in s.registry && s.registry[id] == todo[i];
      assert reports[i].0 == id;
    }
    forall id, ok | id in s.registry && (ok <==> EndsWell(s.objects[s.registry[id]], answers(s.registry[id])))
      ensures (id, ok) in reports
    {
      assert s.registry[id] in todo;
      var i :| 0 <= i < |todo| && todo[i] == s.registry[id];
      assert reports[i] == (id, ok);
    }
  }

  /** With nothing but clean reports nothing stays registered. */
  lemma CleanMeansEmpty(objects: seq<Session>, sessions: map<Id, Obj>, answers: Obj -> Answer, reports: seq<(Id, bool)>,
                        after: seq<Session>, left: map<Id, Obj>)
    requires AllTried(objects, sessions, answers, reports, after, left)
    ensures left == map[] <==> forall report | report in reports :: report.1
  {
    hide EndsWell, AfterDetach;
    forall id | id in left
      ensures (id, false) in reports
    {
    }
    forall report | report in reports && !report.1
      ensures report.0 in left
    {
      assert (report.0, report.1) in reports;
    }
  }

  lemma FailedEnds(objects: seq<Session>, o: Obj, answer: Answer)
    requires o < |objects| && objects[o].state == Failed
    ensures EndsWell(objects[o], answer) <==> answer.clean
    ensures AfterDetach(objects[o], answer) == objects[o].(state := if answer.clean then SessionState.Detached else Failed)
  {
  }

  lemma NextIdIsNotZero(s: Server)
    requires ServerInv(s)
    ensures s.nextId.Some? ==> s.nextId.value != 0
  {
  }

  /** An identifier that is registered is registered for the one session that has it. */
  lemma OnlyItself(s: Server, o: Obj)
    requires ServerInv(s) && o < |s.objects| && s.objects[o].id in s.registry
    ensures s.registry[s.objects[o].id] == o
  {
    var p := s.registry[s.objects[o].id];
    assert s.objects[p].id == s.objects[o].id;
  }

  function Marked(s: Server, o: Obj): Server
    requires o < |s.objects|
  {
    s.(objects := s.objects[o := s.objects[o].(state := Failed)])
  }

  lemma MarkIs(s: Server, o: Obj)
    requires o < |s.objects| && s.objects[o].state in {Attached, Failed}
    ensures ServerProtocol.Enabled(s, MoveSession(o, Failed))
    ensures ServerProtocol.Apply(s, MoveSession(o, Failed)) == Marked(s, o)
  {
  }

  lemma StartReapIs(s: Server, t: Tid, o: Obj)
    requires t in s.threads && s.threads[t] == Resting && s.lock == None && o < |s.objects|
    ensures ServerProtocol.Enabled(s, ServerProtocol.Action.StartReap(t, o, false, ForReconcile))
    ensures ServerProtocol.Apply(s, ServerProtocol.Action.StartReap(t, o, false, ForReconcile)) == WithoutActive(s, s.objects[o].id)
    ensures ServerProtocol.Enabled(s, ServerProtocol.Action.StartReap(t, o, true, ForReconcile))
    ensures ServerProtocol.Apply(s, ServerProtocol.Action.StartReap(t, o, true, ForReconcile)) ==
              WithoutActive(s, s.objects[o].id).(lock := Some(t),
                                                 threads := s.threads[t := Looking(s.objects[o].id, ForReconcile)])
  {
  }

  lemma ReapMissIs(s: Server, threads: map<Tid, Work>, t: Tid, id: Id)
    requires t in threads && threads[t] == Resting && s.threads == threads[t := Looking(id, ForReconcile)]
    ensures ServerProtocol.Goto(AfterMiss(s, id, ForReconcile), t, Resting) == s.(lock := None, threads := threads)
  {
    assert threads[t := Looking(id, ForReconcile)][t := Resting] == threads;
  }

  lemma ReapFinishIs(s: Server, threads: map<Tid, Work>, t: Tid, cleaned: set<Id>, failed: bool)
    requires t in threads && threads[t] == Resting
    requires s.threads == threads[t := Draining([], false, cleaned, failed, ForReconcile)]
    ensures ServerProtocol.Enabled(s, Finish(t))
    ensures ServerProtocol.Apply(s, Finish(t)) == s.(lock := None, threads := threads)
  {
    assert s.threads[t := Resting] == threads;
  }

  lemma StartDetachIs(s: Server, t: Tid, id: Id)
    requires t in s.threads && s.threads[t] == Resting && s.lock == None && !s.closed
    ensures ServerProtocol.Enabled(s, ServerProtocol.Action.StartDetach(t, id, ForDetach(id)))
    ensures ServerProtocol.Apply(s, ServerProtocol.Action.StartDetach(t, id, ForDetach(id))) ==
              s.(lock := Some(t), threads := s.threads[t := Looking(id, ForDetach(id))])
  {
  }

  lemma StartDetachAllIs(s: Server, t: Tid, todo: seq<Obj>, kind: Kind)
    requires t in s.threads && s.threads[t] == Resting && s.lock == None && !s.closed && kind in {ForDetachAll, ForExit}
    requires forall o :: o in todo <==> o in s.registry.Values
    requires forall id | id in s.registry :: s.registry[id] < |s.objects|
    ensures forall o | o in todo :: o < |s.objects|
    ensures ServerProtocol.Enabled(s, ServerProtocol.Action.StartDetachAll(t, todo, kind))
    ensures ServerProtocol.Apply(s, ServerProtocol.Action.StartDetachAll(t, todo, kind)) ==
              s.(lock := Some(t), threads := s.threads[t := Draining(todo, false, {}, false, kind)])
  {
    assert (set o | o in todo) == s.registry.Values;
  }

  /** A miss under the frontend's lock clears a stale active mode and lets go of the lock. */
  lemma MissIs(s: Server, threads: map<Tid, Work>, t: Tid, id: Id)
    requires t in threads && threads[t] == Resting && s.threads == threads[t := Looking(id, ForDetach(id))]
    ensures ServerProtocol.Goto(AfterMiss(s, id, ForDetach(id)), t, Resting) ==
              s.(active := if s.active == Some(id) then None else s.active, lock := None, threads := threads)
  {
    assert threads[t := Looking(id, ForDetach(id))][t := Resting] == threads;
  }

  lemma FinishIs(s: Server, threads: map<Tid, Work>, t: Tid, cleaned: set<Id>, failed: bool, kind: Kind)
    requires t in threads && threads[t] == Resting
    requires s.threads == threads[t := Draining([], false, cleaned, failed, kind)]
    requires ServerInv(s) && (kind.ForDetachAll? || kind.ForExit? || kind.ForDetach?)
    ensures ServerProtocol.Enabled(s, Finish(t))
    ensures ServerProtocol.Apply(s, Finish(t)) ==
              var active :=
                if kind.ForDetach? then if kind.id in cleaned && s.active == Some(kind.id) then None else s.active
                else if s.active.Some? && s.active.value !in s.registry then None
                else s.active;
              var closed := if kind.ForExit? then !failed && s.registry == map[] else s.closed;
              s.(active := active, closed := closed, lock := None, threads := threads)
  {
    hide IdsIncrease, RegistryOk;
    assert s.threads[t := Resting] == threads;
    if !kind.ForDetach? {
      assert WorkOk(s, t, s.threads[t]);
    }
  }

  lemma CleanedIsGone(s: Server, t: Tid)
    requires ServerInv(s) && t in s.threads && s.threads[t].Draining?
    ensures forall id | id in s.threads[t].cleaned :: id !in s.registry
  {
    hide IdsIncrease, RegistryOk;
    assert WorkOk(s, t, s.threads[t]);
  }
}

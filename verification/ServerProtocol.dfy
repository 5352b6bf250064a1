/**
 The session registry and the frontend above it, as threads use them: every registry access is one step under
 its lock, a detach is lookup, detach and removal in three separate steps, and the frontend's own lock is held
 for the whole of a frontend operation.
 */
module ServerProtocol {
  import opened Wrappers
  import opened SessionProtocol
  import opened SessionTheorems

  type Id = U64
  type Obj = nat  // a session object; the registry maps identifiers to objects

  datatype Session = Session(id: Id, state: SessionState)

  /** On whose behalf a registry detach runs; all but `Direct` hold the frontend lock until they finish. */
  datatype Kind = Direct | ForDetach(id: Id) | ForDetachAll | ForExit | ForReconcile

  datatype Work =
    | Resting
    | Looking(id: Id, kind: Kind)
    | Draining(todo: seq<Obj>, removing: bool, cleaned: set<Id>, failed: bool, kind: Kind)

  datatype Server = Server(
    capacity: nat,
    nextId: Option<U64>,
    objects: seq<Session>,        // every session ever reserved, in the order of reservation
    unguarded: set<Obj>,          // those reserved by `SessionRegistry::attach`, whose rollback removes unconditionally
    registry: map<Id, Obj>,
    active: Option<Id>,
    closed: bool,
    lock: Option<Tid>,            // holder of the frontend lock
    threads: map<Tid, Work>)

  function NewServer(capacity: nat): Server {
    Server(capacity, Some(1), [], {}, map[], None, false, None, map[])
  }

  function At(s: Server, t: Tid): Work {
    if t in s.threads then s.threads[t] else Resting
  }

  function Goto(s: Server, t: Tid, work: Work): Server {
    s.(threads := s.threads[t := work])
  }

  datatype Action =
    | ReserveLaunch(t: Tid)                       // frontend: reserve_launch
    | ReserveAttach(t: Tid)                       // registry: attach, first half
    | RollBack(t: Tid, o: Obj)                    // registry: attach, after complete_attach failed
    | MoveSession(o: Obj, state: SessionState)    // anything that happens inside one session
    | UseSession(t: Tid, id: Id)
    | Back(t: Tid)
    | StartDetach(t: Tid, id: Id, kind: Kind)
    | StartDetachAll(t: Tid, todo: seq<Obj>, kind: Kind)
    | StartReap(t: Tid, o: Obj, marked: bool, kind: Kind)
    | LookUp(t: Tid)
    | DetachReturns(t: Tid, ok: bool)
    | Remove(t: Tid)
    | Finish(t: Tid)

  predicate CanReserve(s: Server) {
    |s.registry| < s.capacity && s.nextId.Some? && s.nextId.value != 0
  }

  predicate CanLock(s: Server, kind: Kind) {
    kind.Direct? || s.lock == None
  }

  predicate Enabled(s: Server, a: Action) {
    match a
    case ReserveLaunch(t) => s.lock == None && !s.closed && s.active == None && CanReserve(s)
    case ReserveAttach(t) => CanReserve(s)
    case RollBack(t, o) => o in s.unguarded && o < |s.objects|
    case MoveSession(o, state) => o < |s.objects| && SessionEdge(s.objects[o].state, state)
    case UseSession(t, id) =>
      && s.lock == None && !s.closed && s.active == None
      && id in s.registry && s.registry[id] < |s.objects| && s.objects[s.registry[id]].state == Attached
    case Back(t) => s.lock == None && !s.closed && s.active.Some?
    case StartDetach(t, id, kind) =>
      && At(s, t).Resting? && CanLock(s, kind)
      && (kind == Direct || (kind == ForDetach(id) && !s.closed))
    case StartDetachAll(t, todo, kind) =>
      && At(s, t).Resting? && CanLock(s, kind)
      && (kind == Direct || (kind in {ForDetachAll, ForExit} && !s.closed))
      && (set o | o in todo) == s.registry.Values
      && (forall o | o in todo :: o < |s.objects|)
    case StartReap(t, o, marked, kind) =>
      At(s, t).Resting? && CanLock(s, kind) && o < |s.objects| && kind in {Direct, ForReconcile}
    case LookUp(t) =>
      At(s, t).Looking? && (At(s, t).id in s.registry ==> s.registry[At(s, t).id] < |s.objects|)
    case DetachReturns(t, ok) =>
      && At(s, t).Draining? && !At(s, t).removing && At(s, t).todo != []
      && At(s, t).todo[0] < |s.objects|
      && (ok ==> s.objects[At(s, t).todo[0]].state == Detached)
    case Remove(t) =>
      At(s, t).Draining? && At(s, t).removing && At(s, t).todo != [] && At(s, t).todo[0] < |s.objects|
    case Finish(t) => At(s, t).Draining? && At(s, t).todo == []
  }

  function Reserved(s: Server, unguarded: bool): Server
    requires CanReserve(s)
  {
    var (id, o) := (s.nextId.value, |s.objects|);
    s.(nextId := if id + 1 < TWO_64 then Some(id + 1) else None,
       objects := s.objects + [Session(id, Attaching)],
       unguarded := if unguarded then s.unguarded + {o} else s.unguarded,
       registry := s.registry[id := o])
  }

  function Locked(s: Server, t: Tid, kind: Kind): Server {
    if kind.Direct? then s else s.(lock := Some(t))
  }

  function Unlocked(s: Server, kind: Kind): Server {
    if kind.Direct? then s else s.(lock := None)
  }

  function WithoutActive(s: Server, id: Id): Server {
    if s.active == Some(id) then s.(active := None) else s
  }

  function Reconciled(s: Server, cleaned: set<Id>): Server {
    match s.active
    case None => s
    case Some(id) => if id in cleaned || id !in s.registry then s.(active := None) else s
  }

  function Finished(s: Server, cleaned: set<Id>, failed: bool, kind: Kind): Server {
    var done :=
      match kind
      case Direct => s
      case ForReconcile => s
      case ForDetach(id) => if id in cleaned then WithoutActive(s, id) else s
      case ForDetachAll => Reconciled(s, cleaned)
      case ForExit => Reconciled(s, cleaned).(closed := !failed && s.registry == map[]);
    Unlocked(done, kind)
  }

  function Apply(s: Server, a: Action): Server
    requires Enabled(s, a)
  {
    match a
    case ReserveLaunch(t) => Reserved(s, false)
    case ReserveAttach(t) => Reserved(s, true)
    case RollBack(t, o) => s.(registry := s.registry - {s.objects[o].id})
    case MoveSession(o, state) => s.(objects := s.objects[o := s.objects[o].(state := state)])
    case UseSession(t, id) => s.(active := Some(id))
    case Back(t) => s.(active := None)
    case StartDetach(t, id, kind) => Goto(Locked(s, t, kind), t, Looking(id, kind))
    case StartDetachAll(t, todo, kind) => Goto(Locked(s, t, kind), t, Draining(todo, false, {}, false, kind))
    case StartReap(t, o, marked, kind) =>
      var cleared := if kind.Direct? then s else WithoutActive(s, s.objects[o].id);
      if marked then Goto(Locked(cleared, t, kind), t, Looking(s.objects[o].id, kind)) else cleared
    case LookUp(t) =>
      var (id, kind) := (At(s, t).id, At(s, t).kind);
      if id in s.registry then Goto(s, t, Draining([s.registry[id]], false, {}, false, kind))
      else Goto(Unlocked(if kind.ForDetach? then WithoutActive(s, id) else s, kind), t, Resting)
    case DetachReturns(t, ok) =>
      var w := At(s, t);
      Goto(s, t, if ok then w.(removing := true) else w.(todo := w.todo[1..], failed := true))
    case Remove(t) =>
      var w := At(s, t);
      var id := s.objects[w.todo[0]].id;
      Goto(s.(registry := s.registry - {id}), t,
           w.(todo := w.todo[1..], removing := false, cleaned := w.cleaned + {id}))
    case Finish(t) =>
      var w := At(s, t);
      Goto(Finished(s, w.cleaned, w.failed, w.kind), t, Resting)
  }

  // ---- the invariant -------------------------------------------------------------------------------------

  predicate IdsIncrease(s: Server) {
    && (forall i, j | 0 <= i < j < |s.objects| :: s.objects[i].id < s.objects[j].id)
    && (forall i | 0 <= i < |s.objects| :: 1 <= s.objects[i].id)
    && (s.nextId.Some? ==> 1 <= s.nextId.value && forall i | 0 <= i < |s.objects| :: s.objects[i].id < s.nextId.value)
  }

  predicate RegistryOk(s: Server) {
    && |s.registry| <= s.capacity
    && (forall id | id in s.registry :: s.registry[id] < |s.objects| && s.objects[s.registry[id]].id == id)
    && (forall o | 0 <= o < |s.objects| ::
          s.objects[o].id in s.registry || s.objects[o].state == SessionState.Detached || o in s.unguarded)
  }

  predicate WorkOk(s: Server, t: Tid, w: Work) {
    match w
    case Resting => true
    case Looking(_, kind) => kind.Direct? || s.lock == Some(t)
    case Draining(todo, removing, cleaned, failed, kind) =>
      && (kind.Direct? || s.lock == Some(t))
      && (forall o | o in todo :: o < |s.objects|)
      && (removing ==> todo != [] && todo[0] < |s.objects| && s.objects[todo[0]].state == SessionState.Detached)
      && (forall id | id in cleaned :: id !in s.registry && (s.nextId.Some? ==> id < s.nextId.value))
  }

  ghost predicate ServerInv(s: Server) {
    && IdsIncrease(s)
    && RegistryOk(s)
    && (forall t | t in s.threads :: WorkOk(s, t, s.threads[t]))
  }

  lemma NewServerInv(capacity: nat)
    ensures ServerInv(NewServer(capacity))
  {
  }

  lemma ReservedInv(s: Server, unguarded: bool)
    requires ServerInv(s) && CanReserve(s)
    ensures ServerInv(Reserved(s, unguarded))
  {
    hide WorkOk, IdsIncrease, RegistryOk;
    var s' := Reserved(s, unguarded);
    forall t | t in s'.threads
      ensures WorkOk(s', t, s'.threads[t])
    {
      ReservedKeepsWork(s, unguarded, t, s.threads[t]);
    }
    ReservedKeepsIds(s, unguarded);
    ReservedKeepsRegistry(s, unguarded);
  }

  lemma ReservedKeepsIds(s: Server, unguarded: bool)
    requires IdsIncrease(s) && CanReserve(s)
    ensures IdsIncrease(Reserved(s, unguarded))
  {
  }

  lemma ReservedKeepsRegistry(s: Server, unguarded: bool)
    requires IdsIncrease(s) && RegistryOk(s) && CanReserve(s)
    ensures RegistryOk(Reserved(s, unguarded))
  {
    var s' := Reserved(s, unguarded);
    assert s.nextId.value !in s.registry;
    forall o | 0 <= o < |s'.objects|
      ensures s'.objects[o].id in s'.registry || s'.objects[o].state == SessionState.Detached || o in s'.unguarded
    {
      if o < |s.objects| { assert s'.objects[o] == s.objects[o]; }
    }
    forall id | id in s'.registry
      ensures s'.registry[id] < |s'.objects| && s'.objects[s'.registry[id]].id == id
    {
      if id != s.nextId.value { assert s'.objects[s.registry[id]] == s.objects[s.registry[id]]; }
    }
  }

  lemma ReservedKeepsWork(s: Server, unguarded: bool, t: Tid, w: Work)
    requires CanReserve(s) && WorkOk(s, t, w)
    ensures WorkOk(Reserved(s, unguarded), t, w)
  {
  }

  lemma MoveSessionInv(s: Server, o: Obj, state: SessionState)
    requires ServerInv(s) && Enabled(s, MoveSession(o, state))
    ensures ServerInv(Apply(s, MoveSession(o, state)))
  {
    hide WorkOk;
    var s' := Apply(s, MoveSession(o, state));
    forall t | t in s'.threads
      ensures WorkOk(s', t, s'.threads[t])
    {
      MovedKeepsWork(s, o, state, t, s.threads[t]);
    }
  }

  lemma MovedKeepsWork(s: Server, o: Obj, state: SessionState, t: Tid, w: Work)
    requires Enabled(s, MoveSession(o, state)) && WorkOk(s, t, w)
    ensures WorkOk(Apply(s, MoveSession(o, state)), t, w)
  {
  }

  /** Taking an entry out is harmless when its session is Detached or belongs to the unguarded rollback. */
  lemma RemovalInv(s: Server, o: Obj)
    requires ServerInv(s) && o < |s.objects|
    requires s.objects[o].state == SessionState.Detached || o in s.unguarded
    ensures ServerInv(s.(registry := s.registry - {s.objects[o].id}))
  {
    hide WorkOk, RegistryOk, IdsIncrease;
    var s' := s.(registry := s.registry - {s.objects[o].id});
    forall t | t in s'.threads
      ensures WorkOk(s', t, s'.threads[t])
    {
      RemovalKeepsWork(s, o, t, s.threads[t]);
    }
    RemovalKeepsRegistry(s, o);
  }

  lemma RemovalKeepsRegistry(s: Server, o: Obj)
    requires IdsIncrease(s) && RegistryOk(s) && o < |s.objects|
    requires s.objects[o].state == SessionState.Detached || o in s.unguarded
    ensures IdsIncrease(s.(registry := s.registry - {s.objects[o].id}))
    ensures RegistryOk(s.(registry := s.registry - {s.objects[o].id}))
  {
    RemovalShrinks(s.registry, s.objects[o].id);
    assert forall other | 0 <= other < |s.objects| && s.objects[other].id == s.objects[o].id :: other == o;
  }

  lemma RemovalKeepsWork(s: Server, o: Obj, t: Tid, w: Work)
    requires WorkOk(s, t, w) && o < |s.objects|
    ensures WorkOk(s.(registry := s.registry - {s.objects[o].id}), t, w)
  {
  }

  lemma RemovalShrinks(m: map<Id, Obj>, id: Id)
    ensures |m - {id}| <= |m|
  {
    if id in m {
      assert m == (m - {id})[id := m[id]];
    } else {
      assert m - {id} == m;
    }
  }

  /** A change of the frontend's own fields, with one thread moving on. */
  lemma FrontendInv(s: Server, s': Server, t: Tid, w: Work)
    requires ServerInv(s)
    requires s' == s.(active := s'.active, closed := s'.closed, lock := s'.lock, threads := s.threads[t := w])
    requires WorkOk(s', t, w)
    requires s'.lock == s.lock || s.lock == None || (s.lock == Some(t) && s'.lock == None)
    ensures ServerInv(s')
  {
    forall u | u in s'.threads
      ensures WorkOk(s', u, s'.threads[u])
    {
      if u != t { assert WorkOk(s, u, s.threads[u]); }
    }
  }

  lemma RemoveInv(s: Server, t: Tid)
    requires ServerInv(s) && Enabled(s, Remove(t))
    ensures ServerInv(Apply(s, Remove(t)))
  {
    hide IdsIncrease, RegistryOk;
    var (s', w) := (Apply(s, Remove(t)), At(s, t));
    assert WorkOk(s, t, w);
    assert forall o | o in w.todo[1..] :: o in w.todo;
    RemovalInv(s, w.todo[0]);
    IdsBelowNext(s, w.todo[0]);
    FrontendInv(s.(registry := s'.registry), s', t, At(s', t));
  }

  lemma DetachStepKeepsWork(s: Server, a: Action)
    requires a.Finish? || a.LookUp? || a.DetachReturns? || a.StartDetach? || a.StartDetachAll?
    requires Enabled(s, a) && WorkOk(s, a.t, At(s, a.t))
    ensures var s' := Apply(s, a);
            && s' == s.(active := s'.active, closed := s'.closed, lock := s'.lock, threads := s.threads[a.t := At(s', a.t)])
            && WorkOk(s', a.t, At(s', a.t))
            && (s'.lock == s.lock || s.lock == None || (s.lock == Some(a.t) && s'.lock == None))
  {
    if a.DetachReturns? {
      assert forall o | o in At(s, a.t).todo[1..] :: o in At(s, a.t).todo;
    }
  }

  /** The steps by which a detach runs, except its removals. */
  lemma DetachStepInv(s: Server, a: Action)
    requires ServerInv(s) && Enabled(s, a)
    requires a.Finish? || a.LookUp? || a.DetachReturns? || a.StartDetach? || a.StartDetachAll?
    ensures ServerInv(Apply(s, a))
  {
    hide IdsIncrease, RegistryOk;
    assert WorkOk(s, a.t, At(s, a.t));
    hide WorkOk, Enabled, Apply;
    DetachStepKeepsWork(s, a);
    FrontendInv(s, Apply(s, a), a.t, At(Apply(s, a), a.t));
  }

  lemma StartReapInv(s: Server, a: Action)
    requires ServerInv(s) && Enabled(s, a) && a.StartReap?
    ensures ServerInv(Apply(s, a))
  {
    hide IdsIncrease, RegistryOk;
    var s' := Apply(s, a);
    if a.marked { FrontendInv(s, s', a.t, At(s', a.t)); } else { ActiveInv(s, s'.active); }
  }

  lemma ActionInv(s: Server, a: Action)
    requires ServerInv(s) && Enabled(s, a)
    ensures ServerInv(Apply(s, a))
  {
    hide IdsIncrease, RegistryOk, WorkOk;
    match a
    case ReserveLaunch(t) => ReservedInv(s, false);
    case ReserveAttach(t) => ReservedInv(s, true);
    case RollBack(t, o) => RemovalInv(s, o);
    case MoveSession(o, state) => MoveSessionInv(s, o, state);
    case UseSession(t, id) => ActiveInv(s, Some(id));
    case Back(t) => ActiveInv(s, None);
    case StartReap(t, _, _, _) => StartReapInv(s, a);
    case Remove(t) => RemoveInv(s, t);
    case _ => DetachStepInv(s, a);
  }

  lemma IdsBelowNext(s: Server, o: Obj)
    requires IdsIncrease(s) && o < |s.objects|
    ensures s.nextId.Some? ==> s.objects[o].id < s.nextId.value
  {
  }

  lemma ActiveInv(s: Server, active: Option<Id>)
    requires ServerInv(s)
    ensures ServerInv(s.(active := active))
  {
    var s' := s.(active := active);
    forall t | t in s'.threads
      ensures WorkOk(s', t, s'.threads[t])
    {
      assert WorkOk(s, t, s.threads[t]);
    }
  }

  // ---- runs ----------------------------------------------------------------------------------------------

  datatype History = History(states: seq<Server>, actions: seq<Action>)

  ghost predicate IsHistory(h: History) {
    && |h.states| == |h.actions| + 1
    && h.states[0] == NewServer(h.states[0].capacity)
    && forall i | 0 <= i < |h.actions| ::
         Enabled(h.states[i], h.actions[i]) && h.states[i + 1] == Apply(h.states[i], h.actions[i])
  }

  lemma {:induction false} HistoryInv(h: History, i: nat)
    requires IsHistory(h) && i < |h.states|
    ensures ServerInv(h.states[i])
  {
    hide ServerInv, Enabled, Apply;
    if i == 0 {
      NewServerInv(h.states[0].capacity);
    } else {
      HistoryInv(h, i - 1);
      assert Enabled(h.states[i - 1], h.actions[i - 1]);
      ActionInv(h.states[i - 1], h.actions[i - 1]);
    }
  }

  /** The registry stays within its capacity, and identifiers strictly increase in the order of reservation. */
  lemma CapacityAndIdentifiers(h: History, i: nat)
    requires IsHistory(h) && i < |h.states|
    ensures var s := h.states[i];
            && |s.registry| <= s.capacity
            && (forall a, b | 0 <= a < b < |s.objects| :: s.objects[a].id < s.objects[b].id)
            && (forall id | id in s.registry :: s.registry[id] < |s.objects| && s.objects[s.registry[id]].id == id)
  {
    HistoryInv(h, i);
    hide IsHistory;
  }

  predicate SessionsAdvance(a: Server, b: Server) {
    && |a.objects| <= |b.objects|
    && a.capacity == b.capacity
    && forall o | 0 <= o < |a.objects| ::
         && b.objects[o].id == a.objects[o].id
         && (a.objects[o].state == SessionState.Detached ==> b.objects[o].state == SessionState.Detached)
  }

  /** A session keeps its identifier for ever, so no identifier is ever given out twice; Detached is final. */
  lemma {:induction false} IdentifiersNeverReused(h: History, i: nat, j: nat)
    requires IsHistory(h) && i <= j < |h.states|
    ensures SessionsAdvance(h.states[i], h.states[j])
    decreases j
  {
    hide Enabled, Apply, SessionsAdvance;
    if i < j {
      IdentifiersNeverReused(h, i, j - 1);
      assert Enabled(h.states[j - 1], h.actions[j - 1]);
      ActionAdvances(h.states[j - 1], h.actions[j - 1]);
      AdvanceOn(h.states[i], h.states[j - 1], h.states[j]);
    } else {
      AdvanceSelf(h.states[i]);
    }
  }

  lemma AdvanceSelf(a: Server)
    ensures SessionsAdvance(a, a)
  {
  }

  lemma AdvanceOn(a: Server, b: Server, c: Server)
    requires SessionsAdvance(a, b) && SessionsAdvance(b, c)
    ensures SessionsAdvance(a, c)
  {
  }

  lemma ActionAdvances(s: Server, a: Action)
    requires Enabled(s, a)
    ensures SessionsAdvance(s, Apply(s, a))
  {
  }

  /**
   A removal may come arbitrarily late after its detach, with other threads detaching and reserving in between:
   whatever it removes is the very session it detached, and that session is Detached.
   */
  lemma LateRemovalIsHarmless(h: History, i: nat, t: Tid)
    requires IsHistory(h) && i < |h.actions| && h.actions[i] == Remove(t)
    ensures var s := h.states[i];
            var o := At(s, t).todo[0];
            && s.objects[o].state == SessionState.Detached
            && (s.objects[o].id in s.registry ==> s.registry[s.objects[o].id] == o)
            && h.states[i + 1].registry == s.registry - {s.objects[o].id}
  {
    HistoryInv(h, i);
    var s := h.states[i];
    assert Enabled(s, h.actions[i]) && h.states[i + 1] == Apply(s, h.actions[i]);
    assert WorkOk(s, t, At(s, t));
    hide IsHistory;
  }

  // ---- closing -------------------------------------------------------------------------------------------

  /** Every launch goes through the frontend. */
  predicate LaunchesThroughFrontend(h: History) {
    forall a | a in h.actions :: !a.ReserveAttach?
  }

  function KindOf(w: Work): Kind {
    if w.Resting? then Direct else w.kind
  }

  predicate ClosedOk(s: Server) {
    && s.unguarded == {}
    && (s.closed ==>
          && s.registry == map[]
          && forall t | t in s.threads :: KindOf(s.threads[t]) in {Direct, ForReconcile})
  }

  lemma ActionClosed(s: Server, a: Action)
    requires ServerInv(s) && Enabled(s, a) && !a.ReserveAttach? && ClosedOk(s)
    ensures ClosedOk(Apply(s, a))
    ensures s.closed ==> Apply(s, a).closed && |Apply(s, a).objects| == |s.objects|
  {
    hide IdsIncrease, RegistryOk;
    if a.Finish? {
      assert WorkOk(s, a.t, At(s, a.t));
      FinishClosed(s, a.t);
    }
  }

  lemma FinishClosed(s: Server, t: Tid)
    requires ServerInv(s) && Enabled(s, Finish(t)) && ClosedOk(s)
    ensures ClosedOk(Apply(s, Finish(t)))
    ensures s.closed ==> Apply(s, Finish(t)).closed
  {
    hide IdsIncrease, RegistryOk;
    var s' := Apply(s, Finish(t));
    forall u | u in s'.threads && s'.closed
      ensures KindOf(s'.threads[u]) in {Direct, ForReconcile}
    {
      assert WorkOk(s, t, At(s, t));
      if u != t { assert WorkOk(s, u, s.threads[u]); }
    }
  }

  lemma {:induction false} ClosedMeansEmpty(h: History, i: nat)
    requires IsHistory(h) && LaunchesThroughFrontend(h) && i < |h.states|
    ensures ClosedOk(h.states[i])
  {
    hide ServerInv, Enabled, Apply;
    if i > 0 {
      HistoryInv(h, i - 1);
      ClosedMeansEmpty(h, i - 1);
      assert h.actions[i - 1] in h.actions;
      assert Enabled(h.states[i - 1], h.actions[i - 1]);
      ActionClosed(h.states[i - 1], h.actions[i - 1]);
    }
  }

  /**
   Once the frontend is closed it stays closed, the registry stays empty, and every reservation it ever handed
   out is Detached, so that a launcher's late `complete`, which needs an attaching session, fails.
   */
  lemma {:induction false} ClosedForGood(h: History, i: nat, j: nat)
    requires IsHistory(h) && LaunchesThroughFrontend(h) && i <= j < |h.states| && h.states[i].closed
    ensures h.states[j].closed && h.states[j].registry == map[]
    ensures |h.states[j].objects| == |h.states[i].objects|
    ensures forall o | 0 <= o < |h.states[j].objects| :: h.states[j].objects[o].state == SessionState.Detached
    decreases j
  {
    hide ServerInv, Enabled, Apply, ClosedOk;
    ClosedMeansEmpty(h, j);
    HistoryInv(h, j);
    if i < j {
      ClosedForGood(h, i, j - 1);
      HistoryInv(h, j - 1);
      ClosedMeansEmpty(h, j - 1);
      assert Enabled(h.states[j - 1], h.actions[j - 1]);
      assert h.actions[j - 1] in h.actions;
      ActionClosed(h.states[j - 1], h.actions[j - 1]);
    }
    hide IsHistory, LaunchesThroughFrontend;
    AllDetached(h.states[j]);
  }

  lemma AllDetached(s: Server)
    requires ServerInv(s) && ClosedOk(s) && s.closed
    ensures s.registry == map[]
    ensures forall o | 0 <= o < |s.objects| :: s.objects[o].state == SessionState.Detached
  {
    hide IdsIncrease, WorkOk;
  }

  // ---- the active session --------------------------------------------------------------------------------

  /** Every detach goes through the frontend too. */
  predicate DetachesThroughFrontend(h: History) {
    forall a | a in h.actions :: FrontendDetach(a)
  }

  predicate FrontendDetach(a: Action) {
    !a.RollBack? && (a.StartDetach? || a.StartDetachAll? || a.StartReap? ==> a.kind != Direct)
  }

  /** An operation under way may have removed the active session; then it is about to clear the active mode. */
  predicate WillClear(w: Work, active: Id) {
    w.Draining? && (w.kind in {ForDetachAll, ForExit} || (w.kind == ForDetach(active) && active in w.cleaned))
  }

  predicate AimsAt(s: Server, w: Work, id: Id) {
    || (w.Looking? && w.id == id)
    || (w.Draining? && forall o | o in w.todo :: o < |s.objects| && s.objects[o].id == id)
  }

  predicate ActiveWorkOk(s: Server, w: Work) {
    match KindOf(w)
    case Direct => w.Resting?
    case ForDetach(id) => AimsAt(s, w, id)
    case ForReconcile => s.active.Some? ==> exists id :: id != s.active.value && AimsAt(s, w, id)
    case _ => w.Draining?
  }

  ghost predicate ActiveOk(s: Server) {
    && (s.active.Some? && s.active.value !in s.registry ==>
          s.lock.Some? && WillClear(At(s, s.lock.value), s.active.value))
    && forall t | t in s.threads :: ActiveWorkOk(s, s.threads[t])
  }

  lemma AimStays(s: Server, s': Server, w: Work, id: Id)
    requires AimsAt(s, w, id) && SessionsAdvance(s, s')
    ensures AimsAt(s', w, id)
  {
  }

  /** Threads that do not move keep their aim, and only the frontend's lock holder can have removed `active`. */
  lemma OthersStayActiveOk(s: Server, s': Server, t: Tid)
    requires ActiveOk(s) && SessionsAdvance(s, s')
    requires s'.active == s.active || s'.active == None
    requires s'.threads == s.threads || (t in s'.threads && s'.threads == s.threads[t := s'.threads[t]])
    requires t in s'.threads && s'.threads != s.threads ==> ActiveWorkOk(s', s'.threads[t])
    requires s'.active.Some? && s'.active.value !in s'.registry ==>
               s'.lock.Some? && WillClear(At(s', s'.lock.value), s'.active.value)
    ensures ActiveOk(s')
  {
    forall u | u in s'.threads
      ensures ActiveWorkOk(s', s'.threads[u])
    {
      if u in s.threads && s'.threads[u] == s.threads[u] {
        var w := s.threads[u];
        assert ActiveWorkOk(s, w);
        if KindOf(w).ForDetach? {
          AimStays(s, s', w, KindOf(w).id);
        } else if KindOf(w).ForReconcile? && s'.active.Some? {
          var id :| id != s.active.value && AimsAt(s, w, id);
          AimStays(s, s', w, id);
        }
      }
    }
  }

  /** While nobody holds the frontend lock, no frontend operation is under way. */
  lemma UnlockedMeansResting(s: Server, t: Tid)
    requires ServerInv(s) && ActiveOk(s) && s.lock == None && t in s.threads
    ensures s.threads[t] == Resting
  {
    hide IdsIncrease, RegistryOk;
    assert WorkOk(s, t, s.threads[t]) && ActiveWorkOk(s, s.threads[t]);
  }

  lemma UseSessionActive(s: Server, t: Tid, id: Id)
    requires ServerInv(s) && ActiveOk(s) && Enabled(s, UseSession(t, id))
    ensures ActiveOk(Apply(s, UseSession(t, id)))
  {
    hide ServerInv;
    var s' := Apply(s, UseSession(t, id));
    forall u | u in s'.threads
      ensures ActiveWorkOk(s', s'.threads[u])
    {
      UnlockedMeansResting(s, u);
    }
  }

  lemma StartActive(s: Server, a: Action)
    requires ServerInv(s) && ActiveOk(s) && Enabled(s, a) && FrontendDetach(a)
    requires a.StartDetach? || a.StartDetachAll? || a.StartReap?
    ensures ActiveOk(Apply(s, a))
  {
    hide IdsIncrease, RegistryOk;
    var s' := Apply(s, a);
    if a.StartReap? && a.marked { assert AimsAt(s', At(s', a.t), s.objects[a.o].id); }
    OthersStayActiveOk(s, s', a.t);
  }

  lemma LookUpActive(s: Server, t: Tid)
    requires ServerInv(s) && ActiveOk(s) && Enabled(s, LookUp(t))
    ensures ActiveOk(Apply(s, LookUp(t)))
  {
    hide IdsIncrease;
    var s' := Apply(s, LookUp(t));
    assert WorkOk(s, t, At(s, t)) && ActiveWorkOk(s, At(s, t));
    assert At(s, t).id in s.registry ==> AimsAt(s', At(s', t), At(s, t).id);
    OthersStayActiveOk(s, s', t);
  }

  lemma TailAims(s: Server, s': Server, t: Tid)
    requires At(s, t).Draining? && At(s, t).todo != [] && ActiveWorkOk(s, At(s, t)) && SessionsAdvance(s, s')
    requires s'.active == s.active
    requires At(s', t).Draining? && At(s', t).kind == At(s, t).kind && At(s', t).todo == At(s, t).todo[1..]
    ensures ActiveWorkOk(s', At(s', t))
  {
    var (w, w') := (At(s, t), At(s', t));
    assert forall o | o in w'.todo :: o in w.todo;
    if w.kind.ForDetach? {
      assert AimsAt(s', w', w.kind.id);
    } else if w.kind.ForReconcile? && s.active.Some? {
      var id :| id != s.active.value && AimsAt(s, w, id);
      assert AimsAt(s', w', id);
    }
  }

  lemma DetachReturnsActive(s: Server, t: Tid, ok: bool)
    requires ServerInv(s) && ActiveOk(s) && Enabled(s, DetachReturns(t, ok))
    ensures ActiveOk(Apply(s, DetachReturns(t, ok)))
  {
    hide IdsIncrease, RegistryOk;
    var s' := Apply(s, DetachReturns(t, ok));
    assert ActiveWorkOk(s, At(s, t));
    if ok {
      var w := At(s, t);
      if w.kind.ForDetach? {
        assert AimsAt(s', At(s', t), w.kind.id);
      } else if w.kind.ForReconcile? && s.active.Some? {
        var id :| id != s.active.value && AimsAt(s, w, id);
        assert AimsAt(s', At(s', t), id);
      }
    } else {
      TailAims(s, s', t);
    }
    OthersStayActiveOk(s, s', t);
  }

  lemma RemoveActive(s: Server, t: Tid)
    requires ServerInv(s) && ActiveOk(s) && Enabled(s, Remove(t))
    ensures ActiveOk(Apply(s, Remove(t)))
  {
    hide IdsIncrease, RegistryOk;
    var (s', w) := (Apply(s, Remove(t)), At(s, t));
    assert WorkOk(s, t, w) && ActiveWorkOk(s, w);
    assert w.todo[0] in w.todo;
    TailAims(s, s', t);
    if w.kind.ForReconcile? && s.active.Some? {
      var id :| id != s.active.value && AimsAt(s, w, id);
    }
    OthersStayActiveOk(s, s', t);
  }

  lemma FinishActive(s: Server, t: Tid)
    requires ServerInv(s) && ActiveOk(s) && Enabled(s, Finish(t))
    ensures ActiveOk(Apply(s, Finish(t)))
  {
    hide IdsIncrease, RegistryOk;
    assert WorkOk(s, t, At(s, t)) && ActiveWorkOk(s, At(s, t));
    OthersStayActiveOk(s, Apply(s, Finish(t)), t);
  }

  lemma ActionActive(s: Server, a: Action)
    requires ServerInv(s) && ActiveOk(s) && Enabled(s, a) && FrontendDetach(a)
    ensures ActiveOk(Apply(s, a))
  {
    hide ServerInv, ActiveWorkOk;
    match a
    case UseSession(t, id) => UseSessionActive(s, t, id);
    case LookUp(t) => LookUpActive(s, t);
    case DetachReturns(t, ok) => DetachReturnsActive(s, t, ok);
    case Remove(t) => RemoveActive(s, t);
    case Finish(t) => FinishActive(s, t);
    case ReserveLaunch(t) => OthersStayActiveOk(s, Apply(s, a), t);
    case ReserveAttach(t) => OthersStayActiveOk(s, Apply(s, a), t);
    case MoveSession(_, _) => OthersStayActiveOk(s, Apply(s, a), 0);
    case Back(t) => OthersStayActiveOk(s, Apply(s, a), t);
    case _ => StartActive(s, a);
  }

  lemma {:induction false} HistoryActive(h: History, i: nat)
    requires IsHistory(h) && DetachesThroughFrontend(h) && i < |h.states|
    ensures ActiveOk(h.states[i])
  {
    hide ServerInv, Enabled, Apply, ActiveWorkOk, FrontendDetach;
    if i > 0 {
      HistoryInv(h, i - 1);
      HistoryActive(h, i - 1);
      assert h.actions[i - 1] in h.actions;
      assert Enabled(h.states[i - 1], h.actions[i - 1]);
      ActionActive(h.states[i - 1], h.actions[i - 1]);
    }
  }

  /** Whenever the frontend is not in the middle of an operation, an active session is a registered one. */
  lemma ActiveIsRegistered(h: History, i: nat)
    requires IsHistory(h) && DetachesThroughFrontend(h) && i < |h.states|
    requires h.states[i].lock == None && h.states[i].active.Some?
    ensures h.states[i].active.value in h.states[i].registry
  {
    hide IsHistory, ActiveWorkOk;
    HistoryActive(h, i);
  }
}

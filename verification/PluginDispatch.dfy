/** Concurrent dispatch: executors check instances out and back in under brief locks, in any interleaving. */
module PluginDispatch {
  import opened Wrappers
  import opened StableSort
  import opened PluginState
  import opened PluginReload
  import opened PluginReloadProofs
  import opened PluginHost

  /**
   * One run of `dispatch_loop` (or one firing of the tick loop): the indices still to try, the instance it
   * has checked out and from where, and its answer once it has one.
   */
  datatype Executor = Executor(todo: seq<nat>, holding: Option<Held>, answer: Option<Action>)

  datatype Held = Held(slot: nat, inst: Instance)

  /**
   * A reload at the error threshold, going on under the manager's lock: its slot, the registrations it has taken
   * out of the registry, and the new instance once it is built.
   */
  datatype Underway = Underway(slot: nat, saved: seq<Tick>, built: Option<Instance>)

  /**
   * `strays` are the instances whose blocking thread was given up on, by a timeout or a cancellation: the code
   * may still be running there. `lock` is the executor that keeps the manager locked while it runs or reloads,
   * if any.
   */
  datatype Sys = Sys(
    st: State,
    execs: map<nat, Executor>,
    strays: seq<Held>,
    lock: Option<nat>,
    reload: Option<Underway>)

  /**
   * The atomic steps: a critical section under the manager's lock, a cancellation, or a host call. A reload takes
   * the lock of the tick registry several times, so it is several steps: `Complete` clears the slot's
   * registrations, then the instance is built or not, `on_load` registers ticks one by one, and works or not.
   */
  datatype Step =
    | StartCommand(exec: nat, command: string)
    | StartMessage(exec: nat, order: seq<nat>)
    | StartTick(exec: nat, slot: nat, tick: nat)
    | LockedTick(exec: nat, slot: nat)
    | Take(exec: nat)
    | HostCall(exec: nat, call: TickCall)
    | StrayCall(stray: nat, call: TickCall)
    | Complete(exec: nat, result: ExecResult)
    | Build(tag: nat, exports: Exports)
    | BuildFails
    | LoadCall(call: TickCall)
    | LoadFails
    | LoadWorks
    | FallThrough(exec: nat)
    | Cancel(exec: nat)

  predicate Idle(e: Executor) {
    e.holding.None? && e.answer.None?
  }

  predicate Running(s: Sys, e: nat) {
    e in s.execs && s.execs[e].holding.Some? && s.execs[e].answer.None?
  }

  /** Whether `e` may enter a critical section. */
  predicate MayLock(s: Sys, e: nat) {
    s.reload.None? && (s.lock.None? || s.lock == Some(e))
  }

  /** Whether `e` is inside `complete_exec`, reloading, where it can be neither continued nor cancelled. */
  predicate Reloads(s: Sys, e: nat) {
    s.reload.Some? && s.lock == Some(e)
  }

  predicate Building(s: Sys) {
    s.reload.Some? && s.reload.value.slot < |s.st.slots| && s.reload.value.built.None?
  }

  predicate Loading(s: Sys) {
    s.reload.Some? && s.reload.value.slot < |s.st.slots| && s.reload.value.built.Some?
  }

  ghost predicate CanStep(s: Sys, step: Step) {
    match step
    case StartCommand(e, _) => e !in s.execs && MayLock(s, e)
    case StartMessage(e, order) =>
      && e !in s.execs && MayLock(s, e)
      && multiset(order) == multiset(s.st.hooks)
      && SortedBy(order, ByPriority(s.st.slots))
    case StartTick(e, i, tick) =>
      e !in s.execs && MayLock(s, e) && FilledAt(s.st.slots, i) && HasTick(s.st.ticks, i, tick)
    case LockedTick(e, i) => e !in s.execs && MayLock(s, e) && HandlesTicks(s.st.slots, i)
    case Take(e) => e in s.execs && MayLock(s, e) && Idle(s.execs[e]) && s.execs[e].todo != []
    case HostCall(e, _) => Running(s, e)
    case StrayCall(k, _) => k < |s.strays|
    case Complete(e, _) => Running(s, e) && MayLock(s, e)
    case Build(tag, _) => Building(s) && FreshTag(s, tag)
    case BuildFails => Building(s)
    case LoadCall(_) => Loading(s)
    case LoadFails => Loading(s)
    case LoadWorks => Loading(s)
    case FallThrough(e) => e in s.execs && Idle(s.execs[e]) && s.execs[e].todo == [] && !Reloads(s, e)
    case Cancel(e) => e in s.execs && !Reloads(s, e)
  }

  /** A newly built instance is none of those already about. */
  predicate FreshTag(s: Sys, tag: nat) {
    && (forall i | 0 <= i < |s.st.slots| && Filled(s.st.slots[i]) :: s.st.slots[i].instance.value.tag != tag)
    && (forall e | e in s.execs && s.execs[e].holding.Some? :: s.execs[e].holding.value.inst.tag != tag)
  }

  /** The registry after a `register_tick` call, filed under the index stored in the calling instance. */
  function Registered(st: State, idx: nat, call: TickCall): State {
    var (ticks, counter) := RegisterTick(st.ticks, st.counter, idx, call);
    st.(ticks := ticks, counter := counter)
  }

  function Unlock(s: Sys, e: nat): Option<nat> {
    if s.lock == Some(e) then None else s.lock
  }

  /** `complete_exec` short of a reload: the instance goes back if it came back, and an error is counted. */
  function Counted(st: State, held: Held, result: ExecResult): State {
    var put := if ComesBack(result) then st.(slots := PutSlots(st.slots, held.slot, held.inst)) else st;
    if ExecFailed(result) && held.slot < |put.slots| then CountError(put, held.slot) else put
  }

  /** The errors counted for slot `i` call for a reload, and failed reloads do not rule it out. */
  predicate NeedsReload(st: State, i: nat, limits: Limits) {
    i < |st.slots| && st.slots[i].lost >= limits.lost && st.slots[i].reloadFailures < limits.reloadFailures
  }

  /** What a failed build puts back, behind whatever is in the registry by then: nothing if the slot is empty. */
  function PutBack(st: State, r: Underway): State {
    if FilledAt(st.slots, r.slot) then st.(ticks := st.ticks + r.saved) else st
  }

  /** The reload of `s` is over, with these registries. */
  function Reloaded(s: Sys, st: State): Sys {
    s.(st := st, lock := None, reload := None)
  }

  function Do(s: Sys, step: Step, limits: Limits): Sys
    requires CanStep(s, step)
  {
    match step
    case StartCommand(e, c) =>
      s.(execs := s.execs[e := Executor(if c in s.st.routes then s.st.routes[c] else [], None, None)])
    case StartMessage(e, order) => s.(execs := s.execs[e := Executor(order, None, None)])
    case StartTick(e, i, _) => s.(execs := s.execs[e := Executor([i], None, None)])
    case LockedTick(e, i) =>
      s.(st := s.st.(slots := TakeSlots(s.st.slots, i)),
         execs := s.execs[e := Executor([], Some(Held(i, s.st.slots[i].instance.value)), None)],
         lock := Some(e))
    case Take(e) =>
      var x := s.execs[e];
      var i := x.todo[0];
      if FilledAt(s.st.slots, i) then
        s.(st := s.st.(slots := TakeSlots(s.st.slots, i)),
           execs := s.execs[e := Executor(x.todo[1..], Some(Held(i, s.st.slots[i].instance.value)), None)])
      else s.(execs := s.execs[e := x.(todo := x.todo[1..])])
    case HostCall(e, call) => s.(st := Registered(s.st, s.execs[e].holding.value.inst.idx, call))
    case StrayCall(k, call) => s.(st := Registered(s.st, s.strays[k].inst.idx, call))
    case Complete(e, result) =>
      var x := s.execs[e];
      var held := x.holding.value;
      var st := Counted(s.st, held, result);
      var execs := s.execs[e := Executor(x.todo, None, if Answers(result) then Some(result.action) else None)];
      var strays := if result.Timeout? then s.strays + [held] else s.strays;
      if ExecFailed(result) && NeedsReload(st, held.slot, limits) then
        Sys(st.(ticks := DropTicks(st.ticks, held.slot)), execs, strays, Some(e),
            Some(Underway(held.slot, SelectTicks(st.ticks, held.slot), None)))
      else Sys(st, execs, strays, Unlock(s, e), None)
    case Build(tag, exports) =>
      var r := s.reload.value;
      s.(reload := Some(r.(built := Some(Instance(tag, r.slot, exports)))))
    case BuildFails =>
      var r := s.reload.value;
      Reloaded(s, CountFailure(PutBack(s.st, r), r.slot))
    case LoadCall(call) => s.(st := Registered(s.st, s.reload.value.built.value.idx, call))
    case LoadFails =>
      var r := s.reload.value;
      Reloaded(s, CountFailure(s.st.(ticks := DropTicks(s.st.ticks, r.slot) + r.saved), r.slot))
    case LoadWorks =>
      var r := s.reload.value;
      Reloaded(s, Install(s.st, r.slot, r.built.value))
    case FallThrough(e) => s.(execs := s.execs[e := s.execs[e].(answer := Some(Next))])
    case Cancel(e) =>
      var x := s.execs[e];
      s.(execs := s.execs - {e},
         strays := if x.holding.Some? then s.strays + [x.holding.value] else s.strays,
         lock := Unlock(s, e))
  }

  // ----- who has the instance of a slot -----

  predicate Holds(s: Sys, e: nat, i: nat) {
    e in s.execs && s.execs[e].holding.Some? && s.execs[e].holding.value.slot == i
  }

  ghost predicate HeldBySome(s: Sys, i: nat) {
    exists e :: Holds(s, e, i)
  }

  /** The slot holds its instance / exactly one executor has it / a new one is on its way / it is gone. */
  datatype Whereabouts = AtHome | CheckedOut(exec: nat) | Rebuilt | Lost

  predicate ReloadingSlot(s: Sys, i: nat) {
    s.reload.Some? && s.reload.value.slot == i
  }

  ghost predicate IsAt(s: Sys, i: nat, w: Whereabouts)
    requires i < |s.st.slots|
  {
    match w
    case AtHome => Filled(s.st.slots[i]) && !HeldBySome(s, i)
    case CheckedOut(e) => !Filled(s.st.slots[i]) && Holds(s, e, i) && forall f | Holds(s, f, i) :: f == e
    case Rebuilt => !Filled(s.st.slots[i]) && !HeldBySome(s, i) && ReloadingSlot(s, i)
    case Lost => !Filled(s.st.slots[i]) && !HeldBySome(s, i) && !ReloadingSlot(s, i)
  }

  ghost predicate Exclusive(s: Sys) {
    && (forall e: nat, i: nat | Holds(s, e, i) :: i < |s.st.slots| && !Filled(s.st.slots[i]))
    && (forall e: nat, f: nat, i: nat | Holds(s, e, i) && Holds(s, f, i) :: e == f)
  }

  /** The slots as they would be with every checked-out instance back in place. */
  ghost function FullSlot(s: Sys, i: nat): Slot
    requires i < |s.st.slots|
  {
    if HeldBySome(s, i) then
      var e :| Holds(s, e, i);
      s.st.slots[i].(instance := Some(s.execs[e].holding.value.inst))
    else s.st.slots[i]
  }

  ghost function Full(s: Sys): State {
    s.st.(slots := seq(|s.st.slots|, i requires 0 <= i < |s.st.slots| => FullSlot(s, i)))
  }

  predicate NamesDistinct(slots: seq<Slot>) {
    forall i, j | 0 <= i < j < |slots| :: slots[i].params.name != slots[j].params.name
  }

  predicate TagsDistinct(slots: seq<Slot>) {
    forall i, j | 0 <= i < j < |slots| && Filled(slots[i]) && Filled(slots[j]) ::
      slots[i].instance.value.tag != slots[j].instance.value.tag
  }

  /** What every interleaving keeps of the slots and of the tables that address them. */
  ghost predicate Core(s: Sys) {
    && Exclusive(s)
    && NamesDistinct(s.st.slots)
    && Valid(Full(s))
    && RoutesSorted(s.st)
    && TagsDistinct(Full(s).slots)
  }

  /** An abandoned instance still stores the index of the slot it was taken from. */
  predicate StraysKnown(s: Sys) {
    forall k | 0 <= k < |s.strays| :: s.strays[k].slot < |s.st.slots| && s.strays[k].inst.idx == s.strays[k].slot
  }

  /** No plugin has more than eight ticks, two of one name, or an interval out of bounds. */
  ghost predicate RegistryDisciplined(ticks: seq<Tick>) {
    forall i: nat :: Disciplined(TicksOf(ticks, i))
  }

  /**
   * A reload goes on under the lock, in a slot nobody has the instance of; it has saved that slot's
   * registrations, and no other instance has the identity of the one it has built.
   */
  ghost predicate ReloadKnown(s: Sys) {
    s.reload.Some? ==>
      var r := s.reload.value;
      && s.lock.Some? && r.slot < |s.st.slots| && !HeldBySome(s, r.slot)
      && TicksWithin(r.saved, {r.slot})
      && (r.built.Some? ==> r.built.value.idx == r.slot && FreshTag(s, r.built.value.tag))
  }

  /** What every interleaving keeps. */
  ghost predicate Inv(s: Sys) {
    Core(s) && StraysKnown(s) && ReloadKnown(s)
  }

  ghost predicate Init(s: Sys) {
    && s.execs == map[] && s.strays == [] && s.lock == None && s.reload == None
    && RegistryDisciplined(s.st.ticks)
    && Valid(s.st) && AllFilled(s.st.slots) && RoutesSorted(s.st) && TagsDistinct(s.st.slots)
  }

  lemma InitInv(s: Sys)
    requires Init(s)
    ensures Inv(s)
  {
    assert Full(s).slots == s.st.slots;
  }

  /** In every state that keeps the invariant each slot is in exactly one of the four places. */
  lemma FourPlaces(s: Sys, i: nat) returns (w: Whereabouts)
    requires Exclusive(s) && i < |s.st.slots|
    ensures IsAt(s, i, w) && forall v | IsAt(s, i, v) :: v == w
  {
    if HeldBySome(s, i) {
      var e :| Holds(s, e, i);
      w := CheckedOut(e);
    } else if Filled(s.st.slots[i]) {
      w := AtHome;
    } else {
      w := if ReloadingSlot(s, i) then Rebuilt else Lost;
    }
  }

  // ----- one slot's instance leaves or comes back -----

  /** Same holders everywhere except that `e` may have put something down or picked something up. */
  lemma FullUnchanged(s: Sys, t: Sys, i: nat)
    requires Exclusive(s) && Exclusive(t) && |s.st.slots| == |t.st.slots| && i < |s.st.slots|
    requires t.st.slots[i] == s.st.slots[i]
    requires forall e :: Holds(s, e, i) <==> Holds(t, e, i)
    requires forall e | Holds(s, e, i) :: t.execs[e].holding == s.execs[e].holding
    ensures FullSlot(t, i) == FullSlot(s, i)
  {
    if HeldBySome(s, i) {
      var e :| Holds(s, e, i);
      assert Holds(t, e, i);
    }
  }

  /** Two systems whose slots agree in everything but who has the instances. */
  predicate SameTables(a: State, b: State) {
    && b == a.(slots := b.slots)
    && |a.slots| == |b.slots|
    && (forall i | 0 <= i < |a.slots| ::
          b.slots[i].params == a.slots[i].params)
  }

  lemma SameFull(s: Sys, t: Sys)
    requires Core(s) && Exclusive(t) && SameTables(s.st, t.st)
    requires forall i | 0 <= i < |s.st.slots| :: FullSlot(t, i) == FullSlot(s, i)
    ensures Core(t)
  {
    assert Full(t).slots == Full(s).slots;
    OrderKept(s.st.slots, t.st.slots, s.st.routes);
  }

  /** An instance is gone for good from slot `i`. */
  lemma LostFull(s: Sys, t: Sys, i: nat)
    requires Core(s) && Exclusive(t) && SameTables(s.st, t.st) && i < |s.st.slots|
    requires forall j | 0 <= j < |s.st.slots| && j != i :: FullSlot(t, j) == FullSlot(s, j)
    requires !Filled(FullSlot(t, i))
    ensures Core(t)
  {
    var a, b := Full(s), Full(t);
    assert NoNewInstances(a.slots, b.slots);
    IndexesKept(a.slots, b.slots, a.routes, a.hooks);
    OrderKept(s.st.slots, t.st.slots, s.st.routes);
  }

  /** Nobody's instance and none of the slots, routes and hooks changed, and the registry names slots in range. */
  lemma CoreSame(s: Sys, t: Sys)
    requires Core(s) && t.st == s.st.(ticks := t.st.ticks, counter := t.st.counter)
    requires TicksWithin(t.st.ticks, Indices(|s.st.slots|))
    requires forall f: nat, j: nat :: Holds(t, f, j) <==> Holds(s, f, j)
    requires forall f: nat, j: nat | Holds(s, f, j) ::
      f in t.execs && t.execs[f].holding == s.execs[f].holding
    ensures Core(t)
  {
    assert Exclusive(t);
    forall j: nat | j < |s.st.slots| ensures FullSlot(t, j) == FullSlot(s, j) {
      FullUnchanged(s, t, j);
    }
    assert Full(t).slots == Full(s).slots;
  }

  /** Steps that only change what an executor, or a reload, is about to do. */
  lemma PlanningCore(s: Sys, t: Sys)
    requires Core(s) && t.st == s.st
    requires forall f: nat, j: nat :: Holds(t, f, j) <==> Holds(s, f, j)
    requires forall f: nat, j: nat | Holds(s, f, j) ::
      f in t.execs && t.execs[f].holding == s.execs[f].holding
    ensures Core(t)
  {
    CoreSame(s, t);
  }

  /** Executor `e`, which held nothing, has taken the instance of slot `i`. */
  lemma TakenCore(s: Sys, t: Sys, e: nat, i: nat)
    requires Core(s) && FilledAt(s.st.slots, i) && forall j: nat :: !Holds(s, e, j)
    requires t.st == s.st.(slots := TakeSlots(s.st.slots, i))
    requires e in t.execs && t.execs[e].holding == Some(Held(i, s.st.slots[i].instance.value))
    requires forall f: nat | f != e :: (f in t.execs <==> f in s.execs) && (f in s.execs ==> t.execs[f] == s.execs[f])
    ensures Core(t)
  {
    assert forall f: nat, j: nat | f != e :: Holds(t, f, j) <==> Holds(s, f, j);
    assert forall f: nat :: !Holds(s, f, i);
    assert forall j: nat :: Holds(t, e, j) <==> j == i;
    assert Exclusive(t);
    forall j: nat | j < |s.st.slots| ensures FullSlot(t, j) == FullSlot(s, j) {
      if j == i {
        assert Holds(t, e, i);
      } else {
        FullUnchanged(s, t, j);
      }
    }
    SameFull(s, t);
  }

  lemma TakeInv(s: Sys, e: nat, limits: Limits)
    requires Core(s) && CanStep(s, Take(e))
    ensures Core(Do(s, Take(e), limits))
  {
    var t := Do(s, Take(e), limits);
    var i := s.execs[e].todo[0];
    assert forall j: nat :: !Holds(s, e, j);
    if FilledAt(s.st.slots, i) {
      TakenCore(s, t, e, i);
    } else {
      assert forall f: nat, j: nat :: Holds(t, f, j) <==> Holds(s, f, j);
      CoreSame(s, t);
    }
  }

  /** `t` is `s` after executor `e` put down whatever it held, back in its slot or not. */
  ghost predicate Released(s: Sys, t: Sys, e: nat, back: bool) {
    && e in s.execs
    && (forall f: nat, j: nat :: Holds(t, f, j) <==> f != e && Holds(s, f, j))
    && (forall f: nat | f != e && f in s.execs :: f in t.execs && t.execs[f] == s.execs[f])
    && t.st == (match s.execs[e].holding
                case Some(held) =>
                  if back then s.st.(slots := PutSlots(s.st.slots, held.slot, held.inst)) else s.st
                case None => s.st)
  }

  lemma ReleasedInv(s: Sys, t: Sys, e: nat, back: bool)
    requires Core(s) && Released(s, t, e, back)
    ensures Core(t)
  {
    match s.execs[e].holding {
      case None =>
        assert forall j: nat :: !Holds(s, e, j);
        assert Exclusive(t);
        forall j: nat | j < |s.st.slots| ensures FullSlot(t, j) == FullSlot(s, j) {
          FullUnchanged(s, t, j);
        }
        SameFull(s, t);
      case Some(held) =>
        var i := held.slot;
        assert Holds(s, e, i);
        assert forall f: nat :: !Holds(t, f, i);
        assert Exclusive(t);
        forall j: nat | j < |s.st.slots| && j != i ensures FullSlot(t, j) == FullSlot(s, j) {
          assert !Holds(s, e, j);
          FullUnchanged(s, t, j);
        }
        assert HeldBySome(s, i);
        if back {
          assert FullSlot(t, i) == FullSlot(s, i);
          SameFull(s, t);
        } else {
          LostFull(s, t, i);
        }
    }
  }

  // ----- errors and reloads of a slot nobody holds -----

  /** Slot `i`, held by no one, becomes `slot`; the rest of the view from outside is as before. */
  lemma FullAfter(s: Sys, after: State, i: nat)
    requires Exclusive(s) && i < |s.st.slots| == |after.slots| && !HeldBySome(s, i)
    requires forall j | 0 <= j < |s.st.slots| && j != i :: after.slots[j] == s.st.slots[j]
    ensures Exclusive(s.(st := after))
    ensures Full(s.(st := after)) == after.(slots := Full(s).slots[i := after.slots[i]])
  {
    var t := s.(st := after);
    assert forall e: nat, j: nat :: Holds(t, e, j) <==> Holds(s, e, j);
    forall e: nat, j: nat | Holds(t, e, j) ensures j < |after.slots| && !Filled(after.slots[j]) {
      assert Holds(s, e, j);
    }
    assert Exclusive(t);
    forall j: nat | j < |s.st.slots| && j != i ensures FullSlot(t, j) == FullSlot(s, j) {
      FullUnchanged(s, t, j);
    }
    assert FullSlot(t, i) == after.slots[i];
    assert Full(t).slots == Full(s).slots[i := after.slots[i]];
  }

  /** Reloading slot `i` does the same whether the other instances are at home or checked out. */
  lemma ReloadCommutes(s: Sys, i: nat, load: Load, limits: Limits)
    requires Exclusive(s) && i < |s.st.slots| && !HeldBySome(s, i)
    ensures
      var after := ReloadInstance(s.st, i, load, limits).0;
      && Exclusive(s.(st := after))
      && Full(s.(st := after)) == ReloadInstance(Full(s), i, load, limits).0
  {
    var (after, ok) := ReloadInstance(s.st, i, load, limits);
    var full := Full(s);
    assert FullSlot(s, i) == s.st.slots[i];
    FullAfter(s, after, i);
    SortSame(s.st.slots, full.slots);
  }

  lemma SortSame(a: seq<Slot>, b: seq<Slot>)
    requires |a| == |b| && forall i | 0 <= i < |a| :: a[i].params == b[i].params
    ensures forall routes: Routes :: SortRoutes(routes, a) == SortRoutes(routes, b)
  {
    assert forall i: nat :: PriorityAt(a, i) == PriorityAt(b, i);
    forall routes: Routes ensures SortRoutes(routes, a) == SortRoutes(routes, b) {
      forall c | c in routes ensures SortBy(routes[c], ByPriority(a)) == SortBy(routes[c], ByPriority(b)) {
        SortBySame(routes[c], a, b);
      }
    }
  }

  lemma {:induction false} SortBySame(s: seq<nat>, a: seq<Slot>, b: seq<Slot>)
    requires forall i: nat :: PriorityAt(a, i) == PriorityAt(b, i)
    ensures SortBy(s, ByPriority(a)) == SortBy(s, ByPriority(b))
  {
    if s != [] {
      SortBySame(s[1..], a, b);
      InsertSame(s[0], SortBy(s[1..], ByPriority(a)), a, b);
    }
  }

  lemma {:induction false} InsertSame(x: nat, s: seq<nat>, a: seq<Slot>, b: seq<Slot>)
    requires forall i: nat :: PriorityAt(a, i) == PriorityAt(b, i)
    ensures Insert(x, s, ByPriority(a)) == Insert(x, s, ByPriority(b))
  {
    if s != [] {
      InsertSame(x, s[1..], a, b);
    }
  }

  /** A counter of slot `i`, held by no one, has moved. */
  lemma CoreCounted(s: Sys, t: Sys, i: nat)
    requires Core(s) && i < |s.st.slots| == |t.st.slots| && !HeldBySome(s, i)
    requires t == s.(st := s.st.(slots := s.st.slots[i := t.st.slots[i]]))
    requires t.st.slots[i].instance == s.st.slots[i].instance && t.st.slots[i].params == s.st.slots[i].params
    ensures Core(t)
  {
    FullAfter(s, t.st, i);
    assert FullSlot(s, i) == s.st.slots[i];
    IndexesKept(Full(s).slots, Full(t).slots, s.st.routes, s.st.hooks);
    OrderKept(s.st.slots, t.st.slots, s.st.routes);
  }

  lemma ReloadTouchesOne(st: State, i: nat, load: Load, limits: Limits)
    requires i < |st.slots|
    ensures
      var slots := ReloadInstance(st, i, load, limits).0.slots;
      && |slots| == |st.slots|
      && (forall j | 0 <= j < |st.slots| && j != i :: slots[j] == st.slots[j])
      && slots[i].params == st.slots[i].params
      && (slots[i].instance == st.slots[i].instance
          || (slots[i].instance.Some? && slots[i].instance.value.tag == load.tag))
  {
  }

  lemma ReloadInv(s: Sys, i: nat, load: Load, limits: Limits)
    requires Core(s) && i < |s.st.slots| && !HeldBySome(s, i)
    requires forall j | 0 <= j < |s.st.slots| && j != i && Filled(Full(s).slots[j]) ::
      Full(s).slots[j].instance.value.tag != load.tag
    ensures Core(s.(st := ReloadInstance(s.st, i, load, limits).0))
  {
    hide RunCalls, Install, SelectTicks, DropTicks, CountFailure, RoutesValid, HooksValid;
    var after := ReloadInstance(s.st, i, load, limits).0;
    var full, fullAfter := Full(s), ReloadInstance(Full(s), i, load, limits).0;
    ReloadCommutes(s, i, load, limits);
    ReloadTouchesOne(s.st, i, load, limits);
    ReloadTouchesOne(full, i, load, limits);
    assert NamesDistinct(after.slots);
    assert NameFree(full.slots, i);
    OrderKept(s.st.slots, full.slots, s.st.routes);
    ReloadInstanceKeeps(full, i, load, limits);
    OrderKept(fullAfter.slots, after.slots, after.routes);
    assert TagsDistinct(fullAfter.slots);
  }

  // ----- every step, every run -----

  lemma RegisterWithin(ticks: seq<Tick>, counter: nat, idx: nat, call: TickCall, s: set<nat>)
    requires TicksWithin(ticks, s) && idx in s
    ensures TicksWithin(RegisterTick(ticks, counter, idx, call).0, s)
  {
  }

  /** A host call touches the tick registry alone. */
  lemma HostCallCore(s: Sys, idx: nat, call: TickCall)
    requires Core(s) && idx < |s.st.slots|
    ensures Core(s.(st := Registered(s.st, idx, call)))
  {
    hide RegisterTick;
    RegisterWithin(s.st.ticks, s.st.counter, idx, call, Indices(|s.st.slots|));
    CoreSame(s, s.(st := Registered(s.st, idx, call)));
  }

  /** A lent instance stores the index of the slot it was lent from. */
  lemma HeldIndex(s: Sys, e: nat, i: nat)
    requires Core(s) && Holds(s, e, i)
    ensures i < |s.st.slots| && s.execs[e].holding.value.inst.idx == i
  {
    assert FullSlot(s, i).instance == Some(s.execs[e].holding.value.inst);
    assert Full(s).slots[i] == FullSlot(s, i);
  }

  lemma FreshEverywhere(s: Sys, tag: nat)
    requires Exclusive(s) && FreshTag(s, tag)
    ensures forall j | 0 <= j < |s.st.slots| && Filled(FullSlot(s, j)) :: FullSlot(s, j).instance.value.tag != tag
  {
  }

  /** Slots, routes and hooks after `complete_exec`, short of a reload. */
  lemma CountedCore(s: Sys, t: Sys, e: nat, result: ExecResult)
    requires Core(s) && Running(s, e) && t.st == Counted(s.st, s.execs[e].holding.value, result)
    requires exists x: Executor :: x.holding == None && t.execs == s.execs[e := x]
    ensures Core(t)
  {
    var held := s.execs[e].holding.value;
    var put := if ComesBack(result) then s.st.(slots := PutSlots(s.st.slots, held.slot, held.inst)) else s.st;
    var u := t.(st := put);
    assert Holds(s, e, held.slot);
    assert forall f: nat, j: nat :: Holds(u, f, j) <==> f != e && Holds(s, f, j);
    assert Released(s, u, e, ComesBack(result));
    ReleasedInv(s, u, e, ComesBack(result));
    if ExecFailed(result) {
      assert !HeldBySome(u, held.slot);
      CoreCounted(u, t, held.slot);
    } else {
      assert t == u;
    }
  }

  lemma CompleteCore(s: Sys, e: nat, result: ExecResult, limits: Limits)
    requires Core(s) && CanStep(s, Complete(e, result))
    ensures Core(Do(s, Complete(e, result), limits))
  {
    var t := Do(s, Complete(e, result), limits);
    var held := s.execs[e].holding.value;
    var u := t.(st := Counted(s.st, held, result));
    CountedCore(s, u, e, result);
    PartsWithin(u.st.ticks, held.slot, Indices(|u.st.slots|));
    CoreSame(u, t);
  }

  lemma BuildFailsCore(s: Sys, limits: Limits)
    requires Core(s) && ReloadKnown(s) && CanStep(s, BuildFails)
    ensures Core(Do(s, BuildFails, limits))
  {
    var t, r := Do(s, BuildFails, limits), s.reload.value;
    var u := Reloaded(s, PutBack(s.st, r));
    CoreSame(s, u);
    HeldSame(s, u, r.slot);
    CoreCounted(u, t, r.slot);
  }

  lemma LoadFailsCore(s: Sys, limits: Limits)
    requires Core(s) && ReloadKnown(s) && CanStep(s, LoadFails)
    ensures Core(Do(s, LoadFails, limits))
  {
    var t, r := Do(s, LoadFails, limits), s.reload.value;
    var u := Reloaded(s, s.st.(ticks := DropTicks(s.st.ticks, r.slot) + r.saved));
    PartsWithin(s.st.ticks, r.slot, Indices(|s.st.slots|));
    CoreSame(s, u);
    HeldSame(s, u, r.slot);
    CoreCounted(u, t, r.slot);
  }

  lemma HeldSame(s: Sys, t: Sys, i: nat)
    requires t.execs == s.execs
    ensures HeldBySome(t, i) <==> HeldBySome(s, i)
  {
    assert forall f: nat :: Holds(t, f, i) <==> Holds(s, f, i);
  }

  /** Installing an instance is what an undisturbed reload that works does, but for the registry. */
  lemma InstallIsReload(st: State, i: nat, inst: Instance) returns (load: Load, limits: Limits)
    requires i < |st.slots| && inst.idx == i
    ensures load.tag == inst.tag
    ensures
      var after := ReloadInstance(st, i, load, limits).0;
      Install(st, i, inst) == after.(ticks := st.ticks, counter := st.counter)
  {
    load := Load(inst.tag, Some(inst.exports), [], true);
    limits := Limits(0, st.slots[i].reloadFailures + 1);
  }

  lemma LoadWorksCore(s: Sys, limits: Limits)
    requires Core(s) && ReloadKnown(s) && CanStep(s, LoadWorks)
    ensures Core(Do(s, LoadWorks, limits))
  {
    var t, r := Do(s, LoadWorks, limits), s.reload.value;
    var load, any := InstallIsReload(s.st, r.slot, r.built.value);
    FreshEverywhere(s, load.tag);
    ReloadInv(s, r.slot, load, any);
    CoreSame(s.(st := ReloadInstance(s.st, r.slot, load, any).0), t);
  }

  lemma StepCore(s: Sys, step: Step, limits: Limits)
    requires Inv(s) && CanStep(s, step)
    ensures Core(Do(s, step, limits))
  {
    hide Core, FreshTag, RegisterTick, HasTick;
    var t := Do(s, step, limits);
    match step {
      case StartCommand(e, c) => PlanningCore(s, t);
      case StartMessage(e, order) => PlanningCore(s, t);
      case StartTick(e, i, tick) => PlanningCore(s, t);
      case LockedTick(e, i) => TakenCore(s, t, e, i);
      case Take(e) => TakeInv(s, e, limits);
      case HostCall(e, call) =>
        HeldIndex(s, e, s.execs[e].holding.value.slot);
        HostCallCore(s, s.execs[e].holding.value.inst.idx, call);
      case StrayCall(k, call) => HostCallCore(s, s.strays[k].inst.idx, call);
      case Complete(e, result) => CompleteCore(s, e, result, limits);
      case Build(tag, exports) => PlanningCore(s, t);
      case BuildFails => BuildFailsCore(s, limits);
      case LoadCall(call) => HostCallCore(s, s.reload.value.slot, call);
      case LoadFails => LoadFailsCore(s, limits);
      case LoadWorks => LoadWorksCore(s, limits);
      case FallThrough(e) => PlanningCore(s, t);
      case Cancel(e) => ReleasedInv(s, t, e, false);
    }
  }

  lemma SlotsStay(s: Sys, step: Step, limits: Limits)
    requires CanStep(s, step)
    ensures |Do(s, step, limits).st.slots| == |s.st.slots|
  {
  }

  lemma StepStrays(s: Sys, step: Step, limits: Limits)
    requires Inv(s) && CanStep(s, step)
    ensures StraysKnown(Do(s, step, limits))
  {
    SlotsStay(s, step, limits);
    if (step.Complete? || step.Cancel?) && s.execs[step.exec].holding.Some? {
      HeldIndex(s, step.exec, s.execs[step.exec].holding.value.slot);
    }
  }

  lemma SelectWithin(ticks: seq<Tick>, i: nat)
    ensures TicksWithin(SelectTicks(ticks, i), {i})
  {
    if ticks != [] {
      SelectWithin(ticks[1..], i);
    }
  }

  lemma StepReload(s: Sys, step: Step, limits: Limits)
    requires Inv(s) && CanStep(s, step)
    ensures ReloadKnown(Do(s, step, limits))
  {
    var t := Do(s, step, limits);
    if t.reload.Some? {
      var i := t.reload.value.slot;
      if step.Complete? {
        var e := step.exec;
        assert Holds(s, e, i);
        assert forall f: nat :: Holds(t, f, i) ==> f != e && Holds(s, f, i);
        SelectWithin(s.st.ticks, i);
      } else {
        assert forall f: nat :: Holds(t, f, i) ==> Holds(s, f, i);
      }
    }
  }

  lemma StepInv(s: Sys, step: Step, limits: Limits)
    requires Inv(s) && CanStep(s, step)
    ensures Inv(Do(s, step, limits))
  {
    hide Core, CanStep, Do, StraysKnown, ReloadKnown;
    StepCore(s, step, limits);
    StepStrays(s, step, limits);
    StepReload(s, step, limits);
  }

  /** A finite run: the states passed through, one step between each two. */
  ghost predicate Run(states: seq<Sys>, steps: seq<Step>, limits: Limits) {
    && |states| == |steps| + 1
    && Init(states[0])
    && forall k | 0 <= k < |steps| :: CanStep(states[k], steps[k]) && states[k + 1] == Do(states[k], steps[k], limits)
  }

  lemma {:induction false} RunInv(states: seq<Sys>, steps: seq<Step>, limits: Limits, k: nat)
    requires Run(states, steps, limits) && k < |states|
    ensures Inv(states[k])
    decreases k
  {
    if k == 0 {
      InitInv(states[0]);
    } else {
      RunInv(states, steps, limits, k - 1);
      StepInv(states[k - 1], steps[k - 1], limits);
    }
  }

  /**
   * In every state of every run each slot has its instance, has lent it to exactly one executor, is waiting for
   * a new one, or has lost it; the instances in these places are pairwise different; and with the lent ones put
   * back, every route, hook and tick denotes its plugin, even half-way through a reload.
   */
  lemma EveryRunSafe(states: seq<Sys>, steps: seq<Step>, limits: Limits, k: nat, i: nat)
    requires Run(states, steps, limits) && k < |states| && i < |states[k].st.slots|
    ensures exists w :: IsAt(states[k], i, w) && forall v | IsAt(states[k], i, v) :: v == w
    ensures Valid(Full(states[k])) && TagsDistinct(Full(states[k]).slots)
  {
    RunInv(states, steps, limits, k);
    var w := FourPlaces(states[k], i);
  }

  /** The instance whose code makes a host call. */
  function Calling(s: Sys, step: Step): Option<Held> {
    match step
    case HostCall(e, _) => if e in s.execs then s.execs[e].holding else None
    case StrayCall(k, _) => if k < |s.strays| then Some(s.strays[k]) else None
    case LoadCall(_) => if Loading(s) then Some(Held(s.reload.value.slot, s.reload.value.built.value)) else None
    case _ => None
  }

  /**
   * Whoever calls `register_tick`, while it loads, while it runs, or even after a timeout or a cancellation,
   * changes the ticks of its own slot and of no other: the index stored inside the instance is always right.
   */
  lemma CallsFiledUnderOwner(states: seq<Sys>, steps: seq<Step>, limits: Limits, k: nat, j: nat)
    requires Run(states, steps, limits) && k < |steps|
    requires steps[k].HostCall? || steps[k].StrayCall? || steps[k].LoadCall?
    ensures Calling(states[k], steps[k]).Some?
    ensures
      var s, t, i := states[k].st, states[k + 1].st, Calling(states[k], steps[k]).value.slot;
      && i < |s.slots|
      && t == s.(ticks := t.ticks, counter := t.counter)
      && TicksOf(t.ticks, j)
           == if j == i then RegisterOwn(TicksOf(s.ticks, i), s.counter, steps[k].call).0 else TicksOf(s.ticks, j)
  {
    RunInv(states, steps, limits, k);
    var s := states[k];
    var held := Calling(s, steps[k]).value;
    if steps[k].HostCall? {
      HeldIndex(s, steps[k].exec, held.slot);
    }
    RegisterTickIsOwn(s.st.ticks, s.st.counter, held.inst.idx, steps[k].call, j);
  }

  /** `put_instance` never drops an instance for a bad index and never overwrites one. */
  lemma PutNeverOverwrites(states: seq<Sys>, steps: seq<Step>, limits: Limits, k: nat, e: nat, result: ExecResult)
    requires Run(states, steps, limits) && k < |steps| && steps[k] == Complete(e, result)
    ensures
      var held := states[k].execs[e].holding.value;
      held.slot < |states[k].st.slots| && !Filled(states[k].st.slots[held.slot])
  {
    RunInv(states, steps, limits, k);
    assert Holds(states[k], e, states[k].execs[e].holding.value.slot);
  }

  // ----- the order in which plugins are asked -----

  predicate SamePlugins(a: seq<Slot>, b: seq<Slot>) {
    |a| == |b| && forall i | 0 <= i < |a| :: b[i].params == a[i].params
  }

  lemma PluginsStay(s: Sys, step: Step, limits: Limits)
    requires CanStep(s, step)
    ensures SamePlugins(s.st.slots, Do(s, step, limits).st.slots)
  {
    hide FreshTag, RegisterTick, HasTick, SortRoutes, AddRoutes, DropRoutes, SelectTicks, DropTicks, NeedsReload;
  }

  lemma FallingStays(list: seq<nat>, a: seq<Slot>, b: seq<Slot>)
    requires SamePlugins(a, b) && FallingPriority(list, a)
    ensures FallingPriority(list, b)
  {
  }

  lemma FallingRest(list: seq<nat>, slots: seq<Slot>)
    requires FallingPriority(list, slots) && list != []
    ensures FallingPriority(list[1..], slots)
  {
  }

  /** Every execution still has to try its plugins by falling priority. */
  predicate TodoFalls(s: Sys) {
    forall e | e in s.execs :: FallingPriority(s.execs[e].todo, s.st.slots)
  }

  /** An executor's list after a step is the one it had, the rest of that, a new one in order, or a single entry. */
  lemma TodoStep(s: Sys, step: Step, limits: Limits, e: nat)
    requires CanStep(s, step) && RoutesSorted(s.st) && e in Do(s, step, limits).execs
    ensures
      var todo := Do(s, step, limits).execs[e].todo;
      || (e in s.execs && (todo == s.execs[e].todo || (s.execs[e].todo != [] && todo == s.execs[e].todo[1..])))
      || SortedBy(todo, ByPriority(s.st.slots))
      || |todo| <= 1
  {
    hide FreshTag, RegisterTick, HasTick, Counted, NeedsReload, PutBack, Install, CountFailure, SelectTicks, DropTicks;
  }

  lemma StepFalls(s: Sys, step: Step, limits: Limits)
    requires CanStep(s, step) && RoutesSorted(s.st) && TodoFalls(s)
    ensures TodoFalls(Do(s, step, limits))
  {
    hide Do, CanStep, RoutesSorted;
    var t := Do(s, step, limits);
    PluginsStay(s, step, limits);
    forall e | e in t.execs ensures FallingPriority(t.execs[e].todo, t.st.slots) {
      TodoStep(s, step, limits, e);
      var todo := t.execs[e].todo;
      if SortedBy(todo, ByPriority(s.st.slots)) {
        SortedFalls(todo, s.st.slots);
      } else if |todo| > 1 && todo != s.execs[e].todo {
        FallingRest(s.execs[e].todo, s.st.slots);
      }
      FallingStays(todo, s.st.slots, t.st.slots);
    }
  }

  /** In every run each dispatch asks the plugins left to ask from the highest priority to the lowest. */
  lemma {:induction false} AskedByPriority(states: seq<Sys>, steps: seq<Step>, limits: Limits, k: nat)
    requires Run(states, steps, limits) && k < |states|
    ensures TodoFalls(states[k]) && RoutesFall(states[k].st.routes, states[k].st.slots)
    decreases k
  {
    hide Do, CanStep, RoutesSorted, TodoFalls;
    RunInv(states, steps, limits, k);
    SortedRoutesFall(states[k].st);
    if k == 0 {
      NobodyAtFirst(states[0]);
    } else {
      AskedByPriority(states, steps, limits, k - 1);
      RunInv(states, steps, limits, k - 1);
      StepFalls(states[k - 1], steps[k - 1], limits);
    }
  }

  lemma NobodyAtFirst(s: Sys)
    requires Init(s)
    ensures TodoFalls(s)
  {
  }

  // ----- a lost instance -----

  /** An empty slot is changed by a reload of it, or by the executor that has its instance, and by nothing else. */
  lemma EmptyUntouched(s: Sys, step: Step, limits: Limits, i: nat)
    requires CanStep(s, step) && i < |s.st.slots| && !Filled(s.st.slots[i]) && !ReloadingSlot(s, i)
    requires step.Complete? ==> s.execs[step.exec].holding.value.slot != i
    ensures
      var t := Do(s, step, limits);
      i < |t.st.slots| && t.st.slots[i] == s.st.slots[i] && !ReloadingSlot(t, i)
  {
    hide FreshTag, RegisterTick, HasTick, SortRoutes, AddRoutes, DropRoutes, SelectTicks, DropTicks, NeedsReload;
  }

  /** Executors other than those with the instance of slot `i` do not get it while the slot is empty. */
  lemma NobodyTakes(s: Sys, step: Step, limits: Limits, i: nat)
    requires CanStep(s, step) && i < |s.st.slots| && !Filled(s.st.slots[i])
    ensures forall f: nat :: Holds(Do(s, step, limits), f, i) ==> Holds(s, f, i)
  {
    hide FreshTag, RegisterTick, HasTick, Install, CountFailure, PutBack, SelectTicks, DropTicks, NeedsReload, Counted;
  }

  lemma LostStays(s: Sys, step: Step, limits: Limits, i: nat)
    requires CanStep(s, step) && i < |s.st.slots| && IsAt(s, i, Lost)
    ensures
      var t := Do(s, step, limits);
      i < |t.st.slots| && IsAt(t, i, Lost) && t.st.slots[i] == s.st.slots[i]
  {
    if step.Complete? {
      assert Holds(s, step.exec, s.execs[step.exec].holding.value.slot);
    }
    hide Do;
    EmptyUntouched(s, step, limits, i);
    NobodyTakes(s, step, limits, i);
  }

  /**
   * Dispatching never brings a lost plugin back: nobody can take it, so nothing about its slot changes any more,
   * in particular not the error count, which never reaches the threshold that would reload it.
   */
  lemma {:induction false} LostForGood(states: seq<Sys>, steps: seq<Step>, limits: Limits, k: nat, l: nat, i: nat)
    requires Run(states, steps, limits) && k <= l < |states|
    requires i < |states[k].st.slots| && IsAt(states[k], i, Lost)
    ensures i < |states[l].st.slots| && IsAt(states[l], i, Lost)
    ensures states[l].st.slots[i] == states[k].st.slots[i]
    decreases l
  {
    hide Core, CanStep, Do, IsAt;
    if k < l {
      LostForGood(states, steps, limits, k, l - 1, i);
      LostStays(states[l - 1], steps[l - 1], limits, i);
    }
  }

  /**
   * Cancelling a dispatch while a plugin runs always loses that plugin, and no error is counted for it. Its code
   * may go on, and may go on registering ticks.
   */
  lemma CancelLoses(s: Sys, e: nat, limits: Limits)
    requires Inv(s) && CanStep(s, Cancel(e)) && s.execs[e].holding.Some?
    ensures
      var t, i := Do(s, Cancel(e), limits), s.execs[e].holding.value.slot;
      && t.st == s.st && i < |t.st.slots| && IsAt(t, i, Lost) && e !in t.execs
      && exists k :: 0 <= k < |t.strays| && t.strays[k].slot == i && forall call :: CanStep(t, StrayCall(k, call))
  {
    var t, i := Do(s, Cancel(e), limits), s.execs[e].holding.value.slot;
    assert Holds(s, e, i);
    assert forall f: nat :: Holds(t, f, i) ==> f != e && Holds(s, f, i);
    assert t.strays[|s.strays|].slot == i;
  }

  /** An execution that does not come back loses the slot there and then exactly when it starts no reload. */
  lemma LosesUnlessReloaded(s: Sys, e: nat, result: ExecResult, limits: Limits)
    requires Inv(s) && CanStep(s, Complete(e, result)) && !ComesBack(result)
    ensures
      var t := Do(s, Complete(e, result), limits);
      var i := s.execs[e].holding.value.slot;
      && i < |t.st.slots|
      && IsAt(t, i,
           if SaturatingIncrement(s.st.slots[i].lost) < limits.lost
              || s.st.slots[i].reloadFailures >= limits.reloadFailures
           then Lost else Rebuilt)
  {
    var t := Do(s, Complete(e, result), limits);
    var i := s.execs[e].holding.value.slot;
    assert Holds(s, e, i);
    assert forall f: nat :: Holds(t, f, i) ==> f != e && Holds(s, f, i);
  }

  /** A slot waiting for its new instance gets it when the reload works, and is lost when the reload fails. */
  lemma RebuiltUntilDone(s: Sys, step: Step, limits: Limits, i: nat)
    requires Inv(s) && CanStep(s, step) && i < |s.st.slots| && IsAt(s, i, Rebuilt)
    ensures
      var t := Do(s, step, limits);
      && i < |t.st.slots|
      && IsAt(t, i, if step.LoadWorks? then AtHome else if step.BuildFails? || step.LoadFails? then Lost else Rebuilt)
  {
    var t := Do(s, step, limits);
    assert forall f: nat :: Holds(t, f, i) ==> Holds(s, f, i);
  }
}

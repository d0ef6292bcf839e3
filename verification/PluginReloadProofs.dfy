/** Hot reload keeps every index meaningful, and acts on each plugin by name as if there were no indices. */
module PluginReloadProofs {
  import opened Wrappers
  import opened StableSort
  import opened PluginState
  import opened PluginReload

  // ----- ticks of one index set aside -----

  lemma {:induction false} DropTicksNone(ticks: seq<Tick>, i: nat)
    requires forall t | t in ticks :: t.idx != i
    ensures DropTicks(ticks, i) == ticks
  {
    if ticks != [] {
      DropTicksNone(ticks[1..], i);
    }
  }

  lemma {:induction false} DropTicksUpdate(ticks: seq<Tick>, p: nat, t: Tick, i: nat)
    requires p < |ticks| && ticks[p].idx == i == t.idx
    ensures DropTicks(ticks[p := t], i) == DropTicks(ticks, i)
  {
    if p == 0 {
      assert ticks[0 := t][1..] == ticks[1..];
    } else {
      DropTicksUpdate(ticks[1..], p - 1, t, i);
      assert ticks[p := t][1..] == ticks[1..][p - 1 := t];
    }
  }

  lemma {:induction false} DropTicksAppend(ticks: seq<Tick>, t: Tick, i: nat)
    requires t.idx == i
    ensures DropTicks(ticks + [t], i) == DropTicks(ticks, i)
  {
    if ticks == [] {
      assert ticks + [t] == [t];
    } else {
      DropTicksAppend(ticks[1..], t, i);
      assert (ticks + [t])[1..] == ticks[1..] + [t];
    }
  }

  /** A plugin's calls leave no trace once its own registrations are dropped. */
  lemma {:induction false} RunCallsDrop(ticks: seq<Tick>, counter: nat, i: nat, calls: seq<TickCall>)
    ensures DropTicks(RunCalls(ticks, counter, i, calls).0, i) == DropTicks(ticks, i)
    decreases |calls|
  {
    if calls != [] {
      var rest, call := calls[..|calls| - 1], calls[|calls| - 1];
      RunCallsDrop(ticks, counter, i, rest);
      var (t, c) := RunCalls(ticks, counter, i, rest);
      var p := FindTick(t, i, call.name);
      if p < |t| {
        DropTicksUpdate(t, p, t[p].(interval := call.interval), i);
      }
      DropTicksAppend(t, Tick(i, call.name, call.interval, c), i);
    }
  }

  /** Loading at `i` replaces the registrations of `i` and leaves those of every other index alone. */
  lemma ReplacedTicks(ticks: seq<Tick>, counter: nat, i: nat, calls: seq<TickCall>, j: nat)
    ensures TicksOf(RunCalls(DropTicks(ticks, i), counter, i, calls).0, j)
         == if j == i then RunOwn([], counter, calls).0 else TicksOf(ticks, j)
    ensures RunCalls(DropTicks(ticks, i), counter, i, calls).1 == RunOwn([], counter, calls).1
  {
    RunCallsIsOwn(DropTicks(ticks, i), counter, i, calls, j);
    TicksOfDrop(ticks, i, i);
    TicksOfDrop(ticks, i, j);
  }

  lemma ReplacedWithin(ticks: seq<Tick>, counter: nat, i: nat, calls: seq<TickCall>, s: set<nat>)
    requires TicksWithin(ticks, s) && i in s
    ensures TicksWithin(RunCalls(DropTicks(ticks, i), counter, i, calls).0, s)
  {
    PartsWithin(ticks, i, s);
    RunCallsWithin(DropTicks(ticks, i), counter, i, calls, s);
  }

  /** The registry after a load of `i` failed and the old registrations were put back. */
  lemma Restored(ticks: seq<Tick>, counter: nat, i: nat, calls: seq<TickCall>)
    ensures DropTicks(RunCalls(DropTicks(ticks, i), counter, i, calls).0, i) == DropTicks(ticks, i)
  {
    var others := DropTicks(ticks, i);
    RunCallsDrop(others, counter, i, calls);
    PartsWithin(ticks, i, set k | 0 <= k < |ticks| :: ticks[k].idx);
    DropTicksNone(others, i);
  }

  lemma RestoredTicks(ticks: seq<Tick>, i: nat, j: nat)
    ensures TicksOf(DropTicks(ticks, i) + SelectTicks(ticks, i), j) == TicksOf(ticks, j)
  {
    TicksOfAppend(DropTicks(ticks, i), SelectTicks(ticks, i), j);
    TicksOfDrop(ticks, i, j);
    TicksOfSelect(ticks, i, j);
  }

  // ----- ticks of slots without an instance -----

  /** The empty slot `j` has registrations left. */
  predicate StaleAt(st: State, j: nat) {
    !FilledAt(st.slots, j) && TicksOf(st.ticks, j) != []
  }

  lemma {:induction false} NoTicksOf(ticks: seq<Tick>, j: nat)
    ensures TicksOf(ticks, j) == [] <==> forall k | 0 <= k < |ticks| :: ticks[k].idx != j
  {
    if ticks != [] {
      NoTicksOf(ticks[1..], j);
      assert ticks == [ticks[0]] + ticks[1..];
    }
  }

  lemma OwnedIffNoneStale(st: State)
    ensures TicksOwned(st) <==> forall j: nat :: !StaleAt(st, j)
  {
    forall j: nat ensures TicksOf(st.ticks, j) == [] <==> forall k | 0 <= k < |st.ticks| :: st.ticks[k].idx != j {
      NoTicksOf(st.ticks, j);
    }
    forall k | 0 <= k < |st.ticks| ensures st.ticks[k].idx !in Live(st.slots) ==> StaleAt(st, st.ticks[k].idx) {
    }
  }

  lemma SameStale(a: State, b: State)
    requires forall j: nat :: StaleAt(a, j) <==> StaleAt(b, j)
    ensures TicksOwned(a) <==> TicksOwned(b)
  {
    OwnedIffNoneStale(a);
    OwnedIffNoneStale(b);
  }

  // ----- changing one slot -----

  /** Nothing but slot `i`, its registrations and the counter differ. */
  ghost predicate OnlyAt(st: State, after: State, i: nat) {
    && |after.slots| == |st.slots|
    && i < |st.slots|
    && (forall j | 0 <= j < |st.slots| && j != i :: after.slots[j] == st.slots[j])
    && after.slots[i].params.name == st.slots[i].params.name
    && (forall j: nat | j != i :: TicksOf(after.ticks, j) == TicksOf(st.ticks, j))
  }

  lemma ViewUpdated(st: State, after: State, i: nat)
    requires SlotsValid(st.slots) && SlotsValid(after.slots)
    requires OnlyAt(st, after, i) && Filled(st.slots[i]) && Filled(after.slots[i])
    ensures ViewOf(after)
         == View(ViewOf(st).plugins[st.slots[i].params.name := PluginAt(after.slots, after.ticks, i)], after.counter)
  {
    OldMapUnique(st.slots);
    var name := st.slots[i].params.name;
    var v := View(ViewOf(st).plugins[name := PluginAt(after.slots, after.ticks, i)], after.counter);
    forall j | 0 <= j < |after.slots| && Filled(after.slots[j])
      ensures after.slots[j].params.name in v.plugins
      ensures v.plugins[after.slots[j].params.name] == PluginAt(after.slots, after.ticks, j)
    {
      if j != i {
        ViewHas(st, j);
      }
    }
    forall n | n in v.plugins
      ensures exists k :: 0 <= k < |after.slots| && Filled(after.slots[k]) && after.slots[k].params.name == n
    {
      var k := if n == name then i else OldMap(st.slots)[n];
      assert Filled(after.slots[k]) && after.slots[k].params.name == n;
    }
    ViewIs(after, v);
  }

  /** A slot that lost its instance may come back only if no live plugin took its name. */
  predicate NameFree(slots: seq<Slot>, i: nat) {
    i < |slots| && forall j | 0 <= j < |slots| && j != i && Filled(slots[j]) ::
      slots[j].params.name != slots[i].params.name
  }

  lemma ValidNameFree(slots: seq<Slot>, i: nat)
    requires SlotsValid(slots) && FilledAt(slots, i)
    ensures NameFree(slots, i)
  {
  }

  // ----- the index structures under a change of slots -----

  predicate NoNewInstances(a: seq<Slot>, b: seq<Slot>) {
    |a| == |b| && forall j | 0 <= j < |a| && Filled(b[j]) ::
      Filled(a[j]) && b[j].instance.value.exports == a[j].instance.value.exports
  }

  lemma IndexesKept(a: seq<Slot>, b: seq<Slot>, routes: Routes, hooks: set<nat>)
    requires RoutesValid(a, routes) && HooksValid(a, hooks) && NoNewInstances(a, b)
    ensures RoutesValid(b, routes) && HooksValid(b, hooks)
  {
    forall c: string, j: nat ensures RoutesMatch(b, routes, c, j) {
      assert RoutesMatch(a, routes, c, j);
    }
    forall j: nat ensures HookMatches(b, hooks, j) {
      assert HookMatches(a, hooks, j);
    }
  }

  /** Dropping the routes and the hook of an index suits any state in which that slot is empty. */
  lemma IndexesDropped(a: seq<Slot>, b: seq<Slot>, routes: Routes, hooks: set<nat>, i: nat)
    requires RoutesValid(a, routes) && HooksValid(a, hooks) && NoNewInstances(a, b)
    requires i < |b| && !Filled(b[i])
    ensures RoutesValid(b, DropRoutes(routes, i)) && HooksValid(b, hooks - {i})
  {
    forall c: string, j: nat ensures RoutesMatch(b, DropRoutes(routes, i), c, j) {
      assert RoutesMatch(a, routes, c, j);
      DropRoutesCount(routes, i, c, j);
    }
    forall j: nat ensures HookMatches(b, hooks - {i}, j) {
      assert HookMatches(a, hooks, j);
    }
  }

  /** Slot `i` of `b` holds a new instance with these exports; the other slots hold nothing new. */
  predicate NewInstanceAt(a: seq<Slot>, b: seq<Slot>, i: nat, exports: Exports) {
    && i < |b| && Filled(b[i]) && b[i].instance.value.exports == exports
    && |a| <= |b| <= |a| + 1 && i >= |b| - 1 - (if |a| == |b| then |a| else 0)
    && (forall j | 0 <= j < |b| && j != i && Filled(b[j]) ::
          j < |a| && Filled(a[j]) && b[j].instance.value.exports == a[j].instance.value.exports)
  }

  lemma IndexesReplaced(a: seq<Slot>, b: seq<Slot>, routes: Routes, hooks: set<nat>, i: nat, exports: Exports)
    requires RoutesValid(a, routes) && HooksValid(a, hooks) && NewInstanceAt(a, b, i, exports)
    ensures RoutesValid(b, AddRoutes(DropRoutes(routes, i), exports.commands, i))
    ensures HooksValid(b, WithHook(hooks, i, exports.onMessage))
  {
    forall c: string, j: nat ensures RoutesMatch(b, AddRoutes(DropRoutes(routes, i), exports.commands, i), c, j) {
      assert RoutesMatch(a, routes, c, j);
      DropRoutesCount(routes, i, c, j);
      AddRoutesCount(DropRoutes(routes, i), exports.commands, i, c, j);
    }
    forall j: nat ensures HookMatches(b, WithHook(hooks, i, exports.onMessage), j) {
      assert HookMatches(a, hooks, j);
    }
  }

  lemma IndexesAppended(a: seq<Slot>, b: seq<Slot>, routes: Routes, hooks: set<nat>, exports: Exports)
    requires RoutesValid(a, routes) && HooksValid(a, hooks)
    requires |b| == |a| + 1 && NewInstanceAt(a, b, |a|, exports)
    ensures RoutesValid(b, AddRoutes(routes, exports.commands, |a|))
    ensures HooksValid(b, WithHook(hooks, |a|, exports.onMessage))
  {
    forall c: string, j: nat ensures RoutesMatch(b, AddRoutes(routes, exports.commands, |a|), c, j) {
      assert RoutesMatch(a, routes, c, j);
      AddRoutesCount(routes, exports.commands, |a|, c, j);
    }
    forall j: nat ensures HookMatches(b, WithHook(hooks, |a|, exports.onMessage), j) {
      assert HookMatches(a, hooks, j);
    }
  }

  lemma SortKeepsRoutes(slots: seq<Slot>, routes: Routes, order: seq<Slot>)
    requires RoutesValid(slots, routes)
    ensures RoutesValid(slots, SortRoutes(routes, order))
  {
    forall c: string, j: nat ensures RoutesMatch(slots, SortRoutes(routes, order), c, j) {
      assert RoutesMatch(slots, routes, c, j);
      SortRoutesCount(routes, order, c, j);
    }
  }

  predicate SamePriorities(a: seq<Slot>, b: seq<Slot>) {
    |a| == |b| && forall i | 0 <= i < |a| :: a[i].params.priority == b[i].params.priority
  }

  /** Order by priority depends on the priorities alone. */
  lemma OrderKept(a: seq<Slot>, b: seq<Slot>, routes: Routes)
    requires SamePriorities(a, b)
    ensures forall c | c in routes :: SortedBy(routes[c], ByPriority(a)) <==> SortedBy(routes[c], ByPriority(b))
  {
    assert forall x, y :: ByPriority(a)(x, y) == ByPriority(b)(x, y);
  }

  // ----- reload_instance -----

  lemma ReloadInstanceFailShape(st: State, i: nat, load: Load, limits: Limits)
    requires FilledAt(st.slots, i) && !ReloadInstance(st, i, load, limits).1
    ensures
      var after := ReloadInstance(st, i, load, limits).0;
      && after.slots == (if st.slots[i].reloadFailures >= limits.reloadFailures then st.slots
                         else CountFailure(st, i).slots)
      && after.routes == st.routes && after.hooks == st.hooks
      && (after.ticks == st.ticks || after.ticks == DropTicks(st.ticks, i) + SelectTicks(st.ticks, i))
  {
    Restored(st.ticks, st.counter, i, load.calls);
  }

  /**
   * A failed reload of a live plugin leaves its instance, every command route, the message hooks and the
   * registrations (as a multiset, and per plugin in order) as they were; only the failure counter moves.
   */
  lemma ReloadInstanceFails(st: State, i: nat, load: Load, limits: Limits)
    requires FilledAt(st.slots, i) && !ReloadInstance(st, i, load, limits).1
    ensures
      var after := ReloadInstance(st, i, load, limits).0;
      && after.slots == (if st.slots[i].reloadFailures >= limits.reloadFailures then st.slots
                         else CountFailure(st, i).slots)
      && after.routes == st.routes && after.hooks == st.hooks
      && multiset(after.ticks) == multiset(st.ticks)
      && forall j: nat :: TicksOf(after.ticks, j) == TicksOf(st.ticks, j)
  {
    var after := ReloadInstance(st, i, load, limits).0;
    ReloadInstanceFailShape(st, i, load, limits);
    DropAndSelect(st.ticks, i);
    forall j: nat ensures TicksOf(after.ticks, j) == TicksOf(st.ticks, j) {
      RestoredTicks(st.ticks, i, j);
    }
  }

  lemma ReloadInstanceTicks(st: State, i: nat, load: Load, limits: Limits, s: set<nat>)
    requires i < |st.slots| && TicksWithin(st.ticks, s)
    ensures
      var (after, ok) := ReloadInstance(st, i, load, limits);
      TicksWithin(after.ticks, if ok then s + {i} else s)
  {
    PartsWithin(st.ticks, i, s);
    Restored(st.ticks, st.counter, i, load.calls);
    ReplacedWithin(st.ticks, st.counter, i, load.calls, s + {i});
  }

  lemma ReloadInstanceSucceeds(st: State, i: nat, load: Load, limits: Limits)
    requires Valid(st) && NameFree(st.slots, i) && ReloadInstance(st, i, load, limits).1
    ensures
      var after := ReloadInstance(st, i, load, limits).0;
      && RoutesValid(after.slots, after.routes) && HooksValid(after.slots, after.hooks)
      && RoutesSorted(after)
  {
    var after := ReloadInstance(st, i, load, limits).0;
    var exports := load.built.value;
    IndexesReplaced(st.slots, after.slots, st.routes, st.hooks, i, exports);
    var added := AddRoutes(DropRoutes(st.routes, i), exports.commands, i);
    SortKeepsRoutes(after.slots, added, st.slots);
    SortRoutesSorted(st.(routes := added));
    OrderKept(st.slots, after.slots, after.routes);
  }

  lemma ReloadInstanceOwned(st: State, i: nat, load: Load, limits: Limits)
    requires NameFree(st.slots, i) && TicksOwned(st)
    ensures TicksOwned(ReloadInstance(st, i, load, limits).0)
  {
    var (after, ok) := ReloadInstance(st, i, load, limits);
    ReloadInstanceTicks(st, i, load, limits, Live(st.slots));
    hide RunCalls, AddRoutes, SortRoutes, DropRoutes, TicksWithin;
    assert Live(after.slots) == if ok then Live(st.slots) + {i} else Live(st.slots);
  }

  lemma ReloadInstanceSlotsValid(st: State, i: nat, load: Load, limits: Limits)
    requires SlotsValid(st.slots) && NameFree(st.slots, i)
    ensures
      var (after, ok) := ReloadInstance(st, i, load, limits);
      && SlotsValid(after.slots) && |after.slots| == |st.slots| && SamePriorities(st.slots, after.slots)
      && (!ok ==> NoNewInstances(st.slots, after.slots) && after.routes == st.routes && after.hooks == st.hooks)
  {
    hide RunCalls, AddRoutes, SortRoutes, DropRoutes;
  }

  /** Whatever comes of it, `reload_instance` keeps every index meaningful and the routes in order. */
  lemma ReloadInstanceKeeps(st: State, i: nat, load: Load, limits: Limits)
    requires Valid(st) && NameFree(st.slots, i)
    ensures
      var after := ReloadInstance(st, i, load, limits).0;
      && Valid(after)
      && (RoutesSorted(st) ==> RoutesSorted(after))
      && (TicksOwned(st) ==> TicksOwned(after))
  {
    var (after, ok) := ReloadInstance(st, i, load, limits);
    ReloadInstanceSlotsValid(st, i, load, limits);
    ReloadInstanceTicks(st, i, load, limits, Indices(|st.slots|));
    assert Indices(|st.slots|) + {i} == Indices(|st.slots|);
    if TicksOwned(st) {
      ReloadInstanceOwned(st, i, load, limits);
    }
    if ok {
      ReloadInstanceSucceeds(st, i, load, limits);
    }
    hide ReloadInstance, RoutesValid, HooksValid, SlotsValid, NoNewInstances;
    if !ok {
      IndexesKept(st.slots, after.slots, st.routes, st.hooks);
      OrderKept(st.slots, after.slots, st.routes);
    }
  }

  /** Whose registrations a reload that was attempted changes, and where it leaves the id counter. */
  lemma ReloadInstanceOwn(st: State, i: nat, load: Load, limits: Limits, j: nat)
    requires FilledAt(st.slots, i) && st.slots[i].reloadFailures < limits.reloadFailures
    ensures
      var (after, ok) := ReloadInstance(st, i, load, limits);
      && TicksOf(after.ticks, j)
           == (if ok && j == i then RunOwn([], st.counter, load.calls).0 else TicksOf(st.ticks, j))
      && after.counter == if load.built.None? then st.counter else RunOwn([], st.counter, load.calls).1
  {
    if !ReloadInstance(st, i, load, limits).1 {
      ReloadInstanceFails(st, i, load, limits);
    }
    ReplacedTicks(st.ticks, st.counter, i, load.calls, j);
  }

  /** The slot a reload that was attempted leaves behind; the others are as before. */
  lemma ReloadInstanceSlots(st: State, i: nat, load: Load, limits: Limits)
    requires FilledAt(st.slots, i) && st.slots[i].reloadFailures < limits.reloadFailures
    ensures
      var (after, ok) := ReloadInstance(st, i, load, limits);
      && ok == (load.built.Some? && load.loaded)
      && after.slots == st.slots[i :=
           if ok then st.slots[i].(
             instance := Some(Instance(load.tag, i, load.built.value)), lost := 0, reloadFailures := 0)
           else st.slots[i].(reloadFailures := SaturatingIncrement(st.slots[i].reloadFailures))]
  {
  }

  lemma ViewCounter(st: State)
    ensures ViewOf(st).counter == st.counter
  {
  }

  lemma ReloadInstanceBlocked(st: State, i: nat, load: Load, limits: Limits)
    requires FilledAt(st.slots, i) && st.slots[i].reloadFailures >= limits.reloadFailures
    ensures ReloadInstance(st, i, load, limits).0 == st
  {
  }

  lemma ReloadInstanceOnly(st: State, i: nat, load: Load, limits: Limits)
    requires FilledAt(st.slots, i) && st.slots[i].reloadFailures < limits.reloadFailures
    ensures OnlyAt(st, ReloadInstance(st, i, load, limits).0, i)
  {
    hide ReloadInstance, RunOwn, TicksOf;
    ReloadInstanceSlots(st, i, load, limits);
    forall j: nat | j != i
      ensures TicksOf(ReloadInstance(st, i, load, limits).0.ticks, j) == TicksOf(st.ticks, j)
    {
      ReloadInstanceOwn(st, i, load, limits, j);
    }
  }

  /** On a live plugin `reload_instance` is a replacement by name, with the same parameters. */
  lemma ReloadInstanceView(st: State, i: nat, load: Load, limits: Limits)
    requires Valid(st) && FilledAt(st.slots, i)
    ensures
      var slot := st.slots[i];
      slot.params.name in ViewOf(st).plugins
      && ViewOf(ReloadInstance(st, i, load, limits).0)
         == ViewReplace(ViewOf(st), slot.params.name, load, slot.params, slot.path, slot.mtime, limits)
  {
    ViewCounter(st);
    hide ReloadInstance, RoutesValid, HooksValid, RunOwn, TicksOf, OnlyAt, ViewOf;
    ViewHas(st, i);
    if st.slots[i].reloadFailures >= limits.reloadFailures {
      ReloadInstanceBlocked(st, i, load, limits);
    } else {
      ValidNameFree(st.slots, i);
      ReloadInstanceKeeps(st, i, load, limits);
      ReloadInstanceSlots(st, i, load, limits);
      ReloadInstanceOnly(st, i, load, limits);
      ReloadInstanceOwn(st, i, load, limits, i);
      ViewUpdated(st, ReloadInstance(st, i, load, limits).0, i);
    }
  }

  // ----- removals -----

  lemma RemoveOneSlots(st: State, i: nat, outcome: Outcome)
    requires FilledAt(st.slots, i)
    ensures
      var after := RemoveOne(st, i, outcome);
      && |after.slots| == |st.slots|
      && (forall j | 0 <= j < |st.slots| && j != i :: after.slots[j] == st.slots[j])
      && after.slots[i].params == st.slots[i].params && !Filled(after.slots[i])
      && after.routes == DropRoutes(st.routes, i) && after.hooks == st.hooks - {i}
      && after.ticks == DropTicks(st.ticks, i) && after.counter == st.counter
  {
  }

  lemma RemoveOneKeeps(st: State, i: nat, outcome: Outcome)
    requires Valid(st) && FilledAt(st.slots, i)
    ensures Valid(RemoveOne(st, i, outcome))
    ensures TicksOwned(RemoveOne(st, i, outcome)) <==> TicksOwned(st)
  {
    var after := RemoveOne(st, i, outcome);
    RemoveOneSlots(st, i, outcome);
    hide RemoveOne;
    IndexesDropped(st.slots, after.slots, st.routes, st.hooks, i);
    PartsWithin(st.ticks, i, Indices(|st.slots|));
    forall j: nat ensures StaleAt(after, j) <==> StaleAt(st, j) {
      TicksOfDrop(st.ticks, i, j);
    }
    SameStale(after, st);
  }

  lemma RemoveOneView(st: State, i: nat, outcome: Outcome)
    requires Valid(st) && FilledAt(st.slots, i)
    ensures ViewOf(RemoveOne(st, i, outcome))
         == ViewOf(st).(plugins := ViewOf(st).plugins - {st.slots[i].params.name})
  {
    hide RemoveOne, RoutesValid, HooksValid, TicksOf, DropTicks, TicksWithin;
    var after := RemoveOne(st, i, outcome);
    RemoveOneSlots(st, i, outcome);
    var name := st.slots[i].params.name;
    var v := ViewOf(st).(plugins := ViewOf(st).plugins - {name});
    OldMapUnique(st.slots);
    forall j | 0 <= j < |after.slots| && Filled(after.slots[j])
      ensures after.slots[j].params.name in v.plugins
      ensures v.plugins[after.slots[j].params.name] == PluginAt(after.slots, after.ticks, j)
    {
      ViewHas(st, j);
      TicksOfDrop(st.ticks, i, j);
    }
    forall n | n in v.plugins
      ensures exists k :: 0 <= k < |after.slots| && Filled(after.slots[k]) && after.slots[k].params.name == n
    {
      var k := OldMap(st.slots)[n];
      assert Filled(after.slots[k]) && after.slots[k].params.name == n;
    }
    ViewIs(after, v);
  }

  predicate LiveIndices(slots: seq<Slot>, indices: seq<nat>) {
    && (forall k | 0 <= k < |indices| :: FilledAt(slots, indices[k]))
    && (forall k, l | 0 <= k < l < |indices| :: indices[k] != indices[l])
  }

  function NamesAt(slots: seq<Slot>, indices: seq<nat>): set<string>
    requires LiveIndices(slots, indices)
  {
    set k | 0 <= k < |indices| :: slots[indices[k]].params.name
  }

  lemma NamesAtLast(slots: seq<Slot>, after: seq<Slot>, indices: seq<nat>)
    requires LiveIndices(slots, indices) && indices != []
    requires |after| == |slots|
    requires forall j | 0 <= j < |slots| && j != indices[|indices| - 1] :: after[j] == slots[j]
    ensures LiveIndices(after, indices[..|indices| - 1])
    ensures NamesAt(slots, indices)
         == NamesAt(after, indices[..|indices| - 1]) + {slots[indices[|indices| - 1]].params.name}
  {
    var last := |indices| - 1;
    var init := indices[..last];
    assert forall k | 0 <= k < last :: init[k] == indices[k] && after[init[k]] == slots[indices[k]];
    forall n | n in NamesAt(slots, indices) ensures n in NamesAt(after, init) + {slots[indices[last]].params.name} {
      var k :| 0 <= k < |indices| && slots[indices[k]].params.name == n;
      if k < last {
        assert after[init[k]].params.name == n;
      }
    }
  }

  /** One removal, with the list of removals still to come. */
  lemma RemoveOneOf(st: State, indices: seq<nat>, outcome: Outcome)
    requires Valid(st) && LiveIndices(st.slots, indices) && indices != []
    ensures
      var last := |indices| - 1;
      var next := RemoveOne(st, indices[last], outcome);
      && Valid(next) && (TicksOwned(next) <==> TicksOwned(st))
      && |next.slots| == |st.slots|
      && (forall j: nat | j < |st.slots| && j !in indices :: next.slots[j] == st.slots[j])
      && LiveIndices(next.slots, indices[..last])
      && next.counter == st.counter
    ensures
      var last := |indices| - 1;
      var next := RemoveOne(st, indices[last], outcome);
      ViewOf(next).plugins - NamesAt(next.slots, indices[..last]) == ViewOf(st).plugins - NamesAt(st.slots, indices)
  {
    var last := |indices| - 1;
    var i := indices[last];
    RemoveOneSlots(st, i, outcome);
    RemoveOneKeeps(st, i, outcome);
    RemoveOneView(st, i, outcome);
    var next := RemoveOne(st, i, outcome);
    NamesAtLast(st.slots, next.slots, indices);
    MinusTwice(ViewOf(st).plugins, {st.slots[i].params.name}, NamesAt(next.slots, indices[..last]));
  }

  lemma MinusTwice<K, V>(m: map<K, V>, a: set<K>, b: set<K>)
    ensures m - a - b == m - (b + a)
  {
  }

  ghost predicate RemovedFrom(st: State, indices: seq<nat>, after: State)
    requires LiveIndices(st.slots, indices)
  {
    && Valid(after) && (TicksOwned(after) <==> TicksOwned(st))
    && |after.slots| == |st.slots|
    && (forall j: nat | j < |st.slots| && j !in indices :: after.slots[j] == st.slots[j])
    && after.counter == st.counter
    && ViewOf(after).plugins == ViewOf(st).plugins - NamesAt(st.slots, indices)
  }

  lemma {:induction false} RemoveAllKeeps(st: State, indices: seq<nat>, unload: nat -> Outcome)
    requires Valid(st) && LiveIndices(st.slots, indices)
    ensures RemovedFrom(st, indices, RemoveAll(st, indices, unload))
    decreases |indices|
  {
    if indices == [] {
      assert ViewOf(st).plugins - NamesAt(st.slots, indices) == ViewOf(st).plugins;
    } else {
      var init, i := indices[..|indices| - 1], indices[|indices| - 1];
      var next := RemoveOne(st, i, unload(i));
      RemoveOneOf(st, indices, unload(i));
      RemoveAllKeeps(next, init, unload);
      RemovedStep(st, indices, next, RemoveAll(next, init, unload));
    }
  }

  lemma RemovedStep(st: State, indices: seq<nat>, next: State, after: State)
    requires LiveIndices(st.slots, indices) && indices != []
    requires |next.slots| == |st.slots| && next.counter == st.counter
    requires TicksOwned(next) <==> TicksOwned(st)
    requires forall j: nat | j < |st.slots| && j !in indices :: next.slots[j] == st.slots[j]
    requires LiveIndices(next.slots, indices[..|indices| - 1])
    requires ViewOf(next).plugins - NamesAt(next.slots, indices[..|indices| - 1])
          == ViewOf(st).plugins - NamesAt(st.slots, indices)
    requires RemovedFrom(next, indices[..|indices| - 1], after)
    ensures RemovedFrom(st, indices, after)
  {
  }

  lemma {:induction false} ToRemoveAll(slots: seq<Slot>, keep: set<string>, n: nat)
    requires SlotsValid(slots) && n <= |slots|
    ensures forall i: nat | i < n && Filled(slots[i]) && slots[i].params.name !in keep :: i in ToRemove(slots, keep, n)
  {
    if n > 0 {
      ToRemoveAll(slots, keep, n - 1);
      OldMapUnique(slots);
    }
  }

  lemma RemovedNames(st: State, keep: set<string>)
    requires SlotsValid(st.slots)
    ensures
      var indices := ToRemove(st.slots, keep, |st.slots|);
      && LiveIndices(st.slots, indices)
      && ViewOf(st).plugins - NamesAt(st.slots, indices) == ViewRemove(ViewOf(st), keep).plugins
  {
    var indices := ToRemove(st.slots, keep, |st.slots|);
    ToRemoveAll(st.slots, keep, |st.slots|);
    OldMapUnique(st.slots);
    var p := ViewOf(st).plugins;
    forall n | n in p ensures n in NamesAt(st.slots, indices) <==> n !in keep {
      var i := OldMap(st.slots)[n];
      if n !in keep {
        assert i in indices;
        var k :| 0 <= k < |indices| && indices[k] == i;
        assert st.slots[indices[k]].params.name == n;
      }
    }
  }

  /** The removal phase forgets exactly the plugins that are not kept. */
  lemma RemovalsView(st: State, keep: set<string>, unload: nat -> Outcome)
    requires Valid(st)
    ensures
      var after := RemoveAll(st, ToRemove(st.slots, keep, |st.slots|), unload);
      && Valid(after) && (TicksOwned(after) <==> TicksOwned(st))
      && |after.slots| == |st.slots|
      && (forall j | 0 <= j < |st.slots| && Filled(st.slots[j]) && st.slots[j].params.name in keep ::
            after.slots[j] == st.slots[j])
      && ViewOf(after) == ViewRemove(ViewOf(st), keep)
  {
    RemovedNames(st, keep);
    RemoveAllKeeps(st, ToRemove(st.slots, keep, |st.slots|), unload);
  }

  // ----- additions -----

  lemma AddOneKeeps(st: State, c: Candidate)
    requires Valid(st) && c.params.name !in ViewOf(st).plugins
    ensures
      var after := AddOne(st, c);
      && Valid(after) && (TicksOwned(after) <==> TicksOwned(st))
      && |after.slots| >= |st.slots|
      && (forall j | 0 <= j < |st.slots| :: after.slots[j] == st.slots[j])
      && ViewOf(after) == ViewAdd(ViewOf(st), c)
  {
    var i := |st.slots|;
    if c.path.Some? && c.compiles && c.load.built.Some? {
      NothingBeyond(st);
      DropTicksNone(st.ticks, i);
      RunCallsDrop(st.ticks, st.counter, i, c.load.calls);
      ReplacedTicks(st.ticks, st.counter, i, c.load.calls, i);
      if c.load.loaded {
        AddedSlot(st, c);
        AddedView(st, c);
      }
    }
  }

  lemma AddedSlot(st: State, c: Candidate)
    requires Valid(st) && c.params.name !in ViewOf(st).plugins
    requires c.path.Some? && c.compiles && c.load.built.Some? && c.load.loaded
    ensures Valid(AddOne(st, c)) && (TicksOwned(AddOne(st, c)) <==> TicksOwned(st))
  {
    var after := AddOne(st, c);
    var i := |st.slots|;
    OldMapUnique(st.slots);
    IndexesAppended(st.slots, after.slots, st.routes, st.hooks, c.load.built.value);
    HooksValidBelow(st.slots, st.hooks);
    RunCallsWithin(st.ticks, st.counter, i, c.load.calls, Indices(|after.slots|));
    NothingBeyond(st);
    forall j: nat ensures StaleAt(after, j) <==> StaleAt(st, j) {
      RunCallsIsOwn(st.ticks, st.counter, i, c.load.calls, j);
    }
    SameStale(after, st);
  }

  /** No tick has an index past the table. */
  lemma NothingBeyond(st: State)
    requires TicksWithin(st.ticks, Indices(|st.slots|))
    ensures forall t | t in st.ticks :: t.idx != |st.slots|
    ensures TicksOf(st.ticks, |st.slots|) == []
  {
    NoTicksOf(st.ticks, |st.slots|);
  }

  lemma HooksValidBelow(slots: seq<Slot>, hooks: set<nat>)
    requires HooksValid(slots, hooks)
    ensures WithHook(hooks, |slots|, false) == hooks
  {
    assert HookMatches(slots, hooks, |slots|);
  }

  lemma AddedView(st: State, c: Candidate)
    requires Valid(st) && c.params.name !in ViewOf(st).plugins
    requires c.path.Some? && c.compiles && c.load.built.Some? && c.load.loaded
    requires Valid(AddOne(st, c))
    ensures ViewOf(AddOne(st, c)) == ViewAdd(ViewOf(st), c)
  {
    var after := AddOne(st, c);
    var i := |st.slots|;
    NothingBeyond(st);
    DropTicksNone(st.ticks, i);
    ReplacedTicks(st.ticks, st.counter, i, c.load.calls, i);
    var v := ViewAdd(ViewOf(st), c);
    forall j | 0 <= j < |after.slots| && Filled(after.slots[j])
      ensures after.slots[j].params.name in v.plugins
      ensures v.plugins[after.slots[j].params.name] == PluginAt(after.slots, after.ticks, j)
    {
      ReplacedTicks(st.ticks, st.counter, i, c.load.calls, j);
      if j < i {
        ViewHas(st, j);
      }
    }
    forall n | n in v.plugins
      ensures exists k :: 0 <= k < |after.slots| && Filled(after.slots[k]) && after.slots[k].params.name == n
    {
      var k := if n == c.params.name then i else OldMap(st.slots)[n];
      assert Filled(after.slots[k]) && after.slots[k].params.name == n;
    }
    ViewIs(after, v);
  }

  lemma {:induction false} ViewAddAllKeys(v: View, cs: seq<Candidate>)
    ensures v.plugins.Keys <= ViewAddAll(v, cs).plugins.Keys <= v.plugins.Keys + NamesOf(cs)
    decreases |cs|
  {
    if cs != [] {
      var last := |cs| - 1;
      ViewAddAllKeys(v, cs[..last]);
      NamesOfInit(cs);
    }
  }

  lemma NamesOfInit(cs: seq<Candidate>)
    requires cs != []
    ensures NamesOf(cs) == NamesOf(cs[..|cs| - 1]) + {cs[|cs| - 1].params.name}
    ensures DistinctNames(cs) ==> cs[|cs| - 1].params.name !in NamesOf(cs[..|cs| - 1])
  {
    var last := |cs| - 1;
    forall n ensures n in NamesOf(cs) <==> n in NamesOf(cs[..last]) + {cs[last].params.name} {
      if n in NamesOf(cs) {
        var k :| 0 <= k < |cs| && cs[k].params.name == n;
        assert k < last ==> cs[..last][k].params.name == n;
      }
      if n in NamesOf(cs[..last]) {
        var k :| 0 <= k < last && cs[..last][k].params.name == n;
        assert cs[k].params.name == n;
      }
      assert cs[last].params.name in NamesOf(cs);
    }
  }

  lemma ToAddNames(enabled: seq<Candidate>, known: set<string>)
    ensures NamesOf(ToAdd(enabled, known)) !! known
  {
    var r := ToAdd(enabled, known);
    forall n | n in NamesOf(r) ensures n !in known {
      var k :| 0 <= k < |r| && r[k].params.name == n;
      assert r[k] in r;
    }
  }

  lemma {:induction false} AddAllKeeps(st: State, cs: seq<Candidate>)
    requires Valid(st)
    requires DistinctNames(cs) && NamesOf(cs) !! ViewOf(st).plugins.Keys
    ensures
      var after := AddAll(st, cs);
      && Valid(after) && (TicksOwned(after) <==> TicksOwned(st))
      && |after.slots| >= |st.slots|
      && (forall j | 0 <= j < |st.slots| :: after.slots[j] == st.slots[j])
      && ViewOf(after) == ViewAddAll(ViewOf(st), cs)
    decreases |cs|
  {
    if cs != [] {
      var last := |cs| - 1;
      NamesOfInit(cs);
      AddAllKeeps(st, cs[..last]);
      ViewAddAllKeys(ViewOf(st), cs[..last]);
      AddOneKeeps(AddAll(st, cs[..last]), cs[last]);
    }
  }

  // ----- replacements -----

  predicate ReloadAttempted(st: State, c: Candidate, i: nat, limits: Limits) {
    i < |st.slots| && st.slots[i].reloadFailures < limits.reloadFailures && c.path.Some? && c.compiles
  }

  predicate ReloadWorks(c: Candidate) {
    c.load.built.Some? && c.load.loaded
  }

  lemma ReloadOneShape(st: State, c: Candidate, i: nat, outcome: Outcome, limits: Limits)
    requires FilledAt(st.slots, i) && ReloadAttempted(st, c, i, limits)
    ensures
      var after := ReloadOne(st, c, i, outcome, limits);
      && |after.slots| == |st.slots|
      && (forall j | 0 <= j < |st.slots| && j != i :: after.slots[j] == st.slots[j])
      && (ReloadWorks(c) ==>
            && after.slots[i]
                 == Slot(Some(Instance(c.load.tag, i, c.load.built.value)), c.params, c.path.value, c.mtime, 0, 0)
            && after.routes == AddRoutes(DropRoutes(st.routes, i), c.load.built.value.commands, i)
            && after.hooks == WithHook(st.hooks, i, c.load.built.value.onMessage)
            && (after.ticks, after.counter) == RunCalls(DropTicks(st.ticks, i), st.counter, i, c.load.calls))
      && (!ReloadWorks(c) ==>
            && after.slots == CountFailure(st, i).slots
            && after.routes == st.routes && after.hooks == st.hooks
            && (after.ticks == st.ticks || after.ticks == DropTicks(st.ticks, i) + SelectTicks(st.ticks, i))
            && after.counter == if c.load.built.None? then st.counter
                                else RunCalls(DropTicks(st.ticks, i), st.counter, i, c.load.calls).1)
  {
    Restored(st.ticks, st.counter, i, c.load.calls);
  }

  /** The same promise as `ReloadInstanceFails`, for a reload that is part of `reload_all`. */
  lemma ReloadOneFails(st: State, c: Candidate, i: nat, outcome: Outcome, limits: Limits)
    requires FilledAt(st.slots, i) && !(ReloadAttempted(st, c, i, limits) && ReloadWorks(c))
    ensures
      var after := ReloadOne(st, c, i, outcome, limits);
      && after.slots == (if ReloadAttempted(st, c, i, limits) then CountFailure(st, i).slots else st.slots)
      && after.routes == st.routes && after.hooks == st.hooks
      && multiset(after.ticks) == multiset(st.ticks)
      && forall j: nat :: TicksOf(after.ticks, j) == TicksOf(st.ticks, j)
  {
    var after := ReloadOne(st, c, i, outcome, limits);
    if ReloadAttempted(st, c, i, limits) {
      ReloadOneShape(st, c, i, outcome, limits);
    }
    DropAndSelect(st.ticks, i);
    forall j: nat ensures TicksOf(after.ticks, j) == TicksOf(st.ticks, j) {
      RestoredTicks(st.ticks, i, j);
    }
  }

  lemma ReloadOneValid(st: State, c: Candidate, i: nat, outcome: Outcome, limits: Limits)
    requires Valid(st) && FilledAt(st.slots, i) && st.slots[i].params.name == c.params.name
    requires ReloadAttempted(st, c, i, limits)
    ensures Valid(ReloadOne(st, c, i, outcome, limits))
  {
    var after := ReloadOne(st, c, i, outcome, limits);
    ReloadOneShape(st, c, i, outcome, limits);
    if ReloadWorks(c) {
      IndexesReplaced(st.slots, after.slots, st.routes, st.hooks, i, c.load.built.value);
      ReplacedWithin(st.ticks, st.counter, i, c.load.calls, Indices(|st.slots|));
    } else {
      IndexesKept(st.slots, after.slots, st.routes, st.hooks);
      PartsWithin(st.ticks, i, Indices(|st.slots|));
    }
  }

  lemma ReloadOneStale(st: State, c: Candidate, i: nat, outcome: Outcome, limits: Limits)
    requires FilledAt(st.slots, i) && ReloadAttempted(st, c, i, limits)
    ensures TicksOwned(ReloadOne(st, c, i, outcome, limits)) <==> TicksOwned(st)
  {
    var after := ReloadOne(st, c, i, outcome, limits);
    ReloadOneShape(st, c, i, outcome, limits);
    if !ReloadWorks(c) {
      ReloadOneFails(st, c, i, outcome, limits);
    }
    hide ReloadOne, RunCalls;
    forall j: nat ensures StaleAt(after, j) <==> StaleAt(st, j) {
      ReplacedTicks(st.ticks, st.counter, i, c.load.calls, j);
    }
    SameStale(after, st);
  }

  lemma ReloadOneView(st: State, c: Candidate, i: nat, outcome: Outcome, limits: Limits)
    requires Valid(st) && FilledAt(st.slots, i) && st.slots[i].params.name == c.params.name
    requires ReloadAttempted(st, c, i, limits) && Valid(ReloadOne(st, c, i, outcome, limits))
    ensures ViewOf(ReloadOne(st, c, i, outcome, limits)) == ViewReload(ViewOf(st), c, limits)
  {
    hide RoutesValid, HooksValid, RunCalls, AddRoutes, DropRoutes;
    var after := ReloadOne(st, c, i, outcome, limits);
    ReloadOneShape(st, c, i, outcome, limits);
    ViewHas(st, i);
    if !ReloadWorks(c) {
      ReloadOneFails(st, c, i, outcome, limits);
    }
    forall j: nat ensures TicksOf(after.ticks, j)
      == if ReloadWorks(c) && j == i then RunOwn([], st.counter, c.load.calls).0 else TicksOf(st.ticks, j)
    {
      ReplacedTicks(st.ticks, st.counter, i, c.load.calls, j);
    }
    ReplacedTicks(st.ticks, st.counter, i, c.load.calls, i);
    ViewUpdated(st, after, i);
  }

  lemma ReloadOneKeeps(st: State, c: Candidate, i: nat, outcome: Outcome, limits: Limits)
    requires Valid(st) && FilledAt(st.slots, i) && st.slots[i].params.name == c.params.name
    ensures
      var after := ReloadOne(st, c, i, outcome, limits);
      && Valid(after) && (TicksOwned(after) <==> TicksOwned(st))
      && NamesStay(st.slots, after.slots)
      && ViewOf(after) == ViewReload(ViewOf(st), c, limits)
  {
    ViewHas(st, i);
    var after := ReloadOne(st, c, i, outcome, limits);
    if ReloadAttempted(st, c, i, limits) {
      ReloadOneShape(st, c, i, outcome, limits);
      assert NamesStay(st.slots, after.slots);
      ReloadOneValid(st, c, i, outcome, limits);
      ReloadOneStale(st, c, i, outcome, limits);
      ReloadOneView(st, c, i, outcome, limits);
    } else {
      assert after == st;
    }
  }

  /** No slot changes its name and no live slot is emptied. */
  predicate NamesStay(a: seq<Slot>, b: seq<Slot>) {
    |a| == |b| && forall j | 0 <= j < |a| ::
      (Filled(a[j]) ==> Filled(b[j])) && b[j].params.name == a[j].params.name
  }

  /** Every remembered index still holds the live plugin it was remembered for. */
  predicate StillAt(cs: seq<Candidate>, oldMap: map<string, nat>, slots: seq<Slot>) {
    forall k | 0 <= k < |cs| ::
      cs[k].params.name in oldMap
      && FilledAt(slots, oldMap[cs[k].params.name])
      && slots[oldMap[cs[k].params.name]].params.name == cs[k].params.name
  }

  lemma {:induction false} ReloadEachKeeps(
      st: State, cs: seq<Candidate>, oldMap: map<string, nat>, unload: nat -> Outcome, limits: Limits)
    requires Valid(st) && StillAt(cs, oldMap, st.slots)
    ensures
      var after := ReloadEach(st, cs, oldMap, unload, limits);
      && Valid(after) && (TicksOwned(after) <==> TicksOwned(st))
      && NamesStay(st.slots, after.slots)
      && ViewOf(after) == ViewReloadEach(ViewOf(st), cs, limits)
    decreases |cs|
  {
    if cs != [] {
      var last := |cs| - 1;
      ReloadEachKeeps(st, cs[..last], oldMap, unload, limits);
      var i := oldMap[cs[last].params.name];
      ReloadOneKeeps(ReloadEach(st, cs[..last], oldMap, unload, limits), cs[last], i, unload(i), limits);
    }
  }

  lemma {:induction false} ToReloadIsView(enabled: seq<Candidate>, st: State)
    requires SlotsValid(st.slots)
    ensures ToReload(enabled, st.slots) == ViewToReload(enabled, ViewOf(st).plugins)
  {
    if enabled != [] {
      ToReloadIsView(enabled[1..], st);
    }
  }
}

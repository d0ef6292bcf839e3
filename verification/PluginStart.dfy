/** Start-up: how the manager is first built, and that it begins with every index meaningful. */
module PluginStart {
  import opened Wrappers
  import opened StableSort
  import opened PluginState
  import opened PluginReload
  import opened PluginReloadProofs
  import opened PluginOutcomes
  import PluginHost

  predicate ByCandidatePriority(a: Candidate, b: Candidate) {
    a.params.priority >= b.params.priority
  }

  ghost predicate ListedBefore(enabled: seq<Candidate>, a: Candidate, b: Candidate) {
    exists k, l :: 0 <= k < l < |enabled| && enabled[k] == a && enabled[l] == b
  }

  /** Higher priorities come first, and equal ones in the order of the configuration. */
  ghost predicate InStartOrder(cs: seq<Candidate>, enabled: seq<Candidate>) {
    forall i, j | 0 <= i < j < |cs| ::
      || cs[i].params.priority > cs[j].params.priority
      || (cs[i].params.priority == cs[j].params.priority && ListedBefore(enabled, cs[i], cs[j]))
  }

  lemma SortedForStart(enabled: seq<Candidate>)
    ensures InStartOrder(SortBy(enabled, ByCandidatePriority), enabled)
  {
    var cs := SortBy(enabled, ByCandidatePriority);
    var listed := (a, b) => ListedBefore(enabled, a, b);
    forall i, j | 0 <= i < j < |enabled| ensures listed(enabled[i], enabled[j]) {
      assert ListedBefore(enabled, enabled[i], enabled[j]);
    }
    SortBySorted(enabled, ByCandidatePriority);
    SortByStable(enabled, ByCandidatePriority, listed);
    forall i, j | 0 <= i < j < |cs|
      ensures cs[i].params.priority > cs[j].params.priority
        || (cs[i].params.priority == cs[j].params.priority && ListedBefore(enabled, cs[i], cs[j]))
    {
      assert ByCandidatePriority(cs[i], cs[j]);
      assert ByCandidatePriority(cs[j], cs[i]) ==> listed(cs[i], cs[j]);
    }
  }

  /** Start-up goes through exactly when names are distinct and every enabled plugin loads. */
  predicate Startable(enabled: seq<Candidate>) {
    DistinctNames(enabled) && AllLoad(enabled)
  }

  predicate AllLoad(cs: seq<Candidate>) {
    forall i | 0 <= i < |cs| :: Loads(cs[i])
  }

  function SlotFor(c: Candidate, i: nat): Slot
    requires Loads(c)
  {
    Slot(Some(Instance(c.load.tag, i, c.load.built.value)), c.params, c.path.value, c.mtime, 0, 0)
  }

  /** All instances are in place, none has run `on_load` yet. */
  function PlaceAll(cs: seq<Candidate>): State
    requires AllLoad(cs)
  {
    if cs == [] then State([], map[], {}, [], 0)
    else
      var i := |cs| - 1;
      var st := PlaceAll(cs[..i]);
      var exports := cs[i].load.built.value;
      State(st.slots + [SlotFor(cs[i], i)], AddRoutes(st.routes, exports.commands, i),
            WithHook(st.hooks, i, exports.onMessage), [], 0)
  }

  /** Registry and id counter after the first `n` instances have run `on_load`. */
  function LoadFirst(cs: seq<Candidate>, n: nat): (seq<Tick>, nat)
    requires n <= |cs|
  {
    if n == 0 then ([], 0)
    else
      var (ticks, counter) := LoadFirst(cs, n - 1);
      RunCalls(ticks, counter, n - 1, cs[n - 1].load.calls)
  }

  function Started(cs: seq<Candidate>): State
    requires AllLoad(cs)
  {
    var placed := PlaceAll(cs);
    var (ticks, counter) := LoadFirst(cs, |cs|);
    State(placed.slots, SortRoutes(placed.routes, placed.slots), placed.hooks, ticks, counter)
  }

  lemma {:induction false} PlacedSlots(cs: seq<Candidate>)
    requires AllLoad(cs)
    ensures
      var st := PlaceAll(cs);
      && |st.slots| == |cs|
      && (forall i | 0 <= i < |cs| :: st.slots[i] == SlotFor(cs[i], i))
      && RoutesValid(st.slots, st.routes) && HooksValid(st.slots, st.hooks)
  {
    var st := PlaceAll(cs);
    if cs == [] {
      forall c: string, i: nat ensures RoutesMatch(st.slots, st.routes, c, i) {
      }
      forall i: nat ensures HookMatches(st.slots, st.hooks, i) {
      }
    } else {
      var last := |cs| - 1;
      PlacedSlots(cs[..last]);
      var before := PlaceAll(cs[..last]);
      IndexesAppended(before.slots, st.slots, before.routes, before.hooks, cs[last].load.built.value);
    }
  }

  lemma {:induction false} LoadedTicks(cs: seq<Candidate>, n: nat, j: nat)
    requires n <= |cs|
    ensures TicksWithin(LoadFirst(cs, n).0, Indices(n))
    ensures j >= n ==> TicksOf(LoadFirst(cs, n).0, j) == []
    ensures j < n ==> exists counter: nat ::
      TicksOf(LoadFirst(cs, n).0, j) == RunOwn([], counter, cs[j].load.calls).0
  {
    if n > 0 {
      LoadedTicks(cs, n - 1, j);
      LoadedTicks(cs, n - 1, n - 1);
      var (ticks, counter) := LoadFirst(cs, n - 1);
      RunCallsIsOwn(ticks, counter, n - 1, cs[n - 1].load.calls, j);
      RunCallsWithin(ticks, counter, n - 1, cs[n - 1].load.calls, Indices(n));
    }
  }

  /** The host starts with every index in range and denoting its plugin, and with sorted routes. */
  lemma StartedValid(cs: seq<Candidate>)
    requires Startable(cs)
    ensures
      var st := Started(cs);
      && Valid(st) && AllFilled(st.slots) && TicksOwned(st) && RoutesSorted(st)
      && |st.slots| == |cs|
      && forall i | 0 <= i < |cs| :: st.slots[i] == SlotFor(cs[i], i)
  {
    var st := Started(cs);
    var placed := PlaceAll(cs);
    PlacedSlots(cs);
    LoadedTicks(cs, |cs|, 0);
    SortKeepsRoutes(placed.slots, placed.routes, placed.slots);
    SortRoutesSorted(placed);
    assert Live(st.slots) == Indices(|cs|);
  }

  /** Seen by name, the host starts with exactly the enabled plugins, each freshly loaded. */
  lemma StartedView(cs: seq<Candidate>, n: string)
    requires Startable(cs)
    ensures
      var v := ViewOf(Started(cs)).plugins;
      match CandidateNamed(cs, n)
      case None => n !in v
      case Some(c) => Loads(c) && n in v && FreshlyLoaded(v[n], c)
  {
    var st := Started(cs);
    StartedValid(cs);
    NamedIn(cs, n);
    OldMapUnique(st.slots);
    var m := OldMap(st.slots);
    assert n in m ==> cs[m[n]].params.name == n;
    var c := CandidateNamed(cs, n);
    if c.Some? {
      var i :| 0 <= i < |cs| && cs[i] == c.value;
      ViewHas(st, i);
      LoadedTicks(cs, |cs|, i);
      var counter: nat :| TicksOf(LoadFirst(cs, |cs|).0, i) == RunOwn([], counter, cs[i].load.calls).0;
    }
  }

  predicate Compiled(c: Candidate) {
    c.path.Some? && c.compiles
  }

  /** The first loop of `new`: distinct names, resolvable paths, modules that compile. */
  method CheckBlueprints(enabled: seq<Candidate>) returns (ok: bool)
    ensures ok <==> DistinctNames(enabled) && forall i | 0 <= i < |enabled| :: Compiled(enabled[i])
  {
    var seen: set<string> := {};
    var k := 0;
    while k < |enabled|
      invariant 0 <= k <= |enabled|
      invariant DistinctNames(enabled[..k]) && seen == NamesOf(enabled[..k])
      invariant forall j | 0 <= j < k :: Compiled(enabled[j])
    {
      assert enabled[..k + 1][..k] == enabled[..k];
      NamesOfInit(enabled[..k + 1]);
      if enabled[k].params.name in seen {
        var j :| 0 <= j < k && enabled[..k][j].params.name == enabled[k].params.name;
        assert enabled[j].params.name == enabled[k].params.name;
        return false;
      }
      if enabled[k].path.None? || !enabled[k].compiles {
        assert !Compiled(enabled[k]);
        return false;
      }
      seen := seen + {enabled[k].params.name};
      k := k + 1;
    }
    assert enabled[..k] == enabled;
    return true;
  }

  /** The second loop of `new`: one instance per blueprint, with its routes and hook; none has loaded yet. */
  method PlaceBlueprints(cs: seq<Candidate>) returns (ok: bool, slots: seq<Slot>, routes: Routes, hooks: set<nat>)
    requires forall i | 0 <= i < |cs| :: Compiled(cs[i])
    ensures ok <==> forall i | 0 <= i < |cs| :: cs[i].load.built.Some?
    ensures ok && AllLoad(cs) ==> State(slots, routes, hooks, [], 0) == PlaceAll(cs)
  {
    slots, routes, hooks := [], map[], {};
    var k := 0;
    while k < |cs|
      invariant 0 <= k <= |cs| && |slots| == k
      invariant forall j | 0 <= j < k :: cs[j].load.built.Some?
      invariant forall h | h in hooks :: h < k
      invariant AllLoad(cs[..k]) ==> State(slots, routes, hooks, [], 0) == PlaceAll(cs[..k])
    {
      if cs[k].load.built.None? {
        return false, [], map[], {};
      }
      assert cs[..k + 1][..k] == cs[..k];
      assert AllLoad(cs[..k + 1]) ==> AllLoad(cs[..k]) by {
        assert forall j | 0 <= j < k :: cs[..k][j] == cs[..k + 1][j];
      }
      assert hooks - {k} == hooks;
      var exports := cs[k].load.built.value;
      routes := AddRoutes(routes, exports.commands, k);
      if exports.onMessage {
        hooks := hooks + {k};
      }
      var inst := Instance(cs[k].load.tag, k, exports);
      slots := slots + [Slot(Some(inst), cs[k].params, cs[k].path.value, cs[k].mtime, 0, 0)];
      k := k + 1;
    }
    assert cs[..k] == cs;
    ok := true;
  }

  /** The third loop of `new`: `on_load` of every instance, in slot order. */
  method LoadPlaced(manager: PluginHost.PluginManager, cs: seq<Candidate>) returns (ok: bool)
    requires manager.tickRegistry == [] && manager.tickIdCounter == 0
    modifies manager
    ensures ok <==> forall j | 0 <= j < |cs| :: cs[j].load.loaded
    ensures ok ==>
      manager.State() == old(manager.State()).(ticks := LoadFirst(cs, |cs|).0, counter := LoadFirst(cs, |cs|).1)
  {
    var k := 0;
    while k < |cs|
      invariant 0 <= k <= |cs|
      invariant forall j | 0 <= j < k :: cs[j].load.loaded
      invariant manager.State() == old(manager.State()).(ticks := LoadFirst(cs, k).0, counter := LoadFirst(cs, k).1)
    {
      var loaded := manager.OnLoad(k, cs[k].load);
      if !loaded {
        return false;
      }
      k := k + 1;
    }
    ok := true;
  }

  /** `new`: build, place and load every enabled plugin in priority order; any failure fails the start. */
  method New(config: seq<Candidate>, limits: Limits) returns (r: Option<PluginHost.PluginManager>)
    ensures r.Some? <==> Startable(Enabled(config))
    ensures r.Some? ==>
      var cs := SortBy(Enabled(config), ByCandidatePriority);
      && InStartOrder(cs, Enabled(config))
      && fresh(r.value) && r.value.limits == limits
      && Startable(cs) && r.value.State() == Started(cs)
      && RoutesFall(r.value.commandMap, r.value.slots)
  {
    var enabled := Enabled(config);
    var ok := CheckBlueprints(enabled);
    if !ok {
      return None;
    }
    var cs := SortBy(enabled, ByCandidatePriority);
    SortByMembers(enabled, ByCandidatePriority);
    SortedForStart(enabled);
    hide InStartOrder;
    SortedDistinct(enabled, cs);
    SortedLoads(enabled, cs);
    forall j | 0 <= j < |cs| ensures Compiled(cs[j]) {
      assert cs[j] in enabled;
    }
    var placed, slots, routes, hooks := PlaceBlueprints(cs);
    if !placed {
      return None;
    }
    var manager := new PluginHost.PluginManager(slots, routes, hooks, [], 0, limits);
    var loaded := LoadPlaced(manager, cs);
    if !loaded {
      return None;
    }
    assert AllLoad(cs);
    manager.ReserializeCommandMap();
    r := Some(manager);
  }

  lemma SortedLoads(enabled: seq<Candidate>, cs: seq<Candidate>)
    requires forall c :: c in cs <==> c in enabled
    ensures AllLoad(cs) <==> AllLoad(enabled)
  {
    if AllLoad(cs) {
      forall i | 0 <= i < |enabled| ensures Loads(enabled[i]) {
        assert enabled[i] in cs;
      }
    }
    if AllLoad(enabled) {
      forall i | 0 <= i < |cs| ensures Loads(cs[i]) {
        assert cs[i] in enabled;
      }
    }
  }

  lemma SortedDistinct(enabled: seq<Candidate>, cs: seq<Candidate>)
    requires DistinctNames(enabled) && multiset(cs) == multiset(enabled)
    ensures DistinctNames(cs)
  {
    forall i, j | 0 <= i < j < |cs| ensures cs[i].params.name != cs[j].params.name {
      assert cs == cs[..i] + [cs[i]] + cs[i + 1..j] + [cs[j]] + cs[j + 1..];
      assert cs[i] in multiset(cs) && cs[j] in multiset(cs);
      var k :| 0 <= k < |enabled| && enabled[k] == cs[i];
      var l :| 0 <= l < |enabled| && enabled[l] == cs[j];
      if cs[i] == cs[j] {
        assert multiset(cs)[cs[i]] >= 2;
        OccursOnce(enabled, k);
      }
    }
  }

  lemma OccursOnce(enabled: seq<Candidate>, k: nat)
    requires DistinctNames(enabled) && k < |enabled|
    ensures multiset(enabled)[enabled[k]] == 1
  {
    assert enabled == enabled[..k] + [enabled[k]] + enabled[k + 1..];
    assert enabled[k] !in enabled[..k] && enabled[k] !in enabled[k + 1..];
  }
}

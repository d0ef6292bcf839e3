/** What start-up, dispatch and hot reload mean together. */
module PluginConsequences {
  import opened Wrappers
  import opened StableSort
  import opened PluginState
  import opened PluginReload
  import opened PluginReloadProofs
  import opened PluginCompactProofs
  import opened PluginOutcomes
  import PluginStart
  import opened PluginHost
  import opened PluginDispatch

  // ----- reloads that have nothing to do -----

  /** Of an up-to-date host there is nothing to remove, to add or to reload. */
  lemma NothingToDo(st: State, config: seq<Candidate>)
    requires SlotsValid(st.slots) && DistinctNames(Enabled(config)) && UpToDate(ViewOf(st), config)
    ensures ToRemove(st.slots, NamesOf(Enabled(config)), |st.slots|) == []
    ensures ToAdd(Enabled(config), OldMap(st.slots).Keys) == [] && ToReload(Enabled(config), st.slots) == []
  {
    hide UpToDate, ToAdd, ViewToReload, ToReload, NamesOf;
    var enabled := Enabled(config);
    UpToDateLists(ViewOf(st), config);
    var toRemove := ToRemove(st.slots, NamesOf(enabled), |st.slots|);
    if toRemove != [] {
      ViewHas(st, toRemove[0]);
      assert false;
    }
    assert ViewOf(st).plugins.Keys == OldMap(st.slots).Keys;
    ToReloadIsView(enabled, st);
  }

  /** Sorting what is sorted and compacting what is full change nothing. */
  lemma NothingToTidy(st: State)
    requires AllFilled(st.slots) && RoutesSorted(st)
    ensures Compact(st.(routes := SortRoutes(st.routes, st.slots))) == st
  {
    hide Compact;
    forall c | c in st.routes ensures SortBy(st.routes[c], ByPriority(st.slots)) == st.routes[c] {
      SortByIdentity(st.routes[c], ByPriority(st.slots));
    }
    assert SortRoutes(st.routes, st.slots) == st.routes;
    CompactNothing(st);
  }

  /** Reloading an up-to-date host leaves every index, route, hook and tick as it is. */
  lemma ReloadChangesNothing(st: State, config: seq<Candidate>, unload: nat -> Outcome, limits: Limits)
    requires Valid(st) && AllFilled(st.slots) && RoutesSorted(st)
    requires DistinctNames(Enabled(config)) && UpToDate(ViewOf(st), config)
    ensures ReloadAll(st, config, unload, limits) == st
  {
    hide Valid, RoutesSorted, UpToDate, ToRemove, ToAdd, ToReload, Compact, SortRoutes, Enabled, OldMap, ViewOf;
    ValidSlots(st);
    NothingToDo(st, config);
    NothingToTidy(st);
  }

  lemma ValidSlots(st: State)
    requires Valid(st)
    ensures SlotsValid(st.slots)
  {
  }

  /** One reload in which every configured plugin can be loaded makes the next one change nothing. */
  lemma ReloadTwice(
      st: State, config: seq<Candidate>, unload: nat -> Outcome, unload': nat -> Outcome, limits: Limits)
    requires Valid(st) && TicksOwned(st) && DistinctNames(Enabled(config))
    requires forall c | c in Enabled(config) :: Loads(c)
    requires forall n | n in ViewOf(st).plugins :: ViewOf(st).plugins[n].reloadFailures < limits.reloadFailures
    ensures
      var after := ReloadAll(st, config, unload, limits);
      ReloadAll(after, config, unload', limits) == after
  {
    ReloadAllRefines(st, config, unload, limits);
    ReloadAllSettles(ViewOf(st), config, limits);
    ReloadChangesNothing(ReloadAll(st, config, unload, limits), config, unload', limits);
  }

  // ----- dispatching from the start -----

  predicate DistinctTags(cs: seq<Candidate>) {
    forall i, j | 0 <= i < j < |cs| :: cs[i].load.tag != cs[j].load.tag
  }

  function AtStart(cs: seq<Candidate>): Sys
    requires PluginStart.AllLoad(cs)
  {
    Sys(PluginStart.Started(cs), map[], [], None, None)
  }

  /** Every run may begin where start-up ends. */
  lemma StartedInit(cs: seq<Candidate>)
    requires PluginStart.Startable(cs) && DistinctTags(cs)
    ensures Init(AtStart(cs))
  {
    PluginStart.StartedValid(cs);
    var st := PluginStart.Started(cs);
    forall i: nat ensures Disciplined(TicksOf(st.ticks, i)) {
      PluginStart.LoadedTicks(cs, |cs|, i);
      if i < |cs| {
        var counter: nat :| TicksOf(PluginStart.LoadFirst(cs, |cs|).0, i) == RunOwn([], counter, cs[i].load.calls).0;
        CallsKeepDiscipline([], counter, cs[i].load.calls);
      }
    }
  }

  // ----- a reload after a panic -----

  /** Plugin "a" has a command and a tick. */
  function First(): Candidate {
    Candidate(Params("a", 1, ""), true, Some("a.wasm"), true, None,
              Load(0, Some(Exports(["x"], false, false, false)), [TickCall("t", 60)], true))
  }

  function Second(): Candidate {
    Candidate(Params("b", 0, ""), true, Some("b.wasm"), true, None,
              Load(1, Some(Exports([], false, false, false)), [], true))
  }

  function Both(): seq<Candidate> {
    [First(), Second()]
  }

  lemma BothStart()
    ensures PluginStart.Startable(Both()) && DistinctTags(Both())
    ensures Enabled(Both()) == Both() && DistinctNames(Both())
  {
    assert Both()[1..] == [Second()];
  }

  /** At the start the only plugin under the command is the one in slot 0. */
  lemma FirstListed(st: State)
    requires PluginStart.Startable(Both()) && st == PluginStart.Started(Both())
    ensures "x" in st.routes && st.routes["x"] != [] && st.routes["x"][0] == 0
  {
    PluginStart.StartedValid(Both());
    hide HooksValid, SlotsValid, TicksWithin, SortRoutes, RoutesSorted;
    assert RoutesMatch(st.slots, st.routes, "x", 0);
    assert RouteCount(st.routes, "x", 0) == 1;
    assert 0 in multiset(st.routes["x"]);
    var i := st.routes["x"][0];
    assert i in multiset(st.routes["x"]);
    assert RoutesMatch(st.slots, st.routes, "x", i);
  }

  lemma FirstTicks(st: State)
    requires PluginStart.Startable(Both()) && st == PluginStart.Started(Both())
    ensures TicksOf(st.ticks, 0) != [] && TicksOf(st.ticks, 1) == []
  {
    PluginStart.LoadedTicks(Both(), 2, 0);
    PluginStart.LoadedTicks(Both(), 2, 1);
    var calls := First().load.calls;
    assert calls[..0] == [];
  }

  lemma TakeFirst(s: Sys, limits: Limits) returns (t: Sys, u: Sys)
    requires s.execs == map[] && s.lock == None && s.reload == None && FilledAt(s.st.slots, 0)
    requires "x" in s.st.routes && s.st.routes["x"] != [] && s.st.routes["x"][0] == 0
    ensures CanStep(s, StartCommand(0, "x")) && t == Do(s, StartCommand(0, "x"), limits)
    ensures CanStep(t, Take(0)) && u == Do(t, Take(0), limits)
    ensures u.execs.Keys == {0} && Running(u, 0) && u.lock == None && u.reload == None
    ensures u.execs[0].holding == Some(Held(0, s.st.slots[0].instance.value))
    ensures u.st == s.st.(slots := TakeSlots(s.st.slots, 0))
  {
    t := Do(s, StartCommand(0, "x"), limits);
    u := Do(t, Take(0), limits);
  }

  lemma PanicFirst(s: Sys, limits: Limits) returns (t: Sys)
    requires s.execs.Keys == {0} && Running(s, 0) && s.lock == None && s.reload == None
    requires s.execs[0].holding.value.slot == 0 < |s.st.slots| && !Filled(s.st.slots[0])
    requires s.st.slots[0].lost == 0 && limits.lost > 1
    ensures CanStep(s, Complete(0, Panic)) && t == Do(s, Complete(0, Panic), limits)
    ensures t.execs.Keys == {0} && t.execs[0].holding == None
    ensures |t.st.slots| == |s.st.slots| && !Filled(t.st.slots[0]) && t.st.ticks == s.st.ticks
    ensures t.st.slots[1..] == s.st.slots[1..]
  {
    t := Do(s, Complete(0, Panic), limits);
  }

  /** The command is dispatched, the plugin panics, and the error threshold is not reached. */
  lemma PanicRun(s: Sys, limits: Limits) returns (states: seq<Sys>, steps: seq<Step>)
    requires Init(s) && limits.lost > 1 && FilledAt(s.st.slots, 0) && s.st.slots[0].lost == 0
    requires "x" in s.st.routes && s.st.routes["x"] != [] && s.st.routes["x"][0] == 0
    ensures Run(states, steps, limits) && |steps| == 3 && states[0] == s
    ensures states[3].execs.Keys == {0} && states[3].execs[0].holding == None
    ensures |states[3].st.slots| == |s.st.slots| && !Filled(states[3].st.slots[0])
    ensures states[3].st.slots[1..] == s.st.slots[1..]
    ensures states[3].st.ticks == s.st.ticks
  {
    var t, u := TakeFirst(s, limits);
    var v := PanicFirst(u, limits);
    hide Init, CanStep, Do;
    states := [s, t, u, v];
    steps := [StartCommand(0, "x"), Take(0), Complete(0, Panic)];
  }

  /** Slot 0 is lost, slot 1 is plugin "b" as configured. */
  predicate FirstLost(slots: seq<Slot>) {
    && |slots| == 2 && !Filled(slots[0]) && Filled(slots[1])
    && slots[1].params == Second().params && slots[1].path == "b.wasm" && slots[1].mtime == None
  }

  lemma LostLists(slots: seq<Slot>)
    requires FirstLost(slots)
    ensures OldMap(slots) == map["b" := 1]
    ensures ToRemove(slots, NamesOf(Both()), 2) == []
    ensures ToAdd(Both(), {"b"}) == [First()] && ToReload(Both(), slots) == []
  {
    assert OldMap(slots[..1]) == map[] by {
      assert slots[..1][..0] == [];
    }
    assert Both()[1..] == [Second()] && [Second()][1..] == [];
    assert Both()[1] == Second();
    assert "b" in NamesOf(Both());
    assert ToRemove(slots, NamesOf(Both()), 1) == [];
    assert ToReload([Second()], slots) == [] && ToAdd([Second()], {"b"}) == [];
  }

  lemma AddedAgain(st: State)
    requires |st.slots| == 2
    ensures
      var added := AddAll(st, [First()]);
      && |added.slots| == 3 && added.slots[..2] == st.slots && Filled(added.slots[2])
      && TicksOf(added.ticks, 0) == TicksOf(st.ticks, 0)
  {
    hide RunCalls;
    assert [First()][..0] == [];
    assert AddAll(st, [First()]) == AddOne(st, First());
    RunCallsIsOwn(st.ticks, st.counter, 2, First().load.calls, 0);
  }

  lemma CompactThree(st: State)
    requires |st.slots| == 3 && !Filled(st.slots[0]) && Filled(st.slots[1]) && Filled(st.slots[2])
    requires TicksOf(st.ticks, 0) != []
    ensures |Compact(st).slots| == 2 && Compact(st).slots[0].params == st.slots[1].params
    ensures TicksOf(Compact(st).ticks, 0) != []
  {
    assert Kept(st.slots, 1) == [] && Kept(st.slots, 2) == [st.slots[1]];
    assert Kept(st.slots, 3) == [st.slots[1], st.slots[2]];
    NoTicksOf(st.ticks, 0);
    var k :| 0 <= k < |st.ticks| && st.ticks[k].idx == 0;
    RemapTicksAt(st.ticks, st.slots, k);
    NoTicksOf(Compact(st).ticks, 0);
  }

  /** The reload adds "a" again at the end, so compaction moves "b" to index 0, where the old tick still points. */
  lemma TickInherited(st: State, unload: nat -> Outcome, limits: Limits)
    requires FirstLost(st.slots) && TicksOf(st.ticks, 0) != []
    ensures
      var after := ReloadAll(st, Both(), unload, limits);
      && |after.slots| == 2 && after.slots[0].params.name == "b"
      && TicksOf(after.ticks, 0) != []
  {
    LostLists(st.slots);
    assert {"b"} == OldMap(st.slots).Keys;
    BothStart();
    AddedAgain(st);
    var added := AddAll(st, [First()]);
    hide AddAll, AddOne, Compact, TicksOf, First, PluginStart.Startable;
    assert added.slots[1] == added.slots[..2][1] && added.slots[0] == added.slots[..2][0];
    var sorted := added.(routes := SortRoutes(added.routes, added.slots));
    assert ReloadAll(st, Both(), unload, limits) == Compact(sorted);
    CompactThree(sorted);
  }

  lemma NobodyRuns(s: Sys)
    requires Inv(s) && forall e | e in s.execs :: s.execs[e].holding == None
    ensures Valid(s.st)
  {
    assert forall e: nat, i: nat :: !Holds(s, e, i);
    assert Full(s).slots == s.st.slots;
  }

  lemma ReloadGoesWrong(st: State, unload: nat -> Outcome, limits: Limits)
    requires Valid(st) && FirstLost(st.slots) && TicksOf(st.ticks, 0) != []
    ensures
      var after := ReloadAll(st, Both(), unload, limits);
      && !(Valid(after) && ViewOf(after) == ViewReloadAll(ViewOf(st), Both(), limits))
      && |after.slots| == 2 && after.slots[0].params.name == "b" && TicksOf(after.ticks, 0) != []
  {
    hide ReloadAll, ViewReloadAll, TicksOf, First, Second;
    BothStart();
    OwnedIffNoneStale(st);
    assert StaleAt(st, 0);
    ReloadAllExact(st, Both(), unload, limits);
    TickInherited(st, unload, limits);
  }

  /**
   * A single panic below the error threshold is enough to make the next `reload_all` of an unchanged
   * configuration go wrong: plugin "b", which never registered a tick, ends up with the tick of "a".
   */
  lemma PanicSpoilsReload(limits: Limits, unload: nat -> Outcome) returns (states: seq<Sys>, steps: seq<Step>)
    requires limits.lost > 1
    ensures Run(states, steps, limits) && |steps| == 3 && states[0] == AtStart(Both()) && Valid(states[3].st)
    ensures
      var before := states[3].st;
      var after := ReloadAll(before, Both(), unload, limits);
      && !(Valid(after) && ViewOf(after) == ViewReloadAll(ViewOf(before), Both(), limits))
      && |before.slots| == |after.slots| == 2
      && before.slots[1].params.name == "b" && TicksOf(before.ticks, 1) == []
      && after.slots[0].params.name == "b" && TicksOf(after.ticks, 0) != []
  {
    BothStart();
    var start := AtStart(Both());
    StartedInit(Both());
    FirstListed(start.st);
    FirstTicks(start.st);
    PluginStart.StartedValid(Both());
    states, steps := PanicRun(start, limits);
    hide Init, CanStep, Do, PluginStart.Startable, PluginStart.Started, Run, ReloadAll, TicksOf, Inv;
    RunInv(states, steps, limits, 3);
    NobodyRuns(states[3]);
    ReloadGoesWrong(states[3].st, unload, limits);
  }
}

/** Compaction renumbers every index and is invisible by name; with it, `reload_all` as a whole. */
module PluginCompactProofs {
  import opened StableSort
  import opened PluginState
  import opened PluginReload
  import opened PluginReloadProofs

  // ----- the renumbering -----

  lemma {:induction false} RankMonotone(slots: seq<Slot>, i: nat, j: nat)
    requires i <= j <= |slots|
    ensures Rank(slots, i) <= Rank(slots, j)
    ensures i < j && Filled(slots[i]) ==> Rank(slots, i) < Rank(slots, j)
  {
    if i < j {
      RankMonotone(slots, i, j - 1);
    }
  }

  lemma RankInjective(slots: seq<Slot>, i: nat, j: nat)
    requires FilledAt(slots, i) && FilledAt(slots, j) && Rank(slots, i) == Rank(slots, j)
    ensures i == j
  {
    if i < j {
      RankMonotone(slots, i, j);
    } else {
      RankMonotone(slots, j, i);
    }
  }

  /** A live slot is found at its new index. */
  lemma {:induction false} KeptAt(slots: seq<Slot>, i: nat, n: nat)
    requires i < n <= |slots| && Filled(slots[i])
    ensures Rank(slots, i) < |Kept(slots, n)| && Kept(slots, n)[Rank(slots, i)] == slots[i]
  {
    if i < n - 1 {
      KeptAt(slots, i, n - 1);
    }
  }

  /** Every new index is the new index of exactly one live slot. */
  lemma {:induction false} KeptSource(slots: seq<Slot>, n: nat, k: nat) returns (i: nat)
    requires n <= |slots| && k < |Kept(slots, n)|
    ensures i < n && Filled(slots[i]) && Rank(slots, i) == k && Kept(slots, n)[k] == slots[i]
  {
    if Filled(slots[n - 1]) && k == |Kept(slots, n)| - 1 {
      i := n - 1;
    } else {
      i := KeptSource(slots, n - 1, k);
    }
  }

  lemma {:induction false} RankFull(slots: seq<Slot>, n: nat)
    requires n <= |slots|
    ensures Rank(slots, n) == n <==> forall i | 0 <= i < n :: Filled(slots[i])
  {
    if n > 0 {
      RankFull(slots, n - 1);
    }
  }

  // ----- routes -----

  lemma {:induction false} RemapCount(s: seq<nat>, slots: seq<Slot>, i: nat)
    requires FilledAt(slots, i)
    ensures multiset(Remap(s, slots))[Rank(slots, i)] == multiset(s)[i]
  {
    if s != [] {
      RemapCount(s[1..], slots, i);
      assert s == [s[0]] + s[1..];
      if FilledAt(slots, s[0]) && s[0] != i && Rank(slots, s[0]) == Rank(slots, i) {
        RankInjective(slots, s[0], i);
      }
    }
  }

  lemma {:induction false} RemapMember(s: seq<nat>, slots: seq<Slot>, r: nat)
    requires r in Remap(s, slots)
    ensures exists k :: 0 <= k < |s| && FilledAt(slots, s[k]) && Rank(slots, s[k]) == r
  {
    if FilledAt(slots, s[0]) && Rank(slots, s[0]) == r {
    } else {
      RemapMember(s[1..], slots, r);
      var k :| 0 <= k < |s[1..]| && FilledAt(slots, s[1..][k]) && Rank(slots, s[1..][k]) == r;
      assert s[k + 1] == s[1..][k];
    }
  }

  lemma RemapBound(s: seq<nat>, slots: seq<Slot>, r: nat)
    requires r in Remap(s, slots)
    ensures r < |Kept(slots, |slots|)|
  {
    RemapMember(s, slots, r);
    var k :| 0 <= k < |s| && FilledAt(slots, s[k]) && Rank(slots, s[k]) == r;
    KeptAt(slots, s[k], |slots|);
  }

  lemma CompactRoutes(st: State)
    requires RoutesValid(st.slots, st.routes) && !AllFilled(st.slots)
    ensures RoutesValid(Compact(st).slots, Compact(st).routes)
  {
    RankFull(st.slots, |st.slots|);
    var kept := Kept(st.slots, |st.slots|);
    var after := Compact(st);
    forall c: string, j: nat ensures RoutesMatch(after.slots, after.routes, c, j) {
      var s: seq<nat> := if c in st.routes then st.routes[c] else [];
      var r: seq<nat> := Remap(s, st.slots);
      assert RouteCount(after.routes, c, j) == multiset(r)[j];
      if j >= |kept| {
        if j in r {
          RemapBound(s, st.slots, j);
        }
        assert j !in multiset(r);
      } else {
        var i := KeptSource(st.slots, |st.slots|, j);
        RemapCount(s, st.slots, i);
        assert RoutesMatch(st.slots, st.routes, c, i);
      }
    }
  }

  lemma CompactHooks(st: State)
    requires HooksValid(st.slots, st.hooks) && !AllFilled(st.slots)
    ensures HooksValid(Compact(st).slots, Compact(st).hooks)
  {
    RankFull(st.slots, |st.slots|);
    var kept := Kept(st.slots, |st.slots|);
    var after := Compact(st);
    forall j: nat ensures HookMatches(after.slots, after.hooks, j) {
      if j in after.hooks {
        var i :| i in st.hooks && FilledAt(st.slots, i) && Rank(st.slots, i) == j;
        KeptAt(st.slots, i, |st.slots|);
        assert HookMatches(st.slots, st.hooks, i);
      } else if j < |kept| {
        var i := KeptSource(st.slots, |st.slots|, j);
        assert HookMatches(st.slots, st.hooks, i);
      }
    }
  }

  lemma CompactSlots(st: State)
    requires SlotsValid(st.slots) && !AllFilled(st.slots)
    ensures SlotsValid(Compact(st).slots) && AllFilled(Compact(st).slots)
    ensures |Compact(st).slots| == |Kept(st.slots, |st.slots|)|
  {
    RankFull(st.slots, |st.slots|);
    var kept := Kept(st.slots, |st.slots|);
    forall k, l | 0 <= k < l < |kept| ensures kept[k].params.name != kept[l].params.name {
      var i := KeptSource(st.slots, |st.slots|, k);
      var j := KeptSource(st.slots, |st.slots|, l);
      assert i != j;
    }
  }

  // ----- registrations -----

  lemma {:induction false} RemapTicksWithin(ticks: seq<Tick>, slots: seq<Slot>)
    requires TicksWithin(ticks, Live(slots))
    ensures TicksWithin(RemapTicks(ticks, slots), Indices(|Kept(slots, |slots|)|))
  {
    if ticks != [] {
      assert ticks[0].idx in Live(slots);
      KeptAt(slots, ticks[0].idx, |slots|);
      assert TicksWithin(ticks[1..], Live(slots)) by {
        assert forall k | 0 <= k < |ticks[1..]| :: ticks[1..][k] == ticks[k + 1];
      }
      RemapTicksWithin(ticks[1..], slots);
    }
  }

  lemma {:induction false} RemapTicksOf(ticks: seq<Tick>, slots: seq<Slot>, i: nat)
    requires TicksWithin(ticks, Live(slots)) && FilledAt(slots, i)
    ensures TicksOf(RemapTicks(ticks, slots), Rank(slots, i)) == TicksOf(ticks, i)
  {
    if ticks != [] {
      assert ticks[0].idx in Live(slots);
      assert TicksWithin(ticks[1..], Live(slots)) by {
        assert forall k | 0 <= k < |ticks[1..]| :: ticks[1..][k] == ticks[k + 1];
      }
      RemapTicksOf(ticks[1..], slots, i);
      if Rank(slots, ticks[0].idx) == Rank(slots, i) {
        RankInjective(slots, ticks[0].idx, i);
      }
    }
  }

  /** A registration of an emptied slot keeps its old index and joins whichever plugin moves there. */
  lemma {:induction false} StaleTick(ticks: seq<Tick>, slots: seq<Slot>, i: nat, k: nat)
    requires FilledAt(slots, i) && k <= |ticks|
    requires k < |ticks| ==> !FilledAt(slots, ticks[k].idx) && ticks[k].idx == Rank(slots, i)
    ensures |TicksOf(RemapTicks(ticks, slots), Rank(slots, i))|
         >= |TicksOf(ticks, i)| + if k < |ticks| then 1 else 0
  {
    if ticks != [] {
      if k == 0 {
        StaleTick(ticks[1..], slots, i, |ticks[1..]|);
      } else {
        StaleTick(ticks[1..], slots, i, k - 1);
      }
    }
  }

  lemma {:induction false} RemapTicksAt(ticks: seq<Tick>, slots: seq<Slot>, k: nat)
    requires k < |ticks|
    ensures |RemapTicks(ticks, slots)| == |ticks| && RemapTicks(ticks, slots)[k] == RemapTick(ticks[k], slots)
  {
    if k > 0 {
      RemapTicksAt(ticks[1..], slots, k - 1);
    } else if |ticks| > 1 {
      RemapTicksAt(ticks[1..], slots, 0);
    }
  }

  // ----- compaction as a whole -----

  lemma CompactNothing(st: State)
    requires AllFilled(st.slots)
    ensures Compact(st) == st
  {
    RankFull(st.slots, |st.slots|);
  }

  lemma CompactView(st: State)
    requires Valid(st) && TicksOwned(st) && !AllFilled(st.slots)
    ensures ViewOf(Compact(st)) == ViewOf(st)
  {
    var after := Compact(st);
    var v := ViewOf(st);
    CompactSlots(st);
    RankFull(st.slots, |st.slots|);
    forall j | 0 <= j < |after.slots| && Filled(after.slots[j])
      ensures after.slots[j].params.name in v.plugins
      ensures v.plugins[after.slots[j].params.name] == PluginAt(after.slots, after.ticks, j)
    {
      var i := KeptSource(st.slots, |st.slots|, j);
      ViewHas(st, i);
      RemapTicksOf(st.ticks, st.slots, i);
    }
    forall n | n in v.plugins
      ensures exists k :: 0 <= k < |after.slots| && Filled(after.slots[k]) && after.slots[k].params.name == n
    {
      var i := OldMap(st.slots)[n];
      KeptAt(st.slots, i, |st.slots|);
      assert Filled(after.slots[Rank(st.slots, i)]) && after.slots[Rank(st.slots, i)].params.name == n;
    }
    ViewIs(after, v);
  }

  /**
   * Compaction is right exactly when no lost slot still owns a registration: then every index denotes the
   * same plugin as before, and otherwise an index is out of range or a plugin inherits a foreign tick.
   */
  lemma CompactExact(st: State)
    requires Valid(st)
    ensures Valid(Compact(st)) && ViewOf(Compact(st)) == ViewOf(st) <==> TicksOwned(st)
  {
    if AllFilled(st.slots) {
      CompactNothing(st);
      assert Live(st.slots) == Indices(|st.slots|);
    } else {
      CompactRoutes(st);
      CompactHooks(st);
      CompactSlots(st);
      RankFull(st.slots, |st.slots|);
      if TicksOwned(st) {
        RemapTicksWithin(st.ticks, st.slots);
        CompactView(st);
      } else {
        CompactStale(st);
      }
    }
  }

  lemma CompactStale(st: State)
    requires Valid(st) && !TicksOwned(st) && !AllFilled(st.slots)
    ensures !(Valid(Compact(st)) && ViewOf(Compact(st)) == ViewOf(st))
  {
    var after := Compact(st);
    CompactSlots(st);
    RankFull(st.slots, |st.slots|);
    var k :| 0 <= k < |st.ticks| && st.ticks[k].idx !in Live(st.slots);
    var j := st.ticks[k].idx;
    RemapTicksAt(st.ticks, st.slots, k);
    assert after.ticks[k].idx == j;
    if j < |after.slots| {
      var i := KeptSource(st.slots, |st.slots|, j);
      StaleTick(st.ticks, st.slots, i, k);
      ViewHas(st, i);
      ViewHas(after, j);
    }
  }

  // ----- the order of dispatch -----

  /** The live plugins in the order in which a dispatch tries them. */
  function NamesIn(s: seq<nat>, slots: seq<Slot>): seq<string> {
    if s == [] then []
    else if FilledAt(slots, s[0]) then [slots[s[0]].params.name] + NamesIn(s[1..], slots)
    else NamesIn(s[1..], slots)
  }

  function DispatchOrder(st: State, c: string): seq<string> {
    if c in st.routes then NamesIn(st.routes[c], st.slots) else []
  }

  lemma {:induction false} RemapNames(s: seq<nat>, slots: seq<Slot>)
    ensures NamesIn(Remap(s, slots), RenumberAll(Kept(slots, |slots|))) == NamesIn(s, slots)
  {
    if s != [] {
      RemapNames(s[1..], slots);
      if FilledAt(slots, s[0]) {
        KeptAt(slots, s[0], |slots|);
      }
    }
  }

  lemma {:induction false} RemapSorted(s: seq<nat>, slots: seq<Slot>)
    requires SortedBy(s, ByPriority(slots))
    ensures SortedBy(Remap(s, slots), ByPriority(Kept(slots, |slots|)))
  {
    if s != [] {
      RemapSorted(s[1..], slots);
      var rest := Remap(s[1..], slots);
      var kept := Kept(slots, |slots|);
      if FilledAt(slots, s[0]) {
        KeptAt(slots, s[0], |slots|);
        forall k | 0 <= k < |rest| ensures ByPriority(kept)(Rank(slots, s[0]), rest[k]) {
          RemapMember(s[1..], slots, rest[k]);
          var l :| 0 <= l < |s[1..]| && FilledAt(slots, s[1..][l]) && Rank(slots, s[1..][l]) == rest[k];
          KeptAt(slots, s[1..][l], |slots|);
          assert ByPriority(slots)(s[0], s[l + 1]);
        }
      }
    }
  }

  lemma KeptPriorities(st: State)
    requires !AllFilled(st.slots)
    ensures SamePriorities(Kept(st.slots, |st.slots|), Compact(st).slots)
  {
    RankFull(st.slots, |st.slots|);
  }

  /** A route of a compacted table: the renumbered list needs no sorting, and is in order for the kept slots. */
  lemma CompactedRoute(st: State, route: seq<nat>)
    requires SortedBy(route, ByPriority(st.slots)) && !AllFilled(st.slots)
    ensures SortBy(Remap(route, st.slots), ByPriority(Kept(st.slots, |st.slots|))) == Remap(route, st.slots)
    ensures SortedBy(Remap(route, st.slots), ByPriority(Compact(st).slots))
  {
    var after, kept := Compact(st), Kept(st.slots, |st.slots|);
    KeptPriorities(st);
    RemapSorted(route, st.slots);
    hide Compact, Remap, SortedBy, SamePriorities;
    SortByIdentity(Remap(route, st.slots), ByPriority(kept));
    OrderKept(kept, after.slots, map["" := Remap(route, st.slots)]);
  }

  /** Compaction changes no dispatch order, not even among plugins of equal priority, and keeps routes sorted. */
  lemma CompactKeepsOrder(st: State)
    requires RoutesSorted(st)
    ensures RoutesSorted(Compact(st))
    ensures forall c :: DispatchOrder(Compact(st), c) == DispatchOrder(st, c)
  {
    var after := Compact(st);
    if !AllFilled(st.slots) {
      hide SortedBy;
      RankFull(st.slots, |st.slots|);
      forall c | c in st.routes
        ensures SortBy(Remap(st.routes[c], st.slots), ByPriority(Kept(st.slots, |st.slots|)))
             == Remap(st.routes[c], st.slots)
        ensures SortedBy(Remap(st.routes[c], st.slots), ByPriority(after.slots))
      {
        CompactedRoute(st, st.routes[c]);
      }
      forall c ensures DispatchOrder(after, c) == DispatchOrder(st, c) {
        if c in st.routes {
          RemapNames(st.routes[c], st.slots);
        }
      }
    } else {
      CompactNothing(st);
    }
  }

  // ----- reload_all -----

  lemma {:induction false} ToAddDistinct(enabled: seq<Candidate>, known: set<string>)
    requires DistinctNames(enabled)
    ensures DistinctNames(ToAdd(enabled, known))
  {
    if enabled != [] {
      ToAddDistinct(enabled[1..], known);
      var rest := ToAdd(enabled[1..], known);
      forall k | 0 <= k < |rest| ensures rest[k].params.name != enabled[0].params.name {
        assert rest[k] in rest;
        var l :| 0 <= l < |enabled[1..]| && enabled[1..][l] == rest[k];
        assert enabled[l + 1] == rest[k];
      }
    }
  }

  lemma ReloadTargets(enabled: seq<Candidate>, before: seq<Slot>, after: seq<Slot>)
    requires SlotsValid(before) && |before| <= |after|
    requires forall j | 0 <= j < |before| && Filled(before[j]) && before[j].params.name in NamesOf(enabled) ::
      after[j] == before[j]
    ensures StillAt(ToReload(enabled, before), OldMap(before), after)
  {
    var cs := ToReload(enabled, before);
    forall k | 0 <= k < |cs|
      ensures cs[k].params.name in OldMap(before)
      ensures after[OldMap(before)[cs[k].params.name]] == before[OldMap(before)[cs[k].params.name]]
    {
      assert cs[k] in cs;
      var l :| 0 <= l < |enabled| && enabled[l] == cs[k];
      assert cs[k].params.name in NamesOf(enabled);
    }
  }

  /** The state in which `reload_all` starts to compact: all is in place by name, lost slots are still there. */
  function BeforeCompact(st: State, config: seq<Candidate>, unload: nat -> Outcome, limits: Limits): State {
    var enabled := Enabled(config);
    var oldMap := OldMap(st.slots);
    var removed := RemoveAll(st, ToRemove(st.slots, NamesOf(enabled), |st.slots|), unload);
    var added := AddAll(removed, ToAdd(enabled, oldMap.Keys));
    var reloaded := ReloadEach(added, ToReload(enabled, st.slots), oldMap, unload, limits);
    reloaded.(routes := SortRoutes(reloaded.routes, reloaded.slots))
  }

  /** Up to there nothing depends on who owns the ticks, and no phase drops or adds a stale one. */
  lemma ReloadPhases(st: State, config: seq<Candidate>, unload: nat -> Outcome, limits: Limits)
    requires Valid(st) && DistinctNames(Enabled(config))
    ensures
      var sorted := BeforeCompact(st, config, unload, limits);
      && Valid(sorted) && RoutesSorted(sorted)
      && (TicksOwned(sorted) <==> TicksOwned(st))
      && ViewOf(sorted) == ViewReloadAll(ViewOf(st), config, limits)
  {
    var enabled := Enabled(config);
    var oldMap := OldMap(st.slots);
    RemovalsView(st, NamesOf(enabled), unload);
    var removed := RemoveAll(st, ToRemove(st.slots, NamesOf(enabled), |st.slots|), unload);
    var toAdd := ToAdd(enabled, oldMap.Keys);
    assert ViewOf(st).plugins.Keys == oldMap.Keys;
    ToAddDistinct(enabled, oldMap.Keys);
    ToAddNames(enabled, oldMap.Keys);
    AddAllKeeps(removed, toAdd);
    var added := AddAll(removed, toAdd);
    ReloadTargets(enabled, st.slots, added.slots);
    ToReloadIsView(enabled, st);
    ReloadEachKeeps(added, ToReload(enabled, st.slots), oldMap, unload, limits);
    SortedKeeps(ReloadEach(added, ToReload(enabled, st.slots), oldMap, unload, limits));
  }

  lemma SortedKeeps(st: State)
    requires Valid(st)
    ensures
      var sorted := st.(routes := SortRoutes(st.routes, st.slots));
      Valid(sorted) && RoutesSorted(sorted) && (TicksOwned(sorted) <==> TicksOwned(st)) && ViewOf(sorted) == ViewOf(st)
  {
    SortKeepsRoutes(st.slots, st.routes, st.slots);
    SortRoutesSorted(st);
  }

  /**
   * `reload_all`: afterwards every command route, message hook, tick and stored index denotes the plugin it
   * belongs to, no slot is empty, every route is in priority order, and by name the registries are what
   * removing, adding and replacing plugin by plugin gives.
   */
  lemma ReloadAllRefines(st: State, config: seq<Candidate>, unload: nat -> Outcome, limits: Limits)
    requires Valid(st) && TicksOwned(st) && DistinctNames(Enabled(config))
    ensures
      var after := ReloadAll(st, config, unload, limits);
      && Valid(after) && AllFilled(after.slots) && TicksOwned(after) && RoutesSorted(after)
      && ViewOf(after) == ViewReloadAll(ViewOf(st), config, limits)
  {
    var sorted := BeforeCompact(st, config, unload, limits);
    assert ReloadAll(st, config, unload, limits) == Compact(sorted);
    ReloadPhases(st, config, unload, limits);
    CompactExact(sorted);
    CompactFills(sorted);
  }

  /**
   * `reload_all` is right exactly when it starts without a stale tick. One registration left behind in a lost
   * slot is enough: afterwards it is out of range or another plugin has it.
   */
  lemma ReloadAllExact(st: State, config: seq<Candidate>, unload: nat -> Outcome, limits: Limits)
    requires Valid(st) && DistinctNames(Enabled(config))
    ensures
      var after := ReloadAll(st, config, unload, limits);
      Valid(after) && ViewOf(after) == ViewReloadAll(ViewOf(st), config, limits) <==> TicksOwned(st)
  {
    var sorted := BeforeCompact(st, config, unload, limits);
    assert ReloadAll(st, config, unload, limits) == Compact(sorted);
    ReloadPhases(st, config, unload, limits);
    CompactExact(sorted);
  }

  lemma CompactFills(st: State)
    requires Valid(st) && Valid(Compact(st)) && RoutesSorted(st)
    ensures AllFilled(Compact(st).slots) && TicksOwned(Compact(st)) && RoutesSorted(Compact(st))
  {
    CompactKeepsOrder(st);
    var after := Compact(st);
    if AllFilled(st.slots) {
      CompactNothing(st);
    } else {
      CompactSlots(st);
      RankFull(st.slots, |st.slots|);
    }
    assert Live(after.slots) == Indices(|after.slots|);
  }
}

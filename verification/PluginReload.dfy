/** What hot reload does to the host's registries, and what it does to them seen by plugin name. */
module PluginReload {
  import opened Wrappers
  import opened StableSort
  import opened PluginState

  // ----- error counting and the reload of one instance -----

  function SetSlot(st: State, i: nat, s: Slot): State
    requires i < |st.slots|
  {
    st.(slots := st.slots[i := s])
  }

  function CountFailure(st: State, i: nat): State
    requires i < |st.slots|
  {
    SetSlot(st, i, st.slots[i].(reloadFailures := SaturatingIncrement(st.slots[i].reloadFailures)))
  }

  function CountError(st: State, i: nat): State
    requires i < |st.slots|
  {
    SetSlot(st, i, st.slots[i].(lost := SaturatingIncrement(st.slots[i].lost)))
  }

  function WithHook(hooks: set<nat>, i: nat, on: bool): set<nat> {
    if on then hooks + {i} else hooks - {i}
  }

  /** The last part of `reload_instance`, once `on_load` has succeeded: the new instance takes over its slot. */
  function Install(st: State, i: nat, inst: Instance): State
    requires i < |st.slots|
  {
    st.(
      slots := st.slots[i := st.slots[i].(instance := Some(inst), lost := 0, reloadFailures := 0)],
      routes := SortRoutes(AddRoutes(DropRoutes(st.routes, i), inst.exports.commands, i), st.slots),
      hooks := WithHook(st.hooks, i, inst.exports.onMessage))
  }

  /** `reload_instance`: the new registries and whether the reload succeeded. */
  function ReloadInstance(st: State, i: nat, load: Load, limits: Limits): (State, bool) {
    if i >= |st.slots| then (st, false)
    else if st.slots[i].reloadFailures >= limits.reloadFailures then (st, false)
    else
      var own := SelectTicks(st.ticks, i);
      var others := DropTicks(st.ticks, i);
      if load.built.None? then
        (CountFailure(st.(ticks := if Filled(st.slots[i]) then others + own else others), i), false)
      else
        var (ticks, counter) := RunCalls(others, st.counter, i, load.calls);
        if !load.loaded then
          (CountFailure(st.(ticks := DropTicks(ticks, i) + own, counter := counter), i), false)
        else
          (Install(st.(ticks := ticks, counter := counter), i, Instance(load.tag, i, load.built.value)), true)
  }

  /** `record_exec_error`: one more error; at the threshold the instance is reloaded if that is allowed. */
  function RecordExecError(st: State, i: nat, allowReload: bool, load: Load, limits: Limits): State {
    if i >= |st.slots| then st
    else
      var counted := CountError(st, i);
      if counted.slots[i].lost >= limits.lost && allowReload then ReloadInstance(counted, i, load, limits).0
      else counted
  }

  /** `unload_single_instance` with reloading switched off, the only way hot reload calls it. */
  function Unload(st: State, i: nat, outcome: Outcome): State {
    if !FilledAt(st.slots, i) || !st.slots[i].instance.value.exports.onUnload then st
    else
      var slot := st.slots[i];
      var counted := SaturatingIncrement(slot.lost);
      match outcome
      case Returned => st
      case Failed => SetSlot(st, i, slot.(lost := counted))
      case Panicked => SetSlot(st, i, slot.(instance := None, lost := counted))
      case TimedOut => SetSlot(st, i, slot.(instance := None, lost := counted))
  }

  // ----- the phases of a hot reload -----

  /** An enabled or disabled entry of the new configuration, with what the file system and the module do. */
  datatype Candidate = Candidate(
    params: Params,
    enabled: bool,
    path: Option<string>,
    compiles: bool,
    mtime: Option<int>,
    load: Load)

  function Enabled(config: seq<Candidate>): seq<Candidate> {
    if config == [] then []
    else if config[0].enabled then [config[0]] + Enabled(config[1..])
    else Enabled(config[1..])
  }

  function NamesOf(cs: seq<Candidate>): set<string> {
    set i | 0 <= i < |cs| :: cs[i].params.name
  }

  predicate DistinctNames(cs: seq<Candidate>) {
    forall i, j | 0 <= i < j < |cs| :: cs[i].params.name != cs[j].params.name
  }

  /** Live plugins the new configuration no longer names, by ascending index below `n`. */
  function ToRemove(slots: seq<Slot>, keep: set<string>, n: nat): (r: seq<nat>)
    requires n <= |slots|
    ensures forall k | 0 <= k < |r| :: r[k] < n && Filled(slots[r[k]]) && slots[r[k]].params.name !in keep
    ensures forall k, l | 0 <= k < l < |r| :: r[k] < r[l]
  {
    if n == 0 then []
    else
      var rest := ToRemove(slots, keep, n - 1);
      var name := slots[n - 1].params.name;
      if Filled(slots[n - 1]) && OldMap(slots)[name] == n - 1 && name !in keep then rest + [n - 1] else rest
  }

  function ToAdd(enabled: seq<Candidate>, known: set<string>): (r: seq<Candidate>)
    ensures forall c | c in r :: c in enabled && c.params.name !in known
  {
    if enabled == [] then []
    else if enabled[0].params.name !in known then [enabled[0]] + ToAdd(enabled[1..], known)
    else ToAdd(enabled[1..], known)
  }

  predicate Changed(c: Candidate, params: Params, path: string, mtime: Option<int>) {
    && c.path.Some?
    && (c.params.priority != params.priority || c.path.value != path || c.params.config != params.config
        || c.mtime != mtime)
  }

  function ToReload(enabled: seq<Candidate>, slots: seq<Slot>): (r: seq<Candidate>)
    ensures forall c | c in r :: c in enabled && c.params.name in OldMap(slots)
  {
    if enabled == [] then []
    else
      var c := enabled[0];
      var m := OldMap(slots);
      if c.params.name in m
         && var s := slots[m[c.params.name]]; Changed(c, s.params, s.path, s.mtime)
      then [c] + ToReload(enabled[1..], slots)
      else ToReload(enabled[1..], slots)
  }

  function RemoveOne(st: State, i: nat, outcome: Outcome): State {
    var unloaded := Unload(st, i, outcome);
    State(
      if i < |unloaded.slots| then unloaded.slots[i := unloaded.slots[i].(instance := None)] else unloaded.slots,
      DropRoutes(unloaded.routes, i),
      unloaded.hooks - {i},
      DropTicks(unloaded.ticks, i),
      unloaded.counter)
  }

  /** `apply_removals`: from the last index down. */
  function RemoveAll(st: State, indices: seq<nat>, unload: nat -> Outcome): State
    decreases |indices|
  {
    if indices == [] then st
    else
      var last := |indices| - 1;
      RemoveAll(RemoveOne(st, indices[last], unload(indices[last])), indices[..last], unload)
  }

  function AddOne(st: State, c: Candidate): State {
    var i := |st.slots|;
    if c.path.None? || !c.compiles || c.load.built.None? then st
    else
      var (ticks, counter) := RunCalls(st.ticks, st.counter, i, c.load.calls);
      if !c.load.loaded then st.(ticks := DropTicks(ticks, i), counter := counter)
      else
        var exports := c.load.built.value;
        State(
          st.slots + [Slot(Some(Instance(c.load.tag, i, exports)), c.params, c.path.value, c.mtime, 0, 0)],
          AddRoutes(st.routes, exports.commands, i),
          if exports.onMessage then st.hooks + {i} else st.hooks,
          ticks,
          counter)
  }

  function AddAll(st: State, cs: seq<Candidate>): State
    decreases |cs|
  {
    if cs == [] then st else AddOne(AddAll(st, cs[..|cs| - 1]), cs[|cs| - 1])
  }

  function ReloadOne(st: State, c: Candidate, i: nat, outcome: Outcome, limits: Limits): State {
    if i >= |st.slots| || st.slots[i].reloadFailures >= limits.reloadFailures || c.path.None? || !c.compiles then st
    else if c.load.built.None? then CountFailure(st, i)
    else
      var own := SelectTicks(st.ticks, i);
      var others := DropTicks(st.ticks, i);
      var (ticks, counter) := RunCalls(others, st.counter, i, c.load.calls);
      if !c.load.loaded then
        CountFailure(st.(ticks := DropTicks(ticks, i) + own, counter := counter), i)
      else
        var exports := c.load.built.value;
        var unloaded := Unload(st.(ticks := ticks, counter := counter), i, outcome);
        State(
          unloaded.slots[i := Slot(Some(Instance(c.load.tag, i, exports)), c.params, c.path.value, c.mtime, 0, 0)],
          AddRoutes(DropRoutes(unloaded.routes, i), exports.commands, i),
          if exports.onMessage then unloaded.hooks - {i} + {i} else unloaded.hooks - {i},
          unloaded.ticks,
          unloaded.counter)
  }

  function ReloadEach(
      st: State, cs: seq<Candidate>, oldMap: map<string, nat>, unload: nat -> Outcome, limits: Limits): State
    decreases |cs|
  {
    if cs == [] then st
    else
      var before := ReloadEach(st, cs[..|cs| - 1], oldMap, unload, limits);
      var c := cs[|cs| - 1];
      if c.params.name in oldMap then
        ReloadOne(before, c, oldMap[c.params.name], unload(oldMap[c.params.name]), limits)
      else before
  }

  // ----- compaction -----

  /** How many live slots precede `i`: the index a live slot `i` is moved to. */
  function Rank(slots: seq<Slot>, i: nat): (r: nat)
    requires i <= |slots|
    ensures r <= i
  {
    if i == 0 then 0 else Rank(slots, i - 1) + if Filled(slots[i - 1]) then 1 else 0
  }

  /** The live slots below `n`, in order. */
  function Kept(slots: seq<Slot>, n: nat): (r: seq<Slot>)
    requires n <= |slots|
    ensures |r| == Rank(slots, n)
    ensures forall k | 0 <= k < |r| :: Filled(r[k])
  {
    if n == 0 then []
    else if Filled(slots[n - 1]) then Kept(slots, n - 1) + [slots[n - 1]]
    else Kept(slots, n - 1)
  }

  function Renumber(slot: Slot, i: nat): Slot {
    if slot.instance.Some? then slot.(instance := Some(slot.instance.value.(idx := i))) else slot
  }

  function RenumberAll(slots: seq<Slot>): seq<Slot> {
    seq(|slots|, i requires 0 <= i < |slots| => Renumber(slots[i], i))
  }

  function Remap(s: seq<nat>, slots: seq<Slot>): seq<nat> {
    if s == [] then []
    else if FilledAt(slots, s[0]) then [Rank(slots, s[0])] + Remap(s[1..], slots)
    else Remap(s[1..], slots)
  }

  /** Routes after compaction: translated, sorted by the slots kept, without empty entries. */
  function RemapRoutes(routes: Routes, slots: seq<Slot>, kept: seq<Slot>): Routes {
    map c | c in routes && Remap(routes[c], slots) != [] :: SortBy(Remap(routes[c], slots), ByPriority(kept))
  }

  function RemapHooks(hooks: set<nat>, slots: seq<Slot>): set<nat> {
    set i | i in hooks && FilledAt(slots, i) :: Rank(slots, i)
  }

  function RemapTick(t: Tick, slots: seq<Slot>): Tick {
    if FilledAt(slots, t.idx) then t.(idx := Rank(slots, t.idx)) else t
  }

  function RemapTicks(ticks: seq<Tick>, slots: seq<Slot>): seq<Tick> {
    if ticks == [] then [] else [RemapTick(ticks[0], slots)] + RemapTicks(ticks[1..], slots)
  }

  /** `compact`: lost slots go away and every index is renumbered. */
  function Compact(st: State): State {
    var kept := Kept(st.slots, |st.slots|);
    if |kept| == |st.slots| then st
    else
      State(
        RenumberAll(kept),
        RemapRoutes(st.routes, st.slots, kept),
        RemapHooks(st.hooks, st.slots),
        RemapTicks(st.ticks, st.slots),
        st.counter)
  }

  /** `reload_all`: remove, add, reload, sort, compact. */
  function ReloadAll(st: State, config: seq<Candidate>, unload: nat -> Outcome, limits: Limits): State {
    var enabled := Enabled(config);
    var oldMap := OldMap(st.slots);
    var removed := RemoveAll(st, ToRemove(st.slots, NamesOf(enabled), |st.slots|), unload);
    var added := AddAll(removed, ToAdd(enabled, oldMap.Keys));
    var reloaded := ReloadEach(added, ToReload(enabled, st.slots), oldMap, unload, limits);
    Compact(reloaded.(routes := SortRoutes(reloaded.routes, reloaded.slots)))
  }

  // ----- the same phases, plugin by plugin -----

  function ViewRemove(v: View, keep: set<string>): View {
    v.(plugins := map n | n in v.plugins && n in keep :: v.plugins[n])
  }

  function ViewAdd(v: View, c: Candidate): View {
    if c.path.None? || !c.compiles || c.load.built.None? then v
    else
      var (own, counter) := RunOwn([], v.counter, c.load.calls);
      if !c.load.loaded then v.(counter := counter)
      else
        View(
          v.plugins[c.params.name :=
            Plugin(c.load.tag, c.load.built.value, c.params, c.path.value, c.mtime, 0, 0, own)],
          counter)
  }

  function ViewAddAll(v: View, cs: seq<Candidate>): View
    decreases |cs|
  {
    if cs == [] then v else ViewAdd(ViewAddAll(v, cs[..|cs| - 1]), cs[|cs| - 1])
  }

  /** A plugin either becomes the new instance, or stays as it is with one more failure on its record. */
  function ViewReplace(
      v: View, name: string, load: Load, params: Params, path: string, mtime: Option<int>, limits: Limits): View
    requires name in v.plugins
  {
    var p := v.plugins[name];
    if p.reloadFailures >= limits.reloadFailures then v
    else
      var failed := p.(reloadFailures := SaturatingIncrement(p.reloadFailures));
      if load.built.None? then v.(plugins := v.plugins[name := failed])
      else
        var (own, counter) := RunOwn([], v.counter, load.calls);
        if !load.loaded then View(v.plugins[name := failed], counter)
        else View(v.plugins[name := Plugin(load.tag, load.built.value, params, path, mtime, 0, 0, own)], counter)
  }

  function ViewReload(v: View, c: Candidate, limits: Limits): View {
    if c.params.name !in v.plugins || c.path.None? || !c.compiles then v
    else ViewReplace(v, c.params.name, c.load, c.params, c.path.value, c.mtime, limits)
  }

  function ViewReloadEach(v: View, cs: seq<Candidate>, limits: Limits): View
    decreases |cs|
  {
    if cs == [] then v else ViewReload(ViewReloadEach(v, cs[..|cs| - 1], limits), cs[|cs| - 1], limits)
  }

  function ViewToReload(enabled: seq<Candidate>, plugins: map<string, Plugin>): (r: seq<Candidate>)
    ensures forall c | c in r ::
      c in enabled && c.params.name in plugins
      && var p := plugins[c.params.name]; Changed(c, p.params, p.path, p.mtime)
  {
    if enabled == [] then []
    else
      var c := enabled[0];
      if c.params.name in plugins
         && var p := plugins[c.params.name]; Changed(c, p.params, p.path, p.mtime)
      then [c] + ViewToReload(enabled[1..], plugins)
      else ViewToReload(enabled[1..], plugins)
  }

  function ViewReloadAll(v: View, config: seq<Candidate>, limits: Limits): View {
    var enabled := Enabled(config);
    var removed := ViewRemove(v, NamesOf(enabled));
    var added := ViewAddAll(removed, ToAdd(enabled, v.plugins.Keys));
    ViewReloadEach(added, ViewToReload(enabled, v.plugins), limits)
  }
}

/** The plugin host's registries as one value, and the lookups its operations share. */
module PluginState {
  import opened Wrappers
  import opened StableSort

  const MIN_INTERVAL := 5
  const MAX_INTERVAL := 86400
  const MAX_TICKS_PER_PLUGIN := 8
  const U32_MAX := 0xFFFF_FFFF

  /** What a compiled module offers: its metadata commands and the hooks it exports. */
  datatype Exports = Exports(commands: seq<string>, onMessage: bool, onTick: bool, onUnload: bool)

  /** `tag` stands for the identity of the running instance, `idx` for the index stored inside it. */
  datatype Instance = Instance(tag: nat, idx: nat, exports: Exports)

  datatype Params = Params(name: string, priority: nat, config: string)

  datatype Slot = Slot(
    instance: Option<Instance>,
    params: Params,
    path: string,
    mtime: Option<int>,
    lost: nat,
    reloadFailures: nat)

  datatype Tick = Tick(idx: nat, name: string, interval: nat, id: nat)

  datatype Limits = Limits(lost: nat, reloadFailures: nat)

  type Routes = map<string, seq<nat>>

  datatype State = State(
    slots: seq<Slot>,
    routes: Routes,
    hooks: set<nat>,
    ticks: seq<Tick>,
    counter: nat)

  /** One `register_tick` host call made by a plugin, while it loads or while it runs. */
  datatype TickCall = TickCall(name: string, interval: nat)

  /** Everything the host observes when it builds an instance and runs `on_load`. */
  datatype Load = Load(tag: nat, built: Option<Exports>, calls: seq<TickCall>, loaded: bool)

  /** How one call into a plugin ends. */
  datatype Outcome = Returned | Failed | Panicked | TimedOut

  predicate Filled(slot: Slot) {
    slot.instance.Some?
  }

  predicate FilledAt(slots: seq<Slot>, i: nat) {
    i < |slots| && Filled(slots[i])
  }

  function SaturatingIncrement(n: nat): (r: nat)
    ensures n <= 0xFFFF_FFFF ==> n <= r <= 0xFFFF_FFFF && (r == n <==> n == 0xFFFF_FFFF) && r <= n + 1
  {
    if n >= U32_MAX then U32_MAX else n + 1
  }

  // ----- tick registry -----

  datatype OwnTick = OwnTick(name: string, interval: nat, id: nat)

  function Own(t: Tick): OwnTick {
    OwnTick(t.name, t.interval, t.id)
  }

  /** The registrations of the plugin at `idx`, in registry order. */
  function TicksOf(ticks: seq<Tick>, idx: nat): seq<OwnTick> {
    if ticks == [] then []
    else if ticks[0].idx == idx then [Own(ticks[0])] + TicksOf(ticks[1..], idx)
    else TicksOf(ticks[1..], idx)
  }

  function SelectTicks(ticks: seq<Tick>, idx: nat): seq<Tick> {
    if ticks == [] then []
    else if ticks[0].idx == idx then [ticks[0]] + SelectTicks(ticks[1..], idx)
    else SelectTicks(ticks[1..], idx)
  }

  function DropTicks(ticks: seq<Tick>, idx: nat): seq<Tick> {
    if ticks == [] then []
    else if ticks[0].idx == idx then DropTicks(ticks[1..], idx)
    else [ticks[0]] + DropTicks(ticks[1..], idx)
  }

  /** Position of the first registration of `idx` under `name`; the registry's length if there is none. */
  function FindTick(ticks: seq<Tick>, idx: nat, name: string): (p: nat)
    ensures p <= |ticks|
    ensures p < |ticks| ==> ticks[p].idx == idx && ticks[p].name == name
  {
    if ticks == [] then 0
    else if ticks[0].idx == idx && ticks[0].name == name then 0
    else 1 + FindTick(ticks[1..], idx, name)
  }

  /** The `register_tick` host call of the plugin at `idx`: new registry and new id counter. */
  function RegisterTick(ticks: seq<Tick>, counter: nat, idx: nat, call: TickCall): (seq<Tick>, nat) {
    var p := FindTick(ticks, idx, call.name);
    if call.interval < MIN_INTERVAL || call.interval > MAX_INTERVAL then (ticks, counter)
    else if |TicksOf(ticks, idx)| >= MAX_TICKS_PER_PLUGIN && p == |ticks| then (ticks, counter)
    else if p < |ticks| then (ticks[p := ticks[p].(interval := call.interval)], counter)
    else (ticks + [Tick(idx, call.name, call.interval, counter)], (counter + 1) % (U32_MAX + 1))
  }

  function RunCalls(ticks: seq<Tick>, counter: nat, idx: nat, calls: seq<TickCall>): (seq<Tick>, nat) {
    if calls == [] then (ticks, counter)
    else
      var (t, c) := RunCalls(ticks, counter, idx, calls[..|calls| - 1]);
      RegisterTick(t, c, idx, calls[|calls| - 1])
  }

  // ----- command routes -----

  /** How often the plugin at `i` is listed under command `c`. */
  function RouteCount(routes: Routes, c: string, i: nat): nat {
    if c in routes then multiset(routes[c])[i] else 0
  }

  function Without(s: seq<nat>, i: nat): (r: seq<nat>)
    ensures multiset(r) == multiset(s)[i := 0]
  {
    if s == [] then []
    else
      assert s == [s[0]] + s[1..];
      if s[0] == i then Without(s[1..], i) else [s[0]] + Without(s[1..], i)
  }

  function DropRoutes(routes: Routes, i: nat): Routes {
    map c | c in routes :: Without(routes[c], i)
  }

  function AddRoute(routes: Routes, c: string, i: nat): Routes {
    routes[c := (if c in routes then routes[c] else []) + [i]]
  }

  function AddRoutes(routes: Routes, commands: seq<string>, i: nat): Routes {
    if commands == [] then routes
    else AddRoute(AddRoutes(routes, commands[..|commands| - 1], i), commands[|commands| - 1], i)
  }

  /** Priority used for sorting; an index outside the table sorts with priority 0. */
  function PriorityAt(slots: seq<Slot>, i: nat): nat {
    if i < |slots| then slots[i].params.priority else 0
  }

  function ByPriority(slots: seq<Slot>): (nat, nat) -> bool {
    (i: nat, j: nat) => PriorityAt(slots, i) >= PriorityAt(slots, j)
  }

  function SortRoutes(routes: Routes, slots: seq<Slot>): Routes {
    map c | c in routes :: SortBy(routes[c], ByPriority(slots))
  }

  /** Of any two plugins listed, the one listed first has at least the priority of the other. */
  predicate FallingPriority(list: seq<nat>, slots: seq<Slot>) {
    forall i, j | 0 <= i < j < |list| && list[i] < |slots| && list[j] < |slots| ::
      slots[list[i]].params.priority >= slots[list[j]].params.priority
  }

  /** Every command asks its plugins by falling priority. */
  predicate RoutesFall(routes: Routes, slots: seq<Slot>) {
    forall c | c in routes :: FallingPriority(routes[c], slots)
  }

  // ----- consistency of the three index structures -----

  predicate RoutesMatch(slots: seq<Slot>, routes: Routes, c: string, i: nat) {
    if i >= |slots| then RouteCount(routes, c, i) == 0
    else Filled(slots[i]) ==>
      RouteCount(routes, c, i) == multiset(slots[i].instance.value.exports.commands)[c]
  }

  ghost predicate RoutesValid(slots: seq<Slot>, routes: Routes) {
    forall c: string, i: nat :: RoutesMatch(slots, routes, c, i)
  }

  predicate HookMatches(slots: seq<Slot>, hooks: set<nat>, i: nat) {
    if i >= |slots| then i !in hooks
    else Filled(slots[i]) ==> (i in hooks <==> slots[i].instance.value.exports.onMessage)
  }

  ghost predicate HooksValid(slots: seq<Slot>, hooks: set<nat>) {
    forall i: nat :: HookMatches(slots, hooks, i)
  }

  predicate TicksWithin(ticks: seq<Tick>, s: set<nat>) {
    forall k | 0 <= k < |ticks| :: ticks[k].idx in s
  }

  function Indices(n: nat): (r: set<nat>)
    ensures forall i: nat :: i in r <==> i < n
  {
    if n == 0 then {} else Indices(n - 1) + {n - 1}
  }

  function Live(slots: seq<Slot>): set<nat> {
    set i: nat | i < |slots| && Filled(slots[i])
  }

  predicate SlotsValid(slots: seq<Slot>) {
    && (forall i | 0 <= i < |slots| && Filled(slots[i]) :: slots[i].instance.value.idx == i)
    && (forall i, j | 0 <= i < j < |slots| && Filled(slots[i]) && Filled(slots[j]) ::
          slots[i].params.name != slots[j].params.name)
  }

  /** Every index in use is in range, and denotes the plugin whose metadata put it there. */
  ghost predicate Valid(st: State) {
    && SlotsValid(st.slots)
    && RoutesValid(st.slots, st.routes)
    && HooksValid(st.slots, st.hooks)
    && TicksWithin(st.ticks, Indices(|st.slots|))
  }

  ghost predicate RoutesSorted(st: State) {
    forall c | c in st.routes :: SortedBy(st.routes[c], ByPriority(st.slots))
  }

  /** No registration belongs to a slot whose instance is gone. */
  predicate TicksOwned(st: State) {
    TicksWithin(st.ticks, Live(st.slots))
  }

  predicate AllFilled(slots: seq<Slot>) {
    forall i | 0 <= i < |slots| :: Filled(slots[i])
  }

  // ----- the registries seen by plugin name -----

  datatype Plugin = Plugin(
    tag: nat,
    exports: Exports,
    params: Params,
    path: string,
    mtime: Option<int>,
    lost: nat,
    reloadFailures: nat,
    ticks: seq<OwnTick>)

  datatype View = View(plugins: map<string, Plugin>, counter: nat)

  /** The live plugins by name; of two live slots with one name the later is found. */
  function OldMap(slots: seq<Slot>): (m: map<string, nat>)
    ensures forall n | n in m :: m[n] < |slots| && Filled(slots[m[n]]) && slots[m[n]].params.name == n
    ensures forall i | 0 <= i < |slots| && Filled(slots[i]) :: slots[i].params.name in m
  {
    if slots == [] then map[]
    else
      var last := |slots| - 1;
      var m := OldMap(slots[..last]);
      if Filled(slots[last]) then m[slots[last].params.name := last] else m
  }

  function PluginOf(slot: Slot, own: seq<OwnTick>): Plugin
    requires Filled(slot)
  {
    var inst := slot.instance.value;
    Plugin(inst.tag, inst.exports, slot.params, slot.path, slot.mtime, slot.lost, slot.reloadFailures, own)
  }

  function PluginAt(slots: seq<Slot>, ticks: seq<Tick>, i: nat): Plugin
    requires FilledAt(slots, i)
  {
    PluginOf(slots[i], TicksOf(ticks, i))
  }

  function ViewOf(st: State): View {
    var index := OldMap(st.slots);
    View(map n | n in index :: PluginAt(st.slots, st.ticks, index[n]), st.counter)
  }

  lemma OldMapUnique(slots: seq<Slot>)
    requires SlotsValid(slots)
    ensures forall i | 0 <= i < |slots| && Filled(slots[i]) :: OldMap(slots)[slots[i].params.name] == i
  {
  }

  /** The view is fixed by the live slots: each shows under its name, and nothing else does. */
  lemma ViewIs(st: State, v: View)
    requires SlotsValid(st.slots)
    requires v.counter == st.counter
    requires forall i | 0 <= i < |st.slots| && Filled(st.slots[i]) ::
      st.slots[i].params.name in v.plugins
      && v.plugins[st.slots[i].params.name] == PluginAt(st.slots, st.ticks, i)
    requires forall n | n in v.plugins ::
      exists i :: 0 <= i < |st.slots| && Filled(st.slots[i]) && st.slots[i].params.name == n
    ensures ViewOf(st) == v
  {
    OldMapUnique(st.slots);
    var p := ViewOf(st).plugins;
    forall n ensures n in p <==> n in v.plugins {
      if n in v.plugins {
        var i :| 0 <= i < |st.slots| && Filled(st.slots[i]) && st.slots[i].params.name == n;
      }
    }
  }

  lemma ViewHas(st: State, i: nat)
    requires SlotsValid(st.slots) && FilledAt(st.slots, i)
    ensures st.slots[i].params.name in ViewOf(st).plugins
    ensures ViewOf(st).plugins[st.slots[i].params.name] == PluginAt(st.slots, st.ticks, i)
  {
    OldMapUnique(st.slots);
  }

  // ----- facts about ticks -----

  lemma {:induction false} TicksOfAppend(a: seq<Tick>, b: seq<Tick>, j: nat)
    ensures TicksOf(a + b, j) == TicksOf(a, j) + TicksOf(b, j)
  {
    if a == [] {
      assert a + b == b;
    } else {
      TicksOfAppend(a[1..], b, j);
      assert (a + b)[0] == a[0] && (a + b)[1..] == a[1..] + b;
    }
  }

  lemma {:induction false} TicksOfDrop(ticks: seq<Tick>, i: nat, j: nat)
    ensures TicksOf(DropTicks(ticks, i), j) == if i == j then [] else TicksOf(ticks, j)
  {
    if ticks != [] {
      TicksOfDrop(ticks[1..], i, j);
      if ticks[0].idx != i {
        assert DropTicks(ticks, i)[1..] == DropTicks(ticks[1..], i);
      }
    }
  }

  lemma {:induction false} TicksOfSelect(ticks: seq<Tick>, i: nat, j: nat)
    ensures TicksOf(SelectTicks(ticks, i), j) == if i == j then TicksOf(ticks, j) else []
  {
    if ticks != [] {
      TicksOfSelect(ticks[1..], i, j);
      if ticks[0].idx == i {
        assert SelectTicks(ticks, i)[1..] == SelectTicks(ticks[1..], i);
      }
    }
  }

  lemma {:induction false} DropAndSelect(ticks: seq<Tick>, i: nat)
    ensures multiset(DropTicks(ticks, i) + SelectTicks(ticks, i)) == multiset(ticks)
  {
    if ticks != [] {
      DropAndSelect(ticks[1..], i);
      assert ticks == [ticks[0]] + ticks[1..];
    }
  }

  lemma {:induction false} TicksOfUpdate(ticks: seq<Tick>, p: nat, secs: nat, j: nat)
    requires p < |ticks|
    ensures j != ticks[p].idx ==> TicksOf(ticks[p := ticks[p].(interval := secs)], j) == TicksOf(ticks, j)
  {
    var u := ticks[p := ticks[p].(interval := secs)];
    if p == 0 {
      assert u[1..] == ticks[1..];
    } else {
      TicksOfUpdate(ticks[1..], p - 1, secs, j);
      assert u[1..] == ticks[1..][p - 1 := ticks[p].(interval := secs)];
    }
  }

  // ----- what a plugin's own registrations become -----

  function FindOwn(own: seq<OwnTick>, name: string): (p: nat)
    ensures p <= |own|
    ensures p < |own| ==> own[p].name == name
    ensures forall k | 0 <= k < p :: own[k].name != name
  {
    if own == [] then 0
    else if own[0].name == name then 0
    else 1 + FindOwn(own[1..], name)
  }

  function RegisterOwn(own: seq<OwnTick>, counter: nat, call: TickCall): (seq<OwnTick>, nat) {
    var p := FindOwn(own, call.name);
    if call.interval < MIN_INTERVAL || call.interval > MAX_INTERVAL then (own, counter)
    else if p < |own| then (own[p := own[p].(interval := call.interval)], counter)
    else if |own| >= MAX_TICKS_PER_PLUGIN then (own, counter)
    else (own + [OwnTick(call.name, call.interval, counter)], (counter + 1) % (U32_MAX + 1))
  }

  function RunOwn(own: seq<OwnTick>, counter: nat, calls: seq<TickCall>): (seq<OwnTick>, nat) {
    if calls == [] then (own, counter)
    else
      var (o, c) := RunOwn(own, counter, calls[..|calls| - 1]);
      RegisterOwn(o, c, calls[|calls| - 1])
  }

  /** Names and intervals, without the ids. */
  function Plain(own: seq<OwnTick>): seq<(string, nat)> {
    seq(|own|, k requires 0 <= k < |own| => (own[k].name, own[k].interval))
  }

  lemma PlainFind(a: seq<OwnTick>, b: seq<OwnTick>, name: string)
    requires Plain(a) == Plain(b)
    ensures FindOwn(a, name) == FindOwn(b, name)
  {
    assert |a| == |Plain(a)| == |Plain(b)| == |b|;
    forall k | 0 <= k < |a| ensures a[k].name == b[k].name {
      assert Plain(a)[k] == Plain(b)[k];
    }
  }

  lemma PlainRegister(a: seq<OwnTick>, b: seq<OwnTick>, c: nat, d: nat, call: TickCall)
    requires Plain(a) == Plain(b)
    ensures Plain(RegisterOwn(a, c, call).0) == Plain(RegisterOwn(b, d, call).0)
  {
    PlainFind(a, b, call.name);
    assert |a| == |Plain(a)| == |Plain(b)| == |b|;
    var x, y := RegisterOwn(a, c, call).0, RegisterOwn(b, d, call).0;
    forall k | 0 <= k < |x| ensures Plain(x)[k] == Plain(y)[k] {
      assert k < |a| ==> Plain(a)[k] == Plain(b)[k];
    }
  }

  /** What the calls make of names and intervals does not depend on the ids handed out. */
  lemma {:induction false} PlainRun(a: seq<OwnTick>, b: seq<OwnTick>, c: nat, d: nat, calls: seq<TickCall>)
    requires Plain(a) == Plain(b)
    ensures Plain(RunOwn(a, c, calls).0) == Plain(RunOwn(b, d, calls).0)
    decreases |calls|
  {
    if calls != [] {
      var init := calls[..|calls| - 1];
      PlainRun(a, b, c, d, init);
      PlainRegister(
        RunOwn(a, c, init).0, RunOwn(b, d, init).0, RunOwn(a, c, init).1, RunOwn(b, d, init).1, calls[|calls| - 1]);
    }
  }

  lemma RunOwnLast(own: seq<OwnTick>, c: nat, calls: seq<TickCall>, call: TickCall)
    ensures RunOwn(own, c, calls + [call]) == var (o, e) := RunOwn(own, c, calls); RegisterOwn(o, e, call)
  {
    hide RegisterOwn;
    assert (calls + [call])[..|calls|] == calls;
  }

  lemma {:induction false} RunOwnAppend(own: seq<OwnTick>, c: nat, a: seq<TickCall>, b: seq<TickCall>)
    ensures
      var (o, e) := RunOwn(own, c, a);
      RunOwn(own, c, a + b) == RunOwn(o, e, b)
    decreases |b|
  {
    hide RegisterOwn;
    if b == [] {
      assert a + b == a;
    } else {
      var last := |b| - 1;
      RunOwnAppend(own, c, a, b[..last]);
      RunOwnLast(own, c, a + b[..last], b[last]);
      assert a + b == (a + b[..last]) + [b[last]];
    }
  }

  /** At most eight registrations per plugin, each under its own name, with an interval in range. */
  predicate Disciplined(own: seq<OwnTick>) {
    && |own| <= 8
    && (forall i, j | 0 <= i < j < |own| :: own[i].name != own[j].name)
    && (forall i | 0 <= i < |own| :: 5 <= own[i].interval <= 86400)
  }

  /** However a plugin calls `register_tick`, it keeps within the limit and the names stay unique. */
  lemma {:induction false} CallsKeepDiscipline(own: seq<OwnTick>, counter: nat, calls: seq<TickCall>)
    requires Disciplined(own)
    ensures Disciplined(RunOwn(own, counter, calls).0)
    decreases |calls|
  {
    if calls != [] {
      CallsKeepDiscipline(own, counter, calls[..|calls| - 1]);
    }
  }

  lemma {:induction false} FindTickIsFindOwn(ticks: seq<Tick>, idx: nat, name: string)
    ensures FindTick(ticks, idx, name) == |ticks| <==> FindOwn(TicksOf(ticks, idx), name) == |TicksOf(ticks, idx)|
  {
    if ticks != [] {
      FindTickIsFindOwn(ticks[1..], idx, name);
      if ticks[0].idx == idx {
        assert TicksOf(ticks, idx)[1..] == TicksOf(ticks[1..], idx);
      }
    }
  }

  lemma {:induction false} FoundIsUpdated(ticks: seq<Tick>, idx: nat, name: string, secs: nat)
    requires FindTick(ticks, idx, name) < |ticks|
    ensures
      var p, q := FindTick(ticks, idx, name), FindOwn(TicksOf(ticks, idx), name);
      && q < |TicksOf(ticks, idx)|
      && TicksOf(ticks[p := ticks[p].(interval := secs)], idx)
           == TicksOf(ticks, idx)[q := TicksOf(ticks, idx)[q].(interval := secs)]
  {
    var p, own := FindTick(ticks, idx, name), TicksOf(ticks, idx);
    var u := ticks[p := ticks[p].(interval := secs)];
    if ticks[0].idx == idx {
      assert own[1..] == TicksOf(ticks[1..], idx);
    }
    if p == 0 {
      assert u[1..] == ticks[1..];
    } else {
      FoundIsUpdated(ticks[1..], idx, name, secs);
      assert u[1..] == ticks[1..][p - 1 := ticks[p].(interval := secs)];
    }
  }

  /** On the shared registry a call changes exactly the caller's own registrations. */
  lemma RegisterTickIsOwn(ticks: seq<Tick>, counter: nat, idx: nat, call: TickCall, j: nat)
    ensures
      var (t, c) := RegisterTick(ticks, counter, idx, call);
      var (o, d) := RegisterOwn(TicksOf(ticks, idx), counter, call);
      c == d && TicksOf(t, j) == if j == idx then o else TicksOf(ticks, j)
  {
    FindTickIsFindOwn(ticks, idx, call.name);
    var added := Tick(idx, call.name, call.interval, counter);
    assert TicksOf([added], j) == if j == idx then [Own(added)] else [];
    hide TicksOf, FindTick, FindOwn;
    var p := FindTick(ticks, idx, call.name);
    if p < |ticks| {
      FoundIsUpdated(ticks, idx, call.name, call.interval);
      TicksOfUpdate(ticks, p, call.interval, j);
    } else {
      TicksOfAppend(ticks, [added], j);
    }
  }

  lemma {:induction false} RunCallsIsOwn(ticks: seq<Tick>, counter: nat, idx: nat, calls: seq<TickCall>, j: nat)
    ensures
      var (t, c) := RunCalls(ticks, counter, idx, calls);
      var (o, d) := RunOwn(TicksOf(ticks, idx), counter, calls);
      c == d && TicksOf(t, j) == if j == idx then o else TicksOf(ticks, j)
    decreases |calls|
  {
    if calls != [] {
      var rest := calls[..|calls| - 1];
      RunCallsIsOwn(ticks, counter, idx, rest, j);
      RunCallsIsOwn(ticks, counter, idx, rest, idx);
      var (t, c) := RunCalls(ticks, counter, idx, rest);
      RegisterTickIsOwn(t, c, idx, calls[|calls| - 1], j);
    }
  }

  lemma {:induction false} RunCallsWithin(ticks: seq<Tick>, counter: nat, idx: nat, calls: seq<TickCall>, s: set<nat>)
    requires TicksWithin(ticks, s) && idx in s
    ensures TicksWithin(RunCalls(ticks, counter, idx, calls).0, s)
    decreases |calls|
  {
    if calls != [] {
      RunCallsWithin(ticks, counter, idx, calls[..|calls| - 1], s);
    }
  }

  lemma {:induction false} PartsWithin(ticks: seq<Tick>, idx: nat, s: set<nat>)
    requires TicksWithin(ticks, s)
    ensures TicksWithin(DropTicks(ticks, idx), s - {idx})
    ensures TicksWithin(SelectTicks(ticks, idx), s)
  {
    if ticks != [] {
      assert TicksWithin(ticks[1..], s);
      PartsWithin(ticks[1..], idx, s);
      assert ticks[0].idx in s;
    }
  }

  // ----- facts about routes -----

  lemma {:induction false} AddRoutesCount(routes: Routes, commands: seq<string>, idx: nat, c: string, i: nat)
    ensures RouteCount(AddRoutes(routes, commands, idx), c, i)
         == RouteCount(routes, c, i) + if i == idx then multiset(commands)[c] else 0
    decreases |commands|
  {
    if commands != [] {
      var last := |commands| - 1;
      AddRoutesCount(routes, commands[..last], idx, c, i);
      assert commands == commands[..last] + [commands[last]];
    }
  }

  lemma DropRoutesCount(routes: Routes, idx: nat, c: string, i: nat)
    ensures RouteCount(DropRoutes(routes, idx), c, i) == if i == idx then 0 else RouteCount(routes, c, i)
  {
  }

  lemma SortRoutesCount(routes: Routes, slots: seq<Slot>, c: string, i: nat)
    ensures RouteCount(SortRoutes(routes, slots), c, i) == RouteCount(routes, c, i)
  {
  }

  lemma ByPriorityOrders(slots: seq<Slot>)
    ensures TotalPreorder(ByPriority(slots))
  {
  }

  lemma SortedFalls(list: seq<nat>, slots: seq<Slot>)
    requires SortedBy(list, ByPriority(slots))
    ensures FallingPriority(list, slots)
  {
    forall i, j | 0 <= i < j < |list| && list[i] < |slots| && list[j] < |slots|
      ensures slots[list[i]].params.priority >= slots[list[j]].params.priority
    {
      assert ByPriority(slots)(list[i], list[j]);
    }
  }

  lemma SortedRoutesFall(st: State)
    requires RoutesSorted(st)
    ensures RoutesFall(st.routes, st.slots)
  {
    forall c | c in st.routes ensures FallingPriority(st.routes[c], st.slots) {
      SortedFalls(st.routes[c], st.slots);
    }
  }

  lemma SortRoutesSorted(st: State)
    ensures RoutesSorted(st.(routes := SortRoutes(st.routes, st.slots)))
  {
    ByPriorityOrders(st.slots);
    forall c | c in st.routes ensures SortedBy(SortBy(st.routes[c], ByPriority(st.slots)), ByPriority(st.slots)) {
      SortBySorted(st.routes[c], ByPriority(st.slots));
    }
  }
}

/** The plugin host: slots addressed by index from a command map, a set of message hooks and a tick registry. */
module PluginHost {
  import opened Wrappers
  import opened StableSort
  import opened PluginState
  import opened PluginReload
  import opened PluginReloadProofs
  import opened PluginCompactProofs

  datatype Action = Handled(message: string) | Next | Intercepted

  /** How an execution inside the blocking task ended. */
  datatype ExecResult = Acted(action: Action) | PluginError | Panic | Timeout

  predicate ExecFailed(result: ExecResult) {
    !result.Acted?
  }

  /** The instance comes back unless its execution panicked or timed out. */
  predicate ComesBack(result: ExecResult) {
    result.Acted? || result.PluginError?
  }

  function Back(inst: Instance, result: ExecResult): Option<Instance> {
    if ComesBack(result) then Some(inst) else None
  }

  /** What `take_instance` leaves in the slots. */
  function TakeSlots(slots: seq<Slot>, i: nat): seq<Slot> {
    if i < |slots| then slots[i := slots[i].(instance := None)] else slots
  }

  /** What `put_instance` leaves in the slots; an index out of range drops the instance. */
  function PutSlots(slots: seq<Slot>, i: nat, inst: Instance): seq<Slot> {
    if i < |slots| then slots[i := slots[i].(instance := Some(inst))] else slots
  }

  /** `complete_exec`: the instance goes back if it came back, and an error is counted. */
  function CompleteExec(
      st: State, i: nat, returned: Option<Instance>, result: ExecResult, load: Load, limits: Limits): State
  {
    var put := if returned.Some? then st.(slots := PutSlots(st.slots, i, returned.value)) else st;
    if ExecFailed(result) then RecordExecError(put, i, true, load, limits) else put
  }

  /** What one execution does: the ticks it registers, how it ends, and what a reload there would load. */
  datatype Ran = Ran(calls: seq<TickCall>, result: ExecResult, load: Load)

  /**
   * One execution on the instance of slot `i`, from checking it out to counting an error. While it runs it
   * may register ticks, under the index stored in the instance.
   */
  function RunOnce(st: State, i: nat, run: Ran, limits: Limits): State
    requires FilledAt(st.slots, i)
  {
    var inst := st.slots[i].instance.value;
    var (ticks, counter) := RunCalls(st.ticks, st.counter, inst.idx, run.calls);
    CompleteExec(
      st.(slots := TakeSlots(st.slots, i), ticks := ticks, counter := counter),
      i, Back(inst, run.result), run.result, run.load, limits)
  }

  predicate HandlesTicks(slots: seq<Slot>, i: nat) {
    FilledAt(slots, i) && slots[i].instance.value.exports.onTick
  }

  predicate HasTick(ticks: seq<Tick>, slot: nat, tick: nat) {
    exists k | 0 <= k < |ticks| :: ticks[k].idx == slot && ticks[k].id == tick
  }

  predicate Answers(result: ExecResult) {
    result.Acted? && result.action != Next
  }

  /** `dispatch_loop` from place `k` of the order, with nothing else going on. */
  function DispatchFrom(st: State, order: seq<nat>, k: nat, runs: nat -> Ran, limits: Limits): (State, Action)
    requires k <= |order|
    decreases |order| - k
  {
    if k == |order| then (st, Next)
    else if !FilledAt(st.slots, order[k]) then DispatchFrom(st, order, k + 1, runs, limits)
    else
      var after := RunOnce(st, order[k], runs(k), limits);
      if Answers(runs(k).result) then (after, runs(k).result.action)
      else DispatchFrom(after, order, k + 1, runs, limits)
  }

  /** The `register_tick` calls made from place `k` on by the plugin in slot `j`, up to the first answer. */
  function CallsOf(slots: seq<Slot>, order: seq<nat>, k: nat, runs: nat -> Ran, j: nat): seq<TickCall>
    requires k <= |order|
    decreases |order| - k
  {
    if k == |order| then []
    else if !FilledAt(slots, order[k]) then CallsOf(slots, order, k + 1, runs, j)
    else
      var own := if order[k] == j then runs(k).calls else [];
      if Answers(runs(k).result) then own else own + CallsOf(slots, order, k + 1, runs, j)
  }

  lemma RunActed(st: State, i: nat, run: Ran, limits: Limits, j: nat)
    requires SlotsValid(st.slots) && FilledAt(st.slots, i) && run.result.Acted?
    ensures
      var after := RunOnce(st, i, run, limits);
      && after.slots == st.slots && after.routes == st.routes && after.hooks == st.hooks
      && TicksOf(after.ticks, j)
           == if j == i then RunOwn(TicksOf(st.ticks, i), st.counter, run.calls).0 else TicksOf(st.ticks, j)
  {
    assert PutSlots(TakeSlots(st.slots, i), i, st.slots[i].instance.value) == st.slots;
    RunCallsIsOwn(st.ticks, st.counter, i, run.calls, j);
  }

  /**
   * A dispatch in which no plugin fails leaves slots, routes and hooks as they were. The names and intervals of
   * each plugin's ticks are what its own calls alone make of those it had, whatever the others register.
   */
  lemma {:induction false} DispatchRestores(
      st: State, order: seq<nat>, k: nat, runs: nat -> Ran, limits: Limits, j: nat, c: nat)
    requires SlotsValid(st.slots) && k <= |order| && forall l | k <= l < |order| :: runs(l).result.Acted?
    ensures
      var after := DispatchFrom(st, order, k, runs, limits).0;
      && after.slots == st.slots && after.routes == st.routes && after.hooks == st.hooks
      && Plain(TicksOf(after.ticks, j))
           == Plain(RunOwn(TicksOf(st.ticks, j), c, CallsOf(st.slots, order, k, runs, j)).0)
    decreases |order| - k
  {
    hide Answers, RunOnce, SlotsValid;
    if k < |order| {
      if FilledAt(st.slots, order[k]) {
        var i := order[k];
        RunActed(st, i, runs(k), limits, j);
        var after := RunOnce(st, i, runs(k), limits);
        var own := if i == j then runs(k).calls else [];
        var rest := if Answers(runs(k).result) then [] else CallsOf(st.slots, order, k + 1, runs, j);
        assert CallsOf(st.slots, order, k, runs, j) == own + rest;
        RunOwnAppend(TicksOf(st.ticks, j), c, own, rest);
        PlainRun(TicksOf(st.ticks, j), TicksOf(st.ticks, j), st.counter, c, own);
        var (o, e) := RunOwn(TicksOf(st.ticks, j), c, own);
        PlainRun(TicksOf(after.ticks, j), o, e, e, rest);
        if !Answers(runs(k).result) {
          DispatchRestores(after, order, k + 1, runs, limits, j, e);
        }
      } else {
        DispatchRestores(st, order, k + 1, runs, limits, j, c);
      }
    }
  }

  /** Place `j` of the order answers: before it nobody did, and what comes after it does not matter. */
  ghost predicate AnswersAt(st: State, order: seq<nat>, k: nat, j: nat, runs: nat -> Ran, limits: Limits)
    requires k <= |order|
  {
    && k <= j < |order|
    && FilledAt(DispatchFrom(st, order[..j], k, runs, limits).0.slots, order[j])
    && runs(j).result == Acted(DispatchFrom(st, order, k, runs, limits).1)
    && DispatchFrom(st, order[..j], k, runs, limits).1 == Next
    && DispatchFrom(st, order[..j + 1], k, runs, limits) == DispatchFrom(st, order, k, runs, limits)
  }

  /** Whatever fails on the way, an answer other than `Next` is that of the first plugin to give one. */
  lemma {:induction false} DispatchAnswers(st: State, order: seq<nat>, k: nat, runs: nat -> Ran, limits: Limits)
    requires k <= |order| && DispatchFrom(st, order, k, runs, limits).1 != Next
    ensures exists j :: AnswersAt(st, order, k, j, runs, limits)
    decreases |order| - k
  {
    hide RunOnce;
    var present := FilledAt(st.slots, order[k]);
    if present && Answers(runs(k).result) {
      assert AnswersAt(st, order, k, k, runs, limits);
    } else {
      var after := if present then RunOnce(st, order[k], runs(k), limits) else st;
      DispatchAnswers(after, order, k + 1, runs, limits);
      var j :| AnswersAt(after, order, k + 1, j, runs, limits);
      AnswersLater(st, after, order, k, j, runs, limits);
    }
  }

  /** A plugin that handles or intercepts ends the dispatch there and then; any other ending passes it on. */
  lemma OneTurn(st: State, order: seq<nat>, k: nat, runs: nat -> Ran, limits: Limits)
    requires k < |order|
    ensures
      var run, whole := runs(k), DispatchFrom(st, order, k, runs, limits);
      if order[k] >= |st.slots| || st.slots[order[k]].instance.None? then
        whole == DispatchFrom(st, order, k + 1, runs, limits)
      else
        match run.result
        case Acted(Handled(m)) => whole == (RunOnce(st, order[k], run, limits), Handled(m))
        case Acted(Intercepted) => whole == (RunOnce(st, order[k], run, limits), Intercepted)
        case _ => whole == DispatchFrom(RunOnce(st, order[k], run, limits), order, k + 1, runs, limits)
  {
    hide RunOnce;
  }

  lemma AnswersLater(st: State, after: State, order: seq<nat>, k: nat, j: nat, runs: nat -> Ran, limits: Limits)
    requires k < |order| && AnswersAt(after, order, k + 1, j, runs, limits)
    requires
      if FilledAt(st.slots, order[k]) then !Answers(runs(k).result) && after == RunOnce(st, order[k], runs(k), limits)
      else after == st
    ensures AnswersAt(st, order, k, j, runs, limits)
  {
    hide RunOnce;
    assert order[..j][k] == order[k] && order[..j + 1][k] == order[k];
  }

  /** An interval from five seconds to a day, and a tick the plugin already has or room for one more. */
  predicate Acceptable(own: seq<OwnTick>, call: TickCall) {
    && 5 <= call.interval <= 86400
    && (|own| < 8 || exists k :: 0 <= k < |own| && own[k].name == call.name)
  }

  lemma NameTaken(own: seq<OwnTick>, name: string)
    ensures FindOwn(own, name) < |own| <==> exists k :: 0 <= k < |own| && own[k].name == name
  {
  }

  /** What the scan of `register_tick` knows after `k` entries: the plugin's ticks so far and the one of that name. */
  predicate Scanned(ticks: seq<Tick>, idx: nat, name: string, k: nat, count: nat, pos: nat) {
    && k <= |ticks| && (pos == |ticks| || pos < k)
    && count == |TicksOf(ticks[..k], idx)|
    && FindTick(ticks, idx, name) == if pos < |ticks| then pos else k + FindTick(ticks[k..], idx, name)
  }

  lemma ScanOne(ticks: seq<Tick>, idx: nat, name: string, k: nat, count: nat, pos: nat)
    requires k < |ticks| && Scanned(ticks, idx, name, k, count, pos)
    ensures Scanned(ticks, idx, name, k + 1, if ticks[k].idx == idx then count + 1 else count,
                    if ticks[k].idx == idx && ticks[k].name == name && pos == |ticks| then k else pos)
  {
    assert ticks[..k + 1] == ticks[..k] + [ticks[k]];
    TicksOfAppend(ticks[..k], [ticks[k]], idx);
    assert ticks[k..][1..] == ticks[k + 1..];
  }

  lemma ScanAll(ticks: seq<Tick>, idx: nat, name: string, count: nat, pos: nat)
    requires Scanned(ticks, idx, name, |ticks|, count, pos)
    ensures count == |TicksOf(ticks, idx)| && pos == FindTick(ticks, idx, name)
  {
    assert ticks[..|ticks|] == ticks && ticks[|ticks|..] == [];
  }

  lemma AcceptedIs(ticks: seq<Tick>, idx: nat, call: TickCall)
    ensures Acceptable(TicksOf(ticks, idx), call) <==>
      && MIN_INTERVAL <= call.interval <= MAX_INTERVAL
      && (|TicksOf(ticks, idx)| < MAX_TICKS_PER_PLUGIN || FindTick(ticks, idx, call.name) < |ticks|)
  {
    FindTickIsFindOwn(ticks, idx, call.name);
    NameTaken(TicksOf(ticks, idx), call.name);
  }

  class PluginManager {
    var slots: seq<Slot>
    var commandMap: Routes
    var onMessageIndices: set<nat>
    var tickRegistry: seq<Tick>
    var tickIdCounter: nat
    const limits: Limits

    ghost function State(): State
      reads this
    {
      PluginState.State.State(slots, commandMap, onMessageIndices, tickRegistry, tickIdCounter)
    }

    constructor (slots: seq<Slot>, commandMap: Routes, hooks: set<nat>, ticks: seq<Tick>, counter: nat, limits: Limits)
      ensures State() == PluginState.State.State(slots, commandMap, hooks, ticks, counter)
      ensures this.limits == limits
    {
      this.slots := slots;
      this.commandMap := commandMap;
      this.onMessageIndices := hooks;
      this.tickRegistry := ticks;
      this.tickIdCounter := counter;
      this.limits := limits;
    }

    // ----- ticks -----

    /** The `register_tick` host call; an error returns nothing. */
    method RegisterTickCall(idx: nat, call: TickCall) returns (id: Option<nat>)
      modifies this
      ensures
        var (ticks, counter) := RegisterTick(old(tickRegistry), old(tickIdCounter), idx, call);
        State() == old(State()).(ticks := ticks, counter := counter)
      ensures id.Some? ==> exists k ::
        0 <= k < |tickRegistry| && tickRegistry[k] == Tick(idx, call.name, call.interval, id.value)
      ensures id.None? ==> State() == old(State())
      ensures id.Some? <==> Acceptable(TicksOf(old(tickRegistry), idx), call)
    {
      AcceptedIs(tickRegistry, idx, call);
      assert Scanned(tickRegistry, idx, call.name, 0, 0, |tickRegistry|);
      hide Acceptable, Scanned, TicksOf, FindTick;
      if call.interval < MIN_INTERVAL || call.interval > MAX_INTERVAL {
        return None;
      }
      var count: nat, pos: nat, k: nat := 0, |tickRegistry|, 0;
      while k < |tickRegistry|
        invariant k <= |tickRegistry| && State() == old(State())
        invariant Scanned(tickRegistry, idx, call.name, k, count, pos)
      {
        ScanOne(tickRegistry, idx, call.name, k, count, pos);
        if tickRegistry[k].idx == idx {
          count := count + 1;
          if pos == |tickRegistry| && tickRegistry[k].name == call.name {
            pos := k;
          }
        }
        k := k + 1;
      }
      ScanAll(tickRegistry, idx, call.name, count, pos);
      if count >= MAX_TICKS_PER_PLUGIN && pos == |tickRegistry| {
        return None;
      }
      if pos < |tickRegistry| {
        id := Some(tickRegistry[pos].id);
        tickRegistry := tickRegistry[pos := tickRegistry[pos].(interval := call.interval)];
        assert tickRegistry[pos] == Tick(idx, call.name, call.interval, id.value);
        return;
      }
      id := Some(tickIdCounter);
      tickRegistry := tickRegistry + [Tick(idx, call.name, call.interval, tickIdCounter)];
      tickIdCounter := (tickIdCounter + 1) % (U32_MAX + 1);
      assert tickRegistry[|tickRegistry| - 1] == Tick(idx, call.name, call.interval, id.value);
    }

    /** The `register_tick` calls of one piece of plugin code, under the index stored in its instance. */
    method HostCalls(idx: nat, calls: seq<TickCall>)
      modifies this
      ensures
        var (ticks, counter) := RunCalls(old(tickRegistry), old(tickIdCounter), idx, calls);
        State() == old(State()).(ticks := ticks, counter := counter)
    {
      for k := 0 to |calls|
        invariant
          var (ticks, counter) := RunCalls(old(tickRegistry), old(tickIdCounter), idx, calls[..k]);
          State() == old(State()).(ticks := ticks, counter := counter)
      {
        assert calls[..k + 1][..k] == calls[..k];
        var _ := RegisterTickCall(idx, calls[k]);
      }
      assert calls[..|calls|] == calls;
    }

    /** `on_load` of the instance being built for `idx`: its host calls, then how it ended. */
    method OnLoad(idx: nat, load: Load) returns (ok: bool)
      modifies this
      ensures
        var (ticks, counter) := RunCalls(old(tickRegistry), old(tickIdCounter), idx, load.calls);
        State() == old(State()).(ticks := ticks, counter := counter)
      ensures ok == load.loaded
    {
      HostCalls(idx, load.calls);
      ok := load.loaded;
    }

    // ----- instances -----

    method TakeInstance(idx: nat) returns (inst: Option<Instance>)
      modifies this
      ensures State() == old(State()).(slots := TakeSlots(old(slots), idx))
      ensures inst == if idx < old(|slots|) then old(slots)[idx].instance else None
    {
      if idx >= |slots| {
        return None;
      }
      inst := slots[idx].instance;
      slots := slots[idx := slots[idx].(instance := None)];
    }

    method PutInstance(idx: nat, inst: Instance)
      modifies this
      ensures State() == old(State()).(slots := PutSlots(old(slots), idx, inst))
    {
      if idx < |slots| {
        slots := slots[idx := slots[idx].(instance := Some(inst))];
      }
    }

    method PushRoutes(commands: seq<string>, idx: nat)
      modifies this
      ensures State() == old(State()).(routes := AddRoutes(old(commandMap), commands, idx))
    {
      var k := 0;
      while k < |commands|
        invariant 0 <= k <= |commands|
        invariant State() == old(State()).(routes := AddRoutes(old(commandMap), commands[..k], idx))
      {
        assert commands[..k + 1][..k] == commands[..k];
        var c := commands[k];
        commandMap := commandMap[c := (if c in commandMap then commandMap[c] else []) + [idx]];
        k := k + 1;
      }
      assert commands[..k] == commands;
    }

    method ReserializeCommandMap()
      modifies this
      ensures State() == old(State()).(routes := SortRoutes(old(commandMap), old(slots)))
      ensures RoutesSorted(State()) && RoutesFall(commandMap, slots)
      ensures forall c: string, i: nat :: RouteCount(commandMap, c, i) == RouteCount(old(commandMap), c, i)
    {
      SortRoutesSorted(State());
      forall c: string, i: nat
        ensures RouteCount(SortRoutes(commandMap, slots), c, i) == RouteCount(commandMap, c, i)
      {
        SortRoutesCount(commandMap, slots, c, i);
      }
      commandMap := map c | c in commandMap :: SortBy(commandMap[c], ByPriority(slots));
      SortedRoutesFall(State());
    }

    method CountReloadFailure(idx: nat)
      requires idx < |slots|
      modifies this
      ensures State() == CountFailure(old(State()), idx)
    {
      slots := slots[idx := slots[idx].(reloadFailures := SaturatingIncrement(slots[idx].reloadFailures))];
    }

    method ReloadOneInstance(idx: nat, load: Load) returns (ok: bool)
      modifies this
      ensures (State(), ok) == ReloadInstance(old(State()), idx, load, limits)
    {
      if idx >= |slots| || slots[idx].reloadFailures >= limits.reloadFailures {
        return false;
      }
      var oldTicks := SelectTicks(tickRegistry, idx);
      tickRegistry := DropTicks(tickRegistry, idx);
      if load.built.None? {
        if slots[idx].instance.Some? {
          tickRegistry := tickRegistry + oldTicks;
        }
        CountReloadFailure(idx);
        return false;
      }
      var loaded := OnLoad(idx, load);
      if !loaded {
        tickRegistry := DropTicks(tickRegistry, idx) + oldTicks;
        CountReloadFailure(idx);
        return false;
      }
      var exports := load.built.value;
      onMessageIndices := if exports.onMessage then onMessageIndices + {idx} else onMessageIndices - {idx};
      commandMap := DropRoutes(commandMap, idx);
      PushRoutes(exports.commands, idx);
      ReserializeCommandMap();
      slots := slots[idx := slots[idx].(
        instance := Some(Instance(load.tag, idx, exports)), lost := 0, reloadFailures := 0)];
      return true;
    }

    method RecordError(idx: nat, allowReload: bool, load: Load)
      modifies this
      ensures State() == RecordExecError(old(State()), idx, allowReload, load, limits)
    {
      if idx >= |slots| {
        return;
      }
      slots := slots[idx := slots[idx].(lost := SaturatingIncrement(slots[idx].lost))];
      if slots[idx].lost >= limits.lost && allowReload {
        var _ := ReloadOneInstance(idx, load);
      }
    }

    method Complete(idx: nat, returned: Option<Instance>, result: ExecResult, load: Load) returns (action: Action)
      modifies this
      ensures State() == CompleteExec(old(State()), idx, returned, result, load, limits)
      ensures action == if result.Acted? then result.action else Next
    {
      if returned.Some? {
        PutInstance(idx, returned.value);
      }
      match result {
        case Acted(a) => action := a;
        case _ =>
          RecordError(idx, true, load);
          action := Next;
      }
    }

    // ----- dispatching -----

    method CommandIndices(name: string) returns (indices: seq<nat>)
      ensures forall i: nat :: multiset(indices)[i] == RouteCount(commandMap, name, i)
      ensures name in commandMap ==> indices == commandMap[name]
    {
      indices := if name in commandMap then commandMap[name] else [];
    }

    /** `sorted_message_indices`: every hook once, by falling priority, whatever order the set is read in. */
    method SortedMessageIndices() returns (indices: seq<nat>)
      ensures multiset(indices) == multiset(onMessageIndices)
      ensures SortedBy(indices, ByPriority(slots)) && FallingPriority(indices, slots)
    {
      var left := onMessageIndices;
      var read: seq<nat> := [];
      while left != {}
        invariant multiset(read) + multiset(left) == multiset(onMessageIndices)
        decreases |left|
      {
        var i :| i in left;
        left := left - {i};
        read := read + [i];
      }
      ByPriorityOrders(slots);
      SortBySorted(read, ByPriority(slots));
      indices := SortBy(read, ByPriority(slots));
      SortedFalls(indices, slots);
    }

    /** `has_tick`. */
    method TickRegistered(slot: nat, tick: nat) returns (found: bool)
      ensures found <==> HasTick(tickRegistry, slot, tick)
    {
      for k := 0 to |tickRegistry|
        invariant forall j | 0 <= j < k :: !(tickRegistry[j].idx == slot && tickRegistry[j].id == tick)
      {
        if tickRegistry[k].idx == slot && tickRegistry[k].id == tick {
          return true;
        }
      }
      found := false;
    }

    /** `handle_tick`, all of it under one lock. */
    method HandleTick(idx: nat, run: Ran)
      modifies this
      ensures State() == if old(HandlesTicks(slots, idx)) then RunOnce(old(State()), idx, run, limits) else old(State())
    {
      if idx >= |slots| || slots[idx].instance.None? || !slots[idx].instance.value.exports.onTick {
        return;
      }
      var inst := TakeInstance(idx);
      HostCalls(inst.value.idx, run.calls);
      if ComesBack(run.result) {
        PutInstance(idx, inst.value);
      }
      if ExecFailed(run.result) {
        RecordError(idx, true, run.load);
      }
    }

    /** `dispatch_loop` run by itself. */
    method DispatchLoop(order: seq<nat>, runs: nat -> Ran) returns (action: Action)
      modifies this
      ensures (State(), action) == DispatchFrom(old(State()), order, 0, runs, limits)
    {
      for k := 0 to |order|
        invariant DispatchFrom(State(), order, k, runs, limits) == DispatchFrom(old(State()), order, 0, runs, limits)
      {
        ghost var before := State();
        var inst := TakeInstance(order[k]);
        if inst.None? {
          assert slots == before.slots;
          assert State() == before;
          continue;
        }
        var ran := runs(k);
        HostCalls(inst.value.idx, ran.calls);
        action := Complete(order[k], Back(inst.value, ran.result), ran.result, ran.load);
        if action != Next {
          return;
        }
      }
      action := Next;
    }

    // ----- hot reload -----

    method UnloadSingleInstance(idx: nat, outcome: Outcome)
      modifies this
      ensures State() == Unload(old(State()), idx, outcome)
    {
      if idx >= |slots| || slots[idx].instance.None? || !slots[idx].instance.value.exports.onUnload {
        return;
      }
      var noReload := Load(0, None, [], false);
      var inst := TakeInstance(idx);
      match outcome {
        case Returned =>
          PutInstance(idx, inst.value);
          assert slots == old(slots);
        case Failed =>
          PutInstance(idx, inst.value);
          RecordError(idx, false, noReload);
        case Panicked =>
          RecordError(idx, false, noReload);
        case TimedOut =>
          RecordError(idx, false, noReload);
      }
    }

    /** `diff_plugins`: what to remove (by ascending index), to add and to reload. */
    method DiffPlugins(enabled: seq<Candidate>)
      returns (toRemove: seq<nat>, toAdd: seq<Candidate>, toReload: seq<Candidate>, oldMap: map<string, nat>)
      ensures oldMap == OldMap(slots)
      ensures toRemove == ToRemove(slots, NamesOf(enabled), |slots|)
      ensures toAdd == ToAdd(enabled, oldMap.Keys)
      ensures toReload == ToReload(enabled, slots)
    {
      oldMap := LiveByName();
      toRemove := RemovedFrom(oldMap, NamesOf(enabled));
      toAdd := AddedFrom(enabled, oldMap);
      toReload := ChangedFrom(enabled, oldMap);
    }

    /** The enabled entries that no live plugin has the name of. */
    method AddedFrom(enabled: seq<Candidate>, oldMap: map<string, nat>) returns (toAdd: seq<Candidate>)
      ensures toAdd == ToAdd(enabled, oldMap.Keys)
    {
      toAdd := [];
      for k := 0 to |enabled|
        invariant toAdd + ToAdd(enabled[k..], oldMap.Keys) == ToAdd(enabled, oldMap.Keys)
      {
        assert enabled[k..][1..] == enabled[k + 1..];
        if enabled[k].params.name !in oldMap {
          toAdd := toAdd + [enabled[k]];
        }
      }
    }

    /** The enabled entries whose live plugin differs in priority, path, configuration or modification time. */
    method ChangedFrom(enabled: seq<Candidate>, oldMap: map<string, nat>) returns (toReload: seq<Candidate>)
      requires oldMap == OldMap(slots)
      ensures toReload == ToReload(enabled, slots)
    {
      toReload := [];
      for k := 0 to |enabled|
        invariant toReload + ToReload(enabled[k..], slots) == ToReload(enabled, slots)
      {
        assert enabled[k..][1..] == enabled[k + 1..];
        var c := enabled[k];
        if c.params.name in oldMap {
          var s := slots[oldMap[c.params.name]];
          if Changed(c, s.params, s.path, s.mtime) {
            toReload := toReload + [c];
          }
        }
      }
    }

    method LiveByName() returns (oldMap: map<string, nat>)
      ensures oldMap == OldMap(slots)
    {
      oldMap := map[];
      for i := 0 to |slots|
        invariant oldMap == OldMap(slots[..i])
      {
        assert slots[..i + 1][..i] == slots[..i];
        if slots[i].instance.Some? {
          oldMap := oldMap[slots[i].params.name := i];
        }
      }
      assert slots[..|slots|] == slots;
    }

    method RemovedFrom(oldMap: map<string, nat>, newNames: set<string>) returns (toRemove: seq<nat>)
      requires oldMap == OldMap(slots)
      ensures toRemove == ToRemove(slots, newNames, |slots|)
    {
      hide OldMap;
      toRemove := [];
      for i := 0 to |slots|
        invariant toRemove == ToRemove(slots, newNames, i)
      {
        var name := slots[i].params.name;
        if slots[i].instance.Some? && oldMap[name] == i && name !in newNames {
          toRemove := toRemove + [i];
        }
      }
    }

    method ApplyRemovals(toRemove: seq<nat>, unload: nat -> Outcome)
      modifies this
      ensures State() == RemoveAll(old(State()), toRemove, unload)
    {
      hide Unload, DropRoutes, DropTicks;
      var k := |toRemove|;
      assert toRemove[..k] == toRemove;
      while k > 0
        invariant 0 <= k <= |toRemove|
        invariant RemoveAll(State(), toRemove[..k], unload) == RemoveAll(old(State()), toRemove, unload)
      {
        k := k - 1;
        assert toRemove[..k + 1][..k] == toRemove[..k];
        var idx := toRemove[k];
        UnloadSingleInstance(idx, unload(idx));
        commandMap := DropRoutes(commandMap, idx);
        onMessageIndices := onMessageIndices - {idx};
        tickRegistry := DropTicks(tickRegistry, idx);
        if idx < |slots| {
          slots := slots[idx := slots[idx].(instance := None)];
        }
      }
    }

    method ApplyAdds(toAdd: seq<Candidate>)
      modifies this
      ensures State() == AddAll(old(State()), toAdd)
    {
      var k := 0;
      while k < |toAdd|
        invariant 0 <= k <= |toAdd|
        invariant State() == AddAll(old(State()), toAdd[..k])
      {
        assert toAdd[..k + 1][..k] == toAdd[..k];
        AddPlugin(toAdd[k]);
        k := k + 1;
      }
      assert toAdd[..k] == toAdd;
    }

    /** One turn of the loop in `apply_adds`. */
    method AddPlugin(c: Candidate)
      modifies this
      ensures State() == AddOne(old(State()), c)
    {
      if c.path.None? || !c.compiles || c.load.built.None? {
        return;
      }
      var idx := |slots|;
      var ok := OnLoad(idx, c.load);
      if !ok {
        tickRegistry := DropTicks(tickRegistry, idx);
        return;
      }
      var exports := c.load.built.value;
      PushRoutes(exports.commands, idx);
      if exports.onMessage {
        onMessageIndices := onMessageIndices + {idx};
      }
      slots := slots + [Slot(Some(Instance(c.load.tag, idx, exports)), c.params, c.path.value, c.mtime, 0, 0)];
    }

    method ApplyReloads(toReload: seq<Candidate>, oldMap: map<string, nat>, unload: nat -> Outcome)
      modifies this
      ensures State() == ReloadEach(old(State()), toReload, oldMap, unload, limits)
    {
      var k := 0;
      while k < |toReload|
        invariant 0 <= k <= |toReload|
        invariant State() == ReloadEach(old(State()), toReload[..k], oldMap, unload, limits)
      {
        assert toReload[..k + 1][..k] == toReload[..k];
        var c := toReload[k];
        if c.params.name in oldMap {
          ReloadPlugin(c, oldMap[c.params.name], unload(oldMap[c.params.name]));
        }
        k := k + 1;
      }
      assert toReload[..k] == toReload;
    }

    /** One turn of the loop in `apply_reloads`. */
    method ReloadPlugin(c: Candidate, idx: nat, outcome: Outcome)
      modifies this
      ensures State() == ReloadOne(old(State()), c, idx, outcome, limits)
    {
      if idx >= |slots| || slots[idx].reloadFailures >= limits.reloadFailures || c.path.None? || !c.compiles {
        return;
      }
      if c.load.built.None? {
        CountReloadFailure(idx);
        return;
      }
      var oldTicks := SelectTicks(tickRegistry, idx);
      tickRegistry := DropTicks(tickRegistry, idx);
      var ok := OnLoad(idx, c.load);
      if !ok {
        tickRegistry := DropTicks(tickRegistry, idx) + oldTicks;
        CountReloadFailure(idx);
        return;
      }
      UnloadSingleInstance(idx, outcome);
      commandMap := DropRoutes(commandMap, idx);
      onMessageIndices := onMessageIndices - {idx};
      var exports := c.load.built.value;
      PushRoutes(exports.commands, idx);
      if exports.onMessage {
        onMessageIndices := onMessageIndices + {idx};
      }
      slots := slots[idx := Slot(Some(Instance(c.load.tag, idx, exports)), c.params, c.path.value, c.mtime, 0, 0)];
    }

    /** The first half of `compact`: each live slot's new index, and the slots to keep. */
    method IndexMap() returns (oldToNew: seq<Option<nat>>, kept: seq<Slot>)
      ensures NewIndices(oldToNew, slots)
      ensures kept == Kept(slots, |slots|)
    {
      oldToNew, kept := [], [];
      var newLen, i := 0, 0;
      while i < |slots|
        invariant 0 <= i <= |slots| && |oldToNew| == i
        invariant newLen == Rank(slots, i)
        invariant kept == Kept(slots, i)
        invariant forall k | 0 <= k < i ::
          oldToNew[k] == if Filled(slots[k]) then Some(Rank(slots, k)) else None
      {
        if slots[i].instance.Some? {
          oldToNew := oldToNew + [Some(newLen)];
          newLen := newLen + 1;
          kept := kept + [slots[i]];
        } else {
          oldToNew := oldToNew + [None];
        }
        i := i + 1;
      }
    }

    method CompactSlots()
      modifies this
      ensures State() == Compact(old(State()))
    {
      var oldToNew, kept := IndexMap();
      if |kept| == |slots| {
        return;
      }
      ghost var before := slots;
      slots := kept;
      RenumberRoutes(oldToNew, before);
      HooksRemapped(onMessageIndices, oldToNew, before);
      onMessageIndices := TranslateHooks(onMessageIndices, oldToNew);
      RenumberTicks(oldToNew, before);
      RenumberInstances();
    }

    /** The command map's turn in `compact`: translate, sort by the kept slots, drop empty entries. */
    method RenumberRoutes(oldToNew: seq<Option<nat>>, ghost before: seq<Slot>)
      requires NewIndices(oldToNew, before)
      modifies this`commandMap
      ensures commandMap == RemapRoutes(old(commandMap), before, slots)
    {
      RoutesPipeline(commandMap, oldToNew, before, slots);
      commandMap := TranslateAll(commandMap, oldToNew);
      commandMap := SortRoutes(commandMap, slots);
      commandMap := DropEmpty(commandMap);
    }

    /** The tick registry's turn in `compact`: an index without a new one stays as it is. */
    method RenumberTicks(oldToNew: seq<Option<nat>>, ghost before: seq<Slot>)
      requires NewIndices(oldToNew, before)
      modifies this`tickRegistry
      ensures tickRegistry == RemapTicks(old(tickRegistry), before)
    {
      ghost var was := tickRegistry;
      var k := 0;
      while k < |tickRegistry|
        invariant 0 <= k <= |tickRegistry| == |was|
        invariant forall j | 0 <= j < k :: tickRegistry[j] == RemapTick(was[j], before)
        invariant forall j | k <= j < |was| :: tickRegistry[j] == was[j]
      {
        var t := tickRegistry[k];
        if t.idx < |oldToNew| && oldToNew[t.idx].Some? {
          tickRegistry := tickRegistry[k := t.(idx := oldToNew[t.idx].value)];
        }
        k := k + 1;
      }
      forall j | 0 <= j < |was|
        ensures |RemapTicks(was, before)| == |was| && tickRegistry[j] == RemapTicks(was, before)[j]
      {
        RemapTicksAt(was, before, j);
      }
      assert was == [] ==> RemapTicks(was, before) == [];
    }

    method RenumberInstances()
      modifies this`slots
      ensures slots == RenumberAll(old(slots))
    {
      var k := 0;
      while k < |slots|
        invariant 0 <= k <= |slots| == |old(slots)|
        invariant forall j | 0 <= j < k :: slots[j] == Renumber(old(slots)[j], j)
        invariant forall j | k <= j < |slots| :: slots[j] == old(slots)[j]
      {
        if slots[k].instance.Some? {
          slots := slots[k := slots[k].(instance := Some(slots[k].instance.value.(idx := k)))];
        }
        k := k + 1;
      }
    }

    /**
     * `reload_all`. Started with every index meaningful, it ends so, with no empty slot and with every route
     * in priority order; by name the registries are what adding, removing and replacing by name gives.
     */
    method ReloadAllPlugins(config: seq<Candidate>, unload: nat -> Outcome)
      modifies this
      ensures State() == ReloadAll(old(State()), config, unload, limits)
      ensures RoutesFall(commandMap, slots)
      ensures old(Valid(State()) && TicksOwned(State())) && DistinctNames(Enabled(config)) ==>
        && Valid(State()) && AllFilled(slots) && TicksOwned(State()) && RoutesSorted(State())
        && ViewOf(State()) == ViewReloadAll(old(ViewOf(State())), config, limits)
      ensures old(Valid(State())) && DistinctNames(Enabled(config)) ==>
        (Valid(State()) && ViewOf(State()) == ViewReloadAll(old(ViewOf(State())), config, limits)
         <==> old(TicksOwned(State())))
    {
      var enabled := Enabled(config);
      var toRemove, toAdd, toReload, oldMap := DiffPlugins(enabled);
      ApplyRemovals(toRemove, unload);
      ApplyAdds(toAdd);
      ApplyReloads(toReload, oldMap, unload);
      ReserializeCommandMap();
      CompactKeepsOrder(State());
      CompactSlots();
      SortedRoutesFall(State());
      if old(Valid(State())) && DistinctNames(enabled) {
        ReloadAllExact(old(State()), config, unload, limits);
        if old(TicksOwned(State())) {
          ReloadAllRefines(old(State()), config, unload, limits);
        }
      }
    }
  }

  function TranslateAll(routes: Routes, oldToNew: seq<Option<nat>>): Routes {
    map c | c in routes :: Translate(routes[c], oldToNew)
  }

  function TranslateHooks(hooks: set<nat>, oldToNew: seq<Option<nat>>): set<nat> {
    set j | j in hooks && j < |oldToNew| && oldToNew[j].Some? :: oldToNew[j].value
  }

  lemma HooksRemapped(hooks: set<nat>, oldToNew: seq<Option<nat>>, before: seq<Slot>)
    requires NewIndices(oldToNew, before)
    ensures TranslateHooks(hooks, oldToNew) == RemapHooks(hooks, before)
  {
  }

  function DropEmpty(routes: Routes): Routes {
    map c | c in routes && routes[c] != [] :: routes[c]
  }

  lemma RoutesPipeline(routes: Routes, oldToNew: seq<Option<nat>>, before: seq<Slot>, kept: seq<Slot>)
    requires NewIndices(oldToNew, before)
    ensures DropEmpty(SortRoutes(TranslateAll(routes, oldToNew), kept)) == RemapRoutes(routes, before, kept)
  {
    hide SortBy, Translate, Remap, NewIndices;
    var sorted := SortRoutes(TranslateAll(routes, oldToNew), kept);
    var target := RemapRoutes(routes, before, kept);
    forall c ensures c in DropEmpty(sorted) <==> c in target
      ensures c in target ==> sorted[c] == target[c]
    {
      if c in routes {
        var s := Remap(routes[c], before);
        TranslateIsRemap(routes[c], oldToNew, before);
        assert sorted[c] == SortBy(s, ByPriority(kept));
        assert |SortBy(s, ByPriority(kept))| == |s|;
      }
    }
  }

  predicate NewIndices(oldToNew: seq<Option<nat>>, slots: seq<Slot>) {
    |oldToNew| == |slots| && forall k | 0 <= k < |slots| ::
      oldToNew[k] == if Filled(slots[k]) then Some(Rank(slots, k)) else None
  }

  /** The indices of `s` that have a new one, translated. */
  function Translate(s: seq<nat>, oldToNew: seq<Option<nat>>): seq<nat> {
    if s == [] then []
    else if s[0] < |oldToNew| && oldToNew[s[0]].Some? then [oldToNew[s[0]].value] + Translate(s[1..], oldToNew)
    else Translate(s[1..], oldToNew)
  }

  lemma {:induction false} TranslateIsRemap(s: seq<nat>, oldToNew: seq<Option<nat>>, slots: seq<Slot>)
    requires NewIndices(oldToNew, slots)
    ensures Translate(s, oldToNew) == Remap(s, slots)
  {
    if s != [] {
      TranslateIsRemap(s[1..], oldToNew, slots);
    }
  }
}

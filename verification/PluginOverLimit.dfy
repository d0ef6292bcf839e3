/** Runs from start-up after which a plugin exceeds the limits on its ticks. */
module PluginOverLimit {
  import opened Wrappers
  import opened PluginState
  import opened PluginReload
  import opened PluginReloadProofs
  import PluginStart
  import opened PluginHost
  import opened PluginDispatch
  import opened PluginTickLimits
  import opened PluginUndisturbed
  import opened PluginConsequences

  function Listener(): Exports {
    Exports([], true, false, false)
  }

  /** A host of one plugin, which listens to messages. */
  function Alone(): seq<Candidate> {
    [Candidate(Params("a", 0, ""), true, Some("a.wasm"), true, None, Load(0, Some(Listener()), [], true))]
  }

  /** The plugin is at home, nothing holds the lock, and executor `e` and those after it have not been used. */
  ghost predicate Quiet(s: Sys, e: nat) {
    && |s.st.slots| == 1 && Filled(s.st.slots[0]) && s.st.slots[0].instance.value.idx == 0
    && s.st.slots[0].reloadFailures == 0
    && s.st.hooks == {0} && s.lock == None && s.reload == None
    && forall f | f in s.execs :: f < e && s.execs[f].holding == None
  }

  lemma AloneQuiet()
    ensures PluginStart.Startable(Alone()) && DistinctTags(Alone())
    ensures Quiet(AtStart(Alone()), 0) && AtStart(Alone()).st.slots[0].lost == 0
  {
    var st := PluginStart.Started(Alone());
    PluginStart.StartedValid(Alone());
    assert forall i: nat :: HookMatches(st.slots, st.hooks, i);
    assert HookMatches(st.slots, st.hooks, 0);
    assert st.hooks == {0};
  }

  /** A message is dispatched to the plugin by executor `e`, and this is how it ends. */
  function Dispatch(e: nat, result: ExecResult): seq<Step> {
    [StartMessage(e, [0]), Take(e), Complete(e, result)]
  }

  lemma Dispatched(s: Sys, e: nat, result: ExecResult, limits: Limits) returns (b: Sys, t: Sys)
    requires Quiet(s, e) && ExecFailed(result)
    ensures Running(b, e) && b.execs[e] == Executor([], Some(Held(0, s.st.slots[0].instance.value)), None)
    ensures b == s.(st := s.st.(slots := TakeSlots(s.st.slots, 0)), execs := s.execs[e := b.execs[e]])
    ensures CanStep(b, Complete(e, result)) && t == Do(b, Complete(e, result), limits)
    ensures Reaches(s, Dispatch(e, result), t, limits)
  {
    assert multiset([0]) == multiset(s.st.hooks);
    assert [0 as nat][1..] == [];
    var a := Do(s, StartMessage(e, [0]), limits);
    b := Do(a, Take(e), limits);
    t := Do(b, Complete(e, result), limits);
    assert b.execs == s.execs[e := b.execs[e]];
    ReachesOne(s, StartMessage(e, [0]), limits);
    ReachesNext(s, [StartMessage(e, [0])], a, Take(e), limits);
    ReachesNext(s, [StartMessage(e, [0]), Take(e)], b, Complete(e, result), limits);
    assert [StartMessage(e, [0]), Take(e)] + [Complete(e, result)] == Dispatch(e, result);
  }

  /** One more error and the plugin is reloaded. */
  predicate AtBrink(s: Sys, limits: Limits) {
    |s.st.slots| == 1 && s.st.slots[0].lost < U32_MAX && limits.lost <= s.st.slots[0].lost + 1
  }

  /** An error short of the threshold is counted, and nothing else. */
  lemma ErrorCounted(s: Sys, e: nat, limits: Limits) returns (t: Sys)
    requires Quiet(s, e) && s.st.slots[0].lost + 1 < limits.lost <= U32_MAX
    ensures Reaches(s, Dispatch(e, PluginError), t, limits) && Quiet(t, e + 1)
    ensures t.st.ticks == s.st.ticks && t.strays == s.strays && t.st.slots[0].lost == s.st.slots[0].lost + 1
  {
    var b;
    b, t := Dispatched(s, e, PluginError, limits);
  }

  lemma {:induction false} ToBrink(s: Sys, e: nat, limits: Limits) returns (steps: seq<Step>, e': nat, t: Sys)
    requires Quiet(s, e) && limits.lost <= U32_MAX && s.st.slots[0].lost < U32_MAX
    ensures Reaches(s, steps, t, limits) && Quiet(t, e') && AtBrink(t, limits)
    ensures t.st.ticks == s.st.ticks && t.strays == s.strays
    decreases limits.lost - s.st.slots[0].lost
  {
    hide Reaches;
    if AtBrink(s, limits) {
      steps, e', t := [], e, s;
      ReachesNone(s, limits);
    } else {
      var u := ErrorCounted(s, e, limits);
      var rest;
      rest, e', t := ToBrink(u, e + 1, limits);
      steps := Dispatch(e, PluginError) + rest;
      ReachesAppend(s, Dispatch(e, PluginError), u, rest, t, limits);
    }
  }

  lemma ReachesNone(s: Sys, limits: Limits)
    ensures Reaches(s, [], s, limits)
  {
  }

  /** The error at the brink begins a reload. */
  lemma FailOnce(s: Sys, e: nat, result: ExecResult, limits: Limits) returns (t: Sys)
    requires Quiet(s, e) && ExecFailed(result) && AtBrink(s, limits) && limits.reloadFailures >= 1
    ensures Reaches(s, Dispatch(e, result), t, limits)
    ensures t.reload == Some(Underway(0, SelectTicks(s.st.ticks, 0), None))
    ensures t.execs == s.execs[e := Executor([], None, None)]
    ensures
      var held := Held(0, s.st.slots[0].instance.value);
      && t.strays == (if result.Timeout? then s.strays + [held] else s.strays)
      && t.st == Counted(s.st.(slots := TakeSlots(s.st.slots, 0)), held, result).(ticks := DropTicks(s.st.ticks, 0))
  {
    hide DropTicks, SelectTicks, Reaches;
    var b;
    b, t := Dispatched(s, e, result, limits);
  }

  /** The plugin times out; the reload works and registers ticks. The old instance stays about. */
  lemma TimeoutAndReload(s: Sys, e: nat, calls: seq<TickCall>, limits: Limits) returns (steps: seq<Step>, t: Sys)
    requires Quiet(s, e) && s.strays == [] && AtBrink(s, limits) && limits.reloadFailures >= 1
    ensures Reaches(s, steps, t, limits) && Quiet(t, e + 1) && t.st.slots[0].lost == 0
    ensures |t.strays| == 1 && t.strays[0].inst.idx == 0
    ensures exists c :: TicksOf(t.st.ticks, 0) == RunOwn([], c, calls).0
  {
    hide Reaches, RunCalls, RunOwn;
    var load := Load(1, Some(Listener()), calls, true);
    var u := FailOnce(s, e, Timeout, limits);
    var st := u.st.(ticks := s.st.ticks);
    t := ReloadIsRun(u, st, load, limits);
    steps := Dispatch(e, Timeout) + ReloadSteps(load);
    ReachesAppend(s, Dispatch(e, Timeout), u, ReloadSteps(load), t, limits);
    ReplacedTicks(st.ticks, st.counter, 0, calls, 0);
  }

  function StraySteps(calls: seq<TickCall>): seq<Step> {
    seq(|calls|, k requires 0 <= k < |calls| => StrayCall(0, calls[k]))
  }

  lemma {:induction false} StrayCallsReach(s: Sys, calls: seq<TickCall>, limits: Limits)
    requires |s.strays| == 1
    ensures Reaches(s, StraySteps(calls), s.(st := Called(s.st, s.strays[0].inst.idx, calls)), limits)
    decreases |calls|
  {
    hide RegisterTick;
    if calls != [] {
      var rest, call := calls[..|calls| - 1], calls[|calls| - 1];
      StrayCallsReach(s, rest, limits);
      var t := s.(st := Called(s.st, s.strays[0].inst.idx, rest));
      assert StraySteps(calls) == StraySteps(rest) + [StrayCall(0, call)];
      ReachesNext(s, StraySteps(rest), t, StrayCall(0, call), limits);
    }
  }

  /** The plugin fails again; while the new instance is built the old one registers ticks, and the build fails. */
  lemma FailAndPutBack(s: Sys, e: nat, calls: seq<TickCall>, limits: Limits) returns (steps: seq<Step>, t: Sys)
    requires Quiet(s, e) && |s.strays| == 1 && s.strays[0].inst.idx == 0
    requires AtBrink(s, limits) && limits.reloadFailures >= 1
    ensures Reaches(s, steps, t, limits)
    ensures exists d :: TicksOf(t.st.ticks, 0) == RunOwn([], d, calls).0 + TicksOf(s.st.ticks, 0)
  {
    hide Reaches, RunCalls, RunOwn, DropTicks, SelectTicks;
    var first := Dispatch(e, PluginError);
    var u := FailOnce(s, e, PluginError, limits);
    var v := u.(st := Called(u.st, 0, calls));
    StrayCallsReach(u, calls, limits);
    ReachesAppend(s, first, u, StraySteps(calls), v, limits);
    t := Do(v, BuildFails, limits);
    steps := first + StraySteps(calls) + [BuildFails];
    ReachesNext(s, first + StraySteps(calls), v, BuildFails, limits);
    ReplacedTicks(s.st.ticks, u.st.counter, 0, calls, 0);
    var saved := SelectTicks(s.st.ticks, 0);
    assert t.st.ticks == v.st.ticks + saved;
    TicksOfAppend(v.st.ticks, saved, 0);
    TicksOfSelect(s.st.ticks, 0, 0);
    assert TicksOf(v.st.ticks, 0) == RunOwn([], u.st.counter, calls).0;
  }

  /** The error threshold fits its type and a failing plugin is reloaded at all. */
  predicate Usable(limits: Limits) {
    limits.lost <= U32_MAX && limits.reloadFailures >= 1
  }

  /**
   * Whatever `own` a plugin registers when it loads and `stray` an abandoned instance of it later, some run from
   * start-up leaves the plugin with both.
   */
  lemma BothRegistered(own: seq<TickCall>, stray: seq<TickCall>, limits: Limits)
    returns (states: seq<Sys>, steps: seq<Step>)
    requires Usable(limits)
    ensures Run(states, steps, limits) && states[0] == AtStart(Alone())
    ensures exists c, d ::
      TicksOf(states[|steps|].st.ticks, 0) == RunOwn([], d, stray).0 + RunOwn([], c, own).0
  {
    hide Reaches, RunOwn, Do, CanStep, TicksOf, Init, AtStart;
    AloneQuiet();
    StartedInit(Alone());
    var s := AtStart(Alone());
    NothingAbandoned(Alone());
    var s1, e1, t1 := ToBrink(s, 0, limits);
    var s2, t2 := TimeoutAndReload(t1, e1, own, limits);
    var c :| TicksOf(t2.st.ticks, 0) == RunOwn([], c, own).0;
    var s3, e3, t3 := ToBrink(t2, e1 + 1, limits);
    var s4, t4 := FailAndPutBack(t3, e3, stray, limits);
    var d :| TicksOf(t4.st.ticks, 0) == RunOwn([], d, stray).0 + TicksOf(t3.st.ticks, 0);
    ReachesAppend(s, s1, t1, s2, t2, limits);
    ReachesAppend(s, s1 + s2, t2, s3, t3, limits);
    ReachesAppend(s, s1 + s2 + s3, t3, s4, t4, limits);
    steps := s1 + s2 + s3 + s4;
    states := ReachesRun(s, steps, t4, limits);
  }

  lemma NothingAbandoned(cs: seq<Candidate>)
    requires PluginStart.AllLoad(cs)
    ensures AtStart(cs).strays == []
  {
  }

  // ----- nine ticks, and two of one name -----

  predicate Registrable(calls: seq<TickCall>) {
    && |calls| <= MAX_TICKS_PER_PLUGIN
    && (forall k | 0 <= k < |calls| :: MIN_INTERVAL <= calls[k].interval <= MAX_INTERVAL)
    && forall k, l | 0 <= k < l < |calls| :: calls[k].name != calls[l].name
  }

  lemma {:induction false} AllRegistered(counter: nat, calls: seq<TickCall>)
    requires Registrable(calls)
    ensures
      var own := RunOwn([], counter, calls).0;
      |own| == |calls| && forall k | 0 <= k < |own| :: own[k].name == calls[k].name
    decreases |calls|
  {
    if calls != [] {
      var rest := calls[..|calls| - 1];
      AllRegistered(counter, rest);
      var own := RunOwn([], counter, rest).0;
      assert forall k | 0 <= k < |own| :: own[k].name != calls[|calls| - 1].name;
    }
  }

  /** `n` registrations under names of different lengths. */
  function DifferentTicks(n: nat): (calls: seq<TickCall>)
    ensures |calls| == n
  {
    seq(n, k requires 0 <= k < n => TickCall(seq(k, _ => 't'), 60))
  }

  lemma DifferentRegistrable()
    ensures Registrable(DifferentTicks(8))
  {
    var calls := DifferentTicks(8);
    forall k, l | 0 <= k < l < |calls| ensures calls[k].name != calls[l].name {
      assert |calls[k].name| == k && |calls[l].name| == l;
    }
  }

  /** From start-up, two reloads, of which the second cannot build its instance: a plugin has nine ticks. */
  lemma NineTicks(limits: Limits) returns (states: seq<Sys>, steps: seq<Step>)
    requires Usable(limits)
    ensures Run(states, steps, limits) && states[0] == AtStart(Alone())
    ensures |TicksOf(states[|steps|].st.ticks, 0)| == 9
  {
    hide Init, CanStep, Do, TicksOf, RunOwn;
    hide DifferentTicks;
    var own, stray := DifferentTicks(8), [TickCall("t", 60)];
    states, steps := BothRegistered(own, stray, limits);
    var c, d :| TicksOf(states[|steps|].st.ticks, 0) == RunOwn([], d, stray).0 + RunOwn([], c, own).0;
    DifferentRegistrable();
    assert |own| == 8;
    AllRegistered(c, own);
    AllRegistered(d, stray);
  }

  /** From start-up, two such reloads: a plugin has two ticks of one name. */
  lemma TwoOfOneName(limits: Limits) returns (states: seq<Sys>, steps: seq<Step>)
    requires Usable(limits)
    ensures Run(states, steps, limits) && states[0] == AtStart(Alone())
    ensures
      var own := TicksOf(states[|steps|].st.ticks, 0);
      |own| == 2 && own[0].name == own[1].name
  {
    hide Init, CanStep, Do, TicksOf, RunOwn;
    var calls := [TickCall("t", 60)];
    states, steps := BothRegistered(calls, calls, limits);
    var c, d :| TicksOf(states[|steps|].st.ticks, 0) == RunOwn([], d, calls).0 + RunOwn([], c, calls).0;
    AllRegistered(c, calls);
    AllRegistered(d, calls);
  }
}

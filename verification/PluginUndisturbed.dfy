/** Sequences of dispatch steps; those of one execution that nobody disturbs are the manager's own methods. */
module PluginUndisturbed {
  import opened Wrappers
  import opened PluginState
  import opened PluginReload
  import opened PluginHost
  import opened PluginDispatch

  ghost predicate Reaches(s: Sys, steps: seq<Step>, t: Sys, limits: Limits)
    decreases |steps|
  {
    if steps == [] then t == s
    else CanStep(s, steps[0]) && Reaches(Do(s, steps[0], limits), steps[1..], t, limits)
  }

  lemma {:induction false} ReachesAppend(s: Sys, a: seq<Step>, t: Sys, b: seq<Step>, u: Sys, limits: Limits)
    requires Reaches(s, a, t, limits) && Reaches(t, b, u, limits)
    ensures Reaches(s, a + b, u, limits)
    decreases |a|
  {
    hide CanStep, Do;
    if a == [] {
      assert a + b == b;
    } else {
      ReachesAppend(Do(s, a[0], limits), a[1..], t, b, u, limits);
      assert (a + b)[1..] == a[1..] + b;
    }
  }

  lemma ReachesOne(s: Sys, step: Step, limits: Limits)
    requires CanStep(s, step)
    ensures Reaches(s, [step], Do(s, step, limits), limits)
  {
    hide CanStep, Do;
    assert [step][1..] == [];
    assert Reaches(Do(s, step, limits), [], Do(s, step, limits), limits);
  }

  lemma ReachesNext(s: Sys, a: seq<Step>, t: Sys, step: Step, limits: Limits)
    requires Reaches(s, a, t, limits) && CanStep(t, step)
    ensures Reaches(s, a + [step], Do(t, step, limits), limits)
  {
    hide CanStep, Do, Reaches;
    ReachesOne(t, step, limits);
    ReachesAppend(s, a, t, [step], Do(t, step, limits), limits);
  }

  /** Such steps, from a state in which runs begin, are a run. */
  lemma {:induction false} ReachesRun(s: Sys, steps: seq<Step>, t: Sys, limits: Limits) returns (states: seq<Sys>)
    requires Reaches(s, steps, t, limits)
    ensures |states| == |steps| + 1 && states[0] == s && states[|steps|] == t
    ensures forall k | 0 <= k < |steps| ::
      CanStep(states[k], steps[k]) && states[k + 1] == Do(states[k], steps[k], limits)
    decreases |steps|
  {
    hide CanStep, Do;
    if steps == [] {
      states := [s];
    } else {
      var rest := ReachesRun(Do(s, steps[0], limits), steps[1..], t, limits);
      states := [s] + rest;
      forall k | 0 <= k < |steps|
        ensures CanStep(states[k], steps[k]) && states[k + 1] == Do(states[k], steps[k], limits)
      {
        if k > 0 {
          assert steps[k] == steps[1..][k - 1];
        }
      }
    }
  }

  function HostSteps(e: nat, calls: seq<TickCall>): seq<Step> {
    seq(|calls|, k requires 0 <= k < |calls| => HostCall(e, calls[k]))
  }

  function LoadSteps(calls: seq<TickCall>): seq<Step> {
    seq(|calls|, k requires 0 <= k < |calls| => LoadCall(calls[k]))
  }

  /** The steps of a reload that has begun. */
  function ReloadSteps(load: Load): seq<Step> {
    if load.built.None? then [BuildFails]
    else
      [Build(load.tag, load.built.value)] + LoadSteps(load.calls) + [if load.loaded then LoadWorks else LoadFails]
  }

  function Called(st: State, idx: nat, calls: seq<TickCall>): State {
    var (ticks, counter) := RunCalls(st.ticks, st.counter, idx, calls);
    st.(ticks := ticks, counter := counter)
  }

  lemma {:induction false} HostCallsReach(s: Sys, e: nat, calls: seq<TickCall>, limits: Limits)
    requires Running(s, e)
    ensures Reaches(s, HostSteps(e, calls), s.(st := Called(s.st, s.execs[e].holding.value.inst.idx, calls)), limits)
    decreases |calls|
  {
    hide RegisterTick;
    if calls != [] {
      var rest, call := calls[..|calls| - 1], calls[|calls| - 1];
      HostCallsReach(s, e, rest, limits);
      var t := s.(st := Called(s.st, s.execs[e].holding.value.inst.idx, rest));
      assert HostSteps(e, calls) == HostSteps(e, rest) + [HostCall(e, call)];
      ReachesNext(s, HostSteps(e, rest), t, HostCall(e, call), limits);
    }
  }

  lemma {:induction false} LoadCallsReach(s: Sys, calls: seq<TickCall>, limits: Limits)
    requires Loading(s)
    ensures Reaches(s, LoadSteps(calls), s.(st := Called(s.st, s.reload.value.built.value.idx, calls)), limits)
    decreases |calls|
  {
    hide RegisterTick;
    if calls != [] {
      var rest, call := calls[..|calls| - 1], calls[|calls| - 1];
      LoadCallsReach(s, rest, limits);
      var t := s.(st := Called(s.st, s.reload.value.built.value.idx, rest));
      assert LoadSteps(calls) == LoadSteps(rest) + [LoadCall(call)];
      ReachesNext(s, LoadSteps(rest), t, LoadCall(call), limits);
    }
  }

  /** A reload that nobody disturbs is `reload_instance` as a whole. */
  lemma ReloadIsRun(s: Sys, st: State, load: Load, limits: Limits) returns (t: Sys)
    requires Building(s) && FreshTag(s, load.tag)
    requires
      var i := s.reload.value.slot;
      && s.st == st.(ticks := DropTicks(st.ticks, i)) && s.reload.value.saved == SelectTicks(st.ticks, i)
      && st.slots[i].reloadFailures < limits.reloadFailures
    ensures Reaches(s, ReloadSteps(load), t, limits)
    ensures t == Reloaded(s, ReloadInstance(st, s.reload.value.slot, load, limits).0)
  {
    hide RunCalls, Install;
    if load.built.None? {
      ReachesOne(s, BuildFails, limits);
      t := Do(s, BuildFails, limits);
    } else {
      var first := Build(load.tag, load.built.value);
      var u := Do(s, first, limits);
      var v := u.(st := Called(u.st, u.reload.value.slot, load.calls));
      ReachesOne(s, first, limits);
      LoadCallsReach(u, load.calls, limits);
      ReachesAppend(s, [first], u, LoadSteps(load.calls), v, limits);
      var last := if load.loaded then LoadWorks else LoadFails;
      t := Do(v, last, limits);
      ReachesNext(s, [first] + LoadSteps(load.calls), v, last, limits);
    }
  }

  /** The steps of a completion, with those of the reload it starts if it does. */
  function CompleteSteps(s: Sys, e: nat, result: ExecResult, load: Load, limits: Limits): seq<Step>
    requires Running(s, e)
  {
    var held := s.execs[e].holding.value;
    var reloads := ExecFailed(result) && NeedsReload(Counted(s.st, held, result), held.slot, limits);
    [Complete(e, result)] + if reloads then ReloadSteps(load) else []
  }

  /** A completion that nobody disturbs is `complete_exec` as a whole. */
  lemma CompleteIsRun(s: Sys, e: nat, result: ExecResult, load: Load, limits: Limits) returns (t: Sys)
    requires CanStep(s, Complete(e, result)) && FreshTag(s, load.tag)
    ensures Reaches(s, CompleteSteps(s, e, result, load, limits), t, limits)
    ensures
      var held := s.execs[e].holding.value;
      t.st == CompleteExec(s.st, held.slot, Back(held.inst, result), result, load, limits)
    ensures t.lock == None && t.reload == None
    ensures t.execs == s.execs[e :=
      Executor(s.execs[e].todo, None, if Answers(result) then Some(result.action) else None)]
  {
    hide ReloadInstance, ReloadSteps;
    var held := s.execs[e].holding.value;
    var st := Counted(s.st, held, result);
    var u := Do(s, Complete(e, result), limits);
    ReachesOne(s, Complete(e, result), limits);
    if u.reload.Some? {
      assert FreshTag(u, load.tag);
      t := ReloadIsRun(u, st, load, limits);
      ReachesAppend(s, [Complete(e, result)], u, ReloadSteps(load), t, limits);
    } else {
      t := u;
      if held.slot < |st.slots| && st.slots[held.slot].lost >= limits.lost && ExecFailed(result) {
        BlockedReload(st, held.slot, load, limits);
      }
    }
  }

  lemma BlockedReload(st: State, i: nat, load: Load, limits: Limits)
    requires i < |st.slots| && st.slots[i].reloadFailures >= limits.reloadFailures
    ensures ReloadInstance(st, i, load, limits).0 == st
  {
  }

  /** `handle_tick` is one such run of steps: take under the lock, host calls, complete. */
  lemma HandleTickIsRun(s: Sys, e: nat, i: nat, run: Ran, limits: Limits) returns (called: Sys, t: Sys)
    requires CanStep(s, LockedTick(e, i)) && FreshTag(s, run.load.tag)
    ensures Reaches(s, [LockedTick(e, i)] + HostSteps(e, run.calls), called, limits) && Running(called, e)
    ensures Reaches(called, CompleteSteps(called, e, run.result, run.load, limits), t, limits)
    ensures t.st == RunOnce(s.st, i, run, limits)
    ensures t.lock == None && t.reload == None
  {
    hide CompleteExec, CompleteSteps, RunCalls;
    var taken := Do(s, LockedTick(e, i), limits);
    ReachesOne(s, LockedTick(e, i), limits);
    HostCallsReach(taken, e, run.calls, limits);
    called := taken.(st := Called(taken.st, taken.execs[e].holding.value.inst.idx, run.calls));
    ReachesAppend(s, [LockedTick(e, i)], taken, HostSteps(e, run.calls), called, limits);
    assert FreshTag(called, run.load.tag);
    t := CompleteIsRun(called, e, run.result, run.load, limits);
  }

  // ----- a whole dispatch -----

  /** The instances that the reloads of these executions would build are new, and no two are the same. */
  predicate FreshRuns(s: Sys, runs: nat -> Ran, from: nat, to: nat) {
    && (forall l | from <= l < to :: FreshTag(s, runs(l).load.tag))
    && (forall l, m | from <= l < m < to :: runs(l).load.tag != runs(m).load.tag)
  }

  lemma CompletedFresh(st: State, i: nat, returned: Option<Instance>, run: Ran, limits: Limits, tag: nat)
    requires tag != run.load.tag
    requires forall j | 0 <= j < |st.slots| && Filled(st.slots[j]) :: st.slots[j].instance.value.tag != tag
    requires returned.Some? ==> returned.value.tag != tag
    ensures
      var slots := CompleteExec(st, i, returned, run.result, run.load, limits).slots;
      forall j | 0 <= j < |slots| && Filled(slots[j]) :: slots[j].instance.value.tag != tag
  {
    hide RunCalls, SortRoutes, AddRoutes, DropRoutes, DropTicks, SelectTicks;
  }

  lemma OneExecution(s: Sys, e: nat, run: Ran, limits: Limits) returns (steps: seq<Step>, t: Sys)
    requires e in s.execs && Idle(s.execs[e]) && s.execs[e].todo != [] && FilledAt(s.st.slots, s.execs[e].todo[0])
    requires s.lock == None && s.reload == None && FreshTag(s, run.load.tag)
    ensures Reaches(s, steps, t, limits) && t.st == RunOnce(s.st, s.execs[e].todo[0], run, limits)
    ensures t.lock == None && t.reload == None
    ensures t.execs == s.execs[e :=
      Executor(s.execs[e].todo[1..], None, if Answers(run.result) then Some(run.result.action) else None)]
  {
    hide CompleteExec, CompleteSteps, RunCalls, Reaches, Answers;
    var taken := Do(s, Take(e), limits);
    ReachesOne(s, Take(e), limits);
    HostCallsReach(taken, e, run.calls, limits);
    var called := taken.(st := Called(taken.st, taken.execs[e].holding.value.inst.idx, run.calls));
    ReachesAppend(s, [Take(e)], taken, HostSteps(e, run.calls), called, limits);
    assert FreshTag(called, run.load.tag);
    t := CompleteIsRun(called, e, run.result, run.load, limits);
    var last := CompleteSteps(called, e, run.result, run.load, limits);
    ReachesAppend(s, [Take(e)] + HostSteps(e, run.calls), called, last, t, limits);
    steps := [Take(e)] + HostSteps(e, run.calls) + last;
  }

  lemma StillFresh(s: Sys, t: Sys, e: nat, i: nat, run: Ran, limits: Limits, tag: nat)
    requires FilledAt(s.st.slots, i) && t.st == RunOnce(s.st, i, run, limits)
    requires exists x: Executor :: x.holding == None && t.execs == s.execs[e := x]
    requires FreshTag(s, tag) && tag != run.load.tag
    ensures FreshTag(t, tag)
  {
    hide CompleteExec, RunCalls;
    var inst := s.st.slots[i].instance.value;
    var (ticks, counter) := RunCalls(s.st.ticks, s.st.counter, inst.idx, run.calls);
    var st := s.st.(slots := TakeSlots(s.st.slots, i), ticks := ticks, counter := counter);
    CompletedFresh(st, i, Back(inst, run.result), run, limits, tag);
  }

  /** A dispatch that nobody disturbs is `dispatch_loop` as the class runs it, from wherever it has come to. */
  lemma {:induction false} DispatchIsRun(
      s: Sys, e: nat, order: seq<nat>, k: nat, runs: nat -> Ran, limits: Limits)
      returns (steps: seq<Step>, t: Sys)
    requires k <= |order| && e in s.execs && s.execs[e] == Executor(order[k..], None, None)
    requires s.lock == None && s.reload == None && FreshRuns(s, runs, k, |order|)
    ensures Reaches(s, steps, t, limits)
    ensures t.st == DispatchFrom(s.st, order, k, runs, limits).0
    ensures e in t.execs && t.execs[e].answer == Some(DispatchFrom(s.st, order, k, runs, limits).1)
    decreases |order| - k
  {
    hide Reaches, RunOnce, Answers;
    if k == |order| {
      ReachesOne(s, FallThrough(e), limits);
      steps, t := [FallThrough(e)], Do(s, FallThrough(e), limits);
    } else {
      var i := order[k];
      assert order[k..][0] == i && order[k..][1..] == order[k + 1..];
      var first, u;
      if FilledAt(s.st.slots, i) {
        first, u := OneExecution(s, e, runs(k), limits);
        forall l | k + 1 <= l < |order| ensures FreshTag(u, runs(l).load.tag) {
          StillFresh(s, u, e, i, runs(k), limits, runs(l).load.tag);
        }
      } else {
        ReachesOne(s, Take(e), limits);
        first, u := [Take(e)], Do(s, Take(e), limits);
      }
      if FilledAt(s.st.slots, i) && Answers(runs(k).result) {
        steps, t := first, u;
      } else {
        var rest;
        rest, t := DispatchIsRun(u, e, order, k + 1, runs, limits);
        ReachesAppend(s, first, u, rest, t, limits);
        steps := first + rest;
      }
    }
  }

  /** In particular so is the dispatch of a command from its first step. */
  lemma CommandIsRun(s: Sys, e: nat, command: string, runs: nat -> Ran, limits: Limits)
      returns (steps: seq<Step>, t: Sys)
    requires e !in s.execs && s.lock == None && s.reload == None
    requires FreshRuns(s, runs, 0, |Listed(s.st, command)|)
    ensures Reaches(s, steps, t, limits) && steps != [] && steps[0] == StartCommand(e, command)
    ensures t.st == DispatchFrom(s.st, Listed(s.st, command), 0, runs, limits).0
    ensures e in t.execs
      && t.execs[e].answer == Some(DispatchFrom(s.st, Listed(s.st, command), 0, runs, limits).1)
  {
    hide Reaches, DispatchFrom;
    steps, t := StartedIsRun(s, StartCommand(e, command), e, Listed(s.st, command), runs, limits);
  }

  /** So is that of a message, in whichever order of the hooks the sort leaves. */
  lemma MessageIsRun(s: Sys, e: nat, order: seq<nat>, runs: nat -> Ran, limits: Limits)
      returns (steps: seq<Step>, t: Sys)
    requires CanStep(s, StartMessage(e, order)) && s.lock == None && FreshRuns(s, runs, 0, |order|)
    ensures Reaches(s, steps, t, limits) && steps != [] && steps[0] == StartMessage(e, order)
    ensures t.st == DispatchFrom(s.st, order, 0, runs, limits).0
    ensures e in t.execs && t.execs[e].answer == Some(DispatchFrom(s.st, order, 0, runs, limits).1)
  {
    hide Reaches, DispatchFrom;
    steps, t := StartedIsRun(s, StartMessage(e, order), e, order, runs, limits);
  }

  /** And so is that of a tick, which asks the one plugin that registered it. */
  lemma TickIsRun(s: Sys, e: nat, i: nat, tick: nat, runs: nat -> Ran, limits: Limits)
      returns (steps: seq<Step>, t: Sys)
    requires CanStep(s, StartTick(e, i, tick)) && s.lock == None && FreshRuns(s, runs, 0, 1)
    ensures Reaches(s, steps, t, limits) && steps != [] && steps[0] == StartTick(e, i, tick)
    ensures t.st == DispatchFrom(s.st, [i], 0, runs, limits).0
    ensures e in t.execs && t.execs[e].answer == Some(DispatchFrom(s.st, [i], 0, runs, limits).1)
  {
    hide Reaches, DispatchFrom;
    steps, t := StartedIsRun(s, StartTick(e, i, tick), e, [i], runs, limits);
  }

  lemma StartedIsRun(s: Sys, start: Step, e: nat, order: seq<nat>, runs: nat -> Ran, limits: Limits)
      returns (steps: seq<Step>, t: Sys)
    requires CanStep(s, start) && Do(s, start, limits) == s.(execs := s.execs[e := Executor(order, None, None)])
    requires s.lock == None && s.reload == None && e !in s.execs && FreshRuns(s, runs, 0, |order|)
    ensures Reaches(s, steps, t, limits) && steps != [] && steps[0] == start
    ensures t.st == DispatchFrom(s.st, order, 0, runs, limits).0
    ensures e in t.execs && t.execs[e].answer == Some(DispatchFrom(s.st, order, 0, runs, limits).1)
  {
    hide Reaches, DispatchFrom, CanStep, Do;
    var u := s.(execs := s.execs[e := Executor(order, None, None)]);
    assert order[0..] == order;
    ReachesOne(s, start, limits);
    assert FreshRuns(u, runs, 0, |order|);
    var rest;
    rest, t := DispatchIsRun(u, e, order, 0, runs, limits);
    ReachesAppend(s, [start], u, rest, t, limits);
    steps := [start] + rest;
  }

  /** The plugins under a command, in the order of the map. */
  function Listed(st: State, command: string): seq<nat> {
    if command in st.routes then st.routes[command] else []
  }
}

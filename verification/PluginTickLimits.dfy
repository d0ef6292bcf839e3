/** When the limits on a plugin's ticks hold through a run of the dispatcher, and how far they can be missed. */
module PluginTickLimits {
  import opened Wrappers
  import opened PluginState
  import opened PluginReload
  import opened PluginReloadProofs
  import opened PluginHost
  import opened PluginDispatch

  /** The two lists together are within the limit and have no name in common. */
  predicate Fit(a: seq<OwnTick>, b: seq<OwnTick>) {
    && |a| + |b| <= MAX_TICKS_PER_PLUGIN
    && forall i, j | 0 <= i < |a| && 0 <= j < |b| :: a[i].name != b[j].name
  }

  lemma FitExact(a: seq<OwnTick>, b: seq<OwnTick>)
    requires Disciplined(a) && Disciplined(b)
    ensures Disciplined(a + b) <==> Fit(a, b)
  {
    var c := a + b;
    if Disciplined(c) {
      forall i, j | 0 <= i < |a| && 0 <= j < |b| ensures a[i].name != b[j].name {
        assert c[i].name != c[|a| + j].name;
      }
    }
  }

  lemma FitPlain(a: seq<OwnTick>, a': seq<OwnTick>, b: seq<OwnTick>)
    requires Plain(a) == Plain(a')
    ensures Fit(a, b) <==> Fit(a', b)
  {
    assert |a| == |Plain(a)| == |Plain(a')| == |a'|;
    forall i | 0 <= i < |a| ensures a[i].name == a'[i].name {
      assert Plain(a)[i] == Plain(a')[i];
    }
  }

  /** The registrations a reload has taken out of the registry. */
  function SavedTicks(s: Sys): seq<OwnTick> {
    if s.reload.Some? then TicksOf(s.reload.value.saved, s.reload.value.slot) else []
  }

  /** The reload that a completion starts is for slot `i`. */
  predicate StartsReloadOf(s: Sys, step: Step, limits: Limits, i: nat) {
    && step.Complete? && Running(s, step.exec) && ExecFailed(step.result)
    && var held := s.execs[step.exec].holding.value;
       held.slot == i && NeedsReload(Counted(s.st, held, step.result), i, limits)
  }

  /** What a step makes of the ticks of slot `j`. */
  ghost function OwnAfter(s: Sys, step: Step, limits: Limits, j: nat): seq<OwnTick>
    requires CanStep(s, step)
  {
    var own := TicksOf(s.st.ticks, j);
    match step
    case HostCall(_, call) => if Calling(s, step).value.slot == j then RegisterOwn(own, s.st.counter, call).0 else own
    case StrayCall(_, call) => if Calling(s, step).value.slot == j then RegisterOwn(own, s.st.counter, call).0 else own
    case LoadCall(call) => if ReloadingSlot(s, j) then RegisterOwn(own, s.st.counter, call).0 else own
    case Complete(_, _) => if StartsReloadOf(s, step, limits, j) then [] else own
    case BuildFails => if ReloadingSlot(s, j) && FilledAt(s.st.slots, j) then own + SavedTicks(s) else own
    case LoadFails => if ReloadingSlot(s, j) then SavedTicks(s) else own
    case _ => own
  }

  lemma OtherSaved(s: Sys, j: nat)
    requires Inv(s) && s.reload.Some? && s.reload.value.slot != j
    ensures TicksOf(s.reload.value.saved, j) == []
  {
    NoTicksOf(s.reload.value.saved, j);
  }

  lemma StepTicks(s: Sys, step: Step, limits: Limits, j: nat)
    requires Inv(s) && CanStep(s, step)
    ensures TicksOf(Do(s, step, limits).st.ticks, j) == OwnAfter(s, step, limits, j)
  {
    hide RegisterTick, Core, FreshTag, DropTicks, SelectTicks, HasTick, SortRoutes;
    match step {
      case HostCall(e, call) =>
        HeldIndex(s, e, s.execs[e].holding.value.slot);
        RegisterTickIsOwn(s.st.ticks, s.st.counter, s.execs[e].holding.value.inst.idx, call, j);
      case StrayCall(k, call) => RegisterTickIsOwn(s.st.ticks, s.st.counter, s.strays[k].inst.idx, call, j);
      case LoadCall(call) => RegisterTickIsOwn(s.st.ticks, s.st.counter, s.reload.value.slot, call, j);
      case Complete(e, result) => TicksOfDrop(s.st.ticks, s.execs[e].holding.value.slot, j);
      case BuildFails =>
        TicksOfAppend(s.st.ticks, s.reload.value.saved, j);
        if !ReloadingSlot(s, j) {
          OtherSaved(s, j);
        }
      case LoadFails =>
        TicksOfDrop(s.st.ticks, s.reload.value.slot, j);
        TicksOfAppend(DropTicks(s.st.ticks, s.reload.value.slot), s.reload.value.saved, j);
        if !ReloadingSlot(s, j) {
          OtherSaved(s, j);
        }
      case _ =>
    }
  }

  /** A reload saves the ticks the slot has when it starts, and those are what it keeps until it ends. */
  lemma StepSaved(s: Sys, step: Step, limits: Limits)
    requires CanStep(s, step)
    ensures
      var t := Do(s, step, limits);
      t.reload.Some? ==>
        var i := t.reload.value.slot;
        SavedTicks(t) == if s.reload.Some? then SavedTicks(s) else TicksOf(s.st.ticks, i)
    ensures
      var t := Do(s, step, limits);
      t.reload.Some? ==>
        if s.reload.Some? then t.reload.value.slot == s.reload.value.slot
        else StartsReloadOf(s, step, limits, t.reload.value.slot)
  {
    hide FreshTag, RegisterTick, Install, CountFailure, PutBack, HasTick;
    var t := Do(s, step, limits);
    if t.reload.Some? && s.reload.None? {
      TicksOfSelect(s.st.ticks, t.reload.value.slot, t.reload.value.slot);
    }
  }

  // ----- the limits, exactly -----

  /** The limits hold in the registry and of what a reload has set aside. */
  ghost predicate LimitsHold(s: Sys) {
    RegistryDisciplined(s.st.ticks) && Disciplined(SavedTicks(s))
  }

  /**
   * A failed build puts a live plugin's ticks back without clearing first: what an abandoned instance of the slot
   * has registered by then is still there.
   */
  predicate PutBackClashes(s: Sys, step: Step) {
    && step.BuildFails? && Building(s)
    && FilledAt(s.st.slots, s.reload.value.slot)
    && !Fit(TicksOf(s.st.ticks, s.reload.value.slot), SavedTicks(s))
  }

  lemma OneCall(own: seq<OwnTick>, counter: nat, call: TickCall)
    requires Disciplined(own)
    ensures Disciplined(RegisterOwn(own, counter, call).0)
  {
    CallsKeepDiscipline(own, counter, [call]);
    assert [call][..0] == [];
    assert RunOwn(own, counter, [call]) == RegisterOwn(own, counter, call);
  }

  lemma OwnDisciplined(s: Sys, step: Step, limits: Limits, j: nat)
    requires Inv(s) && LimitsHold(s) && CanStep(s, step)
    ensures Disciplined(OwnAfter(s, step, limits, j)) <==> !(PutBackClashes(s, step) && ReloadingSlot(s, j))
  {
    hide RegisterOwn, Core, FreshTag, Disciplined, Fit;
    var own := TicksOf(s.st.ticks, j);
    assert Disciplined(own);
    match step {
      case HostCall(_, call) => OneCall(own, s.st.counter, call);
      case StrayCall(_, call) => OneCall(own, s.st.counter, call);
      case LoadCall(call) => OneCall(own, s.st.counter, call);
      case BuildFails => FitExact(own, SavedTicks(s));
      case _ =>
    }
  }

  lemma SavedDisciplined(s: Sys, step: Step, limits: Limits)
    requires Inv(s) && LimitsHold(s) && CanStep(s, step)
    ensures Disciplined(SavedTicks(Do(s, step, limits)))
  {
    hide Inv, Do, CanStep;
    StepSaved(s, step, limits);
  }

  /** A step keeps the limits unless it is such a put-back. */
  lemma StepLimits(s: Sys, step: Step, limits: Limits)
    requires Inv(s) && LimitsHold(s) && CanStep(s, step)
    ensures Disciplined(SavedTicks(Do(s, step, limits)))
    ensures RegistryDisciplined(Do(s, step, limits).st.ticks) <==> !PutBackClashes(s, step)
  {
    hide Inv, Do, CanStep, Disciplined, OwnAfter, Fit;
    SavedDisciplined(s, step, limits);
    var ticks := Do(s, step, limits).st.ticks;
    forall j: nat ensures Disciplined(TicksOf(ticks, j)) <==> !(PutBackClashes(s, step) && ReloadingSlot(s, j)) {
      StepTicks(s, step, limits, j);
      OwnDisciplined(s, step, limits, j);
    }
    if PutBackClashes(s, step) {
      assert ReloadingSlot(s, s.reload.value.slot);
    }
  }

  /** No plugin exceeds the limits in the states up to `n`. */
  ghost predicate LimitsTo(states: seq<Sys>, n: nat)
    requires n < |states|
  {
    forall m | 0 <= m <= n :: RegistryDisciplined(states[m].st.ticks)
  }

  ghost predicate NoClash(states: seq<Sys>, steps: seq<Step>, n: nat)
    requires n <= |steps| < |states|
  {
    forall m | 0 <= m < n :: !PutBackClashes(states[m], steps[m])
  }

  lemma {:induction false} LimitsUntil(states: seq<Sys>, steps: seq<Step>, limits: Limits, n: nat)
    requires Run(states, steps, limits) && n < |states|
    ensures LimitsTo(states, n) <==> NoClash(states, steps, n)
    ensures NoClash(states, steps, n) ==> LimitsHold(states[n])
    decreases n
  {
    hide Inv, Do, CanStep, PutBackClashes, RegistryDisciplined;
    if n > 0 {
      var s, step := states[n - 1], steps[n - 1];
      assert LimitsTo(states, n) <==> LimitsTo(states, n - 1) && RegistryDisciplined(states[n].st.ticks);
      assert NoClash(states, steps, n) <==> NoClash(states, steps, n - 1) && !PutBackClashes(s, step);
      hide LimitsTo, NoClash;
      LimitsUntil(states, steps, limits, n - 1);
      RunInv(states, steps, limits, n - 1);
      if NoClash(states, steps, n - 1) {
        StepLimits(s, step, limits);
      }
    }
  }

  /**
   * No plugin ever exceeds the limits in a run if and only if no failed build of the run puts ticks back that do
   * not fit with what an abandoned instance has registered in the meantime.
   */
  lemma LimitsExact(states: seq<Sys>, steps: seq<Step>, limits: Limits)
    requires Run(states, steps, limits)
    ensures LimitsTo(states, |steps|) <==> NoClash(states, steps, |steps|)
  {
    LimitsUntil(states, steps, limits, |steps|);
  }

  // ----- where the clash comes from -----

  /** The calls made in steps `j` to `k` by abandoned instances of slot `i`. */
  function StrayCalls(states: seq<Sys>, steps: seq<Step>, j: nat, k: nat, i: nat): seq<TickCall>
    requires j <= k <= |steps| < |states|
    decreases k
  {
    if j == k then []
    else
      var s, step := states[k - 1], steps[k - 1];
      StrayCalls(states, steps, j, k - 1, i)
        + if step.StrayCall? && step.stray < |s.strays| && s.strays[step.stray].slot == i then [step.call] else []
  }

  /** A step in the middle of a build leaves the slot alone, and only an abandoned instance registers for it. */
  lemma WhileBuilding(s: Sys, step: Step, limits: Limits)
    requires Inv(s) && CanStep(s, step) && Building(s) && Building(Do(s, step, limits))
    ensures
      var t, i := Do(s, step, limits), s.reload.value.slot;
      && t.reload == s.reload && t.st.slots == s.st.slots
      && TicksOf(t.st.ticks, i)
           == if step.StrayCall? && s.strays[step.stray].slot == i
              then RegisterOwn(TicksOf(s.st.ticks, i), s.st.counter, step.call).0 else TicksOf(s.st.ticks, i)
  {
    hide RegisterOwn, Core, FreshTag;
    StepTicks(s, step, limits, s.reload.value.slot);
    if step.HostCall? {
      assert Holds(s, step.exec, s.execs[step.exec].holding.value.slot);
    }
  }

  lemma HeldSlotEmpty(s: Sys, e: nat)
    requires Core(s) && Running(s, e)
    ensures var i := s.execs[e].holding.value.slot; i < |s.st.slots| && !Filled(s.st.slots[i])
  {
    assert Holds(s, e, s.execs[e].holding.value.slot);
  }

  /** Before a step after which a build goes on, it was going on already or this step starts it. */
  lemma BuildStarts(s: Sys, step: Step, limits: Limits)
    requires Inv(s) && CanStep(s, step) && Building(Do(s, step, limits)) && !Building(s)
    ensures
      var t, i := Do(s, step, limits), Do(s, step, limits).reload.value.slot;
      && StartsReloadOf(s, step, limits, i)
      && (FilledAt(t.st.slots, i) <==> ComesBack(step.result))
      && SavedTicks(t) == TicksOf(s.st.ticks, i) && TicksOf(t.st.ticks, i) == []
  {
    hide Core, FreshTag;
    var i := Do(s, step, limits).reload.value.slot;
    StepSaved(s, step, limits);
    StepTicks(s, step, limits, i);
    HeldSlotEmpty(s, step.exec);
  }

  /** What there is to know of a build going on in state `k`: the completion that started it is step `j`. */
  ghost predicate BuildSince(states: seq<Sys>, steps: seq<Step>, limits: Limits, j: nat, k: nat)
    requires j < k <= |steps| < |states|
  {
    && Building(states[k])
    && var i := states[k].reload.value.slot;
       && StartsReloadOf(states[j], steps[j], limits, i)
       && (FilledAt(states[k].st.slots, i) <==> ComesBack(steps[j].result))
       && SavedTicks(states[k]) == TicksOf(states[j].st.ticks, i)
       && Plain(TicksOf(states[k].st.ticks, i)) == Plain(RunOwn([], 0, StrayCalls(states, steps, j + 1, k, i)).0)
  }

  lemma StrayExists(s: Sys, step: Step)
    requires CanStep(s, step) && step.StrayCall?
    ensures step.stray < |s.strays|
  {
  }

  lemma BuildGoesOn(states: seq<Sys>, steps: seq<Step>, limits: Limits, j: nat, k: nat)
    requires Run(states, steps, limits) && j < k < |steps|
    requires BuildSince(states, steps, limits, j, k) && Building(states[k + 1])
    ensures BuildSince(states, steps, limits, j, k + 1)
  {
    hide RegisterOwn, RunOwn, Inv, Do, CanStep, StartsReloadOf, ComesBack, TicksOf, Plain;
    RunInv(states, steps, limits, k);
    var s, step, i := states[k], steps[k], states[k].reload.value.slot;
    WhileBuilding(s, step, limits);
    var calls := StrayCalls(states, steps, j + 1, k, i);
    if step.StrayCall? {
      StrayExists(s, step);
      var (own, counter) := RunOwn([], 0, calls);
      PlainRegister(TicksOf(s.st.ticks, i), own, s.st.counter, counter, step.call);
      RunOwnLast([], 0, calls, step.call);
    }
    assert calls + [] == calls;
  }

  lemma {:induction false} BuildBegan(states: seq<Sys>, steps: seq<Step>, limits: Limits, k: nat) returns (j: nat)
    requires Run(states, steps, limits) && k < |states| && Building(states[k])
    ensures j < k && BuildSince(states, steps, limits, j, k)
    decreases k
  {
    hide Inv, Do, CanStep;
    if k == 0 {
      assert false;
    } else if Building(states[k - 1]) {
      j := BuildBegan(states, steps, limits, k - 1);
      BuildGoesOn(states, steps, limits, j, k - 1);
    } else {
      j := k - 1;
      RunInv(states, steps, limits, j);
      BuildStarts(states[j], steps[j], limits);
      assert StrayCalls(states, steps, j + 1, k, states[k].reload.value.slot) == [];
    }
  }

  /**
   * A failed build breaks the limits if and only if the plugin was live, which is so if its last execution
   * returned an error, and the ticks it had when the reload began do not fit with those that abandoned instances
   * of its slot registered while the build was going on.
   */
  lemma PutBackExact(states: seq<Sys>, steps: seq<Step>, limits: Limits, k: nat) returns (j: nat)
    requires Run(states, steps, limits) && k < |steps| && steps[k].BuildFails?
    requires LimitsTo(states, k)
    ensures j < k && Building(states[k])
    ensures
      var i := states[k].reload.value.slot;
      && StartsReloadOf(states[j], steps[j], limits, i)
      && (RegistryDisciplined(states[k + 1].st.ticks) <==>
            steps[j].result.PluginError? ==>
              Fit(RunOwn([], 0, StrayCalls(states, steps, j + 1, k, i)).0, TicksOf(states[j].st.ticks, i)))
  {
    hide Do, Inv, Disciplined, Fit, RunOwn;
    var i := states[k].reload.value.slot;
    j := BuildBegan(states, steps, limits, k);
    LimitsUntil(states, steps, limits, k);
    RunInv(states, steps, limits, k);
    StepLimits(states[k], steps[k], limits);
    FitPlain(
      TicksOf(states[k].st.ticks, i), RunOwn([], 0, StrayCalls(states, steps, j + 1, k, i)).0, SavedTicks(states[k]));
  }

  // ----- what holds in every run all the same -----

  predicate InRange(own: seq<OwnTick>) {
    forall i | 0 <= i < |own| :: MIN_INTERVAL <= own[i].interval <= MAX_INTERVAL
  }

  /** At most eight ticks for each reload that failed in a row, and eight more. */
  function Allowance(slot: Slot): nat {
    MAX_TICKS_PER_PLUGIN * (1 + slot.reloadFailures)
  }

  ghost predicate BoundedAt(s: Sys, i: nat)
    requires i < |s.st.slots|
  {
    var own := TicksOf(s.st.ticks, i);
    && InRange(own)
    && |own| <= (if ReloadingSlot(s, i) then MAX_TICKS_PER_PLUGIN else Allowance(s.st.slots[i]))
    && (ReloadingSlot(s, i) ==>
          && InRange(SavedTicks(s)) && |SavedTicks(s)| <= Allowance(s.st.slots[i])
          && s.st.slots[i].reloadFailures < U32_MAX)
  }

  /** How a step moves the count of failed reloads of slot `i`. */
  lemma StepFailures(s: Sys, step: Step, limits: Limits, i: nat)
    requires CanStep(s, step) && i < |s.st.slots|
    ensures
      var t, n := Do(s, step, limits), s.st.slots[i].reloadFailures;
      && i < |t.st.slots|
      && t.st.slots[i].reloadFailures
           == if !ReloadingSlot(s, i) then n
              else if step.LoadWorks? then 0
              else if step.BuildFails? || step.LoadFails? then SaturatingIncrement(n)
              else n
  {
    hide FreshTag, RegisterTick, SortRoutes, AddRoutes, DropRoutes, SelectTicks, DropTicks, HasTick, NeedsReload;
  }

  /** Which slot is being reloaded after a step. */
  lemma StepReloading(s: Sys, step: Step, limits: Limits, i: nat)
    requires CanStep(s, step) && i < |s.st.slots|
    ensures ReloadingSlot(Do(s, step, limits), i) <==>
              if s.reload.Some? then ReloadingSlot(s, i) && !step.LoadWorks? && !step.BuildFails? && !step.LoadFails?
              else StartsReloadOf(s, step, limits, i)
  {
    hide FreshTag, RegisterTick, Install, CountFailure, PutBack, SelectTicks, DropTicks, HasTick, NeedsReload, Counted;
  }

  lemma StepBounded(s: Sys, step: Step, limits: Limits, i: nat)
    requires Inv(s) && CanStep(s, step) && limits.reloadFailures <= U32_MAX && i < |s.st.slots|
    requires BoundedAt(s, i)
    ensures i < |Do(s, step, limits).st.slots| && BoundedAt(Do(s, step, limits), i)
  {
    hide Do, Core, FreshTag, TicksOf;
    StepTicks(s, step, limits, i);
    StepSaved(s, step, limits);
    StepFailures(s, step, limits, i);
    StepReloading(s, step, limits, i);
  }

  lemma {:induction false} RunBounded(states: seq<Sys>, steps: seq<Step>, limits: Limits, k: nat, i: nat)
    requires Run(states, steps, limits) && limits.reloadFailures <= U32_MAX
    requires k < |states| && i < |states[k].st.slots|
    ensures BoundedAt(states[k], i)
    decreases k
  {
    hide Do, CanStep;
    if k == 0 {
      assert Disciplined(TicksOf(states[0].st.ticks, i));
    } else {
      SlotsStay(states[k - 1], steps[k - 1], limits);
      RunBounded(states, steps, limits, k - 1, i);
      RunInv(states, steps, limits, k - 1);
      StepBounded(states[k - 1], steps[k - 1], limits, i);
    }
  }

  /**
   * In every run whatever: intervals stay in range, and a plugin never has more than eight ticks for each reload
   * of it that failed in a row and eight more.
   */
  lemma TicksBounded(states: seq<Sys>, steps: seq<Step>, limits: Limits, k: nat, i: nat)
    requires Run(states, steps, limits) && limits.reloadFailures <= U32_MAX
    requires k < |states| && i < |states[k].st.slots|
    ensures InRange(TicksOf(states[k].st.ticks, i))
    ensures |TicksOf(states[k].st.ticks, i)|
         <= MAX_TICKS_PER_PLUGIN * (1 + states[k].st.slots[i].reloadFailures)
  {
    RunBounded(states, steps, limits, k, i);
  }
}

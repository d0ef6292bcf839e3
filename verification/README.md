# A verified model of osubot's stateful and numeric cores

osubot is a chat bot written in Rust. This project models, in Dafny, the parts of it where a mistake would be
hardest to see by reading, and proves what they are for:

- **The WASM plugin host** (`PluginState`, `PluginReload`, `PluginReloadProofs`, `PluginCompactProofs`,
  `PluginOutcomes`, `PluginManager` with module `PluginHost`, `PluginStart`, `PluginDispatch`, `PluginProgress`,
  `PluginUndisturbed`, `PluginTickLimits`, `PluginConsequences`, `PluginOverLimit`). Plugins live in slots that a
  command map, a set of message hooks and a tick registry address by index, and a hot reload renumbers every index.
  The class `PluginHost.PluginManager` changes the fields in place as the Rust methods do; each method is tied to a
  function on a state value, and a second, index-free view (plugins by name) says what the index shuffling means.
  Concurrent dispatch is a state machine whose steps are the critical sections and the `register_tick` host calls,
  over any number of executors in any interleaving; executions given up on after a timeout or a cancellation may go on
  making host calls, also between the steps of a reload at the error threshold, which takes the registry's lock
  several times. A plugin is an oracle: it builds or not, lists commands, registers ticks while it loads and while it
  runs, loads or not, and each execution acts, errors, panics or times out.
- **The request deduplicator** (`Dedup`): a single-flight protocol as atomic steps of any number of callers, with
  work that finishes or panics, cancellation at every await, and the guard's drop in its two parts.
- **Slider geometry** (`Geometry`, `BezierCurve`, `BezierFlatten`, `BezierAccuracy`, `Polyline`, `LengthFit`,
  `PathSlice`, `PathSimplify`, `SliderPaths`) over the reals. A distance is any function with `dist(a,b) >= 0` whose
  square is the sum of the squared coordinate differences.
- **GIF delta frames** (`GifDelta`), for an arbitrary quantiser, replayed by the drawing rule of section 23 of the
  GIF89a specification.
- **Unstable rate** (`HitMatching`, `ReplayTimes`): the window search, the greedy note/key matching, and the time
  pipeline that feeds it.
- **Preview time selection** (`Intervals`, `StartIntervals`, `TimeSelection`): interval algebra over the integers
  and the selection loop, for every sequence of random draws.
- **Pixel compositing** (`Compositing`, `Canvas`): the byte buffer changed in place, refined to pictures.
- **Random numbers** (`Words`, `Iteration`, `LegacyRandom`): words are sequences of bits, least significant first.

`StableSort` and `Sequences` give the meaning of Rust's stable sorts and of `dedup`; `Numbers` holds small numeric
notions, `Wrappers` holds `Option` and `Result`.

What the proofs turned up about the code:

- `compact` leaves the ticks of an emptied slot with their old index, which may then be another plugin's. `compact`
  and `reload_all` are right if and only if no such tick exists (`CompactExact`, `ReloadAllExact`). A single panic
  below the error threshold is enough for the next reload to give a plugin the lost one's tick
  (`PanicSpoilsReload`).
- A plugin that panics or times out below the error threshold is never dispatched again: nobody can take the empty
  slot, so its error count cannot reach the threshold that would reload it (`LostForGood`, `LosesUnlessReloaded`).
  Cancelling a dispatch while a plugin runs loses it without even counting an error (`CancelLoses`).
- When the new instance of a reload cannot be built, the plugin's old ticks are put back without clearing first. If an
  abandoned instance of the slot has registered ticks in the meantime, the plugin can end up with more than eight, or
  with two of one name (`NineTicks`, `TwoOfOneName`). The limits hold in a run exactly if no such put-back clashes
  (`LimitsExact`, `PutBackExact`); each failed reload in a row can add at most eight ticks (`TicksBounded`).
- Cancelling a waiting creator does not abort its work, because the join handle has left the guard; a new call of the
  same key then runs beside it (`OverlapAfterCancel`; `NoOverlapWithoutCancel` for the other case). The comment on
  the guard's drop says the spawned work is aborted; the model follows the code.
- A closure that panics before the guard exists leaves its entry claimed, open and in the map for good
  (`OrphanedIffCrashed`, `CrashBlocksKey`, `CrashStrands`).
- The UR offset rule takes a first frame later than 10 s for an offset of the wrong sign; alignment holds exactly up
  to there (`AlignedIff`, `LateStartMisaligned`).
- `bezier_approximate` emits points of the left half of a flat piece only (`QuadraticLeaf`); they are close to the
  curve all the same (`ApproximationNearCurve`).
- The length fits miss the expected length exactly when the path is too short and ends in a repeated point
  (`FitLength`, `RepeatedEndMisses`).
- The 32-bit row offsets of `alpha_composite` are right exactly below 4 GiB (`RowOffsetExact`,
  `RowOffsetFails`).

`dafny verify dfyconfig.toml` checks everything.

## Model

| member | source | states |
|---|---|---|
| PluginHost.PluginManager.RegisterTickCall | osubot-plugin/src/bridge.rs:488-546 | Accepts exactly an interval from five seconds to a day for a tick the plugin already has or one of fewer than nine; then its registration, with the id returned, is in the registry, otherwise nothing changes; the whole new registry and counter are fixed |
| PluginState.CallsKeepDiscipline | osubot-plugin/src/bridge.rs:488-546 | From ticks within the limits, calls of `register_tick` in whatever order never lead to more than eight, to two of one name, or to an interval out of bounds |
| PluginState.RegisterTickIsOwn | osubot-plugin/src/bridge.rs:488-546 | On the shared registry a call changes the caller's own registrations and nobody else's |
| PluginState.RunCallsIsOwn | osubot-plugin/src/bridge.rs:488-546 | The same for everything one `on_load` registers |
| PluginHost.PluginManager.TakeInstance | osubot-plugin/src/lifecycle.rs:67-69 | Hands over the instance of a slot in range and leaves the slot empty; nothing else changes |
| PluginHost.PluginManager.PutInstance | osubot-plugin/src/lifecycle.rs:72-76 | Fills the slot, or drops the instance when the index is out of range; nothing else changes |
| PluginHost.PluginManager.CommandIndices | osubot-plugin/src/lifecycle.rs:21-23 | Lists each plugin under a command as often as the map does, in its order; unknown commands give nothing |
| PluginHost.PluginManager.SortedMessageIndices | osubot-plugin/src/lifecycle.rs:10-16 | Every hooked index exactly once, whatever order the hash set is read in, and of any two plugins the one with the higher priority first |
| PluginHost.PluginManager.TickRegistered | osubot-plugin/src/lifecycle.rs:58-63 | True exactly when that slot has registered that tick |
| PluginHost.PluginManager.HandleTick | osubot-plugin/src/lifecycle.rs:78-168 | Runs `on_tick` on the slot's own instance, with the ticks it registers filed under the stored index; puts it back unless it panicked or timed out, and counts an error |
| PluginUndisturbed.HandleTickIsRun | osubot-plugin/src/lifecycle.rs:78-168 | That is one run of the interleaving model's steps: taken under the lock, host calls, completion with the steps of its reload |
| PluginHost.PluginManager.UnloadSingleInstance | osubot-plugin/src/lifecycle.rs:170-270 | All four ways `on_unload` can end, with reloading switched off: which slot, instance and error count result |
| PluginHost.PluginManager.RecordError | osubot-plugin/src/dispatch.rs:114-139 | Counts the error and, at the threshold and if allowed, reloads; out of range does nothing |
| PluginHost.PluginManager.Complete | osubot-plugin/src/dispatch.rs:144-216 | Instance back if it came back, error counted if it failed, the action if it acted and otherwise `Next` |
| PluginHost.PluginManager.DispatchLoop | osubot-plugin/src/dispatch.rs:34-107 | A dispatch on its own: final state and answer of taking, running (with the ticks each plugin registers while it runs) and completing down the order |
| PluginHost.DispatchRestores | osubot-plugin/src/dispatch.rs:34-107 | A dispatch in which no plugin fails leaves slots, routes and hooks as they were, and the names and intervals of each plugin's ticks are what its own `register_tick` calls make of those it had |
| PluginHost.DispatchAnswers | osubot-plugin/src/dispatch.rs:34-107 | The answer is that of the first plugin present that does not say `Next`: before it nobody answered, after it nobody runs |
| PluginHost.OneTurn | osubot-plugin/src/dispatch.rs:34-107 | One turn of the loop: an empty slot is skipped, `Handled` and `Intercepted` end the dispatch with the state they leave, anything else passes it on |
| PluginDispatch.StepInv | osubot-plugin/src/dispatch.rs:34-216 | Every atomic step keeps exclusiveness, the meaning of every index and what a reload under way relies on: critical sections of dispatch and of the tick registry, host calls of loading, running, timed-out and cancelled executions, and cancellation |
| PluginDispatch.EveryRunSafe | osubot-plugin/src/dispatch.rs:34-216 | In every state of every interleaving, half-way through a reload included, each slot has its instance, has lent it to exactly one executor, is waiting for a new one, or has lost it; instances are pairwise different; with the lent ones put back every route, hook and tick denotes its plugin |
| PluginDispatch.AskedByPriority | osubot-plugin/src/dispatch.rs:34-69 | In every state of every interleaving each dispatch still has to ask its plugins from the highest priority to the lowest, and so has every command |
| PluginProgress.CompletionAnswers | osubot-plugin/src/dispatch.rs:144-216 | Completing an execution gives the dispatch its answer if the plugin handled or intercepted, and none otherwise |
| PluginProgress.AnswerIsFinal | osubot-plugin/src/dispatch.rs:94-107 | In every run a dispatch that has its answer runs no further plugin and keeps the answer until it goes away |
| PluginProgress.LockIsReleasable | osubot-plugin/src/dispatch.rs:34-139 | In every state of every run whoever has the manager locked can go on towards releasing it, whatever its plugin does |
| PluginProgress.NobodyStuck | osubot-plugin/src/dispatch.rs:34-107 | In every state of every run each dispatch is over or can go on, unless another has the manager locked |
| PluginDispatch.CallsFiledUnderOwner | osubot-plugin/src/bridge.rs:488-546 | In every run a `register_tick` call, of a plugin that loads or runs or was given up on after a timeout or a cancellation, changes the ticks of its own slot and of no other |
| PluginDispatch.PutNeverOverwrites | osubot-plugin/src/lifecycle.rs:67-76 | In every run, an instance that is put back finds its slot in range and empty |
| PluginDispatch.ReloadCommutes | osubot-plugin/src/dispatch.rs:114-139 | A reload at the error threshold does the same whether other instances are at home or checked out |
| PluginDispatch.LosesUnlessReloaded | osubot-plugin/src/dispatch.rs:144-216 | An execution that panics or times out loses the slot there and then if and only if the threshold is not reached or the slot is blocked; otherwise a reload begins |
| PluginDispatch.RebuiltUntilDone | osubot-plugin/src/reload.rs:60-156 | A slot whose instance is gone and whose reload has begun gets a new instance if the reload works and is lost if it fails, whatever else happens meanwhile |
| PluginDispatch.LostForGood | osubot-plugin/src/dispatch.rs:57-69 | In every run, once lost a slot stays lost and as it is, error count included: no dispatch or tick ever reaches it again |
| PluginDispatch.CancelLoses | osubot-plugin/src/dispatch.rs:71-90 | Cancelling a dispatch while a plugin runs always loses that plugin, and counts no error; its code may go on registering ticks |
| PluginTickLimits.LimitsExact | osubot-plugin/src/reload.rs:85-133 | In a run no plugin ever exceeds the tick limits if and only if no failed build puts ticks back that do not fit with what an abandoned instance of the slot has registered since they were cleared |
| PluginTickLimits.PutBackExact | osubot-plugin/src/reload.rs:85-113 | Such a put-back breaks the limits if and only if the failing execution had returned its instance, and the ticks the plugin had when the reload began, together with what the calls of abandoned instances of its slot during the build register, are over eight or share a name |
| PluginTickLimits.TicksBounded | osubot-plugin/src/bridge.rs:488-546 | In every run whatever, intervals stay in range and a plugin has at most eight ticks for each reload of it that failed in a row and eight more |
| PluginUndisturbed.CommandIsRun | osubot-plugin/src/dispatch.rs:34-107 | A command that nobody disturbs is asked, answered and accounted for as the class's dispatch loop does it |
| PluginUndisturbed.MessageIsRun | osubot-plugin/src/dispatch.rs:34-107 | So is a message, in whichever order of the hooks the sort leaves |
| PluginUndisturbed.TickIsRun | osubot-plugin/src/dispatch.rs:34-107 | So is a tick, which asks the one plugin that registered it |
| PluginOverLimit.NineTicks | osubot-plugin/src/reload.rs:85-113 | A run from start-up, for every error threshold, after which a plugin has nine ticks |
| PluginOverLimit.TwoOfOneName | osubot-plugin/src/reload.rs:85-113 | A run from start-up, for every error threshold, after which a plugin has two ticks of one name |
| PluginUndisturbed.CompleteIsRun | osubot-plugin/src/dispatch.rs:114-216 | A completion and its reload that nobody disturbs are `complete_exec` as a whole, as the class runs it |
| PluginHost.PluginManager.ReloadOneInstance | osubot-plugin/src/reload.rs:60-156 | New state of every field and the result, on all paths: blocked, build failed, load failed, reloaded |
| PluginReloadProofs.ReloadInstanceFails | osubot-plugin/src/reload.rs:60-156 | A failed reload of a live plugin leaves instance, routes, hooks and the multiset of ticks (and each plugin's ticks in order) unchanged; only `reload_failures` rises, and not even that once blocked |
| PluginReloadProofs.ReloadInstanceKeeps | osubot-plugin/src/reload.rs:60-156 | Success or failure, every index keeps denoting its plugin and routes stay in priority order |
| PluginReloadProofs.ReloadInstanceView | osubot-plugin/src/reload.rs:60-156 | Seen by name, a reload replaces one plugin or adds one failure, and touches nothing else |
| PluginHost.PluginManager.DiffPlugins | osubot-plugin/src/reload.rs:158-224 | What to remove, add and reload for any configuration, including duplicate names |
| PluginHost.PluginManager.AddedFrom | osubot-plugin/src/reload.rs:158-224 | The loop over the configuration that picks the entries no live plugin has the name of |
| PluginHost.PluginManager.ChangedFrom | osubot-plugin/src/reload.rs:158-224 | The loop that picks the entries whose live plugin differs in priority, path, configuration or modification time |
| PluginHost.PluginManager.ApplyRemovals | osubot-plugin/src/reload.rs:226-259 | The whole new state, for every outcome of each `on_unload` |
| PluginReloadProofs.RemovalsView | osubot-plugin/src/reload.rs:226-259 | Exactly the plugins no longer configured disappear by name; kept slots are untouched; indices stay meaningful |
| PluginHost.PluginManager.ApplyAdds | osubot-plugin/src/reload.rs:261-326 | The whole new state, skipping what does not resolve, compile, build or load |
| PluginReloadProofs.AddAllKeeps | osubot-plugin/src/reload.rs:261-326 | New plugins appear under fresh names; earlier slots are untouched; indices stay meaningful |
| PluginHost.PluginManager.ApplyReloads | osubot-plugin/src/reload.rs:328-447 | The whole new state, for every plugin outcome |
| PluginReloadProofs.ReloadOneFails | osubot-plugin/src/reload.rs:328-447 | The failure promise of `reload_instance`, for a reload inside `apply_reloads` |
| PluginReloadProofs.ReloadEachKeeps | osubot-plugin/src/reload.rs:328-447 | Reloading through indices remembered before the loop keeps every index meaningful and is replacing by name |
| PluginHost.PluginManager.ReserializeCommandMap | osubot-plugin/src/reload.rs:449-455 | Afterwards, of any two plugins under a command, the one with the higher priority comes first; how often each plugin is listed does not change |
| PluginHost.PluginManager.IndexMap | osubot-plugin/src/reload.rs:485-499 | A live slot's new index is the number of live slots before it |
| PluginHost.PluginManager.CompactSlots | osubot-plugin/src/reload.rs:485-560 | The whole state after `compact` |
| PluginHost.PluginManager.RenumberTicks | osubot-plugin/src/reload.rs:536-545 | Each tick gets its slot's new index; the ticks of a slot without one stay as they are |
| PluginCompactProofs.CompactExact | osubot-plugin/src/reload.rs:485-560 | `compact` keeps every index meaningful and the view by name intact if and only if no tick belongs to an emptied slot |
| PluginCompactProofs.CompactKeepsOrder | osubot-plugin/src/reload.rs:485-560 | Compaction changes no dispatch order, not even among equal priorities |
| PluginHost.PluginManager.ReloadAllPlugins | osubot-plugin/src/reload.rs:457-483 | From meaningful indices and distinct configured names: right if and only if it starts without a tick in an emptied slot; then no slot is empty, every command, hook and tick denotes its plugin, each list is sorted, and by name the result is removing, adding and replacing; whatever it starts from, every command ends up with higher priorities first |
| PluginCompactProofs.ReloadAllRefines | osubot-plugin/src/reload.rs:457-483 | The index shuffling of `reload_all` refines the three by-name operations |
| PluginCompactProofs.ReloadAllExact | osubot-plugin/src/reload.rs:457-560 | `reload_all` keeps every index meaningful and acts by name if and only if no tick belongs to an emptied slot when it starts |
| PluginConsequences.PanicSpoilsReload | osubot-plugin/src/reload.rs:457-560 | From start-up, one panic below the error threshold and a reload of the same configuration: a plugin that never registered a tick ends up with the lost plugin's |
| PluginOutcomes.ReloadAllPerPlugin | osubot-plugin/src/reload.rs:158-483 | For each name: gone, untouched, replaced, kept with one more failure, or new, and exactly when |
| PluginOutcomes.ReloadEntryByEntry | osubot-plugin/src/reload.rs:158-560 | The same told of the entries as configured: untouched exactly if the entry describes the plugin as it is or its file does not resolve, and gone if no entry switched on has the name |
| PluginConsequences.ReloadChangesNothing | osubot-plugin/src/reload.rs:158-560 | Reloading an up-to-date host leaves the whole state as it is |
| PluginConsequences.ReloadTwice | osubot-plugin/src/reload.rs:158-560 | One reload in which everything loads makes the next one change nothing |
| PluginOutcomes.BlockedForGood | osubot-plugin/src/reload.rs:328-447 | At the failure threshold no run of reloads that go on naming the plugin ever alters it again |
| PluginOutcomes.ReloadAllDisciplined | osubot-plugin/src/bridge.rs:488-546 | The tick limits hold for every plugin across every `reload_all` |
| PluginStart.New | osubot-plugin/src/manager.rs:18-195 | Starts exactly when names are distinct and every enabled plugin resolves, compiles, builds and loads; then with the state the next rows are about, slots in falling priority and equal ones in the order of the configuration; every command lists higher priorities first |
| PluginStart.CheckBlueprints | osubot-plugin/src/manager.rs:47-82 | Accepts exactly distinct names with resolvable, compiling modules |
| PluginStart.PlaceBlueprints | osubot-plugin/src/manager.rs:92-145 | Slots, routes and hooks placed together, one instance per blueprint |
| PluginStart.LoadPlaced | osubot-plugin/src/manager.rs:147-156 | `on_load` in slot order over one shared registry and counter |
| PluginStart.StartedValid | osubot-plugin/src/manager.rs:83-180 | The host starts with every slot filled, every index denoting its plugin and every route sorted |
| PluginStart.StartedView | osubot-plugin/src/manager.rs:83-180 | Seen by name it starts with exactly the enabled plugins, each freshly loaded |
| PluginConsequences.StartedInit | osubot-plugin/src/manager.rs:83-195 | Start-up leaves a state in which the runs of the interleaving model may begin, tick limits included |
| Dedup.StepInv | osubot-core/src/dedup.rs:38-145 | Every atomic step of callers, work, panics, cancellation and guard drops keeps the protocol's invariant |
| Dedup.StartsOnce | osubot-core/src/dedup.rs:96-105 | In every run the work of an entry is started at most once |
| Dedup.ClosedIsFinal | osubot-core/src/dedup.rs:108-131 | Once its semaphore is closed an entry never changes |
| Dedup.SameOutcome | osubot-core/src/dedup.rs:108-143 | All calls that ever return from one entry return the same outcome |
| Dedup.OutcomeSource | osubot-core/src/dedup.rs:66-141 | A returned outcome is the result of the one piece of work, the panic notice if that panicked, or the abandonment notice, and that only if the creator was cancelled while waiting |
| Dedup.GivesUpIffCancelled | osubot-core/src/dedup.rs:66-141 | In every run a call ends without an outcome, or is about to, if and only if it was cancelled |
| Dedup.CreatorReturns | osubot-core/src/dedup.rs:94-127 | When the creator has dropped its guard its call has returned what the work came to or the panic notice, unless it was cancelled before |
| Dedup.WaiterReturns | osubot-core/src/dedup.rs:128-137 | A waiter that reads returns, with the outcome of the work of the entry it waited for or the abandonment notice |
| Dedup.BothReturn | osubot-core/src/dedup.rs:38-145 | For every result and for a panic: a run of two callers of one key, the second waiting on the first, in which the work starts once, both return what it came to, and the map is empty again |
| Dedup.NeverStuck | osubot-core/src/dedup.rs:66-141 | In every state of every run each call is over or has a step to take, or waits for work that can end or for a creator that is still there, or for one that crashed |
| Dedup.GivenUpCancelled | osubot-core/src/dedup.rs:38-131 | An entry is closed without a result only after its waiting creator was cancelled |
| Dedup.GuardRemovesOwn | osubot-core/src/dedup.rs:38-56 | A guard's drop removes its own entry, never a newer one under the key, and no other key |
| Dedup.OneAttachedPerKey | osubot-core/src/dedup.rs:80-107 | For one key at most one running piece of work is still awaited by its creator |
| Dedup.NoOverlapWithoutCancel | osubot-core/src/dedup.rs:80-131 | If no waiting creator is cancelled, work for one key never overlaps |
| Dedup.OverlapAfterCancel | osubot-core/src/dedup.rs:100-107 | A concrete run in which cancelling the creator lets the same key run twice at once |
| Dedup.OrphanedIffCrashed | osubot-core/src/dedup.rs:96-105 | An open claimed entry is left without anyone to close it if and only if its creator's closure panicked before the guard existed |
| Dedup.CrashStrands | osubot-core/src/dedup.rs:96-105 | A concrete run: the closure panics and a second caller of the key waits for good |
| Dedup.CrashBlocksKey | osubot-core/src/dedup.rs:80-105 | Such an entry stays in the map for ever, so later callers of the key wait with it |
| BezierCurve.LeftHalf | osubot-beatmap-preview/src/slider_path.rs:284-300 | For every degree the left polygon at t is the curve at t/2 |
| BezierCurve.RightHalf | osubot-beatmap-preview/src/slider_path.rs:284-300 | For every degree the right polygon at t is the curve at (1+t)/2 |
| BezierCurve.HalvesMeet | osubot-beatmap-preview/src/slider_path.rs:284-300 | The halves keep the outer ends and share the curve's middle point |
| BezierCurve.Subdivide | osubot-beatmap-preview/src/slider_path.rs:284-300 | The in-place triangle of midpoints yields those two polygons |
| BezierFlatten.IsFlatEnough | osubot-beatmap-preview/src/slider_path.rs:272-282 | Flat exactly when every second difference is within the tolerance |
| BezierFlatten.HalvesFlatter | osubot-beatmap-preview/src/slider_path.rs:250-300 | Halving a polygon of any degree divides the bound on its squared second differences by sixteen |
| BezierFlatten.HalvesShallower | osubot-beatmap-preview/src/slider_path.rs:250-270 | A polygon that is not flat has strictly shallower halves: the measure behind termination |
| BezierFlatten.ApproximateLeaf | osubot-beatmap-preview/src/slider_path.rs:302-316 | What one flat piece emits: the smoothed interior points of its left half only |
| BezierFlatten.Approximate | osubot-beatmap-preview/src/slider_path.rs:250-270 | The explicit stack always empties and emits the pieces in curve order |
| BezierFlatten.ApproximationEnds | osubot-beatmap-preview/src/slider_path.rs:250-270 | The polyline starts and ends with the curve |
| BezierFlatten.ApproximationInHull | osubot-beatmap-preview/src/slider_path.rs:250-316 | No emitted point leaves any half-plane containing the control points, in particular their bounding box |
| BezierFlatten.QuadraticLeaf | osubot-beatmap-preview/src/slider_path.rs:302-316 | A flat quadratic emits one point, the one at parameter 1/4 |
| BezierFlatten.QuadraticOnCurve | osubot-beatmap-preview/src/slider_path.rs:250-316 | For three control points every emitted point lies on the curve |
| BezierAccuracy.ControlNearCurve | osubot-beatmap-preview/src/slider_path.rs:302-316 | In any direction an inner control point exceeds the curve, at its share of the way, by at most an eighth of the largest second difference for each step |
| BezierAccuracy.ApproximationNearCurve | osubot-beatmap-preview/src/slider_path.rs:250-316 | For n control points, any n: every point of the polyline is within (n + 1)/64 of the curve at some parameter, and these parameters increase from 0 to 1 along the polyline |
| LengthFit.FitTruncateExtend | osubot-beatmap-preview/src/slider_path.rs:476-535 | Computes the common fit on every input, cut or extended |
| LengthFit.FitLazer | osubot-beatmap-preview/src/slider_path.rs:538-588 | Computes the same fit by cutting from the end and re-aiming the last segment |
| LengthFit.BothFits | osubot-beatmap-preview/src/slider_path.rs:476-588 | The two algorithms return the same polyline for every input, of exactly the expected length when that is reachable |
| LengthFit.FitLength | osubot-beatmap-preview/src/slider_path.rs:476-588 | The fitted length is the expected one if and only if the path was long enough or does not end in a repeated point |
| LengthFit.RepeatedEndMisses | osubot-beatmap-preview/src/slider_path.rs:476-588 | A concrete path of length one with a repeated end is not extended to two |
| LengthFit.FitEnds | osubot-beatmap-preview/src/slider_path.rs:476-588 | A cut path ends on the segment to the first point at or beyond the expected length, an extended one on the line of its last segment, at or past its end; else it is the path |
| LengthFit.FitKeepsPoints | osubot-beatmap-preview/src/slider_path.rs:476-588 | The start and every point before the new last one are kept |
| LengthFit.CutForward | osubot-beatmap-preview/src/slider_path.rs:491-514 | The forward cut reaches the expected length on the right segment |
| LengthFit.CutBack | osubot-beatmap-preview/src/slider_path.rs:556-569 | Popping from the end stops at the same segment |
| PathSlice.DedupePoints | osubot-beatmap-preview/src/slider_path.rs:591-599 | Drops exactly the points equal to the one kept before |
| PathSlice.DedupeLength | osubot-beatmap-preview/src/slider_path.rs:591-599 | Dropping repeated points keeps the length |
| PathSlice.BuildPath | osubot-beatmap-preview/src/slider_path.rs:40-57 | No repeated points, exact prefix lengths, and the total length of the input |
| PathSlice.PositionOnSegment | osubot-beatmap-preview/src/slider_path.rs:70-96 | The bisection finds the right segment: the position interpolates it by the share of its length |
| PathSlice.DistanceBetween | osubot-beatmap-preview/src/slider_path.rs:70-96 | Positions with no vertex between them are exactly as far apart as their path distances |
| PathSlice.SlicePath | osubot-beatmap-preview/src/slider_path.rs:99-120 | For every pair of progresses, in any order and out of range: from one position through exactly the vertices strictly between to the other, without repeated points, with length exactly |e-s| (clamped) times the total |
| PathSimplify.FindFarthest | osubot-beatmap-preview/src/slider_path.rs:187-208 | Scans for the first farthest point from the chord |
| PathSimplify.CollectIndices | osubot-beatmap-preview/src/slider_path.rs:164-229 | The explicit stack terminates with the recursive answer |
| PathSimplify.KeptShape | osubot-beatmap-preview/src/slider_path.rs:164-229 | Kept indices ascend strictly from the first to the last |
| PathSimplify.SimplifiedClose | osubot-beatmap-preview/src/slider_path.rs:164-229 | Every dropped point is within the tolerance of the segment joining its two kept neighbours |
| PathSimplify.FootNearest | osubot-beatmap-preview/src/slider_path.rs:183-203 | The foot that is computed is the nearest point of the segment |
| PathSimplify.KeptForReason | osubot-beatmap-preview/src/slider_path.rs:164-229 | An inner point is kept only if it is the farthest of those between two other kept points, and farther than the tolerance from every point of their segment |
| PathSimplify.SortedAlready | osubot-beatmap-preview/src/slider_path.rs:226-228 | The closing sort and dedup change nothing |
| PathSimplify.SimplifyPath | osubot-beatmap-preview/src/slider_path.rs:164-229 | The whole function, down to fewer than three points |
| SliderPaths.SimplifiedShorter | osubot-beatmap-preview/src/slider_path.rs:164-229 | Simplifying keeps both ends and never lengthens a path |
| SliderPaths.BuildCatchSliderPath | osubot-beatmap-preview/src/slider_path.rs:149-161 | From the raw curve on, the built path has exactly the slider's pixel length |
| SliderPaths.BuildStandardSliderPath | osubot-beatmap-preview/src/slider_path.rs:133-147 | From the raw curve on, the built path consists of points of the fitted one in order, every fitted point is within 1 of it, an inner point is there only because it is farther than that from the segment between two others; it never exceeds the pixel length and ends where the fit does |
| GifDelta.IndexFrame | osubot-beatmap-preview/src/composer.rs:196-209 | With the lookup cache each pixel gets the quantiser's index of the colour whose channels repeat its high half, 254 in place of 255, and missing pixels get 0 |
| GifDelta.FindBox | osubot-beatmap-preview/src/composer.rs:215-238 | The bounds enclose every changed pixel and are attained |
| GifDelta.EncodeDelta | osubot-beatmap-preview/src/composer.rs:212-258 | Drawing the delta over the previous frame gives the current one; the rectangle is the tightest, colours only where pixels changed, one transparent pixel if none did |
| GifDelta.EncodeAnimation | osubot-beatmap-preview/src/composer.rs:184-279 | Replaying the first k frames on any canvas shows the k-th indexed frame, across chunk borders |
| HitMatching.WindowsAre | osubot-core/src/ur.rs:125-142 | For every difficulty d the windows are 80 - 6d, 140 - 8d and 200 - 10d, rounded down and less a half |
| HitMatching.WindowsNested | osubot-core/src/ur.rs:125-142 | The three hit windows are nested |
| HitMatching.SearchFrom | osubot-core/src/ur.rs:415-420 | For strictly increasing times the search lands on the first key not before the window |
| HitMatching.CandidatePairs | osubot-core/src/ur.rs:409-434 | For strictly increasing key times, exactly the pairs inside the 50-window and after visibility; always each at most once, by note and then by key |
| HitMatching.AssignGreedily | osubot-core/src/ur.rs:436-465 | The greedy choice is stable: one-to-one, and each pair left out loses its note or key to a chosen pair of smaller error or, of the same error, of an earlier note or then key |
| HitMatching.StableUnique | osubot-core/src/ur.rs:436-465 | Only one stable choice exists |
| HitMatching.MatchHits | osubot-core/src/ur.rs:399-474 | A one-to-one matching of eligible pairs; every eligible pair left out loses its note or key to a matched one that is nearer or, equally near, of an earlier note or then key; a note is graded 3, 2 or 1 as its key lies within the first window, the second or neither, and 0 without a key |
| HitMatching.MatchingUnique | osubot-core/src/ur.rs:399-474 | Keys and notes determine that matching: there is no second one |
| ReplayTimes.CorrectAndStrip | osubot-core/src/ur.rs:264-284 | Aligns the first two frames with the third when the first is later, strips exactly the leading markers, and leaves short lists alone |
| ReplayTimes.ToDeltas | osubot-core/src/ur.rs:304-316 | Absolute times to deltas |
| ReplayTimes.ExtractKeyTimes | osubot-core/src/ur.rs:324-356 | Re-accumulated times of the rising key edges and the offset, or nothing if no key is pressed |
| ReplayTimes.DetectedExact | osubot-core/src/ur.rs:324-356 | Detected, each once and in order, are exactly the frames with a key down that was not down in the frame examined before |
| ReplayTimes.ReleaseIsNoPress | osubot-core/src/ur.rs:342-348 | A frame whose keys were all down before yields no press |
| ReplayTimes.KeyTimesOf | osubot-core/src/ur.rs:292-356 | The re-accumulated press times are those of exactly these frames, all shifted alike: not at all if the first frame is between 0 and 10000, otherwise by its time, whose magnitude is the offset |
| ReplayTimes.AlignedIff | osubot-core/src/ur.rs:597-602 | Presses keep their distance to the notes if and only if the first frame is at most at 10000 |
| ReplayTimes.LateStartMisaligned | osubot-core/src/ur.rs:324-356 | A concrete replay of three ordered frames starting at 20 s loses the alignment |
| Intervals.InferBreakPeriods | osubot-beatmap-preview/src/time_selection.rs:211-224 | Exactly the gaps, whatever the spans |
| Intervals.InferredIffLong | osubot-beatmap-preview/src/time_selection.rs:211-224 | For objects that do not end before they start these are the gaps of at least 2200 ms between all objects |
| Intervals.MergePeriods | osubot-beatmap-preview/src/time_selection.rs:226-238 | Sorted, strictly separated, and blocking exactly what the given periods block |
| Intervals.SubtractPeriods | osubot-beatmap-preview/src/time_selection.rs:240-260 | A stretch fits in a segment if and only if it is in range and meets nothing forbidden |
| StartIntervals.BuildValidStartIntervals | osubot-beatmap-preview/src/time_selection.rs:172-197 | For a positive duration a start is in an interval if and only if its stretch is inside the chart and meets no declared break and no inferred gap |
| StartIntervals.RandomStart | osubot-beatmap-preview/src/time_selection.rs:273-287 | The start named by the draw modulo the total |
| StartIntervals.PickBijection | osubot-beatmap-preview/src/time_selection.rs:273-287 | Picking is an increasing bijection from [0, total) onto the valid starts |
| StartIntervals.NearestValidStart | osubot-beatmap-preview/src/time_selection.rs:262-271 | A nearest start, the earlier of two |
| TimeSelection.New | osubot-beatmap-preview/src/time_selection.rs:66-90 | The three refusals in their order, otherwise the sorted spans |
| TimeSelection.PreviewTimeIs | osubot-beatmap-preview/src/time_selection.rs:158-170 | The preview starts at the configured time if there is one and it is not negative, else with the earliest object |
| TimeSelection.BuildForcedTimes | osubot-beatmap-preview/src/time_selection.rs:133-156 | Requested times once each, the preview time if there is room, or the error of the first negative time or of too many |
| TimeSelection.BreaksInOrder | osubot-beatmap-preview/src/time_selection.rs:300-311 | A segment lists the declared breaks it meets in their order |
| TimeSelection.DoesNotOverlapExisting | osubot-beatmap-preview/src/time_selection.rs:289-298 | True exactly when no instant would be played both in the candidate and in a chosen segment; always for a zero duration |
| TimeSelection.FallbackCandidates | osubot-beatmap-preview/src/time_selection.rs:199-208 | Every object's nearest valid start is a candidate, and nothing invalid is |
| TimeSelection.Choose | osubot-beatmap-preview/src/time_selection.rs:92-131 | For every sequence of draws: the forced error, or a sorted list of at most `count` pairwise different starts containing the forced ones, every other valid; no instant is played in two segments unless both were forced; each segment has its preview mark and breaks; the starts are those that come up in turn and are clear of all before: first by the draws, 3000 at most, then the objects' nearest starts from the earliest on; and if the list is short every object's nearest start is already taken |
| TimeSelection.UnforcedStandsAlone | osubot-beatmap-preview/src/time_selection.rs:92-131 | A start that was not forced is valid, occurs once, and its segment shares no instant with another |
| Compositing.BlendBetween | osubot-beatmap-preview/src/canvas.rs:524-541 | Every blended colour lies between source and destination; alpha is not below either |
| Compositing.MixRounds | osubot-beatmap-preview/src/canvas.rs:534-539 | Each channel is the exact weighted average rounded to nearest |
| Compositing.BlendIsOver | osubot-beatmap-preview/src/canvas.rs:524-541 | For every two pixels: the transparencies multiply, and each colour is the average weighted by how much of source and destination is seen, both rounded to nearest |
| Compositing.BlendRowsAt | osubot-beatmap-preview/src/canvas.rs:83-107 | Blending every source pixel in turn touches each destination pixel at most once, with the source pixel over it |
| Compositing.ComposedIsBlendAll | osubot-beatmap-preview/src/canvas.rs:83-107 | A pixelwise composite is what blending pixel by pixel gives |
| Canvas.RowOffsetExact | osubot-beatmap-preview/src/canvas.rs:93-94 | The 32-bit row offset is the true one if and only if the true one is below 2^32 |
| Canvas.RowOffsetFails | osubot-beatmap-preview/src/canvas.rs:93-94 | In a canvas 32768 wide, row 32768 gets the offset of row 0 |
| Canvas.BlendInto | osubot-beatmap-preview/src/canvas.rs:524-541 | Changes exactly the four bytes of one pixel, to the blend |
| Canvas.Img.Idx | osubot-beatmap-preview/src/canvas.rs:47-53 | The offset of an in-range pixel leaves room for its four bytes |
| Canvas.Img.BlendPx | osubot-beatmap-preview/src/canvas.rs:74-80 | Blends one pixel, nothing outside the canvas |
| Canvas.Img.AlphaComposite | osubot-beatmap-preview/src/canvas.rs:83-107 | For every offset and canvas size the clipped row loop stays within both buffers, and it equals blending each source pixel with `blend_px` if the offsets of the last clipped row in both are below 2^32 |
| LegacyRandom.StepIsBijective | osubot-beatmap-preview/src/legacy_random.rs:38-45 | A step and its explicit inverse undo each other, both ways |
| LegacyRandom.StepBits | osubot-beatmap-preview/src/legacy_random.rs:38-45 | Each bit drawn is the parity of two bits of the last word and at most four of the first |
| LegacyRandom.SeededIs | osubot-beatmap-preview/src/legacy_random.rs:28-35 | The numbers every seed starts beside |
| LegacyRandom.Random.NextUint | osubot-beatmap-preview/src/legacy_random.rs:38-45 | The generator takes that step and returns its last word |
| LegacyRandom.NeverStuck | osubot-beatmap-preview/src/legacy_random.rs:28-45 | From no seed is the state ever all zero |
| LegacyRandom.SeedsStayApart | osubot-beatmap-preview/src/legacy_random.rs:28-45 | Different seeds are in different states after every number of draws |
| LegacyRandom.NoLeadIn | osubot-beatmap-preview/src/legacy_random.rs:28-45 | A state that repeats brings the stream back to its start |
| LegacyRandom.MixIsBijective | osubot-beatmap-preview/src/legacy_random.rs:64-71 | Mixing and its explicit inverse undo each other on 64-bit words |
| LegacyRandom.StatelessNextInjective | osubot-beatmap-preview/src/legacy_random.rs:74-77 | Two results are equal if and only if the low 32 bits of seed and of series are |

## Left out

- Floating-point rounding, NaN and infinities: coordinates, times and windows are reals; trigonometry, Catmull and
  circular curves, Lanczos resampling and rotation are not part of this model.
- Machine overflow of `i32`, `i64` and `usize` arithmetic, except where it is written out (the saturating counters,
  the tick id counter, the wrap-around of the generators and of the 32-bit row offsets); the narrowing of GIF frame
  sizes to 16 bits.
- Canvas.Img.AlphaComposite: where the last clipped row starts past 4 GiB only that it stays within both buffers is
  promised, because its 32-bit offset is wrong, as `RowOffsetExact` and `RowOffsetFails` show; the overflow check of
  a debug build is not modelled.
- StartIntervals.BuildValidStartIntervals: exact for a positive duration only; with a zero duration a chart, or a
  playable stretch, that is a single point yields no start, because empty segments are dropped.
- TimeSelection.Choose: in which order starts are taken, and that the list is exhausted when it is short, is stated
  for a positive duration and declared breaks that end after they start, which is all that
  `osubot-beatmap-preview/src/parser.rs` lets through.
- HitMatching.MatchHits: completeness and the order among equal distances are stated for strictly increasing key
  times; the library's binary search is left open on other lists.
- GifDelta.EncodeAnimation: frames with zero width or height, the palette's training and the LZW encoder are not
  modelled; parallel rendering is the order-preserving map it stands for.
- PluginOutcomes.BlockedForGood: a blocked plugin that the configuration stops naming is removed like any other.
- PluginCompactProofs.ReloadAllRefines: starts from states in which no tick belongs to an emptied slot;
  `ReloadAllExact` shows that it goes wrong from every other.
- PluginTickLimits.TicksBounded: the threshold of failed reloads is a 32-bit number, as its type says.
- BezierAccuracy.ApproximationNearCurve: bounds the distance from the polyline's points to the curve, not from the
  curve to the polyline.
- The interleavings of dispatch and of the deduplicator are state machines over values, not threads over the class:
  memory ordering, lock poisoning and fairness are not modelled, and each critical section is one step.
- A plugin instance is known by a tag; its memory, the wasm engine, epochs, fuel, file system, module resolution and
  modification times are oracle answers. `plugin_metadata` and `on_unload` are taken to register no ticks.
- `reload_all` beside running dispatches, the drain before a reload, `shutdown`, and the loop that fires ticks beyond
  its check of slot and registration.
- The iteration order of hash maps and sets, which no modelled result depends on; log output.
- The deduplicator's keys, values and errors are strings; they are generic in the program.
- `approximate_bezier_segments`, which splits a control list at repeated points; `path_position_at`, which clamps and
  looks up; `snap_to_beat_grid`; `stateless_next_int`, `next`, `next_double` and `next_range`: easy members.
- Random draws of the preview selection are arbitrary; the generator seeded from the clock is not modelled.
- Replay decoding (LZMA, CSV), the UR statistic itself, networking, storage, the chat protocols and rendering.

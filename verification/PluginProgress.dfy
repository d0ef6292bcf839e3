/** Concurrent dispatch goes on: what a plugin answers ends its dispatch, and nobody keeps the lock for ever. */
module PluginProgress {
  import opened Wrappers
  import opened PluginState
  import opened PluginReload
  import opened PluginHost
  import opened PluginDispatch

  // ----- answers -----

  /** A plugin that handles or intercepts gives the answer; after any other ending the dispatch has none yet. */
  lemma CompletionAnswers(s: Sys, e: nat, result: ExecResult, limits: Limits)
    requires CanStep(s, Complete(e, result))
    ensures
      var t := Do(s, Complete(e, result), limits);
      && e in t.execs
      && t.execs[e].todo == s.execs[e].todo && t.execs[e].holding == None
      && t.execs[e].answer ==
           match result
           case Acted(Handled(m)) => Some(Handled(m))
           case Acted(Intercepted) => Some(Intercepted)
           case _ => None
  {
    hide Counted, NeedsReload, DropTicks, SelectTicks;
  }

  /** The dispatch is over: it has an answer and runs no plugin. */
  predicate Over(s: Sys, e: nat, answer: Action) {
    e in s.execs && s.execs[e].holding == None && s.execs[e].answer == Some(answer)
  }

  lemma OverStays(s: Sys, step: Step, limits: Limits, e: nat, answer: Action)
    requires CanStep(s, step) && Over(s, e, answer) && step != Cancel(e)
    ensures Over(Do(s, step, limits), e, answer)
  {
    hide FreshTag, HasTick, Counted, NeedsReload, PutBack, Install, CountFailure, Registered, DropTicks, SelectTicks;
  }

  /** A dispatch that has its answer asks nobody any more, and keeps the answer, until it goes away. */
  lemma {:induction false} AnswerIsFinal(
      states: seq<Sys>, steps: seq<Step>, limits: Limits, k: nat, l: nat, e: nat, answer: Action)
    requires Run(states, steps, limits) && k <= l < |states| && Over(states[k], e, answer)
    requires forall j | k <= j < l :: steps[j] != Cancel(e)
    ensures Over(states[l], e, answer)
    decreases l
  {
    hide Do, CanStep, Over;
    if k < l {
      AnswerIsFinal(states, steps, limits, k, l - 1, e, answer);
      OverStays(states[l - 1], steps[l - 1], limits, e, answer);
    }
  }

  // ----- the lock -----

  /** Whoever has the lock is there, and runs a plugin or reloads one. */
  predicate LockKnown(s: Sys) {
    s.lock.Some? ==> s.lock.value in s.execs && (s.reload.None? ==> Running(s, s.lock.value))
  }

  lemma StepLock(s: Sys, step: Step, limits: Limits)
    requires CanStep(s, step) && LockKnown(s)
    ensures LockKnown(Do(s, step, limits))
  {
    hide FreshTag, HasTick, Counted, NeedsReload, PutBack, Install, CountFailure, Registered, DropTicks, SelectTicks;
  }

  lemma {:induction false} RunLock(states: seq<Sys>, steps: seq<Step>, limits: Limits, k: nat)
    requires Run(states, steps, limits) && k < |states|
    ensures LockKnown(states[k])
    decreases k
  {
    hide Do, CanStep;
    if k > 0 {
      RunLock(states, steps, limits, k - 1);
      StepLock(states[k - 1], steps[k - 1], limits);
    }
  }

  /** A step towards the end of the critical section that `e` is in, for whatever its plugin does. */
  ghost predicate CanRelease(s: Sys, e: nat) {
    if s.reload.None? then forall result: ExecResult :: CanStep(s, Complete(e, result))
    else if s.reload.value.built.None? then
      CanStep(s, BuildFails) && forall tag: nat, exports: Exports | FreshTag(s, tag) :: CanStep(s, Build(tag, exports))
    else
      CanStep(s, LoadFails) && CanStep(s, LoadWorks) && forall call: TickCall :: CanStep(s, LoadCall(call))
  }

  /** In every state of every run whoever keeps the manager locked can go on towards releasing it. */
  lemma LockIsReleasable(states: seq<Sys>, steps: seq<Step>, limits: Limits, k: nat)
    requires Run(states, steps, limits) && k < |states| && states[k].lock.Some?
    ensures CanRelease(states[k], states[k].lock.value)
  {
    RunLock(states, steps, limits, k);
    RunInv(states, steps, limits, k);
  }

  /** What executor `e` can do next, if the manager is not locked by another. */
  ghost predicate CanGoOn(s: Sys, e: nat)
    requires e in s.execs
  {
    var x := s.execs[e];
    if x.answer.Some? then x.holding.None?
    else
      && CanStep(s, Cancel(e))
      && if x.holding.Some? then
           (forall call: TickCall :: CanStep(s, HostCall(e, call)))
           && forall result: ExecResult :: CanStep(s, Complete(e, result))
         else if x.todo == [] then CanStep(s, FallThrough(e))
         else CanStep(s, Take(e))
  }

  predicate NothingHeldAfter(s: Sys) {
    forall e | e in s.execs && s.execs[e].answer.Some? :: s.execs[e].holding.None?
  }

  lemma StepNothingHeld(s: Sys, step: Step, limits: Limits)
    requires CanStep(s, step) && NothingHeldAfter(s)
    ensures NothingHeldAfter(Do(s, step, limits))
  {
    hide FreshTag, HasTick, Counted, NeedsReload, PutBack, Install, CountFailure, Registered, DropTicks, SelectTicks;
  }

  lemma {:induction false} RunNothingHeld(states: seq<Sys>, steps: seq<Step>, limits: Limits, k: nat)
    requires Run(states, steps, limits) && k < |states|
    ensures NothingHeldAfter(states[k])
    decreases k
  {
    hide Do, CanStep;
    if k > 0 {
      RunNothingHeld(states, steps, limits, k - 1);
      StepNothingHeld(states[k - 1], steps[k - 1], limits);
    }
  }

  /** In every state of every run each dispatch is over or can go on, unless another has the manager locked. */
  lemma NobodyStuck(states: seq<Sys>, steps: seq<Step>, limits: Limits, k: nat, e: nat)
    requires Run(states, steps, limits) && k < |states| && e in states[k].execs
    requires states[k].lock.None? || (states[k].lock == Some(e) && states[k].reload.None?)
    ensures CanGoOn(states[k], e)
  {
    RunInv(states, steps, limits, k);
    RunNothingHeld(states, steps, limits, k);
  }
}

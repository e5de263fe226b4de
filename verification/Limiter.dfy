/**
 * The connection limiter of crates/daemon/src/server.rs as a state machine: any number of threads load the
 * counter, try a weak compare-and-swap, give up, or drop a permit, in any order.
 */
module Limiter {

  const USIZE_MAX := 0xFFFF_FFFF_FFFF_FFFF

  /** Threads inside `try_acquire` with the value they last saw, and the permits that are alive. */
  datatype State = State(active: nat, limit: nat, trying: map<nat, nat>, permits: set<nat>)

  datatype Step =
    | Load(thread: nat)
    | GiveUp(thread: nat)
    | Swap(thread: nat, permit: nat)
    | SwapFails(thread: nat)
    | Drop(permit: nat)

  /** `fetch_sub(1)` wraps around at zero, like the machine word. */
  function WrappingPred(n: nat): nat { if n == 0 then USIZE_MAX else n - 1 }

  /** When a step may happen. A weak compare-and-swap may fail at any time, not only on a changed value. */
  predicate Enabled(s: State, step: Step)
  {
    match step
    case Load(t) => t !in s.trying
    case GiveUp(t) => t in s.trying && s.trying[t] >= s.limit
    case Swap(t, p) => t in s.trying && s.trying[t] < s.limit && s.active == s.trying[t] && p !in s.permits
    case SwapFails(t) => t in s.trying && s.trying[t] < s.limit
    case Drop(p) => p in s.permits
  }

  function Next(s: State, step: Step): State
    requires Enabled(s, step)
  {
    match step
    case Load(t) => s.(trying := s.trying[t := s.active])
    case GiveUp(t) => s.(trying := s.trying - {t})
    case Swap(t, p) => s.(active := s.active + 1, trying := s.trying - {t}, permits := s.permits + {p})
    case SwapFails(t) => s.(trying := s.trying[t := s.active])
    case Drop(p) => s.(active := WrappingPred(s.active), permits := s.permits - {p})
  }

  function Initial(limit: nat): State { State(0, limit, map[], {}) }

  ghost predicate IsRun(run: seq<State>, steps: seq<Step>, limit: nat)
  {
    && |run| == |steps| + 1 && run[0] == Initial(limit)
    && forall i :: 0 <= i < |steps| ==> Enabled(run[i], steps[i]) && run[i + 1] == Next(run[i], steps[i])
  }

  /** The counter is the number of live permits and within the limit, so it never wraps around. */
  ghost predicate Exact(s: State) { s.active == |s.permits| <= s.limit }

  lemma StepExact(s: State, step: Step)
    requires Exact(s) && Enabled(s, step)
    ensures Exact(Next(s, step)) && Next(s, step).limit == s.limit
    ensures step.Drop? ==> s.active > 0
  {
    if step.Drop? {
      assert |s.permits - {step.permit}| == |s.permits| - 1;
    }
  }

  /** In every interleaving, at every moment. */
  lemma {:induction false} AlwaysExact(run: seq<State>, steps: seq<Step>, limit: nat, i: nat)
    requires IsRun(run, steps, limit) && i <= |steps|
    ensures Exact(run[i]) && run[i].limit == limit
    decreases i
  {
    hide Next, Enabled;
    if i > 0 {
      AlwaysExact(run, steps, limit, i - 1);
      StepExact(run[i - 1], steps[i - 1]);
    }
  }

  /** The value a thread holds is the counter at the moment of its last load or failed swap. */
  lemma {:induction false} SeenValueWasRead(run: seq<State>, steps: seq<Step>, limit: nat, i: nat, t: nat) returns (k: nat)
    requires IsRun(run, steps, limit) && i <= |steps| && t in run[i].trying
    ensures k < i && (steps[k] == Load(t) || steps[k] == SwapFails(t)) && run[k].active == run[i].trying[t]
    ensures forall j :: k < j <= i ==> t in run[j].trying
    decreases i
  {
    var step := steps[i - 1];
    if step == Load(t) || step == SwapFails(t) {
      k := i - 1;
    } else {
      assert t in run[i - 1].trying && run[i - 1].trying[t] == run[i].trying[t];
      k := SeenValueWasRead(run, steps, limit, i - 1, t);
    }
  }

  /** Nobody is turned away for nothing: whoever gives up has, since it started, seen the limit reached. */
  lemma GivesUpOnlyWhenFull(run: seq<State>, steps: seq<Step>, limit: nat, i: nat) returns (k: nat)
    requires IsRun(run, steps, limit) && i < |steps| && steps[i].GiveUp?
    ensures k < i && |run[k].permits| == limit
    ensures forall j :: k < j <= i ==> steps[i].thread in run[j].trying
  {
    k := SeenValueWasRead(run, steps, limit, i, steps[i].thread);
    AlwaysExact(run, steps, limit, k);
    AlwaysExact(run, steps, limit, i);
  }
}

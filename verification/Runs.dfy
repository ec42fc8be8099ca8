/** Runs of the pipeline as lists of events, a failed enqueue that appended its entry among them. */
module Runs {
  import opened Wrappers
  import opened Uploads
  import opened Pipeline

  /** A step of the pipeline, or a failed enqueue whose entry is in the queue all the same; the producer will retry it. */
  datatype Event = Regular(step: Step) | AppendedWithError(upload: nat)

  function Happen(f: seq<Cursor>, s: State, e: Event): Option<State> {
    if !Proper(f, s) then None
    else
      match e
      case Regular(step) => Do(f, s, step)
      case AppendedWithError(i) =>
        if s.process.Some? && s.process.value.persisting.None? && 1 <= i < |f| && s.process.value.cursor == f[i - 1]
        then Some(s.(durable := s.durable.(queue := s.durable.queue + [i])))
        else None
  }

  function RunEvents(f: seq<Cursor>, s: State, es: seq<Event>): Option<State>
    decreases |es|
  {
    if es == [] then Some(s)
    else
      var next := Happen(f, s, es[0]);
      if next.None? then None else RunEvents(f, next.value, es[1..])
  }

  lemma {:induction false} RegularRun(f: seq<Cursor>, s: State, es: seq<Event>, end: State) returns (steps: seq<Step>)
    requires Inv(f, s) && RunEvents(f, s, es) == Some(end) && forall e | e in es :: e.Regular?
    ensures RunFrom(f, s, steps) == Some(end)
    decreases |es|
  {
    if es == [] {
      return [];
    }
    assert es[0] in es;
    var next := Happen(f, s, es[0]).value;
    StepKeepsInv(f, s, es[0].step, next);
    steps := RegularRun(f, next, es[1..], end);
    Prepend(f, s, es[0].step, next, steps);
    steps := [es[0].step] + steps;
  }

  /** Event `k` of a list leads from one listed state to the next. */
  predicate Brings(f: seq<Cursor>, states: seq<State>, es: seq<Event>, k: nat)
    requires k < |es| && |states| == |es| + 1
  {
    Happen(f, states[k], es[k]) == Some(states[k + 1])
  }

  lemma {:induction false} RunOfStates(f: seq<Cursor>, states: seq<State>, es: seq<Event>)
    requires |states| == |es| + 1
    requires forall k | 0 <= k < |es| :: Brings(f, states, es, k)
    ensures RunEvents(f, states[0], es) == Some(states[|es|])
    decreases |es|
  {
    if es != [] {
      assert Brings(f, states, es, 0);
      forall k | 0 <= k < |es| - 1 ensures Brings(f, states[1..], es[1..], k) {
        assert Brings(f, states, es, k + 1);
      }
      RunOfStates(f, states[1..], es[1..]);
    }
  }
}

/**
 Replaying a sequence of inputs through a step function, one input at a time,
 each step handled to completion before the next: the scheduling model of a
 single Gear program. Generic in the state `S`, the input `I` and the effect
 `F`, so that facts about replay do not depend on what a step does.
 */
module Replay {

  /** The final state and every effect emitted, in order. */
  datatype Trace<S, F> = Trace(final: S, effects: seq<F>)

  function Run<S, I, F>(step: (S, I) -> Trace<S, F>, s: S, inputs: seq<I>): (t: Trace<S, F>)
    ensures |inputs| == 0 ==> t == Trace(s, [])
    decreases |inputs|
  {
    if |inputs| == 0 then Trace(s, [])
    else
      var first := step(s, inputs[0]);
      var rest := Run(step, first.final, inputs[1..]);
      Trace(rest.final, first.effects + rest.effects)
  }

  /** Running two batches one after the other is running their concatenation. */
  lemma {:induction false} RunAppend<S, I, F>(step: (S, I) -> Trace<S, F>, s: S, a: seq<I>, b: seq<I>)
    ensures var ta := Run(step, s, a);
            var tb := Run(step, ta.final, b);
            Run(step, s, a + b) == Trace(tb.final, ta.effects + tb.effects)
    decreases |a|
  {
    if |a| == 0 {
      assert a + b == b;
    } else {
      var first := step(s, a[0]);
      assert (a + b)[0] == a[0];
      assert (a + b)[1..] == a[1..] + b;
      RunAppend(step, first.final, a[1..], b);
      var ta' := Run(step, first.final, a[1..]);
      var tb := Run(step, ta'.final, b);
      assert first.effects + (ta'.effects + tb.effects) == (first.effects + ta'.effects) + tb.effects;
    }
  }

  /** A property every step keeps holds after any run. */
  lemma {:induction false} RunPreserves<S, I, F>(step: (S, I) -> Trace<S, F>, inv: S -> bool, s: S, inputs: seq<I>)
    requires forall s', i :: inv(s') ==> inv(step(s', i).final)
    requires inv(s)
    ensures inv(Run(step, s, inputs).final)
    decreases |inputs|
  {
    if |inputs| > 0 {
      RunPreserves(step, inv, step(s, inputs[0]).final, inputs[1..]);
    }
  }
}

/** Runs of a service that answers calls one after the other, for any relation that says how it answers one. */
module Traces {
  /** The trace has a state before every call and one at the end, and each call leads from one to the next. */
  ghost predicate Traced<S, C, R>(step: (S, C, R, S) -> bool, calls: seq<C>, replies: seq<R>, trace: seq<S>) {
    && |replies| == |calls| && |trace| == |calls| + 1
    && forall i :: 0 <= i < |calls| ==> step(trace[i], calls[i], replies[i], trace[i + 1])
  }

  lemma TraceExtend<S, C, R>(step: (S, C, R, S) -> bool, calls: seq<C>, replies: seq<R>, trace: seq<S>, c: C, r: R,
                             s: S)
    requires Traced(step, calls, replies, trace) && step(trace[|calls|], c, r, s)
    ensures Traced(step, calls + [c], replies + [r], trace + [s])
  {
    var calls', replies', trace' := calls + [c], replies + [r], trace + [s];
    forall i | 0 <= i < |calls'|
      ensures step(trace'[i], calls'[i], replies'[i], trace'[i + 1])
    {
      assert trace'[i] == trace[i] && (i < |calls| ==> trace'[i + 1] == trace[i + 1]);
    }
  }
}

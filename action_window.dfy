/**
 * The receding-horizon window of `OctoModel.generate_actions`: of the
 * `horizon` actions the sampler predicts (counted from the oldest observation
 * in the window), keep `nActionSteps` starting at the current step.
 */
module ActionWindow {
  import PySlice

  /** `actions[:, start:end]` with `start = nObsSteps - 1` and `end = start + nActionSteps`. */
  function GenerateActions<A>(trajectory: seq<A>, nObsSteps: nat, nActionSteps: nat): (w: seq<A>)
    ensures |w| <= nActionSteps
  {
    var start := nObsSteps - 1;
    var end := start + nActionSteps;
    PySlice.Slice(trajectory, start, end)
  }

  /** The relation between the window sizes that the source's documentation requires. */
  predicate WindowFits(nObsSteps: nat, horizon: nat, nActionSteps: nat)
  {
    nObsSteps >= 1 && nActionSteps < horizon - nObsSteps + 1
  }

  /**
   * Under that relation the window lies inside the trajectory: it holds
   * exactly the actions at indices nObsSteps - 1 .. nObsSteps + nActionSteps - 2,
   * in order, the first of them being the action for the current step.
   */
  lemma WindowInsideTrajectory<A>(trajectory: seq<A>, nObsSteps: nat, horizon: nat, nActionSteps: nat)
    requires |trajectory| == horizon
    requires WindowFits(nObsSteps, horizon, nActionSteps)
    ensures nObsSteps - 1 + nActionSteps <= horizon
    ensures GenerateActions(trajectory, nObsSteps, nActionSteps)
         == trajectory[nObsSteps - 1 .. nObsSteps - 1 + nActionSteps]
    ensures |GenerateActions(trajectory, nObsSteps, nActionSteps)| == nActionSteps
  {
    PySlice.SliceInside(trajectory, nObsSteps - 1, nObsSteps - 1 + nActionSteps);
  }
}

/**
 * The reverse diffusion loop of `OctoModel.conditional_sample`. The action
 * head (with its fixed readout conditioning) and the scheduler's single
 * reverse step are parameters; the prior sample and the timestep schedule
 * are inputs.
 */
module DenoisingSampler {

  /** The sample after running the reverse step for each timestep of the schedule, in order. */
  function Denoise<X, Y>(prior: X, timesteps: seq<int>, head: (X, int) -> Y, step: (Y, int, X) -> X): X
    decreases |timesteps|
  {
    if timesteps == [] then prior
    else
      var t := timesteps[|timesteps| - 1];
      var previous := Denoise(prior, timesteps[..|timesteps| - 1], head, step);
      step(head(previous, t), t, previous)
  }

  /** The loop: predict with the head, then let the scheduler take one step back. */
  method ConditionalSample<X, Y>(prior: X, timesteps: seq<int>, head: (X, int) -> Y, step: (Y, int, X) -> X)
    returns (sample: X)
    ensures sample == Denoise(prior, timesteps, head, step)
  {
    sample := prior;
    for i := 0 to |timesteps|
      invariant sample == Denoise(prior, timesteps[..i], head, step)
    {
      var t := timesteps[i];
      var modelOutput := head(sample, t);
      sample := step(modelOutput, t, sample);
      assert timesteps[..i + 1][..i] == timesteps[..i];
    }
    assert timesteps[..|timesteps|] == timesteps;
  }

  /** Running a schedule in two parts is running it whole: each step only depends on the previous sample. */
  lemma {:induction false} DenoiseSplit<X, Y>(prior: X, first: seq<int>, second: seq<int>,
                                              head: (X, int) -> Y, step: (Y, int, X) -> X)
    ensures Denoise(prior, first + second, head, step) == Denoise(Denoise(prior, first, head, step), second, head, step)
    decreases |second|
  {
    if second == [] {
      assert first + second == first;
    } else {
      var all := first + second;
      assert all[..|all| - 1] == first + second[..|second| - 1];
      DenoiseSplit(prior, first, second[..|second| - 1], head, step);
    }
  }

  /** With a scheduler step that returns the current sample unchanged, the prior comes back unchanged. */
  lemma {:induction false} IdentityStepKeepsPrior<X(!new), Y(!new)>(prior: X, timesteps: seq<int>,
                                                        head: (X, int) -> Y, step: (Y, int, X) -> X)
    requires forall y, t, x :: step(y, t, x) == x
    ensures Denoise(prior, timesteps, head, step) == prior
    decreases |timesteps|
  {
    if timesteps != [] {
      var t := timesteps[|timesteps| - 1];
      var previous := Denoise(prior, timesteps[..|timesteps| - 1], head, step);
      IdentityStepKeepsPrior(prior, timesteps[..|timesteps| - 1], head, step);
      assert step(head(previous, t), t, previous) == previous;
    }
  }
}

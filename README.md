# Octo policy bookkeeping, modelled in Dafny

This project models the discrete core of the Octo robot policy
(`lerobot/common/policies/octo/modeling_octo.py`): the integer and index logic
around its neural networks.

- **Block-wise causal attention mask** (`CausalMask`). The transformer input
  has `nObsSteps` blocks. Each block holds `nObsTokensPerStep` observation
  tokens followed by `nReadoutsPerStep` readout tokens. `MakeCausalMask`
  builds the mask on a 2-D array the way the source does: it allocates the
  causal triangle, then walks the readout columns block by block, blocking
  each whole column and re-allowing its diagonal cell. Entries are
  `Allow` (bias 0) or `Block` (bias -inf).
- **Token layout** (`TokenLayout`). This is how steps and slots are flattened
  into the sequence, and how the readout embeddings are sliced back out
  (`x[:, :, -R:, :]`).
- **Action window** (`ActionWindow`). Of the `horizon` predicted actions, the
  policy keeps `nActionSteps` of them, starting at index `nObsSteps - 1`.
  The slice uses Python's slicing semantics (`PySlice`).
- **Action-queue controller** (`ActionQueue`). `OctoPolicy` is a class with
  three sequence-valued queues: images and states, capped at `nObsSteps`,
  and planned actions, capped at `nActionSteps`. `Reset` and `SelectAction`
  update these fields. `SelectActionStep` is the pure specification of one
  call, and `Rollout` is the specification of a run of calls. The whole model
  pipeline (encoder, sampler, un-normalisation) is one function parameter,
  `net`.
- **Configuration dispatch** (`ConfigDispatch`). This covers the noise
  scheduler factory, the loss-target choice by prediction type, and the
  single-image-key check. Each is a closed set of names, and any other name
  is an error.
- **Denoising loop** (`DenoisingSampler`). This is the reverse diffusion loop
  of `conditional_sample`. The action head and the scheduler step are
  abstract function parameters.

Error paths are modelled as `Result` values, not preconditions:
- `MakeCausalMask` fails exactly when `nObsTokensPerStep` and
  `nReadoutsPerStep` are both zero. Their sum is the step of the `range` at
  line 502, and Python's `range` rejects a step of zero. A layout built by
  `ObsTokensPerStep` always has at least one observation token per step, so
  the policy itself never reaches this error.
- `SelectAction` fails when `popleft` finds the action queue empty. That is
  exactly when the call found no planned actions and the model's window
  added none (`StepFails`). Given a valid configuration and a model that
  always returns a full-horizon trajectory (`PlansHorizon`), this happens
  only when `nActionSteps == 0`. A model that returns a shorter
  trajectory can also leave the queue empty.
- Unknown scheduler names and unknown prediction types are errors.
- Any number of image keys other than one is an error.

Notes on the source:
- With `nReadoutsPerStep == 0`, the readout slice `[-0:]` keeps the whole
  block, not an empty one. `TokenLayout.NoReadoutsKeepsWholeBlock` records
  this behaviour.
- The token table in the model docstring (lines 191-197) and the code
  disagree on the block length:
  - The docstring writes `n_obs_tokens_per_step = 6*6 + 1 + 1 = 38`. That
    count includes the readout token.
  - The code computes `n_obs_tokens_per_step = h*w + 1`, which is 37 for a
    6x6 feature map, so the block of a step, readout included, is 38 tokens
    long.
  - The table's readout positions (37 and 75) and its total of 76 tokens
    agree with the code.
  - Its "Obs Timestep" row does not agree with the code. It puts tokens 36
    and 37 in step 1, while with a block of 38 the code puts tokens 0 to 37
    in step 0 and tokens 38 to 75 in step 1.
  - `TokenLayout.DocumentedTokenTable` follows the code.
- The prediction type is checked when the loss is computed (`compute_loss`),
  not when the policy is built. The model follows the code.

## Model

| member | source | states |
|---|---|---|
| `CausalMask.MakeCausalMask` | lerobot/common/policies/octo/modeling_octo.py:472-506 | fails exactly when tokens-per-step plus readouts-per-step is 0 (zero `range` step); otherwise returns a fresh square array of side `(T + R) * nObsSteps` whose every entry equals `MaskEntry`: the causal triangle with each readout column blocked except its diagonal |
| `CausalMask.IsolateColumn` | lerobot/common/policies/octo/modeling_octo.py:504-505 | column c becomes blocked except its diagonal cell, which is allowed; every other entry is unchanged |
| `CausalMask.IsolateReadoutsOfBlock` | lerobot/common/policies/octo/modeling_octo.py:502-505 | one pass of the outer loop: if the readout columns before the block's first readout are isolated and the rest is the triangle, then afterwards the same holds up to the next block's first readout |
| `CausalMask.MaskAllowedIff` | lerobot/common/policies/octo/modeling_octo.py:499-505 | entry (r, c) is allowed iff c = r, or c < r and c is an observation column; every entry above the diagonal is blocked, a readout column is allowed only on its diagonal, and every diagonal entry is allowed |
| `CausalMask.NoAttentionToLaterSteps` | lerobot/common/policies/octo/modeling_octo.py:500-501 | an allowed entry never lets a token attend to a token of a later observation step |
| `CausalMask.ObservationsIgnoreReadouts` | lerobot/common/policies/octo/modeling_octo.py:502-505 | an observation token never attends to a readout token, its own step's included |
| `CausalMask.ReadoutsIsolated` | lerobot/common/policies/octo/modeling_octo.py:502-505 | a readout token attends to no other readout token |
| `CausalMask.ReadoutSeesObservationsUpToItsStep` | lerobot/common/policies/octo/modeling_octo.py:500-505 | a readout token attends to an observation token iff that observation's step is no later than the readout's |
| `CausalMask.DocumentedExampleMatches` | lerobot/common/policies/octo/modeling_octo.py:475-489 | the mask for 2 observation tokens, 2 steps and 1 readout is exactly the 6x6 table drawn in the docstring |
| `TokenLayout.ObsTokensPerStep` | lerobot/common/policies/octo/modeling_octo.py:225-227 | one state token plus one per feature-map cell: more tokens than cells, never zero, so the mask's block length is positive whatever the readout count |
| `TokenLayout.TokenIndexLayout` | lerobot/common/policies/octo/modeling_octo.py:585-588 | flattening (step, slot) gives a position inside the mask, with that step and slot, and it is a readout column iff the slot is past the observation tokens |
| `TokenLayout.ReadoutEmbeds` | lerobot/common/policies/octo/modeling_octo.py:588-589 | one group per observation step, each holding `nReadoutsPerStep` embeddings, or, when that count is 0, the whole block of the step (its observation tokens) |
| `TokenLayout.ReadoutEmbedsAreReadoutTokens` | lerobot/common/policies/octo/modeling_octo.py:585-589 | with at least one readout, the embeddings kept for a step are exactly its readout tokens in order, each in a readout column of that step |
| `TokenLayout.NoReadoutsKeepsWholeBlock` | lerobot/common/policies/octo/modeling_octo.py:589 | with zero readouts, the `-0:` slice keeps the whole block of the step |
| `TokenLayout.DocumentedTokenTable` | lerobot/common/policies/octo/modeling_octo.py:191-197 | a 6x6 feature map gives 37 observation tokens per step; with 2 steps and 1 readout the sequence has 76 tokens, the readouts are exactly 37 and 75, tokens 0-37 are step 0 and 38-75 step 1 |
| `PySlice.Slice` | lerobot/common/policies/octo/modeling_octo.py:305 | Python's `s[start:stop]`: length is the clamped stop minus the clamped start when positive, else 0, and element k is the sequence's element at the clamped start plus k |
| `PySlice.SliceInside` | lerobot/common/policies/octo/modeling_octo.py:305 | bounds inside the sequence slice the subsequence between them |
| `PySlice.SliceFromNegative` | lerobot/common/policies/octo/modeling_octo.py:589 | `s[-k:]` keeps the last k elements, except that `s[-0:]` keeps all of `s` |
| `ActionWindow.GenerateActions` | lerobot/common/policies/octo/modeling_octo.py:303-305 | the kept window never holds more than `nActionSteps` actions |
| `ActionWindow.WindowInsideTrajectory` | lerobot/common/policies/octo/modeling_octo.py:300-307 | under the documented requirement `nActionSteps < horizon - nObsSteps + 1` the end index stays within the horizon and the window is exactly the trajectory at indices `nObsSteps-1 .. nObsSteps+nActionSteps-2`, `nActionSteps` long |
| `ActionQueue.AppendEvictsOldest` | lerobot/common/policies/octo/modeling_octo.py:101-102 | appending to a bounded deque adds the element last; below capacity nothing is lost, at capacity the oldest element is evicted; the result is the newest `maxlen` elements |
| `ActionQueue.ExtendKeepsNewest` | lerobot/common/policies/octo/modeling_octo.py:141 | extending a bounded deque keeps the newest `maxlen` of the old and new elements, in order; everything when they fit, only the last `maxlen` new ones when those alone fill it |
| `ActionQueue.ExtendIsAppendEach` | lerobot/common/policies/octo/modeling_octo.py:141 | extending the bounded action deque equals appending its elements one at a time with eviction |
| `ActionQueue.Populate` | lerobot/common/policies/octo/modeling_octo.py:112-113 | pushing an observation leaves a queue that was not over capacity exactly full, with the new observation last |
| `ActionQueue.ObservationHistory` | lerobot/common/policies/octo/modeling_octo.py:110-115 | after a reset and some observations, a history queue holds the latest `nObsSteps` of them, padded at the front with copies of the first, the newest last |
| `ActionQueue.SelectActionStep` | lerobot/common/policies/octo/modeling_octo.py:128-144 | one call pushes the image and the state onto their histories, runs the model iff the action queue is empty, and then queues exactly the action window of the model's prediction from the updated histories |
| `ActionQueue.StepKeepsInvariant` | lerobot/common/policies/octo/modeling_octo.py:131-143 | every call keeps the queue invariant (histories both empty or both full, fewer than `nActionSteps` actions waiting) and leaves both histories full |
| `ActionQueue.RefillStep` | lerobot/common/policies/octo/modeling_octo.py:133-143 | a call that finds the action queue empty runs the model on the updated histories, queues exactly `nActionSteps` actions (trajectory from index `nObsSteps-1`), serves trajectory index `nObsSteps-1` and leaves `nActionSteps-1` queued |
| `ActionQueue.CachedStep` | lerobot/common/policies/octo/modeling_octo.py:133-143 | a call that finds planned actions does not run the model and serves the oldest one |
| `ActionQueue.StepFails` | lerobot/common/policies/octo/modeling_octo.py:141-143 | `popleft` fails, with the empty-queue error, iff no actions were planned and the refill is empty; with a valid configuration and a full-horizon model, iff no actions were planned and `nActionSteps` is 0 |
| `ActionQueue.RolloutStep` | lerobot/common/policies/octo/modeling_octo.py:131-143 | call i of a run is one `select_action` call on observation i from the queues call i - 1 left (the starting queues for call 0) |
| `ActionQueue.RolloutModelInput` | lerobot/common/policies/octo/modeling_octo.py:133-141 | whenever call i runs the model, what it queues is the action window of the model's prediction from the histories as call i left them |
| `ActionQueue.RolloutKeepsInvariant` | lerobot/common/policies/octo/modeling_octo.py:131-143 | from queues satisfying the invariant, every call of a run starts from queues satisfying it |
| `ActionQueue.InvocationSchedule` | lerobot/common/policies/octo/modeling_octo.py:133-143 | over any run of calls, starting with m planned actions, the model runs on call i iff i >= m and (i - m) is a multiple of `nActionSteps`: at most once per `nActionSteps` calls |
| `ActionQueue.ServesPlannedFirst` | lerobot/common/policies/octo/modeling_octo.py:143 | the actions already planned are served first, in order |
| `ActionQueue.ServesRefillsInOrder` | lerobot/common/policies/octo/modeling_octo.py:114-143 | after that, the call j calls after a refill serves the j-th action of that refill, which holds exactly `nActionSteps` actions |
| `ActionQueue.RolloutHistories` | lerobot/common/policies/octo/modeling_octo.py:131-136 | after call i the histories are the starting queues fed the first i + 1 observations, and these are what the model receives |
| `ActionQueue.ModelSeesLatestObservations` | lerobot/common/policies/octo/modeling_octo.py:110-141 | from a reset, the images and the states handed to the model at call i are the latest `nObsSteps` of each, padded with the first observation, observation i last; what the call queues is the action window of the model's prediction from them |
| `ActionQueue.ExampleRun` | lerobot/common/policies/octo/modeling_octo.py:116-124 | an example run of the timing rule the diagram draws, with sizes chosen for the example (`nObsSteps=2, horizon=8, nActionSteps=3`) from a reset: call 1 runs the model on the first observation copied twice, queues 3 actions and serves trajectory index 1; calls 2 and 3 do not run it; call 4 does |
| `ActionQueue.OctoPolicy.constructor` | lerobot/common/policies/octo/modeling_octo.py:57-96 | a new policy has the given configuration, empty queues and no model calls |
| `ActionQueue.OctoPolicy.Reset` | lerobot/common/policies/octo/modeling_octo.py:98-104 | empties all three queues and keeps the invariant |
| `ActionQueue.OctoPolicy.SelectAction` | lerobot/common/policies/octo/modeling_octo.py:106-144 | the new queues and the returned action are those of `SelectActionStep`; the model-call count grows by one iff the action queue was empty |
| `ConfigDispatch.MakeNoiseScheduler` | lerobot/common/policies/octo/modeling_octo.py:155-165 | succeeds iff the name is "DDPM" or "DDIM", returning the scheduler of that name; any other name is an unsupported-scheduler error |
| `ConfigDispatch.SchedulerNameRoundTrip` | lerobot/common/policies/octo/modeling_octo.py:160-163 | each scheduler is built from its own name and from no other |
| `ConfigDispatch.LossTarget` | lerobot/common/policies/octo/modeling_octo.py:354-359 | succeeds iff the prediction type is "epsilon" or "sample"; any other is an unsupported-prediction-type error |
| `ConfigDispatch.LossTargetOfType` | lerobot/common/policies/octo/modeling_octo.py:354-357 | "epsilon" selects the noise and "sample" selects the clean trajectory |
| `ConfigDispatch.ImageKeys` | lerobot/common/policies/octo/modeling_octo.py:88 | keeps exactly the keys that start with "observation.image" |
| `ConfigDispatch.ImageKeysCount` | lerobot/common/policies/octo/modeling_octo.py:88 | each image key is kept as many times as it occurs, and no other key is kept |
| `ConfigDispatch.ImageKeysConcat` | lerobot/common/policies/octo/modeling_octo.py:88 | the filter keeps order: filtering two runs of keys is filtering each and concatenating, and a single key is kept iff it is an image key |
| `ConfigDispatch.InputImageKey` | lerobot/common/policies/octo/modeling_octo.py:88-94 | succeeds iff the filter keeps exactly one key, and returns that key, the only image key among the inputs; for distinct keys (a dict's keys), it succeeds iff some key is the unique image key; otherwise an error listing the image keys |
| `DenoisingSampler.ConditionalSample` | lerobot/common/policies/octo/modeling_octo.py:266-274 | the loop's result is the prior with one head-then-step applied per timestep, in schedule order (`Denoise`) |
| `DenoisingSampler.DenoiseSplit` | lerobot/common/policies/octo/modeling_octo.py:268-274 | running a schedule in two parts equals running it whole |
| `DenoisingSampler.IdentityStepKeepsPrior` | lerobot/common/policies/octo/modeling_octo.py:268-274 | with a scheduler step that returns the current sample, the prior comes back unchanged |

## Left out

- Neural-network numerics are not modelled. This covers the projections and
  positional embeddings, the transformer encoder stack, the Fourier
  features, the MLP and MLP-ResNet blocks, the diffusion action head, and
  the mean pooling of readouts. They are floating-point tensor algebra. The
  model keeps only their index structure, as `TokenLayout` and the
  `net`/`head` parameters.
- The DDPM/DDIM scheduler mathematics (`set_timesteps`, `add_noise`, `step`)
  comes from an external library. The step is an abstract parameter, and
  the timestep schedule is an input.
- Random sampling is not modelled: the prior sample, the training noise and
  the training timesteps. The prior is an input to `ConditionalSample`.
- The loss arithmetic is not modelled: `mse_loss`, the padding mask and
  `mean`. Only the choice of the target is.
- The `forward` and `compute_loss` tensor plumbing is not modelled: shape
  asserts and `rearrange` reshapes. The batch axis is not modelled either;
  one queue element stands for a whole batch row of the source.
- `OctoRgbEncoder` is not modelled: the torchvision backbone and cropping.
  Neither is `_replace_submodules`, which inspects modules at runtime.
- `Normalize`/`Unnormalize` are affine float transforms. Un-normalisation
  is folded into `net`.
- `populate_queues` lives in `lerobot/common/policies/utils.py`, which is not
  part of this model. `Populate` follows its documented behaviour: the first
  observation fills the queue, and later ones evict the oldest.
- The configuration checks live in `configuration_octo.py`, which is not part
  of this model. `OctoPolicy.constructor` requires `nObsSteps >= 1` and the
  documented `nActionSteps < horizon - nObsSteps + 1` rather than reporting
  a violation.
- The `num_inference_steps` default (lines 246-249) is not modelled. It is
  a one-line fallback with no discrete contract beyond the branch.
- The feature slice `sample[..., :action_dim]` (line 301) is not modelled.
  It is a no-op on the trajectory's last axis.
- Device/dtype plumbing and checkpoint I/O (`PyTorchModelHubMixin`) are not
  modelled.

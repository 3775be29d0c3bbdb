/**
 * The receding-horizon action-queue controller of `OctoPolicy`: bounded FIFO
 * queues of recent images, recent states and planned actions. The expensive
 * model runs only when the action queue is empty; it refills the queue with
 * the window of its trajectory that starts at the current step, and each call
 * serves the oldest planned action.
 */
module ActionQueue {
  import opened Wrappers
  import ActionWindow
  import Arith

  // ----- Bounded deques (`collections.deque(maxlen=cap)`) -----

  /** The last `cap` elements of `s` (all of `s` when it is short enough). */
  function BoundedTail<X>(s: seq<X>, cap: nat): (r: seq<X>)
    ensures |r| == if |s| <= cap then |s| else cap
  {
    if |s| <= cap then s else s[|s| - cap..]
  }

  /** `append` on a bounded deque: once full, the oldest element is evicted. */
  function Append<X>(q: seq<X>, x: X, cap: nat): seq<X>
  {
    BoundedTail(q + [x], cap)
  }

  /** `extend` on a bounded deque. */
  function Extend<X>(q: seq<X>, xs: seq<X>, cap: nat): seq<X>
  {
    BoundedTail(q + xs, cap)
  }

  /**
   * A bounded deque keeps its newest elements: appending to a queue with
   * room adds the element at the back; appending to a full queue evicts the
   * front element; and after either, the queue is the newest `cap` elements.
   */
  lemma AppendEvictsOldest<X>(q: seq<X>, x: X, cap: nat)
    ensures |q| < cap ==> Append(q, x, cap) == q + [x]
    ensures |q| == cap >= 1 ==> Append(q, x, cap) == q[1..] + [x]
    ensures |Append(q, x, cap)| == if |q| + 1 <= cap then |q| + 1 else cap
    ensures Append(q, x, cap) == (q + [x])[|q| + 1 - |Append(q, x, cap)|..]
  {
    if |q| == cap >= 1 {
      assert (q + [x])[1..] == q[1..] + [x];
    }
  }

  /** Extending keeps the newest `cap` elements of the queue followed by the new ones. */
  lemma ExtendKeepsNewest<X>(q: seq<X>, xs: seq<X>, cap: nat)
    ensures |q| + |xs| <= cap ==> Extend(q, xs, cap) == q + xs
    ensures |Extend(q, xs, cap)| == if |q| + |xs| <= cap then |q| + |xs| else cap
    ensures Extend(q, xs, cap) == (q + xs)[|q| + |xs| - |Extend(q, xs, cap)|..]
    ensures |xs| >= cap ==> Extend(q, xs, cap) == xs[|xs| - cap..]
  {
    if |xs| >= cap {
      assert (q + xs)[|q| + |xs| - cap..] == xs[|xs| - cap..];
    }
  }

  /** Appending the elements one at a time, as the deque's `extend` is documented to do. */
  function AppendEach<X>(q: seq<X>, xs: seq<X>, cap: nat): seq<X>
    decreases |xs|
  {
    if xs == [] then q else AppendEach(Append(q, xs[0], cap), xs[1..], cap)
  }

  lemma BoundedTailTwice<X>(s: seq<X>, ys: seq<X>, cap: nat)
    ensures BoundedTail(BoundedTail(s, cap) + ys, cap) == BoundedTail(s + ys, cap)
  {
    if |s| > cap {
      var s' := s[|s| - cap..];
      assert s + ys == s[..|s| - cap] + (s' + ys);
    }
  }

  /** Extending a deque is the same as appending each element in turn. */
  lemma {:induction false} ExtendIsAppendEach<X>(q: seq<X>, xs: seq<X>, cap: nat)
    requires |q| <= cap
    ensures Extend(q, xs, cap) == AppendEach(q, xs, cap)
    decreases |xs|
  {
    if xs != [] {
      var q' := Append(q, xs[0], cap);
      ExtendIsAppendEach(q', xs[1..], cap);
      BoundedTailTwice(q + [xs[0]], xs[1..], cap);
      assert q + [xs[0]] + xs[1..] == q + xs;
    }
  }

  // ----- Observation history (`populate_queues`) -----

  /**
   * Push one observation: a queue that is not yet full is filled up with
   * copies of it; a full queue evicts its oldest entry.
   */
  function Populate<X>(q: seq<X>, x: X, cap: nat): (r: seq<X>)
    ensures |q| <= cap ==> |r| == cap
    ensures |r| > 0 ==> r[|r| - 1] == x
  {
    if |q| < cap then q + seq(cap - |q|, _ => x) else Append(q, x, cap)
  }

  /** The queue after pushing each of `xs` in turn. */
  function Feed<X>(q: seq<X>, xs: seq<X>, cap: nat): seq<X>
    decreases |xs|
  {
    if xs == [] then q else Feed(Populate(q, xs[0], cap), xs[1..], cap)
  }

  lemma {:induction false} FeedFull<X>(q: seq<X>, xs: seq<X>, cap: nat)
    requires cap >= 1 && |q| == cap
    ensures Feed(q, xs, cap) == BoundedTail(q + xs, cap)
    decreases |xs|
  {
    if xs != [] {
      var q' := Populate(q, xs[0], cap);
      FeedFull(q', xs[1..], cap);
      BoundedTailTwice(q + [xs[0]], xs[1..], cap);
      assert q + [xs[0]] + xs[1..] == q + xs;
    }
  }

  /**
   * After a reset and the observations `xs`, a history queue holds the latest
   * `cap` observations, padded at the front with copies of the first one.
   */
  lemma ObservationHistory<X>(xs: seq<X>, cap: nat)
    requires cap >= 1 && |xs| >= 1
    ensures Feed([], xs, cap) == BoundedTail(seq(cap, _ => xs[0]) + xs[1..], cap)
    ensures |Feed([], xs, cap)| == cap
    ensures Feed([], xs, cap)[cap - 1] == xs[|xs| - 1]
  {
    var first := Populate([], xs[0], cap);
    assert first == seq(cap, _ => xs[0]);
    FeedFull(first, xs[1..], cap);
  }

  // ----- The controller as a state machine -----

  /** The window sizes of the policy configuration. */
  datatype Config = Config(nObsSteps: nat, horizon: nat, nActionSteps: nat)
  {
    predicate Valid()
    {
      ActionWindow.WindowFits(nObsSteps, horizon, nActionSteps)
    }
  }

  datatype QueueState<I, S, A> = QueueState(images: seq<I>, states: seq<S>, actions: seq<A>)

  datatype PolicyError =
    /** `popleft` on an empty action queue. */
    | EmptyActionQueue

  /** What one `select_action` call did: the new queues, whether the model ran, what it queued, what was served. */
  datatype Outcome<I, S, A> = Outcome(after: QueueState<I, S, A>, invoked: bool, refill: seq<A>, action: Result<A, PolicyError>)

  /** The state just after `reset`. */
  function EmptyQueues<I, S, A>(): QueueState<I, S, A>
  {
    QueueState([], [], [])
  }

  /**
   * The queue invariant between calls: the two histories are both empty or
   * both full, and fewer than `nActionSteps` planned actions are waiting.
   */
  predicate QueuesInvariant<I, S, A>(cfg: Config, q: QueueState<I, S, A>)
  {
    && |q.images| == |q.states|
    && (|q.images| == 0 || |q.images| == cfg.nObsSteps)
    && (|q.actions| < cfg.nActionSteps || q.actions == [])
  }

  /**
   * One `select_action` call. `net` stands for the whole model pipeline
   * (encoder, denoising sampler, un-normalisation): it maps the stacked image
   * and state histories to a predicted trajectory.
   */
  function SelectActionStep<I, S, A>(cfg: Config, q: QueueState<I, S, A>, image: I, state: S,
                                     net: (seq<I>, seq<S>) -> seq<A>): (r: Outcome<I, S, A>)
    ensures r.after.images == Populate(q.images, image, cfg.nObsSteps)
    ensures r.after.states == Populate(q.states, state, cfg.nObsSteps)
    ensures r.invoked <==> q.actions == []
    ensures r.refill == if r.invoked
      then ActionWindow.GenerateActions(net(r.after.images, r.after.states), cfg.nObsSteps, cfg.nActionSteps)
      else []
  {
    var images := Populate(q.images, image, cfg.nObsSteps);
    var states := Populate(q.states, state, cfg.nObsSteps);
    var invoked := q.actions == [];
    var refill := if invoked then ActionWindow.GenerateActions(net(images, states), cfg.nObsSteps, cfg.nActionSteps) else [];
    var actions := if invoked then Extend(q.actions, refill, cfg.nActionSteps) else q.actions;
    if actions == [] then
      Outcome(QueueState(images, states, actions), invoked, refill, Failure(EmptyActionQueue))
    else
      Outcome(QueueState(images, states, actions[1..]), invoked, refill, Success(actions[0]))
  }

  /** Every call leaves the queues in the invariant, with both histories full. */
  lemma StepKeepsInvariant<I, S, A>(cfg: Config, q: QueueState<I, S, A>, image: I, state: S,
                                    net: (seq<I>, seq<S>) -> seq<A>)
    requires cfg.Valid() && QueuesInvariant(cfg, q)
    ensures QueuesInvariant(cfg, SelectActionStep(cfg, q, image, state, net).after)
    ensures |SelectActionStep(cfg, q, image, state, net).after.images| == cfg.nObsSteps
  {
  }

  /** The model always predicts a full-horizon trajectory. */
  ghost predicate PlansHorizon<I(!new), S(!new), A>(cfg: Config, net: (seq<I>, seq<S>) -> seq<A>)
  {
    forall images, states :: |net(images, states)| == cfg.horizon
  }

  /**
   * A call that finds the action queue empty runs the model once on the
   * updated histories, queues exactly `nActionSteps` actions (the trajectory
   * from index nObsSteps - 1 on), and serves the first of them, leaving
   * `nActionSteps - 1` queued.
   */
  lemma RefillStep<I(!new), S(!new), A>(cfg: Config, q: QueueState<I, S, A>, image: I, state: S,
                            net: (seq<I>, seq<S>) -> seq<A>)
    requires cfg.Valid() && cfg.nActionSteps >= 1 && PlansHorizon(cfg, net)
    requires q.actions == []
    ensures var out := SelectActionStep(cfg, q, image, state, net);
      var trajectory := net(out.after.images, out.after.states);
      && out.invoked
      && out.after.images == Populate(q.images, image, cfg.nObsSteps)
      && out.after.states == Populate(q.states, state, cfg.nObsSteps)
      && |out.refill| == cfg.nActionSteps
      && out.refill == trajectory[cfg.nObsSteps - 1 .. cfg.nObsSteps - 1 + cfg.nActionSteps]
      && out.action == Success(trajectory[cfg.nObsSteps - 1])
      && out.after.actions == out.refill[1..]
      && |out.after.actions| == cfg.nActionSteps - 1
  {
    var images := Populate(q.images, image, cfg.nObsSteps);
    var states := Populate(q.states, state, cfg.nObsSteps);
    ActionWindow.WindowInsideTrajectory(net(images, states), cfg.nObsSteps, cfg.horizon, cfg.nActionSteps);
  }

  /** A call that finds planned actions serves the oldest one and does not run the model. */
  lemma CachedStep<I, S, A>(cfg: Config, q: QueueState<I, S, A>, image: I, state: S,
                            net: (seq<I>, seq<S>) -> seq<A>)
    requires q.actions != []
    ensures var out := SelectActionStep(cfg, q, image, state, net);
      && !out.invoked
      && out.refill == []
      && out.action == Success(q.actions[0])
      && out.after.actions == q.actions[1..]
  {
  }

  /**
   * `popleft` fails exactly when the call found no planned actions and the
   * model's window added none. With a valid configuration and a model that
   * plans the whole horizon, that happens exactly when `nActionSteps` is 0.
   */
  lemma StepFails<I(!new), S(!new), A>(cfg: Config, q: QueueState<I, S, A>, image: I, state: S,
                                       net: (seq<I>, seq<S>) -> seq<A>)
    ensures var out := SelectActionStep(cfg, q, image, state, net);
      && (out.action.Failure? <==> q.actions == [] && out.refill == [])
      && (out.action.Failure? ==> out.action.error == EmptyActionQueue)
      && (cfg.Valid() && PlansHorizon(cfg, net) ==>
            (out.action.Failure? <==> q.actions == [] && cfg.nActionSteps == 0))
  {
    var out := SelectActionStep(cfg, q, image, state, net);
    if q.actions == [] {
      ExtendKeepsNewest([], out.refill, cfg.nActionSteps);
      if cfg.Valid() && PlansHorizon(cfg, net) {
        ActionWindow.WindowInsideTrajectory(net(out.after.images, out.after.states), cfg.nObsSteps, cfg.horizon, cfg.nActionSteps);
      }
    }
  }

  /** A run of calls, one per observation, each a `step` from the queues the previous call left. */
  function Run<I, S, A>(step: (QueueState<I, S, A>, (I, S)) -> Outcome<I, S, A>, q: QueueState<I, S, A>,
                        obs: seq<(I, S)>): (outs: seq<Outcome<I, S, A>>)
    ensures |outs| == |obs|
    decreases |obs|
  {
    if obs == [] then []
    else
      var out := step(q, obs[0]);
      [out] + Run(step, out.after, obs[1..])
  }

  /** Call i of a run is one step from the queues call i - 1 left. */
  lemma {:induction false} RunStep<I, S, A>(step: (QueueState<I, S, A>, (I, S)) -> Outcome<I, S, A>,
                                           q: QueueState<I, S, A>, obs: seq<(I, S)>, i: nat)
    requires i < |obs|
    ensures Run(step, q, obs)[i] == step(if i == 0 then q else Run(step, q, obs)[i - 1].after, obs[i])
    decreases i
  {
    if i > 0 {
      var out := step(q, obs[0]);
      var rest := Run(step, out.after, obs[1..]);
      assert Run(step, q, obs) == [out] + rest;
      RunStep(step, out.after, obs[1..], i - 1);
      assert obs[1..][i - 1] == obs[i];
    }
  }

  /** One `select_action` call as a step of a run. */
  function CallStep<I, S, A>(cfg: Config, net: (seq<I>, seq<S>) -> seq<A>): (QueueState<I, S, A>, (I, S)) -> Outcome<I, S, A>
  {
    (q: QueueState<I, S, A>, o: (I, S)) => SelectActionStep(cfg, q, o.0, o.1, net)
  }

  /** The outcomes of a run of `select_action` calls, one per observation. */
  function Rollout<I, S, A>(cfg: Config, q: QueueState<I, S, A>, obs: seq<(I, S)>,
                            net: (seq<I>, seq<S>) -> seq<A>): (outs: seq<Outcome<I, S, A>>)
    ensures |outs| == |obs|
  {
    Run(CallStep(cfg, net), q, obs)
  }

  /** Call i of a rollout is one `select_action` call from the queues call i - 1 left. */
  lemma RolloutStep<I, S, A>(cfg: Config, q: QueueState<I, S, A>, obs: seq<(I, S)>,
                             net: (seq<I>, seq<S>) -> seq<A>, i: nat)
    requires i < |obs|
    ensures Rollout(cfg, q, obs, net)[i]
         == SelectActionStep(cfg, if i == 0 then q else Rollout(cfg, q, obs, net)[i - 1].after, obs[i].0, obs[i].1, net)
  {
    RunStep(CallStep(cfg, net), q, obs, i);
  }

  /**
   * Whenever call i runs the model, what it queues is the window of the
   * trajectory the model predicts from the histories as call i left them.
   */
  lemma RolloutModelInput<I, S, A>(cfg: Config, q: QueueState<I, S, A>, obs: seq<(I, S)>,
                                   net: (seq<I>, seq<S>) -> seq<A>, i: nat)
    requires i < |obs|
    ensures var out := Rollout(cfg, q, obs, net)[i];
      out.invoked ==>
        out.refill == ActionWindow.GenerateActions(net(out.after.images, out.after.states), cfg.nObsSteps, cfg.nActionSteps)
  {
    RolloutStep(cfg, q, obs, net, i);
  }

  /** Every call of a run starts from queues in the invariant. */
  lemma {:induction false} RolloutKeepsInvariant<I, S, A>(cfg: Config, q: QueueState<I, S, A>, obs: seq<(I, S)>,
                                                         net: (seq<I>, seq<S>) -> seq<A>, i: nat)
    requires cfg.Valid() && QueuesInvariant(cfg, q) && i < |obs|
    ensures QueuesInvariant(cfg, if i == 0 then q else Rollout(cfg, q, obs, net)[i - 1].after)
    decreases i
  {
    if i > 0 {
      var outs := Rollout(cfg, q, obs, net);
      RolloutKeepsInvariant(cfg, q, obs, net, i - 1);
      RolloutStep(cfg, q, obs, net, i - 1);
      StepKeepsInvariant(cfg, if i == 1 then q else outs[i - 2].after, obs[i - 1].0, obs[i - 1].1, net);
    }
  }

  // ----- What a run does to the action queue -----

  /** The planned actions call i of a run finds, when the run started with `planned`. */
  function PlannedBefore<I, S, A>(planned: seq<A>, outs: seq<Outcome<I, S, A>>, i: nat): seq<A>
    requires i <= |outs|
  {
    if i == 0 then planned else outs[i - 1].after.actions
  }

  /**
   * One call as the action queue sees it: with nothing planned, the model
   * runs, `n` actions are queued and the first of them is served; otherwise
   * the oldest planned action is served and the model does not run.
   */
  ghost predicate StepShape<I, S, A>(n: nat, planned: seq<A>, out: Outcome<I, S, A>)
  {
    if planned == [] then
      && out.invoked
      && |out.refill| == n >= 1
      && out.action == Success(out.refill[0])
      && out.after.actions == out.refill[1..]
    else
      && !out.invoked
      && out.action == Success(planned[0])
      && out.after.actions == planned[1..]
  }

  /** Every call of `outs` has that shape. */
  ghost predicate ShapedRun<I, S, A>(n: nat, planned: seq<A>, outs: seq<Outcome<I, S, A>>)
  {
    forall i {:trigger PlannedBefore(planned, outs, i)} :: 0 <= i < |outs| ==> StepShape(n, PlannedBefore(planned, outs, i), outs[i])
  }

  /** With a valid configuration and a full-horizon model, one call has that shape. */
  lemma StepShaped<I(!new), S(!new), A>(cfg: Config, q: QueueState<I, S, A>, image: I, state: S,
                                        net: (seq<I>, seq<S>) -> seq<A>)
    requires cfg.Valid() && cfg.nActionSteps >= 1 && PlansHorizon(cfg, net)
    ensures StepShape(cfg.nActionSteps, q.actions, SelectActionStep(cfg, q, image, state, net))
  {
    if q.actions == [] {
      RefillStep(cfg, q, image, state, net);
    } else {
      CachedStep(cfg, q, image, state, net);
    }
  }

  /** Hence so does every run. */
  lemma RolloutShaped<I(!new), S(!new), A>(cfg: Config, q: QueueState<I, S, A>, obs: seq<(I, S)>,
                                           net: (seq<I>, seq<S>) -> seq<A>)
    requires cfg.Valid() && cfg.nActionSteps >= 1 && PlansHorizon(cfg, net)
    ensures ShapedRun(cfg.nActionSteps, q.actions, Rollout(cfg, q, obs, net))
  {
    var outs := Rollout(cfg, q, obs, net);
    forall i | 0 <= i < |outs|
      ensures StepShape(cfg.nActionSteps, PlannedBefore(q.actions, outs, i), outs[i])
    {
      RolloutStep(cfg, q, obs, net, i);
      StepShaped(cfg, if i == 0 then q else outs[i - 1].after, obs[i].0, obs[i].1, net);
    }
  }

  /** The length of the action queue call i finds, starting with m planned actions of a plan of n. */
  function PlannedCount(m: nat, n: nat, i: nat): nat
    requires n >= 1
  {
    if i < m then m - i
    else if (i - m) % n == 0 then 0
    else n - (i - m) % n
  }

  /** Each call takes one planned action, and an empty queue is refilled with n and then served. */
  lemma PlannedCountNext(m: nat, n: nat, i: nat)
    requires n >= 1
    ensures PlannedCount(m, n, i + 1) == if PlannedCount(m, n, i) == 0 then n - 1 else PlannedCount(m, n, i) - 1
  {
    if i + 1 == m {
      Arith.DivModUnique(0, n, 0, 0);
    } else if i >= m {
      var x := i - m;
      Arith.ModNext(x, n);
      assert i + 1 - m == x + 1;
    }
  }

  lemma {:induction false} PlannedBeforeCount<I, S, A>(n: nat, planned: seq<A>, outs: seq<Outcome<I, S, A>>, i: nat)
    requires n >= 1 && |planned| < n && ShapedRun(n, planned, outs)
    requires i <= |outs|
    ensures |PlannedBefore(planned, outs, i)| == PlannedCount(|planned|, n, i)
    decreases i
  {
    if i > 0 {
      PlannedBeforeCount(n, planned, outs, i - 1);
      var before := PlannedBefore(planned, outs, i - 1);
      assert StepShape(n, before, outs[i - 1]);
      PlannedCountNext(|planned|, n, i - 1);
    } else if planned == [] {
      Arith.DivModUnique(0, n, 0, 0);
    }
  }

  /**
   * Inside one cycle, the call j - k calls after the refill at call k serves
   * action j - k of that refill.
   */
  lemma {:induction false} ServesFromRefill<I, S, A>(n: nat, planned: seq<A>, outs: seq<Outcome<I, S, A>>, k: nat, j: nat)
    requires ShapedRun(n, planned, outs)
    requires k <= j < |outs| && PlannedBefore(planned, outs, k) == [] && j - k < n
    ensures |outs[k].refill| == n
    ensures outs[j].action == Success(outs[k].refill[j - k])
    ensures outs[j].after.actions == outs[k].refill[j - k + 1..]
    decreases j - k
  {
    assert StepShape(n, PlannedBefore(planned, outs, k), outs[k]);
    if j > k {
      ServesFromRefill(n, planned, outs, k, j - 1);
      var refill := outs[k].refill;
      var before := PlannedBefore(planned, outs, j);
      var p := j - 1 - k;
      assert outs[j - 1].after.actions == refill[p + 1..];
      assert p + 1 == j - k;
      assert before == outs[j - 1].after.actions;
      assert before != [] && before[0] == refill[j - k];
      assert StepShape(n, before, outs[j]);
      assert before[1..] == refill[j - k + 1..];
    }
  }

  /** The model runs exactly when the action queue it finds is empty. */
  lemma ShapedSchedule<I, S, A>(n: nat, planned: seq<A>, outs: seq<Outcome<I, S, A>>)
    requires n >= 1 && |planned| < n && ShapedRun(n, planned, outs)
    ensures forall i :: 0 <= i < |outs| ==>
      (outs[i].invoked <==> i >= |planned| && (i - |planned|) % n == 0)
  {
    forall i | 0 <= i < |outs|
      ensures outs[i].invoked <==> i >= |planned| && (i - |planned|) % n == 0
    {
      PlannedBeforeCount(n, planned, outs, i);
      assert StepShape(n, PlannedBefore(planned, outs, i), outs[i]);
    }
  }

  /** The refill that call i draws on, when the run started with m planned actions. */
  function PlanOf<I, S, A>(outs: seq<Outcome<I, S, A>>, i: nat, m: nat, n: nat): seq<A>
    requires n >= 1 && m <= i < |outs|
  {
    outs[i - (i - m) % n].refill
  }

  /** From call m on, each call serves from the refill it draws on, at its offset in the cycle. */
  ghost predicate ServesPlans<I, S, A>(outs: seq<Outcome<I, S, A>>, m: nat, n: nat)
    requires n >= 1
  {
    forall i {:trigger PlanOf(outs, i, m, n)} :: m <= i < |outs| ==>
      && |PlanOf(outs, i, m, n)| == n
      && outs[i].action == Success(PlanOf(outs, i, m, n)[(i - m) % n])
  }

  lemma ShapedServes<I, S, A>(n: nat, planned: seq<A>, outs: seq<Outcome<I, S, A>>)
    requires n >= 1 && |planned| < n && ShapedRun(n, planned, outs)
    ensures ServesPlans(outs, |planned|, n)
  {
    var m := |planned|;
    forall i | m <= i < |outs|
      ensures |PlanOf(outs, i, m, n)| == n
      ensures outs[i].action == Success(PlanOf(outs, i, m, n)[(i - m) % n])
    {
      var k := i - (i - m) % n;
      Arith.CycleStart(i, m, n);
      PlannedBeforeCount(n, planned, outs, k);
      ServesFromRefill(n, planned, outs, k, i);
    }
  }

  /**
   * When the model runs. Starting with `m` planned actions, the first `m`
   * calls do not run it; from then on it runs on every `nActionSteps`-th
   * call exactly, so at most once per `nActionSteps` actions served.
   */
  lemma InvocationSchedule<I(!new), S(!new), A>(cfg: Config, q: QueueState<I, S, A>,
                                                obs: seq<(I, S)>, net: (seq<I>, seq<S>) -> seq<A>)
    requires cfg.Valid() && cfg.nActionSteps >= 1 && PlansHorizon(cfg, net)
    requires QueuesInvariant(cfg, q)
    ensures var outs := Rollout(cfg, q, obs, net);
      forall i :: 0 <= i < |outs| ==>
        (outs[i].invoked <==> i >= |q.actions| && (i - |q.actions|) % cfg.nActionSteps == 0)
  {
    RolloutShaped(cfg, q, obs, net);
    ShapedSchedule(cfg.nActionSteps, q.actions, Rollout(cfg, q, obs, net));
  }

  /** Call i, within the actions planned at the start, serves planned action i. */
  lemma {:induction false} ServesPlannedAction<I, S, A>(cfg: Config, q: QueueState<I, S, A>,
                                                       obs: seq<(I, S)>, net: (seq<I>, seq<S>) -> seq<A>, i: nat)
    requires i < |obs| && i < |q.actions|
    ensures var out := Rollout(cfg, q, obs, net)[i];
      out.action == Success(q.actions[i]) && out.after.actions == q.actions[i + 1..]
    decreases i
  {
    var outs := Rollout(cfg, q, obs, net);
    RolloutStep(cfg, q, obs, net, i);
    if i > 0 {
      ServesPlannedAction(cfg, q, obs, net, i - 1);
    }
    var before := if i == 0 then q else outs[i - 1].after;
    assert before.actions == q.actions[i..];
    CachedStep(cfg, before, obs[i].0, obs[i].1, net);
    assert q.actions[i..][1..] == q.actions[i + 1..];
  }

  /** The actions already planned are served first, in order. */
  lemma ServesPlannedFirst<I, S, A>(cfg: Config, q: QueueState<I, S, A>,
                                    obs: seq<(I, S)>, net: (seq<I>, seq<S>) -> seq<A>)
    ensures var outs := Rollout(cfg, q, obs, net);
      forall i :: 0 <= i < |outs| && i < |q.actions| ==> outs[i].action == Success(q.actions[i])
  {
    forall i | 0 <= i < |obs| && i < |q.actions|
      ensures Rollout(cfg, q, obs, net)[i].action == Success(q.actions[i])
    {
      ServesPlannedAction(cfg, q, obs, net, i);
    }
  }

  /**
   * Once the planned actions are used up, the call made j calls after a
   * refill serves the j-th action of that refill, which holds exactly
   * `nActionSteps` actions.
   */
  lemma ServesRefillsInOrder<I(!new), S(!new), A>(cfg: Config, q: QueueState<I, S, A>,
                                                  obs: seq<(I, S)>, net: (seq<I>, seq<S>) -> seq<A>)
    requires cfg.Valid() && cfg.nActionSteps >= 1 && PlansHorizon(cfg, net)
    requires QueuesInvariant(cfg, q)
    ensures ServesPlans(Rollout(cfg, q, obs, net), |q.actions|, cfg.nActionSteps)
  {
    RolloutShaped(cfg, q, obs, net);
    ShapedServes(cfg.nActionSteps, q.actions, Rollout(cfg, q, obs, net));
  }

  /**
   * An example run of the timing rule: with nObsSteps = 2, horizon = 8 and
   * nActionSteps = 3, starting from a reset, the first call runs the model
   * and serves trajectory index 1, the next two calls are served from the
   * queue, and the fourth call runs the model again.
   */
  lemma ExampleRun<I(!new), S(!new), A>(obs: seq<(I, S)>, net: (seq<I>, seq<S>) -> seq<A>)
    requires |obs| == 4
    requires PlansHorizon(Config(2, 8, 3), net)
    ensures var outs := Rollout(Config(2, 8, 3), EmptyQueues(), obs, net);
      && outs[0].invoked && !outs[1].invoked && !outs[2].invoked && outs[3].invoked
      && |outs[0].refill| == 3
      && outs[0].action == Success(net([obs[0].0, obs[0].0], [obs[0].1, obs[0].1])[1])
  {
    ExampleRunSchedule(obs, net);
    ExampleRunFirstCall(obs, net);
  }

  lemma ExampleRunSchedule<I(!new), S(!new), A>(obs: seq<(I, S)>, net: (seq<I>, seq<S>) -> seq<A>)
    requires |obs| == 4
    requires PlansHorizon(Config(2, 8, 3), net)
    ensures var outs := Rollout(Config(2, 8, 3), EmptyQueues(), obs, net);
      outs[0].invoked && !outs[1].invoked && !outs[2].invoked && outs[3].invoked
  {
    InvocationSchedule(Config(2, 8, 3), EmptyQueues(), obs, net);
  }

  lemma ExampleRunFirstCall<I(!new), S(!new), A>(obs: seq<(I, S)>, net: (seq<I>, seq<S>) -> seq<A>)
    requires |obs| == 4
    requires PlansHorizon(Config(2, 8, 3), net)
    ensures var out := Rollout(Config(2, 8, 3), EmptyQueues(), obs, net)[0];
      |out.refill| == 3 && out.action == Success(net([obs[0].0, obs[0].0], [obs[0].1, obs[0].1])[1])
  {
    var cfg: Config := Config(2, 8, 3);
    RolloutStep(cfg, EmptyQueues(), obs, net, 0);
    RefillStep(cfg, EmptyQueues(), obs[0].0, obs[0].1, net);
    assert Populate([], obs[0].0, 2) == [obs[0].0, obs[0].0];
    assert Populate([], obs[0].1, 2) == [obs[0].1, obs[0].1];
  }

  // ----- What the model sees -----

  function Images<I, S>(obs: seq<(I, S)>): (xs: seq<I>)
    ensures |xs| == |obs| && forall k :: 0 <= k < |obs| ==> xs[k] == obs[k].0
  {
    seq(|obs|, k requires 0 <= k < |obs| => obs[k].0)
  }

  function States<I, S>(obs: seq<(I, S)>): (xs: seq<S>)
    ensures |xs| == |obs| && forall k :: 0 <= k < |obs| ==> xs[k] == obs[k].1
  {
    seq(|obs|, k requires 0 <= k < |obs| => obs[k].1)
  }

  lemma ImagesOfPrefix<I, S>(obs: seq<(I, S)>, i: nat)
    requires i < |obs|
    ensures var xs := Images(obs[..i + 1]);
      && |xs| == i + 1 && xs[0] == obs[0].0 && xs[i] == obs[i].0
      && xs[1..] == Images(obs[1..i + 1])
      && xs == Images(obs[..i]) + [obs[i].0]
  {
    var xs := Images(obs[..i + 1]);
    assert xs[1..] == Images(obs[1..i + 1]);
    assert xs == Images(obs[..i]) + [obs[i].0];
  }

  lemma StatesOfPrefix<I, S>(obs: seq<(I, S)>, i: nat)
    requires i < |obs|
    ensures var xs := States(obs[..i + 1]);
      && |xs| == i + 1 && xs[0] == obs[0].1 && xs[i] == obs[i].1
      && xs[1..] == States(obs[1..i + 1])
      && xs == States(obs[..i]) + [obs[i].1]
  {
    var xs := States(obs[..i + 1]);
    assert xs[1..] == States(obs[1..i + 1]);
    assert xs == States(obs[..i]) + [obs[i].1];
  }

  /** Pushing one more observation after a sequence of them. */
  lemma {:induction false} FeedSnoc<X>(q: seq<X>, xs: seq<X>, x: X, cap: nat)
    ensures Feed(q, xs + [x], cap) == Populate(Feed(q, xs, cap), x, cap)
    decreases |xs|
  {
    if xs == [] {
      assert [x][1..] == [];
    } else {
      assert (xs + [x])[1..] == xs[1..] + [x];
      FeedSnoc(Populate(q, xs[0], cap), xs[1..], x, cap);
    }
  }

  /** The histories after call i are the queues the run started with, fed the first i + 1 observations. */
  lemma {:induction false} RolloutHistories<I, S, A>(cfg: Config, q: QueueState<I, S, A>, obs: seq<(I, S)>,
                                                    net: (seq<I>, seq<S>) -> seq<A>, i: nat)
    requires i < |obs|
    ensures Rollout(cfg, q, obs, net)[i].after.images == Feed(q.images, Images(obs[..i + 1]), cfg.nObsSteps)
    ensures Rollout(cfg, q, obs, net)[i].after.states == Feed(q.states, States(obs[..i + 1]), cfg.nObsSteps)
    decreases i
  {
    RolloutStep(cfg, q, obs, net, i);
    ImagesOfPrefix(obs, i);
    StatesOfPrefix(obs, i);
    if i > 0 {
      RolloutHistories(cfg, q, obs, net, i - 1);
    } else {
      assert Images(obs[..0]) == [] && States(obs[..0]) == [];
    }
    FeedSnoc(q.images, Images(obs[..i]), obs[i].0, cfg.nObsSteps);
    FeedSnoc(q.states, States(obs[..i]), obs[i].1, cfg.nObsSteps);
  }

  /**
   * From a reset, whenever call i runs the model, the model receives the
   * latest nObsSteps images and states, the oldest slots holding copies of
   * the very first observation while fewer have arrived, and what it
   * queues is the window of the trajectory it predicts from them.
   */
  lemma ModelSeesLatestObservations<I, S, A>(cfg: Config, obs: seq<(I, S)>, net: (seq<I>, seq<S>) -> seq<A>, i: nat)
    requires cfg.Valid() && i < |obs|
    ensures var out := Rollout(cfg, EmptyQueues(), obs, net)[i];
      && out.after.images == BoundedTail(seq(cfg.nObsSteps, _ => obs[0].0) + Images(obs[1..i + 1]), cfg.nObsSteps)
      && out.after.states == BoundedTail(seq(cfg.nObsSteps, _ => obs[0].1) + States(obs[1..i + 1]), cfg.nObsSteps)
      && |out.after.images| == |out.after.states| == cfg.nObsSteps
      && out.after.images[cfg.nObsSteps - 1] == obs[i].0
      && out.after.states[cfg.nObsSteps - 1] == obs[i].1
      && (out.invoked ==>
            out.refill == ActionWindow.GenerateActions(net(out.after.images, out.after.states), cfg.nObsSteps, cfg.nActionSteps))
  {
    RolloutHistories(cfg, EmptyQueues(), obs, net, i);
    RolloutModelInput(cfg, EmptyQueues(), obs, net, i);
    ImagesOfPrefix(obs, i);
    StatesOfPrefix(obs, i);
    ObservationHistory(Images(obs[..i + 1]), cfg.nObsSteps);
    ObservationHistory(States(obs[..i + 1]), cfg.nObsSteps);
  }

  // ----- The policy object -----

  /** `OctoPolicy`'s rollout state: the three queues `reset` creates and `select_action` updates. */
  class OctoPolicy<I, S, A> {
    const config: Config
    var imageQueue: seq<I>
    var stateQueue: seq<S>
    var actionQueue: seq<A>
    /** How many times the model has been run. */
    ghost var modelCalls: nat

    function Queues(): QueueState<I, S, A>
      reads this
    {
      QueueState(imageQueue, stateQueue, actionQueue)
    }

    ghost predicate Valid()
      reads this
    {
      config.Valid() && QueuesInvariant(config, Queues())
    }

    /** Construction ends with a `reset`. */
    constructor (config: Config)
      requires config.Valid()
      ensures Valid()
      ensures this.config == config
      ensures Queues() == EmptyQueues()
      ensures modelCalls == 0
    {
      this.config := config;
      imageQueue, stateQueue, actionQueue := [], [], [];
      modelCalls := 0;
    }

    /** `reset`: empty all three queues. */
    method Reset()
      requires Valid()
      modifies this
      ensures Valid()
      ensures Queues() == EmptyQueues()
      ensures modelCalls == old(modelCalls)
    {
      imageQueue, stateQueue, actionQueue := [], [], [];
    }

    /** `select_action`: push the observation, refill the plan if it ran out, serve one action. */
    method SelectAction(image: I, state: S, net: (seq<I>, seq<S>) -> seq<A>)
      returns (r: Result<A, PolicyError>)
      requires Valid()
      modifies this
      ensures Valid()
      ensures var out := SelectActionStep(config, old(Queues()), image, state, net);
        && Queues() == out.after
        && r == out.action
        && modelCalls == old(modelCalls) + (if out.invoked then 1 else 0)
      ensures modelCalls == old(modelCalls) + (if old(actionQueue) == [] then 1 else 0)
    {
      ghost var before := Queues();
      StepKeepsInvariant(config, before, image, state, net);
      imageQueue := Populate(imageQueue, image, config.nObsSteps);
      stateQueue := Populate(stateQueue, state, config.nObsSteps);
      if |actionQueue| == 0 {
        var trajectory := net(imageQueue, stateQueue);
        actionQueue := Extend(actionQueue, ActionWindow.GenerateActions(trajectory, config.nObsSteps, config.nActionSteps),
                              config.nActionSteps);
        modelCalls := modelCalls + 1;
      }
      if |actionQueue| == 0 {
        return Failure(EmptyActionQueue);
      }
      r := Success(actionQueue[0]);
      actionQueue := actionQueue[1..];
    }
  }
}

/** The REINFORCE agent for the cart-pole task: its episode buffer, its
    per-episode training step and its control loop. The environment, the
    policy network's sampling and the optimiser are collaborators outside
    the model: the environment and the sampled actions are parameters, and a
    training step is modelled by the batch it hands to the optimiser. */
module PolicyGradient {
  import opened Returns
  import opened Scores

  /** Step cap of one episode (`ep_trial_step`). */
  const EpTrialStep: nat := 500
  /** Reward recorded on the step where the pole falls (a Python int). */
  const PenaltyReward: int := -100
  /** Rolling average at which cart-pole counts as solved. */
  const SolvedScore: real := 490.0

  /** What one environment step reports: the next observation, the raw
      reward (a Python float, as cart-pole's 1.0 is) and whether the episode
      is over. */
  datatype Transition = Transition(nextState: seq<real>, reward: real, done: bool)

  /** The environment as a supplier of observations: `reset(e)` is the first
      observation of episode e, `step(e, j, a)` the outcome of taking action a
      at step j of episode e. */
  datatype Env = Env(reset: nat -> seq<real>, step: (nat, nat, nat) -> Transition)

  /** The batch one training call hands to the optimiser. */
  datatype Update = Update(states: seq<seq<real>>, actions: seq<seq<real>>, targets: seq<real>)

  /** A buffered reward together with its Python type, which decides the
      element type numpy infers for the array of returns. */
  datatype Reward = IntReward(n: int) | FloatReward(x: real)

  /** What a training call ends in: the batch handed to the optimiser, or the
      error numpy raises when the float mean is subtracted in place from an
      integer array. */
  datatype TrainOutcome = Trained(update: Update) | CastError

  /** The numeric value of a reward. */
  function Val(r: Reward): real
  {
    match r
    case IntReward(n) => n as real
    case FloatReward(x) => x
  }

  /** The numeric values of buffered rewards. */
  function Values(rs: seq<Reward>): (v: seq<real>)
    ensures |v| == |rs|
  {
    seq(|rs|, i requires 0 <= i < |rs| => Val(rs[i]))
  }

  /** `np.zeros_like` gives an integer array exactly when the list is
      non-empty and holds Python ints only. */
  predicate IntArray(rs: seq<Reward>)
  {
    |rs| > 0 && forall i :: 0 <= i < |rs| ==> rs[i].IntReward?
  }

  /** One-hot encoding of action a among n actions (all zeros when a is not
      an action; the agent only encodes actions below n). */
  function OneHot(n: nat, a: nat): (v: seq<real>)
    ensures |v| == n
    ensures a < n ==> v[a] == 1.0
    ensures forall i :: 0 <= i < n && i != a ==> v[i] == 0.0
  {
    seq(n, i requires 0 <= i < n => if i == a then 1.0 else 0.0)
  }

  /** Row-wise dot product, as `K.sum(action * policy, axis=1)` for one row. */
  function Dot(v: seq<real>, p: seq<real>): real
    requires |v| == |p|
  {
    if v == [] then 0.0 else v[0] * p[0] + Dot(v[1..], p[1..])
  }

  lemma {:induction false} DotZero(v: seq<real>, p: seq<real>)
    requires |v| == |p|
    requires forall i :: 0 <= i < |v| ==> v[i] == 0.0
    ensures Dot(v, p) == 0.0
  {
    if v != [] {
      DotZero(v[1..], p[1..]);
    }
  }

  lemma {:induction false} DotUnit(v: seq<real>, p: seq<real>, a: nat)
    requires |v| == |p| && a < |v|
    requires v[a] == 1.0
    requires forall i :: 0 <= i < |v| && i != a ==> v[i] == 0.0
    ensures Dot(v, p) == p[a]
  {
    if a == 0 {
      DotZero(v[1..], p[1..]);
    } else {
      DotUnit(v[1..], p[1..], a - 1);
    }
  }

  /** The loss picks the probability of the taken action: weighting a
      probability row by the one-hot vector of a selects its entry a. */
  lemma OneHotSelects(n: nat, a: nat, p: seq<real>)
    requires a < n == |p|
    ensures Dot(OneHot(n, a), p) == p[a]
  {
    DotUnit(OneHot(n, a), p, a);
  }

  /** The reward the agent records: the cart-pole penalty on the final step. */
  function Shape(t: Transition): Reward
  {
    if t.done then IntReward(PenaltyReward) else FloatReward(t.reward)
  }

  /** The transition of step j of episode e under the sampled actions. */
  function Trans(env: Env, policy: (nat, nat) -> nat, e: nat, j: nat): Transition
  {
    env.step(e, j, policy(e, j))
  }

  /** The observation the agent acts on at step j of episode e. */
  function Obs(env: Env, policy: (nat, nat) -> nat, e: nat, j: nat): seq<real>
  {
    if j == 0 then env.reset(e) else Trans(env, policy, e, j - 1).nextState
  }

  /** Number of steps episode e runs when it has not ended before step j. */
  function LengthFrom(env: Env, policy: (nat, nat) -> nat, e: nat, j: nat): (n: nat)
    requires j < EpTrialStep
    ensures j < n <= EpTrialStep
    ensures Trans(env, policy, e, n - 1).done || n == EpTrialStep
    decreases EpTrialStep - j
  {
    if Trans(env, policy, e, j).done || j + 1 == EpTrialStep then j + 1
    else LengthFrom(env, policy, e, j + 1)
  }

  /** The score of episode e: it ends on the first step that reports done, or
      after EpTrialStep steps. */
  function EpisodeLength(env: Env, policy: (nat, nat) -> nat, e: nat): (n: nat)
    ensures 1 <= n <= EpTrialStep
  {
    LengthFrom(env, policy, e, 0)
  }

  /** No step between j and the last one reports done. */
  lemma {:induction false} LengthFromNoEarlierDone(env: Env, policy: (nat, nat) -> nat, e: nat, j: nat)
    requires j < EpTrialStep
    ensures forall k :: j <= k < LengthFrom(env, policy, e, j) - 1 ==> !Trans(env, policy, e, k).done
    decreases EpTrialStep - j
  {
    if !(Trans(env, policy, e, j).done || j + 1 == EpTrialStep) {
      LengthFromNoEarlierDone(env, policy, e, j + 1);
    }
  }

  /** An episode ends on its first done step, or at the step cap if none
      comes first: no earlier step reports done. */
  lemma EpisodeLengthEnds(env: Env, policy: (nat, nat) -> nat, e: nat)
    ensures var n := EpisodeLength(env, policy, e);
      (Trans(env, policy, e, n - 1).done || n == EpTrialStep) &&
      forall k :: 0 <= k < n - 1 ==> !Trans(env, policy, e, k).done
  {
    LengthFromNoEarlierDone(env, policy, e, 0);
  }

  /** The states recorded in the first n steps of episode e. */
  function EpisodeStates(env: Env, policy: (nat, nat) -> nat, e: nat, n: nat): (r: seq<seq<real>>)
    ensures |r| == n
  {
    if n == 0 then [] else EpisodeStates(env, policy, e, n - 1) + [Obs(env, policy, e, n - 1)]
  }

  /** The one-hot actions recorded in the first n steps of episode e. */
  function EpisodeActions(env: Env, policy: (nat, nat) -> nat, actionSize: nat, e: nat, n: nat): (r: seq<seq<real>>)
    ensures |r| == n
  {
    if n == 0 then []
    else EpisodeActions(env, policy, actionSize, e, n - 1) + [OneHot(actionSize, policy(e, n - 1))]
  }

  /** The shaped rewards recorded in the first n steps of episode e. */
  function EpisodeRewards(env: Env, policy: (nat, nat) -> nat, e: nat, n: nat): (r: seq<Reward>)
    ensures |r| == n
  {
    if n == 0 then [] else EpisodeRewards(env, policy, e, n - 1) + [Shape(Trans(env, policy, e, n - 1))]
  }

  /** Step j of an episode is recorded with its observation, the one-hot
      vector of its action and its shaped reward: -100 on a done step, the
      environment's reward otherwise. */
  lemma {:induction false} EpisodeSampleAt(env: Env, policy: (nat, nat) -> nat, actionSize: nat, e: nat, n: nat, j: nat)
    requires j < n
    ensures EpisodeStates(env, policy, e, n)[j] == Obs(env, policy, e, j)
    ensures EpisodeActions(env, policy, actionSize, e, n)[j] == OneHot(actionSize, policy(e, j))
    ensures EpisodeRewards(env, policy, e, n)[j] ==
      if Trans(env, policy, e, j).done then IntReward(-100) else FloatReward(Trans(env, policy, e, j).reward)
  {
    if j < n - 1 {
      EpisodeSampleAt(env, policy, actionSize, e, n - 1, j);
    }
  }

  /** The batch the optimiser receives at the end of episode e. */
  function EpisodeUpdate(env: Env, policy: (nat, nat) -> nat, actionSize: nat, e: nat): Update
  {
    var n := EpisodeLength(env, policy, e);
    Update(EpisodeStates(env, policy, e, n),
           EpisodeActions(env, policy, actionSize, e, n),
           Center(ReturnsOf(Values(EpisodeRewards(env, policy, e, n)))))
  }

  /** The penalty is recorded at most once per episode: on its last step,
      when that step reports done. Every other step records the environment's
      float reward unchanged. */
  lemma PenaltyOnlyAtEnd(env: Env, policy: (nat, nat) -> nat, e: nat)
    ensures var n := EpisodeLength(env, policy, e);
      forall j :: 0 <= j < n ==>
        EpisodeRewards(env, policy, e, n)[j] ==
          if j == n - 1 && Trans(env, policy, e, j).done then IntReward(PenaltyReward)
          else FloatReward(Trans(env, policy, e, j).reward)
  {
    var n := EpisodeLength(env, policy, e);
    EpisodeLengthEnds(env, policy, e);
    forall j | 0 <= j < n {
      EpisodeSampleAt(env, policy, 0, e, n, j);
    }
  }

  /** The rewards of an episode are Python ints only when the episode is one
      step long: that step reports done and records the penalty, while a
      longer episode starts with a step that does not report done and records
      the environment's float reward. */
  lemma OneStepIntArray(env: Env, policy: (nat, nat) -> nat, e: nat)
    ensures var n := EpisodeLength(env, policy, e);
      IntArray(EpisodeRewards(env, policy, e, n)) <==> n == 1
  {
    var n := EpisodeLength(env, policy, e);
    EpisodeLengthEnds(env, policy, e);
    EpisodeSampleAt(env, policy, 0, e, n, 0);
  }

  /** The step that reports done, or the step that reaches the cap, is the
      last one: its score is the episode length. */
  lemma EpisodeEnds(env: Env, policy: (nat, nat) -> nat, actionSize: nat, e: nat, score: nat)
    requires 0 < score <= EpTrialStep
    requires EpisodeLength(env, policy, e) == LengthFrom(env, policy, e, score - 1)
    requires Trans(env, policy, e, score - 1).done || score == EpTrialStep
    ensures score == EpisodeLength(env, policy, e)
    ensures EpisodeUpdate(env, policy, actionSize, e) ==
      Update(EpisodeStates(env, policy, e, score),
             EpisodeActions(env, policy, actionSize, e, score),
             Center(ReturnsOf(Values(EpisodeRewards(env, policy, e, score)))))
  {
  }

  /** The scores of the first m episodes, in order. */
  function ExpectedScores(env: Env, policy: (nat, nat) -> nat, m: nat): (s: seq<nat>)
    ensures |s| == m
  {
    if m == 0 then [] else ExpectedScores(env, policy, m - 1) + [EpisodeLength(env, policy, m - 1)]
  }

  lemma {:induction false} ExpectedScoresAt(env: Env, policy: (nat, nat) -> nat, m: nat)
    ensures forall e :: 0 <= e < m ==> ExpectedScores(env, policy, m)[e] == EpisodeLength(env, policy, e)
  {
    if m > 0 {
      ExpectedScoresAt(env, policy, m - 1);
    }
  }

  /** The batches of the first m training calls, in order. */
  function ExpectedUpdates(env: Env, policy: (nat, nat) -> nat, actionSize: nat, m: nat): (u: seq<Update>)
    ensures |u| == m
  {
    if m == 0 then [] else ExpectedUpdates(env, policy, actionSize, m - 1) + [EpisodeUpdate(env, policy, actionSize, m - 1)]
  }

  /** The e-th training call of the loop receives the batch of episode e. */
  lemma {:induction false} ExpectedUpdatesAt(env: Env, policy: (nat, nat) -> nat, actionSize: nat, m: nat, e: nat)
    requires e < m
    ensures ExpectedUpdates(env, policy, actionSize, m)[e] == EpisodeUpdate(env, policy, actionSize, e)
  {
    if e < m - 1 {
      ExpectedUpdatesAt(env, policy, actionSize, m - 1, e);
    }
  }

  /** No check of the loop guard before the last one saw the solved score. */
  ghost predicate UnsolvedBefore(s: seq<nat>)
  {
    s == [] || (UnsolvedBefore(s[..|s| - 1]) && RollingAvg(s[..|s| - 1]) < SolvedScore)
  }

  lemma {:induction false} UnsolvedBeforeAt(s: seq<nat>)
    requires UnsolvedBefore(s)
    ensures forall k :: 0 <= k < |s| ==> RollingAvg(s[..k]) < SolvedScore
  {
    if s != [] {
      var p := s[..|s| - 1];
      UnsolvedBeforeAt(p);
      assert forall k :: 0 <= k < |p| ==> s[..k] == p[..k];
    }
  }

  /** Every score is at least 2: each of these episodes trained. */
  ghost predicate AllTrained(s: seq<nat>)
  {
    s == [] || (AllTrained(s[..|s| - 1]) && 2 <= s[|s| - 1])
  }

  lemma {:induction false} AllTrainedAt(s: seq<nat>)
    requires AllTrained(s)
    ensures forall e :: 0 <= e < |s| ==> 2 <= s[e]
  {
    if s != [] {
      AllTrainedAt(s[..|s| - 1]);
    }
  }

  /** What the control loop knows after the episodes whose scores are s:
      each of them ended with a training call, its score is the episode's
      length, and no earlier check of the loop guard saw the solved score. */
  ghost predicate RunSoFar(env: Env, policy: (nat, nat) -> nat, actionSize: nat,
                           s: seq<nat>, updates: seq<Update>, timeStep: nat, avgScore: real)
  {
    s == ExpectedScores(env, policy, |s|) &&
    AllTrained(s) &&
    updates == ExpectedUpdates(env, policy, actionSize, |s|) &&
    timeStep == SumNat(s) && avgScore == RollingAvg(s) && UnsolvedBefore(s)
  }

  /** One more episode that trains keeps what the control loop knows. */
  lemma RunStep(env: Env, policy: (nat, nat) -> nat, actionSize: nat,
                s: seq<nat>, updates: seq<Update>, timeStep: nat, avgScore: real, score: nat, update: Update)
    requires RunSoFar(env, policy, actionSize, s, updates, timeStep, avgScore)
    requires avgScore < SolvedScore
    requires score == EpisodeLength(env, policy, |s|) && score != 1
    requires update == EpisodeUpdate(env, policy, actionSize, |s|)
    ensures RunSoFar(env, policy, actionSize, s + [score], updates + [update], timeStep + score, AvgLast(s + [score]))
  {
    var t := s + [score];
    assert t[..|s|] == s;
    SumNatAppend(s, score);
    assert ExpectedScores(env, policy, |t|) == t;
    assert ExpectedUpdates(env, policy, actionSize, |t|) == updates + [update];
    assert AllTrained(t) && UnsolvedBefore(t);
  }

  /** What the control loop knows, index by index. */
  lemma RunSoFarAt(env: Env, policy: (nat, nat) -> nat, actionSize: nat,
                   s: seq<nat>, updates: seq<Update>, timeStep: nat, avgScore: real)
    requires RunSoFar(env, policy, actionSize, s, updates, timeStep, avgScore)
    ensures forall e :: 0 <= e < |s| ==> s[e] == EpisodeLength(env, policy, e)
    ensures forall e :: 0 <= e < |s| ==> 2 <= s[e] <= EpTrialStep
    ensures forall k :: 0 <= k < |s| ==> RollingAvg(s[..k]) < SolvedScore
  {
    ExpectedScoresAt(env, policy, |s|);
    AllTrainedAt(s);
    UnsolvedBeforeAt(s);
  }

  /** The agent: its sizes and its episode buffer of three parallel lists. */
  class Agent {
    const stateSize: nat
    const actionSize: nat
    var bufferState: seq<seq<real>>
    var bufferAction: seq<seq<real>>
    var bufferReward: seq<Reward>

    /** The three parallel lists have equal length. */
    ghost predicate Valid()
      reads this
    {
      |bufferState| == |bufferAction| == |bufferReward|
    }

    /** The buffer holds the first n steps of episode e. */
    ghost predicate Holds(env: Env, policy: (nat, nat) -> nat, e: nat, n: nat)
      reads this
    {
      bufferState == EpisodeStates(env, policy, e, n) &&
      bufferAction == EpisodeActions(env, policy, actionSize, e, n) &&
      bufferReward == EpisodeRewards(env, policy, e, n)
    }

    constructor (stateSize: nat, actionSize: nat)
      ensures Valid()
      ensures this.stateSize == stateSize && this.actionSize == actionSize
      ensures bufferState == [] && bufferAction == [] && bufferReward == []
    {
      this.stateSize := stateSize;
      this.actionSize := actionSize;
      bufferState, bufferAction, bufferReward := [], [], [];
    }

    /** Records one step: the state row, the one-hot action and the reward. */
    method AppendSample(state: seq<seq<real>>, action: nat, reward: Reward)
      requires Valid()
      requires |state| > 0 && action < actionSize
      modifies this
      ensures Valid()
      ensures bufferState == old(bufferState) + [state[0]]
      ensures bufferAction == old(bufferAction) + [OneHot(actionSize, action)]
      ensures bufferReward == old(bufferReward) + [reward]
    {
      var actionArray := new real[actionSize](_ => 0.0);
      actionArray[action] := 1.0;
      assert actionArray[..] == OneHot(actionSize, action);
      bufferState := bufferState + [state[0]];
      bufferAction := bufferAction + [actionArray[..]];
      bufferReward := bufferReward + [reward];
    }

    /** One training call: hands the states, the actions and the centred
        discounted returns to the optimiser, then empties the buffer. When
        every buffered reward is an int, the returns array is an integer
        array and the in-place subtraction of its float mean raises before
        anything is handed over. */
    method TrainModel() returns (outcome: TrainOutcome)
      requires Valid() && |bufferReward| > 0
      modifies this
      ensures Valid()
      ensures outcome.CastError? <==> IntArray(old(bufferReward))
      ensures outcome.CastError? ==>
        bufferState == old(bufferState) && bufferAction == old(bufferAction) && bufferReward == old(bufferReward)
      ensures outcome.Trained? ==> bufferState == [] && bufferAction == [] && bufferReward == []
      ensures outcome.Trained? ==>
        outcome.update == Update(old(bufferState), old(bufferAction), Center(ReturnsOf(Values(old(bufferReward)))))
      ensures outcome.Trained? ==>
        |outcome.update.targets| == |outcome.update.states| == |outcome.update.actions|
    {
      var discountedRewards := DiscountedReturns(Values(bufferReward));
      if IntArray(bufferReward) {
        outcome := CastError;
        return;
      }
      var targets := Center(discountedRewards);
      outcome := Trained(Update(bufferState, bufferAction, targets));
      bufferState, bufferAction, bufferReward := [], [], [];
    }

    /** One episode of the control loop, from the reset to the training
        call that ends it: the inner `while` of `run`. */
    method PlayEpisode(env: Env, policy: (nat, nat) -> nat, episode: nat) returns (score: nat, outcome: TrainOutcome)
      requires Valid() && bufferReward == []
      requires forall e, j :: policy(e, j) < actionSize
      modifies this
      ensures Valid()
      ensures score == EpisodeLength(env, policy, episode)
      ensures outcome.CastError? <==> score == 1
      ensures outcome.Trained? ==> bufferState == [] && bufferAction == [] && bufferReward == []
      ensures outcome.Trained? ==> outcome.update == EpisodeUpdate(env, policy, actionSize, episode)
      ensures outcome.Trained? ==>
        |outcome.update.states| == |outcome.update.actions| == |outcome.update.targets| == score
      ensures outcome.CastError? ==> Holds(env, policy, episode, score)
    {
      var done := false;
      score := 0;
      var state := [env.reset(episode)];
      while !done && score < EpTrialStep
        invariant Valid() && score <= EpTrialStep
        invariant state == [Obs(env, policy, episode, score)]
        invariant Holds(env, policy, episode, score)
        invariant !done && score < EpTrialStep ==>
          EpisodeLength(env, policy, episode) == LengthFrom(env, policy, episode, score)
        invariant done || score == EpTrialStep ==> score == EpisodeLength(env, policy, episode)
        decreases EpTrialStep - score
      {
        score := score + 1;
        var action := policy(episode, score - 1);
        var t := env.step(episode, score - 1, action);
        var nextState := [t.nextState];
        var reward := FloatReward(t.reward);
        done := t.done;
        if done {
          reward := IntReward(PenaltyReward);
        }
        assert t == Trans(env, policy, episode, score - 1) && reward == Shape(t);
        AppendSample(state, action, reward);
        state := nextState;
        if done || score == EpTrialStep {
          EpisodeEnds(env, policy, actionSize, episode, score);
        }
      }
      // The loop stops exactly on the step where the episode ends: train once.
      OneStepIntArray(env, policy, episode);
      outcome := TrainModel();
    }

    /** The control loop: episodes run until the clock budget is spent or the
        rolling average reaches the solved score. `budget` is the number of
        episode starts at which the wall clock still allows training. A
        training call that raises ends the loop with `crashed`. */
    method Run(env: Env, policy: (nat, nat) -> nat, budget: nat)
      returns (scores: seq<nat>, updates: seq<Update>, timeStep: nat, avgScore: real, crashed: bool)
      requires Valid() && bufferReward == []
      requires forall e, j :: policy(e, j) < actionSize
      modifies this
      ensures Valid()
      ensures |scores| == |updates| <= budget
      ensures forall e :: 0 <= e < |scores| ==> scores[e] == EpisodeLength(env, policy, e)
      ensures forall e :: 0 <= e < |scores| ==> 2 <= scores[e] <= EpTrialStep
      ensures updates == ExpectedUpdates(env, policy, actionSize, |scores|)
      ensures avgScore == RollingAvg(scores)
      ensures forall k :: 0 <= k < |scores| ==> RollingAvg(scores[..k]) < SolvedScore
      ensures !crashed ==> bufferState == [] && bufferAction == [] && bufferReward == []
      ensures !crashed ==> timeStep == SumNat(scores)
      ensures !crashed ==> |scores| == budget || SolvedScore <= avgScore
      ensures crashed ==> |scores| < budget && avgScore < SolvedScore
      ensures crashed ==> EpisodeLength(env, policy, |scores|) == 1 && timeStep == SumNat(scores) + 1
      ensures crashed ==> Holds(env, policy, |scores|, 1)
    {
      scores, updates := [], [];
      avgScore := 0.0;
      timeStep := 0;
      crashed := false;
      var episode: nat := 0;
      while episode < budget && avgScore < SolvedScore
        invariant Valid() && bufferState == [] && bufferAction == [] && bufferReward == []
        invariant episode <= budget
        invariant episode == |scores|
        invariant RunSoFar(env, policy, actionSize, scores, updates, timeStep, avgScore)
        invariant !crashed
        decreases budget - episode
      {
        var score, outcome := PlayEpisode(env, policy, episode);
        if outcome.CastError? {
          // The exception leaves `run` before the score is recorded.
          timeStep := timeStep + score;
          crashed := true;
          break;
        }
        RunStep(env, policy, actionSize, scores, updates, timeStep, avgScore, score, outcome.update);
        episode := episode + 1;
        timeStep := timeStep + score;
        scores := scores + [score];
        updates := updates + [outcome.update];
        avgScore := AvgLast(scores);
      }
      RunSoFarAt(env, policy, actionSize, scores, updates, timeStep - (if crashed then 1 else 0), avgScore);
    }
  }
}

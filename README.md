# REINFORCE cart-pole agent — Dafny model

This project models the trainable core of the policy-gradient (REINFORCE)
agent that learns to balance a pole on a cart. Its `RL_Agent` class is modelled as
`PolicyGradient.Agent`:

- The **episode buffer** holds three parallel lists: states, one-hot actions and rewards.
  `append_sample` grows them by one entry each, and `train_model` empties them.
  A reward keeps its Python type: the −100 penalty is an int, and the environment's
  reward is a float.
- The **return estimator** is the reverse loop with a running accumulator that
  computes `G_t = r_t + 0.99 · G_{t+1}`. Its result is mean-centred before it is
  handed to the optimiser.
- The **control loop** of `run`:
  - every episode is capped at 500 steps;
  - the reward of the step that reports `done` is overridden with −100;
  - every episode ends with exactly one training call;
  - the loop keeps a rolling average of the last 30 scores and stops once it reaches 490.

The model has three modules:

- `Returns` (returns.dfy) holds:
  - the recursive specification `Disc` of the discounted return, and its closed
    form `Σ_k γ^k · r_{t+k}`;
  - the reverse loop `DiscountedReturns`, proved against both;
  - the mean-centring step, with the proof that centred targets have mean zero.
- `Scores` (scores.dfy) holds the rolling average `np.mean(scores[-min(30, len(scores)):])`
  and its properties.
- `PolicyGradient` (agent.dfy) holds:
  - the environment as a value `Env`. Its `reset(e)` gives the first observation of
    episode `e`, and its `step(e, j, a)` gives the `(next_state, reward, done)` of step `j`
    under action `a`;
  - the sampled actions as a parameter `policy(e, j)`;
  - the specification of each episode: its length, the samples it records, and the batch
    it hands to the optimiser;
  - the class `Agent`, whose methods are proved against that specification.

The optimiser call `loss_and_train` is foreign. A training call is modelled by the batch
it receives, `Update(states, actions, targets)`, which `TrainModel` returns.

`np.zeros_like` gives an integer array when every buffered reward is a Python int.
The in-place subtraction of the float mean (line 118 of `01_Keras_type_d_cartpole_policygradient_GREEN.py`) then raises a casting error.
In a run this happens exactly for a one-step episode, whose only reward is the −100
penalty (`OneStepIntArray`). `TrainModel` returns `CastError` in that case and leaves
the buffers as they were. `Run` then stops with `crashed`, before the score is recorded,
as the exception leaves `run`.

The inner `while` of `run` is the method `Agent.PlayEpisode`, and `Agent.Run` is the outer loop.
`run` calls `train_model` inside the inner loop, guarded by
`if done or score == ep_trial_step`. That guard holds only on the loop's last
iteration, so the model places the single training call right after the inner loop exits.
The order of effects is the same.

`run` updates `time_step` once per step. The model adds each episode's score at
the end of the episode, which gives the same total.

The wall-clock guard `time.time() - start_time < self.training_time` is modelled
by a number `budget`. The outer loop exits at the first check of the guard that fails,
so the checks that pass form a prefix of the episode starts. `budget` is the length of
that prefix.

## Model

| member | source | states |
|---|---|---|
| `PolicyGradient.Agent.constructor` | 04_Type_D_Keras_cartpole_discrete/01_Keras_type_d_cartpole_policygradient_GREEN.py:40-58 | the agent starts with the given sizes and three empty, equal-length buffers |
| `PolicyGradient.Agent.AppendSample` | 04_Type_D_Keras_cartpole_discrete/01_Keras_type_d_cartpole_policygradient_GREEN.py:100-106 | each buffer grows by exactly one entry: the state row `state[0]`, the one-hot vector of the action and the reward. The three lengths stay equal. The action must be below `action_size` |
| `PolicyGradient.OneHot` | 04_Type_D_Keras_cartpole_discrete/01_Keras_type_d_cartpole_policygradient_GREEN.py:102-103 | the action vector has length `action_size`, holds 1 at the chosen action and 0 everywhere else |
| `PolicyGradient.OneHotSelects` | 04_Type_D_Keras_cartpole_discrete/01_Keras_type_d_cartpole_policygradient_GREEN.py:84 | summing the product of the one-hot vector and a probability row, as the loss does, gives the probability of the taken action |
| `Returns.DiscountedReturns` | 04_Type_D_Keras_cartpole_discrete/01_Keras_type_d_cartpole_policygradient_GREEN.py:112-116 | the result has one entry per reward. The last entry is the last reward, and every earlier entry is `r[i] + 0.99 · disc[i+1]`. Every entry equals the closed form `Σ_k 0.99^k · r[i+k]`. The loop keeps `running_add == Disc(r, index)`, and every entry from `index` on already holds its final value |
| `Returns.DiscClosedForm` | 04_Type_D_Keras_cartpole_discrete/01_Keras_type_d_cartpole_policygradient_GREEN.py:114-116 | the accumulator recurrence equals the discounted sum `Σ_{k=0}^{n-1-t} γ^k · r_{t+k}` at every index |
| `Returns.WeightedSumStep` | 04_Type_D_Keras_cartpole_discrete/01_Keras_type_d_cartpole_policygradient_GREEN.py:115 | the discounted sum from t is `r_t` plus γ times the discounted sum from t+1, which is the accumulator update |
| `Returns.DiscExample` | 04_Type_D_Keras_cartpole_discrete/01_Keras_type_d_cartpole_policygradient_GREEN.py:112-116 | rewards `[1, 1, 1]` give the returns `[2.9701, 1.99, 1.0]` |
| `Returns.Center` | 04_Type_D_Keras_cartpole_discrete/01_Keras_type_d_cartpole_policygradient_GREEN.py:118 | every target is the discounted return minus the mean of all the returns, and there is one target per return |
| `Returns.CenterHasMeanZero` | 04_Type_D_Keras_cartpole_discrete/01_Keras_type_d_cartpole_policygradient_GREEN.py:118 | after subtracting their mean, the returns sum to zero and have mean zero |
| `PolicyGradient.Agent.TrainModel` | 04_Type_D_Keras_cartpole_discrete/01_Keras_type_d_cartpole_policygradient_GREEN.py:109-122 | the call raises a casting error exactly when every buffered reward is a Python int, and then leaves the buffers unchanged. Otherwise the optimiser receives the buffered states and actions and the mean-centred discounted returns of the buffered rewards, all of one length, and afterwards the three buffers are empty |
| `PolicyGradient.LengthFrom` | 04_Type_D_Keras_cartpole_discrete/01_Keras_type_d_cartpole_policygradient_GREEN.py:149-176 | an episode that is still running at step j ends after more than j and at most 500 steps. Its last step reports `done` or is step 500 |
| `PolicyGradient.EpisodeLengthEnds` | 04_Type_D_Keras_cartpole_discrete/01_Keras_type_d_cartpole_policygradient_GREEN.py:149-176 | an episode ends on its first `done` step, or at step 500 when none comes earlier. No earlier step reports `done` |
| `PolicyGradient.EpisodeSampleAt` | 04_Type_D_Keras_cartpole_discrete/01_Keras_type_d_cartpole_policygradient_GREEN.py:159-173 | step j is recorded with the observation the agent acted on and the one-hot vector of the sampled action. Its reward is the int −100 when the step reports `done`, and the environment's float reward unchanged otherwise |
| `PolicyGradient.PenaltyOnlyAtEnd` | 04_Type_D_Keras_cartpole_discrete/01_Keras_type_d_cartpole_policygradient_GREEN.py:166-167 | within an episode the −100 penalty is recorded at most once, on the last step and only when that step reports `done`. Every other step records the environment's reward |
| `PolicyGradient.OneStepIntArray` | 04_Type_D_Keras_cartpole_discrete/01_Keras_type_d_cartpole_policygradient_GREEN.py:112-118 | the episode's rewards are all Python ints, which makes `np.zeros_like` an integer array, exactly when the episode is one step long |
| `PolicyGradient.Agent.PlayEpisode` | 04_Type_D_Keras_cartpole_discrete/01_Keras_type_d_cartpole_policygradient_GREEN.py:144-178 | one episode calls `train_model` exactly once, and its score is the episode length, so at most 500. The call raises exactly when the score is 1, and the buffer then still holds the episode. Otherwise the trained batch holds exactly `score` samples and is the episode's batch, and the buffers are empty afterwards |
| `PolicyGradient.Agent.Run` | 04_Type_D_Keras_cartpole_discrete/01_Keras_type_d_cartpole_policygradient_GREEN.py:133-185 | the e-th recorded score is episode e's length, between 2 and 500, and there is one training batch per recorded episode, in order. `avg_score` is the rolling average. Without a crash, `time_step` is the total number of steps and the loop stops only when the budget is spent or `avg_score >= 490`. A crash happens only in a one-step episode, started while the budget lasted and the average was below 490; its step is counted in `time_step` and its sample stays in the buffer. The loop never skipped an earlier chance to stop |
| `PolicyGradient.ExpectedScoresAt` | 04_Type_D_Keras_cartpole_discrete/01_Keras_type_d_cartpole_policygradient_GREEN.py:181 | the list of scores holds, at index e, the length of episode e |
| `PolicyGradient.ExpectedUpdatesAt` | 04_Type_D_Keras_cartpole_discrete/01_Keras_type_d_cartpole_policygradient_GREEN.py:176-178 | the e-th training call receives the batch of episode e |
| `PolicyGradient.UnsolvedBeforeAt` | 04_Type_D_Keras_cartpole_discrete/01_Keras_type_d_cartpole_policygradient_GREEN.py:143 | at every earlier check of the outer loop guard, the rolling average was below 490 |
| `Scores.AvgLast` | 04_Type_D_Keras_cartpole_discrete/01_Keras_type_d_cartpole_policygradient_GREEN.py:183 | the rolling average is the mean of the last `min(30, len(scores))` scores: multiplied by that count it gives their sum. It is never negative |
| `Scores.AvgLastBounds` | 04_Type_D_Keras_cartpole_discrete/01_Keras_type_d_cartpole_policygradient_GREEN.py:183 | the rolling average lies between the smallest and the largest score of the last `min(30, len(scores))` episodes |
| `Scores.AvgLastWindow` | 04_Type_D_Keras_cartpole_discrete/01_Keras_type_d_cartpole_policygradient_GREEN.py:183 | once there are 30 scores or more, the rolling average depends only on the last 30 |
| `Scores.AvgReachedNeedsScore` | 04_Type_D_Keras_cartpole_discrete/01_Keras_type_d_cartpole_policygradient_GREEN.py:143-183 | the average reaches a threshold only if some episode within the window scored at least that much. So stopping at 490 needs an episode of at least 490 steps among the last 30 |

## Left out

- Network construction, loss and optimiser (`build_model`, `actor_optimizer`). These are
  Keras/TensorFlow graph building, autodiff and Adam over floating point, so they are foreign
  calls. A training call is represented by the batch it receives. The only piece of the loss
  that is modelled is the row-wise selection of the taken action's probability (`OneHotSelects`).
- Action sampling (`get_action`) is `actor.predict` plus `np.random.choice`. It becomes the
  input `policy(e, j)`, which must be below `action_size`.
- PolicyGradient.Agent.TrainModel: the targets are the mean-centred returns. The division by
  `np.std` is not modelled, because Dafny's reals have no square root.
- The environment's rewards are taken to be Python floats, as cart-pole's `1.0` is. An
  environment that reports int rewards is not modelled: with it, longer episodes whose
  rewards are all ints would raise at line 118 too.
- The gym environment (creation, seeding, `reset`, `step`, rendering) becomes the value `Env`.
  The reshape of observations to `[1, state_size]` is modelled as wrapping one row. The length
  of an observation is not checked against `state_size`.
- The wall-clock budget `time.time() - start_time < training_time` becomes the number
  `budget`. The final elapsed-time print is left out.
- Filesystem and console output: directory creation, weight load and save, progress prints,
  and the `episodes` list that only feeds the commented-out plot.
- Floating point: rewards, returns and averages are exact reals, so rounding is not modelled.

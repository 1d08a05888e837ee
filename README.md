# tiny_rl experience handling and agent control, in Dafny

This project models the sequential core of the tiny_rl reinforcement-learning library (a
header-only C++ library on top of tiny_dnn) and proves properties of that model:

- **Sum-tree** (`sum_tree.dfy`, module `SumTrees`). An array-backed heap of `2*capacity-1`
  priority sums. Every internal node is the sum of its two children. `Set` rewrites a leaf and
  walks the change up to the root. `GetLeaf` descends from the root by comparing the draw
  with the left child's sum. The proofs show:
  - the root is the sum of the leaves;
  - `Set` changes exactly the leaf's root path;
  - the descent returns data slot `d` exactly for the draws that fall in an interval as long
    as `d`'s priority.
- **Prioritized replay store** (`prioritized_replay_buffer.dfy`, module `PrioritizedReplay`).
  A ring of experiences with a parallel priority array. Each priority^alpha is mirrored into a
  sum-tree leaf. The module covers:
  - max-priority insertion;
  - stratified sampling through the tree;
  - the running minimum of priority^alpha;
  - priority updates from TD errors, with an explicit specification of repeated indices;
  - clearing.
- **Uniform replay store** (`replay_buffer.dfy`, module `ReplayBuffers`). A ring buffer that
  appends until it holds `capacity` experiences, then overwrites at a cursor that advances
  modulo the capacity. A ghost history of everything added shows that the store always holds
  the last `capacity` experiences, oldest first from the cursor.
- **Rollout store** (`rollout_buffer.dfy`, module `Rollouts`). A bounded, append-only store
  for on-policy steps. An add to a full store fails.
- **PPO agent** (`ppo_agent.dfy`, module `PpoAgents`, with the estimator maths in `gae.dfy`,
  module `Gae`). The module covers:
  - the backward generalized-advantage (GAE) pass that writes each step's advantage and return in place;
  - the "learn only when full, train, clear" cycle;
  - the log-probability and value bookkeeping between `select_action` and `store_experience`.

  The pass is proved against a recursive specification `Advantage`. That specification is
  proved equal to an independent closed form: the sum of the TD residuals up to the end of the
  episode, weighted by powers of gamma*lambda.
- **DQN agent** (`dqn_agent.dfy`, module `DqnAgents`, with the stand-in network in
  `q_network.dfy`, module `QNetworks`). The module covers:
  - epsilon decay;
  - the three-part learn gate;
  - batch unpacking;
  - the gradient-step counter and the hard target-network refresh schedule;
  - the uniform-random branch of epsilon-greedy action selection.

Modelling conventions:
- Floats are `real` (exact).
- `std::pow(·, alpha)` is a function fixed at construction, required to map 0 to 0 and
  positives to positives.
- `std::log` is a function field of the PPO agent.
- Every random draw is a parameter constrained to the range its distribution produces: a
  uniform index, a stratified sample value, the epsilon coin or an action pick.
- The neural networks are stand-ins:
  - the Q-network holds opaque online and target parameter vectors and applies functions fixed
    at construction, and the model records which parameters each call reads and which it
    replaces;
  - the actor-critic network holds no parameters, only its fixed forward pass and a log of the
    batches it was asked to train on.

## Model

| member | source | states |
|---|---|---|
| SumTrees.SumTree.constructor | include/tiny_rl/core/prioritized_replay_buffer.h:14-18 | a tree of capacity >= 1 has 2*capacity-1 nodes, all zero, and satisfies the sum invariant |
| SumTrees.SumTree.Total | include/tiny_rl/core/prioritized_replay_buffer.h:35-38 | the root read by total() equals the sum of all leaves |
| SumTrees.RootIsLeafSum | include/tiny_rl/core/prioritized_replay_buffer.h:35-38 | in any tree where each internal node is the sum of its children, node 0 equals the sum of the leaves |
| SumTrees.SumTree.Set | include/tiny_rl/core/prioritized_replay_buffer.h:21-33 | the sum invariant is kept; the leaves are the old leaves with slot data_index replaced by the new value; the new tree is the old one with the delta added on the leaf's root path and nowhere else |
| SumTrees.PathShift | include/tiny_rl/core/prioritized_replay_buffer.h:23-32 | adding one delta along a leaf-to-root path yields the shifted tree, keeps every node the sum of its children, and changes only that one leaf |
| SumTrees.PathShiftKeepsInvariant | include/tiny_rl/core/prioritized_replay_buffer.h:27-32 | a uniform shift of a root path keeps the sum invariant, because each path node has exactly one child on the path |
| SumTrees.PathShiftLeaves | include/tiny_rl/core/prioritized_replay_buffer.h:23-25 | the only leaf a path shift changes is the path's own leaf |
| SumTrees.ShiftUp | include/tiny_rl/core/prioritized_replay_buffer.h:28-32 | one step of the upward walk moves to the parent, which lies on the same path, and shifts it next |
| SumTrees.SumTree.GetLeaf | include/tiny_rl/core/prioritized_replay_buffer.h:40-61 | the descent ends at a leaf; it returns a data index below capacity and that leaf's stored value; it is the descent function Descend; and for 0 < value <= total() the returned priority is positive |
| SumTrees.DescendInterval | include/tiny_rl/core/prioritized_replay_buffer.h:45-59 | from any node, a draw in (0, node sum] reaches leaf j exactly when it falls in j's interval (offset, offset + leaf value] |
| SumTrees.SampleProportional | include/tiny_rl/core/prioritized_replay_buffer.h:40-61 | with non-negative leaves and 0 < v <= total, get_leaf returns slot d exactly for the draws in an interval whose length is slot d's priority^alpha |
| SumTrees.NodeNonNegative | include/tiny_rl/core/prioritized_replay_buffer.h:21-33 | with non-negative leaves every node sum is non-negative |
| SumTrees.SumTree.Reset | include/tiny_rl/core/prioritized_replay_buffer.h:63-66 | every node becomes zero, the invariant holds and the total is zero |
| PrioritizedReplay.MaxOf | include/tiny_rl/core/prioritized_replay_buffer.h:97 | the result of max_element is an element of the range and no element exceeds it |
| PrioritizedReplay.PrioritizedReplayBuffer.constructor | include/tiny_rl/core/prioritized_replay_buffer.h:76-90 | empty store: cursor and size zero, all priorities zero, total zero, tree mirrors the priorities |
| PrioritizedReplay.PrioritizedReplayBuffer.Add | include/tiny_rl/core/prioritized_replay_buffer.h:93-105 | writes the slot at the cursor; stores the max of the first size priorities (which includes the slot being replaced when full), or 1.0 when empty; that priority is positive; writes its pow into the leaf; advances the cursor modulo capacity; grows size only below capacity |
| PrioritizedReplay.PrioritizedReplayBuffer.SetPriority | include/tiny_rl/core/prioritized_replay_buffer.h:99-100 | the shared step of add and update_priorities: priorities[index] := p and leaf index := p^alpha, nothing else, and the mirror invariant is kept |
| PrioritizedReplay.PrioritizedReplayBuffer.LeavesNonNegative | include/tiny_rl/core/prioritized_replay_buffer.h:99-100 | every leaf is priority^alpha of its slot and non-negative |
| PrioritizedReplay.PrioritizedReplayBuffer.PositiveLeaf | include/tiny_rl/core/prioritized_replay_buffer.h:144-148 | a slot whose leaf is positive has a positive priority |
| PrioritizedReplay.SegmentWithinTotal | include/tiny_rl/core/prioritized_replay_buffer.h:120-121 | the segments segment*i .. segment*(i+1) of sample stay within the total |
| PrioritizedReplay.PrioritizedReplayBuffer.Sample | include/tiny_rl/core/prioritized_replay_buffer.h:107-155 | for draws s_i in segment i it returns exactly batch_size entries; entry i is the tree descent's slot for s_i, below capacity; out[i] is buffer[indices[i]] and the stored p_alpha is that slot's leaf; a positive draw lands on a slot with positive priority |
| PrioritizedReplay.PrioritizedReplayBuffer.MinPriorityAlpha | include/tiny_rl/core/prioritized_replay_buffer.h:124-133 | the minimum starts at +infinity; it stays infinite exactly when no occupied slot has a positive priority; otherwise it is the pow of some positive occupied priority and no larger than any other |
| PrioritizedReplay.PrioritizedReplayBuffer.UpdatePriorities | include/tiny_rl/core/prioritized_replay_buffer.h:157-169 | applies the updates in order (Updated); unlisted slots keep their priority; a slot listed several times holds \|error\| + 1e-6 of its last listing; every listed slot ends positive; the tree keeps mirroring |
| PrioritizedReplay.UpdatedSpec | include/tiny_rl/core/prioritized_replay_buffer.h:162-168 | the in-order update sequence leaves unlisted slots alone, gives each listed slot the floored magnitude of its last error, and leaves every listed slot positive |
| PrioritizedReplay.UpdatedUnlisted | include/tiny_rl/core/prioritized_replay_buffer.h:162-166 | a slot none of the first n updates lists keeps its priority |
| PrioritizedReplay.UpdatedLast | include/tiny_rl/core/prioritized_replay_buffer.h:162-166 | the last update to a slot decides its priority |
| PrioritizedReplay.UpdatedPositive | include/tiny_rl/core/prioritized_replay_buffer.h:165-166 | every slot written by an update is positive, because of the 1e-6 floor |
| PrioritizedReplay.PrioritizedReplayBuffer.Size | include/tiny_rl/core/prioritized_replay_buffer.h:171-174 | size() never exceeds capacity |
| PrioritizedReplay.PrioritizedReplayBuffer.Clear | include/tiny_rl/core/prioritized_replay_buffer.h:175-180 | size and cursor zero, every priority zero, total() zero, invariants kept |
| ReplayBuffers.ReplayBuffer.constructor | include/tiny_rl/core/replay_buffer.h:22-26 | an empty store with cursor 0 |
| ReplayBuffers.ReplayBuffer.Add | include/tiny_rl/core/replay_buffer.h:28-39 | below capacity, appends; when full, overwrites only the slot at the cursor; the cursor becomes (index + 1) % capacity; the store still holds the last capacity experiences added |
| ReplayBuffers.NextCursor | include/tiny_rl/core/replay_buffer.h:38 | the modulo-free cursor step equals (cursor + 1) % n |
| ReplayBuffers.ModStep | include/tiny_rl/core/replay_buffer.h:38 | advancing a count by one advances its residue modulo capacity by one cursor step |
| ReplayBuffers.RotatedOverwrite | include/tiny_rl/core/replay_buffer.h:36-38 | overwriting the cursor slot and advancing the cursor drops the oldest experience and appends the new one, in oldest-first order |
| ReplayBuffers.LastNAppend | include/tiny_rl/core/replay_buffer.h:30-37 | the last-capacity window of the history grows while short and slides by one once full |
| ReplayBuffers.HoldsLastAdded | include/tiny_rl/core/replay_buffer.h:28-39 | after capacity + k adds, the store is full and holds exactly the last capacity experiences, as a multiset |
| ReplayBuffers.ReplayBuffer.Sample | include/tiny_rl/core/replay_buffer.h:42-58 | an empty store gives an empty batch; otherwise exactly batch_size items, item i being buffer[draw i]; every item is a current element (duplicates allowed); the store is unchanged |
| ReplayBuffers.ReplayBuffer.Size | include/tiny_rl/core/replay_buffer.h:60-63 | size() is at most capacity and equals min(number added, capacity) |
| ReplayBuffers.ReplayBuffer.Clear | include/tiny_rl/core/replay_buffer.h:65-69 | empty store, cursor 0, capacity unchanged |
| Rollouts.NewEntry | include/tiny_rl/core/rollout_buffer.h:10-20 | a freshly recorded entry carries the given fields and advantage == return == 0 |
| Rollouts.RolloutBuffer.constructor | include/tiny_rl/core/rollout_buffer.h:25-29 | an empty store of the given capacity |
| Rollouts.RolloutBuffer.Add | include/tiny_rl/core/rollout_buffer.h:31-41 | succeeds exactly when the store was not full; on success the entry is appended and earlier entries are unchanged; at capacity the runtime error leaves the store untouched; the new contents are Filled(old contents, [entry]), the one-step case of the function FillKeepsPrefix is about |
| Rollouts.FillKeepsPrefix | include/tiny_rl/core/rollout_buffer.h:31-41 | offering entries one by one to an empty store keeps exactly the first capacity of them |
| Rollouts.RolloutBuffer.Clear | include/tiny_rl/core/rollout_buffer.h:43-46 | empties the store; with capacity > 0 it is no longer full, so the next add succeeds |
| Rollouts.RolloutBuffer.Size | include/tiny_rl/core/rollout_buffer.h:48-51 | size() is the entry count and never exceeds capacity |
| Rollouts.RolloutBuffer.Full | include/tiny_rl/core/rollout_buffer.h:53-56 | full() holds exactly when size() reaches capacity |
| Rollouts.RolloutBuffer.Data | include/tiny_rl/core/rollout_buffer.h:58-61 | the read-only view has size() entries |
| Rollouts.RolloutBuffer.SetEstimates | include/tiny_rl/core/rollout_buffer.h:63-66 | an edit through mutable_data: entry t gets the new advantage and return, and nothing else changes |
| PpoAgents.ActorCriticNetwork.constructor | include/tiny_rl/core/actor_critic_network.h:13-20 | the stand-in network starts with its forward pass and no training calls |
| PpoAgents.ActorCriticNetwork.Train | include/tiny_rl/core/actor_critic_network.h:48-59 | the training call is recorded with its arguments; the source's body is empty, so nothing else changes |
| Gae.WithEstimates | include/tiny_rl/agents/ppo_agent.h:123-137 | the rollout after the GAE pass has the same length as before |
| Gae.EstimatesFillIn | include/tiny_rl/agents/ppo_agent.h:125-136 | the GAE pass writes only advantage and return; every step's advantage is Advantage(t), and its return is advantage + value |
| Gae.AdvantageAtDone | include/tiny_rl/agents/ppo_agent.h:131-133 | at a done step the advantage is reward - value |
| Gae.AdvantageStep | include/tiny_rl/agents/ppo_agent.h:131-132 | at a non-done step t < last: advantage = reward + gamma*value[t+1] - value + gamma*lambda*advantage[t+1] |
| Gae.AdvantageAtLast | include/tiny_rl/agents/ppo_agent.h:127-132 | at the last step of a rollout cut mid-episode the bootstrap value is the step's own value |
| Gae.AdvantageClosedForm | include/tiny_rl/agents/ppo_agent.h:129-136 | the recursive estimator equals the sum of the residuals from t to the end of t's episode segment, the l-th weighted by (gamma*lambda)^l |
| Gae.ClosedFormAtEnd | include/tiny_rl/agents/ppo_agent.h:131-132 | closed form at a segment's last step: the advantage is the single residual |
| Gae.ClosedFormStep | include/tiny_rl/agents/ppo_agent.h:131-132 | the closed form at t + 1 gives the closed form at t inside an episode |
| Gae.WeightedSumHead | include/tiny_rl/agents/ppo_agent.h:132 | peeling the first residual off the weighted sum leaves gamma*lambda times the weighted sum of the rest, the shape of the gae recurrence |
| Gae.SegmentEnd | include/tiny_rl/agents/ppo_agent.h:131-132 | the segment starting at t ends at a done step or at the last step, not before t |
| Gae.SegmentEndIsFirstDone | include/tiny_rl/agents/ppo_agent.h:131-132 | no step strictly inside a segment is done, so the segment is one episode |
| Gae.AdvantageIgnoresLaterEpisodes | include/tiny_rl/agents/ppo_agent.h:131-132 | changing anything after a done step leaves the advantages up to that step unchanged |
| Gae.ThreeStepEpisode | include/tiny_rl/agents/ppo_agent.h:126-136 | rewards [1,1,1], values [0,0,0], dones [F,F,T], gamma = lambda = 1 give advantages and returns [3,2,1] |
| Gae.GaeStep | include/tiny_rl/agents/ppo_agent.h:131-132 | one loop iteration turns the advantage at t + 1 (zero past the end) and the bootstrap value into the advantage at t |
| Gae.EstimateAt | include/tiny_rl/agents/ppo_agent.h:133-134 | entry t of the finished rollout is the input entry with advantage and return = advantage + value |
| Gae.EstimatesStep | include/tiny_rl/agents/ppo_agent.h:129-135 | part-way through the backward loop the data is the input up to t and finished after t; writing t moves the boundary down |
| PpoAgents.BatchOf | include/tiny_rl/agents/ppo_agent.h:82-100 | the training call gets five columns as long as the rollout, element i of each taken from step i, plus the clip, entropy, batch and epoch options |
| PpoAgents.AssembleBatch | include/tiny_rl/agents/ppo_agent.h:82-89 | the unpacking loop builds exactly BatchOf(data) |
| PpoAgents.PPOAgent.constructor | include/tiny_rl/agents/ppo_agent.h:19-30 | empty rollout store of the configured capacity, both counters zero |
| PpoAgents.PPOAgent.SelectAction | include/tiny_rl/agents/ppo_agent.h:32-41 | returns the drawn action and records log(probs[action] + 1e-8) and the value estimate for the next store |
| PpoAgents.PPOAgent.StoreExperience | include/tiny_rl/agents/ppo_agent.h:43-59 | appends an entry carrying the last recorded log-probability and value, and counts the step; when the store is full, the add's error leaves both store and counter unchanged |
| PpoAgents.PPOAgent.Learn | include/tiny_rl/agents/ppo_agent.h:61-106 | changes nothing unless the store is full; otherwise trains once on the batch of the GAE-completed rollout, empties the store and increments train_steps_ by one |
| PpoAgents.PPOAgent.ComputeGaeAndReturns | include/tiny_rl/agents/ppo_agent.h:123-137 | the backward loop leaves the rollout equal to WithEstimates of the input |
| PpoAgents.PPOAgent.OnEpisodeEnd | include/tiny_rl/agents/ppo_agent.h:108-110 | no state changes |
| PpoAgents.PPOAgent.Reset | include/tiny_rl/agents/ppo_agent.h:112-115 | the rollout store is emptied |
| QNetworks.QNetwork.constructor | include/tiny_rl/core/q_network.h:9-10 | the stand-in starts with the given parameters and network functions |
| QNetworks.QNetwork.Predict | include/tiny_rl/core/q_network.h:12-15 | the action values of a state: an uninterpreted function of the online parameters and the state, with no other contract (the target parameters are not read) |
| QNetworks.QNetwork.ArgmaxAction | include/tiny_rl/agents/dqn_agent.h:44 | the greedy action of a vector of Q-values: an uninterpreted function fixed at construction, with no contract, because argmax_action is not defined in the network's header |
| QNetworks.QNetwork.ComputeTdTargets | include/tiny_rl/agents/dqn_agent.h:102-103 | the TD targets of a batch: an uninterpreted function of the online parameters, the target parameters and the batch, with no contract, because compute_td_targets is not defined in the network's header |
| QNetworks.QNetwork.Train | include/tiny_rl/core/q_network.h:17-24 | one training pass replaces the online parameters by fit(old, inputs, targets, batch size) and leaves the target parameters alone |
| QNetworks.QNetwork.UpdateTargetNetwork | include/tiny_rl/agents/dqn_agent.h:112 | a hard update (tau = 1) copies the online parameters into the target ones and changes nothing else |
| DqnAgents.DefaultGating | include/tiny_rl/utils/config.h:5-17 | a configuration left at its defaults has learn_start = 0 and train_frequency = 1 |
| DqnAgents.LearnGate | include/tiny_rl/agents/dqn_agent.h:68-77 | the three early returns of learn, negated: at least batch_size stored experiences (line 68), env_steps_ >= learn_start (line 72), and env_steps_ divisible by train_frequency (line 76); Learn's contract ties it to whether a step is taken |
| DqnAgents.TargetSyncDue | include/tiny_rl/agents/dqn_agent.h:107 | the refresh condition train_steps_ % target_update_freq == 0 && train_steps_ > 0, evaluated before the increment; SyncSchedule counts how often it holds |
| DqnAgents.DefaultGateIsSizeOnly | include/tiny_rl/agents/dqn_agent.h:68-77 | with the default learn_start and train_frequency the learn gate reduces to "size >= batch_size" |
| DqnAgents.DecayedEpsilon | include/tiny_rl/agents/dqn_agent.h:61-62 | the result is max(epsilon_min, epsilon*decay): at least both, equal to one of them, and no larger than epsilon when 0 <= decay <= 1 and 0 <= epsilon_min <= epsilon |
| DqnAgents.EpsilonSchedule | include/tiny_rl/agents/dqn_agent.h:59-63 | over any number of episode ends epsilon never increases and never drops below epsilon_min |
| DqnAgents.SyncSchedule | include/tiny_rl/agents/dqn_agent.h:107-115 | within the first n gradient steps the target network is refreshed (n-1)/target_update_freq times: never on step 0, then every target_update_freq steps |
| DqnAgents.Unpack | include/tiny_rl/agents/dqn_agent.h:87-100 | the five columns have the sample's length and element i of each comes from sample i |
| DqnAgents.DQNAgent.constructor | include/tiny_rl/agents/dqn_agent.h:16-30 | an empty replay store of memory_size, both counters zero, and the target network synced to the online one; the sampled batch and its five column vectors start empty |
| DqnAgents.DQNAgent.SelectAction | include/tiny_rl/agents/dqn_agent.h:34-45 | when the coin is below epsilon, the pick in [0, num_actions-1]; otherwise the greedy action of the online Q-values |
| DqnAgents.DQNAgent.StoreExperience | include/tiny_rl/agents/dqn_agent.h:48-57 | exactly one experience is added to the replay store (appended, or written at the cursor when full) and env_steps_ goes up by exactly one; nothing else in the agent changes (the sampled batch, its columns, train_steps_ and the configuration keep their values) |
| DqnAgents.DQNAgent.OnEpisodeEnd | include/tiny_rl/agents/dqn_agent.h:59-63 | epsilon becomes DecayedEpsilon(epsilon); the rest of the configuration and the counters stay; only the configuration field is written, so the sampled batch and its columns keep their values |
| DqnAgents.DQNAgent.Learn | include/tiny_rl/agents/dqn_agent.h:65-115 | with any of the three gate conditions failing nothing changes; otherwise one gradient step as StepTaken describes, including train_steps_ + 1 |
| DqnAgents.DQNAgent.SampleBatch | include/tiny_rl/agents/dqn_agent.h:79-100 | the sample has batch_size experiences, item i being the store's draw-i element, and the columns are unpacked from it |
| DqnAgents.DQNAgent.TrainOnBatch | include/tiny_rl/agents/dqn_agent.h:102-115 | the online network is trained on the TD targets of the unpacked batch; the target is refreshed exactly when the pre-increment train_steps_ is positive and divisible by target_update_freq; train_steps_ goes up by one |

## Left out

- Floating point: rewards, values, priorities and epsilon are exact reals. Rounding, NaN and
  infinities are not modelled, except that the running minimum's +infinity start is the
  `Infinity` bound.
- Importance-sampling weights (`std::pow(N*prob, -beta)`, normalised by the weight of the
  smallest priority, prioritized_replay_buffer.h:134 and 150-153) are not computed. This is
  real exponentiation. The model stops at what feeds them: each draw's stored priority^alpha
  and the running minimum of priority^alpha.
- PrioritizedReplay.PrioritizedReplayBuffer.constructor: requires `pow(0, alpha) == 0` and
  `pow(x, alpha) > 0` for `x > 0`. The source never evaluates pow at a zero priority:
  - add passes max_p, which is 1.0 or a stored positive priority (lines 97-100);
  - update_priorities passes |error| + 1e-6 (lines 165-166);
  - sample calls pow only when the priority is positive (lines 128-130).

  Slots that were never written, and slots zeroed by reset or clear, stay a literal 0 in the
  tree (lines 16, 63-66, 175-180). So fixing pow(0) = 0 matches the source for every alpha,
  alpha == 0 included.
- Random number generators (`std::mt19937`, the distributions) and `seed`: every draw is a
  parameter constrained to its range. `PPOAgent::seed` only reseeds the generator, so it has
  no counterpart.
- SumTrees.SumTree.constructor, ReplayBuffers.ReplayBuffer.constructor: require capacity >= 1.
  With capacity 0 the source sizes the tree as `2*0-1` in `size_t`, and the replay cursor
  takes a remainder by zero.
- PpoAgents.PPOAgent.constructor: requires a rollout capacity >= 1. With capacity 0 the store
  is full while empty, and the GAE pass reads `data.back()` of an empty vector.
- Default arguments are not modelled. The prioritized store's constructor defaults alpha = 0.6
  and beta = 0.4 (prioritized_replay_buffer.h:78-79); the model's constructor takes alpha, beta
  and the matching pow function explicitly. QNetwork::train defaults batch_size = 32 and
  epochs = 1 (q_network.h:20-21); the model's `fit` stands for one epoch, and the batch size
  is passed explicitly, as dqn_agent.h:105 does.
- Unsigned integer widths: `size_t` counters (`env_steps_`, `train_steps_`, `pos_`, `size_`)
  are unbounded naturals, so wrap-around is not modelled.
- The configuration's `int` counts are naturals, so negative values converted to `size_t` are
  not modelled. DqnAgents.DQNAgent.constructor also requires `train_frequency > 0` and
  `target_update_freq > 0`, because the source takes remainders by both.
- The PPO configuration type is not part of this model's sources. Its fields are read off
  their uses in ppo_agent.h.
- The neural networks:
  - tiny_dnn forward passes, losses, the clipped Adam optimizer and its learning-rate setup
    (`optimizer.alpha`, `b1`, `b2`) are left out;
  - the actor-critic softmax is not computed;
  - the network functions are fixed at construction and left uninterpreted.
- Calls that dqn_agent.h makes but q_network.h does not define. q_network.h holds one network
  and no target copy. The stand-in keeps online and target parameter vectors, and treats the
  missing calls as follows:
  - `compute_td_targets` and `argmax_action` are opaque functions: of both parameter vectors
    and the batch, and of the Q-values, respectively.
  - QNetworks.QNetwork.UpdateTargetNetwork: `update_target_network(1.0f)` (dqn_agent.h:28 and
    112) is ASSUMED to be a hard update that copies the online parameters exactly into the
    target ones, the usual reading of a tau of 1. The constructor's "target synced to online"
    and TrainOnBatch's refresh clause rest on this assumption.
  - `predict_batch` occurs only in the debug output at dqn_agent.h:128, which is left out, so
    it has no counterpart.
- The training step `fit` is a pure function of the old online parameters, the inputs, the
  targets and the batch size. The running state of the optimizer (Adam's moment estimates and
  step count) is not modelled, so two identical training calls give identical parameters.
- Soft (Polyak) updates, double-Q targets and parameter clamping do not appear in the code and
  are not modelled.
- The call `replay_buffer.sample(sample_buffer_, batch_size)` in dqn_agent.h:79 has no
  matching overload in replay_buffer.h, whose `sample(batch_size)` returns the batch. It is
  modelled as `sample_buffer_ = sample(batch_size)`.
- Debug and logging output is left out:
  - dqn_agent.h:81-85 averages `dones_` before it is refilled (0/0 on the first call) and only prints;
  - dqn_agent.h:109-111 and 117-146 print, and the loss, |Q| and weight-norm figures feed nothing;
  - ppo_agent.h:104-105 prints every 500 updates.
- ActorCriticNetwork::predict's softmax (actor_critic_network.h:22-43) is a fixed function of
  the state in the model.
- ReplayBuffers.ReplayBuffer.Sample: the draws must be valid indices, as the uniform
  distribution guarantees. An empty store returns an empty batch, as the code does. No
  failure value is modelled for it.
- PrioritizedReplay.PrioritizedReplayBuffer.Sample: draw i must lie in segment i, as the uniform
  distribution over that segment guarantees. The importance weights it also returns are left out
  (see above).
- PrioritizedReplay.PrioritizedReplayBuffer.UpdatePriorities: requires every index below the
  capacity and at least one TD error per index. The source indexes unchecked, so any other
  input is undefined behaviour there.
- DqnAgents.DQNAgent.Learn: the uniform draws are parameters that must index the store. The
  debug averages around them are not modelled.
- DqnAgents.DecayedEpsilon: its non-increase clause additionally assumes `epsilon >= 0`.
  With a negative epsilon and a decay below 1 the product can exceed epsilon.
- PpoAgents.PPOAgent.SelectAction: the drawn index is any index of the probability vector.
  The model does not require it to have positive probability, which `discrete_distribution`
  would ensure.
- Environments, trainers, the optimizer and the tests are not part of this model.

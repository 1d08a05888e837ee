/** The DQN-style agent: epsilon-greedy action choice, experiences into the uniform replay
    store, a learn step gated on store size, warm-up and training frequency, and a hard
    target-network update every `targetUpdateFreq` gradient steps. */
module DqnAgents {
  import opened ReplayBuffers
  import opened QNetworks

  /** The agent's options; only `epsilon` changes after construction. The counts are taken as
      non-negative (the source converts them to unsigned sizes). */
  datatype DqnConfig = DqnConfig(
    gamma: real,
    epsilon: real,
    epsilonDecay: real,
    epsilonMin: real,
    learningRate: real,
    batchSize: nat,
    memorySize: nat,
    targetUpdateFreq: nat,
    learnStart: nat,
    trainFrequency: nat)

  /** A configuration that leaves the gating options at their defaults: no warm-up, and a
      gradient step on every environment step. */
  function DefaultGating(gamma: real, epsilon: real, epsilonDecay: real, epsilonMin: real, learningRate: real,
                         batchSize: nat, memorySize: nat, targetUpdateFreq: nat): (c: DqnConfig)
    ensures c.learnStart == 0 && c.trainFrequency == 1
    ensures c.gamma == gamma && c.epsilon == epsilon && c.epsilonDecay == epsilonDecay && c.epsilonMin == epsilonMin
    ensures c.learningRate == learningRate && c.batchSize == batchSize && c.memorySize == memorySize
    ensures c.targetUpdateFreq == targetUpdateFreq
  {
    DqnConfig(gamma, epsilon, epsilonDecay, epsilonMin, learningRate, batchSize, memorySize, targetUpdateFreq, 0, 1)
  }

  // ---------------------------------------------------------------------------------------
  // Exploration schedule

  /** std::max(epsilonMin, epsilon * epsilonDecay). */
  function DecayedEpsilon(epsilon: real, epsilonMin: real, epsilonDecay: real): (e: real)
    ensures e >= epsilonMin && e >= epsilon * epsilonDecay
    ensures e == epsilonMin || e == epsilon * epsilonDecay
    ensures 0.0 <= epsilon && epsilonMin <= epsilon && 0.0 <= epsilonDecay <= 1.0 ==> e <= epsilon
  {
    if epsilonMin < epsilon * epsilonDecay then epsilon * epsilonDecay else epsilonMin
  }

  /** Epsilon after k episode ends. */
  function EpsilonAfter(epsilon: real, epsilonMin: real, epsilonDecay: real, k: nat): real
  {
    if k == 0 then epsilon else DecayedEpsilon(EpsilonAfter(epsilon, epsilonMin, epsilonDecay, k - 1), epsilonMin, epsilonDecay)
  }

  /** Repeated episode ends never raise epsilon and never take it below its floor. */
  lemma {:induction false} EpsilonSchedule(epsilon: real, epsilonMin: real, epsilonDecay: real, j: nat, k: nat)
    requires 0.0 <= epsilon && epsilonMin <= epsilon && 0.0 <= epsilonDecay <= 1.0
    requires j <= k
    ensures EpsilonAfter(epsilon, epsilonMin, epsilonDecay, k) <= EpsilonAfter(epsilon, epsilonMin, epsilonDecay, j)
    ensures epsilonMin <= EpsilonAfter(epsilon, epsilonMin, epsilonDecay, k)
    ensures 0.0 <= EpsilonAfter(epsilon, epsilonMin, epsilonDecay, k)
    decreases k
  {
    if k > 0 {
      var prev := EpsilonAfter(epsilon, epsilonMin, epsilonDecay, k - 1);
      EpsilonSchedule(epsilon, epsilonMin, epsilonDecay, if j == k then k - 1 else j, k - 1);
      var e := DecayedEpsilon(prev, epsilonMin, epsilonDecay);
      assert EpsilonAfter(epsilon, epsilonMin, epsilonDecay, k) == e;
      MulNonNegative(prev, epsilonDecay);
      assert epsilonMin <= e <= prev && 0.0 <= e;
    }
  }

  lemma MulNonNegative(a: real, b: real)
    requires 0.0 <= a && 0.0 <= b
    ensures 0.0 <= a * b
  {
  }

  // ---------------------------------------------------------------------------------------
  // Learn gating and the target-sync schedule

  /** A learn call trains only with a batch's worth of experience, after the warm-up, and on
      every `trainFrequency`-th environment step. */
  predicate LearnGate(size: nat, batchSize: nat, envSteps: nat, learnStart: nat, trainFrequency: nat)
    requires trainFrequency > 0
  {
    size >= batchSize && envSteps >= learnStart && envSteps % trainFrequency == 0
  }

  /** With the default gating the only condition left is a batch's worth of experience. */
  lemma DefaultGateIsSizeOnly(gamma: real, epsilon: real, epsilonDecay: real, epsilonMin: real, learningRate: real,
                               batchSize: nat, memorySize: nat, targetUpdateFreq: nat, size: nat, envSteps: nat)
    ensures var c := DefaultGating(gamma, epsilon, epsilonDecay, epsilonMin, learningRate, batchSize, memorySize, targetUpdateFreq);
      LearnGate(size, c.batchSize, envSteps, c.learnStart, c.trainFrequency) <==> size >= c.batchSize
  {
  }

  /** The target network is refreshed after the gradient step whose count before the step is
      a positive multiple of the sync period. */
  predicate TargetSyncDue(trainSteps: nat, targetUpdateFreq: nat)
    requires targetUpdateFreq > 0
  {
    trainSteps % targetUpdateFreq == 0 && trainSteps > 0
  }

  /** The number of target refreshes among the gradient steps counted 0 .. n-1. */
  function SyncsIn(n: nat, targetUpdateFreq: nat): nat
    requires targetUpdateFreq > 0
  {
    if n == 0 then 0
    else SyncsIn(n - 1, targetUpdateFreq) + (if TargetSyncDue(n - 1, targetUpdateFreq) then 1 else 0)
  }

  /** Within the first n gradient steps the target is refreshed (n - 1) / freq times: every
      freq steps, never on the first. */
  lemma {:induction false} SyncSchedule(n: nat, targetUpdateFreq: nat)
    requires targetUpdateFreq > 0
    ensures SyncsIn(n, targetUpdateFreq) == if n == 0 then 0 else (n - 1) / targetUpdateFreq
    decreases n
  {
    var f := targetUpdateFreq;
    if n >= 2 {
      SyncSchedule(n - 1, f);
      var q, r := (n - 2) / f, (n - 2) % f;
      ModUnique(n - 2, f, q, r);
      if r + 1 < f {
        ModUnique(n - 1, f, q, r + 1);
      } else {
        ModUnique(n - 1, f, q + 1, 0);
      }
    }
  }

  /** The batch columns: all as long as the sample, element i of each taken from sample i. */
  ghost predicate IsColumns(sample: seq<Experience>, states: seq<seq<real>>, actions: seq<int>, rewards: seq<real>,
                            nextStates: seq<seq<real>>, dones: seq<bool>)
  {
    && |states| == |actions| == |rewards| == |nextStates| == |dones| == |sample|
    && forall i :: 0 <= i < |sample| ==>
      && states[i] == sample[i].state && actions[i] == sample[i].action && rewards[i] == sample[i].reward
      && nextStates[i] == sample[i].nextState && dones[i] == sample[i].done
  }

  /** Split a sampled batch into its columns, one experience at a time. */
  method Unpack(sample: seq<Experience>)
    returns (states: seq<seq<real>>, actions: seq<int>, rewards: seq<real>, nextStates: seq<seq<real>>, dones: seq<bool>)
    ensures IsColumns(sample, states, actions, rewards, nextStates, dones)
  {
    states, actions, rewards, nextStates, dones := [], [], [], [], [];
    var i := 0;
    while i < |sample|
      invariant i <= |sample|
      invariant |states| == |actions| == |rewards| == |nextStates| == |dones| == i
      invariant forall k :: 0 <= k < i ==>
        && states[k] == sample[k].state && actions[k] == sample[k].action && rewards[k] == sample[k].reward
        && nextStates[k] == sample[k].nextState && dones[k] == sample[k].done
    {
      var exp := sample[i];
      states := states + [exp.state];
      actions := actions + [exp.action];
      rewards := rewards + [exp.reward];
      nextStates := nextStates + [exp.nextState];
      dones := dones + [exp.done];
      i := i + 1;
    }
  }

  class DQNAgent {
    const qnet: QNetwork
    var config: DqnConfig
    const replayBuffer: ReplayBuffer
    var envSteps: nat
    var trainSteps: nat
    var sampleBuffer: seq<Experience>
    var states: seq<seq<real>>
    var nextStates: seq<seq<real>>
    var actions: seq<int>
    var rewards: seq<real>
    var dones: seq<bool>

    ghost predicate Valid()
      reads this, replayBuffer
    {
      && replayBuffer.Valid()
      && replayBuffer.capacity == config.memorySize
      && config.trainFrequency > 0
      && config.targetUpdateFreq > 0
    }

    /** A fresh agent with an empty replay store; the target network starts as a copy of the
        online one. */
    constructor (qnet: QNetwork, config: DqnConfig)
      requires config.memorySize >= 1 && config.trainFrequency > 0 && config.targetUpdateFreq > 0
      modifies qnet
      ensures Valid() && fresh(replayBuffer)
      ensures this.qnet == qnet && this.config == config
      ensures replayBuffer.buffer == [] && envSteps == 0 && trainSteps == 0 && sampleBuffer == []
      ensures states == [] && actions == [] && rewards == [] && nextStates == [] && dones == []
      ensures qnet.target == qnet.online && qnet.online == old(qnet.online)
    {
      this.qnet := qnet;
      this.config := config;
      replayBuffer := new ReplayBuffer(config.memorySize);
      envSteps, trainSteps := 0, 0;
      sampleBuffer := [];
      states, nextStates, actions, rewards, dones := [], [], [], [], [];
      new;
      qnet.UpdateTargetNetwork();
    }

    /** Epsilon-greedy: when the coin (uniform in [0, 1)) falls below epsilon, the action is the
        uniform pick over the actions; otherwise the network's greedy action. */
    method SelectAction(state: seq<real>, coin: real, pick: int) returns (action: int)
      requires Valid()
      requires 0.0 <= coin < 1.0
      requires coin < config.epsilon ==> 0 <= pick < |qnet.Predict(state)|
      ensures coin < config.epsilon ==> action == pick && 0 <= action <= |qnet.Predict(state)| - 1
      ensures coin >= config.epsilon ==> action == qnet.ArgmaxAction(qnet.Predict(state))
    {
      if coin < config.epsilon {
        return pick;
      }
      var qValues := qnet.Predict(state);
      action := qnet.ArgmaxAction(qValues);
    }

    /** Put the transition into the replay store and count the environment step. */
    method StoreExperience(state: seq<real>, action: int, reward: real, nextState: seq<real>, done: bool)
      requires Valid()
      modifies this`envSteps, replayBuffer
      ensures Valid()
      ensures var exp := Experience(state, action, reward, nextState, done);
        && replayBuffer.added == old(replayBuffer.added) + [exp]
        && replayBuffer.buffer == if old(|replayBuffer.buffer|) < replayBuffer.capacity then old(replayBuffer.buffer) + [exp]
                                  else old(replayBuffer.buffer)[old(replayBuffer.index) := exp]
      ensures envSteps == old(envSteps) + 1
      ensures trainSteps == old(trainSteps) && config == old(config)
    {
      var exp := Experience(state, action, reward, nextState, done);
      replayBuffer.Add(exp);
      envSteps := envSteps + 1;
    }

    /** Decay epsilon towards its floor. */
    method OnEpisodeEnd()
      requires Valid()
      modifies this`config
      ensures Valid()
      ensures config == old(config).(epsilon := DecayedEpsilon(old(config.epsilon), config.epsilonMin, config.epsilonDecay))
      ensures envSteps == old(envSteps) && trainSteps == old(trainSteps)
    {
      config := config.(epsilon := DecayedEpsilon(config.epsilon, config.epsilonMin, config.epsilonDecay));
    }

    /** One learn call: with the gate closed nothing changes; with it open, one gradient step. */
    method Learn(draws: seq<nat>)
      requires Valid()
      requires replayBuffer.Size() > 0 ==>
        |draws| == config.batchSize && forall i :: 0 <= i < |draws| ==> draws[i] < replayBuffer.Size()
      modifies this, qnet
      ensures Valid()
      ensures envSteps == old(envSteps) && config == old(config)
      ensures !LearnGate(replayBuffer.Size(), config.batchSize, old(envSteps), config.learnStart, config.trainFrequency)
        ==> unchanged(this, qnet)
      ensures LearnGate(replayBuffer.Size(), config.batchSize, old(envSteps), config.learnStart, config.trainFrequency) ==>
        StepTaken(old(qnet.online), old(qnet.target), old(trainSteps), draws)
    {
      if replayBuffer.Size() < config.batchSize {
        return;
      }
      if envSteps < config.learnStart {
        return;
      }
      if envSteps % config.trainFrequency != 0 {
        return;
      }
      SampleBatch(draws);
      TrainOnBatch();
    }

    /** What a gradient step leaves behind, given the network parameters and the step count
        before it: the sample drawn at `draws`, its columns, the online network trained on the
        TD targets, the target network refreshed when due, and one more step counted. */
    ghost predicate StepTaken(online0: seq<real>, target0: seq<real>, trainSteps0: nat, draws: seq<nat>)
      reads this, replayBuffer, qnet
      requires Valid()
    {
      && |sampleBuffer| == config.batchSize
      && (replayBuffer.Size() > 0 ==>
            |draws| == config.batchSize
            && forall i :: 0 <= i < config.batchSize ==> draws[i] < |replayBuffer.buffer| && sampleBuffer[i] == replayBuffer.buffer[draws[i]])
      && IsColumns(sampleBuffer, states, actions, rewards, nextStates, dones)
      && qnet.online == qnet.fit(online0, states,
           qnet.tdTargets(online0, target0, TdBatch(states, actions, rewards, nextStates, dones, config.gamma)),
           config.batchSize)
      && qnet.target == (if TargetSyncDue(trainSteps0, config.targetUpdateFreq) then qnet.online else target0)
      && trainSteps == trainSteps0 + 1
    }

    /** Lines of learn past its gate, first half: draw the batch (`draws` are the uniform
        indices the generator picks) and split it into the column fields. */
    method SampleBatch(draws: seq<nat>)
      requires Valid()
      requires replayBuffer.Size() >= config.batchSize
      requires replayBuffer.Size() > 0 ==>
        |draws| == config.batchSize && forall i :: 0 <= i < |draws| ==> draws[i] < replayBuffer.Size()
      modifies this`sampleBuffer, this`states, this`actions, this`rewards, this`nextStates, this`dones
      ensures |sampleBuffer| == config.batchSize
      ensures replayBuffer.Size() > 0 ==>
        forall i :: 0 <= i < config.batchSize ==> draws[i] < |replayBuffer.buffer| && sampleBuffer[i] == replayBuffer.buffer[draws[i]]
      ensures IsColumns(sampleBuffer, states, actions, rewards, nextStates, dones)
    {
      sampleBuffer := replayBuffer.Sample(config.batchSize, draws);
      states, actions, rewards, nextStates, dones := Unpack(sampleBuffer);
    }

    /** Second half: train the online network on the TD targets of the unpacked batch,
        refresh the target network when due, and count the gradient step. */
    method TrainOnBatch()
      requires Valid()
      modifies qnet, this`trainSteps
      ensures qnet.online == qnet.fit(old(qnet.online), states,
           qnet.tdTargets(old(qnet.online), old(qnet.target), TdBatch(states, actions, rewards, nextStates, dones, config.gamma)),
           config.batchSize)
      ensures qnet.target == (if TargetSyncDue(old(trainSteps), config.targetUpdateFreq) then qnet.online else old(qnet.target))
      ensures trainSteps == old(trainSteps) + 1
    {
      var tdTargets := qnet.ComputeTdTargets(TdBatch(states, actions, rewards, nextStates, dones, config.gamma));
      qnet.Train(states, tdTargets, config.batchSize);

      if trainSteps % config.targetUpdateFreq == 0 && trainSteps > 0 {
        qnet.UpdateTargetNetwork();
      }
      trainSteps := trainSteps + 1;
    }
  }
}

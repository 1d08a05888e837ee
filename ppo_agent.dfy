/** The PPO-style agent: records on-policy steps into the rollout store and, once the store is
    full, back-fills generalized advantage estimates and returns, hands the rollout to the
    actor-critic network for training, and clears the store. */
module PpoAgents {
  import opened Rollouts
  import opened Gae

  /** The options the agent reads: discount, GAE decay, store size and the training knobs. */
  datatype PpoConfig = PpoConfig(
    gamma: real,
    /** the GAE decay, `lambda` in the source's configuration */
    lam: real,
    learningRate: real,
    bufferCapacity: nat,
    clipEpsilon: real,
    entropyCoeff: real,
    batchSize: int,
    miniEpochs: int)

  /** What the network returns for a state: a distribution over actions and a value estimate. */
  datatype Prediction = Prediction(probs: seq<real>, value: real)

  /** The arguments of one call to the network's training entry point. */
  datatype PolicyBatch = PolicyBatch(
    states: seq<seq<real>>,
    actions: seq<int>,
    oldLogProbs: seq<real>,
    advantages: seq<real>,
    returnValues: seq<real>,
    clipEpsilon: real,
    entropyCoeff: real,
    batchSize: int,
    epochs: int)

  /** Stand-in for the actor-critic network: a fixed forward pass and the record of the
      batches it has been asked to train on (its own training step does nothing). */
  class ActorCriticNetwork {
    const predict: seq<real> -> Prediction
    var trainedOn: seq<PolicyBatch>

    constructor (predict: seq<real> -> Prediction)
      ensures this.predict == predict && trainedOn == []
    {
      this.predict := predict;
      trainedOn := [];
    }

    method Train(batch: PolicyBatch)
      modifies this`trainedOn
      ensures trainedOn == old(trainedOn) + [batch]
    {
      trainedOn := trainedOn + [batch];
    }
  }

  /** The floor added to the chosen action's probability before taking its logarithm (1e-8). */
  const LogFloor: real := 0.00000001

  /** The training batch assembled from a rollout: one column per recorded field. */
  function BatchOf(d: seq<RolloutEntry>, config: PpoConfig): (b: PolicyBatch)
    ensures |b.states| == |b.actions| == |b.oldLogProbs| == |b.advantages| == |b.returnValues| == |d|
    ensures forall i :: 0 <= i < |d| ==>
      && b.states[i] == d[i].state && b.actions[i] == d[i].action && b.oldLogProbs[i] == d[i].logProb
      && b.advantages[i] == d[i].advantage && b.returnValues[i] == d[i].returnValue
    ensures b.clipEpsilon == config.clipEpsilon && b.entropyCoeff == config.entropyCoeff
    ensures b.batchSize == config.batchSize && b.epochs == config.miniEpochs
  {
    PolicyBatch(
      seq(|d|, i requires 0 <= i < |d| => d[i].state),
      seq(|d|, i requires 0 <= i < |d| => d[i].action),
      seq(|d|, i requires 0 <= i < |d| => d[i].logProb),
      seq(|d|, i requires 0 <= i < |d| => d[i].advantage),
      seq(|d|, i requires 0 <= i < |d| => d[i].returnValue),
      config.clipEpsilon, config.entropyCoeff, config.batchSize, config.miniEpochs)
  }

  /** The unpacking loop of the learner: one pass over the rollout, appending each field of
      each step to its column. */
  method AssembleBatch(data: seq<RolloutEntry>, config: PpoConfig) returns (batch: PolicyBatch)
    ensures batch == BatchOf(data, config)
  {
    var states, actions, oldLogProbs, advantages, returnValues := [], [], [], [], [];
    var i := 0;
    while i < |data|
      invariant i <= |data|
      invariant |states| == |actions| == |oldLogProbs| == |advantages| == |returnValues| == i
      invariant forall k :: 0 <= k < i ==>
        && states[k] == data[k].state && actions[k] == data[k].action && oldLogProbs[k] == data[k].logProb
        && advantages[k] == data[k].advantage && returnValues[k] == data[k].returnValue
    {
      states := states + [data[i].state];
      actions := actions + [data[i].action];
      oldLogProbs := oldLogProbs + [data[i].logProb];
      advantages := advantages + [data[i].advantage];
      returnValues := returnValues + [data[i].returnValue];
      i := i + 1;
    }
    batch := PolicyBatch(states, actions, oldLogProbs, advantages, returnValues,
      config.clipEpsilon, config.entropyCoeff, config.batchSize, config.miniEpochs);
  }

  class PPOAgent {
    const acNet: ActorCriticNetwork
    const config: PpoConfig
    /** the natural logarithm (std::log) */
    const ln: real -> real
    const rolloutBuffer: RolloutBuffer
    var envSteps: nat
    var trainSteps: nat
    var lastLogProb: real
    var lastValue: real

    ghost predicate Valid()
      reads this, rolloutBuffer
    {
      && rolloutBuffer.Valid()
      && rolloutBuffer.capacity == config.bufferCapacity
      && config.bufferCapacity >= 1
    }

    /** A fresh agent with an empty rollout store of the configured size. The last log-probability
        and value are left unset until the first action is selected. */
    constructor (acNet: ActorCriticNetwork, config: PpoConfig, ln: real -> real)
      requires config.bufferCapacity >= 1
      ensures Valid() && fresh(rolloutBuffer)
      ensures this.acNet == acNet && this.config == config && this.ln == ln
      ensures rolloutBuffer.buffer == [] && envSteps == 0 && trainSteps == 0
    {
      this.acNet := acNet;
      this.config := config;
      this.ln := ln;
      rolloutBuffer := new RolloutBuffer(config.bufferCapacity);
      envSteps, trainSteps := 0, 0;
    }

    /** Sample an action from the predicted distribution (`draw` is the index the random
        generator picks) and remember its log-probability and the value estimate. */
    method SelectAction(state: seq<real>, draw: nat) returns (action: int)
      requires Valid()
      requires draw < |acNet.predict(state).probs|
      modifies this`lastLogProb, this`lastValue
      ensures Valid()
      ensures action == draw
      ensures lastLogProb == ln(acNet.predict(state).probs[action] + LogFloor)
      ensures lastValue == acNet.predict(state).value
      ensures envSteps == old(envSteps) && trainSteps == old(trainSteps)
    {
      var prediction := acNet.predict(state);
      action := draw;
      lastLogProb := ln(prediction.probs[action] + LogFloor);
      lastValue := prediction.value;
    }

    /** Record the step with the log-probability and value of the latest selection; a full
        store refuses it, and then the step is not counted. */
    method StoreExperience(state: seq<real>, action: int, reward: real, nextState: seq<real>, done: bool)
      returns (status: AddStatus)
      requires Valid()
      modifies this`envSteps, rolloutBuffer`buffer
      ensures Valid()
      ensures status == Added <==> !old(rolloutBuffer.Full())
      ensures rolloutBuffer.buffer ==
        if status == Added then old(rolloutBuffer.buffer) + [NewEntry(state, action, reward, done, lastLogProb, lastValue)]
        else old(rolloutBuffer.buffer)
      ensures envSteps == if status == Added then old(envSteps) + 1 else old(envSteps)
      ensures trainSteps == old(trainSteps) && lastLogProb == old(lastLogProb) && lastValue == old(lastValue)
    {
      var entry := NewEntry(state, action, reward, done, lastLogProb, lastValue);
      status := rolloutBuffer.Add(entry);
      if status == Added {
        envSteps := envSteps + 1;
      }
    }

    /** Once the store is full: back-fill the estimates, train on the rollout, empty the store
        and count the update. Before that, nothing happens. */
    method Learn()
      requires Valid()
      modifies this`trainSteps, rolloutBuffer`buffer, acNet`trainedOn
      ensures Valid()
      ensures !old(rolloutBuffer.Full()) ==> unchanged(this, rolloutBuffer, acNet)
      ensures old(rolloutBuffer.Full()) ==>
        && rolloutBuffer.buffer == []
        && trainSteps == old(trainSteps) + 1
        && acNet.trainedOn == old(acNet.trainedOn)
          + [BatchOf(WithEstimates(old(rolloutBuffer.buffer), config.gamma, config.lam), config)]
      ensures envSteps == old(envSteps) && lastLogProb == old(lastLogProb) && lastValue == old(lastValue)
    {
      if !rolloutBuffer.Full() {
        return;
      }
      ComputeGaeAndReturns();

      var batch := AssembleBatch(rolloutBuffer.Data(), config);
      acNet.Train(batch);

      rolloutBuffer.Clear();
      trainSteps := trainSteps + 1;
    }

    /** The GAE pass: walk the rollout from the last step to the first, carrying the running
        advantage and the next step's value, and write each step's advantage and return. */
    method ComputeGaeAndReturns()
      requires Valid() && |rolloutBuffer.buffer| > 0
      modifies rolloutBuffer`buffer
      ensures Valid()
      ensures rolloutBuffer.buffer == WithEstimates(old(rolloutBuffer.buffer), config.gamma, config.lam)
    {
      ghost var d := rolloutBuffer.buffer;
      var gamma, lam := config.gamma, config.lam;
      ghost var target := WithEstimates(d, gamma, lam);
      var gae := 0.0;
      var nextValue := rolloutBuffer.buffer[|rolloutBuffer.buffer| - 1].value;
      var t := |rolloutBuffer.buffer| - 1;
      while t >= 0
        invariant -1 <= t < |d|
        invariant rolloutBuffer.Valid()
        invariant rolloutBuffer.buffer == d[..t + 1] + target[t + 1..]
        invariant gae == if t + 1 < |d| then Advantage(d, t + 1, gamma, lam) else 0.0
        invariant t >= 0 ==> nextValue == NextValue(d, t)
      {
        EstimatesStep(d, target, t);
        var entry := rolloutBuffer.buffer[t];
        GaeStep(d, t, gamma, lam, entry, nextValue, gae);
        var delta := entry.reward + (if entry.done then 0.0 else gamma * nextValue) - entry.value;
        gae := delta + gamma * lam * (if entry.done then 0.0 else gae);
        EstimateAt(d, t, gamma, lam);
        rolloutBuffer.SetEstimates(t, gae, gae + entry.value);
        nextValue := entry.value;
        t := t - 1;
      }
      assert target == d[..0] + target[0..];
    }

    /** Episode ends need no bookkeeping: the rollout spans episodes. */
    method OnEpisodeEnd()
      requires Valid()
      ensures unchanged(this, rolloutBuffer)
    {
    }

    /** Drop the partial rollout. */
    method Reset()
      requires Valid()
      modifies rolloutBuffer`buffer
      ensures Valid() && rolloutBuffer.buffer == []
    {
      rolloutBuffer.Clear();
    }
  }
}

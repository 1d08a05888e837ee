/** Stand-in for the Q-value network the DQN agent drives. The network itself is foreign code:
    its parameters are opaque vectors, and its forward pass, its training step, its TD-target
    computation and its greedy action choice are functions fixed at construction. What the
    model keeps is which parameters each call reads and which it replaces. */
module QNetworks {

  /** The arguments of one TD-target computation. */
  datatype TdBatch = TdBatch(
    states: seq<seq<real>>,
    actions: seq<int>,
    rewards: seq<real>,
    nextStates: seq<seq<real>>,
    dones: seq<bool>,
    gamma: real)

  class QNetwork {
    /** parameters of the online network */
    var online: seq<real>
    /** parameters of the target network, owned separately from the online ones */
    var target: seq<real>
    /** (parameters, state) |-> one value per action */
    const forward: (seq<real>, seq<real>) -> seq<real>
    /** (parameters, inputs, targets, batch size) |-> parameters after one epoch of training */
    const fit: (seq<real>, seq<seq<real>>, seq<seq<real>>, int) -> seq<real>
    /** (online parameters, target parameters, batch) |-> one target vector per example */
    const tdTargets: (seq<real>, seq<real>, TdBatch) -> seq<seq<real>>
    /** the greedy action of a vector of action values */
    const argmax: seq<real> -> int

    constructor (online: seq<real>, target: seq<real>,
                 forward: (seq<real>, seq<real>) -> seq<real>,
                 fit: (seq<real>, seq<seq<real>>, seq<seq<real>>, int) -> seq<real>,
                 tdTargets: (seq<real>, seq<real>, TdBatch) -> seq<seq<real>>,
                 argmax: seq<real> -> int)
      ensures this.online == online && this.target == target
      ensures this.forward == forward && this.fit == fit && this.tdTargets == tdTargets && this.argmax == argmax
    {
      this.online, this.target := online, target;
      this.forward, this.fit, this.tdTargets, this.argmax := forward, fit, tdTargets, argmax;
    }

    /** The online network's action values for a state. */
    function Predict(state: seq<real>): seq<real>
      reads this
    {
      forward(online, state)
    }

    function ArgmaxAction(qValues: seq<real>): int
    {
      argmax(qValues)
    }

    /** Targets for a batch, from the online and the target parameters. */
    function ComputeTdTargets(batch: TdBatch): seq<seq<real>>
      reads this
    {
      tdTargets(online, target, batch)
    }

    /** One training pass over (inputs, targets): replaces the online parameters only. */
    method Train(inputs: seq<seq<real>>, targets: seq<seq<real>>, batchSize: int)
      modifies this
      ensures online == fit(old(online), inputs, targets, batchSize)
      ensures target == old(target)
    {
      online := fit(online, inputs, targets, batchSize);
    }

    /** Hard update (tau = 1): the target parameters become a copy of the online ones.
        Doing it twice leaves the same state as doing it once. */
    method UpdateTargetNetwork()
      modifies this
      ensures target == online && online == old(online)
    {
      target := online;
    }
  }
}

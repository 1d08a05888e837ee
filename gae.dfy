/** Generalized advantage estimation as a function of a rollout: the recursive estimator the
    PPO agent's backward pass computes, the rollout with its estimates filled in, and an
    independent closed form of the estimator as a discounted sum of TD residuals. */
module Gae {
  import opened Rollouts

  /** The bootstrap value seen from step t: the next step's value estimate, and at the last
      step its own (the horizon is truncated, not terminal). */
  function NextValue(d: seq<RolloutEntry>, t: nat): real
    requires t < |d|
  {
    if t + 1 < |d| then d[t + 1].value else d[t].value
  }

  /** The one-step TD residual at t; no bootstrap across an episode end. */
  function Delta(d: seq<RolloutEntry>, t: nat, gamma: real): real
    requires t < |d|
  {
    d[t].reward + (if d[t].done then 0.0 else gamma * NextValue(d, t)) - d[t].value
  }

  /** The advantage at t: the residual plus the decayed advantage of the next step, with the
      recursion cut at an episode end and after the last step. */
  function Advantage(d: seq<RolloutEntry>, t: nat, gamma: real, lam: real): real
    requires t < |d|
    decreases |d| - t
  {
    Delta(d, t, gamma)
      + gamma * lam * (if d[t].done || t + 1 == |d| then 0.0 else Advantage(d, t + 1, gamma, lam))
  }

  /** The rollout after the GAE pass: every entry carries its advantage and its return
      (EstimatesFillIn states this entry by entry). */
  function WithEstimates(d: seq<RolloutEntry>, gamma: real, lam: real): (r: seq<RolloutEntry>)
    ensures |r| == |d|
  {
    seq(|d|, t requires 0 <= t < |d| =>
      var a := Advantage(d, t, gamma, lam);
      d[t].(advantage := a, returnValue := a + d[t].value))
  }

  /** The GAE pass changes nothing but the estimates: each step keeps what was recorded, gets its
      advantage, and gets as return the advantage plus the step's value estimate. */
  lemma EstimatesFillIn(d: seq<RolloutEntry>, gamma: real, lam: real)
    ensures var r := WithEstimates(d, gamma, lam);
      forall t :: 0 <= t < |d| ==>
        && SameStep(r[t], d[t])
        && r[t].advantage == Advantage(d, t, gamma, lam)
        && r[t].returnValue == r[t].advantage + d[t].value
  {
  }

  /** One iteration of the backward pass computes the advantage at t from the advantage at
      t + 1 (zero past the end) and the bootstrap value seen from t. */
  lemma GaeStep(d: seq<RolloutEntry>, t: nat, gamma: real, lam: real,
                 entry: RolloutEntry, nextValue: real, gae: real)
    requires t < |d| && entry == d[t] && nextValue == NextValue(d, t)
    requires gae == if t + 1 < |d| then Advantage(d, t + 1, gamma, lam) else 0.0
    ensures entry.reward + (if entry.done then 0.0 else gamma * nextValue) - entry.value
        + gamma * lam * (if entry.done then 0.0 else gae)
      == Advantage(d, t, gamma, lam)
  {
  }

  lemma EstimateAt(d: seq<RolloutEntry>, t: nat, gamma: real, lam: real)
    requires t < |d|
    ensures var a := Advantage(d, t, gamma, lam);
      WithEstimates(d, gamma, lam)[t] == d[t].(advantage := a, returnValue := a + d[t].value)
  {
  }

  /** The buffer part-way through the backward pass is the input up to t and the target after t;
      entry t is still the input's, and writing the target's entry t moves the boundary down. */
  lemma EstimatesStep(d: seq<RolloutEntry>, target: seq<RolloutEntry>, t: nat)
    requires t < |d| == |target|
    ensures |d[..t + 1] + target[t + 1..]| == |d|
    ensures (d[..t + 1] + target[t + 1..])[t] == d[t]
    ensures (d[..t + 1] + target[t + 1..])[t := target[t]] == d[..t] + target[t..]
  {
    assert (d[..t + 1] + target[t + 1..])[t := target[t]] == d[..t] + target[t..];
  }

  /** At an episode end the advantage is the bare reward minus the value estimate. */
  lemma AdvantageAtDone(d: seq<RolloutEntry>, t: nat, gamma: real, lam: real)
    requires t < |d| && d[t].done
    ensures Advantage(d, t, gamma, lam) == d[t].reward - d[t].value
  {
  }

  /** Inside an episode the advantage bootstraps from the next value and the next advantage. */
  lemma AdvantageStep(d: seq<RolloutEntry>, t: nat, gamma: real, lam: real)
    requires t + 1 < |d| && !d[t].done
    ensures Advantage(d, t, gamma, lam)
      == d[t].reward + gamma * d[t + 1].value - d[t].value + gamma * lam * Advantage(d, t + 1, gamma, lam)
  {
  }

  /** At the last step of a rollout that is cut mid-episode the step bootstraps from its own value. */
  lemma AdvantageAtLast(d: seq<RolloutEntry>, gamma: real, lam: real)
    requires |d| > 0 && !d[|d| - 1].done
    ensures var t := |d| - 1; Advantage(d, t, gamma, lam) == d[t].reward + gamma * d[t].value - d[t].value
  {
  }

  // An independent reading of the estimator: the advantage at t is the sum of the residuals
  // from t to the end of its episode (or of the rollout), the l-th weighted by (gamma*lam)^l.

  function Pow(x: real, k: nat): real
  {
    if k == 0 then 1.0 else x * Pow(x, k - 1)
  }

  /** The last step of the episode segment that starts at t: the first done step, else the last step. */
  function SegmentEnd(d: seq<RolloutEntry>, t: nat): (e: nat)
    requires t < |d|
    ensures t <= e < |d|
    ensures d[e].done || e == |d| - 1
    decreases |d| - t
  {
    if d[t].done || t + 1 == |d| then t else SegmentEnd(d, t + 1)
  }

  /** The segment really is one episode: no step before its end is done. */
  lemma {:induction false} SegmentEndIsFirstDone(d: seq<RolloutEntry>, t: nat, k: nat)
    requires t < |d| && t <= k < SegmentEnd(d, t)
    ensures !d[k].done
    decreases |d| - t
  {
    if k > t {
      SegmentEndIsFirstDone(d, t + 1, k);
    }
  }

  /** The residual of every step of the rollout. */
  function Residuals(d: seq<RolloutEntry>, gamma: real): (r: seq<real>)
    ensures |r| == |d|
  {
    seq(|d|, t requires 0 <= t < |d| => Delta(d, t, gamma))
  }

  /** r[0] + w*r[1] + w^2*r[2] + ..., summed from the far end. */
  function WeightedSum(r: seq<real>, w: real): real
    decreases |r|
  {
    if |r| == 0 then 0.0 else WeightedSum(r[..|r| - 1], w) + Pow(w, |r| - 1) * r[|r| - 1]
  }

  /** Peeling the first term off a weighted sum leaves w times the weighted sum of the rest. */
  lemma {:induction false} WeightedSumHead(r: seq<real>, w: real)
    requires |r| > 0
    ensures WeightedSum(r, w) == r[0] + w * WeightedSum(r[1..], w)
    decreases |r|
  {
    var n := |r|;
    if n == 1 {
      assert r[..0] == [] && r[1..] == [];
    } else {
      var init, tail := r[..n - 1], r[1..];
      var rest := WeightedSum(init[1..], w);
      WeightedSumHead(init, w);
      assert WeightedSum(init, w) == r[0] + w * rest by { assert init[0] == r[0]; }
      assert init[1..] == tail[..n - 2];
      assert WeightedSum(tail, w) == rest + Pow(w, n - 2) * r[n - 1];
      WeightedStep(w, n - 2, r[n - 1], r[0], rest);
    }
  }

  /** The algebra of one step of WeightedSumHead. */
  lemma WeightedStep(w: real, k: nat, x: real, head: real, rest: real)
    ensures head + w * rest + Pow(w, k + 1) * x == head + w * (rest + Pow(w, k) * x)
  {
    assert Pow(w, k + 1) * x == w * (Pow(w, k) * x);
  }

  /** The GAE recursion computes the weighted sum of residuals over the rest of the episode. */
  lemma {:induction false} AdvantageClosedForm(d: seq<RolloutEntry>, t: nat, gamma: real, lam: real)
    requires t < |d|
    ensures Advantage(d, t, gamma, lam)
      == WeightedSum(Residuals(d, gamma)[t..SegmentEnd(d, t) + 1], gamma * lam)
    decreases |d| - t
  {
    if d[t].done || t + 1 == |d| {
      ClosedFormAtEnd(d, t, gamma, lam);
    } else {
      AdvantageClosedForm(d, t + 1, gamma, lam);
      ClosedFormStep(d, t, gamma, lam);
    }
  }

  /** Base case: a segment of one step sums to its residual. */
  lemma ClosedFormAtEnd(d: seq<RolloutEntry>, t: nat, gamma: real, lam: real)
    requires t < |d| && (d[t].done || t + 1 == |d|)
    ensures Advantage(d, t, gamma, lam)
      == WeightedSum(Residuals(d, gamma)[t..SegmentEnd(d, t) + 1], gamma * lam)
  {
    var r := Residuals(d, gamma)[t..SegmentEnd(d, t) + 1];
    assert r[1..] == [];
    WeightedSumSplit(r, gamma * lam, Delta(d, t, gamma), 0.0);
    AdvantageUnfold(d, t, gamma, lam, 0.0);
  }

  /** Inductive step: the closed form at t + 1 gives the closed form at t. */
  lemma ClosedFormStep(d: seq<RolloutEntry>, t: nat, gamma: real, lam: real)
    requires t + 1 < |d| && !d[t].done
    requires Advantage(d, t + 1, gamma, lam)
      == WeightedSum(Residuals(d, gamma)[t + 1..SegmentEnd(d, t + 1) + 1], gamma * lam)
    ensures Advantage(d, t, gamma, lam)
      == WeightedSum(Residuals(d, gamma)[t..SegmentEnd(d, t) + 1], gamma * lam)
  {
    var w := gamma * lam;
    var r := Residuals(d, gamma)[t..SegmentEnd(d, t) + 1];
    var next := Advantage(d, t + 1, gamma, lam);
    SegmentTail(d, t, gamma);
    WeightedSumSplit(r, w, Delta(d, t, gamma), next);
    AdvantageUnfold(d, t, gamma, lam, next);
    var a, ws := Advantage(d, t, gamma, lam), WeightedSum(r, w);
    assert a == ws;
  }

  /** Dropping the first residual of the segment at t leaves the segment at t + 1. */
  lemma SegmentTail(d: seq<RolloutEntry>, t: nat, gamma: real)
    requires t + 1 < |d| && !d[t].done
    ensures var r := Residuals(d, gamma)[t..SegmentEnd(d, t) + 1];
      |r| > 0 && r[0] == Delta(d, t, gamma)
      && r[1..] == Residuals(d, gamma)[t + 1..SegmentEnd(d, t + 1) + 1]
  {
    var e := SegmentEnd(d, t);
    assert e == SegmentEnd(d, t + 1);
  }

  /** WeightedSumHead with the head and the rest named, so that callers see no recursion. */
  lemma WeightedSumSplit(r: seq<real>, w: real, head: real, rest: real)
    requires |r| > 0 && r[0] == head && rest == WeightedSum(r[1..], w)
    ensures WeightedSum(r, w) == head + w * rest
  {
    WeightedSumHead(r, w);
  }

  /** One unfolding of Advantage with the next-step term named. */
  lemma AdvantageUnfold(d: seq<RolloutEntry>, t: nat, gamma: real, lam: real, next: real)
    requires t < |d|
    requires next == if d[t].done || t + 1 == |d| then 0.0 else Advantage(d, t + 1, gamma, lam)
    ensures Advantage(d, t, gamma, lam) == Delta(d, t, gamma) + gamma * lam * next
  {
  }

  /** Credit never flows across an episode end: changing anything after a done step leaves
      the advantages up to that step as they were. */
  lemma {:induction false} AdvantageIgnoresLaterEpisodes(d: seq<RolloutEntry>, d': seq<RolloutEntry>, t: nat, e: nat, gamma: real, lam: real)
    requires t <= e < |d| && e < |d'| && d[e].done
    requires d[..e + 1] == d'[..e + 1]
    ensures Advantage(d, t, gamma, lam) == Advantage(d', t, gamma, lam)
    decreases e - t
  {
    assert d[t] == d[..e + 1][t] && d'[t] == d'[..e + 1][t];
    if t < e {
      assert d[t + 1] == d[..e + 1][t + 1] && d'[t + 1] == d'[..e + 1][t + 1];
      if !d[t].done {
        AdvantageIgnoresLaterEpisodes(d, d', t + 1, e, gamma, lam);
      }
    }
  }

  /** Three steps ending an episode, unit rewards, zero values, no discount: advantages and
      returns are 3, 2, 1. */
  lemma ThreeStepEpisode()
    ensures var d := [Step(1.0, 0.0, false), Step(1.0, 0.0, false), Step(1.0, 0.0, true)];
      var r := WithEstimates(d, 1.0, 1.0);
      && [r[0].advantage, r[1].advantage, r[2].advantage] == [3.0, 2.0, 1.0]
      && [r[0].returnValue, r[1].returnValue, r[2].returnValue] == [3.0, 2.0, 1.0]
  {
    var d := [Step(1.0, 0.0, false), Step(1.0, 0.0, false), Step(1.0, 0.0, true)];
    assert Advantage(d, 2, 1.0, 1.0) == 1.0;
    assert Advantage(d, 1, 1.0, 1.0) == 2.0;
    assert Advantage(d, 0, 1.0, 1.0) == 3.0;
    EstimateAt(d, 0, 1.0, 1.0);
    EstimateAt(d, 1, 1.0, 1.0);
    EstimateAt(d, 2, 1.0, 1.0);
  }

  /** A step with the given reward, value estimate and done flag, and fresh estimates. */
  function Step(reward: real, value: real, done: bool): RolloutEntry
  {
    NewEntry([], 0, reward, done, 0.0, value)
  }
}

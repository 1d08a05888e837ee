/** The prioritized experience-replay store: a ring buffer of experiences with a parallel
    array of priorities, each mirrored as priority^alpha into a sum-tree leaf. */
module PrioritizedReplay {
  import opened SumTrees
  import opened ReplayBuffers

  /** The floor added to |td_error| so that every updated entry stays sampleable (1e-6). */
  const PriorityFloor: real := 0.000001

  function Abs(x: real): real
  {
    if x < 0.0 then -x else x
  }

  /** The largest element of a non-empty sequence (std::max_element). */
  function MaxOf(s: seq<real>): (m: real)
    requires |s| > 0
    ensures m in s
    ensures forall x :: x in s ==> x <= m
    decreases |s|
  {
    if |s| == 1 then s[0]
    else
      var rest := MaxOf(s[..|s| - 1]);
      assert forall x :: x in s ==> x in s[..|s| - 1] || x == s[|s| - 1];
      if s[|s| - 1] > rest then s[|s| - 1] else rest
  }

  /** A float that is either finite or +infinity, the start value of a running minimum. */
  datatype Bound = Infinity | Finite(value: real)

  /** The lower end of the i-th of n equal segments of [0, total). */
  function SegmentStart(total: real, n: nat, i: nat): real
    requires n > 0
  {
    (total / n as real) * i as real
  }

  /** The i-th segment ends no later than the total when i < n. */
  lemma SegmentWithinTotal(total: real, n: nat, i: nat)
    requires n > 0 && i < n && total >= 0.0
    ensures SegmentStart(total, n, i + 1) <= total
  {
    var seg := total / n as real;
    assert seg >= 0.0;
    assert seg * n as real == total;
    assert seg * (i + 1) as real <= seg * n as real by {
      assert (n - (i + 1)) as real >= 0.0;
      assert seg * n as real - seg * (i + 1) as real == seg * (n - (i + 1)) as real;
    }
  }

  lemma {:induction false} SumNonNegative(s: seq<real>)
    requires forall k :: 0 <= k < |s| ==> 0.0 <= s[k]
    ensures 0.0 <= Sum(s)
    decreases |s|
  {
    if |s| > 0 {
      SumNonNegative(s[..|s| - 1]);
    }
  }

  class PrioritizedReplayBuffer {
    const capacity: nat
    /** priority sharpening exponent */
    const alpha: real
    /** importance-sampling exponent */
    const beta: real
    /** x |-> x^alpha (std::pow with the store's alpha) */
    const powAlpha: real -> real
    const tree: SumTree
    const buffer: array<Experience>
    const priorities: array<real>
    var pos: nat
    var size: nat

    ghost predicate Valid()
      reads this, tree, tree.tree, buffer, priorities
    {
      && capacity >= 1
      && tree.capacity == capacity && tree.Valid()
      && buffer.Length == capacity && priorities.Length == capacity
      && priorities != tree.tree
      && pos < capacity && size <= capacity
      && (size < capacity ==> pos == size)
      && powAlpha(0.0) == 0.0
      && (forall x :: x > 0.0 ==> powAlpha(x) > 0.0)
      && Mirrors(tree.Leaves(), priorities[..], powAlpha)
      && (forall j :: 0 <= j < size ==> priorities[j] > 0.0)
    }

    /** Each leaf of the tree is the priority^alpha of its slot and is non-negative. */
    lemma LeavesNonNegative()
      requires Valid()
      ensures forall j :: 0 <= j < capacity ==> tree.Leaf(j) == powAlpha(priorities[j]) && 0.0 <= tree.Leaf(j)
    {
      forall j | 0 <= j < capacity
        ensures tree.Leaf(j) == powAlpha(priorities[j]) && 0.0 <= tree.Leaf(j)
      {
        assert tree.Leaves()[j] == powAlpha(priorities[..][j]);
      }
    }

    /** A slot whose leaf is positive holds a positive priority, since 0^alpha == 0. */
    lemma PositiveLeaf(j: nat)
      requires Valid() && j < capacity && tree.Leaf(j) > 0.0
      ensures priorities[j] > 0.0
    {
      assert tree.Leaves()[j] == powAlpha(priorities[..][j]);
    }

    constructor (capacity: nat, alpha: real, beta: real, powAlpha: real -> real)
      requires capacity >= 1
      requires powAlpha(0.0) == 0.0 && forall x :: x > 0.0 ==> powAlpha(x) > 0.0
      ensures Valid()
      ensures fresh(tree) && fresh(tree.tree) && fresh(buffer) && fresh(priorities)
      ensures this.capacity == capacity && this.alpha == alpha && this.beta == beta && this.powAlpha == powAlpha
      ensures pos == 0 && size == 0 && tree.Total() == 0.0
      ensures forall j :: 0 <= j < capacity ==> priorities[j] == 0.0
    {
      this.capacity := capacity;
      this.alpha := alpha;
      this.beta := beta;
      this.powAlpha := powAlpha;
      tree := new SumTree(capacity);
      buffer := new Experience[capacity];
      priorities := new real[capacity](_ => 0.0);
      pos, size := 0, 0;
    }

    /** Store exp at the cursor with the largest priority present (1.0 in an empty store),
        mirror that priority into the tree, advance the cursor and grow until full. */
    method Add(exp: Experience)
      requires Valid()
      modifies this, buffer, priorities, tree.tree
      ensures Valid()
      ensures var maxP := if old(size) > 0 then MaxOf(old(priorities[..size])) else 1.0;
        && maxP > 0.0
        && buffer[..] == old(buffer[..])[old(pos) := exp]
        && priorities[..] == old(priorities[..])[old(pos) := maxP]
        && tree.Leaves() == old(tree.Leaves())[old(pos) := powAlpha(maxP)]
      ensures pos == NextCursor(old(pos), capacity)
      ensures size == if old(size) < capacity then old(size) + 1 else old(size)
    {
      buffer[pos] := exp;
      var maxP := if size > 0 then MaxOf(priorities[..size]) else 1.0;
      assert maxP > 0.0 by {
        if size > 0 {
          var i :| 0 <= i < size && priorities[..size][i] == maxP;
        }
      }
      SetPriority(pos, maxP);
      pos := NextCursor(pos, capacity);
      if size < capacity {
        size := size + 1;
      }
    }

    /** Give slot index the priority p and its leaf p^alpha, as both add and
        update_priorities do. */
    method SetPriority(index: nat, p: real)
      requires Valid() && index < capacity && p > 0.0
      modifies priorities, tree.tree
      ensures Valid()
      ensures priorities[..] == old(priorities[..])[index := p]
      ensures tree.Leaves() == old(tree.Leaves())[index := powAlpha(p)]
    {
      ghost var oldLeaves, oldPriorities := tree.Leaves(), priorities[..];
      MirrorsUpdate(oldLeaves, oldPriorities, powAlpha, index, p);
      priorities[index] := p;
      assert priorities[..] == oldPriorities[index := p];
      tree.Set(index, powAlpha(p));
    }

    /** Stratified sampling: draw i is a value in the i-th of batchSize equal segments of the
        total priority mass, resolved to a slot by the tree descent. Gives the experiences,
        their slots and the stored priority^alpha of each. */
    method Sample(batchSize: nat, draws: seq<real>) returns (out: seq<Experience>, indices: seq<nat>, leafPriorities: seq<real>)
      requires Valid()
      requires |draws| == batchSize
      requires forall i :: 0 <= i < batchSize ==>
        SegmentStart(tree.Total(), batchSize, i) <= draws[i] <= SegmentStart(tree.Total(), batchSize, i + 1)
      ensures |out| == batchSize && |indices| == batchSize && |leafPriorities| == batchSize
      ensures forall i :: 0 <= i < batchSize ==> Drawn(draws[i], indices[i], out[i], leafPriorities[i])
    {
      var total := tree.Total();
      LeavesNonNegative();
      assert 0.0 <= total by {
        SumNonNegative(tree.Leaves());
      }
      out, indices, leafPriorities := [], [], [];
      var i := 0;
      while i < batchSize
        invariant i <= batchSize
        invariant |out| == i && |indices| == i && |leafPriorities| == i
        invariant forall k :: 0 <= k < i ==> Drawn(draws[k], indices[k], out[k], leafPriorities[k])
      {
        var s := draws[i];
        SegmentWithinTotal(total, batchSize, i);
        var index, pAlpha := tree.GetLeaf(s);
        if s > 0.0 {
          PositiveLeaf(index);
        }
        assert Drawn(s, index, buffer[index], pAlpha);
        indices := indices + [index];
        out := out + [buffer[index]];
        leafPriorities := leafPriorities + [pAlpha];
        i := i + 1;
      }
    }

    /** The draw v resolves to slot index, whose experience is e and whose stored
        priority^alpha is leafPriority: the slot is the tree descent's, and a positive draw
        lands on a slot of positive priority. */
    ghost predicate Drawn(v: real, index: nat, e: Experience, leafPriority: real)
      reads this, tree, tree.tree, buffer, priorities
      requires Valid()
    {
      && index < capacity
      && e == buffer[index]
      && leafPriority == tree.Leaf(index)
      && index + capacity - 1 == Descend(tree.tree[..], 0, v)
      && (v > 0.0 ==> priorities[index] > 0.0 && leafPriority > 0.0)
    }

    /** The smallest priority^alpha over the occupied slots with positive priority,
        starting from +infinity (the normaliser of the importance weights). */
    method MinPriorityAlpha() returns (m: Bound)
      requires Valid()
      ensures m == Infinity <==> forall j :: 0 <= j < size ==> priorities[j] <= 0.0
      ensures m.Finite? ==>
        && (exists j :: 0 <= j < size && priorities[j] > 0.0 && m.value == powAlpha(priorities[j]))
        && (forall j :: 0 <= j < size && priorities[j] > 0.0 ==> m.value <= powAlpha(priorities[j]))
    {
      m := Infinity;
      var i := 0;
      while i < size
        invariant i <= size
        invariant m == Infinity <==> forall j :: 0 <= j < i ==> priorities[j] <= 0.0
        invariant m.Finite? ==>
          && (exists j :: 0 <= j < i && priorities[j] > 0.0 && m.value == powAlpha(priorities[j]))
          && (forall j :: 0 <= j < i && priorities[j] > 0.0 ==> m.value <= powAlpha(priorities[j]))
      {
        if priorities[i] > 0.0 {
          var pa := powAlpha(priorities[i]);
          if m == Infinity || pa < m.value {
            m := Finite(pa);
          }
        }
        i := i + 1;
      }
    }

    /** Set the priority of each listed slot to |td error| + floor and mirror it into the
        tree; a slot listed twice keeps the later error. */
    method UpdatePriorities(indices: seq<nat>, tdErrors: seq<real>)
      requires Valid()
      requires |tdErrors| >= |indices|
      requires forall i :: 0 <= i < |indices| ==> indices[i] < capacity
      modifies priorities, tree.tree
      ensures Valid()
      ensures priorities[..] == Updated(old(priorities[..]), indices, tdErrors, |indices|)
      ensures var r, ps := priorities[..], old(priorities[..]);
        && (forall j :: 0 <= j < capacity && j !in indices ==> r[j] == ps[j])
        && (forall i :: 0 <= i < |indices| && LastOccurrence(indices, i) ==> r[indices[i]] == Abs(tdErrors[i]) + PriorityFloor)
        && (forall i :: 0 <= i < |indices| ==> r[indices[i]] > 0.0)
    {
      var i := 0;
      while i < |indices|
        invariant i <= |indices|
        invariant Valid()
        invariant priorities[..] == Updated(old(priorities[..]), indices, tdErrors, i)
      {
        SetPriority(indices[i], Abs(tdErrors[i]) + PriorityFloor);
        i := i + 1;
      }
      UpdatedSpec(old(priorities[..]), indices, tdErrors);
    }

    function Size(): (n: nat)
      reads this, tree, tree.tree, buffer, priorities
      requires Valid()
      ensures n <= capacity
    {
      size
    }

    /** Empty the store: cursor and size to zero, every priority and tree node to zero. */
    method Clear()
      requires Valid()
      modifies this, priorities, tree.tree
      ensures Valid()
      ensures size == 0 && pos == 0
      ensures forall j :: 0 <= j < capacity ==> priorities[j] == 0.0
      ensures tree.Total() == 0.0
    {
      size, pos := 0, 0;
      forall j | 0 <= j < priorities.Length {
        priorities[j] := 0.0;
      }
      tree.Reset();
    }
  }

  /** leaves[j] == f(ps[j]) for every slot, with non-negative priorities. */
  ghost predicate Mirrors(leaves: seq<real>, ps: seq<real>, f: real -> real)
  {
    && |leaves| == |ps|
    && forall j :: 0 <= j < |ps| ==> 0.0 <= ps[j] && leaves[j] == f(ps[j])
  }

  lemma MirrorsUpdate(leaves: seq<real>, ps: seq<real>, f: real -> real, j: nat, p: real)
    requires Mirrors(leaves, ps, f) && j < |ps| && 0.0 <= p
    ensures Mirrors(leaves[j := f(p)], ps[j := p], f)
  {
  }

  /** The priorities after the first n updates of update_priorities, applied in order. */
  ghost function Updated(ps: seq<real>, indices: seq<nat>, td: seq<real>, n: nat): (r: seq<real>)
    requires n <= |indices| <= |td|
    requires forall i :: 0 <= i < |indices| ==> indices[i] < |ps|
    ensures |r| == |ps|
    decreases n
  {
    if n == 0 then ps
    else Updated(ps, indices, td, n - 1)[indices[n - 1] := Abs(td[n - 1]) + PriorityFloor]
  }

  /** A slot that none of the first n updates lists keeps its priority. */
  lemma {:induction false} UpdatedUnlisted(ps: seq<real>, indices: seq<nat>, td: seq<real>, n: nat, j: nat)
    requires n <= |indices| <= |td|
    requires forall i :: 0 <= i < |indices| ==> indices[i] < |ps|
    requires j < |ps| && forall k :: 0 <= k < n ==> indices[k] != j
    ensures Updated(ps, indices, td, n)[j] == ps[j]
    decreases n
  {
    if n > 0 {
      UpdatedUnlisted(ps, indices, td, n - 1, j);
    }
  }

  /** The slot of update i, when no later update among the first n lists it again, holds
      the floored magnitude of error i. */
  lemma {:induction false} UpdatedLast(ps: seq<real>, indices: seq<nat>, td: seq<real>, n: nat, i: nat)
    requires n <= |indices| <= |td|
    requires forall k :: 0 <= k < |indices| ==> indices[k] < |ps|
    requires i < n && forall k :: i < k < n ==> indices[k] != indices[i]
    ensures Updated(ps, indices, td, n)[indices[i]] == Abs(td[i]) + PriorityFloor
    decreases n
  {
    if i < n - 1 {
      UpdatedLast(ps, indices, td, n - 1, i);
    }
  }

  /** Every slot listed among the first n updates ends with a positive priority. */
  lemma {:induction false} UpdatedPositive(ps: seq<real>, indices: seq<nat>, td: seq<real>, n: nat, i: nat)
    requires n <= |indices| <= |td|
    requires forall k :: 0 <= k < |indices| ==> indices[k] < |ps|
    requires i < n
    ensures Updated(ps, indices, td, n)[indices[i]] > 0.0
    decreases n
  {
    if i < n - 1 {
      UpdatedPositive(ps, indices, td, n - 1, i);
    }
  }

  /** All updates applied: unlisted slots keep their priority, each listed slot holds the
      floored magnitude of its last listed error, and every listed slot is positive. */
  lemma UpdatedSpec(ps: seq<real>, indices: seq<nat>, td: seq<real>)
    requires |indices| <= |td|
    requires forall i :: 0 <= i < |indices| ==> indices[i] < |ps|
    ensures var r := Updated(ps, indices, td, |indices|);
      && (forall j :: 0 <= j < |ps| && j !in indices ==> r[j] == ps[j])
      && (forall i :: 0 <= i < |indices| && LastOccurrence(indices, i) ==> r[indices[i]] == Abs(td[i]) + PriorityFloor)
      && (forall i :: 0 <= i < |indices| ==> r[indices[i]] > 0.0)
  {
    var n := |indices|;
    var r := Updated(ps, indices, td, n);
    forall j | 0 <= j < |ps| && j !in indices
      ensures r[j] == ps[j]
    {
      UpdatedUnlisted(ps, indices, td, n, j);
    }
    forall i | 0 <= i < n && LastOccurrence(indices, i)
      ensures r[indices[i]] == Abs(td[i]) + PriorityFloor
    {
      UpdatedLast(ps, indices, td, n, i);
    }
    forall i | 0 <= i < n
      ensures r[indices[i]] > 0.0
    {
      UpdatedPositive(ps, indices, td, n, i);
    }
  }

  /** Entry i of s is the last one holding its value. */
  ghost predicate LastOccurrence(s: seq<nat>, i: nat)
    requires i < |s|
  {
    forall k :: i < k < |s| ==> s[k] != s[i]
  }
}

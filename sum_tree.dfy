/** The array-backed sum-tree behind the prioritized replay store.
    Node i has children 2*i+1 and 2*i+2; a tree of capacity c has 2*c-1 nodes,
    internal nodes 0 .. c-2 and leaves c-1 .. 2*c-2 (leaf c-1+j holds data slot j). */
module SumTrees {

  /** Sum of a sequence of reals, folded from its right end. */
  function Sum(s: seq<real>): real
    decreases |s|
  {
    if |s| == 0 then 0.0 else Sum(s[..|s| - 1]) + s[|s| - 1]
  }

  lemma {:induction false} SumSplit(s: seq<real>, k: nat)
    requires k <= |s|
    ensures Sum(s) == Sum(s[..k]) + Sum(s[k..])
    decreases |s|
  {
    if k == |s| {
      assert s[..k] == s;
      assert s[k..] == [];
    } else {
      var init := s[..|s| - 1];
      SumSplit(init, k);
      assert init[..k] == s[..k];
      assert s[k..][..|s[k..]| - 1] == init[k..];
    }
  }

  /** Every node of a tree of capacity c except the root has a parent. */
  function Parent(j: nat): nat
    requires j > 0
  {
    (j - 1) / 2
  }

  /** Node j and all of its ancestors: the nodes `set` walks through. */
  ghost function Path(j: nat): set<nat>
    decreases j
  {
    if j == 0 then {0} else {j} + Path(Parent(j))
  }

  lemma {:induction false} PathBounded(j: nat)
    ensures j in Path(j)
    ensures forall k :: k in Path(j) ==> k <= j
    decreases j
  {
    if j > 0 {
      PathBounded(Parent(j));
    }
  }

  /** The nodes of a path form a chain: a node below m on j's path lies on m's path. */
  lemma {:induction false} PathChain(j: nat, m: nat, k: nat)
    requires m in Path(j) && k in Path(j) && k <= m
    ensures k in Path(m)
    decreases j
  {
    PathBounded(j);
    PathBounded(m);
    if m != j {
      assert j > 0;
      assert k != j;
      PathChain(Parent(j), m, k);
    }
  }

  /** A path is closed under taking parents. */
  lemma {:induction false} PathParentClosed(j: nat, k: nat)
    requires k in Path(j) && k > 0
    ensures Parent(k) in Path(j)
    decreases j
  {
    if k == j {
      PathBounded(Parent(j));
    } else {
      PathParentClosed(Parent(j), k);
    }
  }

  /** A node of j's path other than j has one of its children on the path. */
  lemma {:induction false} PathHasChild(j: nat, i: nat)
    requires i in Path(j) && i != j
    ensures 2 * i + 1 in Path(j) || 2 * i + 2 in Path(j)
    decreases j
  {
    PathBounded(j);
    if i != Parent(j) {
      PathHasChild(Parent(j), i);
    }
  }

  /** No two siblings lie on one path. */
  lemma PathNoSiblings(j: nat, i: nat)
    requires 2 * i + 1 in Path(j)
    ensures 2 * i + 2 !in Path(j)
  {
    if 2 * i + 2 in Path(j) {
      PathChain(j, 2 * i + 2, 2 * i + 1);
      PathBounded(i);
      assert false;
    }
  }

  /** Below m on j's path comes m's parent next. */
  lemma PathBelow(j: nat, m: nat)
    requires m in Path(j) && m > 0
    ensures forall k :: k in Path(j) && k < m ==> k <= Parent(m)
  {
    PathBounded(Parent(m));
    forall k | k in Path(j) && k < m
      ensures k <= Parent(m)
    {
      PathChain(j, m, k);
    }
  }

  /** Internal node i holds the sum of its two children. */
  ghost predicate NodeSums(t: seq<real>, i: nat)
    requires 2 * i + 2 < |t|
  {
    t[i] == t[2 * i + 1] + t[2 * i + 2]
  }

  /** The tree invariant: t has 2*c-1 nodes and every internal node is the sum of its children. */
  ghost predicate SumInvariant(t: seq<real>, c: nat)
  {
    && c >= 1
    && |t| == 2 * c - 1
    && forall i :: 0 <= i < c - 1 ==> NodeSums(t, i)
  }

  /** t with delta added to every node on the path from leaf to the root. */
  ghost function PathShifted(t: seq<real>, leaf: nat, delta: real): (r: seq<real>)
    ensures |r| == |t|
  {
    seq(|t|, k requires 0 <= k < |t| => if k in Path(leaf) then t[k] + delta else t[k])
  }

  /** Adding one delta to every node of a root-to-leaf path keeps the invariant. */
  lemma PathShiftKeepsInvariant(t: seq<real>, t': seq<real>, c: nat, leaf: nat, delta: real)
    requires SumInvariant(t, c)
    requires c - 1 <= leaf < 2 * c - 1
    requires |t'| == |t|
    requires forall k :: 0 <= k < |t| ==> t'[k] == if k in Path(leaf) then t[k] + delta else t[k]
    ensures SumInvariant(t', c)
  {
    forall i | 0 <= i < c - 1
      ensures NodeSums(t', i)
    {
      assert NodeSums(t, i);
      if i in Path(leaf) {
        PathHasChild(leaf, i);
        if 2 * i + 1 in Path(leaf) {
          PathNoSiblings(leaf, i);
        } else {
          assert 2 * i + 2 in Path(leaf);
        }
      } else {
        if 2 * i + 1 in Path(leaf) {
          PathParentClosed(leaf, 2 * i + 1);
          assert false;
        }
        if 2 * i + 2 in Path(leaf) {
          PathParentClosed(leaf, 2 * i + 2);
          assert false;
        }
      }
    }
  }

  /** Shifting a leaf's path changes that leaf and no other. */
  lemma PathShiftLeaves(t: seq<real>, t': seq<real>, c: nat, leaf: nat, delta: real)
    requires c >= 1 && |t| == |t'| == 2 * c - 1
    requires c - 1 <= leaf < 2 * c - 1
    requires forall k :: 0 <= k < |t| ==> t'[k] == if k in Path(leaf) then t[k] + delta else t[k]
    ensures t'[c - 1..] == t[c - 1..][leaf - (c - 1) := t[leaf] + delta]
  {
    PathBounded(leaf);
    if leaf > 0 {
      // the other nodes of the path are ancestors, hence internal
      PathBounded(Parent(leaf));
    }
    var after, expected := t'[c - 1..], t[c - 1..][leaf - (c - 1) := t[leaf] + delta];
    forall j | 0 <= j < c
      ensures after[j] == expected[j]
    {
      assert after[j] == t'[j + c - 1];
    }
    assert after == expected;
  }

  /** The state a path shift leaves behind: the shifted tree, still summing, with one leaf changed. */
  lemma PathShift(t: seq<real>, t': seq<real>, c: nat, leaf: nat, delta: real)
    requires SumInvariant(t, c)
    requires c - 1 <= leaf < 2 * c - 1
    requires |t'| == |t|
    requires forall k :: 0 <= k < |t| ==> t'[k] == if k in Path(leaf) then t[k] + delta else t[k]
    ensures t' == PathShifted(t, leaf, delta)
    ensures SumInvariant(t', c)
    ensures t'[c - 1..] == t[c - 1..][leaf - (c - 1) := t[leaf] + delta]
  {
    PathShiftKeepsInvariant(t, t', c, leaf, delta);
    PathShiftLeaves(t, t', c, leaf, delta);
  }

  /** Part-way through `set`: the nodes of the leaf's path numbered from `index` up to the
      leaf have been shifted by delta, every other node is as before. */
  ghost predicate ShiftedFrom(cur: seq<real>, before: seq<real>, leaf: nat, index: nat, delta: real)
  {
    && |cur| == |before|
    && forall k :: 0 <= k < |cur| ==> cur[k] == if k in Path(leaf) && index <= k then before[k] + delta else before[k]
  }

  /** `set` starts with the leaf itself overwritten. */
  lemma ShiftStart(before: seq<real>, leaf: nat, delta: real)
    requires leaf < |before|
    ensures leaf in Path(leaf)
    ensures ShiftedFrom(before[leaf := before[leaf] + delta], before, leaf, leaf, delta)
  {
    PathBounded(leaf);
  }

  /** One step of the walk towards the root shifts the parent next. */
  lemma ShiftUp(cur: seq<real>, before: seq<real>, leaf: nat, index: nat, delta: real)
    requires ShiftedFrom(cur, before, leaf, index, delta)
    requires 0 < index <= leaf && index in Path(leaf) && index < |cur|
    ensures Parent(index) in Path(leaf)
    ensures ShiftedFrom(cur[Parent(index) := cur[Parent(index)] + delta], before, leaf, Parent(index), delta)
  {
    PathBelow(leaf, index);
    PathParentClosed(leaf, index);
  }

  /** Telescoping step: the first k nodes sum to the same as their 2*k children. */
  lemma {:induction false} InternalSums(t: seq<real>, c: nat, k: nat)
    requires SumInvariant(t, c) && k <= c - 1
    ensures Sum(t[..k]) == Sum(t[1..2 * k + 1])
  {
    if k > 0 {
      InternalSums(t, c, k - 1);
      assert NodeSums(t, k - 1);
      assert t[..k][..k - 1] == t[..k - 1];
      assert t[1..2 * k + 1][..2 * k - 1] == t[1..2 * k];
      assert t[1..2 * k][..2 * k - 2] == t[1..2 * k - 1];
    }
  }

  /** The root holds the sum of all leaves. */
  lemma RootIsLeafSum(t: seq<real>, c: nat)
    requires SumInvariant(t, c)
    ensures t[0] == Sum(t[c - 1..])
  {
    if c == 1 {
      assert t[c - 1..][..0] == [];
    } else {
      InternalSums(t, c, c - 1);
      SumSplit(t[..c - 1], 1);
      assert t[..c - 1][..1] == [t[0]];
      assert [t[0]][..0] == [];
      assert t[..c - 1][1..] == t[1..c - 1];
      SumSplit(t[1..2 * c - 1], c - 2);
      assert t[1..2 * c - 1][..c - 2] == t[1..c - 1];
      assert t[1..2 * c - 1][c - 2..] == t[c - 1..];
    }
  }

  /** The descent of get_leaf from node i, as a function of the node values. */
  ghost function Descend(t: seq<real>, i: nat, v: real): (leaf: nat)
    requires i < |t| && |t| % 2 == 1
    ensures i <= leaf < |t| && 2 * leaf + 1 >= |t|
    decreases |t| - i
  {
    var left := 2 * i + 1;
    if left >= |t| then i
    else if v <= t[left] then Descend(t, left, v)
    else Descend(t, left + 1, v - t[left])
  }

  /** Priority mass to the left of node j inside the subtree rooted at i (i on j's path):
      the left siblings met on the way up from j to i. */
  ghost function Offset(t: seq<real>, i: nat, j: nat): real
    requires j < |t| && i in Path(j)
    decreases j
  {
    if j == i then 0.0
    else (if j % 2 == 0 then t[j - 1] else 0.0) + Offset(t, i, Parent(j))
  }

  ghost predicate NonNegative(t: seq<real>)
  {
    forall k :: 0 <= k < |t| ==> 0.0 <= t[k]
  }

  lemma {:induction false} PathTransitive(m: nat, k: nat)
    requires k in Path(m)
    ensures Path(k) <= Path(m)
    decreases m
  {
    if k != m {
      PathTransitive(Parent(m), k);
    }
  }

  lemma {:induction false} OffsetCompose(t: seq<real>, i: nat, k: nat, j: nat)
    requires j < |t| && k in Path(j) && i in Path(k) && k <= j
    ensures i in Path(j) && Offset(t, i, j) == Offset(t, k, j) + Offset(t, i, k)
    decreases j
  {
    PathTransitive(j, k);
    PathBounded(j);
    PathBounded(k);
    if j != k {
      PathCompose(j, k);
      PathBounded(Parent(j));
      OffsetCompose(t, i, k, Parent(j));
    }
  }

  lemma PathCompose(j: nat, k: nat)
    requires k in Path(j) && k != j
    ensures j > 0 && k in Path(Parent(j))
  {
  }

  /** With non-negative leaves every node is non-negative. */
  lemma {:induction false} NodeNonNegative(t: seq<real>, c: nat, k: nat)
    requires SumInvariant(t, c) && k < |t|
    requires forall j :: c - 1 <= j < |t| ==> 0.0 <= t[j]
    ensures 0.0 <= t[k]
    decreases |t| - k
  {
    if k < c - 1 {
      assert NodeSums(t, k);
      NodeNonNegative(t, c, 2 * k + 1);
      NodeNonNegative(t, c, 2 * k + 2);
    }
  }

  /** The interval a node occupies lies inside the interval of each of its ancestors. */
  lemma {:induction false} OffsetBound(t: seq<real>, c: nat, i: nat, j: nat)
    requires SumInvariant(t, c) && NonNegative(t)
    requires j < |t| && i in Path(j) && i <= j
    ensures 0.0 <= Offset(t, i, j) && Offset(t, i, j) + t[j] <= t[i]
    decreases j
  {
    if j != i {
      PathCompose(j, i);
      var p := Parent(j);
      PathBounded(p);
      OffsetBound(t, c, i, p);
      assert NodeSums(t, p);
    }
  }

  /** Inverse-CDF sampling: a draw v in (0, t[i]] descends from i to leaf j exactly when
      it falls in j's interval (Offset, Offset + t[j]], an interval as long as j's priority. */
  lemma {:induction false} DescendInterval(t: seq<real>, c: nat, i: nat, v: real, j: nat)
    requires SumInvariant(t, c) && NonNegative(t)
    requires i < |t| && c - 1 <= j < |t|
    requires 0.0 < v <= t[i]
    ensures Descend(t, i, v) == j <==> i in Path(j) && Offset(t, i, j) < v <= Offset(t, i, j) + t[j]
    decreases |t| - i
  {
    PathBounded(j);
    var left, right := 2 * i + 1, 2 * i + 2;
    if left >= |t| {
      if i != j && i in Path(j) {
        PathCompose(j, i);
        PathBounded(Parent(j));
        assert false;
      }
    } else {
      assert NodeSums(t, i);
      assert Parent(left) == i && Parent(right) == i;
      if i in Path(j) && i != j {
        PathHasChild(j, i);
      }
      if left in Path(j) {
        OffsetCompose(t, i, left, j);
        OffsetBound(t, c, left, j);
      }
      if right in Path(j) {
        OffsetCompose(t, i, right, j);
        OffsetBound(t, c, right, j);
      }
      if v <= t[left] {
        DescendInterval(t, c, left, v, j);
      } else {
        DescendInterval(t, c, right, v - t[left], j);
      }
    }
  }

  /** The sampling law of get_leaf: with non-negative leaves and 0 < v <= total, the data
      slot d is returned exactly for the draws in an interval of length Leaf(d). */
  lemma SampleProportional(t: seq<real>, c: nat, v: real, d: nat)
    requires SumInvariant(t, c) && d < c
    requires forall j :: c - 1 <= j < |t| ==> 0.0 <= t[j]
    requires 0.0 < v <= t[0]
    ensures var leaf := d + c - 1;
      0 in Path(leaf) &&
      (Descend(t, 0, v) == leaf <==> Offset(t, 0, leaf) < v <= Offset(t, 0, leaf) + t[leaf])
  {
    forall k | 0 <= k < |t|
      ensures 0.0 <= t[k]
    {
      NodeNonNegative(t, c, k);
    }
    PathRoot(d + c - 1);
    DescendInterval(t, c, 0, v, d + c - 1);
  }

  lemma {:induction false} PathRoot(j: nat)
    ensures 0 in Path(j)
    decreases j
  {
    if j > 0 {
      PathRoot(Parent(j));
    }
  }

  class SumTree {
    const capacity: nat
    const tree: array<real>

    ghost predicate Valid()
      reads this, tree
    {
      SumInvariant(tree[..], capacity)
    }

    /** The leaf values, in data-slot order. */
    ghost function Leaves(): (ls: seq<real>)
      reads this, tree
      requires Valid()
      ensures |ls| == capacity
    {
      tree[capacity - 1..]
    }

    function Leaf(dataIndex: nat): (p: real)
      reads this, tree
      requires Valid() && dataIndex < capacity
      ensures p == Leaves()[dataIndex]
    {
      tree[dataIndex + capacity - 1]
    }

    constructor (capacity: nat)
      requires capacity >= 1
      ensures Valid() && fresh(tree) && this.capacity == capacity
      ensures forall k :: 0 <= k < tree.Length ==> tree[k] == 0.0
    {
      this.capacity := capacity;
      tree := new real[2 * capacity - 1](_ => 0.0);
    }

    /** The root: the total priority mass. */
    function Total(): (r: real)
      reads this, tree
      requires Valid()
      ensures r == Sum(Leaves())
    {
      RootIsLeafSum(tree[..], capacity);
      tree[0]
    }

    /** Overwrite a leaf and add the change to each of its ancestors. */
    method Set(dataIndex: nat, priorityAlpha: real)
      requires Valid() && dataIndex < capacity
      modifies tree
      ensures Valid()
      ensures Leaves() == old(Leaves())[dataIndex := priorityAlpha]
      ensures tree[..] == PathShifted(old(tree[..]), dataIndex + capacity - 1, priorityAlpha - old(tree[dataIndex + capacity - 1]))
    {
      var index := dataIndex + capacity - 1;
      ghost var leaf, before := index, tree[..];
      var delta := priorityAlpha - tree[index];
      assert before[leaf] + delta == priorityAlpha;
      tree[index] := priorityAlpha;
      ShiftStart(before, leaf, delta);
      assert tree[..] == before[leaf := before[leaf] + delta];
      while index != 0
        invariant index <= leaf && index in Path(leaf)
        invariant ShiftedFrom(tree[..], before, leaf, index, delta)
      {
        ghost var cur := tree[..];
        ShiftUp(cur, before, leaf, index, delta);
        index := (index - 1) / 2;
        tree[index] := tree[index] + delta;
        assert tree[..] == cur[index := cur[index] + delta];
      }
      PathShift(before, tree[..], capacity, leaf, delta);
    }

    /** Walk down from the root: left when value <= left sum, else right with the left sum subtracted. */
    method GetLeaf(value: real) returns (dataIndex: nat, priorityAlpha: real)
      requires Valid()
      ensures dataIndex < capacity && priorityAlpha == Leaf(dataIndex)
      ensures dataIndex + capacity - 1 == Descend(tree[..], 0, value)
      ensures 0.0 < value <= Total() ==> priorityAlpha > 0.0
    {
      var index: nat := 0;
      var v := value;
      ghost var inRange := 0.0 < value <= Total();
      while true
        invariant index < tree.Length
        invariant Descend(tree[..], index, v) == Descend(tree[..], 0, value)
        invariant inRange ==> 0.0 < v <= tree[index]
        decreases tree.Length - index
      {
        var left := 2 * index + 1;
        if left >= tree.Length {
          priorityAlpha := tree[index];
          dataIndex := index - (capacity - 1);
          return;
        }
        assert NodeSums(tree[..], index);
        if v <= tree[left] {
          index := left;
        } else {
          v := v - tree[left];
          index := left + 1;
        }
      }
    }

    /** Zero every node. */
    method Reset()
      requires Valid()
      modifies tree
      ensures Valid()
      ensures forall k :: 0 <= k < tree.Length ==> tree[k] == 0.0
      ensures Total() == 0.0
    {
      forall k | 0 <= k < tree.Length {
        tree[k] := 0.0;
      }
    }
  }
}

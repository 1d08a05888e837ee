/** The on-policy rollout store: a bounded, append-only buffer of rollout entries that is
    filled to capacity, consumed by the learner and then cleared. Unlike the replay stores
    it never overwrites: an add to a full store fails. */
module Rollouts {

  /** One on-policy step; `advantage` and `returnValue` are back-filled by the GAE pass. */
  datatype RolloutEntry = RolloutEntry(
    state: seq<real>,
    action: int,
    reward: real,
    done: bool,
    logProb: real,
    value: real,
    advantage: real,
    returnValue: real)

  /** A freshly recorded step: the estimates start at their default of zero. */
  function NewEntry(state: seq<real>, action: int, reward: real, done: bool, logProb: real, value: real): (e: RolloutEntry)
    ensures e.advantage == 0.0 && e.returnValue == 0.0
    ensures e.state == state && e.action == action && e.reward == reward && e.done == done
    ensures e.logProb == logProb && e.value == value
  {
    RolloutEntry(state, action, reward, done, logProb, value, 0.0, 0.0)
  }

  /** The outcome of an add: the runtime error "RolloutBuffer is full" becomes `CapacityExceeded`. */
  datatype AddStatus = Added | CapacityExceeded

  class RolloutBuffer {
    const capacity: nat
    var buffer: seq<RolloutEntry>

    ghost predicate Valid()
      reads this
    {
      |buffer| <= capacity
    }

    constructor (capacity: nat)
      ensures Valid() && this.capacity == capacity && buffer == []
    {
      this.capacity := capacity;
      buffer := [];
    }

    /** Append below capacity; at capacity fail and leave the store as it was. */
    method Add(entry: RolloutEntry) returns (status: AddStatus)
      requires Valid()
      modifies this`buffer
      ensures Valid()
      ensures status == Added <==> !old(Full())
      ensures status == Added ==> buffer == old(buffer) + [entry]
      ensures status == CapacityExceeded ==> buffer == old(buffer)
      ensures buffer == Filled(old(buffer), [entry], capacity)
    {
      if |buffer| < capacity {
        buffer := buffer + [entry];
        status := Added;
      } else {
        status := CapacityExceeded;
      }
    }

    /** Drop every entry; the capacity stays, so a store with room accepts adds again. */
    method Clear()
      requires Valid()
      modifies this`buffer
      ensures Valid() && buffer == []
      ensures capacity > 0 ==> !Full()
    {
      buffer := [];
    }

    function Size(): (n: nat)
      reads this
      requires Valid()
      ensures n <= capacity
      ensures n == |buffer|
    {
      |buffer|
    }

    /** Full once the store holds `capacity` entries (at once, for capacity 0). */
    predicate Full()
      reads this
      requires Valid()
      ensures Full() <==> Size() == capacity
    {
      |buffer| >= capacity
    }

    /** The stored entries, in insertion order. */
    function Data(): (d: seq<RolloutEntry>)
      reads this
      requires Valid()
      ensures |d| == Size() <= capacity
    {
      buffer
    }

    /** In-place edit through the mutable view of the data: overwrite the estimates of entry t. */
    method SetEstimates(t: nat, advantage: real, returnValue: real)
      requires Valid() && t < |buffer|
      modifies this`buffer
      ensures Valid()
      ensures buffer == old(buffer)[t := old(buffer)[t].(advantage := advantage, returnValue := returnValue)]
    {
      buffer := buffer[t := buffer[t].(advantage := advantage, returnValue := returnValue)];
    }
  }

  /** Only the estimates differ between two entries. */
  predicate SameStep(a: RolloutEntry, b: RolloutEntry)
  {
    a.(advantage := 0.0, returnValue := 0.0) == b.(advantage := 0.0, returnValue := 0.0)
  }

  /** Filling a store one add at a time: the first `capacity` adds succeed and the rest fail,
      so a store that started empty holds exactly the first `capacity` entries offered. */
  lemma {:induction false} FillKeepsPrefix(es: seq<RolloutEntry>, capacity: nat)
    ensures |Filled([], es, capacity)| == if |es| < capacity then |es| else capacity
    ensures Filled([], es, capacity) == es[..if |es| < capacity then |es| else capacity]
    decreases |es|
  {
    if |es| > 0 {
      FillKeepsPrefix(es[..|es| - 1], capacity);
      var pre := es[..|es| - 1];
      assert es[..|es| - 1][..if |pre| < capacity then |pre| else capacity]
        == es[..if |pre| < capacity then |pre| else capacity];
    }
  }

  /** The contents after offering each of `es`, in order, to a store holding `b`. */
  function Filled(b: seq<RolloutEntry>, es: seq<RolloutEntry>, capacity: nat): (r: seq<RolloutEntry>)
    decreases |es|
  {
    if |es| == 0 then b
    else
      var before := Filled(b, es[..|es| - 1], capacity);
      if |before| < capacity then before + [es[|es| - 1]] else before
  }
}

/** The uniform experience-replay store: a ring buffer that appends until it holds
    `capacity` experiences and then overwrites the slot at its cursor. */
module ReplayBuffers {

  /** One environment transition, as stored and as handed out in batches. */
  datatype Experience = Experience(state: seq<real>, action: int, reward: real, nextState: seq<real>, done: bool)

  /** The last n elements of h, or all of h when it is shorter. */
  ghost function LastN<T>(h: seq<T>, n: nat): seq<T>
  {
    if |h| <= n then h else h[|h| - n..]
  }

  /** The slots of a ring buffer read from its cursor onwards: oldest entry first. */
  function Rotated<T>(b: seq<T>, cursor: nat): seq<T>
    requires cursor <= |b|
  {
    b[cursor..] + b[..cursor]
  }

  /** Overwriting the oldest slot and advancing the cursor drops the oldest entry and appends the new one. */
  lemma RotatedOverwrite<T>(b: seq<T>, cursor: nat, x: T)
    requires cursor < |b|
    ensures Rotated(b[cursor := x], NextCursor(cursor, |b|)) == Rotated(b, cursor)[1..] + [x]
  {
    var b' := b[cursor := x];
    if cursor + 1 < |b| {
      assert b'[cursor + 1..] == b[cursor + 1..];
      assert b'[..cursor + 1] == b[..cursor] + [x];
      assert Rotated(b, cursor)[1..] == b[cursor + 1..] + b[..cursor];
    } else {
      assert b'[..cursor] == b[..cursor];
      assert b' == b[..cursor] + [x];
      assert Rotated(b, cursor)[1..] == b[..cursor];
    }
  }

  /** The cursor after one step: (cursor + 1) % n, written without the modulus. */
  function NextCursor(cursor: nat, n: nat): (r: nat)
    requires cursor < n
    ensures r == (cursor + 1) % n
  {
    if cursor + 1 < n then cursor + 1 else 0
  }

  lemma ModStep(a: nat, n: nat)
    requires n >= 1
    ensures (a + 1) % n == NextCursor(a % n, n)
  {
    var q, r := a / n, a % n;
    assert a == q * n + r;
    if r + 1 < n {
      ModUnique(a + 1, n, q, r + 1);
    } else {
      assert a + 1 == (q + 1) * n + 0;
      ModUnique(a + 1, n, q + 1, 0);
    }
  }

  /** x == q*n + r with 0 <= r < n fixes both the quotient and the remainder. */
  lemma ModUnique(x: nat, n: nat, q: int, r: int)
    requires n >= 1 && 0 <= r < n && x == q * n + r
    ensures x / n == q && x % n == r
  {
    var q', r' := x / n, x % n;
    assert x == q' * n + r';
    assert (q - q') * n == r' - r;
    if q > q' {
      MulAtLeast(q - q', n);
    } else if q < q' {
      MulAtLeast(q' - q, n);
    }
  }

  lemma MulAtLeast(k: int, n: int)
    requires k >= 1 && n >= 1
    ensures k * n >= n
  {
    assert k * n == (k - 1) * n + n;
  }

  lemma LastNAppend<T>(h: seq<T>, x: T, n: nat)
    requires n >= 1
    ensures |h| < n ==> LastN(h + [x], n) == h + [x]
    ensures |h| >= n ==> LastN(h + [x], n) == LastN(h, n)[1..] + [x]
  {
    if |h| >= n {
      assert (h + [x])[|h| + 1 - n..] == h[|h| - n..][1..] + [x];
    }
  }

  class ReplayBuffer {
    const capacity: nat
    var buffer: seq<Experience>
    /** the write cursor */
    var index: nat
    /** every experience added since construction or the last clear */
    ghost var added: seq<Experience>

    ghost predicate Valid()
      reads this
    {
      && capacity >= 1
      && |buffer| <= capacity
      && index < capacity
      && (|buffer| < capacity ==> index == |buffer|)
      && index == |added| % capacity
      && Rotated(buffer, index) == LastN(added, capacity)
    }

    constructor (capacity: nat)
      requires capacity >= 1
      ensures Valid() && this.capacity == capacity
      ensures buffer == [] && index == 0 && added == []
    {
      this.capacity := capacity;
      buffer := [];
      index := 0;
      added := [];
    }

    /** Append while below capacity, otherwise overwrite the slot at the cursor; then advance the cursor. */
    method Add(exp: Experience)
      requires Valid()
      modifies this
      ensures Valid()
      ensures added == old(added) + [exp]
      ensures index == (old(index) + 1) % capacity
      ensures if old(|buffer|) < capacity then buffer == old(buffer) + [exp]
              else buffer == old(buffer)[old(index) := exp]
    {
      LastNAppend(added, exp, capacity);
      ModStep(|added|, capacity);
      if |buffer| < capacity {
        assert Rotated(buffer, index) == buffer;
        buffer := buffer + [exp];
        index := NextCursor(index, capacity);
        assert Rotated(buffer, index) == buffer;
      } else {
        RotatedOverwrite(buffer, index, exp);
        buffer := buffer[index := exp];
        index := NextCursor(index, capacity);
      }
      added := added + [exp];
    }

    /** A batch of `batchSize` experiences drawn with replacement; `draws` are the uniform indices
        in [0, size()) the random generator picks. An empty store gives an empty batch. */
    method Sample(batchSize: nat, draws: seq<nat>) returns (batch: seq<Experience>)
      requires Valid()
      requires |buffer| > 0 ==> |draws| == batchSize && forall i :: 0 <= i < |draws| ==> draws[i] < |buffer|
      ensures |buffer| == 0 ==> batch == []
      ensures |buffer| > 0 ==> |batch| == batchSize && forall i :: 0 <= i < batchSize ==> batch[i] == buffer[draws[i]]
      ensures forall e :: e in batch ==> e in buffer
    {
      if |buffer| == 0 {
        return [];
      }
      batch := [];
      var i := 0;
      while i < batchSize
        invariant i <= batchSize
        invariant |batch| == i
        invariant forall k :: 0 <= k < i ==> batch[k] == buffer[draws[k]]
      {
        batch := batch + [buffer[draws[i]]];
        i := i + 1;
      }
    }

    function Size(): (n: nat)
      reads this
      requires Valid()
      ensures n <= capacity
      ensures n == if |added| < capacity then |added| else capacity
    {
      |buffer|
    }

    method Clear()
      requires Valid()
      modifies this
      ensures Valid()
      ensures buffer == [] && index == 0 && added == []
    {
      buffer := [];
      index := 0;
      added := [];
    }
  }

  /** Ring-buffer eviction order: once at least `capacity` experiences have been added, the store
      holds exactly the last `capacity` of them. */
  lemma HoldsLastAdded(rb: ReplayBuffer)
    requires rb.Valid() && |rb.added| >= rb.capacity
    ensures |rb.buffer| == rb.capacity
    ensures multiset(rb.buffer) == multiset(rb.added[|rb.added| - rb.capacity..])
  {
    var b, i := rb.buffer, rb.index;
    assert b == b[..i] + b[i..];
    assert multiset(Rotated(b, i)) == multiset(b[i..]) + multiset(b[..i]);
  }
}

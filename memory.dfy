/** The replay memory of the reinforcement-learning agents: a bounded FIFO
    buffer of experiences (a `deque` with `maxlen`) and uniform sampling
    without replacement. */
module Memory {
  import opened Py

  /** `deque.append` on a deque bounded by size: the new element goes at the
      end and, when that makes the deque too long, the oldest ones drop out. */
  function Appended<T>(buffer: seq<T>, e: T, size: nat): (r: seq<T>)
  {
    var b := buffer + [e];
    if |b| > size then b[|b| - size..] else b
  }

  /** On a buffer below capacity the element is appended and nothing else
      changes; on a full buffer the oldest entry is evicted, the rest keep
      their order and the length stays at capacity. The bound is kept. */
  lemma AppendedSpec<T>(buffer: seq<T>, e: T, size: nat)
    requires |buffer| <= size
    ensures var r := Appended(buffer, e, size);
      && |r| <= size
      && (|buffer| < size ==> r == buffer + [e] && |r| == |buffer| + 1)
      && (|buffer| == size > 0 ==> r == buffer[1..] + [e] && |r| == size)
      && (size == 0 ==> r == [])
  {
    if |buffer| == size > 0 {
      assert (buffer + [e])[1..] == buffer[1..] + [e];
    }
  }

  /** The indices `random.sample` picks: batch_size distinct positions of
      the buffer. */
  ghost predicate DistinctPositions(positions: seq<int>, k: nat, n: nat)
  {
    && |positions| == k
    && (forall i :: 0 <= i < k ==> 0 <= positions[i] < n)
    && (forall i, j :: 0 <= i < j < k ==> positions[i] != positions[j])
  }

  class ReplayMemory<T> {
    const bufferSize: nat
    var buffer: seq<T>

    ghost predicate Valid()
      reads this
    {
      |buffer| <= bufferSize
    }

    /** `ReplayMemory(buffer_size)`: an empty buffer with that capacity. */
    constructor (bufferSize: nat)
      ensures Valid()
      ensures this.bufferSize == bufferSize && buffer == []
    {
      this.bufferSize := bufferSize;
      buffer := [];
    }

    /** `__len__`: the number of stored experiences, at most the capacity. */
    function Len(): (r: nat)
      requires Valid()
      reads this
      ensures r <= bufferSize
    {
      |buffer|
    }

    /** `push`: appends one experience, evicting the oldest when full. */
    method Push(experience: T)
      requires Valid()
      modifies this
      ensures Valid()
      ensures buffer == Appended(old(buffer), experience, bufferSize)
    {
      AppendedSpec(buffer, experience, bufferSize);
      buffer := Appended(buffer, experience, bufferSize);
    }

    /** `sample`: batch_size experiences from distinct positions, the buffer
        untouched; a negative batch_size or one above the length raises
        ValueError. The positions stand for the random choice. */
    method Sample(batchSize: int, positions: seq<int>) returns (r: Result<seq<T>>)
      requires 0 <= batchSize <= |buffer| ==> DistinctPositions(positions, batchSize, |buffer|)
      ensures r.Err? <==> batchSize < 0 || batchSize > |buffer|
      ensures r.Err? ==> r.error == ValueError
      ensures r.Ok? ==> |r.value| == batchSize && forall i :: 0 <= i < batchSize ==> r.value[i] == buffer[positions[i]]
    {
      if batchSize < 0 || batchSize > |buffer| {
        return Err(ValueError);
      }
      var batch := [];
      for i := 0 to batchSize
        invariant |batch| == i
        invariant forall m :: 0 <= m < i ==> batch[m] == buffer[positions[m]]
      {
        batch := batch + [buffer[positions[i]]];
      }
      r := Ok(batch);
    }
  }

  /** `deque(maxlen=buffer_size)` refuses a negative size with ValueError. */
  method NewReplayMemory<T>(bufferSize: int) returns (r: Result<ReplayMemory<T>>)
    ensures r.Err? <==> bufferSize < 0
    ensures r.Err? ==> r.error == ValueError
    ensures r.Ok? ==> fresh(r.value) && r.value.Valid() && r.value.bufferSize == bufferSize && r.value.buffer == []
  {
    if bufferSize < 0 {
      return Err(ValueError);
    }
    var m := new ReplayMemory<T>(bufferSize);
    r := Ok(m);
  }
}

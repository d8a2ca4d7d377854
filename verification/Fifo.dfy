/**
 The sample FIFO between the signal generator and the transmitter
 (lime_main.c; its producer in gpssim.c), as one object used by one thread at a time.
 */
module Fifo {
  import opened Sequences

  // ------------------------------------------------------------ places in the ring

  /** The k-th place after `tail` in a ring of `cap` places. */
  function Place(tail: int, k: int, cap: int): int {
    if tail + k < cap then tail + k else tail + k - cap
  }

  /** lime_main.c 70-79. */
  function SampleLength(head: int, tail: int, cap: int): int {
    if head - tail < 0 then head - tail + cap else head - tail
  }

  function Min(a: int, b: int): int {
    if a < b then a else b
  }

  /** `count` samples of the ring, from `tail` on. */
  function Unread<T>(ring: seq<T>, tail: int, count: int): (s: seq<T>)
    requires 0 <= tail < |ring| && 0 <= count <= |ring|
    ensures |s| == count
  {
    seq(count, k requires 0 <= k < count => ring[Place(tail, k, |ring|)])
  }

  lemma UnreadSplit<T>(ring: seq<T>, tail: int, count: int, k: int)
    requires 0 <= tail < |ring| && 0 <= k <= count <= |ring| && k < |ring|
    ensures Unread(ring, tail, count)[..k] == Unread(ring, tail, k)
    ensures Unread(ring, tail, count)[k..] == Unread(ring, Place(tail, k, |ring|), count - k)
  {
  }

  /** The part of a stretch that runs round the end of the ring, or nothing. */
  function BeforeEnd<T>(ring: seq<T>, tail: int, count: int): seq<T>
    requires 0 <= tail < |ring|
  {
    if count > |ring| - tail then ring[tail..] else []
  }

  /** The rest of the stretch. */
  function AfterEnd<T>(ring: seq<T>, tail: int, count: int): seq<T>
    requires 0 <= tail < |ring| && 0 <= count <= |ring|
  {
    if count > |ring| - tail then ring[..count - (|ring| - tail)] else ring[tail..tail + count]
  }

  lemma UnreadPieces<T>(ring: seq<T>, tail: int, count: int)
    requires 0 <= tail < |ring| && 0 <= count <= |ring|
    ensures Unread(ring, tail, count) == BeforeEnd(ring, tail, count) + AfterEnd(ring, tail, count)
  {
  }

  /** Copying the part before the end and then the part after it copies the stretch. */
  lemma StretchTaken<T>(ring: seq<T>, tail: int, count: int, b: seq<T>, at: nat, r: seq<T>)
    requires 0 <= tail < |ring| && 0 <= count <= |ring| && at + count <= |b|
    requires var first, second := BeforeEnd(ring, tail, count), AfterEnd(ring, tail, count);
             r == Splice(Splice(b, at, first), at + |first|, second)
    ensures r == Splice(b, at, Unread(ring, tail, count))
  {
    TwoCopies(b, at, BeforeEnd(ring, tail, count), AfterEnd(ring, tail, count));
    UnreadPieces(ring, tail, count);
  }

  function Blocks(q: int, n: int): int {
    q * n
  }

  /** A whole number of blocks. */
  ghost predicate OnGrid(x: int, n: int) {
    exists q: nat :: Blocks(q, n) == x
  }

  lemma MoreBlocks(q: int, q': int, n: nat)
    requires q <= q'
    ensures Blocks(q, n) <= Blocks(q', n)
  {
    assert Blocks(q', n) == Blocks(q, n) + (q' - q) * n;
  }

  /** A block written at a block boundary does not run over the end of the ring, and ends at a boundary. */
  lemma BlockFits(head: int, n: nat, cap: nat)
    requires n > 0 && head < cap && OnGrid(head, n) && OnGrid(cap, n)
    ensures head + n <= cap && OnGrid(head + n, n)
  {
    var q: nat :| Blocks(q, n) == head;
    var q': nat :| Blocks(q', n) == cap;
    assert Blocks(q + 1, n) == head + n;
    if q < q' {
      MoreBlocks(q + 1, q', n);
    } else {
      MoreBlocks(q', q, n);
    }
  }

  // ------------------------------------------------------------ the object

  class SampleFifo<T(0)> {
    const capacity: nat   // FIFO_LENGTH
    const block: nat      // NUM_IQ_SAMPLES
    var head: int
    var tail: int
    var sample_length: int
    var fifo: array<T>

    ghost predicate Valid()
      reads this
    {
      0 < block && 2 * block <= capacity && OnGrid(capacity, block) &&
      0 <= head < capacity && 0 <= tail < capacity && OnGrid(head, block) && fifo.Length == capacity
    }

    /** The unread samples, oldest first. */
    ghost function Contents(): (s: seq<T>)
      requires Valid()
      reads this, fifo
      ensures |s| == SampleLength(head, tail, capacity)
    {
      Unread(fifo[..], tail, SampleLength(head, tail, capacity))
    }

    /** lime_main.c 42-58 and 576. */
    constructor (capacity: nat, block: nat)
      requires 0 < block && 2 * block <= capacity && OnGrid(capacity, block)
      ensures Valid() && this.capacity == capacity && this.block == block && fresh(fifo) && Contents() == []
    {
      this.capacity, this.block := capacity, block;
      head, tail, sample_length := 0, 0, 0;
      fifo := new T[capacity];
      new;
      assert Blocks(0, block) == 0;
    }

    /** memcpy out of the ring: lime_main.c 97 and 103. */
    method CopyOut(buffer: array<T>, at: nat, from: nat, count: nat)
      requires from + count <= fifo.Length && at + count <= buffer.Length && buffer != fifo
      modifies buffer
      ensures buffer[..] == Splice(old(buffer[..]), at, fifo[from..from + count])
    {
      for i := 0 to count
        invariant forall k | 0 <= k < buffer.Length ::
                    buffer[k] == if at <= k < at + i then fifo[from + k - at] else old(buffer[k])
      {
        buffer[at + i] := fifo[from + i];
      }
    }

    /** lime_main.c 94-101: the part of a stretch that runs round the end of the ring, if there is one. */
    method TakeToEnd(buffer: array<T>, at: nat, samples0: nat) returns (current: nat, samples: nat)
      requires 0 <= tail < capacity == fifo.Length && samples0 <= capacity
      requires at + samples0 <= buffer.Length && buffer != fifo
      modifies this`tail, buffer
      ensures current == at + |BeforeEnd(fifo[..], old(tail), samples0)|
      ensures buffer[..] == Splice(old(buffer[..]), at, BeforeEnd(fifo[..], old(tail), samples0))
      ensures 0 <= tail && tail + samples <= capacity && current + samples == at + samples0
      ensures fifo[tail..tail + samples] == AfterEnd(fifo[..], old(tail), samples0)
      ensures tail + samples == old(tail) + samples0 - (if samples0 > capacity - old(tail) then capacity else 0)
    {
      samples := samples0;
      current := at;
      var samples_remaining := capacity - tail;
      if samples > samples_remaining {
        CopyOut(buffer, current, tail, samples_remaining);
        tail := 0;
        current := current + samples_remaining;
        samples := samples - samples_remaining;
      }
    }

    /** lime_main.c 94-106: copies one stretch and moves the tail past it. */
    method TakeStretch(buffer: array<T>, at: nat, samples0: nat)
      requires 0 <= tail < capacity == fifo.Length && samples0 <= capacity
      requires at + samples0 <= buffer.Length && buffer != fifo
      modifies this`tail, buffer
      ensures tail == Place(old(tail), samples0, capacity)
      ensures buffer[..] == Splice(old(buffer[..]), at, Unread(fifo[..], old(tail), samples0))
    {
      hide Splice, BeforeEnd, AfterEnd, Unread;
      var current, samples := TakeToEnd(buffer, at, samples0);
      CopyOut(buffer, current, tail, samples);
      StretchTaken(fifo[..], old(tail), samples0, old(buffer[..]), at, buffer[..]);
      tail := tail + samples;
      if tail >= capacity {
        tail := tail - capacity;
      }
    }

    /** lime_main.c 81-109: as many samples as asked for and available, oldest first. */
    method Read(buffer: array<T>, at: nat, samples0: nat) returns (length: nat)
      requires Valid() && at + samples0 <= buffer.Length && buffer != fifo
      modifies this`tail, buffer
      ensures Valid() && length == Min(samples0, |old(Contents())|)
      ensures buffer[..] == Splice(old(buffer[..]), at, old(Contents())[..length])
      ensures Contents() == old(Contents())[length..]
    {
      var samples := samples0;
      length := SampleLength(head, tail, capacity);
      UnreadSplit(fifo[..], tail, length, Min(samples, length));
      if length < samples {
        samples := length;
      }
      length := samples;
      TakeStretch(buffer, at, samples);
    }

    /** lime_main.c 116-125. */
    method IsWriteReady() returns (ready: bool)
      requires Valid()
      modifies this`sample_length
      ensures sample_length == |Contents()| && ready == (|Contents()| < block)
    {
      ready := false;
      sample_length := SampleLength(head, tail, capacity);
      if sample_length < block {
        ready := true;
      }
    }

    /** memcpy into the ring: gpssim.c 3628. */
    method CopyIn(iq_buff: array<T>, count: nat)
      requires 0 <= head && head + count <= fifo.Length && count <= iq_buff.Length && iq_buff != fifo
      modifies fifo
      ensures fifo[..] == Splice(old(fifo[..]), head, iq_buff[..count])
    {
      for d := 0 to count
        invariant forall k | 0 <= k < fifo.Length ::
                    fifo[k] == if head <= k < head + d then iq_buff[k - head] else old(fifo[k])
      {
        fifo[head + d] := iq_buff[d];
      }
    }

    /** gpssim.c 3628-3632: one block, once the ring has been found ready. */
    method Write(iq_buff: array<T>)
      requires Valid() && |Contents()| < block && iq_buff.Length == block && iq_buff != fifo
      modifies this`head, fifo
      ensures Valid() && Contents() == old(Contents()) + iq_buff[..]
    {
      BlockFits(head, block, capacity);
      assert Blocks(0, block) == 0;
      CopyIn(iq_buff, block);
      head := head + block;
      if head >= capacity {
        head := head - capacity;
      }
    }
  }
}

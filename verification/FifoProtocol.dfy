/**
 The FIFO shared by two threads, step by step: the producer checks under the lock, copies and
 publishes without it; the consumer reads under the lock (lime_main.c 70-125 and 168-199,
 gpssim.c 3621-3632). The head is advanced and wrapped by two separate stores.
 */
module FifoProtocol {
  import opened Fifo

  /** Where the producer is: waiting, copying a block (so many samples done), or between the two
      stores that move the head. */
  datatype Producer<T> = Idle | Copying(samples: seq<T>, done: nat) | Advanced

  /** Where the consumer is: outside fifo_read, or inside it with so many of `count` samples copied. */
  datatype Consumer = Outside | Reading(count: nat, copied: nat)

  /** The shared memory, the two program counters, and what has been published and read so far. */
  datatype State<T> = State(head: int, tail: int, ring: seq<T>, producer: Producer<T>, consumer: Consumer,
                            written: seq<T>, read: seq<T>)

  datatype Step<T> =
    | Check(samples: seq<T>)   // is_fifo_write_ready under the lock, with the block to be written
    | CopyIn                   // one sample of memcpy, without the lock
    | Advance                  // the first store publishes the block: the head moves past it, maybe to the end
    | Wrap                     // the second store brings a head at the end back to the front
    | Enter(asked: nat)        // the consumer takes the lock and computes how much to read
    | CopyOut                  // one sample of memcpy, under the lock
    | Leave                    // the tail is moved and the lock released

  ghost predicate Sizes(n: nat, cap: nat) {
    0 < n && 2 * n <= cap && OnGrid(cap, n)
  }

  ghost predicate Init<T>(s: State<T>, cap: nat) {
    s.head == 0 && s.tail == 0 && |s.ring| == cap && s.producer == Idle && s.consumer == Outside &&
    s.written == [] && s.read == []
  }

  predicate Enabled<T>(s: State<T>, step: Step<T>, n: nat, cap: nat) {
    match step
    case Check(samples) =>
      s.producer.Idle? && s.consumer.Outside? && SampleLength(s.head, s.tail, cap) < n && |samples| == n
    case CopyIn => s.producer.Copying? && s.producer.done < n == |s.producer.samples| &&
                   0 <= s.head + s.producer.done < |s.ring|
    case Advance => s.producer.Copying? && s.producer.done == n == |s.producer.samples|
    case Wrap => s.producer.Advanced?
    case Enter(asked) => s.consumer.Outside? && SampleLength(s.head, s.tail, cap) > 0
    case CopyOut => s.consumer.Reading? && s.consumer.copied < s.consumer.count &&
                    0 <= Place(s.tail, s.consumer.copied, cap) < |s.ring|
    case Leave => s.consumer.Reading? && s.consumer.copied == s.consumer.count
  }

  function Next<T>(s: State<T>, step: Step<T>, n: nat, cap: nat): State<T>
    requires Enabled(s, step, n, cap)
  {
    match step
    case Check(samples) => s.(producer := Copying(samples, 0))
    case CopyIn =>
      s.(ring := s.ring[s.head + s.producer.done := s.producer.samples[s.producer.done]],
         producer := s.producer.(done := s.producer.done + 1))
    case Advance => s.(head := s.head + n, producer := Advanced, written := s.written + s.producer.samples)
    case Wrap => s.(head := if s.head >= cap then s.head - cap else s.head, producer := Idle)
    case Enter(asked) =>
      var length := SampleLength(s.head, s.tail, cap);
      s.(consumer := Reading(if asked < length then asked else if length < 0 then 0 else length, 0))
    case CopyOut =>
      s.(read := s.read + [s.ring[Place(s.tail, s.consumer.copied, cap)]],
         consumer := s.consumer.(copied := s.consumer.copied + 1))
    case Leave => s.(tail := Place(s.tail, s.consumer.count, cap), consumer := Outside)
  }

  // ------------------------------------------------------------ the invariant

  /** How many published samples the tail has not passed. */
  function Pending<T>(s: State<T>): int {
    |s.written| - (|s.read| - (if s.consumer.Reading? then s.consumer.copied else 0))
  }

  /** The number of samples read up to the tail. */
  function Passed<T>(s: State<T>): int {
    |s.written| - Pending(s)
  }

  /** The k-th pending sample is in its place. */
  ghost predicate PendingAt<T>(s: State<T>, k: int, cap: nat) {
    |s.ring| == cap && 0 <= Place(s.tail, k, cap) < cap && 0 <= Passed(s) + k < |s.written| &&
    s.ring[Place(s.tail, k, cap)] == s.written[Passed(s) + k]
  }

  /** The d-th sample of the block being written is in its place after the pending ones. */
  ghost predicate CopiedAt<T>(s: State<T>, d: int, cap: nat) {
    |s.ring| == cap && s.producer.Copying? && 0 <= d < |s.producer.samples| &&
    0 <= Place(s.tail, Pending(s) + d, cap) < cap &&
    s.ring[Place(s.tail, Pending(s) + d, cap)] == s.producer.samples[d]
  }

  /** The ring holds the pending samples at their places, and what a producer has copied after them. */
  ghost predicate RingHolds<T>(s: State<T>, n: nat, cap: nat) {
    |s.ring| == cap && 0 <= s.tail < cap && 0 <= Passed(s) && 0 <= Pending(s) < cap &&
    (forall k | 0 <= k < Pending(s) :: PendingAt(s, k, cap)) &&
    (s.producer.Copying? ==>
      Pending(s) < n == |s.producer.samples| && s.producer.done <= n && Pending(s) + n < cap &&
      forall d | 0 <= d < s.producer.done :: CopiedAt(s, d, cap))
  }

  /** The head is the place after the last published sample, but for a wrap still owed. */
  ghost predicate HeadPlaced<T>(s: State<T>, n: nat, cap: nat) {
    OnGrid(s.head, n) && s.head <= cap &&
    (s.head == Place(s.tail, Pending(s), cap) ||
     (s.producer.Advanced? && s.head == cap && Place(s.tail, Pending(s), cap) == 0)) &&
    (s.head == cap ==> s.producer.Advanced?)
  }

  ghost predicate Safe<T>(s: State<T>, n: nat, cap: nat) {
    Sizes(n, cap) && RingHolds(s, n, cap) && HeadPlaced(s, n, cap) && Pending(s) < 2 * n &&
    (s.consumer.Reading? ==> s.consumer.copied <= s.consumer.count <= Pending(s)) &&
    s.read <= s.written
  }

  /** The consumer must not start a read that finds the head advanced to the end of the ring, not yet
      wrapped, with everything before it already read. */
  predicate Raced<T>(s: State<T>, step: Step<T>, cap: nat) {
    step.Enter? && step.asked > 0 && s.head == cap && s.tail == 0
  }

  lemma InitIsSafe<T>(s: State<T>, n: nat, cap: nat)
    requires Sizes(n, cap) && Init(s, cap)
    ensures Safe(s, n, cap)
  {
    assert Blocks(0, n) == 0;
  }

  /** Computed length and pending count agree, except at a race. */
  lemma LengthIsPending<T>(s: State<T>, n: nat, cap: nat)
    requires Safe(s, n, cap)
    ensures s.head == cap && s.tail == 0 ==> Pending(s) == 0 && SampleLength(s.head, s.tail, cap) == cap
    ensures !(s.head == cap && s.tail == 0) ==> SampleLength(s.head, s.tail, cap) == Pending(s)
  {
  }

  lemma HeadRoom<T>(s: State<T>, n: nat, cap: nat)
    requires Safe(s, n, cap) && !s.producer.Advanced?
    ensures 0 <= s.head && s.head + n <= cap && OnGrid(s.head + n, n)
    ensures s.head == Place(s.tail, Pending(s), cap)
  {
    BlockFits(s.head, n, cap);
  }

  lemma CheckSafe<T>(s: State<T>, step: Step<T>, n: nat, cap: nat)
    requires Safe(s, n, cap) && Enabled(s, step, n, cap) && step.Check?
    ensures Safe(Next(s, step, n, cap), n, cap)
  {
    LengthIsPending(s, n, cap);
    assert forall k | 0 <= k < Pending(s) :: PendingAt(s, k, cap) ==> PendingAt(Next(s, step, n, cap), k, cap);
  }

  /** The copied sample goes past every pending one, to the place after those copied before. */
  lemma CopyInSafe<T>(s: State<T>, n: nat, cap: nat)
    requires Safe(s, n, cap) && Enabled(s, CopyIn, n, cap)
    ensures Safe(Next(s, CopyIn, n, cap), n, cap)
    ensures forall k | 0 <= k < Pending(s) :: s.head + s.producer.done != Place(s.tail, k, cap)
  {
    HeadRoom(s, n, cap);
    var s' := Next(s, CopyIn, n, cap);
    assert s.head + s.producer.done == Place(s.tail, Pending(s) + s.producer.done, cap);
    forall k | 0 <= k < Pending(s')
      ensures PendingAt(s', k, cap)
    {
      assert PendingAt(s, k, cap);
    }
    forall d | 0 <= d < s'.producer.done
      ensures CopiedAt(s', d, cap)
    {
      assert d < s.producer.done ==> CopiedAt(s, d, cap);
    }
  }

  lemma AdvanceSafe<T>(s: State<T>, n: nat, cap: nat)
    requires Safe(s, n, cap) && Enabled(s, Advance, n, cap)
    ensures Safe(Next(s, Advance, n, cap), n, cap)
  {
    HeadRoom(s, n, cap);
    var s' := Next(s, Advance, n, cap);
    assert Passed(s') == Passed(s) && Pending(s') == Pending(s) + n;
    forall k | 0 <= k < Pending(s')
      ensures PendingAt(s', k, cap)
    {
      if k < Pending(s) {
        assert PendingAt(s, k, cap);
      } else {
        assert CopiedAt(s, k - Pending(s), cap);
      }
    }
  }

  lemma WrapSafe<T>(s: State<T>, n: nat, cap: nat)
    requires Safe(s, n, cap) && Enabled(s, Wrap, n, cap)
    ensures Safe(Next(s, Wrap, n, cap), n, cap)
  {
    assert forall k | 0 <= k < Pending(s) :: PendingAt(s, k, cap) ==> PendingAt(Next(s, Wrap, n, cap), k, cap);
    assert Blocks(0, n) == 0;
  }

  lemma EnterSafe<T>(s: State<T>, step: Step<T>, n: nat, cap: nat)
    requires Safe(s, n, cap) && Enabled(s, step, n, cap) && step.Enter? && !Raced(s, step, cap)
    ensures Safe(Next(s, step, n, cap), n, cap)
  {
    LengthIsPending(s, n, cap);
    var s' := Next(s, step, n, cap);
    assert forall k | 0 <= k < Pending(s) :: PendingAt(s, k, cap) ==> PendingAt(s', k, cap);
    assert forall d | 0 <= d :: CopiedAt(s, d, cap) ==> CopiedAt(s', d, cap);
  }

  lemma CopyOutSafe<T>(s: State<T>, n: nat, cap: nat)
    requires Safe(s, n, cap) && Enabled(s, CopyOut, n, cap)
    ensures Safe(Next(s, CopyOut, n, cap), n, cap)
    ensures s.consumer.copied < Pending(s)
  {
    var k := s.consumer.copied;
    var s' := Next(s, CopyOut, n, cap);
    assert PendingAt(s, k, cap) && Passed(s) + k == |s.read|;
    assert Passed(s') == Passed(s) && Pending(s') == Pending(s);
    assert forall k | 0 <= k < Pending(s) :: PendingAt(s, k, cap) ==> PendingAt(s', k, cap);
    assert forall d | 0 <= d :: CopiedAt(s, d, cap) ==> CopiedAt(s', d, cap);
  }

  lemma LeaveSafe<T>(s: State<T>, n: nat, cap: nat)
    requires Safe(s, n, cap) && Enabled(s, Leave, n, cap)
    ensures Safe(Next(s, Leave, n, cap), n, cap)
  {
    var s' := Next(s, Leave, n, cap);
    var c := s.consumer.count;
    assert Pending(s') == Pending(s) - c && Passed(s') == Passed(s) + c;
    forall k | 0 <= k < Pending(s')
      ensures PendingAt(s', k, cap)
    {
      assert PendingAt(s, c + k, cap);
    }
    forall d | s'.producer.Copying? && 0 <= d < s'.producer.done
      ensures CopiedAt(s', d, cap)
    {
      assert CopiedAt(s, d, cap);
    }
  }

  /** Every step but the racing one keeps the whole invariant. */
  lemma StepSafe<T>(s: State<T>, step: Step<T>, n: nat, cap: nat)
    requires Safe(s, n, cap) && Enabled(s, step, n, cap) && !Raced(s, step, cap)
    ensures Safe(Next(s, step, n, cap), n, cap)
  {
    match step
    case Check(_) => CheckSafe(s, step, n, cap);
    case CopyIn => CopyInSafe(s, n, cap);
    case Advance => AdvanceSafe(s, n, cap);
    case Wrap => WrapSafe(s, n, cap);
    case Enter(_) => EnterSafe(s, step, n, cap);
    case CopyOut => CopyOutSafe(s, n, cap);
    case Leave => LeaveSafe(s, n, cap);
  }

  // ------------------------------------------------------------ whole runs

  /** `steps` can be taken one after the other from s. */
  predicate Run<T>(s: State<T>, steps: seq<Step<T>>, n: nat, cap: nat)
    decreases |steps|
  {
    steps == [] || (Enabled(s, steps[0], n, cap) && Run(Next(s, steps[0], n, cap), steps[1..], n, cap))
  }

  function After<T>(s: State<T>, steps: seq<Step<T>>, n: nat, cap: nat): State<T>
    requires Run(s, steps, n, cap)
    decreases |steps|
  {
    if steps == [] then s else After(Next(s, steps[0], n, cap), steps[1..], n, cap)
  }

  /** Some read of the run starts in the racing window. */
  predicate RacesSomewhere<T>(s: State<T>, steps: seq<Step<T>>, n: nat, cap: nat)
    requires Run(s, steps, n, cap)
    decreases |steps|
  {
    steps != [] && (Raced(s, steps[0], cap) || RacesSomewhere(Next(s, steps[0], n, cap), steps[1..], n, cap))
  }

  /** In every interleaving without a race, what is read is a prefix of what is published. */
  lemma {:induction false} RunSafe<T>(s: State<T>, steps: seq<Step<T>>, n: nat, cap: nat)
    requires Safe(s, n, cap) && Run(s, steps, n, cap) && !RacesSomewhere(s, steps, n, cap)
    ensures Safe(After(s, steps, n, cap), n, cap)
    decreases |steps|
  {
    if steps == [] {
    } else {
      StepSafe(s, steps[0], n, cap);
      RunSafe(Next(s, steps[0], n, cap), steps[1..], n, cap);
    }
  }

  lemma RunFromStart<T>(s: State<T>, steps: seq<Step<T>>, n: nat, cap: nat)
    requires Sizes(n, cap) && Init(s, cap) && Run(s, steps, n, cap) && !RacesSomewhere(s, steps, n, cap)
    ensures After(s, steps, n, cap).read <= After(s, steps, n, cap).written
  {
    InitIsSafe(s, n, cap);
    RunSafe(s, steps, n, cap);
  }

  /** A racing read returns a sample that nobody published: it can always copy one, and then more has been
      read than written. */
  lemma RaceReadsUnpublished<T>(s: State<T>, step: Step<T>, n: nat, cap: nat)
    requires Safe(s, n, cap) && Enabled(s, step, n, cap) && Raced(s, step, cap)
    ensures Run(s, [step, CopyOut], n, cap)
    ensures |After(s, [step, CopyOut], n, cap).read| > |After(s, [step, CopyOut], n, cap).written|
  {
    LengthIsPending(s, n, cap);
    var s1 := Next(s, step, n, cap);
    RunOfTwo(s, step, CopyOut, n, cap);
  }

  lemma RunOfTwo<T>(s: State<T>, first: Step<T>, second: Step<T>, n: nat, cap: nat)
    requires Enabled(s, first, n, cap) && Enabled(Next(s, first, n, cap), second, n, cap)
    ensures Run(s, [first, second], n, cap)
    ensures After(s, [first, second], n, cap) == Next(Next(s, first, n, cap), second, n, cap)
  {
    RunExtends(s, [], first, n, cap);
    RunExtends(s, [first], second, n, cap);
    assert [] + [first] == [first] && [first] + [second] == [first, second];
  }

  /** One step from a safe state can lead to a bad read exactly when it is a race. */
  lemma StepSafeIff<T>(s: State<T>, step: Step<T>, n: nat, cap: nat)
    requires Safe(s, n, cap) && Enabled(s, step, n, cap)
    ensures Safe(Next(s, step, n, cap), n, cap) <==> !Raced(s, step, cap)
  {
    if Raced(s, step, cap) {
      LengthIsPending(s, n, cap);
    } else {
      StepSafe(s, step, n, cap);
    }
  }

  // ------------------------------------------------------------ the race can happen

  lemma {:induction false} RunExtends<T>(s: State<T>, steps: seq<Step<T>>, step: Step<T>, n: nat, cap: nat)
    requires Run(s, steps, n, cap) && Enabled(After(s, steps, n, cap), step, n, cap)
    ensures Run(s, steps + [step], n, cap)
    ensures After(s, steps + [step], n, cap) == Next(After(s, steps, n, cap), step, n, cap)
    decreases |steps|
  {
    if steps == [] {
      assert ([] + [step])[1..] == steps;
    } else {
      RunExtends(Next(s, steps[0], n, cap), steps[1..], step, n, cap);
      assert (steps + [step])[1..] == steps[1..] + [step];
    }
  }

  ghost predicate Reached<T>(s: State<T>, run: seq<Step<T>>, t: State<T>, n: nat, cap: nat) {
    Run(s, run, n, cap) && After(s, run, n, cap) == t
  }

  lemma Onward<T>(s: State<T>, run: seq<Step<T>>, t: State<T>, step: Step<T>, u: State<T>, n: nat, cap: nat)
    returns (longer: seq<Step<T>>)
    requires Reached(s, run, t, n, cap) && Enabled(t, step, n, cap) && Next(t, step, n, cap) == u
    ensures Reached(s, longer, u, n, cap)
  {
    RunExtends(s, run, step, n, cap);
    longer := run + [step];
  }

  /** On the first way round the ring, with `data` as the samples to come: the first `filled` of them are in
      the ring, `out` of them published and `got` of them read. */
  function FirstLap<T>(s: State<T>, data: seq<T>, head: nat, tail: nat, filled: nat, producer: Producer<T>,
                       consumer: Consumer, out: nat, got: nat): State<T>
    requires |data| == |s.ring| && filled <= |data| && out <= |data| && got <= |data|
  {
    State(head, tail, data[..filled] + s.ring[filled..], producer, consumer, data[..out], data[..got])
  }

  /** The block from h on, copied in up to sample d. */
  lemma {:induction false} BlockIn<T>(s: State<T>, run: seq<Step<T>>, data: seq<T>, h: nat, d: nat, n: nat, cap: nat)
    returns (longer: seq<Step<T>>)
    requires |s.ring| == |data| == cap && h + n <= cap && d <= n
    requires Reached(s, run, FirstLap(s, data, h, h, h, Copying(data[h..h + n], 0), Outside, h, h), n, cap)
    ensures Reached(s, longer, FirstLap(s, data, h, h, h + d, Copying(data[h..h + n], d), Outside, h, h), n, cap)
    decreases d
  {
    hide Reached;
    longer := run;
    if d == 0 {
    } else {
      longer := BlockIn(s, run, data, h, d - 1, n, cap);
      var t := FirstLap(s, data, h, h, h + d - 1, Copying(data[h..h + n], d - 1), Outside, h, h);
      var u := FirstLap(s, data, h, h, h + d, Copying(data[h..h + n], d), Outside, h, h);
      OneMoreFilled(s.ring, data, h + d - 1);
      assert data[h..h + n][d - 1] == data[h + d - 1];
      longer := Onward(s, longer, t, CopyIn, u, n, cap);
    }
  }

  lemma OneMoreFilled<T>(ring: seq<T>, data: seq<T>, k: nat)
    requires k < |ring| == |data|
    ensures (data[..k] + ring[k..])[k := data[k]] == data[..k + 1] + ring[k + 1..]
  {
  }

  /** The same block, just published, copied out up to sample d. */
  lemma {:induction false} BlockOut<T>(s: State<T>, run: seq<Step<T>>, data: seq<T>, h: nat, d: nat, n: nat, cap: nat)
    returns (longer: seq<Step<T>>)
    requires |s.ring| == |data| == cap && h + n <= cap && d <= n
    requires Reached(s, run, FirstLap(s, data, h + n, h, h + n, Advanced, Reading(n, 0), h + n, h), n, cap)
    ensures Reached(s, longer, FirstLap(s, data, h + n, h, h + n, Advanced, Reading(n, d), h + n, h + d), n, cap)
    decreases d
  {
    hide Reached;
    longer := run;
    if d == 0 {
    } else {
      longer := BlockOut(s, run, data, h, d - 1, n, cap);
      var t := FirstLap(s, data, h + n, h, h + n, Advanced, Reading(n, d - 1), h + n, h + d - 1);
      var u := FirstLap(s, data, h + n, h, h + n, Advanced, Reading(n, d), h + n, h + d);
      assert t.ring[h + d - 1] == data[h + d - 1];
      assert u.read == t.read + [data[h + d - 1]];
      longer := Onward(s, longer, t, CopyOut, u, n, cap);
    }
  }

  /** A whole block goes through before the producer gets to its second store. */
  lemma BlockThrough<T>(s: State<T>, run: seq<Step<T>>, data: seq<T>, h: nat, n: nat, cap: nat)
    returns (longer: seq<Step<T>>)
    requires Sizes(n, cap) && |s.ring| == |data| == cap && h + n <= cap
    requires Reached(s, run, FirstLap(s, data, h, h, h, Idle, Outside, h, h), n, cap)
    ensures Reached(s, longer, FirstLap(s, data, h + n, Place(h, n, cap), h + n, Advanced, Outside, h + n, h + n),
                    n, cap)
  {
    hide Reached;
    var block := data[h..h + n];
    longer := Onward(s, run, FirstLap(s, data, h, h, h, Idle, Outside, h, h), Check(block),
                     FirstLap(s, data, h, h, h, Copying(block, 0), Outside, h, h), n, cap);
    longer := BlockIn(s, longer, data, h, n, n, cap);
    assert data[..h] + block == data[..h + n];
    longer := Onward(s, longer, FirstLap(s, data, h, h, h + n, Copying(block, n), Outside, h, h), Advance,
                     FirstLap(s, data, h + n, h, h + n, Advanced, Outside, h + n, h), n, cap);
    longer := Onward(s, longer, FirstLap(s, data, h + n, h, h + n, Advanced, Outside, h + n, h), Enter(n),
                     FirstLap(s, data, h + n, h, h + n, Advanced, Reading(n, 0), h + n, h), n, cap);
    longer := BlockOut(s, longer, data, h, n, n, cap);
    longer := Onward(s, longer, FirstLap(s, data, h + n, h, h + n, Advanced, Reading(n, n), h + n, h + n), Leave,
                     FirstLap(s, data, h + n, Place(h, n, cap), h + n, Advanced, Outside, h + n, h + n), n, cap);
  }

  /** Block after block, until the head is at the end of the ring and all is read. */
  lemma {:induction false} BlocksThrough<T>(s: State<T>, run: seq<Step<T>>, data: seq<T>, h: nat, n: nat, cap: nat)
    returns (longer: seq<Step<T>>)
    requires Sizes(n, cap) && |s.ring| == |data| == cap && OnGrid(h, n) && h < cap
    requires Reached(s, run, FirstLap(s, data, h, h, h, Idle, Outside, h, h), n, cap)
    ensures Reached(s, longer, FirstLap(s, data, cap, 0, cap, Advanced, Outside, cap, cap), n, cap)
    decreases cap - h
  {
    hide Reached;
    BlockFits(h, n, cap);
    longer := BlockThrough(s, run, data, h, n, cap);
    var next := h + n;
    if next == cap {
    } else {
      longer := Onward(s, longer, FirstLap(s, data, next, next, next, Advanced, Outside, next, next), Wrap,
                       FirstLap(s, data, next, next, next, Idle, Outside, next, next), n, cap);
      longer := BlocksThrough(s, longer, data, next, n, cap);
    }
  }

  /** For every block size and ring, and whatever the samples are: once round the ring, the consumer drains it
      between the producer's two stores to the head, asks again, and is handed the first sample a second time. */
  lemma RaceIsReachable<T>(s: State<T>, data: seq<T>, n: nat, cap: nat) returns (run: seq<Step<T>>)
    requires Sizes(n, cap) && Init(s, cap) && |data| == cap
    ensures Run(s, run, n, cap)
    ensures After(s, run, n, cap).written == data && After(s, run, n, cap).read == data + [data[0]]
  {
    assert Blocks(0, n) == 0;
    assert s == FirstLap(s, data, 0, 0, 0, Idle, Outside, 0, 0);
    run := BlocksThrough(s, [], data, 0, n, cap);
    var t := FirstLap(s, data, cap, 0, cap, Advanced, Outside, cap, cap);
    var u := t.(consumer := Reading(1, 0));
    run := Onward(s, run, t, Enter(1), u, n, cap);
    run := Onward(s, run, u, CopyOut, u.(consumer := Reading(1, 1), read := data + [data[0]]), n, cap);
  }
}

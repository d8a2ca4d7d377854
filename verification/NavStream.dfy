/**
 Whole runs of the message builder: successive buffers spell one continuous stream of words that a
 receiver accepts and reads (gpssim.c 1526-1606, called every 30 seconds at 2411-2420).
 */
module NavStream {
  import opened Arithmetic
  import opened NavWord
  import opened NavMessage

  /** The source subframes in force at each call: they may be refreshed between calls. */
  type Refreshes = seq<Subframes>

  ghost predicate Usable(sbfs: Refreshes) {
    |sbfs| > 0 && forall k | 0 <= k < |sbfs| :: WellFormed(sbfs[k])
  }

  // ------------------------------------------------------------ the times of the calls

  const FRAMES_IN_WEEK: nat := 20160

  /** The first frame of a run: its week, and its number in the week, 30 seconds to a frame. */
  datatype Start = Start(week: nat, frame: nat)

  /** Call k is for the k-th frame from the start on; incGpsTime has carried its time into its own week. */
  function CallWeek(start: Start, k: nat): nat {
    start.week + (start.frame + k) / FRAMES_IN_WEEK
  }

  function CallFrame(start: Start, k: nat): nat {
    (start.frame + k) % FRAMES_IN_WEEK
  }

  /** gpssim.c 1540: the TOW count of the frame's start, five to a frame. */
  function CallTow(start: Start, k: nat): nat {
    5 * CallFrame(start, k)
  }

  /** The reference time of call k, in seconds since the start of GPS time. */
  function ReferenceTime(start: Start, k: nat): nat {
    604800 * CallWeek(start, k) + 30 * CallFrame(start, k)
  }

  lemma ReferenceAdvances(start: Start, k: nat)
    ensures ReferenceTime(start, k) == ReferenceTime(start, 0) + 30 * k
  {
  }

  // ------------------------------------------------------------ the buffers of a run

  /** The buffer after call k: the first with init set, the others without, 30 seconds apart. */
  ghost function Buffer(sbfs: Refreshes, start: Start, k: nat): (words: seq<Word>)
    requires Usable(sbfs) && k < |sbfs|
    ensures |words| == N_DWRD
  {
    if k == 0 then FirstBuffer(sbfs[0], CallWeek(start, 0) % 1024, CallTow(start, 0))
    else LaterBuffer(Buffer(sbfs, start, k - 1), sbfs[k], CallWeek(start, k) % 1024, CallTow(start, k))
  }

  /** What the first k + 1 buffers spell: the first whole, then what each call added. */
  ghost function Stream(sbfs: Refreshes, start: Start, k: nat): (words: seq<Word>)
    requires Usable(sbfs) && k < |sbfs|
    ensures |words| == 60 + 50 * k
  {
    if k == 0 then Buffer(sbfs, start, 0)
    else Stream(sbfs, start, k - 1) + Buffer(sbfs, start, k)[10..]
  }

  lemma LaterBufferParts(last: seq<Word>, sbf: Subframes, wn: nat, tow: nat)
    requires |last| == N_DWRD && WellFormed(sbf)
    ensures LaterBuffer(last, sbf, wn, tow)[..10] == last[50..]
    ensures LaterBuffer(last, sbf, wn, tow)[10..] == Frames(sbf, 0, N_SBF, wn, tow + 1, last[59])
  {
    hide Frames;
  }

  /** Each buffer is a window of the stream, 50 words further on at every call. */
  lemma {:induction false} BufferIsWindow(sbfs: Refreshes, start: Start, k: nat)
    requires Usable(sbfs) && k < |sbfs|
    ensures Stream(sbfs, start, k)[50 * k..] == Buffer(sbfs, start, k)
    decreases k
  {
    hide FirstBuffer, LaterBuffer, CallWeek, CallTow;
    if k == 0 {
    } else {
      BufferIsWindow(sbfs, start, k - 1);
      var last := Buffer(sbfs, start, k - 1);
      LaterBufferParts(last, sbfs[k], CallWeek(start, k) % 1024, CallTow(start, k));
      WindowMoves(Stream(sbfs, start, k - 1), last, Buffer(sbfs, start, k), 50 * k);
    }
  }

  lemma WindowMoves(stream: seq<Word>, last: seq<Word>, next: seq<Word>, at: nat)
    requires |last| == |next| == 60 && at >= 50 && |stream| == at + 10
    requires stream[at - 50..] == last && next[..10] == last[50..]
    ensures (stream + next[10..])[at..] == next
  {
    assert stream[at..] == stream[at - 50..][50..];
    assert (stream + next[10..])[at..] == stream[at..] + next[10..];
    assert next == next[..10] + next[10..];
  }

  /** The stream only grows. */
  lemma {:induction false} StreamGrows(sbfs: Refreshes, start: Start, k: nat, l: nat)
    requires Usable(sbfs) && k <= l < |sbfs|
    ensures Stream(sbfs, start, k) <= Stream(sbfs, start, l)
    decreases l
  {
    hide Buffer;
    if k == l {
    } else {
      StreamGrows(sbfs, start, k, l - 1);
    }
  }

  // ------------------------------------------------------------ the subframes of the stream

  /** Which source subframe the j-th of the stream is: the fifth of the frame before, then five from each call. */
  function Turn(j: nat): nat {
    if j == 0 then 4 else (j - 1) % 5
  }

  function Call(j: nat): nat {
    if j == 0 then 0 else (j - 1) / 5
  }

  /** The counts put into the j-th subframe. The builder counts on from the start of its frame. */
  function SentTow(start: Start, j: nat): nat {
    if j == 0 then CallTow(start, 0) else CallTow(start, Call(j)) + 1 + Turn(j)
  }

  function SentWeek(start: Start, j: nat): nat {
    CallWeek(start, Call(j)) % 1024
  }

  /** The 50 words that call k adds, after the word `prev`. */
  ghost function FrameOfCall(sbfs: Refreshes, start: Start, k: nat, prev: Word): (words: seq<Word>)
    requires Usable(sbfs) && k < |sbfs|
    ensures |words| == 50
  {
    Frames(sbfs[k], 0, N_SBF, CallWeek(start, k) % 1024, CallTow(start, k) + 1, prev)
  }

  ghost predicate SubframeAt(stream: seq<Word>, sbfs: Refreshes, start: Start, j: nat)
    requires Usable(sbfs) && 10 * j + 10 <= |stream| && Call(j) < |sbfs|
  {
    stream[10 * j..10 * j + 10]
    == Subframe(sbfs[Call(j)], Turn(j), SentWeek(start, j), SentTow(start, j), Before(0, stream, 10 * j))
  }

  lemma {:induction false} FramesHasSubframe(sbf: Subframes, count: nat, wn: nat, tow: nat, prev: Word, i: nat)
    requires WellFormed(sbf) && i < count <= N_SBF
    ensures var words := Frames(sbf, 0, count, wn, tow, prev);
            words[10 * i..10 * i + 10] == Subframe(sbf, i, wn, tow + i, Before(prev, words, 10 * i))
    decreases count
  {
    hide Subframe;
    if i < count - 1 {
      FramesHasSubframe(sbf, count - 1, wn, tow, prev, i);
      var shorter, words := Frames(sbf, 0, count - 1, wn, tow, prev), Frames(sbf, 0, count, wn, tow, prev);
      assert words[10 * i..10 * i + 10] == shorter[10 * i..10 * i + 10];
    }
  }

  /** The five subframes that follow an earlier stretch of the stream. */
  lemma SubframeInTail(stream: seq<Word>, frame: seq<Word>, sbf: Subframes, wn: nat, tow: nat, i: nat)
    requires WellFormed(sbf) && i < N_SBF && |stream| > 0
    requires frame == Frames(sbf, 0, N_SBF, wn, tow, stream[|stream| - 1])
    ensures var all := stream + frame; var at := |stream| + 10 * i;
            all[at..at + 10] == Subframe(sbf, i, wn, tow + i, Before(0, all, at))
  {
    hide Subframe, Frames;
    FramesHasSubframe(sbf, N_SBF, wn, tow, stream[|stream| - 1], i);
    var all, at := stream + frame, |stream| + 10 * i;
    assert all[at..at + 10] == frame[10 * i..10 * i + 10];
  }

  lemma SubframeInPrefix(stream: seq<Word>, longer: seq<Word>, sbfs: Refreshes, start: Start, j: nat)
    requires Usable(sbfs) && 10 * j + 10 <= |stream| && Call(j) < |sbfs| && stream <= longer
    requires SubframeAt(stream, sbfs, start, j)
    ensures SubframeAt(longer, sbfs, start, j)
  {
    hide Subframe;
    assert longer[10 * j..10 * j + 10] == stream[10 * j..10 * j + 10];
    assert Before(0, longer, 10 * j) == Before(0, stream, 10 * j);
  }

  lemma TurnWithinCall(k: nat, i: nat)
    requires i < 5
    ensures Turn(5 * k + 1 + i) == i && Call(5 * k + 1 + i) == k
  {
  }

  lemma FirstStream(sbfs: Refreshes, start: Start, j: nat)
    requires Usable(sbfs) && j < 6
    ensures Call(j) == 0 && SubframeAt(Stream(sbfs, start, 0), sbfs, start, j)
  {
    hide Subframe, Frames;
    var wn, tow := CallWeek(start, 0) % 1024, CallTow(start, 0);
    var head := Subframe(sbfs[0], 4, wn, tow, 0);
    var frame := Frames(sbfs[0], 0, N_SBF, wn, tow + 1, head[9]);
    var stream := Stream(sbfs, start, 0);
    assert stream == head + frame;
    if j == 0 {
      assert stream[0..10] == head;
    } else {
      SubframeInTail(head, frame, sbfs[0], wn, tow + 1, j - 1);
      TurnWithinCall(0, j - 1);
    }
  }

  lemma LastWord(sbfs: Refreshes, start: Start, k: nat)
    requires Usable(sbfs) && k < |sbfs|
    ensures Stream(sbfs, start, k)[59 + 50 * k] == Buffer(sbfs, start, k)[59]
  {
    hide Stream, Buffer;
    BufferIsWindow(sbfs, start, k);
    assert Stream(sbfs, start, k)[50 * k..][59] == Stream(sbfs, start, k)[50 * k + 59];
  }

  lemma StreamExtended(sbfs: Refreshes, start: Start, k: nat)
    requires Usable(sbfs) && 0 < k < |sbfs|
    ensures var before := Stream(sbfs, start, k - 1);
            Stream(sbfs, start, k) == before + FrameOfCall(sbfs, start, k, before[|before| - 1])
  {
    hide FrameOfCall, Buffer;
    BufferTail(sbfs, start, k);
    LastWord(sbfs, start, k - 1);
  }

  lemma BufferTail(sbfs: Refreshes, start: Start, k: nat)
    requires Usable(sbfs) && 0 < k < |sbfs|
    ensures Buffer(sbfs, start, k)[10..]
            == FrameOfCall(sbfs, start, k, Buffer(sbfs, start, k - 1)[59])
  {
    hide Frames, LaterBuffer;
    LaterBufferParts(Buffer(sbfs, start, k - 1), sbfs[k], CallWeek(start, k) % 1024, CallTow(start, k));
  }

  lemma LaterStream(sbfs: Refreshes, start: Start, k: nat, i: nat)
    requires Usable(sbfs) && 0 < k < |sbfs| && i < 5
    ensures Call(5 * k + 1 + i) == k && SubframeAt(Stream(sbfs, start, k), sbfs, start, 5 * k + 1 + i)
  {
    hide Subframe, Frames, Stream;
    var before := Stream(sbfs, start, k - 1);
    StreamExtended(sbfs, start, k);
    SubframeInTail(before, FrameOfCall(sbfs, start, k, before[|before| - 1]),
                   sbfs[k], CallWeek(start, k) % 1024, CallTow(start, k) + 1, i);
    TurnWithinCall(k, i);
  }

  /** The stream is one subframe after another, each chained to the word before it, carrying the week and the count
      of its call, across any number of week ends. */
  lemma {:induction false} StreamOfSubframes(sbfs: Refreshes, start: Start, k: nat, j: nat)
    requires Usable(sbfs) && k < |sbfs| && j < 6 + 5 * k
    ensures Call(j) <= k && SubframeAt(Stream(sbfs, start, k), sbfs, start, j)
    decreases k
  {
    hide FirstBuffer, LaterBuffer, Subframe, SubframeAt;
    if k == 0 {
      FirstStream(sbfs, start, j);
    } else if j < 6 + 5 * (k - 1) {
      StreamOfSubframes(sbfs, start, k - 1, j);
      StreamGrows(sbfs, start, k - 1, k);
      SubframeInPrefix(Stream(sbfs, start, k - 1), Stream(sbfs, start, k), sbfs, start, j);
    } else {
      LaterStream(sbfs, start, k, j - 5 * k - 1);
    }
  }

  // ------------------------------------------------------------ what a receiver makes of the stream

  /** Word i of a stream, after the word before it: accepted, and carrying source word i % 10 of its subframe. */
  ghost predicate Received(stream: seq<Word>, sbfs: Refreshes, start: Start, i: nat)
    requires Usable(sbfs) && i < |stream| && Call(i / 10) < |sbfs|
  {
    var p, w, j := Before(0, stream, i), stream[i], i / 10;
    var source := Source(sbfs[Call(j)], Turn(j), i % 10, SentWeek(start, j), SentTow(start, j));
    ParityHolds(p, w) &&
    Kept(Recover(p, w)) == Kept(source) &&
    (i % 10 != 1 && i % 10 != 9 ==> Recover(p, w) == Data(source)) &&
    (i % 10 == 1 || i % 10 == 9 ==> !D29(w) && !D30(w)) &&
    (i % 10 == 1 ==> TowNumber(Recover(p, w)) == SentTow(start, j) % Pow2(17)) &&
    (Turn(j) == 0 && i % 10 == 2 ==> WeekNumber(Recover(p, w)) == SentWeek(start, j) % Pow2(10)) &&
    (i % 10 == 0 ==> Recover(p, w) == Data(w))
  }

  lemma Uninverted(p: Word, w: Word)
    requires !D30(p)
    ensures Recover(p, w) == Data(w)
  {
    hide D30;
  }

  lemma ZeroEndsPlain()
    ensures !D30(0)
  {
  }

  lemma PlaceInSubframe(j: nat, r: nat)
    requires r < 10
    ensures (10 * j + r) / 10 == j && (10 * j + r) % 10 == r
  {
  }

  lemma WordOfSubframe(stream: seq<Word>, sbfs: Refreshes, start: Start, j: nat, r: nat)
    requires Usable(sbfs) && 10 * j + 10 <= |stream| && Call(j) < |sbfs| && r < 10
    requires SubframeAt(stream, sbfs, start, j)
    ensures WordSent(Before(0, stream, 10 * j), stream[10 * j..10 * j + 10], sbfs[Call(j)], Turn(j),
                     SentWeek(start, j), SentTow(start, j), r)
    ensures Before(0, stream, 10 * j + r) == Before(Before(0, stream, 10 * j), stream[10 * j..10 * j + 10], r)
  {
    hide WordSent, Chain;
    ChainSent(sbfs[Call(j)], Turn(j), SentWeek(start, j), SentTow(start, j), Before(0, stream, 10 * j), 10);
  }

  /** Over any run, every word is accepted and read, words 2 and 10 end in two zero bits, every subframe starts
      uninverted, and the week and TOW counts read are those of its call. */
  lemma StreamReceived(sbfs: Refreshes, start: Start, k: nat, i: nat)
    requires Usable(sbfs) && k < |sbfs| && i < 60 + 50 * k
    ensures Call(i / 10) <= k && Received(Stream(sbfs, start, k), sbfs, start, i)
  {
    hide ParityHolds, Recover, Kept, Data, D29, D30, TowNumber, WeekNumber, Source, SubframeAt, Stream, SentTow,
         SentWeek;
    var stream, j, r := Stream(sbfs, start, k), i / 10, i % 10;
    StreamOfSubframes(sbfs, start, k, j);
    WordOfSubframe(stream, sbfs, start, j, r);
    assert i == 10 * j + r;
    if r == 0 {
      if j == 0 {
        ZeroEndsPlain();
      } else {
        StreamOfSubframes(sbfs, start, k, j - 1);
        WordOfSubframe(stream, sbfs, start, j - 1, 9);
        assert stream[10 * (j - 1)..10 * (j - 1) + 10][9] == stream[i - 1];
      }
      Uninverted(Before(0, stream, i), stream[i]);
    }
  }

  // ------------------------------------------------------------ bits and time

  /** gpssim.c 1366 and 2353: bit ibit of a word, most significant first. */
  predicate MessageBit(w: Word, ibit: nat)
    requires ibit < 30
  {
    (w >> (29 - ibit)) & 1 == 1
  }

  /** The bit at a place, 30 to a word. */
  predicate BitAt(words: seq<Word>, place: nat)
    requires place < 30 * |words|
  {
    MessageBit(words[place / 30], place % 30)
  }

  /** Where a buffer with reference time g0 (in seconds) holds the bit of time t (in 20 millisecond bits of
      GPS time): gpssim.c 1352-1366. A buffer starts six seconds before its reference time. */
  function BitPlace(g0: int, t: int): int {
    t - 50 * g0 + 300
  }

  /** Every buffer gives, for every time it covers, the bit that the one stream has at that time. */
  lemma BufferReadsStream(sbfs: Refreshes, start: Start, k: nat, l: nat, g0: int, t: int)
    requires Usable(sbfs) && k <= l < |sbfs|
    requires 0 <= BitPlace(g0 + 30 * k, t) < 1800
    ensures 0 <= BitPlace(g0, t) < 30 * |Stream(sbfs, start, l)|
    ensures BitAt(Buffer(sbfs, start, k), BitPlace(g0 + 30 * k, t)) == BitAt(Stream(sbfs, start, l), BitPlace(g0, t))
  {
    hide MessageBit, Stream, Buffer;
    BufferIsWindow(sbfs, start, k);
    StreamGrows(sbfs, start, k, l);
    var place := BitPlace(g0 + 30 * k, t);
    assert BitPlace(g0, t) == 1500 * k + place;
    WordOfPlace(place, k);
    assert Stream(sbfs, start, k)[50 * k..][place / 30] == Stream(sbfs, start, k)[50 * k + place / 30];
  }

  lemma WordOfPlace(place: nat, k: nat)
    ensures (1500 * k + place) / 30 == 50 * k + place / 30 && (1500 * k + place) % 30 == place % 30
  {
  }

  /** Moving the reference time by 30 seconds and keeping the last subframe leaves every bit of the overlap. */
  lemma OverlapUnchanged(sbfs: Refreshes, start: Start, k: nat, g0: int, t: int)
    requires Usable(sbfs) && k + 1 < |sbfs|
    requires 0 <= BitPlace(g0 + 30 * k, t) < 1800 && 0 <= BitPlace(g0 + 30 * (k + 1), t) < 1800
    ensures BitAt(Buffer(sbfs, start, k), BitPlace(g0 + 30 * k, t))
            == BitAt(Buffer(sbfs, start, k + 1), BitPlace(g0 + 30 * (k + 1), t))
  {
    hide BitAt, Buffer, Stream;
    BufferReadsStream(sbfs, start, k, k + 1, g0, t);
    BufferReadsStream(sbfs, start, k + 1, k + 1, g0, t);
  }

  // ------------------------------------------------------------ the end of the week

  /** Section 20.3.3.2 of IS-GPS-200: the TOW count of a subframe is that of the start of the next one, from 0 to
      100799. The j-th subframe of a run ends 6·j seconds after the start of the run's first frame. */
  function StandardTow(start: Start, j: nat): nat {
    (5 * start.frame + j) % 100800
  }

  /** The fifth subframe of a week's last frame. */
  predicate EndsWeek(start: Start, j: nat) {
    j > 0 && Turn(j) == 4 && CallFrame(start, Call(j)) == FRAMES_IN_WEEK - 1
  }

  lemma CountsOfFrame(start: Start, j: nat)
    requires start.frame < FRAMES_IN_WEEK
    ensures SentTow(start, j) <= 100800
    ensures SentTow(start, j) == StandardTow(start, j) <==> !EndsWeek(start, j)
    ensures EndsWeek(start, j) ==> SentTow(start, j) == 100800 && StandardTow(start, j) == 0
    ensures EndsWeek(start, j) <==> j > 0 && StandardTow(start, j) == 0
  {
    if j == 0 {
      assert CallFrame(start, 0) == start.frame;
    } else {
      var n := start.frame + Call(j);
      var q, r := n / FRAMES_IN_WEEK, n % FRAMES_IN_WEEK;
      assert 5 * start.frame + j == 100800 * q + (5 * r + 1 + Turn(j));
      WithinWeek(q, 5 * r + 1 + Turn(j));
    }
  }

  lemma WithinWeek(q: nat, x: nat)
    requires x <= 100800
    ensures (100800 * q + x) % 100800 == if x == 100800 then 0 else x
  {
    QuotientUnique(100800, (100800 * q + x) / 100800, (100800 * q + x) % 100800,
                   if x == 100800 then q + 1 else q, if x == 100800 then 0 else x);
  }

  /** The TOW count a receiver reads from the j-th subframe. */
  ghost function ReceivedTow(stream: seq<Word>, j: nat): nat
    requires 10 * j + 1 < |stream|
  {
    TowNumber(Recover(Before(0, stream, 10 * j + 1), stream[10 * j + 1]))
  }

  lemma ReadsSentTow(sbfs: Refreshes, start: Start, k: nat, j: nat)
    requires Usable(sbfs) && k < |sbfs| && j < 6 + 5 * k && start.frame < FRAMES_IN_WEEK
    ensures ReceivedTow(Stream(sbfs, start, k), j) == SentTow(start, j)
  {
    hide ParityHolds, Recover, Kept, Data, D29, D30, TowNumber, WeekNumber, Source, Stream, SentTow, SentWeek, Turn,
         StandardTow, EndsWeek, Pow2;
    PlaceInSubframe(j, 1);
    StreamReceived(sbfs, start, k, 10 * j + 1);
    CountsOfFrame(start, j);
    FitsField(SentTow(start, j));
  }

  lemma FitsField(x: nat)
    requires x <= 100800
    ensures x % Pow2(17) == x
  {
    SeventeenBits();
  }

  /** Over any run, across any number of week ends, the count received is the standard's except in the fifth
      subframe of a week's last frame: the builder counts on to 100800 there, where the standard has 0. That is every
      subframe after the first whose standard count is 0. */
  lemma TowMatchesStandardIff(sbfs: Refreshes, start: Start, k: nat, j: nat)
    requires Usable(sbfs) && k < |sbfs| && j < 6 + 5 * k && start.frame < FRAMES_IN_WEEK
    ensures ReceivedTow(Stream(sbfs, start, k), j) == StandardTow(start, j)
            <==> j == 0 || (5 * start.frame + j) % 100800 != 0
    ensures ReceivedTow(Stream(sbfs, start, k), j) == if EndsWeek(start, j) then 100800 else StandardTow(start, j)
  {
    hide Stream, ReceivedTow, SentTow, EndsWeek;
    ReadsSentTow(sbfs, start, k, j);
    CountsOfFrame(start, j);
  }

  /** The week number received in subframe 1 is the week of its frame, modulo 1024. */
  lemma WeekReceived(sbfs: Refreshes, start: Start, k: nat, c: nat)
    requires Usable(sbfs) && c <= k < |sbfs|
    ensures var i := 50 * c + 12;
            var stream := Stream(sbfs, start, k);
            WeekNumber(Recover(Before(0, stream, i), stream[i])) == CallWeek(start, c) % 1024
  {
    hide ParityHolds, Recover, Kept, Data, D29, D30, TowNumber, WeekNumber, Source, Stream, SentTow;
    TurnWithinCall(c, 0);
    PlaceInSubframe(5 * c + 1, 2);
    StreamReceived(sbfs, start, k, 50 * c + 12);
    TenBits();
  }

  lemma TenBits()
    ensures Pow2(10) == 1024
  {
    assert Pow2(4) == 16 && Pow2(8) == 256;
  }

  lemma SeventeenBits()
    ensures Pow2(17) == 131072
  {
    assert Pow2(4) == 16 && Pow2(8) == 256 && Pow2(12) == 4096 && Pow2(16) == 65536;
  }

  function BlankSubframes(): (sbf: Subframes)
    ensures |sbf| == N_SBF && forall i | 0 <= i < N_SBF :: sbf[i] == [0, 0, 0, 0, 0, 0, 0, 0, 0, 0]
  {
    var ten: seq<Word> := [0, 0, 0, 0, 0, 0, 0, 0, 0, 0];
    [ten, ten, ten, ten, ten]
  }

  lemma BlankIsWellFormed()
    ensures WellFormed(BlankSubframes())
  {
  }

  /** A run that starts at second 604770 of a week: its first frame ends with the count 100800, where the standard
      has 0, and the next frame, in the next week, goes on with 1. */
  lemma TowWrongAtWeekEnd(week: nat)
    ensures var sbfs := [BlankSubframes(), BlankSubframes()];
            var start := Start(week, 20159);
            && 30 * start.frame == 604770 && Usable(sbfs)
            && ReceivedTow(Stream(sbfs, start, 1), 5) == 100800 && StandardTow(start, 5) == 0
            && ReceivedTow(Stream(sbfs, start, 1), 6) == 1 == StandardTow(start, 6)
            && CallWeek(start, 1) == week + 1
  {
    hide Stream, ReceivedTow, WellFormed, BlankSubframes;
    BlankIsWellFormed();
    var sbfs := [BlankSubframes(), BlankSubframes()];
    var start := Start(week, 20159);
    TurnWithinCall(0, 4);
    TurnWithinCall(1, 0);
    TowMatchesStandardIff(sbfs, start, 1, 5);
    TowMatchesStandardIff(sbfs, start, 1, 6);
  }
}

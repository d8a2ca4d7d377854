/**
 The clock of the generator and the message calls it makes (gpssim.c 2243-2269, 2411-2420, 2466): time advances a
 tenth of a second at a step, across week ends, and every 30 seconds the message is built anew.
 */
module NavRun {
  import opened Arithmetic
  import opened NavWord
  import opened NavMessage
  import opened NavStream
  import opened GpsTimes

  const TENTHS_IN_WEEK: nat := 6048000

  /** The GPS time a number of tenths of a second after its start. */
  function TimeAt(tenths: nat): (g: GpsTime)
    ensures InWeek(g) && g.week >= 0
  {
    GpsTime(tenths / TENTHS_IN_WEEK, (tenths % TENTHS_IN_WEEK) as real / 10.0)
  }

  lemma TotalOfTenths(tenths: nat)
    ensures TotalSeconds(TimeAt(tenths)) == tenths as real / 10.0
  {
    var w, x := tenths / TENTHS_IN_WEEK, tenths % TENTHS_IN_WEEK;
    assert tenths == w * TENTHS_IN_WEEK + x;
  }

  /** incGpsTime by 0.1 moves on by one tenth, whatever week that is in. */
  lemma NextTenth(tenths: nat, g1: GpsTime)
    requires InWeek(g1)
    requires var g := TimeAt(tenths); TotalSeconds(g1) == TotalSeconds(GpsTime(g.week, WholeMs(g.sec + 0.1)))
    ensures g1 == TimeAt(tenths + 1)
  {
    hide WholeMs;
    var g := TimeAt(tenths);
    var ms := 100 * (tenths % TENTHS_IN_WEEK + 1);
    assert g.sec + 0.1 == ms as real / 1000.0;
    MillisecondsKept(ms);
    TotalOfTenths(tenths);
    TotalOfTenths(tenths + 1);
    SameTime(g1, TimeAt(tenths + 1));
  }

  /** incGpsTime by 0 leaves a time in whole tenths as it is. */
  lemma SameTenth(tenths: nat, g1: GpsTime)
    requires InWeek(g1)
    requires var g := TimeAt(tenths); TotalSeconds(g1) == TotalSeconds(GpsTime(g.week, WholeMs(g.sec + 0.0)))
    ensures g1 == TimeAt(tenths)
  {
    hide WholeMs;
    var g := TimeAt(tenths);
    var ms := 100 * (tenths % TENTHS_IN_WEEK);
    assert g.sec + 0.0 == ms as real / 1000.0;
    MillisecondsKept(ms);
    SameTime(g1, g);
  }

  /** A call from half a second before a frame's start to half a second before its end is for that frame. */
  lemma CallAligned(frame: nat, sec: real)
    requires sec >= 0.0 && (30 * frame) as real - 0.5 <= sec < (30 * frame) as real + 29.5
    ensures Aligned(sec) == 30 * frame && TowCount(Aligned(sec)) == 5 * frame
  {
    var f := (sec + 0.5).Floor;
    assert 30 * frame <= f < 30 * frame + 30;
    assert f / 30 == frame;
  }

  /** The run that starts at a time. */
  function StartAt(tenths: nat): (start: Start)
    ensures start.frame < FRAMES_IN_WEEK
  {
    Start(tenths / TENTHS_IN_WEEK, tenths % TENTHS_IN_WEEK / 300)
  }

  /** How many frames have begun in the steps after a start. */
  function FramesBegun(from: nat, tenths: nat): nat
    requires from <= tenths
  {
    tenths / 300 - from / 300
  }

  /** gpssim.c 2411-2413: whether a frame begins, judged by the second of the week alone. */
  lemma FrameBegins(tenths: nat)
    ensures (TimeAt(tenths).sec * 10.0 + 0.5).Floor % 300 == 0 <==> tenths % 300 == 0
  {
    var x := tenths % TENTHS_IN_WEEK;
    assert TimeAt(tenths).sec * 10.0 == x as real;
    assert (x as real + 0.5).Floor == x;
    assert tenths == 300 * (20160 * (tenths / TENTHS_IN_WEEK)) + x;
  }

  lemma FramesCounted(from: nat, tenths: nat)
    requires from <= tenths
    ensures FramesBegun(from, tenths + 1) == FramesBegun(from, tenths) + if (tenths + 1) % 300 == 0 then 1 else 0
  {
  }

  /** The week and frame a call is made for. */
  lemma FrameOfTime(from: nat, tenths: nat)
    requires from <= tenths && (tenths == from || tenths % 300 == 0)
    ensures var start, k := StartAt(from), FramesBegun(from, tenths);
            && CallWeek(start, k) == tenths / TENTHS_IN_WEEK
            && CallFrame(start, k) == tenths % TENTHS_IN_WEEK / 300
  {
    var w, x := from / TENTHS_IN_WEEK, from % TENTHS_IN_WEEK;
    var v, y := tenths / TENTHS_IN_WEEK, tenths % TENTHS_IN_WEEK;
    FrameNumber(w, x);
    FrameNumber(v, y);
    QuotientUnique(FRAMES_IN_WEEK, (x / 300 + FramesBegun(from, tenths)) / FRAMES_IN_WEEK,
                   (x / 300 + FramesBegun(from, tenths)) % FRAMES_IN_WEEK, v - w, y / 300);
  }

  lemma FrameNumber(w: nat, x: nat)
    requires x < TENTHS_IN_WEEK
    ensures (w * TENTHS_IN_WEEK + x) / 300 == w * FRAMES_IN_WEEK + x / 300
  {
    QuotientUnique(300, (w * TENTHS_IN_WEEK + x) / 300, (w * TENTHS_IN_WEEK + x) % 300,
                   w * FRAMES_IN_WEEK + x / 300, x % 300);
  }

  /** Where a channel's message stands: its buffer is that of the run's call k, its reference time that call's
      frame. */
  ghost predicate Standing(dwrd: seq<Word>, g0_week: nat, g0_sec: nat, sbfs: Refreshes, start: Start, k: nat) {
    && Usable(sbfs) && k < |sbfs|
    && dwrd == Buffer(sbfs, start, k)
    && g0_week == CallWeek(start, k) && g0_sec == 30 * CallFrame(start, k)
  }

  /** What a call for a frame leaves. */
  lemma FirstCallStands(sbfs: Refreshes, start: Start)
    requires Usable(sbfs)
    ensures Standing(FirstBuffer(sbfs[0], CallWeek(start, 0) % 1024, CallTow(start, 0)),
                     CallWeek(start, 0), 30 * CallFrame(start, 0), sbfs, start, 0)
  {
    hide FirstBuffer;
  }

  lemma LaterCallStands(dwrd: seq<Word>, week: nat, sec: nat, sbfs: Refreshes, start: Start, k: nat)
    requires Standing(dwrd, week, sec, sbfs, start, k) && k + 1 < |sbfs|
    ensures |dwrd| == N_DWRD
    ensures Standing(LaterBuffer(dwrd, sbfs[k + 1], CallWeek(start, k + 1) % 1024, CallTow(start, k + 1)),
                     CallWeek(start, k + 1), 30 * CallFrame(start, k + 1), sbfs, start, k + 1)
  {
    hide LaterBuffer;
  }

  /** The arguments of a call, at the first time of the run or at the start of a frame, in the run's terms. */
  lemma CallArguments(from: nat, tenths: nat)
    requires from <= tenths && from % 10 == 0 && (tenths == from || tenths % 300 == 0)
    ensures var start, k, g := StartAt(from), FramesBegun(from, tenths), TimeAt(tenths);
            && g.week == CallWeek(start, k)
            && Aligned(g.sec) == 30 * CallFrame(start, k) && TowCount(Aligned(g.sec)) == CallTow(start, k)
  {
    hide Aligned, TowCount, StartAt, CallWeek, CallFrame, FramesBegun, TimeAt;
    FrameOfTime(from, tenths);
    WholeSecond(tenths);
    FrameSecond(tenths);
    CallAligned(tenths % TENTHS_IN_WEEK / 300, TimeAt(tenths).sec);
  }

  /** The time since a call's reference time, as computeCodePhase takes it (gpssim.c 1352): the reference times of a
      run are 30 seconds apart, in whatever weeks they fall. */
  lemma ElapsedSinceReference(g: GpsTime, start: Start, k: nat)
    ensures SubGpsTime(g, GpsTime(CallWeek(start, k), (30 * CallFrame(start, k)) as real))
         == TotalSeconds(g) - (ReferenceTime(start, 0) + 30 * k) as real
  {
    hide CallWeek, CallFrame, ReferenceTime;
    var g0 := GpsTime(CallWeek(start, k), (30 * CallFrame(start, k)) as real);
    SubIsElapsed(g, g0);
    ReferenceAdvances(start, k);
    ReferenceIs(start, k);
  }

  lemma ReferenceIs(start: Start, k: nat)
    ensures TotalSeconds(GpsTime(CallWeek(start, k), (30 * CallFrame(start, k)) as real))
         == ReferenceTime(start, k) as real
  {
    assert (604800 * CallWeek(start, k)) as real == CallWeek(start, k) as real * 604800.0;
  }

  /** The call on allocation (gpssim.c 1667), at a whole second. */
  method FirstCall(chan: Channel, sbfs: Refreshes, from: nat, grx: GpsTime)
    requires chan.Valid() && Usable(sbfs) && chan.sbf == sbfs[0]
    requires from % 10 == 0 && grx == TimeAt(from)
    modifies chan`g0_week, chan`g0_sec, chan.dwrd
    ensures Standing(chan.dwrd[..], chan.g0_week, chan.g0_sec, sbfs, StartAt(from), 0)
  {
    hide FirstBuffer, LaterBuffer, Aligned, TowCount, StartAt, Standing, TimeAt, CallWeek, CallFrame, CallTow;
    CallArguments(from, from);
    FirstCallStands(sbfs, StartAt(from));
    chan.GenerateNavMsg(grx.week, grx.sec, true);
  }

  /** The call at the start of a frame (gpssim.c 2416-2420). */
  method LaterCall(chan: Channel, sbfs: Refreshes, from: nat, tenths: nat, grx: GpsTime, ghost k: nat)
    requires chan.Valid() && k + 1 < |sbfs| && chan.sbf == sbfs[k + 1]
    requires Standing(chan.dwrd[..], chan.g0_week, chan.g0_sec, sbfs, StartAt(from), k)
    requires from <= tenths && from % 10 == 0 && tenths % 300 == 0 && grx == TimeAt(tenths)
    requires k + 1 == FramesBegun(from, tenths)
    modifies chan`g0_week, chan`g0_sec, chan.dwrd
    ensures Standing(chan.dwrd[..], chan.g0_week, chan.g0_sec, sbfs, StartAt(from), k + 1)
  {
    hide FirstBuffer, LaterBuffer, Aligned, TowCount, StartAt, Standing, TimeAt, CallWeek, CallFrame, CallTow;
    CallArguments(from, tenths);
    LaterCallStands(chan.dwrd[..], chan.g0_week, chan.g0_sec, sbfs, StartAt(from), k);
    chan.GenerateNavMsg(grx.week, grx.sec, false);
  }

  lemma WholeSecond(tenths: nat)
    ensures tenths % 300 == 0 ==> tenths % 10 == 0
  {
    assert tenths == 300 * (tenths / 300) + tenths % 300;
  }

  /** A whole second lies at most 29 seconds into its frame. */
  lemma FrameSecond(tenths: nat)
    requires tenths % 10 == 0
    ensures var frame := tenths % TENTHS_IN_WEEK / 300;
            (30 * frame) as real - 0.5 <= TimeAt(tenths).sec < (30 * frame) as real + 29.5
    ensures TimeAt(tenths).week == tenths / TENTHS_IN_WEEK
  {
    var x := tenths % TENTHS_IN_WEEK;
    assert tenths == 10 * (604800 * (tenths / TENTHS_IN_WEEK)) + x;
    assert x % 10 == 0;
    assert 300 * (x / 300) <= x <= 300 * (x / 300) + 290;
  }

  /** The beginning of a run (2243-2269): the channel is allocated, and the clock goes on to the first tenth. */
  method Begin(chan: Channel, sbfs: Refreshes, from: nat) returns (grx: GpsTime)
    requires chan.Valid() && Usable(sbfs) && from % 10 == 0
    modifies chan, chan.dwrd
    ensures chan.Valid() && chan.dwrd == old(chan.dwrd)
    ensures grx == TimeAt(from + 1) && FramesBegun(from, from) == 0
    ensures Standing(chan.dwrd[..], chan.g0_week, chan.g0_sec, sbfs, StartAt(from), 0)
  {
    hide TimeAt, StartAt, Standing, WholeMs, FramesBegun, WellFormed;
    grx := IncGpsTime(TimeAt(from), 0.0);
    SameTenth(from, grx);
    RunBegins(sbfs, from);
    chan.sbf := sbfs[0];
    FirstCall(chan, sbfs, from, grx);
    grx := IncGpsTime(grx, 0.1);
    NextTenth(from, grx);
  }

  /** The end of a step (2411-2420, 2466), `tenths` being the time before it: the message is built anew if a frame
      begins, and the clock goes on. */
  method EndStep(chan: Channel, sbfs: Refreshes, from: nat, tenths: nat, grx0: GpsTime, calls0: nat)
    returns (grx: GpsTime, calls: nat)
    requires chan.Valid() && from <= tenths && from % 10 == 0
    requires grx0 == TimeAt(tenths + 1) && calls0 == FramesBegun(from, tenths)
    requires Standing(chan.dwrd[..], chan.g0_week, chan.g0_sec, sbfs, StartAt(from), calls0)
    requires FramesBegun(from, tenths + 1) < |sbfs|
    modifies chan, chan.dwrd
    ensures chan.Valid() && chan.dwrd == old(chan.dwrd)
    ensures grx == TimeAt(tenths + 2) && calls == FramesBegun(from, tenths + 1)
    ensures Standing(chan.dwrd[..], chan.g0_week, chan.g0_sec, sbfs, StartAt(from), calls)
  {
    hide TimeAt, StartAt, WholeMs, FramesBegun, WellFormed;
    grx, calls := grx0, calls0;
    FrameBegins(tenths + 1);
    FramesCounted(from, tenths);
    var igrx := (grx.sec * 10.0 + 0.5).Floor;
    if igrx % 300 == 0 {
      calls := calls + 1;
      SubframesSized(sbfs, calls);
      chan.sbf := sbfs[calls];
      LaterCall(chan, sbfs, from, tenths + 1, grx, calls - 1);
    }
    grx := IncGpsTime(grx, 0.1);
    NextTenth(tenths + 1, grx);
  }

  /** The generator's clock from a whole second on, for any number of steps, with the message calls of one channel
      (gpssim.c 2243-2269, 2411-2420, 2466). `sbfs` holds the source subframes in force at each call. */
  method PlayRun(chan: Channel, sbfs: Refreshes, second: nat, steps: nat) returns (grx: GpsTime, calls: nat)
    requires chan.Valid() && Usable(sbfs)
    requires FramesBegun(10 * second, 10 * second + steps) < |sbfs|
    modifies chan, chan.dwrd
    ensures calls == FramesBegun(10 * second, 10 * second + steps)
    ensures chan.dwrd == old(chan.dwrd) && chan.dwrd.Length == N_DWRD
    ensures Standing(chan.dwrd[..], chan.g0_week, chan.g0_sec, sbfs, StartAt(10 * second), calls)
    ensures InWeek(grx) && TotalSeconds(grx) == second as real + (steps + 1) as real / 10.0
  {
    hide TimeAt, StartAt, Standing, FramesBegun;
    var from := 10 * second;
    grx := Begin(chan, sbfs, from);
    calls := 0;
    for iumd := 0 to steps
      invariant chan.dwrd == old(chan.dwrd) && chan.Valid()
      invariant grx == TimeAt(from + iumd + 1)
      invariant calls == FramesBegun(from, from + iumd)
      invariant Standing(chan.dwrd[..], chan.g0_week, chan.g0_sec, sbfs, StartAt(from), calls)
    {
      MoreFrames(from, from + iumd + 1, from + steps);
      grx, calls := EndStep(chan, sbfs, from, from + iumd, grx, calls);
    }
    TotalOfTenths(from + steps + 1);
  }

  lemma RunBegins(sbfs: Refreshes, from: nat)
    requires Usable(sbfs)
    ensures FramesBegun(from, from) == 0
    ensures |sbfs[0]| == N_SBF && forall i | 0 <= i < N_SBF :: |sbfs[0][i]| == N_DWRD_SBF
  {
  }

  lemma SubframesSized(sbfs: Refreshes, k: nat)
    requires Usable(sbfs) && k < |sbfs|
    ensures |sbfs[k]| == N_SBF && forall i | 0 <= i < N_SBF :: |sbfs[k][i]| == N_DWRD_SBF
  {
  }

  lemma MoreFrames(from: nat, tenths: nat, later: nat)
    requires from <= tenths <= later
    ensures FramesBegun(from, tenths) <= FramesBegun(from, later)
  {
  }
}

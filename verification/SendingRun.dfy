/**
 The samples of a whole run (gpssim.c 2269-2420): at every tenth of a second, each channel's counters are set from its
 last pseudorange and a tenth of a second of samples is sent. The message never runs out before the next buffer, which
 is what the warning at 2345-2348, switched off in the source, is about.
 */
module SendingRun {
  import NavWord
  import NavMessage
  import opened NavStream
  import opened NavRun
  import opened GpsTimes
  import opened CodePhase

  /** Chips to a metre, as the code frequency and the speed of light give them, and as the wavelength does. */
  const CHIPS_PER_METRE: real := 1023000.0 / 299792458.0
  const CHIPS_PER_METRE_L1: real := 1.0 / 1540.0 / 0.190293672798365

  /** Two pseudoranges a tenth of a second apart: between a metre and six seconds of light, changing by less than half
      the speed of light. */
  predicate RangesFit(rho0: real, rho1: real) {
    && 1.0 <= rho0 <= 6.0 * SPEED_OF_LIGHT && 1.0 <= rho1 <= 6.0 * SPEED_OF_LIGHT
    && -0.05 * SPEED_OF_LIGHT <= rho1 - rho0 <= 0.05 * SPEED_OF_LIGHT
  }

  /** 2605-2609: a tenth of a second has n samples. The source sends two million a second. */
  predicate TenthOfSamples(n: nat, delt: real) {
    n >= 1000 && n as real * delt == 0.1
  }

  function CodeFrequency(rho0: real, rho1: real): real {
    CODE_FREQ + (-((rho1 - rho0) / 0.1) / LAMBDA_L1) * CARR_TO_CODE
  }

  lemma SameChips()
    ensures -0.000000000001 <= CHIPS_PER_METRE - CHIPS_PER_METRE_L1 <= 0.000000000001
    ensures 0.0034 <= CHIPS_PER_METRE_L1 <= 0.0035
  {
  }

  /** The chips sent in a tenth of a second. */
  lemma TenthOfChips(rho0: real, rho1: real)
    ensures CodeFrequency(rho0, rho1) * 0.1 == 102300.0 - (rho1 - rho0) * CHIPS_PER_METRE_L1
  {
  }

  lemma StartOfTenth(since: real, rho0: real)
    ensures Tracker.Milliseconds(since, rho0) * 1023.0 == (since + 6.0) * 1023000.0 - rho0 * CHIPS_PER_METRE
  {
  }

  /** What is sent before the end of the tenth is what had left the satellite a range ago. */
  lemma TenthFits(since: real, rho0: real, rho1: real)
    requires 0.0 <= since <= 29.9 && RangesFit(rho0, rho1)
    ensures var ms := Tracker.Milliseconds(since, rho0);
            && 0.0 <= ms < 36000.0
            && 0.0 <= CodeFrequency(rho0, rho1) * 0.1 < 1_000_000.0
            && InBuffer(ms * 1023.0 + CodeFrequency(rho0, rho1) * 0.1)
  {
    hide CodeFrequency, Tracker.Milliseconds;
    SameChips();
    TenthOfChips(rho0, rho1);
    StartOfTenth(since, rho0);
    var k, k1 := CHIPS_PER_METRE, CHIPS_PER_METRE_L1;
    var drift := rho0 * (k - k1);
    assert rho0 * k + (rho1 - rho0) * k1 == rho1 * k1 + drift;
    Bounded(rho0, k - k1, 6.0 * SPEED_OF_LIGHT, 0.000000000001);
    Bounded(rho1 - rho0, k1, 0.05 * SPEED_OF_LIGHT, 0.0035);
    AtLeast(rho1, k1);
    AtMost(rho0, k);
  }

  lemma Bounded(x: real, y: real, a: real, b: real)
    requires -a <= x <= a && -b <= y <= b
    ensures -(a * b) <= x * y <= a * b
  {
  }

  lemma AtLeast(x: real, y: real)
    requires x >= 1.0 && y >= 0.0034
    ensures x * y >= 0.0034
  {
  }

  lemma AtMost(rho0: real, k: real)
    requires 1.0 <= rho0 <= 6.0 * SPEED_OF_LIGHT && k == CHIPS_PER_METRE
    ensures 0.0 < rho0 * k <= 6.0 * 1023000.0
  {
  }

  // ------------------------------------------------------------ where a tenth lies in its buffer

  /** A run's time lies in the frame its last call was for: from its start to a tenth before its end. */
  lemma SinceFrameStart(from: nat, tenths: nat)
    requires from <= tenths
    ensures var start, k := StartAt(from), FramesBegun(from, tenths);
            SubGpsTime(TimeAt(tenths), GpsTime(CallWeek(start, k), (30 * CallFrame(start, k)) as real))
            == (tenths % 300) as real / 10.0
  {
    hide CallWeek, CallFrame, StartAt, FramesBegun, TimeAt, SubGpsTime, ReferenceTime;
    var start, k := StartAt(from), FramesBegun(from, tenths);
    ElapsedSinceReference(TimeAt(tenths), start, k);
    TotalOfTenths(tenths);
    FirstReference(from);
    FramesSince(from, tenths);
  }

  lemma FirstReference(from: nat)
    ensures ReferenceTime(StartAt(from), 0) == 30 * (from / 300)
  {
    var w, x := from / TENTHS_IN_WEEK, from % TENTHS_IN_WEEK;
    FrameNumber(w, x);
    assert x / 300 < FRAMES_IN_WEEK;
  }

  lemma FramesSince(from: nat, tenths: nat)
    requires from <= tenths
    ensures tenths == 300 * (from / 300 + FramesBegun(from, tenths)) + tenths % 300
  {
  }

  // ------------------------------------------------------------ one tenth of a second

  lemma StepFits(c: Chan, n: nat, delt: real)
    requires TenthOfSamples(n, delt) && 0.0 <= c.f_code * 0.1 < 1_000_000.0
    ensures Multiple(n, CodeStep(c, delt)) == c.f_code * 0.1 && 0.0 <= CodeStep(c, delt) < 1000.0
  {
    assert n as real * (c.f_code * delt) == c.f_code * (n as real * delt);
    Share(n as real, c.f_code * delt);
  }

  lemma Share(r: real, x: real)
    requires r >= 1000.0
    ensures r * x >= 0.0 ==> x >= 0.0
    ensures r * x < 1_000_000.0 ==> x < 1000.0
  {
  }

  /** A channel whose counters have just been set can send the whole tenth. */
  lemma TenthCanBeSent(c: Chan, since: real, rho0: real, rho1: real, n: nat, delt: real)
    requires Synced(c) && TotalPhase(c) == Tracker.Milliseconds(since, rho0) * 1023.0
    requires c.f_code == CodeFrequency(rho0, rho1) && 0 <= c.carr_phase < 0x1_0000_0000
    requires 0.0 <= since <= 29.9 && RangesFit(rho0, rho1) && TenthOfSamples(n, delt)
    ensures CanSend(c, n, delt)
  {
    hide Synced, TotalPhase, InBuffer, Tracker.Milliseconds, CodeFrequency, RangesFit, TenthOfSamples, Multiple,
         CodeStep;
    TenthFits(since, rho0, rho1);
    StepFits(c, n, delt);
  }

  /** A channel as the loop over the channels finds it. */
  ghost predicate Ready(c: Chan, rho0: real, rho1: real) {
    Tables(c) && 0 <= c.carr_phase < 0x1_0000_0000 && RangesFit(rho0, rho1)
  }

  /** A channel as that loop leaves it: able to send the tenth, from the phase of its last pseudorange on. */
  ghost predicate Set(before: Chan, c: Chan, since: real, rho0: real, rho1: real, n: nat, delt: real) {
    && c.prn == before.prn && c.ca == before.ca && c.dwrd == before.dwrd && c.carr_phase == before.carr_phase
    && CanSend(c, n, delt)
    && TotalPhase(c) == Tracker.Milliseconds(since, rho0) * 1023.0 && c.f_code == CodeFrequency(rho0, rho1)
  }

  /** gpssim.c 2280-2293 for one channel, at a time of the run; `step` is the carrier's step. */
  method SetChannel(chan: Tracker, from: nat, tenths: nat, range: real, step: int, n: nat, delt: real)
    requires from <= tenths && TenthOfSamples(n, delt) && Ready(chan.View(), chan.rho0, range)
    modifies chan
    ensures Set(old(chan.View()), chan.View(), (tenths % 300) as real / 10.0, old(chan.rho0), range, n, delt)
    ensures chan.rho0 == range && chan.carr_phasestep == step
  {
    hide Synced, TotalPhase, InBuffer, Tracker.Milliseconds, RangesFit, TenthOfSamples, CanSend, CallWeek, CallFrame,
         StartAt, FramesBegun, TimeAt, SubGpsTime;
    ghost var before, rho0 := chan.View(), chan.rho0;
    var start, k := StartAt(from), FramesBegun(from, tenths);
    var since := SubGpsTime(TimeAt(tenths), GpsTime(CallWeek(start, k), (30 * CallFrame(start, k)) as real));
    SinceFrameStart(from, tenths);
    TenthFits(since, rho0, range);
    chan.ComputeCodePhase(range, 0.1, since);
    ghost var c := chan.View();
    chan.carr_phasestep := step;
    SameButStep(c, chan.View());
    TenthCanBeSent(chan.View(), since, rho0, range, n, delt);
  }

  lemma SameButStep(c: Chan, d: Chan)
    requires d == c.(carr_phasestep := d.carr_phasestep)
    ensures TotalPhase(d) == TotalPhase(c) && (Synced(c) ==> Synced(d))
  {
    hide InBuffer, ChipAt, DataBitAt;
  }

  // ------------------------------------------------------------ a whole run

  /** The channel's state from which tenth m of a run is sent: it has the buffer in force, stands at the phase that left
      the satellite a range ago, and has message enough. */
  ghost predicate StateAt(c: Chan, ca: seq<int>, sbfs: Refreshes, from: nat, m: nat, ranges: seq<real>, n: nat,
                          delt: real)
  {
    && m + 1 < |ranges| && Usable(sbfs) && FramesBegun(from, from + m) < |sbfs|
    && c.ca == ca && c.dwrd == Buffer(sbfs, StartAt(from), FramesBegun(from, from + m))
    && CanSend(c, n, delt)
    && TotalPhase(c) == Tracker.Milliseconds(((from + m) % 300) as real / 10.0, ranges[m]) * 1023.0
    && c.f_code == CodeFrequency(ranges[m], ranges[m + 1])
  }

  /** Tenth m is sent: every sample of its buffer is the closed form's. */
  ghost predicate TenthSent(c: Chan, gain: int, cosTable: seq<int>, sinTable: seq<int>, n: nat, delt: real,
                            buf: seq<int>)
  {
    |buf| == 2 * n && c.prn > 0 && SamplesHold([c], n, delt, [gain], cosTable, sinTable, buf)
  }

  lemma ViewsOfOne(t: Tracker)
    ensures Views([t]) == [t.View()]
  {
    assert [t][1..] == [];
  }

  /** One channel's part of a step (2280-2381). */
  method SendTenth(t: Tracker, from: nat, tenths: nat, range: real, step: int, gain: int, n: nat, delt: real,
                   cosTable: seq<int>, sinTable: seq<int>)
    returns (buf: seq<int>, ghost c: Chan)
    requires from <= tenths && TenthOfSamples(n, delt) && Ready(t.View(), t.rho0, range) && t.prn > 0
    requires |cosTable| == 512 && |sinTable| == 512
    modifies t
    ensures Set(old(t.View()), c, (tenths % 300) as real / 10.0, old(t.rho0), range, n, delt)
    ensures TenthSent(c, gain, cosTable, sinTable, n, delt, buf)
    ensures Later(c, n, delt, t.View()) && t.rho0 == range
  {
    hide Synced, TotalPhase, InBuffer, Tracker.Milliseconds, RangesFit, TenthOfSamples, CanSend, SamplesHold, Later;
    SetChannel(t, from, tenths, range, step, n, delt);
    c := t.View();
    ViewsOfOne(t);
    var iq_buff := new int[2 * n];
    FillBuffer([t], delt, [gain], cosTable, sinTable, iq_buff, n);
    assert Moved(c, n, delt, [t][0].View());
    buf := iq_buff[..];
  }

  lemma StillReady(c: Chan, n: nat, delt: real, c': Chan, rho0: real, rho1: real)
    requires CanSend(c, n, delt) && Later(c, n, delt, c') && RangesFit(rho0, rho1)
    ensures Ready(c', rho0, rho1) && c'.prn == c.prn && c'.ca == c.ca
  {
    hide InBuffer, TotalPhase, ChipAt, DataBitAt, RangesFit, Multiple;
    WrapRange(c.carr_phase + n * c.carr_phasestep);
  }

  /** A run of one channel from a whole second on, for any number of steps and across any number of message calls and
      week ends. `ranges` are the pseudoranges at the start and at every step, `gains` and `steps` what the source works
      out from them for each. Every tenth is sent from the buffer in force, in step with the transmission time, and
      nothing is read past the buffer. */
  method SendRun(chan: NavMessage.Channel, t: Tracker, sbfs: Refreshes, second: nat, ranges: seq<real>, gains: seq<int>,
                 steps: seq<int>, n: nat, delt: real, cosTable: seq<int>, sinTable: seq<int>)
    returns (sent: seq<seq<int>>, ghost states: seq<Chan>)
    requires chan.Valid() && Usable(sbfs) && t.prn > 0 && |t.ca| == CA_SEQ_LEN && 0 <= t.carr_phase < 0x1_0000_0000
    requires |steps| == |gains| && |ranges| == |gains| + 1 && t.rho0 == ranges[0]
    requires FramesBegun(10 * second, 10 * second + |gains|) < |sbfs|
    requires forall m | 0 <= m < |gains| :: RangesFit(ranges[m], ranges[m + 1])
    requires TenthOfSamples(n, delt) && |cosTable| == 512 && |sinTable| == 512
    modifies chan, chan.dwrd, t
    ensures |sent| == |states| == |gains|
    ensures forall m | 0 <= m < |gains| :: StateAt(states[m], old(t.ca), sbfs, 10 * second, m, ranges, n, delt)
    ensures forall m | 0 <= m < |gains| :: TenthSent(states[m], gains[m], cosTable, sinTable, n, delt, sent[m])
  {
    hide TimeAt, StartAt, FramesBegun, Synced, TotalPhase, InBuffer, Tracker.Milliseconds, RangesFit, TenthOfSamples,
         CanSend, TenthSent, StateAt, Standing, Later, Set, CodeFrequency;
    var from := 10 * second;
    ghost var ca := t.ca;
    var grx := NavRun.Begin(chan, sbfs, from);
    var calls: nat := 0;
    t.dwrd := chan.dwrd[..];
    sent, states := [], [];
    for iumd := 0 to |gains|
      invariant chan.dwrd == old(chan.dwrd) && chan.Valid()
      invariant grx == TimeAt(from + iumd + 1) && calls == FramesBegun(from, from + iumd)
      invariant Standing(chan.dwrd[..], chan.g0_week, chan.g0_sec, sbfs, StartAt(from), calls)
      invariant t.dwrd == chan.dwrd[..] && t.ca == ca && t.prn > 0 && t.rho0 == ranges[iumd]
      invariant 0 <= t.carr_phase < 0x1_0000_0000
      invariant |sent| == |states| == iumd
      invariant forall m | 0 <= m < iumd :: StateAt(states[m], ca, sbfs, from, m, ranges, n, delt)
      invariant forall m | 0 <= m < iumd :: TenthSent(states[m], gains[m], cosTable, sinTable, n, delt, sent[m])
    {
      MoreFrames(from, from + iumd, from + |gains|);
      MoreFrames(from, from + iumd + 1, from + |gains|);
      ghost var before := t.View();
      var buf;
      ghost var c;
      buf, c := SendTenth(t, from, from + iumd, ranges[iumd + 1], steps[iumd], gains[iumd], n, delt, cosTable,
                          sinTable);
      SetIsState(before, c, chan.dwrd[..], chan.g0_week, chan.g0_sec, ca, sbfs, from, iumd, ranges, n, delt);
      StillReady(c, n, delt, t.View(), ranges[iumd], ranges[iumd + 1]);
      sent, states := sent + [buf], states + [c];
      grx, calls := NavRun.EndStep(chan, sbfs, from, from + iumd, grx, calls);
      t.dwrd := chan.dwrd[..];
    }
  }

  lemma SetIsState(before: Chan, c: Chan, dwrd: seq<NavWord.Word>, week: nat, sec: nat, ca: seq<int>, sbfs: Refreshes,
                   from: nat, m: nat, ranges: seq<real>, n: nat, delt: real)
    requires m + 1 < |ranges| && Usable(sbfs) && FramesBegun(from, from + m) < |sbfs|
    requires before.ca == ca && before.dwrd == dwrd
    requires Standing(dwrd, week, sec, sbfs, StartAt(from), FramesBegun(from, from + m))
    requires Set(before, c, ((from + m) % 300) as real / 10.0, ranges[m], ranges[m + 1], n, delt)
    ensures StateAt(c, ca, sbfs, from, m, ranges, n, delt)
    ensures CanSend(c, n, delt) && c.prn == before.prn && c.ca == ca
  {
    hide CanSend, TotalPhase, Tracker.Milliseconds, CodeFrequency, StartAt, FramesBegun;
  }

  // ------------------------------------------------------------ the bit on the air

  /** At every tenth of a run the data bit is the one that the message stream has at the GPS time of transmission: the
      time of reception less the range at the speed of light, in bits of 20 ms. */
  lemma BitOnAir(c: Chan, ca: seq<int>, sbfs: Refreshes, from: nat, m: nat, ranges: seq<real>, n: nat, delt: real)
    requires StateAt(c, ca, sbfs, from, m, ranges, n, delt) && RangesFit(ranges[m], ranges[m + 1])
    ensures var start, k := StartAt(from), FramesBegun(from, from + m);
            var transmitted := TotalSeconds(TimeAt(from + m)) - ranges[m] / SPEED_OF_LIGHT;
            var place := BitPlace(ReferenceTime(start, 0), (50.0 * transmitted).Floor);
            0 <= place < 30 * |Stream(sbfs, start, k)| &&
            c.dataBit == if BitAt(Stream(sbfs, start, k), place) then 1 else -1
  {
    hide Stream, Buffer, BitAt, StartAt, FramesBegun, TimeAt, InBuffer, TotalPhase, Synced, CodeFrequency, RangesFit,
         Tracker.Milliseconds, ReferenceTime, BitPlace;
    var start, k := StartAt(from), FramesBegun(from, from + m);
    var since := ((from + m) % 300) as real / 10.0;
    var ms := Tracker.Milliseconds(since, ranges[m]);
    TenthFits(since, ranges[m], ranges[m + 1]);
    SentBitIsStreamBit(c, ms, sbfs, start, k, ReferenceTime(start, 0));
    TransmissionBit(from, m, ranges[m]);
  }

  lemma TransmissionBit(from: nat, m: nat, range: real)
    ensures var k := FramesBegun(from, from + m);
            var g := ReferenceTime(StartAt(from), 0);
            var ms := Tracker.Milliseconds(((from + m) % 300) as real / 10.0, range);
            ms.Floor / 20 + 50 * (g + 30 * k) - 300
            == (50.0 * (TotalSeconds(TimeAt(from + m)) - range / SPEED_OF_LIGHT)).Floor
  {
    hide ReferenceTime, StartAt, TimeAt, FramesBegun;
    var k := FramesBegun(from, from + m);
    var since := ((from + m) % 300) as real / 10.0;
    FirstReference(from);
    FramesSince(from, from + m);
    TotalOfTenths(from + m);
    var frame := from / 300 + k;
    var x := since - range / SPEED_OF_LIGHT;
    FloorOfTwentieth((x + 6.0) * 1000.0);
    assert (x + 6.0) * 1000.0 / 20.0 == 50.0 * x + 300.0;
    FloorPlus(50.0 * x + 300.0, 1500 * frame - 300);
    assert 50.0 * (TotalSeconds(TimeAt(from + m)) - range / SPEED_OF_LIGHT) == 50.0 * x + (1500 * frame) as real;
  }

  lemma FloorOfTwentieth(x: real)
    ensures x.Floor / 20 == (x / 20.0).Floor
  {
    var q := x.Floor / 20;
    assert 20 * q <= x.Floor < 20 * q + 20;
    FloorBetween(x / 20.0, q, q + 1);
  }

  // ------------------------------------------------------------ from one tenth to the next

  /** Chips since the start of the run's stream: a message call moves the buffer's start on by 30 seconds. */
  function StreamPhase(phase: real, calls: nat): real {
    phase + 30_690_000.0 * calls as real
  }

  lemma DifferentChips()
    ensures CHIPS_PER_METRE != CHIPS_PER_METRE_L1
  {
  }

  /** Where tenth m ends is where tenth m + 1 begins, but for what the range changed by times the difference of two
      constants: the signal runs on exactly when the range is unchanged, and never jumps by a ten-thousandth of a chip.
      A message call between the two makes no difference. */
  lemma TenthsMeet(c: Chan, c': Chan, ca: seq<int>, sbfs: Refreshes, from: nat, m: nat, ranges: seq<real>, n: nat,
                   delt: real)
    requires StateAt(c, ca, sbfs, from, m, ranges, n, delt) && StateAt(c', ca, sbfs, from, m + 1, ranges, n, delt)
    requires RangesFit(ranges[m], ranges[m + 1]) && TenthOfSamples(n, delt)
    ensures var jump := StreamPhase(TotalPhase(c'), FramesBegun(from, from + m + 1))
                      - StreamPhase(PhaseAfter(c, n, delt), FramesBegun(from, from + m));
            && jump == (ranges[m + 1] - ranges[m]) * (CHIPS_PER_METRE_L1 - CHIPS_PER_METRE)
            && (jump == 0.0 <==> ranges[m + 1] == ranges[m])
            && -0.0001 < jump < 0.0001
  {
    hide TotalPhase, Tracker.Milliseconds, CodeFrequency, FramesBegun, Multiple, CodeStep, TenthOfSamples, CanSend;
    var rho0, rho1 := ranges[m], ranges[m + 1];
    var since, since' := ((from + m) % 300) as real / 10.0, ((from + (m + 1)) % 300) as real / 10.0;
    TenthFits(since, rho0, rho1);
    StepFits(c, n, delt);
    StartOfTenth(since, rho0);
    StartOfTenth(since', rho1);
    TenthOfChips(rho0, rho1);
    NextSince(from, m);
    var d := rho1 - rho0;
    assert d * (CHIPS_PER_METRE_L1 - CHIPS_PER_METRE)
        == d * CHIPS_PER_METRE_L1 - rho1 * CHIPS_PER_METRE + rho0 * CHIPS_PER_METRE;
    SameChips();
    DifferentChips();
    Bounded(d, CHIPS_PER_METRE_L1 - CHIPS_PER_METRE, 0.05 * SPEED_OF_LIGHT, 0.000000000001);
    NoProduct(d, CHIPS_PER_METRE_L1 - CHIPS_PER_METRE);
  }

  lemma NoProduct(x: real, y: real)
    requires y != 0.0
    ensures x * y == 0.0 <==> x == 0.0
  {
  }

  lemma NextSince(from: nat, m: nat)
    ensures ((from + (m + 1)) % 300) as real / 10.0 + 30.0 * FramesBegun(from, from + m + 1) as real
         == ((from + m) % 300) as real / 10.0 + 30.0 * FramesBegun(from, from + m) as real + 0.1
  {
    hide FramesBegun;
    FramesSince(from, from + m);
    FramesSince(from, from + m + 1);
  }
}

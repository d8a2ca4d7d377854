/**
 The baseband sample loop: code, carrier and data bit counters moved sample by sample
 (gpssim.c 1338-1370 and 2307-2381), against their closed form in the total code phase.
 */
module CodePhase {
  import opened NavWord
  import opened NavStream

  const CA_SEQ_LEN: int := 1023
  const N_DWRD: int := 60
  const SPEED_OF_LIGHT: real := 299792458.0
  const LAMBDA_L1: real := 0.190293672798365
  const CODE_FREQ: real := 1023000.0
  const CARR_TO_CODE: real := 1.0 / 1540.0

  /** The counters of channel_t that the loop moves, with the tables they index. */
  datatype Chan = Chan(
    prn: int, ca: seq<int>, dwrd: seq<Word>,
    f_code: real, carr_phase: int, carr_phasestep: int,
    code_phase: real, icode: int, ibit: int, iword: int, dataBit: int, codeCA: int)

  // ------------------------------------------------------------ the closed form

  /** Chips since the start of the word buffer. */
  function TotalPhase(c: Chan): real {
    c.code_phase + (CA_SEQ_LEN * CodeCount(c)) as real
  }

  /** Whole codes (milliseconds) since the start of the word buffer. */
  function CodeCount(c: Chan): int {
    c.icode + 20 * c.ibit + 600 * c.iword
  }

  /** The chip sent at total phase t. */
  function ChipAt(ca: seq<int>, t: real): int
    requires |ca| == CA_SEQ_LEN
  {
    ca[t.Floor % CA_SEQ_LEN] * 2 - 1
  }

  /** Twenty codes to a data bit. */
  function BitIndex(t: real): int {
    t.Floor / CA_SEQ_LEN / 20
  }

  predicate InBuffer(t: real) {
    0.0 <= t < (CA_SEQ_LEN * 600 * N_DWRD) as real
  }

  /** The data bit sent at total phase t. */
  function DataBitAt(dwrd: seq<Word>, t: real): int
    requires |dwrd| == N_DWRD && InBuffer(t)
  {
    BitIndexFits(t);
    if BitAt(dwrd, BitIndex(t)) then 1 else -1
  }

  lemma BitIndexFits(t: real)
    requires InBuffer(t)
    ensures 0 <= BitIndex(t) < 1800
  {
    BitIndexBounds(t.Floor);
  }

  lemma BitIndexBounds(f: int)
    requires 0 <= f < 1023 * 36000
    ensures 0 <= f / 1023 / 20 < 1800
  {
    var m := f / 1023;
    assert 1023 * m <= f < 1023 * m + 1023;
    assert 0 <= m < 36000;
  }

  predicate Tables(c: Chan) {
    |c.ca| == CA_SEQ_LEN && |c.dwrd| == N_DWRD
  }

  predicate Counters(c: Chan) {
    0.0 <= c.code_phase < CA_SEQ_LEN as real &&
    0 <= c.icode < 20 && 0 <= c.ibit < 30 && 0 <= c.iword < N_DWRD
  }

  /** The channel sends what the closed form says for its total phase. */
  predicate Synced(c: Chan) {
    Tables(c) && Counters(c) && InBuffer(TotalPhase(c)) &&
    c.codeCA == ChipAt(c.ca, TotalPhase(c)) && c.dataBit == DataBitAt(c.dwrd, TotalPhase(c))
  }

  // ------------------------------------------------------------ one sample

  /** gpssim.c 2353: the data bit under the counters. */
  function CurrentBit(dwrd: seq<Word>, iword: int, ibit: int): int
    requires |dwrd| == N_DWRD && 0 <= iword < N_DWRD && 0 <= ibit < 30
  {
    if MessageBit(dwrd[iword], ibit) then 1 else -1
  }

  /** Unsigned 32-bit wrap-around of the carrier phase. */
  function Wrap32(x: int): int {
    x % 0x1_0000_0000
  }

  /** The step the code phase takes in one sample. */
  function CodeStep(c: Chan, delt: real): real {
    c.f_code * delt
  }

  /** How the counters stand against the total phase. */
  lemma PhaseParts(c: Chan)
    requires Tables(c) && Counters(c)
    ensures InBuffer(TotalPhase(c))
    ensures TotalPhase(c).Floor == c.code_phase.Floor + CA_SEQ_LEN * CodeCount(c)
    ensures ChipAt(c.ca, TotalPhase(c)) == c.ca[c.code_phase.Floor] * 2 - 1
    ensures BitIndex(TotalPhase(c)) == c.ibit + 30 * c.iword
    ensures DataBitAt(c.dwrd, TotalPhase(c)) == CurrentBit(c.dwrd, c.iword, c.ibit)
  {
    hide MessageBit;
    var m := CodeCount(c);
    FloorPlus(c.code_phase, CA_SEQ_LEN * m);
    var f := c.code_phase.Floor;
    assert 0 <= f < 1023;
    assert (f + 1023 * m) / 1023 == m && (f + 1023 * m) % 1023 == f;
    assert m / 20 == c.ibit + 30 * c.iword;
    assert (c.ibit + 30 * c.iword) / 30 == c.iword && (c.ibit + 30 * c.iword) % 30 == c.ibit;
  }

  lemma FloorPlus(x: real, k: int)
    ensures (x + k as real).Floor == x.Floor + k
  {
  }

  // ------------------------------------------------------------ n samples on

  /** The channel n samples later: same tables, the total phase further by n steps, the carrier by n of its
      own, and in step with the closed form. */
  ghost predicate Later(c: Chan, n: nat, delt: real, c': Chan) {
    Synced(c') && c'.prn == c.prn && c'.ca == c.ca && c'.dwrd == c.dwrd &&
    c'.f_code == c.f_code && c'.carr_phasestep == c.carr_phasestep &&
    TotalPhase(c') == PhaseAfter(c, n, delt) && c'.carr_phase == CarrierAfter(c, n)
  }

  function Multiple(n: nat, x: real): real {
    n as real * x
  }

  function PhaseAfter(c: Chan, n: nat, delt: real): real {
    TotalPhase(c) + Multiple(n, CodeStep(c, delt))
  }

  function CarrierAfter(c: Chan, n: nat): int {
    Wrap32(c.carr_phase + n * c.carr_phasestep)
  }

  /** What the caller sees to: a live channel in step, moving less than a code per sample, and enough message
      left in the buffer. */
  ghost predicate CanSend(c: Chan, n: nat, delt: real) {
    Synced(c) && 0 <= c.carr_phase < 0x1_0000_0000 &&
    0.0 <= CodeStep(c, delt) < CA_SEQ_LEN as real && InBuffer(PhaseAfter(c, n, delt))
  }

  lemma MultipleSteps(n: nat, x: real)
    ensures Multiple(0, x) == 0.0 && Multiple(1, x) == x && Multiple(n + 1, x) == Multiple(n, x) + x
  {
  }

  lemma MultipleGrows(i: nat, n: nat, x: real)
    requires i <= n && x >= 0.0
    ensures 0.0 <= Multiple(i, x) <= Multiple(n, x)
  {
  }

  lemma WrapTwice(x: int, y: int)
    ensures Wrap32(Wrap32(x) + y) == Wrap32(x + y)
  {
  }

  lemma NextCarrier(c: Chan, n: nat)
    ensures Wrap32(CarrierAfter(c, n) + c.carr_phasestep) == CarrierAfter(c, n + 1)
  {
    hide Wrap32;
    WrapTwice(c.carr_phase + n * c.carr_phasestep, c.carr_phasestep);
    assert (n + 1) * c.carr_phasestep == n * c.carr_phasestep + c.carr_phasestep;
  }

  lemma LaterStarts(c: Chan, delt: real)
    requires CanSend(c, 0, delt)
    ensures Later(c, 0, delt, c)
  {
    hide Synced, TotalPhase, Multiple;
    MultipleSteps(0, CodeStep(c, delt));
    assert 0 * c.carr_phasestep == 0;
  }

  /** One more sample. */
  lemma LaterByOne(c: Chan, n: nat, delt: real, c1: Chan, c2: Chan)
    requires Later(c, n, delt, c1) && Later(c1, 1, delt, c2)
    ensures Later(c, n + 1, delt, c2)
  {
    hide Synced, TotalPhase, Multiple, Wrap32;
    MultipleSteps(n, CodeStep(c, delt));
    NextCarrier(c, n);
    assert CodeStep(c1, delt) == CodeStep(c, delt);
    assert TotalPhase(c2) == PhaseAfter(c, n + 1, delt);
    assert c2.carr_phase == CarrierAfter(c, n + 1);
  }

  /** With samples to spare at the end there is room for each one on the way. */
  lemma RoomOnTheWay(c: Chan, n: nat, i: nat, delt: real)
    requires CanSend(c, n, delt) && i <= n
    ensures InBuffer(PhaseAfter(c, i, delt))
  {
    hide Synced, TotalPhase, Multiple;
    SyncedInBuffer(c);
    MultipleGrows(i, n, CodeStep(c, delt));
  }

  lemma SyncedInBuffer(c: Chan)
    requires Synced(c)
    ensures InBuffer(TotalPhase(c))
  {
  }

  /** A channel on its way can send the next sample. */
  lemma CanSendNext(c: Chan, n: nat, i: nat, delt: real, c1: Chan)
    requires CanSend(c, n, delt) && i < n && Later(c, i, delt, c1)
    ensures CanSend(c1, 1, delt)
  {
    hide Synced, TotalPhase, Multiple, InBuffer;
    RoomOnTheWay(c, n, i + 1, delt);
    MultipleSteps(i, CodeStep(c, delt));
    MultipleSteps(0, CodeStep(c, delt));
    WrapRange(c.carr_phase + i * c.carr_phasestep);
    assert CodeStep(c1, delt) == CodeStep(c, delt);
    assert PhaseAfter(c1, 1, delt) == PhaseAfter(c, i + 1, delt);
  }

  lemma WrapRange(x: int)
    ensures 0 <= Wrap32(x) < 0x1_0000_0000
  {
  }

  // ------------------------------------------------------------ the counters

  /** The code, bit and word counters after the code phase has grown by `step`: gpssim.c 2329-2354. */
  function Stepped(c: Chan, phase: real): Chan {
    if phase < CA_SEQ_LEN as real then c.(code_phase := phase)
    else
      var d := c.(code_phase := phase - CA_SEQ_LEN as real);
      if d.icode + 1 < 20 then d.(icode := d.icode + 1)
      else if d.ibit + 1 < 30 then d.(icode := 0, ibit := d.ibit + 1)
      else d.(icode := 0, ibit := 0, iword := d.iword + 1)
  }

  /** Whatever carries, the total phase has grown by exactly the step. */
  lemma SteppedPhase(c: Chan, phase: real)
    requires Tables(c) && Counters(c) && c.code_phase <= phase < c.code_phase + CA_SEQ_LEN as real
    ensures TotalPhase(Stepped(c, phase)) == TotalPhase(c) + (phase - c.code_phase)
    ensures InBuffer(TotalPhase(c) + (phase - c.code_phase)) ==> Counters(Stepped(c, phase))
  {
    var d := Stepped(c, phase);
    if phase >= CA_SEQ_LEN as real {
      assert CodeCount(d) == CodeCount(c) + 1;
      if d.iword == N_DWRD {
        assert CodeCount(d) == 36000;
      }
    }
  }

  /** One channel's entry of chan[], moved in place. */
  class Tracker {
    var prn: int
    var ca: seq<int>
    var dwrd: seq<Word>
    var f_carr: real
    var f_code: real
    var carr_phase: int
    var carr_phasestep: int
    var code_phase: real
    var icode: int
    var ibit: int
    var iword: int
    var dataBit: int
    var codeCA: int
    var rho0: real

    ghost function View(): Chan
      reads this
    {
      Chan(prn, ca, dwrd, f_code, carr_phase, carr_phasestep, code_phase, icode, ibit, iword, dataBit, codeCA)
    }

    /** gpssim.c 1352-1363: milliseconds of message sent so far, `since` being the time from the reference time
        to the last pseudorange. */
    static function Milliseconds(since: real, range: real): real {
      ((since + 6.0) - range / SPEED_OF_LIGHT) * 1000.0
    }

    /** gpssim.c 1338-1370: the counters start exactly at the phase of the transmission time. */
    method ComputeCodePhase(range: real, dt: real, since: real)
      requires dt != 0.0 && Tables(View()) && 0.0 <= Milliseconds(since, rho0) < 36000.0
      modifies this`f_carr, this`f_code, this`code_phase, this`iword, this`ibit, this`icode, this`codeCA, this`dataBit,
               this`rho0
      ensures Synced(View()) && TotalPhase(View()) == old(Milliseconds(since, rho0)) * 1023.0
      ensures f_carr == -((range - old(rho0)) / dt) / LAMBDA_L1 && f_code == CODE_FREQ + f_carr * CARR_TO_CODE
      ensures rho0 == range
    {
      hide MessageBit, InBuffer, ChipAt, DataBitAt, CurrentBit;
      var rhorate := (range - rho0) / dt;
      f_carr := -rhorate / LAMBDA_L1;
      f_code := CODE_FREQ + f_carr * CARR_TO_CODE;
      SetCounters(Milliseconds(since, rho0));
      codeCA := ca[code_phase.Floor] * 2 - 1;
      dataBit := CurrentBit(dwrd, iword, ibit);
      PhaseParts(View());
      rho0 := range;
    }

    /** gpssim.c 1354-1363. */
    method SetCounters(ms: real)
      requires 0.0 <= ms < 36000.0
      modifies this`code_phase, this`iword, this`ibit, this`icode
      ensures Counters(View()) && TotalPhase(View()) == ms * 1023.0
    {
      var ims := ms.Floor;
      code_phase := (ms - ims as real) * CA_SEQ_LEN as real;
      iword := ims / 600;
      ghost var all := ims;
      ims := ims - iword * 600;
      ibit := ims / 20;
      ims := ims - ibit * 20;
      icode := ims;
      SplitMilliseconds(all, iword, ibit, icode);
    }

    /** gpssim.c 2329-2355: the code phase and the counters it carries into. */
    method StepCode(delt: real)
      requires Tables(View()) && Counters(View()) && dataBit == CurrentBit(dwrd, iword, ibit)
      requires 0.0 <= CodeStep(View(), delt) < CA_SEQ_LEN as real
      requires InBuffer(TotalPhase(View()) + CodeStep(View(), delt))
      modifies this`code_phase, this`icode, this`ibit, this`iword, this`dataBit
      ensures Counters(View()) && TotalPhase(View()) == old(TotalPhase(View()) + CodeStep(View(), delt))
      ensures dataBit == CurrentBit(dwrd, iword, ibit)
    {
      hide MessageBit, InBuffer, TotalPhase;
      ghost var was, phase := View(), code_phase + f_code * delt;
      SteppedPhase(was, phase);
      code_phase := code_phase + f_code * delt;
      if code_phase >= CA_SEQ_LEN as real {
        code_phase := code_phase - CA_SEQ_LEN as real;
        icode := icode + 1;
        if icode >= 20 {
          icode := 0;
          ibit := ibit + 1;
          if ibit >= 30 {
            ibit := 0;
            iword := iword + 1;
          }
          assert View() == Stepped(was, phase);
          dataBit := if MessageBit(dwrd[iword], ibit) then 1 else -1;
        }
      }
      SameCounters(Stepped(was, phase), View());
    }

    /** gpssim.c 2329-2369: one sample on. */
    method Tick(delt: real)
      requires CanSend(View(), 1, delt)
      modifies this`code_phase, this`icode, this`ibit, this`iword, this`dataBit, this`codeCA, this`carr_phase
      ensures Later(old(View()), 1, delt, View())
    {
      hide MessageBit, TotalPhase, InBuffer, Multiple, ChipAt, DataBitAt, CurrentBit, Wrap32;
      PhaseParts(View());
      MultipleSteps(0, CodeStep(View(), delt));
      StepCode(delt);
      ghost var moved := View();
      codeCA := ca[code_phase.Floor] * 2 - 1;
      carr_phase := Wrap32(carr_phase + carr_phasestep);
      SameCounters(moved, View());
      PhaseParts(View());
      assert TotalPhase(View()) == PhaseAfter(old(View()), 1, delt);
      assert carr_phase == CarrierAfter(old(View()), 1);
    }
  }

  // ------------------------------------------------------------ setting the counters

  lemma SplitMilliseconds(ims: int, iword: int, ibit: int, icode: int)
    requires 0 <= ims < 600 * N_DWRD
    requires iword == ims / 600 && ibit == (ims - iword * 600) / 20 && icode == ims - iword * 600 - ibit * 20
    ensures 0 <= iword < N_DWRD && 0 <= ibit < 30 && 0 <= icode < 20
    ensures icode + 20 * ibit + 600 * iword == ims
  {
    var rest := ims - iword * 600;
    assert 600 * iword <= ims < 600 * iword + 600;
    assert 20 * ibit <= rest < 20 * ibit + 20;
  }

  lemma SameCounters(c: Chan, d: Chan)
    requires c.code_phase == d.code_phase && c.icode == d.icode && c.ibit == d.ibit && c.iword == d.iword
    ensures TotalPhase(c) == TotalPhase(d) && Counters(c) == Counters(d)
  {
  }

  // ------------------------------------------------------------ the samples

  /** gpssim.c 2319: the carrier table is entered by the top nine bits of the phase. */
  function CarrierIndex(carr_phase: int): int {
    carr_phase / 0x10000 % 512
  }

  /** gpssim.c 2321-2322: what one channel adds to a sample. */
  function Term(dataBit: int, codeCA: int, carr_phase: int, table: seq<int>, gain: int): int
    requires |table| == 512
  {
    dataBit * codeCA * table[CarrierIndex(carr_phase)] * gain
  }

  /** The n-th sample of one channel, from its state at the start alone. */
  function ClosedTerm(c: Chan, n: nat, delt: real, table: seq<int>, gain: int): int
    requires |table| == 512 && Tables(c) && InBuffer(PhaseAfter(c, n, delt))
  {
    Term(DataBitAt(c.dwrd, PhaseAfter(c, n, delt)), ChipAt(c.ca, PhaseAfter(c, n, delt)), CarrierAfter(c, n), table,
         gain)
  }

  lemma TermIs(dataBit: int, codeCA: int, carr_phase: int, table: seq<int>, gain: int)
    requires |table| == 512
    ensures Term(dataBit, codeCA, carr_phase, table, gain)
         == dataBit * codeCA * table[carr_phase / 0x10000 % 512] * gain
  {
  }

  ghost predicate AllCanSend(cs: seq<Chan>, n: nat, delt: real) {
    forall i | 0 <= i < |cs| && cs[i].prn > 0 :: CanSend(cs[i], n, delt)
  }

  /** The sum over the allocated channels among the first k. */
  ghost function ClosedSum(cs: seq<Chan>, n: nat, delt: real, table: seq<int>, gain: seq<int>, k: nat): int
    requires k <= |cs| == |gain| && |table| == 512 && AllCanSend(cs, n, delt)
  {
    if k == 0 then 0
    else
      ClosedSum(cs, n, delt, table, gain, k - 1) +
      (if cs[k - 1].prn > 0 then ClosedTerm(cs[k - 1], n, delt, table, gain[k - 1]) else 0)
  }

  /** q is the accumulated sum divided by 2^7, rounded to the nearest with halves up. */
  predicate Rescaled(acc: int, q: int) {
    128 * q <= acc + 64 < 128 * q + 128
  }

  /** gpssim.c 2375-2380: what a sum is stored as, a signed 16-bit number. */
  ghost predicate Stored(acc: int, out: int) {
    -0x8000 <= out <= 0x7FFF && exists q :: Rescaled(acc, q) && (out - q) % 0x10000 == 0
  }

  /** A sum is stored as one number only. */
  lemma StoredIsUnique(acc: int, out: int, out': int)
    requires Stored(acc, out) && Stored(acc, out')
    ensures out == out'
  {
    var q :| Rescaled(acc, q) && (out - q) % 0x10000 == 0;
    var q' :| Rescaled(acc, q') && (out' - q') % 0x10000 == 0;
    assert q == q';
    assert (out - out') % 0x10000 == 0;
  }

  /** The shift and the conversion to short. */
  method Quantise(acc: int) returns (out: int)
    ensures Stored(acc, out)
  {
    var q := (acc + 64) / 128;
    assert Rescaled(acc, q);
    out := (q + 0x8000) % 0x10000 - 0x8000;
  }

  ghost function Views(chans: seq<Tracker>): (cs: seq<Chan>)
    reads chans
    ensures |cs| == |chans| && forall i | 0 <= i < |chans| :: cs[i] == chans[i].View()
  {
    if chans == [] then [] else [chans[0].View()] + Views(chans[1..])
  }

  ghost predicate Distinct(chans: seq<Tracker>) {
    forall i, j | 0 <= i < j < |chans| :: chans[i] != chans[j]
  }

  /** Channel i, n samples on. */
  ghost predicate Moved(c: Chan, n: nat, delt: real, c': Chan) {
    if c.prn > 0 then Later(c, n, delt, c') else c' == c
  }

  lemma TermIsClosed(c: Chan, n: nat, m: nat, delt: real, c1: Chan, table: seq<int>, gain: int)
    requires |table| == 512 && CanSend(c, m, delt) && n <= m && Later(c, n, delt, c1)
    ensures Tables(c) && InBuffer(PhaseAfter(c, n, delt))
    ensures Term(c1.dataBit, c1.codeCA, c1.carr_phase, table, gain) == ClosedTerm(c, n, delt, table, gain)
  {
    hide ChipAt, DataBitAt, InBuffer, TotalPhase, CarrierAfter, Term;
    RoomOnTheWay(c, m, n, delt);
  }

  lemma CanSendFewer(cs: seq<Chan>, n: nat, m: nat, delt: real)
    requires AllCanSend(cs, m, delt) && n <= m
    ensures AllCanSend(cs, n, delt)
  {
    hide Synced, TotalPhase, InBuffer, Multiple;
    forall i | 0 <= i < |cs| && cs[i].prn > 0
      ensures CanSend(cs[i], n, delt)
    {
      RoomOnTheWay(cs[i], m, n, delt);
    }
  }

  /** The trackers stand n samples after the states `cs`, the first k of them one more. */
  ghost predicate Between(cs: seq<Chan>, chans: seq<Tracker>, n: nat, delt: real, k: nat)
    reads chans
  {
    |cs| == |chans| && ViewsBetween(cs, Views(chans), n, delt, k)
  }

  ghost predicate ViewsBetween(cs: seq<Chan>, views: seq<Chan>, n: nat, delt: real, k: nat) {
    |cs| == |views| && forall i | 0 <= i < |cs| :: Moved(cs[i], if i < k then n + 1 else n, delt, views[i])
  }

  lemma NextBetween(cs: seq<Chan>, views: seq<Chan>, views': seq<Chan>, n: nat, delt: real, i: nat)
    requires ViewsBetween(cs, views, n, delt, i) && i < |cs| && |views'| == |views|
    requires forall j | 0 <= j < |views| && j != i :: views'[j] == views[j]
    requires Moved(cs[i], n + 1, delt, views'[i])
    ensures ViewsBetween(cs, views', n, delt, i + 1)
  {
    hide Moved;
  }

  /** A channel that is not in use stays as it is. */
  lemma Unused(c: Chan, n: nat, delt: real, c': Chan)
    requires Moved(c, n, delt, c') && c.prn <= 0
    ensures Moved(c, n + 1, delt, c')
  {
  }

  lemma AllBetween(cs: seq<Chan>, views: seq<Chan>, n: nat, delt: real)
    requires ViewsBetween(cs, views, n, delt, |cs|)
    ensures ViewsBetween(cs, views, n + 1, delt, 0)
  {
    hide Moved;
  }

  /** gpssim.c 2316-2370: one channel's part of one sample. */
  method AddChannel(chan: Tracker, ghost c: Chan, ghost n: nat, ghost m: nat, delt: real, gain: int,
                    cosTable: seq<int>, sinTable: seq<int>, i0: int, q0: int) returns (i_acc: int, q_acc: int)
    requires |cosTable| == 512 && |sinTable| == 512 && c.prn > 0
    requires CanSend(c, m, delt) && n < m && Later(c, n, delt, chan.View())
    modifies chan`code_phase, chan`icode, chan`ibit, chan`iword, chan`dataBit, chan`codeCA, chan`carr_phase
    ensures Tables(c) && InBuffer(PhaseAfter(c, n, delt)) && Later(c, n + 1, delt, chan.View())
    ensures i_acc == i0 + ClosedTerm(c, n, delt, cosTable, gain)
    ensures q_acc == q0 + ClosedTerm(c, n, delt, sinTable, gain)
  {
    hide Later, ClosedTerm, Term, CanSend;
    ghost var c1 := chan.View();
    TermIsClosed(c, n, m, delt, c1, cosTable, gain);
    TermIsClosed(c, n, m, delt, c1, sinTable, gain);
    CanSendNext(c, m, n, delt, c1);
    var iTable := chan.carr_phase / 0x10000 % 512;
    var ip := chan.dataBit * chan.codeCA * cosTable[iTable] * gain;
    var qp := chan.dataBit * chan.codeCA * sinTable[iTable] * gain;
    TermIs(chan.dataBit, chan.codeCA, chan.carr_phase, cosTable, gain);
    TermIs(chan.dataBit, chan.codeCA, chan.carr_phase, sinTable, gain);
    i_acc := i0 + ip;
    q_acc := q0 + qp;
    chan.Tick(delt);
    LaterByOne(c, n, delt, c1, chan.View());
  }

  /** gpssim.c 2309-2380: one I/Q sample from all channels, each moved one sample on. */
  method EmitSample(chans: seq<Tracker>, ghost cs: seq<Chan>, ghost n: nat, ghost m: nat, delt: real, gain: seq<int>,
                    cosTable: seq<int>, sinTable: seq<int>) returns (i_out: int, q_out: int)
    requires Distinct(chans) && |gain| == |chans| && |cosTable| == 512 && |sinTable| == 512
    requires AllCanSend(cs, m, delt) && n < m && AllCanSend(cs, n, delt) && Between(cs, chans, n, delt, 0)
    modifies chans
    ensures forall i | 0 <= i < |chans| :: chans[i].rho0 == old(chans[i].rho0)
    ensures Between(cs, chans, n + 1, delt, 0)
    ensures Stored(ClosedSum(cs, n, delt, cosTable, gain, |cs|), i_out)
    ensures Stored(ClosedSum(cs, n, delt, sinTable, gain, |cs|), q_out)
  {
    hide Later, ClosedTerm, CanSend, Views, ViewsBetween, Moved, Stored;
    var i_acc, q_acc := 0, 0;
    for i := 0 to |chans|
      invariant Between(cs, chans, n, delt, i)
      invariant forall j | 0 <= j < |chans| :: chans[j].rho0 == old(chans[j].rho0)
      invariant i_acc == ClosedSum(cs, n, delt, cosTable, gain, i)
      invariant q_acc == ClosedSum(cs, n, delt, sinTable, gain, i)
    {
      ghost var views := Views(chans);
      ChannelStands(cs, views, n, delt, i);
      if chans[i].prn > 0 {
        i_acc, q_acc := AddChannel(chans[i], cs[i], n, m, delt, gain[i], cosTable, sinTable, i_acc, q_acc);
        InUse(cs[i], n + 1, delt, chans[i].View());
      } else {
        Unused(cs[i], n, delt, views[i]);
      }
      NextBetween(cs, views, Views(chans), n, delt, i);
    }
    AllBetween(cs, Views(chans), n, delt);
    i_out := Quantise(i_acc);
    q_out := Quantise(q_acc);
  }

  lemma ChannelStands(cs: seq<Chan>, views: seq<Chan>, n: nat, delt: real, i: nat)
    requires ViewsBetween(cs, views, n, delt, i) && i < |cs|
    ensures Moved(cs[i], n, delt, views[i]) && views[i].prn == cs[i].prn
    ensures cs[i].prn > 0 ==> Later(cs[i], n, delt, views[i])
  {
  }

  lemma InUse(c: Chan, n: nat, delt: real, c': Chan)
    requires Later(c, n, delt, c') && c.prn > 0
    ensures Moved(c, n, delt, c')
  {
  }

  /** gpssim.c 2307-2381: a buffer of I/Q samples. Every one of them is the closed form's. */
  method FillBuffer(chans: seq<Tracker>, delt: real, gain: seq<int>, cosTable: seq<int>, sinTable: seq<int>,
                    iq_buff: array<int>, iq_buff_size: nat)
    requires Distinct(chans) && |gain| == |chans| && |cosTable| == 512 && |sinTable| == 512
    requires iq_buff.Length == 2 * iq_buff_size && AllCanSend(Views(chans), iq_buff_size, delt)
    modifies chans, iq_buff
    ensures forall i | 0 <= i < |chans| :: chans[i].rho0 == old(chans[i].rho0)
    ensures SamplesHold(old(Views(chans)), iq_buff_size, delt, gain, cosTable, sinTable, iq_buff[..])
    ensures Between(old(Views(chans)), chans, iq_buff_size, delt, 0)
  {
    hide ClosedSum, AllCanSend, Stored, Between, SamplesHold;
    ghost var cs := Views(chans);
    AllStart(cs, chans, iq_buff_size, delt);
    NoSamplesYet(cs, delt, gain, cosTable, sinTable, iq_buff[..]);
    for isamp := 0 to iq_buff_size
      invariant Between(cs, chans, isamp, delt, 0)
      invariant forall i | 0 <= i < |chans| :: chans[i].rho0 == old(chans[i].rho0)
      invariant SamplesHold(cs, isamp, delt, gain, cosTable, sinTable, iq_buff[..])
    {
      CanSendFewer(cs, isamp, iq_buff_size, delt);
      ghost var was := iq_buff[..];
      var i_out, q_out := EmitSample(chans, cs, isamp, iq_buff_size, delt, gain, cosTable, sinTable);
      iq_buff[2 * isamp] := i_out;
      iq_buff[2 * isamp + 1] := q_out;
      OneMoreSample(cs, isamp, delt, gain, cosTable, sinTable, was, iq_buff[..]);
    }
  }

  lemma AllStart(cs: seq<Chan>, chans: seq<Tracker>, n: nat, delt: real)
    requires cs == Views(chans) && AllCanSend(cs, n, delt)
    ensures Between(cs, chans, 0, delt, 0)
  {
    hide Later, CanSend;
    CanSendFewer(cs, 0, n, delt);
    forall i | 0 <= i < |cs| && cs[i].prn > 0
      ensures Later(cs[i], 0, delt, cs[i])
    {
      LaterStarts(cs[i], delt);
    }
  }

  /** Sample s of the buffer is the quantised closed form at s steps from the start. */
  ghost predicate SampleHolds(cs: seq<Chan>, s: nat, delt: real, gain: seq<int>, cosTable: seq<int>, sinTable: seq<int>,
                              iq_buff: seq<int>) {
    |gain| == |cs| && |cosTable| == 512 && |sinTable| == 512 && AllCanSend(cs, s, delt) && 2 * s + 1 < |iq_buff| &&
    Stored(ClosedSum(cs, s, delt, cosTable, gain, |cs|), iq_buff[2 * s]) &&
    Stored(ClosedSum(cs, s, delt, sinTable, gain, |cs|), iq_buff[2 * s + 1])
  }

  ghost predicate SamplesHold(cs: seq<Chan>, n: nat, delt: real, gain: seq<int>, cosTable: seq<int>,
                              sinTable: seq<int>, iq_buff: seq<int>) {
    forall s | 0 <= s < n :: SampleHolds(cs, s, delt, gain, cosTable, sinTable, iq_buff)
  }

  lemma NoSamplesYet(cs: seq<Chan>, delt: real, gain: seq<int>, cosTable: seq<int>, sinTable: seq<int>, buf: seq<int>)
    ensures SamplesHold(cs, 0, delt, gain, cosTable, sinTable, buf)
  {
  }

  lemma OneMoreSample(cs: seq<Chan>, n: nat, delt: real, gain: seq<int>, cosTable: seq<int>, sinTable: seq<int>,
                      was: seq<int>, now: seq<int>)
    requires |gain| == |cs| && |cosTable| == 512 && |sinTable| == 512 && AllCanSend(cs, n, delt)
    requires |was| == |now| && 2 * n + 1 < |was| && was[..2 * n] == now[..2 * n]
    requires SamplesHold(cs, n, delt, gain, cosTable, sinTable, was)
    requires Stored(ClosedSum(cs, n, delt, cosTable, gain, |cs|), now[2 * n])
    requires Stored(ClosedSum(cs, n, delt, sinTable, gain, |cs|), now[2 * n + 1])
    ensures SamplesHold(cs, n + 1, delt, gain, cosTable, sinTable, now)
  {
    hide AllCanSend, ClosedSum, Stored;
    forall s | 0 <= s < n
      ensures SampleHolds(cs, s, delt, gain, cosTable, sinTable, now)
    {
      assert SampleHolds(cs, s, delt, gain, cosTable, sinTable, was);
      assert was[..2 * n][2 * s] == now[..2 * n][2 * s] && was[..2 * n][2 * s + 1] == now[..2 * n][2 * s + 1];
    }
  }

  // ------------------------------------------------------------ the bit sent is the stream's

  /** A channel set from its transmission time sends the bit the message stream has at that time. `g` is the
      reference time of the run's first buffer, and the channel holds the buffer of call k. */
  lemma SentBitIsStreamBit(c: Chan, ms: real, sbfs: Refreshes, start: Start, k: nat, g: int)
    requires Synced(c) && 0.0 <= ms < 36000.0 && TotalPhase(c) == ms * 1023.0
    requires Usable(sbfs) && k < |sbfs| && c.dwrd == Buffer(sbfs, start, k)
    ensures var t := ms.Floor / 20 + 50 * (g + 30 * k) - 300;   // the time, in bits of GPS time
            0 <= BitPlace(g, t) < 30 * |Stream(sbfs, start, k)| &&
            c.dataBit == if BitAt(Stream(sbfs, start, k), BitPlace(g, t)) then 1 else -1
  {
    hide BitAt, Buffer, Stream, ChipAt;
    var t := ms.Floor / 20 + 50 * (g + 30 * k) - 300;
    PhaseOfMilliseconds(ms);
    BitIndexFits(TotalPhase(c));
    assert BitPlace(g + 30 * k, t) == BitIndex(TotalPhase(c));
    BufferReadsStream(sbfs, start, k, k, g, t);
  }

  lemma PhaseOfMilliseconds(ms: real)
    requires ms >= 0.0
    ensures (ms * 1023.0).Floor / 1023 == ms.Floor
  {
    var m := ms.Floor;
    assert m as real * 1023.0 <= ms * 1023.0 < (m as real + 1.0) * 1023.0;
    assert (m * 1023) as real == m as real * 1023.0;
    FloorBetween(ms * 1023.0, 1023 * m, 1023 * m + 1023);
  }

  lemma FloorBetween(x: real, lo: int, hi: int)
    requires lo as real <= x < hi as real
    ensures lo <= x.Floor < hi
  {
  }
}

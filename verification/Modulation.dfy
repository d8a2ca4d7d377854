/**
 What the samples carry: how a channel's part of a sample depends on its data bit, its chip and its carrier phase
 (gpssim.c 2315-2325), and that reversing a message reverses its part of every sample.
 */
module Modulation {
  import opened NavWord
  import opened NavStream
  import opened NavBits
  import opened CodePhase

  /** The carrier phase is kept modulo 2^32. */
  lemma CarrierWraps(x: int)
    ensures 0 <= Wrap32(x) <= 0xFFFF_FFFF && exists h: int :: Wrap32(x) == x - Turns(h)
  {
    assert Wrap32(x) == x - Turns(x / 0x1_0000_0000);
  }

  function Turns(h: int): int {
    4294967296 * h
  }

  /** A part of a sample changes sign with the data bit, and with the chip. */
  lemma PartReverses(dataBit: int, codeCA: int, carr_phase: int, table: seq<int>, gain: int)
    requires |table| == 512
    ensures Term(-dataBit, codeCA, carr_phase, table, gain) == -Term(dataBit, codeCA, carr_phase, table, gain)
    ensures Term(dataBit, -codeCA, carr_phase, table, gain) == -Term(dataBit, codeCA, carr_phase, table, gain)
  {
    var t := table[CarrierIndex(carr_phase)];
    assert (-dataBit) * codeCA == -(dataBit * codeCA) && dataBit * -codeCA == -(dataBit * codeCA);
    Negated(dataBit * codeCA, t, gain);
  }

  lemma Negated(x: int, y: int, z: int)
    ensures (-x) * y * z == -(x * y * z)
  {
    assert (-x) * y == -(x * y);
  }

  /** With both at one it is the table's entry for the phase, times the gain: the 2^25 phases of a turn are 512 places
      of 2^16 each. */
  lemma PartIsTableEntry(h: int, k: nat, r: nat, table: seq<int>, gain: int)
    requires |table| == 512 && k < 512 && r < 65536
    ensures Term(1, 1, 65536 * (512 * h + k) + r, table, gain) == table[k] * gain
  {
    var phase := 65536 * (512 * h + k) + r;
    assert phase / 65536 == 512 * h + k;
    assert (512 * h + k) % 512 == k;
  }

  // ------------------------------------------------------------ a message reversed

  /** The same message with every bit the other way. */
  function Complement(dwrd: seq<Word>): (r: seq<Word>)
    ensures |r| == |dwrd|
  {
    seq(|dwrd|, i requires 0 <= i < |dwrd| => dwrd[i] ^ 0x3FFFFFFF)
  }

  function Reversed(c: Chan): Chan {
    c.(dwrd := Complement(c.dwrd), dataBit := -c.dataBit)
  }

  lemma ReversedShift(w: Word, b: Word)
    requires b < 30
    ensures Low(Shifted(w ^ 0x3FFFFFFF, b)) == !Low(Shifted(w, b))
  {
  }

  lemma BitReversed(w: Word, ibit: nat)
    requires ibit < 30
    ensures MessageBit(w ^ 0x3FFFFFFF, ibit) == !MessageBit(w, ibit)
  {
    hide MessageBit, Places, Shifted, Low;
    MessageBitShift(w, ibit);
    MessageBitShift(w ^ 0x3FFFFFFF, ibit);
    PlacesFrom(29 - ibit, 0);
    ReversedShift(w, Places(29 - ibit));
  }

  lemma DataBitReversed(dwrd: seq<Word>, t: real)
    requires |dwrd| == 60 && InBuffer(t)
    ensures DataBitAt(Complement(dwrd), t) == -DataBitAt(dwrd, t)
  {
    hide MessageBit, BitIndex;
    BitIndexFits(t);
    var place := BitIndex(t);
    BitReversed(dwrd[place / 30], place % 30);
  }

  lemma StillCanSend(c: Chan, n: nat, delt: real)
    requires CanSend(c, n, delt)
    ensures CanSend(Reversed(c), n, delt)
    ensures PhaseAfter(Reversed(c), n, delt) == PhaseAfter(c, n, delt)
  {
    hide DataBitAt, ChipAt, InBuffer, Multiple, TotalPhase;
    SameCounters(c, Reversed(c));
    assert CodeStep(Reversed(c), delt) == CodeStep(c, delt);
    DataBitReversed(c.dwrd, TotalPhase(c));
  }

  /** Its part of every sample is reversed. */
  lemma PartOfReversed(c: Chan, n: nat, delt: real, table: seq<int>, gain: int)
    requires |table| == 512 && CanSend(c, n, delt)
    ensures Tables(Reversed(c)) && InBuffer(PhaseAfter(Reversed(c), n, delt))
    ensures ClosedTerm(Reversed(c), n, delt, table, gain) == -ClosedTerm(c, n, delt, table, gain)
  {
    hide DataBitAt, ChipAt, InBuffer, Multiple, Term, TotalPhase;
    StillCanSend(c, n, delt);
    var t := PhaseAfter(c, n, delt);
    DataBitReversed(c.dwrd, t);
    PartReverses(DataBitAt(c.dwrd, t), ChipAt(c.ca, t), CarrierAfter(c, n), table, gain);
  }

  lemma AllStillCanSend(cs: seq<Chan>, i: nat, n: nat, delt: real)
    requires AllCanSend(cs, n, delt) && i < |cs|
    ensures AllCanSend(cs[i := Reversed(cs[i])], n, delt)
  {
    hide CanSend;
    if cs[i].prn > 0 {
      StillCanSend(cs[i], n, delt);
    }
  }

  /** In the sum that is stored, exactly the part of that channel is reversed. */
  lemma {:induction false} SumWithReversed(cs: seq<Chan>, i: nat, n: nat, delt: real, table: seq<int>, gain: seq<int>,
                                           k: nat)
    requires k <= |cs| == |gain| && |table| == 512 && AllCanSend(cs, n, delt) && i < |cs| && cs[i].prn > 0
    requires AllCanSend(cs[i := Reversed(cs[i])], n, delt)
    ensures CanSend(cs[i], n, delt)
    ensures ClosedSum(cs[i := Reversed(cs[i])], n, delt, table, gain, k)
         == ClosedSum(cs, n, delt, table, gain, k)
            - (if i < k then 2 * ClosedTerm(cs[i], n, delt, table, gain[i]) else 0)
    decreases k
  {
    hide ClosedTerm, CanSend;
    assert CanSend(cs[i], n, delt);
    if k == 0 {
    } else {
      SumWithReversed(cs, i, n, delt, table, gain, k - 1);
      PartOfReversed(cs[i], n, delt, table, gain[i]);
    }
  }

  /** Two buffers filled alike but for one channel's message: where the one stores the sum, the other stores the sum
      with that channel's part reversed. */
  lemma BufferWithReversed(cs: seq<Chan>, i: nat, n: nat, s: nat, delt: real, gain: seq<int>, cosTable: seq<int>,
                           sinTable: seq<int>, buf: seq<int>, buf': seq<int>)
    requires i < |cs| && cs[i].prn > 0 && s < n
    requires SamplesHold(cs, n, delt, gain, cosTable, sinTable, buf)
    requires SamplesHold(cs[i := Reversed(cs[i])], n, delt, gain, cosTable, sinTable, buf')
    ensures SampleHolds(cs, s, delt, gain, cosTable, sinTable, buf) && 2 * s + 1 < |buf'| && CanSend(cs[i], s, delt)
    ensures var part := ClosedTerm(cs[i], s, delt, cosTable, gain[i]);
            Stored(ClosedSum(cs, s, delt, cosTable, gain, |cs|) - 2 * part, buf'[2 * s])
    ensures var part := ClosedTerm(cs[i], s, delt, sinTable, gain[i]);
            Stored(ClosedSum(cs, s, delt, sinTable, gain, |cs|) - 2 * part, buf'[2 * s + 1])
  {
    hide ClosedTerm, CanSend, ClosedSum, Stored;
    assert SampleHolds(cs, s, delt, gain, cosTable, sinTable, buf);
    assert SampleHolds(cs[i := Reversed(cs[i])], s, delt, gain, cosTable, sinTable, buf');
    SumWithReversed(cs, i, s, delt, cosTable, gain, |cs|);
    SumWithReversed(cs, i, s, delt, sinTable, gain, |cs|);
  }
}

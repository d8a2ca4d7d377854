/**
 Building the navigation message 60 words at a time, frame after frame (gpssim.c 1526-1606).
 */
module NavMessage {
  import opened Arithmetic
  import opened NavWord
  import opened Sequences
  import opened WordNumbers

  const N_SBF: nat := 5
  const N_DWRD_SBF: nat := 10
  const N_DWRD: nat := 60

  /** The source words of one frame: five subframes of ten. */
  type Subframes = seq<seq<Word>>

  /** Source words as eph2sbf leaves them (gpssim.c 608-683): 30 bits, no TOW count in a word 2, no week number
      in word 3 of subframe 1. */
  ghost predicate WellFormed(sbf: Subframes) {
    |sbf| == N_SBF && (forall i | 0 <= i < N_SBF :: |sbf[i]| == N_DWRD_SBF) &&
    (forall i, k | 0 <= i < N_SBF && 0 <= k < N_DWRD_SBF :: TopClear(sbf[i][k])) &&
    (forall i | 0 <= i < N_SBF :: TowField(sbf[i][1]) == 0) && WeekField(sbf[0][2]) == 0
  }

  /** The TOW-count message: the 17 most significant data bits of a HOW. */
  function TowField(d: Word): Word { (d >> 13) & 0x1FFFF }

  /** The TOW count as a number. */
  function TowNumber(d: Word): nat { FromWord(TowField(d), 17) }

  /** The week number in word 3 of subframe 1: the 10 most significant data bits. */
  function WeekField(d: Word): Word { (d >> 20) & 0x3FF }

  function WeekNumber(d: Word): nat { FromWord(WeekField(d), 10) }

  /** gpssim.c 1594 and 1552. */
  function WithTow(source: Word, tow: Word): Word { source | ((tow & 0x1FFFF) << 13) }

  /** gpssim.c 1590. */
  function WithWeek(source: Word, wn: Word): Word { source | ((wn & 0x3FF) << 20) }

  /** gpssim.c 1586-1594: word `iwrd` of subframe `isbf` before its checksum. */
  function Source(sbf: Subframes, isbf: nat, iwrd: nat, wn: nat, tow: nat): Word
    requires isbf < |sbf| && iwrd < |sbf[isbf]|
  {
    if iwrd == 1 then WithTow(sbf[isbf][iwrd], AsWord(tow))
    else if isbf == 0 && iwrd == 2 then WithWeek(sbf[isbf][iwrd], AsWord(wn))
    else sbf[isbf][iwrd]
  }

  /** Words 2 and 10 of a subframe carry the solved bits. */
  predicate Nib(iwrd: int) {
    iwrd == 1 || iwrd == 9
  }

  lemma TowInserted(source: Word, tow: Word)
    requires TopClear(source)
    ensures TopClear(WithTow(source, tow))
    ensures TowField(source) == 0 ==> TowField(WithTow(source, tow)) == tow & 0x1FFFF
  {
  }

  lemma WeekInserted(source: Word, wn: Word)
    requires TopClear(source)
    ensures TopClear(WithWeek(source, wn))
    ensures WeekField(source) == 0 ==> WeekField(WithWeek(source, wn)) == wn & 0x3FF
  {
  }

  lemma WeekReadBack(wn: nat)
    ensures FromWord(AsWord(wn) & 0x3FF, 10) == wn % Pow2(10)
  {
    hide AsWord, FromWord;
    TenOnes();
    MaskKeeps(AsWord(wn), 0x3FF, 10);
    FromAsWord(wn, 10);
  }

  lemma TenOnes()
    ensures LowOnes(0x3FF, 10)
  {
    assert LowOnes(0x3, 2) && LowOnes(0x7, 3) && LowOnes(0xF, 4) && LowOnes(0x1F, 5) && LowOnes(0x3F, 6);
    assert LowOnes(0x7F, 7) && LowOnes(0xFF, 8) && LowOnes(0x1FF, 9);
  }

  lemma WeekSurvives(d: Word, e: Word)
    requires Kept(d) == Kept(e)
    ensures WeekField(d) == WeekField(e) && WeekNumber(d) == WeekNumber(e)
  {
    hide FromWord;
    WeekFieldSurvives(d, e);
  }

  lemma WeekFieldSurvives(d: Word, e: Word)
    requires Kept(d) == Kept(e)
    ensures WeekField(d) == WeekField(e)
  {
  }

  lemma TowReadBack(tow: nat)
    ensures FromWord(AsWord(tow) & 0x1FFFF, 17) == tow % Pow2(17)
  {
    hide AsWord, FromWord;
    SeventeenOnes();
    MaskKeeps(AsWord(tow), 0x1FFFF, 17);
    FromAsWord(tow, 17);
  }

  lemma TowFieldSurvives(d: Word, e: Word)
    requires Kept(d) == Kept(e)
    ensures TowField(d) == TowField(e)
  {
  }

  lemma TowSurvives(d: Word, e: Word)
    requires Kept(d) == Kept(e)
    ensures TowNumber(d) == TowNumber(e)
  {
    hide Kept, TowField;
    TowFieldSurvives(d, e);
  }

  // ------------------------------------------------------------ one subframe

  /** The first `len` words of a subframe, chained from the word before it. */
  function Chain(sbf: Subframes, isbf: nat, wn: nat, tow: nat, prev: Word, len: nat): (words: seq<Word>)
    requires isbf < |sbf| && len <= |sbf[isbf]|
    ensures |words| == len
  {
    if len == 0 then []
    else
      var before := Chain(sbf, isbf, wn, tow, prev, len - 1);
      var last := if len == 1 then prev else before[len - 2];
      before + [MakeWord(last, Source(sbf, isbf, len - 1, wn, tow), Nib(len - 1))]
  }

  /** Words 0.. of a buffer with `prev` before them: the word before place i. */
  function Before(prev: Word, words: seq<Word>, i: nat): Word
    requires i <= |words|
  {
    if i == 0 then prev else words[i - 1]
  }

  /** Word i of a subframe after the word before it: a receiver accepts it and reads what was to be sent. */
  ghost predicate WordSent(prev: Word, words: seq<Word>, sbf: Subframes, isbf: nat, wn: nat, tow: nat, i: nat)
    requires isbf < |sbf| && i < |sbf[isbf]| && i < |words|
  {
    var p, w := Before(prev, words, i), words[i];
    ParityHolds(p, w) &&
    Kept(Recover(p, w)) == Kept(Source(sbf, isbf, i, wn, tow)) &&
    (!Nib(i) ==> Recover(p, w) == Data(Source(sbf, isbf, i, wn, tow))) &&
    (Nib(i) ==> !D29(w) && !D30(w)) &&
    (i == 1 ==> TowNumber(Recover(p, w)) == tow % Pow2(17)) &&
    (isbf == 0 && i == 2 ==> WeekNumber(Recover(p, w)) == wn % Pow2(10))
  }

  lemma SourceFits(sbf: Subframes, isbf: nat, iwrd: nat, wn: nat, tow: nat)
    requires WellFormed(sbf) && isbf < N_SBF && iwrd < N_DWRD_SBF
    ensures TopClear(Source(sbf, isbf, iwrd, wn, tow))
    ensures iwrd == 1 ==> TowNumber(Source(sbf, isbf, iwrd, wn, tow)) == tow % Pow2(17)
    ensures isbf == 0 && iwrd == 2 ==> WeekNumber(Source(sbf, isbf, iwrd, wn, tow)) == wn % Pow2(10)
  {
    hide TopClear, TowField, WeekField, WithTow, WithWeek, AsWord, FromWord;
    TowInserted(sbf[isbf][iwrd], AsWord(tow));
    WeekInserted(sbf[isbf][iwrd], AsWord(wn));
    TowReadBack(tow);
    WeekReadBack(wn);
  }

  lemma {:induction false} ChainSent(sbf: Subframes, isbf: nat, wn: nat, tow: nat, prev: Word, len: nat)
    requires WellFormed(sbf) && isbf < N_SBF && len <= N_DWRD_SBF
    ensures forall i | 0 <= i < len :: WordSent(prev, Chain(sbf, isbf, wn, tow, prev, len), sbf, isbf, wn, tow, i)
    decreases len
  {
    hide MakeWord, ParityHolds, Recover, Kept, Data, D29, D30, TowNumber, WeekNumber, Source, TopClear;
    if len == 0 {
    } else {
      ChainSent(sbf, isbf, wn, tow, prev, len - 1);
      var shorter, words := Chain(sbf, isbf, wn, tow, prev, len - 1), Chain(sbf, isbf, wn, tow, prev, len);
      forall i | 0 <= i < len
        ensures WordSent(prev, words, sbf, isbf, wn, tow, i)
      {
        if i < len - 1 {
          assert WordSent(prev, shorter, sbf, isbf, wn, tow, i);
        } else {
          var source := Source(sbf, isbf, i, wn, tow);
          var p := Before(prev, words, i);
          SourceFits(sbf, isbf, i, wn, tow);
          WordHolds(p, source, Nib(i));
          TowSurvives(Recover(p, words[i]), source);
          WeekSurvives(Recover(p, words[i]), source);
        }
      }
    }
  }

  /** What one subframe of the message is, and that a receiver reads it. */
  function Subframe(sbf: Subframes, isbf: nat, wn: nat, tow: nat, prev: Word): (words: seq<Word>)
    requires isbf < |sbf| && |sbf[isbf]| == N_DWRD_SBF
    ensures |words| == N_DWRD_SBF
  {
    Chain(sbf, isbf, wn, tow, prev, N_DWRD_SBF)
  }

  // ------------------------------------------------------------ the frame builder

  /** `count` subframes from subframe `isbf` on, with TOW counts rising by one. */
  function Frames(sbf: Subframes, isbf: nat, count: nat, wn: nat, tow: nat, prev: Word): (words: seq<Word>)
    requires |sbf| == N_SBF && (forall i | 0 <= i < N_SBF :: |sbf[i]| == N_DWRD_SBF) && isbf + count <= N_SBF
    ensures |words| == N_DWRD_SBF * count
  {
    if count == 0 then []
    else
      var before := Frames(sbf, isbf, count - 1, wn, tow, prev);
      var last := Before(prev, before, |before|);
      before + Subframe(sbf, isbf + count - 1, wn, tow + count - 1, last)
  }

  /** The buffer after a first call: subframe 5 of the frame before, then a whole frame. */
  function FirstBuffer(sbf: Subframes, wn: nat, tow: nat): (words: seq<Word>)
    requires |sbf| == N_SBF && forall i | 0 <= i < N_SBF :: |sbf[i]| == N_DWRD_SBF
    ensures |words| == N_DWRD
  {
    var head := Subframe(sbf, 4, wn, tow, 0);
    head + Frames(sbf, 0, N_SBF, wn, tow + 1, head[9])
  }

  /** The buffer after a later call: subframe 5 kept from the end of the last buffer, then a whole frame. */
  function LaterBuffer(last: seq<Word>, sbf: Subframes, wn: nat, tow: nat): (words: seq<Word>)
    requires |last| == N_DWRD && |sbf| == N_SBF && forall i | 0 <= i < N_SBF :: |sbf[i]| == N_DWRD_SBF
    ensures |words| == N_DWRD
  {
    last[50..] + Frames(sbf, 0, N_SBF, wn, tow + 1, last[59])
  }

  /** gpssim.c 1536: seconds of the week to the nearest, aligned down to the 30 second frame. */
  function Aligned(sec: real): nat
    requires sec >= 0.0
  {
    (sec + 0.5).Floor / 30 * 30
  }

  /** gpssim.c 1540. */
  function TowCount(sec: nat): nat
  {
    sec / 6
  }

  /** The fields of channel_t that hold the message. */
  class Channel {
    var g0_week: nat
    var g0_sec: nat
    var sbf: Subframes
    var dwrd: array<Word>

    ghost predicate Valid()
      reads this
    {
      dwrd.Length == N_DWRD && |sbf| == N_SBF && forall i | 0 <= i < N_SBF :: |sbf[i]| == N_DWRD_SBF
    }

    constructor (sbf: Subframes)
      requires |sbf| == N_SBF && forall i | 0 <= i < N_SBF :: |sbf[i]| == N_DWRD_SBF
      ensures Valid() && this.sbf == sbf && fresh(dwrd)
    {
      this.sbf := sbf;
      g0_week, g0_sec := 0, 0;
      dwrd := new Word[N_DWRD];
    }

    /** The inner loop: gpssim.c 1546-1560 and 1584-1602. Writes ten words from place `base` on. */
    method WriteSubframe(base: nat, isbf: nat, wn: nat, tow: nat, prev: Word) returns (prevwrd: Word)
      requires Valid() && isbf < N_SBF && base + N_DWRD_SBF <= N_DWRD
      modifies dwrd
      ensures dwrd[..] == Splice(old(dwrd[..]), base, Subframe(sbf, isbf, wn, tow, prev))
      ensures prevwrd == Subframe(sbf, isbf, wn, tow, prev)[9]
    {
      hide MakeWord, WithTow, WithWeek, AsWord, Splice;
      prevwrd := prev;
      TwoCopies(dwrd[..], base, [], []);
      ghost var was := dwrd[..];
      ghost var words: seq<Word> := [];
      for iwrd := 0 to N_DWRD_SBF
        invariant words == Chain(sbf, isbf, wn, tow, prev, iwrd)
        invariant dwrd[..] == Splice(was, base, words)
        invariant prevwrd == Before(prev, words, iwrd)
      {
        var sbfwrd := sbf[isbf][iwrd];
        if isbf == 0 && iwrd == 2 {
          sbfwrd := WithWeek(sbfwrd, AsWord(wn));
        }
        if iwrd == 1 {
          sbfwrd := WithTow(sbfwrd, AsWord(tow));
        }
        SpliceSnoc(was, base, words, MakeWord(prevwrd, sbfwrd, Nib(iwrd)));
        words := words + [MakeWord(prevwrd, sbfwrd, Nib(iwrd))];
        dwrd[base + iwrd] := MakeWord(prevwrd, sbfwrd, Nib(iwrd));
        prevwrd := dwrd[base + iwrd];
      }
    }

    /** gpssim.c 1564-1569. */
    method SaveSubframe5() returns (prevwrd: Word)
      requires Valid()
      modifies dwrd
      ensures dwrd[..] == Splice(old(dwrd[..]), 0, old(dwrd[50..]))
      ensures prevwrd == old(dwrd[59])
    {
      hide Splice;
      prevwrd := 0;
      ghost var was := dwrd[..];
      TwoCopies(was, 0, [], []);
      for iwrd := 0 to N_DWRD_SBF
        invariant dwrd[..] == Splice(was, 0, was[50..50 + iwrd])
        invariant iwrd > 0 ==> prevwrd == was[50 + iwrd - 1]
      {
        OneMoreKept(was, iwrd);
        dwrd[iwrd] := dwrd[N_DWRD_SBF * N_SBF + iwrd];
        prevwrd := dwrd[iwrd];
      }
    }

    /** gpssim.c 1580-1603. */
    method WriteFrame(wn: nat, tow0: nat, prev: Word)
      requires Valid()
      modifies dwrd
      ensures dwrd[..] == Splice(old(dwrd[..]), 10, Frames(sbf, 0, N_SBF, wn, tow0 + 1, prev))
    {
      hide Chain, Frames;
      var tow, prevwrd := tow0, prev;
      ghost var was := dwrd[..];
      ghost var words: seq<Word> := [];
      FramesStart(sbf, wn, tow0 + 1, prev);
      for isbf := 0 to N_SBF
        invariant words == Frames(sbf, 0, isbf, wn, tow0 + 1, prev)
        invariant dwrd[..] == Splice(was, 10, words)
        invariant tow == tow0 + isbf && prevwrd == Before(prev, words, |words|)
      {
        tow := tow + 1;
        ghost var next := Subframe(sbf, isbf, wn, tow, prevwrd);
        FramesNext(sbf, isbf, wn, tow0 + 1, prev);
        TwoCopies(was, 10, words, next);
        prevwrd := WriteSubframe((isbf + 1) * N_DWRD_SBF, isbf, wn, tow, prevwrd);
        words := words + next;
      }
    }

    /** gpssim.c 1542-1603. */
    method BuildMessage(wn: nat, tow: nat, init: bool)
      requires Valid()
      modifies dwrd
      ensures dwrd[..] == if init then FirstBuffer(sbf, wn, tow) else LaterBuffer(old(dwrd[..]), sbf, wn, tow)
    {
      hide Chain, Frames;
      ghost var was := dwrd[..];
      var prevwrd;
      ghost var start;
      if init {
        start := Subframe(sbf, 4, wn, tow, 0);
        prevwrd := WriteSubframe(0, 4, wn, tow, 0);
      } else {
        start := was[50..];
        prevwrd := SaveSubframe5();
      }
      ghost var frame := Frames(sbf, 0, N_SBF, wn, tow + 1, prevwrd);
      TwoCopies(was, 0, start, frame);
      WriteFrame(wn, tow, prevwrd);
      WholeSplice(was, start + frame);
    }

    /** gpssim.c 1526-1606. */
    method GenerateNavMsg(week: nat, sec: real, init: bool)
      requires Valid() && sec >= 0.0
      modifies this`g0_week, this`g0_sec, dwrd
      ensures g0_week == week && g0_sec == Aligned(sec)
      ensures dwrd[..] == if init then FirstBuffer(sbf, week % 1024, TowCount(Aligned(sec)))
                          else LaterBuffer(old(dwrd[..]), sbf, week % 1024, TowCount(Aligned(sec)))
    {
      hide FirstBuffer, LaterBuffer;
      g0_week := week;
      g0_sec := Aligned(sec);
      var wn := week % 1024;
      var tow := TowCount(g0_sec);
      BuildMessage(wn, tow, init);
    }
  }

  lemma OneMoreKept(was: seq<Word>, iwrd: nat)
    requires |was| == N_DWRD && iwrd < N_DWRD_SBF
    ensures var kept := Splice(was, 0, was[50..50 + iwrd]);
            kept[50 + iwrd] == was[50 + iwrd] &&
            Splice(was, 0, was[50..50 + iwrd + 1]) == kept[iwrd := was[50 + iwrd]]
  {
    SpliceSnoc(was, 0, was[50..50 + iwrd], was[50 + iwrd]);
    assert was[50..50 + iwrd + 1] == was[50..50 + iwrd] + [was[50 + iwrd]];
  }

  lemma FramesStart(sbf: Subframes, wn: nat, tow: nat, prev: Word)
    requires |sbf| == N_SBF && (forall i | 0 <= i < N_SBF :: |sbf[i]| == N_DWRD_SBF)
    ensures Frames(sbf, 0, 0, wn, tow, prev) == []
  {
  }

  lemma FramesNext(sbf: Subframes, count: nat, wn: nat, tow: nat, prev: Word)
    requires |sbf| == N_SBF && (forall i | 0 <= i < N_SBF :: |sbf[i]| == N_DWRD_SBF) && count < N_SBF
    ensures var words := Frames(sbf, 0, count, wn, tow, prev);
            Frames(sbf, 0, count + 1, wn, tow, prev)
            == words + Subframe(sbf, count, wn, tow + count, Before(prev, words, |words|))
  {
    hide Subframe;
  }

  lemma WholeSplice<T>(b: seq<T>, piece: seq<T>)
    requires |piece| == |b|
    ensures Splice(b, 0, piece) == piece
  {
  }
}

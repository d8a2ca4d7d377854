/**
 What the frequency plan does not achieve: PLL B does not always serve as many of the outputs left over as it could,
 and ConfigureClocks refuses some of the dividers (Si5351C.cpp 552-619 and 656).
 */
module VcoLimits {
  import opened Vco
  import opened VcoTheorems

  // ------------------------------------------------------------ what PLL B serves

  /** The outputs left over by PLL A that v divides evenly into. */
  ghost function LeftServed(cs: seq<Channel>, a: nat, v: nat): set<int>
    requires |cs| == 8
  {
    set i | i in Unserved(cs, a) && Serves(cs[i], v)
  }

  /** Those that a plan leaves in integer mode after all. */
  ghost function Rescued(before: seq<Channel>, after: seq<Channel>, a: nat): set<int>
    requires |before| == |after| == 8
  {
    set i | i in Unserved(before, a) && after[i].intMode
  }

  lemma RescuedByB(before: seq<Channel>, after: seq<Channel>, a: nat, b: nat, fmin: nat, fmax: nat)
    requires Usable(before) && Plan(before, after, a, b, fmin, fmax)
    ensures Rescued(before, after, a) == LeftServed(before, a, b)
  {
    hide IsBest, CandidatesA, CandidatesB, FirstSource;
    forall i | i in Unserved(before, a)
      ensures after[i].intMode <==> Serves(before[i], b)
    {
      assert SetUp(before[i], after[i], FirstSource(before, fmin, fmax, i), a, b);
    }
  }

  /** With output 7 off, every frequency of the range that serves an output left over is a candidate for PLL B. */
  lemma ServingIsCandidate(cs: seq<Channel>, a: nat, v: nat, fmin: nat, fmax: nat)
    requires Usable(cs) && !cs[7].powered && fmin <= v <= fmax && v > 0
    ensures LeftServed(cs, a, v) != {} ==> v in CandidatesB(cs, fmin, fmax, a)
  {
    hide EvenMultiples;
    if i :| i in LeftServed(cs, a, v) {
      assert v in Multiples(cs[i].outputFreqHz, fmin, fmax);
    }
  }

  /** The candidates that serve the most. */
  ghost function MostServing(cs: seq<Channel>, a: nat, s: set<nat>): set<nat>
    requires |cs| == 8
  {
    set v | v in s && forall u | u in s :: |LeftServed(cs, a, u)| <= |LeftServed(cs, a, v)|
  }

  lemma {:induction false} SomeServeMost(cs: seq<Channel>, a: nat, s: set<nat>) returns (v: nat)
    requires |cs| == 8 && s != {}
    ensures v in s && forall u | u in s :: |LeftServed(cs, a, u)| <= |LeftServed(cs, a, v)|
    decreases s
  {
    hide LeftServed;
    v :| v in s;
    var rest := s - {v};
    assert s == rest + {v};
    if rest != {} {
      var w := SomeServeMost(cs, a, rest);
      if |LeftServed(cs, a, w)| > |LeftServed(cs, a, v)| {
        v := w;
      }
    }
  }

  /** PLL B serves as many outputs left over as any candidate could, exactly when the choice would be the same among the
      candidates that serve the most of them: its score also counts outputs that PLL A serves already. */
  lemma PllBServesMostIff(before: seq<Channel>, after: seq<Channel>, a: nat, b: nat, fmin: nat, fmax: nat)
    requires Usable(before) && Plan(before, after, a, b, fmin, fmax)
    requires CandidatesB(before, fmin, fmax, ChoiceA(before, fmin, fmax)) != {} && fmin > 0
    ensures var choice := ChoiceA(before, fmin, fmax);
            var s := CandidatesB(before, fmin, fmax, choice);
            (forall v | v in s :: |LeftServed(before, choice, v)| <= |Rescued(before, after, choice)|)
            <==> BestOf(before, s) == BestOf(before, MostServing(before, choice, s))
  {
    hide Plan, CandidatesA, CandidatesB, ChoiceA, LeftServed, Rescued, Score;
    var choice := ChoiceA(before, fmin, fmax);
    var s := CandidatesB(before, fmin, fmax, choice);
    var best, most := BestOf(before, s), MostServing(before, choice, s);
    PlanIsDetermined(before, after, a, b, fmin, fmax);
    RescuedByB(before, after, a, b, fmin, fmax);
    SecondInRange(before, fmin, fmax, a, best);
    CandidatesPositive(before, fmin, fmax, choice);
    assert b == best && best in s;
    var v := SomeServeMost(before, choice, s);
    assert v in most;
    if best in most {
      BestIsUnique(before, most, best, BestOf(before, most));
    }
  }

  lemma CandidatesPositive(cs: seq<Channel>, fmin: nat, fmax: nat, a: nat)
    requires |cs| == 8 && fmin > 0
    ensures 0 !in CandidatesB(cs, fmin, fmax, a)
  {
  }

  // ------------------------------------------------------------ an output that PLL B leaves over

  lemma ScoreSnoc(cs: seq<Channel>, c: Channel, v: nat)
    ensures Score(cs + [c], v) == Score(cs, v) + if Serves(c, v) then 1 else 0
  {
    assert (cs + [c])[..|cs|] == cs;
  }

  function One(c: Channel, v: nat): nat {
    if Serves(c, v) then 1 else 0
  }

  lemma ScoreOfFive(c0: Channel, c1: Channel, c2: Channel, c3: Channel, c4: Channel, off: Channel, v: nat)
    requires !off.powered
    ensures Score([c0, c1, c2, c3, c4, off, off, off], v)
         == One(c0, v) + One(c1, v) + One(c2, v) + One(c3, v) + One(c4, v)
  {
    hide Score;
    assert Score([], v) == 0 by { NoScore(v); }
    ScoreSnoc([], c0, v);
    ScoreSnoc([c0], c1, v);
    ScoreSnoc([c0, c1], c2, v);
    ScoreSnoc([c0, c1, c2], c3, v);
    ScoreSnoc([c0, c1, c2, c3], c4, v);
    ScoreSnoc([c0, c1, c2, c3, c4], off, v);
    ScoreSnoc([c0, c1, c2, c3, c4, off], off, v);
    ScoreSnoc([c0, c1, c2, c3, c4, off, off], off, v);
    assert [] + [c0] == [c0] && [c0] + [c1] == [c0, c1] && [c0, c1] + [c2] == [c0, c1, c2];
    assert [c0, c1, c2] + [c3] == [c0, c1, c2, c3] && [c0, c1, c2, c3] + [c4] == [c0, c1, c2, c3, c4];
    assert [c0, c1, c2, c3, c4] + [off] == [c0, c1, c2, c3, c4, off];
    assert [c0, c1, c2, c3, c4, off] + [off] == [c0, c1, c2, c3, c4, off, off];
    assert [c0, c1, c2, c3, c4, off, off] + [off] == [c0, c1, c2, c3, c4, off, off, off];
  }

  lemma NoScore(v: nat)
    ensures Score([], v) == 0
  {
  }

  /** Outputs 0 to 4 at 100, 100, 90, 70 and 63 MHz. */
  function FiveOutputs(): (cs: seq<Channel>)
    ensures |cs| == 8 && Usable(cs)
  {
    var off := Clock(10_000_000, false);
    [Clock(100_000_000, true), Clock(100_000_000, true), Clock(90_000_000, true), Clock(70_000_000, true),
     Clock(63_000_000, true), off, off, off]
  }

  /** No frequency of the range serves four of them; those that serve three are 630, 700 and 900 MHz. */
  lemma FiveScores(v: nat)
    requires VCO_MIN <= v <= VCO_MAX
    ensures Score(FiveOutputs(), v) <= 3
    ensures Score(FiveOutputs(), v) == 3 <==> v == 630_000_000 || v == 700_000_000 || v == 900_000_000
  {
    var cs := FiveOutputs();
    ScoreOfFive(cs[0], cs[1], cs[2], cs[3], cs[4], cs[5], v);
    ThreeOfFive(v);
  }

  lemma ThreeOfFive(v: nat)
    requires VCO_MIN <= v <= VCO_MAX
    ensures v % 100_000_000 == 0 ==>
              v == 600_000_000 || v == 700_000_000 || v == 800_000_000 || v == 900_000_000
    ensures v % 90_000_000 == 0 ==>
              v == 630_000_000 || v == 720_000_000 || v == 810_000_000 || v == 900_000_000
  {
  }

  /** PLL A takes 900 MHz and leaves over the outputs at 70 and 63 MHz. 630 MHz would serve both, but PLL B takes
      700 MHz, which serves one of them and the two outputs at 100 MHz that PLL A serves already. */
  lemma PllBLeavesOneOver(after: seq<Channel>, a: nat, b: nat)
    requires Plan(FiveOutputs(), after, a, b, VCO_MIN, VCO_MAX)
    ensures a == 900_000_000 && b == 700_000_000
    ensures after[3].intMode && !after[4].intMode
    ensures LeftServed(FiveOutputs(), a, 630_000_000) == {3, 4}
  {
    hide Score;
    var cs := FiveOutputs();
    FirstChoice(a);
    var b' :| IsBest(cs, CandidatesB(cs, VCO_MIN, VCO_MAX, a), b') && b == if b' == 0 then a else b';
    SecondChoice(b');
    assert SetUp(cs[3], after[3], FirstSource(cs, VCO_MIN, VCO_MAX, 3), a, b);
    assert SetUp(cs[4], after[4], FirstSource(cs, VCO_MIN, VCO_MAX, 4), a, b);
    LeftOfFive();
  }

  lemma FirstChoice(a: nat)
    requires IsBest(FiveOutputs(), CandidatesA(FiveOutputs(), VCO_MIN, VCO_MAX), a)
    ensures a == 900_000_000
  {
    hide Score;
    var cs := FiveOutputs();
    assert 900_000_000 in Multiples(cs[0].outputFreqHz, VCO_MIN, VCO_MAX);
    assert 0 in {0, 1, 2, 3, 4, 5};
    assert 900_000_000 in CandidatesA(cs, VCO_MIN, VCO_MAX);
    FiveScores(900_000_000);
    FiveScores(a);
  }

  lemma LeftOfFive()
    ensures Unserved(FiveOutputs(), 900_000_000) == {3, 4}
    ensures LeftServed(FiveOutputs(), 900_000_000, 630_000_000) == {3, 4}
  {
  }

  lemma SecondChoice(b: nat)
    requires IsBest(FiveOutputs(), CandidatesB(FiveOutputs(), VCO_MIN, VCO_MAX, 900_000_000), b)
    ensures b == 700_000_000
  {
    hide Score;
    var cs := FiveOutputs();
    LeftOfFive();
    assert 700_000_000 in Multiples(cs[3].outputFreqHz, VCO_MIN, VCO_MAX);
    assert 3 in Unserved(cs, 900_000_000);
    assert 700_000_000 in CandidatesB(cs, VCO_MIN, VCO_MAX, 900_000_000);
    assert b in CandidatesB(cs, VCO_MIN, VCO_MAX, 900_000_000);
    FiveScores(700_000_000);
    FiveScores(b);
  }

  // ------------------------------------------------------------ which dividers ConfigureClocks takes

  /** Si5351C.cpp 656. */
  predicate DividerTaken(c: Channel) {
    8.0 <= c.multisynthDivider <= 900.0
  }

  /** The frequency of the PLL an output in use will take. */
  ghost function SourceFor(cs: seq<Channel>, i: nat, fmin: nat, fmax: nat): nat
    requires Usable(cs) && i < 8 && cs[i].outputFreqHz > 0
  {
    var choice := ChoiceA(cs, fmin, fmax);
    if choice % cs[i].outputFreqHz == 0 then choice else ChoiceB(cs, fmin, fmax)
  }

  lemma QuotientBetween(v: nat, f: nat, d: real)
    requires f > 0 && d * f as real == v as real
    ensures 8.0 <= d <= 900.0 <==> 8 * f <= v <= 900 * f
  {
    CompareProducts(d, 8.0, f as real, v as real, (8 * f) as real);
    CompareProducts(d, 900.0, f as real, v as real, (900 * f) as real);
    SameOrder(8 * f, v);
    SameOrder(v, 900 * f);
  }

  lemma SameOrder(m: int, n: int)
    ensures m <= n <==> m as real <= n as real
  {
  }

  lemma CompareProducts(x: real, y: real, r: real, v: real, w: real)
    requires r > 0.0 && x * r == v && y * r == w
    ensures (x <= y <==> v <= w) && (x >= y <==> v >= w)
  {
    assert (x - y) * r == v - w;
  }

  lemma DividerTakenIff(before: seq<Channel>, after: seq<Channel>, a: nat, b: nat, fmin: nat, fmax: nat, i: nat)
    requires Usable(before) && Plan(before, after, a, b, fmin, fmax) && i < 8 && fmin > 0
    ensures var f := before[i].outputFreqHz;
            DividerTaken(after[i]) <==>
              (before[i].powered && f > 0 ==> 8 * f <= SourceFor(before, i, fmin, fmax) <= 900 * f)
  {
    hide IsBest, CandidatesA, CandidatesB, ChoiceA, ChoiceB, FirstSource;
    var f := before[i].outputFreqHz;
    assert SetUp(before[i], after[i], FirstSource(before, fmin, fmax, i), a, b);
    if before[i].powered && f > 0 {
      PlanIsDetermined(before, after, a, b, fmin, fmax);
      OutputsExact(before, after, a, b, fmin, fmax, i);
      assert SourceOf(after[i], a, b) == SourceFor(before, i, fmin, fmax);
      QuotientBetween(SourceOf(after[i], a, b), f, after[i].multisynthDivider);
    }
  }

  /** ConfigureClocks takes all dividers of a plan exactly when every output in use lies between a 900th and an eighth
      of the frequency of the PLL it will take. */
  lemma AllDividersTakenIff(before: seq<Channel>, after: seq<Channel>, a: nat, b: nat, fmin: nat, fmax: nat)
    requires Usable(before) && Plan(before, after, a, b, fmin, fmax) && fmin > 0
    ensures (forall i | 0 <= i < 8 :: DividerTaken(after[i])) <==>
            (forall i | 0 <= i < 8 && before[i].powered && before[i].outputFreqHz > 0 ::
               8 * before[i].outputFreqHz <= SourceFor(before, i, fmin, fmax) <= 900 * before[i].outputFreqHz)
  {
    hide Plan, SourceFor, DividerTaken;
    assert |after| == 8 by { EightChannels(before, after, a, b, fmin, fmax); }
    forall i | 0 <= i < 8
      ensures DividerTaken(after[i]) <==>
                (before[i].powered && before[i].outputFreqHz > 0 ==>
                   8 * before[i].outputFreqHz <= SourceFor(before, i, fmin, fmax) <= 900 * before[i].outputFreqHz)
    {
      DividerTakenIff(before, after, a, b, fmin, fmax, i);
    }
  }

  lemma EightChannels(before: seq<Channel>, after: seq<Channel>, a: nat, b: nat, fmin: nat, fmax: nat)
    requires Usable(before) && Plan(before, after, a, b, fmin, fmax)
    ensures |after| == 8
  {
  }

  /** In the chip's range, with PLL A running: from 1 to 75 MHz the divider of an output in use is always taken, and
      below two thirds of a megahertz or above 112.5 MHz never. */
  lemma DividerTakenFor(before: seq<Channel>, after: seq<Channel>, a: nat, b: nat, i: nat)
    requires Usable(before) && Plan(before, after, a, b, VCO_MIN, VCO_MAX)
    requires i < 8 && before[i].powered && before[i].outputFreqHz > 0
    requires CandidatesA(before, VCO_MIN, VCO_MAX) != {}
    ensures 1_000_000 <= before[i].outputFreqHz <= 75_000_000 ==> DividerTaken(after[i])
    ensures DividerTaken(after[i]) ==> 666_667 <= before[i].outputFreqHz <= 112_500_000
  {
    hide Plan, CandidatesA;
    EightChannels(before, after, a, b, VCO_MIN, VCO_MAX);
    OutputsExact(before, after, a, b, VCO_MIN, VCO_MAX, i);
    QuotientBetween(SourceOf(after[i], a, b), before[i].outputFreqHz, after[i].multisynthDivider);
  }

  /** Output 6 at 150 MHz: 6 is the only even divider the range has for it, and ConfigureClocks refuses it. */
  lemma UsableDividerRefused(after: seq<Channel>, a: nat, b: nat)
    requires var off := Clock(10_000_000, false);
             Plan([off, off, off, off, off, off, Clock(150_000_000, true), off], after, a, b, VCO_MIN, VCO_MAX)
    ensures HighOutputOk(after[6]) && after[6].multisynthDivider == 6.0 && !DividerTaken(after[6])
  {
    hide Plan, EvenMultiples, CandidatesA;
    var off := Clock(10_000_000, false);
    var cs := [off, off, off, off, off, off, Clock(150_000_000, true), off];
    EightChannels(cs, after, a, b, VCO_MIN, VCO_MAX);
    EvenMultipleExistsIff(150_000_000);
    CandidatesIff(cs, VCO_MIN, VCO_MAX);
    Output6OkIff(cs, after, a, b, VCO_MIN, VCO_MAX);
    OutputsExact(cs, after, a, b, VCO_MIN, VCO_MAX, 6);
    assert after[6].multisynthDivider * 150_000_000.0 <= 900_000_000.0;
  }
}

/**
 What the frequency plan achieves, over all inputs.
 */
module VcoTheorems {
  import opened Vco

  /** The frequency of the PLL a channel takes. */
  function SourceOf(c: Channel, a: nat, b: nat): nat {
    if c.pllSource == 0 then a else b
  }

  lemma ExactReal(n: nat, f: nat)
    requires f > 0
    ensures n % f == 0 ==> (n / f) as real * f as real == n as real
    ensures n as real / f as real * f as real == n as real
  {
    if n % f == 0 {
      MultipleOf(f, n);
      assert (f * (n / f)) as real == f as real * (n / f) as real;
    }
  }

  lemma ChoiceInRange(before: seq<Channel>, fmin: nat, fmax: nat, a: nat)
    requires Usable(before) && IsBest(before, CandidatesA(before, fmin, fmax), a)
    ensures CandidatesA(before, fmin, fmax) == {} ==> a == 0
    ensures CandidatesA(before, fmin, fmax) != {} ==> fmin <= a <= fmax
  {
  }

  lemma SecondInRange(before: seq<Channel>, fmin: nat, fmax: nat, a: nat, b: nat)
    requires |before| == 8 && IsBest(before, CandidatesB(before, fmin, fmax, a), b)
    ensures b == 0 || fmin <= b <= fmax
  {
    hide Score;
  }

  /** How every output in use is set up: divider times frequency is the frequency of the PLL it takes; it is in integer
      mode exactly when that frequency is a multiple of its own; and it takes PLL B exactly when PLL A's is none. That
      PLL runs, inside the range, exactly when PLL A had a candidate: otherwise every output in use is left with
      divider 0 on a PLL at 0 Hz. */
  lemma OutputsExact(before: seq<Channel>, after: seq<Channel>, a: nat, b: nat, fmin: nat, fmax: nat, i: nat)
    requires Usable(before) && Plan(before, after, a, b, fmin, fmax)
    requires i < 8 && before[i].powered && before[i].outputFreqHz > 0 && fmin > 0
    ensures var f, vco := before[i].outputFreqHz, SourceOf(after[i], a, b);
            && after[i].multisynthDivider * f as real == vco as real
            && (after[i].intMode <==> vco % f == 0)
            && (after[i].intMode <==> a % f == 0 || b % f == 0)
            && (after[i].pllSource == 1 <==> a % f != 0)
            && (fmin <= vco <= fmax <==> CandidatesA(before, fmin, fmax) != {})
            && (CandidatesA(before, fmin, fmax) == {} ==>
                  vco == 0 && after[i].intMode && after[i].pllSource == 0 && after[i].multisynthDivider == 0.0)
  {
    hide IsBest, CandidatesA, CandidatesB, FirstSource;
    var f := before[i].outputFreqHz;
    assert SetUp(before[i], after[i], FirstSource(before, fmin, fmax, i), a, b);
    ExactReal(a, f);
    ExactReal(b, f);
    ChoiceInRange(before, fmin, fmax, a);
    var b' :| IsBest(before, CandidatesB(before, fmin, fmax, a), b') && b == if b' == 0 then a else b';
    SecondInRange(before, fmin, fmax, a, b');
    ZeroQuotient(f);
  }

  lemma ZeroQuotient(f: nat)
    requires f > 0
    ensures 0 % f == 0 && 0 / f == 0
  {
  }

  // ------------------------------------------------------------ when PLL A has a candidate

  /** With output 6 in use it must have an even multiple in the range; otherwise any of the outputs 0 to 5 will do. */
  lemma CandidatesIff(cs: seq<Channel>, fmin: nat, fmax: nat)
    requires Usable(cs)
    ensures CandidatesA(cs, fmin, fmax) != {} <==>
              if cs[6].powered then EvenMultiples(cs[6].outputFreqHz, fmin, fmax) != {}
              else exists i | 0 <= i < 6 :: Multiples(cs[i].outputFreqHz, fmin, fmax) != {}
  {
    hide EvenMultiples;
    if !cs[6].powered {
      WhenCandidates(cs, fmin, fmax);
    }
  }

  const VCO_MIN: nat := 600_000_000
  const VCO_MAX: nat := 900_000_000

  /** In the chip's range (Si5351C.cpp 628) an even multiple by 6 to 254 exists for these frequencies and no others. */
  lemma EvenMultipleExistsIff(f: nat)
    ensures EvenMultiples(f, VCO_MIN, VCO_MAX) != {} <==> 2_362_205 <= f <= 150_000_000
  {
    if 2_362_205 <= f <= 150_000_000 {
      var m := EvenInRange(f, 254);
      assert Times(f, m) in EvenMultiples(f, VCO_MIN, VCO_MAX);
    } else {
      forall m: nat | 6 <= m <= 254
        ensures !(VCO_MIN <= Times(f, m) <= VCO_MAX)
      {
        OutsideRange(f, m);
      }
    }
  }

  lemma OutsideRange(f: nat, m: nat)
    requires 6 <= m <= 254 && !(2_362_205 <= f <= 150_000_000)
    ensures !(VCO_MIN <= Times(f, m) <= VCO_MAX)
  {
    if f < 2_362_205 {
      assert f * m <= 2_362_204 * 254;
    } else {
      assert f * m >= 150_000_001 * 6;
    }
  }

  /** Going down by two, the multiples cannot step over the range. */
  lemma {:induction false} EvenInRange(f: nat, m: nat) returns (k: nat)
    requires 2_362_205 <= f <= 150_000_000 && 6 <= m <= 254 && m % 2 == 0 && Times(f, m) >= VCO_MIN
    ensures 6 <= k <= 254 && k % 2 == 0 && VCO_MIN <= Times(f, k) <= VCO_MAX
    decreases m
  {
    if Times(f, m) <= VCO_MAX {
      k := m;
    } else {
      assert f * (m - 2) == f * m - 2 * f;
      assert f * 6 <= VCO_MAX;
      k := EvenInRange(f, m - 2);
    }
  }

  lemma MultipleInRange(f: nat)
    requires 0 < f <= VCO_MAX - VCO_MIN
    ensures Multiples(f, VCO_MIN, VCO_MAX) != {}
  {
    var v := VCO_MAX - VCO_MAX % f;
    assert v == f * (VCO_MAX / f);
    MultipleOf(f, v);
    Divides(f, VCO_MAX / f, v);
    assert v in Multiples(f, VCO_MIN, VCO_MAX);
  }

  /** In the chip's range and for frequencies the outputs may be set to (Si5351C.cpp 778-791): every output in use runs
      on a PLL within the range exactly when output 6 is off or set from 2.362205 to 150 MHz; otherwise no output in
      use does. */
  lemma PllRunsIff(before: seq<Channel>, after: seq<Channel>, a: nat, b: nat, i: nat)
    requires |before| == 8 && forall k | 0 <= k < 8 :: 8_000 <= before[k].outputFreqHz <= 160_000_000
    requires Plan(before, after, a, b, VCO_MIN, VCO_MAX) && i < 8 && before[i].powered
    ensures VCO_MIN <= SourceOf(after[i], a, b) <= VCO_MAX <==>
              (before[6].powered ==> 2_362_205 <= before[6].outputFreqHz <= 150_000_000)
  {
    hide Plan, EvenMultiples, CandidatesA, Multiples;
    OutputsExact(before, after, a, b, VCO_MIN, VCO_MAX, i);
    CandidatesIff(before, VCO_MIN, VCO_MAX);
    EvenMultipleExistsIff(before[6].outputFreqHz);
    MultipleInRange(before[0].outputFreqHz);
  }

  /** Output 0 at 10 MHz and output 6 at 1 MHz: output 0 is planned as if it divided 0 Hz by 0. */
  lemma Output6StopsAll(after: seq<Channel>, a: nat, b: nat)
    requires var off := Clock(10_000_000, false);
             var cs := [Clock(10_000_000, true), off, off, off, off, off, Clock(1_000_000, true), off];
             Plan(cs, after, a, b, VCO_MIN, VCO_MAX)
    ensures a == 0 && after[0].intMode && after[0].pllSource == 0 && after[0].multisynthDivider == 0.0
  {
    hide Plan, EvenMultiples, CandidatesA, Multiples;
    var off := Clock(10_000_000, false);
    var cs := [Clock(10_000_000, true), off, off, off, off, off, Clock(1_000_000, true), off];
    OutputsExact(cs, after, a, b, VCO_MIN, VCO_MAX, 0);
    CandidatesIff(cs, VCO_MIN, VCO_MAX);
    EvenMultipleExistsIff(1_000_000);
  }

  lemma {:induction false} SomeServed(cs: seq<Channel>, v: nat) returns (i: nat)
    requires Score(cs, v) > 0
    ensures i < |cs| && Serves(cs[i], v)
    decreases |cs|
  {
    if Serves(cs[|cs| - 1], v) {
      i := |cs| - 1;
    } else {
      i := SomeServed(cs[..|cs| - 1], v);
    }
  }

  lemma {:induction false} Served(cs: seq<Channel>, v: nat, i: nat)
    requires i < |cs| && Serves(cs[i], v)
    ensures Score(cs, v) > 0
    decreases |cs|
  {
    if i < |cs| - 1 {
      Served(cs[..|cs| - 1], v, i);
    }
  }

  lemma CandidatesOfLowOutputs(cs: seq<Channel>, fmin: nat, fmax: nat, v: nat)
    requires Usable(cs) && !cs[6].powered && !cs[7].powered
    ensures v in CandidatesA(cs, fmin, fmax) ==> fmin <= v <= fmax && v > 0
    ensures fmin <= v <= fmax && v > 0 && Score(cs, v) > 0 ==> v in CandidatesA(cs, fmin, fmax)
  {
    hide EvenMultiples;
    if fmin <= v <= fmax && v > 0 && Score(cs, v) > 0 {
      var i := SomeServed(cs, v);
      assert i in {0, 1, 2, 3, 4, 5} && v in Multiples(cs[i].outputFreqHz, fmin, fmax);
    }
  }

  /** With outputs 6 and 7 off, PLL A's frequency divides evenly into at least as many outputs in use as any
      frequency of the range, and no larger frequency does as well (unless none serves any output). */
  lemma PllAServesMost(before: seq<Channel>, after: seq<Channel>, a: nat, b: nat, fmin: nat, fmax: nat, v: nat)
    requires Usable(before) && Plan(before, after, a, b, fmin, fmax)
    requires !before[6].powered && !before[7].powered
    requires CandidatesA(before, fmin, fmax) != {}
    requires fmin <= v <= fmax && v > 0
    ensures fmin <= a <= fmax && a > 0
    ensures Score(before, v) <= Score(before, a)
    ensures Score(before, v) == Score(before, a) > 0 ==> v <= a
  {
    hide CandidatesA, CandidatesB, SetUp, Score;
    CandidatesOfLowOutputs(before, fmin, fmax, a);
    CandidatesOfLowOutputs(before, fmin, fmax, v);
  }

  /** The range holds a candidate exactly when some output 0 to 5, in use or not, has a multiple in it. */
  lemma WhenCandidates(cs: seq<Channel>, fmin: nat, fmax: nat)
    requires Usable(cs) && !cs[6].powered
    ensures CandidatesA(cs, fmin, fmax) != {} <==>
              exists i | 0 <= i < 6 :: Multiples(cs[i].outputFreqHz, fmin, fmax) != {}
  {
    hide EvenMultiples;
    if v :| v in CandidatesA(cs, fmin, fmax) {
      var i :| i in {0, 1, 2, 3, 4, 5} && v in Multiples(cs[i].outputFreqHz, fmin, fmax);
      assert Multiples(cs[i].outputFreqHz, fmin, fmax) != {};
    }
    if i :| 0 <= i < 6 && Multiples(cs[i].outputFreqHz, fmin, fmax) != {} {
      var v :| v in Multiples(cs[i].outputFreqHz, fmin, fmax);
      assert i in {0, 1, 2, 3, 4, 5};
      assert v in CandidatesA(cs, fmin, fmax);
    }
  }

  /** When PLL B is free and some output in use that PLL A left over has a multiple in the range, PLL B serves at
      least one of those left over. */
  lemma PllBServesOne(before: seq<Channel>, after: seq<Channel>, a: nat, b: nat, fmin: nat, fmax: nat)
    requires Usable(before) && Plan(before, after, a, b, fmin, fmax)
    requires !before[7].powered
    requires CandidatesB(before, fmin, fmax, a) != {}
    ensures exists i | i in Unserved(before, a) :: after[i].intMode && after[i].pllSource == 1
  {
    hide CandidatesA, Score, FirstSource, EvenMultiples;
    var b' :| IsBest(before, CandidatesB(before, fmin, fmax, a), b') && b == if b' == 0 then a else b';
    var i :| i in Unserved(before, a) && b' in Multiples(before[i].outputFreqHz, fmin, fmax);
    assert SetUp(before[i], after[i], FirstSource(before, fmin, fmax, i), a, b);
    assert i in Unserved(before, a) && after[i].intMode && after[i].pllSource == 1;
  }

  // ------------------------------------------------------------ outputs 6 and 7

  /** What outputs 6 and 7 need: an even whole divider from 6 to 254. */
  predicate HighOutputOk(c: Channel) {
    c.intMode && c.multisynthDivider.Floor as real == c.multisynthDivider && EvenDivider(c.multisynthDivider.Floor)
  }

  lemma EvenMultipleDivides(f: nat, fmin: nat, fmax: nat, v: nat)
    requires f > 0
    ensures v in EvenMultiples(f, fmin, fmax) <==>
              fmin <= v <= fmax && v % f == 0 && EvenDivider(v / f)
  {
    if m: nat :| 6 <= m <= 254 && m % 2 == 0 && v == f * m {
      Divides(f, m, v);
    }
    if v % f == 0 {
      MultipleOf(f, v);
    }
  }

  lemma OkWhenEven(before: Channel, after: Channel, source: int, a: nat, b: nat)
    requires SetUp(before, after, source, a, b) && before.powered && before.outputFreqHz > 0
    ensures var f := before.outputFreqHz;
            HighOutputOk(after) <==>
              (if a % f == 0 then EvenDivider(a / f) else b % f == 0 && EvenDivider(b / f))
  {
    var f := before.outputFreqHz;
    assert ((a / f) as real).Floor == a / f && ((b / f) as real).Floor == b / f;
  }

  /** Output 6 gets a divider it can use exactly when the range has one. */
  lemma Output6OkIff(before: seq<Channel>, after: seq<Channel>, a: nat, b: nat, fmin: nat, fmax: nat)
    requires Usable(before) && Plan(before, after, a, b, fmin, fmax)
    requires before[6].powered && before[6].outputFreqHz > 0 && fmin > 0
    ensures HighOutputOk(after[6]) <==> EvenMultiples(before[6].outputFreqHz, fmin, fmax) != {}
    ensures after[6].pllSource == 0
  {
    hide EvenMultiples, AllMultiples, Score, CandidatesB, FirstSource, HighOutputOk;
    var f := before[6].outputFreqHz;
    assert SetUp(before[6], after[6], FirstSource(before, fmin, fmax, 6), a, b);
    OkWhenEven(before[6], after[6], FirstSource(before, fmin, fmax, 6), a, b);
    if EvenMultiples(f, fmin, fmax) != {} {
      assert a in EvenMultiples(f, fmin, fmax);
      EvenMultipleDivides(f, fmin, fmax, a);
    } else {
      NoDivider(f);
      ZeroQuotient(f);
    }
  }

  /** Output 7, too, when the two can share PLL A. */
  lemma SharedOutput7Ok(before: seq<Channel>, after: seq<Channel>, a: nat, b: nat, fmin: nat, fmax: nat)
    requires Usable(before) && Plan(before, after, a, b, fmin, fmax)
    requires Shared(before, fmin, fmax) && before[7].outputFreqHz > 0
    ensures HighOutputOk(after[7]) && after[7].pllSource == 0
  {
    hide EvenMultiples, AllMultiples, Score, CandidatesB, FirstSource, HighOutputOk;
    assert SetUp(before[7], after[7], FirstSource(before, fmin, fmax, 7), a, b);
    assert a in EvenMultiples(before[7].outputFreqHz, fmin, fmax);
    EvenMultipleDivides(before[7].outputFreqHz, fmin, fmax, a);
    OkWhenEven(before[7], after[7], FirstSource(before, fmin, fmax, 7), a, b);
  }

  // ------------------------------------------------------------ the frequencies as functions of the inputs

  lemma BestIsUnique(cs: seq<Channel>, s: set<nat>, u: nat, v: nat)
    requires IsBest(cs, s, u) && IsBest(cs, s, v)
    ensures u == v
  {
  }

  lemma {:induction false} BestExists(cs: seq<Channel>, s: set<nat>) returns (v: nat)
    ensures IsBest(cs, s, v)
    decreases s
  {
    hide Score;
    if s == {} {
      v := 0;
    } else {
      var some :| some in s;
      var rest := s - {some};
      assert s == rest + {some};
      v := BestExists(cs, rest);
      if rest == {} || Score(cs, some) > Score(cs, v) || (Score(cs, some) == Score(cs, v) && some > v) {
        v := some;
      }
    }
  }

  lemma SomeBest(cs: seq<Channel>, s: set<nat>)
    ensures exists v :: IsBest(cs, s, v)
  {
    var v := BestExists(cs, s);
  }

  /** The highest-scoring frequency of a set, the largest of those; 0 if there is none. */
  ghost function BestOf(cs: seq<Channel>, s: set<nat>): (v: nat)
    ensures IsBest(cs, s, v)
  {
    SomeBest(cs, s);
    var v :| IsBest(cs, s, v);
    v
  }

  /** The frequencies the planner will choose, from its inputs alone. */
  ghost function ChoiceA(cs: seq<Channel>, fmin: nat, fmax: nat): nat
    requires Usable(cs)
  {
    BestOf(cs, CandidatesA(cs, fmin, fmax))
  }

  ghost function ChoiceB(cs: seq<Channel>, fmin: nat, fmax: nat): nat
    requires Usable(cs)
  {
    var a := ChoiceA(cs, fmin, fmax);
    var b := BestOf(cs, CandidatesB(cs, fmin, fmax, a));
    if b == 0 then a else b
  }

  /** The inputs determine the plan: both frequencies and the whole set-up of every channel. */
  lemma PlanIsDetermined(before: seq<Channel>, after: seq<Channel>, a: nat, b: nat, fmin: nat, fmax: nat)
    requires Usable(before) && Plan(before, after, a, b, fmin, fmax)
    ensures a == ChoiceA(before, fmin, fmax) && b == ChoiceB(before, fmin, fmax)
  {
    hide IsBest, CandidatesA, CandidatesB, SetUp;
    BestIsUnique(before, CandidatesA(before, fmin, fmax), a, ChoiceA(before, fmin, fmax));
    var s := CandidatesB(before, fmin, fmax, a);
    var b' :| IsBest(before, s, b') && b == if b' == 0 then a else b';
    BestIsUnique(before, s, b', BestOf(before, s));
  }

  lemma OnlyOnePlan(before: seq<Channel>, after: seq<Channel>, after': seq<Channel>, a: nat, b: nat, a': nat, b': nat,
                    fmin: nat, fmax: nat)
    requires Usable(before) && Plan(before, after, a, b, fmin, fmax) && Plan(before, after', a', b', fmin, fmax)
    ensures a == a' && b == b' && after == after'
  {
    hide IsBest, CandidatesA, CandidatesB, FirstSource;
    PlanIsDetermined(before, after, a, b, fmin, fmax);
    PlanIsDetermined(before, after', a', b', fmin, fmax);
    forall i | 0 <= i < 8 ensures after[i] == after'[i] {
      assert SetUp(before[i], after[i], FirstSource(before, fmin, fmax, i), a, b);
      assert SetUp(before[i], after'[i], FirstSource(before, fmin, fmax, i), a, b);
    }
  }

  /** Output 7 gets a divider it can use exactly when the range has one and the frequency PLL A will take is not a
      multiple of its own, or is a usable one: the assignment to PLL A comes first and does not look at what output 7
      can use. The condition is on the inputs alone. */
  lemma Output7OkIff(before: seq<Channel>, after: seq<Channel>, a: nat, b: nat, fmin: nat, fmax: nat)
    requires Usable(before) && Plan(before, after, a, b, fmin, fmax)
    requires before[7].powered && before[7].outputFreqHz > 0 && fmin > 0
    ensures var f, choice := before[7].outputFreqHz, ChoiceA(before, fmin, fmax);
            HighOutputOk(after[7]) <==>
              EvenMultiples(f, fmin, fmax) != {} && (choice % f != 0 || EvenDivider(choice / f))
  {
    hide EvenMultiples, Score, FirstSource, HighOutputOk, ChoiceA;
    var f := before[7].outputFreqHz;
    PlanIsDetermined(before, after, a, b, fmin, fmax);
    if Shared(before, fmin, fmax) {
      SharedOutput7Ok(before, after, a, b, fmin, fmax);
      assert a in EvenMultiples(f, fmin, fmax);
      EvenMultipleDivides(f, fmin, fmax, a);
    } else {
      OwnPll(before, after, a, b, fmin, fmax);
    }
  }

  /** The same when output 7 has PLL B to itself. */
  lemma OwnPll(before: seq<Channel>, after: seq<Channel>, a: nat, b: nat, fmin: nat, fmax: nat)
    requires Usable(before) && Plan(before, after, a, b, fmin, fmax)
    requires before[7].powered && before[7].outputFreqHz > 0 && !Shared(before, fmin, fmax) && fmin > 0
    ensures var f := before[7].outputFreqHz;
            HighOutputOk(after[7]) <==> EvenMultiples(f, fmin, fmax) != {} && (a % f != 0 || EvenDivider(a / f))
  {
    hide EvenMultiples, AllMultiples, Score, CandidatesA, FirstSource, HighOutputOk, Shared;
    var f := before[7].outputFreqHz;
    var evens := EvenMultiples(f, fmin, fmax);
    assert SetUp(before[7], after[7], FirstSource(before, fmin, fmax, 7), a, b);
    var b' :| IsBest(before, CandidatesB(before, fmin, fmax, a), b') && b == if b' == 0 then a else b';
    EvenMultipleDivides(f, fmin, fmax, b');
    EvenMultipleDivides(f, fmin, fmax, a);
    ChoiceInRange(before, fmin, fmax, a);
    NoDivider(f);
    assert evens != {} ==> b' in evens;
    assert evens == {} ==> a !in evens && b == a;
    OkWhenEven(before[7], after[7], FirstSource(before, fmin, fmax, 7), a, b);
  }

  /** With output 6 in use as well it comes to this: PLL A's frequency must not be a multiple of output 7's. An even
      usable multiple would have let the two share. */
  lemma BothInUseOutput7OkIff(before: seq<Channel>, after: seq<Channel>, a: nat, b: nat, fmin: nat, fmax: nat)
    requires Usable(before) && Plan(before, after, a, b, fmin, fmax)
    requires before[6].powered && before[7].powered && before[7].outputFreqHz > 0 && !Shared(before, fmin, fmax)
    requires fmin > 0
    ensures var f := before[7].outputFreqHz;
            HighOutputOk(after[7]) <==>
              EvenMultiples(f, fmin, fmax) != {} && ChoiceA(before, fmin, fmax) % f != 0
  {
    hide EvenMultiples, AllMultiples, Score, HighOutputOk, Plan, EvenDivider;
    Output7OkIff(before, after, a, b, fmin, fmax);
    var f, choice := before[7].outputFreqHz, ChoiceA(before, fmin, fmax);
    if choice in EvenMultiples(before[6].outputFreqHz, fmin, fmax) {
      CommonMultiple(before[6].outputFreqHz, f, fmin, fmax, choice);
    } else {
      assert choice == 0;
      NoDivider(f);
    }
  }

  /** A usable multiple of both would have been shared. */
  lemma CommonMultiple(f: nat, g: nat, fmin: nat, fmax: nat, v: nat)
    requires v in EvenMultiples(f, fmin, fmax) && g > 0
    ensures v % g == 0 && EvenDivider(v / g) ==> v in EvenMultiples(f, fmin, fmax) * EvenMultiples(g, fmin, fmax)
  {
    if v % g == 0 && EvenDivider(v / g) {
      assert Times(g, v / g) == v;
    }
  }

  lemma NoDivider(f: nat)
    requires f > 0
    ensures !EvenDivider(0 / f)
  {
    assert 0 / f == 0;
  }

  function Clock(f: nat, powered: bool): Channel {
    Channel(f, powered, 0, false, 8.0)
  }

  /** Outputs 6 at 90 MHz and 7 at 100 MHz, in the chip's range: PLL A takes 900 MHz and divides by 9 for
      output 7, which cannot use that, although PLL B was kept for it. */
  lemma Output7LosesItsPll(after: seq<Channel>, a: nat, b: nat)
    requires var off := Clock(10_000_000, false);
             var cs := [off, off, off, off, off, off, Clock(90_000_000, true), Clock(100_000_000, true)];
             Plan(cs, after, a, b, 600_000_000, 900_000_000)
    ensures a == 900_000_000 && after[7].multisynthDivider == 9.0 && !HighOutputOk(after[7])
  {
    var off := Clock(10_000_000, false);
    var cs := [off, off, off, off, off, off, Clock(90_000_000, true), Clock(100_000_000, true)];
    var six := EvenMultiples(90_000_000, 600_000_000, 900_000_000);
    var seven := EvenMultiples(100_000_000, 600_000_000, 900_000_000);
    forall v | v in six ensures v == 720_000_000 || v == 900_000_000 {
      EvenMultipleDivides(90_000_000, 600_000_000, 900_000_000, v);
    }
    EvenMultipleDivides(90_000_000, 600_000_000, 900_000_000, 900_000_000);
    EvenMultipleDivides(100_000_000, 600_000_000, 900_000_000, 900_000_000);
    EvenMultipleDivides(100_000_000, 600_000_000, 900_000_000, 720_000_000);
    assert six * seven == {};
    assert a in six;
    ScoreOfTwo(cs, 720_000_000);
    ScoreOfTwo(cs, 900_000_000);
    assert a == 900_000_000;
    assert SetUp(cs[7], after[7], FirstSource(cs, 600_000_000, 900_000_000, 7), a, b);
    OkWhenEven(cs[7], after[7], FirstSource(cs, 600_000_000, 900_000_000, 7), a, b);
  }

  /** Only outputs 6 and 7 are on. */
  lemma ScoreOfTwo(cs: seq<Channel>, v: nat)
    requires |cs| == 8 && forall i | 0 <= i < 6 :: !cs[i].powered
    ensures Score(cs, v) == (if Serves(cs[6], v) then 1 else 0) + if Serves(cs[7], v) then 1 else 0
  {
    NoneServed(cs[..6], v);
    assert cs[..7][..6] == cs[..6];
  }

  lemma {:induction false} NoneServed(cs: seq<Channel>, v: nat)
    requires forall i | 0 <= i < |cs| :: !cs[i].powered
    ensures Score(cs, v) == 0
    decreases |cs|
  {
    if cs == [] {
    } else {
      NoneServed(cs[..|cs| - 1], v);
    }
  }
}

/**
 The Si5351C frequency planner (Si5351C.cpp 385-620): which VCO frequencies divide evenly into the most clock
 outputs. Frequencies are whole numbers of Hz; dividers are reals.
 */
module Vco {
  import Arithmetic

  datatype Channel = Channel(outputFreqHz: nat, powered: bool, pllSource: int, intMode: bool, multisynthDivider: real)

  // ------------------------------------------------------------ what is looked for

  /** A channel that takes part and whose output divides v evenly. */
  predicate Serves(c: Channel, v: nat) {
    c.outputFreqHz != 0 && c.powered && v % c.outputFreqHz == 0
  }

  /** How many of the channels v serves. */
  function Score(cs: seq<Channel>, v: nat): (n: nat)
    ensures n <= |cs|
  {
    if cs == [] then 0 else Score(cs[..|cs| - 1], v) + if Serves(cs[|cs| - 1], v) then 1 else 0
  }

  /** The multiples of a frequency that lie in the VCO's range. */
  function Multiples(f: nat, fmin: nat, fmax: nat): set<nat>
    requires f > 0
  {
    set v: nat | fmin <= v <= fmax && v > 0 && v % f == 0
  }

  /** Outputs 6 and 7 divide by an even number from 6 to 254. */
  predicate EvenDivider(m: int) {
    6 <= m <= 254 && m % 2 == 0
  }

  function Times(f: nat, m: nat): nat {
    f * m
  }

  function EvenMultiples(f: nat, fmin: nat, fmax: nat): set<nat> {
    set m: nat | 6 <= m <= 254 && m % 2 == 0 && fmin <= Times(f, m) <= fmax :: Times(f, m)
  }

  /** The best frequency of a set: the highest score, and among those the largest; 0 if there is none. */
  ghost predicate IsBest(cs: seq<Channel>, s: set<nat>, v: nat) {
    && (s == {} ==> v == 0)
    && (s != {} ==> v in s)
    && forall u | u in s :: Score(cs, u) < Score(cs, v) || (Score(cs, u) == Score(cs, v) && u <= v)
  }

  ghost function AllMultiples(cs: seq<Channel>, fmin: nat, fmax: nat, wanted: set<int>): set<nat>
    requires forall i | i in wanted :: 0 <= i < |cs| && cs[i].outputFreqHz > 0
  {
    set i, v | i in wanted && v in Multiples(cs[i].outputFreqHz, fmin, fmax) :: v
  }

  /** Whether outputs 6 and 7 are both in use and some frequency suits both. */
  ghost predicate Shared(cs: seq<Channel>, fmin: nat, fmax: nat)
    requires |cs| == 8
  {
    cs[6].powered && cs[7].powered &&
    EvenMultiples(cs[6].outputFreqHz, fmin, fmax) * EvenMultiples(cs[7].outputFreqHz, fmin, fmax) != {}
  }

  /** What the source divides by without testing it first. */
  ghost predicate Usable(cs: seq<Channel>) {
    |cs| == 8 && (!cs[6].powered ==> forall i | 0 <= i < 6 :: cs[i].outputFreqHz > 0)
  }

  ghost function CandidatesA(cs: seq<Channel>, fmin: nat, fmax: nat): set<nat>
    requires Usable(cs)
  {
    if Shared(cs, fmin, fmax) then
      EvenMultiples(cs[6].outputFreqHz, fmin, fmax) * EvenMultiples(cs[7].outputFreqHz, fmin, fmax)
    else if cs[6].powered then EvenMultiples(cs[6].outputFreqHz, fmin, fmax)
    else AllMultiples(cs, fmin, fmax, {0, 1, 2, 3, 4, 5})
  }

  /** The outputs 0 to 5 that PLL A leaves without an integer divider. */
  ghost function Unserved(cs: seq<Channel>, a: nat): set<int>
    requires |cs| == 8
  {
    set i | 0 <= i < 6 && cs[i].outputFreqHz != 0 && cs[i].powered && !Serves(cs[i], a)
  }

  ghost function CandidatesB(cs: seq<Channel>, fmin: nat, fmax: nat, a: nat): set<nat>
    requires |cs| == 8
  {
    if cs[7].powered && !Shared(cs, fmin, fmax) then EvenMultiples(cs[7].outputFreqHz, fmin, fmax)
    else AllMultiples(cs, fmin, fmax, Unserved(cs, a))
  }

  /** The PLL each output is given before any frequency is chosen: B for output 7 when it cannot share A. */
  ghost function FirstSource(cs: seq<Channel>, fmin: nat, fmax: nat, i: int): int
    requires |cs| == 8
  {
    if i == 7 && cs[7].powered && !Shared(cs, fmin, fmax) then 1 else 0
  }

  /** How a channel is set up once the two frequencies are chosen. */
  ghost predicate SetUp(before: Channel, after: Channel, source: int, a: nat, b: nat) {
    && after.outputFreqHz == before.outputFreqHz && after.powered == before.powered
    && if before.outputFreqHz == 0 || !before.powered then
         after.pllSource == source && !after.intMode && after.multisynthDivider == 8.0
       else
         var f := before.outputFreqHz;
         if a % f == 0 then after.intMode && after.pllSource == 0 && after.multisynthDivider == (a / f) as real
         else
           && after.pllSource == 1
           && after.intMode == (b % f == 0)
           && after.multisynthDivider == if b % f == 0 then (b / f) as real else b as real / f as real
  }

  /** The whole plan: the two frequencies and the channels. */
  ghost predicate Plan(before: seq<Channel>, after: seq<Channel>, a: nat, b: nat, fmin: nat, fmax: nat)
    requires Usable(before)
  {
    && |after| == 8
    && IsBest(before, CandidatesA(before, fmin, fmax), a)
    && (exists b' | IsBest(before, CandidatesB(before, fmin, fmax, a), b') :: b == if b' == 0 then a else b')
    && forall i | 0 <= i < 8 :: SetUp(before[i], after[i], FirstSource(before, fmin, fmax, i), a, b)
  }

  // ------------------------------------------------------------ how it is found

  /** The even multiples by less than a bound. */
  ghost function EvenBelow(f: nat, fmin: nat, fmax: nat, bound: nat): set<nat> {
    set m: nat | 6 <= m <= 254 && m < bound && m % 2 == 0 && fmin <= Times(f, m) <= fmax :: Times(f, m)
  }

  lemma NextEven(f: nat, fmin: nat, fmax: nat, m: nat)
    requires 6 <= m <= 254 && m % 2 == 0
    ensures EvenBelow(f, fmin, fmax, m + 2)
         == EvenBelow(f, fmin, fmax, m) + if fmin <= Times(f, m) <= fmax then {Times(f, m)} else {}
  {
    hide Times;
    var t, less, more := Times(f, m), EvenBelow(f, fmin, fmax, m), EvenBelow(f, fmin, fmax, m + 2);
    forall v | v in more ensures v in less || (v == t && fmin <= t <= fmax) {
      var n: nat :| 6 <= n <= 254 && n < m + 2 && n % 2 == 0 && fmin <= Times(f, n) <= fmax && v == Times(f, n);
      if n < m {
        assert v in less;
      }
    }
  }

  lemma NoMoreEven(f: nat, fmin: nat, fmax: nat, bound: nat, n: nat)
    requires n <= bound && Times(f, n) > fmax
    ensures EvenBelow(f, fmin, fmax, bound) == EvenMultiples(f, fmin, fmax)
  {
    hide Times;
    forall m: nat | bound <= m ensures Times(f, m) > fmax {
      Grows(f, n, m);
    }
  }

  lemma Grows(f: nat, m: nat, n: nat)
    requires m <= n
    ensures Times(f, m) <= Times(f, n)
  {
  }

  lemma TimesOne(f: nat)
    ensures Times(f, 1) == f
  {
  }

  /** The loops at 415-423 and 429-437. */
  method FindEvenMultiples(f: nat, fmin: nat, fmax: nat) returns (freqs: set<nat>)
    ensures freqs == EvenMultiples(f, fmin, fmax)
  {
    hide Times;
    freqs := {};
    var mult := 6;
    var freq := f;
    ghost var last := 1;
    TimesOne(f);
    while freq <= fmax && mult <= 254
      invariant 6 <= mult <= 256 && mult % 2 == 0
      invariant freq == Times(f, last) && last <= mult
      invariant freqs == EvenBelow(f, fmin, fmax, mult)
      decreases 256 - mult
    {
      NextEven(f, fmin, fmax, mult);
      freq := Times(f, mult);
      last := mult;
      if freq >= fmin && freq <= fmax {
        freqs := freqs + {freq};
      }
      mult := mult + 2;
    }
    if freq > fmax {
      NoMoreEven(f, fmin, fmax, mult, last);
    }
  }

  /** The multiples below a bound. */
  ghost function Below(f: nat, fmin: nat, fmax: nat, bound: nat): set<nat>
    requires f > 0
  {
    set v | v in Multiples(f, fmin, fmax) && v < bound
  }

  lemma MultipleOf(f: nat, v: nat)
    requires f > 0
    ensures v % f == 0 <==> v == f * (v / f)
    ensures v % f == 0 ==> (v + f) % f == 0
  {
    if v % f == 0 {
      Divides(f, v / f + 1, v + f);
    }
  }

  lemma Divides(f: nat, k: nat, v: nat)
    requires f > 0 && v == Times(f, k)
    ensures v % f == 0 && v / f == k
  {
    Arithmetic.QuotientUnique(f, v / f, v % f, k, 0);
  }

  /** No multiple lies strictly between neighbours. */
  lemma NoneBetween(f: nat, u: nat, v: nat)
    requires f > 0 && u % f == 0 && v % f == 0 && u <= v < u + f
    ensures u == v
  {
    MultipleOf(f, u);
    MultipleOf(f, v);
    Arithmetic.QuotientUnique(f, v / f, 0, u / f, v - u);
  }

  /** Where the search for multiples starts (495, 563). */
  function FirstMultiple(f: nat, fmin: nat): nat
    requires f > 0
  {
    if f > fmin then f else f * (fmin / f + if fmin % f != 0 then 1 else 0)
  }

  lemma FirstMultipleIs(f: nat, fmin: nat)
    requires f > 0
    ensures fmin == Times(f, fmin / f) + fmin % f
    ensures FirstMultiple(f, fmin)
         == if f > fmin then f else if fmin % f == 0 then fmin else Times(f, fmin / f) + f
  {
  }

  lemma FirstMultipleIsFirst(f: nat, fmin: nat, fmax: nat)
    requires f > 0
    ensures var first := FirstMultiple(f, fmin);
            && first % f == 0 && first >= fmin && first > 0
            && Below(f, fmin, fmax, first) == {}
  {
    hide Times, FirstMultiple;
    var q := fmin / f;
    var first := FirstMultiple(f, fmin);
    FirstMultipleIs(f, fmin);
    assert 0 % f == 0;
    MultipleOf(f, 0);
    Divides(f, q, Times(f, q));
    MultipleOf(f, Times(f, q));
    forall v | v in Multiples(f, fmin, fmax) ensures v >= first {
      if f > fmin {
        NextAfter(f, 0, v);
      } else if fmin % f != 0 {
        NextAfter(f, Times(f, q), v);
      }
    }
  }

  /** The next multiple above a multiple. */
  lemma NextAfter(f: nat, u: nat, v: nat)
    requires f > 0 && u % f == 0 && v % f == 0 && v > u
    ensures v >= u + f
  {
    if v < u + f {
      NoneBetween(f, u, v);
    }
  }

  lemma OneMoreMultiple(f: nat, fmin: nat, fmax: nat, u: nat)
    requires f > 0 && u % f == 0 && 0 < u && fmin <= u <= fmax
    ensures (u + f) % f == 0
    ensures Below(f, fmin, fmax, u + f) == Below(f, fmin, fmax, u) + {u}
  {
    MultipleOf(f, u);
    forall v | v in Multiples(f, fmin, fmax) && u <= v < u + f ensures v == u {
      NoneBetween(f, u, v);
    }
  }

  /** The loops at 495-501 and 563-568: every multiple of one output's frequency inside the range is added. */
  method AddMultiples(f: nat, fmin: nat, fmax: nat, available0: map<nat, nat>) returns (available: map<nat, nat>)
    requires f > 0 && forall k | k in available0 :: available0[k] == 0
    ensures available.Keys == available0.Keys + Multiples(f, fmin, fmax)
    ensures forall k | k in available :: available[k] == 0
  {
    available := available0;
    var freq := FirstMultiple(f, fmin);
    FirstMultipleIsFirst(f, fmin, fmax);
    while fmin <= freq <= fmax
      invariant freq % f == 0 && freq >= fmin && freq > 0
      invariant available.Keys == available0.Keys + Below(f, fmin, fmax, freq)
      invariant forall k | k in available :: available[k] == 0
      decreases fmax - freq
    {
      OneMoreMultiple(f, fmin, fmax, freq);
      available := available[freq := 0];
      freq := freq + f;
    }
    assert Below(f, fmin, fmax, freq) == Multiples(f, fmin, fmax);
  }

  /** The smallest of a set: a `std::map` is walked in ascending order. */
  lemma HasLeast(s: set<nat>) returns (least: nat)
    requires s != {}
    ensures least in s && forall k | k in s :: least <= k
  {
    var some :| some in s;
    var rest := s - {some};
    assert forall k | k in s :: k == some || k in rest;
    if rest == {} {
      least := some;
    } else {
      var other := HasLeast(rest);
      least := if other < some then other else some;
    }
  }

  lemma {:induction false} ScorePrefix(cs: seq<Channel>, i: nat, v: nat)
    requires i < |cs|
    ensures Score(cs[..i + 1], v) == Score(cs[..i], v) + if Serves(cs[i], v) then 1 else 0
  {
    assert cs[..i + 1][..i] == cs[..i];
  }

  /** The inner scoring loop (510-519): the count of one frequency. */
  method CountServed(clocks: array<Channel>, freq: nat, available0: map<nat, nat>) returns (available: map<nat, nat>)
    requires clocks.Length == 8 && freq in available0 && available0[freq] == 0
    ensures available == available0[freq := Score(clocks[..], freq)]
  {
    available := available0;
    ghost var cs := clocks[..];
    var i := 0;
    while i < 8
      invariant i <= 8
      invariant available == available0[freq := Score(cs[..i], freq)]
    {
      ScorePrefix(cs, i, freq);
      if clocks[i].outputFreqHz != 0 && clocks[i].powered {
        if freq % clocks[i].outputFreqHz == 0 {
          available := available[freq := available[freq] + 1];
        }
      }
      i := i + 1;
    }
    assert cs[..8] == cs;
  }

  /** The scoring loops at 508-525 and 575-592: walk the frequencies upwards, count the outputs each serves, and
      keep the last one with the highest count. */
  method PickBest(clocks: array<Channel>, available0: map<nat, nat>) returns (bestVco: nat)
    requires clocks.Length == 8 && forall k | k in available0 :: available0[k] == 0
    ensures IsBest(clocks[..], available0.Keys, bestVco)
  {
    var available := available0;
    var todo := available.Keys;
    var bestScore := 0;
    bestVco := 0;
    ghost var cs := clocks[..];
    ghost var done := {};
    while todo != {}
      invariant done + todo == available0.Keys && done !! todo && available.Keys == available0.Keys
      invariant forall k | k in todo :: available[k] == 0
      invariant forall d, k | d in done && k in todo :: d < k
      invariant IsBest(cs, done, bestVco)
      invariant bestScore == if done == {} then 0 else Score(cs, bestVco)
      decreases todo
    {
      ghost var l := HasLeast(todo);
      var freq :| freq in todo && forall k | k in todo :: freq <= k;
      available := CountServed(clocks, freq, available);
      if available[freq] >= bestScore {
        bestScore := available[freq];
        bestVco := freq;
      }
      todo := todo - {freq};
      done := done + {freq};
    }
    assert done == available0.Keys;
  }

  // ------------------------------------------------------------ the planner

  ghost predicate SameInputs(cs: seq<Channel>, ds: seq<Channel>) {
    |cs| == |ds| && forall i | 0 <= i < |cs| ::
      cs[i].outputFreqHz == ds[i].outputFreqHz && cs[i].powered == ds[i].powered
  }

  lemma {:induction false} SameScore(cs: seq<Channel>, ds: seq<Channel>, v: nat)
    requires SameInputs(cs, ds)
    ensures Score(cs, v) == Score(ds, v)
    decreases |cs|
  {
    if cs == [] {
    } else {
      SameScore(cs[..|cs| - 1], ds[..|ds| - 1], v);
    }
  }

  lemma SameBest(cs: seq<Channel>, ds: seq<Channel>, s: set<nat>, v: nat)
    requires SameInputs(cs, ds) && IsBest(cs, s, v)
    ensures IsBest(ds, s, v)
  {
    SameScore(cs, ds, v);
    forall u | u in s ensures Score(ds, u) == Score(cs, u) {
      SameScore(cs, ds, u);
    }
  }

  function Fresh(freqs: set<nat>): (available: map<nat, nat>)
    ensures available.Keys == freqs && forall k | k in available :: available[k] == 0
  {
    map k | k in freqs :: 0
  }

  function Reset(c: Channel, source: int): Channel {
    c.(pllSource := source, intMode := false, multisynthDivider := 8.0)
  }

  /** The first part (387-487): reset the outputs, and reserve frequencies for outputs 6 and 7. */
  method ReserveForHighOutputs(clocks: array<Channel>, fmin: nat, fmax: nat)
    returns (availableA: map<nat, nat>, availableB: map<nat, nat>, pllAused: bool, pllBused: bool)
    requires clocks.Length == 8
    modifies clocks
    ensures var cs := old(clocks[..]);
            var f6, f7 := cs[6].outputFreqHz, cs[7].outputFreqHz;
            && (forall i | 0 <= i < 8 :: clocks[i] == Reset(cs[i], FirstSource(cs, fmin, fmax, i)))
            && pllAused == cs[6].powered
            && pllBused == (cs[7].powered && !Shared(cs, fmin, fmax))
            && availableA == Fresh(if Shared(cs, fmin, fmax)
                                   then EvenMultiples(f6, fmin, fmax) * EvenMultiples(f7, fmin, fmax)
                                   else if pllAused then EvenMultiples(f6, fmin, fmax) else {})
            && availableB == Fresh(if pllBused then EvenMultiples(f7, fmin, fmax) else {})
  {
    ghost var cs := clocks[..];
    var i := 0;
    while i < 8
      invariant i <= 8
      invariant forall k | 0 <= k < i :: clocks[k] == Reset(cs[k], 0)
      invariant forall k | i <= k < 8 :: clocks[k] == cs[k]
    {
      clocks[i] := clocks[i].(pllSource := 0, intMode := false, multisynthDivider := 8.0);
      i := i + 1;
    }
    var clk6satisfied, clk7satisfied := !clocks[6].powered, !clocks[7].powered;
    pllAused, pllBused := false, false;
    availableA, availableB := Fresh({}), Fresh({});
    if clocks[6].powered || clocks[7].powered {
      var clk6freqs, clk7freqs := {}, {};
      if !clk6satisfied {
        clk6freqs := FindEvenMultiples(clocks[6].outputFreqHz, fmin, fmax);
      }
      if !clk7satisfied {
        clk7freqs := FindEvenMultiples(clocks[7].outputFreqHz, fmin, fmax);
      }
      var sharedFreqs := clk6freqs * clk7freqs;
      if sharedFreqs != {} {
        clocks[6] := clocks[6].(pllSource := 0);
        clocks[7] := clocks[7].(pllSource := 0);
        pllAused := true;
        availableA := Fresh(sharedFreqs);
      } else {
        if !clk6satisfied {
          clocks[6] := clocks[6].(pllSource := 0);
          pllAused := true;
          availableA := Fresh(clk6freqs);
        }
        if !clk7satisfied {
          clocks[7] := clocks[7].(pllSource := 1);
          pllBused := true;
          availableB := Fresh(clk7freqs);
        }
      }
    }
  }

  /** The assignment loops at 532-549 and 600-619: every output in use that has no integer divider yet takes this
      PLL. */
  method AssignPll(clocks: array<Channel>, vco: nat, pll: int)
    requires clocks.Length == 8
    modifies clocks
    ensures forall i | 0 <= i < 8 :: clocks[i] == Assigned(old(clocks[..])[i], vco, pll)
  {
    ghost var cs := clocks[..];
    var i := 0;
    while i < 8
      invariant i <= 8
      invariant forall k | 0 <= k < i :: clocks[k] == Assigned(cs[k], vco, pll)
      invariant forall k | i <= k < 8 :: clocks[k] == cs[k]
    {
      var c := clocks[i];
      if c.outputFreqHz != 0 && c.powered && !c.intMode {
        if vco % c.outputFreqHz == 0 {
          c := c.(intMode := true, multisynthDivider := (vco / c.outputFreqHz) as real);
        } else {
          c := c.(intMode := false, multisynthDivider := vco as real / c.outputFreqHz as real);
        }
        clocks[i] := c.(pllSource := pll);
      }
      i := i + 1;
    }
  }

  function Assigned(c: Channel, vco: nat, pll: int): Channel {
    if c.outputFreqHz == 0 || !c.powered || c.intMode then c
    else c.(pllSource := pll, intMode := vco % c.outputFreqHz == 0,
            multisynthDivider := if vco % c.outputFreqHz == 0 then (vco / c.outputFreqHz) as real
                                 else vco as real / c.outputFreqHz as real)
  }

  /** The members of a set of indices below a bound. */
  ghost function UpTo(wanted: set<int>, i: int): set<int> {
    set k | k in wanted && k < i
  }

  lemma OneMoreOutput(cs: seq<Channel>, fmin: nat, fmax: nat, wanted: set<int>, i: nat)
    requires forall k | k in wanted :: 0 <= k < |cs| && cs[k].outputFreqHz > 0
    ensures i in wanted ==>
              (AllMultiples(cs, fmin, fmax, UpTo(wanted, i + 1))
               == AllMultiples(cs, fmin, fmax, UpTo(wanted, i)) + Multiples(cs[i].outputFreqHz, fmin, fmax))
    ensures i !in wanted ==> UpTo(wanted, i + 1) == UpTo(wanted, i)
  {
    hide Multiples;
    if i in wanted {
      assert UpTo(wanted, i + 1) == UpTo(wanted, i) + {i};
    }
  }

  /** The candidates of the outputs 0 to 5, in use or not (491-503), or in use and without an integer divider
      (554-570). */
  method CollectMultiples(clocks: array<Channel>, fmin: nat, fmax: nat, onlyUnserved: bool, ghost wanted: set<int>)
    returns (available: map<nat, nat>)
    requires clocks.Length == 8
    requires forall i :: i in wanted <==>
               (0 <= i < 6 && (onlyUnserved ==> clocks[i].outputFreqHz != 0 && clocks[i].powered && !clocks[i].intMode))
    requires forall i | i in wanted :: clocks[i].outputFreqHz > 0
    ensures available == Fresh(AllMultiples(clocks[..], fmin, fmax, wanted))
  {
    hide Multiples;
    available := map[];
    ghost var cs := clocks[..];
    var i := 0;
    while i < 6
      invariant i <= 6
      invariant available.Keys == AllMultiples(cs, fmin, fmax, UpTo(wanted, i))
      invariant forall k | k in available :: available[k] == 0
    {
      OneMoreOutput(cs, fmin, fmax, wanted, i);
      if !onlyUnserved || (clocks[i].outputFreqHz != 0 && clocks[i].powered && !clocks[i].intMode) {
        available := AddMultiples(clocks[i].outputFreqHz, fmin, fmax, available);
      }
      i := i + 1;
    }
    assert UpTo(wanted, i) == wanted;
  }

  lemma SameMultiples(cs: seq<Channel>, ds: seq<Channel>, fmin: nat, fmax: nat, wanted: set<int>)
    requires SameInputs(cs, ds)
    requires forall i | i in wanted :: 0 <= i < |cs| && cs[i].outputFreqHz > 0
    ensures forall i | i in wanted :: 0 <= i < |ds| && ds[i].outputFreqHz > 0
    ensures AllMultiples(cs, fmin, fmax, wanted) == AllMultiples(ds, fmin, fmax, wanted)
  {
    hide Multiples;
  }

  /** The state of every output after the first assignment. */
  ghost predicate AfterA(cs: seq<Channel>, ds: seq<Channel>, fmin: nat, fmax: nat, a: nat) {
    && |cs| == |ds| == 8
    && forall i | 0 <= i < 8 :: ds[i] == Assigned(Reset(cs[i], FirstSource(cs, fmin, fmax, i)), a, 0)
  }

  lemma AfterAInputs(cs: seq<Channel>, ds: seq<Channel>, fmin: nat, fmax: nat, a: nat)
    requires AfterA(cs, ds, fmin, fmax, a)
    ensures SameInputs(ds, cs)
    ensures forall i | 0 <= i < 8 :: ds[i].intMode == Serves(cs[i], a)
  {
    hide FirstSource;
  }

  lemma AfterBIsPlan(cs: seq<Channel>, ds: seq<Channel>, es: seq<Channel>, fmin: nat, fmax: nat, a: nat, b: nat)
    requires AfterA(cs, ds, fmin, fmax, a) && |es| == 8
    requires forall i | 0 <= i < 8 :: es[i] == Assigned(ds[i], b, 1)
    ensures forall i | 0 <= i < 8 :: SetUp(cs[i], es[i], FirstSource(cs, fmin, fmax, i), a, b)
  {
    hide FirstSource;
  }

  /** The PLL A stage (489-549). */
  method PlanA(clocks: array<Channel>, fmin: nat, fmax: nat, availableA0: map<nat, nat>, pllAused: bool,
               ghost cs: seq<Channel>)
    returns (bestVcoA: nat)
    requires clocks.Length == 8 && Usable(cs) && pllAused == cs[6].powered
    requires forall i | 0 <= i < 8 :: clocks[i] == Reset(cs[i], FirstSource(cs, fmin, fmax, i))
    requires availableA0 == Fresh(if pllAused then CandidatesA(cs, fmin, fmax) else {})
    modifies clocks
    ensures IsBest(cs, CandidatesA(cs, fmin, fmax), bestVcoA)
    ensures AfterA(cs, clocks[..], fmin, fmax, bestVcoA)
  {
    hide IsBest, Assigned, AllMultiples, EvenMultiples;
    var availableA := availableA0;
    if |availableA| == 0 && !pllAused {
      availableA := CollectMultiples(clocks, fmin, fmax, false, {0, 1, 2, 3, 4, 5});
      SameMultiples(clocks[..], cs, fmin, fmax, {0, 1, 2, 3, 4, 5});
    }
    bestVcoA := PickBest(clocks, availableA);
    SameBest(clocks[..], cs, availableA.Keys, bestVcoA);
    AssignPll(clocks, bestVcoA, 0);
  }

  /** The PLL B stage (552-619). */
  method PlanB(clocks: array<Channel>, fmin: nat, fmax: nat, availableB0: map<nat, nat>, pllBused: bool,
               bestVcoA: nat, ghost cs: seq<Channel>)
    returns (bestVcoB: nat)
    requires clocks.Length == 8 && Usable(cs) && AfterA(cs, clocks[..], fmin, fmax, bestVcoA)
    requires pllBused == (cs[7].powered && !Shared(cs, fmin, fmax))
    requires availableB0 == Fresh(if pllBused then CandidatesB(cs, fmin, fmax, bestVcoA) else {})
    modifies clocks
    ensures exists b' | IsBest(cs, CandidatesB(cs, fmin, fmax, bestVcoA), b') ::
              bestVcoB == if b' == 0 then bestVcoA else b'
    ensures forall i | 0 <= i < 8 ::
              SetUp(cs[i], clocks[i], FirstSource(cs, fmin, fmax, i), bestVcoA, bestVcoB)
  {
    hide IsBest, Assigned, AllMultiples, EvenMultiples, Shared;
    ghost var ds := clocks[..];
    AfterAInputs(cs, ds, fmin, fmax, bestVcoA);
    var availableB := availableB0;
    if |availableB| == 0 && !pllBused {
      availableB := CollectMultiples(clocks, fmin, fmax, true, Unserved(cs, bestVcoA));
      SameMultiples(ds, cs, fmin, fmax, Unserved(cs, bestVcoA));
    }
    bestVcoB := PickBest(clocks, availableB);
    SameBest(ds, cs, availableB.Keys, bestVcoB);
    assert availableB.Keys == CandidatesB(cs, fmin, fmax, bestVcoA);
    ghost var found := bestVcoB;
    assert IsBest(cs, CandidatesB(cs, fmin, fmax, bestVcoA), found);
    if bestVcoB == 0 {
      bestVcoB := bestVcoA;
    }
    AssignPll(clocks, bestVcoB, 1);
    AfterBIsPlan(cs, ds, clocks[..], fmin, fmax, bestVcoA, bestVcoB);
  }

  /** FindVCO (385-620). `vcoHz` holds the frequencies of PLL A and PLL B. */
  method FindVCO(clocks: array<Channel>, vcoHz: array<nat>, fmin: nat, fmax: nat)
    requires clocks.Length == 8 && vcoHz.Length == 2 && Usable(clocks[..])
    modifies clocks, vcoHz
    ensures Plan(old(clocks[..]), clocks[..], vcoHz[0], vcoHz[1], fmin, fmax)
  {
    ghost var cs := clocks[..];
    var availableA, availableB, pllAused, pllBused := ReserveForHighOutputs(clocks, fmin, fmax);
    vcoHz[0] := PlanA(clocks, fmin, fmax, availableA, pllAused, cs);
    vcoHz[1] := PlanB(clocks, fmin, fmax, availableB, pllBused, vcoHz[0], cs);
  }
}

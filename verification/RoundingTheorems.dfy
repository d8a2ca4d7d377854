/**
 When rounding to a signed-digit code gives the same number as rounding to an integer, and how
 good the codes are (GFIR/rounding.c).
 */
module RoundingTheorems {
  import opened Arithmetic
  import opened SignedDigits
  import opened Rounding

  lemma SignedRemainder(a: int, m: nat)
    requires m >= 1
    ensures Sign(a) * (Magnitude(a) % m) == a <==> Magnitude(a) < m
  {
    if Magnitude(a) < m {
      assert Magnitude(a) % m == Magnitude(a);
    }
  }

  /** The code of a number in range stands for that number, and no signed-digit string for it is lighter. */
  lemma CodeIsExactAndLightest(a: int, cprec: nat, csdprec: int, bin: seq<int>, csd: seq<int>, cut: seq<int>,
                               d: seq<int>)
    requires Coded(a, cprec, csdprec, bin, csd, cut) && Magnitude(a) < Pow2(cprec)
    requires Signed(d) && Value(d) == a
    ensures Value(csd) == a && Weight(csd) <= Weight(d)
  {
    SignedRemainder(a, Pow2(cprec));
    CanonicalHasFewestDigits(csd, d);
  }

  /** The cut code keeps at least one digit of a nonzero number, and is off by less than a third of the
      lowest place it keeps. */
  lemma CutCodeError(a: int, cprec: nat, csdprec: int, bin: seq<int>, csd: seq<int>, cut: seq<int>) returns (p: nat)
    requires Coded(a, cprec, csdprec, bin, csd, cut) && csdprec >= 1
    requires 0 < Magnitude(a) < Pow2(cprec)
    ensures LowestKept(cut, p) && 3 * Magnitude(a - Value(cut)) < Pow2(p)
    ensures Weight(cut) <= csdprec
  {
    SignedRemainder(a, Pow2(cprec));
    ZeroHasNoDigits(csd);
    p := SomethingKept(csd, csdprec);
    TruncationError(csd, csdprec, p);
    KeptWeight(csd, csdprec);
  }

  // ------------------------------------------------------------ when both roundings agree

  lemma KeptIsCanonical(c: seq<int>, budget: int)
    requires Canonical(c)
    ensures Canonical(Kept(c, budget))
  {
  }

  lemma NothingKept(c: seq<int>, budget: int)
    requires budget <= 0
    ensures Value(Kept(c, budget)) == 0 && Weight(Kept(c, budget)) == 0
  {
    forall i | 0 <= i < |c|
      ensures Kept(c, budget)[i] == 0
    {
      assert c[i..] != [] && (c[i] != 0 ==> Weight(c[i..]) >= 1);
    }
    ZeroString(Kept(c, budget));
  }

  lemma MultipleNotSmall(q: int, p: nat)
    requires q != 0 && p >= 1
    ensures Magnitude(p * q) >= p
  {
    if q > 0 {
      MultipleAtLeast(q, p);
    } else {
      MultipleAtLeast(-q, p);
      assert p * q == -(p * -q);
    }
  }

  /** Cutting a code never makes it half as large again. */
  lemma KeptNotMuchLarger(c: seq<int>, budget: int)
    requires Canonical(c)
    ensures 2 * Magnitude(Value(Kept(c, budget))) <= 3 * Magnitude(Value(c))
  {
    if budget <= 0 {
      NothingKept(c, budget);
    } else if Weight(c) == 0 {
      WholeKept(c, budget);
    } else {
      var t := Kept(c, budget);
      var p := SomethingKept(c, budget);
      TruncationError(c, budget, p);
      LowZeros(t, p);
      KeptAbove(c, budget, p);
      var top := c[p..];
      assert Canonical(top) by {
        assert forall i | 0 <= i < |top| :: top[i] == c[p + i];
      }
      EvenAfterDigit(top);
      MultipleNotSmall(Value(top), Pow2(p));
    }
  }

  /** A number too large for the code never comes back from it, whatever the digit budget. */
  lemma OutOfRangeIsLost(a: int, cprec: nat, csdprec: int, csd: seq<int>)
    requires |csd| == cprec + 1 && Canonical(csd)
    requires Value(csd) == Sign(a) * (Magnitude(a) % Pow2(cprec)) && Magnitude(a) >= Pow2(cprec)
    ensures Value(Kept(csd, csdprec)) != a
  {
    var p, t := Pow2(cprec), Kept(csd, csdprec);
    KeptNotMuchLarger(csd, csdprec);
    KeptIsCanonical(csd, csdprec);
    CanonicalBound(t);
    if Magnitude(a) < 2 * p {
      RemainderBelowTwice(Magnitude(a), p);
    }
  }

  lemma RemainderBelowTwice(a: nat, p: nat)
    requires p <= a < 2 * p
    ensures a % p == a - p
  {
    QuotientUnique(p, a / p, a % p, 1, a - p);
  }

  lemma BudgetExceeded(c: seq<int>, budget: int)
    requires Weight(c) > budget && Weight(c) > 0
    ensures Kept(c, budget) != c
  {
    if budget <= 0 {
      NothingKept(c, budget);
    } else {
      KeptWeight(c, budget);
    }
  }

  /** For every number and every budget: the cut code stands for the number exactly when the number is in
      range and its lightest form fits the budget. */
  lemma CutCodeIsExactIff(a: int, cprec: nat, csdprec: int, bin: seq<int>, csd: seq<int>, cut: seq<int>)
    requires Coded(a, cprec, csdprec, bin, csd, cut)
    ensures Value(cut) == a <==> Magnitude(a) < Pow2(cprec) && (a == 0 || LeastWeight(a) <= csdprec)
  {
    SignedRemainder(a, Pow2(cprec));
    if Magnitude(a) >= Pow2(cprec) {
      OutOfRangeIsLost(a, cprec, csdprec, csd);
    } else {
      CanonicalIsLeast(csd);
      if Weight(csd) <= csdprec {
        WholeKept(csd, csdprec);
      } else if Weight(csd) == 0 {
        ZeroWeight(csd);
        ZeroString(csd);
        NothingKept(csd, csdprec);
      } else {
        KeptIsCanonical(csd, csdprec);
        BudgetExceeded(csd, csdprec);
        if Value(cut) == Value(csd) {
          CanonicalIsUnique(csd, cut);
        }
        ZeroHasNoDigits(csd);
      }
    }
  }

  lemma ZeroHasNoDigits(c: seq<int>)
    requires Canonical(c)
    ensures Value(c) == 0 <==> Weight(c) == 0
  {
    CanonicalIsLeast(c);
    if Weight(c) == 0 {
      ZeroWeight(c);
      ZeroString(c);
    }
  }

  /** Half the digits plus one are always budget enough. */
  lemma WideBudget(a: int, cprec: nat, csdprec: int, bin: seq<int>, csd: seq<int>, cut: seq<int>)
    requires Coded(a, cprec, csdprec, bin, csd, cut)
    requires Magnitude(a) < Pow2(cprec) && 2 * csdprec >= cprec + 2
    ensures LeastWeight(a) <= csdprec
  {
    SignedRemainder(a, Pow2(cprec));
    CanonicalIsLeast(csd);
    CanonicalIsSparse(csd);
  }

  function AbsReal(x: real): real {
    if x < 0.0 then -x else x
  }

  /** The rounded coefficient is in range exactly when the scaled one is half a unit or more inside it. */
  lemma RoundedInRange(x: real, cprec: nat)
    ensures Magnitude(Rounded(x, cprec)) < Pow2(cprec)
            <==> AbsReal(ScaledUp(x, cprec)) < Pow2(cprec) as real - 0.5
  {
    ScaledSign(x, cprec);
    RoundedBelow(ScaledUp(x, cprec), x > 0.0, Pow2(cprec));
  }

  lemma ScaledSign(x: real, cprec: nat)
    ensures if x > 0.0 then ScaledUp(x, cprec) > 0.0 else ScaledUp(x, cprec) <= 0.0
  {
  }

  /** Rounding half away from zero stays below p exactly for magnitudes below p - 1/2. */
  lemma RoundedBelow(y: real, positive: bool, p: nat)
    requires if positive then y > 0.0 else y <= 0.0
    ensures Magnitude(RoundHalfAway(y, positive)) < p <==> AbsReal(y) < p as real - 0.5
  {
    if positive {
      FloorBelow(y + 0.5, p);
    } else {
      FloorBelow(0.5 - y, p);
      assert -(y + -0.5) == 0.5 - y;
    }
  }

  lemma FloorBelow(z: real, k: int)
    ensures z.Floor < k <==> z < k as real
  {
  }

  /** round2csd and round2int give the same number for a coefficient exactly when it rounds into range and its
      lightest form fits the digit budget. */
  lemma RoundingsAgreeIff(x: real, cprec: nat, csdprec: int, bin: seq<int>, csd: seq<int>, cut: seq<int>)
    requires Coded(Rounded(x, cprec), cprec, csdprec, bin, csd, cut)
    ensures AsFraction(Value(cut), cprec) == AsFraction(Rounded(x, cprec), cprec)
            <==> AbsReal(ScaledUp(x, cprec)) < Pow2(cprec) as real - 0.5 &&
                 (Rounded(x, cprec) == 0 || LeastWeight(Rounded(x, cprec)) <= csdprec)
  {
    CutCodeIsExactIff(Rounded(x, cprec), cprec, csdprec, bin, csd, cut);
    RoundedInRange(x, cprec);
    FractionsEqual(Value(cut), Rounded(x, cprec), cprec);
  }

  /** What a coefficient comes back as from its code is the multiple of 2^-cprec nearest to it exactly when it rounds
      into range and its lightest form fits the digit budget. */
  lemma CodedIsNearestIff(x: real, y: real, cprec: nat, csdprec: int, bin: seq<int>, csd: seq<int>, cut: seq<int>)
    requires Coded(Rounded(x, cprec), cprec, csdprec, bin, csd, cut) && y == AsFraction(Value(cut), cprec)
    ensures NearestMultiple(x, y, cprec)
            <==> AbsReal(x) * Pow2(cprec) as real < Pow2(cprec) as real - 0.5 &&
                 (Rounded(x, cprec) == 0 || LeastWeight(Rounded(x, cprec)) <= csdprec)
  {
    hide NearestMultiple, Coded, Rounded, AsFraction;
    NearestMultipleIff(x, Value(cut), cprec);
    RoundingsAgreeIff(x, cprec, csdprec, bin, csd, cut);
    FractionsEqual(Value(cut), Rounded(x, cprec), cprec);
    MagnitudeScaled(x, Pow2(cprec) as real);
  }

  lemma MagnitudeScaled(x: real, p: real)
    requires p > 0.0
    ensures AbsReal(x * p) == AbsReal(x) * p
  {
  }

  /** With 2 csdprec >= cprec + 2 the digit budget never matters. */
  lemma RoundingsAgreeWithWideBudget(x: real, cprec: nat, csdprec: int, bin: seq<int>, csd: seq<int>, cut: seq<int>)
    requires Coded(Rounded(x, cprec), cprec, csdprec, bin, csd, cut) && 2 * csdprec >= cprec + 2
    ensures AsFraction(Value(cut), cprec) == AsFraction(Rounded(x, cprec), cprec)
            <==> AbsReal(ScaledUp(x, cprec)) < Pow2(cprec) as real - 0.5
  {
    RoundingsAgreeIff(x, cprec, csdprec, bin, csd, cut);
    RoundedInRange(x, cprec);
    if Magnitude(Rounded(x, cprec)) < Pow2(cprec) {
      WideBudget(Rounded(x, cprec), cprec, csdprec, bin, csd, cut);
    }
  }

  lemma FractionsEqual(k: int, l: int, cprec: nat)
    ensures AsFraction(k, cprec) == AsFraction(l, cprec) <==> k == l
  {
    var p := Pow2(cprec) as real;
    assert AsFraction(k, cprec) * p == k as real && AsFraction(l, cprec) * p == l as real;
  }

  /** A coefficient below one that rounds up to one comes back as zero from its code, and as one from
      round2int. */
  lemma TopOfRangeCollapses(bin: seq<int>, csd: seq<int>, cut: seq<int>)
    requires Coded(Rounded(0.9, 2), 2, 3, bin, csd, cut)
    ensures AsFraction(Rounded(0.9, 2), 2) == 1.0 && AsFraction(Value(cut), 2) == 0.0
  {
    assert Rounded(0.9, 2) == 4;
    assert 4 % Pow2(2) == 0;
    ZeroHasNoDigits(csd);
    WholeKept(csd, 3);
  }
}

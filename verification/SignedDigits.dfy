/**
 Signed-digit strings, least significant digit first, and the theory of the canonical form:
 uniqueness, least weight, and the error of keeping only the leading nonzero digits.
 */
module SignedDigits {
  import opened Arithmetic

  /** The number a digit string stands for. */
  function Value(c: seq<int>): int {
    if c == [] then 0 else c[0] + 2 * Value(c[1..])
  }

  /** How many digits are not zero. */
  function Weight(c: seq<int>): nat {
    if c == [] then 0 else (if c[0] != 0 then 1 else 0) + Weight(c[1..])
  }

  predicate Signed(c: seq<int>) {
    forall i | 0 <= i < |c| :: -1 <= c[i] <= 1
  }

  predicate NonAdjacent(c: seq<int>) {
    forall i | 0 < i < |c| :: c[i - 1] == 0 || c[i] == 0
  }

  /** Signed digits, no two neighbours both nonzero. */
  predicate Canonical(c: seq<int>) {
    Signed(c) && NonAdjacent(c)
  }

  lemma {:induction false} ValueSnoc(c: seq<int>, x: int)
    ensures Value(c + [x]) == Value(c) + Pow2(|c|) * x
  {
    if c == [] {
    } else {
      ValueSnoc(c[1..], x);
      assert (c + [x])[1..] == c[1..] + [x];
      assert Pow2(|c|) * x == 2 * (Pow2(|c| - 1) * x);
    }
  }

  lemma {:induction false} ValueConcat(c: seq<int>, d: seq<int>)
    ensures Value(c + d) == Value(c) + Pow2(|c|) * Value(d)
  {
    if c == [] {
      assert c + d == d;
    } else {
      ValueConcat(c[1..], d);
      assert (c + d)[1..] == c[1..] + d;
      assert Pow2(|c|) * Value(d) == 2 * (Pow2(|c| - 1) * Value(d));
    }
  }

  lemma {:induction false} WeightConcat(c: seq<int>, d: seq<int>)
    ensures Weight(c + d) == Weight(c) + Weight(d)
  {
    if c == [] {
      assert c + d == d;
    } else {
      WeightConcat(c[1..], d);
      assert (c + d)[1..] == c[1..] + d;
    }
  }

  lemma {:induction false} ZeroString(c: seq<int>)
    requires forall i | 0 <= i < |c| :: c[i] == 0
    ensures Value(c) == 0 && Weight(c) == 0
  {
    if c == [] {
    } else {
      ZeroString(c[1..]);
    }
  }

  lemma {:induction false} ZeroWeight(c: seq<int>)
    requires Weight(c) == 0
    ensures forall i | 0 <= i < |c| :: c[i] == 0
  {
    if c == [] {
    } else {
      ZeroWeight(c[1..]);
      assert forall i | 0 < i < |c| :: c[i] == c[1..][i - 1];
    }
  }

  // ------------------------------------------------------------ least weight

  /** The weight of a number's canonical form, by the number alone: an odd number gives up the one of
      1 and -1 that leaves twice an even number. */
  function LeastWeight(n: int): nat
    decreases Magnitude(n)
  {
    Halved(n);
    if n == 0 then 0
    else if n % 2 == 0 then LeastWeight(n / 2)
    else if (n / 2) % 2 == 0 then 1 + LeastWeight(n / 2)
    else 1 + LeastWeight(n / 2 + 1)
  }

  lemma WeightOfDouble(h: int)
    ensures LeastWeight(2 * h) == LeastWeight(h)
  {
    Halves(h, 0);
  }

  lemma WeightOfOdd(h: int, u: int)
    requires h % 2 == 0 && (u == 1 || u == -1)
    ensures LeastWeight(2 * h + u) == 1 + LeastWeight(h)
  {
    if u == 1 {
      Halves(h, 1);
    } else {
      Halves(h - 1, 1);
      assert 2 * (h - 1) + 1 == 2 * h + u;
      Halved(h);
      Halves(h / 2 - 1, 1);
    }
  }

  /** Moving an odd number to either neighbour does not cost. */
  lemma {:induction false} OddNeighbour(h: int, w: int, u: int)
    requires h % 2 == 0 && (w == 1 || w == -1) && (u == 1 || u == -1)
    ensures LeastWeight(2 * h + w + u) <= LeastWeight(2 * h + w)
    decreases Magnitude(2 * h + w), 0
  {
    WeightOfOdd(h, w);
    WeightOfDouble(h);
    if w == u {
      WeightOfDouble(h + u);
      assert 2 * h + w + u == 2 * (h + u);
      AnyNeighbour(h, u);
    }
  }

  /** An odd number as twice an even one, give or take one. */
  lemma OddSplit(n: int) returns (h: int, w: int)
    requires n % 2 == 1
    ensures n == 2 * h + w && h % 2 == 0 && (w == 1 || w == -1)
  {
    Halved(n);
    if (n / 2) % 2 == 0 {
      h, w := n / 2, 1;
    } else {
      h, w := n / 2 + 1, -1;
      Halved(n / 2);
      Halves((n / 2) / 2 + 1, 0);
    }
  }

  /** Appending a nonzero digit costs at most one. */
  lemma {:induction false} DoublePlus(m: int, u: int)
    requires u == 1 || u == -1
    ensures LeastWeight(2 * m + u) <= 1 + LeastWeight(m)
    decreases Magnitude(m), 1
  {
    if m % 2 == 0 {
      WeightOfOdd(m, u);
    } else {
      var h, w := OddSplit(m);
      OddNeighbour(h, w, u);
      WeightOfOdd(m + u, -u);
      assert 2 * (m + u) - u == 2 * m + u;
    }
  }

  /** Moving any number to either neighbour costs at most one. */
  lemma {:induction false} AnyNeighbour(n: int, u: int)
    requires u == 1 || u == -1
    ensures LeastWeight(n + u) <= LeastWeight(n) + 1
    decreases Magnitude(n), 2
  {
    if n % 2 == 1 {
      var h, w := OddSplit(n);
      OddNeighbour(h, w, u);
    } else {
      var m := n / 2;
      WeightOfDouble(m);
      DoublePlus(m, u);
      assert n == 2 * m;
    }
  }

  /** No signed-digit string, of any length, weighs less than LeastWeight of its value. */
  lemma {:induction false} NothingLighter(d: seq<int>)
    requires Signed(d)
    ensures LeastWeight(Value(d)) <= Weight(d)
  {
    if d == [] {
    } else {
      NothingLighter(d[1..]);
      var v, u := Value(d[1..]), d[0];
      assert Value(d) == 2 * v + u;
      if u == 0 {
        WeightOfDouble(v);
      } else {
        DoublePlus(v, u);
      }
    }
  }

  lemma CanonicalTail(c: seq<int>)
    requires Canonical(c) && c != []
    ensures Canonical(c[1..])
  {
    var t := c[1..];
    assert forall i | 0 <= i < |t| :: t[i] == c[i + 1];
  }

  /** After a nonzero digit a canonical string goes on with an even value. */
  lemma EvenAfterDigit(c: seq<int>)
    requires Canonical(c) && c != [] && c[0] != 0
    ensures Value(c[1..]) % 2 == 0 && Value(c) == 2 * Value(c[1..]) + c[0] && Value(c) % 2 == 1
  {
    var t := c[1..];
    if t != [] {
      assert t[0] == c[1] == 0;
      Halves(Value(t[1..]), 0);
    }
    if c[0] == 1 {
      Halves(Value(t), 1);
    } else {
      Halves(Value(t) - 1, 1);
    }
  }

  lemma {:induction false} CanonicalIsLeast(c: seq<int>)
    requires Canonical(c)
    ensures Weight(c) == LeastWeight(Value(c))
  {
    if c == [] {
    } else {
      CanonicalTail(c);
      CanonicalIsLeast(c[1..]);
      if c[0] == 0 {
        WeightOfDouble(Value(c[1..]));
      } else {
        EvenAfterDigit(c);
        WeightOfOdd(Value(c[1..]), c[0]);
      }
    }
  }

  /** Among all signed-digit strings for one value, of any length, a canonical one has fewest nonzero digits. */
  lemma CanonicalHasFewestDigits(c: seq<int>, d: seq<int>)
    requires Canonical(c) && Signed(d) && Value(d) == Value(c)
    ensures Weight(c) <= Weight(d)
  {
    CanonicalIsLeast(c);
    NothingLighter(d);
  }

  /** The first digit is settled by the value. */
  lemma FirstDigitSettled(v: int, x: int, w: int, y: int)
    requires 2 * v + x == 2 * w + y && -1 <= x <= 1 && -1 <= y <= 1
    requires (x != 0 ==> v % 2 == 0) && (y != 0 ==> w % 2 == 0)
    ensures x == y && v == w
  {
    Halved(v);
    Halved(w);
  }

  /** A value has one canonical string of each length at most. */
  lemma {:induction false} CanonicalIsUnique(c: seq<int>, d: seq<int>)
    requires Canonical(c) && Canonical(d) && |c| == |d| && Value(c) == Value(d)
    ensures c == d
  {
    if c == [] {
    } else {
      CanonicalTail(c);
      CanonicalTail(d);
      if c[0] != 0 {
        EvenAfterDigit(c);
      }
      if d[0] != 0 {
        EvenAfterDigit(d);
      }
      FirstDigitSettled(Value(c[1..]), c[0], Value(d[1..]), d[0]);
      CanonicalIsUnique(c[1..], d[1..]);
      assert c == [c[0]] + c[1..] && d == [d[0]] + d[1..];
    }
  }

  // ------------------------------------------------------------ how much a canonical string can hold

  lemma {:induction false} CanonicalBound(c: seq<int>)
    requires Canonical(c)
    ensures 3 * Magnitude(Value(c)) < 2 * Pow2(|c|)
    decreases |c|
  {
    if c == [] {
    } else {
      CanonicalTail(c);
      var t := c[1..];
      if c[0] == 0 || t == [] {
        CanonicalBound(t);
      } else {
        assert t[0] == c[1] == 0;
        CanonicalTail(t);
        CanonicalBound(t[1..]);
        assert Value(c) == c[0] + 4 * Value(t[1..]);
        assert Pow2(|c|) == 4 * Pow2(|c| - 2);
      }
    }
  }

  lemma {:induction false} CanonicalIsSparse(c: seq<int>)
    requires Canonical(c)
    ensures 2 * Weight(c) <= |c| + 1
    decreases |c|
  {
    if c == [] {
    } else {
      CanonicalTail(c);
      var t := c[1..];
      if c[0] == 0 || t == [] {
        CanonicalIsSparse(t);
      } else {
        assert t[0] == c[1] == 0;
        CanonicalTail(t);
        CanonicalIsSparse(t[1..]);
      }
    }
  }

  // ------------------------------------------------------------ keeping the leading nonzero digits

  /** The string with everything after its `budget` most significant nonzero digits cleared. */
  function Kept(c: seq<int>, budget: int): (t: seq<int>)
    ensures |t| == |c|
  {
    seq(|c|, i requires 0 <= i < |c| => if Weight(c[i..]) <= budget then c[i] else 0)
  }

  lemma {:induction false} WeightMonotone(c: seq<int>, i: nat, j: nat)
    requires i <= j <= |c|
    ensures Weight(c[j..]) <= Weight(c[i..])
    decreases j - i
  {
    if i == j {
    } else {
      WeightMonotone(c, i + 1, j);
      assert c[i..][1..] == c[i + 1..];
    }
  }

  lemma WholeKept(c: seq<int>, budget: int)
    requires Weight(c) <= budget
    ensures Kept(c, budget) == c
  {
    assert c[0..] == c;
    forall i | 0 <= i < |c|
      ensures Weight(c[i..]) <= budget
    {
      WeightMonotone(c, 0, i);
    }
  }

  lemma KeptTail(c: seq<int>, budget: int)
    requires c != []
    ensures Kept(c, budget)[1..] == Kept(c[1..], budget)
  {
    assert forall i | 0 < i < |c| :: c[1..][i - 1..] == c[i..];
  }

  /** Exactly as many nonzero digits survive as the budget allows. */
  lemma {:induction false} KeptWeight(c: seq<int>, budget: nat)
    ensures Weight(Kept(c, budget)) == if Weight(c) <= budget then Weight(c) else budget
  {
    if c == [] {
    } else {
      KeptTail(c, budget);
      KeptWeight(c[1..], budget);
      assert c[0..] == c;
    }
  }

  /** Place p holds the least significant digit that was kept. */
  predicate LowestKept(t: seq<int>, p: nat) {
    p < |t| && t[p] != 0 && forall k | 0 <= k < p :: t[k] == 0
  }

  lemma {:induction false} SomethingKept(c: seq<int>, budget: nat) returns (p: nat)
    requires budget >= 1 && Weight(c) > 0
    ensures LowestKept(Kept(c, budget), p)
  {
    KeptTail(c, budget);
    assert c[0..] == c;
    if c[0] != 0 && Weight(c) <= budget {
      p := 0;
    } else {
      var q := SomethingKept(c[1..], budget);
      assert Kept(c, budget)[1..][q] == Kept(c, budget)[q + 1];
      assert forall k | 0 < k < q + 1 :: Kept(c, budget)[k] == Kept(c, budget)[1..][k - 1];
      p := q + 1;
    }
  }

  lemma {:induction false} LowZeros(t: seq<int>, p: nat)
    requires p <= |t| && forall k | 0 <= k < p :: t[k] == 0
    ensures Value(t) == Pow2(p) * Value(t[p..])
  {
    assert t == t[..p] + t[p..];
    ValueConcat(t[..p], t[p..]);
    ZeroString(t[..p]);
  }

  lemma KeptAbove(c: seq<int>, budget: int, p: nat)
    requires LowestKept(Kept(c, budget), p)
    ensures c[p] != 0 && Kept(c, budget)[p..] == c[p..]
  {
    forall k | p <= k < |c|
      ensures Kept(c, budget)[k] == c[k]
    {
      WeightMonotone(c, p, k);
    }
  }

  /** Below a nonzero digit a canonical string holds less than a third of that digit's place. */
  lemma LowPartBound(c: seq<int>, p: nat)
    requires Canonical(c) && p < |c| && c[p] != 0
    ensures 3 * Magnitude(Value(c[..p])) < Pow2(p)
  {
    if p > 0 {
      var low := c[..p - 1];
      assert c[p - 1] == 0;
      assert c[..p] == low + [0];
      ValueSnoc(low, 0);
      assert Canonical(low);
      CanonicalBound(low);
    }
  }

  /** Dropping the low digits of a canonical string moves its value by less than a third of the place of
      the lowest digit kept. */
  lemma TruncationError(c: seq<int>, budget: int, p: nat)
    requires Canonical(c) && LowestKept(Kept(c, budget), p)
    ensures 3 * Magnitude(Value(c) - Value(Kept(c, budget))) < Pow2(p)
  {
    KeptAbove(c, budget, p);
    LowZeros(Kept(c, budget), p);
    assert c == c[..p] + c[p..];
    ValueConcat(c[..p], c[p..]);
    LowPartBound(c, p);
  }
}

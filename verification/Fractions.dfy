/**
 Dividers as fractions for the Si5351C registers (Si5351C.cpp 23-40 and 666-668), over exact reals.
 */
module Fractions {
  import opened Arithmetic

  const DENOMINATOR: int := 1048576

  predicate DividesInto(d: int, n: int)
    requires d > 0
  {
    n % d == 0
  }

  /** No whole number above 1 divides both. */
  ghost predicate Coprime(a: int, b: int) {
    forall d {:trigger DividesInto(d, a)} | d > 0 && DividesInto(d, a) && DividesInto(d, b) :: d == 1
  }

  lemma DividesMeans(d: int, n: int, k: int)
    requires d > 0
    ensures n == d * k ==> DividesInto(d, n) && n / d == k
    ensures DividesInto(d, n) ==> n == d * (n / d)
  {
    if n == d * k {
      QuotientUnique(d, n / d, n % d, k, 0);
    }
  }

  /** What divides two numbers divides what is left of one by the other. */
  lemma DividesRest(d: int, a: int, b: int)
    requires d > 0 && b > 0 && DividesInto(d, b)
    ensures DividesInto(d, a) <==> DividesInto(d, a % b)
  {
    DividesMeans(d, b, 0);
    var q, c := a / b, b / d;
    assert a == q * b + a % b;
    assert q * b == d * (q * c) by { assert q * (d * c) == d * (q * c); }
    if DividesInto(d, a) {
      DividesMeans(d, a, 0);
      assert a % b == d * (a / d - q * c);
      DividesMeans(d, a % b, a / d - q * c);
    }
    if DividesInto(d, a % b) {
      DividesMeans(d, a % b, 0);
      assert a == d * (q * c + (a % b) / d);
      DividesMeans(d, a, q * c + (a % b) / d);
    }
  }

  /** The same numbers divide both pairs. */
  ghost predicate SameDivisors(a: int, b: int, a': int, b': int) {
    forall d {:trigger DividesInto(d, a)} {:trigger DividesInto(d, a')} | d > 0 ::
      DividesInto(d, a) && DividesInto(d, b) <==> DividesInto(d, a') && DividesInto(d, b')
  }

  lemma EuclidStep(a: int, b: int)
    requires b > 0
    ensures SameDivisors(a, b, b, a % b)
  {
    forall d | d > 0
      ensures DividesInto(d, a) && DividesInto(d, b) <==> DividesInto(d, b) && DividesInto(d, a % b)
    {
      if DividesInto(d, b) {
        DividesRest(d, a, b);
      }
    }
  }

  /** The loop at 29-36: what divides both numbers is what divides the result. */
  method GreatestCommonDivisor(B: int, C: int) returns (a: int)
    requires B >= 0 && C > 0
    ensures a > 0 && DividesInto(a, B) && DividesInto(a, C)
    ensures forall d {:trigger DividesInto(d, a)} | d > 0 && DividesInto(d, B) && DividesInto(d, C) :: DividesInto(d, a)
  {
    hide DividesInto;
    var b := C;
    a := B;
    while b != 0
      invariant a >= 0 && b >= 0 && (b == 0 ==> a > 0)
      invariant SameDivisors(B, C, a, b)
      decreases b
    {
      EuclidStep(a, b);
      var temp := a % b;
      a := b;
      b := temp;
    }
    DividesMeans(a, a, 1);
    DividesMeans(a, 0, 0);
    assert DividesInto(a, B) && DividesInto(a, C);
    forall d | d > 0 && DividesInto(d, B) && DividesInto(d, C) ensures DividesInto(d, a) {
    }
  }

  lemma LowestTerms(B: int, C: int, g: int)
    requires B >= 0 && C > 0 && g > 0 && DividesInto(g, B) && DividesInto(g, C)
    requires forall d {:trigger DividesInto(d, g)} | d > 0 && DividesInto(d, B) && DividesInto(d, C) ::
               DividesInto(d, g)
    ensures 0 <= B / g && 0 < C / g && B == g * (B / g) && C == g * (C / g)
    ensures (B / g) * C == B * (C / g)
    ensures Coprime(B / g, C / g)
  {
    hide DividesInto;
    var b, c := B / g, C / g;
    DividesMeans(g, B, 0);
    DividesMeans(g, C, 0);
    Signs(g, b);
    Signs(g, c);
    assert b * (g * c) == (g * b) * c;
    forall d | d > 0 && DividesInto(d, b) && DividesInto(d, c) ensures d == 1 {
      CommonDivisor(g, d, b);
      CommonDivisor(g, d, c);
      Signs(g, d);
      assert DividesInto(g * d, g);
      TooLarge(g, d);
    }
  }

  lemma Signs(g: int, b: int)
    requires g > 0
    ensures g * b > 0 <==> b > 0
    ensures g * b >= 0 <==> b >= 0
  {
  }

  lemma CommonDivisor(g: int, d: int, b: int)
    requires g > 0 && d > 0 && DividesInto(d, b)
    ensures g * d > 0 && DividesInto(g * d, g * b)
  {
    hide DividesInto;
    DividesMeans(d, b, 0);
    Signs(g, d);
    assert g * b == (g * d) * (b / d);
    DividesMeans(g * d, g * b, b / d);
  }

  lemma TooLarge(g: int, d: int)
    requires g > 0 && d > 0 && g * d > 0 && DividesInto(g * d, g)
    ensures d == 1
  {
    var k := g / (g * d);
    DividesMeans(g * d, g, k);
    assert g == g * (d * k);
    assert g * (d * k - 1) == 0;
    assert d * k == 1;
  }

  /** The multiple of 2^-20 nearest to a fraction below 1. */
  function Numerator(x: real): int {
    ((x - x.Floor as real) * 1048576.0 + 0.5).Floor
  }

  /** realToFrac (23-40): A + B/C in lowest terms is the multiple of 2^-20 nearest to the divider. */
  method RealToFrac(x: real) returns (A: int, B: int, C: int)
    requires x >= 0.0
    ensures A == x.Floor && 0 <= B <= C && C > 0 && Coprime(B, C)
    ensures B * DENOMINATOR == Numerator(x) * C && DividesInto(C, DENOMINATOR)
    ensures -1.0 / 2097152.0 <= x - (A as real + B as real / C as real) < 1.0 / 2097152.0
    ensures C == DENOMINATOR <==> Numerator(x) % 2 == 1
  {
    A := x.Floor;
    B := ((x - A as real) * 1048576.0 + 0.5).Floor;
    C := DENOMINATOR;
    ghost var n := B;
    assert 0 <= B <= DENOMINATOR;
    var a := GreatestCommonDivisor(B, C);
    LowestTerms(B, C, a);
    B := B / a;
    C := C / a;
    Bounded(B, C, a, n);
    NearestFraction(x, n, B, C);
    Reduced(n, a, C);
    DividesMeans(C, DENOMINATOR, a);
  }

  lemma Bounded(b: int, c: int, g: int, n: int)
    requires g > 0 && n == g * b && DENOMINATOR == g * c && n <= DENOMINATOR
    ensures b <= c
  {
    Signs(g, c - b);
    assert g * (c - b) == g * c - g * b;
  }

  lemma NearestFraction(x: real, n: int, b: int, c: int)
    requires n == Numerator(x) && c > 0 && b * DENOMINATOR == n * c
    ensures b as real / c as real == n as real / 1048576.0
    ensures -1.0 / 2097152.0 <= x - (x.Floor as real + b as real / c as real) < 1.0 / 2097152.0
  {
    CrossMultiply(b as real, c as real, n as real);
    assert (b * DENOMINATOR) as real == b as real * 1048576.0;
    assert (n * c) as real == n as real * c as real;
  }

  lemma CrossMultiply(b: real, c: real, n: real)
    requires c > 0.0
    ensures b * 1048576.0 == n * c ==> b / c == n / 1048576.0
  {
    if b * 1048576.0 == n * c {
      assert b == n / 1048576.0 * c;
      assert b / c * c == b;
      assert (b / c - n / 1048576.0) * c == 0.0;
    }
  }

  lemma Parity(a: nat, c: nat)
    ensures (a * c) % 2 == 1 <==> a % 2 == 1 && c % 2 == 1
  {
    var h, j := a / 2, c / 2;
    assert a * c == 2 * (h * c) + (a % 2) * c by {
      assert a == 2 * h + a % 2;
    }
  }

  lemma {:induction false} OddDivisorOfPower(a: nat, c: nat, k: nat)
    requires a % 2 == 1 && a * c == Pow2(k)
    ensures a == 1
    decreases k
  {
    if k == 0 {
      OneIsOne(a, c);
    } else {
      var p := Pow2(k - 1);
      assert a * c == 2 * p;
      HalveRight(a, c, p);
      OddDivisorOfPower(a, c / 2, k - 1);
    }
  }

  lemma OneIsOne(a: nat, c: nat)
    requires a * c == 1
    ensures a == 1
  {
    if c == 0 || a == 0 {
    } else {
      MultipleAtLeast(c, a);
    }
  }

  lemma HalveRight(a: nat, c: nat, p: nat)
    requires a % 2 == 1 && a * c == 2 * p
    ensures a * (c / 2) == p
  {
    Parity(a, c);
    assert c == 2 * (c / 2);
    assert a * (2 * (c / 2)) == 2 * (a * (c / 2));
  }

  lemma TwentyBits()
    ensures Pow2(20) == DENOMINATOR
  {
    assert Pow2(2) == 4 && Pow2(4) == 16 && Pow2(6) == 64 && Pow2(8) == 256 && Pow2(10) == 1024;
    assert Pow2(12) == 0x1000 && Pow2(14) == 0x4000 && Pow2(16) == 0x10000 && Pow2(18) == 0x40000;
  }

  /** The fraction is not reduced at all exactly when its numerator is odd. */
  lemma Reduced(n: int, g: int, c: int)
    requires n >= 0 && g > 0 && DENOMINATOR == g * c && DividesInto(g, n)
    requires DividesInto(2, n) && DividesInto(2, DENOMINATOR) ==> DividesInto(2, g)
    ensures c == DENOMINATOR <==> n % 2 == 1
  {
    if n % 2 == 1 {
      DividesMeans(g, n, 0);
      Signs(g, n / g);
      Parity(g, n / g);
      TwentyBits();
      Signs(g, c);
      OddDivisorOfPower(g, c, 20);
    } else {
      assert DividesInto(2, g);
      Signs(g, c);
      assert g * c >= 2 * c;
    }
  }

  /** The three register values of an output divider (666-668). */
  method RegisterValues(A: int, B: int, C: int) returns (P1: int, P2: int, P3: int)
    requires C > 0 && 0 <= B
    ensures P3 == C && 0 <= P2 < P3
    ensures (P1 + 512) * P3 + P2 == 128 * (A * C + B)
  {
    FloorOfQuotient(128 * B, C);
    ScaledQuotient(B, C);
    P1 := 128 * A + (128.0 * (B as real / C as real)).Floor - 512;
    P2 := 128 * B - C * (128 * B / C);
    P3 := C;
    assert 128 * B == 128 * B / C * C + 128 * B % C;
    assert (P1 + 512) * P3 == 128 * A * C + 128 * B / C * C;
    assert 128 * A * C == 128 * (A * C);
  }

  lemma ScaledQuotient(b: int, c: int)
    requires c > 0
    ensures 128.0 * (b as real / c as real) == (128 * b) as real / c as real
  {
    var x := b as real / c as real;
    assert x * c as real == b as real;
    assert (128.0 * x) * c as real == (128 * b) as real;
  }

  lemma FloorOfQuotient(n: int, c: int)
    requires c > 0
    ensures (n as real / c as real).Floor == n / c
  {
    var q, r := n / c, n % c;
    assert n == q * c + r;
    var x := n as real / c as real;
    assert x * c as real == n as real;
    assert n as real == q as real * c as real + r as real;
    assert (x - q as real) * c as real == r as real;
    UnitInterval(x - q as real, c as real, r as real);
  }

  lemma UnitInterval(y: real, c: real, r: real)
    requires c > 0.0 && y * c == r && 0.0 <= r < c
    ensures 0.0 <= y < 1.0
  {
  }

  /** The registers stand for the divider itself: (P1 + 512 + P2/P3) / 128 is A + B/C. */
  lemma RegistersMeanDivider(A: int, B: int, C: int, P1: int, P2: int)
    requires C > 0 && (P1 + 512) * C + P2 == 128 * (A * C + B)
    ensures ((P1 + 512) as real + P2 as real / C as real) / 128.0 == A as real + B as real / C as real
  {
    var c, p, b := C as real, P2 as real / C as real, B as real / C as real;
    assert p * c == P2 as real && b * c == B as real;
    assert ((P1 + 512) * C) as real == (P1 + 512) as real * c;
    assert (A * C) as real == A as real * c;
    assert ((P1 + 512) as real + p) * c == 128.0 * (A as real + b) * c;
    Cancel((P1 + 512) as real + p, 128.0 * (A as real + b), c);
  }

  lemma Cancel(x: real, y: real, c: real)
    requires c > 0.0 && x * c == y * c
    ensures x == y
  {
    assert (x - y) * c == 0.0;
  }
}

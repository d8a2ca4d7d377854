/**
 Rounding filter coefficients to integers and to signed-digit codes, and sharing
 sub-expressions between codes (GFIR/rounding.c).
 */
module Rounding {
  import opened Arithmetic
  import opened SignedDigits

  // ------------------------------------------------------------ binary digits

  /** Bit i of a natural number. */
  function Bit(a: nat, i: nat): (b: int)
    ensures b == 0 || b == 1
  {
    if i == 0 then a % 2 else Bit(a / 2, i - 1)
  }

  function Bits(a: nat, k: nat): (s: seq<int>)
    ensures |s| == k
  {
    seq(k, i requires 0 <= i < k => Bit(a, i))
  }

  /** The low k bits spell the number modulo 2^k. */
  lemma {:induction false} BitsValue(a: nat, k: nat)
    ensures Value(Bits(a, k)) == a % Pow2(k)
    decreases k
  {
    if k == 0 {
    } else {
      BitsValue(a / 2, k - 1);
      assert Bits(a, k)[1..] == Bits(a / 2, k - 1);
      ModDouble(a, Pow2(k - 1));
    }
  }

  // ------------------------------------------------------------ recoding, one digit at a time

  /** `u` recodes the low bits of `b` so far, with carry ci still to come. */
  predicate Recoding(b: seq<int>, u: seq<int>, ci: int) {
    |u| < |b| && (ci == 0 || ci == 1) &&
    Value(u) + Pow2(|u|) * ci == Value(b[..|u|]) && Canonical(u) &&
    (u != [] && u[|u| - 1] != 0 ==> ci == b[|u|])
  }

  lemma RecodeStep(b: seq<int>, u: seq<int>, ci: int, ci1: int)
    requires Recoding(b, u, ci) && |u| + 1 < |b|
    requires forall i | 0 <= i < |b| :: b[i] == 0 || b[i] == 1
    requires ci1 == if ci + b[|u|] + b[|u| + 1] > 1 then 1 else 0
    ensures Recoding(b, u + [b[|u|] + ci - 2 * ci1], ci1)
  {
    var i := |u|;
    var x := b[i] + ci - 2 * ci1;
    assert b[..i + 1] == b[..i] + [b[i]];
    ValueSnoc(b[..i], b[i]);
    ValueSnoc(u, x);
    CarryMoved(Pow2(i), b[i], ci, ci1);
    CanonicalSnoc(u, x);
  }

  lemma CarryMoved(p: int, bit: int, ci: int, ci1: int)
    ensures p * (bit + ci - 2 * ci1) + (2 * p) * ci1 == p * bit + p * ci
  {
  }

  lemma CanonicalSnoc(u: seq<int>, x: int)
    requires Canonical(u) && -1 <= x <= 1
    requires u != [] && u[|u| - 1] != 0 ==> x == 0
    ensures Canonical(u + [x])
  {
  }

  lemma RecodeEnd(b: seq<int>, u: seq<int>, ci: int)
    requires Recoding(b, u, ci) && |u| + 1 == |b| && b[|u|] == 0
    ensures Canonical(u + [ci]) && Value(u + [ci]) == Value(b[..|u|])
  {
    ValueSnoc(u, ci);
  }

  function Scaled(s: int, u: seq<int>): (c: seq<int>)
    ensures |c| == |u|
  {
    seq(|u|, i requires 0 <= i < |u| => s * u[i])
  }

  lemma {:induction false} ScaledValue(s: int, u: seq<int>)
    ensures Value(Scaled(s, u)) == s * Value(u)
  {
    if u == [] {
    } else {
      ScaledValue(s, u[1..]);
      assert Scaled(s, u)[1..] == Scaled(s, u[1..]);
    }
  }

  lemma ScaledCanonical(s: int, u: seq<int>)
    requires Canonical(u) && (s == 1 || s == -1)
    ensures Canonical(Scaled(s, u))
  {
  }

  // ------------------------------------------------------------ int2csd

  function Sign(a: int): int {
    if a < 0 then -1 else 1
  }

  /** What the three code rows of one coefficient hold: signed bits, a canonical code of the number's
      low cprec bits, and that code cut to csdprec nonzero digits. */
  predicate Coded(a: int, cprec: nat, csdprec: int, bin: seq<int>, csd: seq<int>, cut: seq<int>) {
    |csd| == cprec + 1 &&
    bin == Scaled(Sign(a), Bits(Magnitude(a), cprec)) + [0] &&
    Canonical(csd) && Value(csd) == Sign(a) * (Magnitude(a) % Pow2(cprec)) &&
    cut == Kept(csd, csdprec)
  }

  /** rounding.c 197-242. */
  method Int2Csd(a0: int, cprec: nat, csdprec: int, bincode: array<int>, csdcode: array<int>, csdcoder: array<int>)
    requires bincode.Length == csdcode.Length == csdcoder.Length == cprec + 1
    requires bincode != csdcode && bincode != csdcoder && csdcode != csdcoder
    modifies bincode, csdcode, csdcoder
    ensures Coded(a0, cprec, csdprec, bincode[..], csdcode[..], csdcoder[..])
  {
    var a, sign := a0, 1;
    if a < 0 {
      a := -a;
      sign := -1;
    }
    FillBits(a, cprec, bincode);
    Recode(a, sign, cprec, bincode, csdcode);
    CutCode(cprec, csdprec, csdcode, csdcoder);
  }

  /** rounding.c 214-219. */
  method FillBits(a: nat, cprec: nat, bincode: array<int>)
    requires bincode.Length == cprec + 1
    modifies bincode
    ensures bincode[..] == Bits(a, cprec) + [0]
  {
    for i := 0 to cprec
      invariant forall k | 0 <= k < i :: bincode[k] == Bit(a, k)
    {
      bincode[i] := Bit(a, i);
    }
    bincode[cprec] := 0;
  }

  /** How far the recoding loop has come: `u` is the code so far without its sign. */
  ghost predicate RecodedTo(b: seq<int>, u: seq<int>, ci: int, sign: int, bin: seq<int>, csd: seq<int>) {
    Recoding(b, u, ci) && |bin| == |csd| == |b| &&
    (forall k | 0 <= k < |u| :: csd[k] == sign * u[k] && bin[k] == sign * b[k]) &&
    forall k | |u| <= k < |b| :: bin[k] == b[k]
  }

  lemma RecodedFurther(b: seq<int>, u: seq<int>, ci: int, ci1: int, sign: int, bin: seq<int>, csd: seq<int>)
    requires RecodedTo(b, u, ci, sign, bin, csd) && |u| + 1 < |b|
    requires forall i | 0 <= i < |b| :: b[i] == 0 || b[i] == 1
    requires ci1 == if ci + b[|u|] + b[|u| + 1] > 1 then 1 else 0
    ensures var i, x := |u|, b[|u|] + ci - 2 * ci1;
            RecodedTo(b, u + [x], ci1, sign, bin[i := b[i] * sign], csd[i := sign * x])
  {
    RecodeStep(b, u, ci, ci1);
  }

  lemma RecodedEnd(a: nat, cprec: nat, b: seq<int>, u: seq<int>, ci: int, sign: int, bin: seq<int>, csd: seq<int>)
    requires b == Bits(a, cprec) + [0] && |u| == cprec && (sign == 1 || sign == -1)
    requires RecodedTo(b, u, ci, sign, bin, csd)
    ensures bin == Scaled(sign, Bits(a, cprec)) + [0]
    ensures var c := csd[cprec := sign * ci]; Canonical(c) && Value(c) == sign * (a % Pow2(cprec))
  {
    assert b[..cprec] == Bits(a, cprec);
    BitsValue(a, cprec);
    RecodeEnd(b, u, ci);
    assert csd[cprec := sign * ci] == Scaled(sign, u + [ci]);
    ScaledValue(sign, u + [ci]);
    ScaledCanonical(sign, u + [ci]);
  }

  /** rounding.c 221-231. */
  method Recode(ghost a: nat, sign: int, cprec: nat, bincode: array<int>, csdcode: array<int>)
    requires bincode.Length == csdcode.Length == cprec + 1 && bincode != csdcode
    requires bincode[..] == Bits(a, cprec) + [0] && (sign == 1 || sign == -1)
    modifies bincode, csdcode
    ensures bincode[..] == Scaled(sign, Bits(a, cprec)) + [0]
    ensures Canonical(csdcode[..]) && Value(csdcode[..]) == sign * (a % Pow2(cprec))
  {
    ghost var b := bincode[..];
    ghost var u: seq<int> := [];
    var ci := 0;
    for i := 0 to cprec
      invariant |u| == i && RecodedTo(b, u, ci, sign, bincode[..], csdcode[..])
    {
      var ci1 := if ci + bincode[i] + bincode[i + 1] > 1 then 1 else 0;
      RecodedFurther(b, u, ci, ci1, sign, bincode[..], csdcode[..]);
      csdcode[i] := sign * (bincode[i] + ci - 2 * ci1);
      u := u + [bincode[i] + ci - 2 * ci1];
      bincode[i] := bincode[i] * sign;
      ci := ci1;
    }
    RecodedEnd(a, cprec, b, u, ci, sign, bincode[..], csdcode[..]);
    csdcode[cprec] := sign * ci;
  }

  /** rounding.c 233-240. */
  method CutCode(cprec: nat, csdprec: int, csdcode: array<int>, csdcoder: array<int>)
    requires csdcode.Length == csdcoder.Length == cprec + 1 && csdcode != csdcoder
    modifies csdcoder
    ensures csdcoder[..] == Kept(csdcode[..], csdprec)
  {
    ghost var c := csdcode[..];
    var nzeroes := 0;
    for i := cprec + 1 downto 0
      invariant nzeroes == Weight(c[i..])
      invariant forall k | i <= k <= cprec :: csdcoder[k] == Kept(c, csdprec)[k]
    {
      assert c[i..][1..] == c[i + 1..];
      if csdcode[i] != 0 {
        nzeroes := nzeroes + 1;
      }
      csdcoder[i] := if nzeroes <= csdprec then csdcode[i] else 0;
    }
  }

  /** rounding.c 246-255. */
  method Csd2Int(cprec: nat, code: array<int>) returns (a: int)
    requires code.Length == cprec + 1
    ensures a == Value(code[..])
  {
    a := 0;
    for i := cprec + 1 downto 0
      invariant a == Value(code[i..])
    {
      assert code[i..][1..] == code[i + 1..];
      a := a * 2 + code[i];
    }
    assert code[0..] == code[..];
  }

  // ------------------------------------------------------------ rounding whole filters

  /** C's conversion of a floating value to int: toward zero. */
  function Truncate(x: real): int {
    if x >= 0.0 then x.Floor else -((-x).Floor)
  }

  function ScaledUp(x: real, cprec: nat): real {
    x * Pow2(cprec) as real
  }

  function RoundHalfAway(y: real, positive: bool): int {
    Truncate(y + (if positive then 0.5 else -0.5))
  }

  /** The coefficient scaled by 2^cprec and rounded half away from zero. */
  function Rounded(x: real, cprec: nat): int {
    RoundHalfAway(ScaledUp(x, cprec), x > 0.0)
  }

  function AsFraction(k: int, cprec: nat): real {
    k as real / Pow2(cprec) as real
  }

  function Abs(y: real): real {
    if y < 0.0 then -y else y
  }

  /** k is the whole number nearest to y; halfway between two it is the one away from zero. */
  predicate NearestAway(k: int, y: real) {
    2.0 * Abs(k as real - y) <= 1.0 && (2.0 * Abs(k as real - y) == 1.0 ==> Abs(k as real) > Abs(y))
  }

  /** Which leaves one choice. */
  lemma NearestIsUnique(k: int, l: int, y: real)
    requires NearestAway(k, y) && NearestAway(l, y)
    ensures k == l
  {
    var gap := (k - l) as real;
    assert gap == (k as real - y) - (l as real - y);
    assert Abs(gap) <= 1.0;
  }

  lemma RoundedIsNearest(x: real, cprec: nat)
    ensures NearestAway(Rounded(x, cprec), ScaledUp(x, cprec))
  {
    var p := Pow2(cprec) as real;
    assert x > 0.0 ==> x * p > 0.0;
    assert x <= 0.0 ==> x * p <= 0.0;
  }

  /** y is a multiple of 2^-places, none is nearer to x, and halfway between two it is the one of larger magnitude. */
  ghost predicate NearestMultiple(x: real, y: real, places: nat) {
    && (y * Pow2(places) as real).Floor as real == y * Pow2(places) as real
    && Pow2(places) as real * Abs(y - x) <= 0.5
    && (Pow2(places) as real * Abs(y - x) == 0.5 ==> Abs(y) > Abs(x))
  }

  lemma SameMagnitude(x: real, y: real)
    requires x == y
    ensures Abs(x) == Abs(y)
  {
  }

  lemma ScaledMagnitude(x: real, p: real, v: real)
    requires p > 0.0 && v == x * p
    ensures Abs(v) == p * Abs(x)
  {
  }

  lemma ScaledOrder(x: real, y: real, p: real)
    requires p > 0.0
    ensures x * p > y * p <==> x > y
  {
    assert (x - y) * p == x * p - y * p;
  }

  /** Distances from x to y in units, and which of the two is larger. */
  lemma ScaledDistance(x: real, y: real, p: real)
    requires p > 0.0
    ensures p * Abs(y - x) == Abs(y * p - x * p)
    ensures Abs(y * p) > Abs(x * p) <==> Abs(y) > Abs(x)
  {
    hide Abs;
    assert (y - x) * p == y * p - x * p;
    ScaledMagnitude(y - x, p, y * p - x * p);
    ScaledMagnitude(y, p, y * p);
    ScaledMagnitude(x, p, x * p);
    ScaledOrder(Abs(y), Abs(x), p);
  }

  lemma FractionTimesUnit(k: int, places: nat)
    ensures AsFraction(k, places) * Pow2(places) as real == k as real
  {
  }

  /** A fraction is the nearest multiple exactly when its numerator is the rounded number. */
  lemma NearestMultipleIff(x: real, k: int, places: nat)
    ensures NearestMultiple(x, AsFraction(k, places), places) <==> k == Rounded(x, places)
  {
    hide Rounded, AsFraction, Abs, ScaledUp, NearestMultiple;
    FractionTimesUnit(k, places);
    ScaledIs(x, places);
    NearestInUnits(x, AsFraction(k, places), ScaledUp(x, places), k, places);
    RoundedIsNearest(x, places);
    if NearestAway(k, ScaledUp(x, places)) {
      NearestIsUnique(k, Rounded(x, places), ScaledUp(x, places));
    }
  }

  lemma ScaledIs(x: real, places: nat)
    ensures ScaledUp(x, places) == x * Pow2(places) as real
  {
  }

  lemma NearestInUnits(x: real, y: real, scaled: real, k: int, places: nat)
    requires scaled == x * Pow2(places) as real && y * Pow2(places) as real == k as real
    ensures NearestMultiple(x, y, places) <==> NearestAway(k, scaled)
  {
    hide Abs;
    var unit := Pow2(places) as real;
    ScaledDistance(x, y, unit);
    WholeNumber(y * unit, k);
    SameMagnitude(y * unit - x * unit, k as real - scaled);
    SameMagnitude(y * unit, k as real);
    SameMagnitude(x * unit, scaled);
    assert unit * Abs(y - x) == Abs(k as real - scaled);
    assert Abs(y) > Abs(x) <==> Abs(k as real) > Abs(scaled);
    var dist := Abs(k as real - scaled);
    assert NearestAway(k, scaled) <==> dist <= 0.5 && (dist == 0.5 ==> Abs(y) > Abs(x));
    assert (y * Pow2(places) as real).Floor as real == y * Pow2(places) as real;
    assert Pow2(places) as real * Abs(y - x) == dist;
    assert NearestMultiple(x, y, places) <==> dist <= 0.5 && (dist == 0.5 ==> Abs(y) > Abs(x));
  }

  lemma WholeNumber(v: real, k: int)
    requires v == k as real
    ensures v.Floor as real == v
  {
  }

  /** rounding.c 20-31: every coefficient becomes the nearest multiple of 2^-cprec. The two arrays may be the same. */
  method Round2Int(a: array<real>, b: array<real>, n: nat, cprec: nat)
    requires a.Length == b.Length == n
    modifies b
    ensures forall i | 0 <= i < n :: b[i] == AsFraction(Rounded(old(a[i]), cprec), cprec)
    ensures forall i | 0 <= i < n :: NearestMultiple(old(a[i]), b[i], cprec)
  {
    hide NearestMultiple;
    for i := 0 to n
      invariant forall r | 0 <= r < i :: b[r] == AsFraction(Rounded(old(a[r]), cprec), cprec)
      invariant forall r | 0 <= r < i :: NearestMultiple(old(a[r]), b[r], cprec)
      invariant forall r | i <= r < n :: a[r] == old(a[r])
    {
      ghost var x := a[i];
      NearestMultipleIff(x, Rounded(x, cprec), cprec);
      var k := if a[i] > 0.0 then 1 else -1;
      b[i] := Truncate(ScaledUp(a[i], cprec) + k as real * 0.5) as real;
      assert b[i] == Rounded(x, cprec) as real;
      b[i] := b[i] / Pow2(cprec) as real;
    }
  }

  /** Code rows of a whole filter: n rows of cprec + 1 digits. */
  ghost predicate Rows(m: seq<array<int>>, n: nat, cprec: nat) {
    |m| == n && (forall i | 0 <= i < n :: m[i].Length == cprec + 1) &&
    forall i, j | 0 <= i < j < n :: m[i] != m[j]
  }

  ghost predicate Apart(m: seq<array<int>>, m': seq<array<int>>) {
    forall i, j | 0 <= i < |m| && 0 <= j < |m'| :: m[i] != m'[j]
  }

  /** rounding.c 35-49. The coefficient and result arrays may be the same. */
  method Round2Csd(a: array<real>, b: array<real>, n: nat, cprec: nat, csdprec: int,
                   bincode: seq<array<int>>, csdcode: seq<array<int>>, csdcoder: seq<array<int>>)
    requires a.Length == b.Length == n
    requires Rows(bincode, n, cprec) && Rows(csdcode, n, cprec) && Rows(csdcoder, n, cprec)
    requires Apart(bincode, csdcode) && Apart(bincode, csdcoder) && Apart(csdcode, csdcoder)
    modifies b, bincode, csdcode, csdcoder
    ensures forall i | 0 <= i < n ::
              CoefficientCoded(old(a[i]), b[i], cprec, csdprec, bincode[i], csdcode[i], csdcoder[i])
  {
    for i := 0 to n
      invariant forall r | 0 <= r < i ::
                  CoefficientCoded(old(a[r]), b[r], cprec, csdprec, bincode[r], csdcode[r], csdcoder[r])
      invariant forall r | i <= r < n :: a[r] == old(a[r])
    {
      b[i] := RoundOne(a[i], cprec, csdprec, bincode[i], csdcode[i], csdcoder[i]);
    }
  }

  /** The code rows and the rounded value of one coefficient. */
  ghost predicate CoefficientCoded(x: real, y: real, cprec: nat, csdprec: int,
                                   bin: array<int>, csd: array<int>, cut: array<int>)
    reads bin, csd, cut
  {
    Coded(Rounded(x, cprec), cprec, csdprec, bin[..], csd[..], cut[..]) &&
    y == AsFraction(Value(cut[..]), cprec)
  }

  /** The loop body of round2csd: rounding.c 43-47. */
  method RoundOne(x: real, cprec: nat, csdprec: int, bin: array<int>, csd: array<int>, cut: array<int>)
    returns (y: real)
    requires bin.Length == csd.Length == cut.Length == cprec + 1
    requires bin != csd && bin != cut && csd != cut
    modifies bin, csd, cut
    ensures CoefficientCoded(x, y, cprec, csdprec, bin, csd, cut)
  {
    var k := if x > 0.0 then 1 else -1;
    var ia := Truncate(ScaledUp(x, cprec) + k as real * 0.5);
    Int2Csd(ia, cprec, csdprec, bin, csd, cut);
    ia := Csd2Int(cprec, cut);
    y := ia as real / Pow2(cprec) as real;
  }

  // ------------------------------------------------------------ sharing sub-expressions

  lemma {:induction false} ValueUpdate(c: seq<int>, i: nat, y: int)
    requires i < |c|
    ensures Value(c[i := y]) == Value(c) + Pow2(i) * (y - c[i])
    ensures Weight(c[i := y]) == Weight(c) + (if y != 0 then 1 else 0) - (if c[i] != 0 then 1 else 0)
  {
    var d := c[i := y];
    if i == 0 {
      assert d[1..] == c[1..];
    } else {
      assert d[1..] == c[1..][i - 1 := y];
      ValueUpdate(c[1..], i - 1, y);
      TwiceAPower(i, y - c[i]);
    }
  }

  lemma TwiceAPower(i: nat, z: int)
    requires i > 0
    ensures Pow2(i) * z == 2 * (Pow2(i - 1) * z)
  {
  }

  /** Digits taken out of a code: xpx stands for 5/4 of its places, xmx for 3/4, x for the places themselves.
      They make up the difference in value, and use exactly the nonzero digits that are gone. */
  predicate Shares(was: seq<int>, code: seq<int>, xpx: seq<int>, xmx: seq<int>, x: seq<int>) {
    |was| == |code| == |xpx| == |xmx| == |x| &&
    4 * Value(was) == 4 * Value(code) + 5 * Value(xpx) + 3 * Value(xmx) + 4 * Value(x) &&
    Weight(was) == Weight(code) + 2 * Weight(xpx) + 2 * Weight(xmx) + Weight(x)
  }

  /** Signed digits, none in the two lowest places, where there is no room for a pair. */
  predicate PairDigits(c: seq<int>) {
    Signed(c) && forall j | 0 <= j < |c| && j < 2 :: c[j] == 0
  }

  /** No digit left alone could have been paired. */
  predicate Unpairable(code: seq<int>, x: seq<int>) {
    |code| == |x| && forall j | 2 <= j < |x| && x[j] != 0 :: x[j - 2] == 0 && code[j - 2] == 0
  }

  /** Nothing is recorded below place k, nor where the code still has a digit. */
  predicate Blank(code: seq<int>, c: seq<int>, k: int) {
    |code| == |c| && forall j | 0 <= j < |c| && (j < k || code[j] != 0) :: c[j] == 0
  }

  /** The scan has come down to place k. */
  predicate Scanned(was: seq<int>, code: seq<int>, xpx: seq<int>, xmx: seq<int>, x: seq<int>, k: int) {
    Shares(was, code, xpx, xmx, x) && -1 <= k < |was| &&
    (forall j | k < j < |code| :: code[j] == 0) &&
    Blank(code, xpx, k) && Blank(code, xmx, k) && Blank(code, x, k) &&
    PairDigits(xpx) && PairDigits(xmx) &&
    (Signed(was) ==> Signed(code) && Unpairable(code, x))
  }

  /** What sharing promises for one row: nothing of the code is left over. */
  predicate Shared(was: seq<int>, xpx: seq<int>, xmx: seq<int>, x: seq<int>) {
    |was| == |xpx| == |xmx| == |x| &&
    4 * Value(was) == 5 * Value(xpx) + 3 * Value(xmx) + 4 * Value(x) &&
    Weight(was) == 2 * Weight(xpx) + 2 * Weight(xmx) + Weight(x) &&
    PairDigits(xpx) && PairDigits(xmx) &&
    (Signed(was) ==> forall j | 2 <= j < |x| && x[j] != 0 :: x[j - 2] == 0)
  }

  lemma FourPlaces(k: nat, s: int)
    requires k >= 2
    ensures Pow2(k) * s == 4 * (Pow2(k - 2) * s)
  {
    TwiceAPower(k, s);
    TwiceAPower(k - 1, s);
  }

  lemma ClearPair(code: seq<int>, k: nat)
    requires 2 <= k < |code| && code[k] != 0 && code[k - 2] != 0
    ensures var c := code[k := 0][k - 2 := 0];
            Value(c) == Value(code) - 4 * (Pow2(k - 2) * code[k]) - Pow2(k - 2) * code[k - 2] &&
            Weight(c) == Weight(code) - 2
  {
    ValueUpdate(code, k, 0);
    ValueUpdate(code[k := 0], k - 2, 0);
    FourPlaces(k, code[k]);
  }

  /** Two equal digits two places apart become one digit of xpx. */
  lemma EqualPair(was: seq<int>, code: seq<int>, xpx: seq<int>, xmx: seq<int>, x: seq<int>, k: nat, s: int)
    requires Scanned(was, code, xpx, xmx, x, k) && k >= 2 && (s == 1 || s == -1)
    requires code[k] == s && code[k - 2] == s
    ensures Scanned(was, code[k := 0][k - 2 := 0], xpx[k := s], xmx, x, k)
  {
    ClearPair(code, k);
    ValueUpdate(xpx, k, s);
    FourPlaces(k, s);
  }

  /** Two opposite digits two places apart become one digit of xmx. */
  lemma OppositePair(was: seq<int>, code: seq<int>, xpx: seq<int>, xmx: seq<int>, x: seq<int>, k: nat, s: int)
    requires Scanned(was, code, xpx, xmx, x, k) && k >= 2 && (s == 1 || s == -1)
    requires code[k] == s && code[k - 2] == -s
    ensures Scanned(was, code[k := 0][k - 2 := 0], xpx, xmx[k := s], x, k)
  {
    ClearPair(code, k);
    ValueUpdate(xmx, k, s);
    FourPlaces(k, s);
    assert Pow2(k - 2) * -s == -(Pow2(k - 2) * s);
  }

  /** A digit without a partner is kept as it is. */
  lemma LoneDigit(was: seq<int>, code: seq<int>, xpx: seq<int>, xmx: seq<int>, x: seq<int>, k: nat)
    requires Scanned(was, code, xpx, xmx, x, k)
    requires x[k] == 0
    requires k >= 2 && Signed(was) ==> code[k - 2] == 0
    ensures Scanned(was, code[k := 0], xpx, xmx, x[k := code[k]], k)
  {
    ValueUpdate(code, k, 0);
    ValueUpdate(x, k, code[k]);
    assert Pow2(k) * (0 - code[k]) == -(Pow2(k) * code[k]);
  }

  lemma ScanLowered(was: seq<int>, code: seq<int>, xpx: seq<int>, xmx: seq<int>, x: seq<int>, k: int)
    requires Scanned(was, code, xpx, xmx, x, k) && k >= 0 && code[k] == 0
    ensures Scanned(was, code, xpx, xmx, x, k - 1)
  {
  }

  lemma ScanEnded(was: seq<int>, code: seq<int>, xpx: seq<int>, xmx: seq<int>, x: seq<int>)
    requires Scanned(was, code, xpx, xmx, x, -1)
    ensures Shared(was, xpx, xmx, x)
  {
    ZeroString(code);
  }

  /** The two lowest places are copied over whatever they hold. */
  lemma LastDigits(was: seq<int>, code: seq<int>, xpx: seq<int>, xmx: seq<int>, x: seq<int>, k: nat)
    requires Scanned(was, code, xpx, xmx, x, k) && k < 2 && code[k] != 0
    ensures Shared(was, xpx, xmx, if k == 0 then x[0 := code[0]] else x[0 := code[0]][1 := code[1]])
  {
    LoneDigit(was, code, xpx, xmx, x, k);
    var c1, x1 := code[k := 0], x[k := code[k]];
    ScanLowered(was, c1, xpx, xmx, x1, k);
    if k == 1 {
      LoneDigit(was, c1, xpx, xmx, x1, 0);
      ScanLowered(was, c1[0 := 0], xpx, xmx, x1[0 := c1[0]], 0);
      ScanEnded(was, c1[0 := 0], xpx, xmx, x1[0 := c1[0]]);
      assert x1[0 := c1[0]] == x[0 := code[0]][1 := code[1]];
    } else {
      ScanEnded(was, c1, xpx, xmx, x1);
    }
  }

  /** rounding.c 280. */
  method NextDigit(code: array<int>, k0: int, ghost was: seq<int>, ghost xpx: seq<int>, ghost xmx: seq<int>,
                   ghost x: seq<int>) returns (k: int)
    requires Scanned(was, code[..], xpx, xmx, x, k0)
    ensures Scanned(was, code[..], xpx, xmx, x, k) && k <= k0
    ensures k >= 0 ==> code[k] != 0
  {
    k := k0;
    while k >= 0
      invariant Scanned(was, code[..], xpx, xmx, x, k) && k <= k0
    {
      if code[k] != 0 {
        break;
      }
      ScanLowered(was, code[..], xpx, xmx, x, k);
      k := k - 1;
    }
  }

  /** One row of csesh: rounding.c 277-313. The code is used up. */
  method CseshRow(code: array<int>, cprec: nat, xpx: array<int>, xmx: array<int>, x: array<int>)
    requires code.Length == xpx.Length == xmx.Length == x.Length == cprec + 1
    requires code != xpx && code != xmx && code != x && xpx != xmx && xpx != x && xmx != x
    requires forall k | 0 <= k <= cprec :: xpx[k] == 0 && xmx[k] == 0 && x[k] == 0
    modifies code, xpx, xmx, x
    ensures Shared(old(code[..]), xpx[..], xmx[..], x[..])
  {
    ghost var was := code[..];
    var k: int := cprec;
    ScanStarts(was, xpx[..], xmx[..], x[..], cprec);
    while true
      invariant Scanned(was, code[..], xpx[..], xmx[..], x[..], k)
      decreases k, k >= 0 && code[k] != 0
    {
      k := NextDigit(code, k, was, xpx[..], xmx[..], x[..]);
      if k == -1 {
        ScanEnded(was, code[..], xpx[..], xmx[..], x[..]);
        break;
      } else if k <= 1 {
        LastDigits(was, code[..], xpx[..], xmx[..], x[..], k);
        x[0] := code[0];
        if k == 1 {
          x[1] := code[1];
        }
        break;
      } else {
        TakeDigit(code, k, xpx, xmx, x, was);
      }
    }
  }

  lemma ScanStarts(code: seq<int>, xpx: seq<int>, xmx: seq<int>, x: seq<int>, cprec: nat)
    requires |code| == |xpx| == |xmx| == |x| == cprec + 1
    requires forall k | 0 <= k <= cprec :: xpx[k] == 0 && xmx[k] == 0 && x[k] == 0
    ensures Scanned(code, code, xpx, xmx, x, cprec)
  {
    ZeroString(xpx);
    ZeroString(xmx);
    ZeroString(x);
  }

  /** rounding.c 292-311: the digit at place k, alone or with the one two places below. */
  method TakeDigit(code: array<int>, k: nat, xpx: array<int>, xmx: array<int>, x: array<int>, ghost was: seq<int>)
    requires code != xpx && code != xmx && code != x && xpx != xmx && xpx != x && xmx != x
    requires Scanned(was, code[..], xpx[..], xmx[..], x[..], k) && k >= 2 && code[k] != 0
    modifies code, xpx, xmx, x
    ensures Scanned(was, code[..], xpx[..], xmx[..], x[..], k) && code[k] == 0
  {
    ghost var c, p, m, a := code[..], xpx[..], xmx[..], x[..];
    if code[k] == 1 && code[k - 2] == 1 {
      EqualPair(was, c, p, m, a, k, 1);
      xpx[k] := 1;
      code[k] := 0;
      code[k - 2] := 0;
    } else if code[k] == -1 && code[k - 2] == -1 {
      EqualPair(was, c, p, m, a, k, -1);
      xpx[k] := -1;
      code[k] := 0;
      code[k - 2] := 0;
    } else if code[k] == 1 && code[k - 2] == -1 {
      OppositePair(was, c, p, m, a, k, 1);
      xmx[k] := 1;
      code[k] := 0;
      code[k - 2] := 0;
    } else if code[k] == -1 && code[k - 2] == 1 {
      OppositePair(was, c, p, m, a, k, -1);
      xmx[k] := -1;
      code[k] := 0;
      code[k - 2] := 0;
    } else {
      LoneDigit(was, c, p, m, a, k);
      x[k] := code[k];
      code[k] := 0;
    }
  }

  /** rounding.c 260-315. */
  method Csesh(code: seq<array<int>>, n: nat, cprec: nat, xpx: seq<array<int>>, xmx: seq<array<int>>,
               x: seq<array<int>>)
    requires Rows(code, n, cprec) && Rows(xpx, n, cprec) && Rows(xmx, n, cprec) && Rows(x, n, cprec)
    requires Apart(code, xpx) && Apart(code, xmx) && Apart(code, x)
    requires Apart(xpx, xmx) && Apart(xpx, x) && Apart(xmx, x)
    modifies code, xpx, xmx, x
    ensures forall i | 0 <= i < n :: RowShared(old(code[i][..]), xpx[i], xmx[i], x[i])
  {
    ClearRows(n, cprec, xpx, xmx, x);
    ShareRows(code, n, cprec, xpx, xmx, x);
  }

  /** rounding.c 276-314. */
  method ShareRows(code: seq<array<int>>, n: nat, cprec: nat, xpx: seq<array<int>>, xmx: seq<array<int>>,
                   x: seq<array<int>>)
    requires Rows(code, n, cprec) && Rows(xpx, n, cprec) && Rows(xmx, n, cprec) && Rows(x, n, cprec)
    requires Apart(code, xpx) && Apart(code, xmx) && Apart(code, x)
    requires Apart(xpx, xmx) && Apart(xpx, x) && Apart(xmx, x)
    requires forall r | 0 <= r < n :: Cleared(xpx[r]) && Cleared(xmx[r]) && Cleared(x[r])
    modifies code, xpx, xmx, x
    ensures forall i | 0 <= i < n :: RowShared(old(code[i][..]), xpx[i], xmx[i], x[i])
  {
    ghost var was := Contents(code);
    for i := 0 to n
      invariant forall r | 0 <= r < i :: RowShared(was[r], xpx[r], xmx[r], x[r])
      invariant forall r | i <= r < n :: Cleared(xpx[r]) && Cleared(xmx[r]) && Cleared(x[r])
      invariant forall r | i <= r < n :: code[r][..] == was[r]
    {
      CseshRow(code[i], cprec, xpx[i], xmx[i], x[i]);
    }
  }

  ghost function Contents(m: seq<array<int>>): (rows: seq<seq<int>>)
    reads m
    ensures |rows| == |m| && forall i | 0 <= i < |m| :: rows[i] == m[i][..]
  {
    if m == [] then [] else [m[0][..]] + Contents(m[1..])
  }

  /** The three rows taken out of one code row. */
  ghost predicate RowShared(was: seq<int>, xpx: array<int>, xmx: array<int>, x: array<int>)
    reads xpx, xmx, x
  {
    Shared(was, xpx[..], xmx[..], x[..])
  }

  /** rounding.c 267-273. */
  method ClearRows(n: nat, cprec: nat, xpx: seq<array<int>>, xmx: seq<array<int>>, x: seq<array<int>>)
    requires Rows(xpx, n, cprec) && Rows(xmx, n, cprec) && Rows(x, n, cprec)
    modifies xpx, xmx, x
    ensures forall r | 0 <= r < n :: Cleared(xpx[r]) && Cleared(xmx[r]) && Cleared(x[r])
  {
    for i := 0 to n
      invariant forall r | 0 <= r < i :: Cleared(xpx[r]) && Cleared(xmx[r]) && Cleared(x[r])
    {
      ClearRow(xpx[i], xmx[i], x[i], cprec);
    }
  }

  ghost predicate Cleared(c: array<int>)
    reads c
  {
    forall k | 0 <= k < c.Length :: c[k] == 0
  }

  /** rounding.c 268-272. */
  method ClearRow(xpx: array<int>, xmx: array<int>, x: array<int>, cprec: nat)
    requires xpx.Length == xmx.Length == x.Length == cprec + 1
    modifies xpx, xmx, x
    ensures Cleared(xpx) && Cleared(xmx) && Cleared(x)
  {
    for k := 0 to cprec + 1
      invariant forall j | 0 <= j < k :: xpx[j] == 0 && xmx[j] == 0 && x[j] == 0
    {
      xpx[k] := 0;
      xmx[k] := 0;
      x[k] := 0;
    }
  }
}

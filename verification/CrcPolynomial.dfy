/**
 The 24-bit cyclic redundancy check of the RTCM 10403 transport layer (getRTCM3Eph.c 102-109)
 as arithmetic: long division of polynomials over the two-element field, the shift registers that carry it
 out a bit at a time, and the error bursts it detects.
 */
module CrcPolynomial {

  import opened Arithmetic

  type Byte = bv8
  type Register = bv24

  const GENERATOR: Register := 0x864CFB

  // ------------------------------------------------------------ bits, most significant first

  function ByteBits(b: Byte): (bits: seq<bool>)
    ensures |bits| == 8
  {
    [b & 0x80 != 0, b & 0x40 != 0, b & 0x20 != 0, b & 0x10 != 0, b & 8 != 0, b & 4 != 0, b & 2 != 0, b & 1 != 0]
  }

  function Bits(bytes: seq<Byte>): (bits: seq<bool>)
    ensures |bits| == 8 * |bytes|
  {
    if bytes == [] then [] else ByteBits(bytes[0]) + Bits(bytes[1..])
  }

  function Zeros(n: nat): (z: seq<bool>)
    ensures |z| == n
  {
    if n == 0 then [] else [false] + Zeros(n - 1)
  }

  /** The 24 bits of the generator below its leading one. */
  function GeneratorBits(): (g: seq<bool>)
    ensures |g| == 24
  {
    ByteBits(0x86) + ByteBits(0x4C) + ByteBits(0xFB)
  }

  function XorBits(x: seq<bool>, y: seq<bool>): (z: seq<bool>)
    requires |x| == |y|
    ensures |z| == |x|
  {
    seq(|x|, i requires 0 <= i < |x| && |x| == |y| => x[i] != y[i])
  }

  /** Schoolbook long division by the generator 0x1864CFB: what is left once at most 24 bits remain. */
  function Remainder(dividend: seq<bool>): (r: seq<bool>)
    ensures |r| == if |dividend| <= 24 then |dividend| else 24
    decreases |dividend|
  {
    if |dividend| <= 24 then dividend
    else if dividend[0] then Remainder(XorBits(dividend[1..25], GeneratorBits()) + dividend[25..])
    else Remainder(dividend[1..])
  }

  // ------------------------------------------------------------ the register

  function Xor(a: Register, b: Register): Register {
    a ^ b
  }

  function Up(r: Register): Register {
    r << 1
  }

  predicate Top(r: Register) {
    r & 0x800000 != 0
  }

  /** The register multiplied by x, modulo the generator. */
  function Step(r: Register): Register {
    if Top(r) then Xor(Up(r), GENERATOR) else Up(r)
  }

  function Steps(r: Register, n: nat): Register
    decreases n
  {
    if n == 0 then r else Steps(Step(r), n - 1)
  }

  /** A single bit at place n of the register. */
  function Place(bit: bool, n: nat): Register
    requires n < 24
  {
    if bit then 1 << n else 0
  }

  /** Bits enter at the low end, as in long division. */
  function Shifted(r: Register, bits: seq<bool>): Register
    decreases |bits|
  {
    if bits == [] then r else Shifted(Xor(Step(r), Place(bits[0], 0)), bits[1..])
  }

  /** Bits enter at the high end, as the check computes. */
  function Direct(r: Register, bits: seq<bool>): Register
    decreases |bits|
  {
    if bits == [] then r else Direct(Step(Xor(r, Place(bits[0], 23))), bits[1..])
  }

  lemma TopXor(a: Register, b: Register)
    ensures Top(Xor(a, b)) == (Top(a) != Top(b))
  {
  }

  lemma UpXor(a: Register, b: Register)
    ensures Up(Xor(a, b)) == Xor(Up(a), Up(b))
  {
  }

  lemma XorCommutes(a: Register, b: Register)
    ensures Xor(a, b) == Xor(b, a)
  {
  }

  lemma XorAssociates(a: Register, b: Register, c: Register)
    ensures Xor(Xor(a, b), c) == Xor(a, Xor(b, c))
  {
  }

  lemma XorCancels(a: Register, c: Register)
    ensures Xor(Xor(a, c), c) == a
  {
  }

  lemma XorRules(a: Register, b: Register, c: Register)
    ensures Xor(Xor(a, c), Xor(b, c)) == Xor(a, b)
    ensures Xor(Xor(a, c), b) == Xor(Xor(a, b), c) == Xor(a, Xor(b, c))
  {
    hide Xor;
    XorAssociates(a, c, b);
    XorAssociates(a, b, c);
    XorCommutes(b, c);
    XorAssociates(Xor(a, c), c, b);
    XorCancels(a, c);
  }

  lemma XorZero(a: Register)
    ensures Xor(a, 0) == Xor(0, a) == a && Xor(a, a) == 0
  {
  }

  lemma StepLinear(a: Register, b: Register)
    ensures Step(Xor(a, b)) == Xor(Step(a), Step(b))
  {
    hide Top, Xor, Up;
    TopXor(a, b);
    UpXor(a, b);
    XorRules(Up(a), Up(b), GENERATOR);
  }

  lemma {:induction false} StepsLinear(a: Register, b: Register, n: nat)
    ensures Steps(Xor(a, b), n) == Xor(Steps(a, n), Steps(b, n))
    decreases n
  {
    hide Step, Xor;
    if n == 0 {
    } else {
      StepLinear(a, b);
      StepsLinear(Step(a), Step(b), n - 1);
    }
  }

  lemma {:induction false} StepsThenStep(r: Register, n: nat)
    ensures Steps(Step(r), n) == Step(Steps(r, n)) == Steps(r, n + 1)
    decreases n
  {
    hide Step;
    if n == 0 {
    } else {
      StepsThenStep(Step(r), n - 1);
    }
  }

  lemma ClimbStep(bit: bool, n: nat)
    requires n < 23
    ensures Step(Place(bit, n)) == Place(bit, n + 1)
  {
    if n == 0 {} else if n == 1 {} else if n == 2 {} else if n == 3 {} else if n == 4 {} else if n == 5 {}
    else if n == 6 {} else if n == 7 {} else if n == 8 {} else if n == 9 {} else if n == 10 {} else if n == 11 {}
    else if n == 12 {} else if n == 13 {} else if n == 14 {} else if n == 15 {} else if n == 16 {}
    else if n == 17 {} else if n == 18 {} else if n == 19 {} else if n == 20 {} else if n == 21 {}
  }

  /** A bit put in at the bottom climbs a place a step until it reaches the top. */
  lemma {:induction false} Climb(bit: bool, from: nat, n: nat)
    requires from + n <= 23
    ensures Steps(Place(bit, from), n) == Place(bit, from + n)
    decreases n
  {
    hide Step, Place;
    if n == 0 {
    } else {
      ClimbStep(bit, from);
      Climb(bit, from + 1, n - 1);
    }
  }

  /** 24 steps on, the low end has become the high end. */
  lemma LowToHigh(bit: bool)
    ensures Steps(Place(bit, 0), 24) == Step(Place(bit, 23))
  {
    hide Steps, Step, Place;
    Climb(bit, 0, 23);
    StepsThenStep(Place(bit, 0), 23);
  }

  /** Entering at the high end runs 24 steps ahead of entering at the low end. */
  lemma {:induction false} DirectRunsAhead(r: Register, bits: seq<bool>)
    ensures Direct(Steps(r, 24), bits) == Steps(Shifted(r, bits), 24)
    decreases |bits|
  {
    hide Steps, Step, Place, Xor;
    if bits == [] {
    } else {
      var b := bits[0];
      StepLinear(Steps(r, 24), Place(b, 23));
      LowToHigh(b);
      StepsThenStep(r, 24);
      StepsLinear(Step(r), Place(b, 0), 24);
      DirectRunsAhead(Xor(Step(r), Place(b, 0)), bits[1..]);
    }
  }

  lemma {:induction false} ShiftedZeros(r: Register, n: nat)
    ensures Shifted(r, Zeros(n)) == Steps(r, n)
    decreases n
  {
    hide Step, Xor;
    if n == 0 {
    } else {
      XorZero(Step(r));
      ShiftedZeros(Step(r), n - 1);
      assert Zeros(n)[1..] == Zeros(n - 1);
      assert Place(false, 0) == 0;
    }
  }

  lemma {:induction false} ShiftedAppend(r: Register, x: seq<bool>, y: seq<bool>)
    ensures Shifted(r, x + y) == Shifted(Shifted(r, x), y)
    decreases |x|
  {
    hide Step, Xor, Place;
    if x == [] {
      assert x + y == y;
    } else {
      assert (x + y)[1..] == x[1..] + y;
      ShiftedAppend(Xor(Step(r), Place(x[0], 0)), x[1..], y);
    }
  }

  lemma {:induction false} DirectAppend(r: Register, x: seq<bool>, y: seq<bool>)
    ensures Direct(r, x + y) == Direct(Direct(r, x), y)
    decreases |x|
  {
    hide Step, Xor, Place;
    if x == [] {
      assert x + y == y;
    } else {
      assert (x + y)[1..] == x[1..] + y;
      DirectAppend(Step(Xor(r, Place(x[0], 23))), x[1..], y);
    }
  }

  lemma {:induction false} StepsOfZero(n: nat)
    ensures Steps(0, n) == 0
    decreases n
  {
    if n == 0 {
    } else {
      assert Step(0) == 0;
      StepsOfZero(n - 1);
    }
  }

  /** The check of a message, as the register that divides the message with 24 zeros behind it. */
  lemma DirectIsShifted(bits: seq<bool>)
    ensures Direct(0, bits) == Shifted(0, bits + Zeros(24))
  {
    hide Steps, Shifted, Direct;
    StepsOfZero(24);
    DirectRunsAhead(0, bits);
    ShiftedAppend(0, bits, Zeros(24));
    ShiftedZeros(Shifted(0, bits), 24);
  }

  // ------------------------------------------------------------ registers and strings of bits

  /** The number a string of bits spells. */
  function Value(bits: seq<bool>): (v: nat)
    ensures v < Pow2(|bits|)
  {
    if bits == [] then 0 else 2 * Value(bits[..|bits| - 1]) + if bits[|bits| - 1] then 1 else 0
  }

  /** At most 24 bits put into an empty register. */
  function Load(bits: seq<bool>): Register {
    if bits == [] then 0 else Xor(Up(Load(bits[..|bits| - 1])), Place(bits[|bits| - 1], 0))
  }

  function Number(r: Register): nat {
    r as int
  }

  lemma NumberInjective(a: Register, b: Register)
    requires Number(a) == Number(b)
    ensures a == b
  {
    assert (a as int) as Register == a && (b as int) as Register == b;
  }

  lemma UpTwice(a: Register)
    requires a & 0x800000 == 0
    ensures Number(a << 1) == 2 * Number(a) && Number((a << 1) ^ 1) == 2 * Number(a) + 1
  {
  }

  lemma TopIsLarge(a: Register)
    requires a & 0x800000 != 0
    ensures Number(a) >= 0x800000 && Number(a ^ 0x800000) == Number(a) - 0x800000
  {
  }

  lemma TopNumber(a: Register)
    ensures Top(a) <==> Number(a) >= 0x800000
  {
    if Top(a) {
      TopIsLarge(a);
    } else {
      UpTwice(a);
    }
  }

  lemma DropTop(a: Register)
    ensures Up(a ^ 0x800000) == Up(a)
  {
  }

  lemma UpNumber(a: Register, b: bool)
    requires !Top(a)
    ensures Number(Xor(Up(a), Place(b, 0))) == 2 * Number(a) + if b then 1 else 0
  {
    UpTwice(a);
    if b {
      assert Place(b, 0) == 1;
    } else {
      XorZero(a << 1);
    }
  }

  lemma TwentyFourBits()
    ensures Pow2(23) == 0x800000
  {
    assert Pow2(2) == 4 && Pow2(4) == 16 && Pow2(6) == 64 && Pow2(8) == 256 && Pow2(10) == 1024;
    assert Pow2(12) == 0x1000 && Pow2(14) == 0x4000 && Pow2(16) == 0x10000 && Pow2(18) == 0x40000;
    assert Pow2(20) == 0x100000 && Pow2(22) == 0x400000;
  }

  lemma {:induction false} PowerGrows(m: nat, n: nat)
    requires m <= n
    ensures Pow2(m) <= Pow2(n)
    decreases n - m
  {
    if m == n {
    } else {
      PowerGrows(m, n - 1);
    }
  }

  lemma {:induction false} LoadNumber(bits: seq<bool>)
    requires |bits| <= 24
    ensures Number(Load(bits)) == Value(bits)
    decreases |bits|
  {
    hide Xor, Up, Place, Top, Pow2, Number;
    if bits == [] {
      NumberOfZero();
    } else {
      var front := bits[..|bits| - 1];
      LoadNumber(front);
      TwentyFourBits();
      PowerGrows(|front|, 23);
      TopNumber(Load(front));
      UpNumber(Load(front), bits[|bits| - 1]);
    }
  }

  lemma NumberOfZero()
    ensures Number(0) == 0
  {
  }

  lemma ValueSnoc(x: seq<bool>, b: bool)
    ensures Value(x + [b]) == 2 * Value(x) + if b then 1 else 0
  {
    assert (x + [b])[..|x|] == x;
  }

  lemma {:induction false} ValueInjective(x: seq<bool>, y: seq<bool>)
    requires |x| == |y| && Value(x) == Value(y)
    ensures x == y
    decreases |x|
  {
    hide Pow2;
    if x == [] {
    } else {
      var n := |x| - 1;
      ValueInjective(x[..n], y[..n]);
      assert x == x[..n] + [x[n]] && y == y[..n] + [y[n]];
    }
  }

  lemma {:induction false} ValueAppend(x: seq<bool>, y: seq<bool>)
    ensures Value(x + y) == Value(x) * Pow2(|y|) + Value(y)
    decreases |y|
  {
    hide Value;
    if y == [] {
      assert x + y == x && Value([]) == 0 by { ValueNothing(); }
    } else {
      var n := |y| - 1;
      var front := y[..n];
      ValueAppend(x, front);
      ValueSnoc(x + front, y[n]);
      ValueSnoc(front, y[n]);
      assert y == front + [y[n]] && x + y == x + front + [y[n]];
      assert Pow2(|y|) == 2 * Pow2(n);
      Doubled(Value(x), Pow2(n));
    }
  }

  lemma ValueNothing()
    ensures Value([]) == 0
  {
  }

  lemma Doubled(a: int, b: int)
    ensures a * (2 * b) == 2 * (a * b)
  {
  }

  lemma {:induction false} LoadXor(x: seq<bool>, y: seq<bool>)
    requires |x| == |y|
    ensures Load(XorBits(x, y)) == Xor(Load(x), Load(y))
    decreases |x|
  {
    hide Xor, Up, Place;
    if x == [] {
      XorZero(0);
    } else {
      var n := |x| - 1;
      var a, b, p, q := Load(x[..n]), Load(y[..n]), Place(x[n], 0), Place(y[n], 0);
      LoadXor(x[..n], y[..n]);
      assert XorBits(x, y)[..n] == XorBits(x[..n], y[..n]);
      UpXor(a, b);
      XorPlaces(x[n], y[n]);
      XorPairs(Up(a), p, Up(b), q);
    }
  }

  lemma XorPlaces(b: bool, c: bool)
    ensures Xor(Place(b, 0), Place(c, 0)) == Place(b != c, 0)
  {
  }

  lemma XorPairs(a: Register, p: Register, b: Register, q: Register)
    ensures Xor(Xor(a, p), Xor(b, q)) == Xor(Xor(a, b), Xor(p, q))
  {
    hide Xor;
    XorAssociates(a, p, Xor(b, q));
    XorAssociates(p, b, q);
    XorCommutes(p, b);
    XorAssociates(b, p, q);
    XorAssociates(a, b, Xor(p, q));
  }

  function Digit(bit: bool): nat {
    if bit then 1 else 0
  }

  lemma FourBits(p: bool, q: bool, r: bool, s: bool)
    ensures Value([p, q, r, s]) == 8 * Digit(p) + 4 * Digit(q) + 2 * Digit(r) + Digit(s)
  {
    hide Value;
    OneBit(p);
    ValueSnoc([p], q);
    ValueSnoc([p, q], r);
    ValueSnoc([p, q, r], s);
    assert [p] + [q] == [p, q] && [p, q] + [r] == [p, q, r] && [p, q, r] + [s] == [p, q, r, s];
  }

  lemma EightBits(a: seq<bool>, b: seq<bool>)
    requires |b| == 4
    ensures Value(a + b) == 16 * Value(a) + Value(b)
  {
    ValueAppend(a, b);
    assert Pow2(2) == 4 && Pow2(4) == 16;
  }

  lemma ByteNumber(b: Byte)
    ensures Value(ByteBits(b)) == b as int
  {
    hide Value;
    var hi := [b & 0x80 != 0, b & 0x40 != 0, b & 0x20 != 0, b & 0x10 != 0];
    var lo := [b & 8 != 0, b & 4 != 0, b & 2 != 0, b & 1 != 0];
    assert ByteBits(b) == hi + lo;
    FourBits(b & 0x80 != 0, b & 0x40 != 0, b & 0x20 != 0, b & 0x10 != 0);
    FourBits(b & 8 != 0, b & 4 != 0, b & 2 != 0, b & 1 != 0);
    EightBits(hi, lo);
    ByteDigits(b);
  }

  lemma ByteDigits(b: Byte)
    ensures b as int == (if b & 0x80 != 0 then 128 else 0) + (if b & 0x40 != 0 then 64 else 0)
                      + (if b & 0x20 != 0 then 32 else 0) + (if b & 0x10 != 0 then 16 else 0)
                      + (if b & 8 != 0 then 8 else 0) + (if b & 4 != 0 then 4 else 0)
                      + (if b & 2 != 0 then 2 else 0) + (if b & 1 != 0 then 1 else 0)
  {
  }

  lemma GeneratorLoads()
    ensures Load(GeneratorBits()) == GENERATOR
  {
    hide Value, ByteBits, Load;
    var a, b, c := ByteBits(0x86), ByteBits(0x4C), ByteBits(0xFB);
    ByteNumber(0x86);
    ByteNumber(0x4C);
    ByteNumber(0xFB);
    assert Pow2(2) == 4 && Pow2(4) == 16 && Pow2(6) == 64 && Pow2(8) == 256;
    ValueAppend(a, b);
    ValueAppend(a + b, c);
    LoadNumber(GeneratorBits());
    assert Number(GENERATOR) == 0x864CFB;
    NumberInjective(Load(GeneratorBits()), GENERATOR);
  }

  /** A leading bit only decides the top of the register. */
  lemma LeadingBit(t: bool, y: seq<bool>)
    requires |y| == 23
    ensures Top(Load([t] + y)) == t
    ensures Up(Load([t] + y)) == Up(Load(y))
  {
    hide Load, Value, Up, Top, Pow2, Number;
    var r := Load([t] + y);
    LoadNumber([t] + y);
    LoadNumber(y);
    ValueAppend([t], y);
    TwentyFourBits();
    assert Value([t]) == if t then 1 else 0 by { OneBit(t); }
    TopNumber(r);
    if t {
      TopDropped(r, Load(y));
    } else {
      NumberInjective(r, Load(y));
    }
  }

  lemma TopDropped(r: Register, low: Register)
    requires Top(r) && Number(r) == Number(low) + 0x800000
    ensures Up(r) == Up(low)
  {
    hide Number, Up;
    TopIsLarge(r);
    NumberInjective(r ^ 0x800000, low);
    DropTop(r);
  }

  lemma OneBit(t: bool)
    ensures Value([t]) == if t then 1 else 0
  {
    assert [t][..0] == [];
  }

  // ------------------------------------------------------------ the check is a remainder

  lemma LoadSnoc(y: seq<bool>, b: bool)
    ensures Load(y + [b]) == Xor(Up(Load(y)), Place(b, 0))
  {
    assert (y + [b])[..|y|] == y;
  }

  /** One step of long division is one step of the register. */
  lemma DivisionStep(x: seq<bool>, b: bool)
    requires |x| == 24
    ensures var y := x[1..] + [b];
            Load(if x[0] then XorBits(y, GeneratorBits()) else y) == Xor(Step(Load(x)), Place(b, 0))
  {
    hide Load, Xor, Up, Place, Top, XorBits;
    var y := x[1..];
    assert x == [x[0]] + y;
    LeadingBit(x[0], y);
    LoadSnoc(y, b);
    if x[0] {
      GeneratorLoads();
      LoadXor(y + [b], GeneratorBits());
      XorRules(Up(Load(y)), Place(b, 0), GENERATOR);
    }
  }

  lemma {:induction false} RemainderIsShifted(x: seq<bool>, rest: seq<bool>)
    requires |x| == 24
    ensures Load(Remainder(x + rest)) == Shifted(Load(x), rest)
    decreases |rest|
  {
    hide Load, Xor, Step, Place, XorBits;
    if rest == [] {
      assert x + rest == x;
    } else {
      var b, d := rest[0], x + rest;
      var y := x[1..] + [b];
      var next := if x[0] then XorBits(y, GeneratorBits()) else y;
      DivisionStep(x, b);
      RemainderIsShifted(next, rest[1..]);
      assert d == [x[0]] + (y + rest[1..]) by { assert x == [x[0]] + x[1..] && rest == [b] + rest[1..]; }
      assert d[1..] == y + rest[1..];
      assert d[1..25] == y && d[25..] == rest[1..];
    }
  }

  lemma {:induction false} LeadingZeros(n: nat, d: seq<bool>)
    requires |d| >= 24
    ensures Remainder(Zeros(n) + d) == Remainder(d)
    decreases n
  {
    if n == 0 {
      assert Zeros(n) + d == d;
    } else {
      LeadingZeros(n - 1, d);
      assert (Zeros(n) + d)[1..] == Zeros(n - 1) + d;
    }
  }

  lemma {:induction false} ValueOfZeros(n: nat)
    ensures Value(Zeros(n)) == 0
    decreases n
  {
    hide Pow2, Value;
    if n == 0 {
      ValueNothing();
    } else {
      ValueOfZeros(n - 1);
      ValueAppend([false], Zeros(n - 1));
      OneBit(false);
    }
  }

  lemma LoadIsZero(x: seq<bool>)
    requires |x| <= 24
    ensures Load(x) == 0 <==> x == Zeros(|x|)
  {
    hide Load, Value;
    LoadNumber(x);
    LoadNumber(Zeros(|x|));
    ValueOfZeros(|x|);
    NumberOfZero();
    if Load(x) == 0 {
      ValueInjective(x, Zeros(|x|));
    } else if x == Zeros(|x|) {
      NumberInjective(Load(x), 0);
    }
  }

  /** What is left in an empty register after a whole string has passed is the string's remainder. */
  lemma ShiftedIsRemainder(d: seq<bool>)
    requires |d| >= 24
    ensures Shifted(0, d) == Load(Remainder(d))
  {
    hide Load, Shifted, Remainder;
    LoadIsZero(Zeros(24));
    RemainderIsShifted(Zeros(24), d);
    LeadingZeros(24, d);
  }

  /** The check of a message is the remainder of the message with 24 zeros behind it. */
  lemma CheckIsRemainder(message: seq<bool>)
    ensures Direct(0, message) == Load(Remainder(message + Zeros(24)))
  {
    DirectIsShifted(message);
    ShiftedIsRemainder(message + Zeros(24));
  }

  /** At most 24 bits entering at the low end are added to the register as they stand. */
  lemma {:induction false} ShiftIn(r: Register, c: seq<bool>)
    requires |c| <= 24
    ensures Shifted(r, c) == Xor(Steps(r, |c|), Load(c))
    decreases |c|
  {
    hide Shifted, Xor, Top, Up, Place, Number, Pow2, Load;
    if c == [] {
      NothingIn(r);
    } else {
      var n := |c| - 1;
      var front := c[..n];
      assert c == front + [c[n]];
      ShiftIn(r, front);
      ShiftedAppend(r, front, [c[n]]);
      OneIn(Shifted(r, front), c[n]);
      LoadSnoc(front, c[n]);
      NotTop(front);
      StepLinear(Steps(r, n), Load(front));
      StepsThenStep(r, n);
      XorAssociates(Steps(r, n + 1), Up(Load(front)), Place(c[n], 0));
    }
  }

  lemma NothingIn(r: Register)
    ensures Shifted(r, []) == r == Xor(Steps(r, 0), Load([]))
  {
    XorZero(r);
  }

  lemma OneIn(r: Register, b: bool)
    ensures Shifted(r, [b]) == Xor(Step(r), Place(b, 0))
  {
    assert [b][1..] == [];
  }

  lemma NotTop(x: seq<bool>)
    requires |x| < 24
    ensures Step(Load(x)) == Up(Load(x))
  {
    hide Load, Value, Top, Number, Pow2, Up, Xor;
    LoadNumber(x);
    TwentyFourBits();
    PowerGrows(|x|, 23);
    TopNumber(Load(x));
  }

  lemma FrameRegister(message: seq<bool>, check: seq<bool>)
    requires |check| == 24
    ensures Shifted(0, message + check) == Xor(Direct(0, message), Load(check))
  {
    hide Shifted, Direct, Load, Xor, Steps;
    ShiftedAppend(0, message, check);
    ShiftIn(Shifted(0, message), check);
    DirectRunsAhead(0, message);
    StepsOfZero(24);
  }

  /** The receiver's test: the check of the message equals the 24 bits behind it exactly when the whole
      frame, as a polynomial, is a multiple of the generator. */
  lemma TestIsDivisibility(message: seq<bool>, check: seq<bool>)
    requires |check| == 24
    ensures Number(Direct(0, message)) == Value(check) <==> Remainder(message + check) == Zeros(24)
  {
    hide Shifted, Direct, Load, Xor, Remainder, Number, Value, Zeros;
    ShiftedIsRemainder(message + check);
    FrameRegister(message, check);
    LoadIsZero(Remainder(message + check));
    LoadNumber(check);
    XorIsZero(Direct(0, message), Load(check));
    if Number(Direct(0, message)) == Value(check) {
      NumberInjective(Direct(0, message), Load(check));
    }
  }

  lemma XorIsZero(a: Register, b: Register)
    ensures Xor(a, b) == 0 <==> a == b
  {
  }

  // ------------------------------------------------------------ error bursts

  lemma {:induction false} ShiftedLinear(a: Register, b: Register, x: seq<bool>, y: seq<bool>)
    requires |x| == |y|
    ensures Shifted(Xor(a, b), XorBits(x, y)) == Xor(Shifted(a, x), Shifted(b, y))
    decreases |x|
  {
    hide Step, Xor, Place;
    if x == [] {
    } else {
      var p, q := Place(x[0], 0), Place(y[0], 0);
      StepLinear(a, b);
      XorPlaces(x[0], y[0]);
      XorPairs(Step(a), p, Step(b), q);
      assert XorBits(x, y)[1..] == XorBits(x[1..], y[1..]);
      ShiftedLinear(Xor(Step(a), p), Xor(Step(b), q), x[1..], y[1..]);
    }
  }

  lemma StepKeepsNonzero(r: Register)
    requires r != 0
    ensures Step(r) != 0
  {
  }

  lemma {:induction false} StepsKeepNonzero(r: Register, n: nat)
    requires r != 0
    ensures Steps(r, n) != 0
    decreases n
  {
    hide Step;
    if n == 0 {
    } else {
      StepKeepsNonzero(r);
      StepsKeepNonzero(Step(r), n - 1);
    }
  }

  lemma ShiftedBurst(i: nat, w: seq<bool>, j: nat)
    requires |w| <= 24 && w != Zeros(|w|)
    ensures Shifted(0, Zeros(i) + w + Zeros(j)) != 0
  {
    hide Shifted, Steps, Load, Xor;
    ShiftedAppend(0, Zeros(i) + w, Zeros(j));
    ShiftedAppend(0, Zeros(i), w);
    ShiftedZeros(0, i);
    StepsOfZero(i);
    ShiftIn(0, w);
    StepsOfZero(|w|);
    XorZero(Load(w));
    LoadIsZero(w);
    ShiftedZeros(Load(w), j);
    StepsKeepNonzero(Load(w), j);
  }

  lemma {:induction false} AllFalse(z: seq<bool>)
    requires forall k :: 0 <= k < |z| ==> !z[k]
    ensures z == Zeros(|z|)
    decreases |z|
  {
    if z == [] {
    } else {
      AllFalse(z[1..]);
      assert z == [z[0]] + z[1..];
    }
  }

  /** The difference of two strings that agree outside 24 places is a burst among zeros. */
  lemma Burst(x: seq<bool>, y: seq<bool>, from: nat, to: nat)
    requires |x| == |y| && from <= to <= |x|
    requires forall k :: 0 <= k < |x| && !(from <= k < to) ==> x[k] == y[k]
    requires x != y
    ensures var d := XorBits(x, y);
            && d == Zeros(from) + d[from..to] + Zeros(|x| - to)
            && d[from..to] != Zeros(to - from)
  {
    hide Zeros;
    var d := XorBits(x, y);
    AllFalse(d[..from]);
    AllFalse(d[to..]);
    assert d == d[..from] + d[from..to] + d[to..];
    var k := DifferAt(x, y);
    assert d[from..to][k - from];
    ZerosAreFalse(to - from, k - from);
  }

  lemma DifferAt(x: seq<bool>, y: seq<bool>) returns (k: nat)
    requires |x| == |y| && x != y
    ensures k < |x| && x[k] != y[k]
  {
    k :| 0 <= k < |x| && x[k] != y[k];
  }

  lemma {:induction false} ZerosAreFalse(n: nat, k: nat)
    requires k < n
    ensures !Zeros(n)[k]
    decreases n
  {
    if k == 0 {
    } else {
      ZerosAreFalse(n - 1, k - 1);
    }
  }

  /** Every error burst of up to 24 bits is detected: of two strings that differ, and only within 24
      consecutive places, at most one is a multiple of the generator. */
  lemma BurstDetected(x: seq<bool>, y: seq<bool>, from: nat, to: nat)
    requires |x| == |y| >= 24 && from <= to <= |x| && to <= from + 24
    requires forall k :: 0 <= k < |x| && !(from <= k < to) ==> x[k] == y[k]
    requires x != y && Remainder(x) == Zeros(24)
    ensures Remainder(y) != Zeros(24)
  {
    hide Shifted, Remainder, XorBits, Load, Xor, Zeros;
    Burst(x, y, from, to);
    ShiftedBurst(from, XorBits(x, y)[from..to], |x| - to);
    XorZero(0);
    ShiftedLinear(0, 0, x, y);
    ShiftedIsRemainder(x);
    ShiftedIsRemainder(y);
    LoadIsZero(Zeros(24));
  }
}

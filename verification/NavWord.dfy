/**
 One 30-bit word of the GPS navigation message: counting bits, the parity of section 20.3.5 of
 IS-GPS-200, and what a receiver makes of it (gpssim.c 692-777).
 */
module NavWord {

  type Word = bv32

  // ------------------------------------------------------------ counting bits

  function Sum2(v: Word): Word { ((v >> 1) & 0x55555555) + (v & 0x55555555) }
  function Sum4(v: Word): Word { ((v >> 2) & 0x33333333) + (v & 0x33333333) }
  function Sum8(v: Word): Word { ((v >> 4) & 0x0F0F0F0F) + (v & 0x0F0F0F0F) }
  function Sum16(v: Word): Word { ((v >> 8) & 0x00FF00FF) + (v & 0x00FF00FF) }
  function Sum32(v: Word): Word { ((v >> 16) & 0x0000FFFF) + (v & 0x0000FFFF) }

  /** gpssim.c 692-707. */
  function CountBits(v: Word): Word {
    Sum32(Sum16(Sum8(Sum4(Sum2(v)))))
  }

  function Xor2(v: Word): Word { (v ^ (v >> 1)) & 0x55555555 }
  function Xor4(v: Word): Word { (v ^ (v >> 2)) & 0x11111111 }
  function Xor8(v: Word): Word { (v ^ (v >> 4)) & 0x01010101 }
  function Xor16(v: Word): Word { (v ^ (v >> 8)) & 0x00010001 }
  function Xor32(v: Word): Word { (v ^ (v >> 16)) & 0x00000001 }

  /** The exclusive or of all 32 bits. */
  function Parity(v: Word): Word {
    Xor32(Xor16(Xor8(Xor4(Xor2(v)))))
  }

  predicate Odd(v: Word) {
    Set(Parity(v))
  }

  lemma Level2(v: Word) ensures Sum2(v) & 0x55555555 == Xor2(v) {}
  lemma Level4(v: Word) ensures Sum4(v) & 0x11111111 == Xor4(v & 0x55555555) {}
  lemma Level8(v: Word) ensures Sum8(v) & 0x01010101 == Xor8(v & 0x11111111) {}
  lemma Level16(v: Word) ensures Sum16(v) & 0x00010001 == Xor16(v & 0x01010101) {}
  lemma Level32(v: Word) ensures Sum32(v) & 1 == Xor32(v & 0x00010001) {}

  /** The count is odd exactly when the exclusive or of the bits is one. */
  lemma CountIsParity(v: Word)
    ensures CountBits(v) & 1 == Parity(v)
  {
    hide Sum2, Sum4, Sum8, Sum16, Sum32, Xor2, Xor4, Xor8, Xor16, Xor32;
    var a := Sum2(v);
    var b := Sum4(a);
    var c := Sum8(b);
    Level2(v);
    Level4(a);
    Level8(b);
    Level16(c);
    Level32(Sum16(c));
  }

  /** A single bit, and whether it is set. */
  predicate IsBit(v: Word) { v <= 1 }
  predicate Set(v: Word) { v != 0 }

  /** The two places above the 30 bits of a word are free. */
  predicate TopClear(w: Word) { w & 0xC0000000 == 0 }

  // ------------------------------------------------------------ the standard's equations

  /** Parity bits D25..D30 of a transmitted word. */
  predicate D25(w: Word) { (w >> 5) & 1 != 0 }
  predicate D26(w: Word) { (w >> 4) & 1 != 0 }
  predicate D27(w: Word) { (w >> 3) & 1 != 0 }
  predicate D28(w: Word) { (w >> 2) & 1 != 0 }
  predicate D29(w: Word) { (w >> 1) & 1 != 0 }
  predicate D30(w: Word) { w & 1 != 0 }

  /** Data bits d1..d24 stand at bits 29..6, so that d_k is bit 30 - k. The six sums below are the rows of
      Table 20-XIV of IS-GPS-200 without their starred bits, each in two halves. */
  predicate Row25High(d: Word) {  // d1, d2, d3, d5, d6, d10, d11, d12
    ((d >> 29) ^ (d >> 28) ^ (d >> 27) ^ (d >> 25) ^ (d >> 24) ^ (d >> 20) ^ (d >> 19) ^ (d >> 18)) & 1 != 0
  }
  predicate Row25Low(d: Word) {  // d13, d14, d17, d18, d20, d23
    ((d >> 17) ^ (d >> 16) ^ (d >> 13) ^ (d >> 12) ^ (d >> 10) ^ (d >> 7)) & 1 != 0
  }
  predicate Row26High(d: Word) {  // d2, d3, d4, d6, d7, d11, d12
    ((d >> 28) ^ (d >> 27) ^ (d >> 26) ^ (d >> 24) ^ (d >> 23) ^ (d >> 19) ^ (d >> 18)) & 1 != 0
  }
  predicate Row26Low(d: Word) {  // d13, d14, d15, d18, d19, d21, d24
    ((d >> 17) ^ (d >> 16) ^ (d >> 15) ^ (d >> 12) ^ (d >> 11) ^ (d >> 9) ^ (d >> 6)) & 1 != 0
  }
  predicate Row27High(d: Word) {  // d1, d3, d4, d5, d7, d8, d12
    ((d >> 29) ^ (d >> 27) ^ (d >> 26) ^ (d >> 25) ^ (d >> 23) ^ (d >> 22) ^ (d >> 18)) & 1 != 0
  }
  predicate Row27Low(d: Word) {  // d13, d14, d15, d16, d19, d20, d22
    ((d >> 17) ^ (d >> 16) ^ (d >> 15) ^ (d >> 14) ^ (d >> 11) ^ (d >> 10) ^ (d >> 8)) & 1 != 0
  }
  predicate Row28High(d: Word) {  // d2, d4, d5, d6, d8, d9
    ((d >> 28) ^ (d >> 26) ^ (d >> 25) ^ (d >> 24) ^ (d >> 22) ^ (d >> 21)) & 1 != 0
  }
  predicate Row28Low(d: Word) {  // d13, d14, d15, d16, d17, d20, d21, d23
    ((d >> 17) ^ (d >> 16) ^ (d >> 15) ^ (d >> 14) ^ (d >> 13) ^ (d >> 10) ^ (d >> 9) ^ (d >> 7)) & 1 != 0
  }
  predicate Row29High(d: Word) {  // d1, d3, d5, d6, d7, d9, d10
    ((d >> 29) ^ (d >> 27) ^ (d >> 25) ^ (d >> 24) ^ (d >> 23) ^ (d >> 21) ^ (d >> 20)) & 1 != 0
  }
  predicate Row29Low(d: Word) {  // d14, d15, d16, d17, d18, d21, d22, d24
    ((d >> 16) ^ (d >> 15) ^ (d >> 14) ^ (d >> 13) ^ (d >> 12) ^ (d >> 9) ^ (d >> 8) ^ (d >> 6)) & 1 != 0
  }
  predicate Row30High(d: Word) {  // d3, d5, d6, d8, d9, d10, d11
    ((d >> 27) ^ (d >> 25) ^ (d >> 24) ^ (d >> 22) ^ (d >> 21) ^ (d >> 20) ^ (d >> 19)) & 1 != 0
  }
  predicate Row30Low(d: Word) {  // d13, d15, d19, d22, d23, d24
    ((d >> 17) ^ (d >> 15) ^ (d >> 11) ^ (d >> 8) ^ (d >> 7) ^ (d >> 6)) & 1 != 0
  }
  predicate Row25(d: Word) { Row25High(d) != Row25Low(d) }
  predicate Row26(d: Word) { Row26High(d) != Row26Low(d) }
  predicate Row27(d: Word) { Row27High(d) != Row27Low(d) }
  predicate Row28(d: Word) { Row28High(d) != Row28Low(d) }
  predicate Row29(d: Word) { Row29High(d) != Row29Low(d) }
  predicate Row30(d: Word) { Row30High(d) != Row30Low(d) }

  /** The source data bits a receiver recovers from a word and the one before it. */
  function Recover(prev: Word, w: Word): Word {
    if D30(prev) then (w ^ 0x3FFFFFC0) & 0x3FFFFFC0 else w & 0x3FFFFFC0
  }

  /** The parity equations of section 20.3.5.2 of IS-GPS-200, for a word after its predecessor. */
  predicate ParityHolds(prev: Word, w: Word) {
    var d := Recover(prev, w);
    TopClear(w) &&
    D25(w) == (D29(prev) != Row25(d)) &&
    D26(w) == (D30(prev) != Row26(d)) &&
    D27(w) == (D29(prev) != Row27(d)) &&
    D28(w) == (D30(prev) != Row28(d)) &&
    D29(w) == (D30(prev) != Row29(d)) &&
    D30(w) == (D29(prev) != Row30(d))
  }

  // ------------------------------------------------------------ computeChecksum

  /** One parity bit as the code forms it: a starred bit plus the count of the masked data bits, modulo two. */
  function ParityBit(star: Word, mask: Word, d: Word): Word {
    (star + CountBits(mask & d)) % 2
  }

  /** gpssim.c 756-757. */
  function Solve24(d: Word, s30: Word): Word {
    if ParityBit(s30, 0x2BB1F340, d) != 0 then d ^ 0x40 else d
  }

  /** gpssim.c 758-759. */
  function Solve23(d: Word, s29: Word): Word {
    if ParityBit(s29, 0x0B7A89C0, d) != 0 then d ^ 0x80 else d
  }

  function WithParity(t: Word, p25: Word, p26: Word, p27: Word, p28: Word, p29: Word, p30: Word): Word {
    (t | (p25 << 5) | (p26 << 4) | (p27 << 3) | (p28 << 2) | (p29 << 1) | p30) & 0x3FFFFFFF
  }

  /** gpssim.c 762-764. */
  function Inverted(d: Word, s30: Word): Word {
    if s30 != 0 then d ^ 0x3FFFFFC0 else d
  }

  /** gpssim.c 762-773. */
  function Transmit(d: Word, s29: Word, s30: Word): Word {
    WithParity(Inverted(d, s30),
               ParityBit(s29, 0x3B1F3480, d), ParityBit(s30, 0x1D8F9A40, d), ParityBit(s29, 0x2EC7CD00, d),
               ParityBit(s30, 0x1763E680, d), ParityBit(s30, 0x2BB1F340, d), ParityBit(s29, 0x0B7A89C0, d))
  }

  function Data(source: Word): Word { source & 0x3FFFFFC0 }
  function Star29(source: Word): Word { (source >> 31) & 1 }
  function Star30(source: Word): Word { (source >> 30) & 1 }

  /** gpssim.c 714-777. */
  function ComputeChecksum(source: Word, nib: bool): Word {
    var s29, s30 := Star29(source), Star30(source);
    Transmit(if nib then Solve23(Solve24(Data(source), s30), s29) else Data(source), s29, s30)
  }

  // ------------------------------------------------------------ the code's masks are the standard's rows

  lemma SumOfBits(star: Word, count: Word)
    requires IsBit(star)
    ensures IsBit((star + count) % 2)
    ensures Set((star + count) % 2) == (Set(star) != Set(count & 1))
  {
  }

  lemma ParityBitIs(star: Word, mask: Word, d: Word)
    requires IsBit(star)
    ensures IsBit(ParityBit(star, mask, d))
    ensures Set(ParityBit(star, mask, d)) == (Set(star) != Odd(mask & d))
  {
    hide CountBits, Parity, IsBit;
    CountIsParity(mask & d);
    SumOfBits(star, CountBits(mask & d));
  }

  lemma Linear2(a: Word, b: Word) ensures Xor2(a ^ b) == Xor2(a) ^ Xor2(b) {}
  lemma Linear4(a: Word, b: Word) ensures Xor4(a ^ b) == Xor4(a) ^ Xor4(b) {}
  lemma Linear8(a: Word, b: Word) ensures Xor8(a ^ b) == Xor8(a) ^ Xor8(b) {}
  lemma Linear16(a: Word, b: Word) ensures Xor16(a ^ b) == Xor16(a) ^ Xor16(b) {}
  lemma Linear32(a: Word, b: Word) ensures Xor32(a ^ b) == Xor32(a) ^ Xor32(b) {}

  function Mix(a: Word, b: Word): Word { a ^ b }

  lemma Mixed2(a: Word, b: Word) ensures Xor2(Mix(a, b)) == Mix(Xor2(a), Xor2(b)) { hide Xor2; Linear2(a, b); }
  lemma Mixed4(a: Word, b: Word) ensures Xor4(Mix(a, b)) == Mix(Xor4(a), Xor4(b)) { hide Xor4; Linear4(a, b); }
  lemma Mixed8(a: Word, b: Word) ensures Xor8(Mix(a, b)) == Mix(Xor8(a), Xor8(b)) { hide Xor8; Linear8(a, b); }
  lemma Mixed16(a: Word, b: Word) ensures Xor16(Mix(a, b)) == Mix(Xor16(a), Xor16(b)) { hide Xor16; Linear16(a, b); }
  lemma Mixed32(a: Word, b: Word) ensures Xor32(Mix(a, b)) == Mix(Xor32(a), Xor32(b)) { hide Xor32; Linear32(a, b); }

  lemma ParityLinear(a: Word, b: Word)
    ensures Parity(Mix(a, b)) == Mix(Parity(a), Parity(b))
  {
    hide Mix, Xor2, Xor4, Xor8, Xor16, Xor32;
    var a2, b2 := Xor2(a), Xor2(b);
    var a4, b4 := Xor4(a2), Xor4(b2);
    var a8, b8 := Xor8(a4), Xor8(b4);
    Mixed2(a, b);
    Mixed4(a2, b2);
    Mixed8(a4, b4);
    Mixed16(a8, b8);
    Mixed32(Xor16(a8), Xor16(b8));
  }

  lemma ParityIsBit(v: Word)
    ensures IsBit(Parity(v))
  {
    hide Xor2, Xor4, Xor8, Xor16;
  }

  lemma MixOfBits(p: Word, q: Word)
    requires IsBit(p) && IsBit(q)
    ensures Set(Mix(p, q)) == (Set(p) != Set(q))
  {
  }

  /** The exclusive or of two words is odd when one of them is. */
  lemma OddLinear(a: Word, b: Word)
    ensures Odd(Mix(a, b)) == (Odd(a) != Odd(b))
  {
    hide Parity, Mix, IsBit, Set;
    ParityLinear(a, b);
    ParityIsBit(a);
    ParityIsBit(b);
    MixOfBits(Parity(a), Parity(b));
  }

  function Upper(v: Word): Word { v & 0xFFFC0000 }
  function Lower(v: Word): Word { v & 0x0003FFFF }

  lemma SplitWord(v: Word)
    ensures v == Mix(Upper(v), Lower(v))
  {
  }

  lemma High25(d: Word) ensures Odd(Upper(0x3B1F3480 & d)) == Row25High(d) {}
  lemma Low25(d: Word) ensures Odd(Lower(0x3B1F3480 & d)) == Row25Low(d) {}
  lemma High26(d: Word) ensures Odd(Upper(0x1D8F9A40 & d)) == Row26High(d) {}
  lemma Low26(d: Word) ensures Odd(Lower(0x1D8F9A40 & d)) == Row26Low(d) {}
  lemma High27(d: Word) ensures Odd(Upper(0x2EC7CD00 & d)) == Row27High(d) {}
  lemma Low27(d: Word) ensures Odd(Lower(0x2EC7CD00 & d)) == Row27Low(d) {}
  lemma High28(d: Word) ensures Odd(Upper(0x1763E680 & d)) == Row28High(d) {}
  lemma Low28(d: Word) ensures Odd(Lower(0x1763E680 & d)) == Row28Low(d) {}
  lemma High29(d: Word) ensures Odd(Upper(0x2BB1F340 & d)) == Row29High(d) {}
  lemma Low29(d: Word) ensures Odd(Lower(0x2BB1F340 & d)) == Row29Low(d) {}
  lemma High30(d: Word) ensures Odd(Upper(0x0B7A89C0 & d)) == Row30High(d) {}
  lemma Low30(d: Word) ensures Odd(Lower(0x0B7A89C0 & d)) == Row30Low(d) {}

  lemma Mask25(d: Word)
    ensures Odd(0x3B1F3480 & d) == Row25(d)
  {
    hide Odd, Mix, Upper, Lower, Row25High, Row25Low;
    SplitWord(0x3B1F3480 & d);
    OddLinear(Upper(0x3B1F3480 & d), Lower(0x3B1F3480 & d));
    High25(d);
    Low25(d);
  }

  lemma Mask26(d: Word)
    ensures Odd(0x1D8F9A40 & d) == Row26(d)
  {
    hide Odd, Mix, Upper, Lower, Row26High, Row26Low;
    SplitWord(0x1D8F9A40 & d);
    OddLinear(Upper(0x1D8F9A40 & d), Lower(0x1D8F9A40 & d));
    High26(d);
    Low26(d);
  }

  lemma Mask27(d: Word)
    ensures Odd(0x2EC7CD00 & d) == Row27(d)
  {
    hide Odd, Mix, Upper, Lower, Row27High, Row27Low;
    SplitWord(0x2EC7CD00 & d);
    OddLinear(Upper(0x2EC7CD00 & d), Lower(0x2EC7CD00 & d));
    High27(d);
    Low27(d);
  }

  lemma Mask28(d: Word)
    ensures Odd(0x1763E680 & d) == Row28(d)
  {
    hide Odd, Mix, Upper, Lower, Row28High, Row28Low;
    SplitWord(0x1763E680 & d);
    OddLinear(Upper(0x1763E680 & d), Lower(0x1763E680 & d));
    High28(d);
    Low28(d);
  }

  lemma Mask29(d: Word)
    ensures Odd(0x2BB1F340 & d) == Row29(d)
  {
    hide Odd, Mix, Upper, Lower, Row29High, Row29Low;
    SplitWord(0x2BB1F340 & d);
    OddLinear(Upper(0x2BB1F340 & d), Lower(0x2BB1F340 & d));
    High29(d);
    Low29(d);
  }

  lemma Mask30(d: Word)
    ensures Odd(0x0B7A89C0 & d) == Row30(d)
  {
    hide Odd, Mix, Upper, Lower, Row30High, Row30Low;
    SplitWord(0x0B7A89C0 & d);
    OddLinear(Upper(0x0B7A89C0 & d), Lower(0x0B7A89C0 & d));
    High30(d);
    Low30(d);
  }

  // The six bits the code computes are the six rows of the table.

  lemma Bit25(d: Word, star: Word)
    requires IsBit(star)
    ensures IsBit(ParityBit(star, 0x3B1F3480, d)) && Set(ParityBit(star, 0x3B1F3480, d)) == (Set(star) != Row25(d))
  {
    hide ParityBit, Odd, Row25, IsBit, Set;
    ParityBitIs(star, 0x3B1F3480, d);
    Mask25(d);
  }

  lemma Bit26(d: Word, star: Word)
    requires IsBit(star)
    ensures IsBit(ParityBit(star, 0x1D8F9A40, d)) && Set(ParityBit(star, 0x1D8F9A40, d)) == (Set(star) != Row26(d))
  {
    hide ParityBit, Odd, Row26, IsBit, Set;
    ParityBitIs(star, 0x1D8F9A40, d);
    Mask26(d);
  }

  lemma Bit27(d: Word, star: Word)
    requires IsBit(star)
    ensures IsBit(ParityBit(star, 0x2EC7CD00, d)) && Set(ParityBit(star, 0x2EC7CD00, d)) == (Set(star) != Row27(d))
  {
    hide ParityBit, Odd, Row27, IsBit, Set;
    ParityBitIs(star, 0x2EC7CD00, d);
    Mask27(d);
  }

  lemma Bit28(d: Word, star: Word)
    requires IsBit(star)
    ensures IsBit(ParityBit(star, 0x1763E680, d)) && Set(ParityBit(star, 0x1763E680, d)) == (Set(star) != Row28(d))
  {
    hide ParityBit, Odd, Row28, IsBit, Set;
    ParityBitIs(star, 0x1763E680, d);
    Mask28(d);
  }

  lemma Bit29(d: Word, star: Word)
    requires IsBit(star)
    ensures IsBit(ParityBit(star, 0x2BB1F340, d)) && Set(ParityBit(star, 0x2BB1F340, d)) == (Set(star) != Row29(d))
  {
    hide ParityBit, Odd, Row29, IsBit, Set;
    ParityBitIs(star, 0x2BB1F340, d);
    Mask29(d);
  }

  lemma Bit30(d: Word, star: Word)
    requires IsBit(star)
    ensures IsBit(ParityBit(star, 0x0B7A89C0, d)) && Set(ParityBit(star, 0x0B7A89C0, d)) == (Set(star) != Row30(d))
  {
    hide ParityBit, Odd, Row30, IsBit, Set;
    ParityBitIs(star, 0x0B7A89C0, d);
    Mask30(d);
  }

  /** Where the parts of a transmitted word end up. */
  lemma WithParityParts(t: Word, p25: Word, p26: Word, p27: Word, p28: Word, p29: Word, p30: Word)
    requires InData(t)
    requires IsBit(p25) && IsBit(p26) && IsBit(p27) && IsBit(p28) && IsBit(p29) && IsBit(p30)
    ensures var w := WithParity(t, p25, p26, p27, p28, p29, p30);
            Data(w) == t && TopClear(w) &&
            D25(w) == Set(p25) && D26(w) == Set(p26) && D27(w) == Set(p27) &&
            D28(w) == Set(p28) && D29(w) == Set(p29) && D30(w) == Set(p30)
  {
  }

  /** Only the 24 data bits may be set. */
  predicate InData(d: Word) {
    d & 0xC000003F == 0
  }

  /** The starred bits in a checksum's input are the last two bits of the previous word. */
  predicate Starred(prev: Word, s29: Word, s30: Word) {
    IsBit(s29) && IsBit(s30) && D29(prev) == Set(s29) && D30(prev) == Set(s30)
  }

  lemma InversionUndone(d: Word, w: Word)
    requires InData(d)
    ensures InData(d ^ 0x3FFFFFC0)
    ensures Data(w) == d ^ 0x3FFFFFC0 ==> (w ^ 0x3FFFFFC0) & 0x3FFFFFC0 == d
  {
  }

  lemma InvertedRecovered(d: Word, s29: Word, s30: Word, prev: Word, w: Word)
    requires InData(d) && Starred(prev, s29, s30)
    ensures InData(Inverted(d, s30))
    ensures Data(w) == Inverted(d, s30) ==> Recover(prev, w) == d
  {
    hide InData, D29, D30, IsBit;
    InversionUndone(d, w);
  }

  /** A transmitted word carries its data bits and its six parity bits. */
  lemma TransmitHolds(d: Word, s29: Word, s30: Word, prev: Word)
    requires InData(d) && Starred(prev, s29, s30)
    ensures ParityHolds(prev, Transmit(d, s29, s30))
    ensures Recover(prev, Transmit(d, s29, s30)) == d
  {
    hide InData, ParityBit, WithParity, Inverted, Recover, Row25, Row26, Row27, Row28, Row29, Row30,
         D25, D26, D27, D28, D29, D30, IsBit, Set, TopClear, Data;
    Bit25(d, s29);
    Bit26(d, s30);
    Bit27(d, s29);
    Bit28(d, s30);
    Bit29(d, s30);
    Bit30(d, s29);
    InvertedRecovered(d, s29, s30, prev, Transmit(d, s29, s30));
    WithParityParts(Inverted(d, s30),
                    ParityBit(s29, 0x3B1F3480, d), ParityBit(s30, 0x1D8F9A40, d), ParityBit(s29, 0x2EC7CD00, d),
                    ParityBit(s30, 0x1763E680, d), ParityBit(s30, 0x2BB1F340, d), ParityBit(s29, 0x0B7A89C0, d));
  }

  // ------------------------------------------------------------ the two solved bits

  lemma FlipD24(d: Word)
    ensures Row29High(d ^ 0x40) == Row29High(d) && Row29Low(d ^ 0x40) == !Row29Low(d)
  {
  }

  lemma FlipD23(d: Word)
    ensures Row29High(d ^ 0x80) == Row29High(d) && Row29Low(d ^ 0x80) == Row29Low(d)
    ensures Row30High(d ^ 0x80) == Row30High(d) && Row30Low(d ^ 0x80) == !Row30Low(d)
  {
  }

  /** d1..d22, the bits that are never solved for. */
  function Kept(d: Word): Word { d & 0x3FFFFF00 }

  lemma FlipsStayInside(d: Word)
    requires InData(d)
    ensures InData(d ^ 0x40) && InData(d ^ 0x80)
    ensures Kept(d ^ 0x40) == Kept(d) && Kept(d ^ 0x80) == Kept(d)
  {
  }

  /** After the first flip D29 comes out zero. */
  lemma Solved24(d: Word, s30: Word)
    requires InData(d) && IsBit(s30)
    ensures InData(Solve24(d, s30)) && Kept(Solve24(d, s30)) == Kept(d)
    ensures Row29(Solve24(d, s30)) == Set(s30)
  {
    hide InData, Kept, ParityBit, Row29High, Row29Low, IsBit;
    Bit29(d, s30);
    FlipD24(d);
    FlipsStayInside(d);
  }

  /** After the second flip D30 comes out zero, and D29 still does. */
  lemma Solved23(d: Word, s29: Word)
    requires InData(d) && IsBit(s29)
    ensures InData(Solve23(d, s29)) && Kept(Solve23(d, s29)) == Kept(d)
    ensures Row30(Solve23(d, s29)) == Set(s29) && Row29(Solve23(d, s29)) == Row29(d)
  {
    hide InData, Kept, ParityBit, Row29High, Row29Low, Row30High, Row30Low, IsBit;
    Bit30(d, s29);
    FlipD23(d);
    FlipsStayInside(d);
  }

  // ------------------------------------------------------------ one word after another

  /** gpssim.c 1597: the last two bits of the word before, put where the checksum expects them. */
  function Joined(prev: Word, source: Word): Word {
    source | ((prev << 30) & 0xC0000000)
  }

  /** gpssim.c 1597-1599: a word made from its source bits and the word before. */
  function MakeWord(prev: Word, source: Word, nib: bool): Word {
    ComputeChecksum(Joined(prev, source), nib)
  }

  lemma StarsFromPrevious(prev: Word, source: Word)
    requires TopClear(source)
    ensures Starred(prev, Star29(Joined(prev, source)), Star30(Joined(prev, source)))
  {
    hide IsBit, Set, D29, D30, Star29, Star30, Joined;
    StarBits(prev, source);
  }

  lemma StarBits(prev: Word, source: Word)
    requires TopClear(source)
    ensures IsBit(Star29(Joined(prev, source))) && IsBit(Star30(Joined(prev, source)))
    ensures D29(prev) == Set(Star29(Joined(prev, source)))
    ensures D30(prev) == Set(Star30(Joined(prev, source)))
  {
  }

  lemma DataFromSource(prev: Word, source: Word)
    requires TopClear(source)
    ensures Data(Joined(prev, source)) == Data(source) && InData(Data(source)) && Kept(Data(source)) == Kept(source)
  {
  }

  /** Every word satisfies the standard's parity after its predecessor; the receiver recovers its source bits,
      but for the two that were solved, and then the word ends in two zero bits. */
  lemma WordHolds(prev: Word, source: Word, nib: bool)
    requires TopClear(source)
    ensures ParityHolds(prev, MakeWord(prev, source, nib))
    ensures !nib ==> Recover(prev, MakeWord(prev, source, nib)) == Data(source)
    ensures Kept(Recover(prev, MakeWord(prev, source, nib))) == Kept(source)
    ensures nib ==> !D29(MakeWord(prev, source, nib)) && !D30(MakeWord(prev, source, nib))
  {
    hide Recover, Transmit, Solve23, Solve24, Joined, Star29, Star30, Data, Kept, InData, TopClear, IsBit, Set,
         Row25, Row26, Row27, Row28, Row29, Row30, D25, D26, D27, D28, D29, D30;
    var s := Joined(prev, source);
    var s29, s30, d := Star29(s), Star30(s), Data(source);
    StarsFromPrevious(prev, source);
    DataFromSource(prev, source);
    if nib {
      Solved24(d, s30);
      Solved23(Solve24(d, s30), s29);
      TransmitHolds(Solve23(Solve24(d, s30), s29), s29, s30, prev);
    } else {
      TransmitHolds(d, s29, s30, prev);
    }
  }
}

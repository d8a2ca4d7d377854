/**
 The table-driven form of the check (getRTCM3Eph.c 21-54, 102-109): every entry of the table is eight steps of
 the register, so taking a byte at a time computes the same remainder as taking a bit at a time.
 */
module CrcTable {
  import opened CrcPolynomial

  /** The table of getRTCM3Eph.c 21-54, one line of eight entries at a time, in four blocks of eight lines. */
  function TableLine(line: nat): (entries: seq<Register>)
    ensures |entries| == 8
  {
    if line < 8 then Block0(line) else if line < 16 then Block1(line - 8)
    else if line < 24 then Block2(line - 16) else Block3(line - 24)
  }

  function Block0(line: nat): (entries: seq<Register>)
    ensures |entries| == 8
  {
    match line
    case 0 => [0x000000, 0x864CFB, 0x8AD50D, 0x0C99F6, 0x93E6E1, 0x15AA1A, 0x1933EC, 0x9F7F17]
    case 1 => [0xA18139, 0x27CDC2, 0x2B5434, 0xAD18CF, 0x3267D8, 0xB42B23, 0xB8B2D5, 0x3EFE2E]
    case 2 => [0xC54E89, 0x430272, 0x4F9B84, 0xC9D77F, 0x56A868, 0xD0E493, 0xDC7D65, 0x5A319E]
    case 3 => [0x64CFB0, 0xE2834B, 0xEE1ABD, 0x685646, 0xF72951, 0x7165AA, 0x7DFC5C, 0xFBB0A7]
    case 4 => [0x0CD1E9, 0x8A9D12, 0x8604E4, 0x00481F, 0x9F3708, 0x197BF3, 0x15E205, 0x93AEFE]
    case 5 => [0xAD50D0, 0x2B1C2B, 0x2785DD, 0xA1C926, 0x3EB631, 0xB8FACA, 0xB4633C, 0x322FC7]
    case 6 => [0xC99F60, 0x4FD39B, 0x434A6D, 0xC50696, 0x5A7981, 0xDC357A, 0xD0AC8C, 0x56E077]
    case _ => [0x681E59, 0xEE52A2, 0xE2CB54, 0x6487AF, 0xFBF8B8, 0x7DB443, 0x712DB5, 0xF7614E]
  }

  function Block1(line: nat): (entries: seq<Register>)
    ensures |entries| == 8
  {
    match line
    case 0 => [0x19A3D2, 0x9FEF29, 0x9376DF, 0x153A24, 0x8A4533, 0x0C09C8, 0x00903E, 0x86DCC5]
    case 1 => [0xB822EB, 0x3E6E10, 0x32F7E6, 0xB4BB1D, 0x2BC40A, 0xAD88F1, 0xA11107, 0x275DFC]
    case 2 => [0xDCED5B, 0x5AA1A0, 0x563856, 0xD074AD, 0x4F0BBA, 0xC94741, 0xC5DEB7, 0x43924C]
    case 3 => [0x7D6C62, 0xFB2099, 0xF7B96F, 0x71F594, 0xEE8A83, 0x68C678, 0x645F8E, 0xE21375]
    case 4 => [0x15723B, 0x933EC0, 0x9FA736, 0x19EBCD, 0x8694DA, 0x00D821, 0x0C41D7, 0x8A0D2C]
    case 5 => [0xB4F302, 0x32BFF9, 0x3E260F, 0xB86AF4, 0x2715E3, 0xA15918, 0xADC0EE, 0x2B8C15]
    case 6 => [0xD03CB2, 0x567049, 0x5AE9BF, 0xDCA544, 0x43DA53, 0xC596A8, 0xC90F5E, 0x4F43A5]
    case _ => [0x71BD8B, 0xF7F170, 0xFB6886, 0x7D247D, 0xE25B6A, 0x641791, 0x688E67, 0xEEC29C]
  }

  function Block2(line: nat): (entries: seq<Register>)
    ensures |entries| == 8
  {
    match line
    case 0 => [0x3347A4, 0xB50B5F, 0xB992A9, 0x3FDE52, 0xA0A145, 0x26EDBE, 0x2A7448, 0xAC38B3]
    case 1 => [0x92C69D, 0x148A66, 0x181390, 0x9E5F6B, 0x01207C, 0x876C87, 0x8BF571, 0x0DB98A]
    case 2 => [0xF6092D, 0x7045D6, 0x7CDC20, 0xFA90DB, 0x65EFCC, 0xE3A337, 0xEF3AC1, 0x69763A]
    case 3 => [0x578814, 0xD1C4EF, 0xDD5D19, 0x5B11E2, 0xC46EF5, 0x42220E, 0x4EBBF8, 0xC8F703]
    case 4 => [0x3F964D, 0xB9DAB6, 0xB54340, 0x330FBB, 0xAC70AC, 0x2A3C57, 0x26A5A1, 0xA0E95A]
    case 5 => [0x9E1774, 0x185B8F, 0x14C279, 0x928E82, 0x0DF195, 0x8BBD6E, 0x872498, 0x016863]
    case 6 => [0xFAD8C4, 0x7C943F, 0x700DC9, 0xF64132, 0x693E25, 0xEF72DE, 0xE3EB28, 0x65A7D3]
    case _ => [0x5B59FD, 0xDD1506, 0xD18CF0, 0x57C00B, 0xC8BF1C, 0x4EF3E7, 0x426A11, 0xC426EA]
  }

  function Block3(line: nat): (entries: seq<Register>)
    ensures |entries| == 8
  {
    match line
    case 0 => [0x2AE476, 0xACA88D, 0xA0317B, 0x267D80, 0xB90297, 0x3F4E6C, 0x33D79A, 0xB59B61]
    case 1 => [0x8B654F, 0x0D29B4, 0x01B042, 0x87FCB9, 0x1883AE, 0x9ECF55, 0x9256A3, 0x141A58]
    case 2 => [0xEFAAFF, 0x69E604, 0x657FF2, 0xE33309, 0x7C4C1E, 0xFA00E5, 0xF69913, 0x70D5E8]
    case 3 => [0x4E2BC6, 0xC8673D, 0xC4FECB, 0x42B230, 0xDDCD27, 0x5B81DC, 0x57182A, 0xD154D1]
    case 4 => [0x26359F, 0xA07964, 0xACE092, 0x2AAC69, 0xB5D37E, 0x339F85, 0x3F0673, 0xB94A88]
    case 5 => [0x87B4A6, 0x01F85D, 0x0D61AB, 0x8B2D50, 0x145247, 0x921EBC, 0x9E874A, 0x18CBB1]
    case 6 => [0xE37B16, 0x6537ED, 0x69AE1B, 0xEFE2E0, 0x709DF7, 0xF6D10C, 0xFA48FA, 0x7C0401]
    case _ => [0x42FA2F, 0xC4B6D4, 0xC82F22, 0x4E63D9, 0xD11CCE, 0x575035, 0x5BC9C3, 0xDD8538]
  }

  function Table(i: nat): Register
    requires i < 256
  {
    TableLine(i / 8)[i % 8]
  }

  function EightSteps(r: Register): Register {
    Step(Step(Step(Step(Step(Step(Step(Step(r))))))))
  }

  /** Along a line the entries follow the first line's. */
  predicate Follows(line: nat) {
    var e, z := TableLine(line), TableLine(0);
    && e[0] == Xor(e[0], z[0]) && e[1] == Xor(e[0], z[1]) && e[2] == Xor(e[0], z[2]) && e[3] == Xor(e[0], z[3])
    && e[4] == Xor(e[0], z[4]) && e[5] == Xor(e[0], z[5]) && e[6] == Xor(e[0], z[6]) && e[7] == Xor(e[0], z[7])
  }

  lemma Block0Follows()
    ensures Follows(0) && Follows(1) && Follows(2) && Follows(3)
    ensures Follows(4) && Follows(5) && Follows(6) && Follows(7)
  {
    hide Block1, Block2, Block3;
  }

  lemma Block1Follows()
    ensures Follows(8) && Follows(9) && Follows(10) && Follows(11)
    ensures Follows(12) && Follows(13) && Follows(14) && Follows(15)
  {
    hide Block2, Block3;
  }

  lemma Block2Follows()
    ensures Follows(16) && Follows(17) && Follows(18) && Follows(19)
    ensures Follows(20) && Follows(21) && Follows(22) && Follows(23)
  {
    hide Block1, Block3;
  }

  lemma Block3Follows()
    ensures Follows(24) && Follows(25) && Follows(26) && Follows(27)
    ensures Follows(28) && Follows(29) && Follows(30) && Follows(31)
  {
    hide Block1, Block2;
  }

  lemma AllFollow(line: nat)
    requires line < 32
    ensures Follows(line)
  {
    hide *;
    if line < 8 {
      Block0Follows();
    } else if line < 16 {
      Block1Follows();
    } else if line < 24 {
      Block2Follows();
    } else {
      Block3Follows();
    }
  }

  /** The first entry of a line. */
  predicate Starts(line: Register)
    requires line < 32
  {
    LineIndex(line);
    TableLine(line as int)[0] == EightSteps(line << 19)
  }

  lemma LineIndex(line: Register)
    requires line < 32
    ensures 0 <= line as int < 32
  {
  }

  lemma Block0Starts()
    ensures Starts(0) && Starts(1) && Starts(2) && Starts(3)
    ensures Starts(4) && Starts(5) && Starts(6) && Starts(7)
  {
    hide Block1, Block2, Block3;
  }

  lemma Block1Starts()
    ensures Starts(8) && Starts(9) && Starts(10) && Starts(11)
    ensures Starts(12) && Starts(13) && Starts(14) && Starts(15)
  {
    hide Block0, Block2, Block3;
  }

  lemma Block2Starts()
    ensures Starts(16) && Starts(17) && Starts(18) && Starts(19)
    ensures Starts(20) && Starts(21) && Starts(22) && Starts(23)
  {
    hide Block0, Block1, Block3;
  }

  lemma Block3Starts()
    ensures Starts(24) && Starts(25) && Starts(26) && Starts(27)
    ensures Starts(28) && Starts(29) && Starts(30) && Starts(31)
  {
    hide Block0, Block1, Block2;
  }

  lemma AllStart(line: Register)
    requires line < 32
    ensures Starts(line)
  {
    hide *;
    if line < 8 {
      Block0Starts();
    } else if line < 16 {
      Block1Starts();
    } else if line < 24 {
      Block2Starts();
    } else {
      Block3Starts();
    }
  }

  lemma FirstLine(j: Register)
    requires j < 8
    ensures 0 <= j as int < 8 && TableLine(0)[j as int] == EightSteps(j << 16)
  {
    hide Block1, Block2, Block3;
    var z := TableLine(0);
    assert z[0] == EightSteps(0) && z[1] == EightSteps(0x10000) && z[2] == EightSteps(0x20000);
    assert z[3] == EightSteps(0x30000) && z[4] == EightSteps(0x40000) && z[5] == EightSteps(0x50000);
    assert z[6] == EightSteps(0x60000) && z[7] == EightSteps(0x70000);
  }

  lemma EightLinear(a: Register, b: Register)
    ensures EightSteps(Xor(a, b)) == Xor(EightSteps(a), EightSteps(b))
  {
    hide Steps, Step, Xor;
    EightIsSteps(a);
    EightIsSteps(b);
    EightIsSteps(Xor(a, b));
    StepsLinear(a, b, 8);
  }

  lemma EightIsSteps(r: Register)
    ensures EightSteps(r) == Steps(r, 8)
  {
    hide Step;
    assert Steps(r, 8) == Steps(Step(Step(r)), 6) == Steps(Step(Step(Step(Step(r)))), 4);
  }

  /** The index into the table, as line and place in line. */
  lemma IndexParts(i: Register)
    requires i < 256
    ensures 0 <= i as int < 256 && i >> 3 < 32
    ensures (i as int) / 8 == (i >> 3) as int && (i as int) % 8 == (i & 7) as int
    ensures i << 16 == ((i >> 3) << 19) ^ ((i & 7) << 16)
  {
  }

  /** Every entry of the table is eight steps of its index at the top of the register. */
  lemma TableIsRight(i: Register)
    requires i < 256
    ensures 0 <= i as int < 256 && Table(i as int) == EightSteps(i << 16)
  {
    hide TableLine, EightSteps;
    var line, j := i >> 3, i & 7;
    IndexParts(i);
    AllFollow((i as int) / 8);
    AllStart(line);
    FirstLine(j);
    EightLinear(line << 19, j << 16);
  }

  // ------------------------------------------------------------ a byte at a time

  /** Bits put into consecutive places, the first at place k. */
  function Placed(bits: seq<bool>, k: nat): Register
    requires |bits| <= k + 1 <= 24
    decreases |bits|
  {
    if bits == [] then 0
    else if |bits| == 1 then Place(bits[0], k)
    else Xor(Place(bits[0], k), Placed(bits[1..], k - 1))
  }

  lemma {:induction false} PlacedSteps(bits: seq<bool>, k: nat)
    requires |bits| <= k + 1 <= 23
    ensures Step(Placed(bits, k)) == Placed(bits, k + 1)
    decreases |bits|
  {
    hide Step, Place, Xor;
    if bits == [] {
      StepsOfZero(1);
      assert Steps(0, 1) == Step(0);
    } else {
      ClimbStep(bits[0], k);
      if |bits| > 1 {
        PlacedSteps(bits[1..], k - 1);
        StepLinear(Place(bits[0], k), Placed(bits[1..], k - 1));
      }
    }
  }

  /** Entering at the high end one by one is entering all at once, and then stepping. */
  lemma {:induction false} DirectAtOnce(r: Register, bits: seq<bool>)
    requires |bits| <= 24
    ensures Direct(r, bits) == Steps(Xor(r, Placed(bits, 23)), |bits|)
    decreases |bits|
  {
    hide Step, Place, Xor;
    if bits == [] {
      XorZero(r);
    } else {
      var p, tail := Place(bits[0], 23), bits[1..];
      DirectAtOnce(Step(Xor(r, p)), tail);
      if tail == [] {
        XorZero(Step(Xor(r, p)));
      } else {
        PlacedSteps(tail, 22);
        StepLinear(Xor(r, p), Placed(tail, 22));
        XorAssociates(r, p, Placed(tail, 22));
      }
    }
  }

  lemma BytePlaced(b: Byte)
    ensures Placed(ByteBits(b), 23) == (b as Register) << 16
  {
    hide Xor, Place, ByteBits;
    var x := ByteBits(b);
    PlacedNext(x, 6);
    PlacedNext(x, 5);
    PlacedNext(x, 4);
    PlacedNext(x, 3);
    PlacedNext(x, 2);
    PlacedNext(x, 1);
    PlacedNext(x, 0);
    assert x[0..] == x;
    assert Placed(x[7..], 16) == Place(x[7], 16);
    ByteParts(b);
  }

  lemma PlacedNext(x: seq<bool>, i: nat)
    requires |x| == 8 && i < 7
    ensures Placed(x[i..], 23 - i) == Xor(Place(x[i], 23 - i), Placed(x[i + 1..], 22 - i))
  {
    assert x[i..][1..] == x[i + 1..];
  }

  lemma ByteParts(b: Byte)
    ensures var x := ByteBits(b);
            Xor(Place(x[0], 23), Xor(Place(x[1], 22), Xor(Place(x[2], 21), Xor(Place(x[3], 20),
            Xor(Place(x[4], 19), Xor(Place(x[5], 18), Xor(Place(x[6], 17), Place(x[7], 16))))))))
            == (b as Register) << 16
  {
  }

  lemma HighAndLow(r: Register, b: Byte)
    ensures (r >> 16) ^ (b as Register) < 256
    ensures Xor(r, (b as Register) << 16) == Xor(((r >> 16) ^ (b as Register)) << 16, r & 0xFFFF)
  {
  }

  /** The low two bytes move up eight places without a one reaching the top before the last. */
  lemma LowMovesUp(r: Register)
    ensures var l := r & 0xFFFF;
            && !Top(l) && !Top(Up(l)) && !Top(Up(Up(l))) && !Top(Up(Up(Up(l)))) && !Top(Up(Up(Up(Up(l)))))
            && !Top(Up(Up(Up(Up(Up(l)))))) && !Top(Up(Up(Up(Up(Up(Up(l)))))))
            && !Top(Up(Up(Up(Up(Up(Up(Up(l))))))))
            && Up(Up(Up(Up(Up(Up(Up(Up(l)))))))) == r << 8
  {
  }

  lemma EightStepsOfLow(r: Register)
    ensures EightSteps(r & 0xFFFF) == r << 8
  {
    hide Top, Up;
    LowMovesUp(r);
  }

  function UpEight(crc: Register): Register {
    crc << 8
  }

  /** Where a byte looks in the table. */
  function Index(crc: Register, b: Byte): (i: nat)
    ensures i < 256
  {
    HighAndLow(crc, b);
    IndexParts((crc >> 16) ^ (b as Register));
    ((crc >> 16) ^ (b as Register)) as int
  }

  /** One turn of the loop takes eight bits. */
  lemma ByteStep(r: Register, b: Byte)
    ensures Direct(r, ByteBits(b)) == Xor(UpEight(r), Table(Index(r, b)))
  {
    hide Direct, EightSteps, ByteBits, Table, Xor;
    var i := (r >> 16) ^ (b as Register);
    DirectAtOnce(r, ByteBits(b));
    BytePlaced(b);
    HighAndLow(r, b);
    EightIsSteps(Xor(r, (b as Register) << 16));
    EightLinear(i << 16, r & 0xFFFF);
    EightStepsOfLow(r);
    TableIsRight(i);
    XorCommutes(r << 8, Table(i as int));
  }

  lemma {:induction false} BitsAppend(x: seq<Byte>, y: seq<Byte>)
    ensures Bits(x + y) == Bits(x) + Bits(y)
    decreases |x|
  {
    hide ByteBits;
    if x == [] {
      assert x + y == y;
    } else {
      BitsAppend(x[1..], y);
      assert (x + y)[1..] == x[1..] + y;
      assert ByteBits(x[0]) + (Bits(x[1..]) + Bits(y)) == ByteBits(x[0]) + Bits(x[1..]) + Bits(y);
    }
  }

  lemma BitsOfOne(b: Byte)
    ensures Bits([b]) == ByteBits(b)
  {
    assert [b][1..] == [];
  }

  lemma BitsGrow(buff: seq<Byte>, i: nat)
    requires i < |buff|
    ensures Bits(buff[..i + 1]) == Bits(buff[..i]) + ByteBits(buff[i])
  {
    hide Bits, ByteBits;
    var b := buff[i];
    BitsAppend(buff[..i], [b]);
    BitsOfOne(b);
    assert buff[..i + 1] == buff[..i] + [b];
  }

  /** The check after one more byte. */
  lemma NextByte(front: seq<bool>, b: Byte)
    ensures var crc := Direct(0, front);
            Direct(0, front + ByteBits(b)) == Xor(UpEight(crc), Table(Index(crc, b)))
  {
    hide Table, Direct, ByteBits, Index, Xor, UpEight;
    ByteStep(Direct(0, front), b);
    DirectAppend(0, front, ByteBits(b));
  }

  /** crc24q (getRTCM3Eph.c 102-109): a byte at a time, it computes what a bit at a time would. */
  method Crc24q(buff: seq<Byte>, len: int) returns (crc: Register)
    requires len <= |buff|
    ensures crc == Direct(0, Bits(buff[..if len < 0 then 0 else len]))
  {
    hide Table, Direct, Bits, Index, Xor, UpEight;
    crc := 0;
    var i := 0;
    assert buff[..0] == [];
    DirectOfNothing();
    while i < len
      invariant 0 <= i && (i <= len || i == 0)
      invariant crc == Direct(0, Bits(buff[..i]))
    {
      BitsGrow(buff, i);
      NextByte(Bits(buff[..i]), buff[i]);
      crc := Xor(UpEight(crc), Table(Index(crc, buff[i])));
      i := i + 1;
    }
  }

  lemma DirectOfNothing()
    ensures Direct(0, Bits([])) == 0
  {
  }
}

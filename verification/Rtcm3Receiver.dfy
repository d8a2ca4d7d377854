/**
 The receive loop of getRTCM3Eph.c (293-317) on one received buffer: bytes collected in a fixed array, frames
 checked and handed to the decoder until 32 satellites are known; and frames as a sender would build them.
 */
module Rtcm3Receiver {
  import opened Arithmetic
  import opened CrcPolynomial
  import opened Rtcm3
  import CrcTable

  const BUFFER_LENGTH: nat := 1200

  lemma FieldOfPrefix(b: seq<Byte>, n: nat, pos: nat, len: nat)
    requires n <= |b| && pos + len <= 8 * n
    ensures Field(b, pos, len) == Field(b[..n], pos, len)
  {
    hide Bits;
    BitsOfPrefix(b, n);
    assert Bits(b)[pos..pos + len] == Bits(b)[..8 * n][pos..pos + len];
  }

  lemma LengthField(b: seq<Byte>)
    requires |b| >= 3
    ensures Value(Field(b, 14, 10)) == PayloadLength(b)
  {
    hide Bits, Value, Field;
    FieldOfPrefix(b, 3, 14, 10);
  }

  lemma FrameBits(b: seq<Byte>, len: nat)
    requires len + 3 <= |b|
    ensures Bits(b[..len + 3]) == Bits(b[..len]) + Field(b, 8 * len, 24)
  {
    hide Bits;
    BitsOfPrefix(b, len);
    BitsOfPrefix(b, len + 3);
    var all := Bits(b);
    assert all[..8 * (len + 3)] == all[..8 * len] + all[8 * len..8 * len + 24];
  }

  /** The parity test (310-313). */
  method ParityHolds(buff: seq<Byte>, len: nat) returns (ok: bool)
    requires len + 3 <= |buff|
    ensures ok == Passes(buff[..len + 3])
  {
    hide Bits, Value, Number, Direct, Remainder, Field, Zeros;
    var crc := CrcTable.Crc24q(buff, len);
    var parity := GetBitU(buff, len * 8, 24);
    FrameBits(buff, len);
    TestIsDivisibility(Bits(buff[..len]), Field(buff, 8 * len, 24));
    ok := Number(crc) == parity;
  }

  /** What a received buffer leads to: the frames that pass, what stays collected, and the length remembered. */
  datatype Outcome = Outcome(frames: seq<seq<Byte>>, left: seq<Byte>, len: int)

  /** The length once q is collected: it is set at the third byte of a frame, and is otherwise what it was. */
  ghost function NewLength(q: seq<Byte>, len: int): int {
    if |q| == 3 then PayloadLength(q) + 3 else len
  }

  /** The loop at 293-317 without its early end: `p` is collected and `len` is remembered, rightly or not. */
  ghost function Looped(p: seq<Byte>, len: int, bytes: seq<Byte>): Outcome
    requires bytes == [] || |p| < 3 || len >= 0
    decreases |bytes|
  {
    if bytes == [] then Outcome([], p, len)
    else if p == [] && bytes[0] != RTCM3PREAMB then Looped(p, len, bytes[1..])
    else
      var q := p + [bytes[0]];
      var len' := NewLength(q, len);
      if |q| < 3 || |q| < len' + 3 then Looped(q, len', bytes[1..])
      else Before(if Passes(q[..len' + 3]) then [q[..len' + 3]] else [], Looped([], len', bytes[1..]))
  }

  ghost function Before(frames: seq<seq<Byte>>, o: Outcome): Outcome {
    o.(frames := frames + o.frames)
  }

  /** How the frames handed over relate to all the frames a buffer holds: the first ones, up to the frame
      after which the decoder knows 32 satellites. */
  ghost predicate UpToEnough(decode: seq<seq<Byte>> -> int, given: seq<seq<Byte>>, handed: seq<seq<Byte>>,
                             all: seq<seq<Byte>>)
  {
    && handed <= all
    && (forall k :: 0 < k < |handed| ==> decode(given + handed[..k]) < 32)
    && (handed != all ==> handed != [] && decode(given + handed) >= 32)
  }

  ghost predicate NotEnough(decode: seq<seq<Byte>> -> int, given: seq<seq<Byte>>, handed: seq<seq<Byte>>) {
    forall k :: 0 < k <= |handed| ==> decode(given + handed[..k]) < MAX_SAT
  }

  lemma StillNotEnough(decode: seq<seq<Byte>> -> int, given: seq<seq<Byte>>, handed: seq<seq<Byte>>, f: seq<Byte>,
                       more: seq<seq<Byte>>)
    requires NotEnough(decode, given, handed)
    ensures decode(given + (handed + [f])) < MAX_SAT ==> NotEnough(decode, given, handed + [f])
    ensures decode(given + (handed + [f])) >= MAX_SAT ==> UpToEnough(decode, given, handed + [f], handed + [f] + more)
  {
    var h := handed + [f];
    assert forall k :: 0 <= k <= |handed| ==> h[..k] == handed[..k];
    assert h[..|h|] == h;
  }

  // ------------------------------------------------------------ the index

  /** Every place of the array that the loop touches lies inside it: the byte stored, and at the end of a frame those
      the check reads. */
  ghost predicate Inside(p: seq<Byte>, len: int, bytes: seq<Byte>)
    decreases |bytes|
  {
    bytes == [] ||
    if p == [] && bytes[0] != RTCM3PREAMB then Inside(p, len, bytes[1..])
    else
      |p| < BUFFER_LENGTH &&
      var q := p + [bytes[0]];
      var len' := NewLength(q, len);
      if |q| < 3 || |q| < len' + 3 then Inside(q, len', bytes[1..])
      else 0 <= len' && len' + 3 <= BUFFER_LENGTH && Inside([], len', bytes[1..])
  }

  /** `n` bytes collected, `more` to come. */
  predicate Fits(n: nat, len: int, more: nat) {
    more == 0 || n < 3 ||
    (n < BUFFER_LENGTH && 0 <= len && (len + 3 <= BUFFER_LENGTH || n + more <= BUFFER_LENGTH))
  }

  /** The length on entry does not matter before a frame's third byte. From then on it must not be negative, and it must
      fit the array or never be reached. */
  lemma {:induction false} InsideIff(p: seq<Byte>, len: int, bytes: seq<Byte>)
    requires |p| <= BUFFER_LENGTH
    ensures Inside(p, len, bytes) <==> Fits(|p|, len, |bytes|)
    decreases |bytes|
  {
    hide PayloadLength;
    if bytes == [] {
    } else if p == [] && bytes[0] != RTCM3PREAMB {
      InsideIff(p, len, bytes[1..]);
    } else if |p| < BUFFER_LENGTH {
      var q := p + [bytes[0]];
      var len' := NewLength(q, len);
      InsideIff(if |q| < 3 || |q| < len' + 3 then q else [], len', bytes[1..]);
    } else {
    }
  }

  /** Three bytes collected and 1198 to come: with the length 1198 the last byte is stored behind the array, with 1197
      it is not; and a negative length goes wrong at once. */
  lemma IndexLeavesArray(p: seq<Byte>, bytes: seq<Byte>)
    requires |p| == 3 && |bytes| == 1198
    ensures !Inside(p, 1198, bytes) && Inside(p, 1197, bytes) && !Inside(p, -1, bytes)
  {
    hide Inside;
    InsideIff(p, 1198, bytes);
    InsideIff(p, 1197, bytes);
    InsideIff(p, -1, bytes);
  }

  /** What frames can lead to: a length field has ten bits. */
  predicate FrameSized(i: nat, len: int) {
    i < 3 || (i <= 1029 && 0 <= len <= 1026)
  }

  // ------------------------------------------------------------ the loop

  /** Where the loop stands: `p` is collected, `handed` are over, `rest` is still to come. */
  ghost predicate Standing(all: Outcome, handed: seq<seq<Byte>>, p: seq<Byte>, len: int, rest: seq<Byte>) {
    (rest == [] || |p| < 3 || len >= 0) && all == Before(handed, Looped(p, len, rest))
  }

  lemma StandingAtStart(p: seq<Byte>, len: int, rest: seq<Byte>)
    requires rest == [] || |p| < 3 || len >= 0
    ensures Standing(Looped(p, len, rest), [], p, len, rest)
  {
    hide Looped;
    assert [] + Looped(p, len, rest).frames == Looped(p, len, rest).frames;
  }

  lemma Skip(all: Outcome, handed: seq<seq<Byte>>, len: int, c: Byte, rest: seq<Byte>)
    requires c != RTCM3PREAMB && Standing(all, handed, [], len, [c] + rest)
    ensures Standing(all, handed, [], len, rest)
  {
    assert ([c] + rest)[1..] == rest;
  }

  lemma Collect(all: Outcome, handed: seq<seq<Byte>>, p: seq<Byte>, len: int, c: Byte, rest: seq<Byte>)
    requires Standing(all, handed, p, len, [c] + rest) && (p != [] || c == RTCM3PREAMB)
    requires var q := p + [c]; |q| < 3 || |q| < NewLength(q, len) + 3
    ensures Standing(all, handed, p + [c], NewLength(p + [c], len), rest)
  {
    hide PayloadLength;
    assert ([c] + rest)[1..] == rest;
  }

  lemma Complete(all: Outcome, handed: seq<seq<Byte>>, p: seq<Byte>, len: int, c: Byte, rest: seq<Byte>)
    requires Standing(all, handed, p, len, [c] + rest) && (p != [] || c == RTCM3PREAMB)
    requires var q := p + [c]; |q| >= 3 && |q| >= NewLength(q, len) + 3
    ensures NewLength(p + [c], len) >= 0
    ensures var len' := NewLength(p + [c], len);
            var f := (p + [c])[..len' + 3];
            && Standing(all, if Passes(f) then handed + [f] else handed, [], len', rest)
            && (Passes(f) ==> all.frames == handed + [f] + Looped([], len', rest).frames)
  {
    hide Passes, PayloadLength;
    assert ([c] + rest)[1..] == rest;
    var len' := NewLength(p + [c], len);
    var f, more := (p + [c])[..len' + 3], Looped([], len', rest).frames;
    assert handed + ([f] + more) == handed + [f] + more;
    assert [] + more == more;
  }

  lemma StandingAtEnd(all: Outcome, handed: seq<seq<Byte>>, p: seq<Byte>, len: int)
    requires Standing(all, handed, p, len, [])
    ensures all == Outcome(handed, p, len)
  {
    assert handed + [] == handed;
  }

  /** The loop over one received buffer, with `i0` bytes collected and whatever value the length has on entry that keeps
      the index inside the array: the variable is declared inside the receive loop and is not set before a frame's third
      byte. The frames handed over are those of the bytes, in order, up to the one that completes the satellites. The
      index never passes 1029 if fewer than three bytes are collected or the length is one that a frame can have. */
  method Receive(buff: array<Byte>, i0: nat, len0: int, recvbuf: seq<Byte>, decode: seq<seq<Byte>> -> int,
                 given: seq<seq<Byte>>, nSV0: int)
    returns (i: nat, len: int, nSV: int, handed: seq<seq<Byte>>)
    requires buff.Length == BUFFER_LENGTH && i0 <= BUFFER_LENGTH && Fits(i0, len0, |recvbuf|)
    requires nSV0 < MAX_SAT
    modifies buff
    ensures i <= BUFFER_LENGTH && (FrameSized(i0, len0) ==> FrameSized(i, len))
    ensures var all := Looped(old(buff[..i0]), len0, recvbuf);
            && UpToEnough(decode, given, handed, all.frames)
            && (nSV < MAX_SAT ==> buff[..i] == all.left && len == all.len)
    ensures nSV == if handed == [] then nSV0 else decode(given + handed)
  {
    hide Looped, Passes, PayloadLength, UpToEnough, NotEnough, Standing;
    ghost var all := Looped(buff[..i0], len0, recvbuf);
    i, len, nSV, handed := i0, len0, nSV0, [];
    var nbyte := 0;
    assert recvbuf[0..] == recvbuf;
    StandingAtStart(buff[..i0], len0, recvbuf);
    NothingEnough(decode, given);
    while nbyte < |recvbuf|
      invariant nbyte <= |recvbuf| && i <= BUFFER_LENGTH && Fits(i, len, |recvbuf| - nbyte)
      invariant FrameSized(i0, len0) ==> FrameSized(i, len)
      invariant Standing(all, handed, buff[..i], len, recvbuf[nbyte..])
      invariant NotEnough(decode, given, handed)
      invariant nSV == if handed == [] then nSV0 else decode(given + handed)
      invariant nSV < MAX_SAT
    {
      ghost var p, c, rest := buff[..i], recvbuf[nbyte], recvbuf[nbyte + 1..];
      assert recvbuf[nbyte..] == [c] + rest;
      if i == 0 && recvbuf[nbyte] != RTCM3PREAMB {
        Skip(all, handed, len, c, rest);
        nbyte := nbyte + 1;
        continue;
      }
      buff[i] := recvbuf[nbyte];
      i := i + 1;
      nbyte := nbyte + 1;
      ghost var q, old_len := buff[..i], len;
      assert q == p + [c];
      if i == 3 {
        HeaderRead(buff[..], q);
        var payload := GetBitU(buff[..], 14, 10);
        len := payload + 3;
      }
      assert len == NewLength(q, old_len);
      if i < 3 || i < len + 3 {
        Collect(all, handed, p, old_len, c, rest);
        continue;
      }
      Complete(all, handed, p, old_len, c, rest);
      i := 0;
      var ok := ParityHolds(buff[..], len);
      assert buff[..][..len + 3] == q[..len + 3];
      if !ok {
        continue;
      }
      StillNotEnough(decode, given, handed, q[..len + 3], Looped([], len, rest).frames);
      handed := handed + [buff[..len + 3]];
      nSV := decode(given + handed);
      if nSV >= MAX_SAT {
        return;
      }
    }
    assert recvbuf[nbyte..] == [];
    StandingAtEnd(all, handed, buff[..i], len);
    EnoughAtEnd(decode, given, handed);
  }

  lemma HeaderRead(buff: seq<Byte>, q: seq<Byte>)
    requires |q| == 3 && |buff| >= 3 && buff[..3] == q
    ensures Value(Field(buff, 14, 10)) == PayloadLength(q)
  {
    hide Value, Field, PayloadLength;
    assert q[..3] == q;
    LengthField(buff);
    HeadDecides(buff, q);
  }

  lemma NothingEnough(decode: seq<seq<Byte>> -> int, given: seq<seq<Byte>>)
    ensures NotEnough(decode, given, [])
  {
  }

  lemma EnoughAtEnd(decode: seq<seq<Byte>> -> int, given: seq<seq<Byte>>, handed: seq<seq<Byte>>)
    requires NotEnough(decode, given, handed)
    ensures UpToEnough(decode, given, handed, handed)
  {
  }

  // ------------------------------------------------------------ what a sender transmits

  function ToByte(n: nat): Byte
    requires n < 256
  {
    if n == 0 then 0 else ToByte(n - 1) + 1
  }

  lemma ToByteNumber(n: nat)
    requires n < 256
    ensures Value(ByteBits(ToByte(n))) == n
  {
    hide Value, ByteBits;
    ByteNumber(ToByte(n));
    ToByteAndBack(n);
  }

  lemma {:induction false} ToByteAndBack(n: nat)
    requires n < 256
    ensures ToByte(n) as int == n
  {
    if n == 0 {
    } else {
      ToByteAndBack(n - 1);
      NextByte(ToByte(n - 1));
    }
  }

  lemma NextByte(b: Byte)
    requires b as int < 255
    ensures (b + 1) as int == b as int + 1
  {
  }

  lemma Digits256(n: nat)
    requires n < 0x1000000
    ensures n / 65536 < 256 && (n / 65536 * 256 + n / 256 % 256) * 256 + n % 256 == n
  {
  }

  /** Three bytes spelling a number, most significant first. */
  function ThreeBytes(n: nat): seq<Byte>
    requires n < 0x1000000
  {
    [ToByte(n / 65536), ToByte(n / 256 % 256), ToByte(n % 256)]
  }

  /** A frame around at most 1023 bytes: preamble, 6 reserved bits and length, payload, check. */
  function MakeFrame(reserved: nat, payload: seq<Byte>): seq<Byte>
    requires reserved < 64 && |payload| < 1024
  {
    var body := ThreeBytes(0xD3 * 65536 + reserved * 1024 + |payload|) + payload;
    CheckFits(Direct(0, Bits(body)));
    body + ThreeBytes(Number(Direct(0, Bits(body))))
  }

  lemma CheckFits(c: Register)
    ensures Number(c) < 0x1000000
  {
  }

  lemma BitsOfThree(x: Byte, y: Byte, z: Byte)
    ensures Bits([x, y, z]) == ByteBits(x) + ByteBits(y) + ByteBits(z)
  {
    hide ByteBits, Bits;
    CrcTable.BitsAppend([x], [y]);
    CrcTable.BitsAppend([x, y], [z]);
    CrcTable.BitsOfOne(x);
    CrcTable.BitsOfOne(y);
    CrcTable.BitsOfOne(z);
    assert [x] + [y] == [x, y] && [x, y] + [z] == [x, y, z];
  }

  lemma Powers()
    ensures Pow2(8) == 256 && Pow2(10) == 1024
  {
    assert Pow2(2) == 4 && Pow2(4) == 16 && Pow2(6) == 64;
  }

  lemma ThreeBytesSpell(n: nat)
    requires n < 0x1000000
    ensures Value(Bits(ThreeBytes(n))) == n
  {
    hide Bits, ByteBits, Value, ToByte, Pow2;
    var x, y, z := n / 65536, n / 256 % 256, n % 256;
    BitsOfThree(ToByte(x), ToByte(y), ToByte(z));
    ToByteNumber(x);
    ToByteNumber(y);
    ToByteNumber(z);
    Powers();
    Digits256(n);
    ValueAppend(ByteBits(ToByte(x)), ByteBits(ToByte(y)));
    ValueAppend(ByteBits(ToByte(x)) + ByteBits(ToByte(y)), ByteBits(ToByte(z)));
  }

  lemma PreambleByte()
    ensures ToByte(0xD3) == RTCM3PREAMB
  {
    ToByteAndBack(0xD3);
    SameByte(ToByte(0xD3), RTCM3PREAMB);
  }

  lemma SameByte(a: Byte, b: Byte)
    requires a as int == b as int
    ensures a == b
  {
    assert (a as int) as Byte == a && (b as int) as Byte == b;
  }

  lemma HeaderLength(reserved: nat, n: nat)
    requires reserved < 64 && n < 1024
    ensures var head := ThreeBytes(0xD3 * 65536 + reserved * 1024 + n);
            |head| == 3 && head[0] == RTCM3PREAMB && PayloadLength(head) == n
  {
    hide Bits, Value, Pow2, ToByte;
    var all := 0xD3 * 65536 + reserved * 1024 + n;
    var head := ThreeBytes(all);
    var bits := Bits(head);
    ThreeBytesSpell(all);
    PreambleByte();
    assert all / 65536 == 0xD3;
    assert bits == bits[..14] + bits[14..24];
    ValueAppend(bits[..14], bits[14..24]);
    Powers();
    assert head[..3] == head;
    TenBits();
    QuotientUnique(1024, Value(bits[..14]), Value(bits[14..24]), 0xD3 * 64 + reserved, n);
  }

  /** Every frame a sender makes is whole, passes, and carries its payload. */
  lemma MadeFramePasses(reserved: nat, payload: seq<Byte>)
    requires reserved < 64 && |payload| < 1024
    ensures var f := MakeFrame(reserved, payload);
            Whole(f) && Passes(f) && f[3..|f| - 3] == payload
  {
    hide Bits, Value, Number, Direct, Remainder, Zeros, PayloadLength, ToByte;
    var head := ThreeBytes(0xD3 * 65536 + reserved * 1024 + |payload|);
    var body := head + payload;
    CheckFits(Direct(0, Bits(body)));
    var check := ThreeBytes(Number(Direct(0, Bits(body))));
    var f := MakeFrame(reserved, payload);
    HeaderLength(reserved, |payload|);
    assert f == body + check && f[..3] == head;
    HeadDecides(f, head);
    CrcTable.BitsAppend(body, check);
    ThreeBytesSpell(Number(Direct(0, Bits(body))));
    TestIsDivisibility(Bits(body), Bits(check));
  }
}

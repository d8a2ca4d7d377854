/**
 Reading RTCM 3 messages (getRTCM3Eph.c 88-100 and 293-317): bit fields, and the framing of the transport layer
 (RTCM 10403, section 4) as a function of the bytes received.
 */
module Rtcm3 {
  import opened Arithmetic
  import opened CrcPolynomial
  import CrcTable

  const RTCM3PREAMB: Byte := 0xD3
  const MAX_SAT: int := 32
  const WORD: nat := 0x1_0000_0000

  // ------------------------------------------------------------ bit fields

  lemma {:induction false} BitPlace(bytes: seq<Byte>, i: nat)
    requires i < 8 * |bytes|
    ensures Bits(bytes)[i] == ByteBits(bytes[i / 8])[i % 8]
    decreases |bytes|
  {
    hide ByteBits;
    if i >= 8 {
      BitPlace(bytes[1..], i - 8);
      assert i / 8 == (i - 8) / 8 + 1 && i % 8 == (i - 8) % 8;
    }
  }

  /** The bit of a byte that getbitu picks out. */
  function PickBit(b: Byte, k: nat): bool
    requires k < 8
  {
    (b >> (7 - k)) & 1 == 1
  }

  lemma PickedBit(b: Byte, k: nat)
    requires k < 8
    ensures PickBit(b, k) == ByteBits(b)[k]
  {
    if k == 0 {} else if k == 1 {} else if k == 2 {} else if k == 3 {} else if k == 4 {} else if k == 5 {}
    else if k == 6 {}
  }

  /** `len` bits from `pos` on; none if `len` is not positive. */
  function Field(buff: seq<Byte>, pos: nat, len: int): (bits: seq<bool>)
    requires len > 0 ==> pos + len <= 8 * |buff|
    ensures |bits| == if len <= 0 then 0 else len
  {
    if len <= 0 then [] else Bits(buff)[pos..pos + len]
  }

  lemma WrapDouble(v: nat, d: nat)
    ensures (2 * (v % WORD) + d) % WORD == (2 * v + d) % WORD
  {
    var q := v / WORD;
    assert 2 * v + d == 2 * (v % WORD) + d + (2 * q) * WORD;
  }

  lemma NextBit(buff: seq<Byte>, pos: nat, n: nat)
    requires pos + n < 8 * |buff|
    ensures var i := pos + n;
            Value(Field(buff, pos, n + 1))
            == 2 * Value(Field(buff, pos, n)) + if PickBit(buff[i / 8], i % 8) then 1 else 0
  {
    hide Value, Bits, PickBit, ByteBits;
    var i := pos + n;
    BitPlace(buff, i);
    PickedBit(buff[i / 8], i % 8);
    ValueSnoc(Field(buff, pos, n), Bits(buff)[i]);
    assert Field(buff, pos, n + 1) == Field(buff, pos, n) + [Bits(buff)[i]];
  }

  /** getbitu (94-100): the unsigned number that `len` bits from `pos` on spell, in a 32-bit word. */
  method GetBitU(buff: seq<Byte>, pos: nat, len: int) returns (bits: nat)
    requires len > 0 ==> pos + len <= 8 * |buff|
    ensures bits == Value(Field(buff, pos, len)) % WORD
    ensures len <= 32 ==> bits == Value(Field(buff, pos, len))
  {
    hide Value, Field, PickBit, Bits, Pow2;
    bits := 0;
    NoField(buff, pos, if len < 0 then len else 0);
    ghost var n := if len < 0 then len else 0;
    var i := pos;
    while i < pos + len
      invariant n <= len && (len > 0 ==> n >= 0 && i == pos + n) && (len <= 0 ==> i == pos && n == len)
      invariant bits == Value(Field(buff, pos, n)) % WORD
    {
      NextBit(buff, pos, n);
      var bit := if PickBit(buff[i / 8], i % 8) then 1 else 0;
      WrapDouble(Value(Field(buff, pos, n)), bit);
      bits := (2 * bits + bit) % WORD;
      i := i + 1;
      n := n + 1;
    }
    if len <= 32 {
      FitsWord(Field(buff, pos, len));
    }
  }

  lemma NoField(buff: seq<Byte>, pos: nat, len: int)
    requires len <= 0
    ensures Value(Field(buff, pos, len)) == 0
  {
  }

  lemma FitsWord(bits: seq<bool>)
    requires |bits| <= 32
    ensures Value(bits) < WORD
  {
    hide Value;
    ThirtyTwo();
    PowerGrows(|bits|, 32);
  }

  lemma ThirtyTwo()
    ensures Pow2(32) == WORD
  {
    assert Pow2(2) == 4 && Pow2(4) == 16 && Pow2(6) == 64 && Pow2(8) == 256 && Pow2(10) == 1024;
    assert Pow2(12) == 0x1000 && Pow2(14) == 0x4000 && Pow2(16) == 0x10000 && Pow2(18) == 0x40000;
    assert Pow2(20) == 0x100000 && Pow2(22) == 0x400000 && Pow2(24) == 0x1000000 && Pow2(26) == 0x4000000;
    assert Pow2(28) == 0x10000000 && Pow2(30) == 0x40000000;
  }

  /** A word read as a signed 32-bit number. */
  function Int32(w: nat): int {
    if w < WORD / 2 then w else w - WORD
  }

  /** Two's complement: the first bit counts negatively. */
  function Signed(bits: seq<bool>): int {
    if bits == [] then 0 else Value(bits[1..]) - if bits[0] then Pow2(|bits| - 1) else 0
  }

  lemma SignSplit(bits: seq<bool>)
    requires bits != []
    ensures Value(bits) == Value(bits[1..]) + if bits[0] then Pow2(|bits| - 1) else 0
    ensures (Value(bits) / Pow2(|bits| - 1)) % 2 == 1 <==> bits[0]
  {
    hide Value, Pow2;
    var tail := bits[1..];
    assert bits == [bits[0]] + tail;
    ValueAppend([bits[0]], tail);
    OneBit(bits[0]);
    LeadingDigit(Value(bits), Pow2(|bits| - 1), bits[0], Value([bits[0]]), Value(tail));
  }

  lemma LeadingDigit(n: nat, p: nat, bit: bool, d: nat, v: nat)
    requires v < p && n == d * p + v && d == if bit then 1 else 0
    ensures n == v + if bit then p else 0
    ensures (n / p) % 2 == 1 <==> bit
  {
    QuotientUnique(p, n / p, n % p, d, v);
  }

  /** getbits (88-93): the signed number the bits spell. `~0u << len` sets every bit from `len` up, none of
      which is set in the field, so or-ing it in is adding 2^32 - 2^len. */
  method GetBits(buff: seq<Byte>, pos: nat, len: int) returns (r: int)
    requires len > 0 ==> pos + len <= 8 * |buff|
    ensures len <= 32 ==> r == Signed(Field(buff, pos, len))
    ensures len > 32 ==> r == Int32(Value(Field(buff, pos, len)) % WORD)
  {
    hide Value, Field, Pow2;
    var bits := GetBitU(buff, pos, len);
    ghost var field := Field(buff, pos, len);
    if 0 < len <= 32 {
      SignSplit(field);
      FieldPowers(field);
    }
    if len <= 0 || 32 <= len || (bits / Pow2(len - 1)) % 2 != 1 {
      NoBits();
      r := Int32(bits);
    } else {
      r := Int32(bits + (WORD - Pow2(len)));
    }
  }

  lemma NoBits()
    ensures Value([]) == 0
  {
  }

  lemma FieldPowers(bits: seq<bool>)
    requires 0 < |bits| <= 32
    ensures Value(bits[1..]) < Pow2(|bits| - 1) && Pow2(|bits|) == 2 * Pow2(|bits| - 1)
    ensures Pow2(|bits|) <= WORD && (|bits| == 32 ==> Pow2(|bits|) == WORD)
  {
    hide Value;
    FitsWord(bits);
    ThirtyTwo();
    PowerGrows(|bits|, 32);
  }

  // ------------------------------------------------------------ frames

  /** The length field: 10 bits behind the preamble and 6 reserved bits. */
  function PayloadLength(head: seq<Byte>): (n: nat)
    requires |head| >= 3
    ensures n < 1024
  {
    hide Value;
    TenBits();
    Value(Field(head[..3], 14, 10))
  }

  lemma TenBits()
    ensures Pow2(10) == 1024
  {
    assert Pow2(2) == 4 && Pow2(4) == 16 && Pow2(6) == 64 && Pow2(8) == 256;
  }

  /** A frame of the length it announces. */
  ghost predicate Whole(f: seq<Byte>) {
    |f| >= 6 && f[0] == RTCM3PREAMB && |f| == PayloadLength(f) + 6
  }

  /** A frame that is, as a polynomial, a multiple of the generator. */
  ghost predicate Passes(f: seq<Byte>) {
    Remainder(Bits(f)) == Zeros(24)
  }

  /** The first bytes of a frame that still lacks some. */
  ghost predicate Partial(p: seq<Byte>) {
    p == [] || (p[0] == RTCM3PREAMB && (|p| >= 3 ==> |p| < PayloadLength(p) + 6))
  }

  /** The frames handed over for decoding, and what is left of an unfinished one. */
  datatype Found = Found(frames: seq<seq<Byte>>, left: seq<Byte>)

  /** What a stream of bytes holds: skip to a preamble, take a frame of the announced length, keep it if it
      passes, go on behind it. */
  ghost function Frames(stream: seq<Byte>): Found
    decreases |stream|
  {
    if stream == [] then Found([], [])
    else if stream[0] != RTCM3PREAMB then Frames(stream[1..])
    else if |stream| < 3 || |stream| < PayloadLength(stream) + 6 then Found([], stream)
    else
      var n := PayloadLength(stream) + 6;
      var rest := Frames(stream[n..]);
      if Passes(stream[..n]) then Found([stream[..n]] + rest.frames, rest.left) else rest
  }

  ghost function Handed(before: seq<seq<Byte>>, rest: Found): Found {
    Found(before + rest.frames, rest.left)
  }

  lemma HeadDecides(f: seq<Byte>, g: seq<Byte>)
    requires |f| >= 3 && |g| >= 3 && f[..3] == g[..3]
    ensures PayloadLength(f) == PayloadLength(g)
  {
  }

  lemma FramesOfFrame(f: seq<Byte>, rest: seq<Byte>)
    requires Whole(f)
    ensures Frames(f + rest) == Handed(if Passes(f) then [f] else [], Frames(rest))
  {
    hide Passes, PayloadLength;
    var s := f + rest;
    assert s[..3] == f[..3];
    HeadDecides(s, f);
    assert s[..|f|] == f && s[|f|..] == rest;
    assert [] + Frames(rest).frames == Frames(rest).frames;
  }

  lemma {:induction false} FramesOfFiller(x: seq<Byte>, rest: seq<Byte>)
    requires RTCM3PREAMB !in x
    ensures Frames(x + rest) == Frames(rest)
    decreases |x|
  {
    hide Passes, PayloadLength;
    if x == [] {
      assert x + rest == rest;
    } else {
      FramesOfFiller(x[1..], rest);
      assert (x + rest)[0] == x[0];
      assert (x + rest)[1..] == x[1..] + rest;
    }
  }

  lemma FramesOfPartial(p: seq<Byte>)
    requires Partial(p)
    ensures Frames(p) == Found([], p)
  {
  }

  // ------------------------------------------------------------ streams of frames and filler

  datatype Piece = Filler(bytes: seq<Byte>) | Message(frame: seq<Byte>)

  ghost predicate GoodPiece(p: Piece) {
    match p
    case Filler(bytes) => RTCM3PREAMB !in bytes
    case Message(frame) => Whole(frame)
  }

  function Stream(pieces: seq<Piece>): seq<Byte> {
    if pieces == [] then []
    else (match pieces[0] case Filler(b) => b case Message(f) => f) + Stream(pieces[1..])
  }

  /** The undamaged messages among the pieces, in order. */
  ghost function Messages(pieces: seq<Piece>): seq<seq<Byte>> {
    if pieces == [] then []
    else (if pieces[0].Message? && Passes(pieces[0].frame) then [pieces[0].frame] else []) + Messages(pieces[1..])
  }

  /** A stream of whole frames with filler between them hands over exactly the frames that pass, in order. */
  lemma {:induction false} StreamHandsOver(pieces: seq<Piece>)
    requires forall i :: 0 <= i < |pieces| ==> GoodPiece(pieces[i])
    ensures Frames(Stream(pieces)) == Found(Messages(pieces), [])
    decreases |pieces|
  {
    hide Passes, Whole;
    if pieces == [] {
    } else {
      var rest := Stream(pieces[1..]);
      StreamHandsOver(pieces[1..]);
      match pieces[0] {
        case Filler(bytes) =>
          FramesOfFiller(bytes, rest);
        case Message(frame) =>
          FramesOfFrame(frame, rest);
      }
    }
  }

  /** A frame with an error burst of up to 24 bits behind its header is still whole and does not pass. */
  lemma BurstRejected(f: seq<Byte>, g: seq<Byte>, from: nat, to: nat)
    requires Whole(f) && Passes(f) && |g| == |f| && g != f
    requires 24 <= from <= to <= 8 * |f| && to <= from + 24
    requires forall k :: 0 <= k < 8 * |f| && !(from <= k < to) ==> Bits(f)[k] == Bits(g)[k]
    ensures Whole(g) && !Passes(g)
  {
    hide Bits, Remainder, Zeros, PayloadLength;
    BitsDiffer(f, g);
    BurstDetected(Bits(f), Bits(g), from, to);
    BitsOfPrefix(f, 3);
    BitsOfPrefix(g, 3);
    assert Bits(f)[..24] == Bits(g)[..24];
    BitsInjective(f[..3], g[..3]);
    assert f[0] == f[..3][0] && g[0] == g[..3][0];
    HeadDecides(f, g);
  }

  lemma BitsDiffer(f: seq<Byte>, g: seq<Byte>)
    requires f != g
    ensures Bits(f) != Bits(g)
  {
    if Bits(f) == Bits(g) {
      BitsInjective(f, g);
    }
  }

  lemma BitsOfPrefix(f: seq<Byte>, n: nat)
    requires n <= |f|
    ensures Bits(f)[..8 * n] == Bits(f[..n])
  {
    CrcTable.BitsAppend(f[..n], f[n..]);
    assert f == f[..n] + f[n..];
  }

  lemma ByteBitsInjective(a: Byte, b: Byte)
    requires ByteBits(a) == ByteBits(b)
    ensures a == b
  {
    assert forall k :: 0 <= k < 8 ==> ByteBits(a)[k] == ByteBits(b)[k];
    ByteNumber(a);
    ByteNumber(b);
    assert (a as int) as Byte == a && (b as int) as Byte == b;
  }

  lemma {:induction false} BitsInjective(f: seq<Byte>, g: seq<Byte>)
    requires Bits(f) == Bits(g)
    ensures f == g
    decreases |f|
  {
    hide ByteBits;
    if f == [] {
    } else {
      assert Bits(f)[..8] == ByteBits(f[0]) && Bits(g)[..8] == ByteBits(g[0]);
      assert Bits(f)[8..] == Bits(f[1..]) && Bits(g)[8..] == Bits(g[1..]);
      ByteBitsInjective(f[0], g[0]);
      BitsInjective(f[1..], g[1..]);
      assert f == [f[0]] + f[1..] && g == [g[0]] + g[1..];
    }
  }
}

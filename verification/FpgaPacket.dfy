/**
 Twelve-bit samples in FPGA packets (FPGA_common.cpp 460-491, 509-527): two components of 12 bits in three bytes,
 one or two channels. Components are 16-bit words, bytes 8-bit words.
 */
module FpgaPacket {

  type Byte = bv8
  type Word = bv16

  datatype Sample = Sample(i: Word, q: Word)

  datatype Group = Group(b0: Byte, b1: Byte, b2: Byte)

  /** A two's complement number from -2048 to 2047. */
  predicate TwelveBit(x: Word) {
    x <= 0x07FF || x >= 0xF800
  }

  predicate Fits(s: Sample) {
    TwelveBit(s.i) && TwelveBit(s.q)
  }

  /** Storing a word in a byte keeps its low 8 bits. */
  function LowByte(x: Word): Byte {
    (x & 0xFF) as Byte
  }

  function MiddleByte(i: Word, q: Word): Byte {
    LowByte(((i >> 8) & 0x0F) | (q << 4))
  }

  function LastByte(q: Word): Byte {
    LowByte(q >> 4)
  }

  /** 516-518. */
  function Pack(s: Sample): Group {
    Group(LowByte(s.i), MiddleByte(s.i, s.q), LastByte(s.q))
  }

  /** A right shift of a signed word copies the sign. */
  function ShiftRight4(x: Word): Word {
    if x & 0x8000 != 0 then (x >> 4) | 0xF000 else x >> 4
  }

  function Joined(lo: Byte, hi: Byte): Word {
    (lo as Word) | ((hi as Word) << 8)
  }

  function First(b0: Byte, b1: Byte): Word {
    ShiftRight4(Joined(b0, b1) << 4)
  }

  function Second(b1: Byte, b2: Byte): Word {
    ShiftRight4(Joined(b1, b2))
  }

  /** 468-476. */
  function Unpack(g: Group): Sample {
    Sample(First(g.b0, g.b1), Second(g.b1, g.b2))
  }

  /** The three bytes, least significant first, as one number. */
  function Number(g: Group): int {
    g.b0 as int + 256 * g.b1 as int + 65536 * g.b2 as int
  }

  lemma MiddleNumber(i: Word, q: Word)
    ensures MiddleByte(i, q) as int == ((i >> 8) & 0x0F) as int + 16 * (q & 0x0F) as int
    ensures LowByte(i) as int + 256 * ((i >> 8) & 0x0F) as int == (i & 0xFFF) as int
    ensures (q & 0x0F) as int + 16 * LastByte(q) as int == (q & 0xFFF) as int
  {
  }

  /** The layout: the low 12 bits of the first component, and above them the low 12 bits of the second. */
  lemma PackLayout(s: Sample)
    ensures Number(Pack(s)) == (s.i & 0xFFF) as int + 4096 * (s.q & 0xFFF) as int
  {
    hide LowByte, MiddleByte, LastByte;
    MiddleNumber(s.i, s.q);
  }

  lemma FirstComponent(i: Word, q: Word)
    ensures First(LowByte(i), MiddleByte(i, q)) == i <==> TwelveBit(i)
  {
  }

  lemma SecondComponent(i: Word, q: Word)
    ensures Second(MiddleByte(i, q), LastByte(q)) == q <==> TwelveBit(q)
  {
  }

  lemma ComponentsFit(x: Byte, y: Byte, z: Byte)
    ensures TwelveBit(First(x, y)) && TwelveBit(Second(y, z))
  {
  }

  /** Unpacking undoes packing exactly for 12-bit components. */
  lemma PackThenUnpack(s: Sample)
    ensures Unpack(Pack(s)) == s <==> Fits(s)
  {
    hide First, Second, LowByte, MiddleByte, LastByte, TwelveBit;
    FirstComponent(s.i, s.q);
    SecondComponent(s.i, s.q);
  }

  lemma FirstByte(x: Byte, y: Byte)
    ensures LowByte(First(x, y)) == x
  {
  }

  lemma SecondByte(x: Byte, y: Byte, z: Byte)
    ensures MiddleByte(First(x, y), Second(y, z)) == y
  {
  }

  lemma ThirdByte(y: Byte, z: Byte)
    ensures LastByte(Second(y, z)) == z
  {
  }

  /** Packing undoes unpacking on every three bytes. */
  lemma UnpackThenPack(g: Group)
    ensures Fits(Unpack(g)) && Pack(Unpack(g)) == g
  {
    hide First, Second, LowByte, MiddleByte, LastByte, TwelveBit;
    FirstByte(g.b0, g.b1);
    SecondByte(g.b0, g.b1, g.b2);
    ThirdByte(g.b1, g.b2);
    ComponentsFit(g.b0, g.b1, g.b2);
  }

  // ------------------------------------------------------------ whole payloads

  function Bytes(g: Group): (b: seq<Byte>)
    ensures |b| == 3
  {
    [g.b0, g.b1, g.b2]
  }

  function Payload(samples: seq<Sample>): (b: seq<Byte>)
    ensures |b| == 3 * |samples|
  {
    if samples == [] then [] else Payload(samples[..|samples| - 1]) + Bytes(Pack(samples[|samples| - 1]))
  }

  lemma PayloadPrefix(samples: seq<Sample>, k: nat)
    requires k < |samples|
    ensures Payload(samples)[3 * k..3 * k + 3] == Bytes(Pack(samples[k]))
    decreases |samples|
  {
    hide Pack, Bytes;
    var n := |samples| - 1;
    if k == n {
    } else {
      PayloadPrefix(samples[..n], k);
      assert Payload(samples)[3 * k..3 * k + 3] == Payload(samples[..n])[3 * k..3 * k + 3];
    }
  }

  /** Bytes 3k to 3k + 2 of a payload are sample k as one number, least significant byte first: the low 12 bits of its
      first component, and above them those of its second. */
  lemma PayloadLayout(samples: seq<Sample>, k: nat)
    requires k < |samples|
    ensures var b := Payload(samples);
            b[3 * k] as int + 256 * b[3 * k + 1] as int + 65536 * b[3 * k + 2] as int
            == (samples[k].i & 0xFFF) as int + 4096 * (samples[k].q & 0xFFF) as int
  {
    hide Pack, Payload;
    var b := Payload(samples);
    PayloadPrefix(samples, k);
    PackLayout(samples[k]);
    var three := b[3 * k..3 * k + 3];
    assert three[0] == b[3 * k] && three[1] == b[3 * k + 1] && three[2] == b[3 * k + 2];
  }

  function GroupAt(b: seq<Byte>, n: nat): Group
    requires n + 3 <= |b|
  {
    Group(b[n], b[n + 1], b[n + 2])
  }

  function Samples(b: seq<Byte>): (s: seq<Sample>)
    requires |b| % 3 == 0
    ensures |s| == |b| / 3
  {
    if b == [] then [] else Samples(b[..|b| - 3]) + [Unpack(GroupAt(b, |b| - 3))]
  }

  lemma PayloadMore(samples: seq<Sample>, s: Sample)
    ensures Payload(samples + [s]) == Payload(samples) + Bytes(Pack(s))
  {
    hide Pack, Bytes;
    assert (samples + [s])[..|samples|] == samples;
  }

  lemma SamplesMore(b: seq<Byte>, g: Group)
    requires |b| % 3 == 0
    ensures Samples(b + Bytes(g)) == Samples(b) + [Unpack(g)]
  {
    hide Unpack;
    assert (b + Bytes(g))[..|b|] == b;
    assert GroupAt(b + Bytes(g), |b|) == g;
  }

  ghost predicate AllFit(s: seq<Sample>) {
    forall k :: 0 <= k < |s| ==> Fits(s[k])
  }

  lemma LastFits(s: seq<Sample>, x: Sample)
    ensures AllFit(s + [x]) <==> AllFit(s) && Fits(x)
  {
    hide Fits;
    if AllFit(s + [x]) {
      assert (s + [x])[|s|] == x;
      assert forall k :: 0 <= k < |s| ==> (s + [x])[k] == s[k];
    }
  }

  /** Unpacking a payload gives the samples back exactly when all their components have 12 bits. */
  lemma {:induction false} PayloadThenSamples(s: seq<Sample>)
    ensures Samples(Payload(s)) == s <==> AllFit(s)
    decreases |s|
  {
    hide Pack, Unpack, Fits, Bytes, Samples, Payload, AllFit;
    if s == [] {
      NoSamples();
    } else {
      var front, x := s[..|s| - 1], s[|s| - 1];
      assert s == front + [x];
      PayloadThenSamples(front);
      PackThenUnpack(x);
      PayloadMore(front, x);
      SamplesMore(Payload(front), Pack(x));
      LastFits(front, x);
      SameLast(Samples(Payload(front)), Unpack(Pack(x)), front, x);
    }
  }

  lemma SameLast(s: seq<Sample>, x: Sample, t: seq<Sample>, y: Sample)
    requires |s| == |t|
    ensures s + [x] == t + [y] <==> s == t && x == y
  {
    if s + [x] == t + [y] {
      assert s == (s + [x])[..|s|] && t == (t + [y])[..|t|];
      assert x == (s + [x])[|s|] && y == (t + [y])[|t|];
    }
  }

  lemma NoSamples()
    ensures Samples(Payload([])) == [] && Payload([]) == [] && AllFit([])
  {
  }

  /** Packing the samples of a payload gives the payload back. */
  lemma {:induction false} SamplesThenPayload(b: seq<Byte>)
    requires |b| % 3 == 0
    ensures Payload(Samples(b)) == b && AllFit(Samples(b))
    decreases |b|
  {
    hide Pack, Unpack, Fits, Payload, AllFit, Samples;
    if b == [] {
      NoSamples();
    } else {
      var front, g := b[..|b| - 3], GroupAt(b, |b| - 3);
      assert b == front + Bytes(g);
      SamplesThenPayload(front);
      SamplesMore(front, g);
      UnpackThenPack(g);
      PayloadMore(Samples(front), Unpack(g));
      LastFits(Samples(front), Unpack(g));
    }
  }

  /** The samples sent: those of one channel, or of both in turn. */
  function Sent(x: seq<Sample>, y: seq<Sample>, mimo: bool): (s: seq<Sample>)
    requires mimo ==> |x| == |y|
    ensures |s| == if mimo then 2 * |x| else |x|
  {
    if !mimo then x
    else if x == [] then []
    else Sent(x[..|x| - 1], y[..|y| - 1], true) + [x[|x| - 1], y[|y| - 1]]
  }

  lemma SentMore(x: seq<Sample>, y: seq<Sample>, a: Sample, b: Sample)
    requires |x| == |y|
    ensures Sent(x + [a], y + [b], true) == Sent(x, y, true) + [a, b]
  {
    assert (x + [a])[..|x|] == x && (y + [b])[..|y|] == y;
  }

  /** The channels come apart again. */
  lemma {:induction false} SentInjective(x: seq<Sample>, y: seq<Sample>, u: seq<Sample>, v: seq<Sample>)
    requires |x| == |y| && |u| == |v| && Sent(x, y, true) == Sent(u, v, true)
    ensures x == u && y == v
    decreases |x|
  {
    assert |x| == |u|;
    if x == [] {
    } else {
      var n := |x| - 1;
      var s, t := Sent(x, y, true), Sent(u, v, true);
      assert s[..2 * n] == Sent(x[..n], y[..n], true) && t[..2 * n] == Sent(u[..n], v[..n], true);
      assert s[2 * n] == x[n] && s[2 * n + 1] == y[n] && t[2 * n] == u[n] && t[2 * n + 1] == v[n];
      SentInjective(x[..n], y[..n], u[..n], v[..n]);
      assert x == x[..n] + [x[n]] && u == u[..n] + [u[n]] && y == y[..n] + [y[n]] && v == v[..n] + [v[n]];
    }
  }
}

/**
 The two payload functions of FPGA_common.cpp (460-491, 509-528) in compressed mode: loops that walk a byte index
 through a buffer.
 */
module FpgaPayload {
  import opened FpgaPacket

  /** The three stores of one sample (516-518, 521-523). */
  method Store(buffer: array<Byte>, b: nat, s: Sample)
    requires b + 3 <= buffer.Length
    modifies buffer
    ensures buffer[..b + 3] == old(buffer[..b]) + Bytes(Pack(s))
    ensures buffer[b + 3..] == old(buffer[b + 3..])
  {
    hide LowByte, MiddleByte, LastByte;
    buffer[b] := LowByte(s.i);
    buffer[b + 1] := MiddleByte(s.i, s.q);
    buffer[b + 2] := LastByte(s.q);
    assert buffer[..b + 3] == buffer[..b] + [buffer[b], buffer[b + 1], buffer[b + 2]];
  }

  ghost predicate Written(buffer: seq<Byte>, b: nat, sent: seq<Sample>, was: seq<Byte>) {
    b <= |buffer| == |was| && buffer[..b] == Payload(sent) && buffer[b..] == was[b..]
  }

  /** One more sample written. */
  method StoreNext(buffer: array<Byte>, b: nat, s: Sample, ghost sent: seq<Sample>, ghost was: seq<Byte>)
    requires b + 3 <= buffer.Length && Written(buffer[..], b, sent, was)
    modifies buffer
    ensures Written(buffer[..], b + 3, sent + [s], was)
  {
    hide Pack, Payload, Bytes;
    ghost var before := buffer[..];
    PayloadMore(sent, s);
    Store(buffer, b, s);
    assert buffer[..][..b + 3] == buffer[..b + 3] && before[..b] == old(buffer[..b]);
    assert buffer[..][b + 3..] == before[b + 3..] == before[b..][3..];
  }

  /** The first k samples of each channel, as they are sent. */
  ghost function FirstSent(x: seq<Sample>, y: seq<Sample>, k: nat, mimo: bool): seq<Sample>
    requires k <= |x| && (mimo ==> k <= |y|)
  {
    Sent(x[..k], if mimo then y[..k] else [], mimo)
  }

  lemma NothingSent(x: seq<Sample>, y: seq<Sample>, mimo: bool)
    ensures FirstSent(x, y, 0, mimo) == [] && Payload([]) == []
  {
    assert x[..0] == [] && y[..0] == [];
  }

  lemma NextSent(x: seq<Sample>, y: seq<Sample>, k: nat, mimo: bool)
    requires k < |x| && (mimo ==> k < |y|)
    ensures mimo ==> FirstSent(x, y, k + 1, mimo) == FirstSent(x, y, k, mimo) + [x[k]] + [y[k]]
    ensures !mimo ==> FirstSent(x, y, k + 1, mimo) == FirstSent(x, y, k, mimo) + [x[k]]
  {
    hide Sent;
    assert x[..k + 1] == x[..k] + [x[k]];
    if mimo {
      assert y[..k + 1] == y[..k] + [y[k]];
      SentMore(x[..k], y[..k], x[k], y[k]);
      var done := FirstSent(x, y, k, mimo);
      assert done + [x[k]] + [y[k]] == done + [x[k], y[k]];
    } else {
      OneChannel(x[..k]);
      OneChannel(x[..k + 1]);
    }
  }

  lemma OneChannel(x: seq<Sample>)
    ensures Sent(x, [], false) == x
  {
  }

  /** Samples2FPGAPacketPayload, compressed: the number of bytes written, and the bytes; the rest of the buffer is
      as it was. */
  method Samples2Payload(ch0: seq<Sample>, ch1: seq<Sample>, samplesCount: nat, mimo: bool, buffer: array<Byte>)
    returns (b: nat)
    requires samplesCount <= |ch0| && (mimo ==> samplesCount <= |ch1|)
    requires (if mimo then 6 else 3) * samplesCount <= buffer.Length
    modifies buffer
    ensures b == (if mimo then 6 else 3) * samplesCount
    ensures Written(buffer[..], b, FirstSent(ch0, ch1, samplesCount, mimo), old(buffer[..]))
  {
    hide FirstSent, Written;
    b := 0;
    ghost var was := buffer[..];
    NothingSent(ch0, ch1, mimo);
    NothingWritten(was);
    var src := 0;
    while src < samplesCount
      invariant src <= samplesCount && b == (if mimo then 6 else 3) * src
      invariant Written(buffer[..], b, FirstSent(ch0, ch1, src, mimo), was)
    {
      ghost var done := FirstSent(ch0, ch1, src, mimo);
      NextSent(ch0, ch1, src, mimo);
      StoreNext(buffer, b, ch0[src], done, was);
      b := b + 3;
      if mimo {
        StoreNext(buffer, b, ch1[src], done + [ch0[src]], was);
        b := b + 3;
      }
      src := src + 1;
    }
  }

  lemma NothingWritten(was: seq<Byte>)
    ensures Written(was, 0, [], was)
  {
  }

  /** The reads of one sample (468-476, 479-487). */
  method Load(buffer: seq<Byte>, b: nat) returns (s: Sample)
    requires b + 3 <= |buffer|
    ensures s == Unpack(GroupAt(buffer, b))
  {
    s := Sample(First(buffer[b], buffer[b + 1]), Second(buffer[b + 1], buffer[b + 2]));
  }

  /** Bytes read so far, and the samples they hold. */
  ghost predicate Collected(bytes: seq<Byte>, b: nat, got: seq<Sample>) {
    b <= |bytes| && b % 3 == 0 && Samples(bytes[..b]) == got
  }

  lemma CollectNext(bytes: seq<Byte>, b: nat, got: seq<Sample>)
    requires Collected(bytes, b, got) && b + 3 <= |bytes|
    ensures Collected(bytes, b + 3, got + [Unpack(GroupAt(bytes, b))])
  {
    hide Unpack, Samples;
    var g := GroupAt(bytes, b);
    assert bytes[..b + 3] == bytes[..b] + Bytes(g);
    SamplesMore(bytes[..b], g);
  }

  lemma NothingCollected(bytes: seq<Byte>)
    ensures Collected(bytes, 0, [])
  {
    assert bytes[..0] == [];
  }

  /** How many samples a channel gets: the last one is read even if the length ends inside it. */
  function GroupCount(bufLen: nat, mimo: bool): nat {
    if mimo then (bufLen + 5) / 6 else (bufLen + 2) / 3
  }

  lemma KeptSent(x: seq<Sample>, y: seq<Sample>, x': seq<Sample>, y': seq<Sample>, k: nat, mimo: bool)
    requires k <= |x| && k <= |x'| && (mimo ==> k <= |y| && k <= |y'|)
    requires x'[..k] == x[..k] && (mimo ==> y'[..k] == y[..k])
    ensures FirstSent(x', y', k, mimo) == FirstSent(x, y, k, mimo)
  {
  }

  /** FPGAPacketPayload2Samples, compressed: the number of samples collected for each channel, and the samples;
      the rest of both channels is as it was. */
  method Payload2Samples(buffer: seq<Byte>, bufLen: nat, mimo: bool, ch0: array<Sample>, ch1: array<Sample>)
    returns (collected: nat)
    requires (if mimo then 6 else 3) * GroupCount(bufLen, mimo) <= |buffer|
    requires GroupCount(bufLen, mimo) <= ch0.Length
    requires ch0 != ch1 && (mimo ==> GroupCount(bufLen, mimo) <= ch1.Length)
    modifies ch0, ch1
    ensures collected == GroupCount(bufLen, mimo)
    ensures Collected(buffer, (if mimo then 6 else 3) * collected, FirstSent(ch0[..], ch1[..], collected, mimo))
    ensures ch0[collected..] == old(ch0[collected..])
    ensures if mimo then ch1[collected..] == old(ch1[collected..]) else ch1[..] == old(ch1[..])
  {
    hide FirstSent, Collected, Unpack;
    collected := 0;
    var b := 0;
    NothingCollected(buffer);
    NothingSent(ch0[..], ch1[..], mimo);
    while b < bufLen
      invariant collected <= GroupCount(bufLen, mimo) && b == (if mimo then 6 else 3) * collected
      invariant Collected(buffer, b, FirstSent(ch0[..], ch1[..], collected, mimo))
      invariant ch0[collected..] == old(ch0[collected..])
      invariant if mimo then ch1[collected..] == old(ch1[collected..]) else ch1[..] == old(ch1[..])
    {
      ghost var x, y := ch0[..], ch1[..];
      ghost var got := FirstSent(x, y, collected, mimo);
      CollectNext(buffer, b, got);
      ch0[collected] := Load(buffer, b);
      b := b + 3;
      if mimo {
        CollectNext(buffer, b, got + [ch0[collected]]);
        ch1[collected] := Load(buffer, b);
        b := b + 3;
      }
      KeptSent(x, y, ch0[..], ch1[..], collected, mimo);
      NextSent(ch0[..], ch1[..], collected, mimo);
      collected := collected + 1;
    }
  }

  /** A packet of 12-bit samples read back, one channel or two: the same samples for each channel. */
  lemma RoundTrip(ch0: seq<Sample>, ch1: seq<Sample>, got0: seq<Sample>, got1: seq<Sample>, bytes: seq<Byte>,
                  mimo: bool)
    requires |got0| == |ch0| && |ch1| == |got1| == if mimo then |ch0| else 0
    requires bytes == Payload(Sent(ch0, ch1, mimo)) && Samples(bytes) == Sent(got0, got1, mimo)
    ensures got0 == ch0 && got1 == ch1 <==> AllFit(Sent(ch0, ch1, mimo))
  {
    hide Payload, Samples, AllFit;
    PayloadThenSamples(Sent(ch0, ch1, mimo));
    if mimo && Sent(got0, got1, true) == Sent(ch0, ch1, true) {
      SentInjective(got0, got1, ch0, ch1);
    }
  }
}

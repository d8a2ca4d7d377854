/**
 Frames that do not arrive in one piece (getRTCM3Eph.c 286-317). The length of the frame being collected is a
 variable of the receive loop's body, so a new received buffer starts with whatever its memory holds. Frames
 survive exactly when that is still their length.
 */
module Rtcm3Splits {
  import opened CrcPolynomial
  import opened Rtcm3
  import opened Rtcm3Receiver

  // ------------------------------------------------------------ with the right length

  /** What is collected is the beginning of a frame, and the length is its own. */
  ghost predicate Right(p: seq<Byte>, len: int) {
    Partial(p) && (|p| >= 3 ==> len == PayloadLength(p) + 3)
  }

  /** One byte more on an unfinished frame. */
  lemma OneMore(p: seq<Byte>, c: Byte)
    requires Partial(p) && (p != [] || c == RTCM3PREAMB)
    ensures |p| >= 3 ==> PayloadLength(p + [c]) == PayloadLength(p)
    ensures var q := p + [c];
            if |q| < 3 || |q| < PayloadLength(q) + 6 then Partial(q) else Whole(q)
  {
    hide PayloadLength;
    var q := p + [c];
    if |p| >= 3 {
      assert q[..3] == p[..3];
      HeadDecides(q, p);
    }
  }

  /** The loop hands over what the bytes hold, and ends with the right length again. */
  lemma {:induction false} LoopedIsFrames(p: seq<Byte>, len: int, bytes: seq<Byte>)
    requires Right(p, len)
    ensures var o := Looped(p, len, bytes);
            Frames(p + bytes) == Found(o.frames, o.left) && Right(o.left, o.len)
    decreases |bytes|
  {
    hide Passes, PayloadLength, Frames, Whole;
    if bytes == [] {
      assert p + bytes == p;
      FramesOfPartial(p);
    } else if p == [] && bytes[0] != RTCM3PREAMB {
      LoopedIsFrames(p, len, bytes[1..]);
      assert p + bytes == [bytes[0]] + bytes[1..] && p + bytes[1..] == bytes[1..];
      FramesOfFiller([bytes[0]], bytes[1..]);
    } else {
      var q, tail := p + [bytes[0]], bytes[1..];
      var len' := NewLength(q, len);
      OneMore(p, bytes[0]);
      assert p + bytes == q + tail;
      if |q| < 3 || |q| < len' + 3 {
        LoopedIsFrames(q, len', tail);
      } else {
        assert Whole(q) && |q| == len' + 3 by { WholeLength(p, q, len'); }
        assert q[..len' + 3] == q;
        LoopedIsFrames([], len', tail);
        assert [] + tail == tail;
        FramesOfFrame(q, tail);
      }
    }
  }

  lemma WholeLength(p: seq<Byte>, q: seq<Byte>, len: int)
    requires |q| == |p| + 1 && |q| >= 3 && (|p| >= 3 ==> |p| < PayloadLength(q) + 6) && len == PayloadLength(q) + 3
    requires |q| >= len + 3
    requires |q| < PayloadLength(q) + 6 ==> Partial(q)
    requires |q| >= PayloadLength(q) + 6 ==> Whole(q)
    ensures Whole(q) && |q| == len + 3
  {
  }

  // ------------------------------------------------------------ a run of received buffers

  function Concat(bufs: seq<seq<Byte>>): seq<Byte> {
    if bufs == [] then [] else bufs[0] + Concat(bufs[1..])
  }

  /** Every index of a run of buffers stays inside the array, by InsideIff. */
  ghost predicate RunFits(p: seq<Byte>, bufs: seq<seq<Byte>>, lens: seq<int>)
    requires |lens| == |bufs|
    decreases |bufs|
  {
    bufs == [] ||
    (Fits(|p|, lens[0], |bufs[0]|) && RunFits(Looped(p, lens[0], bufs[0]).left, bufs[1..], lens[1..]))
  }

  /** What the loop makes of one buffer after another, with the lengths it finds at the start of each. */
  ghost function Collected(p: seq<Byte>, bufs: seq<seq<Byte>>, lens: seq<int>): Found
    requires |lens| == |bufs| && RunFits(p, bufs, lens)
    decreases |bufs|
  {
    if bufs == [] then Found([], p)
    else
      var o := Looped(p, lens[0], bufs[0]);
      Handed(o.frames, Collected(o.left, bufs[1..], lens[1..]))
  }

  /** Whenever a buffer begins inside a frame, behind its third byte, the length is still the frame's. */
  ghost predicate Kept(p: seq<Byte>, bufs: seq<seq<Byte>>, lens: seq<int>)
    requires |lens| == |bufs|
    decreases |bufs|
  {
    bufs == [] || (Right(p, lens[0]) && Kept(Looped(p, lens[0], bufs[0]).left, bufs[1..], lens[1..]))
  }

  /** Each buffer finds the length as the one before left it. */
  ghost predicate Unchanged(p: seq<Byte>, bufs: seq<seq<Byte>>, lens: seq<int>)
    requires |lens| == |bufs| && (bufs != [] ==> Right(p, lens[0]))
    decreases |bufs|
  {
    |bufs| < 2 ||
    (LoopedIsFrames(p, lens[0], bufs[0]);
     var o := Looped(p, lens[0], bufs[0]);
     lens[1] == o.len && Unchanged(o.left, bufs[1..], lens[1..]))
  }

  lemma {:induction false} UnchangedIsKept(p: seq<Byte>, bufs: seq<seq<Byte>>, lens: seq<int>)
    requires |lens| == |bufs| && (bufs != [] ==> Right(p, lens[0])) && Unchanged(p, bufs, lens)
    ensures Kept(p, bufs, lens)
    decreases |bufs|
  {
    hide Partial, Looped;
    if bufs == [] {
    } else {
      LoopedIsFrames(p, lens[0], bufs[0]);
      UnchangedIsKept(Looped(p, lens[0], bufs[0]).left, bufs[1..], lens[1..]);
    }
  }

  /** The frames of a stream are those of its beginning and then those of what that leaves, with the rest behind it. */
  lemma {:induction false} FramesAppend(x: seq<Byte>, y: seq<Byte>)
    ensures Frames(x + y) == Handed(Frames(x).frames, Frames(Frames(x).left + y))
    decreases |x|
  {
    hide Passes, PayloadLength, Frames, Whole, Partial;
    if Partial(x) {
      FramesOfPartial(x);
      NothingBefore(Frames(x + y));
    } else {
      var n := FirstPiece(x);
      var head, tail := x[..n], x[n..];
      FramesAppend(tail, y);
      assert x == head + tail && x + y == head + (tail + y);
      if Whole(head) {
        FramesOfFrame(head, tail);
        FramesOfFrame(head, tail + y);
        HandedTwice(if Passes(head) then [head] else [], Frames(tail).frames, Frames(Frames(tail).left + y));
      } else {
        FramesOfFiller(head, tail);
        FramesOfFiller(head, tail + y);
      }
    }
  }

  /** What does not stay collected begins with a byte to skip or with a whole frame. */
  lemma FirstPiece(x: seq<Byte>) returns (n: nat)
    requires !Partial(x)
    ensures 0 < n <= |x| && (Whole(x[..n]) || RTCM3PREAMB !in x[..n])
  {
    hide PayloadLength;
    if x[0] != RTCM3PREAMB {
      n := 1;
    } else {
      n := PayloadLength(x) + 6;
      assert x[..n][..3] == x[..3];
      HeadDecides(x, x[..n]);
    }
  }

  lemma HandedTwice(f: seq<seq<Byte>>, g: seq<seq<Byte>>, rest: Found)
    ensures Handed(f, Handed(g, rest)) == Handed(f + g, rest)
  {
    assert f + (g + rest.frames) == f + g + rest.frames;
  }

  lemma NothingBefore(f: Found)
    ensures Handed([], f) == f
  {
    assert [] + f.frames == f.frames;
  }

  /** With its own length a frame stays inside the array. */
  lemma RightFits(p: seq<Byte>, len: int, more: nat)
    requires Right(p, len)
    ensures |p| <= 1029 && Fits(|p|, len, more) && FrameSized(|p|, len)
  {
    hide PayloadLength;
  }

  /** However the stream is cut into buffers, a run that keeps the length hands over exactly its frames. */
  lemma {:induction false} CollectedIsFrames(p: seq<Byte>, bufs: seq<seq<Byte>>, lens: seq<int>)
    requires |lens| == |bufs| && Partial(p) && Kept(p, bufs, lens)
    ensures RunFits(p, bufs, lens) && Collected(p, bufs, lens) == Frames(p + Concat(bufs))
    decreases |bufs|
  {
    hide Looped, Frames, Partial;
    if bufs == [] {
      assert p + Concat(bufs) == p;
      FramesOfPartial(p);
    } else {
      RightFits(p, lens[0], |bufs[0]|);
      var o := Looped(p, lens[0], bufs[0]);
      LoopedIsFrames(p, lens[0], bufs[0]);
      CollectedIsFrames(o.left, bufs[1..], lens[1..]);
      assert p + Concat(bufs) == p + bufs[0] + Concat(bufs[1..]);
      FramesAppend(p + bufs[0], Concat(bufs[1..]));
    }
  }

  /** The receive loop (280-321), over received buffers that arrive until the peer closes or 32 satellites are known.
      `lens` are the values the length happens to have at the start of each, the first of which does not matter. */
  method ReceiveAll(bufs: seq<seq<Byte>>, lens: seq<int>, decode: seq<seq<Byte>> -> int)
    returns (handed: seq<seq<Byte>>)
    requires |lens| == |bufs| && RunFits([], bufs, lens)
    ensures UpToEnough(decode, [], handed, Collected([], bufs, lens).frames)
    ensures Kept([], bufs, lens) ==> UpToEnough(decode, [], handed, Frames(Concat(bufs)).frames)
  {
    hide UpToEnough, NotEnough, Looped, Frames, Kept, Collected, Underway, RunFits;
    var buff := new Byte[BUFFER_LENGTH];
    var i: nat, nSV: int := 0, 0;
    handed := [];
    ghost var all := Collected([], bufs, lens).frames;
    RunStarts(bufs, lens);
    NothingEnough(decode, []);
    assert buff[..0] == [];
    for k := 0 to |bufs|
      invariant i <= BUFFER_LENGTH && nSV < MAX_SAT
      invariant NotEnough(decode, [], handed)
      invariant Underway(all, handed, buff[..i], bufs, lens, k)
    {
      ghost var more := NextBuffer(all, handed, buff[..i], bufs, lens, k);
      ghost var given, o := handed, Looped(buff[..i], lens[k], bufs[k]);
      var h, len;
      i, len, nSV, h := Receive(buff, i, lens[k], bufs[k], decode, handed, nSV);
      EnoughSoFar(decode, given, h, o.frames, more, nSV);
      handed := handed + h;
      if nSV >= MAX_SAT {
        return;
      }
    }
    RunEnds(all, handed, buff[..i], bufs, lens);
    EnoughAtEnd(decode, [], handed);
  }

  /** Before buffer k: what is handed over and what is still to come are all the frames of the run. */
  ghost predicate Underway(all: seq<seq<Byte>>, handed: seq<seq<Byte>>, p: seq<Byte>, bufs: seq<seq<Byte>>,
                           lens: seq<int>, k: nat) {
    |lens| == |bufs| && k <= |bufs| && RunFits(p, bufs[k..], lens[k..]) &&
    all == handed + Collected(p, bufs[k..], lens[k..]).frames
  }

  lemma RunStarts(bufs: seq<seq<Byte>>, lens: seq<int>)
    requires |lens| == |bufs| && RunFits([], bufs, lens)
    ensures Underway(Collected([], bufs, lens).frames, [], [], bufs, lens, 0)
    ensures Kept([], bufs, lens) ==> Collected([], bufs, lens) == Frames(Concat(bufs))
  {
    hide Collected, Kept, Frames, RunFits;
    assert bufs[0..] == bufs && lens[0..] == lens;
    assert [] + Collected([], bufs, lens).frames == Collected([], bufs, lens).frames;
    if Kept([], bufs, lens) {
      CollectedIsFrames([], bufs, lens);
      assert [] + Concat(bufs) == Concat(bufs);
    }
  }

  lemma NextBuffer(all: seq<seq<Byte>>, handed: seq<seq<Byte>>, p: seq<Byte>, bufs: seq<seq<Byte>>, lens: seq<int>,
                   k: nat) returns (more: seq<seq<Byte>>)
    requires Underway(all, handed, p, bufs, lens, k) && k < |bufs|
    ensures Fits(|p|, lens[k], |bufs[k]|)
    ensures var o := Looped(p, lens[k], bufs[k]);
            all == handed + o.frames + more && Underway(all, handed + o.frames, o.left, bufs, lens, k + 1)
  {
    hide Looped;
    var o := Looped(p, lens[k], bufs[k]);
    assert bufs[k..][1..] == bufs[k + 1..] && lens[k..][1..] == lens[k + 1..];
    more := Collected(o.left, bufs[k + 1..], lens[k + 1..]).frames;
    assert handed + (o.frames + more) == handed + o.frames + more;
  }

  lemma RunEnds(all: seq<seq<Byte>>, handed: seq<seq<Byte>>, p: seq<Byte>, bufs: seq<seq<Byte>>, lens: seq<int>)
    requires Underway(all, handed, p, bufs, lens, |bufs|)
    ensures all == handed
  {
    assert handed + [] == handed;
  }

  /** The frames of one more buffer, on top of those handed over before. */
  lemma EnoughSoFar(decode: seq<seq<Byte>> -> int, given: seq<seq<Byte>>, h: seq<seq<Byte>>, frames: seq<seq<Byte>>,
                    more: seq<seq<Byte>>, nSV: int)
    requires NotEnough(decode, [], given) && UpToEnough(decode, given, h, frames)
    requires h != [] ==> nSV == decode(given + h)
    requires h == [] ==> nSV < MAX_SAT
    ensures nSV < MAX_SAT ==> h == frames && NotEnough(decode, [], given + h)
    ensures nSV >= MAX_SAT ==> UpToEnough(decode, [], given + h, given + frames + more)
  {
    var all := given + h;
    assert forall k | 0 <= k <= |given| :: all[..k] == given[..k];
    assert forall k | 0 <= k <= |h| :: all[..|given| + k] == given + h[..k];
    assert forall s: seq<seq<Byte>> {:trigger decode(s)} :: [] + s == s;
    assert h[..|h|] == h;
    forall k | 0 < k < |all| || (k == |all| && k > 0 && nSV < MAX_SAT)
      ensures decode([] + all[..k]) < MAX_SAT
    {
      if k > |given| {
        assert all[..k] == given + h[..k - |given|];
      } else {
        assert all[..k] == given[..k] && [] + given[..k] == given[..k];
      }
    }
  }

  // ------------------------------------------------------------ with another length

  /** From its third byte on, a frame is taken at the length remembered, but not before one byte has arrived. */
  lemma {:induction false} TakenAtLength(p: seq<Byte>, len: nat, bytes: seq<Byte>)
    requires |p| >= 3
    ensures var need := if |p| >= len + 3 then |p| + 1 else len + 3;
            var s := p + bytes;
            Looped(p, len, bytes) ==
              if |s| < need then Outcome([], s, len)
              else Before(if Passes(s[..len + 3]) then [s[..len + 3]] else [], Looped([], len, s[need..]))
    decreases |bytes|
  {
    hide Passes, PayloadLength;
    var s := p + bytes;
    if bytes == [] {
      assert s == p;
    } else {
      var q, tail := p + [bytes[0]], bytes[1..];
      assert s == q + tail;
      if |q| >= len + 3 {
        assert s[..len + 3] == q[..len + 3] && s[|q|..] == tail;
      } else {
        TakenAtLength(q, len, tail);
      }
    }
  }

  /** No frame is longer than the bytes it came from. */
  lemma {:induction false} FramesNoLonger(stream: seq<Byte>, f: seq<Byte>)
    requires f in Frames(stream).frames
    ensures |f| <= |stream|
    decreases |stream|
  {
    hide Passes, PayloadLength;
    if stream[0] != RTCM3PREAMB {
      FramesNoLonger(stream[1..], f);
    } else {
      var n := PayloadLength(stream) + 6;
      if f in Frames(stream[n..]).frames {
        FramesNoLonger(stream[n..], f);
      }
    }
  }

  /** A good frame that arrives in two parts, cut behind its third byte: it is handed over if and only if the second
      part finds its length still remembered. */
  lemma SplitFrameIff(f: seq<Byte>, k: nat, len: nat)
    requires Whole(f) && Passes(f) && 3 <= k < |f|
    ensures f in Looped(f[..k], len, f[k..]).frames <==> len == PayloadLength(f) + 3
  {
    hide Passes, PayloadLength, Frames, Looped;
    var p, bytes := f[..k], f[k..];
    assert p + bytes == f && p[..3] == f[..3];
    HeadDecides(p, f);
    if len == PayloadLength(f) + 3 {
      LoopedIsFrames(p, len, bytes);
      FramesOfFrame(f, []);
      assert f + [] == f;
      assert f in [f] + Frames([]).frames;
    } else {
      TakenAtLength(p, len, bytes);
      var need := if k >= len + 3 then k + 1 else len + 3;
      if |f| >= need {
        LoopedIsFrames([], len, f[need..]);
        assert [] + f[need..] == f[need..];
        Shorter(f, need);
      }
    }
  }

  lemma Shorter(f: seq<Byte>, n: nat)
    requires 0 < n <= |f|
    ensures f !in Frames(f[n..]).frames
  {
    if f in Frames(f[n..]).frames {
      FramesNoLonger(f[n..], f);
    }
  }

  /** Cut anywhere before that, no length is needed. */
  lemma EarlySplit(f: seq<Byte>, k: nat, len: int)
    requires Whole(f) && Passes(f) && k < 3
    ensures Looped(f[..k], len, f[k..]).frames == [f]
  {
    hide Passes, PayloadLength, Frames, Looped;
    assert f[..k] + f[k..] == f && f + [] == f;
    LoopedIsFrames(f[..k], len, f[k..]);
    FramesOfFrame(f, []);
    assert Frames([]) == Found([], []) by { FramesOfPartial([]); }
  }

  /** Whatever a sender puts into a frame: if it is cut behind its header and the length reads 0, the frame is lost. */
  lemma LostBehindHeader(reserved: nat, payload: seq<Byte>)
    requires reserved < 64 && |payload| < 1024
    ensures var f := MakeFrame(reserved, payload);
            Whole(f) && Passes(f) && f !in Looped(f[..3], 0, f[3..]).frames
  {
    hide MakeFrame, Whole, Passes, Looped;
    MadeFramePasses(reserved, payload);
    var f := MakeFrame(reserved, payload);
    assert |f| >= 6 by { WholeIsLong(f); }
    SplitFrameIff(f, 3, 0);
  }

  lemma WholeIsLong(f: seq<Byte>)
    requires Whole(f)
    ensures |f| >= 6
  {
  }
}

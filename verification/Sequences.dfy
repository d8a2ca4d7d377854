/**
 Copying pieces into sequences: what memcpy does to a buffer, as a value.
 */
module Sequences {

  /** `b` with `piece` laid over it from place `at`. */
  function Splice<T>(b: seq<T>, at: nat, piece: seq<T>): (r: seq<T>)
    requires at + |piece| <= |b|
    ensures |r| == |b|
    ensures forall k | 0 <= k < |b| :: r[k] == if at <= k < at + |piece| then piece[k - at] else b[k]
  {
    b[..at] + piece + b[at + |piece|..]
  }

  /** Two copies, the second right after the first, are one copy. */
  lemma TwoCopies<T>(b: seq<T>, at: nat, p1: seq<T>, p2: seq<T>)
    requires at + |p1| + |p2| <= |b|
    ensures Splice(Splice(b, at, p1), at + |p1|, p2) == Splice(b, at, p1 + p2)
    ensures Splice(b, at, []) == b
  {
  }

  /** Storing one more element after a piece. */
  lemma SpliceSnoc<T>(b: seq<T>, at: nat, piece: seq<T>, x: T)
    requires at + |piece| < |b|
    ensures Splice(b, at, piece)[at + |piece| := x] == Splice(b, at, piece + [x])
  {
  }
}

/**
 Giving the 12 receiver channels of the generator to the 32 GPS satellites (gpssim.c 1631-1707, 2234-2240).
 Which satellites are visible is an input: deciding it is orbit geometry, which is not part of this model.
 */
module Allocator {

  const MAX_SAT: nat := 32
  const MAX_CHAN: nat := 12

  /** `prn[i]` is the satellite channel i follows, counted from 1, or 0; `allocatedSat[sv]` is the channel of
      satellite sv, or -1. */
  datatype State = State(prn: seq<int>, allocatedSat: seq<int>)

  ghost predicate Sized(s: State) {
    |s.prn| == MAX_CHAN && |s.allocatedSat| == MAX_SAT
  }

  /** The two arrays are inverse to one another where they are defined. */
  ghost predicate Inverse(s: State) {
    Sized(s) && Matched(s)
  }

  ghost predicate Matched(s: State)
    requires Sized(s)
  {
    && (forall sv | 0 <= sv < MAX_SAT ::
          s.allocatedSat[sv] == -1 || (0 <= s.allocatedSat[sv] < MAX_CHAN && s.prn[s.allocatedSat[sv]] == sv + 1))
    && (forall i | 0 <= i < MAX_CHAN ::
          s.prn[i] == 0 || (1 <= s.prn[i] <= MAX_SAT && s.allocatedSat[s.prn[i] - 1] == i))
  }

  /** All channels free. */
  function Initial(): (s: State)
    ensures Inverse(s)
  {
    State(seq(MAX_CHAN, _ => 0), seq(MAX_SAT, _ => -1))
  }

  // ------------------------------------------------------------ one call, as a function of the state

  /** The first free channel from i on, or 12. */
  function FirstFree(prn: seq<int>, i: nat): (k: nat)
    requires |prn| == MAX_CHAN && i <= MAX_CHAN
    ensures i <= k <= MAX_CHAN && (k < MAX_CHAN ==> prn[k] == 0)
    ensures forall j | i <= j < k :: prn[j] != 0
    decreases MAX_CHAN - i
  {
    if i == MAX_CHAN || prn[i] == 0 then i else FirstFree(prn, i + 1)
  }

  /** One satellite's turn. */
  function Turn(s: State, sv: nat, visible: bool): (t: State)
    requires Inverse(s) && sv < MAX_SAT
    ensures Inverse(t)
  {
    if visible then
      if s.allocatedSat[sv] != -1 then s
      else
        var i := FirstFree(s.prn, 0);
        if i < MAX_CHAN then State(s.prn[i := sv + 1], s.allocatedSat[sv := i]) else s
    else if s.allocatedSat[sv] >= 0 then State(s.prn[s.allocatedSat[sv] := 0], s.allocatedSat[sv := -1])
    else s
  }

  lemma Entry(s: State, sv: nat)
    requires Inverse(s) && sv < MAX_SAT
    ensures s.allocatedSat[sv] == -1 || 0 <= s.allocatedSat[sv] < MAX_CHAN
  {
  }

  /** The turns of the satellites below n. */
  function Turns(s: State, visible: seq<bool>, n: nat): (t: State)
    requires Inverse(s) && |visible| == MAX_SAT && n <= MAX_SAT
    ensures Inverse(t)
  {
    if n == 0 then s
    else Turn(Turns(s, visible, n - 1), n - 1, visible[n - 1])
  }

  function Call(s: State, visible: seq<bool>): (t: State)
    requires Inverse(s) && |visible| == MAX_SAT
    ensures Inverse(t)
  {
    Turns(s, visible, MAX_SAT)
  }

  function CountVisible(visible: seq<bool>, n: nat): nat
    requires n <= |visible|
  {
    if n == 0 then 0 else CountVisible(visible, n - 1) + if visible[n - 1] then 1 else 0
  }

  /** The two arrays of gpssim.c, `chan[].prn` and `allocatedSat`. */
  class Channels {
    const prn: array<int>
    const allocatedSat: array<int>

    ghost predicate Valid()
      reads this, prn, allocatedSat
    {
      prn.Length == MAX_CHAN && allocatedSat.Length == MAX_SAT && Inverse(Value())
    }

    ghost function Value(): State
      reads this, prn, allocatedSat
    {
      State(prn[..], allocatedSat[..])
    }

    /** The initialisation at 2234-2240. */
    constructor ()
      ensures Valid() && fresh(prn) && fresh(allocatedSat)
      ensures Value() == Initial()
    {
      var p, a := new int[MAX_CHAN], new int[MAX_SAT];
      for i := 0 to MAX_CHAN
        invariant forall k | 0 <= k < i :: p[k] == 0
      {
        p[i] := 0;
      }
      for sv := 0 to MAX_SAT
        invariant forall k | 0 <= k < sv :: a[k] == -1
        invariant forall k | 0 <= k < MAX_CHAN :: p[k] == 0
      {
        a[sv] := -1;
      }
      prn, allocatedSat := p, a;
    }

    /** allocateChannel (1631-1707): the number of visible satellites, and the new allocation. */
    method AllocateChannel(visible: seq<bool>) returns (nsat: nat)
      requires Valid() && |visible| == MAX_SAT
      modifies prn, allocatedSat
      ensures Valid() && Value() == Call(old(Value()), visible)
      ensures nsat == CountVisible(visible, MAX_SAT)
    {
      hide Turn, Matched;
      nsat := 0;
      ghost var before := Value();
      for sv := 0 to MAX_SAT
        invariant Value() == Turns(before, visible, sv) && Inverse(Value())
        invariant nsat == CountVisible(visible, sv)
      {
        if visible[sv] {
          nsat := nsat + 1;
        }
        TakeTurn(sv, visible[sv]);
      }
    }

    /** The body of the satellite loop (1644-1703). */
    method TakeTurn(sv: nat, visible: bool)
      requires Valid() && sv < MAX_SAT
      modifies prn, allocatedSat
      ensures Valid() && Value() == Turn(old(Value()), sv, visible)
    {
      hide Matched;
      ghost var before := Value();
      Entry(before, sv);
      if visible {
        if allocatedSat[sv] == -1 {
          var i := 0;
          while i < MAX_CHAN
            invariant i <= MAX_CHAN && Value() == before
            invariant FirstFree(before.prn, 0) == FirstFree(before.prn, i)
          {
            if prn[i] == 0 {
              assert before.prn[i] == 0 && FirstFree(before.prn, i) == i;
              prn[i] := sv + 1;
              break;
            }
            i := i + 1;
          }
          if i < MAX_CHAN {
            allocatedSat[sv] := i;
            assert prn[..] == before.prn[i := sv + 1];
            assert allocatedSat[..] == before.allocatedSat[sv := i];
            assert Value() == Turn(before, sv, visible);
          }
        }
      } else if allocatedSat[sv] >= 0 {
        prn[allocatedSat[sv]] := 0;
        allocatedSat[sv] := -1;
        assert prn[..] == before.prn[before.allocatedSat[sv] := 0];
        assert allocatedSat[..] == before.allocatedSat[sv := -1];
        assert Value() == Turn(before, sv, visible);
      }
    }
  }
}

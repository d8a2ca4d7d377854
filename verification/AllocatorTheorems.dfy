/**
 What repeated channel allocation comes to: who holds channels, who keeps them, and how soon it settles.
 */
module AllocatorTheorems {
  import opened Allocator

  ghost predicate Holds(s: State, sv: nat)
    requires Sized(s) && sv < MAX_SAT
  {
    s.allocatedSat[sv] >= 0
  }

  ghost predicate AllBusy(s: State)
    requires Sized(s)
  {
    forall i | 0 <= i < MAX_CHAN :: s.prn[i] != 0
  }

  /** No satellite out of sight holds a channel. */
  ghost predicate OnlyVisibleHold(s: State, visible: seq<bool>)
    requires Sized(s) && |visible| == MAX_SAT
  {
    forall sv: nat | sv < MAX_SAT && Holds(s, sv) :: visible[sv]
  }

  /** Every satellite in sight has a channel, or there is no channel left. */
  ghost predicate Settled(s: State, visible: seq<bool>)
    requires Sized(s) && |visible| == MAX_SAT
  {
    AllBusy(s) || forall sv: nat | sv < MAX_SAT && visible[sv] :: Holds(s, sv)
  }

  lemma OneTurn(s: State, sv: nat, visible: bool, other: nat)
    requires Inverse(s) && sv < MAX_SAT && other < MAX_SAT
    ensures var t := Turn(s, sv, visible);
            && Inverse(t)
            && (other != sv || visible ==> Holds(s, other) ==> t.allocatedSat[other] == s.allocatedSat[other])
            && (other != sv ==> Holds(t, other) ==> Holds(s, other))
            && (other == sv && !visible ==> !Holds(t, other))
  {
  }

  /** Once a satellite's turn is past, it holds a channel only if it is in sight; and a satellite in sight that
      held a channel at the start still holds the same one. */
  lemma {:induction false} AfterTurns(s: State, visible: seq<bool>, n: nat, sv: nat)
    requires Inverse(s) && |visible| == MAX_SAT && n <= MAX_SAT && sv < MAX_SAT
    ensures var t := Turns(s, visible, n);
            && (sv < n && Holds(t, sv) ==> visible[sv])
            && (visible[sv] && Holds(s, sv) ==> t.allocatedSat[sv] == s.allocatedSat[sv])
    decreases n
  {
    hide Turn, Matched;
    if n == 0 {
    } else {
      AfterTurns(s, visible, n - 1, sv);
      OneTurn(Turns(s, visible, n - 1), n - 1, visible[n - 1], sv);
    }
  }

  /** After a call only satellites in sight hold channels, and those that held one before keep it. */
  lemma OnlyVisibleAfterCall(s: State, visible: seq<bool>)
    requires Inverse(s) && |visible| == MAX_SAT
    ensures OnlyVisibleHold(Call(s, visible), visible)
    ensures forall sv: nat | sv < MAX_SAT && visible[sv] && Holds(s, sv) ::
              Call(s, visible).allocatedSat[sv] == s.allocatedSat[sv]
  {
    hide Matched;
    forall sv: nat | sv < MAX_SAT
      ensures Holds(Call(s, visible), sv) ==> visible[sv]
      ensures visible[sv] && Holds(s, sv) ==> Call(s, visible).allocatedSat[sv] == s.allocatedSat[sv]
    {
      AfterTurns(s, visible, MAX_SAT, sv);
    }
  }

  /** A turn that frees no channel keeps every channel and every holder. */
  lemma GrowingTurn(s: State, sv: nat, visible: bool)
    requires Inverse(s) && sv < MAX_SAT && (Holds(s, sv) ==> visible)
    ensures var t := Turn(s, sv, visible);
            && Inverse(t)
            && (AllBusy(s) ==> t == s)
            && (forall other: nat | other < MAX_SAT :: Holds(s, other) ==> Holds(t, other))
            && (forall other: nat | other < MAX_SAT && other != sv :: Holds(t, other) ==> Holds(s, other))
            && (Holds(t, sv) ==> visible)
            && (visible ==> Holds(t, sv) || AllBusy(t))
            && (t == s || !AllBusy(s))
  {
    var i := FirstFree(s.prn, 0);
  }

  /** The part of Settled that the first n turns can have brought about. */
  ghost predicate SettledBelow(s: State, visible: seq<bool>, n: nat)
    requires Sized(s) && |visible| == MAX_SAT && n <= MAX_SAT
  {
    AllBusy(s) || forall sv: nat | sv < n && visible[sv] :: Holds(s, sv)
  }

  lemma {:induction false} TurnsSettle(s: State, visible: seq<bool>, n: nat)
    requires Inverse(s) && |visible| == MAX_SAT && n <= MAX_SAT && OnlyVisibleHold(s, visible)
    ensures var t := Turns(s, visible, n); OnlyVisibleHold(t, visible) && SettledBelow(t, visible, n)
    decreases n
  {
    hide Turn, Matched;
    if n == 0 {
    } else {
      TurnsSettle(s, visible, n - 1);
      GrowingTurn(Turns(s, visible, n - 1), n - 1, visible[n - 1]);
    }
  }

  /** One call settles the allocation if no satellite out of sight holds a channel at its start. */
  lemma CallSettles(s: State, visible: seq<bool>)
    requires Inverse(s) && |visible| == MAX_SAT && OnlyVisibleHold(s, visible)
    ensures Settled(Call(s, visible), visible)
  {
    hide Inverse, Turns;
    TurnsSettle(s, visible, MAX_SAT);
  }

  /** Two calls with the same satellites in sight always settle it. */
  lemma SecondCallSettles(s: State, visible: seq<bool>)
    requires Inverse(s) && |visible| == MAX_SAT
    ensures Settled(Call(Call(s, visible), visible), visible)
    ensures OnlyVisibleHold(Call(Call(s, visible), visible), visible)
  {
    hide Inverse, Turns;
    OnlyVisibleAfterCall(s, visible);
    OnlyVisibleAfterCall(Call(s, visible), visible);
    CallSettles(Call(s, visible), visible);
  }

  lemma IdleTurn(s: State, sv: nat, visible: seq<bool>)
    requires Inverse(s) && |visible| == MAX_SAT && sv < MAX_SAT
    requires OnlyVisibleHold(s, visible) && Settled(s, visible)
    ensures Turn(s, sv, visible[sv]) == s
  {
    assert Holds(s, sv) ==> visible[sv];
  }

  lemma {:induction false} NothingToDo(s: State, visible: seq<bool>, n: nat)
    requires Inverse(s) && |visible| == MAX_SAT && n <= MAX_SAT
    requires OnlyVisibleHold(s, visible) && Settled(s, visible)
    ensures Turns(s, visible, n) == s
    decreases n
  {
    hide Matched, Turn, Settled, OnlyVisibleHold;
    if n == 0 {
    } else {
      NothingToDo(s, visible, n - 1);
      IdleTurn(s, n - 1, visible);
    }
  }

  /** A third call changes nothing. */
  lemma ThirdCallChangesNothing(s: State, visible: seq<bool>)
    requires Inverse(s) && |visible| == MAX_SAT
    ensures var t := Call(Call(s, visible), visible); Call(t, visible) == t
  {
    hide Inverse, Turns;
    SecondCallSettles(s, visible);
    NothingToDo(Call(Call(s, visible), visible), visible, MAX_SAT);
  }

  // ------------------------------------------------------------ how many channels are in use

  ghost function Holders(s: State): set<nat>
    requires Sized(s)
  {
    set sv: nat | sv < MAX_SAT && s.allocatedSat[sv] >= 0
  }

  ghost function Busy(s: State): set<nat>
    requires Sized(s)
  {
    set i: nat | i < MAX_CHAN && s.prn[i] != 0
  }

  ghost function InSight(visible: seq<bool>, n: nat): set<nat>
    requires n <= |visible|
  {
    set sv: nat | sv < n && visible[sv]
  }

  lemma {:induction false} CountInSight(visible: seq<bool>, n: nat)
    requires n <= |visible|
    ensures |InSight(visible, n)| == CountVisible(visible, n)
    decreases n
  {
    if n == 0 {
    } else {
      CountInSight(visible, n - 1);
      if visible[n - 1] {
        assert InSight(visible, n) == InSight(visible, n - 1) + {n - 1};
      } else {
        assert InSight(visible, n) == InSight(visible, n - 1);
      }
    }
  }

  /** A map and its inverse keep the size of a set. */
  lemma {:induction false} SameSize(a: set<nat>, b: set<nat>, f: map<nat, nat>, g: map<nat, nat>)
    requires f.Keys == a && forall x | x in a :: f[x] in b
    requires g.Keys == b && forall z | z in b :: g[z] in a
    requires forall x | x in a :: g[f[x]] == x
    requires forall z | z in b :: f[g[z]] == z
    ensures |a| == |b|
    decreases a
  {
    if a == {} {
    } else {
      var x :| x in a;
      var z := f[x];
      SameSize(a - {x}, b - {z}, f - {x}, g - {z});
      assert |a| == |a - {x}| + 1 && |b| == |b - {z}| + 1;
    }
  }

  lemma HoldersAreBusy(s: State)
    requires Inverse(s)
    ensures |Holders(s)| == |Busy(s)|
  {
    var f: map<nat, nat> := map sv | sv in Holders(s) :: s.allocatedSat[sv];
    var g: map<nat, nat> := map i | i in Busy(s) :: s.prn[i] - 1;
    assert forall x | x in Holders(s) :: f[x] in Busy(s) && g[f[x]] == x;
    assert forall z | z in Busy(s) :: g[z] in Holders(s) && f[g[z]] == z;
    SameSize(Holders(s), Busy(s), f, g);
  }

  lemma TwelveChannels(s: State)
    requires Sized(s)
    ensures |Busy(s)| <= MAX_CHAN
    ensures AllBusy(s) ==> |Busy(s)| == MAX_CHAN
  {
    var all: set<nat> := {0, 1, 2, 3, 4, 5, 6, 7, 8, 9, 10, 11};
    Subset(Busy(s), all);
    if AllBusy(s) {
      assert Busy(s) == all;
    }
  }

  /** Two calls on, the channels in use are as many as the satellites in sight, or all 12. */
  lemma ChannelsInUse(s: State, visible: seq<bool>)
    requires Inverse(s) && |visible| == MAX_SAT
    ensures var t := Call(Call(s, visible), visible);
            var n := CountVisible(visible, MAX_SAT);
            |Busy(t)| == if n < MAX_CHAN then n else MAX_CHAN
  {
    hide Turns, Matched;
    var t := Call(Call(s, visible), visible);
    SecondCallSettles(s, visible);
    HoldersAreBusy(t);
    CountInSight(visible, MAX_SAT);
    TwelveChannels(t);
    assert Holders(t) <= InSight(visible, MAX_SAT);
    Subset(Holders(t), InSight(visible, MAX_SAT));
    if !AllBusy(t) {
      assert Holders(t) == InSight(visible, MAX_SAT);
    }
  }

  lemma Subset(a: set<nat>, b: set<nat>)
    requires a <= b
    ensures |a| <= |b|
  {
    assert b == a + (b - a);
  }

  // ------------------------------------------------------------ when one call is enough

  function CountFree(prn: seq<int>, n: nat): nat
    requires n <= |prn|
  {
    if n == 0 then 0 else CountFree(prn, n - 1) + if prn[n - 1] == 0 then 1 else 0
  }

  /** How many channels will be free when satellite n has its turn, counted from the state before the call. */
  function FreeAt(s: State, visible: seq<bool>, n: nat): nat
    requires |s.prn| == MAX_CHAN && |s.allocatedSat| == |visible| == MAX_SAT && n <= MAX_SAT
  {
    if n == 0 then CountFree(s.prn, MAX_CHAN)
    else
      var free := FreeAt(s, visible, n - 1);
      var holds := s.allocatedSat[n - 1] >= 0;
      if visible[n - 1] && !holds && free > 0 then free - 1
      else if !visible[n - 1] && holds then free + 1
      else free
  }

  lemma {:induction false} CountFreeUpdated(prn: seq<int>, i: nat, x: int, n: nat)
    requires i < |prn| && n <= |prn|
    ensures CountFree(prn[i := x], n)
         == CountFree(prn, n) + if i < n then (if x == 0 then 1 else 0) - (if prn[i] == 0 then 1 else 0) else 0
    decreases n
  {
    if n == 0 {
    } else {
      CountFreeUpdated(prn, i, x, n - 1);
    }
  }

  lemma {:induction false} NoneFree(prn: seq<int>, n: nat)
    requires n <= |prn|
    ensures CountFree(prn, n) == 0 <==> forall i | 0 <= i < n :: prn[i] != 0
    decreases n
  {
    if n == 0 {
    } else {
      NoneFree(prn, n - 1);
    }
  }

  /** What a turn does to the number of free channels. */
  lemma FreeAfterTurn(s: State, sv: nat, visible: bool)
    requires Inverse(s) && sv < MAX_SAT
    ensures var before, after := CountFree(s.prn, MAX_CHAN), CountFree(Turn(s, sv, visible).prn, MAX_CHAN);
            && (visible && !Holds(s, sv) ==> after == if before > 0 then before - 1 else 0)
            && (visible && !Holds(s, sv) ==> (Holds(Turn(s, sv, visible), sv) <==> before > 0))
            && (!visible && Holds(s, sv) ==> after == before + 1)
            && (visible == Holds(s, sv) ==> after == before)
  {
    hide CountFree;
    NoneFree(s.prn, MAX_CHAN);
    var i := FirstFree(s.prn, 0);
    if i < MAX_CHAN {
      CountFreeUpdated(s.prn, i, sv + 1, MAX_CHAN);
    }
    if Holds(s, sv) {
      CountFreeUpdated(s.prn, s.allocatedSat[sv], 0, MAX_CHAN);
    }
  }

  /** A satellite whose turn is still to come is as it was. */
  lemma {:induction false} NotYetTurned(s: State, visible: seq<bool>, n: nat, sv: nat)
    requires Inverse(s) && |visible| == MAX_SAT && n <= sv < MAX_SAT
    ensures Turns(s, visible, n).allocatedSat[sv] == s.allocatedSat[sv]
    decreases n
  {
    hide Matched;
    if n == 0 {
    } else {
      NotYetTurned(s, visible, n - 1, sv);
    }
  }

  lemma {:induction false} FreeCounted(s: State, visible: seq<bool>, n: nat)
    requires Inverse(s) && |visible| == MAX_SAT && n <= MAX_SAT
    ensures CountFree(Turns(s, visible, n).prn, MAX_CHAN) == FreeAt(s, visible, n)
    decreases n
  {
    hide Matched, Turn, CountFree;
    if n == 0 {
    } else {
      FreeCounted(s, visible, n - 1);
      NotYetTurned(s, visible, n - 1, n - 1);
      FreeAfterTurn(Turns(s, visible, n - 1), n - 1, visible[n - 1]);
    }
  }

  /** Who holds a channel once the first n satellites have had their turns. */
  lemma {:induction false} HoldersAfter(s: State, visible: seq<bool>, n: nat, sv: nat)
    requires Inverse(s) && |visible| == MAX_SAT && sv < n <= MAX_SAT
    ensures Holds(Turns(s, visible, n), sv) <==> visible[sv] && (Holds(s, sv) || FreeAt(s, visible, sv) > 0)
    decreases n
  {
    hide Matched, Turn, CountFree, FreeAt;
    var t := Turns(s, visible, n - 1);
    if sv < n - 1 {
      HoldersAfter(s, visible, n - 1, sv);
      OneTurn(t, n - 1, visible[n - 1], sv);
    } else {
      FreeCounted(s, visible, sv);
      NotYetTurned(s, visible, sv, sv);
      FreeAfterTurn(t, sv, visible[sv]);
      OneTurn(t, sv, visible[sv], sv);
    }
  }

  /** Exactly when one call settles the allocation, counted from the state before it: either no channel is free at
      the end, or one was free whenever a visible satellite without one had its turn. */
  lemma CallSettlesIff(s: State, visible: seq<bool>)
    requires Inverse(s) && |visible| == MAX_SAT
    ensures Settled(Call(s, visible), visible) <==>
              (FreeAt(s, visible, MAX_SAT) == 0 ||
               forall sv: nat | sv < MAX_SAT && visible[sv] && !Holds(s, sv) :: FreeAt(s, visible, sv) > 0)
  {
    hide Matched, Turns, CountFree, FreeAt, Holds;
    var t := Call(s, visible);
    FreeCounted(s, visible, MAX_SAT);
    NoneFree(t.prn, MAX_CHAN);
    forall sv: nat | sv < MAX_SAT
      ensures Holds(t, sv) <==> visible[sv] && (Holds(s, sv) || FreeAt(s, visible, sv) > 0)
    {
      HoldersAfter(s, visible, MAX_SAT, sv);
    }
  }

  // ------------------------------------------------------------ a run that one call does not settle

  /** Satellites 20 to 31 in sight; and then satellite 0 instead of satellite 31. */
  function Earlier(): seq<bool> {
    seq(MAX_SAT, sv => sv >= 20)
  }

  function Later(): seq<bool> {
    seq(MAX_SAT, sv => sv == 0 || 20 <= sv < 31)
  }

  lemma {:induction false} FreeFromInitial(n: nat)
    requires n <= MAX_SAT
    ensures FreeAt(Initial(), Earlier(), n) == if n <= 20 then 12 else 32 - n
    decreases n
  {
    hide CountFree;
    if n == 0 {
      AllFree(MAX_CHAN);
    } else {
      FreeFromInitial(n - 1);
    }
  }

  lemma {:induction false} AllFree(n: nat)
    requires n <= MAX_CHAN
    ensures CountFree(Initial().prn, n) == n
    decreases n
  {
    if n == 0 {
    } else {
      AllFree(n - 1);
    }
  }

  lemma InitialIsInverse()
    ensures Inverse(Initial())
  {
  }

  lemma AfterEarlier()
    requires Inverse(Initial())
    ensures var t := Call(Initial(), Earlier());
            && CountFree(t.prn, MAX_CHAN) == 0
            && forall sv: nat | sv < MAX_SAT :: Holds(t, sv) <==> sv >= 20
  {
    hide Turns, CountFree, FreeAt, Matched;
    var s := Initial();
    FreeFromInitial(MAX_SAT);
    FreeCounted(s, Earlier(), MAX_SAT);
    forall sv: nat | sv < MAX_SAT
      ensures Holds(Call(s, Earlier()), sv) <==> sv >= 20
    {
      FreeFromInitial(sv);
      HoldersAfter(s, Earlier(), MAX_SAT, sv);
    }
  }

  lemma {:induction false} NoneFreeUntilLast(t: State, n: nat)
    requires Sized(t) && CountFree(t.prn, MAX_CHAN) == 0 && n <= MAX_SAT
    requires forall sv: nat | sv < MAX_SAT :: Holds(t, sv) <==> sv >= 20
    ensures FreeAt(t, Later(), n) == if n <= 31 then 0 else 1
    decreases n
  {
    hide CountFree;
    if n == 0 {
    } else {
      NoneFreeUntilLast(t, n - 1);
      assert Holds(t, n - 1) <==> n - 1 >= 20;
    }
  }

  /** From the initial state: twelve satellites take all channels; when satellite 0 replaces satellite 31, its turn
      comes before satellite 31 gives its channel up, and the second call ends with a channel free and satellite 0
      without one. */
  lemma UnsettledRun()
    ensures Inverse(Initial())
    ensures var t := Call(Initial(), Earlier());
            var u := Call(t, Later());
            !Settled(u, Later()) && Later()[0] && !Holds(u, 0) && CountFree(u.prn, MAX_CHAN) == 1
  {
    hide Turns, CountFree, FreeAt, Matched, Call, Settled;
    InitialIsInverse();
    AfterEarlier();
    var t := Call(Initial(), Earlier());
    NoneFreeUntilLast(t, 0);
    NoneFreeUntilLast(t, MAX_SAT);
    CallSettlesIff(t, Later());
    LaterCounts(t);
    assert Later()[0] && !Holds(t, 0);
  }

  lemma LaterCounts(t: State)
    requires Inverse(t)
    ensures CountFree(Call(t, Later()).prn, MAX_CHAN) == FreeAt(t, Later(), MAX_SAT)
    ensures Holds(Call(t, Later()), 0) <==> Holds(t, 0) || FreeAt(t, Later(), 0) > 0
  {
    hide Turns, CountFree, FreeAt, Matched;
    FreeCounted(t, Later(), MAX_SAT);
    HoldersAfter(t, Later(), MAX_SAT, 0);
  }

  // ------------------------------------------------------------ one call is not always enough

  /** Satellite 0 in sight, satellite 31 just out of it, and all channels taken: satellite 0 has its turn before
      satellite 31 gives its channel up, so one call leaves a channel free and satellite 0 without one. */
  lemma OneCallIsNotEnough(s: State, visible: seq<bool>)
    requires Inverse(s) && |visible| == MAX_SAT && AllBusy(s)
    requires visible[0] && !Holds(s, 0) && !visible[31] && Holds(s, 31)
    requires forall sv: nat | 0 < sv < 31 :: visible[sv] <==> Holds(s, sv)
    ensures !Settled(Call(s, visible), visible)
  {
    hide Turns;
    FullUntil(s, visible, 31);
    LastTurn(s, visible);
    var t := Turn(s, 31, false);
    assert t == Call(s, visible);
    assert s.prn[s.allocatedSat[31]] == 32 && t.prn[s.allocatedSat[31]] == 0;
    assert !Holds(t, 0);
  }

  lemma LastTurn(s: State, visible: seq<bool>)
    requires Inverse(s) && |visible| == MAX_SAT && Turns(s, visible, 31) == s
    ensures Call(s, visible) == Turn(s, 31, visible[31])
  {
  }

  lemma BusyTurn(s: State, sv: nat, visible: bool)
    requires Inverse(s) && sv < MAX_SAT && AllBusy(s) && (Holds(s, sv) ==> visible)
    ensures Turn(s, sv, visible) == s
  {
  }

  lemma {:induction false} FullUntil(s: State, visible: seq<bool>, n: nat)
    requires Inverse(s) && |visible| == MAX_SAT && AllBusy(s) && n <= 31
    requires forall sv: nat | sv < n && Holds(s, sv) :: visible[sv]
    ensures Turns(s, visible, n) == s
    decreases n
  {
    hide Matched, Turn, AllBusy;
    if n == 0 {
    } else {
      FullUntil(s, visible, n - 1);
      BusyTurn(s, n - 1, visible[n - 1]);
    }
  }
}

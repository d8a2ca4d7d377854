/**
 GPS time as week and second of the week, and the two operations the generator does on it (gpssim.c 800-832), over
 exact reals.
 */
module GpsTimes {

  datatype GpsTime = GpsTime(week: int, sec: real)

  const SECONDS_IN_WEEK: real := 604800.0

  /** Seconds since the start of GPS time. */
  function TotalSeconds(g: GpsTime): real {
    g.week as real * SECONDS_IN_WEEK + g.sec
  }

  /** The second lies inside the week. */
  predicate InWeek(g: GpsTime) {
    0.0 <= g.sec < SECONDS_IN_WEEK
  }

  /** C's round: to the nearest whole number, halves away from zero. */
  function Round(x: real): int {
    if x >= 0.0 then (x + 0.5).Floor else -(-x + 0.5).Floor
  }

  function WholeMs(sec: real): real {
    Round(sec * 1000.0) as real / 1000.0
  }

  /** incGpsTime (810-832): later by dt, to the millisecond, and normalised into a week. */
  method IncGpsTime(g0: GpsTime, dt: real) returns (g1: GpsTime)
    ensures InWeek(g1)
    ensures TotalSeconds(g1) == TotalSeconds(GpsTime(g0.week, WholeMs(g0.sec + dt)))
  {
    g1 := GpsTime(g0.week, WholeMs(g0.sec + dt));
    while g1.sec >= SECONDS_IN_WEEK
      invariant TotalSeconds(g1) == TotalSeconds(GpsTime(g0.week, WholeMs(g0.sec + dt)))
      decreases g1.sec
    {
      OneWeek(g1);
      g1 := GpsTime(g1.week + 1, g1.sec - SECONDS_IN_WEEK);
    }
    while g1.sec < 0.0
      invariant g1.sec < SECONDS_IN_WEEK
      invariant TotalSeconds(g1) == TotalSeconds(GpsTime(g0.week, WholeMs(g0.sec + dt)))
      decreases -g1.sec
    {
      OneWeek(GpsTime(g1.week - 1, g1.sec + SECONDS_IN_WEEK));
      g1 := GpsTime(g1.week - 1, g1.sec + SECONDS_IN_WEEK);
    }
  }

  lemma OneWeek(g: GpsTime)
    ensures TotalSeconds(GpsTime(g.week + 1, g.sec - SECONDS_IN_WEEK)) == TotalSeconds(g)
  {
    assert (g.week + 1) as real == g.week as real + 1.0;
  }

  /** The week and the second follow from the total, so the loops can end in only one way. */
  lemma SameTime(g: GpsTime, h: GpsTime)
    requires InWeek(g) && InWeek(h) && TotalSeconds(g) == TotalSeconds(h)
    ensures g == h
  {
    assert (g.week - h.week) as real * SECONDS_IN_WEEK == h.sec - g.sec;
  }

  /** A whole number of milliseconds is not rounded. */
  lemma MillisecondsKept(ms: int)
    ensures WholeMs(ms as real / 1000.0) == ms as real / 1000.0
  {
    RoundWhole(ms);
  }

  /** What is kept is a whole number of milliseconds, none nearer, and the one further from 0 halfway between two. */
  lemma MillisecondIsNearest(sec: real)
    ensures var ms := 1000.0 * WholeMs(sec);
            && ms.Floor as real == ms
            && -0.5 <= ms - 1000.0 * sec <= 0.5
            && (ms - 1000.0 * sec == 0.5 ==> sec > 0.0) && (ms - 1000.0 * sec == -0.5 ==> sec < 0.0)
  {
    var r := Round(sec * 1000.0);
    assert 1000.0 * WholeMs(sec) == r as real;
    assert (r as real).Floor == r;
  }

  lemma RoundWhole(n: int)
    ensures Round(n as real) == n
  {
  }

  /** subGpsTime (800-808). */
  function SubGpsTime(g1: GpsTime, g0: GpsTime): real {
    g1.sec - g0.sec + (g1.week - g0.week) as real * SECONDS_IN_WEEK
  }

  /** The difference is the time elapsed, across any number of week ends. */
  lemma SubIsElapsed(g1: GpsTime, g0: GpsTime)
    ensures SubGpsTime(g1, g0) == TotalSeconds(g1) - TotalSeconds(g0)
  {
    assert (g1.week - g0.week) as real == g1.week as real - g0.week as real;
  }
}

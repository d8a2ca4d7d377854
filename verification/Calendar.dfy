/**
 GPS time and calendar dates (gpssim.c 198-240), with 122.1, 365.25 and 30.6001 as exact numbers. The leap rule is
 the code's: every fourth year.
 */
module Calendar {
  import opened GpsTimes

  datatype Date = Date(y: int, m: int, d: int)

  datatype DateTime = DateTime(date: Date, hh: int, mm: int, sec: real)

  // ------------------------------------------------------------ the calendar

  function MonthLength(y: int, m: int): int {
    if m == 2 then (if y % 4 == 0 then 29 else 28)
    else if m == 4 || m == 6 || m == 9 || m == 11 then 30 else 31
  }

  /** A date from 6 January 1980 on. */
  predicate ValidDate(t: Date) {
    && 1 <= t.m <= 12 && 1 <= t.d <= MonthLength(t.y, t.m)
    && (t.y > 1980 || (t.y == 1980 && (t.m > 1 || t.d >= 6)))
  }

  predicate ValidTime(t: DateTime) {
    0 <= t.hh < 24 && 0 <= t.mm < 60 && 0.0 <= t.sec < 60.0
  }

  function NextDay(t: Date): Date {
    if t.d < MonthLength(t.y, t.m) then Date(t.y, t.m, t.d + 1)
    else if t.m < 12 then Date(t.y, t.m + 1, 1)
    else Date(t.y + 1, 1, 1)
  }

  /** The date n days after 6 January 1980. */
  function Day(n: nat): (t: Date)
    ensures ValidDate(t)
  {
    if n == 0 then Date(1980, 1, 6) else NextDay(Day(n - 1))
  }

  // ------------------------------------------------------------ whole days

  /** Division as C does it for ints, towards zero. */
  function Quotient(a: int, b: int): int
    requires b > 0
  {
    if a >= 0 then a / b else -(-a / b)
  }

  function DaysBefore(m: int): int
    requires 1 <= m <= 12
  {
    [0, 31, 59, 90, 120, 151, 181, 212, 243, 273, 304, 334][m - 1]
  }

  /** The day count at 205-213. */
  function DayNumber(t: Date): int
    requires 1 <= t.m <= 12
  {
    var ye := t.y - 1980;
    var lpdays := Quotient(ye, 4) + 1 - if ye - 4 * Quotient(ye, 4) == 0 && t.m <= 2 then 1 else 0;
    ye * 365 + DaysBefore(t.m) + t.d + lpdays - 6
  }

  /** Days are counted one by one. */
  lemma NextDayNumber(t: Date)
    requires ValidDate(t)
    ensures ValidDate(NextDay(t)) && DayNumber(NextDay(t)) == DayNumber(t) + 1
  {
  }

  lemma {:induction false} DayNumberOfDay(n: nat)
    ensures DayNumber(Day(n)) == n
    decreases n
  {
    if n == 0 {
    } else {
      DayNumberOfDay(n - 1);
      NextDayNumber(Day(n - 1));
    }
  }

  function PreviousDay(t: Date): Date
  {
    if t.d > 1 then Date(t.y, t.m, t.d - 1)
    else if t.m > 1 then Date(t.y, t.m - 1, MonthLength(t.y, t.m - 1))
    else Date(t.y - 1, 12, 31)
  }

  lemma BackAndForth(t: Date)
    requires ValidDate(t) && t != Date(1980, 1, 6)
    ensures ValidDate(PreviousDay(t)) && NextDay(PreviousDay(t)) == t
    ensures DayNumber(PreviousDay(t)) == DayNumber(t) - 1
  {
    NextDayNumber(PreviousDay(t));
  }

  lemma NumberIsNatural(t: Date)
    requires ValidDate(t)
    ensures DayNumber(t) >= 0 && (DayNumber(t) == 0 <==> t == Date(1980, 1, 6))
  {
  }

  /** Every date is the day its number says. */
  lemma {:induction false} DayOfDayNumber(t: Date)
    requires ValidDate(t)
    ensures DayNumber(t) >= 0 && Day(DayNumber(t)) == t
    decreases DayNumber(t)
  {
    hide MonthLength, NextDay, PreviousDay;
    NumberIsNatural(t);
    if t != Date(1980, 1, 6) {
      BackAndForth(t);
      NumberIsNatural(PreviousDay(t));
      DayOfDayNumber(PreviousDay(t));
    }
  }

  // ------------------------------------------------------------ from day numbers to dates

  function Trunc(x: real): int {
    if x >= 0.0 then x.Floor else -(-x).Floor
  }

  function YearPart(c: int): int {
    Trunc((c as real - 122.1) / 365.25)
  }

  function MonthPart(n: int): int {
    Trunc(n as real / 30.6001)
  }

  function DaysPart(f: int): int {
    Trunc(30.6001 * f as real)
  }

  /** The date computation at 226-233, on a day count shifted to the calendar's own origin. */
  function DateOf(c: int): Date {
    var d := YearPart(c);
    var e := 365 * d + Quotient(d, 4);
    var f := MonthPart(c - e);
    var m := f - 1 - 12 * Quotient(f, 14);
    Date(d - 4715 - Quotient(7 + m, 10), m, c - e - DaysPart(f))
  }

  lemma FloorIs(x: real, n: int)
    requires n as real <= x < n as real + 1.0
    ensures x.Floor == n
  {
  }

  /** The day a date has in the computation's terms: years begin in March. */
  lemma Parts(t: Date)
    requires ValidDate(t)
    ensures var early := t.m <= 2;
            var d := t.y + 4716 - if early then 1 else 0;
            var f := t.m + 1 + if early then 12 else 0;
            var c := DayNumber(t) + 2445782;
            && 4 <= f <= 15
            && c == 365 * d + d / 4 + 306001 * f / 10000 + t.d
            && 20 * c - 2442 >= 7305 * d
            && 20 * c - 2442 < 7305 * (d + 1)
            && 306001 * f <= 10000 * (306001 * f / 10000 + t.d) < 306001 * (f + 1)
  {
    var early := t.m <= 2;
    var d := t.y + 4716 - if early then 1 else 0;
    var k, r := d / 4, d % 4;
    assert d == 4 * k + r && t.y == d - 4716 + if early then 1 else 0;
  }

  /** The computation undoes the day count. */
  lemma DateOfDayNumber(t: Date)
    requires ValidDate(t)
    ensures DateOf(DayNumber(t) + 2445782) == t
  {
    hide DayNumber, ValidDate, YearPart, MonthPart, DaysPart;
    ValidRanges(t);
    var early := t.m <= 2;
    var d := t.y + 4716 - if early then 1 else 0;
    var f := t.m + 1 + if early then 12 else 0;
    var c := DayNumber(t) + 2445782;
    Parts(t);
    YearOf(c, d);
    MonthOf(c - (365 * d + d / 4), f);
    DaysOfMonths(f);
  }

  lemma YearOf(c: int, d: int)
    requires 7305 * d <= 20 * c - 2442 < 7305 * (d + 1) && d >= 0
    ensures YearPart(c) == d
  {
    FloorIs((c as real - 122.1) / 365.25, d);
  }

  lemma MonthOf(n: int, f: int)
    requires 306001 * f <= 10000 * n < 306001 * (f + 1) && f >= 0
    ensures MonthPart(n) == f
  {
    FloorIs(n as real / 30.6001, f);
  }

  lemma DaysOfMonths(f: int)
    requires f >= 0
    ensures DaysPart(f) == 306001 * f / 10000
  {
    FloorIs(30.6001 * f as real, 306001 * f / 10000);
  }

  lemma ValidRanges(t: Date)
    requires ValidDate(t)
    ensures t.y >= 1980 && 1 <= t.m <= 12 && 1 <= t.d <= 31
  {
  }

  // ------------------------------------------------------------ weeks and seconds

  function Remainder(a: int, b: int): int
    requires b > 0
  {
    a - b * Quotient(a, b)
  }

  function SecondsOf(days: int, hh: int, mm: int, sec: real): real {
    days as real * 86400.0 + hh as real * 3600.0 + mm as real * 60.0 + sec
  }

  function DaysOf(sec: real): int {
    (sec / 86400.0).Floor
  }

  function HourOf(sec: real): int {
    Remainder(Trunc(sec / 3600.0), 24)
  }

  function MinuteOf(sec: real): int {
    Remainder(Trunc(sec / 60.0), 60)
  }

  function SecondOf(sec: real): real {
    sec - 60.0 * (sec / 60.0).Floor as real
  }

  /** The day count at 226. */
  function CountOf(week: int, days: int): int {
    Trunc((7 * week) as real + days as real + 2444245.0) + 1537
  }

  /** date2gps (198-221). */
  function GpsOf(t: DateTime): GpsTime
    requires 1 <= t.date.m <= 12
  {
    var de := DayNumber(t.date);
    GpsTime(Quotient(de, 7), SecondsOf(Remainder(de, 7), t.hh, t.mm, t.sec))
  }

  /** gps2date (223-240). */
  function DateTimeOf(g: GpsTime): DateTime {
    DateTime(DateOf(CountOf(g.week, DaysOf(g.sec))), HourOf(g.sec), MinuteOf(g.sec), SecondOf(g.sec))
  }

  /** A time of day and a number of whole days come apart again. */
  lemma TimeParts(k: int, hh: int, mm: int, x: real)
    requires 0 <= k && 0 <= hh < 24 && 0 <= mm < 60 && 0.0 <= x < 60.0
    ensures var sec := SecondsOf(k, hh, mm, x);
            && DaysOf(sec) == k && HourOf(sec) == hh && MinuteOf(sec) == mm && SecondOf(sec) == x
            && 0.0 <= sec && (k < 7 ==> sec < 604800.0)
  {
    var sec := SecondsOf(k, hh, mm, x);
    FloorIs(sec / 86400.0, k);
    FloorIs(sec / 3600.0, 24 * k + hh);
    FloorIs(sec / 60.0, 1440 * k + 60 * hh + mm);
  }

  lemma OriginShift(week: int, k: int)
    requires week >= 0 && k >= 0
    ensures CountOf(week, k) == 7 * week + k + 2445782
  {
    var n := 7 * week + k + 2444245;
    assert (7 * week) as real + k as real + 2444245.0 == n as real;
  }

  /** Weeks and days of the week. */
  lemma WeekSplit(n: int, week: int, k: int)
    requires n >= 0
    ensures 0 <= Quotient(n, 7) && 0 <= Remainder(n, 7) < 7 && n == 7 * Quotient(n, 7) + Remainder(n, 7)
    ensures week >= 0 && 0 <= k < 7 && n == 7 * week + k ==> Quotient(n, 7) == week && Remainder(n, 7) == k
  {
  }

  /** Converting a date and time to GPS time and back gives the same date and time; the GPS time lies inside its
      week. */
  lemma DateRoundTrip(t: DateTime)
    requires ValidDate(t.date) && ValidTime(t)
    ensures DateTimeOf(GpsOf(t)) == t
    ensures GpsOf(t).week >= 0 && 0.0 <= GpsOf(t).sec < 604800.0
  {
    hide DayNumber, DateOf, ValidDate, SecondsOf, DaysOf, HourOf, MinuteOf, SecondOf, CountOf, Quotient, Remainder;
    ValidRanges(t.date);
    NumberIsNatural(t.date);
    var n := DayNumber(t.date);
    WeekSplit(n, 0, 0);
    TimeParts(Remainder(n, 7), t.hh, t.mm, t.sec);
    OriginShift(Quotient(n, 7), Remainder(n, 7));
    DateOfDayNumber(t.date);
  }

  /** Converting a GPS time to a date and back gives the same GPS time: it falls on the day that many days after
      6 January 1980. */
  lemma GpsRoundTrip(g: GpsTime)
    requires g.week >= 0 && 0.0 <= g.sec < 604800.0
    ensures var t := DateTimeOf(g);
            ValidDate(t.date) && ValidTime(t) && GpsOf(t) == g &&
            t.date == Day(7 * g.week + DaysOf(g.sec))
  {
    hide DayNumber, DateOf, MonthLength, Day, ValidDate, SecondsOf, DaysOf, HourOf, MinuteOf, SecondOf, CountOf,
         Quotient, Remainder;
    var k, hh, mm, x := Clock(g.sec);
    TimeParts(k, hh, mm, x);
    var n := 7 * g.week + k;
    DayNumberOfDay(n);
    DateOfDayNumber(Day(n));
    OriginShift(g.week, k);
    WeekSplit(n, g.week, k);
  }

  lemma Clock(sec: real) returns (k: int, hh: int, mm: int, x: real)
    requires 0.0 <= sec < 604800.0
    ensures 0 <= k < 7 && 0 <= hh < 24 && 0 <= mm < 60 && 0.0 <= x < 60.0
    ensures sec == SecondsOf(k, hh, mm, x)
  {
    k := (sec / 86400.0).Floor;
    var r := sec - k as real * 86400.0;
    hh := (r / 3600.0).Floor;
    var s := r - hh as real * 3600.0;
    mm := (s / 60.0).Floor;
    x := s - mm as real * 60.0;
  }

  /** The same time on the next day is 86400 seconds later, across months, years and weeks. */
  lemma DaysAreConsecutive(t: DateTime)
    requires ValidDate(t.date) && ValidTime(t)
    ensures ValidDate(NextDay(t.date))
    ensures TotalSeconds(GpsOf(t.(date := NextDay(t.date)))) == TotalSeconds(GpsOf(t)) + 86400.0
  {
    hide DayNumber, MonthLength, NextDay, Quotient, Remainder;
    NextDayNumber(t.date);
    NumberIsNatural(t.date);
    WeekAndDay(DayNumber(t.date));
    WeekAndDay(DayNumber(t.date) + 1);
  }

  lemma WeekAndDay(n: int)
    requires n >= 0
    ensures Quotient(n, 7) as real * 604800.0 + Remainder(n, 7) as real * 86400.0 == n as real * 86400.0
  {
    assert n == 7 * Quotient(n, 7) + Remainder(n, 7);
  }

  /** The same minute and second an hour on. */
  function NextHour(t: DateTime): DateTime {
    if t.hh < 23 then t.(hh := t.hh + 1) else t.(date := NextDay(t.date), hh := 0)
  }

  /** The same second a minute on. */
  function NextMinute(t: DateTime): DateTime {
    if t.mm < 59 then t.(mm := t.mm + 1) else NextHour(t).(mm := 0)
  }

  /** Within a day, hours, minutes and seconds count for what they are. */
  lemma WithinDay(t: DateTime, hours: int, minutes: int, x: real)
    requires 1 <= t.date.m <= 12
    ensures TotalSeconds(GpsOf(t.(hh := t.hh + hours, mm := t.mm + minutes, sec := t.sec + x)))
         == TotalSeconds(GpsOf(t)) + 3600.0 * hours as real + 60.0 * minutes as real + x
  {
    hide DayNumber, Quotient, Remainder;
  }

  /** An hour on is 3600 seconds later, into the next day, month, year and week too. */
  lemma HoursAreConsecutive(t: DateTime)
    requires ValidDate(t.date) && ValidTime(t)
    ensures ValidDate(NextHour(t).date) && ValidTime(NextHour(t))
    ensures TotalSeconds(GpsOf(NextHour(t))) == TotalSeconds(GpsOf(t)) + 3600.0
  {
    hide DayNumber, MonthLength, NextDay, GpsOf, ValidDate;
    ValidRanges(t.date);
    if t.hh < 23 {
      WithinDay(t, 1, 0, 0.0);
      assert t.(hh := t.hh + 1, mm := t.mm + 0, sec := t.sec + 0.0) == NextHour(t);
    } else {
      var early := t.(hh := 0);
      DaysAreConsecutive(early);
      WithinDay(early, 23, 0, 0.0);
      assert early.(hh := 0 + 23, mm := t.mm + 0, sec := t.sec + 0.0) == t;
      assert early.(date := NextDay(t.date)) == NextHour(t);
    }
  }

  /** A minute on is 60 seconds later, into the next hour, day, month, year and week too. */
  lemma MinutesAreConsecutive(t: DateTime)
    requires ValidDate(t.date) && ValidTime(t)
    ensures ValidDate(NextMinute(t).date) && ValidTime(NextMinute(t))
    ensures TotalSeconds(GpsOf(NextMinute(t))) == TotalSeconds(GpsOf(t)) + 60.0
  {
    hide DayNumber, MonthLength, NextDay, GpsOf, ValidDate, NextHour;
    ValidRanges(t.date);
    if t.mm < 59 {
      WithinDay(t, 0, 1, 0.0);
      assert t.(hh := t.hh + 0, mm := t.mm + 1, sec := t.sec + 0.0) == NextMinute(t);
    } else {
      var early := t.(mm := 0);
      HoursAreConsecutive(early);
      WithinDay(early, 0, 59, 0.0);
      assert early.(hh := t.hh + 0, mm := 0 + 59, sec := t.sec + 0.0) == t;
      HourKeepsMinute(t);
    }
  }

  lemma HourKeepsMinute(t: DateTime)
    ensures NextHour(t.(mm := 0)) == NextHour(t).(mm := 0)
  {
  }

  /** x seconds on in the same minute is x seconds later. */
  lemma SecondsCount(t: DateTime, x: real)
    requires ValidDate(t.date) && ValidTime(t) && 0.0 <= t.sec + x < 60.0
    ensures TotalSeconds(GpsOf(t.(sec := t.sec + x))) == TotalSeconds(GpsOf(t)) + x
  {
    hide DayNumber, MonthLength, GpsOf, ValidDate;
    ValidRanges(t.date);
    WithinDay(t, 0, 0, x);
    assert t.(hh := t.hh + 0, mm := t.mm + 0, sec := t.sec + x) == t.(sec := t.sec + x);
  }

  /** GPS time begins with 6 January 1980, and half an hour past noon that day is second 45000 of week 0. */
  lemma FirstDay()
    ensures GpsOf(DateTime(Date(1980, 1, 6), 0, 0, 0.0)) == GpsTime(0, 0.0)
    ensures GpsOf(DateTime(Date(1980, 1, 6), 12, 30, 0.0)) == GpsTime(0, 45000.0)
  {
  }

  /** 2100 has no 29 February; under the every-fourth-year rule the code counts one, so its day count is one
      more than the calendar's from 1 March 2100 on. */
  lemma Year2100()
    ensures ValidDate(Date(2100, 2, 29))
    ensures DayNumber(Date(2100, 3, 1)) == DayNumber(Date(2100, 2, 28)) + 2
  {
  }
}

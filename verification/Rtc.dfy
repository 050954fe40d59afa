/** The calendar clock. */
module Rtc {
  import opened Division

  datatype Date = Date(sec: int, min: int, hour: int, day: int, mon: int, year: int)

  // ---- The calendar ----

  predicate IsLeap(year: int) {
    if year % 400 == 0 then true
    else if year % 100 == 0 then false
    else year % 4 == 0
  }

  function Table(): seq<int> {
    [31, 28, 31, 30, 31, 30, 31, 31, 30, 31, 30, 31]
  }

  function DaysIn(mon: int, year: int): int
    requires 1 <= mon <= 12
  {
    if mon != 2 then Table()[mon - 1] else if IsLeap(year) then 29 else 28
  }

  /** The clock may start on day 0 of a month. */
  predicate Sane(d: Date) {
    0 <= d.sec < 60 && 0 <= d.min < 60 && 0 <= d.hour < 24 && 1 <= d.mon <= 12 && 0 <= d.day <= DaysIn(d.mon, d.year)
  }

  predicate Valid(d: Date) {
    Sane(d) && d.day > 0
  }

  /** One more second. */
  function Tick(d: Date): Date
    requires 1 <= d.mon <= 12
  {
    if d.sec + 1 != 60 then d.(sec := d.sec + 1)
    else if d.min + 1 != 60 then d.(sec := 0, min := d.min + 1)
    else if d.hour + 1 != 24 then d.(sec := 0, min := 0, hour := d.hour + 1)
    else NextDay(d.(sec := 0, min := 0, hour := 0))
  }

  function NextDay(d: Date): Date
    requires 1 <= d.mon <= 12
  {
    if d.day + 1 != DaysIn(d.mon, d.year) + 1 then d.(day := d.day + 1)
    else if d.mon + 1 != 13 then d.(day := 1, mon := d.mon + 1)
    else d.(day := 1, mon := 1, year := d.year + 1)
  }

  // ---- The Gregorian count ----

  /** Days of the years before a year, counted from year 0: 365 each, and one more for
      every fourth, but not for every hundredth, but for every four-hundredth. */
  function YearsBefore(year: int): int {
    365 * year + Fourths(year - 1) - Hundredths(year - 1) + FourHundredths(year - 1)
  }

  function Fourths(y: int): int {
    y / 4
  }

  function Hundredths(y: int): int {
    y / 100
  }

  function FourHundredths(y: int): int {
    y / 400
  }

  /** Days of the months before a month, by arithmetic alone: from March on the lengths
      repeat every five months with 153 days, and a leap day comes before. */
  function MonthsBefore(mon: int, year: int): int {
    if mon <= 2 then 31 * (mon - 1)
    else (153 * (mon - 3) + 2) / 5 + 59 + (YearsBefore(year + 1) - YearsBefore(year) - 365)
  }

  function DayNumber(d: Date): int
    requires 1 <= d.mon <= 12
  {
    YearsBefore(d.year) + MonthsBefore(d.mon, d.year) + d.day - 1
  }

  function Seconds(d: Date): int
    requires 1 <= d.mon <= 12
  {
    86400 * DayNumber(d) + 3600 * d.hour + 60 * d.min + d.sec
  }

  lemma LeapYearCounts(year: int)
    ensures YearsBefore(year + 1) == YearsBefore(year) + if IsLeap(year) then 366 else 365
  {
    hide Fourths, Hundredths, FourHundredths;
    FourthsNext(year);
    HundredthsNext(year);
    FourHundredthsNext(year);
    LeapCycle(year);
  }

  lemma FourthsNext(y: int)
    ensures Fourths(y) == Fourths(y - 1) + if y % 4 == 0 then 1 else 0
  {
  }

  lemma HundredthsNext(y: int)
    ensures Hundredths(y) == Hundredths(y - 1) + if y % 100 == 0 then 1 else 0
  {
  }

  lemma FourHundredthsNext(y: int)
    ensures FourHundredths(y) == FourHundredths(y - 1) + if y % 400 == 0 then 1 else 0
  {
  }

  lemma LeapCycle(y: int)
    ensures y % 400 == 0 ==> y % 100 == 0
    ensures y % 100 == 0 ==> y % 4 == 0
  {
  }

  /** The table gives every month the length that the count gives it. */
  lemma MonthLength(mon: int, year: int)
    requires 1 <= mon <= 12
    ensures DaysIn(mon, year) == MonthsBefore(mon + 1, year) - MonthsBefore(mon, year)
  {
    hide IsLeap, YearsBefore;
    LeapYearCounts(year);
  }

  lemma YearLength(year: int)
    ensures MonthsBefore(13, year) == YearsBefore(year + 1) - YearsBefore(year)
    ensures MonthsBefore(13, year) == if IsLeap(year) then 366 else 365
  {
    hide IsLeap, YearsBefore;
    LeapYearCounts(year);
  }

  lemma NextDayCounts(d: Date)
    requires Sane(d)
    ensures Sane(NextDay(d)) && NextDay(d).day > 0 && DayNumber(NextDay(d)) == DayNumber(d) + 1
  {
    hide IsLeap, YearsBefore, MonthsBefore;
    MonthLength(d.mon, d.year);
    YearLength(d.year);
    FirstMonth(d.year + 1);
  }

  lemma FirstMonth(year: int)
    ensures MonthsBefore(1, year) == 0
  {
  }

  /** A tick takes a valid date to a valid date, exactly one second later in the
      Gregorian count. */
  lemma TickAddsOne(d: Date)
    requires Sane(d)
    ensures Sane(Tick(d)) && (Valid(d) ==> Valid(Tick(d))) && Seconds(Tick(d)) == Seconds(d) + 1
  {
    hide IsLeap, DayNumber, NextDay;
    SameDay(d);
    NextDayCounts(d.(sec := 0, min := 0, hour := 0));
    NextDayIsMidnight(d.(sec := 0, min := 0, hour := 0));
  }

  lemma SameDay(d: Date)
    requires 1 <= d.mon <= 12
    ensures forall s, m, h :: DayNumber(d.(sec := s, min := m, hour := h)) == DayNumber(d)
  {
  }

  lemma NextDayIsMidnight(d: Date)
    requires 1 <= d.mon <= 12
    ensures var e := NextDay(d); e.sec == d.sec && e.min == d.min && e.hour == d.hour
  {
  }

  function Ticks(d: Date, n: nat): (e: Date)
    requires Sane(d)
    ensures Sane(e)
  {
    if n == 0 then d else
      var e := Ticks(d, n - 1);
      TickAddsOne(e);
      Tick(e)
  }

  /** n ticks add n seconds, across months, leap days and the century rules. */
  lemma {:induction false} TicksAdd(d: Date, n: nat)
    requires Sane(d)
    ensures Seconds(Ticks(d, n)) == Seconds(d) + n && (Valid(d) ==> Valid(Ticks(d, n)))
  {
    hide Tick, Seconds, Sane;
    if n > 0 {
      TicksAdd(d, n - 1);
      TickAddsOne(Ticks(d, n - 1));
    }
  }

  // ---- The count names dates uniquely ----

  lemma {:induction false} MonthsGrow(m: int, k: int, year: int)
    requires 1 <= m < k <= 13
    ensures MonthsBefore(m, year) + DaysIn(m, year) <= MonthsBefore(k, year)
    decreases k
  {
    hide IsLeap, MonthsBefore, DaysIn;
    MonthLength(k - 1, year);
    if m + 1 < k {
      MonthsGrow(m, k - 1, year);
      DaysInRange(k - 1, year);
    }
  }

  lemma DaysInRange(mon: int, year: int)
    requires 1 <= mon <= 12
    ensures 28 <= DaysIn(mon, year) <= 31
  {
    hide IsLeap;
  }

  lemma {:induction false} YearsGrow(y: int, z: int)
    requires y < z
    ensures YearsBefore(y) + MonthsBefore(13, y) <= YearsBefore(z)
    decreases z - y
  {
    hide YearsBefore, MonthsBefore, IsLeap;
    LeapYearCounts(z - 1);
    YearLength(z - 1);
    LeapYearCounts(y);
    YearLength(y);
    if y + 1 < z { YearsGrow(y, z - 1); }
  }

  /** Later years, months and days have larger day numbers. */
  lemma DaysOrdered(d: Date, e: Date)
    requires Valid(d) && Valid(e)
    requires d.year < e.year || (d.year == e.year && (d.mon < e.mon || (d.mon == e.mon && d.day < e.day)))
    ensures DayNumber(d) < DayNumber(e)
  {
    hide YearsBefore, IsLeap, MonthsBefore, DaysIn;
    MonthsFrom(e.mon, e.year);
    if d.year < e.year {
      MonthsGrow(d.mon, 13, d.year);
      YearsGrow(d.year, e.year);
    } else if d.mon < e.mon {
      MonthsGrow(d.mon, e.mon, d.year);
    }
  }

  lemma {:induction false} MonthsFrom(mon: int, year: int)
    requires 1 <= mon <= 13
    ensures MonthsBefore(mon, year) >= 0
    decreases mon
  {
    hide IsLeap, MonthsBefore;
    FirstMonth(year);
    if mon > 1 {
      MonthsFrom(mon - 1, year);
      MonthLength(mon - 1, year);
    }
  }

  /** So two valid dates with the same count are the same: the clock shows the one date
      that lies so many seconds after the one it was set to. */
  lemma SameCountSameDate(d: Date, e: Date)
    requires Valid(d) && Valid(e) && Seconds(d) == Seconds(e)
    ensures d == e
  {
    hide DayNumber, DaysIn;
    if d.year < e.year || (d.year == e.year && (d.mon < e.mon || (d.mon == e.mon && d.day < e.day))) {
      DaysOrdered(d, e);
    } else if e.year < d.year || (d.year == e.year && (e.mon < d.mon || (d.mon == e.mon && e.day < d.day))) {
      DaysOrdered(e, d);
    } else {
      SameDay(e);
      assert DayNumber(d) == DayNumber(e) by { assert d.(sec := e.sec, min := e.min, hour := e.hour) == e; SameDay(d); }
    }
  }

  lemma ClockShowsTheDate(d: Date, e: Date, n: nat)
    requires Valid(d) && Valid(e)
    ensures Ticks(d, n) == e <==> Seconds(e) == Seconds(d) + n
  {
    hide Seconds, Ticks;
    TicksAdd(d, n);
    if Seconds(e) == Seconds(d) + n { SameCountSameDate(Ticks(d, n), e); }
  }

  // ---- The date it starts with ----

  /** The clock is reset to January 1980, but its day of the month is left at 0. */
  function Reset(): Date {
    Date(0, 0, 0, 0, 1, 1980)
  }

  /** The time of day, n seconds into day 0. */
  function DayZero(n: nat): Date {
    Reset().(sec := n % 60, min := n / 60 % 60, hour := n / 3600)
  }

  lemma DayZeroNext(n: nat)
    requires n + 1 < 86400
    ensures Tick(DayZero(n)) == DayZero(n + 1)
  {
    TimeOfDay(n);
    TimeOfDay(n + 1);
    var k, s := n / 60, n % 60;
    if s < 59 {
      ModUnique(n + 1, k, s + 1, 60);
    } else {
      ModUnique(n + 1, k + 1, 0, 60);
      if k % 60 < 59 { ModUnique(k + 1, k / 60, k % 60 + 1, 60); } else { ModUnique(k + 1, k / 60 + 1, 0, 60); }
    }
  }

  lemma TimeOfDay(n: nat)
    ensures n / 3600 == n / 60 / 60
  {
    var k := n / 60;
    ModUnique(n, k / 60, 60 * (k % 60) + n % 60, 3600);
  }

  lemma {:induction false} FirstDay(n: nat)
    requires n < 86400
    ensures Ticks(Reset(), n) == DayZero(n)
  {
    hide Tick, Sane;
    if n > 0 {
      hide DayZero;
      FirstDay(n - 1);
      DayZeroNext(n - 1);
    }
  }

  /** So it shows no date at all for a day and then starts at the first of January. */
  lemma ResetIsADayLate(n: nat)
    ensures n < 86400 ==> Ticks(Reset(), n).day == 0
    ensures n == 86400 ==> Ticks(Reset(), n) == Date(0, 0, 0, 1, 1, 1980)
    ensures n > 86400 ==> Seconds(Ticks(Reset(), n)) == Seconds(Date(0, 0, 0, 1, 1, 1980)) + (n - 86400)
    ensures Valid(Ticks(Reset(), n)) <==> n >= 86400
  {
    hide Ticks, Seconds;
    if n < 86400 {
      FirstDay(n);
    } else {
      var day := n - (n - 86400);
      LateStart(day);
      TicksSplit(Reset(), day, n - day);
      TicksAdd(Date(0, 0, 0, 1, 1, 1980), n - day);
      TicksNothing(Date(0, 0, 0, 1, 1, 1980));
    }
  }

  lemma TicksNothing(d: Date)
    requires Sane(d)
    ensures Ticks(d, 0) == d
  {
  }

  lemma LateStart(n: nat)
    requires n == 86400
    ensures Ticks(Reset(), n) == Date(0, 0, 0, 1, 1, 1980)
  {
    hide Sane, Tick;
    FirstDay(n - 1);
    LastOfDayZero(n - 1);
  }

  lemma LastOfDayZero(n: nat)
    requires n == 86399
    ensures Tick(DayZero(n)) == Date(0, 0, 0, 1, 1, 1980)
  {
    assert n % 60 == 59 && n / 60 % 60 == 59 && n / 3600 == 23;
  }

  lemma {:induction false} TicksSplit(d: Date, n: nat, k: nat)
    requires Sane(d)
    ensures Ticks(d, n + k) == Ticks(Ticks(d, n), k)
    decreases k
  {
    hide Tick, Sane;
    if k > 0 { TicksSplit(d, n, k - 1); }
  }

  // ---- In place ----

  class Clock {
    var sec: int
    var min: int
    var hour: int
    var day: int
    var mon: int
    var year: int

    function State(): Date
      reads this
    {
      Date(sec, min, hour, day, mon, year)
    }

    /** rtc_tick */
    method Second()
      requires 1 <= mon <= 12
      modifies this
      ensures State() == Tick(old(State()))
    {
      hide DaysIn;
      sec := sec + 1;
      if sec == 60 {
        sec := 0;
        min := min + 1;
        if min == 60 {
          min := 0;
          hour := hour + 1;
          if hour == 24 {
            hour := 0;
            day := day + 1;
            if day == DaysIn(mon, year) + 1 {
              day := 1;
              mon := mon + 1;
              if mon == 13 {
                mon := 1;
                year := year + 1;
              }
            }
          }
        }
      }
    }
  }
}

/**
 * Proleptic Gregorian calendar arithmetic on day numbers.
 *
 * A day number counts days from 1970-01-01 (day number 0, a Thursday).
 * This is what the date library computes with when the charts page and the
 * tracker step through days (subDays, addDays, startOfWeek, startOfMonth).
 */
module Calendar {

  datatype Date = Date(year: int, month: int, day: int)

  predicate IsLeapYear(y: int) {
    y % 4 == 0 && (y % 100 != 0 || y % 400 == 0)
  }

  function DaysInYear(y: int): int {
    if IsLeapYear(y) then 366 else 365
  }

  function DaysInMonth(y: int, m: int): (n: int)
    requires 1 <= m <= 12
    ensures 28 <= n <= 31
    ensures m == 2 ==> (n == 29 <==> IsLeapYear(y))
  {
    if m == 2 then (if IsLeapYear(y) then 29 else 28)
    else if m == 4 || m == 6 || m == 9 || m == 11 then 30
    else 31
  }

  predicate ValidDate(dt: Date) {
    1 <= dt.month <= 12 && 1 <= dt.day <= DaysInMonth(dt.year, dt.month)
  }

  /** Days of year y that lie before the first of month m (m == 13 gives the whole year). */
  function DaysBeforeMonth(y: int, m: int): (n: int)
    requires 1 <= m <= 13
    ensures m == 13 ==> n == DaysInYear(y)
    ensures 0 <= n <= DaysInYear(y)
  {
    var leap := if IsLeapYear(y) && m > 2 then 1 else 0;
    leap + (if m == 1 then 0 else if m == 2 then 31 else if m == 3 then 59
            else if m == 4 then 90 else if m == 5 then 120 else if m == 6 then 151
            else if m == 7 then 181 else if m == 8 then 212 else if m == 9 then 243
            else if m == 10 then 273 else if m == 11 then 304 else if m == 12 then 334
            else 365)
  }

  lemma MonthStep(y: int, m: int)
    requires 1 <= m <= 12
    ensures DaysBeforeMonth(y, m) + DaysInMonth(y, m) == DaysBeforeMonth(y, m + 1)
  {
  }

  /** Days from 0001-01-01 to the first of January of year y. */
  function DaysBeforeYear(y: int): int {
    var k := y - 1;
    365 * k + k / 4 - k / 100 + k / 400
  }

  /** DaysBeforeYear(1970): the day number of 0001-01-01 is -EpochOffset. */
  const EpochOffset: int := 719162

  function DayNumber(dt: Date): int
    requires 1 <= dt.month <= 12
  {
    DaysBeforeYear(dt.year) - EpochOffset + DaysBeforeMonth(dt.year, dt.month) + dt.day - 1
  }

  lemma DivStep(k: int, c: int)
    requires c == 4 || c == 100 || c == 400
    ensures (k + 1) / c == k / c + (if (k + 1) % c == 0 then 1 else 0)
  {
    if c == 4 {
      assert (k + 1) / 4 == k / 4 + (if (k + 1) % 4 == 0 then 1 else 0);
    } else if c == 100 {
      assert (k + 1) / 100 == k / 100 + (if (k + 1) % 100 == 0 then 1 else 0);
    } else {
      assert (k + 1) / 400 == k / 400 + (if (k + 1) % 400 == 0 then 1 else 0);
    }
  }

  lemma Mod400(y: int)
    requires y % 400 == 0
    ensures y % 100 == 0
  {
    var q := y / 400;
    assert y == 100 * (4 * q);
  }

  lemma Mod100(y: int)
    requires y % 100 == 0
    ensures y % 4 == 0
  {
    var q := y / 100;
    assert y == 4 * (25 * q);
  }

  /** The leap day of year y is what the three divisions gain between y - 1 and y. */
  lemma LeapDivisions(y: int)
    ensures DaysInYear(y) - 365 == (y / 4 - (y - 1) / 4) - (y / 100 - (y - 1) / 100) + (y / 400 - (y - 1) / 400)
  {
    DivStep(y - 1, 4);
    DivStep(y - 1, 100);
    DivStep(y - 1, 400);
    if y % 400 == 0 {
      Mod400(y);
      Mod100(y);
    } else if y % 100 == 0 {
      Mod100(y);
    }
  }

  lemma YearStep(y: int)
    ensures DaysBeforeYear(y + 1) == DaysBeforeYear(y) + DaysInYear(y)
  {
    LeapDivisions(y);
  }

  lemma CycleStart(q: int)
    ensures DaysBeforeYear(1 + 400 * q) == 146097 * q
  {
    var k := 400 * q;
    assert k / 4 == 100 * q by { assert k == 4 * (100 * q) + 0; }
    assert k / 100 == 4 * q by { assert k == 100 * (4 * q) + 0; }
    assert k / 400 == q by { assert k == 400 * q + 0; }
  }

  /** DaysBeforeYear is strictly increasing, by at least a year's length per year. */
  lemma {:induction false} YearsIncrease(y1: int, y2: int)
    requires y1 < y2
    ensures DaysBeforeYear(y1) + DaysInYear(y1) <= DaysBeforeYear(y2)
    decreases y2 - y1
  {
    YearStep(y1);
    if y1 + 1 < y2 {
      YearsIncrease(y1 + 1, y2);
    }
  }

  /** The year whose days contain t (days since 0001-01-01), searched upward from y. */
  function FindYear(t: int, y: int, hi: int): (r: int)
    requires y < hi
    requires DaysBeforeYear(y) <= t < DaysBeforeYear(hi)
    ensures y <= r < hi
    ensures DaysBeforeYear(r) <= t < DaysBeforeYear(r) + DaysInYear(r)
    decreases hi - y
  {
    YearStep(y);
    if t < DaysBeforeYear(y + 1) then y else FindYear(t, y + 1, hi)
  }

  /** The month of year y holding day-of-year doy (0-based), searched upward from m. */
  function FindMonth(y: int, doy: int, m: int): (r: int)
    requires 1 <= m <= 12
    requires DaysBeforeMonth(y, m) <= doy < DaysInYear(y)
    ensures m <= r <= 12
    ensures DaysBeforeMonth(y, r) <= doy < DaysBeforeMonth(y, r) + DaysInMonth(y, r)
    decreases 12 - m
  {
    if doy < DaysBeforeMonth(y, m + 1) then m else FindMonth(y, doy, m + 1)
  }

  /** The calendar date of day number n. */
  function FromDayNumber(n: int): (dt: Date)
    ensures ValidDate(dt)
    ensures DayNumber(dt) == n
  {
    var t := n + EpochOffset;
    var q := t / 146097;
    CycleStart(q);
    CycleStart(q + 1);
    var y := FindYear(t, 1 + 400 * q, 1 + 400 * (q + 1));
    var doy := t - DaysBeforeYear(y);
    var m := FindMonth(y, doy, 1);
    Date(y, m, doy - DaysBeforeMonth(y, m) + 1)
  }

  /** Calendar order of dates: by year, then month, then day. */
  predicate Before(a: Date, b: Date) {
    a.year < b.year
    || (a.year == b.year && a.month < b.month)
    || (a.year == b.year && a.month == b.month && a.day < b.day)
  }

  /** Day numbers follow calendar order strictly. */
  lemma {:induction false} DayNumberMonotone(a: Date, b: Date)
    requires ValidDate(a) && ValidDate(b)
    requires Before(a, b)
    ensures DayNumber(a) < DayNumber(b)
  {
    if a.year < b.year {
      YearsIncrease(a.year, b.year);
      assert DaysBeforeMonth(a.year, a.month) + a.day - 1 < DaysInYear(a.year) by {
        assert DaysBeforeMonth(a.year, a.month + 1) <= DaysBeforeMonth(a.year, 13);
      }
    } else if a.month < b.month {
      MonthsIncrease(a.year, a.month + 1, b.month);
    }
  }

  lemma {:induction false} MonthsIncrease(y: int, m1: int, m2: int)
    requires 1 <= m1 <= m2 <= 13
    ensures DaysBeforeMonth(y, m1) <= DaysBeforeMonth(y, m2)
  {
  }

  /** A valid date is recovered from its day number. */
  lemma RoundTripDate(dt: Date)
    requires ValidDate(dt)
    ensures FromDayNumber(DayNumber(dt)) == dt
  {
    var e := FromDayNumber(DayNumber(dt));
    if Before(e, dt) {
      DayNumberMonotone(e, dt);
    } else if Before(dt, e) {
      DayNumberMonotone(dt, e);
    }
  }

  /** Two valid dates share a day number exactly when they are the same date. */
  lemma DayNumberInjective(a: Date, b: Date)
    requires ValidDate(a) && ValidDate(b)
    ensures DayNumber(a) == DayNumber(b) <==> a == b
  {
    if DayNumber(a) == DayNumber(b) {
      RoundTripDate(a);
      RoundTripDate(b);
    }
  }

  /** Day of the week, 0 for Monday through 6 for Sunday. */
  function Weekday(n: int): (w: int)
    ensures 0 <= w < 7
  {
    (n + 3) % 7
  }

  /** The Monday on or before day n. */
  function StartOfWeek(n: int): (r: int)
    ensures Weekday(r) == 0
    ensures r <= n < r + 7
    ensures n - r == Weekday(n)
  {
    n - (n + 3) % 7
  }

  /** The first of the month that day n belongs to. */
  function StartOfMonth(n: int): (r: int)
    ensures FromDayNumber(r) == Date(FromDayNumber(n).year, FromDayNumber(n).month, 1)
    ensures r <= n && n - r == FromDayNumber(n).day - 1
  {
    var dt := FromDayNumber(n);
    var first := Date(dt.year, dt.month, 1);
    RoundTripDate(first);
    DayNumber(first)
  }

  /**
   * Number of days of the month that day n belongs to: the day-of-month of
   * day 0 of the following month, that is, of the last day of this one.
   */
  function MonthLength(n: int): (len: int)
    ensures 28 <= len <= 31
    ensures FromDayNumber(n).day <= len
  {
    var dt := FromDayNumber(n);
    DaysInMonth(dt.year, dt.month)
  }

  /** The last day of a date's month is a date, and the day after it is a first. */
  lemma LastOfMonth(dt: Date)
    requires ValidDate(dt)
    ensures var last := Date(dt.year, dt.month, DaysInMonth(dt.year, dt.month));
      FromDayNumber(DayNumber(last)) == last && FromDayNumber(DayNumber(last) + 1).day == 1
  {
    var last := Date(dt.year, dt.month, DaysInMonth(dt.year, dt.month));
    RoundTripDate(last);
    NextDateIsSuccessor(DayNumber(last));
    assert Successor(last).day == 1;
  }

  /** The month of day n ends after MonthLength(n) days: the next day is a first. */
  lemma MonthLengthEndsMonth(n: int)
    ensures FromDayNumber(StartOfMonth(n) + MonthLength(n) - 1)
         == Date(FromDayNumber(n).year, FromDayNumber(n).month, MonthLength(n))
    ensures FromDayNumber(StartOfMonth(n) + MonthLength(n)).day == 1
  {
    var dt := FromDayNumber(n);
    var last := Date(dt.year, dt.month, DaysInMonth(dt.year, dt.month));
    LastOfMonth(dt);
    var k := StartOfMonth(n) + MonthLength(n) - 1;
    assert k == DayNumber(last);
    assert FromDayNumber(k) == last;
    assert FromDayNumber(k + 1).day == 1;
  }

  /** The calendar date immediately after dt, rolling over month and year ends. */
  function Successor(dt: Date): (r: Date)
    requires ValidDate(dt)
    ensures ValidDate(r)
    ensures DayNumber(r) == DayNumber(dt) + 1
  {
    if dt.day < DaysInMonth(dt.year, dt.month) then
      Date(dt.year, dt.month, dt.day + 1)
    else if dt.month < 12 then
      MonthStep(dt.year, dt.month);
      Date(dt.year, dt.month + 1, 1)
    else
      YearStep(dt.year);
      Date(dt.year + 1, 1, 1)
  }

  /** Adding one day to a day number moves to the calendar successor. */
  lemma NextDateIsSuccessor(n: int)
    ensures FromDayNumber(n + 1) == Successor(FromDayNumber(n))
  {
    var s := Successor(FromDayNumber(n));
    assert DayNumber(s) == n + 1;
    RoundTripDate(s);
  }

  /** Subtracting one day moves to the calendar predecessor. */
  lemma PreviousDateIsPredecessor(n: int)
    ensures Successor(FromDayNumber(n - 1)) == FromDayNumber(n)
  {
    NextDateIsSuccessor(n - 1);
  }

  /** Two days share a month bucket exactly when they have the same year and month. */
  lemma SameMonthIff(a: int, b: int)
    ensures StartOfMonth(a) == StartOfMonth(b)
        <==> (FromDayNumber(a).year == FromDayNumber(b).year
              && FromDayNumber(a).month == FromDayNumber(b).month)
  {
  }

  /**
   * Two days share a week bucket exactly when the later one comes no further
   * after the earlier one than the earlier one's Sunday.
   */
  lemma SameWeekIff(a: int, b: int)
    ensures StartOfWeek(a) == StartOfWeek(b)
        <==> (a <= b ==> b - a <= 6 - Weekday(a)) && (b <= a ==> a - b <= 6 - Weekday(b))
  {
    if a <= b && b - a <= 6 - Weekday(a) {
      StartOfWeekUnique(b, StartOfWeek(a));
    }
    if b <= a && a - b <= 6 - Weekday(b) {
      StartOfWeekUnique(a, StartOfWeek(b));
    }
  }

  /** The Monday on or before n is the only Monday in the seven days ending at n. */
  lemma StartOfWeekUnique(n: int, w: int)
    requires Weekday(w) == 0 && w <= n < w + 7
    ensures w == StartOfWeek(n)
  {
  }

  /** Examples: 2024-01-01 and 2024-01-08 are Mondays, a week apart; 1970-01-01 is day 0. */
  lemma CalendarExamples()
    ensures DayNumber(Date(1970, 1, 1)) == 0
    ensures DayNumber(Date(2024, 1, 1)) == 19723
    ensures Weekday(19723) == 0 && StartOfWeek(19723) == 19723
    ensures DayNumber(Date(2024, 1, 8)) == 19730 && StartOfWeek(19730) == 19730
    ensures MonthLength(DayNumber(Date(2024, 2, 10))) == 29
    ensures MonthLength(DayNumber(Date(2023, 2, 10))) == 28
  {
    RoundTripDate(Date(2024, 2, 10));
    RoundTripDate(Date(2023, 2, 10));
  }
}

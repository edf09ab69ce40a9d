/**
  Civil dates in the proleptic Gregorian calendar, as the notifier uses them:
  the YYYYMMDD key, the leap-year rule, month lengths, the year-end bank
  closure (Dec 31 to Jan 3), and the day arithmetic (previous day, next day,
  weekday) that the notifier borrows from Python's `datetime.date`.
*/
module Calendar {

  /** A date without time of day. Only `ValidDate` values stand for real dates. */
  datatype Date = Date(year: int, month: int, day: int)

  /** Gregorian rule: divisible by 400, or by 4 and not by 100. */
  predicate IsLeapYear(year: int) {
    year % 400 == 0 || (year % 4 == 0 && year % 100 != 0)
  }

  /** Length of a month; months outside 1..12 fall through to 30, as in the source. */
  function DaysInMonth(year: int, month: int): (n: int)
    ensures 28 <= n <= 31
    ensures n == 29 <==> month == 2 && IsLeapYear(year)
    ensures n == 28 <==> month == 2 && !IsLeapYear(year)
  {
    if month == 2 then (if IsLeapYear(year) then 29 else 28)
    else if month in {1, 3, 5, 7, 8, 10, 12} then 31
    else 30
  }

  /** The long months: exactly January, March, May, July, August, October and December. */
  lemma LongMonths(year: int, month: int)
    ensures DaysInMonth(year, month) == 31 <==>
      month == 1 || month == 3 || month == 5 || month == 7 || month == 8 || month == 10 || month == 12
  {
  }

  predicate ValidDate(d: Date) {
    1 <= d.month <= 12 && 1 <= d.day <= DaysInMonth(d.year, d.month)
  }

  /** The integer key YYYYMMDD under which holidays and the dedup state are stored. */
  function DateKey(d: Date): int {
    d.year * 10000 + d.month * 100 + d.day
  }

  /** Reads a YYYYMMDD key back into its three fields. */
  function KeyToDate(key: int): Date {
    Date(key / 10000, key / 100 % 100, key % 100)
  }

  /** December 31 and January 1 to 3. */
  predicate IsYearEndClosureDay(d: Date) {
    (d.month == 12 && d.day == 31) || (d.month == 1 && 1 <= d.day <= 3)
  }

  /** Chronological order of dates, which Python compares field by field. */
  predicate DateLess(a: Date, b: Date) {
    a.year < b.year
    || (a.year == b.year && a.month < b.month)
    || (a.year == b.year && a.month == b.month && a.day < b.day)
  }

  // ---------------------------------------------------------------------------
  // Day numbers. These follow the proleptic ordinal of Python's `datetime.date`
  // (0001-01-01 is day 1), which gives the weekday and the day arithmetic.
  // ---------------------------------------------------------------------------

  function DaysBeforeYear(year: int): int {
    var y := year - 1;
    y * 365 + y / 4 - y / 100 + y / 400
  }

  function DaysBeforeMonth(year: int, month: int): int {
    var leapDay := if month > 2 && IsLeapYear(year) then 1 else 0;
    leapDay +
    (if month <= 1 then 0 else if month == 2 then 31 else if month == 3 then 59
     else if month == 4 then 90 else if month == 5 then 120 else if month == 6 then 151
     else if month == 7 then 181 else if month == 8 then 212 else if month == 9 then 243
     else if month == 10 then 273 else if month == 11 then 304 else 334)
  }

  function Ordinal(d: Date): int {
    DaysBeforeYear(d.year) + DaysBeforeMonth(d.year, d.month) + d.day
  }

  /** Monday is 0 and Sunday is 6, as `date.weekday()`. */
  function Weekday(d: Date): (w: int)
    ensures 0 <= w < 7
  {
    (Ordinal(d) + 6) % 7
  }

  predicate IsWeekend(d: Date) {
    Weekday(d) >= 5
  }

  /** `d - timedelta(days=1)`. */
  function PrevDay(d: Date): Date {
    if d.day > 1 then Date(d.year, d.month, d.day - 1)
    else if d.month > 1 then Date(d.year, d.month - 1, DaysInMonth(d.year, d.month - 1))
    else Date(d.year - 1, 12, 31)
  }

  /** `d + timedelta(days=1)`. */
  function NextDay(d: Date): Date {
    if d.day < DaysInMonth(d.year, d.month) then Date(d.year, d.month, d.day + 1)
    else if d.month < 12 then Date(d.year, d.month + 1, 1)
    else Date(d.year + 1, 1, 1)
  }

  /** `d - timedelta(days=k)`, one day at a time. */
  function DaysBack(d: Date, k: nat): Date
    decreases k
  {
    if k == 0 then d else DaysBack(PrevDay(d), k - 1)
  }

  // ---------------------------------------------------------------------------
  // Lemmas
  // ---------------------------------------------------------------------------

  /** The twelve month lengths add up to the length of the year. */
  lemma YearLength(year: int)
    ensures DaysInMonth(year, 1) + DaysInMonth(year, 2) + DaysInMonth(year, 3)
          + DaysInMonth(year, 4) + DaysInMonth(year, 5) + DaysInMonth(year, 6)
          + DaysInMonth(year, 7) + DaysInMonth(year, 8) + DaysInMonth(year, 9)
          + DaysInMonth(year, 10) + DaysInMonth(year, 11) + DaysInMonth(year, 12)
          == if IsLeapYear(year) then 366 else 365
  {
  }

  /** The cumulative table and the month lengths agree. */
  lemma MonthStep(year: int, month: int)
    requires 1 <= month < 12
    ensures DaysBeforeMonth(year, month + 1) == DaysBeforeMonth(year, month) + DaysInMonth(year, month)
  {
  }

  lemma DivStep4(x: int)
    ensures x / 4 - (x - 1) / 4 == if x % 4 == 0 then 1 else 0
  {
  }

  lemma DivStep100(x: int)
    ensures x / 100 - (x - 1) / 100 == if x % 100 == 0 then 1 else 0
  {
  }

  lemma DivStep400(x: int)
    ensures x / 400 - (x - 1) / 400 == if x % 400 == 0 then 1 else 0
  {
  }

  lemma Multiple400(x: int)
    requires x % 400 == 0
    ensures x % 100 == 0 && x % 4 == 0
  {
    assert x == 400 * (x / 400);
  }

  lemma Multiple100(x: int)
    requires x % 100 == 0
    ensures x % 4 == 0
  {
    assert x == 100 * (x / 100);
  }

  /** Consecutive years start 365 or 366 days apart, by the leap-year rule. */
  lemma YearStep(year: int)
    ensures DaysBeforeYear(year + 1) == DaysBeforeYear(year) + (if IsLeapYear(year) then 366 else 365)
  {
    DivStep4(year);
    DivStep100(year);
    DivStep400(year);
    if year % 400 == 0 {
      Multiple400(year);
    } else if year % 100 == 0 {
      Multiple100(year);
    }
  }

  /** A valid date's day number lies within its own year. */
  lemma OrdinalInYear(d: Date)
    requires ValidDate(d)
    ensures DaysBeforeYear(d.year) < Ordinal(d) <= DaysBeforeYear(d.year + 1)
  {
    YearStep(d.year);
    if d.month < 12 {
      MonthStep(d.year, d.month);
      MonthsBefore(d.year, d.month + 1, 12);
    }
  }

  lemma MonthsBefore(year: int, m1: int, m2: int)
    requires 1 <= m1 <= m2 <= 12
    ensures DaysBeforeMonth(year, m1) <= DaysBeforeMonth(year, m2)
  {
  }

  lemma {:induction false} YearsBefore(y1: int, y2: int)
    requires y1 <= y2
    ensures DaysBeforeYear(y1) + 365 * (y2 - y1) <= DaysBeforeYear(y2)
    decreases y2 - y1
  {
    if y1 < y2 {
      YearStep(y1);
      YearsBefore(y1 + 1, y2);
    }
  }

  /** On valid dates, the day number orders dates chronologically. */
  lemma OrdinalOrder(a: Date, b: Date)
    requires ValidDate(a) && ValidDate(b)
    ensures DateLess(a, b) <==> Ordinal(a) < Ordinal(b)
    ensures a == b <==> Ordinal(a) == Ordinal(b)
  {
    OrdinalInYear(a);
    OrdinalInYear(b);
    if a.year < b.year {
      YearsBefore(a.year + 1, b.year);
    } else if b.year < a.year {
      YearsBefore(b.year + 1, a.year);
    } else if a.month < b.month {
      MonthStep(a.year, a.month);
      MonthsBefore(a.year, a.month + 1, b.month);
    } else if b.month < a.month {
      MonthStep(a.year, b.month);
      MonthsBefore(a.year, b.month + 1, a.month);
    }
  }

  /** The day before a valid date is valid and one day number earlier. */
  lemma PrevDayOrdinal(d: Date)
    requires ValidDate(d)
    ensures ValidDate(PrevDay(d))
    ensures Ordinal(PrevDay(d)) == Ordinal(d) - 1
  {
    if d.day == 1 {
      if d.month > 1 {
        MonthStep(d.year, d.month - 1);
      } else {
        YearStep(d.year - 1);
      }
    }
  }

  /** Weekdays cycle backwards with the days: the day before Monday is Sunday. */
  lemma PrevDayWeekday(d: Date)
    requires ValidDate(d)
    ensures Weekday(PrevDay(d)) == (Weekday(d) + 6) % 7
  {
    PrevDayOrdinal(d);
    StepBackMod7(Ordinal(d));
  }

  lemma StepBackMod7(o: int)
    ensures (o - 1 + 6) % 7 == ((o + 6) % 7 + 6) % 7
  {
  }

  /** The day after a valid date is valid, and the two steps undo each other. */
  lemma NextDayInverse(d: Date)
    requires ValidDate(d)
    ensures ValidDate(NextDay(d))
    ensures PrevDay(NextDay(d)) == d
    ensures NextDay(PrevDay(d)) == d
    ensures Ordinal(NextDay(d)) == Ordinal(d) + 1
  {
    PrevDayOrdinal(NextDay(d));
  }

  /** Stepping back k days from a valid date lands on the valid date k day numbers earlier. */
  lemma {:induction false} DaysBackOrdinal(d: Date, k: nat)
    requires ValidDate(d)
    ensures ValidDate(DaysBack(d, k))
    ensures Ordinal(DaysBack(d, k)) == Ordinal(d) - k
    decreases k
  {
    if k > 0 {
      PrevDayOrdinal(d);
      DaysBackOrdinal(PrevDay(d), k - 1);
    }
  }

  /** Every valid date up to k days before d is reached by stepping back. */
  lemma DaysBackCovers(d: Date, e: Date)
    requires ValidDate(d) && ValidDate(e)
    requires Ordinal(e) <= Ordinal(d)
    ensures e == DaysBack(d, Ordinal(d) - Ordinal(e))
  {
    var k := Ordinal(d) - Ordinal(e);
    DaysBackOrdinal(d, k);
    OrdinalOrder(e, DaysBack(d, k));
  }

  /** A key built from a month and a day below 100 decodes into those three fields. */
  lemma KeyFields(year: int, month: int, day: int)
    requires 0 <= month < 100 && 0 <= day < 100
    ensures KeyToDate(year * 10000 + month * 100 + day) == Date(year, month, day)
  {
    var key := year * 10000 + month * 100 + day;
    assert key / 10000 == year;
    assert key / 100 == year * 100 + month;
  }

  /** The key of a valid date decodes back to it, so distinct valid dates have distinct keys. */
  lemma DateKeyRoundTrip(d: Date)
    requires ValidDate(d)
    ensures KeyToDate(DateKey(d)) == d
  {
    KeyFields(d.year, d.month, d.day);
  }

  lemma DateKeyInjective(a: Date, b: Date)
    requires ValidDate(a) && ValidDate(b)
    ensures DateKey(a) == DateKey(b) <==> a == b
  {
    DateKeyRoundTrip(a);
    DateKeyRoundTrip(b);
  }

  /** Keys order valid dates as the calendar does. */
  lemma DateKeyOrder(a: Date, b: Date)
    requires ValidDate(a) && ValidDate(b)
    ensures DateLess(a, b) <==> DateKey(a) < DateKey(b)
  {
  }

  /** The closure is the run of four days that ends on January 3 and follows December 30. */
  lemma YearEndClosureRun(year: int)
    ensures forall k: nat :: k <= 3 ==> IsYearEndClosureDay(DaysBack(Date(year, 1, 3), k))
    ensures DaysBack(Date(year, 1, 3), 4) == Date(year - 1, 12, 30)
    ensures !IsYearEndClosureDay(Date(year - 1, 12, 30)) && !IsYearEndClosureDay(Date(year, 1, 4))
  {
    var jan3 := Date(year, 1, 3);
    assert DaysBack(jan3, 1) == Date(year, 1, 2);
    assert DaysBack(jan3, 2) == Date(year, 1, 1);
    assert DaysBack(jan3, 3) == Date(year - 1, 12, 31);
    assert DaysBack(jan3, 4) == Date(year - 1, 12, 30);
  }
}

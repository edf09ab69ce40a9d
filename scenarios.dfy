/**
  Worked dates under the default settings: the December 2026 fixing day and
  a January 2026 base day that rolls back over a holiday, a weekend and the
  year-end closure into the previous year.
*/
module Scenarios {
  import opened Wrappers
  import opened Calendar
  import opened Settings
  import opened BusinessDays
  import opened Fixing

  /** No holiday loaded in either calendar. */
  const NoHolidays: HolidaySets := HolidaySets(Some({}), Some({}))

  /** 2026-01-05 in the Japanese calendar, nothing in the US one. */
  const JanuaryHoliday: HolidaySets := HolidaySets(Some({20260105}), Some({}))

  /** The weekdays of the dates below (Monday is 0). */
  lemma WeekdaysDecember2026()
    ensures Weekday(Date(2026, 12, 30)) == 2 && Weekday(Date(2026, 12, 31)) == 3
  {
  }

  lemma WeekdaysNewYear2026()
    ensures Weekday(Date(2025, 12, 30)) == 1
    ensures Weekday(Date(2026, 1, 3)) == 5 && Weekday(Date(2026, 1, 4)) == 6 && Weekday(Date(2026, 1, 5)) == 0
  {
  }

  /** When the first k base days fail, the result is decided by the rest. */
  lemma {:induction false} FirstQualifyingAfter(target: Date, days: seq<int>, k: nat, cfg: Config, hol: HolidaySets)
    requires k <= |days|
    requires forall i :: 0 <= i < k ==> !Qualifies(target, days[i], cfg, hol)
    ensures FirstQualifying(target, days, cfg, hol) == FirstQualifying(target, days[k..], cfg, hol)
  {
    if k > 0 {
      FirstQualifyingAfter(target, days[1..], k - 1, cfg, hol);
      assert days[1..][k - 1..] == days[k..];
    }
  }

  /**
    In a December under the closure rule, a business day on the 30th is the
    fixing day of base day 30: the earlier base days normalize to dates no
    later than the 25th, and day 31 is not a candidate.
  */
  lemma DecemberThirtieth(year: int, hol: HolidaySets)
    requires IsBusinessDay(Date(year, 12, 30), DefaultConfig, hol)
    ensures GotobiBaseDays(year, 12, DefaultConfig) == [5, 10, 15, 20, 25, 30]
    ensures FixingDay(Date(year, 12, 30), DefaultConfig, hol) == (true, 30)
  {
    StandardAtMost(31);
    var target := Date(year, 12, 30);
    var days := GotobiBaseDays(year, 12, DefaultConfig);
    assert days == StandardBaseDays;
    forall i | 0 <= i < 5
      ensures !Qualifies(target, days[i], DefaultConfig, hol)
    {
      NormalizeWithinBound(Date(year, 12, days[i]), DefaultConfig, hol);
    }
    NormalizeFixesBusinessDay(target, DefaultConfig, hol);
    assert days[5..] == [30];
    FirstQualifyingAfter(target, days, 5, DefaultConfig, hol);
  }

  /**
    December 2026: Wednesday the 30th is the fixing day for base day 30, and
    Thursday the 31st is no candidate.
  */
  lemma December2026()
    ensures GotobiBaseDays(2026, 12, DefaultConfig) == [5, 10, 15, 20, 25, 30]
    ensures FixingDay(Date(2026, 12, 30), DefaultConfig, NoHolidays) == (true, 30)
  {
    WeekdaysDecember2026();
    DecemberThirtieth(2026, NoHolidays);
  }

  /**
    With 2026-01-05 a Japanese holiday, base day 5 of January 2026 rolls back
    over the holiday, the weekend of the 3rd and 4th and the closure days to
    Tuesday 2025-12-30, which is December's own fixing day: base day 5 names
    no January fixing day.
  */
  lemma January2026RollBack()
    ensures Normalize(Date(2026, 1, 5), DefaultConfig, JanuaryHoliday) == Date(2025, 12, 30)
    ensures FixingDay(Date(2025, 12, 30), DefaultConfig, JanuaryHoliday) == (true, 30)
  {
    WeekdaysNewYear2026();
    assert PrevDay(Date(2026, 1, 1)) == Date(2025, 12, 31);
    assert IsBusinessDay(Date(2025, 12, 30), DefaultConfig, JanuaryHoliday);
    DecemberThirtieth(2025, JanuaryHoliday);
  }
}

/**
  The fixing-day engine: the month's candidate base days
  (`build_gotobi_base_days`), the test whether a date is a fixing day
  (`is_fixing_day`), and the choice between today and tomorrow
  (`choose_fixing_date`).
*/
module Fixing {
  import opened Wrappers
  import opened Calendar
  import opened Settings
  import opened BusinessDays

  /** The days of the month every gotobi calendar starts from. */
  const StandardBaseDays: seq<int> := [5, 10, 15, 20, 25, 30]

  /** The elements of `days` that are at most `limit`, in order. */
  function AtMost(days: seq<int>, limit: int): seq<int> {
    if days == [] then []
    else AtMost(days[..|days| - 1], limit) + (if days[|days| - 1] <= limit then [days[|days| - 1]] else [])
  }

  /** Day 31 is a candidate only when enabled, the month has it, and it is not a closed December 31. */
  predicate Day31Included(year: int, month: int, cfg: Config) {
    cfg.includeDay31 && DaysInMonth(year, month) >= 31 && !(cfg.excludeYearEndClosure && month == 12)
  }

  /** The candidate base days of a month, in the order the source appends them. */
  function GotobiBaseDays(year: int, month: int, cfg: Config): seq<int> {
    var dim := DaysInMonth(year, month);
    AtMost(StandardBaseDays, dim)
    + (if Day31Included(year, month, cfg) then [31] else [])
    + (if cfg.includeFebLastDay && month == 2 then [dim] else [])
  }

  /** `build_gotobi_base_days`: filters the standard days into a list, then appends 31 and February's last day. */
  method BuildGotobiBaseDays(year: int, month: int, cfg: Config) returns (days: seq<int>)
    ensures days == GotobiBaseDays(year, month, cfg)
  {
    var dim := DaysInMonth(year, month);
    days := [];
    for i := 0 to |StandardBaseDays|
      invariant days == AtMost(StandardBaseDays[..i], dim)
    {
      assert StandardBaseDays[..i + 1][..i] == StandardBaseDays[..i];
      if StandardBaseDays[i] <= dim {
        days := days + [StandardBaseDays[i]];
      }
    }
    assert StandardBaseDays[..|StandardBaseDays|] == StandardBaseDays;
    if cfg.includeDay31 && dim >= 31 {
      if !(cfg.excludeYearEndClosure && month == 12) {
        days := days + [31];
      }
    }
    if cfg.includeFebLastDay && month == 2 {
      days := days + [dim];
    }
  }

  lemma StandardAtMost(dim: int)
    requires 28 <= dim <= 31
    ensures AtMost(StandardBaseDays, dim) == if dim >= 30 then StandardBaseDays else StandardBaseDays[..5]
  {
    var s := StandardBaseDays;
    assert AtMost(s[..1], dim) == [5] by { assert s[..1][..0] == []; }
    assert AtMost(s[..2], dim) == [5, 10] by { assert s[..2][..1] == s[..1]; }
    assert AtMost(s[..3], dim) == [5, 10, 15] by { assert s[..3][..2] == s[..2]; }
    assert AtMost(s[..4], dim) == [5, 10, 15, 20] by { assert s[..4][..3] == s[..3]; }
    assert AtMost(s[..5], dim) == [5, 10, 15, 20, 25] by { assert s[..5][..4] == s[..4]; }
    assert s[..6][..5] == s[..5] && s[..6] == s;
  }

  /** The candidate list is one of four shapes, decided by the month length. */
  lemma BaseDaysCases(year: int, month: int, cfg: Config)
    ensures var days := GotobiBaseDays(year, month, cfg);
      var dim := DaysInMonth(year, month);
      (dim <= 29 && !Day31Included(year, month, cfg) && !(cfg.includeFebLastDay && month == 2)
         && days == [5, 10, 15, 20, 25])
      || (dim <= 29 && !Day31Included(year, month, cfg) && cfg.includeFebLastDay && month == 2
         && days == [5, 10, 15, 20, 25, dim])
      || (dim >= 30 && !Day31Included(year, month, cfg) && month != 2 && days == [5, 10, 15, 20, 25, 30])
      || (dim == 31 && Day31Included(year, month, cfg) && month != 2 && days == [5, 10, 15, 20, 25, 30, 31])
  {
    StandardAtMost(DaysInMonth(year, month));
  }

  /**
    The candidate list is strictly ascending (so free of duplicates), lies
    within the month, and holds exactly the standard days that fit, day 31
    when it is included, and February's last day when enabled.
  */
  lemma BaseDaysSpec(year: int, month: int, cfg: Config)
    ensures var days := GotobiBaseDays(year, month, cfg);
      forall i, j :: 0 <= i < j < |days| ==> days[i] < days[j]
    ensures var days := GotobiBaseDays(year, month, cfg);
      forall i :: 0 <= i < |days| ==> 1 <= days[i] <= DaysInMonth(year, month)
    ensures var days := GotobiBaseDays(year, month, cfg);
      forall b :: b in days <==>
        (b in StandardBaseDays && b <= DaysInMonth(year, month))
        || (b == 31 && Day31Included(year, month, cfg))
        || (b == DaysInMonth(year, month) && cfg.includeFebLastDay && month == 2)
  {
    BaseDaysCases(year, month, cfg);
  }

  // ---------------------------------------------------------------------------
  // is_fixing_day
  // ---------------------------------------------------------------------------

  /** A base day qualifies for `target` when it normalizes onto it and the result is not a closed day. */
  predicate Qualifies(target: Date, baseDay: int, cfg: Config, hol: HolidaySets) {
    var normalized := Normalize(Date(target.year, target.month, baseDay), cfg, hol);
    !(cfg.excludeYearEndClosure && IsYearEndClosureDay(normalized)) && normalized == target
  }

  /** The first qualifying base day of the list, as `(True, b)`, or `(False, 0)`. */
  function FirstQualifying(target: Date, days: seq<int>, cfg: Config, hol: HolidaySets): (bool, int) {
    if days == [] then (false, 0)
    else if Qualifies(target, days[0], cfg, hol) then (true, days[0])
    else FirstQualifying(target, days[1..], cfg, hol)
  }

  /** What `is_fixing_day` returns. */
  function FixingDay(target: Date, cfg: Config, hol: HolidaySets): (bool, int) {
    FirstQualifying(target, GotobiBaseDays(target.year, target.month, cfg), cfg, hol)
  }

  /**
    `is_fixing_day`: walks the base days in order, normalizes each, skips a
    result that is a closed day, and returns at the first that lands on the target.
  */
  method IsFixingDay(target: Date, cfg: Config, hol: HolidaySets) returns (found: bool, baseDay: int)
    requires ValidDate(target)
    ensures (found, baseDay) == FixingDay(target, cfg, hol)
  {
    var days := BuildGotobiBaseDays(target.year, target.month, cfg);
    BaseDaysSpec(target.year, target.month, cfg);
    for i := 0 to |days|
      invariant FirstQualifying(target, days[i..], cfg, hol) == FixingDay(target, cfg, hol)
    {
      assert days[i..][1..] == days[i + 1..];
      var baseDate := Date(target.year, target.month, days[i]);
      var normalized := NormalizeBizDay(baseDate, cfg, hol);
      if cfg.excludeYearEndClosure && IsYearEndClosureDay(normalized) {
        continue;
      }
      if normalized == target {
        return true, days[i];
      }
    }
    return false, 0;
  }

  /** When no base day qualifies the result is `(False, 0)`, and only then. */
  lemma {:induction false} FirstQualifyingNone(target: Date, days: seq<int>, cfg: Config, hol: HolidaySets)
    ensures !FirstQualifying(target, days, cfg, hol).0 <==>
      forall i :: 0 <= i < |days| ==> !Qualifies(target, days[i], cfg, hol)
    ensures !FirstQualifying(target, days, cfg, hol).0 ==> FirstQualifying(target, days, cfg, hol).1 == 0
  {
    if days != [] {
      FirstQualifyingNone(target, days[1..], cfg, hol);
      assert forall i :: 1 <= i < |days| ==> days[i] == days[1..][i - 1];
    }
  }

  /**
    First match: when the result is `(True, b)`, b sits at some index of the
    list where it qualifies and no earlier base day does.
  */
  lemma {:induction false} FirstQualifyingFirst(target: Date, days: seq<int>, cfg: Config, hol: HolidaySets)
    requires FirstQualifying(target, days, cfg, hol).0
    ensures (exists i :: 0 <= i < |days| && days[i] == FirstQualifying(target, days, cfg, hol).1
               && Qualifies(target, days[i], cfg, hol)
               && (forall j :: 0 <= j < i ==> !Qualifies(target, days[j], cfg, hol)))
  {
    if Qualifies(target, days[0], cfg, hol) {
      assert days[0] == FirstQualifying(target, days, cfg, hol).1;
    } else {
      var rest := days[1..];
      FirstQualifyingFirst(target, rest, cfg, hol);
      var i :| 0 <= i < |rest| && rest[i] == FirstQualifying(target, rest, cfg, hol).1
        && Qualifies(target, rest[i], cfg, hol)
        && (forall j :: 0 <= j < i ==> !Qualifies(target, rest[j], cfg, hol));
      assert days[i + 1] == rest[i];
      assert forall j :: 1 <= j < i + 1 ==> days[j] == rest[j - 1];
    }
  }

  /**
    A fixing day is what its base day normalizes to: the base day is a
    candidate of the target's month, the target lies on or before that base
    date and at most 60 days before it, and with the closure rule on the
    target is never a closure day.
  */
  lemma FixingDaySound(target: Date, cfg: Config, hol: HolidaySets)
    requires ValidDate(target)
    requires FixingDay(target, cfg, hol).0
    ensures var b := FixingDay(target, cfg, hol).1;
      var baseDate := Date(target.year, target.month, b);
      b in GotobiBaseDays(target.year, target.month, cfg)
      && ValidDate(baseDate)
      && Normalize(baseDate, cfg, hol) == target
      && !DateLess(baseDate, target)
      && Ordinal(baseDate) - Ordinal(target) <= MaxRollbackDays
    ensures cfg.excludeYearEndClosure ==> !IsYearEndClosureDay(target)
  {
    var days := GotobiBaseDays(target.year, target.month, cfg);
    FirstQualifyingFirst(target, days, cfg, hol);
    BaseDaysSpec(target.year, target.month, cfg);
    var b := FixingDay(target, cfg, hol).1;
    NormalizeWithinBound(Date(target.year, target.month, b), cfg, hol);
  }

  // ---------------------------------------------------------------------------
  // choose_fixing_date
  // ---------------------------------------------------------------------------

  /**
    `choose_fixing_date` on the JST date of the current instant: today if it
    is a fixing day, otherwise tomorrow if it is one, otherwise nothing.
  */
  function ChooseFixingDate(today: Date, cfg: Config, hol: HolidaySets): (r: (Option<Date>, int))
    requires ValidDate(today)
    ensures r.0.Some? ==> FixingDay(r.0.value, cfg, hol) == (true, r.1)
    ensures r.0.Some? ==> r.0.value == today || (r.0.value == NextDay(today) && !FixingDay(today, cfg, hol).0)
    ensures r.0.Some? ==> 0 <= Ordinal(r.0.value) - Ordinal(today) <= 1
    ensures r.0.None? ==> r.1 == 0 && !FixingDay(today, cfg, hol).0 && !FixingDay(NextDay(today), cfg, hol).0
    ensures FixingDay(today, cfg, hol).0 ==> r.0 == Some(today)
  {
    var tomorrow := NextDay(today);
    NextDayInverse(today);
    var (okToday, baseToday) := FixingDay(today, cfg, hol);
    if okToday then (Some(today), baseToday)
    else
      var (okTomorrow, baseTomorrow) := FixingDay(tomorrow, cfg, hol);
      if okTomorrow then (Some(tomorrow), baseTomorrow)
      else (None, 0)
  }
}

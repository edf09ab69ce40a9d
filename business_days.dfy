/**
  The calendar classifier and `normalize_biz_day`: a date that is a weekend,
  an enabled holiday or (when excluded) a year-end closure day is rolled back
  to the previous business day, for at most 60 steps.
*/
module BusinessDays {
  import opened Wrappers
  import opened Calendar
  import opened Settings

  /** The cap on backward steps; when it is reached the date 60 days back is returned unchecked. */
  const MaxRollbackDays: nat := 60

  /** The loaded holiday keys of each calendar; `None` when that calendar is not loaded. */
  datatype HolidaySets = HolidaySets(jp: Option<set<int>>, us: Option<set<int>>)

  /** A holiday of an enabled, loaded calendar. */
  predicate IsHoliday(d: Date, cfg: Config, hol: HolidaySets) {
    (cfg.enableHolidayJp && hol.jp.Some? && DateKey(d) in hol.jp.value)
    || (cfg.enableHolidayUs && hol.us.Some? && DateKey(d) in hol.us.value)
  }

  predicate IsBusinessDay(d: Date, cfg: Config, hol: HolidaySets) {
    !IsWeekend(d) && !IsHoliday(d, cfg, hol) && !(cfg.excludeYearEndClosure && IsYearEndClosureDay(d))
  }

  /** The roll-back with `fuel` checks left: a date that is checked and found a business day stays. */
  function RollBack(d: Date, cfg: Config, hol: HolidaySets, fuel: nat): Date
    decreases fuel
  {
    if fuel == 0 || IsBusinessDay(d, cfg, hol) then d
    else RollBack(PrevDay(d), cfg, hol, fuel - 1)
  }

  /** What `normalize_biz_day` returns. */
  function Normalize(d: Date, cfg: Config, hol: HolidaySets): Date {
    RollBack(d, cfg, hol, MaxRollbackDays)
  }

  /**
    `normalize_biz_day`: steps `cur` back one day at a time for at most 60
    iterations, returning the first business day it meets.
  */
  method NormalizeBizDay(d: Date, cfg: Config, hol: HolidaySets) returns (r: Date)
    requires ValidDate(d)
    ensures r == Normalize(d, cfg, hol)
    ensures ValidDate(r) && Ordinal(d) - MaxRollbackDays <= Ordinal(r) <= Ordinal(d)
  {
    var cur := d;
    for i := 0 to MaxRollbackDays
      invariant RollBack(cur, cfg, hol, MaxRollbackDays - i) == Normalize(d, cfg, hol)
    {
      var isWeekend := Weekday(cur) >= 5;
      var isHoliday := false;
      if cfg.enableHolidayJp && hol.jp.Some? {
        isHoliday := isHoliday || DateKey(cur) in hol.jp.value;
      }
      if cfg.enableHolidayUs && hol.us.Some? {
        isHoliday := isHoliday || DateKey(cur) in hol.us.value;
      }
      var isYearEnd := cfg.excludeYearEndClosure && IsYearEndClosureDay(cur);
      if !isWeekend && !isHoliday && !isYearEnd {
        r := cur;
        NormalizeWithinBound(d, cfg, hol);
        return;
      }
      cur := PrevDay(cur);
    }
    r := cur;
    NormalizeWithinBound(d, cfg, hol);
  }

  // ---------------------------------------------------------------------------
  // Properties
  // ---------------------------------------------------------------------------

  /** How many days the roll-back steps back. */
  function RollBackSteps(d: Date, cfg: Config, hol: HolidaySets, fuel: nat): nat
    decreases fuel
  {
    if fuel == 0 || IsBusinessDay(d, cfg, hol) then 0
    else 1 + RollBackSteps(PrevDay(d), cfg, hol, fuel - 1)
  }

  /**
    The walk of a roll-back, day by day: it stops after k steps for some k
    up to the fuel, every date it passed over was not a business day, and
    unless the fuel ran out it stopped on a business day.
  */
  lemma {:induction false} RollBackWalk(d: Date, cfg: Config, hol: HolidaySets, fuel: nat)
    ensures var k := RollBackSteps(d, cfg, hol, fuel);
      k <= fuel && RollBack(d, cfg, hol, fuel) == DaysBack(d, k)
      && (k < fuel ==> IsBusinessDay(RollBack(d, cfg, hol, fuel), cfg, hol))
      && (forall j: nat :: j < k ==> !IsBusinessDay(DaysBack(d, j), cfg, hol))
    decreases fuel
  {
    if fuel != 0 && !IsBusinessDay(d, cfg, hol) {
      var p := PrevDay(d);
      RollBackWalk(p, cfg, hol, fuel - 1);
      var k := RollBackSteps(p, cfg, hol, fuel - 1);
      assert DaysBack(d, k + 1) == DaysBack(p, k);
      forall j: nat | j < k + 1
        ensures !IsBusinessDay(DaysBack(d, j), cfg, hol)
      {
        if j > 0 {
          assert DaysBack(d, j) == DaysBack(p, j - 1);
        }
      }
    }
  }

  /**
    The shape of a roll-back: it lands k days back for some k up to the fuel,
    every date it passed over was not a business day, and unless the fuel ran
    out it stopped on a business day.
  */
  lemma RollBackShape(d: Date, cfg: Config, hol: HolidaySets, fuel: nat)
    requires ValidDate(d)
    ensures var r := RollBack(d, cfg, hol, fuel);
      var k := Ordinal(d) - Ordinal(r);
      ValidDate(r) && 0 <= k <= fuel && r == DaysBack(d, k)
      && (k < fuel ==> IsBusinessDay(r, cfg, hol))
      && (forall j: nat :: j < k ==> !IsBusinessDay(DaysBack(d, j), cfg, hol))
  {
    RollBackWalk(d, cfg, hol, fuel);
    DaysBackOrdinal(d, RollBackSteps(d, cfg, hol, fuel));
  }

  /** The result is a valid date no later than d and at most 60 days before it. */
  lemma NormalizeWithinBound(d: Date, cfg: Config, hol: HolidaySets)
    requires ValidDate(d)
    ensures var r := Normalize(d, cfg, hol);
      ValidDate(r) && Ordinal(d) - MaxRollbackDays <= Ordinal(r) <= Ordinal(d) && !DateLess(d, r)
  {
    RollBackShape(d, cfg, hol, MaxRollbackDays);
    OrdinalOrder(d, Normalize(d, cfg, hol));
  }

  /**
    Unless the 60-step cap was reached, the result is a business day, and every
    date after it up to and including d is not one: the result is the latest
    business day on or before d.
  */
  lemma NormalizeFindsLatestBusinessDay(d: Date, cfg: Config, hol: HolidaySets)
    requires ValidDate(d)
    ensures var r := Normalize(d, cfg, hol);
      (Ordinal(d) - Ordinal(r) < MaxRollbackDays ==> IsBusinessDay(r, cfg, hol))
      && (IsBusinessDay(r, cfg, hol) || r == DaysBack(d, MaxRollbackDays))
    ensures var r := Normalize(d, cfg, hol);
      forall e :: ValidDate(e) && DateLess(r, e) && !DateLess(d, e) ==> !IsBusinessDay(e, cfg, hol)
  {
    var r := Normalize(d, cfg, hol);
    RollBackShape(d, cfg, hol, MaxRollbackDays);
    forall e | ValidDate(e) && DateLess(r, e) && !DateLess(d, e)
      ensures !IsBusinessDay(e, cfg, hol)
    {
      OrdinalOrder(r, e);
      OrdinalOrder(e, d);
      DaysBackCovers(d, e);
      var j := Ordinal(d) - Ordinal(e);
      assert 0 <= j < Ordinal(d) - Ordinal(r);
    }
  }

  /** A business day normalizes to itself. */
  lemma NormalizeFixesBusinessDay(d: Date, cfg: Config, hol: HolidaySets)
    requires IsBusinessDay(d, cfg, hol)
    ensures Normalize(d, cfg, hol) == d
  {
  }

  /** Normalizing twice is normalizing once, whenever the loop found its business day. */
  lemma NormalizeIdempotent(d: Date, cfg: Config, hol: HolidaySets)
    requires ValidDate(d)
    requires Ordinal(d) - Ordinal(Normalize(d, cfg, hol)) < MaxRollbackDays
    ensures Normalize(Normalize(d, cfg, hol), cfg, hol) == Normalize(d, cfg, hol)
  {
    NormalizeFindsLatestBusinessDay(d, cfg, hol);
  }

  /** Saturdays and Sundays are never business days, whatever the holidays. */
  lemma WeekendNeverBusiness(d: Date, cfg: Config, hol: HolidaySets)
    requires IsWeekend(d)
    ensures !IsBusinessDay(d, cfg, hol)
  {
  }

  /**
    The three rules of the classifier: a business day is Monday to Friday,
    is absent from every calendar that is both enabled and loaded, and under
    the closure rule is not December 31 or January 1 to 3. A calendar that is
    disabled or not loaded takes no part, so with both calendars absent and
    the closure rule off the business days are exactly the weekdays.
  */
  lemma BusinessDayRules(d: Date, cfg: Config, hol: HolidaySets)
    ensures IsBusinessDay(d, cfg, hol) ==> Weekday(d) <= 4
    ensures IsBusinessDay(d, cfg, hol) && cfg.enableHolidayJp && hol.jp.Some? ==> DateKey(d) !in hol.jp.value
    ensures IsBusinessDay(d, cfg, hol) && cfg.enableHolidayUs && hol.us.Some? ==> DateKey(d) !in hol.us.value
    ensures IsBusinessDay(d, cfg, hol) && cfg.excludeYearEndClosure ==>
      !(d.month == 12 && d.day == 31) && !(d.month == 1 && 1 <= d.day <= 3)
    ensures !cfg.enableHolidayJp || hol.jp.None? ==>
      (IsBusinessDay(d, cfg, hol) <==> IsBusinessDay(d, cfg, HolidaySets(None, hol.us)))
    ensures !cfg.enableHolidayUs || hol.us.None? ==>
      (IsBusinessDay(d, cfg, hol) <==> IsBusinessDay(d, cfg, HolidaySets(hol.jp, None)))
    ensures !cfg.excludeYearEndClosure ==>
      (IsBusinessDay(d, cfg, HolidaySets(None, None)) <==> Weekday(d) <= 4)
  {
  }
}

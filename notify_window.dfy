/**
  `in_notify_window`: the half-open notification window that runs from the
  configured start time on the day before the fixing date to the configured
  end time on the fixing date, all in JST.
*/
module NotifyWindow {
  import opened Calendar
  import opened Settings

  const MinutesPerDay: int := 1440

  /**
    An instant in JST: its date and the whole minutes since midnight. The
    window's bounds are whole minutes, so dropping the seconds of an instant
    does not change which side of a bound it falls on.
  */
  datatype Instant = Instant(date: Date, minute: int)

  predicate ValidInstant(t: Instant) {
    ValidDate(t.date) && 0 <= t.minute < MinutesPerDay
  }

  /** Python's comparison of two datetimes in the same zone: by date, then by time. */
  predicate InstantLess(a: Instant, b: Instant) {
    DateLess(a.date, b.date) || (a.date == b.date && a.minute < b.minute)
  }

  predicate InstantAtMost(a: Instant, b: Instant) {
    InstantLess(a, b) || a == b
  }

  /** The start time on the day before the fixing date: inside the window. */
  function WindowStart(fixing: Date, cfg: Config): Instant {
    Instant(PrevDay(fixing), MinuteOfDay(cfg.windowPrevDayStart))
  }

  /** The end time on the fixing date: outside the window. */
  function WindowEnd(fixing: Date, cfg: Config): Instant {
    Instant(fixing, MinuteOfDay(cfg.windowFixingEnd))
  }

  /** `window_start <= now < window_end`. */
  predicate InNotifyWindow(now: Instant, fixing: Date, cfg: Config) {
    InstantAtMost(WindowStart(fixing, cfg), now) && InstantLess(now, WindowEnd(fixing, cfg))
  }

  /** Minutes since the calendar's origin: an independent, linear time scale. */
  function AbsoluteMinute(t: Instant): int {
    Ordinal(t.date) * MinutesPerDay + t.minute
  }

  /** On valid instants the field-by-field order is the order of the time scale. */
  lemma InstantOrder(a: Instant, b: Instant)
    requires ValidInstant(a) && ValidInstant(b)
    ensures InstantLess(a, b) <==> AbsoluteMinute(a) < AbsoluteMinute(b)
    ensures a == b <==> AbsoluteMinute(a) == AbsoluteMinute(b)
  {
    OrdinalOrder(a.date, b.date);
    var oa, ob := Ordinal(a.date), Ordinal(b.date);
    if oa < ob {
      assert oa * MinutesPerDay + MinutesPerDay <= ob * MinutesPerDay;
    } else if ob < oa {
      assert ob * MinutesPerDay + MinutesPerDay <= oa * MinutesPerDay;
    }
  }

  /**
    The window is the interval [start, end) of the time scale, and it lasts
    a day less the start time plus the end time: 1435 minutes with the
    default 10:00 and 9:55.
  */
  lemma WindowInterval(now: Instant, fixing: Date, cfg: Config)
    requires ValidInstant(now) && ValidDate(fixing) && ValidConfig(cfg)
    ensures InNotifyWindow(now, fixing, cfg) <==>
      AbsoluteMinute(WindowStart(fixing, cfg)) <= AbsoluteMinute(now) < AbsoluteMinute(WindowEnd(fixing, cfg))
    ensures AbsoluteMinute(WindowEnd(fixing, cfg)) - AbsoluteMinute(WindowStart(fixing, cfg))
      == MinutesPerDay - MinuteOfDay(cfg.windowPrevDayStart) + MinuteOfDay(cfg.windowFixingEnd)
  {
    PrevDayOrdinal(fixing);
    InstantOrder(WindowStart(fixing, cfg), now);
    InstantOrder(now, WindowEnd(fixing, cfg));
  }

  /**
    Half-open: the start instant is inside, the end instant is outside, and
    so is every instant earlier than the start (the minute before it included,
    even when that minute falls on the day before).
  */
  lemma WindowHalfOpen(fixing: Date, cfg: Config)
    requires ValidDate(fixing) && ValidConfig(cfg)
    ensures InNotifyWindow(WindowStart(fixing, cfg), fixing, cfg)
    ensures !InNotifyWindow(WindowEnd(fixing, cfg), fixing, cfg)
    ensures forall t :: (ValidInstant(t) && AbsoluteMinute(t) < AbsoluteMinute(WindowStart(fixing, cfg))
                         ==> !InNotifyWindow(t, fixing, cfg))
  {
    PrevDayOrdinal(fixing);
    var s := WindowStart(fixing, cfg);
    WindowInterval(s, fixing, cfg);
    WindowInterval(WindowEnd(fixing, cfg), fixing, cfg);
    forall t | ValidInstant(t) && AbsoluteMinute(t) < AbsoluteMinute(s)
      ensures !InNotifyWindow(t, fixing, cfg)
    {
      WindowInterval(t, fixing, cfg);
    }
  }

  /** The window never reaches past the fixing date's end time nor before the previous day. */
  lemma WindowWithinTwoDays(now: Instant, fixing: Date, cfg: Config)
    requires ValidInstant(now) && ValidDate(fixing) && ValidConfig(cfg)
    requires InNotifyWindow(now, fixing, cfg)
    ensures now.date == fixing || now.date == PrevDay(fixing)
  {
    PrevDayOrdinal(fixing);
    WindowInterval(now, fixing, cfg);
    OrdinalOrder(now.date, fixing);
    OrdinalOrder(now.date, PrevDay(fixing));
  }
}

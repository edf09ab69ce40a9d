/** The run parameters of the notifier (`Config`), with the source's defaults. */
module Settings {

  /** A wall-clock time in JST. */
  datatype TimeOfDay = TimeOfDay(hour: int, minute: int)

  predicate ValidTimeOfDay(t: TimeOfDay) {
    0 <= t.hour < 24 && 0 <= t.minute < 60
  }

  /** Minutes since midnight. */
  function MinuteOfDay(t: TimeOfDay): int {
    t.hour * 60 + t.minute
  }

  datatype Config = Config(
    includeDay31: bool,
    includeFebLastDay: bool,
    excludeYearEndClosure: bool,
    enableHolidayJp: bool,
    enableHolidayUs: bool,
    enforceWindow: bool,
    windowPrevDayStart: TimeOfDay,
    windowFixingEnd: TimeOfDay,
    ntfyServer: string,
    ntfyTopic: string,
    notifyMode: string,
    enableNtfy: bool,
    enableStateUpdate: bool)

  /** The window times are the only settings a `datetime` could refuse. */
  predicate ValidConfig(cfg: Config) {
    ValidTimeOfDay(cfg.windowPrevDayStart) && ValidTimeOfDay(cfg.windowFixingEnd)
  }

  const DefaultConfig: Config := Config(
    includeDay31 := true,
    includeFebLastDay := true,
    excludeYearEndClosure := true,
    enableHolidayJp := true,
    enableHolidayUs := true,
    enforceWindow := true,
    windowPrevDayStart := TimeOfDay(10, 0),
    windowFixingEnd := TimeOfDay(9, 55),
    ntfyServer := "https://ntfy.sh",
    ntfyTopic := "your_topic_here",
    notifyMode := "ntfy",
    enableNtfy := true,
    enableStateUpdate := true)
}

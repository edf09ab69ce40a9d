# Gotobi fixing notifier: a verified model of its calendar engine

`gotobi_notifier.py` sends an advance notice before each "gotobi" fixing
day. These are the business days on which the Tokyo FX fixing is taken. Each
fixing day comes from a nominal day of the month: the 5th, 10th, 15th, 20th,
25th, 30th, optionally the 31st, and optionally February's last day. If that
nominal day is a weekend, a Japanese or US holiday, or a year-end bank
closure day (December 31 to January 3), it is moved back to the previous
business day.

A run does these steps in order:

1. Reads the holiday CSV files.
2. Decides whether today or tomorrow (JST) is a fixing day.
3. Checks that the current instant lies in the notification window. The
   window runs from the previous day's start time, inclusive, to the fixing
   day's end time, exclusive.
4. Compares the fixing day with the last one recorded in the state file. A
   fixing day already recorded is not notified again.
5. Delivers the notice and records the fixing day.

This project restates that engine in Dafny and proves what it promises.

Modules, one file each:

- `Calendar` (calendar.dfy) covers civil dates:
  - the YYYYMMDD key, the leap-year rule and month lengths;
  - the closure days;
  - a day number equal to Python's `date.toordinal()`, which gives the weekday and the previous and next day.
- `Text` (text.dfy) holds the string operations the reader uses: `strip`, `replace`, `find`, `split` (with `join` as its inverse), and decimal digits.
- `HolidayCsv` (holiday_csv.dfy) holds `_try_parse_holiday_token` and the line-by-line reading in `load_holiday_keys`. A file is given as its list of lines, or `None` when it does not exist.
- `HolidayLines` (holiday_lines.dfy) states the per-line rules of `load_holiday_keys`: comment lines, inline comments, the three token delimiters, and lines holding one or two dates.
- `Settings` (settings.dfy) holds the run parameters and their defaults.
- `BusinessDays` (business_days.dfy) holds the business-day test and `normalize_biz_day`.
- `Fixing` (fixing.dfy) holds `build_gotobi_base_days`, `is_fixing_day` and `choose_fixing_date`.
- `NotifyWindow` (notify_window.dfy) holds `in_notify_window`. An instant is a JST date plus a minute of the day.
- `Notifier` (notifier.dfy) models `run_once`:
  - the state file is the map `load_state` returns;
  - delivery is an abstract step whose success is a parameter;
  - the result is an `Outcome` that carries the saved state.
- `Scenarios` (scenarios.dfy) works through concrete dates around the 2026 year end.

Imperative loops in the source are Dafny methods with loop invariants. Each
method is proved equal to a function that serves as its specification, and
the properties are proved about those functions:

- `NormalizeBizDay` is proved equal to `Normalize`;
- `BuildGotobiBaseDays` to `GotobiBaseDays`;
- `IsFixingDay` to `FixingDay`;
- `TryParseHolidayToken` to `ParseHolidayToken`;
- `ScanTokens`, `ScanLine` and `LoadHolidayKeys` to `TokenKeys`, `LineKeys` and `FileKeys`;
- `RunOnce` to `Run`.

Three consequences of the code are easy to miss:

- **Normalizing twice.** Normalizing twice equals normalizing once only when
  the 60-step loop found a business day. When the cap is reached, the
  unchecked date 60 days back is returned, and normalizing that date can
  move it further. `BusinessDays.NormalizeIdempotent` carries this
  precondition.
- **A bad state value can end the run.** `load_state` returns `{}` when the
  state file is missing, when opening, reading or parsing it raises any
  exception, and when the parsed JSON is not an object. It does not look at
  the stored field. When `last_notified_fixing_yyyymmdd` holds a string that
  `int()` cannot read, `int()` raises `ValueError`. A non-empty list or
  object raises `TypeError`. Either one ends the run (`Notifier.IntOrZero`,
  `Notifier.RunRaises`).
- **January 2026.** Monday 2026-01-05 is base day 5 of January. If it is a
  holiday, it rolls back past the weekend of January 3 and 4 and past
  January 2, January 1 and December 31, which are closure days under the
  closure rule. It lands on Tuesday 2025-12-30
  (`Scenarios.January2026RollBack`).

## Model

| member | source | states |
|---|---|---|
| `Calendar.DaysInMonth` | gotobi_notifier.py:79-88 | Month lengths are always 28 to 31. February has 29 days exactly in leap years (divisible by 400, or by 4 and not by 100) and 28 otherwise. |
| `Calendar.LongMonths` | gotobi_notifier.py:79-88 | Exactly months 1, 3, 5, 7, 8, 10 and 12 have 31 days. |
| `Calendar.YearLength` | gotobi_notifier.py:79-88 | The twelve month lengths add up to 366 in a leap year and 365 otherwise. |
| `Calendar.DateKeyRoundTrip` | gotobi_notifier.py:75-76 | The YYYYMMDD key of a valid date decodes back to that date. |
| `Calendar.DateKeyInjective` | gotobi_notifier.py:75-76 | Two valid dates have the same key if and only if they are the same date. |
| `Calendar.DateKeyOrder` | gotobi_notifier.py:75-76 | Keys order valid dates chronologically. |
| `Calendar.YearEndClosureRun` | gotobi_notifier.py:91-92 | January 3 and the three days before it are closure days. The fourth day back is December 30 of the previous year, and neither it nor January 4 is a closure day. |
| `Calendar.OrdinalOrder` | gotobi_notifier.py:181 | On valid dates the day number preserves both chronological order and equality. `date.weekday()` rests on this day number. |
| `Calendar.PrevDayOrdinal` | gotobi_notifier.py:191 | `d - timedelta(days=1)` is a valid date exactly one day number earlier. |
| `Calendar.PrevDayWeekday` | gotobi_notifier.py:181 | The weekday of the previous day is one step back in the Monday-to-Sunday cycle. |
| `Calendar.NextDayInverse` | gotobi_notifier.py:249 | `today + timedelta(days=1)` is valid and one day number later, and stepping back from it returns today. |
| `Calendar.DaysBackOrdinal` | gotobi_notifier.py:179-192 | Stepping back k days lands on the valid date k day numbers earlier. |
| `Calendar.DaysBackCovers` | gotobi_notifier.py:179-192 | Every valid date on or before d can be reached by stepping back from d. |
| `Text.Strip` | gotobi_notifier.py:96 | `str.strip()` leaves no white space at either end. The result is empty exactly when the input is all white space. |
| `Text.StripIsSlice` | gotobi_notifier.py:96 | `str.strip()` returns a contiguous slice of its input. Everything before the slice and everything after it is white space. |
| `Text.Split` | gotobi_notifier.py:151 | `str.split(',')` gives at least one piece, and no piece contains the separator. Joining the pieces with the separator gives back the input. |
| `Text.FindChar` | gotobi_notifier.py:141 | `str.find` returns the first index of the character, or -1 exactly when the character is absent. |
| `Text.FindDoubleSlash` | gotobi_notifier.py:144 | `str.find("//")` returns the first index that starts `//`, or -1 when there is none. |
| `Text.RemoveCharsRemoves` | gotobi_notifier.py:101-102 | Removing the separators leaves none of them, and keeps every other character with its count. |
| `Text.DecimalConcat` | gotobi_notifier.py:107-109 | A digit string read as a number is its prefix's value shifted by the suffix's length, plus the suffix's value. |
| `HolidayCsv.ParseCompact` | gotobi_notifier.py:103-115 | A date is returned only for exactly eight ASCII digits with year > 1900, a month in 1..12 and a day within the month. Its key then equals the eight-digit number. Conversely, every such string naming a valid date is accepted. |
| `HolidayCsv.ParseHolidayToken` | gotobi_notifier.py:95-115 | A blank token gives nothing. Otherwise the result is valid, after 1900, and keyed by the eight digits left once the separators are removed. |
| `HolidayCsv.TryParseHolidayToken` | gotobi_notifier.py:95-115 | The separator-removal loop computes exactly `ParseHolidayToken`. |
| `HolidayCsv.ParseFormattedDate` | gotobi_notifier.py:95-115 | Round trip: a valid date after 1900, written as YYYYMMDD or with `-`, `/` or `.` between the fields, parses back to itself. |
| `HolidayCsv.ScanTokens` | gotobi_notifier.py:155-158 | The token loop adds to the key set exactly the keys of the parsable tokens. |
| `HolidayCsv.ScanLine` | gotobi_notifier.py:132-158 | One line adds to the key set exactly the keys of the line's parsable tokens. |
| `HolidayCsv.LoadHolidayKeys` | gotobi_notifier.py:118-162 | A missing file raises `FileNotFoundError`, and a file without one valid date raises `ValueError`. Otherwise the result is the union of all lines' keys. |
| `HolidayCsv.FileKeysSound` | gotobi_notifier.py:129-158 | Every key read from a file decodes to a valid date after 1900. |
| `HolidayLines.LineContentShape` | gotobi_notifier.py:132-147 | What a line keeps after comment removal is either empty or kept text: non-empty, no white space at either end, and no `\r`, `#` or `//`. |
| `HolidayLines.KeptContent` | gotobi_notifier.py:132-147 | Kept text passes through the line cleaning and comment removal unchanged. |
| `HolidayLines.CommentLine` | gotobi_notifier.py:136-138 | A line starting with `#` or `//` keeps nothing and adds no keys. |
| `HolidayLines.HashComment` | gotobi_notifier.py:140-143 | Everything from an inline ` # ` on is dropped. What remains is the kept text before it. |
| `HolidayLines.SlashComment` | gotobi_notifier.py:144-146 | Everything from an inline ` // ` on is dropped. What remains is the kept text before it. |
| `HolidayLines.LineTokensShape` | gotobi_notifier.py:150-153 | Every token is non-empty and has no white space at either end. No token holds `,`, `;`, a tab, `#` or `\r`. A line that keeps nothing has no tokens. |
| `HolidayLines.DelimitedPair` | gotobi_notifier.py:150-151 | `,`, `;` and tab split tokens alike: two kept, delimiter-free texts joined by any one of them give exactly those two tokens, in order. |
| `HolidayLines.SingleDateLine` | gotobi_notifier.py:132-158 | A line holding only a formatted date yields exactly that date's key. |
| `HolidayLines.DateWithHashComment` | gotobi_notifier.py:140-158 | A formatted date followed by an inline ` # ` comment yields exactly that date's key, whatever the comment says. |
| `HolidayLines.DateWithSlashComment` | gotobi_notifier.py:144-158 | A formatted date followed by an inline ` // ` comment yields exactly that date's key, whatever the comment says. |
| `HolidayLines.TwoDateLine` | gotobi_notifier.py:150-158 | Two formatted dates joined by `,`, `;` or a tab yield exactly the keys of both dates. |
| `BusinessDays.IsBusinessDay` | gotobi_notifier.py:181-189 | The classifier inside the roll-back loop: not a weekend, not a holiday of an enabled and loaded calendar, and not a closure day when closure days are excluded. Its rules are proved in `BusinessDayRules`. |
| `BusinessDays.BusinessDayRules` | gotobi_notifier.py:181-189 | A business day is Monday to Friday, absent from each enabled and loaded calendar, and under the closure rule not December 31 or January 1 to 3. A disabled or unloaded calendar has no effect. With both calendars absent and the closure rule off, the business days are exactly the weekdays. |
| `BusinessDays.NormalizeBizDay` | gotobi_notifier.py:169-192 | The loop returns `Normalize(d)`, a valid date in [d − 60 days, d]. |
| `BusinessDays.RollBackWalk` | gotobi_notifier.py:179-192 | With n checks left, the walk stops after k ≤ n steps on the date k days back. Every date passed over was not a business day. Unless k = n, the stopping date is a business day. |
| `BusinessDays.RollBackShape` | gotobi_notifier.py:179-192 | From a valid date, the roll-back lands on a valid date whose day number is k ≤ n smaller, the date k days back. Every date passed over was not a business day. Unless k = n, the landing date is a business day. |
| `BusinessDays.NormalizeWithinBound` | gotobi_notifier.py:179-192 | The result is valid, never after d, and at most 60 days before it. |
| `BusinessDays.NormalizeFindsLatestBusinessDay` | gotobi_notifier.py:179-192 | If the loop returned early, the result is a business day and every date after it, up to and including d, is not. Otherwise the result is exactly d − 60. |
| `BusinessDays.NormalizeFixesBusinessDay` | gotobi_notifier.py:189-190 | A business day normalizes to itself. |
| `BusinessDays.NormalizeIdempotent` | gotobi_notifier.py:179-192 | If the loop found its business day, normalizing the result again changes nothing. |
| `BusinessDays.WeekendNeverBusiness` | gotobi_notifier.py:181 | Saturdays and Sundays are never business days, whatever the holidays and flags. |
| `Fixing.BuildGotobiBaseDays` | gotobi_notifier.py:195-211 | The appending loop builds exactly `GotobiBaseDays`. |
| `Fixing.BaseDaysCases` | gotobi_notifier.py:195-211 | The candidates are [5, 10, 15, 20, 25] in a month of 28 or 29 days (plus its last day in February when enabled), [5, ..., 30] in a month of 30 or 31 days where day 31 is not a candidate, and [5, ..., 30, 31] in a 31-day month where it is. |
| `Fixing.BaseDaysSpec` | gotobi_notifier.py:195-211 | The candidates are strictly ascending, within 1..month length, and are exactly the standard days that fit, plus 31 when enabled and present (but not in December under the closure rule), plus February's last day when enabled. |
| `Fixing.IsFixingDay` | gotobi_notifier.py:214-241 | The loop with `continue` and early return computes exactly `FixingDay`. |
| `Fixing.FirstQualifyingNone` | gotobi_notifier.py:226-241 | The result is not found exactly when no candidate qualifies, and then it is `(False, 0)`. |
| `Fixing.FirstQualifyingFirst` | gotobi_notifier.py:226-241 | When found, the returned base day is a candidate that qualifies, and no earlier candidate does. |
| `Fixing.FixingDaySound` | gotobi_notifier.py:214-241 | A fixing day is the normalization of a candidate of its own month. It lies on or up to 60 days before that base date, and under the closure rule it is never a closure day. |
| `Fixing.ChooseFixingDate` | gotobi_notifier.py:244-259 | Today is taken whenever it is a fixing day. Tomorrow is taken only when today is not one and tomorrow is. Otherwise the result is `(None, 0)`. The base day returned is the fixing day's own. |
| `NotifyWindow.InNotifyWindow` | gotobi_notifier.py:262-268 | `window_start <= now_jst < window_end`, comparing instants by date and then by time. Its meaning on a time line is proved in `WindowInterval`. |
| `NotifyWindow.InstantOrder` | gotobi_notifier.py:262-268 | Comparing date and then time agrees with comparing absolute minutes. |
| `NotifyWindow.WindowInterval` | gotobi_notifier.py:262-268 | The window is the interval [start, end) of absolute minutes. It lasts a day minus the start time plus the end time. |
| `NotifyWindow.WindowHalfOpen` | gotobi_notifier.py:262-268 | The start instant is inside the window. The end instant is outside, and so is every instant before the start. |
| `NotifyWindow.WindowWithinTwoDays` | gotobi_notifier.py:262-268 | An instant in the window is on the fixing day or on the day before it. |
| `Notifier.ParseInt` | gotobi_notifier.py:503 | `int(s)` on a string succeeds exactly when, after `int()`'s white space (space, `\t` to `\r`, and non-ASCII white space) is stripped from both ends, an optional sign is followed by digit groups joined by single underscores. Otherwise it raises `ValueError`. A leading `-` gives a value of at most 0, and any other text a value of at least 0. |
| `Notifier.SeparatorStripped` | gotobi_notifier.py:96 | `str.strip()` removes the information separator U+001C, because `str.isspace` counts it as white space. |
| `Notifier.SeparatorIsNotIntSpace` | gotobi_notifier.py:503 | `int()` does not skip U+001C, so `int("\x1c5")` raises `ValueError`. |
| `Notifier.IntSpaceSkipped` | gotobi_notifier.py:503 | `int()` skips a leading space and a trailing newline: `int(" 5\n")` is 5. |
| `Notifier.ParseIntText` | gotobi_notifier.py:503 | `int()` reads back the decimal text of every integer. |
| `Notifier.IntOrZero` | gotobi_notifier.py:503 | `int(value or 0)`: an integer gives itself, and `True` and `False` give 1 and 0. Falsy values (`null`, `""`, `[]`, `{}`) give 0. A non-empty string is read by `int()`, and a non-empty list or object raises `TypeError`. Nothing else fails. |
| `Notifier.MissingFieldIsZero` | gotobi_notifier.py:503 | A missing or falsy last-notified field counts as 0. |
| `Notifier.Deliver` | gotobi_notifier.py:511-527 | Local mode never raises and reports whether the local notice was shown. In ntfy mode with sending off, nothing is sent. In ntfy mode with sending on, a failed POST raises, and it is the only case that does. |
| `Notifier.Payload` | gotobi_notifier.py:530-541 | The payload has the key, timestamp and mode fields, plus server and topic exactly in ntfy mode. |
| `Notifier.PayloadUpdate` | gotobi_notifier.py:542-544 | After `state.update(payload)` the fixing key reads back and the payload fields are set. Every other field of the old state is unchanged. |
| `Notifier.Notify` | gotobi_notifier.py:501-548 | Past the window, a fixing day is suppressed exactly when the stored key equals its key. Otherwise it is delivered if delivery succeeds. The state is saved, as the old state updated with the payload, exactly when state updates are on. |
| `Notifier.LoadCalendars` | gotobi_notifier.py:483-488 | Each enabled calendar is loaded, Japan first. The first failing file ends the run. |
| `Notifier.RunOnce` | gotobi_notifier.py:479-549 | The run computes exactly `Run`. |
| `Notifier.RunNotifiesFixingDayInWindow` | gotobi_notifier.py:490-499 | A run reaches the duplicate check only for a fixing day that is today or tomorrow, with that day's own base day, and inside the window when the window is enforced. |
| `Notifier.RunDedup` | gotobi_notifier.py:501-506 | A fixing day is suppressed only when the stored key is its key, and notified only when the stored key differs. Storing the key makes the same run suppress it. |
| `Notifier.RunSavesFixingKey` | gotobi_notifier.py:529-548 | After a notification the state is saved exactly when state updates are on. The saved state is the old state updated with the payload, and it reads back the fixing key. |
| `Notifier.NotifiedAtMostOnce` | gotobi_notifier.py:501-548 | Once a run has notified a fixing day and saved the state, a later run with the same calendars never notifies that fixing day again. |
| `Notifier.RunRaises` | gotobi_notifier.py:483-527 | A run raises only for a failing holiday file, an unreadable last-notified field, or a failed ntfy POST. |
| `Scenarios.DecemberThirtieth` | gotobi_notifier.py:195-241 | Under the default settings, when December 30 is a business day it is December's fixing day for base day 30. Day 31 is not a candidate. |
| `Scenarios.December2026` | gotobi_notifier.py:195-241 | Wednesday 2026-12-30 is the fixing day for base day 30. |
| `Scenarios.January2026RollBack` | gotobi_notifier.py:169-241 | If 2026-01-05 is a holiday, base day 5 of January 2026 rolls back to 2025-12-30, which is December's own fixing day. |

## Left out

- File and JSON I/O. The model gets the lines of each holiday file and the map that `load_state` returns. It leaves out:
  - opening the files;
  - the UTF-8 decoding;
  - `load_state`'s fallback to `{}` for a missing file, for any exception while opening, reading or parsing it, and for JSON that is not an object;
  - `save_state` and its temporary-file rename.

  `Notifier.Outcome` carries the state that would be written.
- `ntfy_publish` and `local_notify`, together with `_escape_applescript_string`. Each is an HTTP POST or an operating-system call. Their success is the `deliveryOk` parameter, and a failed ntfy POST is `PublishFailed`.
- `build_message`, the `print` logging, `datetime.now`, `parse_args`, the environment defaults and `_parse_now_arg_to_jst`. The run takes the current JST instant and its ISO text as parameters.
- The retry loop, the ten-second sleep and the exit-status mapping in `main`. A run ends in `Raised(failure)`, and the exception it stands for is named in `Notifier.Failure`.
- The title and priority settings, and the file paths in `Config`. They only feed the left-out I/O.
- Seconds within a minute. The window's bounds are whole minutes, so dropping seconds does not change the outcome.
- Python's date range of years 1 to 9999. Its `OverflowError` is not modelled, and years are unbounded.
- Calendar.DaysInMonth: the source is never called with a month outside 1..12. For such months the model returns 30, as the source does.
- HolidayCsv.ParseCompact: `str.isdigit` also accepts non-ASCII digits. The source then either reads them (full-width digits) or has `int()` raise `ValueError`, which ends the run (superscript digits). The model accepts ASCII digits only and rejects such tokens.
- Notifier.ParseInt: only ASCII digits are modelled. `int()` also reads other Unicode decimal digits, such as full-width ones.
- Notifier.Json: JSON numbers with a fraction are not modelled. `int()` would truncate such a stored value.

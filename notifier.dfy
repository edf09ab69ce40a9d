/**
  One run of the notifier (`run_once`): load the holiday calendars, pick
  today's or tomorrow's fixing date, check the notification window, suppress
  a fixing date that was already notified, deliver, and record the fixing
  date in the state. The state file is given as the map `load_state`
  produced; the delivery is an abstract step whose success is a parameter.
*/
module Notifier {
  import opened Wrappers
  import opened Calendar
  import opened Text
  import opened HolidayCsv
  import opened Settings
  import opened BusinessDays
  import opened Fixing
  import opened NotifyWindow

  /** A JSON value as `json.load` returns it (numbers with a fraction are not modelled). */
  datatype Json =
    | JNull
    | JBool(b: bool)
    | JInt(i: int)
    | JStr(s: string)
    | JArray(items: seq<Json>)
    | JObject(fields: map<string, Json>)

  const LastKeyField: string := "last_notified_fixing_yyyymmdd"
  const NotifiedAtField: string := "last_notified_at_jst"
  const ModeField: string := "notify_mode"
  const ServerField: string := "ntfy_server"
  const TopicField: string := "ntfy_topic"

  /** The exceptions a run can end in. */
  datatype Failure =
    | HolidayLoad(error: LoadError)  // FileNotFoundError or ValueError from `load_holiday_keys`
    | StateValueError                // `int()` of a string that is not an integer
    | StateTypeError                 // `int()` of a non-empty list or object
    | PublishFailed                  // the ntfy POST raised

  /** How the message went out. */
  datatype Delivery =
    | LocalNotification(shown: bool)  // `local_notify`; a failure only logs a warning
    | NtfyPublished
    | NtfySkipped                     // ntfy mode with sending switched off

  datatype Outcome =
    | NoFixing
    | OutsideWindow(fixing: Date)
    | AlreadyNotified(fixing: Date)
    | Notified(fixing: Date, baseDay: int, delivery: Delivery, saved: Option<map<string, Json>>)
    | Raised(failure: Failure)

  // ---------------------------------------------------------------------------
  // int(state.get(...) or 0)
  // ---------------------------------------------------------------------------

  /** Digits, possibly in groups joined by single underscores, as `int()` accepts them. */
  predicate DigitGroups(u: string) {
    u != [] && IsDigit(u[0]) && IsDigit(u[|u| - 1])
    && (forall i :: 0 <= i < |u| ==> IsDigit(u[i]) || u[i] == '_')
    && (forall i :: 0 <= i < |u| - 1 ==> !(u[i] == '_' && u[i + 1] == '_'))
  }

  lemma UnderscoresRemoved(u: string)
    requires forall i :: 0 <= i < |u| ==> IsDigit(u[i]) || u[i] == '_'
    ensures AllDigits(RemoveAll(u, '_'))
  {
    var r := RemoveAll(u, '_');
    RemoveAllCounts(u, '_');
    forall i | 0 <= i < |r|
      ensures IsDigit(r[i])
    {
      var c := r[i];
      assert c != '_';
      assert multiset(r)[c] > 0;
      assert c in u;
    }
  }

  /** The value of digit groups: the digits read with the underscores left out. */
  function GroupsValue(u: string): nat
    requires DigitGroups(u)
  {
    UnderscoresRemoved(u);
    DecimalValue(RemoveAll(u, '_'))
  }

  /**
    The white space `int()` skips around a number: the ASCII blanks space and
    tab through carriage return, and every non-ASCII character `str.isspace`
    accepts. The separators U+001C to U+001F count for `str.strip` but not here.
  */
  predicate IsIntSpace(c: char) {
    c == ' ' || ('\t' <= c <= '\r') || (c as int > 127 && IsSpace(c))
  }

  function IntTrimLeft(s: string): (r: string)
    ensures |r| <= |s| && r == s[|s| - |r|..]
    ensures r != [] ==> !IsIntSpace(r[0])
    ensures forall i :: 0 <= i < |s| - |r| ==> IsIntSpace(s[i])
  {
    if s != [] && IsIntSpace(s[0]) then IntTrimLeft(s[1..]) else s
  }

  function IntTrimRight(s: string): (r: string)
    ensures |r| <= |s| && r == s[..|r|]
    ensures r != [] ==> !IsIntSpace(r[|r| - 1])
    ensures forall i :: |r| <= i < |s| ==> IsIntSpace(s[i])
  {
    if s != [] && IsIntSpace(s[|s| - 1]) then IntTrimRight(s[..|s| - 1]) else s
  }

  /** The text `int()` reads: `s` without the white space of `IsIntSpace` at either end. */
  function IntStrip(s: string): (r: string)
    ensures r != [] ==> !IsIntSpace(r[0]) && !IsIntSpace(r[|r| - 1])
    ensures r == [] <==> forall i :: 0 <= i < |s| ==> IsIntSpace(s[i])
  {
    IntTrimRight(IntTrimLeft(s))
  }

  /** `int(s)` for a string: surrounding white space, an optional sign, then digit groups. */
  function ParseInt(s: string): (r: Result<int, Failure>)
    ensures r.Err? ==> r.error == StateValueError
    ensures IntStrip(s) == [] ==> r.Err?
    ensures var t := IntStrip(s);
      r.Ok? <==> DigitGroups(t) || (t != [] && (t[0] == '+' || t[0] == '-') && DigitGroups(t[1..]))
    ensures var t := IntStrip(s);
      r.Ok? && t[0] == '-' ==> r.value <= 0
    ensures var t := IntStrip(s);
      r.Ok? && t[0] != '-' ==> r.value >= 0
  {
    var t := IntStrip(s);
    if t != [] && (t[0] == '+' || t[0] == '-') then
      var u := t[1..];
      if !DigitGroups(u) then Err(StateValueError)
      else if t[0] == '-' then Ok(0 - GroupsValue(u))
      else Ok(GroupsValue(u))
    else if DigitGroups(t) then Ok(GroupsValue(t))
    else Err(StateValueError)
  }

  /** A string that neither starts nor ends with `int()` white space is what `int()` reads. */
  lemma IntStripUnpadded(s: string)
    requires s != [] && !IsIntSpace(s[0]) && !IsIntSpace(s[|s| - 1])
    ensures IntStrip(s) == s
  {
  }

  /** The file separator U+001C is white space to `str.strip`: stripping U+001C followed by 5 leaves 5. */
  lemma SeparatorStripped()
    ensures Strip("\U{1C}5") == "5"
  {
    var s := "\U{1C}5";
    assert TrimLeft(s) == "5" by { assert IsSpace(s[0]) && s[1..] == "5"; }
  }

  /**
    ... but not to `int()`: a stored value of U+001C followed by 5 is refused,
    although its strip is the valid number 5 (`SeparatorStripped`).
  */
  lemma SeparatorIsNotIntSpace()
    ensures ParseInt("\U{1C}5") == Err(StateValueError)
  {
    var s := "\U{1C}5";
    assert IntStrip(s) == s by {
      assert !IsIntSpace(s[0]) && !IsIntSpace(s[1]);
      IntStripUnpadded(s);
    }
    assert !DigitGroups(s) by { assert !IsDigit(s[0]); }
  }

  /** Ordinary white space around a number is skipped. */
  lemma IntSpaceSkipped()
    ensures ParseInt(" 5\n") == Ok(5)
  {
    PaddedFive();
    FiveIsOneGroup();
  }

  lemma FiveIsOneGroup()
    ensures DigitGroups("5") && GroupsValue("5") == 5
  {
    DigitsAreGroups("5");
    assert "5"[..0] == [];
  }

  lemma PaddedFive()
    ensures IntStrip(" 5\n") == "5"
  {
    var s := " 5\n";
    assert IntTrimLeft(s) == "5\n" by { assert IsIntSpace(s[0]) && s[1..] == "5\n"; }
    assert IntTrimRight("5\n") == "5" by { assert "5\n"[..1] == "5"; }
  }

  /** `str(i)`: the decimal text `json.dump` and `int()` agree on. */
  function IntText(i: int): string {
    if i < 0 then "-" + DecimalString(-i) else DecimalString(i)
  }

  /** `int()` reads back what `str()` writes, for every integer. */
  lemma ParseIntText(i: int)
    ensures ParseInt(IntText(i)) == Ok(i)
  {
    var n: nat := if i < 0 then -i else i;
    var digits := DecimalString(n);
    DigitsAreGroups(digits);
    IntTextUnpadded(i);
    var t := IntText(i);
    if i < 0 {
      assert t[0] == '-' && t[1..] == digits;
    } else {
      assert t == digits;
      assert t[0] != '+' && t[0] != '-' by { assert IsDigit(digits[0]); }
    }
  }

  lemma IntTextUnpadded(i: int)
    ensures IntStrip(IntText(i)) == IntText(i)
  {
    var n: nat := if i < 0 then -i else i;
    var digits := DecimalString(n);
    var t := IntText(i);
    assert IsDigit(t[|t| - 1]) by { assert t[|t| - 1] == digits[|digits| - 1]; }
    assert IsDigit(t[0]) || t[0] == '-' by { assert IsDigit(digits[0]); }
    IntStripUnpadded(t);
  }

  /** Plain digits are one group, worth their decimal value. */
  lemma DigitsAreGroups(digits: string)
    requires digits != [] && AllDigits(digits)
    ensures DigitGroups(digits) && GroupsValue(digits) == DecimalValue(digits)
  {
    assert '_' !in digits by {
      forall k | 0 <= k < |digits| ensures digits[k] != '_' { assert IsDigit(digits[k]); }
    }
    RemoveAllAbsent(digits, '_');
  }

  /** `int(value or 0)`: falsy values give 0, `bool` is an `int`, containers cannot be converted. */
  function IntOrZero(v: Json): (r: Result<int, Failure>)
    ensures v.JInt? ==> r == Ok(v.i)
    ensures v.JBool? ==> r == Ok(if v.b then 1 else 0)
    ensures v == JNull || v == JStr([]) || v == JArray([]) || v == JObject(map[]) ==> r == Ok(0)
    ensures (v.JArray? && v.items != []) || (v.JObject? && v.fields != map[]) ==> r == Err(StateTypeError)
    ensures v.JStr? && v.s != [] ==> r == ParseInt(v.s)
    ensures r.Err? ==> v.JStr? || (v.JArray? && v.items != []) || (v.JObject? && v.fields != map[])
  {
    match v
    case JNull => Ok(0)
    case JBool(b) => Ok(if b then 1 else 0)
    case JInt(i) => Ok(i)
    case JStr(s) => if s == [] then Ok(0) else ParseInt(s)
    case JArray(items) => if items == [] then Ok(0) else Err(StateTypeError)
    case JObject(fields) => if fields == map[] then Ok(0) else Err(StateTypeError)
  }

  /** The fixing key recorded by the last notification; a missing field counts as 0. */
  function LastNotifiedKey(state: map<string, Json>): Result<int, Failure> {
    IntOrZero(if LastKeyField in state then state[LastKeyField] else JNull)
  }

  lemma MissingFieldIsZero(state: map<string, Json>)
    requires LastKeyField !in state || state[LastKeyField] in {JNull, JInt(0), JBool(false), JStr("")}
    ensures LastNotifiedKey(state) == Ok(0)
  {
  }

  // ---------------------------------------------------------------------------
  // The steps of a run
  // ---------------------------------------------------------------------------

  /** What `load_holiday_keys` returns for a file given as its lines, or raises. */
  function HolidayFile(file: Option<seq<string>>): Result<set<int>, LoadError> {
    if file.None? then Err(FileNotFound)
    else if FileKeys(file.value) == {} then Err(NoValidDates)
    else Ok(FileKeys(file.value))
  }

  /** The enabled calendars, Japan first; the first file that fails ends the run. */
  function LoadHolidays(cfg: Config, jpFile: Option<seq<string>>, usFile: Option<seq<string>>): Result<HolidaySets, Failure> {
    var jp := HolidayFile(jpFile);
    var us := HolidayFile(usFile);
    if cfg.enableHolidayJp && jp.Err? then Err(HolidayLoad(jp.error))
    else if cfg.enableHolidayUs && us.Err? then Err(HolidayLoad(us.error))
    else Ok(HolidaySets(
      if cfg.enableHolidayJp then Some(jp.value) else None,
      if cfg.enableHolidayUs then Some(us.value) else None))
  }

  /** Local mode never fails; ntfy mode raises when the POST fails, unless sending is off. */
  function Deliver(cfg: Config, deliveryOk: bool): (r: Result<Delivery, Failure>)
    ensures r.Err? <==> cfg.notifyMode != "local" && cfg.enableNtfy && !deliveryOk
    ensures r.Err? ==> r.error == PublishFailed
    ensures r.Ok? ==> (r.value.LocalNotification? <==> cfg.notifyMode == "local")
    ensures r.Ok? && r.value.LocalNotification? ==> r.value.shown == deliveryOk
    ensures r == Ok(NtfySkipped) <==> cfg.notifyMode != "local" && !cfg.enableNtfy
  {
    if cfg.notifyMode == "local" then Ok(LocalNotification(deliveryOk))
    else if !cfg.enableNtfy then Ok(NtfySkipped)
    else if deliveryOk then Ok(NtfyPublished)
    else Err(PublishFailed)
  }

  /** The fields written over the state after a notification. */
  function Payload(fixingKey: int, nowIso: string, cfg: Config): (p: map<string, Json>)
    ensures p.Keys == {LastKeyField, NotifiedAtField, ModeField}
      + (if cfg.notifyMode == "ntfy" then {ServerField, TopicField} else {})
  {
    var base := map[LastKeyField := JInt(fixingKey), NotifiedAtField := JStr(nowIso), ModeField := JStr(cfg.notifyMode)];
    if cfg.notifyMode == "ntfy" then base[ServerField := JStr(cfg.ntfyServer)][TopicField := JStr(cfg.ntfyTopic)]
    else base
  }

  /**
    From the duplicate check on, for a fixing date that passed the window:
    the fixing date is suppressed exactly when the stored key is its key, and
    otherwise delivered and (when state updates are on) recorded over the state.
  */
  function Notify(fixing: Date, baseDay: int, nowIso: string, cfg: Config, state: map<string, Json>, deliveryOk: bool): (o: Outcome)
    ensures o.Notified? || o.AlreadyNotified? || o.Raised?
    ensures (o.Notified? || o.AlreadyNotified?) ==> o.fixing == fixing
    ensures o.AlreadyNotified? <==> LastNotifiedKey(state) == Ok(DateKey(fixing))
    ensures o.Notified? <==> LastNotifiedKey(state).Ok? && LastNotifiedKey(state).value != DateKey(fixing) && Deliver(cfg, deliveryOk).Ok?
    ensures o.Notified? ==> o.baseDay == baseDay && o.delivery == Deliver(cfg, deliveryOk).value
    ensures o.Notified? ==> (o.saved.Some? <==> cfg.enableStateUpdate)
    ensures o.Notified? && o.saved.Some? ==> o.saved.value == state + Payload(DateKey(fixing), nowIso, cfg)
  {
    match LastNotifiedKey(state)
    case Err(e) => Raised(e)
    case Ok(last) =>
      if last == DateKey(fixing) then AlreadyNotified(fixing)
      else match Deliver(cfg, deliveryOk)
        case Err(e) => Raised(e)
        case Ok(delivery) =>
          Notified(fixing, baseDay, delivery,
            if cfg.enableStateUpdate then Some(state + Payload(DateKey(fixing), nowIso, cfg)) else None)
  }

  /**
    `state.update(payload)`: the updated state reads back the fixing key,
    holds every payload field, and keeps every other field unchanged.
  */
  lemma PayloadUpdate(state: map<string, Json>, fixingKey: int, nowIso: string, cfg: Config)
    ensures var saved := state + Payload(fixingKey, nowIso, cfg);
      LastNotifiedKey(saved) == Ok(fixingKey)
      && saved.Keys == state.Keys + Payload(fixingKey, nowIso, cfg).Keys
      && saved[NotifiedAtField] == JStr(nowIso)
      && saved[ModeField] == JStr(cfg.notifyMode)
      && (cfg.notifyMode == "ntfy" ==> saved[ServerField] == JStr(cfg.ntfyServer) && saved[TopicField] == JStr(cfg.ntfyTopic))
      && (forall k :: k in state && k !in Payload(fixingKey, nowIso, cfg) ==> saved[k] == state[k])
  {
    var p := Payload(fixingKey, nowIso, cfg);
    assert p[LastKeyField] == JInt(fixingKey);
  }

  /** What one run does, as a value: the reference the imperative run is proved against. */
  function Run(now: Instant, nowIso: string, cfg: Config, jpFile: Option<seq<string>>, usFile: Option<seq<string>>,
               state: map<string, Json>, deliveryOk: bool): Outcome
    requires ValidInstant(now)
  {
    match LoadHolidays(cfg, jpFile, usFile)
    case Err(e) => Raised(e)
    case Ok(hol) =>
      var chosen := ChooseFixingDate(now.date, cfg, hol);
      if chosen.0.None? then NoFixing
      else if cfg.enforceWindow && !InNotifyWindow(now, chosen.0.value, cfg) then OutsideWindow(chosen.0.value)
      else Notify(chosen.0.value, chosen.1, nowIso, cfg, state, deliveryOk)
  }

  /** The holiday part of `run_once`: each enabled calendar is read, Japan first. */
  method LoadCalendars(cfg: Config, jpFile: Option<seq<string>>, usFile: Option<seq<string>>)
    returns (r: Result<HolidaySets, Failure>)
    ensures r == LoadHolidays(cfg, jpFile, usFile)
  {
    var jp: Option<set<int>> := None;
    var us: Option<set<int>> := None;
    if cfg.enableHolidayJp {
      var loaded := LoadHolidayKeys(jpFile);
      assert loaded == HolidayFile(jpFile);
      if loaded.Err? {
        return Err(HolidayLoad(loaded.error));
      }
      jp := Some(loaded.value);
    }
    if cfg.enableHolidayUs {
      var loaded := LoadHolidayKeys(usFile);
      assert loaded == HolidayFile(usFile);
      if loaded.Err? {
        return Err(HolidayLoad(loaded.error));
      }
      us := Some(loaded.value);
    }
    return Ok(HolidaySets(jp, us));
  }

  /**
    `run_once`: loads the enabled calendars, chooses the fixing date, applies
    the window and the duplicate check, delivers, and updates the state map
    with the payload.
  */
  method RunOnce(now: Instant, nowIso: string, cfg: Config, jpFile: Option<seq<string>>, usFile: Option<seq<string>>,
                 state: map<string, Json>, deliveryOk: bool) returns (r: Outcome)
    requires ValidInstant(now)
    ensures r == Run(now, nowIso, cfg, jpFile, usFile, state, deliveryOk)
  {
    var loaded := LoadCalendars(cfg, jpFile, usFile);
    if loaded.Err? {
      return Raised(loaded.error);
    }
    var hol := loaded.value;

    var (fixingDate, baseDay) := ChooseFixingDate(now.date, cfg, hol);
    assert (fixingDate, baseDay) == ChooseFixingDate(now.date, cfg, hol);
    if fixingDate.None? {
      return NoFixing;
    }
    var fixing := fixingDate.value;
    if cfg.enforceWindow && !InNotifyWindow(now, fixing, cfg) {
      return OutsideWindow(fixing);
    }

    assert Run(now, nowIso, cfg, jpFile, usFile, state, deliveryOk) == Notify(fixing, baseDay, nowIso, cfg, state, deliveryOk);
    var fixingKey := DateKey(fixing);
    var lastKey := LastNotifiedKey(state);
    if lastKey.Err? {
      return Raised(lastKey.error);
    }
    if lastKey.value == fixingKey {
      return AlreadyNotified(fixing);
    }

    var delivery: Delivery;
    if cfg.notifyMode == "local" {
      delivery := LocalNotification(deliveryOk);
    } else if cfg.enableNtfy {
      if !deliveryOk {
        return Raised(PublishFailed);
      }
      delivery := NtfyPublished;
    } else {
      delivery := NtfySkipped;
    }

    var saved: Option<map<string, Json>> := None;
    if cfg.enableStateUpdate {
      var payload := map[LastKeyField := JInt(fixingKey), NotifiedAtField := JStr(nowIso), ModeField := JStr(cfg.notifyMode)];
      if cfg.notifyMode == "ntfy" {
        payload := payload[ServerField := JStr(cfg.ntfyServer)][TopicField := JStr(cfg.ntfyTopic)];
      }
      assert payload == Payload(fixingKey, nowIso, cfg);
      var updated := state;
      updated := updated + payload;
      saved := Some(updated);
    }
    assert Deliver(cfg, deliveryOk) == Ok(delivery);
    return Notified(fixing, baseDay, delivery, saved);
  }

  // ---------------------------------------------------------------------------
  // Properties of a run
  // ---------------------------------------------------------------------------

  /**
    A run that gets past the window reaches the duplicate check on a fixing
    date of today or tomorrow, with the base day it came from, and (when the
    window is enforced) inside the window.
  */
  lemma RunNotifiesFixingDayInWindow(now: Instant, nowIso: string, cfg: Config, jpFile: Option<seq<string>>,
                                     usFile: Option<seq<string>>, state: map<string, Json>, deliveryOk: bool)
    requires ValidInstant(now)
    ensures var r := Run(now, nowIso, cfg, jpFile, usFile, state, deliveryOk);
      (r.Notified? || r.AlreadyNotified?) ==>
        LoadHolidays(cfg, jpFile, usFile).Ok?
        && FixingDay(r.fixing, cfg, LoadHolidays(cfg, jpFile, usFile).value).0
        && (r.fixing == now.date || r.fixing == NextDay(now.date))
        && (cfg.enforceWindow ==> InNotifyWindow(now, r.fixing, cfg))
    ensures var r := Run(now, nowIso, cfg, jpFile, usFile, state, deliveryOk);
      r.Notified? ==> FixingDay(r.fixing, cfg, LoadHolidays(cfg, jpFile, usFile).value) == (true, r.baseDay)
  {
    var r := Run(now, nowIso, cfg, jpFile, usFile, state, deliveryOk);
    if r.Notified? || r.AlreadyNotified? {
      var hol := LoadHolidays(cfg, jpFile, usFile).value;
      var chosen := ChooseFixingDate(now.date, cfg, hol);
      assert r == Notify(chosen.0.value, chosen.1, nowIso, cfg, state, deliveryOk);
    }
  }

  /**
    A run that reaches the duplicate check is `Notify` on the chosen date,
    and a run on another state with everything else the same reaches it too.
  */
  lemma RunThroughNotify(now: Instant, nowIso: string, cfg: Config, jpFile: Option<seq<string>>,
                         usFile: Option<seq<string>>, state: map<string, Json>, other: map<string, Json>,
                         deliveryOk: bool)
    requires ValidInstant(now)
    requires Run(now, nowIso, cfg, jpFile, usFile, state, deliveryOk).Notified?
          || Run(now, nowIso, cfg, jpFile, usFile, state, deliveryOk).AlreadyNotified?
    ensures LoadHolidays(cfg, jpFile, usFile).Ok?
    ensures var chosen := ChooseFixingDate(now.date, cfg, LoadHolidays(cfg, jpFile, usFile).value);
      chosen.0.Some?
      && Run(now, nowIso, cfg, jpFile, usFile, state, deliveryOk)
         == Notify(chosen.0.value, chosen.1, nowIso, cfg, state, deliveryOk)
      && Run(now, nowIso, cfg, jpFile, usFile, other, deliveryOk)
         == Notify(chosen.0.value, chosen.1, nowIso, cfg, other, deliveryOk)
  {
  }

  /**
    The duplicate check in a whole run: a fixing date is suppressed only when
    the stored key equals its key, notified only when it differs, and a run
    whose state already holds the key it would notify suppresses it.
  */
  lemma RunDedup(now: Instant, nowIso: string, cfg: Config, jpFile: Option<seq<string>>,
                 usFile: Option<seq<string>>, state: map<string, Json>, deliveryOk: bool)
    requires ValidInstant(now)
    ensures var r := Run(now, nowIso, cfg, jpFile, usFile, state, deliveryOk);
      r.AlreadyNotified? ==> LastNotifiedKey(state) == Ok(DateKey(r.fixing))
    ensures var r := Run(now, nowIso, cfg, jpFile, usFile, state, deliveryOk);
      r.Notified? ==> LastNotifiedKey(state).Ok? && LastNotifiedKey(state).value != DateKey(r.fixing)
    ensures var r := Run(now, nowIso, cfg, jpFile, usFile, state, deliveryOk);
      r.Notified? ==>
        (Run(now, nowIso, cfg, jpFile, usFile, state[LastKeyField := JInt(DateKey(r.fixing))], deliveryOk)
         == AlreadyNotified(r.fixing))
  {
    var r := Run(now, nowIso, cfg, jpFile, usFile, state, deliveryOk);
    if r.Notified? || r.AlreadyNotified? {
      var marked := state[LastKeyField := JInt(DateKey(r.fixing))];
      RunThroughNotify(now, nowIso, cfg, jpFile, usFile, state, marked, deliveryOk);
      assert LastNotifiedKey(marked) == Ok(DateKey(r.fixing));
    }
  }

  /**
    After a notification the state is saved exactly when state updates are
    on, and the saved state is the old one updated with the payload.
  */
  lemma RunSavesFixingKey(now: Instant, nowIso: string, cfg: Config, jpFile: Option<seq<string>>,
                          usFile: Option<seq<string>>, state: map<string, Json>, deliveryOk: bool)
    requires ValidInstant(now)
    ensures var r := Run(now, nowIso, cfg, jpFile, usFile, state, deliveryOk);
      r.Notified? ==> (r.saved.Some? <==> cfg.enableStateUpdate)
    ensures var r := Run(now, nowIso, cfg, jpFile, usFile, state, deliveryOk);
      r.Notified? && r.saved.Some? ==>
        r.saved.value == state + Payload(DateKey(r.fixing), nowIso, cfg)
        && LastNotifiedKey(r.saved.value) == Ok(DateKey(r.fixing))
  {
    var r := Run(now, nowIso, cfg, jpFile, usFile, state, deliveryOk);
    if r.Notified? {
      var hol := LoadHolidays(cfg, jpFile, usFile).value;
      var chosen := ChooseFixingDate(now.date, cfg, hol);
      assert r == Notify(chosen.0.value, chosen.1, nowIso, cfg, state, deliveryOk);
      PayloadUpdate(state, DateKey(r.fixing), nowIso, cfg);
    }
  }

  /**
    Two runs in a row with the same calendars: once the first has notified a
    fixing date and saved the state, the second, whatever its instant and
    whatever the delivery does, does not notify that fixing date again.
  */
  lemma NotifiedAtMostOnce(now1: Instant, now2: Instant, iso1: string, iso2: string, cfg: Config,
                           jpFile: Option<seq<string>>, usFile: Option<seq<string>>,
                           state: map<string, Json>, ok1: bool, ok2: bool)
    requires ValidInstant(now1) && ValidInstant(now2)
    requires Run(now1, iso1, cfg, jpFile, usFile, state, ok1).Notified?
    requires Run(now1, iso1, cfg, jpFile, usFile, state, ok1).saved.Some?
    ensures var first := Run(now1, iso1, cfg, jpFile, usFile, state, ok1);
      var second := Run(now2, iso2, cfg, jpFile, usFile, first.saved.value, ok2);
      (second.Notified? || second.AlreadyNotified?) && second.fixing == first.fixing ==> second.AlreadyNotified?
  {
    var first := Run(now1, iso1, cfg, jpFile, usFile, state, ok1);
    RunSavesFixingKey(now1, iso1, cfg, jpFile, usFile, state, ok1);
    RunDedup(now2, iso2, cfg, jpFile, usFile, first.saved.value, ok2);
  }

  /** After the calendars loaded, only an unreadable state field or a failing ntfy POST raise. */
  lemma RunRaises(now: Instant, nowIso: string, cfg: Config, jpFile: Option<seq<string>>,
                  usFile: Option<seq<string>>, state: map<string, Json>, deliveryOk: bool)
    requires ValidInstant(now)
    ensures var r := Run(now, nowIso, cfg, jpFile, usFile, state, deliveryOk);
      r.Raised? ==>
        LoadHolidays(cfg, jpFile, usFile).Err?
        || LastNotifiedKey(state).Err?
        || (r.failure == PublishFailed && cfg.notifyMode != "local" && cfg.enableNtfy && !deliveryOk)
    ensures var r := Run(now, nowIso, cfg, jpFile, usFile, state, deliveryOk);
      r.Raised? && r.failure.HolidayLoad? ==>
        (cfg.enableHolidayJp && HolidayFile(jpFile).Err?) || (cfg.enableHolidayUs && HolidayFile(usFile).Err?)
  {
  }
}

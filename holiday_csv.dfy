/**
  Reading holiday dates out of a CSV file: `_try_parse_holiday_token` and the
  per-line loop of `load_holiday_keys`. The file itself is given as the list
  of its lines (`None` when the file does not exist).
*/
module HolidayCsv {
  import opened Wrappers
  import opened Calendar
  import opened Text

  /** The separators a token may carry between its digits, removed in this order. */
  const Separators: seq<char> := ['-', '/', '.']

  datatype LoadError = FileNotFound | NoValidDates

  /** `token.strip().replace("\r", "").strip()`. */
  function CleanToken(token: string): string {
    Strip(RemoveAll(Strip(token), '\r'))
  }

  /** The token with its separators gone, stripped again: what must be eight digits. */
  function CompactToken(token: string): string {
    Strip(RemoveChars(CleanToken(token), Separators))
  }

  /** A key that decodes to a valid date after 1900: the keys the reader can produce. */
  predicate IsHolidayKey(key: int) {
    var d := KeyToDate(key);
    ValidDate(d) && d.year > 1900 && DateKey(d) == key
  }

  /**
    The checks made on the compacted token: eight ASCII digits, a year after
    1900, a month in 1..12 and a day within the month. When they pass, the
    date's key is the eight-digit number itself.
  */
  function ParseCompact(t: string): (r: Option<Date>)
    ensures r.Some? ==> ValidDate(r.value) && r.value.year > 1900
    ensures r.Some? ==> |t| == 8 && AllDigits(t) && DateKey(r.value) == DecimalValue(t)
    ensures (|t| == 8 && AllDigits(t) && IsHolidayKey(DecimalValue(t))) ==> r == Some(KeyToDate(DecimalValue(t)))
  {
    if |t| != 8 || !AllDigits(t) then None
    else
      var year := DecimalValue(t[0..4]);
      var month := DecimalValue(t[4..6]);
      var day := DecimalValue(t[6..8]);
      EightDigits(t);
      if year <= 1900 || month < 1 || month > 12 then None
      else if day < 1 || day > DaysInMonth(year, month) then None
      else Some(Date(year, month, day))
  }

  /** `_try_parse_holiday_token` as a value: `None` for a blank token, else the compacted token's date. */
  function ParseHolidayToken(token: string): (r: Option<Date>)
    ensures r.Some? ==> ValidDate(r.value) && r.value.year > 1900
    ensures r.Some? ==> var t := CompactToken(token);
      |t| == 8 && AllDigits(t) && DateKey(r.value) == DecimalValue(t)
  {
    if CleanToken(token) == [] then None else ParseCompact(CompactToken(token))
  }

  lemma Pow10Small()
    ensures Pow10(2) == 100 && Pow10(4) == 10000
  {
  }

  lemma KeyOfFields(key: int, year: int, month: int, day: int)
    requires key == year * 10000 + month * 100 + day
    requires 0 <= month < 100 && 0 <= day < 100
    ensures KeyToDate(key) == Date(year, month, day)
  {
    KeyFields(year, month, day);
  }

  lemma PlaceValues(v: int, hi: int, midLo: int, mid: int, lo: int, p4: int, p2: int)
    requires v == hi * p4 + midLo && midLo == mid * p2 + lo
    requires p4 == 10000 && p2 == 100
    ensures v == hi * 10000 + mid * 100 + lo
  {
  }

  /** Four, two and two digits side by side read as one eight-digit number. */
  lemma ConcatFields(hi: string, mid: string, lo: string)
    requires |hi| == 4 && |mid| == 2 && |lo| == 2
    requires AllDigits(hi) && AllDigits(mid) && AllDigits(lo)
    ensures AllDigits(hi + mid + lo)
    ensures DecimalValue(hi + mid + lo) == DecimalValue(hi) * 10000 + DecimalValue(mid) * 100 + DecimalValue(lo)
  {
    DecimalConcat(mid, lo);
    DecimalConcat(hi, mid + lo);
    Pow10Small();
    PlaceValues(DecimalValue(hi + (mid + lo)), DecimalValue(hi), DecimalValue(mid + lo), DecimalValue(mid),
                DecimalValue(lo), Pow10(|mid + lo|), Pow10(|lo|));
    assert hi + mid + lo == hi + (mid + lo);
  }

  /** An eight-digit string read whole is its YYYYMMDD fields read apart. */
  lemma EightDigitsValue(t: string)
    requires |t| == 8 && AllDigits(t)
    ensures DecimalValue(t) == DecimalValue(t[0..4]) * 10000 + DecimalValue(t[4..6]) * 100 + DecimalValue(t[6..8])
  {
    assert t == t[0..4] + t[4..6] + t[6..8];
    ConcatFields(t[0..4], t[4..6], t[6..8]);
  }

  /** The key an eight-digit string reads as decodes into its YYYY, MM and DD fields. */
  lemma EightDigits(t: string)
    requires |t| == 8 && AllDigits(t)
    ensures DecimalValue(t) == DecimalValue(t[0..4]) * 10000 + DecimalValue(t[4..6]) * 100 + DecimalValue(t[6..8])
    ensures KeyToDate(DecimalValue(t)) == Date(DecimalValue(t[0..4]), DecimalValue(t[4..6]), DecimalValue(t[6..8]))
  {
    var year, month, day := DecimalValue(t[0..4]), DecimalValue(t[4..6]), DecimalValue(t[6..8]);
    assert month < 100 && day < 100 by {
      DecimalBound(t[4..6]);
      DecimalBound(t[6..8]);
      Pow10Small();
    }
    EightDigitsValue(t);
    KeyOfFields(DecimalValue(t), year, month, day);
  }

  /**
    `_try_parse_holiday_token`: the separators are removed one after another by
    rebinding the working string in a loop, then the digits are checked.
  */
  method TryParseHolidayToken(token: string) returns (r: Option<Date>)
    ensures r == ParseHolidayToken(token)
  {
    var s := CleanToken(token);
    if s == [] {
      return None;
    }
    ghost var s0 := s;
    for i := 0 to |Separators|
      invariant RemoveChars(s, Separators[i..]) == RemoveChars(s0, Separators)
    {
      assert Separators[i..][1..] == Separators[i + 1..];
      s := RemoveAll(s, Separators[i]);
    }
    assert Separators[|Separators|..] == [];
    s := Strip(s);
    r := ParseCompact(s);
  }

  // ---------------------------------------------------------------------------
  // One line of the file
  // ---------------------------------------------------------------------------

  /**
    What is left of a line once `\r` and surrounding blanks are dropped, line
    comments (`#`, `//`) are skipped and inline comments are cut; empty when the
    line is skipped.
  */
  function LineContent(line: string): string {
    CommentFree(Strip(RemoveAll(line, '\r')))
  }

  /** A stripped line without its comment: nothing for a comment line, else the text before `#`, then before `//`. */
  function CommentFree(l: string): string {
    if l == [] || StartsWith(l, "#") || StartsWith(l, "//") then []
    else
      var hashPos := FindChar(l, '#');
      var l1 := if hashPos >= 0 then Strip(l[..hashPos]) else l;
      var slashPos := FindDoubleSlash(l1);
      if slashPos >= 0 then Strip(l1[..slashPos]) else l1
  }

  /** `[t.strip() for t in parts if t.strip()]`. */
  function NonEmptyStripped(parts: seq<string>): (tokens: seq<string>)
    ensures forall k :: 0 <= k < |tokens| ==> tokens[k] != []
  {
    if parts == [] then []
    else
      var t := Strip(parts[0]);
      (if t == [] then [] else [t]) + NonEmptyStripped(parts[1..])
  }

  /** The tokens of a line: none for a skipped line, else those of the text it keeps. */
  function LineTokens(line: string): seq<string> {
    var content := LineContent(line);
    if content == [] then [] else ContentTokens(content)
  }

  /** The non-blank pieces of kept text, tabs and semicolons counting as commas. */
  function ContentTokens(content: string): seq<string> {
    NonEmptyStripped(Split(ReplaceChar(ReplaceChar(content, '\t', ','), ';', ','), ','))
  }

  /** The key a single token contributes: its date's key, or nothing. */
  function TokenKey(token: string): set<int> {
    match ParseHolidayToken(token)
    case Some(d) => {DateKey(d)}
    case None => {}
  }

  /** The keys of the tokens that parse as dates. */
  function TokenKeys(tokens: seq<string>): set<int> {
    if tokens == [] then {}
    else TokenKeys(tokens[..|tokens| - 1]) + TokenKey(tokens[|tokens| - 1])
  }

  function LineKeys(line: string): set<int> {
    TokenKeys(LineTokens(line))
  }

  /** All keys of a file, line after line. */
  function FileKeys(lines: seq<string>): set<int> {
    if lines == [] then {} else FileKeys(lines[..|lines| - 1]) + LineKeys(lines[|lines| - 1])
  }

  lemma TokenKeyParsed(token: string, d: Option<Date>)
    requires d == ParseHolidayToken(token)
    ensures TokenKey(token) == if d.Some? then {DateKey(d.value)} else {}
  {
  }

  lemma TokenKeysStep(tokens: seq<string>, j: nat)
    requires j < |tokens|
    ensures TokenKeys(tokens[..j + 1]) == TokenKeys(tokens[..j]) + TokenKey(tokens[j])
  {
    assert tokens[..j + 1][..j] == tokens[..j];
  }

  lemma FileKeysStep(lines: seq<string>, i: nat)
    requires i < |lines|
    ensures FileKeys(lines[..i + 1]) == FileKeys(lines[..i]) + LineKeys(lines[i])
  {
    assert lines[..i + 1][..i] == lines[..i];
  }

  /** The loop over one line's tokens: every token that parses adds its key to the set in place. */
  method ScanTokens(keys: set<int>, tokens: seq<string>) returns (out: set<int>)
    ensures out == keys + TokenKeys(tokens)
  {
    out := keys;
    for j := 0 to |tokens|
      invariant out == keys + TokenKeys(tokens[..j])
    {
      var d := TryParseHolidayToken(tokens[j]);
      TokenKeysStep(tokens, j);
      TokenKeyParsed(tokens[j], d);
      if d.Some? {
        out := out + {DateKey(d.value)};
      }
    }
    assert tokens[..|tokens|] == tokens;
  }

  /** One line of the file: its tokens are split off, then scanned. */
  method ScanLine(keys: set<int>, line: string) returns (out: set<int>)
    ensures out == keys + LineKeys(line)
  {
    var tokens := LineTokens(line);
    out := ScanTokens(keys, tokens);
  }

  /**
    `load_holiday_keys`: reads every line into one set of keys, and refuses a
    missing file or a file without a single date.
  */
  method LoadHolidayKeys(file: Option<seq<string>>) returns (r: Result<set<int>, LoadError>)
    ensures file.None? ==> r == Err(FileNotFound)
    ensures file.Some? && FileKeys(file.value) == {} ==> r == Err(NoValidDates)
    ensures file.Some? && FileKeys(file.value) != {} ==> r == Ok(FileKeys(file.value))
  {
    if file.None? {
      return Err(FileNotFound);
    }
    var lines := file.value;
    var keys: set<int> := {};
    for i := 0 to |lines|
      invariant keys == FileKeys(lines[..i])
    {
      keys := ScanLine(keys, lines[i]);
      FileKeysStep(lines, i);
    }
    assert lines[..|lines|] == lines;
    if keys == {} {
      return Err(NoValidDates);
    }
    return Ok(keys);
  }

  // ---------------------------------------------------------------------------
  // Properties
  // ---------------------------------------------------------------------------

  /** Every key the reader collects names a valid date after 1900. */
  lemma {:induction false} TokenKeysSound(tokens: seq<string>)
    ensures forall k :: k in TokenKeys(tokens) ==> IsHolidayKey(k)
  {
    if tokens != [] {
      TokenKeysSound(tokens[..|tokens| - 1]);
      var last := ParseHolidayToken(tokens[|tokens| - 1]);
      if last.Some? {
        DateKeyRoundTrip(last.value);
      }
    }
  }

  lemma {:induction false} FileKeysSound(lines: seq<string>)
    ensures forall k :: k in FileKeys(lines) ==> IsHolidayKey(k)
  {
    if lines != [] {
      FileKeysSound(lines[..|lines| - 1]);
      TokenKeysSound(LineTokens(lines[|lines| - 1]));
    }
  }

  /** A separator a holiday file may put between the fields, or none. */
  predicate IsDateSeparator(sep: string) {
    sep == [] || (|sep| == 1 && sep[0] in Separators)
  }

  /** A date written as YYYY, MM and DD joined by a separator ("" for the compact form). */
  function FormatDate(d: Date, sep: string): string
    requires 0 <= d.year < 10000 && 0 <= d.month < 100 && 0 <= d.day < 100
  {
    FourDigits(d.year) + sep + TwoDigits(d.month) + sep + TwoDigits(d.day)
  }

  /** Round trip: every valid date after 1900 written with any separator parses back to itself. */
  lemma ParseFormattedDate(d: Date, sep: string)
    requires ValidDate(d) && 1900 < d.year < 10000
    requires IsDateSeparator(sep)
    ensures ParseHolidayToken(FormatDate(d, sep)) == Some(d)
  {
    FieldsParse(FourDigits(d.year), TwoDigits(d.month), TwoDigits(d.day), sep, d);
  }

  /** Digit fields that read as a valid date's year, month and day parse back to that date. */
  lemma FieldsParse(y: string, m: string, dd: string, sep: string, d: Date)
    requires |y| == 4 && |m| == 2 && |dd| == 2
    requires AllDigits(y) && AllDigits(m) && AllDigits(dd)
    requires DecimalValue(y) == d.year && DecimalValue(m) == d.month && DecimalValue(dd) == d.day
    requires ValidDate(d) && d.year > 1900
    requires IsDateSeparator(sep)
    ensures ParseHolidayToken(y + sep + m + sep + dd) == Some(d)
  {
    CompactFormattedToken(y, m, dd, sep);
    ConcatFields(y, m, dd);
    CompactParses(y + m + dd, d);
  }

  /** Eight digits that read as a valid date's key pass every check of the compact form. */
  lemma CompactParses(t: string, d: Date)
    requires |t| == 8 && AllDigits(t)
    requires DecimalValue(t) == DateKey(d)
    requires ValidDate(d) && d.year > 1900
    ensures ParseCompact(t) == Some(d)
  {
    DateKeyRoundTrip(d);
    assert IsHolidayKey(DecimalValue(t));
  }

  /** A formatted date is already clean, and compacts to its eight digits. */
  lemma CompactFormattedToken(y: string, m: string, dd: string, sep: string)
    requires |y| == 4 && |m| == 2 && |dd| == 2
    requires AllDigits(y) && AllDigits(m) && AllDigits(dd)
    requires IsDateSeparator(sep)
    ensures CleanToken(y + sep + m + sep + dd) != []
    ensures CompactToken(y + sep + m + sep + dd) == y + m + dd
  {
    var token := y + sep + m + sep + dd;
    var digits := y + m + dd;
    assert AllDigits(digits);
    UnpaddedDigits(token);
    StripUnpadded(token);
    RemoveAllAbsent(token, '\r');
    assert CleanToken(token) == token;
    CompactFormatted(y, m, dd, sep);
    UnpaddedDigits(digits);
    StripUnpadded(digits);
  }

  lemma UnpaddedDigits(s: string)
    requires |s| > 0 && IsDigit(s[0]) && IsDigit(s[|s| - 1])
    ensures !IsSpace(s[0]) && !IsSpace(s[|s| - 1])
  {
  }

  /** Removing the separators from a formatted date leaves its eight digits. */
  lemma CompactFormatted(y: string, m: string, d: string, sep: string)
    requires AllDigits(y) && AllDigits(m) && AllDigits(d)
    requires IsDateSeparator(sep)
    ensures RemoveChars(y + sep + m + sep + d, Separators) == y + m + d
  {
    RemoveCharsNone(y, Separators);
    RemoveCharsNone(m, Separators);
    RemoveCharsNone(d, Separators);
    RemoveCharsAll(sep);
    RemoveCharsConcat(y, sep, Separators);
    RemoveCharsConcat(y + sep, m, Separators);
    RemoveCharsConcat(y + sep + m, sep, Separators);
    RemoveCharsConcat(y + sep + m + sep, d, Separators);
    assert RemoveChars(y + sep, Separators) == y;
    assert RemoveChars(y + sep + m, Separators) == y + m;
    assert RemoveChars(y + sep + m + sep, Separators) == y + m;
  }

  lemma {:induction false} RemoveCharsConcat(a: string, b: string, cs: seq<char>)
    ensures RemoveChars(a + b, cs) == RemoveChars(a, cs) + RemoveChars(b, cs)
    decreases |cs|
  {
    if cs != [] {
      RemoveAllConcat(a, b, cs[0]);
      RemoveCharsConcat(RemoveAll(a, cs[0]), RemoveAll(b, cs[0]), cs[1..]);
    }
  }

  lemma {:induction false} RemoveCharsNone(s: string, cs: seq<char>)
    requires forall c :: c in cs ==> c !in s
    ensures RemoveChars(s, cs) == s
    decreases |cs|
  {
    if cs != [] {
      RemoveAllAbsent(s, cs[0]);
      RemoveCharsNone(s, cs[1..]);
    }
  }

  lemma RemoveCharsAll(sep: string)
    requires IsDateSeparator(sep)
    ensures RemoveChars(sep, Separators) == []
  {
  }

  /**
    The characters of a formatted date: digits, and the separator at
    positions 4 and 7 when there is one.
  */
  lemma FormattedShape(d: Date, sep: string)
    requires ValidDate(d) && 1900 < d.year < 10000
    requires IsDateSeparator(sep)
    ensures var s := FormatDate(d, sep);
      |s| == 8 + 2 * |sep| && IsDigit(s[0]) && IsDigit(s[|s| - 1])
      && (forall i :: 0 <= i < |s| ==> IsDigit(s[i]) || s[i] in Separators)
      && (forall i :: 0 <= i < |s| && !IsDigit(s[i]) ==> |sep| == 1 && (i == 4 || i == 7))
    ensures var s := FormatDate(d, sep);
      forall j :: !SlashAt(s, j)
  {
    var y, m, dd := FourDigits(d.year), TwoDigits(d.month), TwoDigits(d.day);
    var s := FormatDate(d, sep);
    assert s == y + sep + m + sep + dd;
    forall i | 0 <= i < |s|
      ensures IsDigit(s[i]) || s[i] in Separators
      ensures !IsDigit(s[i]) ==> |sep| == 1 && (i == 4 || i == 7)
    {
      if i < 4 {
        assert s[i] == y[i];
      } else if i < 4 + |sep| {
        assert s[i] == sep[i - 4];
      } else if i < 6 + |sep| {
        assert s[i] == m[i - 4 - |sep|];
      } else if i < 6 + 2 * |sep| {
        assert s[i] == sep[i - 6 - |sep|];
      } else {
        assert s[i] == dd[i - 6 - 2 * |sep|];
      }
    }
    forall j | 0 <= j < |s| - 1
      ensures !SlashAt(s, j)
    {
      if s[j] == '/' {
        assert !IsDigit(s[j]);
      }
    }
  }
}

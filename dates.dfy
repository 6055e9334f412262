/** parse_date and format_date. The date-parsing library (dateutil's
    isoparse) is a parameter: it hands back a calendar timestamp or nothing.
    The canonical intermediate is "dd.mm.yyyy" at midnight and
    "dd.mm.yyyy HH:MM" otherwise; format_date reads that back with strptime
    and renders "yyyy-mm" or "yyyy-mm-dd". */
module Dates {
  import opened Wrappers
  import opened Strings

  predicate IsLeapYear(y: int) {
    (y % 4 == 0 && y % 100 != 0) || y % 400 == 0
  }

  function DaysInMonth(y: int, m: int): int {
    if m == 2 then (if IsLeapYear(y) then 29 else 28)
    else if m == 4 || m == 6 || m == 9 || m == 11 then 30
    else 31
  }

  /** A calendar day, as kept for a file's modification date. */
  datatype Date = Date(year: int, month: int, day: int) {
    predicate Valid() {
      1 <= year <= 9999 && 1 <= month <= 12 && 1 <= day <= DaysInMonth(year, month)
    }
  }

  datatype DateTime = DateTime(year: int, month: int, day: int, hour: int, minute: int, second: int) {
    predicate Valid() {
      Date(year, month, day).Valid() && 0 <= hour < 24 && 0 <= minute < 60 && 0 <= second < 60
    }
    function Day(): Date {
      Date(year, month, day)
    }
  }

  /** What datetime objects can hold: real calendar moments. */
  type Timestamp = dt: DateTime | dt.Valid() witness DateTime(1970, 1, 1, 0, 0, 0)

  /** A two-digit field ("%d", "%m", "%H", "%M", "%S"). */
  function Pad2(n: nat): (r: string)
    requires n < 100
    ensures |r| == 2 && AllDigits(r) && DigitsValue(r) == n
  {
    var r := [DigitChar(n / 10), DigitChar(n % 10)];
    assert r[..1] == [DigitChar(n / 10)] && r[..1][..0] == [];
    assert DigitsValue(r[..1]) == n / 10;
    r
  }

  /** A four-digit year ("%Y"). */
  function Pad4(n: nat): (r: string)
    requires n < 10000
    ensures |r| == 4 && AllDigits(r) && DigitsValue(r) == n
  {
    DigitsValueAppend(Pad2(n / 100), Pad2(n % 100));
    Pad2(n / 100) + Pad2(n % 100)
  }

  /** strftime("%d.%m.%Y") */
  function DayText(dt: Timestamp): (r: string)
    ensures |r| == 10
  {
    Pad2(dt.day) + "." + Pad2(dt.month) + "." + Pad4(dt.year)
  }

  /** strftime("%d.%m.%Y %H:%M") */
  function MinuteText(dt: Timestamp): (r: string)
    ensures |r| == 16
  {
    DayText(dt) + " " + Pad2(dt.hour) + ":" + Pad2(dt.minute)
  }

  /** strftime("%Y%m%d"), the date stamp in spreadsheet names. */
  function Stamp(dt: Timestamp): (r: string)
    ensures |r| == 8 && AllDigits(r)
  {
    DigitsValueAppend(Pad4(dt.year), Pad2(dt.month));
    DigitsValueAppend(Pad4(dt.year) + Pad2(dt.month), Pad2(dt.day));
    Pad4(dt.year) + Pad2(dt.month) + Pad2(dt.day)
  }

  /** strftime("%Y%m%d_%H%M%S"), the stamp in archive names. */
  function SecondStamp(dt: Timestamp): (r: string)
    ensures |r| == 15
  {
    Stamp(dt) + "_" + Pad2(dt.hour) + Pad2(dt.minute) + Pad2(dt.second)
  }

  /** parse_date(date_string): None for a missing or empty string and for
      one isoparse rejects; the day alone at 00:00, day and time otherwise. */
  function ParseDate(raw: Option<string>, isoparse: string -> Option<Timestamp>): (r: Option<string>)
    ensures raw.None? || raw == Some("") ==> r.None?
    ensures raw.Some? && raw.value != "" && isoparse(raw.value).None? ==> r.None?
    ensures r.Some? ==> raw.Some? && isoparse(raw.value).Some?
    ensures r.Some? ==>
      var dt := isoparse(raw.value).value;
      (' ' !in r.value <==> dt.hour == 0 && dt.minute == 0) &&
      |r.value| >= 10 && r.value[..10] == DayText(dt)
      && (dt.hour == 0 && dt.minute == 0 ==> r.value == DayText(dt))
      && (dt.hour != 0 || dt.minute != 0 ==> ParseMinuteText(r.value) == Some((dt.Day(), dt.hour, dt.minute)))
  {
    if raw.None? || raw.value == "" then None
    else
      match isoparse(raw.value)
      case None => None
      case Some(dt) =>
        DayTextHasNoSpace(dt);
        if dt.hour == 0 && dt.minute == 0 then Some(DayText(dt))
        else
          assert MinuteText(dt)[10] == ' ';
          ReadMinuteText(dt);
          Some(MinuteText(dt))
  }

  lemma DayTextHasNoSpace(dt: Timestamp)
    ensures ' ' !in DayText(dt)
  {
    var r := DayText(dt);
    forall i | 0 <= i < 10 ensures r[i] != ' ' {
      if i < 2 { assert r[i] == Pad2(dt.day)[i]; }
      else if 2 < i < 5 { assert r[i] == Pad2(dt.month)[i - 3]; }
      else if 5 < i { assert r[i] == Pad4(dt.year)[i - 6]; }
    }
  }

  /** The value of the two digits at s[i..i + 2]. */
  function Field2(s: string, i: nat): nat
    requires i + 2 <= |s| && AllDigits(s[i..i + 2])
  {
    DigitsValue(s[i..i + 2])
  }

  predicate DigitsAt(s: string, i: nat, n: nat) {
    i + n <= |s| && AllDigits(s[i..i + n])
  }

  /** strptime(s, "%d.%m.%Y"), for the two-digit fields parse_date writes. */
  function ParseDayText(s: string): (r: Option<Date>)
    ensures r.Some? ==> r.value.Valid()
  {
    if |s| == 10 && DigitsAt(s, 0, 2) && s[2] == '.' && DigitsAt(s, 3, 2) && s[5] == '.' && DigitsAt(s, 6, 4) then
      var d := Date(DigitsValue(s[6..10]), DigitsValue(s[3..5]), DigitsValue(s[0..2]));
      if d.Valid() then Some(d) else None
    else None
  }

  /** strptime(s, "%d.%m.%Y %H:%M"), for the two-digit fields parse_date
      writes: the day, the hour and the minute. */
  function ParseMinuteText(s: string): (r: Option<(Date, int, int)>)
    ensures r.Some? ==> r.value.0.Valid() && 0 <= r.value.1 < 24 && 0 <= r.value.2 < 60
  {
    if |s| == 16 && s[10] == ' ' && DigitsAt(s, 11, 2) && s[13] == ':' && DigitsAt(s, 14, 2)
       && DigitsValue(s[11..13]) < 24 && DigitsValue(s[14..16]) < 60
    then
      match ParseDayText(s[..10])
      case None => None
      case Some(d) => Some((d, DigitsValue(s[11..13]), DigitsValue(s[14..16])))
    else None
  }

  /** The day of a parsed "%d.%m.%Y %H:%M" text; format_date renders only that. */
  function MinuteDay(s: string): (r: Option<Date>)
    ensures r.Some? <==> ParseMinuteText(s).Some?
    ensures r.Some? ==> r.value == ParseMinuteText(s).value.0
  {
    match ParseMinuteText(s)
    case None => None
    case Some(m) => Some(m.0)
  }

  /** format_date(date_string, output_format) */
  function FormatDate(s: Option<string>, pattern: string): (r: Option<string>)
    ensures s.None? || s == Some("") ==> r.None?
    ensures pattern != "yyyy-mm" && pattern != "yyyy-mm-dd" ==> r.None?
    ensures r.Some? && pattern == "yyyy-mm" ==> |r.value| == 7
    ensures r.Some? && pattern == "yyyy-mm-dd" ==> |r.value| == 10
  {
    if s.None? || s.value == "" then None
    else
      var parsed := if ' ' in s.value then MinuteDay(s.value) else ParseDayText(s.value);
      match parsed
      case None => None
      case Some(d) =>
        if pattern == "yyyy-mm" then Some(Pad4(d.year) + "-" + Pad2(d.month))
        else if pattern == "yyyy-mm-dd" then Some(Pad4(d.year) + "-" + Pad2(d.month) + "-" + Pad2(d.day))
        else None
  }

  /** "yyyy-mm" succeeds exactly when "yyyy-mm-dd" does, and is its first seven characters. */
  lemma MonthIsPrefixOfDay(s: Option<string>)
    ensures FormatDate(s, "yyyy-mm").Some? <==> FormatDate(s, "yyyy-mm-dd").Some?
    ensures FormatDate(s, "yyyy-mm").Some? ==>
      FormatDate(s, "yyyy-mm").value == FormatDate(s, "yyyy-mm-dd").value[..7]
  {
    if FormatDate(s, "yyyy-mm").Some? {
      var d := if ' ' in s.value then ParseMinuteText(s.value).value.0 else ParseDayText(s.value).value;
      var day := Pad4(d.year) + "-" + Pad2(d.month) + "-" + Pad2(d.day);
      assert day[..7] == Pad4(d.year) + "-" + Pad2(d.month);
    }
  }

  /** The ISO renderings of a timestamp. */
  function IsoMonth(dt: Timestamp): string {
    Pad4(dt.year) + "-" + Pad2(dt.month)
  }

  function IsoDay(dt: Timestamp): string {
    Pad4(dt.year) + "-" + Pad2(dt.month) + "-" + Pad2(dt.day)
  }

  lemma ReadDayText(dt: Timestamp)
    ensures ParseDayText(DayText(dt)) == Some(dt.Day())
  {
    var s := DayText(dt);
    assert s[0..2] == Pad2(dt.day);
    assert s[3..5] == Pad2(dt.month);
    assert s[6..10] == Pad4(dt.year);
  }

  lemma ReadMinuteText(dt: Timestamp)
    ensures ParseMinuteText(MinuteText(dt)) == Some((dt.Day(), dt.hour, dt.minute))
  {
    var s := MinuteText(dt);
    assert s[..10] == DayText(dt);
    assert s[11..13] == Pad2(dt.hour);
    assert s[14..16] == Pad2(dt.minute);
    ReadDayText(dt);
  }

  /** Whatever parse_date writes, format_date reads back: the canonical
      intermediate always renders as the timestamp's own year, month and day. */
  lemma {:induction false} ParseThenFormat(raw: string, isoparse: string -> Option<Timestamp>)
    requires raw != "" && isoparse(raw).Some?
    ensures FormatDate(ParseDate(Some(raw), isoparse), "yyyy-mm-dd") == Some(IsoDay(isoparse(raw).value))
    ensures FormatDate(ParseDate(Some(raw), isoparse), "yyyy-mm") == Some(IsoMonth(isoparse(raw).value))
  {
    var dt := isoparse(raw).value;
    DayTextHasNoSpace(dt);
    if dt.hour == 0 && dt.minute == 0 {
      ReadDayText(dt);
    } else {
      assert MinuteText(dt)[10] == ' ';
      ReadMinuteText(dt);
    }
  }

  /** A text with neither a space nor a '.' fits neither %d.%m.%Y nor
      %d.%m.%Y %H:%M, with one- or two-digit fields, and formats to None
      for both patterns. */
  lemma NotCanonicalFormatsToNone(s: string, pattern: string)
    requires ' ' !in s && '.' !in s
    ensures FormatDate(Some(s), pattern).None?
  {
    if |s| >= 3 {
      assert s[2] in s;
    }
  }

  /** The ISO input itself, such as "2024-03-05", formats to None. */
  lemma IsoInputIsNotCanonical()
    ensures FormatDate(Some("2024-03-05"), "yyyy-mm-dd").None?
  {
    assert ' ' !in "2024-03-05";
    assert '.' !in "2024-03-05";
    NotCanonicalFormatsToNone("2024-03-05", "yyyy-mm-dd");
  }
}

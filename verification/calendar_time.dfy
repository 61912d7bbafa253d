/**
 * The date/time normaliser of the calendar-ai edge function
 * (`createLocalDateTime`): it finds `H:MM [AM|PM]` in a time string, converts
 * the hour to the 24-hour clock and writes a local `YYYY-MM-DDTHH:MM:00`
 * timestamp with no UTC suffix.
 *
 * `new Date(dateStr)` is not modelled: the caller passes the calendar fields
 * that the host's local time zone gives for it, together with the string
 * `toISOString` would return, or `InvalidDate` when the string does not parse.
 */
module CalendarTime {
  import opened Wrappers
  import opened Text

  /** What `new Date(dateStr)` yields: local year, month (1-12), day and ISO string. */
  datatype CalendarDate =
    | LocalDate(year: int, month: nat, day: nat, isoString: string)
    | InvalidDate

  datatype Meridiem = AM | PM

  /** The captures of `/(\d{1,2}):(\d{2})\s*(AM|PM)?/i` and where the match starts. */
  datatype TimeMatch = TimeMatch(start: nat, hourText: string, minuteText: string, meridiem: Option<Meridiem>)

  /** What `createLocalDateTime` produces: a string, or the RangeError `toISOString` throws. */
  datatype Stamp = Stamp(text: string) | RangeError

  predicate WellFormed(m: TimeMatch) {
    && 1 <= |m.hourText| <= 2 && AllDigits(m.hourText)
    && |m.minuteText| == 2 && AllDigits(m.minuteText)
  }

  // ------------------------------------------------------ the regular expression

  /** `\s*` starting at `k`: the first index at or after `k` that is not white space. */
  function SkipSpaces(s: string, k: nat): (j: nat)
    requires k <= |s|
    decreases |s| - k
    ensures k <= j <= |s| && AllSpace(s[k..j]) && (j == |s| || !IsJsSpace(s[j]))
  {
    if k < |s| && IsJsSpace(s[k]) then SkipSpaces(s, k + 1) else k
  }

  /** `(AM|PM)?` with the `i` flag, at index `k`. */
  function MeridiemAt(s: string, k: nat): (r: Option<Meridiem>)
    requires k <= |s|
    ensures r == Some(AM) <==> k + 2 <= |s| && LowerChar(s[k]) == 'a' && LowerChar(s[k + 1]) == 'm'
    ensures r == Some(PM) <==> k + 2 <= |s| && LowerChar(s[k]) == 'p' && LowerChar(s[k + 1]) == 'm'
  {
    if k + 2 <= |s| && (s[k + 1] == 'm' || s[k + 1] == 'M') then
      if s[k] == 'a' || s[k] == 'A' then Some(AM)
      else if s[k] == 'p' || s[k] == 'P' then Some(PM)
      else None
    else None
  }

  /** `:(\d{2})` at index `j`. */
  predicate MinutesAt(s: string, j: nat) {
    j + 3 <= |s| && s[j] == ':' && IsDigit(s[j + 1]) && IsDigit(s[j + 2])
  }

  function Capture(s: string, i: nat, j: nat): (m: TimeMatch)
    requires i < j <= i + 2 && MinutesAt(s, j) && AllDigits(s[i..j])
    ensures WellFormed(m) && m.start == i && |m.hourText| == j - i
  {
    assert s[i..j + 3] == s[i..j] + ":" + s[j + 1..j + 3];
    TimeMatch(i, s[i..j], s[j + 1..j + 3], MeridiemAt(s, SkipSpaces(s, j + 3)))
  }

  /** The captures are the text at `i` around the colon, and the meridiem is read after the spaces that follow. */
  lemma CaptureReadsText(s: string, i: nat, j: nat)
    requires i < j <= i + 2 && MinutesAt(s, j) && AllDigits(s[i..j])
    ensures var m := Capture(s, i, j);
      && OccursAt(m.hourText + ":" + m.minuteText, s, i)
      && m.meridiem == MeridiemAt(s, SkipSpaces(s, j + 3))
  {
    assert s[i..j + 3] == s[i..j] + ":" + s[j + 1..j + 3];
  }

  /**
   * The regular expression tried at index `i`: `\d{1,2}` is greedy, so two hour
   * digits are tried before one.
   */
  function MatchAt(s: string, i: nat): (r: Option<TimeMatch>)
    requires i <= |s|
    ensures r.Some? ==> WellFormed(r.value) && r.value.start == i
  {
    if i + 2 <= |s| && IsDigit(s[i]) && IsDigit(s[i + 1]) && MinutesAt(s, i + 2) then
      Some(Capture(s, i, i + 2))
    else if i + 1 <= |s| && IsDigit(s[i]) && MinutesAt(s, i + 1) then
      Some(Capture(s, i, i + 1))
    else
      None
  }

  /**
   * What an attempt at `i` reads: the hour and minute captures are the text
   * at `i` around the colon, two hour digits are taken when they fit, the
   * meridiem is read after the spaces that follow the minutes, and the
   * attempt fails exactly when no `d:dd` or `dd:dd` starts at `i`.
   */
  lemma MatchAtReadsDigits(s: string, i: nat)
    requires i <= |s|
    ensures var r := MatchAt(s, i);
      && (r.Some? ==> OccursAt(r.value.hourText + ":" + r.value.minuteText, s, i))
      && (r.Some? ==> r.value.meridiem == MeridiemAt(s, SkipSpaces(s, i + |r.value.hourText| + 3)))
      && (r.Some? && |r.value.hourText| == 1 ==> !(i + 1 < |s| && IsDigit(s[i + 1]) && MinutesAt(s, i + 2)))
      && (r.None? <==>
           !(i < |s| && IsDigit(s[i]) && (MinutesAt(s, i + 1) || (i + 1 < |s| && IsDigit(s[i + 1]) && MinutesAt(s, i + 2)))))
  {
    if i + 2 <= |s| && IsDigit(s[i]) && IsDigit(s[i + 1]) && MinutesAt(s, i + 2) {
      assert s[i..i + 5] == s[i..i + 2] + ":" + s[i + 3..i + 5];
    } else if i + 1 <= |s| && IsDigit(s[i]) && MinutesAt(s, i + 1) {
      assert s[i..i + 4] == s[i..i + 1] + ":" + s[i + 2..i + 4];
    }
  }

  /** `s.match(...)` without the `g` flag: the match that starts leftmost, at or after `from`. */
  function FindTime(s: string, from: nat): (r: Option<TimeMatch>)
    requires from <= |s|
    decreases |s| - from
    ensures r.Some? ==> from <= r.value.start <= |s| && MatchAt(s, r.value.start) == r
    ensures r.Some? ==> forall i: nat :: from <= i < r.value.start ==> MatchAt(s, i).None?
    ensures r.None? ==> forall i: nat :: from <= i <= |s| ==> MatchAt(s, i).None?
  {
    if MatchAt(s, from).Some? then MatchAt(s, from)
    else if from == |s| then None
    else FindTime(s, from + 1)
  }

  /** The time string holds a digit, a colon and two digits somewhere (`\d:\d\d`). */
  predicate ShortTimeAt(s: string, i: nat) {
    i + 4 <= |s| && IsDigit(s[i]) && MinutesAt(s, i + 1)
  }

  predicate HasTimePattern(s: string) {
    exists i: nat :: i < |s| && ShortTimeAt(s, i)
  }

  /** The regular expression fails exactly when the string holds no `\d:\d\d`. */
  lemma NoMatchIffNoPattern(s: string)
    ensures FindTime(s, 0).None? <==> !HasTimePattern(s)
  {
    var r := FindTime(s, 0);
    if r.None? {
      forall i: nat | i < |s| ensures !ShortTimeAt(s, i) {
        assert MatchAt(s, i).None?;
      }
    } else {
      var i := r.value.start;
      if i + 2 <= |s| && IsDigit(s[i]) && IsDigit(s[i + 1]) && MinutesAt(s, i + 2) {
        assert ShortTimeAt(s, i + 1);
      } else {
        assert ShortTimeAt(s, i);
      }
    }
  }

  // ------------------------------------------------------- the conversion

  /** `parseInt` of the captured hour: one digit reads below 10, two below 100. */
  function HourValue(m: TimeMatch): (v: nat)
    requires WellFormed(m)
    ensures v < 100
    ensures |m.hourText| == 1 ==> v < 10
  {
    assert Pow10(1) == 10 && Pow10(2) == 100;
    DecimalValue(m.hourText)
  }

  function MinuteValue(m: TimeMatch): (v: nat)
    requires WellFormed(m)
    ensures v < 100
  {
    TwoDigitValue(m.minuteText);
    DecimalValue(m.minuteText)
  }

  /**
   * 12-hour to 24-hour conversion, for every hour (none is range-checked):
   * PM adds 12 to every hour but 12, AM turns 12 into 0 and keeps every other
   * hour, and without AM or PM the hour is taken as written.
   */
  function To24Hour(h: nat, meridiem: Option<Meridiem>): (r: nat)
    ensures meridiem == Some(PM) ==> r == (if h == 12 then 12 else h + 12)
    ensures meridiem == Some(AM) ==> r == (if h == 12 then 0 else h)
    ensures meridiem.None? ==> r == h
  {
    if meridiem == Some(PM) && h != 12 then h + 12
    else if meridiem == Some(AM) && h == 12 then 0
    else h
  }

  /** `${year}-${month}-${day}` from the local calendar fields; `NaN` for each on an Invalid Date. */
  function DatePrefix(d: CalendarDate): (r: string)
    ensures d.InvalidDate? ==> r == "NaN-NaN-NaN"
    ensures d.LocalDate? ==>
      var y := IntToString(d.year);
      |r| > |y| && r[..|y|] == y && r[|y|] == '-'
  {
    match d
    case LocalDate(y, mo, da, _) => IntToString(y) + "-" + TwoDigits(mo) + "-" + TwoDigits(da)
    case InvalidDate => "NaN-NaN-NaN"
  }

  /** `createLocalDateTime(dateStr, timeStr, timezone)`; the time zone plays no part. */
  function LocalDateTime(d: CalendarDate, timeStr: string): (r: Stamp)
    ensures r.RangeError? <==> d.InvalidDate? && !HasTimePattern(timeStr)
    ensures !HasTimePattern(timeStr) && d.LocalDate? ==> r == Stamp(d.isoString)
  {
    NoMatchIffNoPattern(timeStr);
    match FindTime(timeStr, 0)
    case None => if d.LocalDate? then Stamp(d.isoString) else RangeError
    case Some(m) =>
      Stamp(DatePrefix(d) + "T" + TwoDigits(To24Hour(HourValue(m), m.meridiem)) + ":" + TwoDigits(MinuteValue(m)) + ":00")
  }

  /** `createLocalDateTime` step by step, with `hours` reassigned in place. */
  method CreateLocalDateTime(date: CalendarDate, timeStr: string, timezone: string) returns (r: Stamp)
    ensures r == LocalDateTime(date, timeStr)
  {
    var timeParts := FindTime(timeStr, 0);
    if timeParts.None? {
      if date.InvalidDate? {
        return RangeError;
      }
      return Stamp(date.isoString);
    }
    var m := timeParts.value;
    var hours := HourValue(m);
    var minutes := MinuteValue(m);
    var ampm := m.meridiem;
    if ampm == Some(PM) && hours != 12 {
      hours := hours + 12;
    } else if ampm == Some(AM) && hours == 12 {
      hours := 0;
    }
    var hoursStr := TwoDigits(hours);
    var minutesStr := TwoDigits(minutes);
    r := Stamp(DatePrefix(date) + "T" + hoursStr + ":" + minutesStr + ":00");
  }

  // ------------------------------------------------------------ properties

  /**
   * On the 12-hour clock (hours 1 to 12) the conversion is the usual one:
   * `h mod 12`, plus 12 in the afternoon; every result is a valid 24-hour hour,
   * and no two 12-hour readings give the same hour.
   */
  lemma TwelveHourClock(h: nat, mer: Meridiem)
    requires 1 <= h <= 12
    ensures To24Hour(h, Some(mer)) == if mer == AM then h % 12 else h % 12 + 12
    ensures To24Hour(h, Some(mer)) < 24
  {
  }

  lemma TwelveHourClockInjective(h1: nat, m1: Meridiem, h2: nat, m2: Meridiem)
    requires 1 <= h1 <= 12 && 1 <= h2 <= 12
    requires To24Hour(h1, Some(m1)) == To24Hour(h2, Some(m2))
    ensures h1 == h2 && m1 == m2
  {
    TwelveHourClock(h1, m1);
    TwelveHourClock(h2, m2);
  }

  /** `d` two-digit decimal field at index `i` of `s` with value `v`. */
  predicate FieldAt(s: string, i: nat, v: nat) {
    i + 2 <= |s| && AllDigits(s[i..i + 2]) && DecimalValue(s[i..i + 2]) == v
  }

  /**
   * The built timestamp reads back as `year-MM-DDTHH:MM:00`: each of month,
   * day, hour and minute is a two-digit field whose value is the input's,
   * seconds are `00`, and nothing (no `Z`) follows.
   */
  lemma TimestampLayout(d: CalendarDate, timeStr: string)
    requires d.LocalDate? && d.month <= 12 && d.day <= 31
    requires FindTime(timeStr, 0).Some?
    requires To24Hour(HourValue(FindTime(timeStr, 0).value), FindTime(timeStr, 0).value.meridiem) < 100
    ensures
      var m := FindTime(timeStr, 0).value;
      var r := LocalDateTime(d, timeStr);
      var n := |IntToString(d.year)|;
      && r.Stamp? && |r.text| == n + 15
      && r.text[..n] == IntToString(d.year)
      && r.text[n] == '-' && FieldAt(r.text, n + 1, d.month)
      && r.text[n + 3] == '-' && FieldAt(r.text, n + 4, d.day)
      && r.text[n + 6] == 'T' && FieldAt(r.text, n + 7, To24Hour(HourValue(m), m.meridiem))
      && r.text[n + 9] == ':' && FieldAt(r.text, n + 10, MinuteValue(m))
      && r.text[n + 12..] == ":00"
  {
    var m := FindTime(timeStr, 0).value;
    var h := To24Hour(HourValue(m), m.meridiem);
    TwoDigitsRoundTrip(d.month);
    TwoDigitsRoundTrip(d.day);
    TwoDigitsRoundTrip(h);
    TwoDigitsRoundTrip(MinuteValue(m));
    BuiltFromMatch(d, timeStr, m);
    ConcatLayout(IntToString(d.year), TwoDigits(d.month), TwoDigits(d.day), TwoDigits(h), TwoDigits(MinuteValue(m)));
  }

  lemma ConcatLayout(y: string, mo: string, da: string, hh: string, mi: string)
    requires |mo| == |da| == |hh| == |mi| == 2
    ensures
      var t := y + "-" + mo + "-" + da + "T" + hh + ":" + mi + ":00";
      var n := |y|;
      && |t| == n + 15 && t[..n] == y
      && t[n] == '-' && t[n + 1..n + 3] == mo
      && t[n + 3] == '-' && t[n + 4..n + 6] == da
      && t[n + 6] == 'T' && t[n + 7..n + 9] == hh
      && t[n + 9] == ':' && t[n + 10..n + 12] == mi
      && t[n + 12..] == ":00"
  {
  }

  /** With a match, the result is assembled from the converted hour and the minutes. */
  lemma BuiltFromMatch(d: CalendarDate, timeStr: string, m: TimeMatch)
    requires FindTime(timeStr, 0) == Some(m)
    ensures WellFormed(m)
    ensures LocalDateTime(d, timeStr)
      == Stamp(DatePrefix(d) + "T" + TwoDigits(To24Hour(HourValue(m), m.meridiem)) + ":" + TwoDigits(MinuteValue(m)) + ":00")
  {
  }

  /** An example's timestamp follows from where its time matches and how its text is assembled. */
  lemma StampFromParts(d: CalendarDate, timeStr: string, m: TimeMatch, text: string)
    requires FindTime(timeStr, 0) == Some(m)
    requires WellFormed(m)
    requires DatePrefix(d) + "T" + TwoDigits(To24Hour(HourValue(m), m.meridiem)) + ":" + TwoDigits(MinuteValue(m)) + ":00" == text
    ensures LocalDateTime(d, timeStr) == Stamp(text)
  {
    BuiltFromMatch(d, timeStr, m);
  }

  /** The date part shared by the examples below. */
  lemma FirstOfMarch2024(iso: string)
    ensures DatePrefix(LocalDate(2024, 3, 1, iso)) == "2024-03-01"
  {
    assert NatToString(20) == "20";
    assert NatToString(202) == "202";
    assert IntToString(2024) == "2024";
    assert TwoDigits(3) == "03" && TwoDigits(1) == "01";
  }

  /** `"14:30"` matches at index 0 as hour 14, minutes 30, no meridiem. */
  lemma Match24Hour()
    ensures FindTime("14:30", 0) == Some(TimeMatch(0, "14", "30", None))
    ensures HourValue(TimeMatch(0, "14", "30", None)) == 14 && MinuteValue(TimeMatch(0, "14", "30", None)) == 30
  {
    var s := "14:30";
    assert s[0..2] == "14" && s[3..5] == "30";
    assert MinutesAt(s, 2);
    assert SkipSpaces(s, 5) == 5 && MeridiemAt(s, 5) == None;
    assert Capture(s, 0, 2) == TimeMatch(0, "14", "30", None);
    TwoDigitValue("14");
    TwoDigitValue("30");
  }

  /** The timestamp the 24-hour example builds, assembled from its fields. */
  lemma Text24Hour(iso: string)
    ensures DatePrefix(LocalDate(2024, 3, 1, iso)) + "T" + TwoDigits(14) + ":" + TwoDigits(30) + ":00" == "2024-03-01T14:30:00"
  {
    FirstOfMarch2024(iso);
    assert TwoDigits(14) == "14" && TwoDigits(30) == "30";
  }

  /** A 24-hour time is copied through: `("2024-03-01", "14:30")` gives `2024-03-01T14:30:00`. */
  lemma Example24Hour(iso: string)
    ensures LocalDateTime(LocalDate(2024, 3, 1, iso), "14:30") == Stamp("2024-03-01T14:30:00")
  {
    Match24Hour();
    Text24Hour(iso);
    StampFromParts(LocalDate(2024, 3, 1, iso), "14:30", TimeMatch(0, "14", "30", None), "2024-03-01T14:30:00");
  }

  /** `"2:15 PM"` matches at index 0 as hour 2, minutes 15, PM. */
  lemma MatchAfternoon()
    ensures FindTime("2:15 PM", 0) == Some(TimeMatch(0, "2", "15", Some(PM)))
    ensures HourValue(TimeMatch(0, "2", "15", Some(PM))) == 2 && MinuteValue(TimeMatch(0, "2", "15", Some(PM))) == 15
  {
    var s := "2:15 PM";
    assert s[0..1] == "2" && s[2..4] == "15";
    assert MinutesAt(s, 1) && !IsDigit(s[1]);
    assert SkipSpaces(s, 4) == 5 && MeridiemAt(s, 5) == Some(PM);
    assert Capture(s, 0, 1) == TimeMatch(0, "2", "15", Some(PM));
    assert DecimalValue("2") == 2 by { assert "2"[..0] == []; }
    TwoDigitValue("15");
  }

  /** The timestamp the afternoon example builds, assembled from its fields. */
  lemma TextAfternoon(iso: string)
    ensures DatePrefix(LocalDate(2024, 3, 1, iso)) + "T" + TwoDigits(14) + ":" + TwoDigits(15) + ":00" == "2024-03-01T14:15:00"
  {
    FirstOfMarch2024(iso);
    assert TwoDigits(14) == "14" && TwoDigits(15) == "15";
  }

  /** `("2024-03-01", "2:15 PM")` gives `2024-03-01T14:15:00`. */
  lemma ExampleAfternoon(iso: string)
    ensures LocalDateTime(LocalDate(2024, 3, 1, iso), "2:15 PM") == Stamp("2024-03-01T14:15:00")
  {
    MatchAfternoon();
    TextAfternoon(iso);
    StampFromParts(LocalDate(2024, 3, 1, iso), "2:15 PM", TimeMatch(0, "2", "15", Some(PM)), "2024-03-01T14:15:00");
  }

  /** `"12:00 AM"` matches at index 0 as hour 12, minutes 00, AM. */
  lemma MatchMidnight()
    ensures FindTime("12:00 AM", 0) == Some(TimeMatch(0, "12", "00", Some(AM)))
    ensures HourValue(TimeMatch(0, "12", "00", Some(AM))) == 12 && MinuteValue(TimeMatch(0, "12", "00", Some(AM))) == 0
  {
    var s := "12:00 AM";
    assert s[0..2] == "12" && s[3..5] == "00";
    assert MinutesAt(s, 2);
    assert SkipSpaces(s, 5) == 6 && MeridiemAt(s, 6) == Some(AM);
    assert Capture(s, 0, 2) == TimeMatch(0, "12", "00", Some(AM));
    TwoDigitValue("12");
    TwoDigitValue("00");
  }

  /** The timestamp the midnight example builds, assembled from its fields. */
  lemma TextMidnight(iso: string)
    ensures DatePrefix(LocalDate(2024, 3, 1, iso)) + "T" + TwoDigits(0) + ":" + TwoDigits(0) + ":00" == "2024-03-01T00:00:00"
  {
    FirstOfMarch2024(iso);
    assert TwoDigits(0) == "00" && TwoDigits(0) == "00";
  }

  /** `("2024-03-01", "12:00 AM")` gives midnight, `2024-03-01T00:00:00`. */
  lemma ExampleMidnight(iso: string)
    ensures LocalDateTime(LocalDate(2024, 3, 1, iso), "12:00 AM") == Stamp("2024-03-01T00:00:00")
  {
    MatchMidnight();
    TextMidnight(iso);
    StampFromParts(LocalDate(2024, 3, 1, iso), "12:00 AM", TimeMatch(0, "12", "00", Some(AM)), "2024-03-01T00:00:00");
  }

  /** `"13:00 PM"` matches at index 0 as hour 13, minutes 00, PM. */
  lemma MatchHourOutOfRange()
    ensures FindTime("13:00 PM", 0) == Some(TimeMatch(0, "13", "00", Some(PM)))
    ensures HourValue(TimeMatch(0, "13", "00", Some(PM))) == 13 && MinuteValue(TimeMatch(0, "13", "00", Some(PM))) == 0
  {
    var s := "13:00 PM";
    assert s[0..2] == "13" && s[3..5] == "00";
    assert MinutesAt(s, 2);
    assert SkipSpaces(s, 5) == 6 && MeridiemAt(s, 6) == Some(PM);
    assert Capture(s, 0, 2) == TimeMatch(0, "13", "00", Some(PM));
    TwoDigitValue("13");
    TwoDigitValue("00");
  }

  /** The timestamp the out-of-range example builds, assembled from its fields. */
  lemma TextHourOutOfRange(iso: string)
    ensures DatePrefix(LocalDate(2024, 3, 1, iso)) + "T" + TwoDigits(25) + ":" + TwoDigits(0) + ":00" == "2024-03-01T25:00:00"
  {
    FirstOfMarch2024(iso);
    assert TwoDigits(25) == "25" && TwoDigits(0) == "00";
  }

  /** Hours are not range-checked: `13:00 PM` becomes hour 25. */
  lemma ExampleHourOutOfRange(iso: string)
    ensures LocalDateTime(LocalDate(2024, 3, 1, iso), "13:00 PM") == Stamp("2024-03-01T25:00:00")
  {
    MatchHourOutOfRange();
    TextHourOutOfRange(iso);
    StampFromParts(LocalDate(2024, 3, 1, iso), "13:00 PM", TimeMatch(0, "13", "00", Some(PM)), "2024-03-01T25:00:00");
  }

  /** In `"at 7:05pm sharp"` the leftmost time starts at index 3 and reads 7, 05, pm. */
  lemma UnanchoredMatch()
    ensures FindTime("at 7:05pm sharp", 0) == Some(TimeMatch(3, "7", "05", Some(PM)))
    ensures HourValue(TimeMatch(3, "7", "05", Some(PM))) == 7 && MinuteValue(TimeMatch(3, "7", "05", Some(PM))) == 5
  {
    var s := "at 7:05pm sharp";
    var m := TimeMatch(3, "7", "05", Some(PM));
    assert MatchAt(s, 0).None? && MatchAt(s, 1).None? && MatchAt(s, 2).None?;
    assert s[3..4] == "7" && s[5..7] == "05";
    assert MinutesAt(s, 4) && !IsDigit(s[4]);
    assert SkipSpaces(s, 7) == 7 && MeridiemAt(s, 7) == Some(PM);
    assert Capture(s, 3, 4) == m;
    assert FindTime(s, 0) == FindTime(s, 1) == FindTime(s, 2) == FindTime(s, 3);
    assert DecimalValue("7") == 7 by { assert "7"[..0] == []; }
    TwoDigitValue("05");
  }

  /** The timestamp the unanchored example builds, assembled from its fields. */
  lemma UnanchoredText(iso: string)
    ensures DatePrefix(LocalDate(2024, 3, 1, iso)) + "T" + TwoDigits(19) + ":" + TwoDigits(5) + ":00" == "2024-03-01T19:05:00"
  {
    FirstOfMarch2024(iso);
    assert TwoDigits(19) == "19" && TwoDigits(5) == "05";
  }

  /** The pattern is not anchored: text around the time is ignored, and `pm` may be lower case. */
  lemma ExampleUnanchored(iso: string)
    ensures LocalDateTime(LocalDate(2024, 3, 1, iso), "at 7:05pm sharp") == Stamp("2024-03-01T19:05:00")
  {
    UnanchoredMatch();
    UnanchoredText(iso);
    StampFromParts(LocalDate(2024, 3, 1, iso), "at 7:05pm sharp", TimeMatch(3, "7", "05", Some(PM)), "2024-03-01T19:05:00");
  }
}

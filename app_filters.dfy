/** The server's Jinja helpers: the None-safe string filters, and the
    `datetime` and `time` filters that re-format strings read with
    datetime.strptime. strptime is modelled for the three formats the
    server uses; each %-directive accepts the tokens of its regular
    expression, and the parsed fields must form a real date or time. */
module TemplateFilters {
  import opened Wrappers
  import opened Text

  // ---------------------------------------------------------------------
  // None-safe filters

  /** regex_match and the `match` test: False for None, otherwise whether
      the pattern matches at the start of str(text); the regular
      expression itself is the parameter `matchesAtStart`. */
  function RegexMatch(text: Option<string>, matchesAtStart: string -> bool): (r: bool)
    ensures text.None? ==> !r
    ensures text.Some? ==> (r <==> matchesAtStart(text.value))
  {
    text.Some? && matchesAtStart(text.value)
  }

  /** startswith_filter. */
  function StartswithFilter(text: Option<string>, prefix: string): (r: bool)
    ensures r <==> text.Some? && OccursAt(text.value, prefix, 0)
  {
    assert text.Some? ==> (StartsWith(text.value, prefix) <==> OccursAt(text.value, prefix, 0));
    text.Some? && StartsWith(text.value, prefix)
  }

  /** The `contains` filter. */
  function ContainsFilter(text: Option<string>, substring: string): (r: bool)
    ensures r <==> text.Some? && exists i :: 0 <= i <= |text.value| - |substring| && OccursAt(text.value, substring, i)
  {
    text.Some? && Contains(text.value, substring)
  }

  /** A text the startswith filter accepts is one the contains filter
      accepts, and neither accepts None. */
  lemma {:induction false} StartswithImpliesContains(text: Option<string>, prefix: string)
    requires StartswithFilter(text, prefix)
    ensures ContainsFilter(text, prefix)
  {
    StartsWithContains(text.value, prefix);
  }

  // ---------------------------------------------------------------------
  // strptime tokens

  /** %Y: four digits. */
  predicate YearToken(t: string) {
    |t| == 4 && IsDigit(t[0]) && IsDigit(t[1]) && IsDigit(t[2]) && IsDigit(t[3])
  }

  /** %m: 1[0-2] | 0[1-9] | [1-9]. */
  predicate MonthToken(t: string) {
    || (|t| == 2 && t[0] == '1' && '0' <= t[1] <= '2')
    || (|t| == 2 && t[0] == '0' && '1' <= t[1] <= '9')
    || (|t| == 1 && '1' <= t[0] <= '9')
  }

  /** %d: 3[01] | [12]\d | 0[1-9] | [1-9] | ' '[1-9]. */
  predicate DayToken(t: string) {
    || (|t| == 2 && t[0] == '3' && '0' <= t[1] <= '1')
    || (|t| == 2 && '1' <= t[0] <= '2' && IsDigit(t[1]))
    || (|t| == 2 && t[0] == '0' && '1' <= t[1] <= '9')
    || (|t| == 1 && '1' <= t[0] <= '9')
    || (|t| == 2 && t[0] == ' ' && '1' <= t[1] <= '9')
  }

  /** %H: 2[0-3] | [0-1]\d | \d. */
  predicate HourToken(t: string) {
    || (|t| == 2 && t[0] == '2' && '0' <= t[1] <= '3')
    || (|t| == 2 && '0' <= t[0] <= '1' && IsDigit(t[1]))
    || (|t| == 1 && IsDigit(t[0]))
  }

  /** %M: [0-5]\d | \d. */
  predicate MinuteToken(t: string) {
    || (|t| == 2 && '0' <= t[0] <= '5' && IsDigit(t[1]))
    || (|t| == 1 && IsDigit(t[0]))
  }

  /** %S: 6[0-1] | [0-5]\d | \d. */
  predicate SecondToken(t: string) {
    || (|t| == 2 && t[0] == '6' && '0' <= t[1] <= '1')
    || (|t| == 2 && '0' <= t[0] <= '5' && IsDigit(t[1]))
    || (|t| == 1 && IsDigit(t[0]))
  }

  function CharValue(c: char): nat {
    if IsDigit(c) then c as int - '0' as int else 0
  }

  /** int() of a token, which is one, two or four characters long; the
      leading space a %d token may carry adds nothing. */
  function FieldValue(t: string): nat {
    if |t| == 1 then CharValue(t[0])
    else if |t| == 2 then CharValue(t[0]) * 10 + CharValue(t[1])
    else if |t| == 4 then CharValue(t[0]) * 1000 + CharValue(t[1]) * 100 + CharValue(t[2]) * 10 + CharValue(t[3])
    else 0
  }

  // ---------------------------------------------------------------------
  // Dates and times

  datatype Date = Date(year: int, month: int, day: int)

  predicate IsLeapYear(y: int) {
    y % 4 == 0 && (y % 100 != 0 || y % 400 == 0)
  }

  function DaysInMonth(y: int, m: int): int
    requires 1 <= m <= 12
  {
    if m == 2 then (if IsLeapYear(y) then 29 else 28)
    else if m == 4 || m == 6 || m == 9 || m == 11 then 30
    else 31
  }

  /** What datetime(year, month, day) accepts. */
  predicate ValidDate(d: Date) {
    1 <= d.year <= 9999 && 1 <= d.month <= 12 && 1 <= d.day <= DaysInMonth(d.year, d.month)
  }

  /** strptime(s, '%Y-%m-%d'): the tokens separated by '-' (no token holds
      a '-'), then the calendar check. */
  function ParseIsoDate(s: string): (r: Option<Date>)
    ensures r.Some? ==> ValidDate(r.value)
  {
    var p := Split(s, '-');
    if |p| == 3 && YearToken(p[0]) && MonthToken(p[1]) && DayToken(p[2]) then
      var d := Date(FieldValue(p[0]), FieldValue(p[1]), FieldValue(p[2]));
      if ValidDate(d) then Some(d) else None
    else None
  }

  datatype ClockTime = ClockTime(hour: int, minute: int, second: int)

  /** strptime(s, '%H:%M:%S').time(): %S admits 60 and 61, which the
      datetime constructor then refuses. */
  function ParseClock(s: string): (r: Option<ClockTime>)
    ensures r.Some? ==> 0 <= r.value.hour < 24 && 0 <= r.value.minute < 60 && 0 <= r.value.second < 60
  {
    var p := Split(s, ':');
    if |p| == 3 && HourToken(p[0]) && MinuteToken(p[1]) && SecondToken(p[2]) && FieldValue(p[2]) < 60 then
      Some(ClockTime(FieldValue(p[0]), FieldValue(p[1]), FieldValue(p[2])))
    else None
  }

  /** strftime's %Y, zero-padded to four digits. */
  function Year4(y: nat): (r: string)
    requires y < 10000
    ensures YearToken(r) && FieldValue(r) == y
  {
    var q1 := y / 10;
    var q2 := q1 / 10;
    var q3 := q2 / 10;
    assert y == q3 * 1000 + (q2 % 10) * 100 + (q1 % 10) * 10 + y % 10 by {
      assert y == q1 * 10 + y % 10;
      assert q1 == q2 * 10 + q1 % 10;
      assert q2 == q3 * 10 + q2 % 10;
    }
    [DigitChar(q3), DigitChar(q2 % 10), DigitChar(q1 % 10), DigitChar(y % 10)]
  }

  /** A two-digit field read back by int(). */
  lemma {:induction false} Pad2FieldValue(n: nat)
    requires n < 100
    ensures FieldValue(Pad2(n)) == n
  {
    assert Pad2(n)[0] == DigitChar(n / 10) && Pad2(n)[1] == DigitChar(n % 10);
  }

  /** The form an HTML date input submits: YYYY-MM-DD. */
  function FormatIso(d: Date): string
    requires ValidDate(d)
  {
    Year4(d.year) + "-" + Pad2(d.month) + "-" + Pad2(d.day)
  }

  /** strftime('%d/%m/%Y'). */
  function FormatDmy(d: Date): string
    requires ValidDate(d)
  {
    Pad2(d.day) + "/" + Pad2(d.month) + "/" + Year4(d.year)
  }

  /** The `datetime` filter on a string: a date read as %Y-%m-%d comes out
      as DD/MM/YYYY, any other string comes back unchanged. */
  function DatetimeFilter(s: string): (r: string)
    ensures ParseIsoDate(s).None? ==> r == s
    ensures ParseIsoDate(s).Some? ==> r == FormatDmy(ParseIsoDate(s).value)
  {
    match ParseIsoDate(s)
    case Some(d) => FormatDmy(d)
    case None => s
  }

  /** The `time` filter on a string: a time read as %H:%M:%S comes out as
      HH:MM, any other string comes back unchanged. */
  function TimeFilter(s: string): (r: string)
    ensures ParseClock(s).None? ==> r == s
    ensures ParseClock(s).Some? ==> r == Pad2(ParseClock(s).value.hour) + ":" + Pad2(ParseClock(s).value.minute)
  {
    match ParseClock(s)
    case Some(t) => Pad2(t.hour) + ":" + Pad2(t.minute)
    case None => s
  }

  lemma {:induction false} Join3(a: string, b: string, c: string, sep: char)
    requires sep !in a && sep !in b && sep !in c
    ensures Split(a + [sep] + b + [sep] + c, sep) == [a, b, c]
  {
    var parts := [a, b, c];
    assert Join(parts, [sep]) == a + [sep] + b + [sep] + c by {
      assert parts[1..] == [b, c];
      assert [b, c][1..] == [c];
      assert Join([b, c], [sep]) == b + [sep] + c;
    }
    SplitJoin(parts, sep);
  }

  lemma {:induction false} Pad2NoSeparator(n: nat, sep: char)
    requires n < 100 && !IsDigit(sep)
    ensures sep !in Pad2(n)
  {
  }

  /** Reading back a date written as YYYY-MM-DD gives the date. */
  lemma {:induction false} ParseIsoDateFormat(d: Date)
    requires ValidDate(d)
    ensures ParseIsoDate(FormatIso(d)) == Some(d)
  {
    MonthAndDayTokens(d);
    Pad2FieldValue(d.month);
    Pad2FieldValue(d.day);
    ParseIsoDateFields(Year4(d.year), Pad2(d.month), Pad2(d.day));
  }

  /** The filter turns a YYYY-MM-DD date into DD/MM/YYYY. */
  lemma {:induction false} DatetimeFilterIso(d: Date)
    requires ValidDate(d)
    ensures DatetimeFilter(FormatIso(d)) == FormatDmy(d)
  {
    ParseIsoDateFormat(d);
  }

  /** A date written as three tokens joined by '-' is read field by field. */
  lemma {:induction false} ParseIsoDateFields(y: string, m: string, d: string)
    requires YearToken(y) && MonthToken(m) && DayToken(d)
    ensures var date := Date(FieldValue(y), FieldValue(m), FieldValue(d));
      ParseIsoDate(y + "-" + m + "-" + d) == if ValidDate(date) then Some(date) else None
  {
    assert '-' !in y && '-' !in m && '-' !in d;
    assert y + "-" + m + "-" + d == y + ['-'] + m + ['-'] + d;
    Join3(y, m, d, '-');
  }

  /** A time written as three tokens joined by ':' is read field by field. */
  lemma {:induction false} ParseClockFields(h: string, m: string, sec: string)
    requires HourToken(h) && MinuteToken(m) && SecondToken(sec)
    ensures ParseClock(h + ":" + m + ":" + sec) ==
      if FieldValue(sec) < 60 then Some(ClockTime(FieldValue(h), FieldValue(m), FieldValue(sec))) else None
  {
    assert ':' !in h && ':' !in m && ':' !in sec;
    assert h + ":" + m + ":" + sec == h + [':'] + m + [':'] + sec;
    Join3(h, m, sec, ':');
  }

  lemma {:induction false} ShortDateParses()
    ensures ParseIsoDate("2025" + "-" + "1" + "-" + "5") == Some(Date(2025, 1, 5))
  {
    ParseIsoDateFields("2025", "1", "5");
  }

  lemma {:induction false} ShortDateFormats()
    ensures FormatDmy(Date(2025, 1, 5)) == "05/01/2025"
  {
    assert Pad2(5) == "05" by { assert Pad2(5)[0] == '0' && Pad2(5)[1] == '5'; }
    assert Pad2(1) == "01" by { assert Pad2(1)[0] == '0' && Pad2(1)[1] == '1'; }
    assert Year4(2025) == "2025" by {
      var r := Year4(2025);
      assert r[0] == '2' && r[1] == '0' && r[2] == '2' && r[3] == '5';
    }
  }

  /** %m and %d also take one digit, so the filter pads a short date. */
  lemma {:induction false} DatetimeFilterPadsShortFields()
    ensures DatetimeFilter("2025-1-5") == "05/01/2025"
  {
    var s := "2025" + "-" + "1" + "-" + "5";
    assert s == "2025-1-5";
    ShortDateParses();
    ShortDateFormats();
    assert DatetimeFilter(s) == FormatDmy(Date(2025, 1, 5));
  }

  /** A day the month does not have leaves the string as it is. */
  lemma {:induction false} DatetimeFilterKeepsImpossibleDay()
    ensures DatetimeFilter("2025-02-30") == "2025-02-30"
  {
    ImpossibleDayRejected();
  }

  lemma {:induction false} ImpossibleDayRejected()
    ensures ParseIsoDate("2025-02-30") == None
  {
    ParseIsoDateFields("2025", "02", "30");
    assert "2025" + "-" + "02" + "-" + "30" == "2025-02-30";
  }

  /** The filter turns HH:MM:SS into HH:MM. */
  lemma {:induction false} TimeFilterDropsSeconds(h: nat, m: nat, sec: nat)
    requires h < 24 && m < 60 && sec < 60
    ensures TimeFilter(Pad2(h) + ":" + Pad2(m) + ":" + Pad2(sec)) == Pad2(h) + ":" + Pad2(m)
  {
    ClockTokens(h, m, sec);
    ParseClockFields(Pad2(h), Pad2(m), Pad2(sec));
    Pad2FieldValue(h);
    Pad2FieldValue(m);
    Pad2FieldValue(sec);
  }

  lemma {:induction false} ClockTokens(h: nat, m: nat, sec: nat)
    requires h < 24 && m < 60 && sec < 60
    ensures HourToken(Pad2(h)) && MinuteToken(Pad2(m)) && SecondToken(Pad2(sec))
  {
    assert Pad2(h)[0] == DigitChar(h / 10) && Pad2(h)[1] == DigitChar(h % 10);
    assert Pad2(m)[0] == DigitChar(m / 10);
    assert Pad2(sec)[0] == DigitChar(sec / 10);
  }

  /** %S reads a leap second, but the time it would build does not exist,
      so the string comes back unchanged. */
  lemma {:induction false} TimeFilterKeepsLeapSecond()
    ensures TimeFilter("23:59:60") == "23:59:60"
  {
    var s := "23" + ":" + "59" + ":" + "60";
    assert s == "23:59:60";
    LeapSecondRejected();
    assert TimeFilter(s) == s;
  }

  lemma {:induction false} LeapSecondRejected()
    ensures ParseClock("23" + ":" + "59" + ":" + "60") == None
  {
    ParseClockFields("23", "59", "60");
  }

  // ---------------------------------------------------------------------
  // '%Y-%m-%d %H:%M' for create_game

  /** A date and a time of day to the minute; `second` and `micro` are
      zero for a parsed form value and set for datetime.now(). */
  datatype Stamp = Stamp(date: Date, hour: int, minute: int, second: int, micro: int)

  /** datetime's `<`: field by field from the year down. */
  predicate Before(a: Stamp, b: Stamp) {
    var x := [a.date.year, a.date.month, a.date.day, a.hour, a.minute, a.second, a.micro];
    var y := [b.date.year, b.date.month, b.date.day, b.hour, b.minute, b.second, b.micro];
    exists k :: 0 <= k < 7 && x[..k] == y[..k] && x[k] < y[k]
  }

  /** %H:%M at the end of the string. */
  function ParseHourMinute(s: string): (r: Option<(int, int)>)
    ensures r.Some? ==> 0 <= r.value.0 < 24 && 0 <= r.value.1 < 60
  {
    var hm := Split(s, ':');
    if |hm| == 2 && HourToken(hm[0]) && MinuteToken(hm[1]) then Some((FieldValue(hm[0]), FieldValue(hm[1])))
    else None
  }

  /** The day field followed by the white space that separates the date
      from the time: the day alternatives are tried in order, and at most
      one of them can be followed by white space. */
  function DayAndRest(rest: string): Option<(string, string)> {
    if |rest| >= 2 && DayToken(rest[..2]) then Some((rest[..2], rest[2..]))
    else if |rest| >= 1 && DayToken(rest[..1]) then Some((rest[..1], rest[1..]))
    else None
  }

  /** What follows the month: '%d %H:%M', as the day's value and the time. */
  function ParseDayAndTime(rest: string): (r: Option<(int, (int, int))>)
    ensures r.Some? ==> 0 <= r.value.1.0 < 24 && 0 <= r.value.1.1 < 60
  {
    match DayAndRest(rest)
    case None => None
    case Some((day, after)) =>
      if after != [] && after[0] in PyWhitespace then
        match ParseHourMinute(TrimStart(after, PyWhitespace))
        case None => None
        case Some(t) => Some((FieldValue(day), t))
      else None
  }

  /** strptime(gameDate + ' ' + gameTime, '%Y-%m-%d %H:%M'); the space of
      the format matches one or more white-space characters. */
  function ParseGameStart(gameDate: string, gameTime: string): (r: Option<Stamp>)
    ensures r.Some? ==> ValidDate(r.value.date) && 0 <= r.value.hour < 24 && 0 <= r.value.minute < 60
    ensures r.Some? ==> r.value.second == 0 && r.value.micro == 0
  {
    var p := Split(gameDate + " " + gameTime, '-');
    if |p| == 3 && YearToken(p[0]) && MonthToken(p[1]) then
      match ParseDayAndTime(p[2])
      case None => None
      case Some((day, (h, m))) =>
        var d := Date(FieldValue(p[0]), FieldValue(p[1]), day);
        if ValidDate(d) then Some(Stamp(d, h, m, 0, 0)) else None
    else None
  }

  lemma {:induction false} TrimStartAtDigit(s: string)
    requires s != [] && IsDigit(s[0])
    ensures TrimStart(s, PyWhitespace) == s
  {
    assert s[0] !in PyWhitespace;
  }

  lemma {:induction false} TrimStartSpaceThenDigit(t: string)
    requires t != [] && IsDigit(t[0])
    ensures TrimStart(" " + t, PyWhitespace) == t
  {
    assert (" " + t)[1..] == t;
    TrimStartAtDigit(t);
  }

  lemma {:induction false} MonthAndDayTokens(d: Date)
    requires ValidDate(d)
    ensures MonthToken(Pad2(d.month)) && DayToken(Pad2(d.day))
  {
    var m, dd := Pad2(d.month), Pad2(d.day);
    assert m[0] == DigitChar(d.month / 10) && m[1] == DigitChar(d.month % 10);
    assert dd[0] == DigitChar(d.day / 10) && dd[1] == DigitChar(d.day % 10);
  }

  lemma {:induction false} HourMinuteParses(h: nat, m: nat)
    requires h < 24 && m < 60
    ensures ParseHourMinute(Pad2(h) + ":" + Pad2(m)) == Some((h, m))
  {
    var hh, mm := Pad2(h), Pad2(m);
    var parts := [hh, mm];
    assert Join(parts, [':']) == hh + ":" + mm by { assert parts[1..] == [mm]; }
    SplitJoin(parts, ':');
    Pad2FieldValue(h);
    Pad2FieldValue(m);
  }

  lemma {:induction false} GameStartSplit(d: Date, tail: string)
    requires ValidDate(d) && '-' !in tail
    ensures Split(FormatIso(d) + tail, '-') == [Year4(d.year), Pad2(d.month), Pad2(d.day) + tail]
  {
    var y, mo, dd := Year4(d.year), Pad2(d.month), Pad2(d.day);
    assert FormatIso(d) + tail == y + ['-'] + mo + ['-'] + (dd + tail);
    Join3(y, mo, dd + tail, '-');
  }

  lemma {:induction false} DayAndTimeParses(day: nat, h: nat, m: nat)
    requires 1 <= day <= 31 && h < 24 && m < 60
    ensures ParseDayAndTime(Pad2(day) + (" " + (Pad2(h) + ":" + Pad2(m)))) == Some((day, (h, m)))
  {
    var dd, time := Pad2(day), Pad2(h) + ":" + Pad2(m);
    var tail := dd + (" " + time);
    assert DayToken(dd) by { assert dd[0] == DigitChar(day / 10) && dd[1] == DigitChar(day % 10); }
    assert tail[..2] == dd && tail[2..] == " " + time;
    TrimStartSpaceThenDigit(time);
    HourMinuteParses(h, m);
    Pad2FieldValue(day);
  }

  /** What the create-game form submits (YYYY-MM-DD and HH:MM) is read as
      that date and time. */
  lemma {:induction false} ParseGameStartForm(d: Date, h: nat, m: nat)
    requires ValidDate(d) && h < 24 && m < 60
    ensures ParseGameStart(FormatIso(d), Pad2(h) + ":" + Pad2(m)) == Some(Stamp(d, h, m, 0, 0))
  {
    var time := Pad2(h) + ":" + Pad2(m);
    NoDashInTime(h, m);
    GameStartSplit(d, " " + time);
    assert FormatIso(d) + " " + time == FormatIso(d) + (" " + time);
    DayAndTimeParses(d.day, h, m);
    MonthAndDayTokens(d);
    Pad2FieldValue(d.month);
  }

  lemma {:induction false} NoDashInTime(h: nat, m: nat)
    requires h < 24 && m < 60
    ensures '-' !in " " + (Pad2(h) + ":" + Pad2(m))
  {
    var t := " " + (Pad2(h) + ":" + Pad2(m));
    assert forall i :: 0 <= i < |t| ==> t[i] == ' ' || t[i] == ':' || IsDigit(t[i]);
  }
}

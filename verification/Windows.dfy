/**
 Time windows (window.go): named calendar windows, "the past N days", and offsets, all relative to
 a given moment in a fixed time zone.

 A time is a number of nanoseconds since January 1 of year 1, 00:00 UTC, with the offset of its
 zone in seconds, which is how Go's time package sees it.
 */
module Windows {
  import opened Wrappers
  import opened Numbers
  import opened Durations
  import opened GoStrings
  import opened Calendar

  const MINUTE: int := 60 * SECOND
  const HOUR: int := 60 * MINUTE
  const UNIX_EPOCH: int := 62_135_596_800

  /** An instant and the zone it is displayed in. */
  datatype Time = Time(ns: int, zone: int) {
    /** Nanoseconds on the local clock. */
    function Local(): int {
      ns + zone * SECOND
    }

    function Hour(): int {
      Local() % DAY / HOUR
    }

    function Minute(): int {
      Local() % HOUR / MINUTE
    }

    function LocalDay(): int {
      Local() / DAY
    }

    function UTC(): Time {
      Time(ns, 0)
    }

    function Add(d: int): Time {
      Time(ns + d, zone)
    }

    /** Rounds down to a multiple of d since the zero time, in UTC whatever the zone. */
    function Truncate(d: int): Time
      requires d > 0
    {
      Time(ns - ns % d, zone)
    }

    function Weekday(): int {
      Calendar.Weekday(LocalDay())
    }

    function Date(): Date {
      Civil(LocalDay())
    }

    predicate IsLocalMidnight() {
      Local() % DAY == 0
    }
  }

  datatype Window = Window(start: Option<Time>, end: Option<Time>) {
    predicate IsOpen() {
      start.None? || end.None?
    }

    /** start and end are given and end is before start. */
    predicate IsNegative() {
      !IsOpen() && end.value.ns < start.value.ns
    }
  }

  function Closed(start: Time, end: Time): Window {
    Window(Some(start), Some(end))
  }

  // ---------------------------------------------------------------------------------------
  // Parsing
  // ---------------------------------------------------------------------------------------

  /** The code's UTC offset: hour and minute displayed in UTC minus hour and minute displayed locally. */
  function Offset(now: Time): int {
    var offHr := now.UTC().Hour() - now.Hour();
    var offMin := (now.UTC().Minute() - now.Minute()) + offHr * 60;
    offMin * MINUTE
  }

  /** 00:00 today, accounting for the zone. */
  function StartOfToday(now: Time): Time {
    now.Truncate(DAY).Add(Offset(now))
  }

  function DaysSinceMonday(t: Time): int {
    (t.Weekday() + 6) % 7
  }

  function StartOfWeek(now: Time): Time {
    var start := StartOfToday(now);
    start.Add(-DAY * DaysSinceMonday(start))
  }

  function StartOfMonth(now: Time): Time {
    var start := StartOfToday(now);
    start.Add(-DAY * (start.Date().day - 1))
  }

  /** A number and one of the unit letters m, h, d, w at the front of s, and the text behind them. */
  function MatchAmount(s: string): Option<(string, char, string)> {
    var (digits, rest) := TakeDigits(s);
    if digits != "" && rest != "" && rest[0] in {'m', 'h', 'd', 'w'}
    then Some((digits, rest[0], rest[1..]))
    else None
  }

  /** strconv.ParseInt with its error ignored: out-of-range numbers saturate. */
  function ParseInt(digits: string): int
    requires AllDigits(digits)
  {
    if NatOf(digits) <= MAX_INT64 then NatOf(digits) else MAX_INT64
  }

  function UnitLength(unit: char): int {
    if unit == 'h' then HOUR else if unit == 'd' then DAY else if unit == 'w' then WEEK else MINUTE
  }

  /** An offset in weeks is counted in units of 24 weeks. */
  function OffsetUnitLength(unit: char): int {
    if unit == 'w' then 24 * WEEK else UnitLength(unit)
  }

  /** -time.Duration(num) * unit on int64. */
  function Back(num: int, unit: int): int {
    Wrap(-num * unit)
  }

  /** The window of the past num units: whole local days for days and weeks. */
  function PastWindow(num: int, unit: char, now: Time): Window {
    var start := now.Add(Back(num, UnitLength(unit)));
    if unit == 'd' || unit == 'w' then
      Closed(start.Truncate(DAY).Add(DAY).Add(Offset(now)), now)
    else Closed(start, now)
  }

  function OffsetWindow(num: int, unit: char, offNum: int, offUnit: char, now: Time): Window {
    var end := now.Add(Back(offNum, OffsetUnitLength(offUnit)));
    Closed(end.Add(Back(num, UnitLength(unit))), end)
  }

  function UnixTime(s: int): Time {
    Time(Wrap(s + UNIX_EPOCH) * SECOND, 0)
  }

  /** Two numbers separated by a comma, a bar or a dash. */
  function MatchTimestampPair(s: string): Option<(string, string)> {
    var (first, rest) := TakeDigits(s);
    if first != "" && rest != "" && rest[0] in {',', '|', '-'} && rest[1..] != "" && TakeDigits(rest[1..]).1 == ""
    then Some((first, TakeDigits(rest[1..]).0))
    else None
  }

  /**
   parseWindow. The last parameter stands for the RFC 3339 pair branch: the regular expression and
   time.Parse applied to the window string.
   */
  function ParseWindowAt(window: string, now: Time, rfc3339Pair: string -> Option<(Time, Time)>)
    : Result<Window, string>
  {
    if window == "today" then Success(Closed(StartOfToday(now), now))
    else if window == "yesterday" then
      var start := StartOfToday(now).Add(-DAY);
      Success(Closed(start, start.Add(DAY)))
    else if window == "week" then Success(Closed(StartOfWeek(now), now))
    else if window == "lastweek" then
      var today := StartOfToday(now);
      var start := today.Add(-DAY * (DaysSinceMonday(today) + 7));
      Success(Closed(start, start.Add(7 * DAY)))
    else if window == "month" then Success(Closed(StartOfMonth(now), now))
    else if window == "lastmonth" then
      var end := StartOfMonth(now);
      var lastDay := end.Add(-DAY);
      Success(Closed(lastDay.Add(-DAY * (lastDay.Date().day - 1)), end))
    else
      match ParseAmountWindow(window, now)
      case Some(w) => Success(w)
      case None =>
        match MatchTimestampPair(window)
        case Some((first, second)) => Success(Closed(UnixTime(ParseInt(first)), UnixTime(ParseInt(second))))
        case None =>
          match rfc3339Pair(window)
          case Some((start, end)) => Success(Closed(start, end))
          case None => Failure(window)
  }

  /** The two expressions for a past duration, alone or with an offset. */
  function ParseAmountWindow(window: string, now: Time): Option<Window> {
    match MatchAmount(window)
    case Some((digits, unit, "")) => Some(PastWindow(ParseInt(digits), unit, now))
    case Some((digits, unit, rest)) => ParseOffsetWindow(digits, unit, rest, now)
    case None => None
  }

  function ParseOffsetWindow(digits: string, unit: char, rest: string, now: Time): Option<Window>
    requires AllDigits(digits)
  {
    if HasPrefix(rest, " offset ") then
      match MatchAmount(rest[8..])
      case Some((offDigits, offUnit, "")) =>
        Some(OffsetWindow(ParseInt(digits), unit, ParseInt(offDigits), offUnit, now))
      case _ => None
    else None
  }

  /** ParseWindow: both ends of the parsed window cut to whole seconds. */
  function ParseWindow(window: string, now: Time, rfc3339Pair: string -> Option<(Time, Time)>)
    : Result<Window, string>
  {
    match ParseWindowAt(window, now, rfc3339Pair)
    case Success(Window(Some(start), Some(end))) => Success(Closed(start.Truncate(SECOND), end.Truncate(SECOND)))
    case other => other
  }

  // ---------------------------------------------------------------------------------------
  // Local midnights
  // ---------------------------------------------------------------------------------------

  /** The instant of the last local midnight at or before t. */
  function MidnightBefore(t: Time): Time {
    t.Add(-(t.Local() % DAY))
  }

  lemma MidnightBeforeIsMidnight(t: Time)
    ensures
      var m := MidnightBefore(t);
      m.IsLocalMidnight() && m.LocalDay() == t.LocalDay() && m.ns <= t.ns < m.ns + DAY
  {
    var day := t.Local() / DAY;
    assert MidnightBefore(t).Local() == DAY * day;
    MultipleOfDay(day);
  }

  lemma MultipleOfDay(k: int)
    ensures (DAY * k) % DAY == 0 && (DAY * k) / DAY == k
  {
  }

  /** Displayed hours and minutes are the minutes passed since midnight. */
  lemma MinuteOfDay(t: Time)
    ensures (60 * t.Hour() + t.Minute()) * MINUTE == t.Local() % DAY - t.Local() % MINUTE
  {
    var x := t.Local();
    NestedRemainders(x);
    var d, h := x % DAY, x % HOUR;
    assert d == HOUR * (d / HOUR) + h;
    assert h == MINUTE * (h / MINUTE) + h % MINUTE;
  }

  lemma NestedRemainders(x: int)
    ensures x % DAY % HOUR == x % HOUR && x % HOUR % MINUTE == x % MINUTE
  {
    HourShift(x, 24 * (x / DAY));
    MinuteShift(x, 60 * (x / HOUR));
  }

  lemma HourShift(x: int, k: int)
    ensures (x - HOUR * k) % HOUR == x % HOUR
  {
  }

  lemma MinuteShift(x: int, k: int)
    ensures (x - MINUTE * k) % MINUTE == x % MINUTE
  {
  }

  /**
   The UTC truncation can land on the wrong local date and the offset can be a day off; their sum
   misses local midnight only by the difference of the two clocks' seconds.
   */
  lemma OffsetError(now: Time)
    ensures StartOfToday(now).ns
      == MidnightBefore(now).ns + (now.Local() % MINUTE - now.ns % MINUTE)
  {
    MinuteOfDay(now);
    MinuteOfDay(now.UTC());
  }

  lemma SecondsAgree(now: Time)
    ensures now.Local() % MINUTE == now.ns % MINUTE <==> now.zone % 60 == 0
  {
    var a, b := now.Local(), now.ns;
    assert a - b == now.zone * SECOND;
    SameRemainder(a, b, MINUTE);
    ZoneInMinutes(now.zone);
  }

  lemma SameRemainder(a: int, b: int, m: int)
    requires m == MINUTE
    ensures a % m == b % m <==> (a - b) % m == 0
  {
  }

  lemma ZoneInMinutes(zone: int)
    ensures (zone * SECOND) % MINUTE == 0 <==> zone % 60 == 0
  {
    var q, r := zone / 60, zone % 60;
    assert zone * SECOND == q * MINUTE + r * SECOND;
  }

  /** "today" starts at the last local midnight exactly in zones that are whole minutes off UTC. */
  lemma TodayIsLocalMidnight(now: Time)
    ensures StartOfToday(now) == MidnightBefore(now) <==> now.zone % 60 == 0
    ensures StartOfToday(now).IsLocalMidnight() <==> now.zone % 60 == 0
  {
    OffsetError(now);
    SecondsAgree(now);
    MidnightBeforeIsMidnight(now);
    NearMidnight(MidnightBefore(now), now.Local() % MINUTE - now.ns % MINUTE);
  }

  lemma NearMidnight(m: Time, error: int)
    requires m.IsLocalMidnight() && -MINUTE < error < MINUTE
    ensures m.Add(error).IsLocalMidnight() <==> error == 0
  {
  }

  lemma MidnightPlusDays(m: Time, k: int)
    requires m.IsLocalMidnight()
    ensures
      var t := m.Add(DAY * k);
      t.IsLocalMidnight() && t.LocalDay() == m.LocalDay() + k
  {
    var day := m.LocalDay();
    assert m.Local() == DAY * day;
    assert m.Add(DAY * k).Local() == DAY * (day + k);
    MultipleOfDay(day + k);
  }

  // ---------------------------------------------------------------------------------------
  // Calendar windows
  // ---------------------------------------------------------------------------------------

  /** "week" starts at 00:00 of the local Monday of the current week. */
  lemma WeekStartsOnMonday(now: Time)
    requires now.zone % 60 == 0
    ensures
      var start := StartOfWeek(now);
      && start.IsLocalMidnight() && start.Weekday() == 1
      && start.ns <= now.ns < start.ns + 7 * DAY
  {
    TodayIsLocalMidnight(now);
    MidnightBeforeIsMidnight(now);
    var today := StartOfToday(now);
    MidnightPlusDays(today, -DaysSinceMonday(today));
    MondayBefore(today.LocalDay());
  }

  lemma MondayBefore(day: int)
    ensures
      var back := (Calendar.Weekday(day) + 6) % 7;
      0 <= back < 7 && Calendar.Weekday(day - back) == 1
  {
  }

  /** "month" starts at 00:00 of the local first day of the current month. */
  lemma MonthStartsOnFirst(now: Time)
    requires now.zone % 60 == 0
    ensures
      var start := StartOfMonth(now);
      && start.IsLocalMidnight() && start.zone == now.zone
      && start.Date() == Date(now.Date().year, now.Date().month, 1)
      && start.ns <= now.ns
  {
    hide StartOfToday, Civil, Time.IsLocalMidnight;
    TodayIsLocalMidnight(now);
    MidnightBeforeIsMidnight(now);
    FirstOfMonth(StartOfToday(now));
  }

  /** Going back day - 1 days from a local midnight reaches the first of its month. */
  lemma FirstOfMonth(t: Time)
    requires t.IsLocalMidnight()
    ensures
      var first := t.Add(-DAY * (t.Date().day - 1));
      && first.IsLocalMidnight() && first.ns <= t.ns
      && first.Date() == Date(t.Date().year, t.Date().month, 1)
      && first.LocalDay() == t.LocalDay() - (t.Date().day - 1)
  {
    hide Civil, DayNumber;
    var d := t.Date();
    CivilRoundTrip(t.LocalDay());
    MidnightPlusDays(t, 1 - d.day);
    assert DAY * (1 - d.day) == -DAY * (d.day - 1);
    var first := Date(d.year, d.month, 1);
    DayWithinMonth(d);
    DateRoundTrip(first);
  }

  lemma DayWithinMonth(d: Date)
    requires ValidDate(d)
    ensures DayNumber(d) == DayNumber(Date(d.year, d.month, 1)) + d.day - 1
  {
  }

  /** The month before a month. */
  function PreviousMonth(d: Date): (int, int) {
    if d.month == 1 then (d.year - 1, 12) else (d.year, d.month - 1)
  }

  /** The day before the first of a month is the last day of the month before. */
  lemma DayBeforeFirst(day: int)
    requires Civil(day).day == 1
    ensures
      var (y, m) := PreviousMonth(Civil(day));
      Civil(day - 1) == Date(y, m, DaysInMonth(y, m))
  {
    hide Civil, DaysInMonth;
    CivilRoundTrip(day - 1);
    CivilFollowsCalendar(day - 1);
  }

  /**
   The three "last" windows end exactly where the corresponding current window starts, and span
   exactly one day, one week and one calendar month.
   */
  lemma LastWindowsMeetCurrentOnes(now: Time, rfc: string -> Option<(Time, Time)>)
    requires now.zone % 60 == 0
    ensures
      var today, week, month := StartOfToday(now), StartOfWeek(now), StartOfMonth(now);
      var (y, m) := PreviousMonth(now.Date());
      && ParseWindowAt("today", now, rfc) == Success(Closed(today, now))
      && ParseWindowAt("yesterday", now, rfc) == Success(Closed(today.Add(-DAY), today))
      && ParseWindowAt("week", now, rfc) == Success(Closed(week, now))
      && ParseWindowAt("lastweek", now, rfc) == Success(Closed(week.Add(-7 * DAY), week))
      && ParseWindowAt("month", now, rfc) == Success(Closed(month, now))
      && var first := month.Add(-DAY * DaysInMonth(y, m));
         && ParseWindowAt("lastmonth", now, rfc) == Success(Closed(first, month))
         && first.IsLocalMidnight() && first.Date() == Date(y, m, 1)
  {
    LastWeekWindow(now, rfc);
    LastMonthWindow(now, rfc);
  }

  lemma LastWeekWindow(now: Time, rfc: string -> Option<(Time, Time)>)
    ensures ParseWindowAt("lastweek", now, rfc)
      == Success(Closed(StartOfWeek(now).Add(-7 * DAY), StartOfWeek(now)))
  {
    hide StartOfToday, DaysSinceMonday;
  }

  lemma LastMonthWindow(now: Time, rfc: string -> Option<(Time, Time)>)
    requires now.zone % 60 == 0
    ensures
      var month := StartOfMonth(now);
      var (y, m) := PreviousMonth(now.Date());
      var first := month.Add(-DAY * DaysInMonth(y, m));
      && ParseWindowAt("lastmonth", now, rfc) == Success(Closed(first, month))
      && first.IsLocalMidnight() && first.Date() == Date(y, m, 1)
  {
    hide StartOfMonth, Civil, DaysInMonth;
    MonthStartsOnFirst(now);
    var end := StartOfMonth(now);
    MidnightPlusDays(end, -1);
    DayBeforeFirst(end.LocalDay());
    var lastDay := end.Add(-DAY);
    assert lastDay == end.Add(DAY * -1);
    FirstOfMonth(lastDay);
  }

  // ---------------------------------------------------------------------------------------
  // The past N days and weeks
  // ---------------------------------------------------------------------------------------

  lemma WrapShift(x: int) returns (k: int)
    ensures Wrap(x) == x + k * 0x1_0000_0000_0000_0000
    ensures k == 0 <==> MIN_INT64 <= x <= MAX_INT64
    ensures x < MIN_INT64 ==> k >= 1
  {
    k := -((x - MIN_INT64) / 0x1_0000_0000_0000_0000);
  }

  lemma TruncateDays(a: int, k: int)
    ensures (a - DAY * k) % DAY == a % DAY
  {
  }

  /**
   "The past N days" are today and the N - 1 days before it, from local midnight, exactly as long as
   N days fit in an int64; the window is never negative then, except for N = 0.
   */
  lemma PastDaysAreWholeDays(n: int, now: Time)
    requires n >= 0 && now.zone % 60 == 0
    ensures
      var start := PastWindow(n, 'd', now).start.value;
      && (start == MidnightBefore(now).Add(-DAY * (n - 1)) <==> n * DAY <= -MIN_INT64)
      && (n * DAY <= -MIN_INT64 ==>
            start.IsLocalMidnight() && (PastWindow(n, 'd', now).IsNegative() <==> n == 0))
  {
    TodayIsLocalMidnight(now);
    MidnightBeforeIsMidnight(now);
    OffsetError(now);
    SecondsAgree(now);
    var x := -n * DAY;
    var k := WrapShift(x);
    TruncateDays(now.ns, n);
    assert (now.ns + x) % DAY == now.ns % DAY;
    if k == 0 {
      PastStart(now, n);
      MidnightPlusDays(MidnightBefore(now), 1 - n);
    } else {
      LateStart(now, n, k);
    }
  }

  lemma PastStart(now: Time, n: int)
    requires now.zone % 60 == 0 && Wrap(-n * DAY) == -n * DAY
    ensures PastWindow(n, 'd', now).start.value == MidnightBefore(now).Add(DAY * (1 - n))
  {
    hide Wrap;
    TodayIsLocalMidnight(now);
    TruncateDays(now.ns, n);
    assert -n * DAY == -(DAY * n);
    assert now.Add(-n * DAY).Truncate(DAY) == now.Truncate(DAY).Add(-n * DAY);
    assert DAY * (1 - n) == DAY + -n * DAY;
  }

  lemma LateStart(now: Time, n: int, k: int)
    requires Wrap(-n * DAY) == -n * DAY + k * 0x1_0000_0000_0000_0000 && k >= 1
    requires StartOfToday(now) == MidnightBefore(now)
    ensures PastWindow(n, 'd', now).start.value.ns > MidnightBefore(now).ns - DAY * (n - 1)
  {
    hide Wrap;
    assert DAY * (n - 1) == n * DAY - DAY;
    var late := now.ns - n * DAY + k * 0x1_0000_0000_0000_0000;
    assert late % DAY < DAY && now.ns % DAY < DAY;
  }

  /** N weeks back and 7N days back are one window, overflow included. */
  lemma PastWeeksAreDays(n: int, now: Time)
    ensures PastWindow(n, 'w', now) == PastWindow(7 * n, 'd', now)
  {
    assert -n * WEEK == -(7 * n) * DAY;
  }

  /** The text of a number of days or weeks is read as that window. */
  lemma PastWindowText(n: nat, unit: char, now: Time, rfc: string -> Option<(Time, Time)>)
    requires unit in {'m', 'h', 'd', 'w'}
    ensures ParseWindowAt(Decimal(n) + [unit], now, rfc) ==
      Success(PastWindow(if n <= MAX_INT64 then n else MAX_INT64, unit, now))
  {
    hide PastWindow, StartOfToday, StartOfWeek, StartOfMonth;
    var s := Decimal(n) + [unit];
    assert IsDigit(s[0]);
    TakeDigitsOfConcat(Decimal(n), [unit]);
    DecimalRoundTrip(n);
    assert [unit][1..] == "";
    NotNamed(s);
  }

  lemma NotNamed(s: string)
    requires s != "" && IsDigit(s[0])
    ensures s !in {"today", "yesterday", "week", "lastweek", "month", "lastmonth"}
  {
    assert "today"[0] == 't' && "yesterday"[0] == 'y' && "week"[0] == 'w';
    assert "lastweek"[0] == 'l' && "month"[0] == 'm' && "lastmonth"[0] == 'l';
  }

  /** Cutting both ends to whole seconds never makes a window negative. */
  lemma SecondsKeepOrder(window: string, now: Time, rfc: string -> Option<(Time, Time)>)
    requires ParseWindowAt(window, now, rfc).Success?
    requires !ParseWindowAt(window, now, rfc).value.IsNegative()
    ensures
      var w := ParseWindow(window, now, rfc);
      w.Success? && !w.value.IsNegative() && !w.value.IsOpen()
  {
    hide ParseWindowAt, ParseOffsetWindow;
    ParsedWindowsAreClosed(window, now, rfc);
    var w := ParseWindowAt(window, now, rfc).value;
    FloorSeconds(w.start.value.ns, w.end.value.ns);
  }

  lemma ParsedWindowsAreClosed(window: string, now: Time, rfc: string -> Option<(Time, Time)>)
    requires ParseWindowAt(window, now, rfc).Success?
    ensures !ParseWindowAt(window, now, rfc).value.IsOpen()
  {
    hide StartOfToday, StartOfWeek, StartOfMonth, Civil, Wrap, NatOf, TakeDigits;
  }

  lemma FloorSeconds(a: int, b: int)
    requires a <= b
    ensures a - a % SECOND <= b - b % SECOND
  {
  }

  /** In a whole-minute zone every calendar window starts on a whole second, which cutting keeps. */
  lemma MidnightsAreWholeSeconds(t: Time)
    requires t.zone % 60 == 0 && t.IsLocalMidnight()
    ensures t.Truncate(SECOND) == t
  {
    var day := t.Local() / DAY;
    assert t.ns == SECOND * (86_400 * day - t.zone);
    WholeSecond(86_400 * day - t.zone);
  }

  lemma WholeSecond(k: int)
    ensures (SECOND * k) % SECOND == 0
  {
  }
}

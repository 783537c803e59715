/**
 The proleptic Gregorian calendar on day numbers, day 0 being January 1 of year 1, as Go's time
 package counts it. Month lengths and leap years are those of RFC 3339, section 5.7 and Appendix C.
 */
module Calendar {

  datatype Date = Date(year: int, month: int, day: int)

  predicate IsLeap(y: int) {
    y % 4 == 0 && (y % 100 != 0 || y % 400 == 0)
  }

  function DaysInMonth(y: int, m: int): (n: int)
    ensures 28 <= n <= 31
  {
    if m == 2 then (if IsLeap(y) then 29 else 28)
    else if m == 4 || m == 6 || m == 9 || m == 11 then 30
    else 31
  }

  function DaysInYear(y: int): int {
    if IsLeap(y) then 366 else 365
  }

  predicate ValidMonth(m: int) {
    1 <= m <= 12
  }

  predicate ValidDate(d: Date) {
    ValidMonth(d.month) && 1 <= d.day <= DaysInMonth(d.year, d.month)
  }

  /** Days from January 1 of year 1 to January 1 of year y. */
  function DaysBeforeYear(y: int): int {
    var n := y - 1;
    365 * n + n / 4 - n / 100 + n / 400
  }

  /** Days from January 1 to the first of month m. */
  function DaysBeforeMonth(y: int, m: int): int
    requires ValidMonth(m)
    decreases m
  {
    if m == 1 then 0 else DaysBeforeMonth(y, m - 1) + DaysInMonth(y, m - 1)
  }

  function DayNumber(d: Date): int
    requires ValidMonth(d.month)
  {
    DaysBeforeYear(d.year) + DaysBeforeMonth(d.year, d.month) + d.day - 1
  }

  /** The year a day falls in: an estimate from the mean year, too early by at most one. */
  function YearOf(day: int): int {
    var estimate := 400 * day / 146_097 + 1;
    if DaysBeforeYear(estimate + 1) <= day then estimate + 1 else estimate
  }

  /** The month, at least m, that a day of the year falls in. */
  function MonthFrom(y: int, m: int, dayOfYear: int): int
    requires ValidMonth(m)
    decreases 12 - m
  {
    if m == 12 || dayOfYear < DaysBeforeMonth(y, m + 1) then m else MonthFrom(y, m + 1, dayOfYear)
  }

  /** The date of a day. */
  function Civil(day: int): Date {
    var y := YearOf(day);
    var dayOfYear := day - DaysBeforeYear(y);
    var m := MonthFrom(y, 1, dayOfYear);
    MonthFromValid(y, 1, dayOfYear);
    Date(y, m, dayOfYear - DaysBeforeMonth(y, m) + 1)
  }

  /** The date that follows a date, by the rules of the calendar alone. */
  function NextDate(d: Date): Date {
    if d.day < DaysInMonth(d.year, d.month) then Date(d.year, d.month, d.day + 1)
    else if d.month < 12 then Date(d.year, d.month + 1, 1)
    else Date(d.year + 1, 1, 1)
  }

  /** Days of the week, Sunday being 0; January 1 of year 1 was a Monday. */
  function Weekday(day: int): int {
    (day + 1) % 7
  }

  // ---------------------------------------------------------------------------------------

  lemma YearLength(y: int)
    ensures DaysBeforeYear(y + 1) == DaysBeforeYear(y) + DaysInYear(y)
  {
    DivStep(y, 4);
    DivStep(y, 100);
    DivStep(y, 400);
    LeapDivisors(y);
  }

  lemma DivStep(y: int, k: int)
    requires k in {4, 100, 400}
    ensures y / k == (y - 1) / k + (if y % k == 0 then 1 else 0)
  {
  }

  lemma LeapDivisors(y: int)
    ensures y % 400 == 0 ==> y % 100 == 0
    ensures y % 100 == 0 ==> y % 4 == 0
  {
  }

  lemma {:induction false} MonthFromValid(y: int, m: int, dayOfYear: int)
    requires ValidMonth(m)
    ensures m <= MonthFrom(y, m, dayOfYear) <= 12
    decreases 12 - m
  {
    if !(m == 12 || dayOfYear < DaysBeforeMonth(y, m + 1)) {
      MonthFromValid(y, m + 1, dayOfYear);
    }
  }

  lemma WholeYear(y: int)
    ensures DaysBeforeMonth(y, 12) + DaysInMonth(y, 12) == DaysInYear(y)
  {
    assert DaysBeforeMonth(y, 4) == 31 + DaysInMonth(y, 2) + 31;
    assert DaysBeforeMonth(y, 7) == DaysBeforeMonth(y, 4) + 30 + 31 + 30;
    assert DaysBeforeMonth(y, 10) == DaysBeforeMonth(y, 7) + 31 + 31 + 30;
    assert DaysBeforeMonth(y, 12) == DaysBeforeMonth(y, 10) + 31 + 30;
  }

  lemma YearBounds(day: int)
    ensures DaysBeforeYear(YearOf(day)) <= day < DaysBeforeYear(YearOf(day) + 1)
  {
    var e := 400 * day / 146_097;
    assert 146_097 * e <= 400 * day < 146_097 * (e + 1);
    YearEstimate(e, day);
    YearLength(e + 2);
  }

  lemma YearEstimate(e: int, day: int)
    requires 146_097 * e <= 400 * day < 146_097 * (e + 1)
    ensures DaysBeforeYear(e + 1) <= day <= DaysBeforeYear(e + 2) + 1
  {
  }

  lemma {:induction false} MonthBounds(y: int, m: int, dayOfYear: int)
    requires ValidMonth(m) && DaysBeforeMonth(y, m) <= dayOfYear
    ensures
      var r := MonthFrom(y, m, dayOfYear);
      && m <= r <= 12 && DaysBeforeMonth(y, r) <= dayOfYear
      && (r < 12 ==> dayOfYear < DaysBeforeMonth(y, r + 1))
    decreases 12 - m
  {
    if !(m == 12 || dayOfYear < DaysBeforeMonth(y, m + 1)) {
      MonthBounds(y, m + 1, dayOfYear);
    }
  }

  /** Every day has a valid date, and the date determines the day. */
  lemma CivilRoundTrip(day: int)
    ensures ValidDate(Civil(day)) && DayNumber(Civil(day)) == day
  {
    hide DaysBeforeYear, YearOf, DaysInMonth;
    var y := YearOf(day);
    YearBounds(day);
    YearLength(y);
    WholeYear(y);
    MonthBounds(y, 1, day - DaysBeforeYear(y));
  }

  lemma {:induction false} MonthsApart(y: int, m: int, n: int)
    requires 1 <= m < n <= 12
    ensures DaysBeforeMonth(y, m) + DaysInMonth(y, m) <= DaysBeforeMonth(y, n)
    decreases n
  {
    if m < n - 1 {
      MonthsApart(y, m, n - 1);
    }
  }

  lemma YearsApart(y: int, z: int)
    requires y < z
    ensures DaysBeforeYear(y) + DaysInYear(y) <= DaysBeforeYear(z)
    decreases z - y
  {
    hide DaysBeforeYear, DaysInYear;
    YearLength(y);
    if y + 1 < z {
      YearsApart(y + 1, z);
      YearPositive(y + 1);
    }
  }

  lemma YearPositive(y: int)
    ensures DaysInYear(y) > 0
  {
  }

  lemma WithinYear(d: Date)
    requires ValidDate(d)
    ensures DaysBeforeYear(d.year) <= DayNumber(d) < DaysBeforeYear(d.year) + DaysInYear(d.year)
  {
    hide DaysBeforeYear, DaysInYear, DaysInMonth;
    MonthStartsLater(d.year, d.month);
    WholeYear(d.year);
    if d.month < 12 {
      MonthsApart(d.year, d.month, 12);
    }
  }

  lemma {:induction false} MonthStartsLater(y: int, m: int)
    requires ValidMonth(m)
    ensures DaysBeforeMonth(y, m) >= 0
    decreases m
  {
    if m > 1 {
      MonthStartsLater(y, m - 1);
    }
  }

  /** Two valid dates of one day are the same date. */
  lemma DayNumberInjective(a: Date, b: Date)
    requires ValidDate(a) && ValidDate(b) && DayNumber(a) == DayNumber(b)
    ensures a == b
  {
    hide DaysBeforeYear, DaysInYear;
    WithinYear(a);
    WithinYear(b);
    if a.year < b.year {
      YearsApart(a.year, b.year);
    } else if b.year < a.year {
      YearsApart(b.year, a.year);
    } else if a.month < b.month {
      MonthsApart(a.year, a.month, b.month);
    } else if b.month < a.month {
      MonthsApart(a.year, b.month, a.month);
    }
  }

  /** The date of the day of a valid date is that date. */
  lemma DateRoundTrip(d: Date)
    requires ValidDate(d)
    ensures Civil(DayNumber(d)) == d
  {
    hide Civil, DayNumber;
    CivilRoundTrip(DayNumber(d));
    DayNumberInjective(Civil(DayNumber(d)), d);
  }

  /** Civil is the calendar: day 0 is January 1 of year 1, and each day's date follows the day before's. */
  lemma CivilFollowsCalendar(day: int)
    ensures Civil(0) == Date(1, 1, 1)
    ensures Civil(day + 1) == NextDate(Civil(day))
  {
    hide Civil, DayNumber;
    DayNumberOfFirst();
    DateRoundTrip(Date(1, 1, 1));
    CivilRoundTrip(day);
    NextDateIsNextDay(Civil(day));
    DateRoundTrip(NextDate(Civil(day)));
  }

  lemma DayNumberOfFirst()
    ensures DayNumber(Date(1, 1, 1)) == 0
  {
  }

  lemma NextDateIsNextDay(d: Date)
    requires ValidDate(d)
    ensures ValidDate(NextDate(d)) && DayNumber(NextDate(d)) == DayNumber(d) + 1
  {
    hide DaysBeforeYear, DaysInYear, IsLeap;
    WholeYear(d.year);
    YearLength(d.year);
  }

  /** Month term of the standard's formula; its year starts in March. */
  function MonthTerm(m: int): int {
    (26 * m - 2) / 10
  }

  /** Year term of the standard's formula. */
  function YearTerm(y: int): int {
    y % 100 + y % 100 / 4 + y / 100 / 4 + 5 * (y / 100)
  }

  /** The day-of-week function of RFC 3339, Appendix B. */
  function AppendixB(d: Date): int {
    if d.month < 3 then (MonthTerm(d.month + 10) + d.day + YearTerm(d.year - 1)) % 7
    else (MonthTerm(d.month - 2) + d.day + YearTerm(d.year)) % 7
  }

  /** Counting days from a Monday agrees with the standard's formula on every date. */
  lemma WeekdayIsAppendixB(d: Date)
    requires ValidDate(d)
    ensures Weekday(DayNumber(d)) == AppendixB(d)
  {
    hide DaysBeforeYear, YearTerm, MonthTerm, DaysInYear, DaysBeforeMonth;
    var y, m := d.year, d.month;
    if m < 3 {
      var q := YearTermExact(y - 1);
      var r := EarlyMonthTerm(y, m);
      AddSevens(MonthTerm(m + 10) + d.day + YearTerm(y - 1), q + r);
    } else {
      var q := YearTermExact(y);
      YearLength(y);
      var r := LateMonthTerm(y, m);
      AddSevens(MonthTerm(m - 2) + d.day + YearTerm(y), q + r);
    }
  }

  lemma AddSevens(a: int, k: int)
    ensures (a + 7 * k) % 7 == a % 7
  {
  }

  lemma YearTermExact(y: int) returns (q: int)
    ensures DaysBeforeYear(y + 1) == YearTerm(y) + 7 * q
  {
    var c, yy := y / 100, y % 100;
    assert y == 100 * c + yy;
    assert y / 4 == 25 * c + yy / 4;
    assert y / 400 == c / 4;
    q := 5_217 * c + 52 * yy;
  }

  lemma EarlyMonthTerm(y: int, m: int) returns (r: int)
    requires 1 <= m < 3
    ensures DaysBeforeMonth(y, m) == MonthTerm(m + 10) + 7 * r
  {
    r := 4 * (m - 2);
  }

  lemma LateMonthTerm(y: int, m: int) returns (r: int)
    requires 3 <= m <= 12
    ensures DaysBeforeMonth(y, m) - DaysInYear(y) == MonthTerm(m - 2) + 7 * r
  {
    var leap := DaysInYear(y) - 365;
    assert DaysBeforeMonth(y, 3) == 59 + leap;
    assert DaysBeforeMonth(y, 5) == 120 + leap;
    assert DaysBeforeMonth(y, 7) == 181 + leap;
    assert DaysBeforeMonth(y, 9) == 243 + leap;
    assert DaysBeforeMonth(y, 11) == 304 + leap;
    r := 4 * m - 56;
  }
}

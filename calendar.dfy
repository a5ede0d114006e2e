/** The proleptic Gregorian calendar over the range Python's datetime can
    represent (years 1 to 9999), and the conversion between a count of days or
    seconds since 1970-01-01T00:00:00 UTC and a civil date and time of day. */
module Calendar {

  datatype Date = Date(year: int, month: int, day: int)

  datatype DateTime = DateTime(date: Date, hour: int, minute: int, second: int)

  const SecondsPerDay := 86400

  /** Days from 0001-01-01 to 1970-01-01. */
  const EpochOffset := 719162

  /** Day numbers of 0001-01-01 and 9999-12-31, counted from 1970-01-01. */
  const MinDay := -719162
  const MaxDay := 2932896

  /** The first and last whole seconds Python's datetime can represent. */
  const MinInstant := MinDay * SecondsPerDay
  const MaxInstant := MaxDay * SecondsPerDay + (SecondsPerDay - 1)

  predicate IsLeapYear(y: int) {
    y % 4 == 0 && (y % 100 != 0 || y % 400 == 0)
  }

  function YearLength(y: int): int {
    if IsLeapYear(y) then 366 else 365
  }

  /** Lengths of January .. December in a common year. */
  const MonthLengths: seq<int> := [31, 28, 31, 30, 31, 30, 31, 31, 30, 31, 30, 31]

  /** Days before the first of January .. December in a common year, and in the whole year. */
  const MonthStarts: seq<int> := [0, 31, 59, 90, 120, 151, 181, 212, 243, 273, 304, 334, 365]

  function DaysInMonth(y: int, m: int): int
    requires 1 <= m <= 12
  {
    if m == 2 && IsLeapYear(y) then 29 else MonthLengths[m - 1]
  }

  predicate ValidDate(d: Date) {
    1 <= d.year <= 9999 && 1 <= d.month <= 12 && 1 <= d.day <= DaysInMonth(d.year, d.month)
  }

  predicate ValidDateTime(t: DateTime) {
    ValidDate(t.date) && 0 <= t.hour < 24 && 0 <= t.minute < 60 && 0 <= t.second < 60
  }

  /** Days in the years 1 .. y-1. */
  function DaysBeforeYear(y: int): int
    requires 1 <= y
  {
    var p := y - 1;
    365 * p + p / 4 - p / 100 + p / 400
  }

  /** Days in the months 1 .. m-1 of year y. */
  function DaysBeforeMonth(y: int, m: int): int
    requires 1 <= m <= 13
  {
    if m > 2 && IsLeapYear(y) then MonthStarts[m - 1] + 1 else MonthStarts[m - 1]
  }

  /** The number of days from 1970-01-01 to d (negative before it). */
  function DayNumber(d: Date): int
    requires ValidDate(d)
  {
    DaysBeforeYear(d.year) + DaysBeforeMonth(d.year, d.month) + d.day - 1 - EpochOffset
  }

  /** The number of seconds from 1970-01-01T00:00:00 to t. */
  function InstantOf(t: DateTime): int
    requires ValidDateTime(t)
  {
    DayNumber(t.date) * SecondsPerDay + t.hour * 3600 + t.minute * 60 + t.second
  }

  /** The calendar's own notion of "the following day". */
  function NextDay(d: Date): Date
    requires ValidDate(d)
  {
    if d.day < DaysInMonth(d.year, d.month) then Date(d.year, d.month, d.day + 1)
    else if d.month < 12 then Date(d.year, d.month + 1, 1)
    else Date(d.year + 1, 1, 1)
  }

  /** Chronological order of dates, field by field. */
  predicate Before(a: Date, b: Date) {
    a.year < b.year
    || (a.year == b.year && a.month < b.month)
    || (a.year == b.year && a.month == b.month && a.day < b.day)
  }

  // ---------------------------------------------------------------------
  // Facts about the year and month tables

  lemma DaysBeforeMonthStep(y: int, m: int)
    requires 1 <= m <= 12
    ensures DaysBeforeMonth(y, m + 1) == DaysBeforeMonth(y, m) + DaysInMonth(y, m)
    ensures DaysBeforeMonth(y, 13) == YearLength(y)
  {
  }

  lemma DaysBeforeYearStep(y: int)
    requires 1 <= y
    ensures DaysBeforeYear(y + 1) == DaysBeforeYear(y) + YearLength(y)
  {
    assert y / 4 == (y - 1) / 4 + (if y % 4 == 0 then 1 else 0);
    assert y / 100 == (y - 1) / 100 + (if y % 100 == 0 then 1 else 0);
    assert y / 400 == (y - 1) / 400 + (if y % 400 == 0 then 1 else 0);
  }

  lemma {:induction false} DaysBeforeYearGrows(y1: int, y2: int)
    requires 1 <= y1 <= y2
    ensures DaysBeforeYear(y1) + 365 * (y2 - y1) <= DaysBeforeYear(y2)
    decreases y2 - y1
  {
    if y1 < y2 {
      DaysBeforeYearGrows(y1, y2 - 1);
      DaysBeforeYearStep(y2 - 1);
    }
  }

  /** The position of a valid date inside its year. */
  lemma DayOfYearBounds(d: Date)
    requires ValidDate(d)
    ensures 0 <= DaysBeforeMonth(d.year, d.month) + d.day - 1 < YearLength(d.year)
  {
    DaysBeforeMonthStep(d.year, d.month);
    assert DaysBeforeMonth(d.year, d.month + 1) <= DaysBeforeMonth(d.year, 13);
  }

  // ---------------------------------------------------------------------
  // DayNumber counts days: it starts at 0 on 1970-01-01, goes up by one from
  // each day to the next, and so orders dates chronologically.

  lemma EpochIsDayZero()
    ensures ValidDate(Date(1970, 1, 1)) && DayNumber(Date(1970, 1, 1)) == 0
  {
  }

  lemma DayNumberCountsDays(d: Date)
    requires ValidDate(d) && d != Date(9999, 12, 31)
    ensures ValidDate(NextDay(d))
    ensures DayNumber(NextDay(d)) == DayNumber(d) + 1
  {
    DaysBeforeMonthStep(d.year, d.month);
    if d.day == DaysInMonth(d.year, d.month) && d.month == 12 {
      DaysBeforeYearStep(d.year);
    }
  }

  lemma DayNumberIncreasing(a: Date, b: Date)
    requires ValidDate(a) && ValidDate(b) && Before(a, b)
    ensures DayNumber(a) < DayNumber(b)
  {
    DayOfYearBounds(a);
    DayOfYearBounds(b);
    if a.year < b.year {
      DaysBeforeYearStep(a.year);
      DaysBeforeYearGrows(a.year + 1, b.year);
    } else if a.month < b.month {
      DaysBeforeMonthStep(a.year, a.month);
      assert DaysBeforeMonth(a.year, a.month + 1) <= DaysBeforeMonth(b.year, b.month);
    }
  }

  lemma DayNumberInjective(a: Date, b: Date)
    requires ValidDate(a) && ValidDate(b) && DayNumber(a) == DayNumber(b)
    ensures a == b
  {
    if Before(a, b) {
      DayNumberIncreasing(a, b);
    } else if Before(b, a) {
      DayNumberIncreasing(b, a);
    }
  }

  lemma DayNumberRange(d: Date)
    requires ValidDate(d)
    ensures MinDay <= DayNumber(d) <= MaxDay
  {
    if d != Date(1, 1, 1) {
      DayNumberIncreasing(Date(1, 1, 1), d);
    }
    if d != Date(9999, 12, 31) {
      DayNumberIncreasing(d, Date(9999, 12, 31));
    }
  }

  lemma InstantOfInjective(a: DateTime, b: DateTime)
    requires ValidDateTime(a) && ValidDateTime(b) && InstantOf(a) == InstantOf(b)
    ensures a == b
  {
    assert DayNumber(a.date) == DayNumber(b.date);
    DayNumberInjective(a.date, b.date);
  }

  // ---------------------------------------------------------------------
  // From a day number back to a date

  /** Within one 400-year cycle: complete years Y = 400*c + 100*h + 4*f + s
      (h <= 3, s <= 3) take this many days. */
  lemma CompleteYears(c: int, h: int, f: int, s: int)
    requires 0 <= c && 0 <= h <= 3 && 0 <= f <= 24 && 0 <= s <= 3
    ensures DaysBeforeYear(400 * c + 100 * h + 4 * f + s + 1)
         == 146097 * c + 36524 * h + 1461 * f + 365 * s
  {
    var p := 400 * c + 100 * h + 4 * f + s;
    assert p / 4 == 100 * c + 25 * h + f;
    assert p / 100 == 4 * c + h;
    assert p / 400 == c;
  }

  /** The spans of whole 400-, 100-, 4- and 1-year periods that fit into n
      days, with what is left over. */
  lemma SpanBounds(n: int)
    requires 0 <= n < DaysBeforeYear(10000)
    ensures var d400 := n % 146097; var d100 := d400 % 36524; var d4 := d100 % 1461;
      && n / 146097 <= 24
      && n == 146097 * (n / 146097) + 36524 * (d400 / 36524) + 1461 * (d100 / 1461) + 365 * (d4 / 365) + d4 % 365
      && 0 <= d400 / 36524 <= 4 && 0 <= d100 / 1461 <= 24 && 0 <= d4 / 365 <= 4 && 0 <= d4 % 365 < 365
      && (d400 / 36524 == 4 ==> d400 == 146096 && n / 146097 < 24)
      && (d4 / 365 == 4 ==> d4 == 1460 && d400 / 36524 <= 3 && d100 / 1461 <= 23)
      && (n / 146097 == 24 ==> d400 < 145731)
  {
  }

  /** Splits n, the days elapsed since 0001-01-01, into a year and the
      zero-based day of that year, by whole 400-, 100-, 4- and 1-year spans
      (the decomposition Python's datetime uses for ordinals). */
  function YearAndDay(n: int): (r: (int, int))
    requires 0 <= n < DaysBeforeYear(10000)
    ensures 1 <= r.0 <= 9999 && 0 <= r.1 < YearLength(r.0)
    ensures DaysBeforeYear(r.0) + r.1 == n
  {
    var n400, d400 := n / 146097, n % 146097;
    var n100, d100 := d400 / 36524, d400 % 36524;
    var n4, d4 := d100 / 1461, d100 % 1461;
    var n1, d1 := d4 / 365, d4 % 365;
    SpanBounds(n);
    if n100 == 4 then
      // the last day of a 400-year cycle, the 366th of a year divisible by 400
      LastDayOfCycle(n400);
      (400 * n400 + 400, 365)
    else if n1 == 4 then
      // the last day of a 4-year span, the 366th of a leap year
      LastDayOfSpan(n400, n100, n4);
      (400 * n400 + 100 * n100 + 4 * n4 + 4, 365)
    else
      CompleteYears(n400, n100, n4, n1);
      assert 400 * n400 + 100 * n100 + 4 * n4 + n1 + 1 <= 9999;
      (400 * n400 + 100 * n100 + 4 * n4 + n1 + 1, d1)
  }

  lemma LastDayOfCycle(c: int)
    requires 0 <= c < 24
    ensures DaysBeforeYear(400 * c + 400) + 365 == 146097 * c + 146096
    ensures YearLength(400 * c + 400) == 366
  {
    CompleteYears(c, 3, 24, 2);
    DaysBeforeYearStep(400 * c + 399);
    assert (400 * c + 399) % 4 == 3;
  }

  lemma LastDayOfSpan(c: int, h: int, f: int)
    requires 0 <= c && 0 <= h <= 3 && 0 <= f <= 23
    ensures DaysBeforeYear(400 * c + 100 * h + 4 * f + 4) + 365
         == 146097 * c + 36524 * h + 1461 * f + 1460
    ensures YearLength(400 * c + 100 * h + 4 * f + 4) == 366
  {
    var y := 400 * c + 100 * h + 4 * f + 4;
    CompleteYears(c, h, f, 3);
    assert DaysBeforeYear(y) == 146097 * c + 36524 * h + 1461 * f + 1095;
    LeapYearOfSpan(y, 100 * c + 25 * h + f + 1, 4 * c + h, 4 * f + 4);
  }

  /** A multiple of 4 that is not a multiple of 100 is a leap year. */
  lemma LeapYearOfSpan(y: int, j: int, k: int, r: int)
    requires y == 4 * j && y == 100 * k + r && 0 < r < 100
    ensures YearLength(y) == 366
  {
  }

  /** Finds the month holding the day that lies rest days after the first
      day of month m of year y. */
  function MonthAndDay(y: int, m: int, rest: int): (r: (int, int))
    requires 1 <= m <= 12 && 0 <= rest
    requires DaysBeforeMonth(y, m) + rest < YearLength(y)
    ensures m <= r.0 <= 12 && 1 <= r.1 <= DaysInMonth(y, r.0)
    ensures DaysBeforeMonth(y, r.0) + r.1 - 1 == DaysBeforeMonth(y, m) + rest
    decreases 12 - m
  {
    DaysBeforeMonthStep(y, m);
    if rest < DaysInMonth(y, m) then (m, rest + 1)
    else MonthAndDay(y, m + 1, rest - DaysInMonth(y, m))
  }

  /** The date z days after 1970-01-01. */
  function CivilFromDays(z: int): (d: Date)
    requires MinDay <= z <= MaxDay
    ensures ValidDate(d) && DayNumber(d) == z
  {
    var yd := YearAndDay(z + EpochOffset);
    var md := MonthAndDay(yd.0, 1, yd.1);
    Date(yd.0, md.0, md.1)
  }

  /** The UTC civil date and time s seconds after 1970-01-01T00:00:00,
      with the day part floored as Python's datetime.fromtimestamp does. */
  function DateTimeOf(s: int): (t: DateTime)
    requires MinInstant <= s <= MaxInstant
    ensures ValidDateTime(t) && InstantOf(t) == s
  {
    var days, secs := s / SecondsPerDay, s % SecondsPerDay;
    DaySplit(s);
    TimeOfDaySplit(secs);
    DateTime(CivilFromDays(days), secs / 3600, secs % 3600 / 60, secs % 60)
  }

  lemma DaySplit(s: int)
    requires MinInstant <= s <= MaxInstant
    ensures MinDay <= s / SecondsPerDay <= MaxDay
    ensures s / SecondsPerDay * SecondsPerDay + s % SecondsPerDay == s
  {
  }

  lemma TimeOfDaySplit(secs: int)
    requires 0 <= secs < SecondsPerDay
    ensures 0 <= secs / 3600 < 24 && 0 <= secs % 3600 / 60 < 60 && 0 <= secs % 60 < 60
    ensures secs / 3600 * 3600 + secs % 3600 / 60 * 60 + secs % 60 == secs
  {
    var h, r := secs / 3600, secs % 3600;
    assert secs == h * 3600 + r;
    assert r == r / 60 * 60 + r % 60;
    assert r % 60 == secs % 60;
  }

  /** Every valid date is reached by CivilFromDays, at its own day number. */
  lemma CivilFromDayNumber(d: Date)
    requires ValidDate(d)
    ensures MinDay <= DayNumber(d) <= MaxDay && CivilFromDays(DayNumber(d)) == d
  {
    DayNumberRange(d);
    DayNumberInjective(CivilFromDays(DayNumber(d)), d);
  }
}

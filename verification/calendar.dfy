/**
  Local calendar time and the millisecond timeline it maps onto.

  `new Date(y, m, 1)` names local midnight on day 1 of month `m`; the model
  keeps every instant on the local wall-clock timeline (milliseconds since
  1970-01-01 00:00 local time), so the timezone offset and daylight-saving
  shifts drop out. Months are numbered 1..12 here; JavaScript's are 0..11.
*/
module Calendar {

  const MsPerDay: int := 86_400_000

  predicate IsLeapYear(y: int) {
    y % 4 == 0 && (y % 100 != 0 || y % 400 == 0)
  }

  function DaysInYear(y: int): int {
    if IsLeapYear(y) then 366 else 365
  }

  function DaysInMonth(y: int, m: int): int
    requires 1 <= m <= 12
  {
    if m == 2 then (if IsLeapYear(y) then 29 else 28)
    else if m == 4 || m == 6 || m == 9 || m == 11 then 30
    else 31
  }

  /** Days in the months of year `y` that precede month `m`. */
  function DaysBeforeMonth(y: int, m: int): int
    requires 1 <= m <= 12
  {
    var common := [0, 31, 59, 90, 120, 151, 181, 212, 243, 273, 304, 334][m - 1];
    if m > 2 && IsLeapYear(y) then common + 1 else common
  }

  /** Leap days counted by the Gregorian rule in the years 1..x (and negated below year 1). */
  function LeapCount(x: int): int {
    x / 4 - x / 100 + x / 400
  }

  /** Days from 1970-01-01 to January 1 of year `y` (negative before 1970). */
  function DaysBeforeYear(y: int): int {
    365 * (y - 1970) + LeapCount(y - 1) - LeapCount(1969)
  }

  /** A local date and time of day. */
  datatype CivilTime = CivilTime(year: int, month: int, day: int, msOfDay: int) {
    predicate Valid() {
      1 <= month <= 12 && 1 <= day <= DaysInMonth(year, month) && 0 <= msOfDay < MsPerDay
    }
  }

  /** Days from 1970-01-01 to the date of `c`. */
  function DayNumber(c: CivilTime): int
    requires c.Valid()
  {
    DaysBeforeYear(c.year) + DaysBeforeMonth(c.year, c.month) + c.day - 1
  }

  /** The instant `c` names, in milliseconds on the local timeline. */
  function Timestamp(c: CivilTime): int
    requires c.Valid()
  {
    DayNumber(c) * MsPerDay + c.msOfDay
  }

  /** `a` comes strictly before `b` in calendar order (year, month, day, time of day). */
  predicate Before(a: CivilTime, b: CivilTime) {
    a.year < b.year
    || (a.year == b.year && a.month < b.month)
    || (a.year == b.year && a.month == b.month && a.day < b.day)
    || (a.year == b.year && a.month == b.month && a.day == b.day && a.msOfDay < b.msOfDay)
  }

  /** Local midnight on day 1 of the month of `now`: `new Date(year, month, 1)`. */
  function MonthStart(now: CivilTime): int
    requires now.Valid()
  {
    Timestamp(CivilTime(now.year, now.month, 1, 0))
  }

  /** Local midnight on January 1 of the year of `now`: `new Date(year, 0, 1)`. */
  function YearStart(now: CivilTime): int
    requires now.Valid()
  {
    Timestamp(CivilTime(now.year, 1, 1, 0))
  }

  /** Moving from year `y - 1` to `y` adds one leap day exactly when `y` is a leap year. */
  lemma LeapStep(y: int)
    ensures LeapCount(y) - LeapCount(y - 1) == (if IsLeapYear(y) then 1 else 0)
  {
    assert y / 4 - (y - 1) / 4 == (if y % 4 == 0 then 1 else 0);
    assert y / 100 - (y - 1) / 100 == (if y % 100 == 0 then 1 else 0);
    assert y / 400 - (y - 1) / 400 == (if y % 400 == 0 then 1 else 0);
    assert y % 100 == 0 ==> y % 4 == 0;
    assert y % 400 == 0 ==> y % 100 == 0;
  }

  /** A year is as long as the distance between its first day and the next year's. */
  lemma YearStep(y: int)
    ensures DaysBeforeYear(y + 1) == DaysBeforeYear(y) + DaysInYear(y)
  {
    LeapStep(y);
  }

  /** All of year `a` lies before year `b` starts. */
  lemma {:induction false} YearsOrdered(a: int, b: int)
    requires a < b
    ensures DaysBeforeYear(a) + DaysInYear(a) <= DaysBeforeYear(b)
    decreases b - a
  {
    YearStep(a);
    if a + 1 < b {
      YearsOrdered(a + 1, b);
    }
  }

  /** Month `m` ends where month `m + 1` begins, and December ends the year. */
  lemma MonthStep(y: int, m: int)
    requires 1 <= m <= 12
    ensures m < 12 ==> DaysBeforeMonth(y, m) + DaysInMonth(y, m) == DaysBeforeMonth(y, m + 1)
    ensures m == 12 ==> DaysBeforeMonth(y, m) + DaysInMonth(y, m) == DaysInYear(y)
  {
  }

  /** Every day of month `a` precedes the start of a later month `b` of the same year. */
  lemma {:induction false} MonthsOrdered(y: int, a: int, b: int)
    requires 1 <= a < b <= 12
    ensures DaysBeforeMonth(y, a) + DaysInMonth(y, a) <= DaysBeforeMonth(y, b)
    decreases b - a
  {
    MonthStep(y, a);
    if a + 1 < b {
      MonthsOrdered(y, a + 1, b);
    }
  }

  /** The day number of a valid date lies inside its year. */
  lemma DayNumberInYear(c: CivilTime)
    requires c.Valid()
    ensures DaysBeforeYear(c.year) <= DayNumber(c) < DaysBeforeYear(c.year) + DaysInYear(c.year)
  {
    if c.month < 12 {
      MonthsOrdered(c.year, c.month, 12);
    }
    MonthStep(c.year, 12);
  }

  /** Calendar order and timeline order agree: a strictly earlier local time is a strictly smaller timestamp. */
  lemma TimestampMonotone(a: CivilTime, b: CivilTime)
    requires a.Valid() && b.Valid()
    requires Before(a, b)
    ensures Timestamp(a) < Timestamp(b)
  {
    if a.year < b.year {
      DayNumberInYear(a);
      DayNumberInYear(b);
      YearsOrdered(a.year, b.year);
    } else if a.month < b.month {
      MonthsOrdered(a.year, a.month, b.month);
    }
    assert DayNumber(a) <= DayNumber(b);
  }

  /** The monthly window of `now` starts no earlier than its yearly window and no later than `now`. */
  lemma WindowsNested(now: CivilTime)
    requires now.Valid()
    ensures YearStart(now) <= MonthStart(now) <= Timestamp(now)
  {
    var m := CivilTime(now.year, now.month, 1, 0);
    var y := CivilTime(now.year, 1, 1, 0);
    if Before(y, m) {
      TimestampMonotone(y, m);
    }
    if Before(m, now) {
      TimestampMonotone(m, now);
    }
  }

  /** An instant is in the monthly window exactly when its month is the month of `now` or later. */
  lemma MonthWindowExact(t: CivilTime, now: CivilTime)
    requires t.Valid() && now.Valid()
    ensures Timestamp(t) >= MonthStart(now)
      <==> (t.year > now.year || (t.year == now.year && t.month >= now.month))
  {
    var start := CivilTime(now.year, now.month, 1, 0);
    if t.year > now.year || (t.year == now.year && t.month >= now.month) {
      if Before(start, t) {
        TimestampMonotone(start, t);
      }
    } else {
      TimestampMonotone(t, start);
    }
  }

  /** An instant is in the yearly window exactly when its year is the year of `now` or later. */
  lemma YearWindowExact(t: CivilTime, now: CivilTime)
    requires t.Valid() && now.Valid()
    ensures Timestamp(t) >= YearStart(now) <==> t.year >= now.year
  {
    var start := CivilTime(now.year, 1, 1, 0);
    if t.year >= now.year {
      if Before(start, t) {
        TimestampMonotone(start, t);
      }
    } else {
      TimestampMonotone(t, start);
    }
  }
}

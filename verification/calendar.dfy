/**
  Whole-day calendar arithmetic behind JavaScript's `Date.getDay()` and
  `Date.getDate()`, on a proleptic Gregorian calendar without time zones.

  A date is an integer day number: day 0 is 1970-01-01, day 1 the day after,
  day -1 the day before. `CivilFromDays` and `DaysFromCivil` convert between
  day numbers and (year, month, day-of-month) triples and are proved to be
  mutually inverse.
 */
module Calendar {

  /** The year day 0 falls in. */
  const EpochYear: int := 1970

  /** getDay() of day 0: 1970-01-01 was a Thursday (0 = Sunday ... 6 = Saturday). */
  const EpochWeekday: int := 4

  const Sunday: int := 0
  const Saturday: int := 6

  datatype Civil = Civil(year: int, month: int, day: int)

  predicate IsLeapYear(y: int) {
    y % 4 == 0 && (y % 100 != 0 || y % 400 == 0)
  }

  function DaysInYear(y: int): int {
    if IsLeapYear(y) then 366 else 365
  }

  function DaysInMonth(y: int, m: int): int
    requires 1 <= m <= 12
  {
    if m == 2 then (if IsLeapYear(y) then 29 else 28)
    else if m == 4 || m == 6 || m == 9 || m == 11 then 30
    else 31
  }

  /** Days of year `y` before the first of month `m`; month 13 stands for the next New Year. */
  function DaysBeforeMonth(y: int, m: int): int
    requires 1 <= m <= 13
  {
    var leap := if IsLeapYear(y) then 1 else 0;
    if m == 1 then 0
    else if m == 2 then 31
    else if m == 3 then 59 + leap
    else if m == 4 then 90 + leap
    else if m == 5 then 120 + leap
    else if m == 6 then 151 + leap
    else if m == 7 then 181 + leap
    else if m == 8 then 212 + leap
    else if m == 9 then 243 + leap
    else if m == 10 then 273 + leap
    else if m == 11 then 304 + leap
    else if m == 12 then 334 + leap
    else 365 + leap
  }

  /** The month table agrees with the month lengths, and the twelve months fill the year. */
  lemma DaysBeforeMonthStep(y: int, m: int)
    requires 1 <= m <= 12
    ensures DaysBeforeMonth(y, m + 1) == DaysBeforeMonth(y, m) + DaysInMonth(y, m)
    ensures DaysBeforeMonth(y, 13) == DaysInYear(y)
  {
  }

  /** Day number of January 1st of year `y`. */
  function DaysBeforeYear(y: int): int
    decreases if y < EpochYear then EpochYear - y else y - EpochYear
  {
    if y == EpochYear then 0
    else if y > EpochYear then DaysBeforeYear(y - 1) + DaysInYear(y - 1)
    else DaysBeforeYear(y + 1) - DaysInYear(y)
  }

  lemma DaysBeforeYearStep(y: int)
    ensures DaysBeforeYear(y + 1) == DaysBeforeYear(y) + DaysInYear(y)
  {
  }

  /**
    From 1970 up to 2099 every fourth year is a leap year (2000 included,
    since it is divisible by 400), so New Year's day is a closed formula.
   */
  lemma {:induction false} DaysBeforeYearModern(y: int)
    requires EpochYear <= y <= 2099
    ensures DaysBeforeYear(y) == 365 * (y - EpochYear) + (y - 1969) / 4
    decreases y - EpochYear
  {
    if y > EpochYear {
      DaysBeforeYearModern(y - 1);
      DaysBeforeYearStep(y - 1);
      ModernLeapYear(y - 1);
      LeapCountStep(y);
    }
  }

  lemma ModernLeapYear(y: int)
    requires EpochYear <= y < 2100
    ensures DaysInYear(y) == if y % 4 == 0 then 366 else 365
  {
    assert y % 100 == 0 ==> y == 2000;
  }

  lemma LeapCountStep(y: int)
    requires EpochYear < y
    ensures (y - 1969) / 4 == (y - 1970) / 4 + (if (y - 1) % 4 == 0 then 1 else 0)
  {
  }

  /** Later years start later: New Year's days are strictly increasing. */
  lemma {:induction false} DaysBeforeYearMonotone(a: int, b: int)
    requires a < b
    ensures DaysBeforeYear(a) + DaysInYear(a) <= DaysBeforeYear(b)
    decreases b - a
  {
    DaysBeforeYearStep(a);
    if a + 1 < b {
      DaysBeforeYearMonotone(a + 1, b);
      DaysBeforeYearStep(a + 1);
    }
  }

  predicate ValidCivil(c: Civil) {
    1 <= c.month <= 12 && 1 <= c.day <= DaysInMonth(c.year, c.month)
  }

  /** The year containing day `z`, searched upwards from year `y`. */
  function YearFrom(z: int, y: int): (r: int)
    requires DaysBeforeYear(y) <= z
    ensures DaysBeforeYear(r) <= z < DaysBeforeYear(r + 1)
    decreases z - DaysBeforeYear(y)
  {
    DaysBeforeYearStep(y);
    if z < DaysBeforeYear(y + 1) then y else YearFrom(z, y + 1)
  }

  /** The year containing day `z`, searched downwards from year `y`. */
  function YearUntil(z: int, y: int): (r: int)
    requires z < DaysBeforeYear(y + 1)
    ensures DaysBeforeYear(r) <= z < DaysBeforeYear(r + 1)
    decreases DaysBeforeYear(y + 1) - z
  {
    DaysBeforeYearStep(y);
    if DaysBeforeYear(y) <= z then y else YearUntil(z, y - 1)
  }

  /** The month of year `y` containing its `doy`-th day (0-based), searched upwards from month `m`. */
  function MonthFrom(y: int, doy: int, m: int): (r: int)
    requires 1 <= m <= 12
    requires DaysBeforeMonth(y, m) <= doy < DaysInYear(y)
    ensures m <= r <= 12
    ensures DaysBeforeMonth(y, r) <= doy < DaysBeforeMonth(y, r + 1)
    decreases 12 - m
  {
    DaysBeforeMonthStep(y, m);
    if doy < DaysBeforeMonth(y, m + 1) then m else MonthFrom(y, doy, m + 1)
  }

  /** The calendar date of day number `z`. */
  function CivilFromDays(z: int): (c: Civil)
    ensures ValidCivil(c)
    ensures DaysFromCivil(c) == z
  {
    var y := if z >= 0 then YearFrom(z, EpochYear) else YearUntil(z, EpochYear - 1);
    var doy := z - DaysBeforeYear(y);
    DaysBeforeYearStep(y);
    DaysBeforeMonthStep(y, 1);
    var m := MonthFrom(y, doy, 1);
    DaysBeforeMonthStep(y, m);
    Civil(y, m, doy - DaysBeforeMonth(y, m) + 1)
  }

  /** The day number of a calendar date. */
  function DaysFromCivil(c: Civil): int
    requires ValidCivil(c)
  {
    DaysBeforeYear(c.year) + DaysBeforeMonth(c.year, c.month) + c.day - 1
  }

  /** Only one year contains a given day. */
  lemma YearUnique(z: int, a: int, b: int)
    requires DaysBeforeYear(a) <= z < DaysBeforeYear(a + 1)
    requires DaysBeforeYear(b) <= z < DaysBeforeYear(b + 1)
    ensures a == b
  {
    DaysBeforeYearStep(a);
    DaysBeforeYearStep(b);
    if a < b {
      DaysBeforeYearMonotone(a, b);
    } else if b < a {
      DaysBeforeYearMonotone(b, a);
    }
  }

  /** Only one month of a year contains a given day of that year. */
  lemma MonthUnique(y: int, doy: int, a: int, b: int)
    requires 1 <= a <= 12 && 1 <= b <= 12
    requires DaysBeforeMonth(y, a) <= doy < DaysBeforeMonth(y, a + 1)
    requires DaysBeforeMonth(y, b) <= doy < DaysBeforeMonth(y, b + 1)
    ensures a == b
  {
  }

  /** A valid date lies inside its own year. */
  lemma CivilInYear(c: Civil)
    requires ValidCivil(c)
    ensures DaysBeforeYear(c.year) <= DaysFromCivil(c) < DaysBeforeYear(c.year + 1)
  {
    DaysBeforeMonthStep(c.year, c.month);
    DaysBeforeMonthStep(c.year, 12);
    assert DaysBeforeMonth(c.year, c.month + 1) <= DaysBeforeMonth(c.year, 13);
    DaysBeforeYearStep(c.year);
  }

  /** A valid date lies inside its own month. */
  lemma CivilInMonth(c: Civil)
    requires ValidCivil(c)
    ensures DaysBeforeMonth(c.year, c.month) <= DaysFromCivil(c) - DaysBeforeYear(c.year) < DaysBeforeMonth(c.year, c.month + 1)
  {
    DaysBeforeMonthStep(c.year, c.month);
  }

  /** Distinct valid dates have distinct day numbers. */
  lemma CivilInjective(c: Civil, d: Civil)
    requires ValidCivil(c) && ValidCivil(d) && DaysFromCivil(c) == DaysFromCivil(d)
    ensures c == d
  {
    var z := DaysFromCivil(c);
    assert c.year == d.year by {
      CivilInYear(c);
      CivilInYear(d);
      YearUnique(z, c.year, d.year);
    }
    assert c.month == d.month by {
      CivilInMonth(c);
      CivilInMonth(d);
      MonthUnique(c.year, z - DaysBeforeYear(c.year), c.month, d.month);
    }
  }

  /** Day numbers and valid calendar dates correspond one to one. */
  lemma CivilRoundTrip(c: Civil)
    requires ValidCivil(c)
    ensures CivilFromDays(DaysFromCivil(c)) == c
  {
    CivilInjective(CivilFromDays(DaysFromCivil(c)), c);
  }

  /** Day of the week, numbered as `Date.getDay()` numbers it (0 = Sunday). */
  function Weekday(z: int): (w: int)
    ensures 0 <= w < 7
  {
    (z + EpochWeekday) % 7
  }

  predicate IsWeekend(z: int) {
    Weekday(z) == Sunday || Weekday(z) == Saturday
  }

  /** The weekday advances by one each day, wrapping from Saturday to Sunday. */
  lemma WeekdayNext(z: int)
    ensures Weekday(z + 1) == if Weekday(z) == Saturday then Sunday else Weekday(z) + 1
  {
  }

  /** Day 0 is Thursday, January 1st, 1970. */
  lemma EpochIsThursdayJanuaryFirst()
    ensures CivilFromDays(0) == Civil(1970, 1, 1)
    ensures Weekday(0) == 4
  {
    CivilRoundTrip(Civil(1970, 1, 1));
  }

  /** Within a month the next day is the next day of the month. */
  lemma NextInMonth(c: Civil)
    requires ValidCivil(c) && c.day < DaysInMonth(c.year, c.month)
    ensures CivilFromDays(DaysFromCivil(c) + 1) == Civil(c.year, c.month, c.day + 1)
  {
    var n := Civil(c.year, c.month, c.day + 1);
    assert DaysFromCivil(n) == DaysFromCivil(c) + 1;
    CivilRoundTrip(n);
  }

  /** The day after the last of a month other than December is the first of the next month. */
  lemma NextMonth(c: Civil)
    requires ValidCivil(c) && c.day == DaysInMonth(c.year, c.month) && c.month < 12
    ensures CivilFromDays(DaysFromCivil(c) + 1) == Civil(c.year, c.month + 1, 1)
  {
    var n := Civil(c.year, c.month + 1, 1);
    DaysBeforeMonthStep(c.year, c.month);
    assert DaysFromCivil(n) == DaysFromCivil(c) + 1;
    CivilRoundTrip(n);
  }

  /** The day after December 31st is January 1st of the next year. */
  lemma NextYear(c: Civil)
    requires ValidCivil(c) && c.day == DaysInMonth(c.year, c.month) && c.month == 12
    ensures CivilFromDays(DaysFromCivil(c) + 1) == Civil(c.year + 1, 1, 1)
  {
    var n := Civil(c.year + 1, 1, 1);
    DaysBeforeMonthStep(c.year, 12);
    DaysBeforeYearStep(c.year);
    assert DaysFromCivil(n) == DaysFromCivil(c) + 1;
    CivilRoundTrip(n);
  }

  /** `Date.getDate()` of the next day: one more, or back to 1 at the turn of a month. */
  lemma DayOfMonthNext(z: int)
    ensures CivilFromDays(z + 1).day == CivilFromDays(z).day + 1 || CivilFromDays(z + 1).day == 1
    ensures CivilFromDays(z + 1).day == 1 <==> CivilFromDays(z).day == DaysInMonth(CivilFromDays(z).year, CivilFromDays(z).month)
  {
    var c := CivilFromDays(z);
    if c.day < DaysInMonth(c.year, c.month) {
      NextInMonth(c);
    } else if c.month < 12 {
      NextMonth(c);
    } else {
      NextYear(c);
    }
  }
}

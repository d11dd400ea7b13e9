/**
 * The proleptic Gregorian calendar of Python's `datetime`: the leap-year
 * rule, month lengths, and the day number of a date (`date.toordinal()`,
 * day 1 being 1 January of year 1), under which `timedelta(days=1)` adds one.
 */
module Calendar {

  /** `(year % 4 == 0 and year % 100 != 0) or (year % 400 == 0)`; Python's `%` by a positive divisor is Dafny's. */
  predicate IsLeap(year: int)
  {
    (year % 4 == 0 && year % 100 != 0) || year % 400 == 0
  }

  /** `366 if is_leap else 365`. */
  function DaysInYear(year: int): int
  {
    if IsLeap(year) then 366 else 365
  }

  /** `a % m` is the remainder of any division of `a` by `m` with a remainder in `0..m-1`. */
  lemma ModUnique(a: int, m: int, q: int, r: int)
    requires m > 0 && a == q * m + r && 0 <= r < m
    ensures a % m == r
  {
    var q0, r0 := a / m, a % m;
    assert (q - q0) * m == r0 - r;
    if q > q0 {
      MulAtLeast(q - q0, m);
    } else if q < q0 {
      MulAtLeast(q0 - q, m);
    }
  }

  lemma {:induction false} MulAtLeast(k: int, m: int)
    requires k >= 1 && m > 0
    ensures k * m >= m
  {
    if k > 1 {
      MulAtLeast(k - 1, m);
      assert k * m == (k - 1) * m + m;
    }
  }

  /** The leap-year rule repeats every 400 years, and a century year is a leap year only every fourth century. */
  lemma LeapRule(year: int)
    ensures IsLeap(year + 400) == IsLeap(year)
    ensures year % 100 == 0 ==> (IsLeap(year) <==> year % 400 == 0)
    ensures year % 4 != 0 ==> !IsLeap(year)
  {
    ModUnique(year + 400, 4, year / 4 + 100, year % 4);
    ModUnique(year + 400, 100, year / 100 + 4, year % 100);
    ModUnique(year + 400, 400, year / 400 + 1, year % 400);
    if year % 400 == 0 {
      ModUnique(year, 4, year / 400 * 100, 0);
    }
  }

  function MonthLength(year: int, month: int): int
    requires 1 <= month <= 12
  {
    if month == 2 then (if IsLeap(year) then 29 else 28)
    else if month == 4 || month == 6 || month == 9 || month == 11 then 30
    else 31
  }

  /** The days of the months before `month` in `year`. */
  function DaysBeforeMonth(year: int, month: int): int
    requires 1 <= month <= 13
  {
    if month == 1 then 0 else DaysBeforeMonth(year, month - 1) + MonthLength(year, month - 1)
  }

  /** The twelve months make up the year. */
  lemma MonthsFillYear(year: int)
    ensures DaysBeforeMonth(year, 13) == DaysInYear(year)
  {
    var feb := MonthLength(year, 2);
    assert DaysBeforeMonth(year, 2) == 31;
    assert DaysBeforeMonth(year, 3) == 31 + feb;
    assert DaysBeforeMonth(year, 4) == 31 + feb + 31;
    assert DaysBeforeMonth(year, 5) == 31 + feb + 31 + 30;
    assert DaysBeforeMonth(year, 6) == 31 + feb + 31 + 30 + 31;
    assert DaysBeforeMonth(year, 7) == 31 + feb + 31 + 30 + 31 + 30;
    assert DaysBeforeMonth(year, 8) == 31 + feb + 31 + 30 + 31 + 30 + 31;
    assert DaysBeforeMonth(year, 9) == 31 + feb + 31 + 30 + 31 + 30 + 31 + 31;
    assert DaysBeforeMonth(year, 10) == 31 + feb + 31 + 30 + 31 + 30 + 31 + 31 + 30;
    assert DaysBeforeMonth(year, 11) == 31 + feb + 31 + 30 + 31 + 30 + 31 + 31 + 30 + 31;
    assert DaysBeforeMonth(year, 12) == 31 + feb + 31 + 30 + 31 + 30 + 31 + 31 + 30 + 31 + 30;
    assert DaysBeforeMonth(year, 13) == 31 + feb + 31 + 30 + 31 + 30 + 31 + 31 + 30 + 31 + 30 + 31;
  }

  /** Later months start later. */
  lemma {:induction false} MonthStartsIncrease(year: int, m1: int, m2: int)
    requires 1 <= m1 <= m2 <= 13
    ensures DaysBeforeMonth(year, m1) + (m2 - m1) * 28 <= DaysBeforeMonth(year, m2)
  {
    if m1 < m2 {
      MonthStartsIncrease(year, m1, m2 - 1);
    }
  }

  /** The days of the years before `year`, counted from year 1. */
  function DaysBeforeYear(year: int): int
  {
    var y := year - 1;
    365 * y + y / 4 - y / 100 + y / 400
  }

  /** One year further on is as many days further on as the year has. */
  lemma YearLength(year: int)
    ensures DaysBeforeYear(year + 1) == DaysBeforeYear(year) + DaysInYear(year)
  {
    var y := year;
    assert y / 4 - (y - 1) / 4 == if y % 4 == 0 then 1 else 0;
    assert y / 100 - (y - 1) / 100 == if y % 100 == 0 then 1 else 0;
    assert y / 400 - (y - 1) / 400 == if y % 400 == 0 then 1 else 0;
  }

  /** Later years start later, by at least 365 days a year. */
  lemma {:induction false} YearStartsIncrease(y1: int, y2: int)
    requires y1 <= y2
    ensures DaysBeforeYear(y1) + (y2 - y1) * 365 <= DaysBeforeYear(y2)
    decreases y2 - y1
  {
    if y1 < y2 {
      YearStartsIncrease(y1, y2 - 1);
      YearLength(y2 - 1);
    }
  }

  /** A date `strptime` accepts. */
  predicate ValidDate(year: int, month: int, day: int)
  {
    1 <= month <= 12 && 1 <= day <= MonthLength(year, month)
  }

  /** The day number of a date, with 1 January of year 1 as day 1. */
  function DayNumber(year: int, month: int, day: int): int
    requires 1 <= month <= 12
  {
    DaysBeforeYear(year) + DaysBeforeMonth(year, month) + day
  }

  /** The date one day later. */
  function NextDate(year: int, month: int, day: int): (next: (int, int, int))
    requires ValidDate(year, month, day)
    ensures ValidDate(next.0, next.1, next.2)
  {
    if day < MonthLength(year, month) then (year, month, day + 1)
    else if month < 12 then (year, month + 1, 1)
    else (year + 1, 1, 1)
  }

  /** `date + timedelta(days=1)` is the next date: the day number goes up by one. */
  lemma NextDateIsOneDayLater(year: int, month: int, day: int)
    requires ValidDate(year, month, day)
    ensures var n := NextDate(year, month, day); DayNumber(n.0, n.1, n.2) == DayNumber(year, month, day) + 1
  {
    if day == MonthLength(year, month) && month == 12 {
      MonthsFillYear(year);
      YearLength(year);
    }
  }

  /** A valid date's day number lies within its year. */
  lemma DayWithinYear(year: int, month: int, day: int)
    requires ValidDate(year, month, day)
    ensures DaysBeforeYear(year) < DayNumber(year, month, day) <= DaysBeforeYear(year) + DaysInYear(year)
  {
    MonthStartsIncrease(year, 1, month);
    MonthStartsIncrease(year, month + 1, 13);
    MonthsFillYear(year);
  }

  /** One date comes before another in the calendar: by year, then month, then day. */
  predicate DateBefore(y1: int, m1: int, d1: int, y2: int, m2: int, d2: int)
  {
    y1 < y2 || (y1 == y2 && (m1 < m2 || (m1 == m2 && d1 < d2)))
  }

  /** Day numbers follow the calendar order: a date before another has a smaller day number. */
  lemma DayNumberOrder(y1: int, m1: int, d1: int, y2: int, m2: int, d2: int)
    requires ValidDate(y1, m1, d1) && ValidDate(y2, m2, d2)
    requires DateBefore(y1, m1, d1, y2, m2, d2)
    ensures DayNumber(y1, m1, d1) < DayNumber(y2, m2, d2)
  {
    if y1 < y2 {
      DayWithinYear(y1, m1, d1);
      DayWithinYear(y2, m2, d2);
      YearLength(y1);
      YearStartsIncrease(y1 + 1, y2);
    } else if m1 < m2 {
      assert DaysBeforeMonth(y1, m1 + 1) == DaysBeforeMonth(y1, m1) + MonthLength(y1, m1);
      MonthStartsIncrease(y1, m1 + 1, m2);
    }
  }

  /** On valid dates, a smaller day number means exactly an earlier date. */
  lemma DayNumberOrderIff(y1: int, m1: int, d1: int, y2: int, m2: int, d2: int)
    requires ValidDate(y1, m1, d1) && ValidDate(y2, m2, d2)
    ensures DayNumber(y1, m1, d1) < DayNumber(y2, m2, d2) <==> DateBefore(y1, m1, d1, y2, m2, d2)
  {
    if DateBefore(y1, m1, d1, y2, m2, d2) {
      DayNumberOrder(y1, m1, d1, y2, m2, d2);
    } else if DateBefore(y2, m2, d2, y1, m1, d1) {
      DayNumberOrder(y2, m2, d2, y1, m1, d1);
    }
  }

  /** Two valid dates with the same day number are the same date. */
  lemma DayNumberInjective(y1: int, m1: int, d1: int, y2: int, m2: int, d2: int)
    requires ValidDate(y1, m1, d1) && ValidDate(y2, m2, d2)
    requires DayNumber(y1, m1, d1) == DayNumber(y2, m2, d2)
    ensures y1 == y2 && m1 == m2 && d1 == d2
  {
    DayNumberOrderIff(y1, m1, d1, y2, m2, d2);
    DayNumberOrderIff(y2, m2, d2, y1, m1, d1);
  }
}

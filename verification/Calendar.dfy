/** Days, years and months of the proleptic Gregorian calendar, as Date.UTC counts them. */
module Calendar {

  /** Leap years up to and including year y, counted from an arbitrary origin. */
  function LeapsThrough(y: int): int {
    y / 4 - y / 100 + y / 400
  }

  predicate IsLeap(y: int) {
    y % 4 == 0 && (y % 100 != 0 || y % 400 == 0)
  }

  /** The number of the first of January, day 0 being the first of January 1970. */
  function YearStart(y: int): int {
    365 * (y - 1970) + LeapsThrough(y - 1) - LeapsThrough(1969)
  }

  function YearLength(y: int): int {
    if IsLeap(y) then 366 else 365
  }

  lemma NextFourth(y: int)
    ensures y / 4 == (y - 1) / 4 + (if y % 4 == 0 then 1 else 0)
  {
  }

  lemma NextHundredth(y: int)
    ensures y / 100 == (y - 1) / 100 + (if y % 100 == 0 then 1 else 0)
    ensures y % 100 == 0 ==> y % 4 == 0
  {
  }

  lemma NextFourHundredth(y: int)
    ensures y / 400 == (y - 1) / 400 + (if y % 400 == 0 then 1 else 0)
    ensures y % 400 == 0 ==> y % 100 == 0
  {
  }

  lemma NextLeap(y: int)
    ensures LeapsThrough(y) == LeapsThrough(y - 1) + (if IsLeap(y) then 1 else 0)
  {
    NextFourth(y);
    NextHundredth(y);
    NextFourHundredth(y);
  }

  lemma NextYearStart(y: int)
    ensures YearStart(y + 1) == YearStart(y) + YearLength(y)
  {
    NextLeap(y);
  }

  lemma {:induction false} YearStartsGrow(a: int, b: int)
    requires a <= b
    ensures YearStart(a) + 365 * (b - a) <= YearStart(b)
    decreases b - a
  {
    if a < b {
      NextYearStart(b - 1);
      YearStartsGrow(a, b - 1);
    }
  }

  ghost predicate InYear(day: int, y: int) {
    YearStart(y) <= day < YearStart(y + 1)
  }

  function YearFrom(guess: int, day: int): (y: int)
    ensures InYear(day, y)
    decreases if day < YearStart(guess) then 1 else 0,
              if day < YearStart(guess) then YearStart(guess) - day else day - YearStart(guess)
  {
    NextYearStart(guess);
    NextYearStart(guess - 1);
    if day < YearStart(guess) then YearFrom(guess - 1, day)
    else if day >= YearStart(guess + 1) then YearFrom(guess + 1, day)
    else guess
  }

  /** The year a day lies in. */
  function YearOf(day: int): (y: int)
    ensures InYear(day, y)
  {
    YearFrom(1970, day)
  }

  lemma YearUnique(day: int, y: int)
    requires InYear(day, y)
    ensures y == YearOf(day)
  {
    if y < YearOf(day) {
      YearStartsGrow(y + 1, YearOf(day));
    } else if y > YearOf(day) {
      YearStartsGrow(YearOf(day) + 1, y);
    }
  }

  /** Sunday is 0, as Date.getUTCDay counts. */
  function Weekday(day: int): int {
    (day + 4) % 7
  }

  // ---------------------------------------------------------------------------
  // Months

  function MonthLength(y: int, m: int): int
    requires 1 <= m <= 12
  {
    if m == 2 then (if IsLeap(y) then 29 else 28)
    else if m == 4 || m == 6 || m == 9 || m == 11 then 30
    else 31
  }

  /** Days of the year before month m. */
  function DaysBefore(y: int, m: int): int
    requires 1 <= m <= 13
  {
    if m == 1 then 0 else DaysBefore(y, m - 1) + MonthLength(y, m - 1)
  }

  lemma MonthsFillYear(y: int)
    ensures DaysBefore(y, 13) == YearLength(y)
  {
    var feb := if IsLeap(y) then 29 else 28;
    assert DaysBefore(y, 2) == 31;
    assert DaysBefore(y, 3) == 31 + feb;
    assert DaysBefore(y, 4) == 31 + feb + 31;
    assert DaysBefore(y, 5) == 31 + feb + 31 + 30;
    assert DaysBefore(y, 7) == 31 + feb + 31 + 30 + 31 + 30;
    assert DaysBefore(y, 9) == 31 + feb + 31 + 30 + 31 + 30 + 31 + 31;
    assert DaysBefore(y, 11) == 31 + feb + 31 + 30 + 31 + 30 + 31 + 31 + 30 + 31;
    assert DaysBefore(y, 13) == 31 + feb + 31 + 30 + 31 + 30 + 31 + 31 + 30 + 31 + 30 + 31;
  }

  lemma {:induction false} MonthsGrow(y: int, m: int, n: int)
    requires 1 <= m <= n <= 13
    ensures DaysBefore(y, m) <= DaysBefore(y, n)
    ensures m < n ==> DaysBefore(y, m) + MonthLength(y, m) <= DaysBefore(y, n)
    decreases n - m
  {
    if m < n {
      MonthsGrow(y, m + 1, n);
    }
  }

  datatype Civil = Civil(year: int, month: int, day: int)

  ghost predicate RealDate(c: Civil) {
    1 <= c.month <= 12 && 1 <= c.day <= MonthLength(c.year, c.month)
  }

  /** Date.UTC for a month between 1 and 12, in days; the day of the month may run over. */
  function DayNumber(c: Civil): int
    requires 1 <= c.month <= 12
  {
    YearStart(c.year) + DaysBefore(c.year, c.month) + c.day - 1
  }

  function MonthFrom(y: int, m: int, offset: int): (r: int)
    requires 1 <= m <= 12 && DaysBefore(y, m) <= offset < DaysBefore(y, 13)
    ensures 1 <= r <= 12 && DaysBefore(y, r) <= offset < DaysBefore(y, r + 1)
    decreases 12 - m
  {
    if offset < DaysBefore(y, m + 1) then m else MonthFrom(y, m + 1, offset)
  }

  /** The civil date of a day number. */
  function CivilOf(day: int): (c: Civil)
    ensures RealDate(c) && DayNumber(c) == day
  {
    var y := YearOf(day);
    var offset := day - YearStart(y);
    MonthsFillYear(y);
    NextYearStart(y);
    var m := MonthFrom(y, 1, offset);
    Civil(y, m, offset - DaysBefore(y, m) + 1)
  }

  /** A real date is recovered from its day number. */
  lemma CivilUnique(c: Civil)
    requires RealDate(c)
    ensures CivilOf(DayNumber(c)) == c
  {
    var d := CivilOf(DayNumber(c));
    DateInYear(c);
    DateInYear(d);
    YearUnique(DayNumber(c), c.year);
    YearUnique(DayNumber(c), d.year);
    if c.month < d.month {
      MonthsGrow(c.year, c.month, d.month);
    } else if d.month < c.month {
      MonthsGrow(c.year, d.month, c.month);
    }
  }

  lemma DateInYear(c: Civil)
    requires RealDate(c)
    ensures InYear(DayNumber(c), c.year)
  {
    MonthsGrow(c.year, 1, c.month);
    MonthsGrow(c.year, c.month, 13);
    MonthsFillYear(c.year);
    NextYearStart(c.year);
  }

  // ---------------------------------------------------------------------------
  // Known dates

  /** The first days of the months of a common year, and some other dates, in days from the first of January 1970. */
  lemma KnownDates()
    ensures DayNumber(Civil(2001, 1, 1)) == 11323
    ensures DayNumber(Civil(2001, 2, 1)) == 11354
    ensures DayNumber(Civil(2001, 3, 1)) == 11382
    ensures DayNumber(Civil(2001, 4, 1)) == 11413
    ensures DayNumber(Civil(2001, 5, 1)) == 11443
    ensures DayNumber(Civil(2001, 6, 1)) == 11474
    ensures DayNumber(Civil(2001, 7, 1)) == 11504
    ensures DayNumber(Civil(2001, 8, 1)) == 11535
    ensures DayNumber(Civil(2001, 9, 1)) == 11566
    ensures DayNumber(Civil(2001, 10, 1)) == 11596
    ensures DayNumber(Civil(2001, 11, 1)) == 11627
    ensures DayNumber(Civil(2001, 12, 1)) == 11657
    ensures DayNumber(Civil(1970, 1, 1)) == 0
    ensures DayNumber(Civil(2000, 2, 29)) == 11016
    ensures DayNumber(Civil(2000, 3, 1)) == 11017
    ensures DayNumber(Civil(2024, 12, 31)) == 20088
    ensures DayNumber(Civil(2026, 1, 1)) == 20454
  {
    YearOf2001();
    YearOf2000();
  }

  lemma YearOf2001()
    ensures DaysBefore(2001, 2) == 31 && DaysBefore(2001, 3) == 59 && DaysBefore(2001, 4) == 90
    ensures DaysBefore(2001, 5) == 120 && DaysBefore(2001, 6) == 151 && DaysBefore(2001, 7) == 181
    ensures DaysBefore(2001, 8) == 212 && DaysBefore(2001, 9) == 243 && DaysBefore(2001, 10) == 273
    ensures DaysBefore(2001, 11) == 304 && DaysBefore(2001, 12) == 334
  {
  }

  lemma YearOf2000()
    ensures DaysBefore(2000, 3) == 60 && DaysBefore(2024, 12) == 335
  {
  }

  /** Years of 365 and 366 days: every fourth is leap, but of the centuries only every fourth. */
  lemma KnownYears()
    ensures YearStart(1900) == -25567
    ensures YearStart(1901) == -25202
    ensures YearStart(2000) == 10957
    ensures YearStart(2001) == 11323
    ensures YearStart(2004) == 12418
    ensures YearStart(2005) == 12784
    ensures YearStart(2100) == 47482
    ensures YearStart(2101) == 47847
  {
  }

  /** The first of January 1970 was a Thursday, and the days of the week repeat. */
  lemma KnownWeekdays(day: int)
    ensures Weekday(0) == 4 && Weekday(day + 7) == Weekday(day)
    ensures Weekday(day + 1) == (Weekday(day) + 1) % 7
  {
  }
}

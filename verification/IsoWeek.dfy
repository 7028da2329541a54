/** The ISO week that keys weekly backups. */
module IsoWeek {
  import opened Calendar
  import opened Ordering

  datatype Week = Week(year: int, number: int)

  /** Monday is 1 and Sunday is 7. */
  function IsoDay(day: int): (d: int)
    ensures 1 <= d <= 7
  {
    if Weekday(day) == 0 then 7 else Weekday(day)
  }

  /** The Thursday of the week of a day. */
  function Thursday(day: int): int {
    day + 4 - IsoDay(day)
  }

  /** The least integer that is at least n / 7. */
  function CeilSeventh(n: int): int {
    -(-n / 7)
  }

  function WeekOf(day: int): Week {
    var year := YearOf(Thursday(day));
    Week(year, CeilSeventh(Thursday(day) - YearStart(year) + 1))
  }

  function Digit(n: int): char
    requires 0 <= n < 10
  {
    '0' + n as char
  }

  function Decimal(n: nat): (s: string)
    ensures s != ""
    ensures forall i :: 0 <= i < |s| ==> '0' <= s[i] <= '9'
  {
    if n < 10 then [Digit(n)] else Decimal(n / 10) + [Digit(n % 10)]
  }

  function YearText(y: int): string {
    if y < 0 then "-" + Decimal(-y) else Decimal(y)
  }

  function PadTwo(n: int): string
    requires 0 <= n < 100
  {
    [Digit(n / 10), Digit(n % 10)]
  }

  lemma WeekRange(day: int)
    ensures 1 <= WeekOf(day).number <= 53
  {
    NextYearStart(WeekOf(day).year);
  }

  function KeyText(w: Week): string
    requires 0 <= w.number < 100
  {
    YearText(w.year) + "-W" + PadTwo(w.number)
  }

  /** The backup key of a day, as text. */
  function PeriodKey(day: int): string {
    WeekRange(day);
    KeyText(WeekOf(day))
  }

  /** Shifts a copy of the date to the Thursday of its week and counts from there. */
  method IsoWeekKey(day: int) returns (key: string)
    ensures key == PeriodKey(day)
  {
    WeekRange(day);
    var target := day;
    var weekday := if Weekday(target) != 0 then Weekday(target) else 7;
    target := target + 4 - weekday;
    var yearStart := YearStart(YearOf(target));
    var week := CeilSeventh(target - yearStart + 1);
    key := YearText(YearOf(target)) + "-W" + PadTwo(week);
  }

  // ---------------------------------------------------------------------------
  // Weeks

  /** Both days lie between one Monday and the Sunday after it. */
  ghost predicate SameWeek(a: int, b: int) {
    exists monday :: Weekday(monday) == 1 && monday <= a <= monday + 6 && monday <= b <= monday + 6
  }

  lemma ThursdayOfWeek(day: int)
    ensures Weekday(Thursday(day)) == 4
    ensures Weekday(Thursday(day) - 3) == 1
    ensures Thursday(day) - 3 <= day <= Thursday(day) + 3
  {
  }

  lemma SameWeekSameThursday(a: int, b: int)
    ensures SameWeek(a, b) <==> Thursday(a) == Thursday(b)
  {
    ThursdayOfWeek(a);
    ThursdayOfWeek(b);
    if monday :| Weekday(monday) == 1 && monday <= a <= monday + 6 && monday <= b <= monday + 6 {
      MondayUnique(monday, Thursday(a) - 3, a);
      MondayUnique(monday, Thursday(b) - 3, b);
    }
    if Thursday(a) == Thursday(b) {
      var monday := Thursday(a) - 3;
      assert Weekday(monday) == 1;
    }
  }

  lemma MondayUnique(m: int, n: int, day: int)
    requires Weekday(m) == 1 && Weekday(n) == 1
    requires m <= day <= m + 6 && n <= day <= n + 6
    ensures m == n
  {
  }

  lemma CeilBounds(n: int)
    ensures 7 * (CeilSeventh(n) - 1) < n <= 7 * CeilSeventh(n)
  {
  }

  /** Two Thursdays of one year with the same week number are the same day. */
  lemma SameCeil(s: int, t: int, start: int)
    requires Weekday(s) == 4 && Weekday(t) == 4
    requires CeilSeventh(s - start + 1) == CeilSeventh(t - start + 1)
    ensures s == t
  {
    CeilBounds(s - start + 1);
    CeilBounds(t - start + 1);
    assert -7 < s - t < 7;
    ThursdaysSevenApart(s, t);
  }

  lemma ThursdaysSevenApart(s: int, t: int)
    requires Weekday(s) == 4 && Weekday(t) == 4
    ensures (s - t) % 7 == 0
  {
  }

  lemma CeilGrows(m: int, n: int)
    requires m <= n
    ensures CeilSeventh(m) <= CeilSeventh(n)
  {
    CeilBounds(m);
    CeilBounds(n);
  }

  /** Two days have the same week number and year exactly when they lie in the same Monday-to-Sunday week. */
  lemma SameKeyIffSameWeek(a: int, b: int)
    ensures WeekOf(a) == WeekOf(b) <==> SameWeek(a, b)
  {
    SameWeekSameThursday(a, b);
    if WeekOf(a) == WeekOf(b) {
      ThursdayOfWeek(a);
      ThursdayOfWeek(b);
      SameCeil(Thursday(a), Thursday(b), YearStart(YearOf(Thursday(a))));
    }
  }

  ghost predicate Earlier(a: Week, b: Week) {
    a.year < b.year || (a.year == b.year && a.number < b.number)
  }

  lemma {:induction false} LaterYear(a: int, b: int)
    requires a <= b
    ensures YearOf(a) <= YearOf(b)
  {
    if YearOf(b) < YearOf(a) {
      YearStartsGrow(YearOf(b) + 1, YearOf(a));
    }
  }

  lemma ThursdaysGrow(a: int, b: int)
    requires a <= b
    ensures Thursday(a) <= Thursday(b)
  {
    ThursdayOfWeek(a);
    ThursdayOfWeek(b);
    ThursdaysSevenApart(Thursday(a), Thursday(b));
  }

  /** Weeks grow with time. */
  lemma WeeksGrow(a: int, b: int)
    requires a <= b
    ensures SameWeek(a, b) || Earlier(WeekOf(a), WeekOf(b))
  {
    SameKeyIffSameWeek(a, b);
    ThursdaysGrow(a, b);
    var s, t := Thursday(a), Thursday(b);
    LaterYear(s, t);
    if YearOf(s) == YearOf(t) {
      CeilGrows(s - YearStart(YearOf(s)) + 1, t - YearStart(YearOf(s)) + 1);
    }
  }

  /** Week 1 of a year is the week that contains the fourth of January. */
  lemma FirstWeekHasFourthOfJanuary(y: int, day: int)
    ensures WeekOf(day) == Week(y, 1) <==> SameWeek(day, YearStart(y) + 3)
  {
    var fourth := YearStart(y) + 3;
    ThursdayOfWeek(fourth);
    NextYearStart(y);
    assert InYear(Thursday(fourth), y);
    YearUnique(Thursday(fourth), y);
    assert WeekOf(fourth) == Week(y, 1);
    SameKeyIffSameWeek(day, fourth);
  }

  lemma CeilNext(n: int)
    ensures CeilSeventh(n + 7) == CeilSeventh(n) + 1
  {
    CeilBounds(n);
    CeilBounds(n + 7);
  }

  lemma CeilOfSmall(n: int)
    ensures 1 <= n <= 7 ==> CeilSeventh(n) == 1
    ensures n >= 359 ==> CeilSeventh(n) >= 52
  {
    CeilBounds(n);
  }

  lemma SevenDaysLater(day: int)
    ensures Thursday(day + 7) == Thursday(day) + 7
  {
    ThursdayOfWeek(day);
    ThursdayOfWeek(day + 7);
    ThursdaysSevenApart(Thursday(day + 7), Thursday(day));
  }

  /** Seven days later it is the next week of the year, or week 1 of the next year. */
  lemma NextWeek(day: int)
    ensures var w, next := WeekOf(day), WeekOf(day + 7);
      next == Week(w.year, w.number + 1) || (next == Week(w.year + 1, 1) && w.number >= 52)
  {
    SevenDaysLater(day);
    NextThursday(Thursday(day), YearOf(Thursday(day)));
  }

  lemma NextThursday(t: int, y: int)
    requires InYear(t, y)
    ensures
      var w, next := CeilSeventh(t - YearStart(y) + 1), YearOf(t + 7);
      || (next == y && CeilSeventh(t + 7 - YearStart(y) + 1) == w + 1)
      || (next == y + 1 && CeilSeventh(t + 7 - YearStart(y + 1) + 1) == 1 && w >= 52)
  {
    NextYearStart(y);
    NextYearStart(y + 1);
    var n := t - YearStart(y) + 1;
    if t + 7 < YearStart(y + 1) {
      YearUnique(t + 7, y);
      CeilNext(n);
    } else {
      YearUnique(t + 7, y + 1);
      CeilOfSmall(n);
      CeilOfSmall(t + 7 - YearStart(y + 1) + 1);
    }
  }

  // ---------------------------------------------------------------------------
  // Key texts

  lemma {:induction false} DecimalInjective(a: nat, b: nat)
    requires Decimal(a) == Decimal(b)
    ensures a == b
  {
    assert |Decimal(a)| == 1 <==> a < 10;
    assert |Decimal(b)| == 1 <==> b < 10;
    if a >= 10 {
      assert Decimal(a)[..|Decimal(a)| - 1] == Decimal(a / 10);
      assert Decimal(b)[..|Decimal(b)| - 1] == Decimal(b / 10);
      DecimalInjective(a / 10, b / 10);
    }
    assert Decimal(a)[|Decimal(a)| - 1] == Digit(a % 10);
    assert Decimal(b)[|Decimal(b)| - 1] == Digit(b % 10);
  }

  lemma YearTextInjective(a: int, b: int)
    requires YearText(a) == YearText(b)
    ensures a == b
  {
    assert a >= 0 ==> YearText(a)[0] != '-';
    assert b >= 0 ==> YearText(b)[0] != '-';
    assert a < 0 ==> YearText(a)[1..] == Decimal(-a);
    assert b < 0 ==> YearText(b)[1..] == Decimal(-b);
    if a < 0 {
      DecimalInjective(-a, -b);
    } else {
      DecimalInjective(a, b);
    }
  }

  lemma PadTwoInjective(a: int, b: int)
    requires 0 <= a < 100 && 0 <= b < 100 && PadTwo(a) == PadTwo(b)
    ensures a == b
  {
    assert PadTwo(a)[0] == PadTwo(b)[0] && PadTwo(a)[1] == PadTwo(b)[1];
    assert a / 10 == b / 10 && a % 10 == b % 10;
  }

  lemma SplitSuffix(a: string, b: string, s: string, t: string)
    requires a + s == b + t && |s| == |t|
    ensures a == b && s == t
  {
    assert |a| == |b|;
    assert a == (a + s)[..|a|] && b == (b + t)[..|b|];
    assert s == (a + s)[|a|..] && t == (b + t)[|b|..];
  }

  /** The text of a key names one week. */
  lemma KeyTextInjective(v: Week, w: Week)
    requires 0 <= v.number < 100 && 0 <= w.number < 100
    ensures KeyText(v) == KeyText(w) <==> v == w
  {
    if KeyText(v) == KeyText(w) {
      SplitSuffix(YearText(v.year) + "-W", YearText(w.year) + "-W", PadTwo(v.number), PadTwo(w.number));
      SplitSuffix(YearText(v.year), YearText(w.year), "-W", "-W");
      YearTextInjective(v.year, w.year);
      PadTwoInjective(v.number, w.number);
    }
  }

  /** Two days have the same key exactly when they lie in the same Monday-to-Sunday week. */
  lemma SamePeriodIffSameWeek(a: int, b: int)
    ensures PeriodKey(a) == PeriodKey(b) <==> SameWeek(a, b)
  {
    WeekRange(a);
    WeekRange(b);
    KeyTextInjective(WeekOf(a), WeekOf(b));
    SameKeyIffSameWeek(a, b);
  }

  // ---------------------------------------------------------------------------
  // Key texts in the order of time

  lemma DigitBefore(m: int, n: int, u: string, v: string)
    requires 0 <= m < n < 10
    ensures Before([Digit(m)] + u, [Digit(n)] + v)
  {
  }

  lemma DecimalSplits(n: nat, u: string)
    requires n >= 10
    ensures Decimal(n) + u == Decimal(n / 10) + ([Digit(n % 10)] + u)
  {
  }

  /** Of two numbers with equally many digits, the text of the smaller stands first, whatever follows. */
  lemma {:induction false} DecimalsGrow(a: nat, b: nat, u: string, v: string)
    requires a < b && |Decimal(a)| == |Decimal(b)|
    ensures Before(Decimal(a) + u, Decimal(b) + v)
  {
    if b < 10 {
      DigitBefore(a, b, u, v);
    } else {
      assert a >= 10;
      DecimalSplits(a, u);
      DecimalSplits(b, v);
      var s, t := [Digit(a % 10)] + u, [Digit(b % 10)] + v;
      if a / 10 < b / 10 {
        DecimalsGrow(a / 10, b / 10, s, t);
      } else {
        DigitBefore(a % 10, b % 10, u, v);
        BeforeSamePrefix(Decimal(a / 10), s, t);
      }
    }
  }

  lemma FourDigits(y: int)
    requires 1000 <= y <= 9999
    ensures |Decimal(y)| == 4
  {
    assert |Decimal(y / 10 / 10 / 10)| == 1;
    assert |Decimal(y / 10 / 10)| == 2;
    assert |Decimal(y / 10)| == 3;
  }

  lemma PadTwoGrows(m: int, n: int)
    requires 0 <= m < n < 100
    ensures Before(PadTwo(m), PadTwo(n))
  {
    if m / 10 == n / 10 {
      BeforeSamePrefix([Digit(m / 10)], [Digit(m % 10)], [Digit(n % 10)]);
      assert PadTwo(m) == [Digit(m / 10)] + [Digit(m % 10)] && PadTwo(n) == [Digit(n / 10)] + [Digit(n % 10)];
      DigitBefore(m % 10, n % 10, [], []);
    } else {
      DigitBefore(m / 10, n / 10, [Digit(m % 10)], [Digit(n % 10)]);
    }
  }

  lemma KeyTextsGrow(v: Week, w: Week)
    requires Earlier(v, w) && 0 <= v.number < 100 && 0 <= w.number < 100
    requires 1000 <= v.year && w.year <= 9999
    ensures Before(KeyText(v), KeyText(w))
  {
    if v.year < w.year {
      FourDigits(v.year);
      FourDigits(w.year);
      DecimalsGrow(v.year, w.year, "-W" + PadTwo(v.number), "-W" + PadTwo(w.number));
      assert KeyText(v) == Decimal(v.year) + ("-W" + PadTwo(v.number));
      assert KeyText(w) == Decimal(w.year) + ("-W" + PadTwo(w.number));
    } else {
      PadTwoGrows(v.number, w.number);
      BeforeSamePrefix(YearText(v.year) + "-W", PadTwo(v.number), PadTwo(w.number));
    }
  }

  /** In years of four digits the key texts of days in different weeks compare as the days do. */
  lemma KeysGrow(a: int, b: int)
    requires a <= b
    ensures 1000 <= WeekOf(a).year && WeekOf(b).year <= 9999 ==> SameWeek(a, b) || Before(PeriodKey(a), PeriodKey(b))
  {
    WeekRange(a);
    WeekRange(b);
    WeeksGrow(a, b);
    if Earlier(WeekOf(a), WeekOf(b)) && 1000 <= WeekOf(a).year && WeekOf(b).year <= 9999 {
      KeyTextsGrow(WeekOf(a), WeekOf(b));
    }
  }

  function DigitValue(c: char): int {
    c as int - '0' as int
  }

  /** The text of a week in a year of four digits: the year, a hyphen, a W and the week in two digits. */
  lemma KeyShape(w: Week)
    requires 1000 <= w.year <= 9999 && 0 <= w.number < 100
    ensures var t := KeyText(w);
      && |t| == 8 && t[4] == '-' && t[5] == 'W'
      && 10 * DigitValue(t[6]) + DigitValue(t[7]) == w.number
      && 1000 * DigitValue(t[0]) + 100 * DigitValue(t[1]) + 10 * DigitValue(t[2]) + DigitValue(t[3]) == w.year
  {
    var y := w.year;
    FourDigits(y);
    DecimalDigits(y);
    var t := KeyText(w);
    assert t == Decimal(y) + ("-W" + PadTwo(w.number));
    assert t[..4] == Decimal(y) && t[4..] == "-W" + PadTwo(w.number);
  }

  lemma DecimalDigits(y: int)
    requires 1000 <= y <= 9999
    ensures Decimal(y) == [Digit(y / 10 / 10 / 10), Digit(y / 10 / 10 % 10), Digit(y / 10 % 10), Digit(y % 10)]
  {
    assert Decimal(y / 10 / 10 / 10) == [Digit(y / 10 / 10 / 10)];
    assert Decimal(y / 10 / 10) == [Digit(y / 10 / 10 / 10), Digit(y / 10 / 10 % 10)];
    assert Decimal(y / 10) == [Digit(y / 10 / 10 / 10), Digit(y / 10 / 10 % 10), Digit(y / 10 % 10)];
  }
}

/**
 * The part of Python's proleptic Gregorian `datetime` the trading-hours gate
 * reads: the ISO weekday of a date and the time of day.
 */
module Calendar {
  import opened Const
  import opened Batching

  datatype Date = Date(year: int, month: int, day: int)

  predicate IsLeapYear(y: int)
  {
    y % 4 == 0 && (y % 100 != 0 || y % 400 == 0)
  }

  function DaysInMonth(y: int, m: int): int
    requires 1 <= m <= 12
  {
    if m == 2 then (if IsLeapYear(y) then 29 else 28)
    else if m == 4 || m == 6 || m == 9 || m == 11 then 30
    else 31
  }

  /** The range a Python `date` object can take. */
  predicate ValidDate(d: Date)
  {
    1 <= d.year <= 9999 && 1 <= d.month <= 12 && 1 <= d.day <= DaysInMonth(d.year, d.month)
  }

  const DaysBeforeMonthTable: seq<int> := [0, 31, 59, 90, 120, 151, 181, 212, 243, 273, 304, 334]

  /** `date.toordinal()`: day 1 is 0001-01-01. */
  function Ordinal(d: Date): int
    requires ValidDate(d)
  {
    var p := d.year - 1;
    p * 365 + p / 4 - p / 100 + p / 400
      + DaysBeforeMonthTable[d.month - 1] + (if d.month > 2 && IsLeapYear(d.year) then 1 else 0)
      + d.day
  }

  /** `date.isoweekday()`: Monday is 1, Sunday is 7. */
  function IsoWeekday(d: Date): (w: int)
    requires ValidDate(d)
    ensures 1 <= w <= 7
  {
    (Ordinal(d) + 6) % 7 + 1
  }

  /** Dates in calendar order: by year, then month, then day. */
  predicate Before(a: Date, b: Date)
  {
    a.year < b.year || (a.year == b.year && (a.month < b.month || (a.month == b.month && a.day < b.day)))
  }

  /** The last date a Python `date` can hold. */
  const MaxDate: Date := Date(9999, 12, 31)

  /** The following calendar day, rolling over into the next month and the next year. */
  function NextDay(d: Date): (n: Date)
    requires ValidDate(d) && d != MaxDate
    ensures ValidDate(n) && Before(d, n)
    ensures n.day == 1 <==> d.day == DaysInMonth(d.year, d.month)
  {
    if d.day < DaysInMonth(d.year, d.month) then Date(d.year, d.month, d.day + 1)
    else if d.month < 12 then Date(d.year, d.month + 1, 1)
    else Date(d.year + 1, 1, 1)
  }

  /** Counting from a multiple of `k` down by one loses one from the quotient; otherwise nothing. */
  lemma QuotientStep(y: int, k: int)
    requires k > 0
    ensures y / k - (y - 1) / k == if y % k == 0 then 1 else 0
  {
    var q, r := y / k, y % k;
    assert y == q * k + r && 0 <= r < k;
    if r == 0 {
      assert y - 1 == (q - 1) * k + (k - 1);
      DivUnique(y - 1, k, q - 1, k - 1);
    } else {
      assert y - 1 == q * k + (r - 1);
      DivUnique(y - 1, k, q, r - 1);
    }
  }

  /** The day after the last of December is the first of January, one ordinal on. */
  lemma NewYearOrdinal(y: int)
    requires 1 <= y < 9999
    ensures Ordinal(Date(y + 1, 1, 1)) == Ordinal(Date(y, 12, 31)) + 1
  {
    var p := y - 1;
    QuotientStep(y, 4);
    QuotientStep(y, 100);
    QuotientStep(y, 400);
    LeapIndicator(y);
    assert Ordinal(Date(y + 1, 1, 1)) == y * 365 + y / 4 - y / 100 + y / 400 + 1;
    assert Ordinal(Date(y, 12, 31)) == p * 365 + p / 4 - p / 100 + p / 400 + 365 + (if IsLeapYear(y) then 1 else 0);
  }

  /** The Gregorian rule as the three divisibility tests count it in the ordinal. */
  lemma LeapIndicator(y: int)
    ensures (if y % 4 == 0 then 1 else 0) - (if y % 100 == 0 then 1 else 0) + (if y % 400 == 0 then 1 else 0)
      == if IsLeapYear(y) then 1 else 0
  {
    if y % 400 == 0 {
      var a := y / 400;
      assert y == a * 400;
      DivUnique(y, 100, 4 * a, 0);
      DivUnique(y, 4, 100 * a, 0);
    } else if y % 100 == 0 {
      var a := y / 100;
      assert y == a * 100;
      DivUnique(y, 4, 25 * a, 0);
    }
  }

  /** Successive calendar days have successive ordinals, across month and year ends. */
  lemma {:induction false} NextDayOrdinal(d: Date)
    requires ValidDate(d) && d != MaxDate
    ensures Ordinal(NextDay(d)) == Ordinal(d) + 1
  {
    if d.day == DaysInMonth(d.year, d.month) && d.month == 12 {
      NewYearOrdinal(d.year);
    }
  }

  /** The next calendar day falls on the next weekday, Sunday wrapping to Monday. */
  lemma NextDayNextWeekday(d: Date)
    requires ValidDate(d) && d != MaxDate
    ensures IsoWeekday(NextDay(d)) == IsoWeekday(d) % 7 + 1
  {
    NextDayOrdinal(d);
    WeekdayStep(Ordinal(d));
  }

  lemma WeekdayStep(o: int)
    ensures (o + 1 + 6) % 7 + 1 == ((o + 6) % 7 + 1) % 7 + 1
  {
  }

  /** A Python `datetime` with its fields; `microsecond` included because `time` comparisons see it. */
  datatype DateTime = DateTime(date: Date, hour: int, minute: int, second: int, microsecond: int)

  predicate ValidDateTime(t: DateTime)
  {
    && ValidDate(t.date)
    && 0 <= t.hour < 24 && 0 <= t.minute < 60 && 0 <= t.second < 60
    && 0 <= t.microsecond < MicrosPerSecond
  }

  /** `t.time()`, as microseconds since midnight; ordering of these agrees with ordering of `time` objects. */
  function TimeOfDay(t: DateTime): (r: nat)
    requires ValidDateTime(t)
    ensures r < MicrosPerDay
  {
    ClockTime(t.hour, t.minute, t.second) + t.microsecond
  }

  /** Python compares `time` objects field by field; microseconds since midnight order them the same way. */
  lemma TimeOfDayOrderIsLexicographic(a: DateTime, b: DateTime)
    requires ValidDateTime(a) && ValidDateTime(b)
    ensures TimeOfDay(a) < TimeOfDay(b) <==>
      (a.hour, a.minute, a.second, a.microsecond) != (b.hour, b.minute, b.second, b.microsecond) &&
      (a.hour < b.hour || (a.hour == b.hour && (a.minute < b.minute || (a.minute == b.minute &&
        (a.second < b.second || (a.second == b.second && a.microsecond < b.microsecond))))))
  {
  }

  /** 2023-04-14 was a Friday and 2023-04-15 a Saturday. */
  lemma AprilWeekdays()
    ensures ValidDate(Date(2023, 4, 14)) && IsoWeekday(Date(2023, 4, 14)) == 5
    ensures ValidDate(Date(2023, 4, 15)) && IsoWeekday(Date(2023, 4, 15)) == 6
  {
  }
}

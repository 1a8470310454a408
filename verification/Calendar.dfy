/** The proleptic Gregorian calendar behind `datetime(..., tzinfo=utc).timestamp()`. */
module Calendar {

  predicate IsLeap(y: int) {
    y % 4 == 0 && (y % 100 != 0 || y % 400 == 0)
  }

  function DaysInMonth(y: int, m: int): (d: int)
    requires 1 <= m <= 12
    ensures 28 <= d <= 31
  {
    if m == 2 then (if IsLeap(y) then 29 else 28)
    else if m == 4 || m == 6 || m == 9 || m == 11 then 30
    else 31
  }

  datatype Date = Date(year: int, month: int, day: int) {
    /** The dates Python's datetime accepts. */
    predicate Valid() {
      1 <= year <= 9999 && 1 <= month <= 12 && 1 <= day <= DaysInMonth(year, month)
    }

    predicate Before(other: Date) {
      year < other.year
      || (year == other.year && (month < other.month || (month == other.month && day < other.day)))
    }
  }

  function DaysBeforeYear(y: int): int {
    365 * (y - 1) + (y - 1) / 4 - (y - 1) / 100 + (y - 1) / 400
  }

  function DaysBeforeMonth(y: int, m: int): int
    requires 1 <= m <= 13
  {
    if m == 1 then 0 else DaysBeforeMonth(y, m - 1) + DaysInMonth(y, m - 1)
  }

  function Ordinal(d: Date): int
    requires 1 <= d.month <= 12
  {
    DaysBeforeYear(d.year) + DaysBeforeMonth(d.year, d.month) + d.day
  }

  /** Seconds since 1970-01-01T00:00:00Z. */
  function UnixTime(d: Date, hour: int, minute: int, second: int): int
    requires 1 <= d.month <= 12
  {
    (Ordinal(d) - 719163) * 86400 + hour * 3600 + minute * 60 + second
  }

  // -------------------------------------------- the count is a day count

  /** The day after, by the rules of the calendar. */
  function NextDay(d: Date): Date
    requires 1 <= d.month <= 12
  {
    if d.day < DaysInMonth(d.year, d.month) then Date(d.year, d.month, d.day + 1)
    else if d.month < 12 then Date(d.year, d.month + 1, 1)
    else Date(d.year + 1, 1, 1)
  }

  lemma FloorStep(n: int, k: int)
    requires k == 4 || k == 100 || k == 400
    ensures n / k - (n - 1) / k == if n % k == 0 then 1 else 0
  {
  }

  lemma YearLength(y: int)
    ensures DaysBeforeYear(y + 1) == DaysBeforeYear(y) + if IsLeap(y) then 366 else 365
  {
    FloorStep(y, 4);
    FloorStep(y, 100);
    FloorStep(y, 400);
    Multiples(y);
  }

  lemma Multiples(y: int)
    ensures (y % 400 == 0 ==> y % 100 == 0) && (y % 100 == 0 ==> y % 4 == 0)
  {
  }

  lemma YearOfMonths(y: int)
    ensures DaysBeforeMonth(y, 13) == if IsLeap(y) then 366 else 365
  {
    assert forall m {:trigger DaysInMonth(y, m)} :: 1 <= m <= 12 ==>
      DaysBeforeMonth(y, m + 1) == DaysBeforeMonth(y, m) + DaysInMonth(y, m);
    assert DaysBeforeMonth(y, 4) == DaysInMonth(y, 1) + DaysInMonth(y, 2) + DaysInMonth(y, 3);
    assert DaysBeforeMonth(y, 7) == DaysBeforeMonth(y, 4) + DaysInMonth(y, 4) + DaysInMonth(y, 5) + DaysInMonth(y, 6);
    assert DaysBeforeMonth(y, 10) == DaysBeforeMonth(y, 7) + DaysInMonth(y, 7) + DaysInMonth(y, 8) + DaysInMonth(y, 9);
    assert DaysBeforeMonth(y, 13)
        == DaysBeforeMonth(y, 10) + DaysInMonth(y, 10) + DaysInMonth(y, 11) + DaysInMonth(y, 12);
  }

  /** Each calendar day adds one, and the epoch is day zero: together these
      determine the count for every valid date. */
  lemma NextDayAddsOne(d: Date)
    requires d.Valid()
    ensures Ordinal(NextDay(d)) == Ordinal(d) + 1
  {
    if d.day == DaysInMonth(d.year, d.month) && d.month == 12 {
      YearLength(d.year);
      YearOfMonths(d.year);
      assert DaysBeforeMonth(d.year, 13) == DaysBeforeMonth(d.year, 12) + d.day;
    }
  }

  lemma EpochIsZero()
    ensures UnixTime(Date(1970, 1, 1), 0, 0, 0) == 0
  {
  }

  /** The instant after the last second of a day is the first of the next day. */
  lemma NextDayNextSecond(d: Date)
    requires d.Valid()
    ensures UnixTime(NextDay(d), 0, 0, 0) == UnixTime(d, 23, 59, 59) + 1
  {
    NextDayAddsOne(d);
  }

  // ------------------------------------------------------------- closed form

  /** Which dates there are, month by month. */
  lemma ValidMonthByMonth(d: Date)
    ensures d.Valid() <==>
      && 1 <= d.year <= 9999 && 1 <= d.day
      && (|| (d.month in {1, 3, 5, 7, 8, 10, 12} && d.day <= 31)
          || (d.month in {4, 6, 9, 11} && d.day <= 30)
          || (d.month == 2 && d.day <= 28)
          || (d.month == 2 && d.day == 29 && d.year % 4 == 0 && (d.year % 100 == 0 ==> d.year % 400 == 0)))
  {
  }

  /** The days of the months before month m; February has 30 days here. */
  function PaddedMonths(m: int): int {
    (367 * m - 362) / 12
  }

  lemma {:induction false} MonthOffset(y: int, m: int)
    requires 1 <= m <= 13
    ensures DaysBeforeMonth(y, m) == PaddedMonths(m) - (if m <= 2 then 0 else if IsLeap(y) then 1 else 2)
  {
    if m > 1 {
      MonthOffset(y, m - 1);
      MonthLength(m - 1);
      assert DaysBeforeMonth(y, m) == DaysBeforeMonth(y, m - 1) + DaysInMonth(y, m - 1);
    }
  }

  lemma MonthLength(m: int)
    requires 1 <= m <= 12
    ensures PaddedMonths(m + 1) - PaddedMonths(m) == if m in {2, 4, 6, 9, 11} then 30 else 31
  {
    if m <= 4 {
      assert m == 1 || m == 2 || m == 3 || m == 4;
    } else if m <= 8 {
      assert m == 5 || m == 6 || m == 7 || m == 8;
    } else {
      assert m == 9 || m == 10 || m == 11 || m == 12;
    }
  }

  /** The Unix time of any valid date and time of day, in one formula. */
  lemma UnixTimeClosedForm(d: Date, hour: int, minute: int, second: int)
    requires d.Valid()
    ensures var y, m := d.year, d.month;
      var leap := y % 4 == 0 && (y % 100 != 0 || y % 400 == 0);
      var days := 365 * (y - 1) + (y - 1) / 4 - (y - 1) / 100 + (y - 1) / 400
        + (367 * m - 362) / 12 + (if m <= 2 then 0 else if leap then -1 else -2) + d.day;
      Ordinal(d) == days
      && UnixTime(d, hour, minute, second) == (days - 719163) * 86400 + hour * 3600 + minute * 60 + second
  {
    MonthOffset(d.year, d.month);
  }

  /** The last of May 2024. */
  lemma EndOfMay()
    ensures Date(2024, 5, 31).Valid() && !Date(2024, 4, 31).Valid()
    ensures UnixTime(Date(2024, 5, 31), 0, 0, 0) == 1717113600
  {
    UnixTimeClosedForm(Date(2024, 5, 31), 0, 0, 0);
  }

  // ------------------------------------------------------------ monotonicity

  lemma {:induction false} MonthsGrow(y: int, m: int, n: int)
    requires 1 <= m <= n <= 13
    ensures DaysBeforeMonth(y, m) + 28 * (n - m) <= DaysBeforeMonth(y, n)
    decreases n
  {
    if m < n { MonthsGrow(y, m, n - 1); }
  }

  lemma {:induction false} YearsGrow(y: int, z: int)
    requires y <= z
    ensures DaysBeforeYear(y) <= DaysBeforeYear(z)
    decreases z - y
  {
    if y < z {
      YearsGrow(y, z - 1);
      YearLength(z - 1);
    }
  }

  lemma DayWithinYear(d: Date)
    requires d.Valid()
    ensures DaysBeforeYear(d.year) < Ordinal(d) <= DaysBeforeYear(d.year + 1)
  {
    YearLength(d.year);
    YearOfMonths(d.year);
    MonthsGrow(d.year, 1, d.month);
    assert DaysBeforeMonth(d.year, d.month + 1) == DaysBeforeMonth(d.year, d.month) + DaysInMonth(d.year, d.month);
    MonthsGrow(d.year, d.month + 1, 13);
  }

  /** The day count orders valid dates as year, month, day do. */
  lemma OrdinalOrder(d: Date, e: Date)
    requires d.Valid() && e.Valid() && d.Before(e)
    ensures Ordinal(d) < Ordinal(e)
  {
    if d.year < e.year {
      DayWithinYear(d);
      DayWithinYear(e);
      YearsGrow(d.year + 1, e.year);
    } else if d.month < e.month {
      assert DaysBeforeMonth(d.year, d.month + 1) == DaysBeforeMonth(d.year, d.month) + DaysInMonth(d.year, d.month);
      MonthsGrow(d.year, d.month + 1, e.month);
    }
  }

  lemma EpochOrdinal()
    ensures Ordinal(Date(1970, 1, 1)) == 719163
  {
  }

  lemma SinceEpoch(d: Date)
    requires d.Valid() && d.year >= 1970
    ensures Ordinal(d) >= 719163
  {
    EpochOrdinal();
    if d != Date(1970, 1, 1) { OrdinalOrder(Date(1970, 1, 1), d); }
  }
}

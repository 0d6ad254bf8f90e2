/**
 * Civil dates of the proleptic Gregorian calendar (section 5.7 of RFC 3339
 * gives its month lengths and leap-year rule) and the day arithmetic that
 * `java.util.Calendar.add(Calendar.DATE, n)` performs on them from
 * 1582-10-15, the first Gregorian day of `java.util.GregorianCalendar`.
 * Before that day the JDK counts Julian dates, which this module does not.
 */
module CivilCalendar {

  datatype CivilDate = CivilDate(year: int, month: int, day: int)

  predicate IsLeapYear(y: int) { y % 4 == 0 && (y % 100 != 0 || y % 400 == 0) }

  function DaysInMonth(y: int, m: int): (n: int)
    requires 1 <= m <= 12
    ensures 28 <= n <= 31
    ensures n == 29 <==> m == 2 && IsLeapYear(y)
  {
    if m == 2 then (if IsLeapYear(y) then 29 else 28)
    else if m == 4 || m == 6 || m == 9 || m == 11 then 30
    else 31
  }

  predicate IsValid(d: CivilDate) { 1 <= d.month <= 12 && 1 <= d.day <= DaysInMonth(d.year, d.month) }

  /** A calendar day. Years are astronomical: year 0 is 1 BC. */
  type Date = d: CivilDate | IsValid(d) witness CivilDate(1970, 1, 1)

  /** Calendar order: the order of the instants at which the days begin. */
  predicate AtOrBefore(a: Date, b: Date)
  {
    a.year < b.year || (a.year == b.year && (a.month < b.month || (a.month == b.month && a.day <= b.day)))
  }

  function NextDay(d: Date): Date
  {
    if d.day < DaysInMonth(d.year, d.month) then CivilDate(d.year, d.month, d.day + 1)
    else if d.month < 12 then CivilDate(d.year, d.month + 1, 1)
    else CivilDate(d.year + 1, 1, 1)
  }

  function PrevDay(d: Date): Date
  {
    if d.day > 1 then CivilDate(d.year, d.month, d.day - 1)
    else if d.month > 1 then CivilDate(d.year, d.month - 1, DaysInMonth(d.year, d.month - 1))
    else CivilDate(d.year - 1, 12, 31)
  }

  /** The day `n` days after `d` (before it when `n` is negative), one day at a time. */
  function Shift(d: Date, n: int): Date
    decreases if n >= 0 then n else -n
  {
    if n == 0 then d
    else if n > 0 then Shift(NextDay(d), n - 1)
    else Shift(PrevDay(d), n + 1)
  }

  // ---------------------------------------------------------------------------
  // Day numbers: days elapsed since 0000-01-01

  function DaysInYear(y: int): int { if IsLeapYear(y) then 366 else 365 }

  function DaysBeforeYear(y: int): int
    decreases if y >= 0 then y else -y
  {
    if y == 0 then 0
    else if y > 0 then DaysBeforeYear(y - 1) + DaysInYear(y - 1)
    else DaysBeforeYear(y + 1) - DaysInYear(y)
  }

  function DaysBeforeMonth(y: int, m: int): (n: int)
    requires 1 <= m <= 13
    ensures n >= 0
  {
    if m == 1 then 0 else DaysBeforeMonth(y, m - 1) + DaysInMonth(y, m - 1)
  }

  function DayNumber(d: Date): int
  {
    DaysBeforeYear(d.year) + DaysBeforeMonth(d.year, d.month) + d.day - 1
  }

  lemma NextYearStart(y: int)
    ensures DaysBeforeYear(y + 1) == DaysBeforeYear(y) + DaysInYear(y)
  {
  }

  lemma MonthsFillYear(y: int)
    ensures DaysBeforeMonth(y, 13) == DaysInYear(y)
  {
    assert DaysBeforeMonth(y, 2) == 31;
    assert DaysBeforeMonth(y, 3) == 31 + DaysInMonth(y, 2);
    assert DaysBeforeMonth(y, 4) == DaysBeforeMonth(y, 3) + 31;
    assert DaysBeforeMonth(y, 5) == DaysBeforeMonth(y, 3) + 61;
    assert DaysBeforeMonth(y, 6) == DaysBeforeMonth(y, 3) + 92;
    assert DaysBeforeMonth(y, 7) == DaysBeforeMonth(y, 3) + 122;
    assert DaysBeforeMonth(y, 8) == DaysBeforeMonth(y, 3) + 153;
    assert DaysBeforeMonth(y, 9) == DaysBeforeMonth(y, 3) + 184;
    assert DaysBeforeMonth(y, 10) == DaysBeforeMonth(y, 3) + 214;
    assert DaysBeforeMonth(y, 11) == DaysBeforeMonth(y, 3) + 245;
    assert DaysBeforeMonth(y, 12) == DaysBeforeMonth(y, 3) + 275;
    assert DaysBeforeMonth(y, 13) == DaysBeforeMonth(y, 3) + 306;
  }

  lemma {:induction false} MonthsAscend(y: int, m: int, m': int)
    requires 1 <= m < m' <= 13
    ensures DaysBeforeMonth(y, m) + DaysInMonth(y, m) <= DaysBeforeMonth(y, m')
    decreases m'
  {
    if m' > m + 1 {
      MonthsAscend(y, m, m' - 1);
    }
  }

  lemma {:induction false} YearsAscend(y: int, y': int)
    requires y < y'
    ensures DaysBeforeYear(y) + DaysInYear(y) <= DaysBeforeYear(y')
    decreases y' - y
  {
    NextYearStart(y);
    if y' > y + 1 {
      YearsAscend(y + 1, y');
      NextYearStart(y + 1);
    }
  }

  lemma DayWithinYear(d: Date)
    ensures 0 <= DayNumber(d) - DaysBeforeYear(d.year) < DaysInYear(d.year)
  {
    MonthsAscend(d.year, d.month, 13);
    MonthsFillYear(d.year);
  }

  /** Consecutive days have consecutive day numbers. */
  lemma NextDayNumber(d: Date)
    ensures DayNumber(NextDay(d)) == DayNumber(d) + 1
  {
    if d.day == DaysInMonth(d.year, d.month) && d.month == 12 {
      NextYearStart(d.year);
      MonthsFillYear(d.year);
    }
  }

  lemma NextOfPrev(d: Date)
    ensures NextDay(PrevDay(d)) == d && PrevDay(NextDay(d)) == d
  {
  }

  lemma PrevDayNumber(d: Date)
    ensures DayNumber(PrevDay(d)) == DayNumber(d) - 1
  {
    NextDayNumber(PrevDay(d));
    NextOfPrev(d);
  }

  /** Day numbers follow calendar order exactly. */
  lemma {:induction false} DayNumberOrder(a: Date, b: Date)
    ensures AtOrBefore(a, b) <==> DayNumber(a) <= DayNumber(b)
  {
    if a != b {
      if AtOrBefore(a, b) {
        StrictlyBefore(a, b);
      } else {
        StrictlyBefore(b, a);
      }
    }
  }

  lemma StrictlyBefore(a: Date, b: Date)
    requires AtOrBefore(a, b) && a != b
    ensures DayNumber(a) < DayNumber(b)
  {
    DayWithinYear(a);
    DayWithinYear(b);
    if a.year < b.year {
      YearsAscend(a.year, b.year);
    } else if a.month < b.month {
      MonthsAscend(a.year, a.month, b.month);
    }
  }

  lemma DayNumberInjective(a: Date, b: Date)
    requires DayNumber(a) == DayNumber(b)
    ensures a == b
  {
    DayNumberOrder(a, b);
    DayNumberOrder(b, a);
  }

  /** Shifting by `n` days moves the day number by exactly `n`, in either direction. */
  lemma {:induction false} ShiftDayNumber(d: Date, n: int)
    ensures DayNumber(Shift(d, n)) == DayNumber(d) + n
    decreases if n >= 0 then n else -n
  {
    if n > 0 {
      assert Shift(d, n) == Shift(NextDay(d), n - 1);
      NextDayNumber(d);
      ShiftDayNumber(NextDay(d), n - 1);
    } else if n < 0 {
      assert Shift(d, n) == Shift(PrevDay(d), n + 1);
      PrevDayNumber(d);
      ShiftDayNumber(PrevDay(d), n + 1);
    }
  }

  /** `e` is `n` days after `d` exactly when its day number is `n` larger. */
  lemma ShiftCharacterized(d: Date, n: int, e: Date)
    ensures Shift(d, n) == e <==> DayNumber(e) == DayNumber(d) + n
  {
    ShiftDayNumber(d, n);
    if DayNumber(e) == DayNumber(d) + n {
      DayNumberInjective(Shift(d, n), e);
    }
  }

  lemma ShiftCompose(d: Date, a: int, b: int)
    ensures Shift(Shift(d, a), b) == Shift(d, a + b)
  {
    ShiftDayNumber(d, a);
    ShiftDayNumber(Shift(d, a), b);
    ShiftCharacterized(d, a + b, Shift(Shift(d, a), b));
  }

  /** Going back `n` days undoes going forward `n` days, and the other way round. */
  lemma ShiftBack(d: Date, n: int)
    ensures Shift(Shift(d, n), -n) == d
  {
    ShiftCompose(d, n, -n);
  }

  /**
   * The days from `d` to `n` days later, both included, are exactly the
   * days `Shift(d, k)` for `0 <= k <= n`.
   */
  lemma InclusiveRange(d: Date, n: nat, e: Date)
    ensures AtOrBefore(d, e) && AtOrBefore(e, Shift(d, n)) <==> exists k :: 0 <= k <= n && e == Shift(d, k)
  {
    ShiftDayNumber(d, n);
    DayNumberOrder(d, e);
    DayNumberOrder(e, Shift(d, n));
    if AtOrBefore(d, e) && AtOrBefore(e, Shift(d, n)) {
      var k := DayNumber(e) - DayNumber(d);
      ShiftCharacterized(d, k, e);
    }
    if exists k :: 0 <= k <= n && e == Shift(d, k) {
      var k :| 0 <= k <= n && e == Shift(d, k);
      ShiftDayNumber(d, k);
    }
  }

  /** Later shifts give strictly later days, so the days of a range are distinct. */
  lemma ShiftAscends(d: Date, i: int, j: int)
    requires i < j
    ensures AtOrBefore(Shift(d, i), Shift(d, j)) && Shift(d, i) != Shift(d, j)
  {
    ShiftDayNumber(d, i);
    ShiftDayNumber(d, j);
    DayNumberOrder(Shift(d, i), Shift(d, j));
  }

  /**
   * `java.util.Calendar` restricted to what the model uses: the day it is
   * set to, and `add(Calendar.DATE, n)`.
   */
  class Calendar {
    var time: Date

    constructor (time: Date)
      ensures this.time == time
    {
      this.time := time;
    }

    /** `add(Calendar.DATE, days)`; a negative count moves backwards. */
    method AddDate(days: int)
      modifies this
      ensures time == Shift(old(time), days)
    {
      time := Shift(time, days);
    }
  }
}

/**
 * The date helpers of the app: reading and writing the `yyyy-MM-dd` layout
 * (the `full-date` production of section 5.6 of RFC 3339) and moving a date
 * by whole days.
 */
module DateUtils {
  import opened Wrappers
  import opened Decimal
  import opened CivilCalendar

  /** `dddd-dd-dd`: four year digits, two month digits, two day digits. */
  predicate IsFullDateShape(s: string)
  {
    && |s| == 10
    && AllDigits(s[..4]) && s[4] == '-'
    && AllDigits(s[5..7]) && s[7] == '-'
    && AllDigits(s[8..])
  }

  /**
   * The `yyyy` field: the year of the era, at least four digits. Years up to
   * 0 are BC years and print as `1 - year`, with no era marker.
   */
  function YearText(year: int): string
  {
    var ofEra: nat := if year >= 1 then year else 1 - year;
    FixedDigits(ofEra, if NumDigits(ofEra) < 4 then 4 else NumDigits(ofEra))
  }

  /** `Date.toYearMonthsDays()`: the date written as `yyyy-MM-dd`. */
  function ToYearMonthsDays(date: Date): string
  {
    YearText(date.year) + "-" + FixedDigits(date.month, 2) + "-" + FixedDigits(date.day, 2)
  }

  /**
   * `getDateFromString(formattedDate)`: the date a `yyyy-MM-dd` string
   * denotes; a string of another shape, a month outside 1..12 or a day
   * outside the month throws.
   */
  function GetDateFromString(formattedDate: string): (r: Result<Date>)
    ensures r.Success? ==> IsFullDateShape(formattedDate) && 0 <= r.value.year <= 9999
    ensures r.Failure? ==> r.error == DateParse(formattedDate)
  {
    if !IsFullDateShape(formattedDate) then Failure(DateParse(formattedDate))
    else
      var year, month, day := Value(formattedDate[..4]), Value(formattedDate[5..7]), Value(formattedDate[8..]);
      assert Pow10(4) == 10000;
      if 1 <= month <= 12 && 1 <= day <= DaysInMonth(year, month) then Success(CivilDate(year, month, day))
      else Failure(DateParse(formattedDate))
  }

  /** `addDays(date, days)`: set a calendar to `date`, add `days` days, read it back. */
  method AddDays(date: Date, days: int) returns (r: Date)
    ensures DayNumber(r) == DayNumber(date) + days
    ensures r == Shift(date, days)
  {
    var calendar := new Calendar(date);
    calendar.AddDate(days);
    r := calendar.time;
    ShiftDayNumber(date, days);
  }

  /** `getDate6DaysLater(date)`: the last day of the seven-day week starting at `date`. */
  method GetDate6DaysLater(date: Date) returns (r: Date)
    ensures r == Shift(date, 6)
    ensures AtOrBefore(date, r) && DayNumber(r) == DayNumber(date) + 6
  {
    r := AddDays(date, 6);
    DayNumberOrder(date, r);
  }

  // ---------------------------------------------------------------------------
  // Properties of the layout

  lemma FourDigitYear(year: int)
    requires -9998 <= year <= 9999
    ensures YearText(year) == FixedDigits(if year >= 1 then year else 1 - year, 4)
  {
    var ofEra: nat := if year >= 1 then year else 1 - year;
    assert Pow10(4) == 10000;
    NumDigitsAtMost(ofEra, 4);
  }

  /** Formatting writes the single `yyyy-MM-dd` layout for every four-digit year. */
  lemma FormatHasLayout(date: Date)
    requires -9998 <= date.year <= 9999
    ensures IsFullDateShape(ToYearMonthsDays(date))
  {
    FourDigitYear(date.year);
    var s := ToYearMonthsDays(date);
    assert s[..4] == YearText(date.year);
    assert s[5..7] == FixedDigits(date.month, 2);
    assert s[8..] == FixedDigits(date.day, 2);
  }

  /** The `yyyy` field holds at least four digits and reads as the year of the era. */
  lemma YearTextValue(year: int)
    ensures |YearText(year)| >= 4 && AllDigits(YearText(year))
    ensures Value(YearText(year)) == if year >= 1 then year else 1 - year
  {
    var ofEra: nat := if year >= 1 then year else 1 - year;
    var width := if NumDigits(ofEra) < 4 then 4 else NumDigits(ofEra);
    PowMonotone(NumDigits(ofEra), width);
    ValueOfFixedDigits(ofEra, width);
  }

  /**
   * Any date formats as its era year, a dash, its two-digit month, a dash
   * and its two-digit day: each field reads back as the date's own value.
   */
  lemma FormatFields(date: Date)
    ensures var s := ToYearMonthsDays(date);
      && |s| >= 10 && s[|s| - 6] == '-' && s[|s| - 3] == '-'
      && AllDigits(s[..|s| - 6]) && Value(s[..|s| - 6]) == (if date.year >= 1 then date.year else 1 - date.year)
      && AllDigits(s[|s| - 5..|s| - 3]) && Value(s[|s| - 5..|s| - 3]) == date.month
      && AllDigits(s[|s| - 2..]) && Value(s[|s| - 2..]) == date.day
  {
    var year, month, day := YearText(date.year), FixedDigits(date.month, 2), FixedDigits(date.day, 2);
    var s := ToYearMonthsDays(date);
    assert s == year + "-" + month + "-" + day;
    FieldsOfLayout(year, month, day);
    assert s[..|s| - 6] == year && s[|s| - 5..|s| - 3] == month && s[|s| - 2..] == day;
    YearTextValue(date.year);
    assert Pow10(2) == 100;
    ValueOfFixedDigits(date.month, 2);
    ValueOfFixedDigits(date.day, 2);
  }

  /** Where the three fields sit in `year-month-day` when month and day have two characters. */
  lemma FieldsOfLayout(year: string, month: string, day: string)
    requires |month| == 2 && |day| == 2
    ensures var s := year + "-" + month + "-" + day;
      && |s| == |year| + 6 && s[|s| - 6] == '-' && s[|s| - 3] == '-'
      && s[..|s| - 6] == year && s[|s| - 5..|s| - 3] == month && s[|s| - 2..] == day
  {
  }

  /** Formatting a date of years 1..9999 and parsing the text gives the date back. */
  lemma ParseOfFormat(date: Date)
    requires 1 <= date.year <= 9999
    ensures GetDateFromString(ToYearMonthsDays(date)) == Success(date)
  {
    var s := ToYearMonthsDays(date);
    FormatHasLayout(date);
    FourDigitYear(date.year);
    assert Pow10(2) == 100 && Pow10(4) == 10000;
    assert s[..4] == FixedDigits(date.year, 4);
    assert s[5..7] == FixedDigits(date.month, 2);
    assert s[8..] == FixedDigits(date.day, 2);
    ValueOfFixedDigits(date.year, 4);
    ValueOfFixedDigits(date.month, 2);
    ValueOfFixedDigits(date.day, 2);
  }

  /** Parsing a `yyyy-MM-dd` string of a year from 0001 on and formatting the date gives the string back. */
  lemma FormatOfParse(s: string, date: Date)
    requires GetDateFromString(s) == Success(date)
    requires date.year >= 1
    ensures ToYearMonthsDays(date) == s
  {
    FixedDigitsOfValue(s[..4]);
    FixedDigitsOfValue(s[5..7]);
    FixedDigitsOfValue(s[8..]);
    FourDigitYear(date.year);
    assert s == s[..4] + "-" + s[5..7] + "-" + s[8..];
  }

  /** Year 0000 parses as 1 BC, which the era-based `yyyy` field writes as 0001. */
  lemma YearZeroPrintsAsOne()
    ensures GetDateFromString("0000-01-01") == Success(CivilDate(0, 1, 1))
    ensures ToYearMonthsDays(CivilDate(0, 1, 1)) == "0001-01-01"
  {
    YearZeroParses();
    YearZeroPrints();
  }

  lemma YearZeroPrints()
    ensures ToYearMonthsDays(CivilDate(0, 1, 1)) == "0001-01-01"
  {
    FourDigitYear(0);
    assert FixedDigits(1, 4) == FixedDigits(0, 2) + [DigitChar(0), DigitChar(1)];
    TwoDigits(0);
    TwoDigits(1);
    DigitChars();
  }

  lemma YearZeroParses()
    ensures GetDateFromString("0000-01-01") == Success(CivilDate(0, 1, 1))
  {
    var s := "0000-01-01";
    assert s[..4] == "0000" && s[5..7] == "01" && s[8..] == "01";
    assert "0000"[..3] == "000" && "000"[..2] == "00" && "00"[..1] == "0" && "0"[..0] == "";
    assert Value("0000") == 0;
    assert Value("01") == 1 by { assert "01"[..1] == "0"; }
  }

  lemma DigitChars()
    ensures DigitChar(0) == '0' && DigitChar(1) == '1' && DigitChar(2) == '2'
    ensures DigitChar(5) == '5' && DigitChar(6) == '6' && DigitChar(7) == '7'
  {
  }

  lemma TwoDigits(n: nat)
    requires n < 100
    ensures FixedDigits(n, 2) == [DigitChar(n / 10), DigitChar(n % 10)]
  {
    assert FixedDigits(n / 10, 1) == FixedDigits(n / 100, 0) + [DigitChar((n / 10) % 10)];
  }

  // ---------------------------------------------------------------------------
  // Properties of day arithmetic

  /** Six days after 2021-05-27 is 2021-06-02: the shift crosses the end of May. */
  lemma SixDaysAfterMay27()
    ensures GetDateFromString("2021-05-27") == Success(CivilDate(2021, 5, 27))
    ensures Shift(CivilDate(2021, 5, 27), 6) == CivilDate(2021, 6, 2)
    ensures ToYearMonthsDays(CivilDate(2021, 6, 2)) == "2021-06-02"
  {
    Year2021();
    TwoDigits(5);
    TwoDigits(27);
    TwoDigits(6);
    TwoDigits(2);
    DigitChars();
    assert ToYearMonthsDays(CivilDate(2021, 5, 27)) == "2021-05-27";
    ParseOfFormat(CivilDate(2021, 5, 27));
    ShiftAcrossMay();
  }

  lemma Year2021()
    ensures YearText(2021) == "2021"
  {
    FourDigitYear(2021);
    assert FixedDigits(2021, 4) == FixedDigits(202, 3) + [DigitChar(1)];
    assert FixedDigits(202, 3) == FixedDigits(20, 2) + [DigitChar(2)];
    TwoDigits(20);
    DigitChars();
  }

  lemma ShiftAcrossMay()
    ensures Shift(CivilDate(2021, 5, 27), 6) == CivilDate(2021, 6, 2)
  {
    var d: Date := CivilDate(2021, 5, 27);
    assert Shift(CivilDate(2021, 6, 1), 1) == CivilDate(2021, 6, 2);
    assert Shift(CivilDate(2021, 5, 31), 2) == CivilDate(2021, 6, 2);
    assert Shift(CivilDate(2021, 5, 30), 3) == CivilDate(2021, 6, 2);
    assert Shift(CivilDate(2021, 5, 29), 4) == CivilDate(2021, 6, 2);
    assert Shift(CivilDate(2021, 5, 28), 5) == CivilDate(2021, 6, 2);
  }

  /**
   * The week window from `date` to `getDate6DaysLater(date)`, both included,
   * holds exactly seven distinct calendar days.
   */
  lemma WeekWindow(date: Date, e: Date)
    ensures AtOrBefore(date, e) && AtOrBefore(e, Shift(date, 6)) <==> exists k :: 0 <= k <= 6 && e == Shift(date, k)
    ensures forall i, j :: 0 <= i < j <= 6 ==> Shift(date, i) != Shift(date, j)
  {
    InclusiveRange(date, 6, e);
    forall i, j | 0 <= i < j <= 6
      ensures Shift(date, i) != Shift(date, j)
    {
      ShiftAscends(date, i, j);
    }
  }

  /** A negative count moves back by that many days, and moving forward again undoes it. */
  lemma BackwardsShift(date: Date, n: int)
    requires n >= 0
    ensures DayNumber(Shift(date, -n)) == DayNumber(date) - n
    ensures AtOrBefore(Shift(date, -n), date)
    ensures Shift(Shift(date, -n), n) == date
  {
    ShiftDayNumber(date, -n);
    DayNumberOrder(Shift(date, -n), date);
    ShiftBack(date, -n);
  }
}

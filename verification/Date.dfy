/**
  Gregorian calendar arithmetic: src/base/Date.h and src/base/Date.cc.

  The source computes on `int`, whose division truncates towards zero. The model keeps that
  division, so it says what the code does on both sides of the calendar's first day,
  1 March -4800.
 */
module Date {
  import opened Common

  datatype YearMonthDay = YearMonthDay(year: int, month: int, day: int)

  const JULIAN_DAY_OF_1970_01_01 := GetJulianDayNumber(1970, 1, 1)
  const FIRST_JULIAN_DAY := -32044
  const DAYS_PER_WEEK := 7

  function GetJulianDayNumber(year: int, month: int, day: int): int
  {
    var a := TruncDiv(14 - month, 12);
    var y := year + 4800 - a;
    var m := month + 12 * a - 3;
    day + TruncDiv(153 * m + 2, 5) + y * 365 + TruncDiv(y, 4) - TruncDiv(y, 100) + TruncDiv(y, 400) - 32045
  }

  function GetYearMonthDay(julianDayNumber: int): YearMonthDay
  {
    var a := julianDayNumber + 32044;
    var b := TruncDiv(4 * a + 3, 146097);
    var c := a - TruncDiv(b * 146097, 4);
    var d := TruncDiv(4 * c + 3, 1461);
    var e := c - TruncDiv(1461 * d, 4);
    var m := TruncDiv(5 * e + 2, 153);
    YearMonthDay(b * 100 + d - 4800 + TruncDiv(m, 10),
                 m + 3 - 12 * TruncDiv(m, 10),
                 e - TruncDiv(153 * m + 2, 5) + 1)
  }

  function WeekDay(julianDayNumber: int): int
  {
    TruncMod(julianDayNumber + 1, DAYS_PER_WEEK)
  }

  // ---------------------------------------------------------------------------------------
  // The Gregorian calendar, defined without reference to day numbers.

  predicate IsLeap(year: int)
  {
    year % 4 == 0 && (year % 100 != 0 || year % 400 == 0)
  }

  function DaysInMonth(year: int, month: int): int
  {
    if month == 2 then if IsLeap(year) then 29 else 28
    else if month in {4, 6, 9, 11} then 30
    else 31
  }

  predicate ValidDate(d: YearMonthDay)
  {
    1 <= d.month <= 12 && 1 <= d.day <= DaysInMonth(d.year, d.month)
  }

  function NextDay(d: YearMonthDay): YearMonthDay
  {
    if d.day < DaysInMonth(d.year, d.month) then d.(day := d.day + 1)
    else if d.month < 12 then YearMonthDay(d.year, d.month + 1, 1)
    else YearMonthDay(d.year + 1, 1, 1)
  }

  predicate DateLess(x: YearMonthDay, y: YearMonthDay)
  {
    x.year < y.year
    || (x.year == y.year && (x.month < y.month || (x.month == y.month && x.day < y.day)))
  }

  /** On or after 1 March -4800. */
  predicate InCalendar(d: YearMonthDay)
  {
    !DateLess(d, YearMonthDay(-4800, 3, 1))
  }

  /** Days of the year before the date: the lengths of the preceding months, plus day - 1. */
  function DaysBeforeMonth(year: int, month: int): int
  {
    if month <= 1 then 0 else DaysBeforeMonth(year, month - 1) + DaysInMonth(year, month - 1)
  }

  // ---------------------------------------------------------------------------------------
  // Years and months counted from 1 March, as in the code.

  /** Days in the `y` years that start on 1 March -4800. */
  function DaysInYears(y: int): int
  {
    y * 365 + y / 4 - y / 100 + y / 400
  }

  /** Days in the first `m` months counted from March. */
  function DaysInMonths(m: int): int
  {
    (153 * m + 2) / 5
  }

  function MarchYear(d: YearMonthDay): int { d.year + 4800 - (if d.month <= 2 then 1 else 0) }

  function MarchMonth(d: YearMonthDay): int { if d.month <= 2 then d.month + 9 else d.month - 3 }

  function DayOfMarchYear(d: YearMonthDay): int { DaysInMonths(MarchMonth(d)) + d.day - 1 }

  lemma MonthLengths(d: YearMonthDay)
    requires ValidDate(d)
    ensures 0 <= MarchMonth(d) <= 11
    ensures MarchMonth(d) < 11 ==>
              DaysInMonths(MarchMonth(d) + 1) == DaysInMonths(MarchMonth(d)) + DaysInMonth(d.year, d.month)
    ensures 0 <= DayOfMarchYear(d) <= 364 + (if IsLeap(MarchYear(d) + 1) then 1 else 0)
  {
    assert DaysInMonths(0) == 0 && DaysInMonths(1) == 31 && DaysInMonths(2) == 61 && DaysInMonths(3) == 92;
    assert DaysInMonths(4) == 122 && DaysInMonths(5) == 153 && DaysInMonths(6) == 184 && DaysInMonths(7) == 214;
    assert DaysInMonths(8) == 245 && DaysInMonths(9) == 275 && DaysInMonths(10) == 306 && DaysInMonths(11) == 337;
    LeapShift(MarchYear(d) + 1);
  }

  lemma LeapShift(y: int)
    ensures IsLeap(y) == IsLeap(y - 4800)
  {
    assert y - 4800 == y + 4 * -1200 == y + 100 * -48 == y + 400 * -12;
  }

  lemma QuotientSteps(y: int)
    ensures (y + 1) / 4 == y / 4 + if (y + 1) % 4 == 0 then 1 else 0
    ensures (y + 1) / 100 == y / 100 + if (y + 1) % 100 == 0 then 1 else 0
    ensures (y + 1) / 400 == y / 400 + if (y + 1) % 400 == 0 then 1 else 0
  {
  }

  lemma Divisors(y: int)
    ensures (y % 100 == 0 ==> y % 4 == 0) && (y % 400 == 0 ==> y % 100 == 0)
  {
  }

  lemma YearLength(y: int)
    ensures DaysInYears(y + 1) == DaysInYears(y) + 365 + (if IsLeap(y + 1) then 1 else 0)
  {
    QuotientSteps(y);
    Divisors(y + 1);
  }

  /** The day number is the count of days since 1 March -4800, shifted. */
  lemma JulianDayIsDayCount(d: YearMonthDay)
    requires ValidDate(d) && InCalendar(d)
    ensures GetJulianDayNumber(d.year, d.month, d.day)
         == DaysInYears(MarchYear(d)) + DayOfMarchYear(d) + FIRST_JULIAN_DAY
    ensures MarchYear(d) >= 0
  {
  }

  /** A March-based year splits into centuries and years of the century. */
  lemma Centuries(y: int)
    requires y >= 0
    ensures DaysInYears(y) == y / 100 * 146097 / 4 + 1461 * (y % 100) / 4
  {
    var b, d := y / 100, y % 100;
    assert y / 4 == 25 * b + d / 4;
    assert y / 400 == b / 4;
    assert b * 146097 / 4 == 36524 * b + b / 4;
    assert 1461 * d / 4 == 365 * d + d / 4;
  }

  /** The century and the year of the century put into a day count are the ones taken out. */
  lemma ExtractYear(y: int, e: int, a: int)
    requires y >= 0
    requires 0 <= e <= 364 + (if IsLeap(y + 1) then 1 else 0)
    requires a == DaysInYears(y) + e
    ensures (4 * a + 3) / 146097 == y / 100
    ensures a - y / 100 * 146097 / 4 >= 0
    ensures (4 * (a - y / 100 * 146097 / 4) + 3) / 1461 == y % 100
    ensures a - y / 100 * 146097 / 4 - 1461 * (y % 100) / 4 == e
  {
    Centuries(y);
    var b, d := y / 100, y % 100;
    var c := 1461 * d / 4 + e;
    assert b * 146097 / 4 == 36524 * b + b / 4;
    assert 1461 * d / 4 == 365 * d + d / 4;
    CenturyBound(y, e);
    assert 4 * (b * 146097 / 4) == 146097 * b - b % 4;
    assert 4 * (1461 * d / 4) == 1461 * d - d % 4;
    assert 4 * a + 3 == 146097 * b + (4 * c + 3 - b % 4);
    assert 4 * c + 3 == 1461 * d + (4 * e + 3 - d % 4);
  }

  lemma CenturyBound(y: int, e: int)
    requires y >= 0
    requires 0 <= e <= 364 + (if IsLeap(y + 1) then 1 else 0)
    ensures e == 365 ==> y % 100 % 4 == 3
    ensures 365 * (y % 100) + y % 100 / 4 + e <= 36523 + (if y / 100 % 4 == 3 then 1 else 0)
  {
    LeapOfCentury(y / 100, y % 100);
    assert y == 100 * (y / 100) + y % 100;
    assert y % 100 / 4 <= 24;
  }

  lemma CenturyRemainders(b: int, r: int)
    requires b >= 0 && 0 <= r < 100
    ensures (100 * b + r) % 100 == r && (100 * b + r) % 4 == r % 4
  {
    assert 100 * b + r == 4 * (25 * b) + r;
  }

  lemma CenturyYearLeap(b: int)
    requires b >= 0
    ensures IsLeap(100 * b) <==> b % 4 == 0
  {
    CenturyRemainders(b, 0);
    assert 100 * b == 400 * (b / 4) + 100 * (b % 4);
  }

  /** When the year after the `d`-th of century `b` is a leap year. */
  lemma LeapOfCentury(b: int, d: int)
    requires b >= 0 && 0 <= d <= 99
    ensures IsLeap(100 * b + d + 1) <==> d % 4 == 3 && (d == 99 ==> b % 4 == 3)
  {
    hide IsLeap;
    if d == 99 {
      assert 100 * b + d + 1 == 100 * (b + 1);
      CenturyYearLeap(b + 1);
    } else {
      CenturyRemainders(b, d + 1);
      OrdinaryYearLeap(100 * b + d + 1);
    }
  }

  lemma OrdinaryYearLeap(y: int)
    requires y % 100 != 0
    ensures IsLeap(y) <==> y % 4 == 0
  {
  }

  // ---------------------------------------------------------------------------------------
  // Main results.

  /** Reading a date back from its day number. */
  lemma DateRoundTrip(d: YearMonthDay)
    requires ValidDate(d)
    ensures GetYearMonthDay(GetJulianDayNumber(d.year, d.month, d.day)) == d <==> InCalendar(d)
  {
    if InCalendar(d) {
      DateRoundTripForward(d);
    } else {
      BeforeCalendar(d);
      NotReadBack(GetJulianDayNumber(d.year, d.month, d.day), d);
    }
  }

  lemma DateRoundTripForward(d: YearMonthDay)
    requires ValidDate(d) && InCalendar(d)
    ensures GetYearMonthDay(GetJulianDayNumber(d.year, d.month, d.day)) == d
  {
    JulianDayIsDayCount(d);
    MonthLengths(d);
    DayCountToDate(MarchYear(d), DayOfMarchYear(d), GetJulianDayNumber(d.year, d.month, d.day));
    FromMarchOfDate(d);
  }

  /** The date `e` days into the March-based year `y`. */
  function FromMarch(y: int, e: int): YearMonthDay
  {
    var m := (5 * e + 2) / 153;
    YearMonthDay(y - 4800 + m / 10, m + 3 - 12 * (m / 10), e - DaysInMonths(m) + 1)
  }

  lemma FromMarchOfDate(d: YearMonthDay)
    requires ValidDate(d)
    ensures FromMarch(MarchYear(d), DayOfMarchYear(d)) == d
  {
    MonthLengths(d);
    DaysOfMonth(d);
    ExtractMonth(MarchMonth(d), DayOfMarchYear(d));
    assert MarchMonth(d) / 10 == if d.month <= 2 then 1 else 0;
  }

  lemma DaysOfMonth(d: YearMonthDay)
    requires ValidDate(d)
    ensures MarchMonth(d) < 11 ==> DayOfMarchYear(d) < DaysInMonths(MarchMonth(d) + 1)
  {
    MonthLengths(d);
  }

  lemma DayCountToDate(y: int, e: int, j: int)
    requires y >= 0
    requires 0 <= e <= 364 + (if IsLeap(y + 1) then 1 else 0)
    requires j + 32044 == DaysInYears(y) + e
    ensures GetYearMonthDay(j) == FromMarch(y, e)
  {
    ExtractYear(y, e, j + 32044);
    YearMonthDaySteps(j, y / 100, y % 100, e);
  }

  lemma YearMonthDaySteps(j: int, b: int, d: int, e: int)
    requires j >= FIRST_JULIAN_DAY && b >= 0 && d >= 0 && e >= 0
    requires (4 * (j + 32044) + 3) / 146097 == b && j + 32044 - b * 146097 / 4 >= 0
    requires (4 * (j + 32044 - b * 146097 / 4) + 3) / 1461 == d
    requires j + 32044 - b * 146097 / 4 - 1461 * d / 4 == e
    ensures GetYearMonthDay(j) == FromMarch(b * 100 + d, e)
  {
  }

  lemma ExtractMonth(m: int, e: int)
    requires 0 <= m <= 11
    requires DaysInMonths(m) <= e
    requires if m < 11 then e < DaysInMonths(m + 1) else e <= 365
    ensures (5 * e + 2) / 153 == m
  {
    assert 5 * DaysInMonths(m) + 4 >= 153 * m + 2;
  }

  lemma NotReadBack(j: int, d: YearMonthDay)
    requires ValidDate(d) && !InCalendar(d) && j <= FIRST_JULIAN_DAY
    ensures GetYearMonthDay(j) != d
  {
    if j == FIRST_JULIAN_DAY {
      YearMonthDaySteps(j, 0, 0, 0);
    } else {
      InvalidBeforeFirstDay(j);
    }
  }

  lemma BeforeCalendar(d: YearMonthDay)
    requires ValidDate(d) && !InCalendar(d)
    ensures GetJulianDayNumber(d.year, d.month, d.day) <= FIRST_JULIAN_DAY
  {
    MonthLengths(d);
  }

  /** Below the calendar's range the code produces a day of month that is zero or negative. */
  lemma InvalidBeforeFirstDay(j: int)
    requires j < FIRST_JULIAN_DAY
    ensures GetYearMonthDay(j).day <= 0
  {
    var a := j + 32044;
    var b := TruncDiv(4 * a + 3, 146097);
    var c := a - TruncDiv(b * 146097, 4);
    assert c < 0;
    var d := TruncDiv(4 * c + 3, 1461);
    var e := c - TruncDiv(1461 * d, 4);
    assert e < 0;
    var m := TruncDiv(5 * e + 2, 153);
    assert e - TruncDiv(153 * m + 2, 5) + 1 <= 0;
  }

  /** Exactly the day numbers from -32044 on name a date, and they are read back. */
  lemma JulianDayRoundTrip(j: int)
    ensures ValidDate(GetYearMonthDay(j)) <==> j >= FIRST_JULIAN_DAY
    ensures j >= FIRST_JULIAN_DAY ==>
              var d := GetYearMonthDay(j);
              InCalendar(d) && GetJulianDayNumber(d.year, d.month, d.day) == j
  {
    if j >= FIRST_JULIAN_DAY {
      JulianDayRoundTripForward(j);
    } else {
      InvalidBeforeFirstDay(j);
    }
  }

  lemma JulianDayRoundTripForward(j: int)
    requires j >= FIRST_JULIAN_DAY
    ensures var d := GetYearMonthDay(j);
            ValidDate(d) && InCalendar(d) && GetJulianDayNumber(d.year, d.month, d.day) == j
  {
    var y, e := SplitDayCount(j + 32044);
    DayCountToDate(y, e, j);
    var d := FromMarch(y, e);
    var m := (5 * e + 2) / 153;
    assert 0 <= m <= 11;
    MonthOfDay(m, e, y, d);
    JulianDayIsDayCount(d);
  }

  /** Every day count lies in exactly one March-based year. */
  lemma SplitDayCount(a: int) returns (y: int, e: int)
    requires a >= 0
    ensures y >= 0 && 0 <= e <= 364 + (if IsLeap(y + 1) then 1 else 0)
    ensures a == DaysInYears(y) + e
  {
    hide IsLeap, DaysInYears;
    var b := (4 * a + 3) / 146097;
    var c := a - b * 146097 / 4;
    CenturyOfDay(a, b, c);
    var d := (4 * c + 3) / 1461;
    e := c - 1461 * d / 4;
    y := 100 * b + d;
    YearOfCentury(b, c, d);
    YearOfCenturyEnd(b, c, d, e);
    Centuries(y);
  }

  lemma CenturyOfDay(a: int, b: int, c: int)
    requires a >= 0 && b == (4 * a + 3) / 146097 && c == a - b * 146097 / 4
    ensures b >= 0 && 0 <= c <= 36523 + (if b % 4 == 3 then 1 else 0)
  {
  }

  lemma YearOfCentury(b: int, c: int, d: int)
    requires b >= 0 && 0 <= c <= 36524 && d == (4 * c + 3) / 1461
    ensures 0 <= d <= 99 && (100 * b + d) / 100 == b && (100 * b + d) % 100 == d
  {
  }

  lemma YearOfCenturyEnd(b: int, c: int, d: int, e: int)
    requires b >= 0 && 0 <= c <= 36523 + (if b % 4 == 3 then 1 else 0)
    requires d == (4 * c + 3) / 1461 && 0 <= d <= 99
    requires e == c - 1461 * d / 4
    ensures 0 <= e <= 364 + (if IsLeap(100 * b + d + 1) then 1 else 0)
  {
    assert 4 * (1461 * d / 4) == 1461 * d - d % 4;
    LeapOfCentury(b, d);
  }

  lemma MonthOfDay(m: int, e: int, y: int, d: YearMonthDay)
    requires 0 <= e <= 364 + (if IsLeap(y + 1) then 1 else 0)
    requires m == (5 * e + 2) / 153 && 0 <= m <= 11 && y >= 0
    requires d.month == m + 3 - 12 * (m / 10) && d.year == y - 4800 + m / 10
    requires d.day == e - DaysInMonths(m) + 1
    ensures ValidDate(d) && InCalendar(d) && MarchMonth(d) == m && MarchYear(d) == y
  {
    LeapShift(y + 1);
    assert DaysInMonths(0) == 0 && DaysInMonths(1) == 31 && DaysInMonths(2) == 61 && DaysInMonths(3) == 92;
    assert DaysInMonths(4) == 122 && DaysInMonths(5) == 153 && DaysInMonths(6) == 184 && DaysInMonths(7) == 214;
    assert DaysInMonths(8) == 245 && DaysInMonths(9) == 275 && DaysInMonths(10) == 306 && DaysInMonths(11) == 337;
  }

  /** Day numbers are consecutive: the calendar's successor is the integers' successor. */
  lemma NextDayIsNextNumber(d: YearMonthDay)
    requires ValidDate(d) && InCalendar(d)
    ensures ValidDate(NextDay(d)) && InCalendar(NextDay(d))
    ensures GetJulianDayNumber(NextDay(d).year, NextDay(d).month, NextDay(d).day)
         == GetJulianDayNumber(d.year, d.month, d.day) + 1
  {
    JulianDayIsDayCount(d);
    assert InCalendar(NextDay(d));
    JulianDayIsDayCount(NextDay(d));
    NextDayInMarchYear(d);
  }

  lemma NextDayInMarchYear(d: YearMonthDay)
    requires ValidDate(d)
    ensures var n := NextDay(d);
            DaysInYears(MarchYear(n)) + DayOfMarchYear(n) == DaysInYears(MarchYear(d)) + DayOfMarchYear(d) + 1
  {
    MonthLengths(d);
    if d.month == 2 && d.day == DaysInMonth(d.year, 2) {
      YearLength(MarchYear(d));
      LeapShift(d.year + 4800);
      assert DaysInMonths(11) == 337 && DaysInMonths(0) == 0;
    }
  }

  /** Day numbers are ordered as their dates. */
  lemma DayNumberOrder(x: YearMonthDay, y: YearMonthDay)
    requires ValidDate(x) && InCalendar(x) && ValidDate(y) && InCalendar(y)
    ensures DateLess(x, y) <==> GetJulianDayNumber(x.year, x.month, x.day) < GetJulianDayNumber(y.year, y.month, y.day)
  {
    DateLessMonotone(x, y);
    DateLessMonotone(y, x);
    if !DateLess(x, y) && !DateLess(y, x) {
      assert x == y;
    }
  }

  lemma DateLessMonotone(x: YearMonthDay, y: YearMonthDay)
    requires ValidDate(x) && InCalendar(x) && ValidDate(y) && InCalendar(y)
    ensures DateLess(x, y) ==>
              GetJulianDayNumber(x.year, x.month, x.day) < GetJulianDayNumber(y.year, y.month, y.day)
  {
    if DateLess(x, y) {
      JulianDayIsDayCount(x);
      JulianDayIsDayCount(y);
      MonthLengths(x);
      MonthLengths(y);
      YearLength(MarchYear(x));
      YearsMonotone(MarchYear(x) + 1, MarchYear(y));
      if MarchYear(x) == MarchYear(y) {
        MonthsMonotone(x, y);
      }
    }
  }

  lemma YearsMonotone(y: int, z: int)
    ensures y <= z ==> DaysInYears(y) <= DaysInYears(z)
    decreases z - y
  {
    if y < z {
      YearLength(y);
      YearsMonotone(y + 1, z);
    }
  }

  lemma MonthsMonotone(x: YearMonthDay, y: YearMonthDay)
    requires ValidDate(x) && ValidDate(y) && MarchYear(x) == MarchYear(y) && DateLess(x, y)
    ensures DayOfMarchYear(x) < DayOfMarchYear(y)
  {
    MonthLengths(x);
    assert DaysInMonths(MarchMonth(x) + 1) <= DaysInMonths(MarchMonth(y)) || MarchMonth(x) == MarchMonth(y);
  }

  /** The day of the year is the number of days in the months before, plus day - 1. */
  lemma DayOfYear(d: YearMonthDay)
    requires ValidDate(d) && InCalendar(d) && d.year > -4800
    ensures GetJulianDayNumber(d.year, d.month, d.day) - GetJulianDayNumber(d.year, 1, 1)
         == DaysBeforeMonth(d.year, d.month) + d.day - 1
    decreases d.month
  {
    FirstOfMonth(d);
    if d.month > 1 {
      var p := YearMonthDay(d.year, d.month - 1, DaysInMonth(d.year, d.month - 1));
      DayOfYear(p);
      NextDayIsNextNumber(p);
    }
  }

  lemma FirstOfMonth(d: YearMonthDay)
    ensures GetJulianDayNumber(d.year, d.month, d.day) == GetJulianDayNumber(d.year, d.month, 1) + d.day - 1
  {
  }

  /** Every intermediate value of `getYearMonthDay` fits a 32-bit `int`. */
  predicate SplitFits(j: int)
  {
    var a := j + 32044;
    var b := (4 * a + 3) / 146097;
    var c := a - b * 146097 / 4;
    var d := (4 * c + 3) / 1461;
    var e := c - 1461 * d / 4;
    var m := (5 * e + 2) / 153;
    && Int32(a) && Int32(4 * a + 3) && Int32(b * 146097) && Int32(4 * c + 3) && Int32(1461 * d)
    && Int32(5 * e + 2) && Int32(153 * m + 2) && Int32(b * 100 + d - 4800 + m / 10)
  }

  /** Every intermediate value of `getJulianDayNumber` does. */
  predicate JoinFits(year: int, month: int, day: int)
  {
    var a := TruncDiv(14 - month, 12);
    var y := year + 4800 - a;
    var m := month + 12 * a - 3;
    && Int32(14 - month) && Int32(y) && Int32(12 * a) && Int32(153 * m + 2) && Int32(y * 365)
    && Int32(day + TruncDiv(153 * m + 2, 5) + y * 365)
    && Int32(day + TruncDiv(153 * m + 2, 5) + y * 365 + TruncDiv(y, 4))
    && Int32(GetJulianDayNumber(year, month, day) + 32045)
    && Int32(GetJulianDayNumber(year, month, day))
  }

  /** The last day number whose split stays within 32 bits. */
  const LAST_JULIAN_DAY := 536_838_867

  /** From the first day of the calendar on, the split fits exactly while its first product does. */
  lemma NoOverflow(j: int)
    requires j >= FIRST_JULIAN_DAY
    ensures SplitFits(j) <==> Int32(4 * (j + 32044) + 3)
    ensures SplitFits(j) <==> j <= LAST_JULIAN_DAY
  {
    var a := j + 32044;
    var b := (4 * a + 3) / 146097;
    var c := a - b * 146097 / 4;
    assert b * 146097 <= 4 * a + 3;
    assert 0 <= c <= 36524;
    var d := (4 * c + 3) / 1461;
    var e := c - 1461 * d / 4;
    assert 0 <= e <= 365;
  }

  /** The join fits for every date that such a split gives, and for the first day of its year. */
  lemma JoinNoOverflow(j: int)
    requires FIRST_JULIAN_DAY <= j <= LAST_JULIAN_DAY
    ensures var d := GetYearMonthDay(j); JoinFits(d.year, d.month, d.day) && JoinFits(d.year, 1, 1)
  {
    JulianDayRoundTrip(j);
    NoOverflow(j);
    YearFits(j);
    hide GetYearMonthDay;
    var d := GetYearMonthDay(j);
    JoinOfModestYear(d.year, d.month, d.day);
    JoinOfModestYear(d.year, 1, 1);
  }

  lemma YearFits(j: int)
    requires FIRST_JULIAN_DAY <= j <= LAST_JULIAN_DAY
    ensures -4800 <= GetYearMonthDay(j).year <= 1_470_000
  {
    var a := j + 32044;
    var b := (4 * a + 3) / 146097;
    var c := a - b * 146097 / 4;
    assert 0 <= c <= 36524;
    var d := (4 * c + 3) / 1461;
    var e := c - 1461 * d / 4;
    assert 0 <= e <= 365;
  }

  lemma JoinOfModestYear(year: int, month: int, day: int)
    requires -4800 <= year <= 1_470_000 && 1 <= month <= 12 && 1 <= day <= 31
    ensures JoinFits(year, month, day)
  {
  }
}

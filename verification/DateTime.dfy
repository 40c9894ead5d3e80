/** Dates as Julian day numbers, times as nanoseconds since midnight. */
module DateTimes {
  import opened Division

  // ----- integer arithmetic of the source language

  /** Division that truncates toward zero. */
  function TDiv(a: int, b: int): int
    requires b > 0
  {
    if a >= 0 then a / b else -((-a) / b)
  }

  /** Remainder with the sign of the dividend. */
  function TMod(a: int, b: int): int
    requires b > 0
  {
    a - b * TDiv(a, b)
  }

  const INT_MAX := 0x7FFF_FFFF

  const SECONDS_PER_DAY := 86400
  const SECONDS_PER_HOUR := 3600
  const SECONDS_PER_MIN := 60
  const MINUTES_PER_HOUR := 60
  const NANOS_PER_DAY := 86400000000000
  const NANOS_PER_SEC := 1000000000
  const JULIAN_19700101 := 2440588

  // ----- the calendar: an independent reference

  datatype Date = Date(year: int, month: int, day: int)

  predicate IsLeap(year: int) {
    year % 4 == 0 && (year % 100 != 0 || year % 400 == 0)
  }

  function DaysInMonth(year: int, month: int): int {
    if month == 2 then (if IsLeap(year) then 29 else 28)
    else if month == 4 || month == 6 || month == 9 || month == 11 then 30
    else 31
  }

  /** A date of the proleptic Gregorian calendar. */
  predicate IsDate(d: Date) {
    1 <= d.month <= 12 && 1 <= d.day <= DaysInMonth(d.year, d.month)
  }

  predicate Before(d1: Date, d2: Date) {
    d1.year < d2.year
    || (d1.year == d2.year && d1.month < d2.month)
    || (d1.year == d2.year && d1.month == d2.month && d1.day < d2.day)
  }

  /** 1 March -4800, day 0 of the computation; its Julian day is -32044. */
  const ORIGIN := Date(-4800, 3, 1)
  const ORIGIN_JULIAN := -32044

  // ----- the code

  function JulianDate(year: int, month: int, day: int): int {
    var a := TDiv(14 - month, 12);
    var y := year + 4800 - a;
    var m := month + 12 * a - 3;
    day + TDiv(153 * m + 2, 5) + y * 365 + TDiv(y, 4) - TDiv(y, 100) + TDiv(y, 400) - 32045
  }

  function GetYMD(jday: int): Date {
    var split := SplitDays(jday + 32044);
    FromMarch(split.0, split.1)
  }

  /** The first part: the March year and the day of it, from the number of days. */
  function SplitDays(a: int): (int, int) {
    var b := TDiv(4 * a + 3, 146097);
    var c := a - TDiv(b * 146097, 4);
    var d := TDiv(4 * c + 3, 1461);
    var e := c - TDiv(1461 * d, 4);
    (b * 100 + d, e)
  }

  /** The last part of getYMD: the date of day e of March year y. */
  function FromMarch(y: int, e: int): Date {
    var m := TDiv(5 * e + 2, 153);
    var day := e - TDiv(153 * m + 2, 5) + 1;
    var month := m + 3 - 12 * TDiv(m, 10);
    var year := y - 4800 + TDiv(m, 10);
    Date(year, month, day)
  }

  function JulianOf(d: Date): int {
    JulianDate(d.year, d.month, d.day)
  }

  // ----- the code against the calendar

  /** Years that begin in March, counted from -4800: the day on which year y begins. */
  function YearStart(y: int): int {
    365 * y + y / 4 - y / 100 + y / 400
  }

  /** The day of the March year on which its m-th month begins. */
  function MonthStart(m: int): int {
    (153 * m + 2) / 5
  }

  function MarchYear(d: Date): int {
    d.year + 4800 - (if d.month <= 2 then 1 else 0)
  }

  function MarchMonth(d: Date): int {
    if d.month <= 2 then d.month + 9 else d.month - 3
  }

  lemma QuotientSteps(y: int)
    ensures (y + 1) / 4 == y / 4 + (if (y + 1) % 4 == 0 then 1 else 0)
    ensures (y + 1) / 100 == y / 100 + (if (y + 1) % 100 == 0 then 1 else 0)
    ensures (y + 1) / 400 == y / 400 + (if (y + 1) % 400 == 0 then 1 else 0)
  {
  }

  lemma CenturiesAreFourths(y: int)
    ensures y % 100 == 0 ==> y % 4 == 0
    ensures y % 400 == 0 ==> y % 100 == 0
  {
  }

  lemma YearLength(y: int)
    ensures YearStart(y + 1) - YearStart(y) == if IsLeap(y + 1) then 366 else 365
  {
    QuotientSteps(y);
    CenturiesAreFourths(y + 1);
  }

  /** The months of a March year tile it: the next one starts where this one ends. */
  lemma MonthLength(d: Date)
    requires 1 <= d.month <= 12
    ensures MarchMonth(d) < 11 ==> MonthStart(MarchMonth(d) + 1) == MonthStart(MarchMonth(d)) + DaysInMonth(d.year, d.month)
    ensures MarchMonth(d) == 11 ==>
      YearStart(MarchYear(d) + 1) - YearStart(MarchYear(d)) == MonthStart(11) + DaysInMonth(d.year, d.month)
  {
    if MarchMonth(d) == 11 {
      YearLength(MarchYear(d));
      LeapShift(d.year);
    }
  }

  lemma LeapShift(year: int)
    ensures IsLeap(year) == IsLeap(year + 4800)
  {
    RemainderIs(year + 4800, 4, year / 4 + 1200, year % 4);
    RemainderIs(year + 4800, 100, year / 100 + 48, year % 100);
    RemainderIs(year + 4800, 400, year / 400 + 12, year % 400);
  }

  lemma JulianClosedForm(d: Date)
    requires 1 <= d.month <= 12 && MarchYear(d) >= 0
    ensures JulianOf(d) == ORIGIN_JULIAN + YearStart(MarchYear(d)) + MonthStart(MarchMonth(d)) + d.day - 1
  {
    var a, y, m := (if d.month <= 2 then 1 else 0), MarchYear(d), MarchMonth(d);
    assert TDiv(14 - d.month, 12) == a;
    assert d.year + 4800 - a == y && d.month + 12 * a - 3 == m;
    TruncationIsFloor(153 * m + 2, 5);
    TruncationIsFloor(y, 4);
    TruncationIsFloor(y, 100);
    TruncationIsFloor(y, 400);
  }

  lemma TruncationIsFloor(a: int, b: int)
    requires a >= 0 && b > 0
    ensures TDiv(a, b) == a / b
  {
  }

  lemma {:induction false} YearStartsGrow(y1: int, y2: int)
    requires y1 <= y2
    ensures YearStart(y1) + 365 * (y2 - y1) <= YearStart(y2)
    decreases y2 - y1
  {
    if y1 < y2 {
      YearStartsGrow(y1, y2 - 1);
      YearLength(y2 - 1);
    }
  }

  /** The day of the year stays within the year. */
  lemma DayOfYearBound(d: Date)
    requires IsDate(d)
    ensures 0 <= MonthStart(MarchMonth(d)) + d.day - 1 < YearStart(MarchYear(d) + 1) - YearStart(MarchYear(d))
  {
    MonthLength(d);
    YearLength(MarchYear(d));
  }

  /** julianDate is strictly increasing in (year, month, day). */
  lemma JulianIncreases(d1: Date, d2: Date)
    requires IsDate(d1) && IsDate(d2) && !Before(d1, ORIGIN) && Before(d1, d2)
    ensures ORIGIN_JULIAN <= JulianOf(d1) < JulianOf(d2)
  {
    JulianClosedForm(d1);
    JulianClosedForm(d2);
    DayOfYearBound(d1);
    DayOfYearBound(d2);
    MonthLength(d1);
    YearStartsGrow(0, MarchYear(d1));
    if MarchYear(d1) < MarchYear(d2) {
      YearStartsGrow(MarchYear(d1) + 1, MarchYear(d2));
    }
  }

  lemma YearAtMost366(y: int)
    ensures YearStart(y + 1) - YearStart(y) <= 366
  {
    YearLength(y);
  }

  lemma MonthOfDay(e: int, m: int)
    requires 0 <= e <= 365 && m == (5 * e + 2) / 153
    ensures 0 <= m <= 11 && MonthStart(m) <= e && (m < 11 ==> e < MonthStart(m + 1))
  {
  }

  lemma FromMarchFields(y: int, e: int, m: int, g: Date)
    requires y >= 0 && 0 <= e <= 365 && m == (5 * e + 2) / 153 && g == FromMarch(y, e)
    ensures 1 <= g.month <= 12 && MarchMonth(g) == m && MarchYear(g) == y && g.day == e - MonthStart(m) + 1
  {
  }

  lemma FromMarchIsDate(y: int, e: int, g: Date)
    requires y >= 0 && 0 <= e < YearStart(y + 1) - YearStart(y) && g == FromMarch(y, e)
    ensures IsDate(g) && MarchYear(g) == y && MonthStart(MarchMonth(g)) + g.day - 1 == e
  {
    YearAtMost366(y);
    MonthOfDay(e, (5 * e + 2) / 153);
    FromMarchFields(y, e, (5 * e + 2) / 153, g);
    MonthLength(g);
  }

  lemma YMDUnfolded(a: int, b: int, c: int, d: int, e: int)
    requires a >= 0 && b >= 0 && c >= 0 && d >= 0
    requires b == (4 * a + 3) / 146097 && c == a - b * 146097 / 4
    requires d == (4 * c + 3) / 1461 && e == c - 1461 * d / 4
    ensures SplitDays(a) == (b * 100 + d, e)
  {
    TruncationIsFloor(4 * a + 3, 146097);
    TruncationIsFloor(b * 146097, 4);
    TruncationIsFloor(4 * c + 3, 1461);
    TruncationIsFloor(1461 * d, 4);
  }

  /** getYMD splits the days since the origin into March years and days of the year. */
  lemma YMDSplit(a: int) returns (y: int, e: int)
    requires a >= 0
    ensures y >= 0 && 0 <= e < YearStart(y + 1) - YearStart(y) && YearStart(y) + e == a
    ensures GetYMD(a + ORIGIN_JULIAN) == FromMarch(y, e)
  {
    var b := (4 * a + 3) / 146097;
    var c := a - b * 146097 / 4;
    var d := (4 * c + 3) / 1461;
    y, e := b * 100 + d, c - 1461 * d / 4;
    CenturySplit(a, b, c, d, e, y);
    YMDUnfolded(a, b, c, d, e);
    YearAndDay(a, y, e);
  }

  lemma YearAndDay(a: int, y: int, e: int)
    requires OnDay(a, y, e) && SplitDays(a) == (y, e)
    ensures y >= 0 && 0 <= e < YearStart(y + 1) - YearStart(y) && YearStart(y) + e == a
    ensures GetYMD(a + ORIGIN_JULIAN) == FromMarch(y, e)
  {
    YMDFromSplit(a, y, e);
  }

  /** a is day e of March year y. */
  predicate OnDay(a: int, y: int, e: int) {
    y >= 0 && e >= 0 && YearStart(y) + e == a && a < YearStart(y + 1)
  }

  lemma YMDFromSplit(a: int, y: int, e: int)
    requires SplitDays(a) == (y, e)
    ensures GetYMD(a + ORIGIN_JULIAN) == FromMarch(y, e)
  {
    assert a + ORIGIN_JULIAN + 32044 == a;
  }

  lemma SameJulian(d: Date, g: Date)
    requires IsDate(d) && !Before(d, ORIGIN) && IsDate(g) && !Before(g, ORIGIN) && JulianOf(d) == JulianOf(g)
    ensures d == g
  {
    if Before(d, g) {
      JulianIncreases(d, g);
    } else if Before(g, d) {
      JulianIncreases(g, d);
    }
  }

  /** getYMD yields a calendar date with the given Julian day, from the origin on... */
  lemma YMDIsDate(j: int)
    requires j >= ORIGIN_JULIAN
    ensures IsDate(GetYMD(j)) && !Before(GetYMD(j), ORIGIN) && JulianOf(GetYMD(j)) == j
  {
    var y, e := YMDSplit(j - ORIGIN_JULIAN);
    var g := FromMarch(y, e);
    FromMarchIsDate(y, e, g);
    JulianClosedForm(g);
  }

  lemma CenturySplit(a: int, b: int, c: int, d: int, e: int, y: int)
    requires a >= 0 && b == (4 * a + 3) / 146097 && c == a - b * 146097 / 4
    requires d == (4 * c + 3) / 1461 && e == c - 1461 * d / 4 && y == b * 100 + d
    ensures b >= 0 && c >= 0 && d >= 0 && OnDay(a, y, e)
  {
    assert y == 100 * b + d;
    WithinCentury(a, b, c);
    WithinYear(c, d, e);
    YearStartInCentury(b, d);
    if d < 99 {
      YearStartInCentury(b, d + 1);
    } else {
      YearStartInCentury(b + 1, 0);
    }
  }

  lemma WithinCentury(a: int, b: int, c: int)
    requires a >= 0 && b == (4 * a + 3) / 146097 && c == a - b * 146097 / 4
    ensures b >= 0 && 0 <= c <= 36524
    ensures b * 146097 / 4 + c < (b + 1) * 146097 / 4
  {
  }

  lemma WithinYear(c: int, d: int, e: int)
    requires 0 <= c <= 36524 && d == (4 * c + 3) / 1461 && e == c - 1461 * d / 4
    ensures 0 <= d <= 99 && 0 <= e && c < 1461 * (d + 1) / 4
  {
  }

  lemma YearStartInCentury(b: int, d: int)
    requires b >= 0 && 0 <= d <= 99
    ensures YearStart(100 * b + d) == 146097 * b / 4 + 1461 * d / 4
  {
    var y := 100 * b + d;
    assert y / 4 == 25 * b + d / 4 && y / 100 == b && y / 400 == b / 4;
  }

  /** ... and only from there: below, the truncating divisions give no calendar date. */
  lemma YMDIsDateIff(j: int)
    ensures IsDate(GetYMD(j)) <==> j >= ORIGIN_JULIAN
  {
    if j >= ORIGIN_JULIAN {
      YMDIsDate(j);
    } else {
      var a := j + 32044;
      var b := TDiv(4 * a + 3, 146097);
      var c := a - TDiv(b * 146097, 4);
      assert c <= -1;
      var d := TDiv(4 * c + 3, 1461);
      var e := c - TDiv(1461 * d, 4);
      assert e <= -1;
      assert GetYMD(j).day <= 0;
    }
  }

  /** Every calendar date from the origin on is recovered from its Julian day. */
  lemma DateRoundTrip(d: Date)
    requires IsDate(d) && !Before(d, ORIGIN)
    ensures JulianOf(d) >= ORIGIN_JULIAN && GetYMD(JulianOf(d)) == d
  {
    if d != ORIGIN {
      JulianIncreases(ORIGIN, d);
    }
    var j := JulianOf(d);
    YMDIsDate(j);
    SameJulian(d, GetYMD(j));
  }

  lemma LaterJulian(d: Date, g: Date)
    requires IsDate(d) && !Before(d, ORIGIN) && IsDate(g) && !Before(g, ORIGIN) && JulianOf(d) < JulianOf(g)
    ensures Before(d, g)
  {
    if Before(g, d) {
      JulianIncreases(g, d);
    }
  }

  /** Dates come back in the order of their Julian days. */
  lemma YMDIncreases(j1: int, j2: int)
    requires ORIGIN_JULIAN <= j1 < j2
    ensures Before(GetYMD(j1), GetYMD(j2))
  {
    YMDIsDate(j1);
    YMDIsDate(j2);
    LaterJulian(GetYMD(j1), GetYMD(j2));
  }

  /** The largest Julian day for which 4 * a + 3 is still an int. */
  const JULIAN_LIMIT := (INT_MAX - 3) / 4 - 32044

  /** Up to that day no intermediate result of getYMD, nor of julianDate on the
      date it yields, overflows an int. */
  lemma YMDFitsInt(j: int)
    requires ORIGIN_JULIAN <= j <= JULIAN_LIMIT
    ensures
      var a := j + 32044;
      var b := TDiv(4 * a + 3, 146097);
      var c := a - TDiv(b * 146097, 4);
      var d := TDiv(4 * c + 3, 1461);
      var e := c - TDiv(1461 * d, 4);
      && 0 <= 4 * a + 3 <= INT_MAX && 0 <= b * 146097 <= INT_MAX
      && 0 <= 4 * c + 3 <= INT_MAX && 0 <= 1461 * d <= INT_MAX
      && 0 <= 5 * e + 2 <= INT_MAX && 0 <= 153 * TDiv(5 * e + 2, 153) + 2 <= INT_MAX
      && 0 <= b * 100 + d <= INT_MAX
      && 0 <= 365 * (b * 100 + d) <= INT_MAX - 0x100_0000
    ensures 4 * (JULIAN_LIMIT + 1 + 32044) + 3 > INT_MAX
  {
  }

  // ----- weekdays

  /** Sunday is 1. int(2.6 * m - 0.2) is the integer quotient (13 * m - 1) / 5. */
  function GetWeekDay(date: int): int {
    WeekDayOf(GetYMD(date))
  }

  function WeekDayOf(ymd: Date): int {
    var m := if ymd.month >= 3 then ymd.month - 2 else ymd.month + 10;
    var yPrime := if ymd.month >= 3 then ymd.year else ymd.year - 1;
    var y := TMod(yPrime, 100);
    var c := TDiv(yPrime, 100);
    var wd := TMod(ymd.day + TDiv(13 * m - 1, 5) + y + TDiv(y, 4) + TDiv(c, 4) - 2 * c, 7);
    1 + (if wd < 0 then 7 + wd else wd)
  }

  /** The year that ends with the February after the date. */
  function YearFromMarch(d: Date): int {
    if d.month >= 3 then d.year else d.year - 1
  }

  /** Truncated centuries of a negative year count one day too many, leap years excepted. */
  function WeekDayDefect(y: int): int {
    if y >= 0 || IsLeap(y) then 0 else 1
  }

  /** The formula's terms for the year, up to multiples of 7. */
  lemma CenturyTerms(y: int)
    ensures
      var r, c := TMod(y, 100), TDiv(y, 100);
      r + TDiv(r, 4) + TDiv(c, 4) - 2 * c == y + y / 4 - y / 100 + y / 400 + WeekDayDefect(y) - 126 * c
  {
    if y >= 0 {
      CenturyQuotients(y);
    } else {
      CenturyQuotients(-y);
      NegativeQuotient(y, 4);
      NegativeQuotient(y, 100);
      NegativeQuotient(y, 400);
      CenturiesAreFourths(-y);
    }
  }

  lemma CenturyQuotients(n: nat)
    ensures n / 4 == 25 * (n / 100) + n % 100 / 4 && n / 400 == n / 100 / 4
  {
  }

  lemma NegativeQuotient(y: int, k: int)
    requires y < 0 && k > 0
    ensures y / k == -(-y / k) - (if -y % k == 0 then 0 else 1)
    ensures y % k == 0 <==> -y % k == 0
  {
    var q, r := -y / k, -y % k;
    assert y == k * (-q) - r;
    if r == 0 {
      QuotientIs(y, k, -q, 0);
    } else {
      assert y == k * (-q - 1) + (k - r);
      QuotientIs(y, k, -q - 1, k - r);
    }
  }

  lemma AddSevens(w: int, k: int)
    ensures (w + 7 * k) % 7 == w % 7
  {
  }

  /** Adding 7 to a negative truncated remainder gives the Euclidean one. */
  lemma RemainderOf7(x: int)
    ensures (if TMod(x, 7) < 0 then 7 + TMod(x, 7) else TMod(x, 7)) == x % 7
  {
  }

  /** The formula counts days modulo 7, and one too many where the defect is 1. */
  lemma WeekDayOfDate(d: Date, j: int)
    requires IsDate(d) && !Before(d, ORIGIN) && JulianOf(d) == j
    ensures WeekDayOf(d) == 1 + (j + 1 + WeekDayDefect(YearFromMarch(d))) % 7
  {
    var y, m := YearFromMarch(d), MarchMonth(d);
    var c := TDiv(y, 100);
    JulianBySevens(d, y, m);
    CenturyTerms(y);
    var t := WeekDayTerms(d, y, m);
    RemainderOf7(t);
    SevensBetween(j + 1 + WeekDayDefect(y), t, 52 * y + 4 * m + 245874, c);
  }

  /** The Julian day, up to multiples of 7. */
  lemma JulianBySevens(d: Date, y: int, m: int)
    requires 1 <= d.month <= 12 && MarchYear(d) >= 0 && y == YearFromMarch(d) && m == MarchMonth(d)
    ensures JulianOf(d) + 1
         == d.day + (13 * m + 12) / 5 + (y + y / 4 - y / 100 + y / 400) + 7 * (52 * y + 4 * m + 245874)
  {
    JulianClosedForm(d);
    YearStartShift(y);
    MonthShift(m);
  }

  lemma MonthShift(m: int)
    ensures MonthStart(m) == 28 * m - 2 + (13 * m + 12) / 5
  {
  }

  lemma SevensBetween(j: int, t: int, k: int, c: int)
    requires j == t + 126 * c + 7 * k
    ensures j % 7 == t % 7
  {
    AddSevens(t, 18 * c + k);
  }

  /** The sum that the code reduces modulo 7. */
  lemma WeekDayTerms(d: Date, y: int, m: int) returns (t: int)
    requires 1 <= d.month <= 12 && y == YearFromMarch(d) && m == MarchMonth(d)
    ensures t == d.day + (13 * m + 12) / 5 + (TMod(y, 100) + TDiv(TMod(y, 100), 4) + TDiv(TDiv(y, 100), 4) - 2 * TDiv(y, 100))
    ensures WeekDayOf(d) == 1 + (if TMod(t, 7) < 0 then 7 + TMod(t, 7) else TMod(t, 7))
  {
    t := d.day + (13 * m + 12) / 5 + (TMod(y, 100) + TDiv(TMod(y, 100), 4) + TDiv(TDiv(y, 100), 4) - 2 * TDiv(y, 100));
    assert (13 * m + 12) / 5 == TDiv(13 * (m + 1) - 1, 5);
  }

  lemma WeekDayIs(j: int, d: Date)
    requires j >= ORIGIN_JULIAN && d == GetYMD(j)
    ensures IsDate(d) && !Before(d, ORIGIN) && JulianOf(d) == j
    ensures GetWeekDay(j) == 1 + (j + 1 + WeekDayDefect(YearFromMarch(d))) % 7
  {
    YMDIsDate(j);
    WeekDayOfDate(d, j);
  }

  lemma YearStartShift(y: int)
    ensures YearStart(y + 4800) == 365 * y + y / 4 - y / 100 + y / 400 + 1753164
  {
  }

  /** The weekday formula agrees with counting days modulo 7 exactly in the years from March
      that are not negative or are leap years. */
  lemma WeekDayIff(j: int, d: Date)
    requires j >= ORIGIN_JULIAN && d == GetYMD(j)
    ensures GetWeekDay(j) == 1 + (j + 1) % 7 <==> YearFromMarch(d) >= 0 || IsLeap(YearFromMarch(d))
  {
    WeekDayIs(j, d);
    NextRemainder(j + 1);
  }

  lemma NextRemainder(x: int)
    ensures (x + 1) % 7 != x % 7
  {
  }

  /** 1 March of year 0. */
  const WEEKDAY_ORIGIN := 1721120

  /** From then on it always agrees. */
  lemma WeekDayAgrees(j: int)
    requires j >= WEEKDAY_ORIGIN
    ensures GetWeekDay(j) == 1 + (j + 1) % 7
  {
    var d := GetYMD(j);
    WeekDayIs(j, d);
    FromYearZero(d);
  }

  lemma FromYearZero(d: Date)
    requires IsDate(d) && !Before(d, ORIGIN)
    ensures JulianOf(d) >= WEEKDAY_ORIGIN ==> YearFromMarch(d) >= 0
  {
    var g := Date(0, 3, 1);
    JulianClosedForm(g);
    if Before(d, g) {
      JulianIncreases(d, g);
    }
  }

  lemma LeapDayOfYear0(d: Date)
    requires d == Date(0, 2, 29)
    ensures IsDate(d) && JulianOf(d) == WEEKDAY_ORIGIN - 1 && WeekDayOf(d) == 4
  {
    JulianClosedForm(d);
  }

  /** The day before it does not: 29 February of year 0 counts as day 4 instead of day 3. */
  lemma WeekDayDisagrees(j: int)
    requires j == WEEKDAY_ORIGIN - 1
    ensures GetYMD(j) == Date(0, 2, 29) && GetWeekDay(j) == 4 && 1 + (j + 1) % 7 == 3
  {
    LeapDayIsFour(j, Date(0, 2, 29));
    OriginIsThree(j + 1);
  }

  lemma LeapDayIsFour(j: int, d: Date)
    requires d == Date(0, 2, 29) && j == WEEKDAY_ORIGIN - 1
    ensures GetYMD(j) == d && GetWeekDay(j) == 4
  {
    LeapDayOfYear0(d);
    WeekDayFrom(j, d);
  }

  lemma OriginIsThree(n: int)
    requires n == WEEKDAY_ORIGIN
    ensures 1 + n % 7 == 3
  {
    QuotientIs(n, 7, 245874, 2);
  }

  lemma WeekDayFrom(j: int, d: Date)
    requires IsDate(d) && !Before(d, ORIGIN) && JulianOf(d) == j
    ensures GetYMD(j) == d && GetWeekDay(j) == WeekDayOf(d)
  {
    DateRoundTrip(d);
  }

  // ----- date and time together

  datatype Stamp = Stamp(date: int, time: int) {
    /** The time of day lies within the day. */
    predicate InDay() {
      0 <= time < NANOS_PER_DAY
    }

    /** Nanoseconds since Julian day 0. */
    function Total(): int {
      NANOS_PER_DAY * date + time
    }

    /** operator< */
    predicate Less(other: Stamp) {
      if date < other.date then true
      else if date > other.date then false
      else time < other.time
    }
  }

  /** operator- : whole seconds, each side truncated first. */
  function Minus(lhs: Stamp, rhs: Stamp): int {
    SECONDS_PER_DAY * (lhs.date - rhs.date) + TDiv(lhs.time, NANOS_PER_SEC) - TDiv(rhs.time, NANOS_PER_SEC)
  }

  function MakeHMS(hour: int, minute: int, second: int, nanos: int): int {
    NANOS_PER_SEC * (SECONDS_PER_HOUR * hour + SECONDS_PER_MIN * minute + second) + nanos
  }

  /** The table PRECISION_FACTOR. */
  function PrecisionFactor(precision: nat): (f: int)
    requires precision <= 9
    ensures f >= 1
    decreases 9 - precision
  {
    if precision == 9 then 1 else 10 * PrecisionFactor(precision + 1)
  }

  function ConvertToNanos(fraction: int, precision: int): int {
    fraction * PrecisionFactor(if 0 <= precision <= 8 then precision else 9)
  }

  /** getNanosecond, of a time that is not negative. */
  function GetNanosecond(time: nat): (n: nat)
    ensures n < NANOS_PER_SEC
  {
    time % NANOS_PER_SEC
  }

  function GetFraction(time: nat, precision: int): (f: nat) {
    Quotient(GetNanosecond(time), PrecisionFactor(if 0 <= precision <= 8 then precision else 9))
  }

  /** The quotient of unsigned operands. */
  function Quotient(n: nat, f: nat): (q: nat)
    requires f >= 1
  {
    n / f
  }

  datatype Clock = Clock(hour: int, minute: int, second: int)

  function GetHMS(time: nat): Clock {
    var ticks := TDiv(time, NANOS_PER_SEC);
    Clock(TDiv(ticks, SECONDS_PER_HOUR),
          TMod(TDiv(ticks, SECONDS_PER_MIN), MINUTES_PER_HOUR),
          TMod(ticks, SECONDS_PER_MIN))
  }

  predicate IsClock(c: Clock) {
    0 <= c.hour <= 23 && 0 <= c.minute <= 59 && 0 <= c.second <= 59
  }

  lemma SplitTicks(ticks: int)
    requires 0 <= ticks < SECONDS_PER_DAY
    ensures
      var c := Clock(ticks / 3600, ticks / 60 % 60, ticks % 60);
      IsClock(c) && 3600 * c.hour + 60 * c.minute + c.second == ticks
  {
    assert ticks / 60 / 60 == ticks / 3600;
  }

  /** Splitting a time of day and putting it together again loses nothing. */
  lemma HMSRoundTrip(time: nat)
    requires time < NANOS_PER_DAY
    ensures IsClock(GetHMS(time))
    ensures MakeHMS(GetHMS(time).hour, GetHMS(time).minute, GetHMS(time).second, GetNanosecond(time)) == time
  {
    SplitTicks(time / NANOS_PER_SEC);
  }

  lemma ClockRoundTrip(c: Clock, nanos: int)
    requires IsClock(c) && 0 <= nanos < NANOS_PER_SEC
    ensures 0 <= MakeHMS(c.hour, c.minute, c.second, nanos) < NANOS_PER_DAY
    ensures GetHMS(MakeHMS(c.hour, c.minute, c.second, nanos)) == c
    ensures GetNanosecond(MakeHMS(c.hour, c.minute, c.second, nanos)) == nanos
  {
    var ticks := 3600 * c.hour + 60 * c.minute + c.second;
    var time := MakeHMS(c.hour, c.minute, c.second, nanos);
    assert time / NANOS_PER_SEC == ticks && time % NANOS_PER_SEC == nanos;
    assert ticks / 60 == 60 * c.hour + c.minute;
  }

  /** A leap second is carried into the next minute; on 23:59 it gives hour 24, outside the
      day. */
  lemma SecondSixty(hour: int, minute: int, nanos: int)
    requires 0 <= hour <= 23 && 0 <= minute <= 59 && 0 <= nanos < NANOS_PER_SEC
    ensures
      var time := MakeHMS(hour, minute, 60, nanos);
      && time >= 0
      && GetHMS(time) == (if minute < 59 then Clock(hour, minute + 1, 0) else Clock(hour + 1, 0, 0))
      && (time < NANOS_PER_DAY <==> !(hour == 23 && minute == 59))
  {
    if minute < 59 {
      ClockRoundTrip(Clock(hour, minute + 1, 0), nanos);
    } else if hour < 23 {
      ClockRoundTrip(Clock(hour + 1, 0, 0), nanos);
    } else {
      assert MakeHMS(23, 59, 60, nanos) == NANOS_PER_DAY + nanos;
    }
  }

  /** Within the day, operator< is the order of the instants. */
  lemma LessIsEarlier(a: Stamp, b: Stamp)
    requires a.InDay() && b.InDay()
    ensures a.Less(b) <==> a.Total() < b.Total()
  {
    if a.date < b.date {
      assert a.date + 1 <= b.date;
    } else if b.date < a.date {
      assert b.date + 1 <= a.date;
    }
  }

  /** The stamp of an instant: the reference for the carrying addition. */
  function AtTotal(total: int): (t: Stamp)
    ensures t.InDay() && t.Total() == total
  {
    Stamp(total / NANOS_PER_DAY, total % NANOS_PER_DAY)
  }

  lemma StampUnique(a: Stamp, b: Stamp)
    requires a.InDay() && b.InDay() && a.Total() == b.Total()
    ensures a == b
  {
    if a.date != b.date {
      LessIsEarlier(a, b);
      LessIsEarlier(b, a);
    }
  }

  /** fromUtcSeconds */
  function FromUtcSeconds(t: int, nanos: int): Stamp {
    var days := TDiv(t, SECONDS_PER_DAY);
    var seconds := TMod(t, SECONDS_PER_DAY);
    if seconds < 0 then
      Stamp(JULIAN_19700101 + days - 1, NANOS_PER_SEC * (seconds + SECONDS_PER_DAY) + nanos)
    else
      Stamp(JULIAN_19700101 + days, NANOS_PER_SEC * seconds + nanos)
  }

  function GetTimeT(s: Stamp): int {
    SECONDS_PER_DAY * (s.date - JULIAN_19700101) + TDiv(s.time, NANOS_PER_SEC)
  }

  /** A time_t survives the conversion, before 1970 too. */
  lemma TimeTRoundTrip(t: int, nanos: int)
    requires 0 <= nanos < NANOS_PER_SEC
    ensures FromUtcSeconds(t, nanos).InDay()
    ensures GetTimeT(FromUtcSeconds(t, nanos)) == t
    ensures FromUtcSeconds(t, nanos).Total() == NANOS_PER_DAY * JULIAN_19700101 + NANOS_PER_SEC * t + nanos
  {
    var s := FromUtcSeconds(t, nanos);
    var seconds := t - SECONDS_PER_DAY * (s.date - JULIAN_19700101);
    assert 0 <= seconds < SECONDS_PER_DAY && s.time == NANOS_PER_SEC * seconds + nanos;
    assert s.time / NANOS_PER_SEC == seconds;
  }

  class DateTime {
    var m_date: int
    var m_time: int

    constructor (date: int, time: int)
      ensures Now() == Stamp(date, time)
    {
      m_date, m_time := date, time;
    }

    function Now(): Stamp
      reads this
    {
      Stamp(m_date, m_time)
    }

    /** operator+= : the carrying addition moves the instant by exactly so many
        seconds, and the time stays within the day. */
    method AddSeconds(seconds: int)
      requires Now().InDay()
      modifies this
      ensures Now() == AtTotal(old(Now().Total()) + NANOS_PER_SEC * seconds)
    {
      ghost var before := Now();
      var daysToAdd := TDiv(seconds, SECONDS_PER_DAY);
      var secondsToAdd := TMod(seconds, SECONDS_PER_DAY);
      m_date := m_date + daysToAdd;
      m_time := m_time + secondsToAdd * NANOS_PER_SEC;
      if m_time >= NANOS_PER_DAY {
        m_date := m_date + 1;
        m_time := TMod(m_time, NANOS_PER_DAY);
      } else if m_time < 0 {
        m_date := m_date - 1;
        m_time := m_time + NANOS_PER_DAY;
      }
      StampUnique(Now(), AtTotal(before.Total() + NANOS_PER_SEC * seconds));
    }
  }

  /** Subtraction undoes the addition, to the second. */
  lemma MinusUndoesPlus(s: Stamp, seconds: int)
    requires s.InDay()
    ensures Minus(AtTotal(s.Total() + NANOS_PER_SEC * seconds), s) == seconds
  {
    var t := AtTotal(s.Total() + NANOS_PER_SEC * seconds);
    var days := t.date - s.date;
    assert t.time == s.time + NANOS_PER_SEC * (seconds - SECONDS_PER_DAY * days);
    assert t.time / NANOS_PER_SEC == s.time / NANOS_PER_SEC + (seconds - SECONDS_PER_DAY * days);
  }

  /** What the subtraction gives: the difference of the whole seconds that have passed, not the
      whole seconds of the difference; it is one more exactly when the left fraction of a second
      is the smaller one. */
  lemma MinusIs(a: Stamp, b: Stamp)
    requires a.InDay() && b.InDay()
    ensures Minus(a, b) == a.Total() / 1_000000000 - b.Total() / 1_000000000
    ensures Minus(a, b) == (a.Total() - b.Total()) / 1_000000000
                         + (if a.Total() % 1_000000000 < b.Total() % 1_000000000 then 1 else 0)
  {
    SecondsOfTotal(a);
    SecondsOfTotal(b);
    var p, q := a.Total() / 1_000000000, b.Total() / 1_000000000;
    var r, t := a.Total() % 1_000000000, b.Total() % 1_000000000;
    if r < t {
      QuotientIs(a.Total() - b.Total(), 1_000000000, p - q - 1, r - t + 1_000000000);
    } else {
      QuotientIs(a.Total() - b.Total(), 1_000000000, p - q, r - t);
    }
  }

  lemma SecondsOfTotal(a: Stamp)
    requires a.InDay()
    ensures a.Total() / 1_000000000 == 86400 * a.date + TDiv(a.time, NANOS_PER_SEC)
  {
    QuotientIs(a.Total(), 1_000000000, 86400 * a.date + a.time / NANOS_PER_SEC, a.time % NANOS_PER_SEC);
  }

  /** Time 0 is midnight of 1 January 1970. */
  lemma EpochIs(d: Date)
    requires d == Date(1970, 1, 1)
    ensures JulianOf(d) == 2440588 && FromUtcSeconds(0, 0) == Stamp(2440588, 0) && GetTimeT(Stamp(2440588, 0)) == 0
  {
    JulianClosedForm(d);
  }
}

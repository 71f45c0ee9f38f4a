/**
 * Laws of the Meeus Gregorian <-> Julian Day conversion as the engine computes
 * it, and of the high-level conversions and day of week built on it.
 *
 * Each floor of a decimal product or quotient is first turned into an integer
 * division (365.25 = 1461/4, 30.6001 = 306001/10000, ...). A date is then a
 * "March year" `Y` (counted from 4716 BC), a day `q` of that March year
 * counted from a fixed offset, and the Gregorian century term.
 */
module GregorianLaws {
  import opened JsNumbers
  import opened HijriEngine
  import opened HijriLaws

  // ---------------------------------------------------------------------
  // The decimal constants as integer divisions
  // ---------------------------------------------------------------------

  lemma YearDaysFloor(y: int)
    ensures (365.25 * (y as real)).Floor == (1461 * y) / 4
  {
    assert 365.25 * (y as real) == ((1461 * y) as real) / (4 as real);
    FloorOfQuotient(1461 * y, 4);
  }

  lemma MonthDaysFloor(e: int)
    ensures (30.6001 * (e as real)).Floor == (306001 * e) / 10000
  {
    assert 30.6001 * (e as real) == ((306001 * e) as real) / (10000 as real);
    FloorOfQuotient(306001 * e, 10000);
  }

  lemma CenturyFloor(z: int)
    ensures ((z as real - 1867216.25) / 36524.25).Floor == (4 * z - 7468865) / 146097
  {
    assert (z as real - 1867216.25) / 36524.25 == ((4 * z - 7468865) as real) / (146097 as real);
    FloorOfQuotient(4 * z - 7468865, 146097);
  }

  lemma MarchYearFloor(b: int)
    ensures ((b as real - 122.1) / 365.25).Floor == (20 * b - 2442) / 7305
  {
    assert (b as real - 122.1) / 365.25 == ((20 * b - 2442) as real) / (7305 as real);
    FloorOfQuotient(20 * b - 2442, 7305);
  }

  lemma MonthQuotientFloor(x: int)
    ensures ((x as real) / 30.6001).Floor == (10000 * x) / 306001
  {
    assert (x as real) / 30.6001 == ((10000 * x) as real) / (306001 as real);
    FloorOfQuotient(10000 * x, 306001);
  }

  // ---------------------------------------------------------------------
  // The date as a March year and a day of it
  // ---------------------------------------------------------------------

  /** Days before March month `mm` (3..14), offset by 122 as in the Meeus formula. */
  function MonthOffset(mm: int): int
  {
    (306001 * (mm + 1)) / 10000
  }

  /** The March year of `g`, counted from 4716 BC. */
  function FullMarchYear(g: GregorianDate): int
  {
    MarchYear(g.year, g.month) + 4716
  }

  /** The day of `g` within its March year, offset by 122. */
  function MarchDay(g: GregorianDate): int
  {
    MonthOffset(MarchMonth(g.month)) + g.day
  }

  /** The whole day number that `GregorianToJD` is half a day below. */
  function GregorianDayNumber(g: GregorianDate): int
  {
    (1461 * FullMarchYear(g)) / 4 + MarchDay(g) + CenturyTerm(MarchYear(g.year, g.month)) - 1524
  }

  /** `GregorianToJD` is always an "x.5" value: midnight before the day `GregorianDayNumber`. */
  lemma GregorianToJDIsMidnight(g: GregorianDate)
    ensures GregorianToJD(g.year, g.month, g.day) == GregorianDayNumber(g) as real - 0.5
  {
    YearDaysFloor(FullMarchYear(g));
    MonthDaysFloor(MarchMonth(g.month) + 1);
  }

  /** Where the day of a valid date falls in its March year; Feb 29 only in leap years. */
  lemma MarchDayRange(g: GregorianDate)
    requires IsValidGregorian(g)
    ensures var mm, q := MarchMonth(g.month), MarchDay(g);
      3 <= mm <= 14 && MonthOffset(mm) < q <= MonthOffset(mm + 1) && 123 <= q <= 488
    ensures MarchDay(g) == 488 ==> g.month == 2 && g.day == 29 && IsGregorianLeapYear(g.year)
  {
  }

  /** The month quotient of the decoder finds the March month of day `q`. */
  lemma MarchMonthDecode(mm: int, q: int)
    requires 3 <= mm <= 14 && MonthOffset(mm) < q <= MonthOffset(mm + 1)
    ensures (10000 * q) / 306001 == mm + 1
  {
    DivModUnique(10000 * q, 306001, mm + 1, 10000 * q - 306001 * (mm + 1));
  }

  /** (1461 Y) / 4 = 365 Y + Y / 4. */
  lemma QuadYearDays(y: int)
    ensures (1461 * y) / 4 == 365 * y + y / 4
    ensures 4 * ((1461 * y) / 4) == 1461 * y - y % 4
  {
    DivModUnique(1461 * y, 4, 365 * y + y / 4, y % 4);
  }

  /** The year quotient of the decoder finds the March year `y` of day `q`. */
  lemma MarchYearDecode(y: int, q: int)
    requires 123 <= q <= 488 && (q == 488 ==> y % 4 == 3)
    ensures (20 * ((1461 * y) / 4 + q) - 2442) / 7305 == y
  {
    QuadYearDays(y);
    DivModUnique(20 * ((1461 * y) / 4 + q) - 2442, 7305, y, 20 * q - 5 * (y % 4) - 2442);
  }

  /**
   * The decoder inverts the Julian-calendar day count: the day count of a March
   * year `Y` and day `q` yields back the date, provided a day 488 (Feb 29) only
   * occurs when the next year is a multiple of four.
   */
  lemma DateOfDayCountDecode(g: GregorianDate)
    requires IsValidGregorian(g)
    requires MarchDay(g) == 488 ==> FullMarchYear(g) % 4 == 3
    ensures DateOfDayCount((1461 * FullMarchYear(g)) / 4 + MarchDay(g)) == g
  {
    var y, q, mm := FullMarchYear(g), MarchDay(g), MarchMonth(g.month);
    MarchDayRange(g);
    var b := (1461 * y) / 4 + q;
    assert ((b as real - 122.1) / 365.25).Floor == y by {
      MarchYearFloor(b);
      MarchYearDecode(y, q);
    }
    assert (365.25 * (y as real)).Floor == b - q by {
      YearDaysFloor(y);
    }
    assert ((q as real) / 30.6001).Floor == mm + 1 by {
      MonthQuotientFloor(q);
      MarchMonthDecode(mm, q);
    }
    assert (30.6001 * ((mm + 1) as real)).Floor == q - g.day by {
      MonthDaysFloor(mm + 1);
    }
    var month := if mm + 1 < 14 then mm else mm - 12;
    assert month == g.month;
    assert (if month > 2 then y - 4716 else y - 4715) == g.year;
    assert DateOfDayCount(b) == GregorianDate(g.year, month, g.day);
  }

  /** Every date from the reform on has a day number at or past the reform day. */
  lemma ReformBound(g: GregorianDate)
    requires IsValidGregorian(g) && OnOrAfterReform(g)
    ensures GregorianDayNumber(g) >= REFORM_DAY_NUMBER
  {
    var y := MarchYear(g.year, g.month);
    MarchDayRange(g);
    QuadYearDays(y + 4716);
    var a := y / 100;
    assert 4 * (a / 4) >= a - 3;
    if y == 1582 {
      assert a == 15;
    } else {
      assert y >= 1583;
      assert 100 * a <= y;
    }
  }

  /** The numerator of the century quotient, split into whole 400-year cycles and a remainder. */
  lemma CenturyNumerator(y: int, q: int)
    ensures var z := (1461 * (y + 4716)) / 4 + q + CenturyTerm(y) - 1524;
      4 * z - 7468865 == 146097 * (y / 100 - 4) + (1461 * (y % 100) + 4 * q - (y % 100) % 4 - (y / 100) % 4 - 489)
  {
    var a, r100 := y / 100, y % 100;
    var w := (1461 * (y + 4716)) / 4;
    assert 4 * w == 1461 * (y + 4716) - (y + 4716) % 4 by {
      QuadYearDays(y + 4716);
    }
    assert (y + 4716) % 4 == r100 % 4 by {
      DivModUnique(y + 4716, 4, 25 * a + r100 / 4 + 1179, r100 % 4);
    }
    assert CenturyTerm(y) == 2 - a + a / 4;
    assert 4 * (a / 4) == a - a % 4;
  }

  /** The remainder left by `CenturyNumerator` lies within one 400-year cycle. */
  lemma CenturyRemainderBound(y: int, q: int)
    requires 123 <= q <= 488
    requires q == 488 ==> IsGregorianLeapYear(y + 1)
    ensures 0 <= 1461 * (y % 100) + 4 * q - (y % 100) % 4 - (y / 100) % 4 - 489 < 146097
  {
    var a, r100 := y / 100, y % 100;
    if q == 488 && r100 == 99 {
      assert y + 1 == 100 * (a + 1);
      DivModUnique(y + 1, 400, (a + 1) / 4, 100 * ((a + 1) % 4));
      assert a % 4 == 3;
    }
  }

  /**
   * The century quotient of the decoder: for March year `y` and day `q` of it,
   * alpha is four less than the century number of `y`.
   */
  lemma CenturyQuotient(y: int, q: int)
    requires 123 <= q <= 488
    requires q == 488 ==> IsGregorianLeapYear(y + 1)
    ensures var z := (1461 * (y + 4716)) / 4 + q + CenturyTerm(y) - 1524;
      (4 * z - 7468865) / 146097 == y / 100 - 4
  {
    var z := (1461 * (y + 4716)) / 4 + q + CenturyTerm(y) - 1524;
    var x := 1461 * (y % 100) + 4 * q - (y % 100) % 4 - (y / 100) % 4 - 489;
    CenturyNumerator(y, q);
    CenturyRemainderBound(y, q);
    DivModUnique(4 * z - 7468865, 146097, y / 100 - 4, x);
  }

  /**
   * From the reform on, the century correction of the decoder undoes the
   * century term of the encoder: what remains is the Julian-calendar day count.
   */
  lemma CenturyCorrection(g: GregorianDate)
    requires IsValidGregorian(g) && OnOrAfterReform(g)
    ensures JulianDayCount(GregorianDayNumber(g)) == (1461 * FullMarchYear(g)) / 4 + MarchDay(g) - 1524
  {
    var z := GregorianDayNumber(g);
    var y := MarchYear(g.year, g.month);
    ReformBound(g);
    var alpha := ((z as real - 1867216.25) / 36524.25).Floor;
    CenturyAlpha(g);
    assert FloorDiv(alpha, 4) == y / 100 / 4 - 1;
    assert JulianDayCount(z) == z + 1 + alpha - FloorDiv(alpha, 4);
  }

  /** The decoder's century number alpha of a valid date is four less than the century of its March year. */
  lemma CenturyAlpha(g: GregorianDate)
    requires IsValidGregorian(g)
    ensures ((GregorianDayNumber(g) as real - 1867216.25) / 36524.25).Floor == MarchYear(g.year, g.month) / 100 - 4
  {
    MarchDayRange(g);
    CenturyFloor(GregorianDayNumber(g));
    CenturyQuotient(MarchYear(g.year, g.month), MarchDay(g));
  }

  /** `JdToGregorian` only looks at the day `jd + 0.5` falls in. */
  lemma JdToGregorianDependsOnDay(jd: real, jd': real)
    requires (jd + 0.5).Floor == (jd' + 0.5).Floor
    ensures JdToGregorian(jd) == JdToGregorian(jd')
  {
  }

  // ---------------------------------------------------------------------
  // Round trips
  // ---------------------------------------------------------------------

  /** At midnight before day `z` the decoder reads day `z`. */
  lemma JdToGregorianAtMidnight(z: int)
    ensures JdToGregorian(z as real - 0.5) == DateOfDayCount(JulianDayCount(z) + 1524)
  {
    assert (z as real - 0.5 + 0.5).Floor == z;
  }

  /** A valid Feb 29 lies in a March year that is 3 modulo 4. */
  lemma LeapDayYear(g: GregorianDate)
    requires IsValidGregorian(g)
    ensures MarchDay(g) == 488 ==> FullMarchYear(g) % 4 == 3
  {
    MarchDayRange(g);
  }

  /** Gregorian -> Julian Day -> Gregorian is the identity on valid dates from 15 October 1582 on. */
  lemma GregorianRoundTrip(g: GregorianDate)
    requires IsValidGregorian(g) && OnOrAfterReform(g)
    ensures JdToGregorian(GregorianToJD(g.year, g.month, g.day)) == g
  {
    GregorianToJDIsMidnight(g);
    JdToGregorianAtMidnight(GregorianDayNumber(g));
    CenturyCorrection(g);
    LeapDayYear(g);
    DateOfDayCountDecode(g);
  }

  /**
   * Before the reform the round trip fails: 4 October 1582 (the last Julian-calendar
   * day) comes back as 24 September 1582, because the encoder applies the Gregorian
   * century term to every date while the decoder removes it only from the reform day on.
   */
  lemma PreReformDatesDoNotRoundTrip()
    ensures JdToGregorian(GregorianToJD(1582, 10, 4)) == GregorianDate(1582, 9, 24)
  {
    var g := GregorianDate(1582, 10, 4);
    GregorianToJDIsMidnight(g);
    assert GregorianDayNumber(g) == 2299150;
    assert (GregorianToJD(1582, 10, 4) + 0.5).Floor == 2299150;
    JdToGregorianAtMidnight(2299150);
    assert JulianDayCount(2299150) + 1524 == 2300674;
    PreReformDayCount();
  }

  /** Day count 2300674 of the Julian calendar is 24 September 1582. */
  lemma PreReformDayCount()
    ensures DateOfDayCount(2300674) == GregorianDate(1582, 9, 24)
  {
    assert ((2300674 as real - 122.1) / 365.25).Floor == 6298 by {
      MarchYearFloor(2300674);
    }
    assert (365.25 * (6298 as real)).Floor == 2300344 by {
      YearDaysFloor(6298);
    }
    assert ((330 as real) / 30.6001).Floor == 10 by {
      MonthQuotientFloor(330);
    }
    assert (30.6001 * (10 as real)).Floor == 306 by {
      MonthDaysFloor(10);
    }
  }

  /** The Gregorian date of a Hijri date is the one at midnight before its (adjusted) day number. */
  lemma HijriToGregorianAtMidnight(h: HijriDate, adjustment: int, n: int)
    requires HijriToJD(h.year, h.month, h.day) - adjustment == n
    ensures HijriToGregorian(h, adjustment) == JdToGregorian(n as real - 0.5)
  {
    JdToGregorianDependsOnDay(n as real, n as real - 0.5);
  }

  /** For every adjustment, Gregorian -> Hijri -> Gregorian is the identity on valid dates from the reform on. */
  lemma ConversionRoundTrip(g: GregorianDate, adjustment: int)
    requires IsValidGregorian(g) && OnOrAfterReform(g)
    ensures HijriToGregorian(GregorianToHijri(g, adjustment), adjustment) == g
  {
    var n := GregorianDayNumber(g);
    AdjustedDayNumber(g, adjustment);
    HijriToGregorianAtMidnight(GregorianToHijri(g, adjustment), adjustment, n);
    GregorianToJDIsMidnight(g);
    GregorianRoundTrip(g);
  }

  /** The adjusted Hijri date of `g` has the day number `adjustment` days past `g`'s. */
  lemma AdjustedDayNumber(g: GregorianDate, adjustment: int)
    ensures var h := GregorianToHijri(g, adjustment);
      HijriToJD(h.year, h.month, h.day) == GregorianDayNumber(g) + adjustment && IsCycleValid(h)
  {
    GregorianToJDIsMidnight(g);
    JdToHijriInverse(GregorianToJD(g.year, g.month, g.day) + adjustment as real);
  }

  /**
   * The adjustment moves the Hijri date by whole days: with adjustment `a` the
   * Hijri date of `g` is the unadjusted Hijri date of any `g2` lying `a` days after `g`.
   */
  lemma AdjustmentShiftsDays(g: GregorianDate, g2: GregorianDate, adjustment: int)
    requires GregorianDayNumber(g2) == GregorianDayNumber(g) + adjustment
    ensures GregorianToHijri(g, adjustment) == GregorianToHijri(g2, 0)
  {
    GregorianToJDIsMidnight(g);
    GregorianToJDIsMidnight(g2);
  }

  // ---------------------------------------------------------------------
  // Day of week
  // ---------------------------------------------------------------------

  /** The day of week is the day number (after the adjustment) plus one, modulo 7 (JavaScript `%`). */
  lemma DayOfWeekFromDayNumber(h: HijriDate, adjustment: int)
    ensures GetDayOfWeek(h, adjustment) == IntRem(HijriToJD(h.year, h.month, h.day) - adjustment + 1, 7)
  {
    var n := HijriToJD(h.year, h.month, h.day) - adjustment;
    assert ((n as real) + 1.5).Floor == n + 1;
  }

  /**
   * For the Hijri date the app shows for Gregorian date `g` (from the reform on),
   * the day of week is `g`'s Julian day number plus one, modulo 7: 0 is Sunday.
   */
  lemma DayOfWeekOfShownDate(g: GregorianDate, adjustment: int)
    requires IsValidGregorian(g) && OnOrAfterReform(g)
    ensures var h := GregorianToHijri(g, adjustment);
      HijriToGregorian(h, adjustment) == g &&
      GetDayOfWeek(h, adjustment) == (GregorianDayNumber(g) + 1) % 7
  {
    ConversionRoundTrip(g, adjustment);
    var h := GregorianToHijri(g, adjustment);
    AdjustedDayNumber(g, adjustment);
    DayOfWeekFromDayNumber(h, adjustment);
    ReformBound(g);
  }

  /** From one Hijri day to the next the day of week advances by one, modulo 7. */
  lemma DayOfWeekAdvances(h: HijriDate, adjustment: int)
    requires h.year >= 1 && IsValidHijri(h)
    requires HijriToJD(h.year, h.month, h.day) - adjustment + 1 >= 0
    ensures GetDayOfWeek(NextHijriDay(h), adjustment) == (GetDayOfWeek(h, adjustment) + 1) % 7
  {
    var n := HijriToJD(h.year, h.month, h.day) - adjustment + 1;
    var h' := NextHijriDay(h);
    assert HijriToJD(h'.year, h'.month, h'.day) - adjustment + 1 == n + 1 by {
      SuccessorLaw(h);
    }
    DayOfWeekFromDayNumber(h, adjustment);
    DayOfWeekFromDayNumber(h', adjustment);
    assert (n + 1) % 7 == (n % 7 + 1) % 7 by {
      DivModUnique(n + 1, 7, n / 7 + (n % 7 + 1) / 7, (n % 7 + 1) % 7);
    }
  }

  /** 1 Muharram 1446 fell on Monday 8 July 2024 (day number 2460500). */
  lemma DayOfWeekAnchor()
    ensures HijriToJD(1446, 1, 1) == 2460500
    ensures GetDayOfWeek(HijriDate(1446, 1, 1), 0) == 1
    ensures HijriToGregorian(HijriDate(1446, 1, 1), 0) == GregorianDate(2024, 7, 8)
  {
    assert HijriToJD(1446, 1, 1) == 2460500 by {
      assert FloorDiv(11 * 1446 + 3, 30) == 530;
      assert FloorDiv(0, 2) == 0;
    }
    DayOfWeekFromDayNumber(HijriDate(1446, 1, 1), 0);
    assert IntRem(2460501, 7) == 1;
    HijriToGregorianAtMidnight(HijriDate(1446, 1, 1), 0, 2460500);
    AnchorGregorianDate();
  }

  /** 8 July 2024 is Julian day 2460499.5 and back. */
  lemma AnchorGregorianDate()
    ensures JdToGregorian(2460500 as real - 0.5) == GregorianDate(2024, 7, 8)
  {
    var g := GregorianDate(2024, 7, 8);
    assert GregorianToJD(2024, 7, 8) == 2460500 as real - 0.5 by {
      GregorianToJDIsMidnight(g);
      assert GregorianDayNumber(g) == 2460500;
    }
    GregorianRoundTrip(g);
  }
}

/**
 * Laws of the tabular Hijri calendar as the engine computes it: the leap
 * rule, month and year lengths against the day-number formula, the
 * successor law, and the round trips between Hijri dates and Julian Days.
 *
 * The proofs split a day number into 30-year cycles (10631 days each), a
 * year within the cycle and a day within the year; the engine's decoding
 * formulas are then checked year by year and month by month.
 */
module HijriLaws {
  import opened JsNumbers
  import opened HijriEngine

  // ---------------------------------------------------------------------
  // The 30-year cycle
  // ---------------------------------------------------------------------

  /** Position 1..30 of `year` in its cycle (Euclidean, so for every year). */
  function CyclePosition(year: int): int
  {
    (year - 1) % 30 + 1
  }

  /** The leap pattern the day-number formula follows, for every year. */
  predicate CycleLeap(year: int)
  {
    CyclePosition(year) in INTERCALARY
  }

  /** Days in cycle years 1..r-1. */
  function DaysBeforeCycleYear(r: int): int
  {
    354 * (r - 1) + (11 * r + 3) / 30
  }

  function CycleYearLength(r: int): int
  {
    if r in INTERCALARY then 355 else 354
  }

  /** Days in months 1..m-1 of any year. */
  function DaysBeforeMonth(m: int): int
  {
    29 * (m - 1) + m / 2
  }

  /** Month length with the leap flag given. */
  function MonthLength(leap: bool, m: int): int
  {
    if m % 2 == 1 then 30 else if m == 12 && leap then 30 else 29
  }

  /** A date valid under the cycle's own leap pattern. */
  predicate IsCycleValid(h: HijriDate)
  {
    1 <= h.month <= 12 && 1 <= h.day <= MonthLength(CycleLeap(h.year), h.month)
  }

  /** The leap rule: a year is a leap year iff it is positive and its cycle position is intercalary. */
  lemma LeapYearRule(year: int)
    ensures IsHijriLeapYear(year) <==>
      year >= 1 && (year - 1) % 30 + 1 in {2, 5, 7, 10, 13, 16, 18, 21, 24, 26, 29}
  {
    if year >= 1 {
      assert IntRem(year - 1, 30) == (year - 1) % 30;
    } else {
      assert IntRem(year - 1, 30) + 1 <= 1;
    }
  }

  /** From year one on, the engine's leap test follows the cycle pattern. */
  lemma LeapAgreesWithCycle(year: int)
    requires year >= 1
    ensures IsHijriLeapYear(year) <==> CycleLeap(year)
    ensures 1 <= CyclePosition(year) <= 30
  {
    assert IntRem(year - 1, 30) == (year - 1) % 30;
  }

  /** Each cycle year starts where the previous one ends. */
  lemma CycleYearStep(r: int)
    requires 1 <= r <= 30
    ensures DaysBeforeCycleYear(r + 1) == DaysBeforeCycleYear(r) + CycleYearLength(r)
  {
  }

  /** Each month starts where the previous one ends. */
  lemma MonthStep(leap: bool, m: int)
    requires 1 <= m <= 11
    ensures DaysBeforeMonth(m + 1) == DaysBeforeMonth(m) + MonthLength(leap, m)
  {
  }

  // ---------------------------------------------------------------------
  // The decoding formulas of JdToHijri
  // ---------------------------------------------------------------------

  lemma CycleYearFormula(l2: int)
    requires 355 <= l2 <= 10985
    ensures CycleYear(l2) == if l2 < 5670 then (50 * l2) / 17719 else (43 * l2) / 15238
  {
    assert FloorDiv(10985 - l2, 5316) == if l2 < 5670 then 1 else 0;
    assert FloorDiv(l2, 5670) == if l2 < 5670 then 0 else 1;
  }

  lemma YearDayCountFormula(l2: int, j: int)
    requires 1 <= j <= 30
    ensures YearDayCount(l2, j) == l2 - (if j <= 15 then (17719 * j) / 50 else (15238 * j) / 43) + 29
  {
    assert FloorDiv(30 - j, 15) == if j <= 15 then 1 else 0;
    assert FloorDiv(j, 16) == if j <= 15 then 0 else 1;
  }

  /** The year formula finds cycle year `r` for every day of that year. */
  lemma CycleYearDecode(r: int, doy: int)
    requires 1 <= r <= 30 && 1 <= doy <= CycleYearLength(r)
    ensures CycleYear(DaysBeforeCycleYear(r) + doy + 354) == r
    ensures YearDayCount(DaysBeforeCycleYear(r) + doy + 354, r) == doy + 29
  {
    var l2 := DaysBeforeCycleYear(r) + doy + 354;
    CycleYearFormula(l2);
    YearDayCountFormula(l2, r);
    if r <= 6 { YearsDecode1To6(r, doy); } else if r <= 12 { YearsDecode7To12(r, doy); } else if r <= 18 { YearsDecode13To18(r, doy); } else if r <= 24 { YearsDecode19To24(r, doy); } else { YearsDecode25To30(r, doy); }
  }

  lemma YearsDecode1To6(r: int, doy: int)
    requires 1 <= r <= 6 && 1 <= doy <= CycleYearLength(r)
    ensures var l2 := DaysBeforeCycleYear(r) + doy + 354;
      (if l2 < 5670 then (50 * l2) / 17719 else (43 * l2) / 15238) == r &&
      l2 - (if r <= 15 then (17719 * r) / 50 else (15238 * r) / 43) == doy
  {
    if r == 1 { } else if r == 2 { } else if r == 3 { } else if r == 4 { } else if r == 5 { } else { assert r == 6; }
  }

  lemma YearsDecode7To12(r: int, doy: int)
    requires 7 <= r <= 12 && 1 <= doy <= CycleYearLength(r)
    ensures var l2 := DaysBeforeCycleYear(r) + doy + 354;
      (if l2 < 5670 then (50 * l2) / 17719 else (43 * l2) / 15238) == r &&
      l2 - (if r <= 15 then (17719 * r) / 50 else (15238 * r) / 43) == doy
  {
    if r == 7 { } else if r == 8 { } else if r == 9 { } else if r == 10 { } else if r == 11 { } else { assert r == 12; }
  }

  lemma YearsDecode13To18(r: int, doy: int)
    requires 13 <= r <= 18 && 1 <= doy <= CycleYearLength(r)
    ensures var l2 := DaysBeforeCycleYear(r) + doy + 354;
      (if l2 < 5670 then (50 * l2) / 17719 else (43 * l2) / 15238) == r &&
      l2 - (if r <= 15 then (17719 * r) / 50 else (15238 * r) / 43) == doy
  {
    if r == 13 { } else if r == 14 { } else if r == 15 { } else if r == 16 { } else if r == 17 { } else { assert r == 18; }
  }

  lemma YearsDecode19To24(r: int, doy: int)
    requires 19 <= r <= 24 && 1 <= doy <= CycleYearLength(r)
    ensures var l2 := DaysBeforeCycleYear(r) + doy + 354;
      (if l2 < 5670 then (50 * l2) / 17719 else (43 * l2) / 15238) == r &&
      l2 - (if r <= 15 then (17719 * r) / 50 else (15238 * r) / 43) == doy
  {
    if r == 19 { } else if r == 20 { } else if r == 21 { } else if r == 22 { } else if r == 23 { } else { assert r == 24; }
  }

  lemma YearsDecode25To30(r: int, doy: int)
    requires 25 <= r <= 30 && 1 <= doy <= CycleYearLength(r)
    ensures var l2 := DaysBeforeCycleYear(r) + doy + 354;
      (if l2 < 5670 then (50 * l2) / 17719 else (43 * l2) / 15238) == r &&
      l2 - (if r <= 15 then (17719 * r) / 50 else (15238 * r) / 43) == doy
  {
    if r == 25 { } else if r == 26 { } else if r == 27 { } else if r == 28 { } else if r == 29 { } else { assert r == 30; }
  }

  /** The month formula finds month `m` and day `d`. */
  lemma MonthDecode(leap: bool, m: int, d: int)
    requires 1 <= m <= 12 && 1 <= d <= MonthLength(leap, m)
    ensures MonthOfDayCount(DaysBeforeMonth(m) + d + 29) == m
    ensures DayOfDayCount(DaysBeforeMonth(m) + d + 29) == d
  {
  }

  /** A day of a year falls within one month of it. */
  lemma MonthsFillYear(leap: bool, m: int)
    requires 1 <= m <= 12
    ensures 0 <= DaysBeforeMonth(m)
    ensures DaysBeforeMonth(m) + MonthLength(leap, m) <= if leap then 355 else 354
  {
  }

  // ---------------------------------------------------------------------
  // Day numbers as cycles, years and days
  // ---------------------------------------------------------------------

  /** The day-number formula, regrouped into whole cycles, the years before `year` in its cycle and the days before the date in its year. */
  lemma HijriDayNumber(year: int, month: int, day: int)
    requires 1 <= month <= 12
    ensures HijriToJD(year, month, day) ==
      10631 * ((year - 1) / 30) + DaysBeforeCycleYear(CyclePosition(year)) + DaysBeforeMonth(month) + day + 1948439
  {
    var k, r := (year - 1) / 30, CyclePosition(year);
    assert year == 30 * k + r;
    var f := (11 * r + 3) / 30;
    DivModUnique(11 * year + 3, 30, 11 * k + f, (11 * r + 3) % 30);
    assert (month - 1) / 2 + month / 2 == month - 1;
  }

  /** `JdToHijri` splits a midnight Julian Day into its cycle `k` and day `t` (1..10631) of that cycle. */
  lemma DecodeCycleDay(k: int, t: int)
    requires 1 <= t <= 10631
    ensures var l2 := t + 354; var l3 := YearDayCount(l2, CycleYear(l2));
      JdToHijri((10631 * k + t + 1948439) as real - 0.5)
        == HijriDate(30 * k + CycleYear(l2), MonthOfDayCount(l3), DayOfDayCount(l3))
  {
    var jdn := 10631 * k + t + 1948439;
    assert (jdn as real - 0.5).Floor == jdn - 1;
    var l := jdn - 1948440 + 10632;
    assert l - 1 == 10631 * (k + 1) + (t - 1);
    DivModUnique(l - 1, 10631, k + 1, t - 1);
  }

  /** The day number of a date `d` days into month `m` of cycle year `r` of cycle `k` decodes to that date. */
  lemma DecodeDayNumber(k: int, r: int, m: int, d: int)
    requires 1 <= r <= 30 && 1 <= m <= 12 && 1 <= d <= MonthLength(r in INTERCALARY, m)
    ensures JdToHijri((10631 * k + DaysBeforeCycleYear(r) + DaysBeforeMonth(m) + d + 1948439) as real - 0.5)
      == HijriDate(30 * k + r, m, d)
  {
    var doy := DaysBeforeMonth(m) + d;
    var t := DaysBeforeCycleYear(r) + doy;
    assert 1 <= doy <= CycleYearLength(r) by {
      MonthsFillYear(r in INTERCALARY, m);
    }
    assert 1 <= t <= 10631 by {
      CycleYearStep(r);
      if r < 30 { CycleYearsIncrease(r + 1, 31); }
    }
    CycleYearDecode(r, doy);
    MonthDecode(r in INTERCALARY, m, d);
    DecodeCycleDayAs(k, t, r, doy + 29, m, d);
  }

  /** `DecodeCycleDay` with the year and month formulas already evaluated. */
  lemma DecodeCycleDayAs(k: int, t: int, r: int, l3: int, m: int, d: int)
    requires 1 <= t <= 10631
    requires CycleYear(t + 354) == r && YearDayCount(t + 354, r) == l3
    requires MonthOfDayCount(l3) == m && DayOfDayCount(l3) == d
    ensures JdToHijri((10631 * k + t + 1948439) as real - 0.5) == HijriDate(30 * k + r, m, d)
  {
    DecodeCycleDay(k, t);
  }

  lemma {:induction false} CycleYearsIncrease(r: int, s: int)
    requires 1 <= r <= s <= 31
    ensures DaysBeforeCycleYear(r) <= DaysBeforeCycleYear(s)
    decreases s - r
  {
    if r < s {
      CycleYearStep(r);
      CycleYearsIncrease(r + 1, s);
    }
  }

  /** The cycle year that day `t` (1..10631) of a cycle falls in. */
  lemma FindCycleYear(t: int) returns (r: int)
    requires 1 <= t <= 10631
    ensures 1 <= r <= 30
    ensures DaysBeforeCycleYear(r) < t <= DaysBeforeCycleYear(r) + CycleYearLength(r)
  {
    r := 1;
    while DaysBeforeCycleYear(r) + CycleYearLength(r) < t
      invariant 1 <= r <= 30
      invariant DaysBeforeCycleYear(r) < t
      decreases 30 - r
    {
      CycleYearStep(r);
      if r == 30 {
        assert false;
      }
      r := r + 1;
    }
  }

  /** The month that day `doy` of a year falls in. */
  lemma FindMonth(leap: bool, doy: int) returns (m: int)
    requires 1 <= doy <= if leap then 355 else 354
    ensures 1 <= m <= 12
    ensures DaysBeforeMonth(m) < doy <= DaysBeforeMonth(m) + MonthLength(leap, m)
  {
    m := 1;
    while DaysBeforeMonth(m) + MonthLength(leap, m) < doy
      invariant 1 <= m <= 12
      invariant DaysBeforeMonth(m) < doy
      decreases 12 - m
    {
      if m == 12 {
        assert false;
      }
      MonthStep(leap, m);
      m := m + 1;
    }
  }

  // ---------------------------------------------------------------------
  // Round trips
  // ---------------------------------------------------------------------

  /** Every date valid under the cycle pattern survives Hijri -> day number -> Hijri. */
  lemma CycleRoundTrip(h: HijriDate)
    requires IsCycleValid(h)
    ensures JdToHijri(HijriToJD(h.year, h.month, h.day) as real - 0.5) == h
  {
    HijriDayNumber(h.year, h.month, h.day);
    DecodeDayNumber((h.year - 1) / 30, CyclePosition(h.year), h.month, h.day);
  }

  /** From year one on, the engine's validity is validity under the cycle pattern. */
  lemma ValidityAgrees(h: HijriDate)
    requires h.year >= 1
    ensures IsValidHijri(h) <==> IsCycleValid(h)
  {
    LeapAgreesWithCycle(h.year);
    if 1 <= h.month <= 12 {
      assert IntRem(h.month, 2) == h.month % 2;
    }
  }

  /** Hijri -> Julian Day -> Hijri is the identity on valid dates from year one on (the Julian Day taken at midnight, x.5 below the day number). */
  lemma HijriRoundTrip(h: HijriDate)
    requires h.year >= 1 && IsValidHijri(h)
    ensures JdToHijri(HijriToJD(h.year, h.month, h.day) as real - 0.5) == h
  {
    ValidityAgrees(h);
    CycleRoundTrip(h);
  }

  /** Every day number is some cycle-valid date's day number. */
  lemma SplitDayNumber(jdn: int) returns (h: HijriDate)
    ensures IsCycleValid(h)
    ensures jdn == 10631 * ((h.year - 1) / 30) + DaysBeforeCycleYear(CyclePosition(h.year))
      + DaysBeforeMonth(h.month) + h.day + 1948439
  {
    var k := (jdn - 1948440) / 10631;
    var t := jdn - 1948439 - 10631 * k;
    var r := FindCycleYear(t);
    var m := FindMonth(r in INTERCALARY, t - DaysBeforeCycleYear(r));
    h := HijriDate(30 * k + r, m, t - DaysBeforeCycleYear(r) - DaysBeforeMonth(m));
    DivModUnique(h.year - 1, 30, k, r - 1);
  }

  /** `JdToHijri` only looks at the day `jd` falls in. */
  lemma JdToHijriDependsOnDay(jd: real, jd': real)
    requires jd.Floor == jd'.Floor
    ensures JdToHijri(jd) == JdToHijri(jd')
  {
  }

  /** Midnight Julian Day -> Hijri -> day number is the identity on day numbers. */
  lemma DayNumberRoundTrip(jdn: int)
    ensures var h := JdToHijri(jdn as real - 0.5);
      HijriToJD(h.year, h.month, h.day) == jdn && IsCycleValid(h)
  {
    var h := SplitDayNumber(jdn);
    HijriDayNumber(h.year, h.month, h.day);
    CycleRoundTrip(h);
  }

  /**
   * Julian Day -> Hijri -> day number recovers the day number that `jd` lies in,
   * for every `jd`, and the date is valid (under the engine's own rule from year one on).
   */
  lemma JdToHijriInverse(jd: real)
    ensures var h := JdToHijri(jd);
      HijriToJD(h.year, h.month, h.day) == jd.Floor + 1 &&
      IsCycleValid(h) && (h.year >= 1 ==> IsValidHijri(h))
  {
    var jdn := jd.Floor + 1;
    JdToHijriDependsOnDay(jd, jdn as real - 0.5);
    DayNumberRoundTrip(jdn);
    var h := JdToHijri(jd);
    if h.year >= 1 {
      ValidityAgrees(h);
    }
  }

  // ---------------------------------------------------------------------
  // Lengths and the successor law
  // ---------------------------------------------------------------------

  /** Consecutive months start `HijriMonthLength` days apart (months 1..11, every year). */
  lemma MonthStart(year: int, month: int)
    requires 1 <= month <= 11
    ensures HijriToJD(year, month + 1, 1) == HijriToJD(year, month, 1) + HijriMonthLength(year, month)
  {
    HijriDayNumber(year, month, 1);
    HijriDayNumber(year, month + 1, 1);
    assert IntRem(month, 2) == month % 2;
    MonthStep(false, month);
  }

  /** Consecutive years start 354 or 355 days apart, following the cycle pattern. */
  lemma YearStart(year: int)
    ensures HijriToJD(year + 1, 1, 1) == HijriToJD(year, 1, 1) + CycleYearLength(CyclePosition(year))
  {
    HijriDayNumber(year, 1, 1);
    HijriDayNumber(year + 1, 1, 1);
    var k, r := (year - 1) / 30, CyclePosition(year);
    CycleYearStep(r);
    if r < 30 {
      DivModUnique(year, 30, k, r);
    } else {
      DivModUnique(year, 30, k + 1, 0);
    }
  }

  /** Days in months 1..n of `year`. */
  function MonthsTotal(year: int, n: int): int
    requires 0 <= n <= 12
  {
    if n == 0 then 0 else MonthsTotal(year, n - 1) + HijriMonthLength(year, n)
  }

  /** Month `month` starts after the lengths of the months before it. */
  lemma {:induction false} MonthStartsAfterEarlierMonths(year: int, month: int)
    requires 1 <= month <= 12
    ensures HijriToJD(year, month, 1) == HijriToJD(year, 1, 1) + MonthsTotal(year, month - 1)
  {
    if month > 1 {
      MonthStartsAfterEarlierMonths(year, month - 1);
      MonthStart(year, month - 1);
    }
  }

  /**
   * The months of a year (from year one on) add up to its length, and the next
   * year starts that many days later.
   */
  lemma YearLengthMatchesDayNumbers(year: int)
    requires year >= 1
    ensures HijriToJD(year + 1, 1, 1) == HijriToJD(year, 1, 1) + HijriYearLength(year)
    ensures MonthsTotal(year, 12) == HijriYearLength(year)
  {
    YearStart(year);
    LeapAgreesWithCycle(year);
    MonthStartsAfterEarlierMonths(year, 12);
    HijriDayNumber(year, 12, 1);
    assert IntRem(12, 2) == 0;
  }

  /** `NextHijriDay` is one day later by the day-number formula. */
  lemma SuccessorLaw(h: HijriDate)
    requires h.year >= 1 && IsValidHijri(h)
    ensures HijriToJD(NextHijriDay(h).year, NextHijriDay(h).month, NextHijriDay(h).day)
      == HijriToJD(h.year, h.month, h.day) + 1
  {
    if h.day < HijriMonthLength(h.year, h.month) {
    } else if h.month < 12 {
      MonthStart(h.year, h.month);
    } else {
      YearLengthMatchesDayNumbers(h.year);
      MonthStartsAfterEarlierMonths(h.year, 12);
    }
  }

  /**
   * Passing the whole day number itself (rather than the midnight value x.5 below it)
   * yields the following day.
   */
  lemma WholeDayNumberGivesNextDay(h: HijriDate)
    requires h.year >= 1 && IsValidHijri(h)
    ensures JdToHijri(HijriToJD(h.year, h.month, h.day) as real) == NextHijriDay(h)
  {
    var n := NextHijriDay(h);
    SuccessorLaw(h);
    HijriRoundTrip(n);
    var jdn := HijriToJD(h.year, h.month, h.day);
    JdToHijriDependsOnDay(jdn as real, (jdn + 1) as real - 0.5);
  }
}

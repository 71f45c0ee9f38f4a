/**
 * The Hijri calendar engine: the tabular (civil, 30-year cycle) Islamic
 * calendar, Julian Day conversions for it and for the Gregorian calendar
 * (the Meeus algorithm), day of week, and the day-count adjustment that
 * shifts both conversion directions.
 *
 * Julian Days are `real` here, as in the engine: `GregorianToJD` yields the
 * Meeus "x.5" value, `HijriToJD` yields a whole day number, and `JdToHijri`
 * floors its argument and adds one.
 */
module HijriEngine {
  import opened JsNumbers

  datatype HijriDate = HijriDate(year: int, month: int, day: int)
  datatype GregorianDate = GregorianDate(year: int, month: int, day: int)

  /** Positions of the 355-day years within each 30-year cycle. */
  const INTERCALARY: seq<int> := [2, 5, 7, 10, 13, 16, 18, 21, 24, 26, 29]

  /** Last day number on which the reverse Gregorian conversion still uses the Julian calendar, plus one. */
  const REFORM_DAY_NUMBER: int := 2299161

  // ---------------------------------------------------------------------
  // Leap years and lengths
  // ---------------------------------------------------------------------

  /** The position of `year` in its cycle (computed with JavaScript's truncating `%`) is intercalary. */
  predicate IsHijriLeapYear(year: int)
  {
    IntRem(year - 1, 30) + 1 in INTERCALARY
  }

  /** Days in Hijri month `month` of `year`; 0 for a month outside 1..12. */
  function HijriMonthLength(year: int, month: int): (r: int)
    ensures r == 0 <==> month < 1 || month > 12
    ensures 1 <= month <= 12 ==> 29 <= r <= 30
    ensures r == 30 <==> 1 <= month <= 12 && (month % 2 == 1 || (month == 12 && IsHijriLeapYear(year)))
  {
    if month < 1 || month > 12 then 0
    else if IntRem(month, 2) == 1 then 30
    else if month == 12 && IsHijriLeapYear(year) then 30
    else 29
  }

  /** Days in Hijri year `year`. */
  function HijriYearLength(year: int): (r: int)
    ensures r == 354 || r == 355
    ensures r == 355 <==> IsHijriLeapYear(year)
  {
    if IsHijriLeapYear(year) then 355 else 354
  }

  /** A date whose month is 1..12 and whose day lies within that month. */
  predicate IsValidHijri(h: HijriDate)
  {
    1 <= h.month <= 12 && 1 <= h.day <= HijriMonthLength(h.year, h.month)
  }

  /** The date after `h` in the tabular calendar. */
  function NextHijriDay(h: HijriDate): (r: HijriDate)
    requires IsValidHijri(h)
    ensures IsValidHijri(r)
  {
    if h.day < HijriMonthLength(h.year, h.month) then HijriDate(h.year, h.month, h.day + 1)
    else if h.month < 12 then HijriDate(h.year, h.month + 1, 1)
    else HijriDate(h.year + 1, 1, 1)
  }

  // ---------------------------------------------------------------------
  // Hijri <-> Julian Day
  // ---------------------------------------------------------------------

  /** Whole Julian day number of a Hijri date. */
  function HijriToJD(year: int, month: int, day: int): int
  {
    FloorDiv(11 * year + 3, 30) + 354 * year + 30 * month - FloorDiv(month - 1, 2) + day + 1948440 - 385
  }

  /** Position (1..30) of the year within its cycle, from the cycle day count `l2` (355..10985). */
  function CycleYear(l2: int): int
  {
    FloorDiv(10985 - l2, 5316) * FloorDiv(50 * l2, 17719) + FloorDiv(l2, 5670) * FloorDiv(43 * l2, 15238)
  }

  /** Day count from the start of cycle year `j`, offset by 29. */
  function YearDayCount(l2: int, j: int): int
  {
    l2 - FloorDiv(30 - j, 15) * FloorDiv(17719 * j, 50) - FloorDiv(j, 16) * FloorDiv(15238 * j, 43) + 29
  }

  /** Month and day of a year-day count produced by `YearDayCount`. */
  function MonthOfDayCount(l3: int): int
  {
    FloorDiv(24 * l3, 709)
  }

  function DayOfDayCount(l3: int): int
  {
    l3 - FloorDiv(709 * MonthOfDayCount(l3), 24)
  }

  /** The Hijri date of Julian Day `jd`, read as the day that starts at the preceding midnight plus one. */
  function JdToHijri(jd: real): HijriDate
  {
    var jdn := jd.Floor + 1;
    var l := jdn - 1948440 + 10632;
    var n := FloorDiv(l - 1, 10631);
    var l2 := l - 10631 * n + 354;
    var j := CycleYear(l2);
    var l3 := YearDayCount(l2, j);
    HijriDate(30 * n + j - 30, MonthOfDayCount(l3), DayOfDayCount(l3))
  }

  // ---------------------------------------------------------------------
  // Gregorian <-> Julian Day (Meeus)
  // ---------------------------------------------------------------------

  predicate IsGregorianLeapYear(year: int)
  {
    year % 4 == 0 && (year % 100 != 0 || year % 400 == 0)
  }

  function GregorianMonthLength(year: int, month: int): int
  {
    if month == 2 then (if IsGregorianLeapYear(year) then 29 else 28)
    else if month == 4 || month == 6 || month == 9 || month == 11 then 30
    else 31
  }

  predicate IsValidGregorian(g: GregorianDate)
  {
    1 <= g.month <= 12 && 1 <= g.day <= GregorianMonthLength(g.year, g.month)
  }

  /** On or after 15 October 1582, the first day of the Gregorian calendar. */
  predicate OnOrAfterReform(g: GregorianDate)
  {
    g.year > 1582 || (g.year == 1582 && (g.month > 10 || (g.month == 10 && g.day >= 15)))
  }

  /** Year counted from March (January and February belong to the previous year). */
  function MarchYear(year: int, month: int): int
  {
    if month <= 2 then year - 1 else year
  }

  /** Month counted from March (3..14). */
  function MarchMonth(month: int): int
  {
    if month <= 2 then month + 12 else month
  }

  /** The Gregorian century term B = 2 - A + floor(A / 4), A = floor(year / 100). */
  function CenturyTerm(marchYear: int): int
  {
    var a := FloorDiv(marchYear, 100);
    2 - a + FloorDiv(a, 4)
  }

  /** Julian Day (at 0h, an "x.5" value) of a Gregorian date; the century term is always applied. */
  function GregorianToJD(year: int, month: int, day: int): real
  {
    var y := MarchYear(year, month);
    var m := MarchMonth(month);
    (365.25 * ((y + 4716) as real)).Floor as real + (30.6001 * ((m + 1) as real)).Floor as real
      + day as real + CenturyTerm(y) as real - 1524.5
  }

  /** The Julian-calendar day number that `z` stands for; the century correction only from the reform on. */
  function JulianDayCount(z: int): int
  {
    var alpha := ((z as real - 1867216.25) / 36524.25).Floor;
    if z < REFORM_DAY_NUMBER then z else z + 1 + alpha - FloorDiv(alpha, 4)
  }

  /** Calendar date of the Julian-calendar day count `b` (= JulianDayCount + 1524). */
  function DateOfDayCount(b: int): GregorianDate
  {
    var c := ((b as real - 122.1) / 365.25).Floor;
    var d := (365.25 * (c as real)).Floor;
    var e := ((b - d) as real / 30.6001).Floor;
    var day := b - d - (30.6001 * (e as real)).Floor;
    var month := if e < 14 then e - 1 else e - 13;
    var year := if month > 2 then c - 4716 else c - 4715;
    GregorianDate(year, month, day)
  }

  /** Gregorian date (Julian calendar before the reform) of Julian Day `jd`. */
  function JdToGregorian(jd: real): GregorianDate
  {
    var z := (jd + 0.5).Floor;
    DateOfDayCount(JulianDayCount(z) + 1524)
  }

  // ---------------------------------------------------------------------
  // High-level conversions, parameterised by the adjustment setting
  // ---------------------------------------------------------------------

  /** Hijri date of a Gregorian date, `adjustment` days later. */
  function GregorianToHijri(g: GregorianDate, adjustment: int): HijriDate
  {
    JdToHijri(GregorianToJD(g.year, g.month, g.day) + adjustment as real)
  }

  /** Gregorian date of a Hijri date, `adjustment` days earlier. */
  function HijriToGregorian(h: HijriDate, adjustment: int): GregorianDate
  {
    JdToGregorian((HijriToJD(h.year, h.month, h.day) - adjustment) as real)
  }

  /** Day of week (0 = Sunday) of a Hijri date: floor(jd + 1.5) % 7 with JavaScript's `%`. */
  function GetDayOfWeek(h: HijriDate, adjustment: int): (r: int)
    ensures HijriToJD(h.year, h.month, h.day) - adjustment + 1 >= 0 ==> 0 <= r < 7
  {
    var jd := (HijriToJD(h.year, h.month, h.day) - adjustment) as real;
    IntRem((jd + 1.5).Floor, 7)
  }

  /**
   * The process-wide adjustment setting. `SetAdjustment` receives the result of
   * `parseInt` on its argument (`None` when that is NaN).
   */
  class AdjustmentSetting {
    var adjustment: int

    constructor ()
      ensures adjustment == 0
    {
      adjustment := 0;
    }

    method SetAdjustment(parsed: Option<int>)
      modifies this
      ensures parsed.Some? ==> adjustment == parsed.value
      ensures parsed.None? ==> adjustment == 0
    {
      adjustment := if parsed.Some? then parsed.value else 0;
    }
  }

  // ---------------------------------------------------------------------
  // Localised name lookup
  // ---------------------------------------------------------------------

  /**
   * The name of month `month` (1-based) in language `lang`, falling back to the
   * English table for a language without one, and to "" for a month outside the table.
   */
  function GetMonthName(tables: map<string, seq<string>>, month: int, lang: string): (r: string)
    requires "en" in tables
    ensures var names := if lang in tables then tables[lang] else tables["en"];
      (1 <= month <= |names| ==> r == names[month - 1]) && (month < 1 || month > |names| ==> r == "")
  {
    var names := if lang in tables then tables[lang] else tables["en"];
    if 1 <= month <= |names| then names[month - 1] else ""
  }
}

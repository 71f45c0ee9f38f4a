# Islamic calendar, prayer times and city lookup: a Dafny model

This project models the deterministic core of an Islamic calendar and prayer-times
web app / browser extension, and proves properties of it. The core has four parts:

- **The Hijri engine** (`hijri.dfy`, module `HijriEngine`). It implements:
  - the tabular civil Islamic calendar (30-year cycle with 11 intercalary years);
  - its Julian Day conversions in both directions;
  - the Meeus Gregorian ↔ Julian Day conversions;
  - day of week;
  - the day-count `adjustment` setting that shifts both conversion directions.

  The proofs are in `hijri_laws.dfy` (module `HijriLaws`) and `gregorian_laws.dfy` (module `GregorianLaws`):
  - leap rule, month and year lengths;
  - successor law and round trips;
  - the "+1 day" of feeding a whole day number back in;
  - the Gregorian round trip from the calendar reform on, and the pre-reform counterexample;
  - the shift caused by the adjustment;
  - day-of-week laws.
- **Prayer-time post-processing** (`prayer_times.dfy`, module `PrayerTimes`):
  - hour/angle normalisation;
  - the undefined-time guard and direction rule of the sun-angle time;
  - the calculation-method and Asr-school tables with their fallbacks;
  - the Isha branch and the derived Sehri and Tahajjud times;
  - the `_raw` table;
  - 24h/12h formatting, the next-prayer scan and the countdown text.
- **App state and helpers** (`app.dfy`, module `App`). An `AppState` class holds the handlers' state and its methods:
  - month navigation with year rollover;
  - clamping of the time-adjustment fields, and shifting and reformatting of a prayer table;
  - the notification de-duplication state;
  - compass-heading smoothing;
  - the calendar-grid layout.

  Besides the class there are the timezone estimate from longitude and the zakat formula.
- **The city database** (`cities.dfy`, module `CityDatabase`):
  - the 68-city table and its region names;
  - the nearest-city scan, substring search, lookup by id with a Mecca fallback, and grouping by region.

`js_numbers.dfy` (module `JsNumbers`) gives JavaScript's numeric and string behaviour in exact terms:
- `Math.floor` of a quotient;
- the truncating `%` on integers and on reals;
- `Math.round` as floor(x + 1/2);
- decimal rendering and `padStart(2, '0')`;
- NaN as `None` of an `Option`.

Numbers are exact `real`s. The decimal constants of the Meeus algorithm are taken as the exact rationals they denote: 30.6001, 122.1, 365.25 and 36524.25.

Inputs that come from outside the core are parameters:
- **Astronomical quantities** are function-valued fields of a `Sky` record:
  - the equation of time;
  - the cosine ratio for a depression angle;
  - the Asr shadow ratio;
  - the arccos-based hour angle.
- **The current time** is a decimal hour, and "today" is a date.
- **Stored settings** are `Option` values.
- **Parsed form fields** are `Option` values, `None` for NaN.

## Model

| member | source | states |
|---|---|---|
| HijriEngine.HijriMonthLength | hijri.js:124-131 | 0 exactly for a month outside 1..12; otherwise 29 or 30, and 30 exactly for odd months and for month 12 of a leap year |
| HijriEngine.HijriYearLength | hijri.js:133-135 | 354 or 355, and 355 exactly in a leap year |
| HijriEngine.NextHijriDay | hijri.js:124-131 | the day after a valid date is valid (day+1, else first of next month, else 1 Muharram of next year) |
| HijriEngine.GetDayOfWeek | hijri.js:226-230 | the weekday floor(jd + 1.5) % 7 lies in 0..6 whenever the day number is not negative |
| HijriEngine.AdjustmentSetting.constructor | hijri.js:115 | the adjustment starts at 0 |
| HijriEngine.AdjustmentSetting.SetAdjustment | hijri.js:237-239 | stores the integer parse of the argument, or 0 when the parse is NaN |
| HijriEngine.GetMonthName | hijri.js:212-215 | the name from the language's table (the English one for an unknown language), "" for a month outside the table |
| HijriEngine.IsHijriLeapYear | hijri.js:120-122 | the leap test with JavaScript's truncating `%`; `HijriLaws.LeapYearRule` and `HijriLaws.LeapAgreesWithCycle` prove that from year 1 on it holds exactly at cycle positions 2, 5, 7, 10, 13, 16, 18, 21, 24, 26, 29 |
| HijriEngine.HijriToJD | hijri.js:141-147 | the whole day number of a Hijri date; `HijriLaws.HijriDayNumber`, `MonthStart` and `YearStart` prove it counts the days of the earlier cycles, years and months, and `HijriLaws.HijriRoundTrip` that `JdToHijri` inverts it on valid dates |
| HijriEngine.JdToHijri | hijri.js:149-166 | the Hijri date of floor(jd) + 1; `HijriLaws.JdToHijriInverse` proves the result valid with that day number, `HijriLaws.DayNumberRoundTrip` that `HijriToJD` inverts it, `HijriLaws.JdToHijriDependsOnDay` that only floor(jd) matters |
| HijriEngine.GregorianToJD | hijri.js:169-179 | the Meeus Julian Day; `GregorianLaws.GregorianToJDIsMidnight` proves it is the whole day number − 0.5, and `GregorianLaws.GregorianRoundTrip` that `JdToGregorian` inverts it from 15 October 1582 on |
| HijriEngine.JdToGregorian | hijri.js:181-196 | the date of floor(jd + 0.5), Julian before day 2299161; `GregorianLaws.JdToGregorianDependsOnDay`, `DateOfDayCountDecode` and `GregorianRoundTrip` specify it, `PreReformDatesDoNotRoundTrip` shows the pre-reform mismatch |
| HijriEngine.GregorianToHijri | hijri.js:200-204 | the Hijri date `adjustment` days after the Gregorian one; `GregorianLaws.AdjustedDayNumber` proves its day number is the Gregorian day number plus the adjustment, `GregorianLaws.AdjustmentShiftsDays` that the adjustment shifts by whole days |
| HijriEngine.HijriToGregorian | hijri.js:206-210 | the Gregorian date `adjustment` days before the Hijri one; `GregorianLaws.ConversionRoundTrip` proves it undoes `GregorianToHijri` for every valid date from the reform on and every adjustment |
| HijriLaws.LeapYearRule | hijri.js:118-122 | for year ≥ 1: leap exactly when ((year − 1) mod 30) + 1 is one of 2, 5, 7, 10, 13, 16, 18, 21, 24, 26, 29 |
| HijriLaws.LeapAgreesWithCycle | hijri.js:118-122 | for year ≥ 1 the truncating-`%` leap test agrees with the cycle position (1..30) of the year |
| HijriLaws.ValidityAgrees | hijri.js:124-131 | for year ≥ 1 a date is valid under the month-length rules exactly when it is valid in the 30-year cycle description |
| HijriLaws.HijriDayNumber | hijri.js:141-147 | for a valid date with year ≥ 1, the day number is the count of cycles, years, months and days before it plus the epoch |
| HijriLaws.CycleRoundTrip | hijri.js:141-166 | converting a cycle-valid date to its day number and back (at the preceding midnight, − 0.5) gives the date again |
| HijriLaws.HijriRoundTrip | hijri.js:141-166 | the same round trip for every valid date with year ≥ 1 |
| HijriLaws.SplitDayNumber | hijri.js:149-166 | every day number is the day number of some cycle-valid date (decomposition into cycle, year, month, day) |
| HijriLaws.DayNumberRoundTrip | hijri.js:141-166 | converting any day number to a date and back gives the day number; the date is valid |
| HijriLaws.JdToHijriInverse | hijri.js:149-166 | every Julian Day maps to a cycle-valid date whose day number is floor(jd) + 1; from year 1 on the date is also valid under the month-length rules |
| HijriLaws.JdToHijriDependsOnDay | hijri.js:149-150 | two Julian Days with the same floor give the same date |
| HijriLaws.MonthStart | hijri.js:124-147 | the next month starts exactly `hijriMonthLength` days after this one (months 1..11) |
| HijriLaws.YearStart | hijri.js:141-147 | the next year starts a cycle-year length (354 or 355) after this one |
| HijriLaws.MonthStartsAfterEarlierMonths | hijri.js:124-147 | the first of a month is the first of the year plus the lengths of the earlier months |
| HijriLaws.YearLengthMatchesDayNumbers | hijri.js:124-147 | months 1..12 add up to `hijriYearLength`, and the next year starts that many days later |
| HijriLaws.SuccessorLaw | hijri.js:118-147 | for year ≥ 1 the day number of the next day is one more, across month and year ends |
| HijriLaws.WholeDayNumberGivesNextDay | hijri.js:141-166 | feeding the whole day number itself back (without − 0.5) gives the next day, because of the floor + 1 |
| GregorianLaws.GregorianToJDIsMidnight | hijri.js:169-179 | the Meeus Julian Day of a Gregorian date is its whole day number minus 0.5 |
| GregorianLaws.ReformBound | hijri.js:181-184 | a date on or after 15 October 1582 has a day number of at least 2299161, the reform test's bound |
| GregorianLaws.CenturyCorrection | hijri.js:169-186 | from the reform on, the reverse conversion's century correction undoes the forward one |
| GregorianLaws.DateOfDayCountDecode | hijri.js:187-196 | the reverse conversion's day/month/year decoding recovers a valid date from its March-based day count |
| GregorianLaws.JdToGregorianDependsOnDay | hijri.js:181-183 | two Julian Days with the same floor(jd + 0.5) give the same date |
| GregorianLaws.GregorianRoundTrip | hijri.js:169-197 | every valid Gregorian date on or after 15 October 1582 converts to a Julian Day and back to itself |
| GregorianLaws.PreReformDatesDoNotRoundTrip | hijri.js:169-197 | 4 October 1582 comes back as 24 September 1582: the century term is applied one way only |
| GregorianLaws.AdjustedDayNumber | hijri.js:200-204 | the Hijri date shown for a Gregorian date has the Gregorian day number plus the adjustment |
| GregorianLaws.ConversionRoundTrip | hijri.js:200-210 | for any adjustment, converting a post-reform Gregorian date to Hijri and back gives the date again |
| GregorianLaws.AdjustmentShiftsDays | hijri.js:200-204 | with adjustment a, a date gets the zero-adjustment Hijri date of the date a days later |
| GregorianLaws.DayOfWeekFromDayNumber | hijri.js:226-230 | the weekday is (day number − adjustment + 1) mod 7, JavaScript remainder |
| GregorianLaws.DayOfWeekOfShownDate | hijri.js:200-230 | the weekday of the Hijri date shown for a Gregorian date is (its day number + 1) mod 7, 0 = Sunday |
| GregorianLaws.DayOfWeekAdvances | hijri.js:226-230 | from one valid Hijri day to the next the weekday advances by one, modulo 7 |
| GregorianLaws.DayOfWeekAnchor | hijri.js:141-230 | 1 Muharram 1446 is day 2460500, a Monday, 8 July 2024 |
| PrayerTimes.Wrap | prayer-times.js:37 | the wrapped value lies in [0, n) and is x minus a whole number of n |
| PrayerTimes.FixHour | prayer-times.js:37 | the result lies in [0, 24) and is h minus a whole number of days |
| PrayerTimes.FixAngle | prayer-times.js:62 | the result lies in [0, 360) and is a minus a whole number of turns |
| PrayerTimes.MethodFor | prayer-times.js:94 | the method of a known key; MWL for an unknown key |
| PrayerTimes.AsrFactor | prayer-times.js:95 | the shadow factor of a known school; 1 for an unknown school |
| PrayerTimes.OnlyMakkahUsesFixedIsha | prayer-times.js:14-20 | only "makkah" has a positive Isha interval, and it is 1.5 hours |
| PrayerTimes.Plus | prayer-times.js:131 | NaN propagates through adding a number; otherwise the difference is exactly that number |
| PrayerTimes.SunAngleTime | prayer-times.js:69-79 | NaN exactly when the ratio is outside [−1, 1]; otherwise 12 − H for "ccw" and 12 + H for any other direction |
| PrayerTimes.SunAngleSymmetric | prayer-times.js:69-79 | the two directions lie symmetrically around noon (they add up to 24) |
| PrayerTimes.AsrTime | prayer-times.js:81-90 | NaN exactly when the shadow ratio is outside [−1, 1]; otherwise the hour angle |
| PrayerTimes.ClockFaceOf | prayer-times.js:160-168 | hour in 0..23 is the floor, minute in 0..60 is the rounded fraction, 12-hour value in 1..12 congruent to the hour, PM exactly from 12 |
| PrayerTimes.TwoFieldText | prayer-times.js:163-169 | five characters "hh:mm" whose digit fields read back as hour and minute |
| PrayerTimes.TwelveHourText | prayer-times.js:167-169 | the 12-hour hour, the minute field of the 24-hour text, and " AM"/" PM" |
| PrayerTimes.FormatTime | prayer-times.js:158-170 | blank exactly for NaN; otherwise the normalised decimal and the 24h/12h texts of its clock face |
| PrayerTimes.MinuteSixtyIsNotCarried | prayer-times.js:162-164 | 5.995 h is shown as "05:60": the rounded minute is not carried |
| PrayerTimes.TahajjudTime | prayer-times.js:136-137 | NaN exactly when Fajr or Maghrib is; otherwise Maghrib plus two thirds of the night span, in [Maghrib, Maghrib + 16) |
| PrayerTimes.NightIsWrappedSpan | prayer-times.js:136 | the truncating remainder (f + 24 − m) % 24 is the normalised hour of f − m |
| PrayerTimes.ComputeTimes | prayer-times.js:93-137 | each derived instant from the inputs and the method: Dhuhr from the equation of time; Fajr (method angle) and Sunrise (0.833°) the hour angle before Dhuhr, NaN exactly when that angle's cosine is out of range; Maghrib (0.833°) and Asr (school factor) the hour angle after it, so Sunrise and Maghrib lie symmetrically about Dhuhr; the Isha branch (fixed minutes after Maghrib or the method angle); Sehri = Fajr − 10 min; the Tahajjud rule |
| PrayerTimes.RawOf | prayer-times.js:139-148 | `_raw` has exactly the eight prayers, each with its unformatted value |
| PrayerTimes.Calculate | prayer-times.js:93-150 | the raw table of the computed times, and each shown entry is the formatted raw value |
| PrayerTimes.ScanPosition | prayer-times.js:173-182 | position of a prayer in the scan order; 7 exactly for Tahajjud |
| PrayerTimes.FirstLater | prayer-times.js:176-180 | the first position whose raw time is later than now; none earlier is |
| PrayerTimes.GetNextPrayer | prayer-times.js:172-186 | the first later prayer in scan order, or Tahajjud if later, or else tomorrow's Sehri at Sehri + 24, and only then `tomorrow` |
| PrayerTimes.CountdownSpan | prayer-times.js:189-190 | target − current, plus 24 when negative; not negative within a day |
| PrayerTimes.CountdownOf | prayer-times.js:191-193 | minutes and seconds in 0..59, and h·3600 + m·60 + s ≤ diff·3600 < that + 1 |
| PrayerTimes.FormatCountdown | prayer-times.js:188-195 | "<h>h <mm>m <ss>s" with two-digit minutes and seconds; "NaNh NaNm NaNs" for NaN |
| PrayerTimes.CountdownAcrossMidnight | prayer-times.js:188-195 | from 23:30 to 01:00 the countdown reads "1h 30m 00s" |
| App.MonthAfter | app.js:260-267 | for delta ±1 and a month in 1..12: the month stays in 1..12 and 12·year + month moves by delta |
| App.ClampField | app.js:205-211 | in 0..59; NaN gives 0; a value in range is kept, larger gives 59, negative gives 0 |
| App.AdjustmentHours | app.js:891-894 | under 1 hour in magnitude; 0 exactly when both fields are 0; negative exactly for sign "-" with a non-zero field; magnitude in seconds is 60·min + sec |
| App.FormatAdjustedTime | app.js:910-920 | NaN gives "--:--" / "--:-- AM" with a NaN decimal; otherwise decimal in [0, 24) with the same texts as `formatTime` |
| App.LocationTimezone | app.js:1040 | a given timezone is kept; otherwise a multiple of 0.5 within 0.25 h of longitude / 15 |
| App.WrapTurn | app.js:549-551 | a heading difference moved by at most one turn, into [−180, 180] |
| App.ShiftedIsFixAngle | app.js:553-559 | (x + 360) % 360 is the normalised angle of x for x ≥ −360 |
| App.TurnOf | app.js:569-570 | a rotation in [0, 360) becomes a turn in (−180, 180] |
| App.Zakat | app.js:332-342 | never negative; 0 exactly when net wealth is not positive; otherwise 2.5% of it; a NaN field counts as 0 |
| App.DayCell | app.js:745-756 | weekday (first + day − 1) mod 7; Friday exactly for weekday 5; the Gregorian date is `HijriToGregorian` of the cell's Hijri date, which `GregorianLaws.ConversionRoundTrip` ties back to `GregorianToHijri` |
| App.GridWeekdayIsDayOfWeek | app.js:735-748 | the weekday counted on from day 1 is the engine's weekday of that day |
| App.AppState.constructor | app.js:15-44 | the initial state from the stored settings: sign "+" by default, fields as parsed or 0 |
| App.AppState.NavigateMonth | app.js:254-275 | the new (year, month) is `MonthAfter` of the old; nothing else changes |
| App.AppState.SetAdjustMinutes | app.js:204-206 | stores the clamped minutes; nothing else changes |
| App.AppState.SetAdjustSeconds | app.js:210-212 | stores the clamped seconds; nothing else changes |
| App.AppState.SetAdjustSign | app.js:198-200 | stores the sign; nothing else changes |
| App.AppState.ApplyTimeAdjustment | app.js:896-908 | the same table when the adjustment is 0; otherwise the same keys, each raw time shifted by the adjustment and reformatted |
| App.AdjustTable | app.js:900-907 | the loop: every raw time shifted by the same amount and reformatted, under exactly the raw keys |
| App.AppState.CheckNotifications | app.js:630-659 | nothing when disabled; otherwise the notification scan, with the last notified prayer remembered and cleared before 00:00:36 |
| App.ScanNotifications | app.js:633-653 | notifies, in order, only prayers begun less than a minute ago and never the one last notified when it is reached; every such prayer is notified, where "last notified" is updated as the scan goes |
| App.NotificationScanIsUnique | app.js:633-653 | the scan's contract admits exactly one list of notified prayers for a given table, time and last notified prayer |
| App.RankOfNotifyOrder | app.js:633 | the rank of each of the five notified prayers is its position |
| App.AppState.HandleOrientation | app.js:544-570 | smoothed heading moves 20% of the short-way turn and stays in [0, 360); rotation in [0, 360) towards the Qibla; turn hint in (−180, 180] |
| App.AppState.RenderCalendarGrid | app.js:732-779 | as many blanks as the first day's weekday, then one cell per day of the month, each with its weekday and its Gregorian date |
| CityDatabase.InRegion | cities.js:9-89 | one city per entry of a region block, carrying that region |
| CityDatabase.RegionsAreKnown | cities.js:9-98 | every city's region is a key of the region-name table |
| CityDatabase.IdsAreDistinct | cities.js:9-89 | no two cities of the table share an id |
| CityDatabase.MeccaComesFirst | cities.js:9-11 | the table has 68 cities and starts with Mecca |
| CityDatabase.NearestIn | cities.js:100-113 | a city at least as close as every other, and the first such on a tie |
| CityDatabase.FindNearest | cities.js:100-113 | the same over the fixed table |
| CityDatabase.Trim | cities.js:116 | the input without leading and trailing white space |
| CityDatabase.TrimIsIdempotent | cities.js:116 | trimming twice equals trimming once |
| CityDatabase.Lower | cities.js:116-120 | each character lower-cased (A–Z only) |
| CityDatabase.LowerIsIdempotent | cities.js:116 | lower-casing twice equals lower-casing once |
| CityDatabase.ContainsIffOccurs | cities.js:119-121 | `includes` holds exactly when the query occurs at some position |
| CityDatabase.MatchingCities | cities.js:118-122 | exactly the cities whose lower-cased name or country, or id, contains the query, each as often as in the input, in table order |
| CityDatabase.Search | cities.js:115-123 | the whole table for an empty trimmed lower-cased query; otherwise the ordered matching sub-list |
| CityDatabase.SearchFindsCityById | cities.js:115-123 | a city is found by its own lower-case id |
| CityDatabase.FindById | cities.js:126 | the first city with that id, or none exactly when no city has it |
| CityDatabase.GetById | cities.js:125-127 | the first city with that id; Mecca when none has it |
| CityDatabase.GetByIdFindsTheCity | cities.js:125-127 | for every city of the table, looking up its id returns that city |
| CityDatabase.CitiesIn | cities.js:129-136 | exactly the cities of that region, each as often as in the input |
| CityDatabase.CitiesInKeepsOrder | cities.js:131-134 | a region's cities keep table order |
| CityDatabase.RegionsOfMeansSomeCity | cities.js:131-132 | a region has a group exactly when some city lies in it |
| CityDatabase.CityInExactlyOneGroup | cities.js:129-136 | every city is in the group of its region and in no other |
| CityDatabase.GroupByRegion | cities.js:129-136 | keys are exactly the regions present; each group is the table filtered to that region, in order |
| CityDatabase.GetGroupedByRegion | cities.js:129-136 | the same over the fixed table |

## Left out

- Solar astronomy and trigonometry are not modelled. This covers the sun position, the arccos/sin/cos inside the sun-angle and Asr computations, and the mid-day computation (prayer-times.js:31-90). They enter as the function-valued fields of `Sky`.
- The Qibla bearing and the haversine distance (app.js) are floating-point trigonometry and are not modelled; the bearing is the `qiblaBearing` field.
- Floating point: the model computes with exact reals. A JavaScript double can round differently, for example in 30.6001·(m + 1) or the minute rounding near a half.
- `julianDate` in prayer-times.js duplicates the Gregorian → Julian Day formula of hijri.js. It is modelled once, as `HijriEngine.GregorianToJD`.
- Clock reads (`getToday`, the `Date` in the prayer calculation) are not modelled; the date and the current decimal hour are parameters.
- DOM rendering, HTML strings, localStorage, service worker, geolocation, orientation permission, Notification/Audio and timers are not modelled. Handlers are modelled only through the state they change; the notification pass returns the prayers it would notify.
- content.js, adblocker.js, popup.js, background.js and sw.js are not part of this model.
- Translation tables (month, day and prayer names, UI strings) are not part of this model. `GetMonthName` takes the tables as a parameter.
- `navigateMonth` callers only pass ±1, so `App.AppState.NavigateMonth` and `App.MonthAfter` state the rollover law only for delta ±1. Other deltas are computed as the source does.
- Property lookups such as `METHODS["constructor"]` find inherited object members in JavaScript. The model treats any key outside the table as unknown.
- `CityDatabase.FindNearest`: NaN coordinates, where no distance is below Infinity and Mecca is returned, are not modelled (coordinates are reals).
- `CityDatabase.Lower` folds only A–Z. JavaScript's `toLowerCase` also folds non-ASCII capitals, so a query or name with such letters may match differently.
- `CityDatabase.Trim` strips the ASCII white space, U+00A0, U+FEFF, U+2028 and U+2029. JavaScript's `trim` also strips the other Unicode space separators (U+1680, U+2000–U+200A, U+202F, U+205F, U+3000).
- JavaScript object key order is not modelled: the grouped-by-region object and the adjusted prayer table are maps.
- CityDatabase: only one direction of "the grouping's keys are the region-name keys" is proved (`RegionsAreKnown`).
- `CityDatabase.SquaredDistance` states only that the distance is not negative. The nearest-city contract is stated over this function.
- `App.GridWeekdayIsDayOfWeek` needs the day number of the first of the month to be non-negative, where JavaScript's `%` and the mathematical remainder agree.
- `PrayerTimes.TahajjudTime` states the "two thirds of the normalised night" form only when Fajr + 24 ≥ Maghrib; otherwise it computes the truncating remainder as the source does.
- `PrayerTimes.FormatTime` models the NaN case as `Blank`. The source returns the bare string '--:--' instead of an object.
- `App.AppState.ApplyTimeAdjustment`: the `_raw` key of the result is the `raw` field of the returned table.
- `App.AppState.HandleOrientation` requires headings in [0, 360] and a bearing in [0, 360). The handler's headings are `webkitCompassHeading` or 360 − alpha, which lie there; the range results depend on it.
- `handleOrientation` (app.js:526-591): its early return when the compass is not active (app.js:527) and its early return when the event gives no heading (app.js:542) are not modelled; the model starts from an active compass and a known heading. The calibration state (app.js:38-39) is not modelled either.
- For the Hijri laws, year ≥ 1 is required wherever JavaScript's truncating `%` would otherwise give a negative cycle position. `HijriLaws.JdToHijriInverse` gives year ≥ 1 only for day numbers after the epoch.

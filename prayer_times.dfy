/**
 * Prayer-time post-processing: hour and angle normalisation, the NaN guard and
 * direction rule of the sun-angle time, the method and Asr-school tables with
 * their fallbacks, the derived instants (Sehri, Tahajjud), clock formatting,
 * the next-prayer scan and the countdown text.
 *
 * The astronomy (sun position, the trigonometric ratios and `arccos`) is not
 * modelled: a `Sky` value supplies, for one day and place, the equation of time,
 * the cosine ratio for each depression angle and Asr factor, and the hour angle
 * of a ratio. Times are exact reals; NaN is `None`.
 */
module PrayerTimes {
  import opened JsNumbers

  datatype Prayer = Sehri | Fajr | Sunrise | Dhuhr | Asr | Maghrib | Isha | Tahajjud

  /** Every prayer, in the order the result object lists them. */
  const ALL_PRAYERS: seq<Prayer> := [Sehri, Fajr, Sunrise, Dhuhr, Asr, Maghrib, Isha, Tahajjud]

  // ---------------------------------------------------------------------
  // Normalisation
  // ---------------------------------------------------------------------

  /** `((x % n) + n) % n` with JavaScript's `%`: `x` reduced into [0, n). */
  function Wrap(x: real, n: real): (r: real)
    requires n > 0.0
    ensures 0.0 <= r < n
    ensures r == x - n * ((x / n).Floor as real)
  {
    var t := RealRem(x, n);
    var u := t + n;
    var r := RealRem(u, n);
    WrapIsFloorMod(x, n, t, r);
    r
  }

  lemma WrapIsFloorMod(x: real, n: real, t: real, r: real)
    requires n > 0.0
    requires -n < t < n && (x - t) / n == Trunc(x / n) as real
    requires 0.0 <= r < n && (t + n - r) / n == Trunc((t + n) / n) as real
    ensures r == x - n * ((x / n).Floor as real)
  {
    var a, b := Trunc(x / n), Trunc((t + n) / n);
    QuotientTimes(x - t, n, a as real);
    QuotientTimes(t + n - r, n, b as real);
    var k := a + b - 1;
    assert x == n * (k as real) + r;
    FloorOfSplit(x, n, k, r);
  }

  lemma QuotientTimes(p: real, n: real, k: real)
    requires n > 0.0 && p / n == k
    ensures p == n * k
  {
  }

  /** If x = n k + r with 0 <= r < n then k is the floor of x / n. */
  lemma FloorOfSplit(x: real, n: real, k: int, r: real)
    requires n > 0.0 && 0.0 <= r < n && x == n * (k as real) + r
    ensures (x / n).Floor == k
  {
    var f := r / n;
    QuotientTimes(r, n, f);
    assert x / n == (k as real) + f;
    if f >= 1.0 {
      RealMulNonNegative(f - 1.0, n);
    }
  }

  /** `fixHour`: an hour reduced into [0, 24). */
  function FixHour(h: real): (r: real)
    ensures 0.0 <= r < 24.0
    ensures r == h - 24.0 * ((h / 24.0).Floor as real)
  {
    Wrap(h, 24.0)
  }

  /** `fixAngle`: an angle reduced into [0, 360). */
  function FixAngle(a: real): (r: real)
    ensures 0.0 <= r < 360.0
    ensures r == a - 360.0 * ((a / 360.0).Floor as real)
  {
    Wrap(a, 360.0)
  }

  // ---------------------------------------------------------------------
  // Methods and Asr schools
  // ---------------------------------------------------------------------

  datatype Method = Method(name: string, fajrAngle: real, ishaAngle: real, ishaMinutes: real)

  const METHODS: map<string, Method> := map[
    "mwl" := Method("Muslim World League", 18.0, 17.0, 0.0),
    "isna" := Method("ISNA (North America)", 15.0, 15.0, 0.0),
    "egypt" := Method("Egyptian General Authority", 19.5, 17.5, 0.0),
    "makkah" := Method("Umm al-Qura (Makkah)", 18.5, 0.0, 90.0),
    "karachi" := Method("University of Islamic Sciences, Karachi", 18.0, 18.0, 0.0)
  ]

  const ASR_SCHOOLS: map<string, real> := map["shafii" := 1.0, "hanafi" := 2.0]

  /** The method named `key`, or the Muslim World League method for an unknown key. */
  function MethodFor(key: string): (m: Method)
    ensures key in METHODS ==> m == METHODS[key]
    ensures key !in METHODS ==> m == METHODS["mwl"]
  {
    if key in METHODS then METHODS[key] else METHODS["mwl"]
  }

  /** The shadow factor of Asr school `key`, or 1 for an unknown school. */
  function AsrFactor(key: string): (f: real)
    ensures key in ASR_SCHOOLS ==> f == ASR_SCHOOLS[key]
    ensures key !in ASR_SCHOOLS ==> f == 1.0
  {
    if key in ASR_SCHOOLS then ASR_SCHOOLS[key] else 1.0
  }

  /** Only the Umm al-Qura method places Isha a fixed time after Maghrib, 90 minutes. */
  lemma OnlyMakkahUsesFixedIsha(key: string)
    ensures MethodFor(key).ishaMinutes > 0.0 <==> key == "makkah"
    ensures key == "makkah" ==> MethodFor(key).ishaMinutes / 60.0 == 1.5
  {
    if key in METHODS {
      assert key in {"mwl", "isna", "egypt", "makkah", "karachi"};
    }
  }

  // ---------------------------------------------------------------------
  // The astronomical inputs and the sun-angle time
  // ---------------------------------------------------------------------

  /**
   * What the trigonometry yields for one day and place: the equation of time (hours),
   * the cosine of the hour angle at which the sun is `angle` degrees below the horizon,
   * the same for the Asr shadow factor, and `arccos(x) / 15` (hours).
   */
  datatype Sky = Sky(eqOfTime: real, angleRatio: real -> real, asrRatio: real -> real, hourAngle: real -> real)

  /** NaN (`None`) plus a number is NaN. */
  function Plus(o: Option<real>, d: real): (r: Option<real>)
    ensures r.Some? <==> o.Some?
    ensures r.Some? ==> r.value - o.value == d
  {
    match o
    case None => None
    case Some(x) => Some(x + d)
  }

  /**
   * The time (before noon-correction) at which the sun is `angle` below the horizon:
   * NaN when the ratio lies outside [-1, 1], otherwise 12 minus the hour angle for
   * direction "ccw" and 12 plus it for any other direction.
   */
  function SunAngleTime(sky: Sky, angle: real, direction: string): (r: Option<real>)
    ensures r.None? <==> sky.angleRatio(angle) > 1.0 || sky.angleRatio(angle) < -1.0
    ensures r.Some? && direction == "ccw" ==> r.value == 12.0 - sky.hourAngle(sky.angleRatio(angle))
    ensures r.Some? && direction != "ccw" ==> r.value == 12.0 + sky.hourAngle(sky.angleRatio(angle))
  {
    var ratio := sky.angleRatio(angle);
    if ratio > 1.0 || ratio < -1.0 then None
    else
      var hourAngle := sky.hourAngle(ratio);
      Some(12.0 + (if direction == "ccw" then -hourAngle else hourAngle))
  }

  /** The Asr hour angle: NaN when its cosine lies outside [-1, 1]. */
  function AsrTime(sky: Sky, factor: real): (r: Option<real>)
    ensures r.None? <==> sky.asrRatio(factor) > 1.0 || sky.asrRatio(factor) < -1.0
    ensures r.Some? ==> r.value == sky.hourAngle(sky.asrRatio(factor))
  {
    var cosH := sky.asrRatio(factor);
    if cosH > 1.0 || cosH < -1.0 then None else Some(sky.hourAngle(cosH))
  }

  /** The two directions of one angle lie symmetrically about noon. */
  lemma SunAngleSymmetric(sky: Sky, angle: real)
    requires SunAngleTime(sky, angle, "ccw").Some?
    ensures SunAngleTime(sky, angle, "cw").Some?
    ensures SunAngleTime(sky, angle, "ccw").value + SunAngleTime(sky, angle, "cw").value == 24.0
  {
  }

  // ---------------------------------------------------------------------
  // Clock formatting
  // ---------------------------------------------------------------------

  /** What `formatTime` shows: '--:--' for NaN, else the 24h and 12h texts and the normalised hour. */
  datatype Display = Blank | Clock(h24: string, h12: string, decimal: Option<real>)

  /** The clock fields of an hour in [0, 24). */
  datatype ClockFace = ClockFace(hour: int, minute: int, hour12: int, pm: bool)

  /**
   * Hour and minute of `t`: the hour is its floor, the minute is the rounded
   * fraction (60 is possible and is not carried into the hour); the 12-hour hour
   * is 12 for 0 and h - 12 past noon; "PM" from 12 on.
   */
  function ClockFaceOf(t: real): (c: ClockFace)
    requires 0.0 <= t < 24.0
    ensures 0 <= c.hour <= 23 && c.hour as real <= t < c.hour as real + 1.0
    ensures 0 <= c.minute <= 60
    ensures (t - c.hour as real) * 60.0 - 0.5 < c.minute as real <= (t - c.hour as real) * 60.0 + 0.5
    ensures 1 <= c.hour12 <= 12 && c.hour12 % 12 == c.hour % 12
    ensures c.pm <==> c.hour >= 12
  {
    var h := t.Floor;
    var m := Round((t - h as real) * 60.0);
    ClockFace(h, m, if h == 0 then 12 else if h > 12 then h - 12 else h, !(h < 12))
  }

  /** "HH:MM": two zero-padded fields that read back as `hour` and `minute`. */
  function TwoFieldText(hour: int, minute: int): (s: string)
    requires 0 <= hour < 100 && 0 <= minute < 100
    ensures |s| == 5 && s[2] == ':' && IsDigits(s[..2]) && IsDigits(s[3..])
    ensures DigitsValue(s[..2]) == hour && DigitsValue(s[3..]) == minute
  {
    var s := PadTwo(hour) + ":" + PadTwo(minute);
    assert s[..2] == PadTwo(hour) && s[3..] == PadTwo(minute);
    s
  }

  /** "H:MM AM|PM": the 12-hour hour, the minute field of `h24` and the half of the day. */
  function TwelveHourText(c: ClockFace, h24: string): (s: string)
    requires c.hour12 >= 1 && |h24| == 5
    ensures s == NatString(c.hour12) + ":" + h24[3..] + (if c.pm then " PM" else " AM")
  {
    var text := IntString(c.hour12) + ":" + h24[3..] + " " + (if c.pm then "PM" else "AM");
    assert text == NatString(c.hour12) + ":" + h24[3..] + (if c.pm then " PM" else " AM");
    text
  }

  /** `formatTime`: NaN gives '--:--'; otherwise "HH:MM", "H:MM AM|PM" and the hour reduced into [0, 24). */
  function FormatTime(hours: Option<real>): (r: Display)
    ensures hours.None? <==> r.Blank?
    ensures hours.Some? ==> r.Clock? && r.decimal == Some(FixHour(hours.value))
    ensures hours.Some? ==> var c := ClockFaceOf(FixHour(hours.value));
      r.h24 == TwoFieldText(c.hour, c.minute) &&
      r.h12 == NatString(c.hour12) + ":" + r.h24[3..] + (if c.pm then " PM" else " AM")
  {
    match hours
    case None => Blank
    case Some(x) =>
      var t := FixHour(x);
      var c := ClockFaceOf(t);
      var h24 := TwoFieldText(c.hour, c.minute);
      Clock(h24, TwelveHourText(c, h24), Some(t))
  }

  /** The rounded minute is not carried: 5:59.7 is shown as "05:60". */
  lemma MinuteSixtyIsNotCarried()
    ensures FormatTime(Some(5.995)).h24 == "05:60"
  {
    var c := ClockFaceOf(FixHour(5.995));
    assert FixHour(5.995) == 5.995;
    assert c.hour == 5;
    assert c.minute == 60;
    assert PadTwo(5) == "05";
    assert PadTwo(60) == "60" by {
      assert NatString(60) == NatString(6) + [DigitChar(0)];
    }
  }

  // ---------------------------------------------------------------------
  // The day's calculation
  // ---------------------------------------------------------------------

  /** The eight unformatted times of a day; Dhuhr is never NaN. */
  datatype DayTimes = DayTimes(sehri: Option<real>, fajr: Option<real>, sunrise: Option<real>, dhuhr: real,
                               asr: Option<real>, maghrib: Option<real>, isha: Option<real>, tahajjud: Option<real>)

  /** The unformatted times (`_raw`) and their formatted forms. */
  datatype PrayerTable = PrayerTable(shown: map<Prayer, Display>, raw: map<Prayer, Option<real>>)

  /** Maghrib plus two thirds of the night (Maghrib to Fajr, reduced modulo 24 with JavaScript's `%`). */
  function TahajjudTime(fajr: Option<real>, maghrib: Option<real>): (r: Option<real>)
    ensures r.Some? <==> fajr.Some? && maghrib.Some?
    ensures r.Some? && fajr.value + 24.0 >= maghrib.value ==>
      r.value == maghrib.value + FixHour(fajr.value - maghrib.value) * 2.0 / 3.0 &&
      maghrib.value <= r.value < maghrib.value + 16.0
  {
    match (fajr, maghrib)
    case (Some(f), Some(m)) =>
      var night := RealRem(f + 24.0 - m, 24.0);
      if f + 24.0 >= m then NightIsWrappedSpan(f, m, night); Some(m + night * 2.0 / 3.0)
      else Some(m + night * 2.0 / 3.0)
    case _ => None
  }

  lemma NightIsWrappedSpan(f: real, m: real, night: real)
    requires f + 24.0 >= m
    requires 0.0 <= night < 24.0 && (f + 24.0 - m - night) / 24.0 == Trunc((f + 24.0 - m) / 24.0) as real
    ensures night == FixHour(f - m)
  {
    ShiftedRemIsFloorMod(f - m, 24.0, night);
  }

  /** For `x + n >= 0`, JavaScript's `(x + n) % n` is `x` reduced into [0, n), the floored remainder. */
  lemma ShiftedRemIsFloorMod(x: real, n: real, r: real)
    requires n > 0.0 && x + n >= 0.0
    requires 0.0 <= r < n && (x + n - r) / n == Trunc((x + n) / n) as real
    ensures r == x - n * ((x / n).Floor as real)
  {
    var k := Trunc((x + n) / n);
    QuotientTimes(x + n - r, n, k as real);
    FloorOfSplit(x, n, k - 1, r);
  }

  /**
   * The times `calculate` derives, without the astronomy: method and Asr-school
   * fallbacks; Fajr (at the method's angle) and Sunrise (at 0.833 degrees) the
   * hour angle before Dhuhr, Maghrib (at 0.833 degrees) and Asr the hour angle
   * after it, so Sunrise and Maghrib lie symmetrically about Dhuhr; the Isha
   * branch; Sehri ten minutes before Fajr; Tahajjud two thirds into the night.
   */
  function ComputeTimes(sky: Sky, longitude: real, timezone: real, methodKey: string, asrSchool: string): (t: DayTimes)
    ensures t.dhuhr == FixHour(12.0 - sky.eqOfTime) + timezone - longitude / 15.0
    ensures t.fajr.None? <==> SunAngleTime(sky, MethodFor(methodKey).fajrAngle, "ccw").None?
    ensures t.fajr.Some? ==> t.dhuhr - t.fajr.value == sky.hourAngle(sky.angleRatio(MethodFor(methodKey).fajrAngle))
    ensures t.sunrise.None? <==> SunAngleTime(sky, 0.833, "ccw").None?
    ensures t.sunrise.Some? ==> t.dhuhr - t.sunrise.value == sky.hourAngle(sky.angleRatio(0.833))
    ensures t.maghrib.None? <==> SunAngleTime(sky, 0.833, "cw").None?
    ensures t.maghrib.Some? ==> t.maghrib.value - t.dhuhr == sky.hourAngle(sky.angleRatio(0.833))
    ensures t.sunrise.Some? <==> t.maghrib.Some?
    ensures t.sunrise.Some? ==> t.sunrise.value + t.maghrib.value == 2.0 * t.dhuhr
    ensures t.asr.None? <==> AsrTime(sky, AsrFactor(asrSchool)).None?
    ensures t.asr.Some? ==> t.asr.value - t.dhuhr == sky.hourAngle(sky.asrRatio(AsrFactor(asrSchool)))
    ensures MethodFor(methodKey).ishaMinutes > 0.0 ==> t.isha == Plus(t.maghrib, MethodFor(methodKey).ishaMinutes / 60.0)
    ensures MethodFor(methodKey).ishaMinutes <= 0.0 ==>
      t.isha == Plus(SunAngleTime(sky, MethodFor(methodKey).ishaAngle, "cw"), t.dhuhr - 12.0)
    ensures t.sehri == Plus(t.fajr, -10.0 / 60.0)
    ensures t.tahajjud == TahajjudTime(t.fajr, t.maghrib)
  {
    var m := MethodFor(methodKey);
    var dhuhr := FixHour(12.0 - sky.eqOfTime) + timezone - longitude / 15.0;
    var fajr := Plus(SunAngleTime(sky, m.fajrAngle, "ccw"), dhuhr - 12.0);
    var sunrise := Plus(SunAngleTime(sky, 0.833, "ccw"), dhuhr - 12.0);
    var asr := Plus(AsrTime(sky, AsrFactor(asrSchool)), dhuhr);
    var maghrib := Plus(SunAngleTime(sky, 0.833, "cw"), dhuhr - 12.0);
    var isha :=
      if m.ishaMinutes > 0.0 then Plus(maghrib, m.ishaMinutes / 60.0)
      else Plus(SunAngleTime(sky, m.ishaAngle, "cw"), dhuhr - 12.0);
    DayTimes(Plus(fajr, -10.0 / 60.0), fajr, sunrise, dhuhr, asr, maghrib, isha, TahajjudTime(fajr, maghrib))
  }

  /** The `_raw` object: exactly the eight times, keyed by prayer. */
  function RawOf(t: DayTimes): (raw: map<Prayer, Option<real>>)
    ensures raw.Keys == set p: Prayer | p in ALL_PRAYERS
    ensures raw[Sehri] == t.sehri && raw[Fajr] == t.fajr && raw[Sunrise] == t.sunrise && raw[Dhuhr] == Some(t.dhuhr)
    ensures raw[Asr] == t.asr && raw[Maghrib] == t.maghrib && raw[Isha] == t.isha && raw[Tahajjud] == t.tahajjud
  {
    map[Sehri := t.sehri, Fajr := t.fajr, Sunrise := t.sunrise, Dhuhr := Some(t.dhuhr), Asr := t.asr,
        Maghrib := t.maghrib, Isha := t.isha, Tahajjud := t.tahajjud]
  }

  /** `calculate`: every computed time, unformatted under `_raw` and formatted under its own key. */
  function Calculate(sky: Sky, longitude: real, timezone: real, methodKey: string, asrSchool: string): (r: PrayerTable)
    ensures r.raw == RawOf(ComputeTimes(sky, longitude, timezone, methodKey, asrSchool))
    ensures r.shown.Keys == r.raw.Keys
    ensures forall p :: p in r.raw ==> r.shown[p] == FormatTime(r.raw[p])
  {
    var raw := RawOf(ComputeTimes(sky, longitude, timezone, methodKey, asrSchool));
    PrayerTable(map p | p in raw :: FormatTime(raw[p]), raw)
  }

  // ---------------------------------------------------------------------
  // Next prayer and countdown
  // ---------------------------------------------------------------------

  /** The order in which the next prayer is looked for (Tahajjud comes after). */
  const ORDER: seq<Prayer> := [Sehri, Fajr, Sunrise, Dhuhr, Asr, Maghrib, Isha]

  /** Position of a prayer in the scan: its index in `ORDER`, Tahajjud last. */
  function ScanPosition(p: Prayer): (i: nat)
    ensures i <= 7
    ensures i < 7 ==> ORDER[i] == p
    ensures i == 7 <==> p == Tahajjud
  {
    match p
    case Sehri => 0
    case Fajr => 1
    case Sunrise => 2
    case Dhuhr => 3
    case Asr => 4
    case Maghrib => 5
    case Isha => 6
    case Tahajjud => 7
  }

  /** `raw[p]`, undefined (NaN) for a missing key. */
  function RawTime(raw: map<Prayer, Option<real>>, p: Prayer): Option<real>
  {
    if p in raw then raw[p] else None
  }

  /** `raw[p] > current`: false for NaN. */
  predicate IsLater(raw: map<Prayer, Option<real>>, p: Prayer, current: real)
  {
    RawTime(raw, p).Some? && RawTime(raw, p).value > current
  }

  /** Index of the first prayer of `order` whose time is later than `current`; |order| if none is. */
  function FirstLater(order: seq<Prayer>, raw: map<Prayer, Option<real>>, current: real): (i: nat)
    ensures i <= |order|
    ensures forall j :: 0 <= j < i ==> !IsLater(raw, order[j], current)
    ensures i < |order| ==> IsLater(raw, order[i], current)
  {
    if order == [] then 0
    else if IsLater(raw, order[0], current) then 0
    else 1 + FirstLater(order[1..], raw, current)
  }

  datatype NextPrayer = NextPrayer(name: Prayer, time: Option<real>, tomorrow: bool)

  /**
   * `getNextPrayer`: the first prayer in scan order whose time is later than
   * `current`, every earlier one being earlier or NaN; failing all, tomorrow's
   * Sehri at today's Sehri plus 24 hours.
   */
  function GetNextPrayer(raw: map<Prayer, Option<real>>, current: real): (r: NextPrayer)
    ensures !r.tomorrow ==> IsLater(raw, r.name, current) && r.time == RawTime(raw, r.name)
    ensures !r.tomorrow ==> forall p :: ScanPosition(p) < ScanPosition(r.name) ==> !IsLater(raw, p, current)
    ensures r.tomorrow <==> forall p :: !IsLater(raw, p, current)
    ensures r.tomorrow ==> r.name == Sehri && r.time == Plus(RawTime(raw, Sehri), 24.0)
  {
    var i := FirstLater(ORDER, raw, current);
    if i < |ORDER| then
      var p := ORDER[i];
      assert forall q :: ScanPosition(q) < ScanPosition(p) ==> !IsLater(raw, q, current) by {
        forall q | ScanPosition(q) < ScanPosition(p)
          ensures !IsLater(raw, q, current)
        {
          assert ScanPosition(p) == i by {
            assert ORDER[ScanPosition(p)] == ORDER[i] || ScanPosition(p) == 7;
          }
          assert ORDER[ScanPosition(q)] == q;
        }
      }
      NextPrayer(p, RawTime(raw, p), false)
    else
      assert forall q :: q != Tahajjud ==> !IsLater(raw, q, current) by {
        forall q | q != Tahajjud
          ensures !IsLater(raw, q, current)
        {
          assert ORDER[ScanPosition(q)] == q;
        }
      }
      if IsLater(raw, Tahajjud, current) then NextPrayer(Tahajjud, RawTime(raw, Tahajjud), false)
      else NextPrayer(Sehri, Plus(RawTime(raw, Sehri), 24.0), true)
  }

  /** Hours, minutes and seconds of a countdown of `diff` hours. */
  datatype Countdown = Countdown(hours: int, minutes: int, seconds: int)

  /** The span to `target`, plus 24 hours once when negative. */
  function CountdownSpan(target: real, current: real): (d: real)
    ensures d == target - current || d == target - current + 24.0
    ensures target - current >= 0.0 ==> d == target - current
    ensures target - current >= -24.0 ==> d >= 0.0
  {
    var diff := target - current;
    if diff < 0.0 then diff + 24.0 else diff
  }

  /** The h/m/s decomposition: whole seconds `h*3600 + m*60 + s` of the span, truncated. */
  function CountdownOf(diff: real): (c: Countdown)
    ensures 0 <= c.minutes < 60 && 0 <= c.seconds < 60
    ensures var total := (c.hours * 3600 + c.minutes * 60 + c.seconds) as real;
      total <= diff * 3600.0 < total + 1.0
  {
    var h := diff.Floor;
    var m := ((diff - h as real) * 60.0).Floor;
    var s := (((diff - h as real) * 60.0 - m as real) * 60.0).Floor;
    Countdown(h, m, s)
  }

  /** `formatCountdown`: "<h>h <mm>m <ss>s"; NaN target gives "NaNh NaNm NaNs". */
  function FormatCountdown(target: Option<real>, current: real): (r: string)
    ensures target.None? ==> r == "NaNh NaNm NaNs"
    ensures target.Some? ==> var c := CountdownOf(CountdownSpan(target.value, current));
      r == IntString(c.hours) + "h " + PadTwo(c.minutes) + "m " + PadTwo(c.seconds) + "s" &&
      |PadTwo(c.minutes)| == 2 && |PadTwo(c.seconds)| == 2
  {
    match target
    case None => "NaNh NaNm NaNs"
    case Some(t) =>
      var c := CountdownOf(CountdownSpan(t, current));
      IntString(c.hours) + "h " + PadTwo(c.minutes) + "m " + PadTwo(c.seconds) + "s"
  }

  /** One o'clock seen from 23:30 is an hour and a half ahead. */
  lemma CountdownAcrossMidnight()
    ensures FormatCountdown(Some(1.0), 23.5) == "1h 30m 00s"
  {
    assert CountdownSpan(1.0, 23.5) == 1.5;
    var c := CountdownOf(1.5);
    assert c == Countdown(1, 30, 0);
    assert NatString(30) == NatString(3) + [DigitChar(0)];
  }
}

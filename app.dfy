/**
 * The state the calendar app keeps between events, and the arithmetic its
 * handlers perform, without the page around them: month navigation, the
 * prayer-time adjustment, the notification de-duplication, the longitude
 * timezone estimate, compass smoothing, the calendar grid layout and the
 * Zakat amount.
 *
 * Clock reads become the `current` parameter (decimal hours), the device
 * heading a parameter of `HandleOrientation`, form fields their parsed values
 * (`None` for NaN), and the engine's adjustment setting a parameter.
 */
module App {
  import opened JsNumbers
  import opened HijriEngine
  import opened PrayerTimes
  import GregorianLaws

  // ---------------------------------------------------------------------
  // Pure helpers
  // ---------------------------------------------------------------------

  /** The (year, month) `delta` months after (year, month), rolling over at most one year. */
  function MonthAfter(year: int, month: int, delta: int): (r: (int, int))
    ensures 1 <= month <= 12 && (delta == 1 || delta == -1) ==>
      1 <= r.1 <= 12 && 12 * r.0 + r.1 == 12 * year + month + delta
  {
    var m := month + delta;
    if m > 12 then (year + 1, 1)
    else if m < 1 then (year - 1, 12)
    else (year, m)
  }

  /** `Math.max(0, Math.min(59, parseInt(v) || 0))`. */
  function ClampField(parsed: Option<int>): (r: int)
    ensures 0 <= r <= 59
    ensures parsed.None? ==> r == 0
    ensures parsed.Some? && 0 <= parsed.value <= 59 ==> r == parsed.value
    ensures parsed.Some? && parsed.value > 59 ==> r == 59
    ensures parsed.Some? && parsed.value < 0 ==> r == 0
  {
    var v := if parsed.Some? then parsed.value else 0;
    if v > 59 then 59 else if v < 0 then 0 else v
  }

  /** `getTimeAdjustmentHours`: minus for sign "-", plus for anything else. */
  function AdjustmentHours(sign: string, minutes: int, seconds: int): (r: real)
    ensures 0 <= minutes <= 59 && 0 <= seconds <= 59 ==>
      -1.0 < r < 1.0 &&
      (r == 0.0 <==> minutes == 0 && seconds == 0) &&
      (r < 0.0 <==> sign == "-" && (minutes, seconds) != (0, 0)) &&
      (if r < 0.0 then -r else r) * 3600.0 == (60 * minutes + seconds) as real
  {
    (if sign == "-" then -1.0 else 1.0) * (minutes as real / 60.0 + seconds as real / 3600.0)
  }

  /** `formatAdjustedTime`: like `formatTime`, but NaN gives a clock showing "--:--" with a NaN decimal. */
  function FormatAdjustedTime(hours: Option<real>): (r: Display)
    ensures r.Clock?
    ensures hours.None? ==> r == Clock("--:--", "--:-- AM", None)
    ensures hours.Some? ==> r.decimal == Some(FixHour(hours.value)) && 0.0 <= r.decimal.value < 24.0
    ensures hours.Some? ==> var c := ClockFaceOf(FixHour(hours.value));
      r.h24 == TwoFieldText(c.hour, c.minute) &&
      r.h12 == NatString(c.hour12) + ":" + r.h24[3..] + (if c.pm then " PM" else " AM")
  {
    match hours
    case None => Clock("--:--", "--:-- AM", None)
    case Some(_) => FormatTime(hours)
  }

  /** The prayers a notification is raised for, in the order they are checked. */
  const NOTIFY_ORDER: seq<Prayer> := [Fajr, Dhuhr, Asr, Maghrib, Isha]

  /** `times[p].decimal`: NaN for the '--:--' of an uncomputable time. */
  function DecimalOf(times: PrayerTable, p: Prayer): Option<real>
  {
    if p in times.shown && times.shown[p].Clock? then times.shown[p].decimal else None
  }

  /** `0 <= (current - time) * 60 < 1`: the prayer began less than a minute ago. */
  predicate InWindow(times: PrayerTable, p: Prayer, current: real)
  {
    DecimalOf(times, p).Some? && 0.0 <= (current - DecimalOf(times, p).value) * 60.0 < 1.0
  }

  /** The timezone of a custom location: the given one, else the nearest half hour to longitude / 15. */
  function LocationTimezone(longitude: real, timezone: Option<real>): (tz: real)
    ensures timezone.Some? ==> tz == timezone.value
    ensures timezone.None? ==> (2.0 * tz).Floor as real == 2.0 * tz
    ensures timezone.None? ==> longitude / 15.0 - 0.25 < tz <= longitude / 15.0 + 0.25
  {
    match timezone
    case Some(t) => t
    case None => Round(longitude / 15.0 * 2.0) as real / 2.0
  }

  /** A heading difference brought into [-180, 180] by one turn either way. */
  function WrapTurn(diff: real): (r: real)
    ensures -360.0 <= diff <= 360.0 ==> -180.0 <= r <= 180.0
    ensures r == diff || r == diff - 360.0 || r == diff + 360.0
  {
    var d := if diff > 180.0 then diff - 360.0 else diff;
    if d < -180.0 then d + 360.0 else d
  }

  /** JavaScript's `(x + 360) % 360` is the angle `x` normalised, for every `x` from -360 on. */
  lemma ShiftedIsFixAngle(x: real, r: real)
    requires x >= -360.0 && r == RealRem(x + 360.0, 360.0)
    ensures r == FixAngle(x)
  {
    ShiftedRemIsFloorMod(x, 360.0, r);
  }

  /** The needle angle reduced into (-180, 180] for the turn hint. */
  function TurnOf(rotation: real): (r: real)
    ensures 0.0 <= rotation < 360.0 ==> -180.0 < r <= 180.0
    ensures r == rotation || r == rotation - 360.0
  {
    if rotation > 180.0 then rotation - 360.0 else rotation
  }

  /** `calculateZakat`: 2.5% of the net wealth, never negative; a blank or NaN field counts as 0. */
  function Zakat(cash: Option<real>, gold: Option<real>, other: Option<real>, debts: Option<real>): (r: real)
    ensures var net := OrZero(cash) + OrZero(gold) + OrZero(other) - OrZero(debts);
      r >= 0.0 && (r == 0.0 <==> net <= 0.0) && (net > 0.0 ==> 40.0 * r == net)
  {
    var net := (OrZero(cash) + OrZero(gold) + OrZero(other)) - OrZero(debts);
    if net * 0.025 > 0.0 then net * 0.025 else 0.0
  }

  /** `parseFloat(v) || 0`. */
  function OrZero(o: Option<real>): real
  {
    if o.Some? then o.value else 0.0
  }

  // ---------------------------------------------------------------------
  // The calendar grid
  // ---------------------------------------------------------------------

  /** A grid cell: a leading blank, or day `day` with its weekday (0 = Sunday) and Gregorian date. */
  datatype Cell = Padding | Day(day: int, weekday: int, friday: bool, gregorian: GregorianDate)

  /** The cell of day `day` of a month whose first day has weekday `first`. */
  function DayCell(year: int, month: int, day: int, first: int, adjustment: int): (c: Cell)
    ensures c.Day? && c.day == day
    ensures first + day - 1 >= 0 ==> 0 <= c.weekday < 7 && c.weekday == (first + day - 1) % 7
    ensures c.friday <==> c.weekday == 5
    ensures c.gregorian == HijriToGregorian(HijriDate(year, month, day), adjustment)
  {
    var weekday := IntRem(first + day - 1, 7);
    Day(day, weekday, weekday == 5, HijriToGregorian(HijriDate(year, month, day), adjustment))
  }

  /**
   * Counting weekdays on from the first of the month gives each day the engine's own
   * day of week (while the day numbers involved are not negative).
   */
  lemma GridWeekdayIsDayOfWeek(year: int, month: int, day: int, adjustment: int)
    requires day >= 1
    requires HijriToJD(year, month, 1) - adjustment + 1 >= 0
    ensures var first := GetDayOfWeek(HijriDate(year, month, 1), adjustment);
      DayCell(year, month, day, first, adjustment).weekday == GetDayOfWeek(HijriDate(year, month, day), adjustment)
  {
    var n := HijriToJD(year, month, 1) - adjustment + 1;
    GregorianLaws.DayOfWeekFromDayNumber(HijriDate(year, month, 1), adjustment);
    GregorianLaws.DayOfWeekFromDayNumber(HijriDate(year, month, day), adjustment);
    assert HijriToJD(year, month, day) - adjustment + 1 == n + day - 1;
    var q := n / 7;
    DivModUnique(n + day - 1, 7, q + (n % 7 + day - 1) / 7, (n % 7 + day - 1) % 7);
  }

  // ---------------------------------------------------------------------
  // The app state
  // ---------------------------------------------------------------------

  class AppState {
    var year: int
    var month: int
    var timeAdjustSign: string
    var timeAdjustMin: int
    var timeAdjustSec: int
    var notificationsEnabled: bool
    var lastNotified: Option<Prayer>
    var lastHeading: Option<real>
    var qiblaBearing: real

    /** The state at start-up, from the stored settings (`parseInt(..) || 0`, sign defaulting to "+"). */
    constructor (storedSign: Option<string>, storedMin: Option<int>, storedSec: Option<int>, notify: bool)
      ensures year == 0 && month == 0
      ensures timeAdjustSign == (if storedSign.Some? && storedSign.value != "" then storedSign.value else "+")
      ensures timeAdjustMin == OrZeroInt(storedMin) && timeAdjustSec == OrZeroInt(storedSec)
      ensures notificationsEnabled == notify && lastNotified == None
      ensures lastHeading == None && qiblaBearing == 0.0
    {
      year, month := 0, 0;
      timeAdjustSign := if storedSign.Some? && storedSign.value != "" then storedSign.value else "+";
      timeAdjustMin, timeAdjustSec := OrZeroInt(storedMin), OrZeroInt(storedSec);
      notificationsEnabled, lastNotified := notify, None;
      lastHeading, qiblaBearing := None, 0.0;
    }

    /** The current prayer-time adjustment in hours. */
    function Adjustment(): real
      reads this
    {
      AdjustmentHours(timeAdjustSign, timeAdjustMin, timeAdjustSec)
    }

    /** `navigateMonth`: move the displayed month by `delta`, rolling the year over. */
    method NavigateMonth(delta: int)
      modifies this
      ensures (year, month) == MonthAfter(old(year), old(month), delta)
      ensures old(1 <= month <= 12) && (delta == 1 || delta == -1) ==>
        1 <= month <= 12 && 12 * year + month == old(12 * year + month) + delta
      ensures timeAdjustSign == old(timeAdjustSign) && timeAdjustMin == old(timeAdjustMin)
      ensures timeAdjustSec == old(timeAdjustSec) && notificationsEnabled == old(notificationsEnabled)
      ensures lastNotified == old(lastNotified) && lastHeading == old(lastHeading)
      ensures qiblaBearing == old(qiblaBearing)
    {
      month := month + delta;
      if month > 12 {
        month := 1;
        year := year + 1;
      } else if month < 1 {
        month := 12;
        year := year - 1;
      }
    }

    /** The minutes field changed: store its clamped parse. */
    method SetAdjustMinutes(parsed: Option<int>)
      modifies this
      ensures timeAdjustMin == ClampField(parsed) && 0 <= timeAdjustMin <= 59
      ensures year == old(year) && month == old(month) && timeAdjustSign == old(timeAdjustSign)
      ensures timeAdjustSec == old(timeAdjustSec) && notificationsEnabled == old(notificationsEnabled)
      ensures lastNotified == old(lastNotified) && lastHeading == old(lastHeading)
      ensures qiblaBearing == old(qiblaBearing)
    {
      timeAdjustMin := ClampField(parsed);
    }

    /** The seconds field changed: store its clamped parse. */
    method SetAdjustSeconds(parsed: Option<int>)
      modifies this
      ensures timeAdjustSec == ClampField(parsed) && 0 <= timeAdjustSec <= 59
      ensures year == old(year) && month == old(month) && timeAdjustSign == old(timeAdjustSign)
      ensures timeAdjustMin == old(timeAdjustMin) && notificationsEnabled == old(notificationsEnabled)
      ensures lastNotified == old(lastNotified) && lastHeading == old(lastHeading)
      ensures qiblaBearing == old(qiblaBearing)
    {
      timeAdjustSec := ClampField(parsed);
    }

    /** The sign selector changed. */
    method SetAdjustSign(sign: string)
      modifies this
      ensures timeAdjustSign == sign
      ensures year == old(year) && month == old(month) && timeAdjustMin == old(timeAdjustMin)
      ensures timeAdjustSec == old(timeAdjustSec) && notificationsEnabled == old(notificationsEnabled)
      ensures lastNotified == old(lastNotified) && lastHeading == old(lastHeading)
      ensures qiblaBearing == old(qiblaBearing)
    {
      timeAdjustSign := sign;
    }

    /**
     * `applyTimeAdjustment`: unchanged when the adjustment is 0; otherwise every
     * raw time is shifted by the adjustment and reformatted, under exactly the raw keys.
     */
    method ApplyTimeAdjustment(times: PrayerTable) returns (r: PrayerTable)
      ensures Adjustment() == 0.0 ==> r == times
      ensures Adjustment() != 0.0 ==> r.raw.Keys == times.raw.Keys && r.shown.Keys == times.raw.Keys
      ensures Adjustment() != 0.0 ==> forall p :: p in times.raw ==>
        r.raw[p] == Plus(times.raw[p], Adjustment()) && r.shown[p] == FormatAdjustedTime(r.raw[p])
    {
      var adj := Adjustment();
      if adj == 0.0 {
        return times;
      }
      r := AdjustTable(times, adj);
    }

    /**
     * `checkNotifications`: when enabled, notify (in order) each prayer that began less
     * than a minute ago and is not the last one notified, remembering it; forget the
     * last one in the first 36 seconds after midnight.
     */
    method CheckNotifications(times: PrayerTable, current: real) returns (notified: seq<Prayer>)
      modifies this
      ensures !old(notificationsEnabled) ==> notified == [] && lastNotified == old(lastNotified)
      ensures old(notificationsEnabled) ==> IsNotificationScan(times, current, old(lastNotified), notified)
      ensures old(notificationsEnabled) ==> (lastNotified ==
        if current < 0.01 then None else if notified == [] then old(lastNotified) else Some(notified[|notified| - 1]))
      ensures year == old(year) && month == old(month) && timeAdjustSign == old(timeAdjustSign)
      ensures timeAdjustMin == old(timeAdjustMin) && timeAdjustSec == old(timeAdjustSec)
      ensures notificationsEnabled == old(notificationsEnabled) && lastHeading == old(lastHeading)
      ensures qiblaBearing == old(qiblaBearing)
    {
      notified := [];
      if !notificationsEnabled {
        return;
      }
      var last;
      notified, last := ScanNotifications(times, current, lastNotified);
      lastNotified := last;
      if current < 0.01 {
        lastNotified := None;
      }
    }

    /**
     * `handleOrientation` after the heading is known: smooth it (20% of the turn,
     * taken the short way round), then the needle rotation towards the Qibla and the
     * signed turn hint.
     */
    method HandleOrientation(heading: real) returns (rotation: real, turnDiff: real)
      requires 0.0 <= heading <= 360.0 && 0.0 <= qiblaBearing < 360.0
      requires lastHeading.Some? ==> 0.0 <= lastHeading.value <= 360.0
      modifies this
      ensures old(lastHeading).None? ==> lastHeading == Some(heading)
      ensures old(lastHeading).Some? ==> (lastHeading.Some? &&
        lastHeading.value == FixAngle(old(lastHeading).value + WrapTurn(heading - old(lastHeading).value) * 0.2) &&
        0.0 <= lastHeading.value < 360.0)
      ensures lastHeading.Some? && 0.0 <= lastHeading.value <= 360.0
      ensures 0.0 <= rotation < 360.0 && rotation == FixAngle(qiblaBearing - lastHeading.value)
      ensures -180.0 < turnDiff <= 180.0 && turnDiff == TurnOf(rotation)
      ensures year == old(year) && month == old(month) && timeAdjustSign == old(timeAdjustSign)
      ensures timeAdjustMin == old(timeAdjustMin) && timeAdjustSec == old(timeAdjustSec)
      ensures notificationsEnabled == old(notificationsEnabled) && lastNotified == old(lastNotified)
      ensures qiblaBearing == old(qiblaBearing)
    {
      if lastHeading.None? {
        lastHeading := Some(heading);
      } else {
        var diff := heading - lastHeading.value;
        if diff > 180.0 {
          diff := diff - 360.0;
        }
        if diff < -180.0 {
          diff := diff + 360.0;
        }
        assert diff == WrapTurn(heading - lastHeading.value);
        var smoothed := lastHeading.value + diff * 0.2;
        var next := RealRem(smoothed + 360.0, 360.0);
        ShiftedIsFixAngle(smoothed, next);
        lastHeading := Some(next);
      }
      var current := lastHeading.value;
      rotation := RealRem(qiblaBearing - current + 360.0, 360.0);
      ShiftedIsFixAngle(qiblaBearing - current, rotation);
      turnDiff := rotation;
      if turnDiff > 180.0 {
        turnDiff := turnDiff - 360.0;
      }
    }

    /**
     * `renderCalendarGrid` without the markup: as many blanks as the weekday of the
     * month's first day, then one cell per day of the month, each with its weekday
     * counted on from the first and its Gregorian date.
     */
    method RenderCalendarGrid(adjustment: int) returns (cells: seq<Cell>)
      ensures var first := GetDayOfWeek(HijriDate(year, month, 1), adjustment);
        var blanks := if first > 0 then first else 0;
        |cells| == blanks + HijriMonthLength(year, month) &&
        (forall i :: 0 <= i < blanks ==> cells[i] == Padding) &&
        (forall d :: 1 <= d <= HijriMonthLength(year, month) ==>
          cells[blanks + d - 1] == DayCell(year, month, d, first, adjustment))
    {
      var monthLen := HijriMonthLength(year, month);
      var first := GetDayOfWeek(HijriDate(year, month, 1), adjustment);
      cells := [];
      var i := 0;
      while i < first
        invariant 0 <= i <= (if first > 0 then first else 0)
        invariant |cells| == i && forall k :: 0 <= k < i ==> cells[k] == Padding
      {
        cells := cells + [Padding];
        i := i + 1;
      }
      var blanks := |cells|;
      assert blanks == if first > 0 then first else 0;
      var day := 1;
      while day <= monthLen
        invariant 1 <= day <= (if monthLen > 0 then monthLen + 1 else 1)
        invariant |cells| == blanks + day - 1
        invariant forall k :: 0 <= k < blanks ==> cells[k] == Padding
        invariant forall d :: 1 <= d < day ==> cells[blanks + d - 1] == DayCell(year, month, d, first, adjustment)
      {
        cells := cells + [DayCell(year, month, day, first, adjustment)];
        day := day + 1;
      }
    }
  }

  /** Prayer `p` is done: its raw time shifted by `adj` hours and its display rebuilt from it by `format`. */
  predicate AdjustedAt(times: PrayerTable, adj: real, format: Option<real> -> Display,
                       raw: map<Prayer, Option<real>>, adjusted: map<Prayer, Display>, p: Prayer)
  {
    p in times.raw && p in raw && p in adjusted &&
    raw[p] == Plus(times.raw[p], adj) && adjusted[p] == format(raw[p])
  }

  /** The state of the adjustment loop: the prayers already done are shifted and reformatted, the rest untouched. */
  predicate AdjustedSoFar(times: PrayerTable, adj: real, format: Option<real> -> Display, todo: set<Prayer>,
                          raw: map<Prayer, Option<real>>, adjusted: map<Prayer, Display>)
  {
    todo <= times.raw.Keys && raw.Keys == times.raw.Keys &&
    adjusted.Keys == times.raw.Keys - todo &&
    (forall p :: p in todo ==> raw[p] == times.raw[p]) &&
    (forall p :: p in adjusted ==> AdjustedAt(times, adj, format, raw, adjusted, p))
  }

  /** The loop of `applyTimeAdjustment`: every raw time shifted by `adj` hours and reformatted. */
  method AdjustTable(times: PrayerTable, adj: real) returns (r: PrayerTable)
    ensures r.raw.Keys == times.raw.Keys && r.shown.Keys == times.raw.Keys
    ensures forall p :: p in times.raw ==>
      r.raw[p] == Plus(times.raw[p], adj) && r.shown[p] == FormatAdjustedTime(r.raw[p])
  {
    var raw := times.raw;
    var adjusted: map<Prayer, Display> := map[];
    var todo := times.raw.Keys;
    while todo != {}
      invariant AdjustedSoFar(times, adj, FormatAdjustedTime, todo, raw, adjusted)
      decreases todo
    {
      var p :| p in todo;
      var raw' := raw[p := Plus(raw[p], adj)];
      var adjusted' := adjusted[p := FormatAdjustedTime(raw'[p])];
      AdjustStep(times, adj, FormatAdjustedTime, todo, raw, adjusted, p, raw', adjusted');
      raw, adjusted, todo := raw', adjusted', todo - {p};
    }
    r := PrayerTable(adjusted, raw);
    AdjustComplete(times, adj, FormatAdjustedTime, r);
  }

  /** One iteration of the adjustment loop keeps its state description. */
  lemma AdjustStep(times: PrayerTable, adj: real, format: Option<real> -> Display, todo: set<Prayer>,
                   raw: map<Prayer, Option<real>>, adjusted: map<Prayer, Display>, p: Prayer,
                   raw': map<Prayer, Option<real>>, adjusted': map<Prayer, Display>)
    requires AdjustedSoFar(times, adj, format, todo, raw, adjusted) && p in todo
    requires raw' == raw[p := Plus(raw[p], adj)] && adjusted' == adjusted[p := format(raw'[p])]
    ensures AdjustedSoFar(times, adj, format, todo - {p}, raw', adjusted')
  {
    assert adjusted'.Keys == times.raw.Keys - (todo - {p});
    forall q | q in adjusted'
      ensures AdjustedAt(times, adj, format, raw', adjusted', q)
    {
      if q != p {
        assert AdjustedAt(times, adj, format, raw, adjusted, q);
      }
    }
  }

  /** When nothing is left to do, every prayer is shifted and reformatted. */
  lemma AdjustComplete(times: PrayerTable, adj: real, format: Option<real> -> Display, r: PrayerTable)
    requires AdjustedSoFar(times, adj, format, {}, r.raw, r.shown)
    ensures r.raw.Keys == times.raw.Keys && r.shown.Keys == times.raw.Keys
    ensures forall p :: p in times.raw ==>
      r.raw[p] == Plus(times.raw[p], adj) && r.shown[p] == format(r.raw[p])
  {
    forall p | p in times.raw
      ensures r.raw[p] == Plus(times.raw[p], adj) && r.shown[p] == format(r.raw[p])
    {
      assert AdjustedAt(times, adj, format, r.raw, r.shown, p);
    }
  }

  /** Position of a prayer in `NOTIFY_ORDER`; 5 for the prayers that are never notified. */
  function NotifyRank(p: Prayer): (k: nat)
    ensures k <= 5
    ensures k < 5 ==> NOTIFY_ORDER[k] == p
  {
    match p
    case Fajr => 0
    case Dhuhr => 1
    case Asr => 2
    case Maghrib => 3
    case Isha => 4
    case _ => 5
  }

  lemma RankOfNotifyOrder(i: int)
    requires 0 <= i < |NOTIFY_ORDER|
    ensures NotifyRank(NOTIFY_ORDER[i]) == i
  {
  }

  /**
   * When the pass reaches `p`, the last prayer notified is not `p`: either `p` differs from
   * the one notified before the pass, or a prayer checked earlier in the pass was notified.
   */
  predicate NotLastWhenReached(last: Option<Prayer>, notified: seq<Prayer>, p: Prayer)
  {
    last != Some(p) || exists k :: 0 <= k < |notified| && NotifyRank(notified[k]) < NotifyRank(p)
  }

  /**
   * What one notification pass raises: prayers of `NOTIFY_ORDER`, in that order, each
   * within its first minute; the first differs from the last one notified before; and
   * every prayer of `NOTIFY_ORDER` within its first minute that is not the last one
   * notified when the pass reaches it is raised.
   */
  predicate IsNotificationScan(times: PrayerTable, current: real, last: Option<Prayer>, notified: seq<Prayer>)
  {
    (forall i :: 0 <= i < |notified| ==> NotifyRank(notified[i]) < 5 && InWindow(times, notified[i], current)) &&
    (forall i, j :: 0 <= i < j < |notified| ==> NotifyRank(notified[i]) < NotifyRank(notified[j])) &&
    (|notified| > 0 ==> last != Some(notified[0])) &&
    (forall p :: (NotifyRank(p) < 5 && InWindow(times, p, current) && NotLastWhenReached(last, notified, p)) ==>
      p in notified)
  }

  /** After scanning the first `i` prayers of `NOTIFY_ORDER`: what was raised, and the last one notified. */
  predicate ScannedSoFar(times: PrayerTable, current: real, last: Option<Prayer>, i: int,
                         notified: seq<Prayer>, last': Option<Prayer>)
  {
    0 <= i <= |NOTIFY_ORDER| &&
    (forall k :: 0 <= k < |notified| ==> NotifyRank(notified[k]) < i && InWindow(times, notified[k], current)) &&
    (forall k, l :: 0 <= k < l < |notified| ==> NotifyRank(notified[k]) < NotifyRank(notified[l])) &&
    (|notified| > 0 ==> last != Some(notified[0])) &&
    (forall p :: (NotifyRank(p) < i && InWindow(times, p, current) && NotLastWhenReached(last, notified, p)) ==>
      p in notified) &&
    last' == (if notified == [] then last else Some(notified[|notified| - 1]))
  }

  /** One iteration of the scan: prayer `NOTIFY_ORDER[i]` is raised when due and not the last one notified. */
  lemma ScanStep(times: PrayerTable, current: real, last: Option<Prayer>, i: int,
                 notified: seq<Prayer>, last': Option<Prayer>)
    requires ScannedSoFar(times, current, last, i, notified, last') && i < |NOTIFY_ORDER|
    ensures var p := NOTIFY_ORDER[i];
      if InWindow(times, p, current) && last' != Some(p)
      then ScannedSoFar(times, current, last, i + 1, notified + [p], Some(p))
      else ScannedSoFar(times, current, last, i + 1, notified, last')
  {
    var p := NOTIFY_ORDER[i];
    RankOfNotifyOrder(i);
    if InWindow(times, p, current) && last' != Some(p) {
      ScanRaises(times, current, last, i, notified, last');
    } else {
      ScanSkips(times, current, last, i, notified, last');
    }
  }

  /** The only prayer of rank `i` below 5 is `NOTIFY_ORDER[i]`. */
  lemma RankDeterminesPrayer(i: int, q: Prayer)
    requires 0 <= i < |NOTIFY_ORDER| && NotifyRank(q) == i
    ensures q == NOTIFY_ORDER[i]
  {
  }

  /** The scan raising `NOTIFY_ORDER[i]`. */
  lemma ScanRaises(times: PrayerTable, current: real, last: Option<Prayer>, i: int,
                   notified: seq<Prayer>, last': Option<Prayer>)
    requires ScannedSoFar(times, current, last, i, notified, last') && i < |NOTIFY_ORDER|
    requires InWindow(times, NOTIFY_ORDER[i], current) && last' != Some(NOTIFY_ORDER[i])
    ensures ScannedSoFar(times, current, last, i + 1, notified + [NOTIFY_ORDER[i]], Some(NOTIFY_ORDER[i]))
  {
    var p := NOTIFY_ORDER[i];
    RankOfNotifyOrder(i);
    var next := notified + [p];
    assert forall k :: 0 <= k < |notified| ==> next[k] == notified[k];
    assert next[|notified|] == p;
    forall q | NotifyRank(q) < i + 1 && InWindow(times, q, current) && NotLastWhenReached(last, next, q)
      ensures q in next
    {
      if NotifyRank(q) == i {
        RankDeterminesPrayer(i, q);
      } else if last == Some(q) {
        var k :| 0 <= k < |next| && NotifyRank(next[k]) < NotifyRank(q);
        assert k < |notified|;
        assert q in notified;
      }
    }
  }

  /** The scan passing over `NOTIFY_ORDER[i]`. */
  lemma ScanSkips(times: PrayerTable, current: real, last: Option<Prayer>, i: int,
                  notified: seq<Prayer>, last': Option<Prayer>)
    requires ScannedSoFar(times, current, last, i, notified, last') && i < |NOTIFY_ORDER|
    requires !InWindow(times, NOTIFY_ORDER[i], current) || last' == Some(NOTIFY_ORDER[i])
    ensures ScannedSoFar(times, current, last, i + 1, notified, last')
  {
    var p := NOTIFY_ORDER[i];
    RankOfNotifyOrder(i);
    forall q | NotifyRank(q) < i + 1 && InWindow(times, q, current) && NotLastWhenReached(last, notified, q)
      ensures q in notified
    {
      if NotifyRank(q) == i {
        RankDeterminesPrayer(i, q);
      }
    }
  }

  /** A scan of all of `NOTIFY_ORDER` is a whole notification pass. */
  lemma ScanComplete(times: PrayerTable, current: real, last: Option<Prayer>, notified: seq<Prayer>, last': Option<Prayer>)
    requires ScannedSoFar(times, current, last, |NOTIFY_ORDER|, notified, last')
    ensures IsNotificationScan(times, current, last, notified)
  {
  }

  /** The loop of `checkNotifications`: the prayers raised and the last one notified afterwards. */
  method ScanNotifications(times: PrayerTable, current: real, last: Option<Prayer>)
    returns (notified: seq<Prayer>, last': Option<Prayer>)
    ensures IsNotificationScan(times, current, last, notified)
    ensures last' == if notified == [] then last else Some(notified[|notified| - 1])
  {
    notified, last' := [], last;
    var i := 0;
    while i < |NOTIFY_ORDER|
      invariant ScannedSoFar(times, current, last, i, notified, last')
    {
      var p := NOTIFY_ORDER[i];
      ScanStep(times, current, last, i, notified, last');
      if InWindow(times, p, current) && last' != Some(p) {
        last' := Some(p);
        notified := notified + [p];
      }
      i := i + 1;
    }
    ScanComplete(times, current, last, notified, last');
  }

  /** Every prayer a pass raises was not the last one notified when the pass reached it. */
  lemma RaisedWasNotLast(times: PrayerTable, current: real, last: Option<Prayer>, notified: seq<Prayer>, p: Prayer)
    requires IsNotificationScan(times, current, last, notified) && p in notified
    ensures NotLastWhenReached(last, notified, p)
  {
    var j :| 0 <= j < |notified| && notified[j] == p;
    if j > 0 {
      assert NotifyRank(notified[0]) < NotifyRank(p);
    }
  }

  /** Two passes over the same times and state raise the same prayers among those ranked below `n`. */
  lemma {:induction false} ScansAgreeBelow(times: PrayerTable, current: real, last: Option<Prayer>,
                                           a: seq<Prayer>, b: seq<Prayer>, n: nat)
    requires IsNotificationScan(times, current, last, a) && IsNotificationScan(times, current, last, b)
    ensures forall p :: NotifyRank(p) < n ==> (p in a <==> p in b)
    decreases n
  {
    if n > 0 {
      ScansAgreeBelow(times, current, last, a, b, n - 1);
      forall p | NotifyRank(p) == n - 1
        ensures p in a <==> p in b
      {
        if p in a {
          RaisedWasNotLast(times, current, last, a, p);
          if last == Some(p) {
            var k :| 0 <= k < |a| && NotifyRank(a[k]) < NotifyRank(p);
            assert a[k] in b;
          }
        }
        if p in b {
          RaisedWasNotLast(times, current, last, b, p);
          if last == Some(p) {
            var k :| 0 <= k < |b| && NotifyRank(b[k]) < NotifyRank(p);
            assert b[k] in a;
          }
        }
      }
    }
  }

  /** The prayers of `s` come in strictly increasing rank. */
  predicate RankOrdered(s: seq<Prayer>)
  {
    forall i, j :: 0 <= i < j < |s| ==> NotifyRank(s[i]) < NotifyRank(s[j])
  }

  /** Every later prayer of a rank-ordered sequence ranks above its first. */
  lemma RankOrderedHead(s: seq<Prayer>, p: Prayer)
    requires RankOrdered(s) && p in s && p != s[0]
    ensures NotifyRank(s[0]) < NotifyRank(p) && p in s[1..]
  {
    var k :| 0 <= k < |s| && s[k] == p;
    assert s[1..][k - 1] == p;
  }

  /** A prayer after the first of a rank-ordered sequence is not its first. */
  lemma RankOrderedTail(s: seq<Prayer>, p: Prayer)
    requires RankOrdered(s) && s != [] && p in s[1..]
    ensures p in s && p != s[0]
  {
    var k :| 0 <= k < |s[1..]| && s[1..][k] == p;
    assert s[k + 1] == p;
  }

  /** Rank-ordered sequences with the same members start with the same prayer. */
  lemma SameFirst(a: seq<Prayer>, b: seq<Prayer>)
    requires RankOrdered(a) && RankOrdered(b) && a != []
    requires forall p :: p in a <==> p in b
    ensures b != [] && a[0] == b[0]
  {
    assert a[0] in b;
    if a[0] != b[0] {
      assert b[0] in a;
      RankOrderedHead(a, b[0]);
      RankOrderedHead(b, a[0]);
    }
  }

  /** Two rank-ordered sequences with the same members are equal. */
  lemma {:induction false} RankOrderedByMembers(a: seq<Prayer>, b: seq<Prayer>)
    requires RankOrdered(a) && RankOrdered(b)
    requires forall p :: p in a <==> p in b
    ensures a == b
    decreases |a|
  {
    if a != [] {
      SameFirst(a, b);
      forall p
        ensures p in a[1..] <==> p in b[1..]
      {
        if p in a[1..] {
          RankOrderedTail(a, p);
          RankOrderedHead(b, p);
        }
        if p in b[1..] {
          RankOrderedTail(b, p);
          RankOrderedHead(a, p);
        }
      }
      RankOrderedByMembers(a[1..], b[1..]);
      assert a == [a[0]] + a[1..] && b == [b[0]] + b[1..];
    } else if b != [] {
      SameFirst(b, a);
    }
  }

  /** `IsNotificationScan` leaves no choice: it determines what a pass raises, and in which order. */
  lemma NotificationScanIsUnique(times: PrayerTable, current: real, last: Option<Prayer>, a: seq<Prayer>, b: seq<Prayer>)
    requires IsNotificationScan(times, current, last, a) && IsNotificationScan(times, current, last, b)
    ensures a == b
  {
    ScansAgreeBelow(times, current, last, a, b, 6);
    RankOrderedByMembers(a, b);
  }

  /** `parseInt(v) || 0`. */
  function OrZeroInt(o: Option<int>): int
  {
    if o.Some? then o.value else 0
  }
}

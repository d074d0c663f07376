/**
 * The figures the map popup derives from one reading: speed in km/h, an estimated battery
 * charge, a quality grade per dilution of precision, a fix label and the age of the reading.
 */
module TrackerPopup {

  import opened Decimal
  import Elapsed
  import opened TrackerReading

  // ---------------------------------------------------------------------------------------
  // Speed.

  const KmhPerKnot: real := 1.852

  function KnotsToKmh(kn: real): real {
    kn * KmhPerKnot
  }

  /** Standing still is 0 km/h, and a faster speed in knots is a faster speed in km/h. */
  lemma KnotsToKmhIncreasing(a: real, b: real)
    requires a < b
    ensures KnotsToKmh(0.0) == 0.0
    ensures KnotsToKmh(a) < KnotsToKmh(b)
  {
  }

  // ---------------------------------------------------------------------------------------
  // Battery charge.

  const EmptyMv: real := 2500.0
  const FullMv: real := 4200.0

  function Clamp(lo: real, hi: real, x: real): real {
    if x < lo then lo else if x > hi then hi else x
  }

  /**
   * The charge in percent: linear between an empty cell at 2500 mV and a full one at
   * 4200 mV, cut off at 0 and 100.
   */
  function EstimateBatteryPct(mv: real): (pct: real)
    ensures 0.0 <= pct <= 100.0
  {
    var raw := (mv - EmptyMv) / (FullMv - EmptyMv) * 100.0;
    Clamp(0.0, 100.0, raw)
  }

  /** Empty at or below 2500 mV, full at or above 4200 mV, a straight line in between. */
  lemma BatteryPctShape(mv: real)
    ensures mv <= 2500.0 ==> EstimateBatteryPct(mv) == 0.0
    ensures mv >= 4200.0 ==> EstimateBatteryPct(mv) == 100.0
    ensures 2500.0 <= mv <= 4200.0 ==> EstimateBatteryPct(mv) == (mv - 2500.0) / 17.0
    ensures 2500.0 < mv < 4200.0 ==> 0.0 < EstimateBatteryPct(mv) < 100.0
  {
  }

  /** A higher voltage never shows a lower charge. */
  lemma BatteryPctMonotone(a: real, b: real)
    requires a <= b
    ensures EstimateBatteryPct(a) <= EstimateBatteryPct(b)
  {
  }

  // ---------------------------------------------------------------------------------------
  // Dilution of precision.

  /** The six grades, best first. */
  datatype Quality = Ideal | Excellent | Good | Moderate | Fair | Poor

  function QualityLabel(q: Quality): string {
    match q
    case Ideal => "ideal"
    case Excellent => "exzellent"
    case Good => "gut"
    case Moderate => "mittel"
    case Fair => "mäßig"
    case Poor => "schlecht"
  }

  function QualityRank(q: Quality): nat {
    match q
    case Ideal => 0
    case Excellent => 1
    case Good => 2
    case Moderate => 3
    case Fair => 4
    case Poor => 5
  }

  /** The first grade whose inclusive upper bound the value does not exceed. */
  function DopQuality(dop: real): Quality {
    if dop <= 1.0 then Ideal
    else if dop <= 2.0 then Excellent
    else if dop <= 5.0 then Good
    else if dop <= 10.0 then Moderate
    else if dop <= 20.0 then Fair
    else Poor
  }

  /** The largest value a grade admits; the worst grade has no bound. */
  function UpperBound(q: Quality): real
    requires q != Poor
  {
    match q
    case Ideal => 1.0
    case Excellent => 2.0
    case Good => 5.0
    case Moderate => 10.0
    case Fair => 20.0
  }

  /** A value lies in a grade's band: at most its bound, above the bound of the grade before. */
  predicate InBand(dop: real, q: Quality) {
    && (q != Poor ==> dop <= UpperBound(q))
    && (q != Ideal ==> dop > UpperBound(Previous(q)))
  }

  function Previous(q: Quality): (p: Quality)
    requires q != Ideal
    ensures p != Poor && QualityRank(p) + 1 == QualityRank(q)
  {
    match q
    case Excellent => Ideal
    case Good => Excellent
    case Moderate => Good
    case Fair => Moderate
    case Poor => Fair
  }

  /** A value gets exactly the grade whose band it lies in. */
  lemma DopQualityBands(dop: real, q: Quality)
    ensures DopQuality(dop) == q <==> InBand(dop, q)
  {
  }

  /** The bounds belong to the better grade: 1 is ideal, 1.01 excellent, 20 fair, 20.01 poor. */
  lemma DopQualityBoundaries()
    ensures DopQuality(1.0) == Ideal && DopQuality(1.01) == Excellent
    ensures DopQuality(20.0) == Fair && DopQuality(20.01) == Poor
    ensures QualityLabel(DopQuality(20.0)) == "mäßig"
  {
  }

  /** A larger dilution never gets a better grade. */
  lemma DopQualityMonotone(a: real, b: real)
    requires a <= b
    ensures QualityRank(DopQuality(a)) <= QualityRank(DopQuality(b))
  {
  }

  // ---------------------------------------------------------------------------------------
  // Fix label.

  function FixLabel(fix: real): string {
    if fix == 3.0 then "3D-Fix" else if fix == 2.0 then "2D-Fix" else "Kein Fix"
  }

  /**
   * 3 and 2 get their own labels and every other code reads "no fix"; among the codes a
   * valid reading may carry, that is exactly 0.
   */
  lemma FixLabelCases(fix: real)
    ensures FixLabel(fix) == "3D-Fix" <==> fix == 3.0
    ensures FixLabel(fix) == "2D-Fix" <==> fix == 2.0
    ensures FixLabel(fix) == "Kein Fix" <==> fix != 2.0 && fix != 3.0
    ensures fix == 0.0 || fix == 2.0 || fix == 3.0 ==> (FixLabel(fix) == "Kein Fix" <==> fix == 0.0)
  {
  }

  // ---------------------------------------------------------------------------------------
  // Age of a reading.

  function AgeSuffix(u: Elapsed.Unit): string {
    match u
    case Seconds => "s"
    case Minutes => "m"
    case Hours => "h"
    case Days => "d"
  }

  /** The age label of a span: the amount followed by the unit's letter, with no space. */
  function AgeText(e: Elapsed.Elapsed): string {
    IntToString(e.amount) + AgeSuffix(e.unit)
  }

  /**
   * How long ago a reading was taken, the current time `now` and the reading's time both in
   * milliseconds. The seconds are never negative, and each larger unit is counted from the
   * previous one by a floor division.
   */
  function AgeFromNow(now: int, created: int): (text: string)
    ensures text == AgeText(Elapsed.Bucket(if (now - created) / 1000 < 0 then 0 else (now - created) / 1000))
  {
    var diff := now - created;
    var s := if diff / 1000 < 0 then 0 else diff / 1000;
    Elapsed.SuccessiveFloorsBucket(s);
    if s < 60 then IntToString(s) + "s"
    else
      var m := s / 60;
      if m < 60 then IntToString(m) + "m"
      else
        var h := m / 60;
        if h < 24 then IntToString(h) + "h"
        else
          var days := h / 24;
          IntToString(days) + "d"
  }

  /** A reading stamped in the future, or less than a second ago, is "0s" old. */
  lemma AgeOfFutureReading(now: int, created: int)
    requires now - created < 1000
    ensures AgeFromNow(now, created) == "0s"
  {
    assert IntToString(0) == "0";
  }

  /** The age label determines the amount and the unit it was printed from. */
  lemma AgeTextInjective(e: Elapsed.Elapsed, f: Elapsed.Elapsed)
    requires AgeText(e) == AgeText(f)
    ensures e == f
  {
    NumberPrefixFree(e.amount, f.amount, AgeSuffix(e.unit), AgeSuffix(f.unit));
  }

  // ---------------------------------------------------------------------------------------
  // The popup.

  /** The voltage the tracker's measurement reads above the cell's own voltage. */
  const SupplyOffsetMv: real := 284.0

  datatype PopupContent = PopupContent(
    fix: string,
    kmh: real,
    battPct: real,
    battMv: real,      // shown as "… mV"
    solarMv: real,     // shown as "… mV"
    pdop: Quality,
    hdop: Quality,
    vdop: Quality,
    age: string
  )

  /** What the popup shows for a reading taken at `created`, at time `now` (milliseconds). */
  function TrackerPopupContent(r: Reading, created: int, now: int): PopupContent {
    PopupContent(
      FixLabel(r.isFix),
      KnotsToKmh(r.speed),
      EstimateBatteryPct(r.battMv - SupplyOffsetMv),
      r.battMv - SupplyOffsetMv,
      r.solarMv - SupplyOffsetMv,
      DopQuality(r.pdop),
      DopQuality(r.hdop),
      DopQuality(r.vdop),
      AgeFromNow(now, created)
    )
  }

  /**
   * Both voltages are shown 284 mV below the measured value, and the charge is estimated from
   * the lowered battery voltage, so it reads empty up to 2784 mV measured and full from
   * 4484 mV measured.
   */
  lemma PopupSupply(r: Reading, created: int, now: int)
    ensures var p := TrackerPopupContent(r, created, now);
      && p.battMv + 284.0 == r.battMv && p.solarMv + 284.0 == r.solarMv
      && (p.battPct == 0.0 <==> r.battMv <= 2784.0)
      && (p.battPct == 100.0 <==> r.battMv >= 4484.0)
  {
    BatteryPctShape(r.battMv - SupplyOffsetMv);
  }
}

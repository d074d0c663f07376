/**
 * One tracker reading: the per-field schema a payload must satisfy, the collecting validator
 * built from it, and the shapes in which a reading is stored and sent to the browser.
 */
module TrackerReading {

  import opened Wrappers
  import opened Json
  import ObjectId

  /** The keys of the schema. */
  datatype Field =
    | IsFix
    | GpsSatelliteNum | BeidouSatelliteNum | GlonassSatelliteNum | GalileoSatelliteNum
    | Latitude | NsIndicator | Longitude | EwIndicator
    | Year | Month | Day | Hour | Minute | Second
    | Altitude | Speed | Course
    | Pdop | Hdop | Vdop
    | Gsv | Gsu
    | BattMv | SolarMv


  /** Where the schema declares a field. */
  function Position(f: Field): nat {
    match f
    case IsFix => 0
    case GpsSatelliteNum => 1
    case BeidouSatelliteNum => 2
    case GlonassSatelliteNum => 3
    case GalileoSatelliteNum => 4
    case Latitude => 5
    case NsIndicator => 6
    case Longitude => 7
    case EwIndicator => 8
    case Year => 9
    case Month => 10
    case Day => 11
    case Hour => 12
    case Minute => 13
    case Second => 14
    case Altitude => 15
    case Speed => 16
    case Course => 17
    case Pdop => 18
    case Hdop => 19
    case Vdop => 20
    case Gsv => 21
    case Gsu => 22
    case BattMv => 23
    case SolarMv => 24
  }

  /** Every key, in the order the schema declares them; issues are reported in this order. */
  const Fields: seq<Field> := [
    IsFix,
    GpsSatelliteNum, BeidouSatelliteNum, GlonassSatelliteNum, GalileoSatelliteNum,
    Latitude, NsIndicator, Longitude, EwIndicator,
    Year, Month, Day, Hour, Minute, Second,
    Altitude, Speed, Course,
    Pdop, Hdop, Vdop,
    Gsv, Gsu,
    BattMv, SolarMv
  ]

  /** The property name of a field in the JSON payload. */
  function Key(f: Field): string {
    match f
    case IsFix => "isFix"
    case GpsSatelliteNum => "gps_satellite_num"
    case BeidouSatelliteNum => "beidou_satellite_num"
    case GlonassSatelliteNum => "glonass_satellite_num"
    case GalileoSatelliteNum => "galileo_satellite_num"
    case Latitude => "latitude"
    case NsIndicator => "NS_indicator"
    case Longitude => "longitude"
    case EwIndicator => "EW_indicator"
    case Year => "year"
    case Month => "month"
    case Day => "day"
    case Hour => "hour"
    case Minute => "minute"
    case Second => "second"
    case Altitude => "altitude"
    case Speed => "speed"
    case Course => "course"
    case Pdop => "PDOP"
    case Hdop => "HDOP"
    case Vdop => "VDOP"
    case Gsv => "GSV"
    case Gsu => "GSU"
    case BattMv => "batt_mv"
    case SolarMv => "solar_mv"
  }

  /** The kinds of constraint the schema places on a single field. */
  datatype Rule =
    | Literals(numbers: set<real>)                              // a union of number literals
    | Letters(strings: set<string>)                             // an enumeration of strings
    | Number(integer: bool, min: Option<real>, max: Option<real>) // a number, bounds inclusive

  function RuleOf(f: Field): Rule {
    match f
    case IsFix => Literals({0.0, 2.0, 3.0})
    case GpsSatelliteNum | BeidouSatelliteNum | GlonassSatelliteNum | GalileoSatelliteNum =>
      Number(true, Some(0.0), Some(65535.0))
    case Latitude => Number(false, Some(-90.0), Some(90.0))
    case NsIndicator => Letters({"N", "S"})
    case Longitude => Number(false, Some(-180.0), Some(180.0))
    case EwIndicator => Letters({"E", "W"})
    case Year => Number(true, Some(2000.0), Some(2100.0))
    case Month => Number(true, Some(1.0), Some(12.0))
    case Day => Number(true, Some(1.0), Some(31.0))
    case Hour => Number(true, Some(0.0), Some(23.0))
    case Minute | Second => Number(true, Some(0.0), Some(59.0))
    case Altitude => Number(false, Some(-1000.0), Some(20000.0))
    case Speed => Number(false, Some(0.0), None)
    case Course => Number(false, Some(0.0), Some(360.0))
    case Pdop | Hdop | Vdop | Gsv | Gsu => Number(false, Some(0.0), None)
    case BattMv | SolarMv => Number(true, Some(0.0), Some(100000.0))
  }

  /** Why a value was rejected. */
  datatype Reason =
    | ExpectedObject      // the payload itself is not an object
    | NoLiteralMatches    // none of the union's literals equals the value
    | NotAnOption         // the value is not one of the enumeration's strings
    | ExpectedNumber      // the value is not a number at all
    | ExpectedInteger     // the value is a number with a fractional part
    | TooSmall(minimum: real)
    | TooBig(maximum: real)

  /** One validation issue: where (the property path) and why. */
  datatype Issue = Issue(path: seq<string>, reason: Reason)

  predicate IsInteger(x: real) {
    x.Floor as real == x
  }

  /**
   * The first constraint of a rule that a value breaks, if any. A number that is not an
   * integer is reported as such and its bounds are not looked at; a number breaks at most one
   * of its two bounds.
   */
  function Check(rule: Rule, v: Json): Option<Reason> {
    match rule
    case Literals(numbers) =>
      if v.JNum? && v.num in numbers then None else Some(NoLiteralMatches)
    case Letters(strings) =>
      if v.JStr? && v.str in strings then None else Some(NotAnOption)
    case Number(integer, min, max) =>
      if !v.JNum? then Some(ExpectedNumber)
      else if integer && !IsInteger(v.num) then Some(ExpectedInteger)
      else if min.Some? && v.num < min.value then Some(TooSmall(min.value))
      else if max.Some? && v.num > max.value then Some(TooBig(max.value))
      else None
  }

  /** The issue a field of the payload object raises, if any. */
  function FieldIssue(obj: map<string, Json>, f: Field): Option<Issue> {
    match Check(RuleOf(f), Get(obj, Key(f)))
    case None => None
    case Some(reason) => Some(Issue([Key(f)], reason))
  }

  predicate Fails(obj: map<string, Json>, f: Field) {
    FieldIssue(obj, f).Some?
  }

  /** The results `pick` gives for the elements of `xs`, in order, dropping the `None`s. */
  function Collect<T, U>(xs: seq<T>, pick: T -> Option<U>): seq<U> {
    if xs == [] then []
    else
      var rest := Collect(xs[1..], pick);
      match pick(xs[0])
      case None => rest
      case Some(u) => [u] + rest
  }

  /** The issue check of one payload object, as a function of the field. */
  function CheckOf(obj: map<string, Json>): Field -> Option<Issue> {
    f => FieldIssue(obj, f)
  }

  /** Every field is checked; the issues of all failing fields are collected, in order. */
  function IssuesOf(obj: map<string, Json>): seq<Issue> {
    Collect(Fields, CheckOf(obj))
  }

  /** A validated reading: the output of the schema. */
  datatype Reading = Reading(
    isFix: real,
    gpsSatelliteNum: real,
    beidouSatelliteNum: real,
    glonassSatelliteNum: real,
    galileoSatelliteNum: real,
    latitude: real,
    nsIndicator: string,
    longitude: real,
    ewIndicator: string,
    year: real,
    month: real,
    day: real,
    hour: real,
    minute: real,
    second: real,
    altitude: real,          // metres
    speed: real,             // knots
    course: real,            // degrees
    pdop: real,
    hdop: real,
    vdop: real,
    gsv: real,               // satellites in view
    gsu: real,               // satellites used
    battMv: real,            // millivolts
    solarMv: real            // millivolts
  )

  /** A reading as it is stored: the reading plus its document id, owning key and stamp. */
  datatype StoredReading = StoredReading(
    id: ObjectId.Id,
    apiKeyId: string,
    createdAt: int,          // milliseconds since the epoch
    reading: Reading
  )

  /** A stored reading as the dashboard sends it: id and stamp turned into strings. */
  datatype SerializedReading = SerializedReading(
    id: string,
    apiKeyId: string,
    createdAt: string,
    reading: Reading
  )

  /** The JSON value a reading holds for a field. */
  function FieldValue(r: Reading, f: Field): Json {
    match f
    case IsFix => JNum(r.isFix)
    case GpsSatelliteNum => JNum(r.gpsSatelliteNum)
    case BeidouSatelliteNum => JNum(r.beidouSatelliteNum)
    case GlonassSatelliteNum => JNum(r.glonassSatelliteNum)
    case GalileoSatelliteNum => JNum(r.galileoSatelliteNum)
    case Latitude => JNum(r.latitude)
    case NsIndicator => JStr(r.nsIndicator)
    case Longitude => JNum(r.longitude)
    case EwIndicator => JStr(r.ewIndicator)
    case Year => JNum(r.year)
    case Month => JNum(r.month)
    case Day => JNum(r.day)
    case Hour => JNum(r.hour)
    case Minute => JNum(r.minute)
    case Second => JNum(r.second)
    case Altitude => JNum(r.altitude)
    case Speed => JNum(r.speed)
    case Course => JNum(r.course)
    case Pdop => JNum(r.pdop)
    case Hdop => JNum(r.hdop)
    case Vdop => JNum(r.vdop)
    case Gsv => JNum(r.gsv)
    case Gsu => JNum(r.gsu)
    case BattMv => JNum(r.battMv)
    case SolarMv => JNum(r.solarMv)
  }

  /** A reading as a JSON payload object: one property per schema key. */
  function ToJson(r: Reading): Json {
    KeysDistinct();
    JObj(map f | f in Fields :: Key(f) := FieldValue(r, f))
  }

  function NumberAt(obj: map<string, Json>, key: string): real {
    var v := Get(obj, key);
    if v.JNum? then v.num else 0.0
  }

  function StringAt(obj: map<string, Json>, key: string): string {
    var v := Get(obj, key);
    if v.JStr? then v.str else ""
  }

  /** The reading made of the schema's keys of an object; keys outside the schema are dropped. */
  function Build(obj: map<string, Json>): Reading {
    Reading(
      NumberAt(obj, "isFix"),
      NumberAt(obj, "gps_satellite_num"),
      NumberAt(obj, "beidou_satellite_num"),
      NumberAt(obj, "glonass_satellite_num"),
      NumberAt(obj, "galileo_satellite_num"),
      NumberAt(obj, "latitude"),
      StringAt(obj, "NS_indicator"),
      NumberAt(obj, "longitude"),
      StringAt(obj, "EW_indicator"),
      NumberAt(obj, "year"),
      NumberAt(obj, "month"),
      NumberAt(obj, "day"),
      NumberAt(obj, "hour"),
      NumberAt(obj, "minute"),
      NumberAt(obj, "second"),
      NumberAt(obj, "altitude"),
      NumberAt(obj, "speed"),
      NumberAt(obj, "course"),
      NumberAt(obj, "PDOP"),
      NumberAt(obj, "HDOP"),
      NumberAt(obj, "VDOP"),
      NumberAt(obj, "GSV"),
      NumberAt(obj, "GSU"),
      NumberAt(obj, "batt_mv"),
      NumberAt(obj, "solar_mv")
    )
  }

  /**
   * The schema's parse: a non-object payload is one issue at the root; otherwise every
   * field is checked and the reading is accepted only when no field raised an issue.
   */
  function Validate(raw: Json): Result<Reading, seq<Issue>> {
    if !raw.JObj? then Failure([Issue([], ExpectedObject)])
    else
      var issues := IssuesOf(raw.fields);
      if issues == [] then Success(Build(raw.fields)) else Failure(issues)
  }

  // ---------------------------------------------------------------------------------------
  // The invariants of a validated reading, written out field by field.

  predicate InRange(x: real, lo: real, hi: real) {
    lo <= x <= hi
  }

  predicate IsIntegerIn(x: real, lo: real, hi: real) {
    IsInteger(x) && lo <= x <= hi
  }

  /** Fix code and satellite counts. */
  predicate ValidGnss(r: Reading) {
    && (r.isFix == 0.0 || r.isFix == 2.0 || r.isFix == 3.0)
    && IsIntegerIn(r.gpsSatelliteNum, 0.0, 65535.0)
    && IsIntegerIn(r.beidouSatelliteNum, 0.0, 65535.0)
    && IsIntegerIn(r.glonassSatelliteNum, 0.0, 65535.0)
    && IsIntegerIn(r.galileoSatelliteNum, 0.0, 65535.0)
  }

  /** Coordinates and hemisphere letters, which need not agree with the coordinates' signs. */
  predicate ValidPosition(r: Reading) {
    && InRange(r.latitude, -90.0, 90.0)
    && (r.nsIndicator == "N" || r.nsIndicator == "S")
    && InRange(r.longitude, -180.0, 180.0)
    && (r.ewIndicator == "E" || r.ewIndicator == "W")
  }

  /** Calendar fields, each bounded on its own: no check that the day exists in the month. */
  predicate ValidTimestamp(r: Reading) {
    && IsIntegerIn(r.year, 2000.0, 2100.0)
    && IsIntegerIn(r.month, 1.0, 12.0)
    && IsIntegerIn(r.day, 1.0, 31.0)
    && IsIntegerIn(r.hour, 0.0, 23.0)
    && IsIntegerIn(r.minute, 0.0, 59.0)
    && IsIntegerIn(r.second, 0.0, 59.0)
  }

  /** Altitude, speed and course. */
  predicate ValidMotion(r: Reading) {
    && InRange(r.altitude, -1000.0, 20000.0)
    && r.speed >= 0.0
    && InRange(r.course, 0.0, 360.0)
  }

  /** Dilution of precision and satellite totals: only non-negative, with no relation between them. */
  predicate ValidPrecision(r: Reading) {
    r.pdop >= 0.0 && r.hdop >= 0.0 && r.vdop >= 0.0 && r.gsv >= 0.0 && r.gsu >= 0.0
  }

  /** Battery and solar voltages. */
  predicate ValidSupply(r: Reading) {
    && IsIntegerIn(r.battMv, 0.0, 100000.0)
    && IsIntegerIn(r.solarMv, 0.0, 100000.0)
  }

  /** The schema's rule for a field holds of a reading's value for that field. */
  predicate Accepts(r: Reading, f: Field) {
    Check(RuleOf(f), FieldValue(r, f)) == None
  }

  /** The invariants every validated reading satisfies. */
  predicate ValidReading(r: Reading) {
    ValidGnss(r) && ValidPosition(r) && ValidTimestamp(r) && ValidMotion(r) && ValidPrecision(r)
    && ValidSupply(r)
  }

  // ---------------------------------------------------------------------------------------
  // Keys name fields one to one.

  /**
   * The field a key of the schema belongs to, told apart by the key's length and its first
   * and third character alone. This is cheaper to reason about than comparing keys whole.
   */
  function FieldOfShape(len: int, first: char, third: char): Field {
    if len == 3 then (if first == 'd' then Day else if third == 'V' then Gsv else Gsu)
    else if len == 4 then
      (if first == 'y' then Year else if first == 'h' then Hour else if first == 'P' then Pdop
       else if first == 'H' then Hdop else Vdop)
    else if len == 5 then (if first == 'i' then IsFix else if first == 'm' then Month else Speed)
    else if len == 6 then (if first == 'm' then Minute else if first == 's' then Second else Course)
    else if len == 7 then BattMv
    else if len == 8 then (if first == 'l' then Latitude else if first == 'a' then Altitude else SolarMv)
    else if len == 9 then Longitude
    else if len == 12 then (if first == 'N' then NsIndicator else EwIndicator)
    else if len == 17 then GpsSatelliteNum
    else if len == 20 then BeidouSatelliteNum
    else if third == 'o' then GlonassSatelliteNum
    else GalileoSatelliteNum
  }

  function FieldOfKey(key: string): Field {
    if |key| < 3 then IsFix else FieldOfShape(|key|, key[0], key[2])
  }

  /** Reading a field back from its key gives the field. */
  lemma FieldOfKeyInverse(f: Field)
    ensures FieldOfKey(Key(f)) == f
  {
  }

  /** Two fields never share a key, so an issue's path names exactly one field. */
  lemma KeyInjective(f: Field, g: Field)
    requires Key(f) == Key(g)
    ensures f == g
  {
    FieldOfKeyInverse(f);
    FieldOfKeyInverse(g);
  }

  lemma KeysDistinct()
    ensures forall f, g :: Key(f) == Key(g) ==> f == g
  {
    forall f, g | Key(f) == Key(g)
      ensures f == g
    {
      KeyInjective(f, g);
    }
  }

  /** The position of the field listed at an index is that index. */
  lemma PositionOfIndex(i: int)
    requires 0 <= i < |Fields|
    ensures Position(Fields[i]) == i
  {
  }

  /** The schema lists every field. */
  lemma FieldsComplete(f: Field)
    ensures Position(f) < |Fields| && Fields[Position(f)] == f
    ensures f in Fields
  {
  }

  // ---------------------------------------------------------------------------------------
  // The collecting validator.

  /** Each collected value comes from an element, and each element that gives one is there. */
  lemma {:induction false} CollectSound<T, U>(xs: seq<T>, pick: T -> Option<U>)
    ensures forall k :: 0 <= k < |Collect(xs, pick)| ==>
      exists x :: x in xs && pick(x) == Some(Collect(xs, pick)[k])
    ensures forall x :: x in xs && pick(x).Some? ==> pick(x).value in Collect(xs, pick)
    ensures Collect(xs, pick) == [] <==> forall x :: x in xs ==> pick(x).None?
  {
    if xs != [] {
      CollectSound(xs[1..], pick);
      var all, rest := Collect(xs, pick), Collect(xs[1..], pick);
      forall x | x in xs && pick(x).Some?
        ensures pick(x).value in all
      {
        if x != xs[0] {
          assert x in xs[1..];
        }
      }
      forall k | 0 <= k < |all|
        ensures exists x :: x in xs && pick(x) == Some(all[k])
      {
        if pick(xs[0]).Some? && k == 0 {
          assert all[0] == pick(xs[0]).value;
          assert xs[0] in xs && pick(xs[0]) == Some(all[k]);
        } else {
          var j := if pick(xs[0]).Some? then k - 1 else k;
          assert all[k] == rest[j];
          var y :| y in xs[1..] && pick(y) == Some(rest[j]);
          assert y in xs;
        }
      }
      if all == [] {
        forall x | x in xs
          ensures pick(x).None?
        {
          if x != xs[0] {
            assert x in xs[1..];
          }
        }
      }
    } else {
      assert Collect(xs, pick) == [];
    }
  }

  /**
   * When distinct elements never give values with the same tag, no two collected values
   * share a tag.
   */
  lemma {:induction false} CollectLabelsDistinct<T, U, L>(xs: seq<T>, pick: T -> Option<U>, tagOf: U -> L)
    requires forall i, j :: 0 <= i < j < |xs| ==> xs[i] != xs[j]
    requires forall x, y ::
      (x in xs && y in xs && pick(x).Some? && pick(y).Some? &&
       tagOf(pick(x).value) == tagOf(pick(y).value)) ==> x == y
    ensures forall i, j :: 0 <= i < j < |Collect(xs, pick)| ==>
      tagOf(Collect(xs, pick)[i]) != tagOf(Collect(xs, pick)[j])
  {
    if xs != [] {
      var all, rest := Collect(xs, pick), Collect(xs[1..], pick);
      assert forall i, j :: 0 <= i < j < |xs[1..]| ==> xs[1..][i] != xs[1..][j] by {
        forall i, j | 0 <= i < j < |xs[1..]|
          ensures xs[1..][i] != xs[1..][j]
        {
          assert xs[1..][i] == xs[i + 1] && xs[1..][j] == xs[j + 1];
        }
      }
      CollectLabelsDistinct(xs[1..], pick, tagOf);
      if pick(xs[0]).Some? {
        CollectSound(xs[1..], pick);
        var u := pick(xs[0]).value;
        forall j | 0 <= j < |rest|
          ensures tagOf(rest[j]) != tagOf(u)
        {
          var y :| y in xs[1..] && pick(y) == Some(rest[j]);
          var m :| 0 <= m < |xs[1..]| && xs[1..][m] == y;
          assert xs[m + 1] == y && xs[0] != y;
        }
        assert all == [u] + rest;
        forall i, j | 0 <= i < j < |all|
          ensures tagOf(all[i]) != tagOf(all[j])
        {
          assert all[j] == rest[j - 1];
          if i > 0 {
            assert all[i] == rest[i - 1];
          }
        }
      }
    }
  }

  /**
   * When every value an element gives carries that element's name, and names are unique,
   * an element gives a value exactly when some collected value carries its name.
   */
  lemma CollectNamed<T, U, L>(xs: seq<T>, pick: T -> Option<U>, tagOf: U -> L, name: T -> L, x: T)
    requires x in xs
    requires forall y :: y in xs && pick(y).Some? ==> tagOf(pick(y).value) == name(y)
    requires forall y :: y in xs && name(y) == name(x) ==> y == x
    ensures pick(x).Some? <==>
      exists k :: 0 <= k < |Collect(xs, pick)| && tagOf(Collect(xs, pick)[k]) == name(x)
  {
    CollectSound(xs, pick);
    var all := Collect(xs, pick);
    if pick(x).Some? {
      var k :| 0 <= k < |all| && all[k] == pick(x).value;
      assert tagOf(all[k]) == name(x);
    }
    if k :| 0 <= k < |all| && tagOf(all[k]) == name(x) {
      var y :| y in xs && pick(y) == Some(all[k]);
      assert name(y) == name(x);
    }
  }

  /** The schema lists each field once. */
  lemma FieldsDistinct()
    ensures forall i, j :: 0 <= i < j < |Fields| ==> Fields[i] != Fields[j]
  {
    forall i, j | 0 <= i < j < |Fields|
      ensures Fields[i] != Fields[j]
    {
      PositionOfIndex(i);
      PositionOfIndex(j);
    }
  }

  /** A payload is accepted exactly when it is an object none of whose fields fails. */
  lemma ValidateSucceedsIff(raw: Json)
    ensures Validate(raw).Success? <==>
      raw.JObj? && forall f :: f in Fields ==> !Fails(raw.fields, f)
  {
    if raw.JObj? {
      CollectSound(Fields, CheckOf(raw.fields));
    }
  }

  lemma FieldIssuePath(obj: map<string, Json>, f: Field)
    requires Fails(obj, f)
    ensures FieldIssue(obj, f).value.path == [Key(f)]
  {
  }

  /** The path of a field names that field only. */
  lemma PathNamesField(f: Field)
    ensures forall g :: [Key(g)] == [Key(f)] ==> g == f
  {
    forall g | [Key(g)] == [Key(f)]
      ensures g == f
    {
      assert Key(g) == [Key(g)][0];
      KeyInjective(g, f);
    }
  }

  /** Two issues of one payload never name the same field. */
  lemma IssuePathsDistinct(obj: map<string, Json>)
    ensures forall i, j :: 0 <= i < j < |IssuesOf(obj)| ==> IssuesOf(obj)[i].path != IssuesOf(obj)[j].path
  {
    var pick := CheckOf(obj);
    FieldsDistinct();
    forall f, g | f in Fields && g in Fields && pick(f).Some? && pick(g).Some? &&
      pick(f).value.path == pick(g).value.path
      ensures f == g
    {
      FieldIssuePath(obj, f);
      FieldIssuePath(obj, g);
      assert [Key(f)] == [Key(g)];
      KeyInjective(f, g);
    }
    CollectLabelsDistinct(Fields, pick, (i: Issue) => i.path);
  }

  lemma CollectedAtPathIff(obj: map<string, Json>, f: Field)
    ensures Fails(obj, f) <==>
      exists k :: 0 <= k < |Collect(Fields, CheckOf(obj))| && Collect(Fields, CheckOf(obj))[k].path == [Key(f)]
  {
    FieldsComplete(f);
    PathNamesField(f);
    CollectNamed(Fields, CheckOf(obj), (i: Issue) => i.path, g => [Key(g)], f);
  }

  /** An issue is listed at the path of a field exactly when that field fails. */
  lemma IssueAtPathIff(obj: map<string, Json>, f: Field)
    ensures Fails(obj, f) <==>
      exists k :: 0 <= k < |IssuesOf(obj)| && IssuesOf(obj)[k].path == [Key(f)]
  {
    var issues := IssuesOf(obj);
    assert issues == Collect(Fields, CheckOf(obj));
    CollectedAtPathIff(obj, f);
    if Fails(obj, f) {
      var k :| 0 <= k < |issues| && issues[k].path == [Key(f)];
    }
  }

  /**
   * A rejected object lists exactly one issue for each failing field, at that field's path,
   * and nothing else: all failures are collected, not only the first.
   */
  lemma ValidateCollectsIssues(raw: Json)
    requires raw.JObj? && Validate(raw).Failure?
    ensures var issues := Validate(raw).error;
      && (forall f :: Fails(raw.fields, f) <==>
            exists k :: 0 <= k < |issues| && issues[k].path == [Key(f)])
      && (forall k :: 0 <= k < |issues| ==>
            exists f :: Fails(raw.fields, f) && issues[k] == FieldIssue(raw.fields, f).value)
      && (forall i, j :: 0 <= i < j < |issues| ==> issues[i].path != issues[j].path)
  {
    var obj := raw.fields;
    assert Validate(raw).error == IssuesOf(obj);
    CollectSound(Fields, CheckOf(obj));
    IssuePathsDistinct(obj);
    forall f
      ensures Fails(obj, f) <==> exists k :: 0 <= k < |IssuesOf(obj)| && IssuesOf(obj)[k].path == [Key(f)]
    {
      IssueAtPathIff(obj, f);
    }
  }

  /** The value of every schema key of an accepted object, with the value's string or number. */
  lemma BuildFieldValue(obj: map<string, Json>, f: Field)
    requires !Fails(obj, f)
    ensures FieldValue(Build(obj), f) == Get(obj, Key(f))
  {
  }

  /**
   * An accepted payload yields a reading equal, field for field, to the payload's values;
   * keys outside the schema are dropped.
   */
  lemma ValidateKeepsValues(raw: Json)
    requires Validate(raw).Success?
    ensures raw.JObj?
    ensures forall f :: FieldValue(Validate(raw).value, f) == Get(raw.fields, Key(f))
  {
    ValidateSucceedsIff(raw);
    forall f
      ensures FieldValue(Validate(raw).value, f) == Get(raw.fields, Key(f))
    {
      FieldsComplete(f);
      BuildFieldValue(raw.fields, f);
    }
  }

  /** What the validator accepts satisfies every invariant of a reading. */
  lemma ValidateEnsuresValidReading(raw: Json)
    requires Validate(raw).Success?
    ensures ValidReading(Validate(raw).value)
  {
    ValidateSucceedsIff(raw);
    ValidateKeepsValues(raw);
    var r := Validate(raw).value;
    forall f
      ensures Accepts(r, f)
    {
      FieldsComplete(f);
    }
    ValidFromChecks(r);
  }

  lemma ValidGnssFromChecks(r: Reading)
    requires Accepts(r, IsFix) && Accepts(r, GpsSatelliteNum) && Accepts(r, BeidouSatelliteNum) && Accepts(r, GlonassSatelliteNum) && Accepts(r, GalileoSatelliteNum)
    ensures ValidGnss(r)
  {
  }

  lemma ValidPositionFromChecks(r: Reading)
    requires Accepts(r, Latitude) && Accepts(r, NsIndicator) && Accepts(r, Longitude) && Accepts(r, EwIndicator)
    ensures ValidPosition(r)
  {
  }

  lemma ValidTimestampFromChecks(r: Reading)
    requires Accepts(r, Year) && Accepts(r, Month) && Accepts(r, Day) && Accepts(r, Hour) && Accepts(r, Minute) && Accepts(r, Second)
    ensures ValidTimestamp(r)
  {
  }

  lemma ValidMotionFromChecks(r: Reading)
    requires Accepts(r, Altitude) && Accepts(r, Speed) && Accepts(r, Course)
    ensures ValidMotion(r)
  {
  }

  lemma ValidPrecisionFromChecks(r: Reading)
    requires Accepts(r, Pdop) && Accepts(r, Hdop) && Accepts(r, Vdop) && Accepts(r, Gsv) && Accepts(r, Gsu)
    ensures ValidPrecision(r)
  {
  }

  lemma ValidSupplyFromChecks(r: Reading)
    requires Accepts(r, BattMv) && Accepts(r, SolarMv)
    ensures ValidSupply(r)
  {
  }

  lemma ValidFromChecks(r: Reading)
    requires forall f :: Accepts(r, f)
    ensures ValidReading(r)
  {
    ValidGnssFromChecks(r);
    ValidPositionFromChecks(r);
    ValidTimestampFromChecks(r);
    ValidMotionFromChecks(r);
    ValidPrecisionFromChecks(r);
    ValidSupplyFromChecks(r);
  }

  lemma ChecksFromValid(r: Reading, f: Field)
    requires ValidReading(r)
    ensures Accepts(r, f)
  {
  }

  lemma ToJsonField(r: Reading, f: Field)
    ensures ToJson(r).JObj? && Get(ToJson(r).fields, Key(f)) == FieldValue(r, f)
  {
    KeysDistinct();
    FieldsComplete(f);
    var m := ToJson(r).fields;
    assert Key(f) in m;
    assert m[Key(f)] == FieldValue(r, f);
  }

  lemma SameGnss(a: Reading, b: Reading)
    requires forall f :: FieldValue(a, f) == FieldValue(b, f)
    ensures a.isFix == b.isFix && a.gpsSatelliteNum == b.gpsSatelliteNum && a.beidouSatelliteNum == b.beidouSatelliteNum && a.glonassSatelliteNum == b.glonassSatelliteNum && a.galileoSatelliteNum == b.galileoSatelliteNum
  {
    assert FieldValue(a, IsFix) == FieldValue(b, IsFix);
    assert FieldValue(a, GpsSatelliteNum) == FieldValue(b, GpsSatelliteNum);
    assert FieldValue(a, BeidouSatelliteNum) == FieldValue(b, BeidouSatelliteNum);
    assert FieldValue(a, GlonassSatelliteNum) == FieldValue(b, GlonassSatelliteNum);
    assert FieldValue(a, GalileoSatelliteNum) == FieldValue(b, GalileoSatelliteNum);
  }

  lemma SamePosition(a: Reading, b: Reading)
    requires forall f :: FieldValue(a, f) == FieldValue(b, f)
    ensures a.latitude == b.latitude && a.nsIndicator == b.nsIndicator && a.longitude == b.longitude && a.ewIndicator == b.ewIndicator
  {
    assert FieldValue(a, Latitude) == FieldValue(b, Latitude);
    assert FieldValue(a, NsIndicator) == FieldValue(b, NsIndicator);
    assert FieldValue(a, Longitude) == FieldValue(b, Longitude);
    assert FieldValue(a, EwIndicator) == FieldValue(b, EwIndicator);
  }

  lemma SameTimestamp(a: Reading, b: Reading)
    requires forall f :: FieldValue(a, f) == FieldValue(b, f)
    ensures a.year == b.year && a.month == b.month && a.day == b.day && a.hour == b.hour && a.minute == b.minute && a.second == b.second
  {
    assert FieldValue(a, Year) == FieldValue(b, Year);
    assert FieldValue(a, Month) == FieldValue(b, Month);
    assert FieldValue(a, Day) == FieldValue(b, Day);
    assert FieldValue(a, Hour) == FieldValue(b, Hour);
    assert FieldValue(a, Minute) == FieldValue(b, Minute);
    assert FieldValue(a, Second) == FieldValue(b, Second);
  }

  lemma SameMotion(a: Reading, b: Reading)
    requires forall f :: FieldValue(a, f) == FieldValue(b, f)
    ensures a.altitude == b.altitude && a.speed == b.speed && a.course == b.course
  {
    assert FieldValue(a, Altitude) == FieldValue(b, Altitude);
    assert FieldValue(a, Speed) == FieldValue(b, Speed);
    assert FieldValue(a, Course) == FieldValue(b, Course);
  }

  lemma SamePrecision(a: Reading, b: Reading)
    requires forall f :: FieldValue(a, f) == FieldValue(b, f)
    ensures a.pdop == b.pdop && a.hdop == b.hdop && a.vdop == b.vdop && a.gsv == b.gsv && a.gsu == b.gsu
  {
    assert FieldValue(a, Pdop) == FieldValue(b, Pdop);
    assert FieldValue(a, Hdop) == FieldValue(b, Hdop);
    assert FieldValue(a, Vdop) == FieldValue(b, Vdop);
    assert FieldValue(a, Gsv) == FieldValue(b, Gsv);
    assert FieldValue(a, Gsu) == FieldValue(b, Gsu);
  }

  lemma SameSupply(a: Reading, b: Reading)
    requires forall f :: FieldValue(a, f) == FieldValue(b, f)
    ensures a.battMv == b.battMv && a.solarMv == b.solarMv
  {
    assert FieldValue(a, BattMv) == FieldValue(b, BattMv);
    assert FieldValue(a, SolarMv) == FieldValue(b, SolarMv);
  }

  /** Two readings holding the same value for every field are the same reading. */
  lemma ReadingExt(a: Reading, b: Reading)
    requires forall f :: FieldValue(a, f) == FieldValue(b, f)
    ensures a == b
  {
    SameGnss(a, b);
    SamePosition(a, b);
    SameTimestamp(a, b);
    SameMotion(a, b);
    SamePrecision(a, b);
    SameSupply(a, b);
  }

  /** The payload made of a valid reading raises no issue. */
  lemma ToJsonAccepted(r: Reading)
    requires ValidReading(r)
    ensures ToJson(r).JObj? && forall f :: !Fails(ToJson(r).fields, f)
  {
    forall f
      ensures !Fails(ToJson(r).fields, f)
    {
      ToJsonField(r, f);
      ChecksFromValid(r, f);
    }
  }

  /** Every valid reading, sent as a payload, is accepted and comes back unchanged. */
  lemma ValidateToJson(r: Reading)
    requires ValidReading(r)
    ensures Validate(ToJson(r)) == Success(r)
  {
    var raw := ToJson(r);
    ToJsonAccepted(r);
    ValidateSucceedsIff(raw);
    ValidateKeepsValues(raw);
    var r' := Validate(raw).value;
    forall f
      ensures FieldValue(r', f) == FieldValue(r, f)
    {
      ToJsonField(r, f);
    }
    ReadingExt(r', r);
  }

  // ---------------------------------------------------------------------------------------
  // The rule of each field, value by value.

  /** The fix code is accepted exactly when it is 0, 2 or 3; 1 is rejected. */
  lemma IsFixRule(v: Json)
    ensures Check(RuleOf(IsFix), v) == None <==> v == JNum(0.0) || v == JNum(2.0) || v == JNum(3.0)
    ensures Check(RuleOf(IsFix), JNum(1.0)) == Some(NoLiteralMatches)
  {
  }

  /** A satellite count is accepted exactly when it is an integer in [0, 65535]. */
  lemma SatelliteCountRule(f: Field, v: Json)
    requires f.GpsSatelliteNum? || f.BeidouSatelliteNum? || f.GlonassSatelliteNum? || f.GalileoSatelliteNum?
    ensures Check(RuleOf(f), v) == None <==> v.JNum? && IsIntegerIn(v.num, 0.0, 65535.0)
    ensures Check(RuleOf(f), JNum(3.5)) == Some(ExpectedInteger)
  {
    assert !IsInteger(3.5) by {
      assert (3.5).Floor == 3;
    }
  }

  /** Coordinates are bounded inclusively; hemisphere letters are checked on their own. */
  lemma PositionRules(v: Json)
    ensures Check(RuleOf(Latitude), v) == None <==> v.JNum? && InRange(v.num, -90.0, 90.0)
    ensures Check(RuleOf(Longitude), v) == None <==> v.JNum? && InRange(v.num, -180.0, 180.0)
    ensures Check(RuleOf(NsIndicator), v) == None <==> v == JStr("N") || v == JStr("S")
    ensures Check(RuleOf(EwIndicator), v) == None <==> v == JStr("E") || v == JStr("W")
  {
  }

  /** A southern latitude with the letter "N" is still a valid position. */
  lemma HemisphereUnchecked(r: Reading)
    requires ValidPosition(r)
    ensures ValidPosition(r.(latitude := -45.0, nsIndicator := "N"))
  {
  }

  /** Each calendar field is an integer within its own bounds. */
  lemma CalendarRules(v: Json)
    ensures Check(RuleOf(Year), v) == None <==> v.JNum? && IsIntegerIn(v.num, 2000.0, 2100.0)
    ensures Check(RuleOf(Month), v) == None <==> v.JNum? && IsIntegerIn(v.num, 1.0, 12.0)
    ensures Check(RuleOf(Day), v) == None <==> v.JNum? && IsIntegerIn(v.num, 1.0, 31.0)
    ensures Check(RuleOf(Hour), v) == None <==> v.JNum? && IsIntegerIn(v.num, 0.0, 23.0)
    ensures Check(RuleOf(Minute), v) == None <==> v.JNum? && IsIntegerIn(v.num, 0.0, 59.0)
    ensures Check(RuleOf(Second), v) == None <==> v.JNum? && IsIntegerIn(v.num, 0.0, 59.0)
  {
  }

  /** There is no check across calendar fields: the 31st of April is a valid timestamp. */
  lemma April31Accepted(r: Reading)
    requires ValidTimestamp(r)
    ensures ValidTimestamp(r.(month := 4.0, day := 31.0))
  {
    assert IsInteger(4.0) && IsInteger(31.0) by {
      assert (4.0).Floor == 4 && (31.0).Floor == 31;
    }
  }

  /** Altitude, speed and course: inclusive bounds, no integrality. */
  lemma MotionRules(v: Json)
    ensures Check(RuleOf(Altitude), v) == None <==> v.JNum? && InRange(v.num, -1000.0, 20000.0)
    ensures Check(RuleOf(Speed), v) == None <==> v.JNum? && v.num >= 0.0
    ensures Check(RuleOf(Course), v) == None <==> v.JNum? && InRange(v.num, 0.0, 360.0)
  {
  }

  /** Dilution of precision and satellite totals only need to be non-negative numbers. */
  lemma PrecisionRule(f: Field, v: Json)
    requires f.Pdop? || f.Hdop? || f.Vdop? || f.Gsv? || f.Gsu?
    ensures Check(RuleOf(f), v) == None <==> v.JNum? && v.num >= 0.0
  {
  }

  /** More satellites used than in view is still accepted. */
  lemma MoreUsedThanInView(r: Reading)
    requires ValidPrecision(r)
    ensures ValidPrecision(r.(gsu := r.gsv + 1.5))
  {
  }

  /** Voltages are integers in [0, 100000] millivolts. */
  lemma SupplyRule(f: Field, v: Json)
    requires f.BattMv? || f.SolarMv?
    ensures Check(RuleOf(f), v) == None <==> v.JNum? && IsIntegerIn(v.num, 0.0, 100000.0)
  {
  }
}

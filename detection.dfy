/** `detectAnomalies`: one pass over the sensors of a building.  Binary
    facility sensors are flagged when their latest reading is 0; continuous
    sensors are scored against the readings of the last 48 hours. */
module Detection {
  import opened Schema
  import opened Surds
  import opened Statistics

  const HourMillis: int := 60 * 60 * 1000
  /** Length of the look-back window of a continuous sensor. */
  const WindowMillis: int := 48 * HourMillis
  /** Fewer readings than this in the window: the sensor is skipped. */
  const MinReadings: nat := 10
  /** |z| above this is a strong anomaly (CRITICAL). */
  const CriticalZ: real := 3.0
  /** |z| above this is a potential anomaly (WARNING). */
  const WarningZ: real := 2.0
  /** The z-score recorded for a facility failure. */
  const FacilitySentinel: real := -999.0

  /** An `AnomalyResult`. */
  datatype Finding = Finding(
    sensorId: SensorId,
    sensorName: string,
    currentValue: real,
    mean: real,
    stdDev: Surd,
    zScore: Surd,
    isAnomaly: bool,
    severity: Severity)

  /** What the detector can read.  `sensors` is the `sensors` table, None when
      its query fails.  `readings` maps a sensor id to that sensor's readings
      in the order a newest-first query returns them; an id without an entry
      is one whose readings query fails. */
  datatype Tables = Tables(sensors: Option<seq<Sensor>>, readings: map<SensorId, seq<Reading>>)

  /** Readings ordered by `read_at`, newest first. */
  predicate NewestFirst(rs: seq<Reading>)
  {
    forall i, j :: 0 <= i < j < |rs| ==> rs[i].readAt >= rs[j].readAt
  }

  /** Sensor ids are a primary key. */
  predicate UniqueIds(ss: seq<Sensor>)
  {
    forall i, j :: 0 <= i < j < |ss| ==> ss[i].id != ss[j].id
  }

  /** The three binary status channels. */
  predicate IsFacility(t: SensorType)
  {
    t == DoorStatus || t == ElevatorStatus || t == ChargerStatus
  }

  /** The sensors of one building (`.eq('building_id', buildingId)`), in table order. */
  function SensorsOf(all: seq<Sensor>, buildingId: string): (ss: seq<Sensor>)
    ensures forall s :: s in ss <==> s in all && s.buildingId == buildingId
    ensures |ss| <= |all|
  {
    if all == [] then []
    else (if all[0].buildingId == buildingId then [all[0]] else []) + SensorsOf(all[1..], buildingId)
  }

  /** The readings with `read_at >= now - 48h`, in their original order. */
  function Window(rs: seq<Reading>, now: int): (w: seq<Reading>)
    ensures forall r :: r in w <==> r in rs && r.readAt >= now - WindowMillis
    ensures |w| <= |rs|
  {
    if rs == [] then []
    else (if rs[0].readAt >= now - WindowMillis then [rs[0]] else []) + Window(rs[1..], now)
  }

  /** `readings.map((r) => r.value)`. */
  function Values(rs: seq<Reading>): (vs: seq<real>)
    ensures |vs| == |rs|
    ensures forall i :: 0 <= i < |rs| ==> vs[i] == rs[i].value
  {
    seq(|rs|, i requires 0 <= i < |rs| => rs[i].value)
  }

  /** The finding for a facility sensor whose latest reading is 0. */
  function FacilityFinding(s: Sensor): (f: Finding)
  {
    Finding(s.id, s.name, 0.0, 1.0, Lit(0.0), Lit(FacilitySentinel), true, Critical)
  }

  /** The statistical verdict on a non-empty window of values, newest first. */
  function Classify(s: Sensor, vs: seq<real>): (r: Option<Finding>)
    requires |vs| > 0
    ensures r.Some? ==> r.value.zScore == WindowZScore(vs) && r.value.isAnomaly
  {
    var m := Mean(vs);
    var sd := StdDev(vs, m);
    Judge(s, vs[0], m, sd, ZScore(vs[0], m, sd))
  }

  /** The thresholds applied to a z-score z. */
  function Judge(s: Sensor, current: real, m: real, sd: Surd, z: Surd): (r: Option<Finding>)
  {
    var strong := z.AbsExceeds(CriticalZ);
    var potential := z.AbsExceeds(WarningZ);
    if strong || potential then
      Some(Finding(s.id, s.name, current, m, sd, z, true, if strong then Critical else Warning))
    else
      None
  }

  /** What one iteration of the sensor loop contributes. */
  function DetectSensor(s: Sensor, readings: map<SensorId, seq<Reading>>, now: int): (r: Option<Finding>)
    ensures r.Some? ==> r.value.sensorId == s.id && r.value.sensorName == s.name && r.value.isAnomaly
    ensures r.Some? ==> r.value.severity == Critical || r.value.severity == Warning
  {
    if IsFacility(s.sensorType) then
      if s.id in readings && |readings[s.id]| > 0 && readings[s.id][0].value == 0.0
      then Some(FacilityFinding(s))
      else None
    else if s.id !in readings || |Window(readings[s.id], now)| < MinReadings then
      None
    else
      Classify(s, Values(Window(readings[s.id], now)))
  }

  /** The verdict of every sensor of ss, in sensor order. */
  function Verdicts(ss: seq<Sensor>, readings: map<SensorId, seq<Reading>>, now: int): (os: seq<Option<Finding>>)
    ensures |os| == |ss|
    ensures forall i :: 0 <= i < |ss| ==> os[i] == DetectSensor(ss[i], readings, now)
  {
    seq(|ss|, i requires 0 <= i < |ss| => DetectSensor(ss[i], readings, now))
  }

  /** The findings among a sequence of verdicts, in order. */
  function Collect(os: seq<Option<Finding>>): (fs: seq<Finding>)
    ensures |fs| <= |os|
  {
    if os == [] then []
    else
      var prior := Collect(os[..|os| - 1]);
      match os[|os| - 1]
      case None => prior
      case Some(f) => prior + [f]
  }

  /** The positions of the findings among a sequence of verdicts. */
  function Positions(os: seq<Option<Finding>>): (ps: seq<nat>)
  {
    if os == [] then []
    else
      var prior := Positions(os[..|os| - 1]);
      if os[|os| - 1].Some? then prior + [|os| - 1] else prior
  }

  /** The findings of a run over the sensors ss, in sensor order. */
  function Findings(ss: seq<Sensor>, readings: map<SensorId, seq<Reading>>, now: int): (fs: seq<Finding>)
    ensures |fs| <= |ss|
  {
    Collect(Verdicts(ss, readings, now))
  }

  /** The positions in ss of the sensors that contribute a finding. */
  function Contributors(ss: seq<Sensor>, readings: map<SensorId, seq<Reading>>, now: int): (cs: seq<nat>)
  {
    Positions(Verdicts(ss, readings, now))
  }

  /** `detectAnomalies(buildingId)`: None when the sensors query fails (the
      source throws), otherwise the findings of all sensors of the building. */
  method DetectAnomalies(tables: Tables, buildingId: string, now: int) returns (r: Option<seq<Finding>>)
    ensures tables.sensors.None? ==> r.None?
    ensures tables.sensors.Some? ==>
      r == Some(Findings(SensorsOf(tables.sensors.value, buildingId), tables.readings, now))
  {
    if tables.sensors.None? {
      return None;
    }
    var sensors := SensorsOf(tables.sensors.value, buildingId);
    var anomalies: seq<Finding> := [];
    for i := 0 to |sensors|
      invariant anomalies == Findings(sensors[..i], tables.readings, now)
    {
      var sensor := sensors[i];
      VerdictsSnoc(sensors, i, tables.readings, now);
      if IsFacility(sensor.sensorType) {
        if sensor.id in tables.readings {
          var latest := tables.readings[sensor.id];
          if |latest| > 0 && latest[0].value == 0.0 {
            anomalies := anomalies + [FacilityFinding(sensor)];
          }
        }
        continue;
      }
      if sensor.id !in tables.readings {
        continue;
      }
      var window := Window(tables.readings[sensor.id], now);
      if |window| < MinReadings {
        continue;
      }
      var values := Values(window);
      var currentValue := values[0];
      var mean := Mean(values);
      var stdDev := StdDev(values, mean);
      var zScore := ZScore(currentValue, mean, stdDev);
      var isStrong := zScore.AbsExceeds(CriticalZ);
      var isPotential := zScore.AbsExceeds(WarningZ);
      if isStrong || isPotential {
        var severity := if isStrong then Critical else Warning;
        anomalies := anomalies + [Finding(sensor.id, sensor.name, currentValue, mean, stdDev, zScore, true, severity)];
      }
    }
    assert sensors[..|sensors|] == sensors;
    return Some(anomalies);
  }

  /** Extending the sensor prefix by one sensor appends its verdict. */
  lemma VerdictsSnoc(ss: seq<Sensor>, i: nat, readings: map<SensorId, seq<Reading>>, now: int)
    requires i < |ss|
    ensures Verdicts(ss[..i + 1], readings, now) == Verdicts(ss[..i], readings, now) + [DetectSensor(ss[i], readings, now)]
    ensures Verdicts(ss[..i + 1], readings, now)[..i] == Verdicts(ss[..i], readings, now)
  {
    var os := Verdicts(ss[..i + 1], readings, now);
    assert os == Verdicts(ss[..i], readings, now) + [DetectSensor(ss[i], readings, now)];
  }

  // ---------------------------------------------------------------------
  // Continuous sensors

  /** The verdict on a continuous sensor with enough readings, on squares:
      a finding iff (current - mean)^2 > 4 * variance, CRITICAL iff
      (current - mean)^2 > 9 * variance; the finding records the newest value,
      the mean, the standard deviation and the z-score of the window. */
  lemma ContinuousPath(s: Sensor, readings: map<SensorId, seq<Reading>>, now: int, vs: seq<real>)
    requires !IsFacility(s.sensorType)
    requires s.id in readings && |Window(readings[s.id], now)| >= MinReadings
    requires vs == Values(Window(readings[s.id], now))
    ensures DetectSensor(s, readings, now).Some? <==> Sq(vs[0] - Mean(vs)) > Mul(4.0, Variance(vs, Mean(vs)))
    ensures DetectSensor(s, readings, now).Some? ==>
      (DetectSensor(s, readings, now).value.severity == Critical <==> Sq(vs[0] - Mean(vs)) > Mul(9.0, Variance(vs, Mean(vs))))
    ensures DetectSensor(s, readings, now).Some? ==>
      var f := DetectSensor(s, readings, now).value;
      f.currentValue == vs[0] && f.mean == Mean(vs) && f.stdDev == StdDev(vs, Mean(vs)) && f.zScore == WindowZScore(vs)
  {
    assert DetectSensor(s, readings, now) == Classify(s, vs);
    ClassifyOnSquares(s, vs);
  }

  lemma ClassifyOnSquares(s: Sensor, vs: seq<real>)
    requires |vs| > 0
    ensures Classify(s, vs).Some? <==> Sq(vs[0] - Mean(vs)) > Mul(4.0, Variance(vs, Mean(vs)))
    ensures Classify(s, vs).Some? ==>
      (Classify(s, vs).value.severity == Critical <==> Sq(vs[0] - Mean(vs)) > Mul(9.0, Variance(vs, Mean(vs))))
    ensures Classify(s, vs).Some? ==>
      Classify(s, vs) == Some(Finding(s.id, s.name, vs[0], Mean(vs), StdDev(vs, Mean(vs)), WindowZScore(vs), true,
                                      Classify(s, vs).value.severity))
  {
    ClassifyIsJudge(s, vs);
    JudgeThresholds(s, vs);
  }

  lemma JudgeThresholds(s: Sensor, vs: seq<real>)
    requires |vs| > 0
    ensures var r := Judge(s, vs[0], Mean(vs), StdDev(vs, Mean(vs)), WindowZScore(vs));
      var dd := Sq(vs[0] - Mean(vs));
      var v := Variance(vs, Mean(vs));
      && (r.Some? <==> dd > Mul(4.0, v))
      && (r.Some? ==> (r.value.severity == Critical <==> dd > Mul(9.0, v)))
      && (r.Some? ==> r == Some(Finding(s.id, s.name, vs[0], Mean(vs), StdDev(vs, Mean(vs)), WindowZScore(vs), true, r.value.severity)))
  {
    WindowZScoreOnSquares(vs, CriticalZ);
    WindowZScoreOnSquares(vs, WarningZ);
    JudgeOnSquares(s, vs[0], Mean(vs), StdDev(vs, Mean(vs)), WindowZScore(vs),
                   Sq(vs[0] - Mean(vs)), Variance(vs, Mean(vs)));
  }

  lemma ClassifyIsJudge(s: Sensor, vs: seq<real>)
    requires |vs| > 0
    ensures Classify(s, vs) == Judge(s, vs[0], Mean(vs), StdDev(vs, Mean(vs)), WindowZScore(vs))
  {
  }

  lemma JudgeOnSquares(s: Sensor, current: real, m: real, sd: Surd, z: Surd, dd: real, v: real)
    requires v >= 0.0
    requires z.AbsExceeds(CriticalZ) <==> dd > Mul(Sq(CriticalZ), v)
    requires z.AbsExceeds(WarningZ) <==> dd > Mul(Sq(WarningZ), v)
    ensures Judge(s, current, m, sd, z).Some? <==> dd > Mul(4.0, v)
    ensures Judge(s, current, m, sd, z).Some? ==>
      (Judge(s, current, m, sd, z).value.severity == Critical <==> dd > Mul(9.0, v))
    ensures Judge(s, current, m, sd, z).Some? ==>
      Judge(s, current, m, sd, z) == Some(Finding(s.id, s.name, current, m, sd, z, true, Judge(s, current, m, sd, z).value.severity))
  {
    assert Sq(CriticalZ) == 9.0 && Sq(WarningZ) == 4.0;
    StrongerThreshold(dd, v);
  }

  /** A deviation beyond three standard deviations is beyond two. */
  lemma StrongerThreshold(dd: real, v: real)
    requires v >= 0.0
    ensures dd > Mul(9.0, v) ==> dd > Mul(4.0, v)
  {
  }

  /** Every finding's z-score passes the warning threshold, and it passes the
      critical one exactly when the finding is CRITICAL; on a facility
      finding the sentinel -999 passes both. */
  lemma SeverityMatchesScore(s: Sensor, readings: map<SensorId, seq<Reading>>, now: int)
    requires DetectSensor(s, readings, now).Some?
    ensures DetectSensor(s, readings, now).value.zScore.AbsExceeds(WarningZ)
    ensures DetectSensor(s, readings, now).value.severity == Critical <==>
      DetectSensor(s, readings, now).value.zScore.AbsExceeds(CriticalZ)
  {
    if IsFacility(s.sensorType) {
      assert DetectSensor(s, readings, now).value == FacilityFinding(s);
    } else {
      ContinuousNeedsTenReadings(s, readings, now);
      var vs := Values(Window(readings[s.id], now));
      ContinuousPath(s, readings, now, vs);
      WindowZScoreOnSquares(vs, CriticalZ);
      WindowZScoreOnSquares(vs, WarningZ);
      assert Sq(CriticalZ) == 9.0 && Sq(WarningZ) == 4.0;
    }
  }

  /** The same verdict on the real z-score zr = (current - mean) / sigma, sigma
      the standard deviation: a finding iff |zr| > 2, CRITICAL iff |zr| > 3. */
  lemma ContinuousVerdict(s: Sensor, readings: map<SensorId, seq<Reading>>, now: int, sigma: real, zr: real)
    requires !IsFacility(s.sensorType)
    requires s.id in readings && |Window(readings[s.id], now)| >= MinReadings
    requires var vs := Values(Window(readings[s.id], now));
      sigma >= 0.0 && sigma * sigma == Variance(vs, Mean(vs))
      && (sigma == 0.0 ==> zr == 0.0) && (sigma > 0.0 ==> zr * sigma == vs[0] - Mean(vs))
    ensures DetectSensor(s, readings, now).Some? <==> zr > 2.0 || zr < -2.0
    ensures DetectSensor(s, readings, now).Some? ==>
      (DetectSensor(s, readings, now).value.severity == Critical <==> zr > 3.0 || zr < -3.0)
  {
    var vs := Values(Window(readings[s.id], now));
    WindowZScoreMeaning(vs, sigma, zr, CriticalZ, 0.0);
    WindowZScoreMeaning(vs, sigma, zr, WarningZ, 0.0);
  }

  /** A continuous sensor yields a finding only with a successful readings
      query and at least ten readings in the 48-hour window. */
  lemma ContinuousNeedsTenReadings(s: Sensor, readings: map<SensorId, seq<Reading>>, now: int)
    requires !IsFacility(s.sensorType) && DetectSensor(s, readings, now).Some?
    ensures s.id in readings && |Window(readings[s.id], now)| >= MinReadings
  {
  }

  /** A window of identical values never yields a finding, however extreme
      the value. */
  lemma FlatWindowNoFinding(s: Sensor, readings: map<SensorId, seq<Reading>>, now: int, c: real)
    requires !IsFacility(s.sensorType) && s.id in readings
    requires forall r :: r in Window(readings[s.id], now) ==> r.value == c
    ensures DetectSensor(s, readings, now).None?
  {
    if |Window(readings[s.id], now)| >= MinReadings {
      FlatFullWindow(s, readings, now, c, Values(Window(readings[s.id], now)));
    }
  }

  lemma FlatFullWindow(s: Sensor, readings: map<SensorId, seq<Reading>>, now: int, c: real, vs: seq<real>)
    requires !IsFacility(s.sensorType) && s.id in readings
    requires |Window(readings[s.id], now)| >= MinReadings
    requires forall r :: r in Window(readings[s.id], now) ==> r.value == c
    requires vs == Values(Window(readings[s.id], now))
    ensures DetectSensor(s, readings, now).None?
  {
    FlatValues(Window(readings[s.id], now), c);
    FlatWindow(vs, c);
    ZeroScoreNoFinding(s, vs);
    assert DetectSensor(s, readings, now) == Classify(s, vs);
  }

  lemma FlatValues(w: seq<Reading>, c: real)
    requires forall r :: r in w ==> r.value == c
    ensures forall i :: 0 <= i < |w| ==> Values(w)[i] == c
  {
    forall i | 0 <= i < |w|
      ensures Values(w)[i] == c
    {
      assert w[i] in w;
    }
  }

  /** A zero z-score passes neither threshold. */
  lemma ZeroScoreNoFinding(s: Sensor, vs: seq<real>)
    requires |vs| > 0 && WindowZScore(vs).IsZero()
    ensures Classify(s, vs).None?
  {
    ClassifyIsJudge(s, vs);
    JudgeZero(s, vs[0], Mean(vs), StdDev(vs, Mean(vs)), WindowZScore(vs));
  }

  lemma JudgeZero(s: Sensor, current: real, m: real, sd: Surd, z: Surd)
    requires z.IsZero()
    ensures Judge(s, current, m, sd, z).None?
  {
    assert z.Square() == 0.0;
    assert WarningZ * WarningZ == 4.0 && CriticalZ * CriticalZ == 9.0;
  }

  /** With at most ten readings in the window |z| <= 3, so CRITICAL needs at
      least eleven. */
  lemma CriticalNeedsElevenReadings(s: Sensor, readings: map<SensorId, seq<Reading>>, now: int)
    requires !IsFacility(s.sensorType)
    requires DetectSensor(s, readings, now).Some? && DetectSensor(s, readings, now).value.severity == Critical
    ensures |Window(readings[s.id], now)| >= MinReadings + 1
  {
    var vs := Values(Window(readings[s.id], now));
    WindowZScoreBound(vs);
  }

  /** A statistical z-score equals the facility sentinel -999 only for a
      window of at least 998002 readings (999^2 <= n - 1). */
  lemma SentinelNeedsHugeWindow(s: Sensor, readings: map<SensorId, seq<Reading>>, now: int)
    requires !IsFacility(s.sensorType) && DetectSensor(s, readings, now).Some?
    requires DetectSensor(s, readings, now).value.zScore.Is(FacilitySentinel)
    ensures |Window(readings[s.id], now)| >= 998002
  {
    var vs := Values(Window(readings[s.id], now));
    WindowZScoreBound(vs);
  }

  /** For newest-first readings the current value is the newest reading of
      the window. */
  lemma CurrentIsNewest(rs: seq<Reading>, now: int)
    requires NewestFirst(rs) && |Window(rs, now)| > 0
    ensures forall r :: r in Window(rs, now) ==> r.readAt <= Window(rs, now)[0].readAt
    ensures Values(Window(rs, now))[0] == Window(rs, now)[0].value
  {
    var w := Window(rs, now);
    WindowKeepsOrder(rs, now);
  }

  lemma {:induction false} WindowKeepsOrder(rs: seq<Reading>, now: int)
    requires NewestFirst(rs)
    ensures NewestFirst(Window(rs, now))
  {
    if rs != [] {
      WindowKeepsOrder(rs[1..], now);
      var rest := Window(rs[1..], now);
      forall r | r in rest
        ensures rs[0].readAt >= r.readAt
      {
        var j :| 0 <= j < |rs[1..]| && rs[1..][j] == r;
        assert rs[j + 1] == r;
      }
    }
  }

  /** The window keeps every recent reading as often as the history holds it
      and drops every older one, so its length counts the recent readings. */
  lemma {:induction false} WindowCounts(rs: seq<Reading>, now: int)
    ensures forall r ::
      multiset(Window(rs, now))[r] == (if r.readAt >= now - WindowMillis then multiset(rs)[r] else 0)
  {
    if rs != [] {
      WindowCounts(rs[1..], now);
      assert rs == [rs[0]] + rs[1..];
      assert multiset(rs) == multiset([rs[0]]) + multiset(rs[1..]);
    }
  }

  /** For newest-first readings the window is a prefix: the query with the
      48-hour cut-off returns the first readings of the newest-first history. */
  lemma {:induction false} WindowIsPrefix(rs: seq<Reading>, now: int)
    requires NewestFirst(rs)
    ensures Window(rs, now) == rs[..|Window(rs, now)|]
  {
    if rs != [] {
      var tail := rs[1..];
      assert NewestFirst(tail) by {
        forall i, j | 0 <= i < j < |tail|
          ensures tail[i].readAt >= tail[j].readAt
        {
          assert tail[i] == rs[i + 1] && tail[j] == rs[j + 1];
        }
      }
      WindowIsPrefix(tail, now);
      var rest := Window(tail, now);
      if rs[0].readAt >= now - WindowMillis {
        assert rs[..|rest| + 1] == [rs[0]] + tail[..|rest|];
      }
    }
  }

  /** The readings [60, 10, 10, 10, 10, 10, 10, 10, 10, 10] (newest first)
      give mean 15, standard deviation 15 and z = 3: a WARNING, not CRITICAL. */
  lemma WorkedExample(s: Sensor, readings: map<SensorId, seq<Reading>>, now: int)
    requires !IsFacility(s.sensorType) && s.id in readings
    requires Values(Window(readings[s.id], now)) == [60.0, 10.0, 10.0, 10.0, 10.0, 10.0, 10.0, 10.0, 10.0, 10.0]
    ensures DetectSensor(s, readings, now).Some?
    ensures DetectSensor(s, readings, now).value.severity == Warning
    ensures DetectSensor(s, readings, now).value.mean == 15.0
    ensures DetectSensor(s, readings, now).value.stdDev.Is(15.0)
    ensures DetectSensor(s, readings, now).value.zScore.Is(3.0)
  {
    var vs := Values(Window(readings[s.id], now));
    WorkedWindow(vs);
    WindowZScoreMeaning(vs, 15.0, 3.0, CriticalZ, 3.0);
    WindowZScoreMeaning(vs, 15.0, 3.0, WarningZ, 3.0);
  }

  // ---------------------------------------------------------------------
  // Facility sensors

  /** A facility sensor is judged on its latest reading alone: a finding iff
      that reading exists and is exactly 0, and then a CRITICAL one with
      current 0, mean 1, standard deviation 0 and the sentinel z-score.  The
      48-hour window plays no part. */
  lemma FacilityPath(s: Sensor, readings: map<SensorId, seq<Reading>>, now: int, later: int)
    requires IsFacility(s.sensorType)
    ensures DetectSensor(s, readings, now).Some? <==>
      s.id in readings && |readings[s.id]| > 0 && readings[s.id][0].value == 0.0
    ensures DetectSensor(s, readings, now) == DetectSensor(s, readings, later)
    ensures DetectSensor(s, readings, now).Some? ==>
      var f := DetectSensor(s, readings, now).value;
      f.severity == Critical && f.currentValue == 0.0 && f.mean == 1.0
      && f.stdDev.IsZero() && f.zScore.Is(FacilitySentinel)
  {
  }

  // ---------------------------------------------------------------------
  // The whole run

  /** Each sensor contributes at most one finding, in sensor order: the
      findings are exactly the verdicts of the contributing sensors, whose
      positions increase, and every sensor with a verdict contributes. */
  lemma FindingsBySensor(ss: seq<Sensor>, readings: map<SensorId, seq<Reading>>, now: int)
    ensures var fs := Findings(ss, readings, now);
      var cs := Contributors(ss, readings, now);
      && |fs| == |cs|
      && (forall j :: 0 <= j < |cs| ==> cs[j] < |ss| && DetectSensor(ss[cs[j]], readings, now) == Some(fs[j]))
      && (forall j, k :: 0 <= j < k < |cs| ==> cs[j] < cs[k])
      && (forall i :: 0 <= i < |ss| && DetectSensor(ss[i], readings, now).Some? ==> i in cs)
  {
    CollectByPosition(Verdicts(ss, readings, now));
  }

  lemma {:induction false} CollectByPosition(os: seq<Option<Finding>>)
    ensures var fs := Collect(os);
      var ps := Positions(os);
      && |fs| == |ps|
      && (forall j :: 0 <= j < |ps| ==> ps[j] < |os| && os[ps[j]] == Some(fs[j]))
      && (forall j, k :: 0 <= j < k < |ps| ==> ps[j] < ps[k])
      && (forall i :: 0 <= i < |os| && os[i].Some? ==> i in ps)
  {
    if os != [] {
      var init := os[..|os| - 1];
      CollectByPosition(init);
      forall i | 0 <= i < |init|
        ensures init[i] == os[i]
      {
      }
    }
  }

  /** With unique sensor ids, no two findings of a run name the same sensor. */
  lemma OneFindingPerSensor(ss: seq<Sensor>, readings: map<SensorId, seq<Reading>>, now: int)
    requires UniqueIds(ss)
    ensures var fs := Findings(ss, readings, now);
      forall j, k :: 0 <= j < k < |fs| ==> fs[j].sensorId != fs[k].sensorId
  {
    FindingsBySensor(ss, readings, now);
  }

  /** The building filter keeps sensor ids unique. */
  lemma {:induction false} SensorsOfUnique(all: seq<Sensor>, buildingId: string)
    requires UniqueIds(all)
    ensures UniqueIds(SensorsOf(all, buildingId))
  {
    if all != [] {
      var tail := all[1..];
      assert UniqueIds(tail) by {
        forall i, j | 0 <= i < j < |tail|
          ensures tail[i].id != tail[j].id
        {
          assert tail[i] == all[i + 1] && tail[j] == all[j + 1];
        }
      }
      SensorsOfUnique(tail, buildingId);
      var rest := SensorsOf(tail, buildingId);
      forall s | s in rest
        ensures s.id != all[0].id
      {
        var j :| 0 <= j < |tail| && tail[j] == s;
        assert all[j + 1] == s;
      }
    }
  }
}

/** `createAlertsForAnomalies`: each finding becomes one NEW row of the
    `alerts` table unless its sensor already has a NEW alert from the last
    hour. */
module Alerting {
  import opened Schema
  import opened Surds
  import opened Statistics
  import opened Detection

  /** How far back an earlier NEW alert suppresses a new one. */
  const CooldownMillis: int := 60 * 60 * 1000

  /** The word the description uses for the deviation (증가 / 감소). */
  datatype Direction = Increase | Decrease

  /** Title and description of an alert, by the template they follow. */
  datatype AlertText =
    | Inoperable(sensorName: string)
        // "<name> 작동 불능": the sensor is not working and needs inspection
    | UnusualPattern(sensorName: string, current: real, mean: real, zScore: Surd, direction: Direction)
        // "<name> 이상 패턴 감지": current value, mean, z-score and direction
    | Other(title: string, description: string)
        // a row written by some other producer

  /** A row of the `alerts` table; `triggeredAt` in milliseconds since the epoch. */
  datatype Alert = Alert(
    sensorId: SensorId,
    alertType: AlertType,
    severity: Severity,
    text: AlertText,
    status: AlertStatus,
    triggeredAt: int)

  /** Which database calls of the run fail, by position of the finding: a
      failed duplicate lookup returns no data, a failed insert writes nothing.
      Both are only logged. */
  datatype Faults = Faults(lookupFails: set<nat>, insertFails: set<nat>)

  /** A NEW alert of sensor sid triggered at or after `since`. */
  predicate IsRecentNew(a: Alert, sid: SensorId, since: int)
  {
    a.sensorId == sid && a.status == New && a.triggeredAt >= since
  }

  /** The duplicate lookup: alerts of the sensor with status NEW and
      `triggered_at >= since`, in table order. */
  function RecentNewAlerts(rows: seq<Alert>, sid: SensorId, since: int): (found: seq<Alert>)
    ensures forall a :: a in found <==> a in rows && IsRecentNew(a, sid, since)
  {
    if rows == [] then []
    else (if IsRecentNew(rows[0], sid, since) then [rows[0]] else []) + RecentNewAlerts(rows[1..], sid, since)
  }

  /** A successful lookup at `now` finds a recent NEW alert of the sensor. */
  predicate Blocked(rows: seq<Alert>, sid: SensorId, now: int)
  {
    |RecentNewAlerts(rows, sid, now - CooldownMillis)| > 0
  }

  /** The row inserted for a finding. */
  function AlertFor(f: Finding, now: int): (a: Alert)
    ensures a.sensorId == f.sensorId && a.severity == f.severity
    ensures a.status == New && a.triggeredAt == now
    ensures a.alertType == FacilityError <==> f.zScore.Is(FacilitySentinel)
    ensures a.alertType != FacilityError ==> a.alertType == Anomaly
  {
    var sentinel := f.zScore.Is(FacilitySentinel);
    var text :=
      if sentinel then Inoperable(f.sensorName)
      else UnusualPattern(f.sensorName, f.currentValue, f.mean, f.zScore,
                          if f.zScore.IsPositive() then Increase else Decrease);
    Alert(f.sensorId, if sentinel then FacilityError else Anomaly, f.severity, text, New, now)
  }

  /** One iteration of the emission loop for finding f at position i. */
  function Step(rows: seq<Alert>, f: Finding, i: nat, now: int, faults: Faults): (next: seq<Alert>)
    ensures next == rows || next == rows + [AlertFor(f, now)]
    ensures next == rows + [AlertFor(f, now)] <==>
      (i in faults.lookupFails || !Blocked(rows, f.sensorId, now)) && i !in faults.insertFails
  {
    if i !in faults.lookupFails && Blocked(rows, f.sensorId, now) then rows
    else if i in faults.insertFails then rows
    else rows + [AlertFor(f, now)]
  }

  /** The table after the emission loop over fs: the old rows are kept and
      at most one row per finding is appended. */
  function Emitted(rows: seq<Alert>, fs: seq<Finding>, now: int, faults: Faults): (r: seq<Alert>)
    ensures |rows| <= |r| <= |rows| + |fs|
    ensures r[..|rows|] == rows
  {
    if fs == [] then rows
    else Step(Emitted(rows, fs[..|fs| - 1], now, faults), fs[|fs| - 1], |fs| - 1, now, faults)
  }

  /** The `alerts` table. */
  class AlertTable {
    var rows: seq<Alert>

    constructor(initial: seq<Alert>)
      ensures rows == initial
    {
      rows := initial;
    }

    /** `createAlertsForAnomalies(anomalies)` with the clock reading `now`. */
    method CreateAlertsForAnomalies(anomalies: seq<Finding>, now: int, faults: Faults)
      modifies this
      ensures rows == Emitted(old(rows), anomalies, now, faults)
    {
      if |anomalies| == 0 {
        return;
      }
      for i := 0 to |anomalies|
        invariant rows == Emitted(old(rows), anomalies[..i], now, faults)
      {
        var anomaly := anomalies[i];
        assert anomalies[..i + 1][..i] == anomalies[..i];
        var recentAlerts: Option<seq<Alert>> :=
          if i in faults.lookupFails then None
          else Some(RecentNewAlerts(rows, anomaly.sensorId, now - CooldownMillis));
        if recentAlerts.Some? && |recentAlerts.value| > 0 {
          continue;
        }
        var text: AlertText;
        if anomaly.zScore.Is(FacilitySentinel) {
          text := Inoperable(anomaly.sensorName);
        } else {
          var direction := if anomaly.zScore.IsPositive() then Increase else Decrease;
          text := UnusualPattern(anomaly.sensorName, anomaly.currentValue, anomaly.mean, anomaly.zScore, direction);
        }
        var alertType := if anomaly.zScore.Is(FacilitySentinel) then FacilityError else Anomaly;
        if i !in faults.insertFails {
          rows := rows + [Alert(anomaly.sensorId, alertType, anomaly.severity, text, New, now)];
        }
      }
      assert anomalies[..|anomalies|] == anomalies;
    }
  }

  // ---------------------------------------------------------------------
  // The duplicate check

  /** A lookup blocks exactly when the sensor has some NEW alert triggered
      in the last hour; alerts in other states, of other sensors or older
      ones do not block. */
  lemma BlockedMeans(rows: seq<Alert>, sid: SensorId, now: int)
    ensures Blocked(rows, sid, now) <==>
      exists k :: 0 <= k < |rows| && IsRecentNew(rows[k], sid, now - CooldownMillis)
  {
    var found := RecentNewAlerts(rows, sid, now - CooldownMillis);
    if Blocked(rows, sid, now) {
      assert found[0] in found;
    } else {
      forall k | 0 <= k < |rows|
        ensures !IsRecentNew(rows[k], sid, now - CooldownMillis)
      {
        assert rows[k] in rows;
      }
    }
  }

  /** More rows can only block more. */
  lemma BlockedGrows(rows: seq<Alert>, more: seq<Alert>, sid: SensorId, now: int)
    requires rows <= more && Blocked(rows, sid, now)
    ensures Blocked(more, sid, now)
  {
    BlockedMeans(rows, sid, now);
    BlockedMeans(more, sid, now);
    var k :| 0 <= k < |rows| && IsRecentNew(rows[k], sid, now - CooldownMillis);
    assert more[k] == rows[k];
  }

  // ---------------------------------------------------------------------
  // What a run appends

  /** a is the alert for one of the findings fs. */
  predicate AlertForOneOf(a: Alert, fs: seq<Finding>, now: int)
  {
    exists j :: 0 <= j < |fs| && a == AlertFor(fs[j], now)
  }

  /** Every appended row is the alert for one of the findings. */
  lemma {:induction false} AppendedFrom(rows: seq<Alert>, fs: seq<Finding>, now: int, faults: Faults)
    ensures forall k :: |rows| <= k < |Emitted(rows, fs, now, faults)| ==>
      AlertForOneOf(Emitted(rows, fs, now, faults)[k], fs, now)
  {
    if fs != [] {
      var init := fs[..|fs| - 1];
      AppendedFrom(rows, init, now, faults);
      var prior := Emitted(rows, init, now, faults);
      var r := Emitted(rows, fs, now, faults);
      forall k | |rows| <= k < |r|
        ensures AlertForOneOf(r[k], fs, now)
      {
        if k < |prior| {
          assert r[k] == prior[k];
          assert AlertForOneOf(prior[k], init, now);
          var j :| 0 <= j < |init| && prior[k] == AlertFor(init[j], now);
          assert init[j] == fs[j];
        } else {
          assert r[k] == AlertFor(fs[|fs| - 1], now);
        }
      }
    }
  }

  /** Every appended row is a NEW alert triggered now, for the sensor of a finding. */
  lemma AppendedAreNew(rows: seq<Alert>, fs: seq<Finding>, now: int, faults: Faults)
    ensures forall k :: |rows| <= k < |Emitted(rows, fs, now, faults)| ==>
      Emitted(rows, fs, now, faults)[k].status == New && Emitted(rows, fs, now, faults)[k].triggeredAt == now
    ensures forall k :: |rows| <= k < |Emitted(rows, fs, now, faults)| ==>
      exists j :: 0 <= j < |fs| && Emitted(rows, fs, now, faults)[k].sensorId == fs[j].sensorId
        && Emitted(rows, fs, now, faults)[k].severity == fs[j].severity
  {
    var r := Emitted(rows, fs, now, faults);
    AppendedFrom(rows, fs, now, faults);
    forall k | |rows| <= k < |r|
      ensures r[k].status == New && r[k].triggeredAt == now
      ensures exists j :: 0 <= j < |fs| && r[k].sensorId == fs[j].sensorId && r[k].severity == fs[j].severity
    {
      assert AlertForOneOf(r[k], fs, now);
      var j :| 0 <= j < |fs| && r[k] == AlertFor(fs[j], now);
    }
  }

  /** Each appended row is for a sensor that had no recent NEW alert just
      before it was inserted, provided the lookups succeed. */
  lemma {:induction false} AppendedWereUnblocked(rows: seq<Alert>, fs: seq<Finding>, now: int, faults: Faults)
    requires forall j :: 0 <= j < |fs| ==> j !in faults.lookupFails
    ensures forall k :: |rows| <= k < |Emitted(rows, fs, now, faults)| ==>
      !Blocked(Emitted(rows, fs, now, faults)[..k], Emitted(rows, fs, now, faults)[k].sensorId, now)
  {
    if fs != [] {
      var init := fs[..|fs| - 1];
      AppendedWereUnblocked(rows, init, now, faults);
      var prior := Emitted(rows, init, now, faults);
      var r := Emitted(rows, fs, now, faults);
      forall k | |rows| <= k < |r|
        ensures !Blocked(r[..k], r[k].sensorId, now)
      {
        if k < |prior| {
          assert r[..k] == prior[..k] && r[k] == prior[k];
          assert !Blocked(prior[..k], prior[k].sensorId, now);
        } else {
          assert r[..k] == prior;
        }
      }
    }
  }

  /** Within one run with working lookups no sensor gets two alerts, and a
      sensor that already had a recent NEW alert gets none. */
  lemma NoDuplicateWithinCooldown(rows: seq<Alert>, fs: seq<Finding>, now: int, faults: Faults)
    requires forall j :: 0 <= j < |fs| ==> j !in faults.lookupFails
    ensures forall k, l :: |rows| <= k < l < |Emitted(rows, fs, now, faults)| ==>
      Emitted(rows, fs, now, faults)[k].sensorId != Emitted(rows, fs, now, faults)[l].sensorId
    ensures forall k :: |rows| <= k < |Emitted(rows, fs, now, faults)| ==>
      !Blocked(rows, Emitted(rows, fs, now, faults)[k].sensorId, now)
  {
    var r := Emitted(rows, fs, now, faults);
    AppendedWereUnblocked(rows, fs, now, faults);
    AppendedAreNew(rows, fs, now, faults);
    forall k, l | |rows| <= k < l < |r|
      ensures r[k].sensorId != r[l].sensorId
    {
      assert !Blocked(r[..l], r[l].sensorId, now);
      BlockedMeans(r[..l], r[l].sensorId, now);
      assert r[..l][k] == r[k];
      assert r[k].status == New && r[k].triggeredAt == now;
      assert IsRecentNew(r[..l][k], r[k].sensorId, now - CooldownMillis);
    }
    forall k | |rows| <= k < |r|
      ensures !Blocked(rows, r[k].sensorId, now)
    {
      assert !Blocked(r[..k], r[k].sensorId, now);
      assert rows <= r[..k];
      if Blocked(rows, r[k].sensorId, now) {
        BlockedGrows(rows, r[..k], r[k].sensorId, now);
      }
    }
  }

  /** At most one NEW alert from the last hour per sensor. */
  predicate SingleRecentNew(rows: seq<Alert>, now: int)
  {
    forall k, l ::
      0 <= k < l < |rows| && IsRecentNew(rows[k], rows[k].sensorId, now - CooldownMillis)
      && IsRecentNew(rows[l], rows[l].sensorId, now - CooldownMillis)
      ==> rows[k].sensorId != rows[l].sensorId
  }

  /** A run with working lookups keeps at most one recent NEW alert per sensor. */
  lemma EmissionKeepsSingleRecentNew(rows: seq<Alert>, fs: seq<Finding>, now: int, faults: Faults)
    requires forall j :: 0 <= j < |fs| ==> j !in faults.lookupFails
    requires SingleRecentNew(rows, now)
    ensures SingleRecentNew(Emitted(rows, fs, now, faults), now)
  {
    var r := Emitted(rows, fs, now, faults);
    NoDuplicateWithinCooldown(rows, fs, now, faults);
    forall k, l | 0 <= k < l < |r| && IsRecentNew(r[k], r[k].sensorId, now - CooldownMillis)
      && IsRecentNew(r[l], r[l].sensorId, now - CooldownMillis)
      ensures r[k].sensorId != r[l].sensorId
    {
      if l < |rows| {
        assert r[k] == rows[k] && r[l] == rows[l];
      } else if k < |rows| {
        assert r[k] == rows[k];
        BlockedMeans(rows, r[l].sensorId, now);
      }
    }
  }

  /** A second run with working lookups within an hour of the first adds no
      alert for a sensor the first run alerted. */
  lemma RerunWithinCooldown(rows: seq<Alert>, fs: seq<Finding>, gs: seq<Finding>, now: int, later: int,
                            faults: Faults, laterFaults: Faults)
    requires now <= later <= now + CooldownMillis
    requires forall j :: 0 <= j < |gs| ==> j !in laterFaults.lookupFails
    ensures var first := Emitted(rows, fs, now, faults);
      var second := Emitted(first, gs, later, laterFaults);
      forall k, l :: |rows| <= k < |first| <= l < |second| ==> first[k].sensorId != second[l].sensorId
  {
    var first := Emitted(rows, fs, now, faults);
    var second := Emitted(first, gs, later, laterFaults);
    AppendedAreNew(rows, fs, now, faults);
    NoDuplicateWithinCooldown(first, gs, later, laterFaults);
    forall k, l | |rows| <= k < |first| <= l < |second|
      ensures first[k].sensorId != second[l].sensorId
    {
      BlockedMeans(first, second[l].sensorId, later);
    }
  }

  /** The table before finding m is a prefix of the table after the run. */
  lemma {:induction false} EmittedPrefix(rows: seq<Alert>, fs: seq<Finding>, m: nat, now: int, faults: Faults)
    requires m <= |fs|
    ensures Emitted(rows, fs[..m], now, faults) <= Emitted(rows, fs, now, faults)
  {
    if m < |fs| {
      var init := fs[..|fs| - 1];
      assert init[..m] == fs[..m];
      EmittedPrefix(rows, init, m, now, faults);
    } else {
      assert fs[..m] == fs;
    }
  }

  /** A finding is emitted when its lookup fails or finds nothing, its
      insert succeeds and no earlier finding names its sensor; a failed
      insert of another finding does not matter. */
  lemma UnblockedFindingEmitted(rows: seq<Alert>, fs: seq<Finding>, j: nat, now: int, faults: Faults)
    requires j < |fs| && j !in faults.insertFails
    requires j in faults.lookupFails || !Blocked(rows, fs[j].sensorId, now)
    requires forall i :: 0 <= i < j ==> fs[i].sensorId != fs[j].sensorId
    ensures AlertFor(fs[j], now) in Emitted(rows, fs, now, faults)
  {
    var init := fs[..j];
    var prior := Emitted(rows, init, now, faults);
    if j !in faults.lookupFails {
      assert !Blocked(prior, fs[j].sensorId, now) by {
        AppendedFrom(rows, init, now, faults);
        BlockedMeans(prior, fs[j].sensorId, now);
        BlockedMeans(rows, fs[j].sensorId, now);
        forall k | 0 <= k < |prior|
          ensures !IsRecentNew(prior[k], fs[j].sensorId, now - CooldownMillis)
        {
          if k < |rows| {
            assert prior[k] == rows[k];
          } else {
            var i :| 0 <= i < |init| && prior[k] == AlertFor(init[i], now);
            assert init[i] == fs[i];
          }
        }
      }
    }
    assert fs[..j + 1][..j] == init;
    var next := Emitted(rows, fs[..j + 1], now, faults);
    assert next == prior + [AlertFor(fs[j], now)];
    EmittedPrefix(rows, fs, j + 1, now, faults);
    assert next[|prior|] in Emitted(rows, fs, now, faults);
  }

  // ---------------------------------------------------------------------
  // What an alert says

  /** A facility finding becomes a FACILITY_ERROR alert with the
      "not working" text. */
  lemma FacilityAlert(s: Sensor, readings: map<SensorId, seq<Reading>>, now: int, t: int)
    requires IsFacility(s.sensorType) && DetectSensor(s, readings, now).Some?
    ensures AlertFor(DetectSensor(s, readings, now).value, t).alertType == FacilityError
    ensures AlertFor(DetectSensor(s, readings, now).value, t).text == Inoperable(s.name)
  {
    FacilityPath(s, readings, now, now);
  }

  /** A statistical finding from a window of fewer than 998002 readings
      becomes an ANOMALY alert whose direction word says whether the
      current value is above the mean. */
  lemma StatisticalAlert(s: Sensor, readings: map<SensorId, seq<Reading>>, now: int, t: int)
    requires !IsFacility(s.sensorType) && DetectSensor(s, readings, now).Some?
    requires |Window(readings[s.id], now)| < 998002
    ensures var f := DetectSensor(s, readings, now).value;
      var a := AlertFor(f, t);
      && a.alertType == Anomaly
      && a.text.UnusualPattern?
      && (a.text.direction == Increase <==> f.currentValue > f.mean)
  {
    var f := DetectSensor(s, readings, now).value;
    if f.zScore.Is(FacilitySentinel) {
      SentinelNeedsHugeWindow(s, readings, now);
    }
    ContinuousNeedsTenReadings(s, readings, now);
    var vs := Values(Window(readings[s.id], now));
    ContinuousPath(s, readings, now, vs);
    WindowZScoreOnSquares(vs, 0.0);
  }
}

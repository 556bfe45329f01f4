/** The HTTP entry point of the edge function: a preflight answer, request
    validation, one detection run followed by the emission of its alerts,
    and the JSON report or error it sends back. */
module Handler {
  import opened Schema
  import opened Detection
  import opened Alerting

  /** What the handler can make of a request.  `Unparsable` is a body that
      `req.json()` rejects, or whose parsed value cannot be destructured (the
      JSON value `null`); its `reason` is the message of the error thrown.  A
      payload is any parsed non-null JSON value; its `buildingId` is None when
      it has no `building_id` property (an array, number, string or boolean
      has none) or that property is null. */
  datatype Request = Preflight | Unparsable(reason: string) | Payload(buildingId: Option<string>)

  /** The JSON body sent back. */
  datatype Body =
    | PreflightOk
    | Failure(error: string)
    | Report(success: bool, anomaliesDetected: nat, anomalies: seq<Finding>)

  datatype Response = Response(status: nat, body: Body)

  const MissingBuilding: string := "building_id is required"
  const SensorsFailure: string := "Failed to fetch sensors: "

  /** `building_id` is truthy: present and not the empty string. */
  predicate HasBuilding(id: Option<string>)
  {
    id.Some? && id.value != ""
  }

  /** The response the handler sends for a request, given the tables the run
      reads and the error text the sensors query reports when it fails. */
  function Outcome(req: Request, tables: Tables, dbError: string, now: int): (resp: Response)
    ensures resp.status == 400 <==> req.Payload? && !HasBuilding(req.buildingId)
    ensures resp.status == 500 <==> req.Unparsable? || (req.Payload? && HasBuilding(req.buildingId) && tables.sensors.None?)
    ensures resp.status == 200 <==> req.Preflight? || (req.Payload? && HasBuilding(req.buildingId) && tables.sensors.Some?)
    ensures resp.status == 400 ==> resp.body == Failure(MissingBuilding)
    ensures resp.body.Report? <==> resp.status == 200 && !req.Preflight?
    ensures resp.body.Report? ==>
      resp.body.anomalies == Findings(SensorsOf(tables.sensors.value, req.buildingId.value), tables.readings, now)
  {
    match req
    case Preflight => Response(200, PreflightOk)
    case Unparsable(reason) => Response(500, Failure(reason))
    case Payload(id) =>
      if !HasBuilding(id) then Response(400, Failure(MissingBuilding))
      else if tables.sensors.None? then Response(500, Failure(SensorsFailure + dbError))
      else
        var fs := Findings(SensorsOf(tables.sensors.value, id.value), tables.readings, now);
        Response(200, Report(true, |fs|, fs))
  }

  /** `Deno.serve`'s handler: answers the request and, for a report, has
      written the alerts of its findings to `table`; every other answer
      leaves the table as it was. */
  method Serve(table: AlertTable, req: Request, tables: Tables, dbError: string, now: int, faults: Faults)
    returns (resp: Response)
    modifies table
    ensures resp == Outcome(req, tables, dbError, now)
    ensures resp.body.Report? ==> table.rows == Emitted(old(table.rows), resp.body.anomalies, now, faults)
    ensures !resp.body.Report? ==> table.rows == old(table.rows)
  {
    if req.Preflight? {
      return Response(200, PreflightOk);
    }
    if req.Unparsable? {
      return Response(500, Failure(req.reason));
    }
    if !HasBuilding(req.buildingId) {
      return Response(400, Failure(MissingBuilding));
    }
    var buildingId := req.buildingId.value;
    var detected := DetectAnomalies(tables, buildingId, now);
    if detected.None? {
      return Response(500, Failure(SensorsFailure + dbError));
    }
    var anomalies := detected.value;
    table.CreateAlertsForAnomalies(anomalies, now, faults);
    return Response(200, Report(true, |anomalies|, anomalies));
  }

  /** f comes from a sensor of the building. */
  predicate FromBuilding(f: Finding, all: seq<Sensor>, buildingId: string)
  {
    exists s :: s in all && s.buildingId == buildingId && s.id == f.sensorId
  }

  /** A report counts its anomalies, has no more of them than the building
      has sensors, every one comes from a distinct sensor of the building, and
      every sensor of the building with a finding is reported. */
  lemma ReportShape(req: Request, tables: Tables, dbError: string, now: int)
    requires Outcome(req, tables, dbError, now).body.Report?
    requires tables.sensors.Some? ==> UniqueIds(tables.sensors.value)
    ensures var body := Outcome(req, tables, dbError, now).body;
      && body.success
      && body.anomaliesDetected == |body.anomalies|
      && body.anomaliesDetected <= |SensorsOf(tables.sensors.value, req.buildingId.value)|
      && (forall j :: 0 <= j < |body.anomalies| ==>
            FromBuilding(body.anomalies[j], tables.sensors.value, req.buildingId.value))
      && (forall j, k :: 0 <= j < k < |body.anomalies| ==>
            body.anomalies[j].sensorId != body.anomalies[k].sensorId)
    ensures var ss := SensorsOf(tables.sensors.value, req.buildingId.value);
      forall i :: 0 <= i < |ss| && DetectSensor(ss[i], tables.readings, now).Some? ==>
        DetectSensor(ss[i], tables.readings, now).value in Outcome(req, tables, dbError, now).body.anomalies
  {
    var all := tables.sensors.value;
    var b := req.buildingId.value;
    var ss := SensorsOf(all, b);
    var fs := Findings(ss, tables.readings, now);
    assert Outcome(req, tables, dbError, now).body.anomalies == fs;
    FindingsBySensor(ss, tables.readings, now);
    var cs := Contributors(ss, tables.readings, now);
    forall j | 0 <= j < |fs|
      ensures FromBuilding(fs[j], all, b)
    {
      assert ss[cs[j]] in ss;
    }
    forall i | 0 <= i < |ss| && DetectSensor(ss[i], tables.readings, now).Some?
      ensures DetectSensor(ss[i], tables.readings, now).value in fs
    {
      var j :| 0 <= j < |cs| && cs[j] == i;
      assert fs[j] == DetectSensor(ss[i], tables.readings, now).value;
    }
    SensorsOfUnique(all, b);
    OneFindingPerSensor(ss, tables.readings, now);
  }

  /** A building with no sensors (an unknown id among them) gets an empty
      successful report, not an error. */
  lemma UnknownBuilding(tables: Tables, buildingId: string, dbError: string, now: int)
    requires tables.sensors.Some? && buildingId != ""
    requires forall s :: s in tables.sensors.value ==> s.buildingId != buildingId
    ensures Outcome(Payload(Some(buildingId)), tables, dbError, now) == Response(200, Report(true, 0, []))
  {
  }
}

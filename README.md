# Anomaly detection edge function, modelled in Dafny

The `detect-anomalies` edge function scans every sensor of a building.
A binary facility sensor (door, elevator, charger status) is flagged as
CRITICAL when its latest reading is 0. A continuous sensor (energy,
temperature, humidity, CO2) is flagged when it has at least ten readings
in the last 48 hours and the z-score of its newest reading against that
window exceeds 2 in absolute value. The flag is CRITICAL when |z| exceeds
3 and WARNING otherwise. The function then writes one NEW alert per
finding to the `alerts` table. It skips a sensor that already has a NEW
alert from the last hour. Finally it answers the HTTP request with the
findings.

Files:

- `schema.dfy` (module `Schema`): the database enums, sensors and readings.
- `surds.dfy` (module `Surds`): exact numbers of the form c·√r. The
  standard deviation and the z-score are irrational in general. Every
  comparison the detector makes on them is decided on squares. The
  `Denotation` lemma ties each comparison to the real number c·t for any
  root t of r.
- `statistics.dfy` (module `Statistics`): `calculateMean`,
  `calculateStdDev`, `calculateZScore`, and what they imply. This
  includes Samuelson's inequality: the z-score of a window's newest value
  satisfies z² ≤ n − 1.
- `detection.dfy` (module `Detection`): `detectAnomalies` as a loop
  method. It is proved equal to a fold over per-sensor verdicts. Lemmas
  give each path of the classification.
- `alerting.dfy` (module `Alerting`): the `alerts` table as a class.
  `createAlertsForAnomalies` is a loop method on it, proved against a fold
  (`Emitted`). Lemmas state what the duplicate check guarantees.
- `handler.dfy` (module `Handler`): the `Deno.serve` handler, covering the
  preflight, validation, the error responses and the report.

The database is a value. `Detection.Tables` holds the `sensors` rows, or
None when that query fails. It also maps each sensor id to its readings,
newest first; an id missing from the map is a failed readings query.
`Alerting.Faults` names the findings whose duplicate lookup or insert
fails. The clock is a parameter `now` in milliseconds.

## Model

| member | source | states |
|---|---|---|
| Statistics.Mean | supabase/functions/detect-anomalies/index.ts:33-37 | the mean is 0 for an empty list; otherwise mean × count equals the sum |
| Statistics.Variance | supabase/functions/detect-anomalies/index.ts:42-46 | the population variance is non-negative, and variance × count is the sum of squared deviations |
| Statistics.StdDev | supabase/functions/detect-anomalies/index.ts:42-47 | the standard deviation is a non-negative root whose square is the variance; it is 0 for an empty list |
| Statistics.ZScore | supabase/functions/detect-anomalies/index.ts:55-58 | the z-score is 0 when the standard deviation is 0; otherwise it is the number that times the standard deviation gives value − mean |
| Statistics.MeanWithinBounds | supabase/functions/detect-anomalies/index.ts:33-37 | the mean of a non-empty list lies between any lower and upper bound of its values |
| Statistics.FlatWindow | supabase/functions/detect-anomalies/index.ts:33-58 | a constant window has that constant as mean, variance 0 and z-score 0 |
| Statistics.NoVarianceNoDeviation | supabase/functions/detect-anomalies/index.ts:42-47 | zero variance forces every value, in particular the newest, to equal the mean |
| Statistics.DeviationsFromMeanCancel | supabase/functions/detect-anomalies/index.ts:33-37 | the deviations from the mean sum to 0 |
| Statistics.DeviationSumBound | supabase/functions/detect-anomalies/index.ts:42-46 | Cauchy–Schwarz: (Σ deviations)² ≤ n · Σ squared deviations |
| Statistics.Samuelson | supabase/functions/detect-anomalies/index.ts:33-47 | Samuelson's inequality: n·(v₀ − mean)² ≤ (n − 1)·Σ squared deviations |
| Statistics.WindowZScoreBound | supabase/functions/detect-anomalies/index.ts:55-58 | the z-score of a window's newest value has square at most n − 1 |
| Statistics.WindowZScoreOnSquares | supabase/functions/detect-anomalies/index.ts:55-58 | \|z\| > k iff (v₀ − mean)² > k²·variance; z > 0 iff v₀ > mean |
| Statistics.WindowZScoreMeaning | supabase/functions/detect-anomalies/index.ts:42-58 | for the real root σ of the variance and the real quotient z = (v₀ − mean)/σ (0 when σ = 0), the exact z-score exceeds k, is positive or equals x exactly when z does |
| Statistics.WorkedWindow | supabase/functions/detect-anomalies/index.ts:33-58 | the window [60, 10 ×9] has mean 15, variance 225, standard deviation 15 and z-score 3 |
| Surds.Sqrt | supabase/functions/detect-anomalies/index.ts:47 | `Math.sqrt` gives a non-negative number whose square is its argument; it is zero iff the argument is |
| Surds.Quotient | supabase/functions/detect-anomalies/index.ts:57 | the quotient times the divisor is the dividend |
| Surds.Denotation | supabase/functions/detect-anomalies/index.ts:42-58 | each comparison on a surd (zero, positive, \|·\| > k, = x) holds iff it holds for the real number it stands for |
| Detection.SensorsOf | supabase/functions/detect-anomalies/index.ts:69-72 | exactly the sensors of the building are kept |
| Detection.Window | supabase/functions/detect-anomalies/index.ts:109-115 | exactly the readings from the last 48 hours are kept |
| Detection.WindowCounts | supabase/functions/detect-anomalies/index.ts:109-117 | the window holds each reading from the last 48 hours as often as the history does, and no older reading, so its length (tested against 10) counts the recent readings |
| Detection.WindowIsPrefix | supabase/functions/detect-anomalies/index.ts:109-115 | for newest-first readings the window is a prefix of the history |
| Detection.DetectSensor | supabase/functions/detect-anomalies/index.ts:81-147 | a sensor's finding names that sensor, is flagged as an anomaly, and is CRITICAL or WARNING |
| Detection.DetectAnomalies | supabase/functions/detect-anomalies/index.ts:63-150 | None when the sensors query fails; otherwise the findings of the building's sensors, in sensor order |
| Detection.FacilityPath | supabase/functions/detect-anomalies/index.ts:83-106 | a facility sensor gives a finding iff its latest reading is 0; the finding has current 0, mean 1, standard deviation 0, z-score −999 and is CRITICAL; it does not depend on the clock |
| Detection.ContinuousNeedsTenReadings | supabase/functions/detect-anomalies/index.ts:117-120 | a continuous sensor's finding requires a successful readings query and at least ten readings in the window |
| Detection.ContinuousPath | supabase/functions/detect-anomalies/index.ts:122-146 | with enough readings there is a finding iff (v₀ − mean)² > 4·variance; it is CRITICAL iff (v₀ − mean)² > 9·variance, and it carries v₀, the window's mean, standard deviation and z-score |
| Detection.ContinuousVerdict | supabase/functions/detect-anomalies/index.ts:132-146 | for the real z-score: a finding iff \|z\| > 2, CRITICAL iff \|z\| > 3 |
| Detection.SeverityMatchesScore | supabase/functions/detect-anomalies/index.ts:93-145 | every finding's z-score exceeds 2 in absolute value, and it exceeds 3 exactly when the finding is CRITICAL; the facility sentinel −999 passes both |
| Detection.FlatWindowNoFinding | supabase/functions/detect-anomalies/index.ts:117-135 | a sensor whose window values are all equal never gives a finding |
| Detection.ZeroScoreNoFinding | supabase/functions/detect-anomalies/index.ts:132-135 | a zero z-score gives no finding |
| Detection.CriticalNeedsElevenReadings | supabase/functions/detect-anomalies/index.ts:117-146 | over exact reals, a CRITICAL statistical finding needs at least 11 readings, since ten give \|z\| ≤ 3 |
| Detection.SentinelNeedsHugeWindow | supabase/functions/detect-anomalies/index.ts:122-129 | a statistical z-score equals −999 only for a window of at least 998002 readings |
| Detection.CurrentIsNewest | supabase/functions/detect-anomalies/index.ts:108-124 | for newest-first readings the current value is the newest reading of the window |
| Detection.WindowKeepsOrder | supabase/functions/detect-anomalies/index.ts:108-115 | the window keeps the newest-first order |
| Detection.WorkedExample | supabase/functions/detect-anomalies/index.ts:122-146 | the window [60, 10 ×9] gives a WARNING finding with mean 15, standard deviation 15 and z-score exactly 3 |
| Detection.FindingsBySensor | supabase/functions/detect-anomalies/index.ts:78-149 | each finding comes from one sensor position, positions strictly increase, and every sensor with a verdict contributes |
| Detection.OneFindingPerSensor | supabase/functions/detect-anomalies/index.ts:78-149 | with unique sensor ids, no two findings name the same sensor |
| Detection.SensorsOfUnique | supabase/functions/detect-anomalies/index.ts:69-72 | filtering by building keeps sensor ids unique |
| Alerting.RecentNewAlerts | supabase/functions/detect-anomalies/index.ts:164-170 | the lookup finds exactly the alerts of the sensor with status NEW triggered since the given time |
| Alerting.BlockedMeans | supabase/functions/detect-anomalies/index.ts:163-176 | a finding is skipped iff the table holds a NEW alert of its sensor from the last hour |
| Alerting.BlockedGrows | supabase/functions/detect-anomalies/index.ts:163-176 | adding rows can only block more findings |
| Alerting.AlertFor | supabase/functions/detect-anomalies/index.ts:178-205 | the inserted row carries the finding's sensor and severity with status NEW and the current time; its type is FACILITY_ERROR iff the z-score is −999, otherwise ANOMALY |
| Alerting.Step | supabase/functions/detect-anomalies/index.ts:162-212 | one iteration either leaves the table alone or appends the finding's alert; it appends exactly when the lookup failed or found no recent NEW alert and the insert succeeds, so a failed insert adds nothing |
| Alerting.Emitted | supabase/functions/detect-anomalies/index.ts:155-213 | the old rows stay as a prefix, and at most one row per finding is appended |
| Alerting.AlertTable.CreateAlertsForAnomalies | supabase/functions/detect-anomalies/index.ts:155-213 | the new table is the old one after the emission fold over the findings |
| Alerting.AppendedFrom | supabase/functions/detect-anomalies/index.ts:196-205 | every appended row is the alert of one of the findings |
| Alerting.AppendedAreNew | supabase/functions/detect-anomalies/index.ts:196-205 | every appended row is NEW, triggered now, with the sensor and severity of a finding |
| Alerting.AppendedWereUnblocked | supabase/functions/detect-anomalies/index.ts:163-176 | with working lookups, no appended row's sensor had a recent NEW alert just before the insert |
| Alerting.NoDuplicateWithinCooldown | supabase/functions/detect-anomalies/index.ts:162-205 | with working lookups, a run never alerts one sensor twice, nor a sensor that already had a recent NEW alert |
| Alerting.EmissionKeepsSingleRecentNew | supabase/functions/detect-anomalies/index.ts:162-205 | with working lookups, the invariant "at most one recent NEW alert per sensor" is preserved |
| Alerting.RerunWithinCooldown | supabase/functions/detect-anomalies/index.ts:163-176 | a second run within the hour adds no alert for a sensor the first run alerted |
| Alerting.EmittedPrefix | supabase/functions/detect-anomalies/index.ts:162-212 | the table part way through the run is a prefix of the final table |
| Alerting.UnblockedFindingEmitted | supabase/functions/detect-anomalies/index.ts:162-212 | a finding with a failed or empty lookup, a successful insert and no earlier finding for its sensor gets its alert; another finding's failed insert does not affect it |
| Alerting.FacilityAlert | supabase/functions/detect-anomalies/index.ts:181-199 | a facility finding becomes a FACILITY_ERROR alert with the "not working" text |
| Alerting.StatisticalAlert | supabase/functions/detect-anomalies/index.ts:185-199 | a statistical finding from a window of fewer than 998002 readings becomes an ANOMALY alert whose direction is "increase" iff the current value exceeds the mean (from 998002 readings on, a z-score of exactly −999 takes the FACILITY_ERROR branch, as `AlertFor` states) |
| Handler.Outcome | supabase/functions/detect-anomalies/index.ts:215-262 | the status is 400 iff `building_id` is missing or empty, 500 iff `req.json()` rejects the body or its result cannot be destructured (a `null` body), or the sensors query fails, and 200 otherwise; 400 carries "building_id is required"; a report's anomalies are exactly the findings of the building's sensors |
| Handler.Serve | supabase/functions/detect-anomalies/index.ts:215-262 | the response is `Outcome`; after a report the alerts of its findings have been emitted, and after any other answer the table is unchanged |
| Handler.ReportShape | supabase/functions/detect-anomalies/index.ts:234-249 | a report has success set, counts its anomalies, has no more of them than the building has sensors, and each comes from a distinct sensor of the building, and every sensor of the building with a finding is reported |
| Handler.UnknownBuilding | supabase/functions/detect-anomalies/index.ts:224-249 | a building with no sensors gets an empty successful report, not an error |

## Left out

- Network I/O, the Supabase client and the environment variables are left out. Query results and failures are parameters (`Tables`, `Faults`, `dbError`).
- CORS headers and the JSON encoding of responses are left out. The OPTIONS preflight is modelled only as a 200 "ok" answer.
- Floating point is not modelled. Statistics are exact reals, and √ is represented symbolically. Rounding can change a comparison at a threshold boundary.
- Detection.CriticalNeedsElevenReadings: holds over exact reals only. In IEEE doubles a ten-reading window whose exact z-score is ±3 (nine equal readings and a different newest one) can round past 3 and be marked CRITICAL.
- Readings with a null `read_at` are not modelled; every reading has an integer timestamp. In the source such a row sorts first in the newest-first order, so the facility query takes it as the latest reading. The 48-hour filter drops it from a continuous sensor's window.
- Alerting.AlertFor: the alert title and description are left as structured values (sensor name, values, direction). The Korean wording and the two-decimal `toFixed` rendering are not modelled.
- Clock: the source reads `Date.now()` separately for each sensor's window and each finding's cooldown. The model uses one `now` per run.
- Concurrency: two runs that interleave their lookups and inserts can both insert for one sensor. The model treats each run as atomic.
- Alerting.NoDuplicateWithinCooldown, Alerting.EmissionKeepsSingleRecentNew and Alerting.RerunWithinCooldown assume working duplicate lookups. When a lookup fails, its data is null, the source does not skip, and a duplicate can be inserted. `Step` models that case.
- The console logging and the error logging of a failed insert are left out. A failed insert only leaves the table unchanged.
- Handler.Request: a non-string truthy `building_id` is not modelled. The model treats it as a string id that is absent, null or empty.
- The `location_detail` column and other display-only columns are left out.
- The `THRESHOLD` alert type and the `INFO` severity exist in the schema, but this function never writes them.
- The `ticket_status` and `user_role` enums of the schema are not part of this model.

Behaviour of the code worth stating plainly:

- Alerts are emitted after detection has finished for every sensor.
- An unknown building gets a 200 response with zero anomalies.
- The window [60, 10 ×9] gives mean 15, standard deviation 15 and z = 3 exactly, which is a WARNING, because the strong threshold is strict.

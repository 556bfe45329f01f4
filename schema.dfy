/** Value types shared by the anomaly detector: the database enums, sensors and
    readings as the edge function sees them. */
module Schema {

  datatype Option<+T> = None | Some(value: T)

  /** Enum `alert_status` of the database. */
  datatype AlertStatus = New | Acknowledged | Resolved

  /** Enum `alert_type`; `Threshold` is written only by rule-based seeding. */
  datatype AlertType = Threshold | Anomaly | FacilityError

  /** Enum `sensor_type`: four continuous measurements, three binary status channels. */
  datatype SensorType =
    | Energy | Temp | Humidity | Co2
    | DoorStatus | ElevatorStatus | ChargerStatus

  /** Enum `severity_level`; the detector only produces `Critical` and `Warning`. */
  datatype Severity = Critical | Warning | Info

  type SensorId = string

  /** A row of the `sensors` table (display-only columns left out). */
  datatype Sensor = Sensor(id: SensorId, buildingId: string, sensorType: SensorType, name: string)

  /** A row of `sensor_readings` for one sensor; `readAt` in milliseconds since the epoch. */
  datatype Reading = Reading(value: real, readAt: int)
}

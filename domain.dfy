/**
 * The records the tracking core receives: the persisted telemetry row (`CarTracking`)
 * and the DTG device's tracking message (`TrackingData`).
 *
 * Java `Double` coordinates and gauges are only copied and compared, never computed with,
 * so they are `Option<real>` (`None` is Java's null). `LocalDateTime` is an integer count
 * of nanoseconds on a fixed clock. A nullable `String` is `Option<string>`; the vehicle id,
 * which every cache key is built from, is a plain `string`.
 */
module Domain {
  import opened Wrappers

  /** One row of the durable store (the JPA entity). */
  datatype CarTracking = CarTracking(
    id: Option<int>,
    vehicleId: string,
    vehicleName: Option<string>,
    latitude: Option<real>,
    longitude: Option<real>,
    speed: Option<real>,
    heading: Option<real>,
    status: Option<string>,
    timestamp: Option<int>,
    fuelLevel: Option<real>,
    engineStatus: Option<string>)

  /** A real-time sample pushed by the DTG (digital tachograph) integration. */
  datatype TrackingData = TrackingData(
    vehicleId: string,
    plateNo: Option<string>,
    latitude: Option<real>,
    longitude: Option<real>,
    speed: Option<real>,
    heading: Option<real>,
    altitude: Option<real>,
    fuelLevel: Option<real>,
    engineStatus: Option<string>,
    timestamp: Option<int>,
    tripId: Option<string>)
}

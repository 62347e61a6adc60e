/** `CarTrackingRequest`: the ingestion payload and its conversion to a durable-store row. */
module Request {
  import opened Wrappers
  import opened Domain
  import opened Response

  /** The Java constructor is the datatype constructor: it stores its ten arguments as they are. */
  datatype CarTrackingRequest = CarTrackingRequest(
    vehicleId: string,
    vehicleName: Option<string>,
    latitude: Option<real>,
    longitude: Option<real>,
    speed: Option<real>,
    heading: Option<real>,
    status: Option<string>,
    timestamp: Option<int>,
    fuelLevel: Option<real>,
    engineStatus: Option<string>)

  /**
   * `toCarTracking`: a new row without a durable id; the event time is the request's own
   * timestamp when it has one and the clock reading `now` otherwise.
   */
  function ToCarTracking(req: CarTrackingRequest, now: int): (e: CarTracking)
    ensures e.id == None
    ensures e.timestamp.Some?
    ensures req.timestamp.Some? ==> e.timestamp == req.timestamp
    ensures req.timestamp.None? ==> e.timestamp == Some(now)
    ensures e.vehicleId == req.vehicleId && e.vehicleName == req.vehicleName
    ensures e.latitude == req.latitude && e.longitude == req.longitude
    ensures e.speed == req.speed && e.heading == req.heading && e.status == req.status
    ensures e.fuelLevel == req.fuelLevel && e.engineStatus == req.engineStatus
  {
    var eventTime := if req.timestamp.Some? then req.timestamp.value else now;
    CarTracking(None, req.vehicleId, req.vehicleName, req.latitude, req.longitude, req.speed,
                req.heading, req.status, Some(eventTime), req.fuelLevel, req.engineStatus)
  }

  /** A stamped request converts the same way whatever the clock says. */
  lemma ToCarTrackingIgnoresClockWhenStamped(req: CarTrackingRequest, now1: int, now2: int)
    requires req.timestamp.Some?
    ensures ToCarTracking(req, now1) == ToCarTracking(req, now2)
  {
  }

  /** Re-submitting the stored sample as a request reproduces the same row: defaulting happens once. */
  lemma ToCarTrackingStable(req: CarTrackingRequest, now1: int, now2: int)
    ensures var e := ToCarTracking(req, now1);
            ToCarTracking(req.(timestamp := e.timestamp), now2) == e
  {
  }
}

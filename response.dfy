/**
 * `CarTrackingResponse`: the immutable sample the cache stores, the queries return and
 * the publisher broadcasts, with its three factories.
 */
module Response {
  import opened Wrappers
  import opened Domain

  /** The Java constructor is the datatype constructor: it stores its eleven arguments as they are. */
  datatype CarTrackingResponse = CarTrackingResponse(
    id: Option<int>,
    vehicleId: string,
    vehicleName: Option<string>,
    latitude: Option<real>,
    longitude: Option<real>,
    speed: Option<real>,
    heading: Option<real>,
    status: Option<string>,
    timestamp: Option<int>,
    fuelLevel: Option<real>,
    engineStatus: Option<string>)

  /** The status given to every sample converted from DTG tracking data ("in operation"). */
  const DtgStatus: string := "\U{C6B4}\U{D589}\U{C911}"

  /** Static factory `of`: every argument lands in the field of the same name. */
  function Of(id: Option<int>, vehicleId: string, vehicleName: Option<string>,
              latitude: Option<real>, longitude: Option<real>, speed: Option<real>,
              heading: Option<real>, status: Option<string>, timestamp: Option<int>,
              fuelLevel: Option<real>, engineStatus: Option<string>): (r: CarTrackingResponse)
    ensures r.id == id && r.vehicleId == vehicleId && r.vehicleName == vehicleName
    ensures r.latitude == latitude && r.longitude == longitude
    ensures r.speed == speed && r.heading == heading && r.status == status
    ensures r.timestamp == timestamp && r.fuelLevel == fuelLevel && r.engineStatus == engineStatus
  {
    CarTrackingResponse(id, vehicleId, vehicleName, latitude, longitude, speed, heading,
                        status, timestamp, fuelLevel, engineStatus)
  }

  /** `from(CarTracking)`: a field-by-field copy of a durable-store row, its id included. */
  function From(e: CarTracking): (r: CarTrackingResponse)
    ensures r.id == e.id && r.vehicleId == e.vehicleId && r.vehicleName == e.vehicleName
    ensures r.latitude == e.latitude && r.longitude == e.longitude
    ensures r.speed == e.speed && r.heading == e.heading && r.status == e.status
    ensures r.timestamp == e.timestamp && r.fuelLevel == e.fuelLevel
    ensures r.engineStatus == e.engineStatus
  {
    Of(e.id, e.vehicleId, e.vehicleName, e.latitude, e.longitude, e.speed, e.heading,
       e.status, e.timestamp, e.fuelLevel, e.engineStatus)
  }

  /** Since `From` copies every field, two rows give the same response only if they are the same row. */
  lemma FromInjective(e1: CarTracking, e2: CarTracking)
    requires From(e1) == From(e2)
    ensures e1 == e2
  {
  }

  /**
   * `fromTrackingData`: no durable id, the plate number stands in for the vehicle name and
   * the status is always `DtgStatus`; altitude and trip id are dropped.
   */
  function FromTrackingData(d: TrackingData): (r: CarTrackingResponse)
    ensures r.id == None
    ensures r.vehicleName == d.plateNo
    ensures r.status == Some(DtgStatus)
    ensures r.vehicleId == d.vehicleId && r.latitude == d.latitude && r.longitude == d.longitude
    ensures r.speed == d.speed && r.heading == d.heading && r.timestamp == d.timestamp
    ensures r.fuelLevel == d.fuelLevel && r.engineStatus == d.engineStatus
  {
    Of(None, d.vehicleId, d.plateNo, d.latitude, d.longitude, d.speed, d.heading,
       Some(DtgStatus), d.timestamp, d.fuelLevel, d.engineStatus)
  }

  /** Altitude and trip id do not influence the converted sample. */
  lemma FromTrackingDataIgnoresAltitudeAndTrip(d: TrackingData, altitude: Option<real>, tripId: Option<string>)
    ensures FromTrackingData(d.(altitude := altitude, tripId := tripId)) == FromTrackingData(d)
  {
  }

  /** `Optional.map(CarTrackingResponse::from)`. */
  function FromOptional(o: Option<CarTracking>): (r: Option<CarTrackingResponse>)
    ensures r.Some? <==> o.Some?
    ensures o.Some? ==> r.value == From(o.value)
  {
    match o
    case None => None
    case Some(e) => Some(From(e))
  }

  /** `stream().map(CarTrackingResponse::from).collect(toList())`: same length, element by element. */
  function FromAll(es: seq<CarTracking>): (r: seq<CarTrackingResponse>)
    ensures |r| == |es|
    ensures forall i :: 0 <= i < |es| ==> r[i] == From(es[i])
  {
    if es == [] then [] else [From(es[0])] + FromAll(es[1..])
  }
}

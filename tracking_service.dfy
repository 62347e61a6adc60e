/**
 * `CarTrackingService`: composes the cache tier, the durable store and the real-time publisher.
 * Reads go to the cache first and fall back to the durable store only when the cache has
 * nothing; a fallback result is never written back. Every write goes to latest, then history,
 * then to the publisher.
 */
module TrackingService {
  import opened Wrappers
  import opened Seqs
  import opened Domain
  import opened Response
  import opened Request
  import opened Queries
  import opened RedisRepository

  /** `LocalDateTime.minusMinutes(5)` in nanoseconds. */
  const FiveMinutes: int := 5 * 60 * 1_000_000_000

  const AllVehiclesTopic: string := "/topic/vehicles/all"

  function VehicleTopic(vehicleId: string): string
  {
    "/topic/vehicle/" + vehicleId
  }

  /**
   * The per-vehicle topics never coincide with the broadcast topic, and two vehicles share a
   * topic only when they are the same vehicle: a subscriber to one vehicle sees only its samples.
   */
  lemma TopicsAreDistinct(a: string, b: string)
    ensures VehicleTopic(a) != AllVehiclesTopic
    ensures VehicleTopic(a) == VehicleTopic(b) ==> a == b
  {
    assert VehicleTopic(a)[14] == '/' != AllVehiclesTopic[14];
    if VehicleTopic(a) == VehicleTopic(b) {
      assert a == VehicleTopic(a)[15..] == VehicleTopic(b)[15..] == b;
    }
  }

  /** One message handed to the WebSocket publisher. */
  datatype Message = Message(topic: string, payload: CarTrackingResponse)

  /** The `NotFoundException` of `updateVehicleStatus`. */
  datatype NotFound = NotFound(message: string)

  /**
   * The relational store, seen only through the three queries the service calls. Their
   * answers are given: the store is read, never written, by this core.
   */
  datatype DurableStore = DurableStore(
    findFirstByVehicleIdOrderByTimestampDesc: string -> Option<CarTracking>,
    findByVehicleIdOrderByTimestampDesc: string -> seq<CarTracking>,
    findCurrentActiveVehicles: int -> seq<CarTracking>)

  /** The concatenation, in the order of `order`, of each vehicle's history entries inside the window. */
  ghost function InRangeAcross(repo: CarTrackingRedisRepository, order: seq<string>, start: int, end: int): seq<CarTrackingResponse>
    reads repo
  {
    if order == [] then []
    else InRangeAcross(repo, order[..|order| - 1], start, end)
         + Select(repo.Hist(order[|order| - 1]), TimeWindow(start, end))
  }

  /** A sample is in the concatenation exactly when it is an in-window entry of a listed vehicle's history. */
  lemma {:induction false} InRangeAcrossMembership(repo: CarTrackingRedisRepository, order: seq<string>, start: int, end: int, x: CarTrackingResponse)
    ensures x in InRangeAcross(repo, order, start, end) <==>
            (exists id :: id in order && x in repo.Hist(id)) && Matches(TimeWindow(start, end), x)
  {
    if order != [] {
      var init, last := order[..|order| - 1], order[|order| - 1];
      InRangeAcrossMembership(repo, init, start, end, x);
      assert order == init + [last];
      if x in repo.Hist(last) && Matches(TimeWindow(start, end), x) {
        assert x in Select(repo.Hist(last), TimeWindow(start, end));
      }
      if (exists id :: id in order && x in repo.Hist(id)) && Matches(TimeWindow(start, end), x) {
        var id :| id in order && x in repo.Hist(id);
        if id != last {
          assert id in init;
        }
      }
    }
  }

  /** One more listed vehicle appends that vehicle's in-window entries. */
  lemma InRangeAcrossStep(repo: CarTrackingRedisRepository, order: seq<string>, i: int, start: int, end: int)
    requires 0 <= i < |order|
    ensures InRangeAcross(repo, order[..i + 1], start, end) ==
            InRangeAcross(repo, order[..i], start, end) + Select(repo.Hist(order[i]), TimeWindow(start, end))
  {
    assert order[..i + 1][..i] == order[..i];
  }

  /** Over any listing of the registry, the concatenation holds exactly the registry's in-window history entries. */
  lemma InRangeAcrossRegistry(repo: CarTrackingRedisRepository, order: seq<string>, start: int, end: int)
    requires forall id :: id in order <==> id in repo.ids
    ensures forall x :: x in InRangeAcross(repo, order, start, end) <==>
              (exists id :: id in repo.ids && x in repo.Hist(id)) &&
              x.timestamp.Some? && start <= x.timestamp.value <= end
  {
    forall x
      ensures x in InRangeAcross(repo, order, start, end) <==>
              (exists id :: id in repo.ids && x in repo.Hist(id)) &&
              x.timestamp.Some? && start <= x.timestamp.value <= end
    {
      InRangeAcrossMembership(repo, order, start, end, x);
    }
  }

  class CarTrackingService {
    const cache: CarTrackingRedisRepository
    const db: DurableStore
    /** Every message handed to the publisher, oldest first. */
    ghost var published: seq<Message>

    ghost predicate Valid()
      reads this, cache
    {
      cache.Valid()
    }

    constructor(cache: CarTrackingRedisRepository, db: DurableStore)
      requires cache.Valid()
      ensures Valid()
      ensures this.cache == cache && this.db == db && published == []
    {
      this.cache := cache;
      this.db := db;
      published := [];
    }

    /** The answer of `getLatestVehicleLocation` in the current state. */
    ghost function LatestView(vehicleId: string): Option<CarTrackingResponse>
      reads this, cache
    {
      if vehicleId in cache.latest then Some(cache.latest[vehicleId])
      else FromOptional(db.findFirstByVehicleIdOrderByTimestampDesc(vehicleId))
    }

    /** The lists `getAllCurrentVehicleLocations` may return at clock reading `now`. */
    ghost predicate IsCurrent(r: seq<CarTrackingResponse>, now: int)
      reads this, cache
    {
      if cache.ids != {} then cache.IsAllLatest(r)
      else r == FromAll(db.findCurrentActiveVehicles(now - FiveMinutes))
    }

    /**
     * `receiveVehicleLocation`: convert the request, write it as latest, push it to history,
     * publish it on the vehicle's topic and on the all-vehicles topic, and return it.
     */
    method ReceiveVehicleLocation(request: CarTrackingRequest, now: int) returns (response: CarTrackingResponse)
      requires Valid()
      modifies this, cache
      ensures Valid()
      ensures response == From(ToCarTracking(request, now))
      ensures cache.latest == old(cache.latest)[request.vehicleId := response]
      ensures cache.history == old(cache.history)[request.vehicleId := Pushed(old(cache.Hist(request.vehicleId)), response)]
      ensures cache.ids == old(cache.ids) + {request.vehicleId}
      ensures published == old(published) + [Message(VehicleTopic(request.vehicleId), response),
                                             Message(AllVehiclesTopic, response)]
    {
      var entity := ToCarTracking(request, now);
      response := From(entity);
      cache.SaveLatest(response);
      cache.AppendHistory(response);
      published := published + [Message(VehicleTopic(response.vehicleId), response)];
      published := published + [Message(AllVehiclesTopic, response)];
    }

    /**
     * `getLatestVehicleLocation`: the cached sample when there is one (the durable store is
     * then not consulted); otherwise the durable store's newest row, possibly none.
     */
    method GetLatestVehicleLocation(vehicleId: string) returns (r: Option<CarTrackingResponse>, ghost consulted: bool)
      ensures vehicleId in cache.latest ==> r == Some(cache.latest[vehicleId])
      ensures vehicleId !in cache.latest ==> r == FromOptional(db.findFirstByVehicleIdOrderByTimestampDesc(vehicleId))
      ensures consulted <==> vehicleId !in cache.latest
      ensures r == LatestView(vehicleId)
    {
      var cached := cache.FindLatest(vehicleId);
      if cached.Some? {
        return cached, false;
      }
      consulted := true;
      r := FromOptional(db.findFirstByVehicleIdOrderByTimestampDesc(vehicleId));
    }

    /**
     * `getAllCurrentVehicleLocations`: the cache's list whenever it is non-empty; only a cold
     * cache falls back to the durable store's vehicles active in the last five minutes.
     */
    method GetAllCurrentVehicleLocations(now: int) returns (r: seq<CarTrackingResponse>, ghost fellBack: bool)
      requires Valid()
      ensures cache.ids != {} ==> cache.IsAllLatest(r) && r != []
      ensures cache.ids == {} ==> r == FromAll(db.findCurrentActiveVehicles(now - FiveMinutes))
      ensures fellBack <==> cache.ids == {}
      ensures IsCurrent(r, now)
    {
      var cached := cache.FindAllLatest();
      if cached != [] {
        return cached, false;
      }
      fellBack := true;
      var cutoffTime := now - FiveMinutes;
      r := FromAll(db.findCurrentActiveVehicles(cutoffTime));
    }

    /**
     * `getVehicleLocationHistory`: the cached history (at most 600 entries, newest first) when
     * it is non-empty, otherwise the durable store's rows for the vehicle.
     */
    method GetVehicleLocationHistory(vehicleId: string) returns (r: seq<CarTrackingResponse>, ghost fellBack: bool)
      requires Valid()
      ensures cache.Hist(vehicleId) != [] ==> r == cache.Hist(vehicleId)
      ensures cache.Hist(vehicleId) == [] ==> r == FromAll(db.findByVehicleIdOrderByTimestampDesc(vehicleId))
      ensures fellBack <==> cache.Hist(vehicleId) == []
    {
      var history := cache.FindHistory(vehicleId, MaxHistorySize as int32);
      if history != [] {
        return history, false;
      }
      fellBack := true;
      r := FromAll(db.findByVehicleIdOrderByTimestampDesc(vehicleId));
    }

    /**
     * `getVehicleLocationsInTimeRange`: for every registered vehicle, in the registry's listing
     * order, its history entries inside the inclusive window. Only the cache is read.
     */
    method GetVehicleLocationsInTimeRange(startTime: int, endTime: int) returns (r: seq<CarTrackingResponse>, ghost order: seq<string>)
      requires Valid()
      ensures |order| == |cache.ids| && Distinct(order) && forall id :: id in order <==> id in cache.ids
      ensures r == InRangeAcross(cache, order, startTime, endTime)
      ensures forall x :: x in r <==>
                (exists id :: id in cache.ids && x in cache.Hist(id)) &&
                x.timestamp.Some? && startTime <= x.timestamp.value <= endTime
    {
      var vehicleIds := cache.FindAllVehicleIds();
      order := vehicleIds;
      r := [];
      for i := 0 to |vehicleIds|
        invariant r == InRangeAcross(cache, vehicleIds[..i], startTime, endTime)
      {
        var part := cache.FindHistoryInRange(vehicleIds[i], startTime, endTime);
        InRangeAcrossStep(cache, vehicleIds, i, startTime, endTime);
        r := r + part;
      }
      assert vehicleIds[..|vehicleIds|] == vehicleIds;
      InRangeAcrossRegistry(cache, order, startTime, endTime);
    }

    /**
     * `getVehiclesInArea`: of the current locations, those with both coordinates present and
     * inside the inclusive bounding box, in their original order.
     */
    method GetVehiclesInArea(minLat: real, maxLat: real, minLng: real, maxLng: real, now: int)
      returns (filtered: seq<CarTrackingResponse>, ghost current: seq<CarTrackingResponse>, ghost fellBack: bool)
      requires Valid()
      ensures IsCurrent(current, now)
      ensures fellBack <==> cache.ids == {}
      ensures filtered == Select(current, Area(minLat, maxLat, minLng, maxLng))
      ensures cache.ids != {} ==> forall x :: x in filtered <==>
                x.vehicleId in cache.latest && cache.latest[x.vehicleId] == x &&
                Matches(Area(minLat, maxLat, minLng, maxLng), x)
      ensures cache.ids == {} ==>
                filtered == Select(FromAll(db.findCurrentActiveVehicles(now - FiveMinutes)), Area(minLat, maxLat, minLng, maxLng))
    {
      var latest, fell := GetAllCurrentVehicleLocations(now);
      fellBack := fell;
      current := latest;
      ghost var box := Area(minLat, maxLat, minLng, maxLng);
      filtered := [];
      for i := 0 to |latest|
        invariant filtered == Select(latest[..i], box)
      {
        var r := latest[i];
        SelectSnoc(latest[..i], r, box);
        TakeOneMore(latest, i);
        if r.latitude.None? || r.longitude.None? {
          assert !Matches(box, r);
          continue;
        }
        if r.latitude.value >= minLat && r.latitude.value <= maxLat &&
           r.longitude.value >= minLng && r.longitude.value <= maxLng {
          assert Matches(box, r);
          filtered := filtered + [r];
        } else {
          assert !Matches(box, r);
        }
      }
      assert latest[..|latest|] == latest;
      if cache.ids != {} {
        AllLatestMembership(cache, latest);
      }
    }

    /** `getVehiclesByStatus`: of the current locations, those whose status equals `status`. */
    method GetVehiclesByStatus(status: string, now: int)
      returns (r: seq<CarTrackingResponse>, ghost current: seq<CarTrackingResponse>, ghost fellBack: bool)
      requires Valid()
      ensures IsCurrent(current, now)
      ensures fellBack <==> cache.ids == {}
      ensures forall x :: x in r <==> x in current && x.status == Some(status)
      ensures Subsequence(r, current)
      ensures cache.ids != {} ==> forall x :: x in r <==>
                x.vehicleId in cache.latest && cache.latest[x.vehicleId] == x && x.status == Some(status)
      ensures cache.ids == {} ==>
                r == Select(FromAll(db.findCurrentActiveVehicles(now - FiveMinutes)), StatusIs(status))
    {
      var latest, fell := GetAllCurrentVehicleLocations(now);
      fellBack := fell;
      current := latest;
      r := Select(latest, StatusIs(status));
      SelectIsSubsequence(latest, StatusIs(status));
      if cache.ids != {} {
        AllLatestMembership(cache, latest);
      }
    }

    /**
     * `saveTrackingData`: the repository converts and caches the DTG sample; the converted
     * sample is published on the vehicle's topic only.
     */
    method SaveTrackingData(data: TrackingData)
      requires Valid()
      modifies this, cache
      ensures Valid()
      ensures cache.latest == old(cache.latest)[data.vehicleId := FromTrackingData(data)]
      ensures cache.history == old(cache.history)[data.vehicleId := Pushed(old(cache.Hist(data.vehicleId)), FromTrackingData(data))]
      ensures cache.ids == old(cache.ids) + {data.vehicleId}
      ensures published == old(published) + [Message(VehicleTopic(data.vehicleId), FromTrackingData(data))]
    {
      cache.SaveTrackingData(data);
      published := published + [Message(VehicleTopic(data.vehicleId), FromTrackingData(data))];
    }

    /**
     * `updateVehicleStatus`: when the vehicle has a latest sample (cache or durable store), a
     * copy with the new status and timestamp `now` is cached and broadcast like an ingested one;
     * otherwise NotFound is raised and nothing is written or published.
     */
    method UpdateVehicleStatus(vehicleId: string, status: string, now: int) returns (result: Result<CarTrackingResponse, NotFound>)
      requires Valid()
      modifies this, cache
      ensures Valid()
      ensures old(LatestView(vehicleId)).None? ==>
                && result == Err(NotFound("Vehicle not found: " + vehicleId))
                && cache.latest == old(cache.latest) && cache.history == old(cache.history)
                && cache.ids == old(cache.ids) && published == old(published)
      ensures old(LatestView(vehicleId)).Some? ==>
                var updated := old(LatestView(vehicleId)).value.(status := Some(status), timestamp := Some(now));
                && result == Ok(updated)
                && cache.latest == old(cache.latest)[updated.vehicleId := updated]
                && cache.history == old(cache.history)[updated.vehicleId := Pushed(old(cache.Hist(updated.vehicleId)), updated)]
                && cache.ids == old(cache.ids) + {updated.vehicleId}
                && published == old(published) + [Message(VehicleTopic(updated.vehicleId), updated),
                                                  Message(AllVehiclesTopic, updated)]
    {
      var latest, _ := GetLatestVehicleLocation(vehicleId);
      if latest.Some? {
        var current := latest.value;
        var updated := Of(current.id, current.vehicleId, current.vehicleName, current.latitude,
                          current.longitude, current.speed, current.heading, Some(status), Some(now),
                          current.fuelLevel, current.engineStatus);
        cache.SaveLatest(updated);
        cache.AppendHistory(updated);
        published := published + [Message(VehicleTopic(updated.vehicleId), updated)];
        published := published + [Message(AllVehiclesTopic, updated)];
        return Ok(updated);
      }
      return Err(NotFound("Vehicle not found: " + vehicleId));
    }
  }
}

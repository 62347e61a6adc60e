# Vehicle tracking store — a Dafny model

This project models the two-tier tracking store of the car-tracking service: the Redis cache
tier (`CarTrackingRedisRepository`), the orchestrating `CarTrackingService`, and the two DTOs
that carry samples in and out (`CarTrackingRequest`, `CarTrackingResponse`).

- **Cache tier** (`redis_repository.dfy`): a class whose three fields are the three Redis key
  families — `latest` (`vehicle:latest:{id}`), `history` (`vehicle:history:{id}`, newest first)
  and `ids` (the `vehicles:ids` registry set). `saveLatest` and `appendHistory` update them in
  place; `appendHistory` is `LPUSH` then `LTRIM 0 599`. The object invariant `Valid` says the
  registry is exactly the set of vehicles with a latest sample, each slot is keyed
  by its sample's vehicle id, and each history list is non-empty and holds at most 600 entries. The writers' contracts add that the registry
  only grows.
- **Redis list indices** (`redis_list.dfy`): `LRANGE`/`LTRIM` with inclusive ends, negative
  indices counted from the tail and clamping. As a consequence `findHistory(id, 0)` asks for
  stop index -1 and returns the whole list. The limit is a Java `int`, so `limit - 1` wraps:
  `findHistory(id, Integer.MIN_VALUE)` asks for stop 2147483647 and also returns the whole list.
  The service only ever passes 600.
- **Orchestrator** (`tracking_service.dfy`): a class holding the cache, the durable store and an
  append-only ghost log of published `(topic, sample)` messages. Reads are cache-first; the
  durable store is consulted only when the cache has nothing, and a fallback answer is never
  written back (the read methods have no `modifies` clause). The read methods that can reach the
  durable store (`GetLatestVehicleLocation`, `GetAllCurrentVehicleLocations`,
  `GetVehicleLocationHistory`, `GetVehiclesInArea`, `GetVehiclesByStatus`) return a ghost flag
  that is set exactly when the durable store is consulted; `GetVehicleLocationsInTimeRange`
  reads only the cache.
- **Durable store**: the JPA repository is a value of three query functions whose answers are
  given (`findFirstByVehicleIdOrderByTimestampDesc`, `findByVehicleIdOrderByTimestampDesc`,
  `findCurrentActiveVehicles`); the core only reads it.
- **Filters** (`queries.dfy`): the inclusive time window, the inclusive bounding box that skips
  samples without coordinates, and the exact status match, with a filter proved sound, complete,
  order-preserving and distributive over concatenation.
- **DTOs** (`response.dfy`, `request.dfy`, `domain.dfy`): the Java constructors are datatype
  constructors (they store every argument as is). `fromTrackingData` uses the plate number as the
  vehicle name and the fixed status "운행중"; `toCarTracking` defaults a missing timestamp to `now`.

The clock (`LocalDateTime.now()`) is an explicit `now` parameter. Timestamps are integers counting
nanoseconds, the resolution of `LocalDateTime`, so "five minutes ago" is `now - 300_000_000_000`.
Java `Double` coordinates and gauges are `Option<real>`: they are only copied and compared.

## Model

| member | source | states |
|---|---|---|
| `Response.Of` | src/main/java/com/kt_giga_fms/car_tracking/dto/CarTrackingResponse.java:38-42 | every one of the eleven arguments is stored unchanged in its field |
| `Response.From` | src/main/java/com/kt_giga_fms/car_tracking/dto/CarTrackingResponse.java:44-58 | copies every field of the entity, the durable id included |
| `Response.FromInjective` | src/main/java/com/kt_giga_fms/car_tracking/dto/CarTrackingResponse.java:44-58 | distinct entities give distinct responses (nothing is lost in the copy) |
| `Response.FromTrackingData` | src/main/java/com/kt_giga_fms/car_tracking/dto/CarTrackingResponse.java:60-74 | id is always null, vehicle name is the plate number, status is always "운행중", the eight telemetry fields are copied |
| `Response.FromTrackingDataIgnoresAltitudeAndTrip` | src/main/java/com/kt_giga_fms/car_tracking/dto/CarTrackingResponse.java:60-74 | altitude and trip id are dropped: changing them does not change the result |
| `Response.FromOptional` | src/main/java/com/kt_giga_fms/car_tracking/service/CarTrackingService.java:51-52 | `Optional.map(from)`: present exactly when the input is, and then its conversion |
| `Response.FromAll` | src/main/java/com/kt_giga_fms/car_tracking/service/CarTrackingService.java:62-63 | `stream().map(from)`: same length, each element converted in place |
| `Request.ToCarTracking` | src/main/java/com/kt_giga_fms/car_tracking/dto/CarTrackingRequest.java:68-82 | no durable id; timestamp is the request's when present and `now` otherwise, so never null; the nine other fields are copied |
| `Request.ToCarTrackingIgnoresClockWhenStamped` | src/main/java/com/kt_giga_fms/car_tracking/dto/CarTrackingRequest.java:69 | a request that carries a timestamp converts the same at any clock reading |
| `Request.ToCarTrackingStable` | src/main/java/com/kt_giga_fms/car_tracking/dto/CarTrackingRequest.java:69 | re-converting with the chosen timestamp reproduces the same row: defaulting happens once |
| `Queries.Matches` | src/main/java/com/kt_giga_fms/car_tracking/service/CarTrackingService.java:89-91 | the three filter predicates: timestamp present and inside the inclusive window (also the repository's filter at CarTrackingRedisRepository.java:72), both coordinates present and inside the inclusive box, status equal to the requested one (line 102) |
| `Queries.Select` | src/main/java/com/kt_giga_fms/car_tracking/repository/CarTrackingRedisRepository.java:71-73 | the filter keeps a sample exactly when it is in the input and matches, and never grows the list |
| `Queries.SelectAppend` | src/main/java/com/kt_giga_fms/car_tracking/service/CarTrackingService.java:87-95 | filtering a concatenation is the concatenation of the filtered parts, so relative order is kept |
| `Queries.SelectIsSubsequence` | src/main/java/com/kt_giga_fms/car_tracking/service/CarTrackingService.java:101-103 | the filtered list is a subsequence of its input |
| `Queries.BoundsAreInclusive` | src/main/java/com/kt_giga_fms/car_tracking/service/CarTrackingService.java:90-91 | a timestamp equal to either window end, or a point on any edge of the box, passes; a timestamp before the start or after the end, a latitude or longitude past any edge, or a missing coordinate is dropped |
| `RedisList.Range` | src/main/java/com/kt_giga_fms/car_tracking/repository/CarTrackingRedisRepository.java:63-66 | with start 0, a stop of k >= 0 gives the first k+1 entries (or all of a shorter list) and a stop of -1 gives the whole list |
| `RedisRepository.Pushed` | src/main/java/com/kt_giga_fms/car_tracking/repository/CarTrackingRedisRepository.java:42-46 | after push-then-trim the length is min(old + 1, 600), the new sample is at index 0 and the rest is the old list's prefix |
| `RedisRepository.AppendAllClosedForm` | src/main/java/com/kt_giga_fms/car_tracking/repository/CarTrackingRedisRepository.java:42-46 | any run of appends leaves the newest 600 of: the appended samples newest first, then the old list |
| `RedisRepository.HistoryAfter601Appends` | src/main/java/com/kt_giga_fms/car_tracking/repository/CarTrackingRedisRepository.java:42-46 | after 601 appends T1..T601 to an empty list: length 600, head T601, last T2 (T1 evicted) |
| `RedisRepository.LastWriteWins` | src/main/java/com/kt_giga_fms/car_tracking/repository/CarTrackingRedisRepository.java:36-40 | after a run of latest-writes, a vehicle's slot holds the last sample written for it |
| `RedisRepository.OtherWritesKeepLatest` | src/main/java/com/kt_giga_fms/car_tracking/repository/CarTrackingRedisRepository.java:36-40 | latest-writes for other vehicles leave a vehicle's slot (or its absence) as it was |
| `RedisRepository.CarTrackingRedisRepository.SaveLatest` | src/main/java/com/kt_giga_fms/car_tracking/repository/CarTrackingRedisRepository.java:36-40 | the vehicle's slot becomes the sample, its id joins the registry (a no-op if already there), history is untouched; the invariant is kept |
| `RedisRepository.CarTrackingRedisRepository.AppendHistory` | src/main/java/com/kt_giga_fms/car_tracking/repository/CarTrackingRedisRepository.java:42-46 | only that vehicle's list changes, to the pushed-and-trimmed list; latest and registry untouched; length stays <= 600 |
| `RedisRepository.CarTrackingRedisRepository.FindLatest` | src/main/java/com/kt_giga_fms/car_tracking/repository/CarTrackingRedisRepository.java:48-50 | present exactly when a latest sample was saved for the id, and then it is that sample, whose vehicle id is the key |
| `RedisRepository.CarTrackingRedisRepository.FindAllLatest` | src/main/java/com/kt_giga_fms/car_tracking/repository/CarTrackingRedisRepository.java:52-61 | exactly the registered vehicles' latest samples, one per vehicle, at most one per id, in no fixed order; empty exactly when the registry is |
| `RedisRepository.AllLatestMembership` | src/main/java/com/kt_giga_fms/car_tracking/repository/CarTrackingRedisRepository.java:52-61 | under the registry invariant a sample is in an all-latest answer exactly when it is its vehicle's latest sample |
| `RedisRepository.AllLatestEmptyIff` | src/main/java/com/kt_giga_fms/car_tracking/repository/CarTrackingRedisRepository.java:52-61 | under the registry invariant any all-latest answer is empty exactly when the registry is |
| `RedisRepository.CarTrackingRedisRepository.FindHistory` | src/main/java/com/kt_giga_fms/car_tracking/repository/CarTrackingRedisRepository.java:63-66 | for limit >= 1 the newest min(limit, length) entries in order; for limit 0 the whole list; for a negative limit all but the oldest -limit entries; for `Integer.MIN_VALUE`, where the 32-bit `limit - 1` wraps to 2147483647, the whole list; empty when there is no list |
| `RedisRepository.CarTrackingRedisRepository.FindHistoryInRange` | src/main/java/com/kt_giga_fms/car_tracking/repository/CarTrackingRedisRepository.java:68-74 | the in-window entries with a timestamp among the first 600, order kept; a sample is returned exactly when it is in the history and start <= ts <= end |
| `RedisRepository.CarTrackingRedisRepository.FindAllVehicleIds` | src/main/java/com/kt_giga_fms/car_tracking/repository/CarTrackingRedisRepository.java:76-80 | each registered id exactly once, and nothing else |
| `RedisRepository.CarTrackingRedisRepository.SaveTrackingData` | src/main/java/com/kt_giga_fms/car_tracking/repository/CarTrackingRedisRepository.java:113-118 | the converted DTG sample becomes the vehicle's latest and the head of its history; the registry gains the id |
| `TrackingService.TopicsAreDistinct` | src/main/java/com/kt_giga_fms/car_tracking/service/RealtimeTrackingService.java:14-20 | the per-vehicle topic `/topic/vehicle/{id}` never equals the broadcast topic `/topic/vehicles/all`, and two vehicles share a topic only when their ids are equal |
| `TrackingService.InRangeAcrossMembership` | src/main/java/com/kt_giga_fms/car_tracking/service/CarTrackingService.java:77-81 | a sample is in the per-vehicle concatenation exactly when it is an in-window entry of a listed vehicle's history |
| `TrackingService.InRangeAcrossRegistry` | src/main/java/com/kt_giga_fms/car_tracking/service/CarTrackingService.java:77-81 | over any listing of the registry, the concatenation holds exactly the registered vehicles' in-window history entries |
| `TrackingService.CarTrackingService.ReceiveVehicleLocation` | src/main/java/com/kt_giga_fms/car_tracking/service/CarTrackingService.java:34-44 | returns the converted request, sets it as latest, pushes it onto history, publishes it once to the vehicle topic then once to the all-vehicles topic |
| `TrackingService.CarTrackingService.GetLatestVehicleLocation` | src/main/java/com/kt_giga_fms/car_tracking/service/CarTrackingService.java:48-53 | on a cache hit the cached sample and no durable call; on a miss the durable store's newest row, possibly none; the cache is never written |
| `TrackingService.CarTrackingService.GetAllCurrentVehicleLocations` | src/main/java/com/kt_giga_fms/car_tracking/service/CarTrackingService.java:57-64 | a non-empty cache answer verbatim; only when the cache is empty the durable store's vehicles active since now minus five minutes |
| `TrackingService.CarTrackingService.GetVehicleLocationHistory` | src/main/java/com/kt_giga_fms/car_tracking/service/CarTrackingService.java:68-73 | the cached history when non-empty, otherwise the durable store's rows for the vehicle |
| `TrackingService.CarTrackingService.GetVehicleLocationsInTimeRange` | src/main/java/com/kt_giga_fms/car_tracking/service/CarTrackingService.java:77-81 | the concatenation over the registry of each vehicle's in-window history; a sample is returned exactly when it is an in-window history entry of a registered vehicle; the durable store is not read |
| `TrackingService.CarTrackingService.GetVehiclesInArea` | src/main/java/com/kt_giga_fms/car_tracking/service/CarTrackingService.java:85-96 | the current locations with both coordinates present and inside the inclusive box, in their order; with a non-empty cache, exactly the latest samples inside the box; with an empty one, the filtered durable answer |
| `TrackingService.CarTrackingService.GetVehiclesByStatus` | src/main/java/com/kt_giga_fms/car_tracking/service/CarTrackingService.java:100-104 | the current locations whose status equals the given one, and only those, as a subsequence; with a non-empty cache, exactly the latest samples with that status |
| `TrackingService.CarTrackingService.SaveTrackingData` | src/main/java/com/kt_giga_fms/car_tracking/service/CarTrackingService.java:121-128 | the DTG sample is cached as latest and history, and published to the vehicle topic only |
| `TrackingService.CarTrackingService.UpdateVehicleStatus` | src/main/java/com/kt_giga_fms/car_tracking/service/CarTrackingService.java:131-156 | with no latest sample: NotFound "Vehicle not found: id" and nothing written or published; otherwise the current sample with the new status and timestamp `now`, cached and published like an ingested one |

## Left out

- HTTP controllers, the exception handler, the response envelope, Redis and Swagger configuration: routing and wiring only; NotFound is the error result of `UpdateVehicleStatus`.
- Trip start/end storage (`saveTripStartInfo`, `saveTripEndInfo` in both the service and the repository): opaque JSON serialisation with swallowed exceptions.
- The WebSocket transport and logging: publishing is an append to a ghost message log; transport failures, which the publisher swallows, are not modelled.
- The durable store's SQL (`GROUP BY`/`HAVING`, ordering): its query answers are given as functions, with no promise about their contents.
- Concurrency, races between push and trim, Redis key expiry and Redis failures: every operation runs sequentially and succeeds.
- Floating point: coordinates and gauges are exact reals, so NaN and rounding are not modelled.
- A null vehicle id (it would become the key suffix "null") and null query bounds (a NullPointerException in Java): the vehicle id and the bounds are non-null in the model.
- Java `Long` ids are unbounded integers; ids are only copied, never computed with.
- Redis serialisation: a cached sample reads back equal to the one written.

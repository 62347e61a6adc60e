/**
 * `CarTrackingRedisRepository`: the cache tier. Per vehicle it keeps the latest sample
 * (`vehicle:latest:{id}`) and a newest-first history list capped at `MaxHistorySize`
 * (`vehicle:history:{id}`); a registry set (`vehicles:ids`) records every vehicle whose
 * latest sample was ever written. Each Redis key family is a field of the class.
 */
module RedisRepository {
  import opened Wrappers
  import opened Seqs
  import opened Domain
  import opened Response
  import opened Queries
  import opened RedisList

  /** About ten minutes of samples at one per second. */
  const MaxHistorySize: int := 600

  const Int32Min: int := -0x8000_0000
  const Int32Max: int := 0x7fff_ffff

  /** Java's `int`. */
  newtype int32 = x: int | Int32Min <= x <= Int32Max

  /** Java's `int` subtraction, which wraps around modulo 2^32. */
  function Int32Sub(a: int32, b: int32): (r: int32)
    ensures Int32Min <= a as int - b as int <= Int32Max ==> r as int == a as int - b as int
    ensures r as int % 0x1_0000_0000 == (a as int - b as int) % 0x1_0000_0000
  {
    var d := a as int - b as int;
    if d < Int32Min then (d + 0x1_0000_0000) as int32
    else if d > Int32Max then (d - 0x1_0000_0000) as int32
    else d as int32
  }

  /** `LPUSH` followed by `LTRIM 0 599`: the new sample heads the list and the oldest overflow is cut. */
  function Pushed(h: seq<CarTrackingResponse>, r: CarTrackingResponse): (h': seq<CarTrackingResponse>)
    ensures |h'| == Min(|h| + 1, MaxHistorySize)
    ensures h'[0] == r
    ensures h'[1..] == h[..|h'| - 1]
  {
    var pushed := [r] + h;
    assert pushed[1..] == h;
    Range(pushed, 0, MaxHistorySize - 1)
  }

  /** The history after appending the samples of `xs`, in order, to a list that held `h`. */
  ghost function AppendAll(h: seq<CarTrackingResponse>, xs: seq<CarTrackingResponse>): seq<CarTrackingResponse>
  {
    if xs == [] then h else Pushed(AppendAll(h, xs[..|xs| - 1]), xs[|xs| - 1])
  }

  /** Any run of appends leaves the newest 600 of (appended samples newest-first, then the old list). */
  lemma {:induction false} AppendAllClosedForm(h: seq<CarTrackingResponse>, xs: seq<CarTrackingResponse>)
    requires |h| <= MaxHistorySize
    ensures AppendAll(h, xs) == (Reverse(xs) + h)[..Min(|xs| + |h|, MaxHistorySize)]
  {
    if xs != [] {
      var init, x := xs[..|xs| - 1], xs[|xs| - 1];
      AppendAllClosedForm(h, init);
      var p := AppendAll(h, init);
      var full := Reverse(init) + h;
      assert p == full[..Min(|init| + |h|, MaxHistorySize)];
      assert Reverse(xs) == [x] + Reverse(init);
      assert Reverse(xs) + h == [x] + full;
      var q := Pushed(p, x);
      var m := Min(|xs| + |h|, MaxHistorySize);
      assert |q| == m;
      forall i | 0 <= i < m
        ensures q[i] == ([x] + full)[i]
      {
        if i > 0 {
          assert q[i] == q[1..][i - 1];
        }
      }
    }
  }

  /** The 601-sample scenario: the first sample is evicted, the last one is at the head. */
  lemma HistoryAfter601Appends(xs: seq<CarTrackingResponse>)
    requires |xs| == 601
    ensures |AppendAll([], xs)| == 600
    ensures AppendAll([], xs)[0] == xs[600]
    ensures AppendAll([], xs)[599] == xs[1]
  {
    AppendAllClosedForm([], xs);
    assert Reverse(xs) + [] == Reverse(xs);
  }

  /** The latest-sample map after writing the samples of `rs`, in order. */
  ghost function SavedLatest(m: map<string, CarTrackingResponse>, rs: seq<CarTrackingResponse>): map<string, CarTrackingResponse>
  {
    if rs == [] then m
    else SavedLatest(m, rs[..|rs| - 1])[rs[|rs| - 1].vehicleId := rs[|rs| - 1]]
  }

  /** Last write wins: the latest slot of a vehicle holds its most recently written sample. */
  lemma {:induction false} LastWriteWins(m: map<string, CarTrackingResponse>, rs: seq<CarTrackingResponse>, k: int)
    requires 0 <= k < |rs|
    requires forall j :: k < j < |rs| ==> rs[j].vehicleId != rs[k].vehicleId
    ensures rs[k].vehicleId in SavedLatest(m, rs)
    ensures SavedLatest(m, rs)[rs[k].vehicleId] == rs[k]
  {
    if k < |rs| - 1 {
      var init := rs[..|rs| - 1];
      LastWriteWins(m, init, k);
    }
  }

  /** Writes for other vehicles leave a vehicle's latest slot as it was. */
  lemma {:induction false} OtherWritesKeepLatest(m: map<string, CarTrackingResponse>, rs: seq<CarTrackingResponse>, id: string)
    requires forall j :: 0 <= j < |rs| ==> rs[j].vehicleId != id
    ensures id in SavedLatest(m, rs) <==> id in m
    ensures id in m ==> SavedLatest(m, rs)[id] == m[id]
  {
    if rs != [] {
      OtherWritesKeepLatest(m, rs[..|rs| - 1], id);
    }
  }

  class CarTrackingRedisRepository {
    /** `vehicle:latest:{id}` */
    var latest: map<string, CarTrackingResponse>
    /** `vehicle:history:{id}`, newest first; Redis drops a key whose list is empty */
    var history: map<string, seq<CarTrackingResponse>>
    /** `vehicles:ids` */
    var ids: set<string>

    /**
     * The registry is exactly the set of vehicles with a latest sample, every slot is keyed
     * by its sample's vehicle id, and every history list is non-empty and within the cap.
     */
    ghost predicate Valid()
      reads this
    {
      && ids == latest.Keys
      && (forall id :: id in latest ==> latest[id].vehicleId == id)
      && (forall id :: id in history ==> 0 < |history[id]| <= MaxHistorySize)
      && (forall id, i :: id in history && 0 <= i < |history[id]| ==> history[id][i].vehicleId == id)
    }

    constructor()
      ensures Valid()
      ensures latest == map[] && history == map[] && ids == {}
    {
      latest, history, ids := map[], map[], {};
    }

    /** The history list of `id`; a missing key reads as the empty list. */
    function Hist(id: string): seq<CarTrackingResponse>
      reads this
    {
      if id in history then history[id] else []
    }

    /** `saveLatest`: overwrite the latest slot and register the vehicle; nothing else changes. */
    method SaveLatest(r: CarTrackingResponse)
      requires Valid()
      modifies this
      ensures Valid()
      ensures latest == old(latest)[r.vehicleId := r]
      ensures ids == old(ids) + {r.vehicleId}
      ensures history == old(history)
    {
      var vehicleId := r.vehicleId;
      latest := latest[vehicleId := r];
      ids := ids + {vehicleId};
    }

    /** `appendHistory`: push to the head, then trim to the first `MaxHistorySize` entries. */
    method AppendHistory(r: CarTrackingResponse)
      requires Valid()
      modifies this
      ensures Valid()
      ensures history == old(history)[r.vehicleId := Pushed(old(Hist(r.vehicleId)), r)]
      ensures latest == old(latest) && ids == old(ids)
    {
      var key := r.vehicleId;
      ghost var before := Hist(key);
      var pushed := [r] + Hist(key);
      history := history[key := pushed];
      history := history[key := Range(history[key], 0, MaxHistorySize - 1)];
      assert history[key] == Pushed(before, r);
      forall i | 0 <= i < |history[key]|
        ensures history[key][i].vehicleId == key
      {
        if i > 0 {
          assert history[key][i] == history[key][1..][i - 1];
        }
      }
    }

    /** `findLatest`: the latest slot of `id`, or null when it was never written. */
    method FindLatest(id: string) returns (r: Option<CarTrackingResponse>)
      ensures r.Some? <==> id in latest
      ensures r.Some? ==> r.value == latest[id]
      ensures Valid() && r.Some? ==> r.value.vehicleId == id
    {
      if id in latest {
        r := Some(latest[id]);
      } else {
        r := None;
      }
    }

    /** What `findAllLatest` may return: one sample per registered vehicle that has one, in any order. */
    ghost predicate IsAllLatest(r: seq<CarTrackingResponse>)
      reads this
    {
      && |r| <= |ids|
      && (forall i :: 0 <= i < |r| ==> r[i].vehicleId in ids && r[i].vehicleId in latest && latest[r[i].vehicleId] == r[i])
      && (forall id :: id in ids && id in latest ==> latest[id] in r)
      && (forall i, j :: 0 <= i < j < |r| ==> r[i].vehicleId != r[j].vehicleId)
    }

    /** `findAllLatest`: walk the registry, keep each vehicle's latest sample when it exists. */
    method FindAllLatest() returns (r: seq<CarTrackingResponse>)
      requires Valid()
      ensures IsAllLatest(r)
      ensures r == [] <==> ids == {}
    {
      var vehicleIds := ids;
      if vehicleIds == {} {
        return [];
      }
      r := [];
      var rest := vehicleIds;
      while rest != {}
        invariant rest <= ids
        invariant |r| + |rest| <= |ids|
        invariant forall i :: 0 <= i < |r| ==> r[i].vehicleId in ids - rest && r[i].vehicleId in latest && latest[r[i].vehicleId] == r[i]
        invariant forall id :: id in ids - rest && id in latest ==> latest[id] in r
        invariant forall i, j :: 0 <= i < j < |r| ==> r[i].vehicleId != r[j].vehicleId
        decreases rest
      {
        var vehicleId :| vehicleId in rest;
        var found := FindLatest(vehicleId);
        if found.Some? {
          r := r + [found.value];
        }
        rest := rest - {vehicleId};
      }
      var someId :| someId in ids;
      assert latest[someId] in r;
    }

    /**
     * `findHistory`: `LRANGE 0 (limit - 1)`. A positive limit gives the newest `limit` entries;
     * a limit of 0 asks for stop index -1, which Redis reads as the end of the list.
     */
    method FindHistory(id: string, limit: int32) returns (r: seq<CarTrackingResponse>)
      ensures limit >= 1 ==> r == Hist(id)[..Min(limit as int, |Hist(id)|)]
      ensures limit == 0 ==> r == Hist(id)
      ensures Int32Min < limit as int < 0 ==>
                r == Hist(id)[..if |Hist(id)| + limit as int >= 0 then |Hist(id)| + limit as int else 0]
      ensures limit as int == Int32Min ==> r == Hist(id)[..Min(Int32Max + 1, |Hist(id)|)]
      ensures Valid() && limit as int == Int32Min ==> r == Hist(id)
      ensures |r| <= |Hist(id)|
    {
      r := Range(Hist(id), 0, Int32Sub(limit, 1) as int);
    }

    /**
     * `findHistoryInRange`: the first `MaxHistorySize` history entries whose timestamp is
     * present and lies in the inclusive window, newest first.
     */
    method FindHistoryInRange(id: string, start: int, end: int) returns (r: seq<CarTrackingResponse>)
      ensures r == Select(Hist(id)[..Min(MaxHistorySize, |Hist(id)|)], TimeWindow(start, end))
      ensures Valid() ==> r == Select(Hist(id), TimeWindow(start, end))
      ensures Valid() ==> forall x :: x in r <==> x in Hist(id) && x.timestamp.Some? && start <= x.timestamp.value <= end
    {
      var list := Range(Hist(id), 0, MaxHistorySize - 1);
      r := Select(list, TimeWindow(start, end));
      assert Valid() ==> list == Hist(id);
    }

    /** `findAllVehicleIds`: the registry as a list, each id once, in no particular order. */
    method FindAllVehicleIds() returns (r: seq<string>)
      ensures |r| == |ids|
      ensures forall id :: id in r <==> id in ids
      ensures Distinct(r)
    {
      r := [];
      var rest := ids;
      while rest != {}
        invariant rest <= ids
        invariant |r| + |rest| == |ids|
        invariant forall id :: id in r <==> id in ids && id !in rest
        invariant Distinct(r)
        decreases rest
      {
        var vehicleId :| vehicleId in rest;
        r := r + [vehicleId];
        rest := rest - {vehicleId};
      }
    }

    /** `saveTrackingData`: convert the DTG sample, then write it as latest and push it to history. */
    method SaveTrackingData(d: TrackingData)
      requires Valid()
      modifies this
      ensures Valid()
      ensures latest == old(latest)[d.vehicleId := FromTrackingData(d)]
      ensures ids == old(ids) + {d.vehicleId}
      ensures history == old(history)[d.vehicleId := Pushed(old(Hist(d.vehicleId)), FromTrackingData(d))]
    {
      var response := FromTrackingData(d);
      SaveLatest(response);
      AppendHistory(response);
    }
  }

  /** With the registry invariant, a sample is in an all-latest answer exactly when it is the latest of its vehicle. */
  lemma AllLatestMembership(repo: CarTrackingRedisRepository, r: seq<CarTrackingResponse>)
    requires repo.Valid() && repo.IsAllLatest(r)
    ensures forall x :: x in r <==> x.vehicleId in repo.latest && repo.latest[x.vehicleId] == x
  {
    forall x | x in r
      ensures x.vehicleId in repo.latest && repo.latest[x.vehicleId] == x
    {
      var i :| 0 <= i < |r| && r[i] == x;
    }
  }

  /** With the registry invariant, `findAllLatest` is empty exactly when the registry is. */
  lemma AllLatestEmptyIff(repo: CarTrackingRedisRepository, r: seq<CarTrackingResponse>)
    requires repo.Valid() && repo.IsAllLatest(r)
    ensures r == [] <==> repo.ids == {}
  {
    if repo.ids != {} {
      var id :| id in repo.ids;
      assert repo.latest[id] in r;
    }
  }
}

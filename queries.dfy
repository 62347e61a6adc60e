/**
 * The three filters the core applies to lists of samples: the inclusive time window of the
 * history-range query, the inclusive bounding box of the area query and the exact status match.
 */
module Queries {
  import opened Wrappers
  import opened Seqs
  import opened Response

  datatype Criterion =
    | TimeWindow(start: int, end: int)
    | Area(minLat: real, maxLat: real, minLng: real, maxLng: real)
    | StatusIs(status: string)

  predicate Matches(c: Criterion, x: CarTrackingResponse)
  {
    match c
    case TimeWindow(start, end) =>
      x.timestamp.Some? && start <= x.timestamp.value <= end
    case Area(minLat, maxLat, minLng, maxLng) =>
      x.latitude.Some? && x.longitude.Some? &&
      minLat <= x.latitude.value <= maxLat && minLng <= x.longitude.value <= maxLng
    case StatusIs(status) =>
      x.status == Some(status)
  }

  /** `stream().filter(...)`: keeps exactly the matching samples. */
  function Select(xs: seq<CarTrackingResponse>, c: Criterion): (r: seq<CarTrackingResponse>)
    ensures |r| <= |xs|
    ensures forall x :: x in r <==> x in xs && Matches(c, x)
  {
    if xs == [] then []
    else (if Matches(c, xs[0]) then [xs[0]] else []) + Select(xs[1..], c)
  }

  /** Filtering distributes over concatenation: relative order is kept. */
  lemma {:induction false} SelectAppend(xs: seq<CarTrackingResponse>, ys: seq<CarTrackingResponse>, c: Criterion)
    ensures Select(xs + ys, c) == Select(xs, c) + Select(ys, c)
  {
    if xs == [] {
      assert xs + ys == ys;
    } else {
      assert (xs + ys)[1..] == xs[1..] + ys;
      SelectAppend(xs[1..], ys, c);
    }
  }

  /** Extending the input by one sample extends the output by that sample exactly when it matches. */
  lemma SelectSnoc(xs: seq<CarTrackingResponse>, x: CarTrackingResponse, c: Criterion)
    ensures Select(xs + [x], c) == Select(xs, c) + (if Matches(c, x) then [x] else [])
  {
    SelectAppend(xs, [x], c);
    assert [x][1..] == [];
  }

  /** The filtered list is a subsequence of its input. */
  lemma {:induction false} SelectIsSubsequence(xs: seq<CarTrackingResponse>, c: Criterion)
    ensures Subsequence(Select(xs, c), xs)
  {
    if xs != [] {
      SelectIsSubsequence(xs[1..], c);
      var rest := Select(xs[1..], c);
      if Matches(c, xs[0]) {
        assert Select(xs, c) == [xs[0]] + rest;
        assert ([xs[0]] + rest)[1..] == rest;
      } else {
        assert Select(xs, c) == rest;
        if rest != [] {
          assert Subsequence(rest, xs[1..]);
        }
      }
    }
  }

  /**
   * Both bounds of the window and of the box are inclusive: a sample on an edge passes, and a
   * sample past any edge, however slightly, is dropped.
   */
  lemma BoundsAreInclusive(x: CarTrackingResponse, start: int, end: int,
                           minLat: real, maxLat: real, minLng: real, maxLng: real)
    ensures x.timestamp == Some(start) && start <= end ==> Matches(TimeWindow(start, end), x)
    ensures x.timestamp == Some(end) && start <= end ==> Matches(TimeWindow(start, end), x)
    ensures x.timestamp.Some? && (x.timestamp.value < start || end < x.timestamp.value) ==>
              !Matches(TimeWindow(start, end), x)
    ensures x.latitude.Some? && x.longitude.Some? &&
            (x.latitude.value == minLat || x.latitude.value == maxLat) &&
            minLng <= x.longitude.value <= maxLng && minLat <= maxLat ==>
              Matches(Area(minLat, maxLat, minLng, maxLng), x)
    ensures x.latitude.Some? && x.longitude.Some? &&
            (x.longitude.value == minLng || x.longitude.value == maxLng) &&
            minLat <= x.latitude.value <= maxLat && minLng <= maxLng ==>
              Matches(Area(minLat, maxLat, minLng, maxLng), x)
    ensures x.latitude.Some? && (x.latitude.value < minLat || maxLat < x.latitude.value) ==>
              !Matches(Area(minLat, maxLat, minLng, maxLng), x)
    ensures x.longitude.Some? && (x.longitude.value < minLng || maxLng < x.longitude.value) ==>
              !Matches(Area(minLat, maxLat, minLng, maxLng), x)
    ensures x.latitude.None? || x.longitude.None? ==> !Matches(Area(minLat, maxLat, minLng, maxLng), x)
  {
  }
}

/**
 * Per-track metrics: total distance, cumulative distances, elevation gain
 * and loss with a noise filter, and speed statistics with outlier
 * rejection (src/track_analytics/metrics.py).
 *
 * Every loop of the source is a method here, proved equal to a recursive
 * specification function; the properties are proved about those functions.
 */
module Metrics {
  import opened Wrappers
  import opened GpxParser
  import opened Geo

  /** Elevation samples closer than this to the reference (m) are noise. */
  const ElevationNoiseM: real := 2.0
  /** Segments faster than this (km/h) are GPS glitches. */
  const MaxPlausibleSpeedKmh: real := 200.0
  /** Segments slower than this (km/h) count as stopped. */
  const MinMovingSpeedKmh: real := 1.0

  datatype ElevationMetrics = ElevationMetrics(
    minElevation: real,
    maxElevation: real,
    totalAscent: real,
    totalDescent: real)
  {
    function ElevationRange(): real {
      maxElevation - minElevation
    }
  }

  /** Durations are whole seconds. */
  datatype SpeedMetrics = SpeedMetrics(
    duration: int,
    avgSpeedKmh: real,
    maxSpeedKmh: real,
    movingTime: int,
    avgMovingSpeedKmh: real)

  datatype TrackMetrics = TrackMetrics(
    trackName: string,
    totalDistanceKm: real,
    pointCount: nat,
    elevation: Option<ElevationMetrics>,
    speed: Option<SpeedMetrics>)

  // ---------------------------------------------------------------------
  // Distance
  // ---------------------------------------------------------------------

  /** The sum of the distances between consecutive points. */
  function PathLength(d: GreatCircle, points: seq<TrackPoint>): (r: real)
    ensures r >= 0.0
  {
    if |points| < 2 then 0.0
    else PathLength(d, points[..|points| - 1]) + DistanceKm(d, points[|points| - 2], points[|points| - 1])
  }

  /** Splitting a track at an interior point and adding both halves gives the whole. */
  lemma {:induction false} PathLengthSplit(d: GreatCircle, points: seq<TrackPoint>, k: nat)
    requires k < |points|
    ensures PathLength(d, points[..k + 1]) + PathLength(d, points[k..]) == PathLength(d, points)
  {
    var n := |points|;
    if k == n - 1 {
      assert points[..k + 1] == points;
    } else {
      var front := points[..n - 1];
      PathLengthSplit(d, front, k);
      assert front[..k + 1] == points[..k + 1];
      var tail := points[k..];
      assert tail[..|tail| - 1] == front[k..];
      assert tail[|tail| - 2] == points[n - 2] && tail[|tail| - 1] == points[n - 1];
    }
  }

  /** `calculate_total_distance`. */
  method CalculateTotalDistance(d: GreatCircle, track: Track) returns (total: real)
    ensures total == PathLength(d, track.points)
  {
    if |track.points| < 2 {
      return 0.0;
    }
    total := 0.0;
    var i := 1;
    while i < |track.points|
      invariant 1 <= i <= |track.points|
      invariant total == PathLength(d, track.points[..i])
    {
      assert track.points[..i + 1][..i] == track.points[..i];
      total := total + DistanceKm(d, track.points[i - 1], track.points[i]);
      i := i + 1;
    }
    assert track.points[..i] == track.points;
  }

  /** `cumulative_distances`: the distance travelled up to each point. */
  method CumulativeDistances(d: GreatCircle, track: Track) returns (distances: seq<real>)
    ensures |distances| == if |track.points| == 0 then 1 else |track.points|
    ensures distances[0] == 0.0
    ensures forall i :: 0 <= i < |track.points| ==> distances[i] == PathLength(d, track.points[..i + 1])
    ensures forall i, j :: 0 <= i <= j < |distances| ==> distances[i] <= distances[j]
    ensures distances[|distances| - 1] == PathLength(d, track.points)
  {
    var points := track.points;
    distances := [0.0];
    var i := 1;
    while i < |points|
      invariant 1 <= i <= if |points| == 0 then 1 else |points|
      invariant |distances| == i && distances[0] == 0.0
      invariant forall k :: 0 <= k < i && k < |points| ==> distances[k] == PathLength(d, points[..k + 1])
      invariant forall k, l :: 0 <= k <= l < i ==> distances[k] <= distances[l]
    {
      assert points[..i + 1][..i] == points[..i];
      var dist := DistanceKm(d, points[i - 1], points[i]);
      distances := distances + [distances[i - 1] + dist];
      i := i + 1;
    }
    if |points| > 0 {
      assert points[..|points|] == points;
    }
  }

  // ---------------------------------------------------------------------
  // Elevation
  // ---------------------------------------------------------------------

  /** The elevations the points carry, in order; points without one are skipped. */
  function Elevations(points: seq<TrackPoint>): (es: seq<real>)
    ensures es == [] <==> !HasElevation(points)
  {
    if points == [] then []
    else
      var last := points[|points| - 1];
      Elevations(points[..|points| - 1]) + if last.elevation.Some? then [last.elevation.value] else []
  }

  /** The positions of the points that carry an elevation, in increasing order. */
  function ElevationIndices(points: seq<TrackPoint>): seq<nat> {
    if points == [] then []
    else
      var n := |points|;
      ElevationIndices(points[..n - 1]) + if points[n - 1].elevation.Some? then [n - 1] else []
  }

  /**
   * Sample `k` is the elevation of point `ElevationIndices(points)[k]`, and
   * these positions increase and take in every point that carries an
   * elevation: the samples are the elevations in the order of the points.
   */
  lemma ElevationsInOrder(points: seq<TrackPoint>)
    ensures |ElevationIndices(points)| == |Elevations(points)|
    ensures forall k :: 0 <= k < |ElevationIndices(points)| ==>
      ElevationIndices(points)[k] < |points|
      && points[ElevationIndices(points)[k]].elevation == Some(Elevations(points)[k])
    ensures forall k, l :: 0 <= k < l < |ElevationIndices(points)| ==>
      ElevationIndices(points)[k] < ElevationIndices(points)[l]
    ensures forall i :: 0 <= i < |points| && points[i].elevation.Some? ==> i in ElevationIndices(points)
  {
    ElevationIndicesSamples(points);
    ElevationIndicesPositions(points);
  }

  lemma {:induction false} ElevationIndicesSamples(points: seq<TrackPoint>)
    ensures |ElevationIndices(points)| == |Elevations(points)|
    ensures forall k :: 0 <= k < |ElevationIndices(points)| ==>
      ElevationIndices(points)[k] < |points|
      && points[ElevationIndices(points)[k]].elevation == Some(Elevations(points)[k])
  {
    if points != [] {
      var n := |points|;
      var front := points[..n - 1];
      ElevationIndicesSamples(front);
      var ix, ixF := ElevationIndices(points), ElevationIndices(front);
      var es, esF := Elevations(points), Elevations(front);
      assert ix == ixF + if points[n - 1].elevation.Some? then [n - 1] else [];
      assert es == esF + if points[n - 1].elevation.Some? then [points[n - 1].elevation.value] else [];
      forall k | 0 <= k < |ix|
        ensures ix[k] < n && points[ix[k]].elevation == Some(es[k])
      {
        if k < |ixF| {
          assert ix[k] == ixF[k] && es[k] == esF[k];
          assert front[ixF[k]] == points[ixF[k]];
        }
      }
    }
  }

  lemma {:induction false} ElevationIndicesPositions(points: seq<TrackPoint>)
    ensures forall k :: 0 <= k < |ElevationIndices(points)| ==> ElevationIndices(points)[k] < |points|
    ensures forall k, l :: 0 <= k < l < |ElevationIndices(points)| ==>
      ElevationIndices(points)[k] < ElevationIndices(points)[l]
    ensures forall i :: 0 <= i < |points| && points[i].elevation.Some? ==> i in ElevationIndices(points)
  {
    if points != [] {
      var n := |points|;
      var front := points[..n - 1];
      ElevationIndicesPositions(front);
      var ix, ixF := ElevationIndices(points), ElevationIndices(front);
      assert ix == ixF + if points[n - 1].elevation.Some? then [n - 1] else [];
      forall k | 0 <= k < |ix| ensures ix[k] < n {
        if k < |ixF| {
          assert ix[k] == ixF[k];
        }
      }
      forall k, l | 0 <= k < l < |ix| ensures ix[k] < ix[l] {
        if l < |ixF| {
          assert ix[k] == ixF[k] && ix[l] == ixF[l];
        } else {
          assert ix[k] == ixF[k] < n - 1;
        }
      }
      forall i | 0 <= i < n && points[i].elevation.Some? ensures i in ix {
        if i < n - 1 {
          assert front[i] == points[i];
          assert i in ixF;
        }
      }
    }
  }

  /** Every sample is the elevation of some point. */
  lemma {:induction false} ElevationsFromPoints(points: seq<TrackPoint>)
    ensures forall k :: 0 <= k < |Elevations(points)| ==>
      exists i :: 0 <= i < |points| && points[i].elevation == Some(Elevations(points)[k])
  {
    if points != [] {
      var front := points[..|points| - 1];
      var es := Elevations(points);
      var esFront := Elevations(front);
      ElevationsFromPoints(front);
      forall k | 0 <= k < |es|
        ensures exists i :: 0 <= i < |points| && points[i].elevation == Some(es[k])
      {
        if k < |esFront| {
          assert es[k] == esFront[k];
          var i :| 0 <= i < |front| && front[i].elevation == Some(esFront[k]);
          assert points[i] == front[i];
          assert 0 <= i < |points| && points[i].elevation == Some(es[k]);
        } else {
          var j := |points| - 1;
          assert 0 <= j < |points| && points[j].elevation == Some(es[k]);
        }
      }
      assert es == Elevations(points);
    } else {
      assert Elevations(points) == [];
    }
  }

  /** Every elevation that a point carries is among the samples. */
  lemma {:induction false} ElevationsCoverPoints(points: seq<TrackPoint>)
    ensures forall i :: 0 <= i < |points| && points[i].elevation.Some? ==>
      points[i].elevation.value in Elevations(points)
  {
    if points != [] {
      var front := points[..|points| - 1];
      ElevationsCoverPoints(front);
      forall i | 0 <= i < |points| && points[i].elevation.Some?
        ensures points[i].elevation.value in Elevations(points)
      {
        if i < |front| {
          assert points[i] == front[i];
        }
      }
    }
  }

  /** The samples are exactly the elevations that the points carry. */
  lemma ElevationsOfPoints(points: seq<TrackPoint>)
    ensures var es := Elevations(points);
      && (forall k :: 0 <= k < |es| ==> exists i :: 0 <= i < |points| && points[i].elevation == Some(es[k]))
      && (forall i :: 0 <= i < |points| && points[i].elevation.Some? ==> points[i].elevation.value in es)
  {
    ElevationsFromPoints(points);
    ElevationsCoverPoints(points);
  }

  /** The state of the noise-filtered climb counter. */
  datatype ClimbState = ClimbState(reference: real, ascent: real, descent: real)

  /** One sample: counted, and the reference advanced, only if it is at least 2 m away. */
  function ClimbStep(s: ClimbState, elevation: real): ClimbState {
    var diff := elevation - s.reference;
    if Abs(diff) >= ElevationNoiseM then
      if diff > 0.0 then ClimbState(elevation, s.ascent + diff, s.descent)
      else ClimbState(elevation, s.ascent, s.descent + Abs(diff))
    else s
  }

  /**
   * The counter after the samples `rest` that follow the first sample. The
   * totals telescope: ascent minus descent is how far the reference moved.
   */
  function Climb(first: real, rest: seq<real>): (c: ClimbState)
    ensures c.ascent >= 0.0 && c.descent >= 0.0
    ensures c.ascent - c.descent == c.reference - first
    ensures c.reference == first || c.reference in rest
  {
    if rest == [] then ClimbState(first, 0.0, 0.0)
    else ClimbStep(Climb(first, rest[..|rest| - 1]), rest[|rest| - 1])
  }

  /** Samples that all stay within 2 m of the first one count as no climb at all. */
  lemma {:induction false} ClimbIgnoresJitter(first: real, rest: seq<real>)
    requires forall k :: 0 <= k < |rest| ==> Abs(rest[k] - first) < ElevationNoiseM
    ensures Climb(first, rest) == ClimbState(first, 0.0, 0.0)
  {
    if rest != [] {
      ClimbIgnoresJitter(first, rest[..|rest| - 1]);
    }
  }

  /** The worked example 100, 101, 105, 104, 108: an ascent of 8 m and no descent. */
  lemma ClimbExample()
    ensures Climb(100.0, [101.0, 105.0, 104.0, 108.0]) == ClimbState(108.0, 8.0, 0.0)
  {
    var rest := [101.0, 105.0, 104.0, 108.0];
    assert rest[..1] == [101.0] && rest[..2] == [101.0, 105.0] && rest[..3] == [101.0, 105.0, 104.0];
    assert [101.0][..0] == [];
    assert Climb(100.0, [101.0]) == ClimbState(100.0, 0.0, 0.0);
    assert Climb(100.0, [101.0, 105.0]) == ClimbState(105.0, 5.0, 0.0);
    assert Climb(100.0, [101.0, 105.0, 104.0]) == ClimbState(105.0, 5.0, 0.0);
  }

  /** The lowest of a non-empty list of samples (`min`). */
  function SeqMin(s: seq<real>): (r: real)
    requires s != []
    ensures r in s && forall x :: x in s ==> r <= x
  {
    if |s| == 1 then s[0]
    else
      var m := SeqMin(s[..|s| - 1]);
      assert forall x :: x in s ==> x in s[..|s| - 1] || x == s[|s| - 1];
      if s[|s| - 1] < m then s[|s| - 1] else m
  }

  /** The highest of a non-empty list of samples (`max`). */
  function SeqMax(s: seq<real>): (r: real)
    requires s != []
    ensures r in s && forall x :: x in s ==> x <= r
  {
    if |s| == 1 then s[0]
    else
      var m := SeqMax(s[..|s| - 1]);
      assert forall x :: x in s ==> x in s[..|s| - 1] || x == s[|s| - 1];
      if s[|s| - 1] > m then s[|s| - 1] else m
  }

  /**
   * What `calculate_elevation_metrics` returns: nothing without elevation
   * data; otherwise the extreme samples and the filtered climb totals.
   */
  function ElevationSummary(points: seq<TrackPoint>): (r: Option<ElevationMetrics>)
    ensures r.None? <==> !HasElevation(points)
  {
    if !HasElevation(points) then None
    else
      var es := Elevations(points);
      var c := Climb(es[0], es[1..]);
      Some(ElevationMetrics(SeqMin(es), SeqMax(es), c.ascent, c.descent))
  }

  /**
   * A computed summary has non-negative totals, and its minimum and maximum
   * are elevations of some points, between which every elevation lies.
   */
  lemma ElevationSummaryBounds(points: seq<TrackPoint>)
    requires HasElevation(points)
    ensures var e := ElevationSummary(points).value;
      && e.minElevation <= e.maxElevation
      && e.totalAscent >= 0.0 && e.totalDescent >= 0.0
      && (forall i :: 0 <= i < |points| && points[i].elevation.Some? ==>
            e.minElevation <= points[i].elevation.value <= e.maxElevation)
      && (exists i :: 0 <= i < |points| && points[i].elevation == Some(e.minElevation))
      && (exists i :: 0 <= i < |points| && points[i].elevation == Some(e.maxElevation))
  {
    ElevationsOfPoints(points);
  }

  /** Ascent minus descent is the final reference minus the first sample. */
  lemma ElevationNet(points: seq<TrackPoint>)
    requires HasElevation(points)
    ensures var es := Elevations(points);
      var e := ElevationSummary(points).value;
      e.totalAscent - e.totalDescent == Climb(es[0], es[1..]).reference - es[0]
  {
  }

  /** A track whose samples all stay within 2 m of the first one has no ascent or descent. */
  lemma ElevationJitterFree(points: seq<TrackPoint>)
    requires HasElevation(points)
    requires forall i :: 0 <= i < |points| && points[i].elevation.Some? ==>
      Abs(points[i].elevation.value - Elevations(points)[0]) < ElevationNoiseM
    ensures ElevationSummary(points).value.totalAscent == 0.0
    ensures ElevationSummary(points).value.totalDescent == 0.0
  {
    var es := Elevations(points);
    var rest := es[1..];
    ElevationsFromPoints(points);
    forall k | 0 <= k < |rest|
      ensures Abs(rest[k] - es[0]) < ElevationNoiseM
    {
      assert rest[k] == es[k + 1];
      var i :| 0 <= i < |points| && points[i].elevation == Some(es[k + 1]);
    }
    ClimbIgnoresJitter(es[0], rest);
  }

  /** `elevation_range` is never negative for a computed summary. */
  lemma ElevationRangeNonNegative(points: seq<TrackPoint>)
    requires HasElevation(points)
    ensures ElevationSummary(points).value.ElevationRange() >= 0.0
  {
    ElevationSummaryBounds(points);
  }

  /** `calculate_elevation_metrics`. */
  method CalculateElevationMetrics(track: Track) returns (r: Option<ElevationMetrics>)
    ensures r == ElevationSummary(track.points)
  {
    if !HasElevation(track.points) {
      return None;
    }
    var elevations := Elevations(track.points);
    var totalAscent, totalDescent := 0.0, 0.0;
    var prevElevation := elevations[0];
    var rest := elevations[1..];
    var k := 0;
    while k < |rest|
      invariant 0 <= k <= |rest|
      invariant ClimbState(prevElevation, totalAscent, totalDescent) == Climb(elevations[0], rest[..k])
    {
      assert rest[..k + 1][..k] == rest[..k];
      assert Climb(elevations[0], rest[..k + 1]) == ClimbStep(Climb(elevations[0], rest[..k]), rest[k]);
      var elevation := rest[k];
      var diff := elevation - prevElevation;
      if Abs(diff) >= ElevationNoiseM {
        if diff > 0.0 {
          totalAscent := totalAscent + diff;
        } else {
          totalDescent := totalDescent + Abs(diff);
        }
        prevElevation := elevation;
      }
      k := k + 1;
    }
    assert rest[..k] == rest;
    r := Some(ElevationMetrics(SeqMin(elevations), SeqMax(elevations), totalAscent, totalDescent));
  }

  // ---------------------------------------------------------------------
  // Speed
  // ---------------------------------------------------------------------

  /** A point paired with its (present) time, as in `timed_points`. */
  datatype Timed = Timed(point: TrackPoint, time: Instant)

  /** The points that carry a time, each paired with it, in input order. */
  function TimedPoints(points: seq<TrackPoint>): (ts: seq<Timed>)
    ensures |ts| <= |points|
    ensures ts == [] <==> !HasTimestamps(points)
    ensures forall k :: 0 <= k < |ts| ==> ts[k].point.time == Some(ts[k].time)
  {
    if points == [] then []
    else
      var front := points[..|points| - 1];
      var last := points[|points| - 1];
      assert forall i :: 0 <= i < |front| ==> front[i] == points[i];
      TimedPoints(front) + if last.time.Some? then [Timed(last, last.time.value)] else []
  }

  /** The positions of the points that carry a time, in increasing order. */
  function TimedIndices(points: seq<TrackPoint>): seq<nat> {
    if points == [] then []
    else
      var n := |points|;
      TimedIndices(points[..n - 1]) + if points[n - 1].time.Some? then [n - 1] else []
  }

  /**
   * Timed point `k` is point `TimedIndices(points)[k]`, and these positions
   * increase and take in every point that carries a time: the timed points
   * are exactly those points, in input order.
   */
  lemma TimedPointsInOrder(points: seq<TrackPoint>)
    ensures |TimedIndices(points)| == |TimedPoints(points)|
    ensures forall k :: 0 <= k < |TimedIndices(points)| ==>
      TimedIndices(points)[k] < |points| && TimedPoints(points)[k].point == points[TimedIndices(points)[k]]
    ensures forall k, l :: 0 <= k < l < |TimedIndices(points)| ==>
      TimedIndices(points)[k] < TimedIndices(points)[l]
    ensures forall i :: 0 <= i < |points| && points[i].time.Some? ==> i in TimedIndices(points)
  {
    TimedIndicesSamples(points);
    TimedIndicesPositions(points);
  }

  lemma {:induction false} TimedIndicesSamples(points: seq<TrackPoint>)
    ensures |TimedIndices(points)| == |TimedPoints(points)|
    ensures forall k :: 0 <= k < |TimedIndices(points)| ==>
      TimedIndices(points)[k] < |points| && TimedPoints(points)[k].point == points[TimedIndices(points)[k]]
  {
    if points != [] {
      var n := |points|;
      var front := points[..n - 1];
      var last := points[n - 1];
      TimedIndicesSamples(front);
      var ix, ixF := TimedIndices(points), TimedIndices(front);
      var ts, tsF := TimedPoints(points), TimedPoints(front);
      assert ix == ixF + if last.time.Some? then [n - 1] else [];
      assert ts == tsF + if last.time.Some? then [Timed(last, last.time.value)] else [];
      forall k | 0 <= k < |ix|
        ensures ix[k] < n && ts[k].point == points[ix[k]]
      {
        if k < |ixF| {
          assert ix[k] == ixF[k] && ts[k] == tsF[k];
          assert front[ixF[k]] == points[ixF[k]];
        }
      }
    }
  }

  lemma {:induction false} TimedIndicesPositions(points: seq<TrackPoint>)
    ensures forall k :: 0 <= k < |TimedIndices(points)| ==> TimedIndices(points)[k] < |points|
    ensures forall k, l :: 0 <= k < l < |TimedIndices(points)| ==>
      TimedIndices(points)[k] < TimedIndices(points)[l]
    ensures forall i :: 0 <= i < |points| && points[i].time.Some? ==> i in TimedIndices(points)
  {
    if points != [] {
      var n := |points|;
      var front := points[..n - 1];
      TimedIndicesPositions(front);
      var ix, ixF := TimedIndices(points), TimedIndices(front);
      assert ix == ixF + if points[n - 1].time.Some? then [n - 1] else [];
      forall k | 0 <= k < |ix| ensures ix[k] < n {
        if k < |ixF| {
          assert ix[k] == ixF[k];
        }
      }
      forall k, l | 0 <= k < l < |ix| ensures ix[k] < ix[l] {
        if l < |ixF| {
          assert ix[k] == ixF[k] && ix[l] == ixF[l];
        } else {
          assert ix[k] == ixF[k] < n - 1;
        }
      }
      forall i | 0 <= i < n && points[i].time.Some? ensures i in ix {
        if i < n - 1 {
          assert front[i] == points[i];
          assert i in ixF;
        }
      }
    }
  }

  ghost predicate SortedByTime(ts: seq<Timed>) {
    forall i, j :: 0 <= i <= j < |ts| ==> ts[i].time <= ts[j].time
  }

  /** Puts `x` after every element of `sorted` whose time is not later (so equal times keep their order). */
  function InsertByTime(sorted: seq<Timed>, x: Timed): (r: seq<Timed>)
    requires SortedByTime(sorted)
    ensures SortedByTime(r)
    ensures multiset(r) == multiset(sorted) + multiset{x}
    ensures |r| == |sorted| + 1
    ensures r[|r| - 1] == x || (sorted != [] && r[|r| - 1] == sorted[|sorted| - 1])
  {
    if sorted == [] || sorted[|sorted| - 1].time <= x.time then
      SortedAppend(sorted, x);
      sorted + [x]
    else
      var front := sorted[..|sorted| - 1];
      var last := sorted[|sorted| - 1];
      assert sorted == front + [last];
      var r := InsertByTime(front, x);
      SortedAppend(r, last);
      r + [last]
  }

  lemma SortedAppend(ts: seq<Timed>, y: Timed)
    requires SortedByTime(ts)
    requires ts == [] || ts[|ts| - 1].time <= y.time
    ensures SortedByTime(ts + [y])
  {
  }

  /** The stable sort of the timed points by their time. */
  function SortByTime(ts: seq<Timed>): (r: seq<Timed>)
    ensures SortedByTime(r)
    ensures multiset(r) == multiset(ts)
  {
    if ts == [] then []
    else
      assert ts == ts[..|ts| - 1] + [ts[|ts| - 1]];
      InsertByTime(SortByTime(ts[..|ts| - 1]), ts[|ts| - 1])
  }

  /** The earliest time of a non-empty list. */
  function Earliest(ts: seq<Timed>): (t: Instant)
    requires ts != []
    ensures (exists k :: 0 <= k < |ts| && ts[k].time == t) && forall k :: 0 <= k < |ts| ==> t <= ts[k].time
  {
    if |ts| == 1 then ts[0].time
    else
      var t := Earliest(ts[..|ts| - 1]);
      assert forall k :: 0 <= k < |ts| - 1 ==> ts[..|ts| - 1][k] == ts[k];
      if ts[|ts| - 1].time < t then ts[|ts| - 1].time else t
  }

  /** The latest time of a non-empty list. */
  function Latest(ts: seq<Timed>): (t: Instant)
    requires ts != []
    ensures (exists k :: 0 <= k < |ts| && ts[k].time == t) && forall k :: 0 <= k < |ts| ==> ts[k].time <= t
  {
    if |ts| == 1 then ts[0].time
    else
      var t := Latest(ts[..|ts| - 1]);
      assert forall k :: 0 <= k < |ts| - 1 ==> ts[..|ts| - 1][k] == ts[k];
      if ts[|ts| - 1].time > t then ts[|ts| - 1].time else t
  }

  /** After sorting, the first and last times are the earliest and latest ones. */
  lemma SortedEnds(ts: seq<Timed>)
    requires ts != []
    ensures var s := SortByTime(ts);
      |s| == |ts| && s[0].time == Earliest(ts) && s[|s| - 1].time == Latest(ts)
  {
    SortedPermutationEnds(ts, SortByTime(ts));
  }

  /** Any time-sorted permutation of `ts` starts at its earliest and ends at its latest time. */
  lemma SortedPermutationEnds(ts: seq<Timed>, s: seq<Timed>)
    requires ts != [] && SortedByTime(s) && multiset(s) == multiset(ts)
    ensures |s| == |ts| && s[0].time == Earliest(ts) && s[|s| - 1].time == Latest(ts)
  {
    assert |s| == |multiset(s)| == |multiset(ts)| == |ts|;
    forall k | 0 <= k < |ts| ensures s[0].time <= ts[k].time <= s[|s| - 1].time {
      assert ts[k] in multiset(ts);
      var j :| 0 <= j < |s| && s[j] == ts[k];
    }
    assert s[0] in multiset(ts) && s[|s| - 1] in multiset(ts);
    var i0 :| 0 <= i0 < |ts| && ts[i0] == s[0];
    var i1 :| 0 <= i1 < |ts| && ts[i1] == s[|s| - 1];
  }

  /** The speed over one segment in km/h: kilometres per second times 3600. */
  function SegmentSpeedKmh(distanceKm: real, seconds: int): real
    requires seconds > 0
  {
    distanceKm / seconds as real * 3600.0
  }

  /** The accumulators `max_speed`, `moving_time` and `moving_distance`. */
  datatype Motion = Motion(maxSpeed: real, movingTime: int, movingDistance: real)

  /**
   * One pair of consecutive time-sorted points: skipped for a non-positive
   * gap or a speed over 200 km/h; otherwise it may raise the maximum, and
   * counts as moving at 1 km/h or more.
   */
  function MotionStep(d: GreatCircle, m: Motion, a: Timed, b: Timed): Motion {
    var seconds := b.time - a.time;
    if seconds <= 0 then m
    else
      var dist := DistanceKm(d, a.point, b.point);
      var speed := SegmentSpeedKmh(dist, seconds);
      if speed > MaxPlausibleSpeedKmh then m
      else
        var maxSpeed := RealMax(m.maxSpeed, speed);
        if speed >= MinMovingSpeedKmh then Motion(maxSpeed, m.movingTime + seconds, m.movingDistance + dist)
        else Motion(maxSpeed, m.movingTime, m.movingDistance)
  }

  /**
   * The bounds every state of the accumulators keeps: the maximum lies in
   * [0, 200 km/h], and the moving distance is that of a speed between
   * 1 and 200 km/h held over the moving time (3600 s per hour).
   */
  ghost predicate MotionBounds(m: Motion) {
    && 0.0 <= m.maxSpeed <= MaxPlausibleSpeedKmh
    && m.movingTime >= 0 && m.movingDistance >= 0.0
    && m.movingTime as real <= m.movingDistance * 3600.0 <= 200.0 * m.movingTime as real
  }

  lemma ScaleBy(a: real, b: real, t: real)
    requires t > 0.0 && a <= b
    ensures a * t <= b * t
  {
  }

  lemma Unscale(a: real, b: real, t: real)
    requires t > 0.0 && a * t <= b * t
    ensures a <= b
  {
  }

  lemma SpeedTimesTime(dist: real, seconds: int)
    requires seconds > 0
    ensures SegmentSpeedKmh(dist, seconds) * seconds as real == dist * 3600.0
  {
    var t := seconds as real;
    assert dist / t * t == dist;
  }

  /** A speed between 1 and 200 held for `t` covers between `t` and `200 t`. */
  lemma Sandwich(speed: real, t: real, x: real)
    requires t > 0.0 && 1.0 <= speed <= 200.0 && speed * t == x
    ensures t <= x <= 200.0 * t
  {
    ScaleBy(1.0, speed, t);
    assert 1.0 * t == t;
    assert t <= x;
    ScaleBy(speed, 200.0, t);
    assert x <= 200.0 * t;
  }

  lemma MotionStepKeepsBounds(d: GreatCircle, m: Motion, a: Timed, b: Timed)
    requires MotionBounds(m)
    ensures MotionBounds(MotionStep(d, m, a, b))
  {
    var seconds := b.time - a.time;
    if seconds > 0 {
      var dist := DistanceKm(d, a.point, b.point);
      var speed := SegmentSpeedKmh(dist, seconds);
      var t := seconds as real;
      SpeedTimesTime(dist, seconds);
      if speed <= MaxPlausibleSpeedKmh && speed >= MinMovingSpeedKmh {
        Sandwich(speed, t, dist * 3600.0);
      }
    }
  }

  /** The accumulators after the loop over the consecutive pairs of `ts`. */
  function MotionOf(d: GreatCircle, ts: seq<Timed>): (m: Motion)
    ensures MotionBounds(m)
  {
    if |ts| < 2 then Motion(0.0, 0, 0.0)
    else
      var prior := MotionOf(d, ts[..|ts| - 1]);
      MotionStepKeepsBounds(d, prior, ts[|ts| - 2], ts[|ts| - 1]);
      MotionStep(d, prior, ts[|ts| - 2], ts[|ts| - 1])
  }

  /** A pair with a non-positive gap or an implausible speed changes nothing. */
  lemma RejectedPairIgnored(d: GreatCircle, m: Motion, a: Timed, b: Timed)
    requires b.time - a.time <= 0 ||
      SegmentSpeedKmh(DistanceKm(d, a.point, b.point), b.time - a.time) > MaxPlausibleSpeedKmh
    ensures MotionStep(d, m, a, b) == m
  {
  }

  /** The speed of the pair of `ts` that ends at index `i`, for a positive gap. */
  function PairSpeed(d: GreatCircle, ts: seq<Timed>, i: nat): real
    requires 1 <= i < |ts| && ts[i].time - ts[i - 1].time > 0
  {
    SegmentSpeedKmh(DistanceKm(d, ts[i - 1].point, ts[i].point), ts[i].time - ts[i - 1].time)
  }

  /** Pair `i` joins timed point `i - 1` to timed point `i`; it advances when its time does. */
  predicate Advances(ts: seq<Timed>, i: nat)
    requires 1 <= i < |ts|
  {
    ts[i].time - ts[i - 1].time > 0
  }

  /** The loop keeps the pair ending at `i`: its time advances and its speed is at most 200 km/h. */
  predicate Accepted(d: GreatCircle, ts: seq<Timed>, i: nat)
    requires 1 <= i < |ts|
  {
    Advances(ts, i) && PairSpeed(d, ts, i) <= MaxPlausibleSpeedKmh
  }

  /** A kept pair at 1 km/h or more counts as moving. */
  predicate Moving(d: GreatCircle, ts: seq<Timed>, i: nat)
    requires 1 <= i < |ts|
  {
    Accepted(d, ts, i) && PairSpeed(d, ts, i) >= MinMovingSpeedKmh
  }

  /** Dropping the last timed point leaves the earlier pairs as they were. */
  lemma FrontPair(ts: seq<Timed>, i: nat)
    requires 1 <= i < |ts| - 1
    ensures var front := ts[..|ts| - 1];
      front[i - 1] == ts[i - 1] && front[i] == ts[i] && Advances(front, i) == Advances(ts, i)
  {
  }

  /** ... and so do their speeds and how the loop treats them. */
  lemma FrontPairSpeed(d: GreatCircle, ts: seq<Timed>, i: nat)
    requires 1 <= i < |ts| - 1
    ensures var front := ts[..|ts| - 1];
      && Accepted(d, front, i) == Accepted(d, ts, i)
      && Moving(d, front, i) == Moving(d, ts, i)
      && (Advances(ts, i) ==> PairSpeed(d, front, i) == PairSpeed(d, ts, i))
  {
    FrontPair(ts, i);
  }

  /** No step lowers an accumulator. */
  lemma MotionStepGrows(d: GreatCircle, m: Motion, a: Timed, b: Timed)
    ensures var next := MotionStep(d, m, a, b);
      m.maxSpeed <= next.maxSpeed && m.movingTime <= next.movingTime && m.movingDistance <= next.movingDistance
  {
  }

  /** The maximum speed is at least the speed of every kept pair. */
  lemma {:induction false} MaxSpeedCoversAccepted(d: GreatCircle, ts: seq<Timed>)
    ensures forall i :: 1 <= i < |ts| && Accepted(d, ts, i) ==> PairSpeed(d, ts, i) <= MotionOf(d, ts).maxSpeed
  {
    if |ts| >= 2 {
      var n := |ts|;
      var front := ts[..n - 1];
      MaxSpeedCoversAccepted(d, front);
      var prior := MotionOf(d, front);
      assert MotionOf(d, ts) == MotionStep(d, prior, ts[n - 2], ts[n - 1]);
      MotionStepGrows(d, prior, ts[n - 2], ts[n - 1]);
      forall i | 1 <= i < n && Accepted(d, ts, i)
        ensures PairSpeed(d, ts, i) <= MotionOf(d, ts).maxSpeed
      {
        if i < n - 1 {
          FrontPairSpeed(d, ts, i);
        }
      }
    }
  }

  /** The maximum speed is 0 or the speed of some kept pair; so it is 0 when no pair is kept. */
  lemma {:induction false} MaxSpeedAttained(d: GreatCircle, ts: seq<Timed>)
    ensures MotionOf(d, ts).maxSpeed == 0.0
      || exists i :: 1 <= i < |ts| && Accepted(d, ts, i) && MotionOf(d, ts).maxSpeed == PairSpeed(d, ts, i)
  {
    if |ts| >= 2 {
      var n := |ts|;
      var front := ts[..n - 1];
      MaxSpeedAttained(d, front);
      var prior := MotionOf(d, front);
      var m := MotionOf(d, ts);
      assert m == MotionStep(d, prior, ts[n - 2], ts[n - 1]);
      if Accepted(d, ts, n - 1) && m.maxSpeed == PairSpeed(d, ts, n - 1) {
      } else if m.maxSpeed != 0.0 {
        assert m.maxSpeed == prior.maxSpeed;
        var j :| 1 <= j < |front| && Accepted(d, front, j) && prior.maxSpeed == PairSpeed(d, front, j);
        FrontPairSpeed(d, ts, j);
      }
    }
  }

  /** Every moving pair's gap and length are part of the moving time and the moving distance. */
  lemma {:induction false} MovingPairsCounted(d: GreatCircle, ts: seq<Timed>)
    ensures forall i :: 1 <= i < |ts| && Moving(d, ts, i) ==>
      && ts[i].time - ts[i - 1].time <= MotionOf(d, ts).movingTime
      && DistanceKm(d, ts[i - 1].point, ts[i].point) <= MotionOf(d, ts).movingDistance
  {
    if |ts| >= 2 {
      var n := |ts|;
      var front := ts[..n - 1];
      MovingPairsCounted(d, front);
      var prior := MotionOf(d, front);
      assert MotionOf(d, ts) == MotionStep(d, prior, ts[n - 2], ts[n - 1]);
      MotionStepGrows(d, prior, ts[n - 2], ts[n - 1]);
      forall i | 1 <= i < n && Moving(d, ts, i)
        ensures ts[i].time - ts[i - 1].time <= MotionOf(d, ts).movingTime
        ensures DistanceKm(d, ts[i - 1].point, ts[i].point) <= MotionOf(d, ts).movingDistance
      {
        if i < n - 1 {
          FrontPairSpeed(d, ts, i);
        }
      }
    }
  }

  /** There is moving time exactly when some pair is moving. */
  lemma {:induction false} MovingTimeIffMovingPair(d: GreatCircle, ts: seq<Timed>)
    ensures MotionOf(d, ts).movingTime > 0 <==> exists i :: 1 <= i < |ts| && Moving(d, ts, i)
  {
    MovingPairsCounted(d, ts);
    if |ts| >= 2 && MotionOf(d, ts).movingTime > 0 {
      var n := |ts|;
      var front := ts[..n - 1];
      MovingTimeIffMovingPair(d, front);
      var prior := MotionOf(d, front);
      assert MotionOf(d, ts) == MotionStep(d, prior, ts[n - 2], ts[n - 1]);
      if !Moving(d, ts, n - 1) {
        assert prior.movingTime > 0;
        var j :| 1 <= j < |front| && Moving(d, front, j);
        FrontPairSpeed(d, ts, j);
      }
    }
  }

  /** The summed gaps of the moving pairs of `ts`. */
  function MovingGapSum(d: GreatCircle, ts: seq<Timed>): int {
    if |ts| < 2 then 0
    else
      var n := |ts|;
      MovingGapSum(d, ts[..n - 1]) + if Moving(d, ts, n - 1) then ts[n - 1].time - ts[n - 2].time else 0
  }

  /** The summed lengths of the moving pairs of `ts`. */
  function MovingLengthSum(d: GreatCircle, ts: seq<Timed>): real {
    if |ts| < 2 then 0.0
    else
      var n := |ts|;
      MovingLengthSum(d, ts[..n - 1]) + if Moving(d, ts, n - 1) then DistanceKm(d, ts[n - 2].point, ts[n - 1].point) else 0.0
  }

  /** The moving time and distance are the summed gaps and lengths of the moving pairs. */
  lemma {:induction false} MovingTotals(d: GreatCircle, ts: seq<Timed>)
    ensures MotionOf(d, ts).movingTime == MovingGapSum(d, ts)
    ensures MotionOf(d, ts).movingDistance == MovingLengthSum(d, ts)
  {
    if |ts| >= 2 {
      MovingTotals(d, ts[..|ts| - 1]);
    }
  }

  /** The distance in km covered at `speedKmh` for `seconds` seconds. */
  function DistanceAt(speedKmh: real, seconds: int): real {
    speedKmh * seconds as real / 3600.0
  }

  /** A total over a non-zero span, taken as a rate in km/h, covers that total again over the span. */
  lemma RateTimesSpan(total: real, seconds: int)
    requires seconds != 0
    ensures DistanceAt(total / seconds as real * 3600.0, seconds) == total
  {
    var t := seconds as real;
    assert total / t * t == total;
    assert total / t * 3600.0 * t == total * 3600.0;
  }

  /** Over time-sorted points, moving time is a part of the time span. */
  lemma {:induction false} MovingTimeWithinSpan(d: GreatCircle, ts: seq<Timed>)
    requires ts != [] && SortedByTime(ts)
    ensures MotionOf(d, ts).movingTime <= ts[|ts| - 1].time - ts[0].time
  {
    if |ts| >= 2 {
      var front := ts[..|ts| - 1];
      assert SortedByTime(front);
      MovingTimeWithinSpan(d, front);
      assert ts[|ts| - 2].time <= ts[|ts| - 1].time;
    }
  }

  /** `avg_moving_speed`: zero without moving time. */
  function AvgMovingSpeed(m: Motion): real {
    if m.movingTime > 0 then m.movingDistance / m.movingTime as real * 3600.0 else 0.0
  }

  lemma AvgMovingSpeedBounds(m: Motion)
    requires MotionBounds(m)
    ensures m.movingTime == 0 ==> AvgMovingSpeed(m) == 0.0
    ensures m.movingTime > 0 ==> MinMovingSpeedKmh <= AvgMovingSpeed(m) <= MaxPlausibleSpeedKmh
  {
    if m.movingTime > 0 {
      var t := m.movingTime as real;
      var v := AvgMovingSpeed(m);
      SpeedTimesTime(m.movingDistance, m.movingTime);
      assert v == SegmentSpeedKmh(m.movingDistance, m.movingTime);
      Unsandwich(v, t, m.movingDistance * 3600.0);
    }
  }

  /** The converse of `Sandwich`: covering between `t` and `200 t` in time `t` means a speed in [1, 200]. */
  lemma Unsandwich(speed: real, t: real, x: real)
    requires t > 0.0 && speed * t == x && t <= x <= 200.0 * t
    ensures 1.0 <= speed <= 200.0
  {
    assert 1.0 * t == t;
    assert 1.0 * t <= speed * t;
    Unscale(1.0, speed, t);
    Unscale(speed, 200.0, t);
  }

  /**
   * What `calculate_speed_metrics` returns: nothing with fewer than two
   * timestamped points or a zero time span; otherwise the span, the
   * average over it, and the filtered maximum and moving figures.
   */
  function SpeedSummary(d: GreatCircle, points: seq<TrackPoint>): Option<SpeedMetrics> {
    if !HasTimestamps(points) || |points| < 2 then None
    else
      var timed := TimedPoints(points);
      if |timed| < 2 then None
      else SpeedOfSorted(d, PathLength(d, points), SortByTime(timed))
  }

  /** The part of `calculate_speed_metrics` after the timestamped points are sorted. */
  function SpeedOfSorted(d: GreatCircle, totalKm: real, sorted: seq<Timed>): Option<SpeedMetrics>
    requires |sorted| >= 2
  {
    var duration := sorted[|sorted| - 1].time - sorted[0].time;
    if duration == 0 then None
    else
      var m := MotionOf(d, sorted);
      Some(SpeedMetrics(duration, totalKm / duration as real * 3600.0, m.maxSpeed, m.movingTime, AvgMovingSpeed(m)))
  }

  /** Speed metrics are absent exactly with fewer than two timestamped points or a zero time span. */
  lemma SpeedSummaryAbsent(d: GreatCircle, points: seq<TrackPoint>)
    ensures var ts := TimedPoints(points);
      SpeedSummary(d, points).None? <==> |ts| < 2 || Latest(ts) == Earliest(ts)
  {
    var ts := TimedPoints(points);
    if |ts| >= 2 {
      SortedEnds(ts);
      assert SpeedSummary(d, points) == SpeedOfSorted(d, PathLength(d, points), SortByTime(ts));
    }
  }

  /**
   * Present speed metrics span the earliest to the latest time; the maximum
   * lies in [0, 200]; the moving time is part of that span; the moving
   * average is 0 exactly without moving time, and otherwise in [1, 200].
   */
  lemma SpeedSummaryBounds(d: GreatCircle, points: seq<TrackPoint>)
    requires SpeedSummary(d, points).Some?
    ensures var ts := TimedPoints(points);
      var s := SpeedSummary(d, points).value;
      && s.duration == Latest(ts) - Earliest(ts) && s.duration > 0
      && 0.0 <= s.maxSpeedKmh <= MaxPlausibleSpeedKmh
      && 0 <= s.movingTime <= s.duration
      && s.avgSpeedKmh >= 0.0
      && (s.avgMovingSpeedKmh == 0.0 <==> s.movingTime == 0)
      && (s.movingTime > 0 ==> MinMovingSpeedKmh <= s.avgMovingSpeedKmh <= MaxPlausibleSpeedKmh)
  {
    var ts := TimedPoints(points);
    SortedEnds(ts);
    SortedSpeedBounds(d, PathLength(d, points), SortByTime(ts));
  }

  lemma SortedSpeedBounds(d: GreatCircle, totalKm: real, sorted: seq<Timed>)
    requires |sorted| >= 2 && SortedByTime(sorted) && totalKm >= 0.0
    requires SpeedOfSorted(d, totalKm, sorted).Some?
    ensures var s := SpeedOfSorted(d, totalKm, sorted).value;
      && s.duration == sorted[|sorted| - 1].time - sorted[0].time && s.duration > 0
      && 0.0 <= s.maxSpeedKmh <= MaxPlausibleSpeedKmh
      && 0 <= s.movingTime <= s.duration
      && s.avgSpeedKmh >= 0.0
      && (s.avgMovingSpeedKmh == 0.0 <==> s.movingTime == 0)
      && (s.movingTime > 0 ==> MinMovingSpeedKmh <= s.avgMovingSpeedKmh <= MaxPlausibleSpeedKmh)
  {
    var m := MotionOf(d, sorted);
    MovingTimeWithinSpan(d, sorted);
    AvgMovingSpeedBounds(m);
    NonNegativeRate(totalKm, sorted[|sorted| - 1].time - sorted[0].time);
  }

  /**
   * What the reported speed and moving time mean in terms of the sorted
   * pairs: the maximum speed is the largest speed of a kept pair (0 when none
   * is kept), and the moving time is the summed gap of the moving pairs,
   * positive exactly when some pair moves.
   */
  ghost predicate PairFigures(d: GreatCircle, sorted: seq<Timed>, s: SpeedMetrics) {
    && (forall i :: 1 <= i < |sorted| && Accepted(d, sorted, i) ==> PairSpeed(d, sorted, i) <= s.maxSpeedKmh)
    && (s.maxSpeedKmh == 0.0
        || exists i :: 1 <= i < |sorted| && Accepted(d, sorted, i) && s.maxSpeedKmh == PairSpeed(d, sorted, i))
    && s.movingTime == MovingGapSum(d, sorted)
    && (s.movingTime > 0 <==> exists i :: 1 <= i < |sorted| && Moving(d, sorted, i))
  }

  /**
   * What the two averages mean: the average speed covers `totalKm` over the
   * duration, and the moving average covers the moving pairs' summed length
   * over the moving time, 0 without moving time.
   */
  ghost predicate AverageFigures(d: GreatCircle, totalKm: real, sorted: seq<Timed>, s: SpeedMetrics) {
    && DistanceAt(s.avgSpeedKmh, s.duration) == totalKm
    && (s.movingTime > 0 ==> DistanceAt(s.avgMovingSpeedKmh, s.movingTime) == MovingLengthSum(d, sorted))
    && (s.movingTime == 0 ==> s.avgMovingSpeedKmh == 0.0)
  }

  lemma SortedPairFigures(d: GreatCircle, totalKm: real, sorted: seq<Timed>)
    requires |sorted| >= 2 && SpeedOfSorted(d, totalKm, sorted).Some?
    ensures PairFigures(d, sorted, SpeedOfSorted(d, totalKm, sorted).value)
  {
    var m := MotionOf(d, sorted);
    assert SpeedOfSorted(d, totalKm, sorted).value.maxSpeedKmh == m.maxSpeed;
    assert SpeedOfSorted(d, totalKm, sorted).value.movingTime == m.movingTime;
    MaxSpeedCoversAccepted(d, sorted);
    MaxSpeedAttained(d, sorted);
    MovingTotals(d, sorted);
    MovingTimeIffMovingPair(d, sorted);
  }

  lemma SortedAverageFigures(d: GreatCircle, totalKm: real, sorted: seq<Timed>)
    requires |sorted| >= 2 && SpeedOfSorted(d, totalKm, sorted).Some?
    ensures AverageFigures(d, totalKm, sorted, SpeedOfSorted(d, totalKm, sorted).value)
  {
    var s := SpeedOfSorted(d, totalKm, sorted).value;
    var m := MotionOf(d, sorted);
    var duration := sorted[|sorted| - 1].time - sorted[0].time;
    assert s.duration == duration && s.avgSpeedKmh == totalKm / duration as real * 3600.0;
    assert s.movingTime == m.movingTime && s.avgMovingSpeedKmh == AvgMovingSpeed(m);
    RateTimesSpan(totalKm, duration);
    MovingTotals(d, sorted);
    MovingAverageCovers(m);
  }

  /** The moving average, over the moving time, covers the moving distance. */
  lemma MovingAverageCovers(m: Motion)
    ensures m.movingTime > 0 ==> DistanceAt(AvgMovingSpeed(m), m.movingTime) == m.movingDistance
    ensures m.movingTime <= 0 ==> AvgMovingSpeed(m) == 0.0
  {
    if m.movingTime > 0 {
      RateTimesSpan(m.movingDistance, m.movingTime);
    }
  }

  /** Every reported figure of the sorted part, in terms of the pairs. */
  lemma SortedSpeedFromPairs(d: GreatCircle, totalKm: real, sorted: seq<Timed>)
    requires |sorted| >= 2 && SpeedOfSorted(d, totalKm, sorted).Some?
    ensures var s := SpeedOfSorted(d, totalKm, sorted).value;
      PairFigures(d, sorted, s) && AverageFigures(d, totalKm, sorted, s)
  {
    SortedPairFigures(d, totalKm, sorted);
    SortedAverageFigures(d, totalKm, sorted);
  }

  /** The same, for the speed metrics of a track, over its time-sorted timestamped points and its path length. */
  lemma SpeedSummaryFromPairs(d: GreatCircle, points: seq<TrackPoint>)
    requires SpeedSummary(d, points).Some?
    ensures var sorted := SortByTime(TimedPoints(points));
      var s := SpeedSummary(d, points).value;
      PairFigures(d, sorted, s) && AverageFigures(d, PathLength(d, points), sorted, s)
  {
    var ts := TimedPoints(points);
    SortedEnds(ts);
    assert SpeedSummary(d, points) == SpeedOfSorted(d, PathLength(d, points), SortByTime(ts));
    SortedSpeedFromPairs(d, PathLength(d, points), SortByTime(ts));
  }

  lemma NonNegativeRate(dist: real, seconds: int)
    requires dist >= 0.0 && seconds > 0
    ensures dist / seconds as real * 3600.0 >= 0.0
  {
  }

  /** `calculate_speed_metrics`. */
  method CalculateSpeedMetrics(d: GreatCircle, track: Track) returns (r: Option<SpeedMetrics>)
    ensures r == SpeedSummary(d, track.points)
  {
    if !HasTimestamps(track.points) || |track.points| < 2 {
      return None;
    }
    var timedPoints := TimedPoints(track.points);
    if |timedPoints| < 2 {
      return None;
    }
    timedPoints := SortByTime(timedPoints);
    assert SpeedSummary(d, track.points) == SpeedOfSorted(d, PathLength(d, track.points), timedPoints);
    var startTime := timedPoints[0].time;
    var endTime := timedPoints[|timedPoints| - 1].time;
    var duration := endTime - startTime;
    if duration == 0 {
      return None;
    }
    var totalDistance := CalculateTotalDistance(d, track);
    var avgSpeed := totalDistance / duration as real * 3600.0;

    var maxSpeed, movingTime, movingDistance := AccumulateMotion(d, timedPoints);

    var avgMovingSpeed := 0.0;
    if movingTime > 0 {
      avgMovingSpeed := movingDistance / movingTime as real * 3600.0;
    }
    r := Some(SpeedMetrics(duration, avgSpeed, maxSpeed, movingTime, avgMovingSpeed));
    assert r == SpeedOfSorted(d, totalDistance, timedPoints);
  }

  /** The loop of `calculate_speed_metrics` over consecutive time-sorted points. */
  method AccumulateMotion(d: GreatCircle, timedPoints: seq<Timed>)
    returns (maxSpeed: real, movingTime: int, movingDistance: real)
    requires |timedPoints| >= 1
    ensures Motion(maxSpeed, movingTime, movingDistance) == MotionOf(d, timedPoints)
  {
    maxSpeed, movingTime, movingDistance := 0.0, 0, 0.0;
    var i := 1;
    while i < |timedPoints|
      invariant 1 <= i <= |timedPoints|
      invariant Motion(maxSpeed, movingTime, movingDistance) == MotionOf(d, timedPoints[..i])
    {
      assert timedPoints[..i + 1][..i] == timedPoints[..i];
      var p1, t1 := timedPoints[i - 1].point, timedPoints[i - 1].time;
      var p2, t2 := timedPoints[i].point, timedPoints[i].time;
      var segmentTime := t2 - t1;
      if segmentTime > 0 {
        var segmentDist := DistanceKm(d, p1, p2);
        var segmentSpeed := SegmentSpeedKmh(segmentDist, segmentTime);
        if segmentSpeed <= MaxPlausibleSpeedKmh {
          maxSpeed := RealMax(maxSpeed, segmentSpeed);
          if segmentSpeed >= MinMovingSpeedKmh {
            movingTime := movingTime + segmentTime;
            movingDistance := movingDistance + segmentDist;
          }
        }
      }
      i := i + 1;
    }
    assert timedPoints[..i] == timedPoints;
  }

  // ---------------------------------------------------------------------
  // All metrics
  // ---------------------------------------------------------------------

  /** `calculate_metrics`: each field is the corresponding helper's result on the same track. */
  method CalculateMetrics(d: GreatCircle, track: Track) returns (m: TrackMetrics)
    ensures m.trackName == track.name
    ensures m.totalDistanceKm == PathLength(d, track.points)
    ensures m.pointCount == |track.points|
    ensures m.elevation == ElevationSummary(track.points)
    ensures m.speed == SpeedSummary(d, track.points)
  {
    var total := CalculateTotalDistance(d, track);
    var elevation := CalculateElevationMetrics(track);
    var speed := CalculateSpeedMetrics(d, track);
    m := TrackMetrics(track.name, total, |track.points|, elevation, speed);
  }
}

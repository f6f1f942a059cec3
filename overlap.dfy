/**
 * Route overlap between two tracks (src/track_analytics/overlap.py).
 *
 * A segment of one track overlaps the other track when its planar midpoint
 * lies within the threshold (in metres) of some point of the other track.
 * The nearest-point search and the per-track accumulation are loops, so
 * they are methods proved equal to the recursive functions `NearestOf` and
 * `OverlapLength`; the properties of the result are lemmas about `Overlap`.
 */
module Overlap {
  import opened Wrappers
  import opened GpxParser
  import opened Geo
  import opened Metrics

  /** The threshold that `analyze_overlap` uses when none is given (m). */
  const DefaultThresholdM: real := 50.0

  datatype OverlapResult = OverlapResult(
    track1OverlapKm: real,
    track1OverlapPercent: real,
    track2OverlapKm: real,
    track2OverlapPercent: real,
    sharedDistanceKm: real,
    track1UniqueKm: real,
    track2UniqueKm: real)

  /** A nearest distance in metres; `Infinite` is the `float("inf")` start value. */
  datatype Nearest = Finite(meters: real) | Infinite

  /** `nearest <= threshold`, where infinity exceeds every threshold. */
  predicate Within(n: Nearest, threshold: real) {
    n.Finite? && n.meters <= threshold
  }

  /** The distance in metres between two points, as `_find_nearest_point_distance` measures it. */
  function MetersTo(d: GreatCircle, p: TrackPoint, q: TrackPoint): (r: real)
    ensures r >= 0.0
  {
    Haversine(d, Position(p), Position(q), Meters)
  }

  // ---------------------------------------------------------------------
  // Nearest point
  // ---------------------------------------------------------------------

  /** The running `min` over the distances from `q` to the points, starting at infinity. */
  function NearestOf(d: GreatCircle, q: TrackPoint, points: seq<TrackPoint>): (r: Nearest)
    ensures r.Infinite? <==> points == []
    ensures r.Finite? ==> forall j :: 0 <= j < |points| ==> r.meters <= MetersTo(d, q, points[j])
    ensures r.Finite? ==> exists j :: 0 <= j < |points| && r.meters == MetersTo(d, q, points[j])
  {
    if points == [] then Infinite
    else
      var front := points[..|points| - 1];
      var dist := MetersTo(d, q, points[|points| - 1]);
      var before := NearestOf(d, q, front);
      assert forall j :: 0 <= j < |front| ==> front[j] == points[j];
      if before.Infinite? || dist < before.meters then Finite(dist) else before
  }

  /** Some point of `points` lies within `threshold` metres of `q`. */
  ghost predicate Near(d: GreatCircle, q: TrackPoint, points: seq<TrackPoint>, threshold: real) {
    exists j :: 0 <= j < |points| && MetersTo(d, q, points[j]) <= threshold
  }

  /** The nearest-distance test passes exactly when some point is within the threshold. */
  lemma NearestWithinIffNear(d: GreatCircle, q: TrackPoint, points: seq<TrackPoint>, threshold: real)
    ensures Within(NearestOf(d, q, points), threshold) <==> Near(d, q, points, threshold)
  {
    var n := NearestOf(d, q, points);
    if Near(d, q, points, threshold) {
      var j :| 0 <= j < |points| && MetersTo(d, q, points[j]) <= threshold;
      assert n.meters <= MetersTo(d, q, points[j]);
    }
  }

  /** `_find_nearest_point_distance`. */
  method FindNearestPointDistance(d: GreatCircle, point: TrackPoint, track: Track) returns (minDist: Nearest)
    ensures minDist == NearestOf(d, point, track.points)
  {
    minDist := Infinite;
    var i := 0;
    while i < |track.points|
      invariant 0 <= i <= |track.points|
      invariant minDist == NearestOf(d, point, track.points[..i])
    {
      var dist := MetersTo(d, point, track.points[i]);
      assert track.points[..i + 1][..i] == track.points[..i];
      // min(inf, dist) is dist; min(m, dist) keeps m unless dist is smaller
      if minDist.Infinite? || dist < minDist.meters {
        minDist := Finite(dist);
      }
      i := i + 1;
    }
    assert track.points[..i] == track.points;
  }

  // ---------------------------------------------------------------------
  // Overlap length of one track
  // ---------------------------------------------------------------------

  /** The point halfway in latitude and in longitude, without elevation or time. */
  function Midpoint(p1: TrackPoint, p2: TrackPoint): (m: TrackPoint)
    ensures m.elevation.None? && m.time.None?
    ensures m.latitude - p1.latitude == p2.latitude - m.latitude
    ensures m.longitude - p1.longitude == p2.longitude - m.longitude
  {
    TrackPoint((p1.latitude + p2.latitude) / 2.0, (p1.longitude + p2.longitude) / 2.0, None, None)
  }

  /** Segment `i` (from point `i - 1` to point `i`) passes the midpoint test against `other`. */
  predicate Covered(d: GreatCircle, points: seq<TrackPoint>, i: nat, other: seq<TrackPoint>, threshold: real)
    requires 1 <= i < |points|
  {
    Within(NearestOf(d, Midpoint(points[i - 1], points[i]), other), threshold)
  }

  /** The summed length of the segments of `points` that pass the midpoint test. */
  function OverlapLength(d: GreatCircle, points: seq<TrackPoint>, other: seq<TrackPoint>, threshold: real): (r: real)
    ensures 0.0 <= r <= PathLength(d, points)
  {
    if |points| < 2 then 0.0
    else
      var n := |points|;
      var front := points[..n - 1];
      var rest := OverlapLength(d, front, other, threshold);
      if Covered(d, points, n - 1, other, threshold) then rest + DistanceKm(d, points[n - 2], points[n - 1])
      else rest
  }

  /** Covered segments are a prefix property: a segment of a prefix is covered as in the whole. */
  lemma CoveredPrefix(d: GreatCircle, points: seq<TrackPoint>, k: nat, i: nat, other: seq<TrackPoint>, threshold: real)
    requires 1 <= i < k <= |points|
    ensures Covered(d, points[..k], i, other, threshold) == Covered(d, points, i, other, threshold)
  {
    assert points[..k][i - 1] == points[i - 1] && points[..k][i] == points[i];
  }

  /** A higher threshold never loses overlap, as the test is `<= threshold`. */
  lemma {:induction false} OverlapMonotone(d: GreatCircle, points: seq<TrackPoint>, other: seq<TrackPoint>, low: real, high: real)
    requires low <= high
    ensures OverlapLength(d, points, other, low) <= OverlapLength(d, points, other, high)
  {
    if |points| >= 2 {
      OverlapMonotone(d, points[..|points| - 1], other, low, high);
    }
  }

  /** When every segment's midpoint is near the other track, the whole length overlaps. */
  lemma {:induction false} FullCoverage(d: GreatCircle, points: seq<TrackPoint>, other: seq<TrackPoint>, threshold: real)
    requires forall i :: 1 <= i < |points| ==> Near(d, Midpoint(points[i - 1], points[i]), other, threshold)
    ensures OverlapLength(d, points, other, threshold) == PathLength(d, points)
  {
    if |points| >= 2 {
      var n := |points|;
      var front := points[..n - 1];
      forall i | 1 <= i < |front|
        ensures Near(d, Midpoint(front[i - 1], front[i]), other, threshold)
      {
        assert front[i - 1] == points[i - 1] && front[i] == points[i];
      }
      FullCoverage(d, front, other, threshold);
      NearestWithinIffNear(d, Midpoint(points[n - 2], points[n - 1]), other, threshold);
    }
  }

  /** When no segment's midpoint is near the other track, nothing overlaps. */
  lemma {:induction false} NoCoverage(d: GreatCircle, points: seq<TrackPoint>, other: seq<TrackPoint>, threshold: real)
    requires forall i :: 1 <= i < |points| ==> !Near(d, Midpoint(points[i - 1], points[i]), other, threshold)
    ensures OverlapLength(d, points, other, threshold) == 0.0
  {
    if |points| >= 2 {
      var n := |points|;
      var front := points[..n - 1];
      forall i | 1 <= i < |front|
        ensures !Near(d, Midpoint(front[i - 1], front[i]), other, threshold)
      {
        assert front[i - 1] == points[i - 1] && front[i] == points[i];
      }
      NoCoverage(d, front, other, threshold);
      NearestWithinIffNear(d, Midpoint(points[n - 2], points[n - 1]), other, threshold);
    }
  }

  /** Every segment of `points` that passes the midpoint test has zero length. */
  ghost predicate CoveredLengthZero(d: GreatCircle, points: seq<TrackPoint>, other: seq<TrackPoint>, threshold: real) {
    forall i :: 1 <= i < |points| && Covered(d, points, i, other, threshold) ==>
      DistanceKm(d, points[i - 1], points[i]) == 0.0
  }

  /** The overlap is zero exactly when every covered segment has zero length. */
  lemma {:induction false} OverlapZeroIff(d: GreatCircle, points: seq<TrackPoint>, other: seq<TrackPoint>, threshold: real)
    ensures OverlapLength(d, points, other, threshold) == 0.0 <==> CoveredLengthZero(d, points, other, threshold)
  {
    if |points| >= 2 {
      OverlapZeroIff(d, points[..|points| - 1], other, threshold);
      CoveredLengthZeroSplit(d, points, other, threshold);
    }
  }

  lemma CoveredLengthZeroSplit(d: GreatCircle, points: seq<TrackPoint>, other: seq<TrackPoint>, threshold: real)
    requires |points| >= 2
    ensures var n := |points|;
      CoveredLengthZero(d, points, other, threshold) <==>
        && CoveredLengthZero(d, points[..n - 1], other, threshold)
        && (Covered(d, points, n - 1, other, threshold) ==> DistanceKm(d, points[n - 2], points[n - 1]) == 0.0)
  {
    var n := |points|;
    var front := points[..n - 1];
    if CoveredLengthZero(d, points, other, threshold) {
      forall i | 1 <= i < |front| && Covered(d, front, i, other, threshold)
        ensures DistanceKm(d, front[i - 1], front[i]) == 0.0
      {
        CoveredPrefix(d, points, n - 1, i, other, threshold);
      }
    }
    if CoveredLengthZero(d, front, other, threshold)
      && (Covered(d, points, n - 1, other, threshold) ==> DistanceKm(d, points[n - 2], points[n - 1]) == 0.0)
    {
      forall i | 1 <= i < n && Covered(d, points, i, other, threshold)
        ensures DistanceKm(d, points[i - 1], points[i]) == 0.0
      {
        if i < n - 1 {
          CoveredPrefix(d, points, n - 1, i, other, threshold);
        }
      }
    }
  }

  /** The loop of `analyze_overlap` for one track: its total length and its overlap length. */
  method AccumulateOverlap(d: GreatCircle, track: Track, other: Track, threshold: real) returns (totalKm: real, overlapKm: real)
    ensures totalKm == PathLength(d, track.points)
    ensures overlapKm == OverlapLength(d, track.points, other.points, threshold)
  {
    var points := track.points;
    totalKm, overlapKm := 0.0, 0.0;
    if |points| < 2 {
      // a track of fewer than two points has no segment
      return;
    }
    var i := 1;
    assert points[..1] == [points[0]];
    while i < |points|
      invariant 1 <= i <= |points|
      invariant totalKm == PathLength(d, points[..i])
      invariant overlapKm == OverlapLength(d, points[..i], other.points, threshold)
    {
      var p1 := points[i - 1];
      var p2 := points[i];
      var segmentDist := DistanceKm(d, p1, p2);
      totalKm := totalKm + segmentDist;
      var midPoint := Midpoint(p1, p2);
      var nearest := FindNearestPointDistance(d, midPoint, other);
      ghost var next := points[..i + 1];
      assert next[..i] == points[..i] && next[i - 1] == p1 && next[i] == p2;
      if nearest.Finite? && nearest.meters <= threshold {
        overlapKm := overlapKm + segmentDist;
      }
      i := i + 1;
    }
    assert points[..i] == points;
  }

  // ---------------------------------------------------------------------
  // The overlap result
  // ---------------------------------------------------------------------

  /** `part` as a percentage of a positive `total`; 0 when the total is not positive. */
  function Percent(part: real, total: real): (r: real)
    ensures total > 0.0 ==> r * total == part * 100.0
    ensures total <= 0.0 ==> r == 0.0
  {
    if total > 0.0 then part / total * 100.0 else 0.0
  }

  lemma PercentBounds(part: real, total: real)
    requires 0.0 <= part <= total
    ensures 0.0 <= Percent(part, total) <= 100.0
    ensures part == total && total > 0.0 ==> Percent(part, total) == 100.0
  {
    if total > 0.0 {
      assert part / total <= 1.0;
      if part == total {
        assert part / total == 1.0;
      }
    }
  }

  /** The result of `analyze_overlap`. */
  function Overlap(d: GreatCircle, track1: Track, track2: Track, threshold: real): OverlapResult {
    var total1 := PathLength(d, track1.points);
    var total2 := PathLength(d, track2.points);
    var overlap1 := OverlapLength(d, track1.points, track2.points, threshold);
    var overlap2 := OverlapLength(d, track2.points, track1.points, threshold);
    OverlapResult(
      overlap1, Percent(overlap1, total1),
      overlap2, Percent(overlap2, total2),
      (overlap1 + overlap2) / 2.0,
      total1 - overlap1, total2 - overlap2)
  }

  /** `analyze_overlap`. */
  method AnalyzeOverlap(d: GreatCircle, track1: Track, track2: Track, thresholdMeters: real := DefaultThresholdM)
    returns (r: OverlapResult)
    ensures r == Overlap(d, track1, track2, thresholdMeters)
  {
    var track1TotalKm, track1OverlapKm := AccumulateOverlap(d, track1, track2, thresholdMeters);
    var track2TotalKm, track2OverlapKm := AccumulateOverlap(d, track2, track1, thresholdMeters);
    var track1OverlapPct := if track1TotalKm > 0.0 then track1OverlapKm / track1TotalKm * 100.0 else 0.0;
    var track2OverlapPct := if track2TotalKm > 0.0 then track2OverlapKm / track2TotalKm * 100.0 else 0.0;
    var sharedKm := (track1OverlapKm + track2OverlapKm) / 2.0;
    r := OverlapResult(
      track1OverlapKm, track1OverlapPct,
      track2OverlapKm, track2OverlapPct,
      sharedKm,
      track1TotalKm - track1OverlapKm, track2TotalKm - track2OverlapKm);
  }

  /**
   * Each overlap lies between 0 and its track's length, so each unique
   * length is not negative; each percent lies in [0, 100] and is 0 when its
   * track has no length.
   */
  lemma OverlapBounds(d: GreatCircle, track1: Track, track2: Track, threshold: real)
    ensures var r := Overlap(d, track1, track2, threshold);
      && 0.0 <= r.track1OverlapKm <= PathLength(d, track1.points)
      && 0.0 <= r.track2OverlapKm <= PathLength(d, track2.points)
      && r.track1UniqueKm >= 0.0 && r.track2UniqueKm >= 0.0
      && 0.0 <= r.track1OverlapPercent <= 100.0
      && 0.0 <= r.track2OverlapPercent <= 100.0
      && (PathLength(d, track1.points) == 0.0 ==> r.track1OverlapPercent == 0.0)
      && (PathLength(d, track2.points) == 0.0 ==> r.track2OverlapPercent == 0.0)
  {
    PercentBounds(OverlapLength(d, track1.points, track2.points, threshold), PathLength(d, track1.points));
    PercentBounds(OverlapLength(d, track2.points, track1.points, threshold), PathLength(d, track2.points));
  }

  /** A track of fewer than two points has no length, no overlap and no unique length. */
  lemma ShortTrack(d: GreatCircle, track1: Track, track2: Track, threshold: real)
    requires |track1.points| < 2
    ensures var r := Overlap(d, track1, track2, threshold);
      r.track1OverlapKm == 0.0 && r.track1OverlapPercent == 0.0 && r.track1UniqueKm == 0.0
  {
  }

  /** The result with the roles of the two tracks exchanged. */
  function Swapped(r: OverlapResult): OverlapResult {
    OverlapResult(
      r.track2OverlapKm, r.track2OverlapPercent,
      r.track1OverlapKm, r.track1OverlapPercent,
      r.sharedDistanceKm,
      r.track2UniqueKm, r.track1UniqueKm)
  }

  /** Exchanging the tracks exchanges every per-track field and keeps the shared distance. */
  lemma OverlapSwap(d: GreatCircle, track1: Track, track2: Track, threshold: real)
    ensures Overlap(d, track2, track1, threshold) == Swapped(Overlap(d, track1, track2, threshold))
  {
  }

  /** A higher threshold never decreases either overlap length or the shared distance. */
  lemma ThresholdMonotone(d: GreatCircle, track1: Track, track2: Track, low: real, high: real)
    requires low <= high
    ensures var a := Overlap(d, track1, track2, low);
      var b := Overlap(d, track1, track2, high);
      a.track1OverlapKm <= b.track1OverlapKm && a.track2OverlapKm <= b.track2OverlapKm
      && a.sharedDistanceKm <= b.sharedDistanceKm
  {
    OverlapMonotone(d, track1.points, track2.points, low, high);
    OverlapMonotone(d, track2.points, track1.points, low, high);
  }

  /** Every midpoint of track 1 passes the test: track 1 overlaps fully and has no unique length. */
  lemma FullOverlap(d: GreatCircle, track1: Track, track2: Track, threshold: real)
    requires forall i :: 1 <= i < |track1.points| ==>
      Near(d, Midpoint(track1.points[i - 1], track1.points[i]), track2.points, threshold)
    ensures var r := Overlap(d, track1, track2, threshold);
      && r.track1OverlapKm == PathLength(d, track1.points)
      && r.track1UniqueKm == 0.0
      && (PathLength(d, track1.points) > 0.0 ==> r.track1OverlapPercent == 100.0)
  {
    FullCoverage(d, track1.points, track2.points, threshold);
    PercentBounds(PathLength(d, track1.points), PathLength(d, track1.points));
  }

  /** No midpoint of either track passes the test: nothing overlaps and nothing is shared. */
  lemma NoOverlap(d: GreatCircle, track1: Track, track2: Track, threshold: real)
    requires forall i :: 1 <= i < |track1.points| ==>
      !Near(d, Midpoint(track1.points[i - 1], track1.points[i]), track2.points, threshold)
    requires forall i :: 1 <= i < |track2.points| ==>
      !Near(d, Midpoint(track2.points[i - 1], track2.points[i]), track1.points, threshold)
    ensures var r := Overlap(d, track1, track2, threshold);
      && r.track1OverlapPercent == 0.0 && r.track2OverlapPercent == 0.0
      && r.sharedDistanceKm == 0.0
  {
    NoCoverage(d, track1.points, track2.points, threshold);
    NoCoverage(d, track2.points, track1.points, threshold);
  }

  /**
   * The shared distance is the mean of the two overlaps, so it lies between
   * them; it is 0 exactly when neither track has a covered segment of
   * positive length.
   */
  lemma SharedDistance(d: GreatCircle, track1: Track, track2: Track, threshold: real)
    ensures var r := Overlap(d, track1, track2, threshold);
      && r.sharedDistanceKm * 2.0 == r.track1OverlapKm + r.track2OverlapKm
      && RealMin(r.track1OverlapKm, r.track2OverlapKm) <= r.sharedDistanceKm
      && r.sharedDistanceKm <= RealMax(r.track1OverlapKm, r.track2OverlapKm)
      && (r.sharedDistanceKm == 0.0 <==>
        CoveredLengthZero(d, track1.points, track2.points, threshold)
        && CoveredLengthZero(d, track2.points, track1.points, threshold))
  {
    var a := OverlapLength(d, track1.points, track2.points, threshold);
    var b := OverlapLength(d, track2.points, track1.points, threshold);
    MeanBetween(a, b);
    OverlapZeroIff(d, track1.points, track2.points, threshold);
    OverlapZeroIff(d, track2.points, track1.points, threshold);
  }

  lemma MeanBetween(a: real, b: real)
    requires a >= 0.0 && b >= 0.0
    ensures RealMin(a, b) <= (a + b) / 2.0 <= RealMax(a, b)
    ensures (a + b) / 2.0 == 0.0 <==> a == 0.0 && b == 0.0
  {
  }

  // ---------------------------------------------------------------------
  // An identical copy need not overlap
  // ---------------------------------------------------------------------

  /**
   * The latitude and longitude differences, added, at 111.19 km per degree.
   * This is a stand-in for the great-circle distance that is close only
   * along the equator: on the equatorial track below it agrees with the
   * haversine formula to within millimetres.
   */
  function EquatorialKm(a: LatLon, b: LatLon): (r: real)
    ensures r >= 0.0
  {
    (Abs(a.latitude - b.latitude) + Abs(a.longitude - b.longitude)) * 111.19
  }

  const Equatorial: GreatCircle := (a: LatLon, b: LatLon) => EquatorialKm(a, b)

  function EquatorTrack(): Track {
    Track("A", [P0, P1, P2], "a.gpx")
  }

  /**
   * Three points 0.001 degrees apart on the equator (about 222 m in all):
   * each midpoint is about 55.6 m from the nearest point, so against an
   * identical copy at the default 50 m threshold no segment overlaps.
   */
  lemma IdenticalCopyWithoutOverlap()
    ensures var r := Overlap(Equatorial, EquatorTrack(), EquatorTrack(), DefaultThresholdM);
      && PathLength(Equatorial, EquatorTrack().points) > 0.2
      && r.track1OverlapPercent == 0.0 && r.track1UniqueKm == PathLength(Equatorial, EquatorTrack().points)
  {
    assert EquatorTrack().points == [P0, P1, P2];
    EquatorNoOverlap();
    EquatorLength();
  }

  lemma EquatorNoOverlap()
    ensures OverlapLength(Equatorial, [P0, P1, P2], [P0, P1, P2], DefaultThresholdM) == 0.0
  {
    var t := [P0, P1, P2];
    assert !Covered(Equatorial, [P0, P1], 1, t, DefaultThresholdM) by {
      NearestFirstMidpoint();
    }
    assert OverlapLength(Equatorial, [P0, P1], t, DefaultThresholdM) == 0.0 by {
      assert [P0, P1][..1] == [P0];
    }
    assert !Covered(Equatorial, t, 2, t, DefaultThresholdM) by {
      NearestSecondMidpoint();
    }
    assert t[..2] == [P0, P1];
  }

  const P0: TrackPoint := TrackPoint(0.0, 0.0, None, None)
  const P1: TrackPoint := TrackPoint(0.0, 0.001, None, None)
  const P2: TrackPoint := TrackPoint(0.0, 0.002, None, None)

  lemma NearestFirstMidpoint()
    ensures NearestOf(Equatorial, Midpoint(P0, P1), [P0, P1, P2]) == Finite(55.595)
  {
    var m := Midpoint(P0, P1);
    assert m == TrackPoint(0.0, 0.0005, None, None);
    var a := MetersTo(Equatorial, m, P0);
    assert a == 55.595;
    assert MetersTo(Equatorial, m, P1) == 55.595;
    assert MetersTo(Equatorial, m, P2) == 166.785;
    assert [P0, P1, P2][..2] == [P0, P1] && [P0, P1][..1] == [P0] && [P0][..0] == [];
  }

  lemma NearestSecondMidpoint()
    ensures NearestOf(Equatorial, Midpoint(P1, P2), [P0, P1, P2]) == Finite(55.595)
  {
    var m := Midpoint(P1, P2);
    assert m == TrackPoint(0.0, 0.0015, None, None);
    assert MetersTo(Equatorial, m, P0) == 166.785;
    assert MetersTo(Equatorial, m, P1) == 55.595;
    assert MetersTo(Equatorial, m, P2) == 55.595;
    assert [P0, P1, P2][..2] == [P0, P1] && [P0, P1][..1] == [P0] && [P0][..0] == [];
  }

  lemma EquatorLength()
    ensures PathLength(Equatorial, [P0, P1, P2]) == 0.22238
  {
    assert DistanceKm(Equatorial, P0, P1) == 0.11119 by {
      assert EquatorialKm(Position(P0), Position(P1)) == 0.11119;
    }
    assert DistanceKm(Equatorial, P1, P2) == 0.11119 by {
      assert EquatorialKm(Position(P1), Position(P2)) == 0.11119;
    }
    assert PathLength(Equatorial, [P0, P1]) == 0.11119 by {
      assert [P0, P1][..1] == [P0];
    }
    assert [P0, P1, P2][..2] == [P0, P1];
  }
}

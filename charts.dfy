/**
 * The speed profile behind the speed chart (`_calculate_segment_speeds` of
 * src/track_analytics/charts.py): one speed and one cumulative distance per
 * pair of consecutive timestamped points, in input order, skipping pairs
 * whose time does not advance and replacing an implausible speed by the
 * previous one. The plotting itself is not part of this model.
 */
module Charts {
  import opened GpxParser
  import opened Geo
  import opened Metrics

  /** The two parallel lists that `_calculate_segment_speeds` returns. */
  datatype Profile = Profile(speeds: seq<real>, distances: seq<real>)

  /** `distances[-1]` of the list that starts with 0.0. */
  function LastDistance(distances: seq<real>): real {
    if distances == [] then 0.0 else distances[|distances| - 1]
  }

  function SegmentKm(d: GreatCircle, ts: seq<Timed>, i: nat): (r: real)
    requires 1 <= i < |ts|
    ensures r >= 0.0
  {
    DistanceKm(d, ts[i - 1].point, ts[i].point)
  }

  /** The speed of a pair whose time advances, before outlier replacement. */
  function StepSpeed(d: GreatCircle, a: Timed, b: Timed): (r: real)
    requires b.time - a.time > 0
    ensures r >= 0.0
  {
    NonNegativeRate(DistanceKm(d, a.point, b.point), b.time - a.time);
    SegmentSpeedKmh(DistanceKm(d, a.point, b.point), b.time - a.time)
  }

  function RawSpeed(d: GreatCircle, ts: seq<Timed>, i: nat): (r: real)
    requires 1 <= i < |ts| && Advances(ts, i)
  {
    StepSpeed(d, ts[i - 1], ts[i])
  }

  /** The indices of the kept pairs, in order: exactly those whose time advances. */
  function KeptPairs(ts: seq<Timed>): (ks: seq<nat>)
    ensures forall k :: 0 <= k < |ks| ==> 1 <= ks[k] < |ts| && Advances(ts, ks[k])
    ensures forall i :: 1 <= i < |ts| && Advances(ts, i) ==> i in ks
    ensures forall k, l :: 0 <= k < l < |ks| ==> ks[k] < ks[l]
  {
    if |ts| < 2 then []
    else
      var n := |ts|;
      var front := ts[..n - 1];
      assert forall i :: 0 <= i < n - 1 ==> front[i] == ts[i];
      assert forall i :: 1 <= i < n - 1 ==> Advances(front, i) == Advances(ts, i);
      KeptPairs(front) + if Advances(ts, n - 1) then [n - 1] else []
  }

  /** The speed recorded for a kept pair: an outlier takes the previous speed, or 0 without one. */
  function KeptSpeed(raw: real, speeds: seq<real>): real {
    if raw > MaxPlausibleSpeedKmh then (if speeds == [] then 0.0 else speeds[|speeds| - 1]) else raw
  }

  /** One iteration of the loop, on the pair `(a, b)`. */
  function ProfileStep(d: GreatCircle, p: Profile, a: Timed, b: Timed): Profile {
    if b.time - a.time <= 0 then p
    else
      var speed := KeptSpeed(StepSpeed(d, a, b), p.speeds);
      Profile(p.speeds + [speed], p.distances + [LastDistance(p.distances) + DistanceKm(d, a.point, b.point)])
  }

  /** The lists after the pairs of `ts` (the leading 0.0 of `distances` left off). */
  function ProfileOf(d: GreatCircle, ts: seq<Timed>): (p: Profile)
  {
    if |ts| < 2 then Profile([], [])
    else ProfileStep(d, ProfileOf(d, ts[..|ts| - 1]), ts[|ts| - 2], ts[|ts| - 1])
  }

  /** One entry per kept pair. */
  lemma {:induction false} ProfileLength(d: GreatCircle, ts: seq<Timed>)
    ensures |ProfileOf(d, ts).speeds| == |ProfileOf(d, ts).distances| == |KeptPairs(ts)|
  {
    if |ts| >= 2 {
      ProfileLength(d, ts[..|ts| - 1]);
      assert ts[..|ts| - 1][|ts| - 2] == ts[|ts| - 2];
    }
  }

  /** Every speed lies in [0, 200]: a raw speed above 200 is replaced by an earlier one, or 0. */
  lemma {:induction false} SpeedsBounded(d: GreatCircle, ts: seq<Timed>)
    ensures forall k :: 0 <= k < |ProfileOf(d, ts).speeds| ==> 0.0 <= ProfileOf(d, ts).speeds[k] <= MaxPlausibleSpeedKmh
  {
    if |ts| >= 2 {
      SpeedsBounded(d, ts[..|ts| - 1]);
    }
  }

  /** The distances are not negative and never decrease. */
  lemma {:induction false} DistancesCumulative(d: GreatCircle, ts: seq<Timed>)
    ensures forall k :: 0 <= k < |ProfileOf(d, ts).distances| ==> ProfileOf(d, ts).distances[k] >= 0.0
    ensures forall k, l :: 0 <= k <= l < |ProfileOf(d, ts).distances| ==>
      ProfileOf(d, ts).distances[k] <= ProfileOf(d, ts).distances[l]
  {
    if |ts| >= 2 {
      var p := ProfileOf(d, ts[..|ts| - 1]);
      DistancesCumulative(d, ts[..|ts| - 1]);
      var a, b := ts[|ts| - 2], ts[|ts| - 1];
      if b.time - a.time > 0 {
        var ds := p.distances + [LastDistance(p.distances) + DistanceKm(d, a.point, b.point)];
        assert ProfileOf(d, ts).distances == ds;
        forall k | 0 <= k < |p.distances|
          ensures p.distances[k] <= LastDistance(p.distances)
        {
          assert p.distances[k] <= p.distances[|p.distances| - 1];
        }
      }
    }
  }

  /**
   * `_calculate_segment_speeds` as a function of the track's points: the
   * timed points are taken in input order, unsorted (`Metrics.TimedPointsInOrder`).
   */
  function SegmentSpeeds(d: GreatCircle, points: seq<TrackPoint>): Profile {
    ProfileOf(d, TimedPoints(points))
  }

  /** Taking one more timed point only appends to the lists. */
  lemma ProfilePrefix(d: GreatCircle, ts: seq<Timed>)
    requires |ts| >= 2
    ensures var p := ProfileOf(d, ts[..|ts| - 1]);
      var q := ProfileOf(d, ts);
      && p.speeds <= q.speeds && p.distances <= q.distances
      && KeptPairs(ts[..|ts| - 1]) <= KeptPairs(ts)
  {
  }

  /**
   * Entry `k` of the lists belongs to the `k`-th kept pair: its speed is the
   * pair's speed, or after an outlier the previous entry's speed (0 for the
   * first); its distance is the previous entry's distance (0 for the first)
   * plus the pair's length.
   */
  lemma {:induction false} ProfileEntries(d: GreatCircle, ts: seq<Timed>, k: nat)
    requires k < |KeptPairs(ts)|
    ensures k < |ProfileOf(d, ts).speeds| && k < |ProfileOf(d, ts).distances|
    ensures var p := ProfileOf(d, ts);
      var i := KeptPairs(ts)[k];
      && p.speeds[k] == KeptSpeed(RawSpeed(d, ts, i), p.speeds[..k])
      && p.distances[k] == LastDistance(p.distances[..k]) + SegmentKm(d, ts, i)
  {
    ProfileLength(d, ts);
    var n := |ts|;
    var front := ts[..n - 1];
    ProfileLength(d, front);
    var p := ProfileOf(d, front);
    var q := ProfileOf(d, ts);
    var kf := KeptPairs(front);
    assert ts[n - 2] == front[n - 2];
    if k < |kf| {
      ProfileEntries(d, front, k);
      var i := kf[k];
      assert KeptPairs(ts)[k] == i;
      FrontPair(ts, i);
      assert q.speeds[..k] == p.speeds[..k] && q.speeds[k] == p.speeds[k];
      assert q.distances[..k] == p.distances[..k] && q.distances[k] == p.distances[k];
    } else {
      assert KeptPairs(ts) == kf + [n - 1];
      assert q.speeds[..k] == p.speeds && q.distances[..k] == p.distances;
    }
  }

  /** The sum of the lengths of the kept pairs. */
  function KeptLength(d: GreatCircle, ts: seq<Timed>): (r: real)
    ensures r >= 0.0
  {
    if |ts| < 2 then 0.0
    else
      var n := |ts|;
      KeptLength(d, ts[..n - 1]) + if Advances(ts, n - 1) then SegmentKm(d, ts, n - 1) else 0.0
  }

  /** The last distance is the summed length of the kept pairs. */
  lemma {:induction false} LastDistanceIsKeptLength(d: GreatCircle, ts: seq<Timed>)
    ensures LastDistance(ProfileOf(d, ts).distances) == KeptLength(d, ts)
  {
    if |ts| >= 2 {
      LastDistanceIsKeptLength(d, ts[..|ts| - 1]);
      assert ts[..|ts| - 1][|ts| - 2] == ts[|ts| - 2];
    }
  }

  /** The points of the timed pairs, in order. */
  function Points(ts: seq<Timed>): (ps: seq<TrackPoint>)
    ensures |ps| == |ts|
  {
    if ts == [] then [] else Points(ts[..|ts| - 1]) + [ts[|ts| - 1].point]
  }

  /** When every pair advances in time, every pair is kept and the last distance is the path length. */
  lemma AllKept(d: GreatCircle, ts: seq<Timed>)
    requires forall i :: 1 <= i < |ts| ==> Advances(ts, i)
    ensures |ProfileOf(d, ts).speeds| == if |ts| < 2 then 0 else |ts| - 1
    ensures LastDistance(ProfileOf(d, ts).distances) == PathLength(d, Points(ts))
  {
    ProfileLength(d, ts);
    AllPairsKept(ts);
    LastDistanceIsKeptLength(d, ts);
    AllKeptLength(d, ts);
  }

  lemma {:induction false} AllPairsKept(ts: seq<Timed>)
    requires forall i :: 1 <= i < |ts| ==> Advances(ts, i)
    ensures |KeptPairs(ts)| == if |ts| < 2 then 0 else |ts| - 1
  {
    if |ts| >= 2 {
      var front := ts[..|ts| - 1];
      forall i | 1 <= i < |front|
        ensures Advances(front, i)
      {
        FrontPair(ts, i);
      }
      AllPairsKept(front);
    }
  }

  lemma {:induction false} AllKeptLength(d: GreatCircle, ts: seq<Timed>)
    requires forall i :: 1 <= i < |ts| ==> Advances(ts, i)
    ensures KeptLength(d, ts) == PathLength(d, Points(ts))
  {
    if |ts| >= 2 {
      var n := |ts|;
      var front := ts[..n - 1];
      forall i | 1 <= i < |front|
        ensures Advances(front, i)
      {
        FrontPair(ts, i);
      }
      AllKeptLength(d, front);
      assert Points(ts)[..n - 1] == Points(front);
      PointsAt(front, n - 2);
      assert Points(ts)[n - 2] == front[n - 2].point == ts[n - 2].point;
    }
  }

  lemma {:induction false} PointsAt(ts: seq<Timed>, j: nat)
    requires j < |ts|
    ensures Points(ts)[j] == ts[j].point
  {
    if j < |ts| - 1 {
      PointsAt(ts[..|ts| - 1], j);
    }
  }

  /** `_calculate_segment_speeds`. */
  method CalculateSegmentSpeeds(d: GreatCircle, track: Track) returns (speeds: seq<real>, distances: seq<real>)
    ensures Profile(speeds, distances) == SegmentSpeeds(d, track.points)
    ensures |TimedPoints(track.points)| < 2 ==> speeds == [] && distances == []
  {
    speeds := [];
    var cumulative := [0.0];
    var timedPoints := TimedPoints(track.points);
    if |timedPoints| < 2 {
      return [], [];
    }
    var i := 1;
    assert timedPoints[..1] == [timedPoints[0]];
    while i < |timedPoints|
      invariant 1 <= i <= |timedPoints|
      invariant speeds == ProfileOf(d, timedPoints[..i]).speeds
      invariant cumulative == [0.0] + ProfileOf(d, timedPoints[..i]).distances
    {
      var p1, t1 := timedPoints[i - 1].point, timedPoints[i - 1].time;
      var p2, t2 := timedPoints[i].point, timedPoints[i].time;
      ghost var next := timedPoints[..i + 1];
      ghost var before := ProfileOf(d, timedPoints[..i]);
      assert next[..i] == timedPoints[..i] && next[i - 1] == timedPoints[i - 1] && next[i] == timedPoints[i];
      assert ProfileOf(d, next) == ProfileStep(d, before, timedPoints[i - 1], timedPoints[i]);
      var segmentTime := t2 - t1;
      if segmentTime <= 0 {
        i := i + 1;
        continue;
      }
      var segmentDist := DistanceKm(d, p1, p2);
      var speed := segmentDist / segmentTime as real * 3600.0;
      if speed > 200.0 {
        speed := if |speeds| > 0 then speeds[|speeds| - 1] else 0.0;
      }
      assert cumulative[|cumulative| - 1] == LastDistance(before.distances);
      speeds := speeds + [speed];
      cumulative := cumulative + [cumulative[|cumulative| - 1] + segmentDist];
      i := i + 1;
    }
    assert timedPoints[..i] == timedPoints;
    distances := cumulative[1..];
  }
}

/**
 * The great-circle distance that every computation is built on. The
 * `haversine` library is foreign floating-point code; here it is an
 * arbitrary non-negative function of two positions, in kilometres, passed
 * to every operation as a parameter.
 */
module Geo {
  import opened GpxParser

  /** A geographic position in degrees. */
  datatype LatLon = LatLon(latitude: real, longitude: real)

  /** A great-circle distance in kilometres; all that is known of it is that it is not negative. */
  type GreatCircle = f: (LatLon, LatLon) -> real | forall a: LatLon, b: LatLon :: f(a, b) >= 0.0
    witness (a: LatLon, b: LatLon) => 0.0

  /** The unit argument of `haversine`. */
  datatype Unit = Kilometers | Meters

  function PerKilometer(unit: Unit): real {
    match unit
    case Kilometers => 1.0
    case Meters => 1000.0
  }

  /** `haversine(a, b, unit=unit)`. */
  function Haversine(d: GreatCircle, a: LatLon, b: LatLon, unit: Unit): (r: real)
    ensures r >= 0.0
  {
    d(a, b) * PerKilometer(unit)
  }

  /** The `(latitude, longitude)` pair of a point. */
  function Position(p: TrackPoint): LatLon {
    LatLon(p.latitude, p.longitude)
  }

  /** `_point_distance_km` of metrics.py and `_segment_distance_km` of overlap.py. */
  function DistanceKm(d: GreatCircle, p: TrackPoint, q: TrackPoint): (r: real)
    ensures r >= 0.0
  {
    Haversine(d, Position(p), Position(q), Kilometers)
  }

  /** Python's `abs` on floats. */
  function Abs(x: real): (r: real)
    ensures r >= 0.0
  {
    if x < 0.0 then -x else x
  }

  /** Python's `max(a, b)` on floats. */
  function RealMax(a: real, b: real): real {
    if b > a then b else a
  }

  /** Python's `min(a, b)` on floats. */
  function RealMin(a: real, b: real): real {
    if a <= b then a else b
  }
}

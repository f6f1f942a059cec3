/**
 * Track points and tracks, and the point extraction that turns an
 * already-parsed GPX document into one Track
 * (src/track_analytics/gpx_parser.py).
 */
module GpxParser {
  import opened Wrappers

  /** A point in time, as whole seconds on an arbitrary but fixed scale. */
  type Instant = int

  /** One recorded position, with the optional elevation (m) and time. */
  datatype TrackPoint = TrackPoint(
    latitude: real,
    longitude: real,
    elevation: Option<real>,
    time: Option<Instant>)

  /** A named route: its points in recording order and the file it came from. */
  datatype Track = Track(name: string, points: seq<TrackPoint>, sourceFile: string)

  /** `Track.has_elevation`: some point carries an elevation. */
  predicate HasElevation(points: seq<TrackPoint>)
    ensures HasElevation(points) <==> exists i :: 0 <= i < |points| && points[i].elevation.Some?
  {
    if points == [] then false
    else points[0].elevation.Some? || HasElevation(points[1..])
  }

  /** `Track.has_timestamps`: some point carries a time. */
  predicate HasTimestamps(points: seq<TrackPoint>)
    ensures HasTimestamps(points) <==> exists i :: 0 <= i < |points| && points[i].time.Some?
  {
    if points == [] then false
    else points[0].time.Some? || HasTimestamps(points[1..])
  }

  // ---------------------------------------------------------------------
  // The already-parsed GPX document (what the GPX reader hands back).
  // ---------------------------------------------------------------------

  datatype GpxPoint = GpxPoint(
    latitude: real,
    longitude: real,
    elevation: Option<real>,
    time: Option<Instant>)

  datatype GpxSegment = GpxSegment(points: seq<GpxPoint>)

  datatype GpxTrack = GpxTrack(name: Option<string>, segments: seq<GpxSegment>)

  datatype GpxRoute = GpxRoute(name: Option<string>, points: seq<GpxPoint>)

  datatype Gpx = Gpx(tracks: seq<GpxTrack>, routes: seq<GpxRoute>)

  /** The path of the file that was read, and its stem (name without suffix). */
  datatype FilePath = FilePath(path: string, stem: string)

  /** The `ValueError` raised when a file holds no point at all. */
  datatype ParseError = NoTrackPoints(file: string)

  /** Python truthiness of an optional name: present and not empty. */
  predicate IsNamed(name: Option<string>) {
    name.Some? && name.value != ""
  }

  /** The copy of one parsed point made by `parse_gpx`. */
  function ToTrackPoint(p: GpxPoint): TrackPoint {
    TrackPoint(p.latitude, p.longitude, p.elevation, p.time)
  }

  /** Every point converted, in order. */
  function Converted(ps: seq<GpxPoint>): (r: seq<TrackPoint>)
    ensures |r| == |ps|
  {
    if ps == [] then [] else Converted(ps[..|ps| - 1]) + [ToTrackPoint(ps[|ps| - 1])]
  }

  /** Each produced point copies position, elevation and time of its source point. */
  lemma {:induction false} ConvertedCopies(ps: seq<GpxPoint>)
    ensures |Converted(ps)| == |ps|
    ensures forall k :: 0 <= k < |ps| ==>
      var t := Converted(ps)[k];
      t.latitude == ps[k].latitude && t.longitude == ps[k].longitude &&
      t.elevation == ps[k].elevation && t.time == ps[k].time
  {
    if ps != [] {
      ConvertedCopies(ps[..|ps| - 1]);
    }
  }

  /** The points of the segments, segment after segment. */
  function SegmentsPoints(segments: seq<GpxSegment>): seq<GpxPoint> {
    if segments == [] then []
    else SegmentsPoints(segments[..|segments| - 1]) + segments[|segments| - 1].points
  }

  /** The points of all segments of the tracks, track after track. */
  function TracksPoints(tracks: seq<GpxTrack>): seq<GpxPoint> {
    if tracks == [] then []
    else TracksPoints(tracks[..|tracks| - 1]) + SegmentsPoints(tracks[|tracks| - 1].segments)
  }

  /** The points of the routes, route after route. */
  function RoutesPoints(routes: seq<GpxRoute>): seq<GpxPoint> {
    if routes == [] then []
    else RoutesPoints(routes[..|routes| - 1]) + routes[|routes| - 1].points
  }

  /** All points of the document: track points first, then route points. */
  function SourcePoints(gpx: Gpx): seq<GpxPoint> {
    TracksPoints(gpx.tracks) + RoutesPoints(gpx.routes)
  }

  /** The number of points of the segments. */
  function SegmentsCount(segments: seq<GpxSegment>): nat {
    if segments == [] then 0
    else SegmentsCount(segments[..|segments| - 1]) + |segments[|segments| - 1].points|
  }

  function TracksCount(tracks: seq<GpxTrack>): nat {
    if tracks == [] then 0
    else TracksCount(tracks[..|tracks| - 1]) + SegmentsCount(tracks[|tracks| - 1].segments)
  }

  function RoutesCount(routes: seq<GpxRoute>): nat {
    if routes == [] then 0
    else RoutesCount(routes[..|routes| - 1]) + |routes[|routes| - 1].points|
  }

  /** The number of points of all track segments and all routes. */
  function PointCount(gpx: Gpx): nat {
    TracksCount(gpx.tracks) + RoutesCount(gpx.routes)
  }

  lemma {:induction false} SegmentsPointsLength(segments: seq<GpxSegment>)
    ensures |SegmentsPoints(segments)| == SegmentsCount(segments)
  {
    if segments != [] {
      SegmentsPointsLength(segments[..|segments| - 1]);
    }
  }

  lemma {:induction false} TracksPointsLength(tracks: seq<GpxTrack>)
    ensures |TracksPoints(tracks)| == TracksCount(tracks)
  {
    if tracks != [] {
      TracksPointsLength(tracks[..|tracks| - 1]);
      SegmentsPointsLength(tracks[|tracks| - 1].segments);
    }
  }

  lemma {:induction false} RoutesPointsLength(routes: seq<GpxRoute>)
    ensures |RoutesPoints(routes)| == RoutesCount(routes)
  {
    if routes != [] {
      RoutesPointsLength(routes[..|routes| - 1]);
    }
  }

  /** The extracted point list is as long as all segments and routes together. */
  lemma SourcePointsLength(gpx: Gpx)
    ensures |Converted(SourcePoints(gpx))| == PointCount(gpx)
  {
    TracksPointsLength(gpx.tracks);
    RoutesPointsLength(gpx.routes);
  }

  /** The names of the tracks, then those of the routes, in document order. */
  function TrackNames(tracks: seq<GpxTrack>): seq<Option<string>> {
    if tracks == [] then [] else TrackNames(tracks[..|tracks| - 1]) + [tracks[|tracks| - 1].name]
  }

  function RouteNames(routes: seq<GpxRoute>): seq<Option<string>> {
    if routes == [] then [] else RouteNames(routes[..|routes| - 1]) + [routes[|routes| - 1].name]
  }

  /** The name kept after reassigning it at every non-empty name, starting from `default`. */
  function LastNamed(default: string, names: seq<Option<string>>): (r: string)
    ensures r == default || exists k :: 0 <= k < |names| && IsNamed(names[k]) && r == names[k].value
  {
    if names == [] then default
    else if IsNamed(names[|names| - 1]) then names[|names| - 1].value
    else
      var front := names[..|names| - 1];
      assert forall k :: 0 <= k < |front| ==> front[k] == names[k];
      LastNamed(default, front)
  }

  /** With no non-empty name, the file stem (`default`) is kept. */
  lemma {:induction false} LastNamedDefault(default: string, names: seq<Option<string>>)
    requires forall k :: 0 <= k < |names| ==> !IsNamed(names[k])
    ensures LastNamed(default, names) == default
  {
    if names != [] {
      LastNamedDefault(default, names[..|names| - 1]);
    }
  }

  /** Otherwise the non-empty name that no later non-empty name follows wins. */
  lemma {:induction false} LastNamedPicksLast(default: string, names: seq<Option<string>>, k: nat)
    requires k < |names| && IsNamed(names[k])
    requires forall j :: k < j < |names| ==> !IsNamed(names[j])
    ensures LastNamed(default, names) == names[k].value
  {
    if k < |names| - 1 {
      LastNamedPicksLast(default, names[..|names| - 1], k);
    }
  }

  /** The name `parse_gpx` gives the track. */
  function ChosenName(gpx: Gpx, stem: string): string {
    LastNamed(stem, TrackNames(gpx.tracks) + RouteNames(gpx.routes))
  }

  /**
   * `parse_gpx` after the file has been read and parsed: copies every point
   * of every track segment, then of every route, keeps the last non-empty
   * name, and fails when no point was found.
   */
  method ParseGpx(gpx: Gpx, file: FilePath) returns (r: Result<Track, ParseError>)
    ensures r.Failure? <==> SourcePoints(gpx) == []
    ensures r.Failure? ==> r.error == NoTrackPoints(file.path)
    ensures r.Success? ==>
      r.value == Track(ChosenName(gpx, file.stem), Converted(SourcePoints(gpx)), file.path)
    ensures r.Success? ==> |r.value.points| >= 1
  {
    var points, trackName := CopyTracks(gpx.tracks, file.stem);
    points, trackName := CopyRoutes(points, TracksPoints(gpx.tracks), trackName,
                                    file.stem, TrackNames(gpx.tracks), gpx.routes);
    if points == [] {
      r := Failure(NoTrackPoints(file.path));
    } else {
      r := Success(Track(trackName, points, file.path));
    }
  }

  /** The loop over `gpx.tracks`: copies their points and keeps the last non-empty name. */
  method CopyTracks(tracks: seq<GpxTrack>, stem: string)
    returns (points: seq<TrackPoint>, trackName: string)
    ensures points == Converted(TracksPoints(tracks))
    ensures trackName == LastNamed(stem, TrackNames(tracks))
  {
    points := [];
    trackName := stem;
    var i := 0;
    while i < |tracks|
      invariant 0 <= i <= |tracks|
      invariant points == Converted(TracksPoints(tracks[..i]))
      invariant trackName == LastNamed(stem, TrackNames(tracks[..i]))
    {
      var track := tracks[i];
      assert tracks[..i + 1][..i] == tracks[..i];
      if IsNamed(track.name) {
        trackName := track.name.value;
      }
      points := CopySegments(points, TracksPoints(tracks[..i]), track.segments);
      i := i + 1;
    }
    assert tracks[..i] == tracks;
  }

  /** The loop over `gpx.routes`, continuing from the points and name the tracks gave. */
  method CopyRoutes(points0: seq<TrackPoint>, ghost read: seq<GpxPoint>, name0: string,
                    ghost stem: string, ghost names: seq<Option<string>>, routes: seq<GpxRoute>)
    returns (points: seq<TrackPoint>, trackName: string)
    requires points0 == Converted(read) && name0 == LastNamed(stem, names)
    ensures points == Converted(read + RoutesPoints(routes))
    ensures trackName == LastNamed(stem, names + RouteNames(routes))
  {
    points, trackName := points0, name0;
    ghost var done, seen := read, names;
    var i := 0;
    assert routes[..0] == [];
    while i < |routes|
      invariant 0 <= i <= |routes|
      invariant done == read + RoutesPoints(routes[..i]) && points == Converted(done)
      invariant seen == names + RouteNames(routes[..i]) && trackName == LastNamed(stem, seen)
    {
      var route := routes[i];
      RoutesStep(read, names, routes, i);
      LastNamedStep(stem, seen, route.name);
      if IsNamed(route.name) {
        trackName := route.name.value;
      }
      points := CopyPoints(points, done, route.points);
      done, seen := done + route.points, seen + [route.name];
      i := i + 1;
    }
    assert routes[..i] == routes;
  }

  /** One more route adds its points and its name at the end. */
  lemma RoutesStep(read: seq<GpxPoint>, names: seq<Option<string>>, routes: seq<GpxRoute>, i: nat)
    requires i < |routes|
    ensures read + RoutesPoints(routes[..i + 1]) == (read + RoutesPoints(routes[..i])) + routes[i].points
    ensures names + RouteNames(routes[..i + 1]) == (names + RouteNames(routes[..i])) + [routes[i].name]
  {
    assert routes[..i + 1][..i] == routes[..i];
  }

  /** Reassigning the name at one more optional name. */
  lemma LastNamedStep(default: string, names: seq<Option<string>>, name: Option<string>)
    ensures LastNamed(default, names + [name]) ==
      if IsNamed(name) then name.value else LastNamed(default, names)
  {
    assert (names + [name])[..|names|] == names;
  }

  /** The loop over the segments of one track, copying the points of each. */
  method CopySegments(points: seq<TrackPoint>, ghost read: seq<GpxPoint>, segments: seq<GpxSegment>)
    returns (out: seq<TrackPoint>)
    requires points == Converted(read)
    ensures out == Converted(read + SegmentsPoints(segments))
  {
    out := points;
    ghost var done := read;
    var j := 0;
    while j < |segments|
      invariant 0 <= j <= |segments|
      invariant done == read + SegmentsPoints(segments[..j]) && out == Converted(done)
    {
      assert segments[..j + 1][..j] == segments[..j];
      out := CopyPoints(out, done, segments[j].points);
      done := done + segments[j].points;
      j := j + 1;
    }
    assert segments[..j] == segments;
  }

  /** The innermost loop: appends a copy of each parsed point of one list. */
  method CopyPoints(points: seq<TrackPoint>, ghost read: seq<GpxPoint>, source: seq<GpxPoint>)
    returns (out: seq<TrackPoint>)
    requires points == Converted(read)
    ensures out == Converted(read + source)
  {
    out := points;
    var k := 0;
    assert read + source[..0] == read;
    while k < |source|
      invariant 0 <= k <= |source|
      invariant out == Converted(read + source[..k])
    {
      assert (read + source[..k + 1])[..|read| + k] == read + source[..k];
      out := out + [ToTrackPoint(source[k])];
      k := k + 1;
    }
    assert source[..k] == source;
  }

}

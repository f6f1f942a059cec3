# track-analytics in Dafny

This project models the analytics engine of track-analytics, a tool that compares two GPS tracks recorded as GPX files. The model covers six parts:

- **The point model** (`GpxParser`). It holds the GPX point and track records and the two "has any elevation / time" predicates. It also holds the part of GPX loading that runs after the file has been parsed: all track-segment points are flattened, then all route points. The last non-empty track or route name is kept; the file stem is the default. A document with no points is an error.
- **Per-track metrics** (`Metrics`):
  - total distance;
  - cumulative distances;
  - elevation statistics. Ascent and descent are computed with a sticky reference sample: it moves only on a change of at least 2 m.
  - speed statistics over time-sorted points. Non-positive time gaps are skipped and segments over 200 km/h are rejected. A segment at 1 km/h or more counts as moving.
- **Route overlap** (`Overlap`). A segment counts as overlapping when its planar midpoint is within a threshold of some *point* of the other track. The result holds overlap lengths and percentages, the unique lengths, and the shared distance (the mean of the two overlap lengths).
- **The speed profile** behind the speed chart (`Charts`). It gives one speed and one cumulative distance per pair of consecutive timed points whose time advances. An implausible speed is replaced by the previous speed.
- **Text formatting** (`Output`). This covers the duration formatter (`3h 04m 05s`, `4m 05s`, `5s`) and the fixed-width comparison row.
- **Supporting modules.** `Geo` holds the abstract distance. `Wrappers` holds `Option` and `Result`.

The great-circle distance comes from the foreign `haversine` library. Here it is a parameter `d: GreatCircle` of every operation: an arbitrary total function of two positions, in kilometres, known only to be non-negative. A unit argument multiplies it by 1 (kilometres) or 1000 (metres). Floating-point numbers are `real`. Times and durations are whole seconds (`int`).

The source's loops are methods whose results are proved equal to recursive specification functions:

- `CalculateTotalDistance`;
- `CalculateElevationMetrics`;
- `CalculateSpeedMetrics` with `AccumulateMotion`;
- `FindNearestPointDistance`;
- `AccumulateOverlap`;
- `CalculateSegmentSpeeds`;
- `ParseGpx` with `CopyTracks`, `CopyRoutes`, `CopySegments` and `CopyPoints`.

The loop of `CumulativeDistances` is instead proved to produce, at every index, the path length of the points up to that index.

What the source promises is then proved as lemmas about those functions. The formatting code has no loops and stays functional. The properties are checked against an independent reading: the formatted duration is parsed back, and each row column is read back from its slice.

Two consequences of the code are worth stating:

- **Identical copy.** A track need not fully overlap an identical copy of itself. Segment midpoints are compared with the other track's *points*, not its segments (overlap.py:75-79). With points about 111 m apart, every midpoint is about 55.6 m from the nearest point, beyond the default 50 m threshold. `Overlap.IdenticalCopyWithoutOverlap` proves this on the three-point equatorial track (0,0), (0,0.001), (0,0.002), with a linear equatorial distance (111.19 km per degree) as the great-circle function: the overlap percent is 0 and the whole length is unique. 100 % overlap is proved only under the hypothesis that every midpoint passes the test (`Overlap.FullOverlap`).
- **Row width.** A comparison row is 2 + 24 + 1 + 14 + 1 + 14 + 1 + 14 = 71 characters when every field fits. That is one more than the 70-character rules printed around the table (output.py:32). `Output.FormatRowColumns` states 71.

## Model

| member | source | states |
|---|---|---|
| GpxParser.IsNamed | src/track_analytics/gpx_parser.py:47 | no contract of its own: a name counts only when present and not empty, as Python truthiness of a string |
| GpxParser.ToTrackPoint | src/track_analytics/gpx_parser.py:51-57 | no contract of its own: the copy of one parsed point; `GpxParser.ConvertedCopies` states what it keeps |
| GpxParser.HasElevation | src/track_analytics/gpx_parser.py:29-31 | holds exactly when some point carries an elevation |
| GpxParser.HasTimestamps | src/track_analytics/gpx_parser.py:33-35 | holds exactly when some point carries a time |
| GpxParser.Converted | src/track_analytics/gpx_parser.py:50-58 | one produced point per source point, in order; `GpxParser.ConvertedCopies` states the fields |
| GpxParser.ConvertedCopies | src/track_analytics/gpx_parser.py:51-57 | every produced point copies latitude, longitude, elevation and time of its source point unchanged, one per source point |
| GpxParser.SegmentsPointsLength | src/track_analytics/gpx_parser.py:49-50 | the points flattened from a track's segments number the sum of the segments' point counts |
| GpxParser.TracksPointsLength | src/track_analytics/gpx_parser.py:46-58 | the points flattened from all tracks number the sum of their segments' counts |
| GpxParser.RoutesPointsLength | src/track_analytics/gpx_parser.py:61-72 | the points flattened from all routes number the sum of their counts |
| GpxParser.SourcePoints | src/track_analytics/gpx_parser.py:46-72 | no contract of its own: track-segment points first, then route points; `GpxParser.SourcePointsLength` counts them |
| GpxParser.SourcePointsLength | src/track_analytics/gpx_parser.py:46-72 | the produced list is as long as all segment and route point lists together |
| GpxParser.LastNamed | src/track_analytics/gpx_parser.py:44-63 | the kept name is the default or the value of one of the non-empty names |
| GpxParser.LastNamedDefault | src/track_analytics/gpx_parser.py:44 | with no non-empty name the file stem is kept |
| GpxParser.LastNamedPicksLast | src/track_analytics/gpx_parser.py:47-48 | otherwise the non-empty name with no later non-empty name is chosen |
| GpxParser.LastNamedStep | src/track_analytics/gpx_parser.py:62-63 | one more name replaces the current one exactly when it is non-empty |
| GpxParser.ChosenName | src/track_analytics/gpx_parser.py:44-63 | no contract of its own: the last non-empty name over the track names then the route names, the file stem without one |
| GpxParser.ParseGpx | src/track_analytics/gpx_parser.py:43-77 | fails with the no-points error exactly when the document has no point; otherwise returns the chosen name, all track points then route points converted, and the file path, so at least one point |
| GpxParser.CopyTracks | src/track_analytics/gpx_parser.py:46-58 | the points after the track loop are all segment points in track and segment order; the name is the last non-empty track name or the stem |
| GpxParser.CopyRoutes | src/track_analytics/gpx_parser.py:61-72 | the route loop appends every route's points in order and keeps the last non-empty name over tracks then routes |
| GpxParser.CopySegments | src/track_analytics/gpx_parser.py:49-58 | the segment loop appends the segments' points in order |
| GpxParser.CopyPoints | src/track_analytics/gpx_parser.py:64-72 | the point loop appends a copy of every source point in order |
| Geo.Haversine | src/track_analytics/overlap.py:27-31 | the distance in the requested unit is not negative |
| Geo.DistanceKm | src/track_analytics/metrics.py:47-49 | the distance between two points in km is not negative |
| Metrics.PathLength | src/track_analytics/metrics.py:52-60 | the summed length of consecutive pairs is not negative |
| Metrics.PathLengthSplit | src/track_analytics/metrics.py:57-59 | splitting a track at an interior point, the two halves' lengths add up to the whole |
| Metrics.CalculateTotalDistance | src/track_analytics/metrics.py:52-60 | returns the path length, 0 below two points |
| Metrics.CumulativeDistances | src/track_analytics/metrics.py:169-175 | one entry per point (one for an empty track), starting at 0, entry i the length up to point i, non-decreasing, last entry the total distance |
| Metrics.Elevations | src/track_analytics/metrics.py:68-70 | the list of elevations is empty exactly when no point carries one |
| Metrics.ElevationsFromPoints | src/track_analytics/metrics.py:68 | every sample is the elevation of some point |
| Metrics.ElevationsCoverPoints | src/track_analytics/metrics.py:68 | every elevation a point carries is a sample |
| Metrics.ElevationsOfPoints | src/track_analytics/metrics.py:68 | the samples are exactly the elevations the points carry |
| Metrics.ElevationsInOrder | src/track_analytics/metrics.py:68 | sample k is the elevation of point `ElevationIndices(points)[k]`; these positions strictly increase and include every point that carries an elevation, so the samples keep the points' order |
| Metrics.ClimbStep | src/track_analytics/metrics.py:76-86 | no contract of its own: a sample at least 2 m from the reference adds to ascent or descent and becomes the reference; `Metrics.Climb` states what the fold keeps |
| Metrics.Climb | src/track_analytics/metrics.py:72-86 | ascent and descent are not negative; ascent minus descent is the final reference minus the first sample; the reference is the first sample or one of the later ones |
| Metrics.ClimbIgnoresJitter | src/track_analytics/metrics.py:76-86 | samples all strictly within 2 m of the first give no ascent, no descent and an unmoved reference |
| Metrics.ClimbExample | src/track_analytics/metrics.py:76-86 | 100, 101, 105, 104, 108 give ascent 8, descent 0 and final reference 108 |
| Metrics.SeqMin | src/track_analytics/metrics.py:89 | the minimum is a sample and at most every sample |
| Metrics.SeqMax | src/track_analytics/metrics.py:90 | the maximum is a sample and at least every sample |
| Metrics.ElevationSummary | src/track_analytics/metrics.py:65-70 | elevation metrics are absent exactly when no point carries an elevation |
| Metrics.ElevationSummaryBounds | src/track_analytics/metrics.py:88-93 | when present, min ≤ max, both are elevations of some points, every elevation lies between them, and ascent and descent are not negative |
| Metrics.ElevationNet | src/track_analytics/metrics.py:76-86 | total ascent minus total descent equals the final reference minus the first sample |
| Metrics.ElevationJitterFree | src/track_analytics/metrics.py:76-86 | a track whose elevations stay strictly within 2 m of the first has ascent and descent 0 |
| Metrics.ElevationRangeNonNegative | src/track_analytics/metrics.py:20-22 | the elevation range of a computed summary is not negative |
| Metrics.ElevationMetrics.ElevationRange | src/track_analytics/metrics.py:20-22 | no contract of its own: max minus min; `Metrics.ElevationRangeNonNegative` proves it is not negative |
| Metrics.CalculateElevationMetrics | src/track_analytics/metrics.py:63-93 | returns the elevation summary of the track's points |
| Metrics.TimedPoints | src/track_analytics/metrics.py:101-103 | at most as many timed points as points, none exactly when no point carries a time, each paired with its own time |
| Metrics.TimedPointsInOrder | src/track_analytics/metrics.py:101 | timed point k is point `TimedIndices(points)[k]`; these positions strictly increase and include every point that carries a time, so the timed points are those points in input order |
| Metrics.InsertByTime | src/track_analytics/metrics.py:106 | inserting into a time-sorted list keeps it sorted and adds exactly the new element |
| Metrics.SortByTime | src/track_analytics/metrics.py:106 | the result is sorted by time and a permutation of the input |
| Metrics.Earliest | src/track_analytics/metrics.py:108 | the earliest time is some point's time and at most every time |
| Metrics.Latest | src/track_analytics/metrics.py:109 | the latest time is some point's time and at least every time |
| Metrics.SortedEnds | src/track_analytics/metrics.py:106-110 | after sorting, the first time is the earliest and the last time the latest |
| Metrics.SortedPermutationEnds | src/track_analytics/metrics.py:106-110 | any time-sorted permutation starts at the earliest and ends at the latest time |
| Metrics.SpeedTimesTime | src/track_analytics/metrics.py:133 | a segment speed in km/h times the seconds is the distance times 3600 |
| Metrics.SegmentSpeedKmh | src/track_analytics/metrics.py:133 | no contract of its own: kilometres per second times 3600; `Metrics.SpeedTimesTime` relates it back to the distance |
| Metrics.MotionStep | src/track_analytics/metrics.py:128-143 | no contract of its own: one sorted pair as the loop treats it; `Metrics.MotionStepKeepsBounds` and `Metrics.RejectedPairIgnored` state its effect |
| Metrics.MotionStepKeepsBounds | src/track_analytics/metrics.py:128-143 | one pair keeps max speed in [0, 200] and moving distance between 1 and 200 km/h over the moving time |
| Metrics.MotionOf | src/track_analytics/metrics.py:119-143 | the accumulators after the loop keep those bounds; `Metrics.MaxSpeedCoversAccepted`, `Metrics.MaxSpeedAttained`, `Metrics.MovingTimeIffMovingPair` and `Metrics.MovingTotals` say what the maximum speed, the moving time and the moving distance are in terms of the pairs |
| Metrics.RejectedPairIgnored | src/track_analytics/metrics.py:128-137 | a pair with a non-positive gap or a speed over 200 km/h changes neither max speed nor moving time nor moving distance |
| Metrics.MotionStepGrows | src/track_analytics/metrics.py:139-143 | no pair lowers the maximum speed, the moving time or the moving distance |
| Metrics.MaxSpeedCoversAccepted | src/track_analytics/metrics.py:128-139 | the maximum speed is at least the speed of every pair with a positive gap and a speed of at most 200 km/h |
| Metrics.MaxSpeedAttained | src/track_analytics/metrics.py:119-139 | the maximum speed is 0 or the speed of one such kept pair, so it is 0 when no pair is kept |
| Metrics.MovingPairsCounted | src/track_analytics/metrics.py:141-143 | the gap and the length of every kept pair at 1 km/h or more are part of the moving time and the moving distance |
| Metrics.MovingTimeIffMovingPair | src/track_analytics/metrics.py:120-143 | the moving time is positive exactly when some kept pair moves at 1 km/h or more |
| Metrics.MovingGapSum | src/track_analytics/metrics.py:141-142 | no contract of its own: the summed gaps of the kept pairs at 1 km/h or more, a reference definition for `Metrics.MovingTotals` |
| Metrics.MovingLengthSum | src/track_analytics/metrics.py:141-143 | no contract of its own: the summed lengths of those pairs, a reference definition for `Metrics.MovingTotals` |
| Metrics.MovingTotals | src/track_analytics/metrics.py:124-143 | the moving time is exactly the summed gaps, and the moving distance exactly the summed lengths, of the kept pairs at 1 km/h or more |
| Metrics.DistanceAt | src/track_analytics/metrics.py:116 | no contract of its own: the km covered at a speed in km/h over some seconds |
| Metrics.RateTimesSpan | src/track_analytics/metrics.py:116 | a total over a non-zero span, taken as km/h, covers that total again over the span |
| Metrics.MovingTimeWithinSpan | src/track_analytics/metrics.py:124-143 | over time-sorted points the moving time is at most last time minus first time |
| Metrics.AvgMovingSpeed | src/track_analytics/metrics.py:145-147 | no contract of its own: moving distance over moving time in km/h, 0 without moving time; bounded by `Metrics.AvgMovingSpeedBounds` |
| Metrics.MovingAverageCovers | src/track_analytics/metrics.py:145-147 | with moving time, the moving average covers the moving distance over the moving time; without, it is 0 |
| Metrics.AvgMovingSpeedBounds | src/track_analytics/metrics.py:145-147 | the moving average is 0 without moving time and otherwise lies in [1, 200] |
| Metrics.SpeedSummary | src/track_analytics/metrics.py:96-155 | no contract of its own: the speed metrics of a track; `Metrics.SpeedSummaryAbsent` and `Metrics.SpeedSummaryBounds` state when they exist and their bounds |
| Metrics.SpeedOfSorted | src/track_analytics/metrics.py:108-155 | no contract of its own: the part after sorting; `Metrics.SortedSpeedBounds` states its bounds |
| Metrics.SpeedSummaryAbsent | src/track_analytics/metrics.py:98-113 | speed metrics are absent exactly with fewer than two timestamped points or a zero time span |
| Metrics.SpeedSummaryBounds | src/track_analytics/metrics.py:108-155 | when present: the duration is latest minus earliest time and positive, max speed lies in [0, 200], moving time lies within the duration, the average speed is not negative, and the moving average is 0 exactly without moving time and otherwise in [1, 200] |
| Metrics.SortedSpeedBounds | src/track_analytics/metrics.py:108-155 | the same bounds for the part after sorting |
| Metrics.SortedPairFigures | src/track_analytics/metrics.py:119-143 | the reported maximum speed is the largest kept pair speed of the sorted points (0 with none), the moving time is the summed gaps of the moving pairs, and there is moving time exactly when some pair moves |
| Metrics.SortedAverageFigures | src/track_analytics/metrics.py:116-147 | the average speed covers the given total distance over the duration; with moving time, the moving average covers the summed lengths of the moving pairs over the moving time, and without it is 0 |
| Metrics.SortedSpeedFromPairs | src/track_analytics/metrics.py:116-155 | every reported figure of the sorted part in terms of its pairs: the two facts above together |
| Metrics.SpeedSummaryFromPairs | src/track_analytics/metrics.py:96-155 | the same for a track's speed metrics, over its time-sorted timestamped points, with the average speed covering the track's path length over the duration |
| Metrics.CalculateSpeedMetrics | src/track_analytics/metrics.py:96-155 | returns the speed summary of the track's points |
| Metrics.AccumulateMotion | src/track_analytics/metrics.py:119-143 | the loop's max speed, moving time and moving distance are the accumulated motion of the sorted points |
| Metrics.CalculateMetrics | src/track_analytics/metrics.py:158-166 | name, total distance, point count, elevation and speed are each the corresponding result on the same track |
| Overlap.NearestOf | src/track_analytics/overlap.py:23-33 | infinite exactly for an empty track; otherwise at most the distance to every point and equal to the distance to some point |
| Overlap.NearestWithinIffNear | src/track_analytics/overlap.py:79 | the nearest distance is within the threshold exactly when some point is |
| Overlap.FindNearestPointDistance | src/track_analytics/overlap.py:23-33 | the loop returns the nearest distance, infinity for no points |
| Overlap.Midpoint | src/track_analytics/overlap.py:75-77 | the midpoint has no elevation or time and lies halfway in latitude and in longitude |
| Overlap.Covered | src/track_analytics/overlap.py:79 | no contract of its own: a segment's midpoint is within the threshold of the nearest point of the other track; `Overlap.NearestWithinIffNear` proves that equivalent to some point of the other track being within the threshold |
| Overlap.OverlapLength | src/track_analytics/overlap.py:65-80 | the summed length of the segments that pass the midpoint test lies between 0 and the track's length |
| Overlap.OverlapMonotone | src/track_analytics/overlap.py:79 | a higher threshold never gives less overlap |
| Overlap.FullCoverage | src/track_analytics/overlap.py:79-80 | when every midpoint passes, the overlap is the whole length |
| Overlap.NoCoverage | src/track_analytics/overlap.py:79-80 | when no midpoint passes, the overlap is 0 |
| Overlap.OverlapZeroIff | src/track_analytics/overlap.py:79-80 | the overlap is 0 exactly when every segment that passes has zero length |
| Overlap.AccumulateOverlap | src/track_analytics/overlap.py:65-80 | the per-track loop returns the track's length and its overlap length |
| Overlap.Percent | src/track_analytics/overlap.py:100-101 | for a positive total, the percent times the total is 100 times the part; 0 otherwise |
| Overlap.Overlap | src/track_analytics/overlap.py:45-114 | no contract of its own: the result record from both tracks' lengths and overlap lengths; `Overlap.OverlapBounds`, `Overlap.OverlapSwap` and `Overlap.SharedDistance` state its properties |
| Overlap.PercentBounds | src/track_analytics/overlap.py:100-101 | a part of a total gives a percent in [0, 100], and 100 when the part is a positive total |
| Overlap.AnalyzeOverlap | src/track_analytics/overlap.py:45-114 | returns the overlap result of both tracks at the threshold, 50 m by default |
| Overlap.OverlapBounds | src/track_analytics/overlap.py:100-113 | both overlap lengths lie between 0 and their track's length, unique lengths are not negative, percents lie in [0, 100] and are 0 for a zero-length track |
| Overlap.ShortTrack | src/track_analytics/overlap.py:68 | a first track with fewer than two points has overlap, percent and unique length 0 |
| Overlap.OverlapSwap | src/track_analytics/overlap.py:68-114 | swapping the tracks swaps every track1/track2 field pair and keeps the shared distance |
| Overlap.ThresholdMonotone | src/track_analytics/overlap.py:79-104 | raising the threshold never decreases either overlap length or the shared distance |
| Overlap.FullOverlap | src/track_analytics/overlap.py:79-112 | when every midpoint of track 1 passes, its overlap is its length, its unique length 0, and its percent 100 for a positive length |
| Overlap.NoOverlap | src/track_analytics/overlap.py:79-104 | when no midpoint of either track passes, both percents and the shared distance are 0 |
| Overlap.SharedDistance | src/track_analytics/overlap.py:104 | the shared distance is the mean of the overlap lengths, lies between their minimum and maximum, and is 0 exactly when neither track has an overlapping segment of positive length |
| Overlap.IdenticalCopyWithoutOverlap | src/track_analytics/overlap.py:74-79 | a three-point track with 111 m segments compared with itself at 50 m has overlap percent 0 and its whole length unique |
| Overlap.EquatorNoOverlap | src/track_analytics/overlap.py:74-80 | no segment of that track passes the midpoint test against its own points |
| Charts.SegmentKm | src/track_analytics/charts.py:144-148 | a pair's length is not negative |
| Charts.StepSpeed | src/track_analytics/charts.py:150 | a pair's speed is not negative |
| Charts.KeptSpeed | src/track_analytics/charts.py:152-154 | no contract of its own: a speed over 200 km/h becomes the previous recorded speed, or 0 without one; `Charts.SpeedsBounded` states the resulting bound |
| Charts.ProfileStep | src/track_analytics/charts.py:137-157 | no contract of its own: one pair, skipped without time advance, otherwise appending a speed and a cumulative distance; `Charts.ProfilePrefix` and `Charts.ProfileEntries` state its effect |
| Charts.ProfileOf | src/track_analytics/charts.py:136-157 | no contract of its own: the two lists after all pairs of the timed points; the lemmas below state their properties |
| Charts.KeptPairs | src/track_analytics/charts.py:136-142 | the kept pairs are exactly the pairs whose time advances, in increasing order |
| Charts.ProfileLength | src/track_analytics/charts.py:156-160 | speeds and distances have equal length, one entry per kept pair |
| Charts.SpeedsBounded | src/track_analytics/charts.py:150-156 | every recorded speed lies in [0, 200] |
| Charts.DistancesCumulative | src/track_analytics/charts.py:131-160 | distances are not negative and never decrease |
| Charts.ProfilePrefix | src/track_analytics/charts.py:136-157 | one more timed point only appends to both lists |
| Charts.ProfileEntries | src/track_analytics/charts.py:150-157 | entry k is the k-th kept pair's speed, or the previous speed (0 without one) when that is over 200, and its distance is the previous distance plus the pair's length |
| Charts.KeptLength | src/track_analytics/charts.py:157 | the summed length of the kept pairs is not negative |
| Charts.LastDistanceIsKeptLength | src/track_analytics/charts.py:157-160 | the last distance is the summed length of the kept pairs |
| Charts.AllKept | src/track_analytics/charts.py:136-160 | when every pair advances in time, there is one entry per pair and the last distance is the path length of the timed points |
| Charts.SegmentSpeeds | src/track_analytics/charts.py:125-160 | no contract of its own: the profile of the track's timed points in input order (see `Metrics.TimedPointsInOrder`) |
| Charts.CalculateSegmentSpeeds | src/track_analytics/charts.py:125-160 | returns the profile of the timed points in input order (not sorted), and two empty lists below two timed points |
| Output.NatToString | src/track_analytics/output.py:15-19 | at least one character, all digits, no leading zero for a positive number, one digit below 10 and more from 10 on |
| Output.ParseNatToString | src/track_analytics/output.py:15-19 | reading the digits back gives the number |
| Output.ZeroPad2 | src/track_analytics/output.py:15-17 | a two-digit field is two digits |
| Output.ParseZeroPad2 | src/track_analytics/output.py:15-17 | reading a two-digit field back gives the number |
| Output.Decompose | src/track_analytics/output.py:11-13 | hours × 3600 + minutes × 60 + seconds is the total, minutes and seconds are below 60, hours are not negative for a non-negative total |
| Output.DecomposeUnique | src/track_analytics/output.py:12-13 | any such decomposition is the computed one |
| Output.PaddedField | src/track_analytics/output.py:15-17 | a padded field is four characters |
| Output.FormatDuration | src/track_analytics/output.py:9-19 | the text starts with a digit, has at least two characters and ends with the seconds unit `s`; `Output.FormatDurationRoundTrip` reads it back |
| Output.FormatHms | src/track_analytics/output.py:14-19 | each of the three layouts starts with a digit and ends with `s` |
| Output.FormatDurationRoundTrip | src/track_analytics/output.py:9-19 | parsing the formatted text of a non-negative duration gives it back |
| Output.FormatHmsRoundTrip | src/track_analytics/output.py:14-19 | each of the three layouts parses back to its hours, minutes and seconds |
| Output.HoursRoundTrip | src/track_analytics/output.py:14-15 | the hours layout parses back |
| Output.MinutesRoundTrip | src/track_analytics/output.py:16-17 | the minutes layout parses back |
| Output.SecondsRoundTrip | src/track_analytics/output.py:18-19 | the seconds layout parses back |
| Output.FormatDurationInjective | src/track_analytics/output.py:9-19 | distinct non-negative durations are formatted differently |
| Output.FormatDurationLayout | src/track_analytics/output.py:12-19 | the letter after the leading number is h from 3600 s, m from 60 s and s below, followed by 8, 4 or 0 more characters |
| Output.HmsLayout | src/track_analytics/output.py:14-19 | the same layout facts in terms of hours and minutes |
| Output.HmsRanges | src/track_analytics/output.py:12-13 | hours are positive from 3600 s; only minutes are positive from 60 s to below 3600 s; both are 0 below 60 s |
| Output.LeftJustify | src/track_analytics/output.py:24 | the text followed by spaces, as long as the width or the text |
| Output.RightJustify | src/track_analytics/output.py:24 | spaces followed by the text, as long as the width or the text |
| Output.FormatRow | src/track_analytics/output.py:22-24 | a row is at least 71 characters and starts with two spaces; `Output.FormatRowColumns` gives the columns |
| Output.FormatRowLength | src/track_analytics/output.py:22-24 | a row is 5 characters plus each field's justified width |
| Output.FormatRowColumns | src/track_analytics/output.py:22-24 | with fitting fields a row is 71 characters: two spaces, the title left-justified in 2..26, single spaces at 26, 41 and 56, the values right-justified in 27..41, 42..56 and 57..71 |
| Output.FormatRowFields | src/track_analytics/output.py:22-24 | with fitting fields the title starts at column 2 and the three values end at columns 41, 56 and 71 |

## Left out

- The `haversine` computation is not modelled. It is foreign floating-point trigonometry, and every operation takes the distance as a non-negative function parameter. Symmetry and zero distance between a point and itself are never needed, so they are not assumed.
- Floating-point rounding, NaN and infinite values are not modelled. Numbers are `real`; the infinite start value of the nearest-point search is the `Infinite` case of `Overlap.Nearest`.
- `timedelta` is a whole number of seconds. So the `int(...)` truncation at the start of `_format_duration` (output.py:11) is the identity here.
- File reading and the gpxpy parser in `parse_gpx` (gpx_parser.py:40-41) are I/O and a foreign library. `ParseGpx` starts from an already-parsed document and a file path with its stem.
- The empty-list check at metrics.py:69-70 cannot fire after the elevation check at metrics.py:65. The model has only the first.
- The chart-rendering functions of charts.py and the report functions `format_metrics_comparison` and `format_overlap_result` of output.py are not modelled. They are presentation: matplotlib drawing and float format rounding. cli.py, argument handling and printing, is not part of this model.
- Overlap.AccumulateOverlap: a single method serves both per-track loops of `analyze_overlap` (overlap.py:65-80 and 83-97). The source repeats the loop with the tracks' roles exchanged.
- Metrics.SortByTime: the sort is modelled on values, not in place on the list. Its contract states sortedness and permutation. It does not state stability (equal times keeping input order), although the insertion it is built from keeps it.
- Output.FormatDurationRoundTrip: stated for non-negative totals only. A negative total prints the remainder of Python's floor division and is not recovered. `Output.Decompose` still models negative totals as Python does.

# Centerline width pipeline: a Dafny model

This project models the post-skeleton processing pipeline of the footpath
width analysis: given a polygon and the linear skeleton ("centerline")
derived from it, the pipeline prunes short dead-end spurs, splits the
skeleton into two-point segments, estimates one width value per segment by
sampling points along it and averaging their distances to the polygon
boundary, and builds two output layers. The ribbon layer holds each segment
buffered by its width value. The centerline layer holds each unbuffered
segment. Both carry a `width` attribute of twice the width value.

Geometry is abstract. A skeleton is a tagged variant
`Single(line) | Multi(parts) | Other`, and a line is its sequence of
coordinates. The geometry library's primitives are passed in as a `Metric`:
line length, the point at an offset along a line, the distance from a point
to the boundary, and point/line disjointness. The model assumes only what
the pipeline relies on: lengths and distances are non-negative, and a point
is disjoint from an empty collection of lines. Buffers are symbolic:
`Buffer(segment, radius)`.

Files, one module each:

- `geometry.dfy` (`Geometry`): points, lines, the skeleton variant,
  polygons and the `Metric` of primitives.
- `segmenter.dfy` (`Segmenter`): `linestring_to_segments` and `get_segments`.
- `pruner.dfy` (`Pruner`): `ProcessingMethod.remove_short_lines`.
- `sampler.dfy` (`Sampler`): Python's half-to-even `round`,
  `ProcessingMethod.interpolate_by_distance` on offsets, and `interpolate`.
- `means.dfy` (`Means`): `sum(xs) / len(xs)` and its bounds.
- `widths.dfy` (`Widths`): `polygon_to_multilinestring` and `get_avg_distances`.
- `reconstructor.dfy` (`Reconstructor`): `explode_to_segments`,
  `explode_to_segments_`, and the per-feature chain of stages in `processing`.

Three facts about the code shape the model:

- `explode_to_segments_` (functions.py:82-92) emits one record per segment,
  each carrying its own width value, just as `explode_to_segments`
  (functions.py:66-77) does. `processing` passes both the same segments and
  width values (functions.py:257-259).
- A zero-length segment is sampled once, at its midpoint (functions.py:56-60),
  so the sample list is never empty and the division at functions.py:129 is
  always defined (`Widths.ShortSegmentHasOneSample`).
- `remove_short_lines` returns a single line unchanged (functions.py:51-52).
  A multi-part line with only one part is judged on length alone: the other
  parts form an empty collection, so the part is a dead end and survives
  only if it is longer than 5 (`Pruner.LonePartJudgedOnLength`).

## Model

| member | source | states |
|---|---|---|
| Segmenter.LineSegments | functions.py:108-112 | A line with n >= 1 coordinates gives exactly n - 1 edges, and edge i is [coords[i], coords[i+1]]. A line with fewer than 2 coordinates gives none. |
| Segmenter.ConsecutiveSegmentsShareVertex | functions.py:108-112 | Consecutive edges share the coordinate between them: edge i ends where edge i + 1 starts. |
| Segmenter.ChainLineSegments | functions.py:108-112 | Round trip: chaining a line's edges (the first start, then every end) rebuilds the line, so no vertex is lost, added or reordered. |
| Segmenter.PartsSegmentsCount | functions.py:96-100 | A multi-part line has as many edges as the sum over its parts of (coordinates - 1). |
| Segmenter.Segments | functions.py:95-105 | get_segments gives the total edge count for a multi-part line and n - 1 edges for a single line. Every edge has two points. Any other geometry gives the empty list, not an error. |
| Segmenter.SegmentsAppend | functions.py:96-100 | Segmenting distributes over concatenating parts, so the edges of each part come out together and in part order. |
| Segmenter.SegmentsSingletonMulti | functions.py:95-103 | A one-part collection segments exactly like the single line. |
| Pruner.Others | functions.py:36 | The "other lines" for part i are all parts except i, in their original order (one fewer). |
| Pruner.KeptIndices | functions.py:34-47 | The surviving indices are strictly ascending and in range. Index i is among them iff part i is not a dead end or its length is > 5. |
| Pruner.Survivors | functions.py:34-49 | Record k of the survivors is the part at the k-th surviving index. |
| Pruner.RemoveShortLines | functions.py:28-52 | A single line is returned unchanged. Another kind yields None. A multi-part line yields exactly its parts that are not dead ends or are longer than 5, in their original order. |
| Pruner.PruningThreshold | functions.py:41-47 | A dead-end part is kept iff its length is > 5, whether it dangles at one end or at both. A part touching other parts at both ends is always kept. |
| Pruner.LonePartJudgedOnLength | functions.py:34-49 | A multi-part line with a single part keeps that part only if its length is > 5, since the other parts form an empty collection. |
| Pruner.SurvivorsSubsequence | functions.py:34-49 | The survivors from any index on form an order-preserving subsequence of the parts from that index on. |
| Pruner.RemoveShortLinesSubsequence | functions.py:34-49 | The pruned parts are an order-preserving subsequence of the input parts. |
| Pruner.RemoveShortLinesShrinks | functions.py:34-49 | Pruning never produces more parts than it was given. |
| Sampler.RoundHalfEven | functions.py:56 | Python's round is within 1/2 of its argument, and an exact tie resolves to an even integer. |
| Sampler.RoundHalfEvenIsNearest | functions.py:56 | No integer is nearer than round(x). An equally near different integer is odd and exactly 1/2 away. |
| Sampler.RoundHalfEvenUnique | functions.py:56 | Any integer strictly within 1/2 of x, or exactly 1/2 away and even, is round(x). |
| Sampler.TiesRoundToEven | functions.py:56-60 | At step 1, lengths 0.5, 1.5 and 2.5 give 1, 3 and 3 samples (halves go to the even neighbour). |
| Sampler.SampleOffsets | functions.py:55-63 | A zero step is the ZeroDivisionError case. A count of 1 gives the midpoint offset length/2. Otherwise there are max(count, 0) offsets, the i-th being distance*i. |
| Sampler.Multiples | functions.py:63 | range(n) scaled by d: n offsets, the i-th equal to d*i. |
| Sampler.SampleCountPositive | functions.py:56 | A non-negative length and a positive step give a count of at least 1. |
| Sampler.SampleOffsetsShape | functions.py:55-63 | For a positive step there is at least one sample. With two or more, they start at 0, strictly increase, and the last is within half a step of the line's length. |
| Sampler.LastMultipleNearLength | functions.py:56-63 | The last offset, distance * round(length/distance), differs from the length by at most distance/2. |
| Sampler.SampleLine | functions.py:55-63 | Sampling a line at the default step always returns at least one sample, all on that line. |
| Sampler.SampleParts | functions.py:139-145 | A multi-part line has at least one sample per part. |
| Sampler.SamplePartsAppend | functions.py:139-145 | The samples of a multi-part line are its parts' samples concatenated in part order. |
| Sampler.SamplePartsSingleton | functions.py:139-148 | A one-part collection samples exactly like the single line. |
| Sampler.Interpolate | functions.py:138-148 | interpolate gives the per-part samples for a multi-part line and the line's own non-empty samples for a single line. Any other kind yields None. |
| Widths.BoundaryOf | functions.py:134-135 | The boundary holds exactly the exterior ring and the interior rings, exterior first, 1 + (number of holes) parts. |
| Means.Mean | functions.py:129 | sum/len of a non-empty list lies between its minimum and its maximum. |
| Means.MeanBounds | functions.py:129 | The arithmetic mean is bounded below by the minimum and above by the maximum value. |
| Means.MeanAtLeast | functions.py:129 | Any lower bound on every value of a non-empty list is a lower bound on sum/len. |
| Means.MeanAtMost | functions.py:129 | Any upper bound on every value of a non-empty list is an upper bound on sum/len. |
| Widths.SampleDistances | functions.py:123-127 | One distance per sample, in sample order: the boundary distance of the sampled point. Each is non-negative. |
| Widths.SegmentSamples | functions.py:121 | interpolate(segment) on a segment is never empty, so the division at line 129 never divides by zero. |
| Widths.SegmentWidth | functions.py:118-129 | A segment's width value is >= 0 and lies between the smallest and the largest boundary distance of its samples. |
| Widths.ShortSegmentUsesMidpoint | functions.py:58-60 | With a sample count of 1, the segment is sampled only at its midpoint, and its width value equals that point's boundary distance. |
| Widths.ShortSegmentHasOneSample | functions.py:56-60 | A segment shorter than half a step, including a zero-length one, gets exactly one sample. |
| Widths.AvgDistances | functions.py:115-131 | get_avg_distances gives exactly one non-negative width value per segment, in segment order. |
| Reconstructor.RibbonRecords | functions.py:71-73 | Record k of a row is segment k buffered by width value k, with width 2 * value k. zip stops at the shorter list. |
| Reconstructor.CentrelineRecords | functions.py:86-88 | Record k of a row is the unbuffered segment k with width 2 * value k. zip stops at the shorter list. |
| Reconstructor.ExplodeToSegments | functions.py:66-77 | The ribbon layer has one record per (segment, value) pair over all rows. Every record's width is twice its buffer radius. |
| Reconstructor.ExplodeToCentrelines | functions.py:82-92 | The centerline layer has one record per (segment, value) pair over all rows. Every geometry is an unbuffered segment. |
| Reconstructor.LayersAgree | functions.py:66-92 | The two layers have equal length and equal width columns. Each ribbon buffers the segment of the matching centerline record. |
| Reconstructor.ExplodeAppend | functions.py:69-73 | The ribbon layer distributes over concatenating rows, so records keep row order. |
| Reconstructor.ExplodeCentrelinesAppend | functions.py:85-88 | The centerline layer distributes over concatenating rows, so records keep row order. |
| Reconstructor.FeatureRow | functions.py:253-255 | A feature's row holds get_segments of its centerline and exactly one width value per segment. Value k is segment k's mean boundary distance (`Widths.SegmentWidth`), and it is >= 0. |
| Reconstructor.ProcessFeature | functions.py:249-255 | Pruning, simplification, segmentation and width estimation for one skeleton. The result is None exactly for a skeleton of neither line kind. Otherwise each segment has one width value. A single line goes unpruned to simplification. A multi-part line's surviving parts are what is simplified, segmented and measured. |
| Reconstructor.ProcessFeatures | functions.py:249-255 | Every stage runs over the whole table. For features whose geometry is a single polygon, the run yields no rows exactly when some skeleton is of neither line kind (the AttributeError at line 251). Otherwise there is one row per feature, in order, each the row its feature's stages build. |
| Reconstructor.Rows | functions.py:253-255 | One row per feature, in feature order. Row k holds get_segments of centerline k and exactly one width value per segment: value j is the mean boundary distance of segment j for polygon k, and it is >= 0. |
| Reconstructor.OneRecordPerSegment | functions.py:253-259 | From final centerlines, each layer has exactly one record per segment of every feature, and every ribbon width is >= 0. |
| Reconstructor.ProcessedLayers | functions.py:249-259 | End to end, from the features: when the run succeeds, each layer has exactly one record per segment of every processed row, and every ribbon width is >= 0. |
| Reconstructor.MatchedRowsPairAll | functions.py:69-73 | When every row has exactly one width value per segment, zip drops nothing: the pair count equals the number of segments over all rows. |
| Reconstructor.MatchedRowsPairEverySegment | functions.py:69-73 | When every row has exactly one width value per segment of its centerline, zip drops nothing: the pair count equals the total segment count. |
| Reconstructor.NonNegativeWidths | functions.py:72-73 | Non-negative width values give non-negative width attributes. |

## Left out

- run.py: configuration, the HTTP fetch, the exit on a non-200 status, and file writing. These are I/O. It also imports a `process` name that functions.py does not define.
- `read_config`, `get_data`, `import_file`, `create_df`, `get_stats` and the `main` class (functions.py:151-220): configuration, network and file I/O glue.
- `gen_centerlines` (functions.py:223-237): a call into the external skeleton library, with a retry at a smaller interpolation distance. The model starts from its output.
- `linemerge` and `simplify(1, preserve_topology=True)` (functions.py:247, 251): library geometry. `linemerge` runs before the modelled input. `simplify` is a parameter of `Reconstructor.ProcessFeature` with no assumed properties.
- Shapely's `length`, `interpolate`, `nearest_points`/`distance`, `disjoint` and `buffer`: floating-point Euclidean geometry. They are parameters (`Metric`) or symbolic (`Shape.Buffer`). The model works on sample offsets, not on the interpolated points, so shapely's clamping of offsets beyond the line's end is not modelled.
- Floating point: lengths, offsets, distances and means are exact reals, so float rounding in `length / distance`, `distance * i`, `sum` and the division is not modelled.
- GeoDataFrame construction, the coordinate reference system, progress printing and `to_file` (functions.py:75-76, 90-91, 240-262): dataframe plumbing and persistence.
- Pruner.RemoveShortLines: requires every part of a multi-part line to have at least one coordinate. `coords[0]` raises IndexError on an empty part, and that error path is not modelled.
- Sampler.SampleParts: its own contract only bounds the sample count from below. The exact concatenation is stated by `Sampler.SamplePartsAppend` and `Sampler.SamplePartsSingleton`.
- Reconstructor.ProcessFeatures: the AttributeError that `None.simplify` raises (functions.py:251) is modelled as a None result for the whole table. Which exception is raised, and its traceback, are not modelled.
- Reconstructor.ProcessFeatures: every feature's geometry is a single polygon (`Reconstructor.Feature`). Another geometry kind, such as a multi-polygon, makes `polygon.exterior` raise AttributeError (functions.py:135, reached from line 255) and aborts the run; that failure is not modelled.

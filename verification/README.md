# Rectangle detection of the floor-plan tool, in Dafny

The floor-plan editor can trace an uploaded floor plan. It binarises the
image, finds long horizontal and vertical pixel runs, groups runs that lie
close together into wall lines, and keeps the long wall lines plus a few
shorter inner ones. It then frames rectangles between adjacent horizontal
walls and pairs of vertical walls, drops near-duplicate rectangles, and
ranks the rest by area. Each surviving rectangle becomes a green outline
shape in the editor.

This project models that pipeline (`simpleShapeDetection` and the
functions it calls in `app.js`) and proves what each stage guarantees.
There is one module per stage:

| module | file | models |
|---|---|---|
| `Binarize` | binarize.dfy | the binarisation loop: foreground iff red + green + blue < 384 |
| `RunScan` | runscan.dfy | `detectHorizontalLines`, `detectVerticalLines` |
| `LineGroup` | linegroup.dfy | `groupNearbyLines` |
| `Classify` | classify.dfy | the main, inner and frame filters of `findRectanglesFromLines` |
| `Assemble` | assemble.dfy | `findRectanglesFromLines` and its assembly loops |
| `Dedup` | dedup.dfy | `removeDuplicateRectangles` |
| `Pipeline` | pipeline.dfy | `detectAllRectangles`, the shape records of `simpleShapeDetection` |
| `ArrayLib` | arraylib.dfy | the stable `Array.prototype.sort`, list concatenation |

How the source is rendered:
- The loops of the source are methods with loop invariants. Each one is
  proved equal to a specification function, or to the properties the
  source promises.
- Calls into the JavaScript library (`sort`, `filter`, `Math.max`,
  `Math.round`, `reduce`) are pure functions.
- `sort` is ECMAScript's stable sort, modelled as a stable insertion sort
  by an integer key.
- Fractional thresholds are written on whole numbers:
  - `maxLen >= width * 0.5` becomes `2 * maxLen >= width`;
  - `maxLen >= height * 0.3` becomes `10 * maxLen >= 3 * height`;
  - `Math.round(sum / n)` becomes `(2 * sum + n) / (2 * n)`, halves
    rounded up.
- `Math.max` of an empty list is `-Infinity`. It fails every `>=` length
  test (it does pass the `maxLen < minMainLineLength` test of app.js:375,
  but that filter also demands `maxLen >= minInnerLineLength`). Every
  classification predicate therefore rejects a group without runs.
- Some methods return ghost out-parameters, used only by the contracts:
  - `FindRectanglesFromLines` returns the two groupings it computes
    internally;
  - `DetectAllRectangles` returns a `Trace`: the detected runs of both
    orientations, their groupings and the candidate rectangles before
    duplicate removal. `Traced` ties every part of it to the grid;
  - `SimpleShapeDetection` also returns the binarised grid.

Two sorts decide the order of the result. `removeDuplicateRectangles`
sorts the kept rectangles by `y` (app.js:544-545). `detectAllRectangles`
then re-sorts that list by descending area (app.js:198). Because the area
sort is stable, rectangles of equal area stay in `y` order;
`RankedByArea` states this.

## Model

| member | source | states |
|---|---|---|
| Binarize.IsDark | app.js:155-156 | A pixel is dark exactly when the real mean of its three colour samples is below 128. |
| Binarize.BinaryValue | app.js:153-157 | The grid value is 0 or 1, and it is 1 exactly when red + green + blue < 384. |
| Binarize.AlphaIgnored | app.js:153-157 | Changing a pixel's alpha sample never changes its grid value. |
| Binarize.Binarise | app.js:152-157 | The grid has `width * height` cells; cell `i` is 1 iff pixel `i`'s colour sum is below 384. |
| RunScan.DetectHorizontalLines | app.js:231-269 | Every emitted run is a maximal foreground run of its row, longer than 10, with `x2 = x1 + length - 1`. Every such run is emitted, in row-major order, so none twice. An all-background grid yields no runs. |
| RunScan.ScanRow | app.js:235-265 | One row's walk keeps the earlier runs unchanged and appends runs of that row only: exactly its maximal runs longer than 10, left to right. |
| RunScan.RowPixel | app.js:238-255 | One pixel of a row walk extends the open stretch on foreground, and on background closes it, appending it when longer than 10; the walk invariant is kept and the stretch start stays `x - length`, or -1 when no stretch is open. |
| RunScan.DetectVerticalLines | app.js:272-310 | The same for columns: exactly the maximal vertical runs longer than 10, in column-major order; none for an all-background grid. |
| RunScan.ColumnPixel | app.js:279-296 | One pixel of a column walk extends the open stretch on foreground, and on background closes it, appending it when longer than 10; the walk invariant is kept and the stretch start stays `y - length`, or -1 when no stretch is open. |
| RunScan.ScanColumn | app.js:276-306 | One column's walk keeps the earlier runs unchanged and appends runs of that column only: exactly its maximal runs longer than 10, top to bottom. |
| RunScan.OrderedRunsUnique | app.js:231-310 | Two strictly ordered run lists with the same members are equal. |
| RunScan.RowRunsUnique | app.js:231-269 | The horizontal runs that the scan promises are determined by the grid: two lists meeting the promise are equal. |
| RunScan.ColumnRunsUnique | app.js:272-310 | The same for the vertical runs. |
| LineGroup.RoundedMean | app.js:491 | The result is the integer nearest to `sum / n`, with halves rounded up. |
| LineGroup.LongestIndex | app.js:486-487 | The index of the first run of greatest length, as the `reduce` with a strict `>` picks it. |
| LineGroup.MaxLen | app.js:351 | Every run is at most this long, and some run has exactly this length. |
| LineGroup.GroupAvgBetween | app.js:486-492 | A closed group's `avgPos` lies between its first and last key. |
| LineGroup.AvgPosIncreasing | app.js:480-494 | With a non-negative tolerance, the `avgPos` of successive groups increases strictly. |
| LineGroup.GroupSorted | app.js:475-496 | The loop leaves closed groups and an open group that together spell out the sorted runs. Each group is chained within the tolerance; successive groups are more than the tolerance apart. |
| LineGroup.GroupNearbyLines | app.js:471-510 | No groups iff no runs. The concatenated members equal the input stably sorted by key. Within a group consecutive keys are at most `tolerance` apart; between groups they are more. Each group carries its first longest run's key and its rounded mean key, which lies in the group's range and increases strictly from group to group. |
| Classify.MainGroups | app.js:350-353 | A group is kept iff it has runs and twice its longest run is at least the image width. The filter keeps the order: groups with strictly increasing `avgPos` stay so. |
| Classify.MainConsecutive | app.js:350-365 | For groups with strictly increasing `avgPos`, no main group lies strictly between two consecutive main groups, so each region of the loop is bounded by adjacent main separators. |
| Classify.FrameGroups | app.js:405-408 | A vertical group is kept iff it has runs and ten times its longest run is at least three times the image height. |
| Classify.RegionCandidates | app.js:370-376 | A group is a candidate iff its `avgPos` lies strictly inside `(top + 10, bottom - 10)`, its longest run is at least 15, and twice that run is below the width. The candidates are a sub-multiset of the groups. |
| Classify.RegionLines | app.js:379-387 | A region keeps at most two groups. |
| Classify.RegionLinesKeepLongest | app.js:379-387 | Up to two candidates are all kept; otherwise exactly two. Only candidates are kept, and no dropped candidate has a longer run than a kept one. |
| Classify.InnerUpToLength | app.js:363-399 | After `k` regions there are at most `2 * k` inner groups. |
| Classify.ContributionSound | app.js:393-395 | A region adds groups only when it is higher than 80, and only groups inside it. |
| Classify.InnerUpToSound | app.js:363-399 | Every inner group lies inside some region higher than 80, keeps the 10-pixel margins, is at least 15 long and shorter than half the width. |
| Classify.InnerHGroups | app.js:362-399 | The loop builds exactly the regions' contributions in order; nothing when there are fewer than two main groups. |
| Classify.FilteredHorizontalSound | app.js:402 | A kept horizontal group is a main group or an inner group of a region higher than 80. |
| Classify.FilteredHorizontalComplete | app.js:402 | Every main group is kept, and so is every group a region higher than 80 selects. |
| Assemble.Candidate | app.js:453-459 | A candidate's area is the product of its width and height. |
| Assemble.BandsMembers | app.js:431-463 | An assembled rectangle is exactly the candidate of some band, left side and right side that passes every test. |
| Assemble.AssembleRightSides | app.js:442-461 | The innermost loop appends exactly the candidates of one band and one left side that pass the tests. |
| Assemble.AssembleBand | app.js:432-462 | A band lower than 10 adds nothing; otherwise every left side in turn. |
| Assemble.AssembleRectangles | app.js:431-463 | The loops produce exactly the rectangles of every band, each with both sides longer than 15 and area equal to width times height. |
| Assemble.AdjacentInSorted | app.js:429-434 | The top and bottom of a band are kept groups with no kept group strictly between them. |
| Assemble.CandidateFramed | app.js:431-459 | An accepted candidate is well shaped and framed by its band and its two sides. |
| Assemble.BandsFramed | app.js:429-463 | Every assembled rectangle is well shaped and framed by adjacent kept horizontal groups and two kept vertical groups, the right more than 10 beyond the left. |
| Assemble.RectanglesFramed | app.js:350-467 | The same holds for the rectangles computed from any grouping. |
| Assemble.RectanglesFromGroups | app.js:350-467 | Nothing unless each axis keeps at least two groups; otherwise the framed rectangles, all well shaped. |
| Assemble.GroupingAscending | app.js:326-328 | Each grouping that `findRectanglesFromLines` computes has strictly increasing `avgPos`. |
| Assemble.FindRectanglesFromLines | app.js:313-468 | Nothing when either run list is empty. Otherwise both run lists are grouped with tolerance 8 as `groupNearbyLines` does, and the result is the framed rectangles of those groupings, all well shaped. |
| Dedup.FirstNear | app.js:519-526 | The index of the first kept rectangle within 5 of the candidate in x, y, width and height; the list length when there is none. |
| Dedup.DedupStep | app.js:517-539 | The list grows by one iff no kept rectangle is near the candidate, and then ends with the candidate. Otherwise only the first near slot may change, to the candidate, and only when the candidate's area is strictly larger. Slot areas never decrease, and the list only ever holds candidates. |
| Dedup.DedupAllSubset | app.js:517-539 | The kept list is a sub-multiset of the input, no longer than it, and empty iff the input is. |
| Dedup.DedupAreasGrow | app.js:517-539 | As more candidates are processed the list never shrinks, and each slot's area never decreases. |
| Dedup.AddCandidate | app.js:517-539 | One `forEach` iteration, scanning with `break` at the first near entry, performs exactly one deduplication step. |
| Dedup.DedupLoop | app.js:517-539 | The `forEach` over the candidates leaves exactly the deduplicated list. |
| Dedup.RemoveDuplicateRectangles | app.js:513-548 | The result is the deduplicated list stably sorted by `y`. It keeps only input rectangles and is empty iff the input is. |
| Pipeline.RankedProperties | app.js:194-198 | The ranked list keeps only candidates, is ordered by descending area with ties in ascending `y`, stays well shaped, and is empty for no candidates. |
| Pipeline.DetectAllRectangles | app.js:179-201 | The trace's runs are exactly the grid's maximal runs longer than 10 in scan order. There are no candidates when either run list is empty. Otherwise the groupings are those of `groupNearbyLines` with tolerance 8, and the candidates are the framed rectangles of those groupings. The result is those candidates deduplicated and ranked: a sub-multiset of them, ordered by descending area, each with sides longer than 15 and area w·h. An all-background grid gives nothing. |
| Pipeline.ShapeOf | app.js:164-173 | A shape record is a green (`#00ff00`) rectangle outline of line width 2 with the rectangle's position and size. |
| Pipeline.ShapesOf | app.js:163-174 | One shape per rectangle, in the same order. |
| Pipeline.ShapesOfRanked | app.js:163-174 | Shapes of ranked rectangles are green outlines larger than 15 each way, with outlined areas descending. |
| Pipeline.PushShapes | app.js:163-174 | The `forEach` pushes exactly one shape record per rectangle, in order. |
| Pipeline.BackgroundGrid | app.js:152-157 | An image whose every pixel has a colour sum of at least 384 binarises to a grid without foreground. |
| Pipeline.SimpleShapeDetection | app.js:145-177 | The grid is the binarised image, cell by cell. The shapes are the shape records of the ranked rectangles detected on that grid, with the trace of `DetectAllRectangles`. Every shape is a green rectangle outline of width 2 with both sides longer than 15, and larger shapes come first. An image whose every pixel has a colour sum of at least 384 yields no shapes. |

## Left out

- The canvas, the file upload, the alerts and the editor's drawing code are user interface. The model starts at the decoded `ImageData`.
- The scale and offset computation places the image on the canvas in floating point. The offsets are whole-number parameters of the model.
- `console.log` calls only print diagnostics and change nothing.
- `fitLine`, `fitCircle`, `findRectangleFromCorner`, `findContours` and `fitRectangle` are never called from the rectangle pipeline.
- The shape record's `type` field is named `kind` in the model, because `type` is a Dafny keyword.
- Classify.FrameGroups: `height * 0.3` is a floating-point product. The model uses the exact test `10 * maxLen >= 3 * height`, which agrees with it for whole-number lengths and heights of practical size; a rounding difference at extreme heights is not modelled.
- Binarize.Binarise: the source writes into a `Uint8Array`. The model uses an `array<int>` holding only 0 and 1, so no byte truncation arises.
- Dedup.RemoveDuplicateRectangles: the result is not proved free of near-duplicates. A replaced slot can come to lie near a later slot, and the code does not promise otherwise.
- LineGroup.GroupNearbyLines: the strictly increasing `avgPos` is stated for non-negative tolerances only. The pipeline always passes 8.

/** The detection pipeline: `detectAllRectangles` and the rectangle part of
    `simpleShapeDetection` in app.js. */
module Pipeline {
  import opened ArrayLib
  import opened Binarize
  import opened RunScan
  import opened LineGroup
  import opened Assemble
  import opened Dedup

  /** Sort key of `sort((a, b) => b.area - a.area)`: ascending on the negated
      area is descending on the area. */
  function NegArea(r: Rect): int
  {
    -r.area
  }

  /** Larger areas first; equal areas in ascending `y`. */
  predicate RankedByArea(rects: seq<Rect>)
  {
    forall i, j :: 0 <= i < j < |rects| ==>
      rects[i].area > rects[j].area || (rects[i].area == rects[j].area && rects[i].y <= rects[j].y)
  }

  /** The list `detectAllRectangles` returns for the candidates: duplicates
      removed, sorted by `y`, then re-sorted by descending area. */
  function Ranked(candidates: seq<Rect>): seq<Rect>
  {
    SortBy(SortBy(DedupAll(candidates), RectY), NegArea)
  }

  /** The ranked list keeps only candidates, is ordered by descending area
      with ties in `y` order (the area sort is stable and its input is
      sorted by `y`), and is empty when there are no candidates. */
  lemma RankedProperties(candidates: seq<Rect>)
    ensures multiset(Ranked(candidates)) <= multiset(candidates)
    ensures RankedByArea(Ranked(candidates))
    ensures (forall r :: r in candidates ==> WellShaped(r)) ==> forall r :: r in Ranked(candidates) ==> WellShaped(r)
    ensures candidates == [] ==> Ranked(candidates) == []
  {
    var byY := SortBy(DedupAll(candidates), RectY);
    var rects := SortBy(byY, NegArea);
    DedupAllSubset(candidates);
    SortByKeepsTies(byY, NegArea, RectY);
    assert LexSortedBy(rects, NegArea, RectY);
    forall r | r in rects ensures r in candidates {
      assert r in multiset(rects);
      assert r in multiset(candidates);
    }
  }

  /** The intermediate values of one detection: the horizontal and vertical
      runs, their groupings, and the candidate rectangles assembled from
      them before duplicate removal. */
  datatype Trace = Trace(hLines: seq<Run>, vLines: seq<Run>, hGroups: seq<Group>, vGroups: seq<Group>,
                         candidates: seq<Rect>)

  /** `t` is what detection computes on grid `g`: the runs are exactly the
      long maximal runs of the grid, both run lists are grouped with
      tolerance `GroupTolerance`, and the candidates are the rectangles
      framed by those groupings (none when either run list is empty). */
  ghost predicate Traced(g: seq<int>, width: nat, height: nat, offsetX: int, offsetY: int, t: Trace)
  {
    && RowRuns(g, width, height, t.hLines)
    && ColumnRuns(g, width, height, t.vLines)
    && (t.hLines == [] || t.vLines == [] ==> t.candidates == [])
    && (t.hLines != [] && t.vLines != [] ==>
          && IsGrouping(t.hGroups, t.hLines, GroupTolerance)
          && IsGrouping(t.vGroups, t.vLines, GroupTolerance)
          && t.candidates == RectanglesOf(t.hGroups, t.vGroups, width, height, offsetX, offsetY))
  }

  /** `detectAllRectangles(binary, width, height, offsetX, offsetY)`
      (app.js:179-201). `trace` records the runs, groupings and candidates
      computed on the way, for the contract only. */
  method DetectAllRectangles(binary: array<int>, width: nat, height: nat, offsetX: int, offsetY: int)
    returns (rects: seq<Rect>, ghost trace: Trace)
    requires binary.Length == width * height
    ensures Traced(binary[..], width, height, offsetX, offsetY, trace)
    ensures rects == Ranked(trace.candidates)
    ensures multiset(rects) <= multiset(trace.candidates)
    ensures RankedByArea(rects)
    ensures forall r :: r in rects ==> WellShaped(r)
    ensures (forall i :: 0 <= i < binary.Length ==> binary[i] != 1) ==> rects == []
  {
    var horizontalLines := DetectHorizontalLines(binary, width, height);
    var verticalLines := DetectVerticalLines(binary, width, height);
    var candidates;
    ghost var hGroups, vGroups;
    candidates, hGroups, vGroups := FindRectanglesFromLines(horizontalLines, verticalLines, width, height, offsetX, offsetY);
    trace := Trace(horizontalLines, verticalLines, hGroups, vGroups, candidates);
    var uniqueRects := RemoveDuplicateRectangles(candidates);
    rects := SortBy(uniqueRects, NegArea);
    RankedProperties(candidates);
  }

  /** A shape record as the editor stores it. */
  datatype Shape = Shape(kind: string, x: int, y: int, width: int, height: int, color: string, lineWidth: int)

  /** The area a shape outlines. */
  function ShapeArea(s: Shape): int
  {
    s.width * s.height
  }

  /** The record pushed for each detected rectangle. */
  function ShapeOf(r: Rect): (s: Shape)
    ensures s.kind == "rect" && s.color == "#00ff00" && s.lineWidth == 2
    ensures s.x == r.x && s.y == r.y && s.width == r.width && s.height == r.height
    ensures WellShaped(r) ==> ShapeArea(s) == r.area
  {
    Shape("rect", r.x, r.y, r.width, r.height, "#00ff00", 2)
  }

  /** The shape records pushed for `rects`, in order. */
  function ShapesOf(rects: seq<Rect>): (shapes: seq<Shape>)
    ensures |shapes| == |rects|
    ensures forall k :: 0 <= k < |rects| ==> shapes[k] == ShapeOf(rects[k])
  {
    if rects == [] then [] else ShapesOf(rects[..|rects| - 1]) + [ShapeOf(rects[|rects| - 1])]
  }

  /** Shapes made from well-shaped rectangles ranked by area are green
      rectangle outlines of width 2, larger than `MinSide` each way, with
      outlined areas descending. */
  lemma ShapesOfRanked(rects: seq<Rect>)
    requires RankedByArea(rects)
    requires forall r :: r in rects ==> WellShaped(r)
    ensures forall s :: s in ShapesOf(rects) ==>
      s.kind == "rect" && s.color == "#00ff00" && s.lineWidth == 2 && s.width > MinSide && s.height > MinSide
    ensures forall i, j :: 0 <= i < j < |rects| ==> ShapeArea(ShapesOf(rects)[i]) >= ShapeArea(ShapesOf(rects)[j])
  {
    ShapesOutlined(rects);
    ShapesDescending(rects);
  }

  lemma ShapesOutlined(rects: seq<Rect>)
    requires forall r :: r in rects ==> WellShaped(r)
    ensures forall s :: s in ShapesOf(rects) ==>
      s.kind == "rect" && s.color == "#00ff00" && s.lineWidth == 2 && s.width > MinSide && s.height > MinSide
  {
    var shapes := ShapesOf(rects);
    forall s | s in shapes ensures s.width > MinSide && s.height > MinSide {
      var k :| 0 <= k < |shapes| && shapes[k] == s;
      assert WellShaped(rects[k]) by {
        assert rects[k] in rects;
      }
    }
  }

  lemma ShapesDescending(rects: seq<Rect>)
    requires RankedByArea(rects)
    requires forall r :: r in rects ==> WellShaped(r)
    ensures forall i, j :: 0 <= i < j < |rects| ==> ShapeArea(ShapesOf(rects)[i]) >= ShapeArea(ShapesOf(rects)[j])
  {
    var shapes := ShapesOf(rects);
    forall i, j | 0 <= i < j < |shapes| ensures ShapeArea(shapes[i]) >= ShapeArea(shapes[j]) {
      AreaOrder(rects, i, j);
    }
  }

  lemma AreaOrder(rects: seq<Rect>, i: int, j: int)
    requires RankedByArea(rects)
    requires forall r :: r in rects ==> WellShaped(r)
    requires 0 <= i < j < |rects|
    ensures ShapeArea(ShapesOf(rects)[i]) >= ShapeArea(ShapesOf(rects)[j])
  {
    assert rects[i] in rects && rects[j] in rects;
  }

  /** The `forEach` that pushes one shape record per rectangle
      (app.js:163-174). */
  method PushShapes(rects: seq<Rect>) returns (shapes: seq<Shape>)
    ensures shapes == ShapesOf(rects)
  {
    shapes := [];
    for i := 0 to |rects|
      invariant shapes == ShapesOf(rects[..i])
    {
      assert rects[..i + 1][..i] == rects[..i];
      shapes := shapes + [ShapeOf(rects[i])];
    }
    assert rects[..|rects|] == rects;
  }

  /** `simpleShapeDetection(imageData, offsetX, offsetY)` (app.js:145-177):
      binarise, detect, and turn every rectangle into a green outline of
      width 2, largest first. */
  method SimpleShapeDetection(img: ImageData, offsetX: int, offsetY: int)
    returns (shapes: seq<Shape>, ghost grid: seq<int>, ghost trace: Trace)
    requires WellFormed(img)
    ensures |grid| == img.width * img.height
    ensures forall i :: 0 <= i < |grid| ==> grid[i] == BinaryValue(img.data, i)
    ensures Traced(grid, img.width, img.height, offsetX, offsetY, trace)
    ensures shapes == ShapesOf(Ranked(trace.candidates))
    ensures forall s :: s in shapes ==>
      s.kind == "rect" && s.color == "#00ff00" && s.lineWidth == 2 && s.width > MinSide && s.height > MinSide
    ensures forall i, j :: 0 <= i < j < |shapes| ==> ShapeArea(shapes[i]) >= ShapeArea(shapes[j])
    ensures (forall i :: 0 <= i < img.width * img.height ==>
      img.data[4 * i] as int + img.data[4 * i + 1] as int + img.data[4 * i + 2] as int >= 384) ==> shapes == []
  {
    var binary := Binarise(img);
    grid := binary[..];
    BackgroundGrid(img, grid);
    var rects;
    rects, trace := DetectAllRectangles(binary, img.width, img.height, offsetX, offsetY);
    shapes := PushShapes(rects);
    ShapesOfRanked(rects);
  }

  /** An image whose every pixel has a colour sum of at least 384 binarises
      to a grid without foreground cells. */
  lemma BackgroundGrid(img: ImageData, grid: seq<int>)
    requires WellFormed(img) && |grid| == img.width * img.height
    requires forall i :: 0 <= i < |grid| ==> grid[i] == BinaryValue(img.data, i)
    ensures (forall i :: 0 <= i < img.width * img.height ==>
      img.data[4 * i] as int + img.data[4 * i + 1] as int + img.data[4 * i + 2] as int >= 384) ==>
      forall i :: 0 <= i < |grid| ==> grid[i] != 1
  {
  }
}

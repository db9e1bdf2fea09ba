/** Duplicate removal: `removeDuplicateRectangles` in app.js. Candidates are
    taken in order; one that is near a rectangle already kept (every one of
    x, y, width and height within `DedupTolerance`) is a duplicate of the
    first such rectangle and replaces it only when its area is strictly
    larger; any other candidate is appended. The result is sorted by `y`. */
module Dedup {
  import opened ArrayLib
  import opened Assemble

  /** The `tolerance` of `removeDuplicateRectangles`. */
  const DedupTolerance: int := 5

  function Abs(d: int): nat
  {
    if d < 0 then -d else d
  }

  /** The duplicate test. */
  predicate Near(a: Rect, b: Rect)
  {
    && Abs(a.x - b.x) < DedupTolerance
    && Abs(a.y - b.y) < DedupTolerance
    && Abs(a.width - b.width) < DedupTolerance
    && Abs(a.height - b.height) < DedupTolerance
  }

  /** Sort key of `sort((a, b) => a.y - b.y)`. */
  function RectY(r: Rect): int
  {
    r.y
  }

  /** Index of the first kept rectangle near `r`, or `|unique|` when there
      is none. */
  function FirstNear(unique: seq<Rect>, r: Rect): (k: nat)
    ensures k <= |unique|
    ensures k < |unique| ==> Near(r, unique[k])
    ensures forall j :: 0 <= j < k ==> !Near(r, unique[j])
  {
    if unique == [] then 0
    else
      var k := FirstNear(unique[..|unique| - 1], r);
      if k < |unique| - 1 then k
      else if Near(r, unique[|unique| - 1]) then |unique| - 1
      else |unique|
  }

  /** One iteration of the `forEach`: how the kept list changes when
      candidate `r` is considered. */
  function DedupStep(unique: seq<Rect>, r: Rect): (u: seq<Rect>)
    ensures |u| == |unique| + 1 <==> forall j :: 0 <= j < |unique| ==> !Near(r, unique[j])
    ensures |u| == |unique| || |u| == |unique| + 1
    ensures |u| == |unique| + 1 ==> u[|unique|] == r
    ensures forall j :: 0 <= j < |unique| && j != FirstNear(unique, r) ==> u[j] == unique[j]
    ensures FirstNear(unique, r) < |unique| ==>
      u[FirstNear(unique, r)] == (if r.area > unique[FirstNear(unique, r)].area then r else unique[FirstNear(unique, r)])
    ensures forall j :: 0 <= j < |unique| ==> unique[j].area <= u[j].area
    ensures multiset(u) <= multiset(unique) + multiset{r}
  {
    var k := FirstNear(unique, r);
    var u := if k == |unique| then unique + [r]
      else if r.area > unique[k].area then unique[k := r]
      else unique;
    StepShape(unique, r, k, u);
    u
  }

  /** What one step does to the kept list, given the first near index
      `k`. */
  lemma StepShape(unique: seq<Rect>, r: Rect, k: nat, u: seq<Rect>)
    requires k <= |unique|
    requires k < |unique| ==> Near(r, unique[k])
    requires forall j :: 0 <= j < k ==> !Near(r, unique[j])
    requires u == if k == |unique| then unique + [r]
      else if r.area > unique[k].area then unique[k := r]
      else unique
    ensures |u| == |unique| + 1 <==> forall j :: 0 <= j < |unique| ==> !Near(r, unique[j])
    ensures |u| == |unique| || |u| == |unique| + 1
    ensures |u| == |unique| + 1 ==> u[|unique|] == r
    ensures forall j :: 0 <= j < |unique| && j != k ==> u[j] == unique[j]
    ensures k < |unique| ==> u[k] == (if r.area > unique[k].area then r else unique[k])
    ensures forall j :: 0 <= j < |unique| ==> unique[j].area <= u[j].area
    ensures multiset(u) <= multiset(unique) + multiset{r}
  {
    if k == |unique| {
      assert multiset(u) == multiset(unique) + multiset{r};
    } else if r.area > unique[k].area {
      assert multiset(u) == multiset(unique) - multiset{unique[k]} + multiset{r};
    }
  }

  /** The kept list after the `forEach` over `rects`. */
  function DedupAll(rects: seq<Rect>): seq<Rect>
  {
    if rects == [] then [] else DedupStep(DedupAll(rects[..|rects| - 1]), rects[|rects| - 1])
  }

  /** Duplicate removal only drops and reorders candidates: the kept list
      is a sub-multiset of the input, and it is empty only for empty
      input. */
  lemma {:induction false} DedupAllSubset(rects: seq<Rect>)
    ensures multiset(DedupAll(rects)) <= multiset(rects)
    ensures |DedupAll(rects)| <= |rects|
    ensures DedupAll(rects) == [] <==> rects == []
  {
    if rects != [] {
      var init, r := rects[..|rects| - 1], rects[|rects| - 1];
      assert rects == init + [r];
      assert multiset(rects) == multiset(init) + multiset{r};
      DedupAllSubset(init);
      var u := DedupAll(init);
      var u' := DedupStep(u, r);
      assert DedupAll(rects) == u';
      assert multiset(u') <= multiset(u) + multiset{r};
      if u == [] {
        assert |u'| == |u| + 1;
      }
    }
  }

  /** `after` is at least as long as `before` and holds, slot by slot, an
      area at least as large. */
  predicate SlotsGrow(before: seq<Rect>, after: seq<Rect>)
  {
    |before| <= |after| && forall k :: 0 <= k < |before| ==> before[k].area <= after[k].area
  }

  lemma DedupAllPrefix(rects: seq<Rect>, j: nat)
    requires 0 < j <= |rects|
    ensures DedupAll(rects[..j]) == DedupStep(DedupAll(rects[..j - 1]), rects[j - 1])
  {
    assert rects[..j][..j - 1] == rects[..j - 1];
  }

  /** As more candidates are processed the kept list never shrinks and the
      area held in each slot never decreases. */
  lemma {:induction false} DedupAreasGrow(rects: seq<Rect>, i: nat, j: nat)
    requires i <= j <= |rects|
    ensures SlotsGrow(DedupAll(rects[..i]), DedupAll(rects[..j]))
  {
    if i < j {
      DedupAreasGrow(rects, i, j - 1);
      DedupAllPrefix(rects, j);
      var start, before := DedupAll(rects[..i]), DedupAll(rects[..j - 1]);
      var after := DedupStep(before, rects[j - 1]);
      assert SlotsGrow(before, after);
      forall k | 0 <= k < |start| ensures start[k].area <= after[k].area {
        assert start[k].area <= before[k].area;
      }
    }
  }

  /** The `forEach` callback (app.js:517-539): scans the kept list for the
      first rectangle near `rect`, replaces it when `rect` is strictly
      larger, and appends `rect` when no kept rectangle is near it. */
  method AddCandidate(unique0: seq<Rect>, rect: Rect) returns (unique: seq<Rect>)
    ensures unique == DedupStep(unique0, rect)
  {
    unique := unique0;
    var isDuplicate := false;
    var i := 0;
    while i < |unique|
      invariant 0 <= i <= |unique|
      invariant !isDuplicate
      invariant unique == unique0
      invariant forall j :: 0 <= j < i ==> !Near(rect, unique[j])
    {
      var existing := unique[i];
      if Abs(rect.x - existing.x) < DedupTolerance
        && Abs(rect.y - existing.y) < DedupTolerance
        && Abs(rect.width - existing.width) < DedupTolerance
        && Abs(rect.height - existing.height) < DedupTolerance
      {
        isDuplicate := true;
        if rect.area > existing.area {
          unique := unique[i := rect];
        }
        assert FirstNear(unique0, rect) == i;
        break;
      }
      i := i + 1;
    }
    if !isDuplicate {
      unique := unique + [rect];
    }
  }

  /** The `forEach` over the candidates (app.js:517-539). */
  method DedupLoop(rectangles: seq<Rect>) returns (unique: seq<Rect>)
    ensures unique == DedupAll(rectangles)
  {
    unique := [];
    for idx := 0 to |rectangles|
      invariant unique == DedupAll(rectangles[..idx])
    {
      DedupAllPrefix(rectangles, idx + 1);
      unique := AddCandidate(unique, rectangles[idx]);
    }
    assert rectangles[..|rectangles|] == rectangles;
  }

  /** `removeDuplicateRectangles(rectangles)` (app.js:513-548). */
  method RemoveDuplicateRectangles(rectangles: seq<Rect>) returns (unique: seq<Rect>)
    ensures unique == SortBy(DedupAll(rectangles), RectY)
    ensures SortedBy(unique, RectY)
    ensures multiset(unique) <= multiset(rectangles)
    ensures unique == [] <==> rectangles == []
  {
    var kept := DedupLoop(rectangles);
    DedupAllSubset(rectangles);
    unique := SortBy(kept, RectY);
    assert multiset(unique) == multiset(kept);
    assert |unique| == |kept|;
  }
}

/** Rectangle assembly in `findRectanglesFromLines` (app.js): the kept
    horizontal groups, sorted by position, are paired with their immediate
    successor (a band), and every ordered pair of distinct kept vertical
    groups that is wide enough frames one rectangle in that band. */
module Assemble {
  import opened RunScan
  import opened ArrayLib
  import opened LineGroup
  import opened Classify

  /** A candidate rectangle; `x` and `y` are already shifted by the image's
      offset on the canvas. */
  datatype Rect = Rect(x: int, y: int, width: int, height: int, area: int)

  /** Both sides longer than `MinSide`, and the area is their product. */
  predicate WellShaped(r: Rect)
  {
    r.width > MinSide && r.height > MinSide && r.area == r.width * r.height
  }

  /** The `tolerance` passed to `groupNearbyLines` for both axes. */
  const GroupTolerance: int := 8
  /** Bands lower than this are skipped outright. */
  const MinBandHeight: int := 10
  /** The right side must lie more than this to the right of the left one. */
  const MinSideGap: int := 10
  /** Both sides of an emitted rectangle must exceed this. */
  const MinSide: int := 15

  /** Sort key of `sort((a, b) => a.avgPos - b.avgPos)`. */
  function GroupAvg(g: Group): int
  {
    g.avgPos
  }

  /** The rectangle framed by band `i` of `hs` and sides `m` (left) and `n`
      (right) of `vs`. */
  function Candidate(hs: seq<Group>, vs: seq<Group>, i: int, m: int, n: int, offsetX: int, offsetY: int): (r: Rect)
    requires 0 <= i && i + 1 < |hs| && 0 <= m < |vs| && 0 <= n < |vs|
    ensures r.area == r.width * r.height
  {
    var w := vs[n].avgPos - vs[m].avgPos;
    var h := hs[i + 1].avgPos - hs[i].avgPos;
    Rect(vs[m].avgPos + offsetX, hs[i].avgPos + offsetY, w, h, w * h)
  }

  /** Band `i` and sides `m`, `n` pass every test of the assembly loops. */
  predicate Framed(hs: seq<Group>, vs: seq<Group>, i: int, m: int, n: int)
    requires 0 <= i && i + 1 < |hs| && 0 <= m < |vs| && 0 <= n < |vs|
  {
    && m != n
    && vs[n].avgPos > vs[m].avgPos + MinSideGap
    && vs[n].avgPos - vs[m].avgPos > MinSide
    && hs[i + 1].avgPos - hs[i].avgPos > MinSide
  }

  /** Rectangles of band `i` with left side `m` and right sides `0 .. n-1`. */
  function PairsUpTo(hs: seq<Group>, vs: seq<Group>, i: nat, m: nat, n: nat, offsetX: int, offsetY: int): seq<Rect>
    requires i + 1 < |hs| && m < |vs| && n <= |vs|
  {
    if n == 0 then []
    else
      PairsUpTo(hs, vs, i, m, n - 1, offsetX, offsetY)
      + (if Framed(hs, vs, i, m, n - 1) then [Candidate(hs, vs, i, m, n - 1, offsetX, offsetY)] else [])
  }

  /** Rectangles of band `i` with left sides `0 .. m-1`. */
  function SidesUpTo(hs: seq<Group>, vs: seq<Group>, i: nat, m: nat, offsetX: int, offsetY: int): seq<Rect>
    requires i + 1 < |hs| && m <= |vs|
  {
    if m == 0 then []
    else SidesUpTo(hs, vs, i, m - 1, offsetX, offsetY) + PairsUpTo(hs, vs, i, m - 1, |vs|, offsetX, offsetY)
  }

  /** Rectangles of band `i`; a band lower than `MinBandHeight` is skipped. */
  function Band(hs: seq<Group>, vs: seq<Group>, i: nat, offsetX: int, offsetY: int): seq<Rect>
    requires i + 1 < |hs|
  {
    if hs[i + 1].avgPos - hs[i].avgPos < MinBandHeight then []
    else SidesUpTo(hs, vs, i, |vs|, offsetX, offsetY)
  }

  /** Rectangles of bands `0 .. k-1`. */
  function BandsUpTo(hs: seq<Group>, vs: seq<Group>, k: nat, offsetX: int, offsetY: int): seq<Rect>
    requires k < |hs| || k == 0
  {
    if k == 0 then [] else BandsUpTo(hs, vs, k - 1, offsetX, offsetY) + Band(hs, vs, k - 1, offsetX, offsetY)
  }

  /** Rectangles of every band of `hs`. */
  function AllBands(hs: seq<Group>, vs: seq<Group>, offsetX: int, offsetY: int): seq<Rect>
  {
    if |hs| < 2 then [] else BandsUpTo(hs, vs, |hs| - 1, offsetX, offsetY)
  }

  lemma {:induction false} PairsMembers(hs: seq<Group>, vs: seq<Group>, i: nat, m: nat, n: nat, offsetX: int, offsetY: int)
    requires i + 1 < |hs| && m < |vs| && n <= |vs|
    ensures forall r :: r in PairsUpTo(hs, vs, i, m, n, offsetX, offsetY) <==>
      exists n' :: 0 <= n' < n && Framed(hs, vs, i, m, n') && r == Candidate(hs, vs, i, m, n', offsetX, offsetY)
  {
    if n > 0 {
      PairsMembers(hs, vs, i, m, n - 1, offsetX, offsetY);
    }
  }

  lemma {:induction false} SidesMembers(hs: seq<Group>, vs: seq<Group>, i: nat, m: nat, offsetX: int, offsetY: int)
    requires i + 1 < |hs| && m <= |vs|
    ensures forall r :: r in SidesUpTo(hs, vs, i, m, offsetX, offsetY) <==>
      exists m', n' :: 0 <= m' < m && 0 <= n' < |vs| && Framed(hs, vs, i, m', n')
        && r == Candidate(hs, vs, i, m', n', offsetX, offsetY)
  {
    if m > 0 {
      SidesMembers(hs, vs, i, m - 1, offsetX, offsetY);
      PairsMembers(hs, vs, i, m - 1, |vs|, offsetX, offsetY);
    }
  }

  /** Membership in the assembled list: exactly the candidates of bands
      `0 .. k-1` that pass every test. */
  lemma {:induction false} BandsMembers(hs: seq<Group>, vs: seq<Group>, k: nat, offsetX: int, offsetY: int)
    requires k < |hs| || k == 0
    ensures forall r :: r in BandsUpTo(hs, vs, k, offsetX, offsetY) <==>
      exists i, m, n :: 0 <= i < k && 0 <= m < |vs| && 0 <= n < |vs| && Framed(hs, vs, i, m, n)
        && r == Candidate(hs, vs, i, m, n, offsetX, offsetY)
  {
    if k > 0 {
      var i := k - 1;
      var prev, band := BandsUpTo(hs, vs, i, offsetX, offsetY), Band(hs, vs, i, offsetX, offsetY);
      assert BandsUpTo(hs, vs, k, offsetX, offsetY) == prev + band;
      BandsMembers(hs, vs, i, offsetX, offsetY);
      if hs[i + 1].avgPos - hs[i].avgPos >= MinBandHeight {
        SidesMembers(hs, vs, i, |vs|, offsetX, offsetY);
      }
      forall r | r in band
        ensures exists m, n :: (0 <= m < |vs| && 0 <= n < |vs| && Framed(hs, vs, i, m, n)
          && r == Candidate(hs, vs, i, m, n, offsetX, offsetY))
      {
      }
      forall r, i', m, n | 0 <= i' < k && 0 <= m < |vs| && 0 <= n < |vs| && Framed(hs, vs, i', m, n)
          && r == Candidate(hs, vs, i', m, n, offsetX, offsetY)
        ensures r in prev + band
      {
        if i' == i {
          assert r in band;
        } else {
          assert r in prev;
        }
      }
    }
  }

  /** The innermost assembly loop (app.js:442-461): band `i`, left side
      `m`, every right side in turn. */
  method AssembleRightSides(sortedH: seq<Group>, vs: seq<Group>, i: nat, m: nat, offsetX: int, offsetY: int, rects0: seq<Rect>)
    returns (rects: seq<Rect>)
    requires i + 1 < |sortedH| && m < |vs|
    ensures rects == rects0 + PairsUpTo(sortedH, vs, i, m, |vs|, offsetX, offsetY)
  {
    rects := rects0;
    var top := sortedH[i];
    var rectHeight := sortedH[i + 1].avgPos - top.avgPos;
    for n := 0 to |vs|
      invariant rects == rects0 + PairsUpTo(sortedH, vs, i, m, n, offsetX, offsetY)
    {
      if m == n {
        continue;
      }
      var left := vs[m];
      var right := vs[n];
      if right.avgPos <= left.avgPos + MinSideGap {
        continue;
      }
      var rectWidth := right.avgPos - left.avgPos;
      if rectWidth > MinSide && rectHeight > MinSide {
        rects := rects + [Rect(left.avgPos + offsetX, top.avgPos + offsetY, rectWidth, rectHeight, rectWidth * rectHeight)];
      }
    }
  }

  /** One band of the assembly (app.js:432-462): skipped when lower than
      `MinBandHeight`, otherwise every left side in turn. */
  method AssembleBand(sortedH: seq<Group>, vs: seq<Group>, i: nat, offsetX: int, offsetY: int, rects0: seq<Rect>)
    returns (rects: seq<Rect>)
    requires i + 1 < |sortedH|
    ensures rects == rects0 + Band(sortedH, vs, i, offsetX, offsetY)
  {
    rects := rects0;
    var rectHeight := sortedH[i + 1].avgPos - sortedH[i].avgPos;
    if rectHeight < MinBandHeight {
      return;
    }
    for m := 0 to |vs|
      invariant rects == rects0 + SidesUpTo(sortedH, vs, i, m, offsetX, offsetY)
    {
      rects := AssembleRightSides(sortedH, vs, i, m, offsetX, offsetY, rects);
    }
  }

  /** The assembly loops (app.js:431-463) over the sorted kept horizontal
      groups `sortedH` and the kept vertical groups `vs`: every rectangle
      framed by two adjacent horizontal groups and an ordered pair of
      vertical ones that passes the tests, band by band. */
  method AssembleRectangles(sortedH: seq<Group>, vs: seq<Group>, offsetX: int, offsetY: int) returns (rects: seq<Rect>)
    requires |sortedH| >= 2
    ensures rects == AllBands(sortedH, vs, offsetX, offsetY)
    ensures forall r :: r in rects ==>
      WellShaped(r)
  {
    rects := [];
    for i := 0 to |sortedH| - 1
      invariant rects == BandsUpTo(sortedH, vs, i, offsetX, offsetY)
    {
      rects := AssembleBand(sortedH, vs, i, offsetX, offsetY, rects);
    }
    BandsMembers(sortedH, vs, |sortedH| - 1, offsetX, offsetY);
  }

  /** `findRectanglesFromLines` as a value, once both axes are grouped: the
      kept horizontal groups sorted by position, the kept vertical groups in
      their grouped order, and nothing unless each axis keeps two groups. */
  function RectanglesOf(hGroups: seq<Group>, vGroups: seq<Group>, width: int, height: int, offsetX: int, offsetY: int): seq<Rect>
  {
    var hs := SortBy(FilteredHorizontal(hGroups, width), GroupAvg);
    var vs := FrameGroups(vGroups, height);
    if |vs| < 2 then [] else AllBands(hs, vs, offsetX, offsetY)
  }

  /** The sides of an emitted rectangle: `top` and `bottom` are kept
      horizontal groups with no kept horizontal group strictly between them,
      `left` and `right` are kept vertical groups more than `MinSideGap`
      apart. */
  predicate FramedBy(r: Rect, top: Group, bottom: Group, left: Group, right: Group,
                     hs: seq<Group>, vs: seq<Group>, offsetX: int, offsetY: int)
  {
    && top in hs && bottom in hs && left in vs && right in vs
    && (forall g :: g in hs ==> g.avgPos <= top.avgPos || bottom.avgPos <= g.avgPos)
    && left.avgPos + MinSideGap < right.avgPos
    && r.x == left.avgPos + offsetX && r.width == right.avgPos - left.avgPos
    && r.y == top.avgPos + offsetY && r.height == bottom.avgPos - top.avgPos
  }

  /** Some two kept horizontal groups and two kept vertical ones frame `r`. */
  ghost predicate Framing(r: Rect, hs: seq<Group>, vs: seq<Group>, offsetX: int, offsetY: int)
  {
    exists top, bottom, left, right :: FramedBy(r, top, bottom, left, right, hs, vs, offsetX, offsetY)
  }

  /** Every rectangle is framed by two adjacent kept horizontal groups and
      two kept vertical ones, has both sides longer than `MinSide` and the
      product of its sides as area. */
  lemma RectanglesFramed(hGroups: seq<Group>, vGroups: seq<Group>, width: int, height: int, offsetX: int, offsetY: int)
    ensures forall r :: r in RectanglesOf(hGroups, vGroups, width, height, offsetX, offsetY) ==>
      && WellShaped(r)
      && Framing(r, FilteredHorizontal(hGroups, width), FrameGroups(vGroups, height), offsetX, offsetY)
  {
    var gs := FilteredHorizontal(hGroups, width);
    var vs := FrameGroups(vGroups, height);
    var hs := SortBy(gs, GroupAvg);
    var rects := RectanglesOf(hGroups, vGroups, width, height, offsetX, offsetY);
    assert rects == if |vs| < 2 then [] else AllBands(hs, vs, offsetX, offsetY);
    if |gs| >= 2 && |vs| >= 2 {
      BandsFramed(gs, vs, offsetX, offsetY);
      forall r | r in rects ensures WellShaped(r) && Framing(r, gs, vs, offsetX, offsetY) {
        assert r in AllBands(hs, vs, offsetX, offsetY);
      }
    } else {
      assert |hs| == |gs|;
      assert rects == [];
    }
  }

  /** `RectanglesFramed` for any kept groups `gs` and `vs`. */
  lemma BandsFramed(gs: seq<Group>, vs: seq<Group>, offsetX: int, offsetY: int)
    requires |gs| >= 2
    ensures forall r :: r in AllBands(SortBy(gs, GroupAvg), vs, offsetX, offsetY) ==>
      && WellShaped(r)
      && Framing(r, gs, vs, offsetX, offsetY)
  {
    var hs := SortBy(gs, GroupAvg);
    BandsMembers(hs, vs, |hs| - 1, offsetX, offsetY);
    forall r | r in AllBands(hs, vs, offsetX, offsetY)
      ensures WellShaped(r)
      ensures Framing(r, gs, vs, offsetX, offsetY)
    {
      var i, m, n :| 0 <= i < |hs| - 1 && 0 <= m < |vs| && 0 <= n < |vs| && Framed(hs, vs, i, m, n)
        && r == Candidate(hs, vs, i, m, n, offsetX, offsetY);
      CandidateFramed(gs, vs, i, m, n, offsetX, offsetY);
    }
  }

  /** One accepted candidate is well shaped and framed by its band and
      sides. */
  lemma CandidateFramed(gs: seq<Group>, vs: seq<Group>, i: nat, m: nat, n: nat, offsetX: int, offsetY: int)
    requires i + 1 < |gs| && m < |vs| && n < |vs|
    requires Framed(SortBy(gs, GroupAvg), vs, i, m, n)
    ensures var hs := SortBy(gs, GroupAvg);
      var r := Candidate(hs, vs, i, m, n, offsetX, offsetY);
      WellShaped(r) && FramedBy(r, hs[i], hs[i + 1], vs[m], vs[n], gs, vs, offsetX, offsetY)
  {
    AdjacentInSorted(gs, i);
  }

  /** Neighbours after sorting by position leave no element of the input
      strictly between them. */
  lemma AdjacentInSorted(gs: seq<Group>, i: nat)
    requires i + 1 < |gs|
    ensures var hs := SortBy(gs, GroupAvg);
      && hs[i] in gs && hs[i + 1] in gs
      && forall g :: g in gs ==> g.avgPos <= hs[i].avgPos || hs[i + 1].avgPos <= g.avgPos
  {
    var hs := SortBy(gs, GroupAvg);
    SortByMembers(gs, GroupAvg);
    SortedNeighbours(hs, GroupAvg, i);
    assert hs[i] in hs && hs[i + 1] in hs;
  }

  /** `groups` is what `groupNearbyLines` returns for `lines`. */
  predicate IsGrouping(groups: seq<Group>, lines: seq<Run>, tol: int)
  {
    && Members(groups) == SortBy(lines, RunPos)
    && Separated(groups, tol)
    && forall j :: 0 <= j < |groups| ==> WellFormedGroup(groups[j], tol)
  }

  /** A grouping with a non-negative tolerance lists its groups in strictly
      increasing `avgPos`, so consecutive main groups bound the regions. */
  lemma GroupingAscending(groups: seq<Group>, lines: seq<Run>, tol: int)
    requires IsGrouping(groups, lines, tol) && tol >= 0
    ensures AvgAscending(groups)
  {
    AvgPosIncreasing(groups, tol);
  }

  /** The part of `findRectanglesFromLines` after grouping (app.js:350-467):
      classify the groups of both axes, give up unless each axis keeps two,
      then assemble. */
  method RectanglesFromGroups(hGroups: seq<Group>, vGroups: seq<Group>, width: int, height: int, offsetX: int, offsetY: int)
    returns (rects: seq<Rect>)
    ensures rects == RectanglesOf(hGroups, vGroups, width, height, offsetX, offsetY)
    ensures |FilteredHorizontal(hGroups, width)| < 2 || |FrameGroups(vGroups, height)| < 2 ==> rects == []
    ensures forall r :: r in rects ==> WellShaped(r)
  {
    var mainHGroups := MainGroups(hGroups, width);
    var innerHGroups := InnerHGroups(hGroups, mainHGroups, width);
    var filteredHGroups := mainHGroups + innerHGroups;
    assert filteredHGroups == FilteredHorizontal(hGroups, width);
    var filteredVGroups := FrameGroups(vGroups, height);
    if |filteredHGroups| < 2 || |filteredVGroups| < 2 {
      return [];
    }
    var sortedHGroups := SortBy(filteredHGroups, GroupAvg);
    rects := AssembleRectangles(sortedHGroups, filteredVGroups, offsetX, offsetY);
  }

  /** `findRectanglesFromLines(hLines, vLines, width, height, offsetX,
      offsetY)` (app.js:313-468). `hGroups` and `vGroups` are the groupings
      the function computes internally, returned for the contract only. */
  method FindRectanglesFromLines(hLines: seq<Run>, vLines: seq<Run>, width: int, height: int, offsetX: int, offsetY: int)
    returns (rects: seq<Rect>, ghost hGroups: seq<Group>, ghost vGroups: seq<Group>)
    ensures hLines == [] || vLines == [] ==> rects == []
    ensures hLines != [] && vLines != [] ==>
      && IsGrouping(hGroups, hLines, GroupTolerance)
      && IsGrouping(vGroups, vLines, GroupTolerance)
      && rects == RectanglesOf(hGroups, vGroups, width, height, offsetX, offsetY)
    ensures forall r :: r in rects ==> WellShaped(r)
  {
    hGroups, vGroups := [], [];
    if |hLines| == 0 || |vLines| == 0 {
      return [], [], [];
    }
    var hs := GroupNearbyLines(hLines, GroupTolerance);
    var vs := GroupNearbyLines(vLines, GroupTolerance);
    hGroups, vGroups := hs, vs;
    rects := RectanglesFromGroups(hs, vs, width, height, offsetX, offsetY);
  }
}

/** Group classification in `findRectanglesFromLines` (app.js): which
    horizontal groups are main separators, which short ones are kept as inner
    separators between two main ones, and which vertical groups are kept as
    frame sides.

    `Math.max` over an empty list is `-Infinity` in JavaScript. It fails
    every `>=` length test, and each filter here applies at least one such
    test, so every predicate here rejects a group without runs. */
module Classify {
  import opened RunScan
  import opened ArrayLib
  import opened LineGroup

  /** `minInnerLineLength`. */
  const MinInnerLength: int := 15
  /** Margin kept between an inner separator and the main separators. */
  const RegionMargin: int := 10
  /** Regions this high or lower get no inner separators. */
  const MinRegionHeight: int := 80

  /** Longest run of the group is at least half the image width
      (`maxLen >= width * 0.5`, exact on whole numbers). */
  predicate IsMain(g: Group, width: int)
  {
    g.lines != [] && 2 * MaxLen(g.lines) >= width
  }

  /** A vertical group long enough to be a frame side
      (`maxLen >= height * 0.3`, written without fractions). */
  predicate IsFrame(g: Group, height: int)
  {
    g.lines != [] && 10 * MaxLen(g.lines) >= 3 * height
  }

  /** A short horizontal group strictly inside the band between the main
      separators at `top` and `bottom`, keeping `RegionMargin` to both. */
  predicate IsInner(g: Group, top: int, bottom: int, width: int)
  {
    && g.lines != []
    && g.avgPos > top + RegionMargin
    && g.avgPos < bottom - RegionMargin
    && MaxLen(g.lines) >= MinInnerLength
    && 2 * MaxLen(g.lines) < width
  }

  /** `mainHGroups`: `hGroups.filter(...)` keeping the main separators, in
      order (app.js:350-353). */
  function MainGroups(hGroups: seq<Group>, width: int): (r: seq<Group>)
    ensures |r| <= |hGroups|
    ensures forall g :: g in r <==> g in hGroups && IsMain(g, width)
    ensures AvgAscending(hGroups) ==> AvgAscending(r)
  {
    if hGroups == [] then []
    else
      var init, g := hGroups[..|hGroups| - 1], hGroups[|hGroups| - 1];
      assert hGroups == init + [g];
      assert AvgAscending(hGroups) ==> AvgAscending(init) && forall h :: h in init ==> h.avgPos < g.avgPos;
      MainGroups(init, width) + (if IsMain(g, width) then [g] else [])
  }

  /** The groups' `avgPos` values increase strictly, as `groupNearbyLines`
      produces them. */
  predicate AvgAscending(groups: seq<Group>)
  {
    forall i, j :: 0 <= i < j < |groups| ==> groups[i].avgPos < groups[j].avgPos
  }

  /** Successive main groups are consecutive: no main group lies strictly
      between them, so region `i` is bounded by neighbouring separators. */
  lemma MainConsecutive(hGroups: seq<Group>, width: int, i: nat)
    requires AvgAscending(hGroups)
    requires i + 1 < |MainGroups(hGroups, width)|
    ensures var main := MainGroups(hGroups, width);
      forall g :: g in hGroups && IsMain(g, width) ==> g.avgPos <= main[i].avgPos || g.avgPos >= main[i + 1].avgPos
  {
    var main := MainGroups(hGroups, width);
    forall g | g in hGroups && IsMain(g, width)
      ensures g.avgPos <= main[i].avgPos || g.avgPos >= main[i + 1].avgPos
    {
      AscendingNeighbours(main, i, g);
    }
  }

  /** In a sequence with strictly increasing `avgPos`, no element lies
      strictly between two neighbours. */
  lemma AscendingNeighbours(groups: seq<Group>, i: nat, g: Group)
    requires AvgAscending(groups) && i + 1 < |groups| && g in groups
    ensures g.avgPos <= groups[i].avgPos || g.avgPos >= groups[i + 1].avgPos
  {
    var k :| 0 <= k < |groups| && groups[k] == g;
    if k < i {
      assert groups[k].avgPos < groups[i].avgPos;
    } else if k > i + 1 {
      assert groups[i + 1].avgPos < groups[k].avgPos;
    }
  }

  /** `filteredVGroups`: `vGroups.filter(...)` keeping the frame sides, in
      order (app.js:405-408). */
  function FrameGroups(vGroups: seq<Group>, height: int): (r: seq<Group>)
    ensures |r| <= |vGroups|
    ensures forall g :: g in r <==> g in vGroups && IsFrame(g, height)
  {
    if vGroups == [] then []
    else
      var init, g := vGroups[..|vGroups| - 1], vGroups[|vGroups| - 1];
      assert vGroups == init + [g];
      FrameGroups(init, height) + (if IsFrame(g, height) then [g] else [])
  }

  /** `linesInRegion` before trimming: `hGroups.filter(...)` keeping the
      short groups inside the region, in order (app.js:370-376). */
  function RegionCandidates(hGroups: seq<Group>, top: int, bottom: int, width: int): (r: seq<Group>)
    ensures multiset(r) <= multiset(hGroups)
    ensures forall g :: g in r <==> g in hGroups && IsInner(g, top, bottom, width)
  {
    if hGroups == [] then []
    else
      var init, g := hGroups[..|hGroups| - 1], hGroups[|hGroups| - 1];
      assert hGroups == init + [g];
      RegionCandidates(init, top, bottom, width) + (if IsInner(g, top, bottom, width) then [g] else [])
  }

  /** Sort key of the descending sort by longest run. */
  function NegMaxLen(g: Group): int
  {
    if g.lines == [] then 0 else -MaxLen(g.lines)
  }

  /** Every group of `kept` has a longest run at least as long as that of
      every group of `all` left out of it. */
  predicate KeepsLongest(kept: seq<Group>, all: seq<Group>)
  {
    forall g, h :: g in kept && h in multiset(all) - multiset(kept) && g.lines != [] && h.lines != [] ==>
      MaxLen(h.lines) <= MaxLen(g.lines)
  }

  /** `linesInRegion` after trimming: with more than two candidates only the
      two with the longest runs are kept (a stable sort, so among equally long
      ones the earlier wins). */
  function RegionLines(hGroups: seq<Group>, top: int, bottom: int, width: int): (r: seq<Group>)
    ensures |r| <= 2
  {
    var c := RegionCandidates(hGroups, top, bottom, width);
    if |c| > 2 then SortBy(c, NegMaxLen)[..2] else c
  }

  /** The trimmed region list keeps every candidate when there are at most
      two, otherwise exactly two; it keeps only candidates, and none that it
      drops has a longer run than one it keeps. */
  lemma RegionLinesKeepLongest(hGroups: seq<Group>, top: int, bottom: int, width: int)
    ensures var r, c := RegionLines(hGroups, top, bottom, width), RegionCandidates(hGroups, top, bottom, width);
      && |r| == (if |c| > 2 then 2 else |c|)
      && multiset(r) <= multiset(c)
      && (|c| <= 2 ==> r == c)
      && (forall g :: g in r ==> g in hGroups && IsInner(g, top, bottom, width))
      && KeepsLongest(r, c)
  {
    var c := RegionCandidates(hGroups, top, bottom, width);
    if |c| > 2 {
      TopTwo(c);
    } else {
      assert multiset(c) - multiset(c) == multiset{};
    }
  }

  /** The first two groups after the descending sort by longest run are a
      sub-multiset of the input and keep the longest. */
  lemma TopTwo(c: seq<Group>)
    requires |c| > 2
    ensures multiset(SortBy(c, NegMaxLen)[..2]) <= multiset(c)
    ensures KeepsLongest(SortBy(c, NegMaxLen)[..2], c)
    ensures forall g :: g in SortBy(c, NegMaxLen)[..2] ==> g in c
  {
    var s := SortBy(c, NegMaxLen);
    SortedPrefixSmallest(s, NegMaxLen, 2);
    forall g | g in s[..2] ensures g in c {
      assert g in multiset(s);
    }
    forall g, h | g in s[..2] && h in multiset(c) - multiset(s[..2]) && g.lines != [] && h.lines != []
      ensures MaxLen(h.lines) <= MaxLen(g.lines)
    {
      assert NegMaxLen(g) <= NegMaxLen(h);
    }
  }

  /** What region `i` (between main separators `i` and `i + 1`) contributes
      to `innerHGroups`: nothing when it is not higher than
      `MinRegionHeight`. */
  function RegionContribution(hGroups: seq<Group>, main: seq<Group>, i: nat, width: int): (r: seq<Group>)
    requires i + 1 < |main|
    ensures |r| <= 2
  {
    var top, bottom := main[i].avgPos, main[i + 1].avgPos;
    if bottom - top > MinRegionHeight then RegionLines(hGroups, top, bottom, width) else []
  }

  /** What the first `k` regions contribute, region by region. */
  function Contributions(hGroups: seq<Group>, main: seq<Group>, k: nat, width: int): (css: seq<seq<Group>>)
    requires k < |main| || k == 0
    ensures |css| == k
    ensures forall i :: 0 <= i < k ==> css[i] == RegionContribution(hGroups, main, i, width)
  {
    if k == 0 then [] else Contributions(hGroups, main, k - 1, width) + [RegionContribution(hGroups, main, k - 1, width)]
  }

  /** `innerHGroups` after the first `k` regions. */
  function InnerUpTo(hGroups: seq<Group>, main: seq<Group>, k: nat, width: int): seq<Group>
    requires k < |main| || k == 0
  {
    Flatten(Contributions(hGroups, main, k, width))
  }

  /** One more region appends its contribution. */
  lemma InnerUpToStep(hGroups: seq<Group>, main: seq<Group>, k: nat, width: int)
    requires k + 1 < |main|
    ensures InnerUpTo(hGroups, main, k + 1, width) == InnerUpTo(hGroups, main, k, width) + RegionContribution(hGroups, main, k, width)
  {
    FlattenAppend(Contributions(hGroups, main, k, width), RegionContribution(hGroups, main, k, width));
  }

  /** `g` is kept as an inner separator of region `i`. */
  predicate InnerOfRegion(g: Group, hGroups: seq<Group>, main: seq<Group>, i: int, width: int)
  {
    && 0 <= i && i + 1 < |main|
    && main[i + 1].avgPos - main[i].avgPos > MinRegionHeight
    && g in hGroups
    && IsInner(g, main[i].avgPos, main[i + 1].avgPos, width)
  }

  /** `g` is kept as an inner separator of one of the first `k` regions. */
  predicate InnerBefore(g: Group, hGroups: seq<Group>, main: seq<Group>, k: int, width: int)
  {
    exists i :: 0 <= i < k && InnerOfRegion(g, hGroups, main, i, width)
  }

  /** Each region contributes at most two inner separators. */
  lemma InnerUpToLength(hGroups: seq<Group>, main: seq<Group>, k: nat, width: int)
    requires k < |main| || k == 0
    ensures |InnerUpTo(hGroups, main, k, width)| <= 2 * k
  {
    FlattenLength(Contributions(hGroups, main, k, width));
  }

  /** What one region contributes are inner separators of that region. */
  lemma ContributionSound(hGroups: seq<Group>, main: seq<Group>, i: nat, width: int)
    requires i + 1 < |main|
    ensures forall g :: g in RegionContribution(hGroups, main, i, width) ==> InnerOfRegion(g, hGroups, main, i, width)
  {
    if main[i + 1].avgPos - main[i].avgPos > MinRegionHeight {
      RegionLinesKeepLongest(hGroups, main[i].avgPos, main[i + 1].avgPos, width);
    }
  }

  /** Every inner separator comes from some region higher than
      `MinRegionHeight`, lies inside it with the margin, and is short. */
  lemma InnerUpToSound(hGroups: seq<Group>, main: seq<Group>, k: nat, width: int)
    requires k < |main| || k == 0
    ensures forall g :: g in InnerUpTo(hGroups, main, k, width) ==> InnerBefore(g, hGroups, main, k, width)
  {
    var css := Contributions(hGroups, main, k, width);
    FlattenMembers(css);
    forall g | g in InnerUpTo(hGroups, main, k, width) ensures InnerBefore(g, hGroups, main, k, width) {
      var i :| 0 <= i < |css| && g in css[i];
      ContributionSound(hGroups, main, i, width);
      assert InnerOfRegion(g, hGroups, main, i, width);
    }
  }

  /** `innerHGroups`: the loop over the regions between consecutive main
      separators (app.js:362-399). */
  method InnerHGroups(hGroups: seq<Group>, main: seq<Group>, width: int) returns (inner: seq<Group>)
    ensures main != [] ==> inner == InnerUpTo(hGroups, main, |main| - 1, width)
    ensures main == [] ==> inner == []
    ensures |main| < 2 ==> inner == []
  {
    inner := [];
    if |main| >= 2 {
      for i := 0 to |main| - 1
        invariant inner == InnerUpTo(hGroups, main, i, width)
      {
        InnerUpToStep(hGroups, main, i, width);
        var topY := main[i].avgPos;
        var bottomY := main[i + 1].avgPos;
        var regionHeight := bottomY - topY;
        var linesInRegion := RegionLines(hGroups, topY, bottomY, width);
        if regionHeight > MinRegionHeight {
          inner := inner + linesInRegion;
        }
      }
    }
  }

  /** `filteredHGroups`, as a value: the main separators followed by the
      inner ones. */
  function FilteredHorizontal(hGroups: seq<Group>, width: int): seq<Group>
  {
    var main := MainGroups(hGroups, width);
    main + (if |main| >= 2 then InnerUpTo(hGroups, main, |main| - 1, width) else [])
  }

  /** A kept horizontal group is either a main separator or an inner one of
      some region higher than `MinRegionHeight`. */
  lemma FilteredHorizontalSound(hGroups: seq<Group>, width: int)
    ensures var main := MainGroups(hGroups, width);
      forall g :: g in FilteredHorizontal(hGroups, width) ==>
        (g in hGroups && IsMain(g, width)) || InnerBefore(g, hGroups, main, |main| - 1, width)
  {
    var main := MainGroups(hGroups, width);
    var filtered := FilteredHorizontal(hGroups, width);
    if |main| >= 2 {
      var inner := InnerUpTo(hGroups, main, |main| - 1, width);
      assert filtered == main + inner;
      InnerUpToSound(hGroups, main, |main| - 1, width);
      forall g | g in filtered
        ensures (g in hGroups && IsMain(g, width)) || InnerBefore(g, hGroups, main, |main| - 1, width)
      {
        if g !in main {
          assert g in inner;
        }
      }
    } else {
      assert filtered == main;
    }
  }

  /** Every main separator is kept, and so is every group that a region
      higher than `MinRegionHeight` keeps. */
  lemma FilteredHorizontalComplete(hGroups: seq<Group>, width: int)
    ensures var main := MainGroups(hGroups, width);
      && (forall g :: g in hGroups && IsMain(g, width) ==> g in FilteredHorizontal(hGroups, width))
      && (forall i, g :: 0 <= i < |main| - 1 && main[i + 1].avgPos - main[i].avgPos > MinRegionHeight
            && g in RegionLines(hGroups, main[i].avgPos, main[i + 1].avgPos, width)
            ==> g in FilteredHorizontal(hGroups, width))
  {
    var main := MainGroups(hGroups, width);
    var filtered := FilteredHorizontal(hGroups, width);
    if |main| >= 2 {
      var css := Contributions(hGroups, main, |main| - 1, width);
      assert filtered == main + Flatten(css);
      FlattenMembers(css);
      forall i, g | 0 <= i < |main| - 1 && main[i + 1].avgPos - main[i].avgPos > MinRegionHeight
          && g in RegionLines(hGroups, main[i].avgPos, main[i + 1].avgPos, width)
        ensures g in filtered
      {
        assert g in css[i];
      }
    } else {
      assert filtered == main;
    }
  }
}

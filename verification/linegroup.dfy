/** Line grouping: `groupNearbyLines` in app.js. Runs are sorted by their
    fixed coordinate and chained greedily: a run joins the current group when
    its key is within `tolerance` of the previous run's key. The test is on
    consecutive keys only, so a chain of runs can make a group span more
    than `tolerance`. */
module LineGroup {
  import opened RunScan
  import opened ArrayLib

  /** A line group: `pos` is the key of the group's first longest run,
      `lines` its runs in sorted order, `avgPos` the rounded mean key. */
  datatype Group = Group(pos: int, lines: seq<Run>, avgPos: int)

  /** The sort key of `[...lines].sort((a, b) => a[posKey] - b[posKey])`. */
  function RunPos(r: Run): int
  {
    r.Pos()
  }

  /** `reduce((sum, line) => sum + line[posKey], 0)`. */
  function SumPos(s: seq<Run>): int
  {
    if s == [] then 0 else SumPos(s[..|s| - 1]) + s[|s| - 1].Pos()
  }

  /** `Math.round(sum / n)`: the integer nearest to `sum / n`, halves rounded
      up. */
  function RoundedMean(sum: int, n: int): (r: int)
    requires n > 0
    ensures n * (2 * r - 1) <= 2 * sum < n * (2 * r + 1)
  {
    (2 * sum + n) / (2 * n)
  }

  /** Index of the first longest run, as the `reduce` with a strict `>`
      comparison finds it. */
  function LongestIndex(s: seq<Run>): (i: nat)
    requires |s| > 0
    ensures i < |s|
    ensures forall k :: 0 <= k < |s| ==> s[k].length <= s[i].length
    ensures forall k :: 0 <= k < i ==> s[k].length < s[i].length
  {
    if |s| == 1 then 0
    else
      var j := LongestIndex(s[..|s| - 1]);
      if s[|s| - 1].length > s[j].length then |s| - 1 else j
  }

  /** `Math.max(...g.lines.map(l => l.length))` for a non-empty group. */
  function MaxLen(s: seq<Run>): (m: int)
    requires |s| > 0
    ensures forall k :: 0 <= k < |s| ==> s[k].length <= m
    ensures exists k :: 0 <= k < |s| && s[k].length == m
  {
    if |s| == 1 then s[0].length
    else
      var m := MaxLen(s[..|s| - 1]);
      assert forall k :: 0 <= k < |s| - 1 ==> s[..|s| - 1][k] == s[k];
      if s[|s| - 1].length > m then s[|s| - 1].length else m
  }

  /** The record pushed for a closed group (app.js:486-492 and 500-506). */
  function GroupOf(members: seq<Run>): Group
    requires |members| > 0
  {
    Group(members[LongestIndex(members)].Pos(), members, RoundedMean(SumPos(members), |members|))
  }

  function Last(s: seq<Run>): Run
    requires |s| > 0
  {
    s[|s| - 1]
  }

  /** Consecutive keys ascend by at most `tol`. */
  predicate Chained(s: seq<Run>, tol: int)
  {
    forall k :: 0 < k < |s| ==> 0 <= s[k].Pos() - s[k - 1].Pos() <= tol
  }

  /** A group as the grouper closes it. */
  predicate WellFormedGroup(g: Group, tol: int)
  {
    |g.lines| > 0 && Chained(g.lines, tol) && g == GroupOf(g.lines)
  }

  /** The last run of `a` and the first run of `b` are more than `tol`
      apart. */
  predicate Apart(a: Group, b: Group, tol: int)
  {
    |a.lines| > 0 && |b.lines| > 0 && b.lines[0].Pos() - Last(a.lines).Pos() > tol
  }

  /** Successive groups are `Apart`. */
  predicate Separated(groups: seq<Group>, tol: int)
  {
    forall j :: 0 <= j < |groups| - 1 ==> Apart(groups[j], groups[j + 1], tol)
  }

  /** The groups' member lists, concatenated. */
  function Members(groups: seq<Group>): seq<Run>
  {
    if groups == [] then [] else Members(groups[..|groups| - 1]) + groups[|groups| - 1].lines
  }

  lemma {:induction false} SumPosBounds(s: seq<Run>, lo: int, hi: int)
    requires forall k :: 0 <= k < |s| ==> lo <= s[k].Pos() <= hi
    ensures |s| * lo <= SumPos(s) <= |s| * hi
  {
    if s != [] {
      var init := s[..|s| - 1];
      assert forall k :: 0 <= k < |init| ==> init[k] == s[k];
      SumPosBounds(init, lo, hi);
      assert |s| * lo == |init| * lo + lo;
      assert |s| * hi == |init| * hi + hi;
    }
  }

  /** A rounded mean lies between the smallest and the largest value. */
  lemma RoundedMeanBetween(sum: int, n: int, lo: int, hi: int)
    requires n > 0 && n * lo <= sum <= n * hi
    ensures lo <= RoundedMean(sum, n) <= hi
  {
    var r := RoundedMean(sum, n);
    if r < lo {
      MulMonotone(2 * r + 1, 2 * lo - 1, n);
    }
    if r > hi {
      MulMonotone(2 * hi + 1, 2 * r - 1, n);
    }
  }

  lemma {:induction false} ChainedMonotone(s: seq<Run>, tol: int, i: int, j: int)
    requires Chained(s, tol) && 0 <= i <= j < |s|
    ensures s[i].Pos() <= s[j].Pos()
    decreases j - i
  {
    if i < j {
      ChainedMonotone(s, tol, i, j - 1);
    }
  }

  /** A group's `avgPos` lies between its smallest and its largest key,
      which are the keys of its first and last runs. */
  lemma GroupAvgBetween(g: Group, tol: int)
    requires WellFormedGroup(g, tol)
    ensures g.lines[0].Pos() <= g.avgPos <= Last(g.lines).Pos()
  {
    var s := g.lines;
    forall k | 0 <= k < |s| ensures s[0].Pos() <= s[k].Pos() <= Last(s).Pos() {
      ChainedMonotone(s, tol, 0, k);
      ChainedMonotone(s, tol, k, |s| - 1);
    }
    SumPosBounds(s, s[0].Pos(), Last(s).Pos());
    RoundedMeanBetween(SumPos(s), |s|, s[0].Pos(), Last(s).Pos());
  }

  /** With a non-negative tolerance, successive groups have strictly
      increasing `avgPos`. */
  lemma {:induction false} AvgPosIncreasing(groups: seq<Group>, tol: int)
    requires tol >= 0
    requires forall j :: 0 <= j < |groups| ==> WellFormedGroup(groups[j], tol)
    requires Separated(groups, tol)
    ensures forall i, j :: 0 <= i < j < |groups| ==> groups[i].avgPos < groups[j].avgPos
  {
    if |groups| > 1 {
      var n := |groups| - 1;
      var init := groups[..n];
      assert Separated(init, tol) by {
        forall j | 0 <= j < |init| - 1 ensures Apart(init[j], init[j + 1], tol) {
          assert init[j] == groups[j] && init[j + 1] == groups[j + 1];
        }
      }
      AvgPosIncreasing(init, tol);
      assert Apart(groups[n - 1], groups[n], tol);
      GroupAvgBetween(groups[n - 1], tol);
      GroupAvgBetween(groups[n], tol);
      assert groups[n - 1].avgPos < groups[n].avgPos;
      forall i | 0 <= i < n ensures groups[i].avgPos < groups[n].avgPos {
        if i < n - 1 {
          assert init[i].avgPos < init[n - 1].avgPos;
        }
      }
    }
  }

  /** What the grouping loop has established after looking at the first `i`
      sorted runs: the closed groups followed by the open one spell out
      `sorted[..i]`, closed groups are well formed and separated, the open
      one is chained and separated from the last closed group. */
  ghost predicate Grouped(sorted: seq<Run>, i: int, groups: seq<Group>, current: seq<Run>, tol: int)
  {
    && 1 <= i <= |sorted|
    && |current| > 0 && Last(current) == sorted[i - 1]
    && Members(groups) + current == sorted[..i]
    && (forall j :: 0 <= j < |groups| ==> WellFormedGroup(groups[j], tol))
    && Chained(current, tol)
    && Separated(groups, tol)
    && (groups != [] ==> current[0].Pos() - Last(groups[|groups| - 1].lines).Pos() > tol)
  }

  /** The run at `i` is close to its predecessor and joins the open group. */
  lemma GroupJoin(sorted: seq<Run>, i: int, groups: seq<Group>, current: seq<Run>, tol: int)
    requires Grouped(sorted, i, groups, current, tol) && i < |sorted| && SortedBy(sorted, RunPos)
    requires sorted[i].Pos() - sorted[i - 1].Pos() <= tol
    ensures Grouped(sorted, i + 1, groups, current + [sorted[i]], tol)
  {
    var current' := current + [sorted[i]];
    assert Members(groups) + current' == sorted[..i + 1] by {
      assert sorted[..i + 1] == sorted[..i] + [sorted[i]];
      assert Members(groups) + current' == (Members(groups) + current) + [sorted[i]];
    }
    assert Chained(current', tol) by {
      assert RunPos(sorted[i - 1]) <= RunPos(sorted[i]);
      forall k | 0 < k < |current'| ensures 0 <= current'[k].Pos() - current'[k - 1].Pos() <= tol {
        if k < |current| {
          assert current'[k] == current[k] && current'[k - 1] == current[k - 1];
        } else {
          assert current'[k - 1] == Last(current) == sorted[i - 1];
        }
      }
    }
    assert current'[0] == current[0];
  }

  /** Closing a chained open group after well-formed, separated groups, when
      the open group starts more than `tol` beyond the last closed one,
      keeps the closed groups well formed and separated and appends the
      open group's runs to their members. */
  lemma CloseGroup(groups: seq<Group>, current: seq<Run>, tol: int)
    requires forall j :: 0 <= j < |groups| ==> WellFormedGroup(groups[j], tol)
    requires Separated(groups, tol)
    requires |current| > 0 && Chained(current, tol)
    requires groups != [] ==> Apart(groups[|groups| - 1], GroupOf(current), tol)
    ensures var groups' := groups + [GroupOf(current)];
      && Members(groups') == Members(groups) + current
      && (forall j :: 0 <= j < |groups'| ==> WellFormedGroup(groups'[j], tol))
      && Separated(groups', tol)
  {
    var groups' := groups + [GroupOf(current)];
    assert groups'[..|groups|] == groups;
    forall j | 0 <= j < |groups'| - 1 ensures Apart(groups'[j], groups'[j + 1], tol) {
      if j < |groups| - 1 {
        assert Apart(groups[j], groups[j + 1], tol);
      }
    }
  }

  /** The run at `i` is far from its predecessor: the open group is closed
      and the run opens the next one. */
  lemma GroupClose(sorted: seq<Run>, i: int, groups: seq<Group>, current: seq<Run>, tol: int)
    requires Grouped(sorted, i, groups, current, tol) && i < |sorted|
    requires sorted[i].Pos() - sorted[i - 1].Pos() > tol
    ensures Grouped(sorted, i + 1, groups + [GroupOf(current)], [sorted[i]], tol)
  {
    CloseGroup(groups, current, tol);
    assert sorted[..i + 1] == sorted[..i] + [sorted[i]];
  }

  /** Closing the last open group yields the postcondition of
      `groupNearbyLines`. */
  lemma GroupFinish(sorted: seq<Run>, groups: seq<Group>, current: seq<Run>, tol: int)
    requires Grouped(sorted, |sorted|, groups, current, tol)
    ensures var groups' := groups + [GroupOf(current)];
      && Members(groups') == sorted
      && Separated(groups', tol)
      && (forall j :: 0 <= j < |groups'| ==> WellFormedGroup(groups'[j], tol))
  {
    CloseGroup(groups, current, tol);
    assert sorted[..|sorted|] == sorted;
  }

  /** Every group's `avgPos` lies within its key range, and with a
      non-negative tolerance the `avgPos` values increase strictly. */
  lemma GroupsAvg(groups: seq<Group>, tol: int)
    requires forall j :: 0 <= j < |groups| ==> WellFormedGroup(groups[j], tol)
    requires Separated(groups, tol)
    ensures forall j :: 0 <= j < |groups| ==>
      |groups[j].lines| > 0 && groups[j].lines[0].Pos() <= groups[j].avgPos <= Last(groups[j].lines).Pos()
    ensures tol >= 0 ==> forall i, j :: 0 <= i < j < |groups| ==> groups[i].avgPos < groups[j].avgPos
  {
    forall j | 0 <= j < |groups|
      ensures |groups[j].lines| > 0 && groups[j].lines[0].Pos() <= groups[j].avgPos <= Last(groups[j].lines).Pos()
    {
      GroupAvgBetween(groups[j], tol);
    }
    if tol >= 0 {
      AvgPosIncreasing(groups, tol);
    }
  }

  /** `groupNearbyLines(lines, posKey, tolerance)` (app.js:471-510). */
  method GroupNearbyLines(lines: seq<Run>, tolerance: int) returns (groups: seq<Group>)
    ensures groups == [] <==> lines == []
    ensures Members(groups) == SortBy(lines, RunPos)
    ensures Separated(groups, tolerance)
    ensures forall j :: 0 <= j < |groups| ==>
      && WellFormedGroup(groups[j], tolerance)
      && groups[j].lines[0].Pos() <= groups[j].avgPos <= Last(groups[j].lines).Pos()
    ensures tolerance >= 0 ==> forall i, j :: 0 <= i < j < |groups| ==> groups[i].avgPos < groups[j].avgPos
  {
    if |lines| == 0 {
      return [];
    }
    var sorted := SortBy(lines, RunPos);
    var currentGroup;
    groups, currentGroup := GroupSorted(sorted, tolerance);
    GroupFinish(sorted, groups, currentGroup, tolerance);
    if |currentGroup| > 0 {
      groups := groups + [GroupOf(currentGroup)];
    }
    GroupsAvg(groups, tolerance);
  }

  /** The loop of `groupNearbyLines` over the sorted runs (app.js:475-496):
      each run joins the open group when it is within `tolerance` of its
      predecessor, otherwise the open group is closed and the run opens the
      next one. */
  method GroupSorted(sorted: seq<Run>, tolerance: int) returns (groups: seq<Group>, currentGroup: seq<Run>)
    requires sorted != [] && SortedBy(sorted, RunPos)
    ensures Grouped(sorted, |sorted|, groups, currentGroup, tolerance)
  {
    groups := [];
    currentGroup := [sorted[0]];
    for i := 1 to |sorted|
      invariant Grouped(sorted, i, groups, currentGroup, tolerance)
    {
      if sorted[i].Pos() - sorted[i - 1].Pos() <= tolerance {
        GroupJoin(sorted, i, groups, currentGroup, tolerance);
        currentGroup := currentGroup + [sorted[i]];
      } else {
        GroupClose(sorted, i, groups, currentGroup, tolerance);
        if |currentGroup| > 0 {
          groups := groups + [GroupOf(currentGroup)];
        }
        currentGroup := [sorted[i]];
      }
    }
  }
}

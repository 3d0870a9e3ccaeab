/**
 * The panel aggregators of the scoring service: the drop-high/low deduction
 * aggregator used for the E-panel and the plain mean used for the D-panel.
 * Values are milli-points (see FixedPoint).
 */
module Aggregation {
  import opened Wrappers
  import opened FixedPoint

  /**
   * The audit record of one E-panel aggregation (`EScoreCalculation`): the raw
   * values in their original order, the values dropped (absent for panels of
   * fewer than three), the values actually averaged and their rounded mean.
   */
  datatype EScoreDetail = EScoreDetail(
    scores: seq<int>,
    droppedHigh: Option<int>,
    droppedLow: Option<int>,
    averagedScores: seq<int>,
    average: int)

  ghost predicate Ascending(s: seq<int>)
  {
    forall i, j :: 0 <= i < j < |s| ==> s[i] <= s[j]
  }

  ghost predicate IsMinimum(x: int, s: seq<int>)
  {
    x in s && forall i :: 0 <= i < |s| ==> x <= s[i]
  }

  ghost predicate IsMaximum(x: int, s: seq<int>)
  {
    x in s && forall i :: 0 <= i < |s| ==> s[i] <= x
  }

  /** Inserts `x` into an ascending list, keeping it ascending. */
  function Insert(x: int, s: seq<int>): (r: seq<int>)
    requires Ascending(s)
    ensures Ascending(r)
    ensures multiset(r) == multiset(s) + multiset{x}
  {
    if s == [] || x <= s[0] then
      [x] + s
    else
      var rest := Insert(x, s[1..]);
      InsertBehindHead(x, s, rest);
      [s[0]] + rest
  }

  /** Putting the head of `s` back in front of `x` inserted into its tail. */
  lemma InsertBehindHead(x: int, s: seq<int>, rest: seq<int>)
    requires Ascending(s) && s != [] && s[0] < x
    requires Ascending(rest) && multiset(rest) == multiset(s[1..]) + multiset{x}
    ensures Ascending([s[0]] + rest)
    ensures multiset([s[0]] + rest) == multiset(s) + multiset{x}
  {
    assert s == [s[0]] + s[1..];
    forall k | 0 <= k < |rest|
      ensures s[0] <= rest[k]
    {
      assert rest[k] in multiset(rest);
      if rest[k] != x {
        assert rest[k] in multiset(s[1..]);
        var j :| 0 <= j < |s[1..]| && s[1..][j] == rest[k];
        assert s[j + 1] == rest[k];
      }
    }
  }

  /** The copy sorted by `sort((a, b) => a - b)`: ascending, and a permutation of the input. */
  function SortAscending(s: seq<int>): (r: seq<int>)
    ensures Ascending(r)
    ensures multiset(r) == multiset(s)
    ensures |r| == |s|
  {
    if s == [] then
      []
    else
      assert s == [s[0]] + s[1..];
      var r := Insert(s[0], SortAscending(s[1..]));
      assert |r| == |multiset(r)| == |multiset(s)| == |s|;
      r
  }

  /**
   * `calculateAverageDeduction`: no values give an empty record; one or two
   * values are averaged as they are; three or more are sorted, exactly one
   * lowest and one highest value are dropped and the middle is averaged.
   */
  function Aggregate(ds: seq<int>): (r: EScoreDetail)
    ensures r.scores == ds
    ensures |ds| == 0 ==>
      r.averagedScores == [] && r.average == 0 && r.droppedLow == None && r.droppedHigh == None
    ensures 1 <= |ds| <= 2 ==>
      r.averagedScores == ds && r.droppedLow == None && r.droppedHigh == None
      && r.average == RoundedMean(ds)
    ensures |ds| >= 3 ==>
      && r.droppedLow.Some? && r.droppedHigh.Some?
      && IsMinimum(r.droppedLow.value, ds)
      && IsMaximum(r.droppedHigh.value, ds)
      && Ascending(r.averagedScores)
      && |r.averagedScores| == |ds| - 2
      && multiset(r.averagedScores) + multiset{r.droppedLow.value, r.droppedHigh.value} == multiset(ds)
      && r.average == RoundedMean(r.averagedScores)
      && r.droppedLow.value <= r.average <= r.droppedHigh.value
  {
    if |ds| == 0 then
      EScoreDetail([], None, None, [], 0)
    else if |ds| <= 2 then
      EScoreDetail(ds, None, None, ds, RoundedMean(ds))
    else
      var sorted := SortAscending(ds);
      var low, high := sorted[0], sorted[|sorted| - 1];
      var middle := sorted[1..|sorted| - 1];
      TrimmedFacts(ds, sorted);
      EScoreDetail(ds, Some(high), Some(low), middle, RoundedMean(middle))
  }

  /** What sorting and trimming one value from each end of a list gives. */
  lemma TrimmedFacts(ds: seq<int>, sorted: seq<int>)
    requires |ds| >= 3
    requires Ascending(sorted) && multiset(sorted) == multiset(ds) && |sorted| == |ds|
    ensures IsMinimum(sorted[0], ds)
    ensures IsMaximum(sorted[|sorted| - 1], ds)
    ensures multiset(sorted[1..|sorted| - 1]) + multiset{sorted[0], sorted[|sorted| - 1]} == multiset(ds)
    ensures sorted[0] <= RoundedMean(sorted[1..|sorted| - 1]) <= sorted[|sorted| - 1]
  {
    EndsBound(ds, sorted);
    TrimmedMultiset(sorted);
    MiddleBounded(sorted);
  }

  /** The ends of a sorted copy are the minimum and the maximum of the original. */
  lemma EndsBound(ds: seq<int>, sorted: seq<int>)
    requires |ds| > 0
    requires Ascending(sorted) && multiset(sorted) == multiset(ds) && |sorted| == |ds|
    ensures IsMinimum(sorted[0], ds)
    ensures IsMaximum(sorted[|sorted| - 1], ds)
  {
    var n := |sorted|;
    forall i | 0 <= i < |ds|
      ensures sorted[0] <= ds[i] <= sorted[n - 1]
    {
      assert ds[i] in multiset(sorted);
      var j :| 0 <= j < n && sorted[j] == ds[i];
    }
    assert sorted[0] in multiset(ds) && sorted[n - 1] in multiset(ds);
  }

  lemma TrimmedMultiset(sorted: seq<int>)
    requires |sorted| >= 2
    ensures multiset(sorted[1..|sorted| - 1]) + multiset{sorted[0], sorted[|sorted| - 1]} == multiset(sorted)
  {
    var n := |sorted|;
    assert sorted == [sorted[0]] + sorted[1..n - 1] + [sorted[n - 1]];
  }

  lemma MiddleBounded(sorted: seq<int>)
    requires |sorted| >= 3 && Ascending(sorted)
    ensures sorted[0] <= RoundedMean(sorted[1..|sorted| - 1]) <= sorted[|sorted| - 1]
  {
    var n := |sorted|;
    var middle := sorted[1..n - 1];
    assert forall i :: 0 <= i < |middle| ==> middle[i] == sorted[i + 1];
    RoundedMeanBounds(middle, sorted[0], sorted[n - 1]);
  }

  /**
   * `averageDScores`: the rounded mean of every D-panel value; nothing is
   * dropped, whatever the panel size.
   */
  function AverageDScores(scores: seq<int>): (r: int)
    ensures |scores| == 0 ==> r == 0
    ensures |scores| > 0 && Sum(scores) >= 0 ==>
      2 * |scores| * r <= 2 * Sum(scores) + |scores| < 2 * |scores| * r + 2 * |scores|
  {
    if |scores| == 0 then 0 else RoundedMean(scores)
  }

  /** The D average of values in [lo, hi] stays in [lo, hi]. */
  lemma AverageDScoresBounds(scores: seq<int>, lo: int, hi: int)
    requires |scores| > 0
    requires forall i :: 0 <= i < |scores| ==> lo <= scores[i] <= hi
    ensures lo <= AverageDScores(scores) <= hi
  {
    RoundedMeanBounds(scores, lo, hi);
  }
}

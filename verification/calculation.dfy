/**
 * The arithmetic of `calculateFinalScore`: selecting a performance's score
 * rows, splitting them by panel, the neutral deductions and the closed form
 * final = D + E - neutral.
 */
module Calculation {
  import opened Wrappers
  import opened FixedPoint
  import opened Aggregation
  import opened Records

  /** The score rows of one performance, in table (submission) order. */
  function ScoresFor(rows: seq<ScoreRow>, performanceId: int): (r: seq<ScoreRow>)
    ensures |r| <= |rows|
    ensures forall i :: 0 <= i < |r| ==> r[i].performanceId == performanceId && r[i] in rows
    ensures forall i :: 0 <= i < |rows| && rows[i].performanceId == performanceId ==> rows[i] in r
  {
    if rows == [] then []
    else
      var last := rows[|rows| - 1];
      ScoresFor(rows[..|rows| - 1], performanceId) + (if last.performanceId == performanceId then [last] else [])
  }

  /** The values of the rows of one panel, in table order. */
  function PanelValues(rows: seq<ScoreRow>, t: ScoreType): (r: seq<int>)
    ensures |r| <= |rows|
    ensures forall i :: 0 <= i < |rows| && rows[i].scoreType == t ==> rows[i].value in r
    ensures forall v :: v in r ==> exists i :: 0 <= i < |rows| && rows[i].scoreType == t && rows[i].value == v
  {
    if rows == [] then []
    else
      var last := rows[|rows| - 1];
      var front := rows[..|rows| - 1];
      assert forall i :: 0 <= i < |front| ==> front[i] == rows[i];
      PanelValues(front, t) + (if last.scoreType == t then [last.value] else [])
  }

  /**
   * The selection keeps every row of the performance exactly as often as the
   * table holds it, and no other row.
   */
  lemma {:induction false} ScoresForCount(rows: seq<ScoreRow>, performanceId: int, x: ScoreRow)
    ensures multiset(ScoresFor(rows, performanceId))[x] ==
      if x.performanceId == performanceId then multiset(rows)[x] else 0
  {
    if rows != [] {
      var n := |rows|;
      var front := rows[..n - 1];
      assert rows == front + [rows[n - 1]];
      ScoresForCount(front, performanceId, x);
    }
  }

  /**
   * Each value occurs in a panel's list exactly as many times as rows of that
   * panel carry it, so the mean weighs every judge once.
   */
  lemma {:induction false} PanelValuesCount(rows: seq<ScoreRow>, t: ScoreType, v: int)
    ensures multiset(PanelValues(rows, t))[v] == |PanelIndices(rows, t, v)|
  {
    if rows != [] {
      PanelValuesCount(rows[..|rows| - 1], t, v);
      PanelIndicesSnoc(rows, t, v);
    }
  }

  /** The positions of the rows of panel `t` that carry the value `v`. */
  ghost function PanelIndices(rows: seq<ScoreRow>, t: ScoreType, v: int): set<int>
  {
    set i | 0 <= i < |rows| && rows[i].scoreType == t && rows[i].value == v
  }

  lemma PanelIndicesSnoc(rows: seq<ScoreRow>, t: ScoreType, v: int)
    requires rows != []
    ensures |PanelIndices(rows, t, v)| ==
      |PanelIndices(rows[..|rows| - 1], t, v)| + (if rows[|rows| - 1].scoreType == t && rows[|rows| - 1].value == v then 1 else 0)
  {
    var n := |rows|;
    var front := rows[..n - 1];
    var before, after := PanelIndices(front, t, v), PanelIndices(rows, t, v);
    var lastOnes: set<int> := if rows[n - 1].scoreType == t && rows[n - 1].value == v then {n - 1} else {};
    forall i ensures i in after <==> i in before + lastOnes {
      if 0 <= i < n - 1 {
        assert front[i] == rows[i];
      }
    }
    assert after == before + lastOnes;
    assert before !! lastOnes;
  }

  /** The rows of one panel. */
  function OfType(rows: seq<ScoreRow>, t: ScoreType): seq<ScoreRow>
  {
    if rows == [] then []
    else
      var last := rows[|rows| - 1];
      OfType(rows[..|rows| - 1], t) + (if last.scoreType == t then [last] else [])
  }

  /**
   * What one penalty adds: its value, or nothing when the value is missing.
   * A `null` element adds nothing here; `NeutralDeductions` fails on it.
   */
  function PenaltyValue(p: Penalty): int
  {
    match p
    case Penalty(_, Some(v)) => v
    case _ => 0
  }

  function PenaltyListSum(ps: seq<Penalty>): int
  {
    if ps == [] then 0 else PenaltyListSum(ps[..|ps| - 1]) + PenaltyValue(ps[|ps| - 1])
  }

  /** What one row adds: the sum of its penalty list, or nothing when it has none. */
  function RowPenalties(row: ScoreRow): int
  {
    match row.penalties
    case PenaltyList(ps) => PenaltyListSum(ps)
    case _ => 0
  }

  /** The neutral deductions of a set of rows: every penalty value of every row. */
  function PenaltySum(rows: seq<ScoreRow>): int
  {
    if rows == [] then 0 else PenaltySum(rows[..|rows| - 1]) + RowPenalties(rows[|rows| - 1])
  }

  lemma {:induction false} PenaltySumAppend(a: seq<ScoreRow>, b: seq<ScoreRow>)
    ensures PenaltySum(a + b) == PenaltySum(a) + PenaltySum(b)
  {
    if b != [] {
      assert (a + b)[..|a + b| - 1] == a + b[..|b| - 1];
      PenaltySumAppend(a, b[..|b| - 1]);
    } else {
      assert a + b == a;
    }
  }

  /** Penalties count from both panels: the total is the D rows' part plus the E rows' part. */
  lemma {:induction false} PenaltySumBothPanels(rows: seq<ScoreRow>)
    ensures PenaltySum(rows) == PenaltySum(OfType(rows, DScore)) + PenaltySum(OfType(rows, EScore))
  {
    if rows != [] {
      var front, last := rows[..|rows| - 1], rows[|rows| - 1];
      PenaltySumBothPanels(front);
      PenaltySumAppend(OfType(front, DScore), if last.scoreType == DScore then [last] else []);
      PenaltySumAppend(OfType(front, EScore), if last.scoreType == EScore then [last] else []);
      assert PenaltySum([last]) == RowPenalties(last) by {
        assert [last][..0] == [];
      }
    }
  }

  /** Why `calculateFinalScore` throws: no rows, or a `null` penalty whose `value` it reads. */
  datatype CalcError = NoScoresFound | UnreadablePenalty

  /** A row whose penalty list holds a `null` element cannot be summed. */
  predicate RowReadable(row: ScoreRow)
  {
    !(row.penalties.PenaltyList? && NullPenalty in row.penalties.items)
  }

  predicate PenaltiesReadable(rows: seq<ScoreRow>)
  {
    forall i :: 0 <= i < |rows| ==> RowReadable(rows[i])
  }

  /**
   * `calculateNeutralDeductions`: walks every row and every penalty of a row
   * that carries a penalty list, adding each non-zero value; reading the
   * `value` of a `null` element throws.
   */
  method NeutralDeductions(rows: seq<ScoreRow>) returns (res: Result<int, CalcError>)
    ensures res.Failure? <==> !PenaltiesReadable(rows)
    ensures res.Failure? ==> res.error == UnreadablePenalty
    ensures res.Success? ==> res.value == PenaltySum(rows)
  {
    var total := 0;
    var i := 0;
    while i < |rows|
      invariant 0 <= i <= |rows|
      invariant PenaltiesReadable(rows[..i])
      invariant total == PenaltySum(rows[..i])
    {
      RowStep(rows, i);
      match rows[i].penalties {
        case PenaltyList(ps) =>
          var j := 0;
          var rowTotal := 0;
          while j < |ps|
            invariant 0 <= j <= |ps|
            invariant NullPenalty !in ps[..j]
            invariant rowTotal == PenaltyListSum(ps[..j])
          {
            PenaltyStep(ps, j);
            match ps[j] {
              case NullPenalty =>
                return Failure(UnreadablePenalty);
              case Penalty(_, value) =>
                if value.Some? && value.value != 0 {
                  rowTotal := rowTotal + value.value;
                }
            }
            j := j + 1;
          }
          assert ps[..j] == ps;
          total := total + rowTotal;
        case _ =>
      }
      i := i + 1;
    }
    assert rows[..i] == rows;
    res := Success(total);
  }

  /** One more row: its penalties add to the total, and it must be readable too. */
  lemma RowStep(rows: seq<ScoreRow>, i: nat)
    requires i < |rows|
    ensures PenaltySum(rows[..i + 1]) == PenaltySum(rows[..i]) + RowPenalties(rows[i])
    ensures PenaltiesReadable(rows[..i + 1]) <==> PenaltiesReadable(rows[..i]) && RowReadable(rows[i])
  {
    assert rows[..i + 1][..i] == rows[..i];
    assert rows[..i + 1][i] == rows[i];
  }

  /** One more penalty: its value adds to the row's sum, and it is `null` or not. */
  lemma PenaltyStep(ps: seq<Penalty>, j: nat)
    requires j < |ps|
    ensures PenaltyListSum(ps[..j + 1]) == PenaltyListSum(ps[..j]) + PenaltyValue(ps[j])
    ensures NullPenalty in ps[..j + 1] <==> NullPenalty in ps[..j] || ps[j] == NullPenalty
  {
    assert ps[..j + 1] == ps[..j] + [ps[j]];
  }

  /** `Math.max(0, 10.0 - average)`: the E-score from the panel's average deduction. */
  function ExecutionScore(averageDeduction: int): (e: int)
    ensures e >= 0
    ensures averageDeduction <= TenPoints ==> e == TenPoints - averageDeduction
    ensures averageDeduction >= TenPoints ==> e == 0
  {
    if TenPoints - averageDeduction > 0 then TenPoints - averageDeduction else 0
  }

  ghost predicate NonNegativeValues(rows: seq<ScoreRow>)
  {
    forall i :: 0 <= i < |rows| ==> rows[i].value >= 0
  }

  /**
   * The figures `calculateFinalScore` stores for a performance with score
   * rows `rows`: D is the plain mean of the D panel, E is 10 minus the
   * aggregated E-panel deduction, floored at 0, and the final score is their
   * sum less every penalty.
   */
  function Compute(rows: seq<ScoreRow>): (f: Figures)
    ensures f.finalScore == f.dScore + f.eScore - f.neutralDeductions
    ensures f.neutralDeductions == PenaltySum(rows)
    ensures f.eScoresDetail.scores == PanelValues(rows, EScore)
    ensures PanelValues(rows, DScore) == [] ==> f.dScore == 0
    ensures PanelValues(rows, EScore) == [] ==> f.eScore == 0
    ensures PanelValues(rows, EScore) != [] ==> f.eScore == ExecutionScore(f.eScoresDetail.average)
    ensures NonNegativeValues(rows) ==> 0 <= f.dScore && 0 <= f.eScore <= TenPoints
  {
    var dValues, eValues := PanelValues(rows, DScore), PanelValues(rows, EScore);
    var d := if |dValues| > 0 then AverageDScores(dValues) else 0;
    var detail := if |eValues| > 0 then Aggregate(eValues) else EScoreDetail([], None, None, [], 0);
    var e := if |eValues| > 0 then ExecutionScore(detail.average) else 0;
    var neutral := PenaltySum(rows);
    NonNegativeAggregates(rows);
    Figures(d, e, neutral, d + e - neutral, detail)
  }

  /**
   * The rules of Compute that name the panel aggregates: D is the rounded
   * mean of every D value, and the stored E detail is the trimmed-mean
   * aggregation of the E values. (Kept apart from Compute's own contract so
   * that every mention of Compute does not carry the aggregates' contracts.)
   */
  lemma ComputeFromPanels(rows: seq<ScoreRow>)
    ensures PanelValues(rows, DScore) != [] ==> Compute(rows).dScore == AverageDScores(PanelValues(rows, DScore))
    ensures PanelValues(rows, EScore) != [] ==> Compute(rows).eScoresDetail == Aggregate(PanelValues(rows, EScore))
    ensures PanelValues(rows, EScore) != [] ==> Compute(rows).eScore == ExecutionScore(Aggregate(PanelValues(rows, EScore)).average)
  {
  }

  /**
   * The figures of `calculateFinalScore`, step by step as the service
   * computes them: D, then E and its detail, then the neutral deductions,
   * which throw on a `null` penalty.
   */
  method ComputeFigures(rows: seq<ScoreRow>) returns (res: Result<Figures, CalcError>)
    ensures res.Failure? <==> !PenaltiesReadable(rows)
    ensures res.Failure? ==> res.error == UnreadablePenalty
    ensures res.Success? ==> res.value == Compute(rows)
  {
    var dValues, eValues := PanelValues(rows, DScore), PanelValues(rows, EScore);
    var d := 0;
    if |dValues| > 0 {
      d := AverageDScores(dValues);
    }
    var e := 0;
    var detail := EScoreDetail([], None, None, [], 0);
    if |eValues| > 0 {
      detail := Aggregate(eValues);
      e := ExecutionScore(detail.average);
    }
    var penalties := NeutralDeductions(rows);
    if penalties.Failure? {
      return Failure(penalties.error);
    }
    var neutral := penalties.value;
    ComputeFromParts(rows, d, e, neutral, detail);
    res := Success(Figures(d, e, neutral, d + e - neutral, detail));
  }

  /** Compute, piece by piece, as `calculateFinalScore` assembles it. */
  lemma ComputeFromParts(rows: seq<ScoreRow>, d: int, e: int, neutral: int, detail: EScoreDetail)
    requires d == (if |PanelValues(rows, DScore)| > 0 then AverageDScores(PanelValues(rows, DScore)) else 0)
    requires detail == (if |PanelValues(rows, EScore)| > 0 then Aggregate(PanelValues(rows, EScore)) else EScoreDetail([], None, None, [], 0))
    requires e == (if |PanelValues(rows, EScore)| > 0 then ExecutionScore(detail.average) else 0)
    requires neutral == PenaltySum(rows)
    ensures Compute(rows) == Figures(d, e, neutral, d + e - neutral, detail)
  {
    var f := Compute(rows);
    assert f.dScore == d && f.eScoresDetail == detail;
    assert f.eScore == e && f.neutralDeductions == neutral;
  }

  lemma NonNegativeAggregates(rows: seq<ScoreRow>)
    ensures NonNegativeValues(rows) ==> AverageDScores(PanelValues(rows, DScore)) >= 0
    ensures NonNegativeValues(rows) ==> Aggregate(PanelValues(rows, EScore)).average >= 0
  {
    if NonNegativeValues(rows) {
      var dValues := PanelValues(rows, DScore);
      PanelValuesNonNegative(rows, DScore);
      PanelValuesNonNegative(rows, EScore);
      if |dValues| > 0 {
        AverageDScoresBounds(dValues, 0, Max(dValues));
      }
      AggregateNonNegative(PanelValues(rows, EScore));
    }
  }

  /** Aggregating non-negative deductions gives a non-negative average. */
  lemma AggregateNonNegative(ds: seq<int>)
    requires forall k :: 0 <= k < |ds| ==> ds[k] >= 0
    ensures Aggregate(ds).average >= 0
  {
    var r := Aggregate(ds);
    if 0 < |ds| <= 2 {
      RoundedMeanBounds(ds, 0, Max(ds));
    } else if |ds| >= 3 {
      var low := r.droppedLow.value;
      assert low in ds;
      assert low <= r.average;
    }
  }

  lemma {:induction false} PanelValuesNonNegative(rows: seq<ScoreRow>, t: ScoreType)
    requires NonNegativeValues(rows)
    ensures forall k :: 0 <= k < |PanelValues(rows, t)| ==> PanelValues(rows, t)[k] >= 0
  {
    if rows != [] {
      PanelValuesNonNegative(rows[..|rows| - 1], t);
    }
  }

  /** The largest value of a non-empty list. */
  function Max(s: seq<int>): (m: int)
    requires |s| > 0
    ensures m in s && forall i :: 0 <= i < |s| ==> s[i] <= m
  {
    if |s| == 1 then s[0]
    else
      var m := Max(s[1..]);
      assert forall i :: 1 <= i < |s| ==> s[i] == s[1..][i - 1];
      if s[0] >= m then s[0] else m
  }
}

/**
 * Worked examples of the scoring rules, in milli-points: an E panel of four,
 * a D panel of two, their combination with and without a penalty, publishing
 * an id that has no final score, and a tie on the leaderboard.
 */
module Scenarios {
  import opened Wrappers
  import opened FixedPoint
  import opened Aggregation
  import opened Records
  import opened Calculation
  import opened ScoringService
  import opened Leaderboard

  lemma SumOfTwo(a: int, b: int)
    ensures Sum([a, b]) == a + b
  {
    assert [a, b][..1] == [a];
    assert [a][..0] == [];
    assert Sum([a]) == a;
  }

  /** Sorting a list that is already ascending, one head at a time. */
  lemma SortAscendingCons(x: int, s: seq<int>)
    requires SortAscending(s) == s
    requires s == [] || x <= s[0]
    ensures SortAscending([x] + s) == [x] + s
  {
    assert ([x] + s)[1..] == s;
  }

  lemma SortOne(x: int)
    ensures SortAscending([x]) == [x]
  {
    SortAscendingCons(x, []);
    assert [x] + [] == [x];
  }

  lemma SortTwo(x: int, y: int)
    requires x <= y
    ensures SortAscending([x, y]) == [x, y]
  {
    SortOne(y);
    SortAscendingCons(x, [y]);
    assert [x] + [y] == [x, y];
  }

  lemma SortThree(x: int, y: int, z: int)
    requires x <= y <= z
    ensures SortAscending([x, y, z]) == [x, y, z]
  {
    SortTwo(y, z);
    SortAscendingCons(x, [y, z]);
    assert [x] + [y, z] == [x, y, z];
  }

  lemma SortFour(w: int, x: int, y: int, z: int)
    requires w <= x <= y <= z
    ensures SortAscending([w, x, y, z]) == [w, x, y, z]
  {
    SortThree(x, y, z);
    SortAscendingCons(w, [x, y, z]);
    ConsOfFour(w, x, y, z);
  }

  lemma ConsOfFour(w: int, x: int, y: int, z: int)
    ensures [w] + [x, y, z] == [w, x, y, z]
  {
  }

  lemma MiddleOfThree(x: int, y: int, z: int)
    ensures [x, y, z][1..2] == [y]
  {
  }

  lemma MiddleOfFour(w: int, x: int, y: int, z: int)
    ensures [w, x, y, z][1..3] == [x, y]
  {
  }

  /** Four ascending deductions: the outer two are dropped and the inner two averaged. */
  lemma AggregateOfFour(w: int, x: int, y: int, z: int)
    requires w <= x <= y <= z
    ensures Aggregate([w, x, y, z]) == EScoreDetail([w, x, y, z], Some(z), Some(w), [x, y], RoundedMean([x, y]))
  {
    var sorted := SortAscending([w, x, y, z]);
    SortFour(w, x, y, z);
    assert sorted[0] == w && sorted[|sorted| - 1] == z;
    MiddleOfFour(w, x, y, z);
  }

  lemma MeanOfTwo(a: int, b: int)
    requires a + b >= 0 && (a + b) % 2 == 0
    ensures RoundedMean([a, b]) == (a + b) / 2
  {
    SumOfTwo(a, b);
  }

  /** Deductions 1.200, 1.500, 1.800, 2.100: 1.200 and 2.100 are dropped, E = 10 - 1.650 = 8.350. */
  lemma FourJudgeExecutionPanel()
    ensures Aggregate([1200, 1500, 1800, 2100]) ==
      EScoreDetail([1200, 1500, 1800, 2100], Some(2100), Some(1200), [1500, 1800], 1650)
    ensures ExecutionScore(1650) == 8350
  {
    MeanOfTwo(1500, 1800);
    assert RoundedMean([1500, 1800]) == 1650;
    AggregateOfFour(1200, 1500, 1800, 2100);
  }

  /** D values 5.300 and 5.500: averaged as they are, 5.400. */
  lemma TwoJudgeDifficultyPanel()
    ensures AverageDScores([5300, 5500]) == 5400
  {
    SumOfTwo(5300, 5500);
  }

  /** Three D values are averaged without dropping, where the E aggregator would drop two. */
  lemma DifficultyPanelDropsNothing()
    ensures AverageDScores([0, 0, 3000]) == 1000
    ensures Aggregate([0, 0, 3000]).average == 0
  {
    MeanOfThree();
    TrimmedMeanOfThree();
  }

  lemma MeanOfThree()
    ensures AverageDScores([0, 0, 3000]) == 1000
  {
    SumOfThree(0, 0, 3000);
  }

  lemma TrimmedMeanOfThree()
    ensures Aggregate([0, 0, 3000]).average == 0
  {
    AggregateOfThree(0, 0, 3000);
    SumOfOne(0);
  }

  lemma SumOfOne(a: int)
    ensures Sum([a]) == a
  {
    assert [a][..0] == [];
  }

  lemma SumOfThree(a: int, b: int, c: int)
    ensures Sum([a, b, c]) == a + b + c
  {
    assert [a, b, c][..2] == [a, b];
    SumOfTwo(a, b);
  }

  lemma AggregateOfThree(x: int, y: int, z: int)
    requires x <= y <= z
    ensures Aggregate([x, y, z]).average == RoundedMean([y])
  {
    var sorted := SortAscending([x, y, z]);
    SortThree(x, y, z);
    MiddleOfThree(x, y, z);
  }

  /**
   * Any performance whose D panel holds 5.300 and 5.500 and whose E panel
   * holds 1.200, 1.500, 1.800 and 2.100 scores 5.400 + 8.350 = 13.750 less
   * its penalties.
   */
  lemma CombinedPanels(rows: seq<ScoreRow>)
    requires PanelValues(rows, DScore) == [5300, 5500]
    requires PanelValues(rows, EScore) == [1200, 1500, 1800, 2100]
    ensures Compute(rows).dScore == 5400
    ensures Compute(rows).eScore == 8350
    ensures Compute(rows).finalScore == 13750 - PenaltySum(rows)
  {
    TwoJudgeDifficultyPanel();
    FourJudgeExecutionPanel();
  }

  /** Publishing 10 and 11 when only 10 has a final score: 10 becomes official, 11 is ignored. */
  lemma PublishSkipsMissingRows(row: FinalScoreRow, now: int)
    ensures Published(map[10 := row], [10, 11], now).Keys == {10}
    ensures Published(map[10 := row], [10, 11], now)[10].isOfficial
  {
  }

  /** Equal final scores are ordered by last name: Andrade before Biles. */
  lemma TieBrokenByLastName(s: seq<Entry>, i: nat, j: nat)
    requires Ranked(s) && i < |s| && j < |s|
    requires FinalScoreOf(s[i]) == Some(13750) && s[i].lastName == "Andrade"
    requires FinalScoreOf(s[j]) == Some(13750) && s[j].lastName == "Biles"
    ensures i < j
  {
    StrictlyBetterFirst(s, i, j);
  }
}

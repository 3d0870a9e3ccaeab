/**
 * The rows of the tables the scoring core reads and writes: per-judge scores,
 * performances and final scores, plus the athlete and apparatus rows the
 * leaderboard joins in. Numeric fields are milli-points.
 */
module Records {
  import opened Wrappers
  import opened Aggregation

  /** `score_type`: 'd_score' or 'e_score'. */
  datatype ScoreType = DScore | EScore

  /**
   * One element of a submission's penalty list: an object whose `value`
   * counts unless missing or zero, or a `null` element, whose `value` cannot
   * be read.
   */
  datatype Penalty = Penalty(name: string, value: Option<int>) | NullPenalty

  /**
   * The `penalties` column: absent, a JSON value that is not a list, or a list.
   * Only a list contributes to the neutral deductions.
   */
  datatype PenaltyField = NoPenalties | NotAList | PenaltyList(items: seq<Penalty>)

  /** The natural key of a score: one live value per judge and type per performance. */
  datatype ScoreKey = ScoreKey(performanceId: int, judgeId: int, scoreType: ScoreType)

  /** A row of `scores`; `deductions` is stored for the record and never read by the engine. */
  datatype ScoreRow = ScoreRow(
    performanceId: int,
    judgeId: int,
    scoreType: ScoreType,
    value: int,
    deductions: seq<int>,
    penalties: PenaltyField,
    comments: Option<string>)
  {
    function Key(): ScoreKey
    {
      ScoreKey(performanceId, judgeId, scoreType)
    }
  }

  /** A row of `performances`; (eventId, athleteId, apparatusId) is unique. */
  datatype Performance = Performance(
    id: int,
    eventId: int,
    athleteId: int,
    apparatusId: int,
    orderNumber: Option<int>,
    videoUrl: Option<string>,
    notes: Option<string>)

  /** The computed part of a final score. */
  datatype Figures = Figures(
    dScore: int,
    eScore: int,
    neutralDeductions: int,
    finalScore: int,
    eScoresDetail: EScoreDetail)

  /** A row of `final_scores`, at most one per performance. */
  datatype FinalScoreRow = FinalScoreRow(
    performanceId: int,
    figures: Figures,
    calculationMethod: string,
    isOfficial: bool,
    calculatedAt: int,
    publishedAt: Option<int>)

  datatype Athlete = Athlete(firstName: string, lastName: string, country: Option<string>, club: Option<string>)

  datatype Apparatus = Apparatus(name: string, code: string)
}

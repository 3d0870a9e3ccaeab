/**
 * The scoring service over an in-memory copy of its tables: the final-score
 * upsert of `calculateFinalScore` and the `is_official` update of
 * `publishScores`.
 */
module ScoringService {
  import opened Wrappers
  import opened Aggregation
  import opened Records
  import opened Calculation
  import opened Tables

  /** The `calculation_method` tag written when a final score is first inserted. */
  const CalculationMethod: string := "deduction_drop_high_low"

  /**
   * `INSERT INTO final_scores ... ON CONFLICT (performance_id) DO UPDATE`:
   * one row per performance; a recalculation replaces the figures and the
   * calculation time and keeps `is_official`, `published_at` and
   * `calculation_method`; a first calculation inserts an unofficial row.
   */
  function UpsertFinalScore(finals: map<int, FinalScoreRow>, pid: int, f: Figures, now: int): (m: map<int, FinalScoreRow>)
    ensures m.Keys == finals.Keys + {pid}
    ensures forall k :: k in finals && k != pid ==> m[k] == finals[k]
    ensures m[pid].performanceId == pid && m[pid].figures == f && m[pid].calculatedAt == now
    ensures pid in finals ==>
      && m[pid].isOfficial == finals[pid].isOfficial
      && m[pid].publishedAt == finals[pid].publishedAt
      && m[pid].calculationMethod == finals[pid].calculationMethod
    ensures pid !in finals ==>
      m[pid].calculationMethod == CalculationMethod && !m[pid].isOfficial && m[pid].publishedAt == None
  {
    var row :=
      if pid in finals then finals[pid].(performanceId := pid, figures := f, calculatedAt := now)
      else FinalScoreRow(pid, f, CalculationMethod, false, now, None);
    finals[pid := row]
  }

  /** Recalculating with the same figures is idempotent: only the last calculation time shows. */
  lemma UpsertFinalScoreIdempotent(finals: map<int, FinalScoreRow>, pid: int, f: Figures, t1: int, t2: int)
    ensures UpsertFinalScore(UpsertFinalScore(finals, pid, f, t1), pid, f, t2) == UpsertFinalScore(finals, pid, f, t2)
  {
  }

  /**
   * `UPDATE final_scores SET is_official = true, published_at = NOW() WHERE
   * performance_id = ANY(ids)`: exactly the existing rows named in `ids`
   * become official; ids without a row are skipped; figures never change.
   */
  function Published(finals: map<int, FinalScoreRow>, ids: seq<int>, now: int): (m: map<int, FinalScoreRow>)
    ensures m.Keys == finals.Keys
    ensures forall k :: k in m ==>
      && m[k].isOfficial == (k in ids || finals[k].isOfficial)
      && m[k].publishedAt == (if k in ids then Some(now) else finals[k].publishedAt)
      && m[k].performanceId == finals[k].performanceId
      && m[k].figures == finals[k].figures
      && m[k].calculationMethod == finals[k].calculationMethod
      && m[k].calculatedAt == finals[k].calculatedAt
  {
    map k | k in finals :: if k in ids then finals[k].(isOfficial := true, publishedAt := Some(now)) else finals[k]
  }

  /** Publishing an empty id list changes no row. */
  lemma PublishingNothing(finals: map<int, FinalScoreRow>, now: int)
    ensures Published(finals, [], now) == finals
  {
    var m := Published(finals, [], now);
    forall k | k in m
      ensures m[k] == finals[k]
    {
    }
  }

  /** Every stored final score is the closed form of its performance's current score rows. */
  ghost predicate ConsistentTables(scores: seq<ScoreRow>, finals: map<int, FinalScoreRow>)
  {
    forall pid :: pid in finals ==>
      ScoresFor(scores, pid) != [] && finals[pid].figures == Compute(ScoresFor(scores, pid))
  }

  /** Every final score other than `pid`'s is consistent. */
  ghost predicate ConsistentExcept(scores: seq<ScoreRow>, finals: map<int, FinalScoreRow>, pid: int)
  {
    forall k :: k in finals && k != pid ==>
      ScoresFor(scores, k) != [] && finals[k].figures == Compute(ScoresFor(scores, k))
  }

  /**
   * Recalculating a performance that has score rows makes every final score
   * consistent again, provided only that performance's could be stale.
   */
  lemma RecalculationKeepsConsistency(scores: seq<ScoreRow>, finals: map<int, FinalScoreRow>, pid: int, now: int)
    requires ConsistentExcept(scores, finals, pid) && ScoresFor(scores, pid) != []
    ensures ConsistentTables(scores, UpsertFinalScore(finals, pid, Compute(ScoresFor(scores, pid)), now))
  {
    var m := UpsertFinalScore(finals, pid, Compute(ScoresFor(scores, pid)), now);
    forall k | k in m
      ensures ScoresFor(scores, k) != [] && m[k].figures == Compute(ScoresFor(scores, k))
    {
      if k != pid {
        assert m[k] == finals[k];
      }
    }
  }

  /** Publishing changes no figures, so it keeps every final score consistent. */
  lemma PublishingKeepsConsistency(scores: seq<ScoreRow>, finals: map<int, FinalScoreRow>, ids: seq<int>, now: int)
    requires ConsistentTables(scores, finals)
    ensures ConsistentTables(scores, Published(finals, ids, now))
  {
    var m := Published(finals, ids, now);
    forall k | k in m
      ensures ScoresFor(scores, k) != [] && m[k].figures == Compute(ScoresFor(scores, k))
    {
      assert m[k].figures == finals[k].figures;
    }
  }

  /** The table constraints: primary and unique keys, and scores refer to existing performances. */
  ghost predicate ValidTables(perfs: seq<Performance>, nextId: int, scores: seq<ScoreRow>, finals: map<int, FinalScoreRow>)
  {
    && UniqueScoreKeys(scores)
    && UniquePerformances(perfs)
    && nextId > 0
    && (forall i :: 0 <= i < |perfs| ==> 0 < perfs[i].id < nextId)
    && (forall i :: 0 <= i < |scores| ==> HasPerformance(perfs, scores[i].performanceId))
    && (forall pid :: pid in finals ==> finals[pid].performanceId == pid)
  }

  /** A final-score upsert keeps the table constraints. */
  lemma FinalScoreUpsertKeepsTables(perfs: seq<Performance>, nextId: int, scores: seq<ScoreRow>,
                                    finals: map<int, FinalScoreRow>, pid: int, f: Figures, now: int)
    requires ValidTables(perfs, nextId, scores, finals)
    ensures ValidTables(perfs, nextId, scores, UpsertFinalScore(finals, pid, f, now))
  {
    var m := UpsertFinalScore(finals, pid, f, now);
    forall k | k in m ensures m[k].performanceId == k {
      if k != pid {
        assert m[k] == finals[k];
      }
    }
  }

  /** Saving the figures computed for `pid` keeps the constraints and, at worst, repairs `pid`. */
  lemma SavingKeepsTables(perfs: seq<Performance>, nextId: int, scores: seq<ScoreRow>,
                          finals: map<int, FinalScoreRow>, pid: int, f: Figures, now: int)
    requires ValidTables(perfs, nextId, scores, finals)
    requires ScoresFor(scores, pid) != [] && f == Compute(ScoresFor(scores, pid))
    ensures ValidTables(perfs, nextId, scores, UpsertFinalScore(finals, pid, f, now))
    ensures ConsistentExcept(scores, finals, pid) ==> ConsistentTables(scores, UpsertFinalScore(finals, pid, f, now))
  {
    if ConsistentExcept(scores, finals, pid) {
      RecalculationKeepsConsistency(scores, finals, pid, now);
    }
    FinalScoreUpsertKeepsTables(perfs, nextId, scores, finals, pid, f, now);
  }

  /** The tables the scoring core reads and writes. */
  class Store {
    var performances: seq<Performance>
    var nextPerformanceId: int
    var scores: seq<ScoreRow>
    var finalScores: map<int, FinalScoreRow>
    const athletes: map<int, Athlete>
    const apparatus: map<int, Apparatus>

    ghost predicate Valid()
      reads this
    {
      ValidTables(performances, nextPerformanceId, scores, finalScores)
    }

    ghost predicate Consistent()
      reads this
    {
      ConsistentTables(scores, finalScores)
    }

    constructor (athletes: map<int, Athlete>, apparatus: map<int, Apparatus>)
      ensures Valid() && Consistent()
      ensures performances == [] && scores == [] && finalScores == map[] && nextPerformanceId == 1
      ensures this.athletes == athletes && this.apparatus == apparatus
    {
      performances, nextPerformanceId := [], 1;
      scores, finalScores := [], map[];
      this.athletes, this.apparatus := athletes, apparatus;
    }

    /**
     * `calculateFinalScore`: fails with NoScoresFound, writing nothing, when
     * the performance has no score rows, and with UnreadablePenalty, writing
     * nothing, when one of its rows holds a `null` penalty; otherwise upserts
     * the row computed from them and returns it.
     */
    method CalculateFinalScore(performanceId: int, now: int) returns (res: Result<FinalScoreRow, CalcError>)
      requires Valid()
      modifies this`finalScores
      ensures Valid()
      ensures old(Consistent()) ==> Consistent()
      ensures old(ConsistentExcept(scores, finalScores, performanceId)) && res.Success? ==> Consistent()
      ensures res == Failure(NoScoresFound) <==> ScoresFor(scores, performanceId) == []
      ensures res == Failure(UnreadablePenalty) <==>
        ScoresFor(scores, performanceId) != [] && !PenaltiesReadable(ScoresFor(scores, performanceId))
      ensures res.Success? <==> ScoresFor(scores, performanceId) != [] && PenaltiesReadable(ScoresFor(scores, performanceId))
      ensures res.Failure? ==> finalScores == old(finalScores)
      ensures res.Success? ==>
        && finalScores == UpsertFinalScore(old(finalScores), performanceId, Compute(ScoresFor(scores, performanceId)), now)
        && res.value == finalScores[performanceId]
    {
      var rows := ScoresFor(scores, performanceId);
      if |rows| == 0 {
        return Failure(NoScoresFound);
      }
      var figures := ComputeFigures(rows);
      if figures.Failure? {
        return Failure(figures.error);
      }
      var row := SaveFinalScore(performanceId, figures.value, now);
      res := Success(row);
    }

    /** The single atomic upsert of one final-score row. */
    method SaveFinalScore(performanceId: int, figures: Figures, now: int) returns (row: FinalScoreRow)
      requires Valid()
      requires ScoresFor(scores, performanceId) != [] && figures == Compute(ScoresFor(scores, performanceId))
      modifies this`finalScores
      ensures Valid()
      ensures old(ConsistentExcept(scores, finalScores, performanceId)) ==> Consistent()
      ensures finalScores == UpsertFinalScore(old(finalScores), performanceId, figures, now)
      ensures row == finalScores[performanceId]
    {
      SavingKeepsTables(performances, nextPerformanceId, scores, finalScores, performanceId, figures, now);
      finalScores := UpsertFinalScore(finalScores, performanceId, figures, now);
      row := finalScores[performanceId];
    }

    /** `publishScores`: marks the listed performances' final scores official. */
    method PublishScores(ids: seq<int>, now: int)
      requires Valid()
      modifies this`finalScores
      ensures Valid()
      ensures old(Consistent()) ==> Consistent()
      ensures finalScores == Published(old(finalScores), ids, now)
    {
      if Consistent() {
        PublishingKeepsConsistency(scores, finalScores, ids, now);
      }
      finalScores := Published(finalScores, ids, now);
    }
  }
}

/**
 * The store effects of the scoring routes, without HTTP: `POST /scores`
 * (validate, check the performance, upsert the score, recalculate),
 * `POST /performances` (keyed upsert) and `POST /publish` (non-empty guard).
 * The judge id and the current time are parameters.
 */
module ScoringRoutes {
  import opened Wrappers
  import opened Records
  import opened Calculation
  import opened Tables
  import opened ScoringService

  /** 400 (a validator rejected the body) or 404 (no such performance). */
  datatype RouteError = BadRequest | NotFound

  /**
   * The body of `POST /scores` as the validators see it: a field that is not
   * an integer (`performanceId`) or not a number (`scoreValue`) is absent.
   */
  datatype ScoreRequest = ScoreRequest(
    performanceId: Option<int>,
    scoreType: string,
    scoreValue: Option<int>,
    deductions: Option<seq<int>>,
    penalties: PenaltyField,
    comments: Option<string>)

  /** `isIn(['d_score', 'e_score'])`. */
  function ParseScoreType(s: string): (t: Option<ScoreType>)
    ensures t.Some? <==> s == "d_score" || s == "e_score"
    ensures t == Some(DScore) <==> s == "d_score"
    ensures t == Some(EScore) <==> s == "e_score"
  {
    if s == "d_score" then Some(DScore)
    else if s == "e_score" then Some(EScore)
    else None
  }

  /** The three validators of `POST /scores`. */
  predicate ValidScoreRequest(req: ScoreRequest)
  {
    && req.performanceId.Some?
    && ParseScoreType(req.scoreType).Some?
    && req.scoreValue.Some? && req.scoreValue.value >= 0
  }

  /** `x || null` on a string: an absent or empty string is stored as null. */
  function OrNullString(s: Option<string>): (r: Option<string>)
    ensures r.Some? <==> s.Some? && s.value != ""
    ensures r.Some? ==> r == s
  {
    if s.Some? && s.value != "" then s else None
  }

  /** `x || null` on a number: an absent or zero number is stored as null. */
  function OrNullInt(x: Option<int>): (r: Option<int>)
    ensures r.Some? <==> x.Some? && x.value != 0
    ensures r.Some? ==> r == x
  {
    if x.Some? && x.value != 0 then x else None
  }

  /**
   * The row a valid submission stores: keyed by the performance, the judge
   * and the type; missing deduction and penalty lists become empty lists and
   * an absent or empty comment becomes null.
   */
  function StoredScore(req: ScoreRequest, judgeId: int): (row: ScoreRow)
    requires ValidScoreRequest(req)
    ensures row.Key() == ScoreKey(req.performanceId.value, judgeId, ParseScoreType(req.scoreType).value)
    ensures row.value == req.scoreValue.value >= 0
    ensures req.deductions.None? ==> row.deductions == []
    ensures req.deductions.Some? ==> row.deductions == req.deductions.value
    ensures req.penalties.NoPenalties? ==> row.penalties == PenaltyList([])
    ensures !req.penalties.NoPenalties? ==> row.penalties == req.penalties
    ensures row.comments == OrNullString(req.comments)
  {
    ScoreRow(req.performanceId.value, judgeId, ParseScoreType(req.scoreType).value, req.scoreValue.value,
             if req.deductions.Some? then req.deductions.value else [],
             if req.penalties.NoPenalties? then PenaltyList([]) else req.penalties,
             OrNullString(req.comments))
  }

  /**
   * Storing a score for an existing performance keeps the table constraints,
   * and leaves every other performance's final score consistent.
   */
  lemma ScoreUpsertKeepsTables(perfs: seq<Performance>, nextId: int, scores: seq<ScoreRow>,
                               finals: map<int, FinalScoreRow>, row: ScoreRow)
    requires ValidTables(perfs, nextId, scores, finals) && HasPerformance(perfs, row.performanceId)
    ensures ValidTables(perfs, nextId, UpsertScores(scores, row), finals)
    ensures ConsistentTables(scores, finals) ==> ConsistentExcept(UpsertScores(scores, row), finals, row.performanceId)
  {
    var after := UpsertScores(scores, row);
    forall i | 0 <= i < |after| ensures HasPerformance(perfs, after[i].performanceId) {
      assert after[i] in after;
      if after[i] != row {
        var j :| 0 <= j < |scores| && scores[j] == after[i];
      }
    }
  }

  /** Updating an existing performance's descriptive fields keeps the table constraints. */
  lemma PerformanceUpdateKeepsTables(perfs: seq<Performance>, nextId: int, scores: seq<ScoreRow>,
                                     finals: map<int, FinalScoreRow>, i: nat, p: Performance)
    requires ValidTables(perfs, nextId, scores, finals) && i < |perfs|
    requires p.id == perfs[i].id && p.eventId == perfs[i].eventId
    requires p.athleteId == perfs[i].athleteId && p.apparatusId == perfs[i].apparatusId
    ensures ValidTables(perfs[i := p], nextId, scores, finals)
  {
    var after := perfs[i := p];
    forall k | 0 <= k < |scores| ensures HasPerformance(after, scores[k].performanceId) {
      var j :| 0 <= j < |perfs| && perfs[j].id == scores[k].performanceId;
      assert after[j].id == perfs[j].id;
    }
  }

  /** Appending a performance with a new key and the next id keeps the table constraints. */
  lemma PerformanceInsertKeepsTables(perfs: seq<Performance>, nextId: int, scores: seq<ScoreRow>,
                                     finals: map<int, FinalScoreRow>, p: Performance)
    requires ValidTables(perfs, nextId, scores, finals) && p.id == nextId > 0
    requires IndexOfPerformance(perfs, p.eventId, p.athleteId, p.apparatusId).None?
    ensures ValidTables(perfs + [p], nextId + 1, scores, finals)
  {
    var after := perfs + [p];
    forall k | 0 <= k < |scores| ensures HasPerformance(after, scores[k].performanceId) {
      var j :| 0 <= j < |perfs| && perfs[j].id == scores[k].performanceId;
      assert after[j] == perfs[j];
    }
  }

  /**
   * `POST /scores`: a body the validators reject stores nothing (400); a
   * performance that does not exist stores nothing (404); otherwise the
   * score is upserted under (performance, judge, type) and the performance's
   * final score is recalculated. The response is the stored row whatever the
   * recalculation does: when a stored `null` penalty makes it throw, the old
   * final score stays in place, stale, and only that one may be stale.
   */
  method SubmitScore(db: Store, judgeId: int, req: ScoreRequest, now: int) returns (res: Result<ScoreRow, RouteError>)
    requires db.Valid()
    modifies db`scores, db`finalScores
    ensures db.Valid()
    ensures res == Failure(BadRequest) <==> !ValidScoreRequest(req)
    ensures res == Failure(NotFound) <==>
      ValidScoreRequest(req) && !HasPerformance(db.performances, req.performanceId.value)
    ensures res.Failure? ==> db.scores == old(db.scores) && db.finalScores == old(db.finalScores)
    ensures res.Failure? ==> (old(db.Consistent()) ==> db.Consistent())
    ensures res.Success? ==>
      var pid := res.value.performanceId;
      && res.value == StoredScore(req, judgeId)
      && db.scores == UpsertScores(old(db.scores), res.value)
      && (PenaltiesReadable(ScoresFor(db.scores, pid)) ==>
            db.finalScores == UpsertFinalScore(old(db.finalScores), pid, Compute(ScoresFor(db.scores, pid)), now))
      && (!PenaltiesReadable(ScoresFor(db.scores, pid)) ==> db.finalScores == old(db.finalScores))
      && (old(db.Consistent()) ==> ConsistentExcept(db.scores, db.finalScores, pid))
      && (old(db.Consistent()) && PenaltiesReadable(ScoresFor(db.scores, pid)) ==> db.Consistent())
  {
    if !ValidScoreRequest(req) {
      return Failure(BadRequest);
    }
    var pid := req.performanceId.value;
    if !HasPerformance(db.performances, pid) {
      return Failure(NotFound);
    }
    var row := StoredScore(req, judgeId);
    RecordScore(db, row, now);
    res := Success(row);
  }

  /**
   * The upsert and the recalculation of `POST /scores`, for a row of an
   * existing performance; a failed recalculation changes no final score.
   */
  method RecordScore(db: Store, row: ScoreRow, now: int)
    requires db.Valid() && HasPerformance(db.performances, row.performanceId)
    modifies db`scores, db`finalScores
    ensures db.Valid()
    ensures db.scores == UpsertScores(old(db.scores), row)
    ensures PenaltiesReadable(ScoresFor(db.scores, row.performanceId)) ==>
      db.finalScores == UpsertFinalScore(old(db.finalScores), row.performanceId,
                                         Compute(ScoresFor(db.scores, row.performanceId)), now)
    ensures !PenaltiesReadable(ScoresFor(db.scores, row.performanceId)) ==> db.finalScores == old(db.finalScores)
    ensures old(db.Consistent()) ==> ConsistentExcept(db.scores, db.finalScores, row.performanceId)
    ensures old(db.Consistent()) && PenaltiesReadable(ScoresFor(db.scores, row.performanceId)) ==> db.Consistent()
  {
    var pid := row.performanceId;
    StoreScore(db, row);
    ghost var readable := PenaltiesReadable(ScoresFor(db.scores, pid));
    // A failed recalculation is only logged; the submission still succeeds.
    var recalculated := db.CalculateFinalScore(pid, now);
    assert recalculated.Success? <==> readable;
  }

  /** The `INSERT ... ON CONFLICT DO UPDATE` of `POST /scores`. */
  method StoreScore(db: Store, row: ScoreRow)
    requires db.Valid() && HasPerformance(db.performances, row.performanceId)
    modifies db`scores
    ensures db.Valid()
    ensures db.scores == UpsertScores(old(db.scores), row)
    ensures old(db.Consistent()) ==> ConsistentExcept(db.scores, db.finalScores, row.performanceId)
  {
    ScoreUpsertKeepsTables(db.performances, db.nextPerformanceId, db.scores, db.finalScores, row);
    db.scores := UpsertScores(db.scores, row);
  }

  /** The body of `POST /performances`; an id that is not an integer is absent. */
  datatype PerformanceRequest = PerformanceRequest(
    eventId: Option<int>,
    athleteId: Option<int>,
    apparatusId: Option<int>,
    orderNumber: Option<int>,
    videoUrl: Option<string>,
    notes: Option<string>)

  /**
   * `POST /performances`: rejected (400) unless the three ids are integers;
   * otherwise one performance per (event, athlete, apparatus): an existing
   * one gets the new order number, video URL and notes and keeps its id, a
   * new one is appended with a fresh id.
   */
  method UpsertPerformance(db: Store, req: PerformanceRequest) returns (res: Result<Performance, RouteError>)
    requires db.Valid()
    modifies db`performances, db`nextPerformanceId
    ensures db.Valid()
    ensures old(db.Consistent()) ==> db.Consistent()
    ensures res.Failure? <==> req.eventId.None? || req.athleteId.None? || req.apparatusId.None?
    ensures res.Failure? ==>
      res.error == BadRequest && db.performances == old(db.performances)
      && db.nextPerformanceId == old(db.nextPerformanceId)
    ensures res.Success? ==>
      var idx := IndexOfPerformance(old(db.performances), req.eventId.value, req.athleteId.value, req.apparatusId.value);
      && (idx.Some? ==>
            && db.performances == old(db.performances)[idx.value := res.value]
            && res.value == old(db.performances)[idx.value].(orderNumber := OrNullInt(req.orderNumber),
                                                             videoUrl := OrNullString(req.videoUrl),
                                                             notes := OrNullString(req.notes))
            && db.nextPerformanceId == old(db.nextPerformanceId))
      && (idx.None? ==>
            && db.performances == old(db.performances) + [res.value]
            && res.value == Performance(old(db.nextPerformanceId), req.eventId.value, req.athleteId.value,
                                        req.apparatusId.value, OrNullInt(req.orderNumber),
                                        OrNullString(req.videoUrl), OrNullString(req.notes))
            && db.nextPerformanceId == old(db.nextPerformanceId) + 1)
  {
    if req.eventId.None? || req.athleteId.None? || req.apparatusId.None? {
      return Failure(BadRequest);
    }
    var eventId, athleteId, apparatusId := req.eventId.value, req.athleteId.value, req.apparatusId.value;
    var orderNumber, videoUrl, notes := OrNullInt(req.orderNumber), OrNullString(req.videoUrl), OrNullString(req.notes);
    match IndexOfPerformance(db.performances, eventId, athleteId, apparatusId) {
      case Some(i) =>
        var p := db.performances[i].(orderNumber := orderNumber, videoUrl := videoUrl, notes := notes);
        PerformanceUpdateKeepsTables(db.performances, db.nextPerformanceId, db.scores, db.finalScores, i, p);
        db.performances := db.performances[i := p];
        res := Success(p);
      case None =>
        var p := Performance(db.nextPerformanceId, eventId, athleteId, apparatusId, orderNumber, videoUrl, notes);
        PerformanceInsertKeepsTables(db.performances, db.nextPerformanceId, db.scores, db.finalScores, p);
        db.performances, db.nextPerformanceId := db.performances + [p], db.nextPerformanceId + 1;
        res := Success(p);
    }
  }

  /**
   * `POST /publish`: a missing or empty id list is rejected (400) and changes
   * nothing; otherwise the listed performances' final scores become official.
   */
  method Publish(db: Store, ids: Option<seq<int>>, now: int) returns (res: Result<(), RouteError>)
    requires db.Valid()
    modifies db`finalScores
    ensures db.Valid()
    ensures old(db.Consistent()) ==> db.Consistent()
    ensures res.Failure? <==> ids.None? || ids.value == []
    ensures res.Failure? ==> res.error == BadRequest && db.finalScores == old(db.finalScores)
    ensures res.Success? ==> db.finalScores == Published(old(db.finalScores), ids.value, now)
  {
    if ids.None? || ids.value == [] {
      return Failure(BadRequest);
    }
    db.PublishScores(ids.value, now);
    res := Success(());
  }
}

/**
 * The keyed writes the scoring routes issue: `INSERT ... ON CONFLICT DO
 * UPDATE` on `scores` (key: performance, judge, score type) and the lookups
 * on `performances` (key: event, athlete, apparatus; surrogate id).
 * Tables are sequences in insertion order, which is the `submitted_at` order
 * the calculation reads the scores in.
 */
module Tables {
  import opened Wrappers
  import opened Records
  import opened Calculation

  ghost predicate UniqueScoreKeys(rows: seq<ScoreRow>)
  {
    forall i, j :: 0 <= i < j < |rows| ==> rows[i].Key() != rows[j].Key()
  }

  /** The position of the row with key `k`, if there is one. */
  function IndexOfScore(rows: seq<ScoreRow>, k: ScoreKey): (r: Option<nat>)
    ensures r.Some? ==> r.value < |rows| && rows[r.value].Key() == k
    ensures r.None? ==> forall i :: 0 <= i < |rows| ==> rows[i].Key() != k
  {
    if rows == [] then None
    else if rows[0].Key() == k then Some(0)
    else
      match IndexOfScore(rows[1..], k)
      case Some(i) => Some(i + 1)
      case None => None
  }

  /** The live score stored under key `k`. */
  function LookupScore(rows: seq<ScoreRow>, k: ScoreKey): (r: Option<ScoreRow>)
    ensures r.Some? ==> r.value in rows && r.value.Key() == k
    ensures r.None? ==> forall i :: 0 <= i < |rows| ==> rows[i].Key() != k
  {
    match IndexOfScore(rows, k)
    case Some(i) => Some(rows[i])
    case None => None
  }

  /** Where a key is found depends only on the keys of the rows. */
  lemma {:induction false} IndexOfScoreSameKeys(a: seq<ScoreRow>, b: seq<ScoreRow>, k: ScoreKey)
    requires |a| == |b| && forall i :: 0 <= i < |a| ==> a[i].Key() == b[i].Key()
    ensures IndexOfScore(a, k) == IndexOfScore(b, k)
  {
    if a != [] && a[0].Key() != k {
      IndexOfScoreSameKeys(a[1..], b[1..], k);
    }
  }

  lemma {:induction false} IndexOfScoreAppend(rows: seq<ScoreRow>, row: ScoreRow, k: ScoreKey)
    ensures IndexOfScore(rows + [row], k) ==
      if IndexOfScore(rows, k).Some? then IndexOfScore(rows, k)
      else if row.Key() == k then Some(|rows|)
      else None
  {
    if rows != [] {
      assert (rows + [row])[1..] == rows[1..] + [row];
      IndexOfScoreAppend(rows[1..], row, k);
    }
  }

  /** Replacing a row by one of the same performance leaves every other performance's rows alone. */
  lemma {:induction false} ScoresForReplace(rows: seq<ScoreRow>, i: nat, row: ScoreRow, p: int)
    requires i < |rows| && rows[i].performanceId == row.performanceId != p
    ensures ScoresFor(rows[i := row], p) == ScoresFor(rows, p)
  {
    var n := |rows|;
    if i < n - 1 {
      assert rows[i := row][..n - 1] == rows[..n - 1][i := row];
      ScoresForReplace(rows[..n - 1], i, row, p);
    } else {
      assert rows[i := row][..n - 1] == rows[..n - 1];
    }
  }

  /**
   * The score upsert: the row replaces the live row with its key, keeping
   * that row's place, or is appended when the key is new. Exactly one row
   * per key remains and every other key keeps its row.
   */
  function UpsertScores(rows: seq<ScoreRow>, row: ScoreRow): (r: seq<ScoreRow>)
    requires UniqueScoreKeys(rows)
    ensures UniqueScoreKeys(r)
    ensures LookupScore(r, row.Key()) == Some(row)
    ensures forall k :: k != row.Key() ==> LookupScore(r, k) == LookupScore(rows, k)
    ensures LookupScore(rows, row.Key()).None? ==> r == rows + [row]
    ensures LookupScore(rows, row.Key()).Some? ==>
      && |r| == |rows|
      && forall i :: 0 <= i < |rows| ==> r[i] == (if rows[i].Key() == row.Key() then row else rows[i])
    ensures forall x :: x in r ==> x in rows || x == row
    ensures forall p :: p != row.performanceId ==> ScoresFor(r, p) == ScoresFor(rows, p)
    ensures ScoresFor(r, row.performanceId) != []
  {
    match IndexOfScore(rows, row.Key())
    case Some(i) =>
      var r := rows[i := row];
      forall k ensures IndexOfScore(r, k) == IndexOfScore(rows, k) {
        IndexOfScoreSameKeys(r, rows, k);
      }
      forall p | p != row.performanceId ensures ScoresFor(r, p) == ScoresFor(rows, p) {
        ScoresForReplace(rows, i, row, p);
      }
      assert r[i] == row;
      r
    case None =>
      var r := rows + [row];
      forall k ensures IndexOfScore(r, k) == if IndexOfScore(rows, k).Some? then IndexOfScore(rows, k) else if row.Key() == k then Some(|rows|) else None {
        IndexOfScoreAppend(rows, row, k);
      }
      assert r[..|r| - 1] == rows;
      r
  }

  ghost predicate UniquePerformances(perfs: seq<Performance>)
  {
    forall i, j :: 0 <= i < j < |perfs| ==>
      perfs[i].id != perfs[j].id
      && (perfs[i].eventId, perfs[i].athleteId, perfs[i].apparatusId)
         != (perfs[j].eventId, perfs[j].athleteId, perfs[j].apparatusId)
  }

  /** `SELECT id FROM performances WHERE id = $1` finds a row. */
  predicate HasPerformance(perfs: seq<Performance>, id: int)
  {
    exists i :: 0 <= i < |perfs| && perfs[i].id == id
  }

  /** The position of the performance with the given (event, athlete, apparatus), if any. */
  function IndexOfPerformance(perfs: seq<Performance>, eventId: int, athleteId: int, apparatusId: int): (r: Option<nat>)
    ensures r.Some? ==>
      && r.value < |perfs|
      && perfs[r.value].eventId == eventId && perfs[r.value].athleteId == athleteId
      && perfs[r.value].apparatusId == apparatusId
    ensures r.None? ==> forall i :: 0 <= i < |perfs| ==>
      (perfs[i].eventId, perfs[i].athleteId, perfs[i].apparatusId) != (eventId, athleteId, apparatusId)
  {
    if perfs == [] then None
    else if perfs[0].eventId == eventId && perfs[0].athleteId == athleteId && perfs[0].apparatusId == apparatusId then Some(0)
    else
      match IndexOfPerformance(perfs[1..], eventId, athleteId, apparatusId)
      case Some(i) => Some(i + 1)
      case None => None
  }
}

# Gymnastics scoring core

A Dafny model of the scoring core of a gymnastics competition backend: the
scoring service (`calculateFinalScore`, its two panel aggregators, the
neutral deductions, `getLeaderboard` and `publishScores`) and the three
write routes of the scoring router (`POST /scores`, `POST /performances`,
`POST /publish`).

A performance is scored by a D panel (difficulty) and an E panel
(execution). Each judge stores at most one score row per performance and
panel; the rows may carry penalty lists. The final score of a performance is

    D + E - neutral deductions

where D is the plain mean of the D values, E is 10 minus the E-panel
deduction (the mean after dropping one lowest and one highest value when the
panel has three or more judges), floored at 0, and the neutral deductions are
the sum of every penalty value on every row. The result is upserted into a
one-row-per-performance final-score table, which the leaderboard reads and
which publishing marks official.

Modules:

- `FixedPoint`: scores as integer milli-points; `toFixed(3)` of a mean as
  rounding to the nearest milli-point (`RoundDiv`), with its bounds.
- `Aggregation`: `calculateAverageDeduction` (`Aggregate`, with its sort and
  the audit record `EScoreDetail`) and `averageDScores`.
- `Records`: the rows of the `scores`, `performances`, `final_scores`,
  `athletes` and `apparatus` tables.
- `Calculation`: the closed form of a final score (`Compute`) and the loop of
  `calculateNeutralDeductions` (`NeutralDeductions`).
- `Tables`: the keyed upserts of the score and performance tables.
- `ScoringService`: the final-score upsert, publishing, and the `Store`
  class whose methods change the tables in place, with the invariant that
  every stored final score equals `Compute` of its performance's current
  score rows.
- `Leaderboard`: `getLeaderboard` as a join, a filter and a proved sort.
- `ScoringRoutes`: the three write routes as methods on a `Store`.
- `Scenarios`: worked examples.

## Model

| member | source | states |
|---|---|---|
| FixedPoint.RoundDiv | backend/src/services/scoringService.ts:139-140 | the rounded quotient is within half a unit of the exact quotient, ties away from zero, for either sign of the numerator |
| FixedPoint.RoundedMean | backend/src/services/scoringService.ts:106-110 | the mean of a non-negative list is rounded to the nearest milli-point |
| FixedPoint.SumBounds | backend/src/services/scoringService.ts:106 | the sum of n values in [lo, hi] lies in [lo * n, hi * n] |
| FixedPoint.RoundDivBounds | backend/src/services/scoringService.ts:110 | rounding a quotient whose exact value lies in [lo, hi] stays in [lo, hi] |
| FixedPoint.RoundedMeanBounds | backend/src/services/scoringService.ts:106-110 | the rounded mean of values in [lo, hi] lies in [lo, hi] |
| Aggregation.Insert | backend/src/services/scoringService.ts:115 | inserting into an ascending list keeps it ascending and adds exactly the value |
| Aggregation.SortAscending | backend/src/services/scoringService.ts:115 | the sorted copy is ascending, a permutation of the input, and of the same length |
| Aggregation.Aggregate | backend/src/services/scoringService.ts:99-132 | no values: empty record, average 0; one or two: all averaged, nothing dropped; three or more: the dropped low and high are a minimum and a maximum, the averaged middle is ascending with two fewer values, middle plus the dropped pair is a permutation of the input, the average is the rounded mean of the middle and lies between the dropped values |
| Aggregation.TrimmedFacts | backend/src/services/scoringService.ts:115-123 | after sorting, the ends are the minimum and maximum, the trimmed middle with both ends is the input as a multiset, and its mean lies between the ends |
| Aggregation.AverageDScores | backend/src/services/scoringService.ts:137-141 | an empty panel gives 0; otherwise the result is the mean of every value rounded to the nearest milli-point, nothing dropped |
| Aggregation.AverageDScoresBounds | backend/src/services/scoringService.ts:137-141 | the D average of values in [lo, hi] lies in [lo, hi] |
| Calculation.ScoresFor | backend/src/services/scoringService.ts:19-25 | the selected rows are exactly the rows of the performance |
| Calculation.ScoresForCount | backend/src/services/scoringService.ts:19-25 | every row of the performance is selected exactly as many times as it occurs in the table, and no other row is selected |
| Calculation.PanelValues | backend/src/services/scoringService.ts:34-35 | the panel's values are exactly the values of the rows of that type |
| Calculation.PanelValuesCount | backend/src/services/scoringService.ts:34-35 | each value occurs in the panel's list exactly as many times as there are rows of that type carrying it |
| Calculation.PenaltySumAppend | backend/src/services/scoringService.ts:149-157 | the neutral deductions of two row lists add up |
| Calculation.PenaltySumBothPanels | backend/src/services/scoringService.ts:63 | penalties count from the rows of both panels: the total is the D rows' part plus the E rows' part |
| Calculation.NeutralDeductions | backend/src/services/scoringService.ts:146-160 | the nested loop fails with UnreadablePenalty iff some row's penalty list holds a `null` element, whose `.value` cannot be read; otherwise it returns the sum of every non-zero penalty value of every row that has a penalty list |
| Calculation.ExecutionScore | backend/src/services/scoringService.ts:56-59 | E is 10 minus the average deduction, never below 0, and 0 once the deduction reaches 10 |
| Calculation.Compute | backend/src/services/scoringService.ts:31-66 | final = D + E - neutral; neutral is every penalty; the detail records the E values; an empty panel contributes 0; E is ExecutionScore of the aggregated deduction; with non-negative values D >= 0 and 0 <= E <= 10 |
| Calculation.ComputeFromPanels | backend/src/services/scoringService.ts:34-59 | a non-empty D panel gives D = the rounded mean of every D value; a non-empty E panel gives the stored detail = the trimmed-mean aggregation of the E values and E = ExecutionScore of its average |
| Calculation.ComputeFigures | backend/src/services/scoringService.ts:31-66 | the step-by-step computation fails with UnreadablePenalty iff some penalty list holds a `null` element; otherwise its figures are exactly Compute of the rows |
| Calculation.NonNegativeAggregates | backend/src/routes/scoring.ts:102 | with non-negative score values both aggregates are non-negative |
| Calculation.AggregateNonNegative | backend/src/services/scoringService.ts:99-132 | aggregating non-negative deductions gives a non-negative average |
| Calculation.PanelValuesNonNegative | backend/src/services/scoringService.ts:40 | non-negative rows give non-negative panel values |
| Tables.IndexOfScore | backend/src/routes/scoring.ts:127 | finds the position of the row with the given (performance, judge, type) key, or none |
| Tables.LookupScore | backend/src/routes/scoring.ts:127 | the stored row under a key, or none |
| Tables.IndexOfScoreSameKeys | backend/src/routes/scoring.ts:127-132 | overwriting a row with one of the same key moves no key |
| Tables.IndexOfScoreAppend | backend/src/routes/scoring.ts:124-126 | appending a row with a new key leaves every other key's position |
| Tables.ScoresForReplace | backend/src/routes/scoring.ts:127-132 | replacing a row of one performance leaves every other performance's rows unchanged |
| Tables.UpsertScores | backend/src/routes/scoring.ts:124-143 | keys stay unique; the key now maps to the new row; every other key is unchanged; a new key is appended; an existing key's row is replaced at its own position and every other row stays where it was; no row appears from nowhere; other performances' rows are unchanged; the performance has a row afterwards |
| Tables.IndexOfPerformance | backend/src/routes/scoring.ts:74-77 | finds the performance with the given (event, athlete, apparatus) triple, or none |
| ScoringService.UpsertFinalScore | backend/src/services/scoringService.ts:69-91 | one row per performance; other rows unchanged; figures and calculation time replaced; an existing row keeps is_official, published_at and its method tag; a new row is unofficial, unpublished and tagged `deduction_drop_high_low` |
| ScoringService.UpsertFinalScoreIdempotent | backend/src/services/scoringService.ts:69-91 | recalculating with the same figures twice is the same as once at the later time |
| ScoringService.Published | backend/src/services/scoringService.ts:207-214 | no row is added or removed; a row is official iff it was or is listed; listed rows get the publication time; figures, method and calculation time never change |
| ScoringService.PublishingNothing | backend/src/services/scoringService.ts:207-214 | publishing an empty id list changes no row |
| ScoringService.FinalScoreUpsertKeepsTables | backend/src/services/scoringService.ts:69-91 | a final-score upsert keeps the table constraints |
| ScoringService.SavingKeepsTables | backend/src/services/scoringService.ts:69-91 | upserting Compute of a performance that has rows keeps the table constraints, and makes every final score consistent when only that one could be stale |
| ScoringService.RecalculationKeepsConsistency | backend/src/services/scoringService.ts:17-94 | recalculating one performance restores the invariant that every final score is Compute of its rows |
| ScoringService.PublishingKeepsConsistency | backend/src/services/scoringService.ts:207-214 | publishing keeps every final score equal to Compute of its rows |
| ScoringService.Store.CalculateFinalScore | backend/src/services/scoringService.ts:17-94 | fails with NoScoresFound iff the performance has no score rows, and with UnreadablePenalty iff it has some and one of their penalty lists holds a `null` element, changing nothing on either failure; otherwise upserts Compute of the performance's rows and returns the stored row; keeps the table constraints and the consistency invariant |
| ScoringService.Store.SaveFinalScore | backend/src/services/scoringService.ts:69-93 | the upsert of the computed figures, returning the stored row |
| ScoringService.Store.PublishScores | backend/src/services/scoringService.ts:207-214 | the table becomes Published of the old table; constraints and consistency are kept |
| Leaderboard.NameLeqTotal | backend/src/services/scoringService.ts:198 | any two last names are comparable |
| Leaderboard.NameLeqTransitive | backend/src/services/scoringService.ts:198 | the last-name order is transitive |
| Leaderboard.NameLeqReflexive | backend/src/services/scoringService.ts:198 | the last-name order is reflexive |
| Leaderboard.RanksBeforeTotal | backend/src/services/scoringService.ts:198 | the leaderboard order relates any two entries |
| Leaderboard.RanksBeforeTransitive | backend/src/services/scoringService.ts:198 | the leaderboard order is transitive |
| Leaderboard.StrictlyBetterFirst | backend/src/services/scoringService.ts:198 | in a ranked list, a higher final score, a scored entry against an unscored one, or an equal score with a smaller last name comes first |
| Leaderboard.InsertEntry | backend/src/services/scoringService.ts:198 | inserting into a ranked list keeps it ranked and adds exactly the entry |
| Leaderboard.SortEntries | backend/src/services/scoringService.ts:198 | the ordered copy is ranked and a permutation of the input |
| Leaderboard.Joined | backend/src/services/scoringService.ts:184-196 | exactly the performances of the event (and apparatus, when a non-zero id is given) that join an athlete and an apparatus, each with its final score when it has one |
| Leaderboard.JoinedCount | backend/src/services/scoringService.ts:184-196 | each entry occurs in the join exactly as many times as there are selected performances that produce it |
| Leaderboard.OncePerPerformance | backend/src/services/scoringService.ts:165-202 | with unique performance ids, every selected performance appears on the leaderboard exactly once |
| Leaderboard.GetLeaderboard | backend/src/services/scoringService.ts:165-202 | the result is ranked by final score descending, unscored last, then by last name, and is a permutation of the joined rows: every selected performance appears and nothing else |
| ScoringRoutes.ParseScoreType | backend/src/routes/scoring.ts:101 | only `d_score` and `e_score` are accepted, each to its own panel |
| ScoringRoutes.OrNullString | backend/src/routes/scoring.ts:141 | an absent or empty string becomes null, anything else is kept |
| ScoringRoutes.OrNullInt | backend/src/routes/scoring.ts:83 | an absent or zero number becomes null, anything else is kept |
| ScoringRoutes.StoredScore | backend/src/routes/scoring.ts:134-142 | the stored row is keyed by performance, judge and type, carries the non-negative value, the given deductions and penalties or empty lists for missing ones, and a null for an absent or empty comment |
| ScoringRoutes.ScoreUpsertKeepsTables | backend/src/routes/scoring.ts:114-143 | storing a score for an existing performance keeps the table constraints and leaves every other performance's final score consistent |
| ScoringRoutes.PerformanceUpdateKeepsTables | backend/src/routes/scoring.ts:77-81 | updating a performance's descriptive fields keeps the table constraints |
| ScoringRoutes.PerformanceInsertKeepsTables | backend/src/routes/scoring.ts:74-76 | appending a performance with a new key and the next id keeps the table constraints |
| ScoringRoutes.SubmitScore | backend/src/routes/scoring.ts:95-170 | 400 and no change iff a validator fails; 404 and no change iff the body is valid but the performance does not exist; otherwise the score is upserted and the stored row is returned; the final score becomes Compute of the new rows unless one of them holds a `null` penalty, in which case the final-score table is unchanged and only that performance's final score may be stale |
| ScoringRoutes.StoreScore | backend/src/routes/scoring.ts:124-143 | the score table becomes UpsertScores of the old one; the table constraints are kept and every other performance's final score stays consistent |
| ScoringRoutes.RecordScore | backend/src/routes/scoring.ts:124-162 | the upsert followed by the recalculation; when the recalculation throws on a `null` penalty the failure is only logged, the final-score table is unchanged and only that performance may be stale |
| ScoringRoutes.UpsertPerformance | backend/src/routes/scoring.ts:56-92 | 400 and no change iff an id is missing; an existing (event, athlete, apparatus) keeps its id and gets the new order number, video URL and notes; a new one is appended with the next id |
| ScoringRoutes.Publish | backend/src/routes/scoring.ts:216-247 | 400 and no change iff the id list is missing or empty; otherwise the final-score table becomes Published of the old one |
| Scenarios.FourJudgeExecutionPanel | backend/src/services/scoringService.ts:99-132 | deductions 1.200, 1.500, 1.800, 2.100: the outer two are dropped, the average is 1.650 and E is 8.350 |
| Scenarios.TwoJudgeDifficultyPanel | backend/src/services/scoringService.ts:137-141 | D values 5.300 and 5.500 average to 5.400 |
| Scenarios.DifficultyPanelDropsNothing | backend/src/services/scoringService.ts:137-141 | the D mean of 0, 0, 3.000 is 1.000, while the E aggregator on the same values drops two and averages to 0 |
| Scenarios.CombinedPanels | backend/src/services/scoringService.ts:17-66 | those two panels give D 5.400, E 8.350 and a final score of 13.750 less the penalties |
| Scenarios.PublishSkipsMissingRows | backend/src/services/scoringService.ts:207-214 | publishing 10 and 11 when only 10 has a final score makes 10 official and adds no row for 11 |
| Scenarios.TieBrokenByLastName | backend/src/services/scoringService.ts:198 | equal final scores put Andrade before Biles |

## Left out

- Floating point: every number is an integer count of milli-points, so
  `parseFloat`, the float sums and `toFixed(3)` of a sum are exact here; the
  binary rounding of the source's floats (and `toFixed` of a value such as
  1.0005 that is not representable) is not modelled. Rounding of a mean is
  modelled as nearest, ties away from zero, on the exact quotient.
- Non-numeric values: a score value that `isFloat` rejects is an absent
  value; a penalty value that is a non-numeric string (which `parseFloat`
  turns into NaN) is not representable. Of the penalty elements that are
  not objects, only `null` is modelled (reading its `.value` throws);
  numbers, strings and nested arrays, whose `.value` is undefined and so
  skipped, are not representable.
- The database: each SQL statement is one assignment to an in-memory table
  (a `seq` in insertion order for scores and performances, a `map` for
  final scores). Transactions, concurrent recalculations, serial-id gaps,
  the database's own errors (the 500 responses) and text collation (last
  names compare by character code) are not modelled.
- Time: `NOW()` is a `now` parameter; `submitted_at` order is insertion
  order, which an upsert in place preserves.
- Authentication and authorisation: the judge id is a parameter; the role
  checks are not modelled.
- The audit log calls and the `console.error` logging of a failed
  recalculation are left out; they do not change the tables.
- The read routes `GET /performances/event/:eventId`,
  `GET /scores/performance/:performanceId` and `GET /leaderboard/:eventId`
  are not modelled; the last only forwards to `getLeaderboard`, which is.
- `deductions` on a score row are kept as an opaque integer list; the
  service never reads them.
- The default of `is_official` on a first insert comes from the database
  schema, which is not part of this model; it is taken to be false.
- ScoringRoutes.Publish: rejects an empty id list, following the evident
  intent of the route's `isArray().notEmpty()` guard; whether the validator
  library's `notEmpty()` rejects `[]` itself (rather than checking each
  element) is library behaviour outside this model. Were `[]` accepted, the
  route would answer 200 and change nothing (ScoringService.PublishingNothing).
- Calculation.ScoresFor: the query orders the selected rows by score type
  and then submission time; the model keeps them in table order. Nothing
  computed from them depends on the order except the recorded list of E
  values, which is in submission order in both.
- ScoringService.Store.CalculateFinalScore: recalculating a published
  performance overwrites its figures and keeps it official; the code has no
  guard against this, and the model follows the code (no `AlreadyPublished`
  error).
- Leaderboard.GetLeaderboard: rows equal in final score and last name may
  come in any order in the source; the model fixes one order and its
  contract promises only the ranking and the permutation.
- Leaderboard.EntryOf: the leaderboard entry carries the whole final-score
  row, not only the columns the query selects.

# Flag reputation: score formulas and window truncation

This project models two parts of Discourse's flag-reputation logic and proves
properties about them in Dafny.

- **`ReviewableScore`** (`reviewable_score.dfy`) covers the following:
  - the closed enumeration of score statuses: pending 0, agreed 1, disagreed 2, ignored 3;
  - the `pending?`/`agreed?`/`disagreed?`/`ignored?` predicates and the `where(status:)` scopes that the Ruby class generates from that enumeration;
  - the `score_transitions` table from reviewable action to score status;
  - the two formulas `user_accuracy_bonus` and `user_flag_score`.

  Ruby floats become Dafny `real`s, which are exact rationals. `Float#floor(2)` from the tests is modelled as `FloorTo2`. This makes the documented example values exact theorems: 3.0, 4.0, 6.0, 6.75, and 3.33 and 3.57 after flooring.
- **`TruncateUserFlagStats`** (`truncate_user_flag_stats.dfy`) models the job
  `Jobs::TruncateUserFlagStats#execute`:
  - A `Database` class holds the `user_stats` table as a `map` field. It holds the `reviewable_scores` table as a `seq` field, already in `ORDER BY created_at DESC` order.
  - `Execute` walks the listed ids in a `while` loop. Its loop invariant ties the table to the closed-form description `Truncated`.
  - The SQL query becomes pure functions: a filter by user and `status IN (agreed, disagreed, ignored)`, then `LIMIT 100`, then three `SUM(CASE ...)` counts. Each count is NULL over an empty window, as in SQL, and the `|| 0` then turns it into 0.
- `users.dfy` holds the `UserStat` counters and the parts of `User` that scoring reads. `wrappers.dfy` holds `Option`.

Main results:
- The bonus always lies in [0, 5], and it never decreases when the agreed count grows.
- Staff status replaces the trust level instead of adding to it.
- The recount gives min(100, number of judged scores of the user), split by outcome.
- Pending scores, scores of other users, and scores older than the newest 100 judged ones do not affect the recount.
- The job itself:
  - It rejects a missing or empty `user_ids` without changing anything.
  - It never creates records.
  - It only changes listed users with at least 100 judged flags.
  - It leaves every listed user with at most 100.
  - It is idempotent, for a fixed order of the scores (see the `created_at` line under "## Left out").
  - Its result does not depend on the order of the ids or on repeated ids.

## Notes

- Truncation applies to a user whose total is **at least** 100: the job skips only when `total < truncate_to` (app/jobs/regular/truncate_user_flag_stats.rb:16).
- The job has no per-user rescue and no cancellation, so the model has neither.
- The job breaks no ties in `created_at` with a secondary key. The model takes the order of the score sequence as given.

## Model

| member | source | states |
|---|---|---|
| `ReviewableScore.Code` | app/models/reviewable_score.rb:5-12 | every status code lies in 0..3, and only pending has code 0 |
| `ReviewableScore.StatusOfCode` | app/models/reviewable_score.rb:5-12 | a stored code decodes to a status exactly when it lies in 0..3, and the decoded status has that code |
| `ReviewableScore.CodeRoundTrip` | app/models/reviewable_score.rb:5-12 | decoding a status's code gives that status back, and the four codes are distinct |
| `ReviewableScore.HasStatus` | app/models/reviewable_score.rb:23-24 | the generated `s?` check holds exactly when the stored code decodes to `s` |
| `ReviewableScore.IsPending` | app/models/reviewable_score.rb:23-24 | `pending?` holds exactly when the status column is 0 |
| `ReviewableScore.IsAgreed` | app/models/reviewable_score.rb:23-24 | `agreed?` holds exactly when the status column is 1 |
| `ReviewableScore.IsDisagreed` | app/models/reviewable_score.rb:23-24 | `disagreed?` holds exactly when the status column is 2 |
| `ReviewableScore.IsIgnored` | app/models/reviewable_score.rb:23-24 | `ignored?` holds exactly when the status column is 3 |
| `ReviewableScore.StatusPredicates` | app/models/reviewable_score.rb:22-24 | each generated `s?` predicate holds exactly when the stored code decodes to `s`; at most one holds; one holds exactly when the code is in 0..3 |
| `ReviewableScore.Where` | app/models/reviewable_score.rb:25 | the generated scope keeps every row with that status as often as it occurs, and no other row |
| `ReviewableScore.WherePartitions` | app/models/reviewable_score.rb:23-25 | for rows with valid codes, the four scopes together contain every row once |
| `ReviewableScore.ScoreTransitions` | app/models/reviewable_score.rb:14-20 | the table's keys are exactly approved, rejected and ignored; every target is a valid code and none is pending |
| `ReviewableScore.ScoreTransitionTargets` | app/models/reviewable_score.rb:14-20 | approved goes to agreed, rejected to disagreed, ignored to ignored; no two actions share a target |
| `ReviewableScore.StatOf` | app/models/reviewable_score.rb:37 | `user&.user_stat` is nil for a nil user, and otherwise the user's stat record |
| `ReviewableScore.UserAccuracyBonus` | app/models/reviewable_score.rb:36-44 | the bonus lies in [0, 5]; it is 0 for a nil user, a missing stat record or at most 5 judged flags; otherwise bonus × total = 5 × agreed |
| `ReviewableScore.AccuracyBonusMonotonic` | app/models/reviewable_score.rb:40-43 | with disagreed and ignored held fixed, more agreed flags never give a smaller bonus |
| `ReviewableScore.UserFlagScore` | app/models/reviewable_score.rb:32-34 | staff scores lie in [6, 11] and others in [1 + TL, 6 + TL]; without a bonus the score is exactly 1 + (staff ? 5 : TL) |
| `ReviewableScore.StaffOverridesTrustLevel` | app/models/reviewable_score.rb:33 | two staff users with the same counters score the same whatever their trust levels |
| `ReviewableScore.FloorTo2` | spec/models/reviewable_score_spec.rb:48 | `floor(2)` gives a whole number of hundredths at most 0.01 below its input, which is the largest such value |
| `ReviewableScore.AccuracyBonusExamples` | spec/models/reviewable_score_spec.rb:35-53 | bonus 0 with no stat record, with a fresh zero record or with 4/1/0 flags; floor(2) gives 3.33 for 4/2/0 and 3.57 for 121/44/4 |
| `ReviewableScore.UserFlagScoreExamples` | spec/models/reviewable_score_spec.rb:58-81 | TL2 gives 3.0 and TL3 gives 4.0 without flags; a TL2 moderator and a TL1 admin give 6.0; TL2 with 12/2/2 gives 6.75 |
| `TruncateUserFlagStats.Database.FindUserStat` | app/jobs/regular/truncate_user_flag_stats.rb:12-13 | returns the user's record exactly when one exists, and nil otherwise |
| `TruncateUserFlagStats.Database.UpdateColumns` | app/jobs/regular/truncate_user_flag_stats.rb:35-39 | replaces all three counters of one existing record; no other record is changed and none is created; the scores are untouched |
| `TruncateUserFlagStats.QualifyingIsJudged` | app/jobs/regular/truncate_user_flag_stats.rb:29 | `status IN (:agreed, :disagreed, :ignored)` holds exactly for the valid codes other than pending |
| `TruncateUserFlagStats.QualifyingStatuses` | app/jobs/regular/truncate_user_flag_stats.rb:26-30 | every selected status is agreed, disagreed or ignored; the status of every judged score of the user occurs in the selection; the selection is no longer than the log |
| `TruncateUserFlagStats.QualifyingSingleton` | app/jobs/regular/truncate_user_flag_stats.rb:28-29 | a one-score log selects that score's status exactly when the score is the user's and judged; with `QualifyingConcat` this fixes the selection of every log |
| `TruncateUserFlagStats.Limit` | app/jobs/regular/truncate_user_flag_stats.rb:31 | the result is the prefix of length min(n, size) |
| `TruncateUserFlagStats.Window` | app/jobs/regular/truncate_user_flag_stats.rb:25-32 | the sub-select `rs` is the newest-first prefix of the user's judged statuses, of length 100, or all of them when there are fewer |
| `TruncateUserFlagStats.CountCode` | app/jobs/regular/truncate_user_flag_stats.rb:22-24 | a `SUM(CASE ...)` over rows is never larger than the number of rows |
| `TruncateUserFlagStats.CountCodeIsMultiplicity` | app/jobs/regular/truncate_user_flag_stats.rb:22-24 | each `SUM(CASE ...)` counts exactly the occurrences of its status code |
| `TruncateUserFlagStats.BucketsCoverWindow` | app/jobs/regular/truncate_user_flag_stats.rb:22-29 | within a window of judged scores, the three sums add up to the window's size |
| `TruncateUserFlagStats.SqlSum` | app/jobs/regular/truncate_user_flag_stats.rb:22-24 | a sum is NULL exactly when the window is empty, and otherwise it is the number of matching rows |
| `TruncateUserFlagStats.Query` | app/jobs/regular/truncate_user_flag_stats.rb:21-33 | all three sums are NULL exactly when the user has no judged score |
| `TruncateUserFlagStats.RecountedStat` | app/jobs/regular/truncate_user_flag_stats.rb:18-38 | the written counters are the outcome counts among the newest 100 judged scores; empty buckets are 0; their sum is min(100, judged scores) |
| `TruncateUserFlagStats.QualifyingConcat` | app/jobs/regular/truncate_user_flag_stats.rb:26-29 | selecting from two stretches of the log gives the two selections in order |
| `TruncateUserFlagStats.NonQualifyingRowIgnored` | app/jobs/regular/truncate_user_flag_stats.rb:28-29 | a pending score, a score with an unknown status or another user's score, inserted anywhere, does not change the recount |
| `TruncateUserFlagStats.OlderRowsOutsideWindow` | app/jobs/regular/truncate_user_flag_stats.rb:30-31 | once the user has 100 judged scores, older scores do not change the window or the recount |
| `TruncateUserFlagStats.Present` | app/jobs/regular/truncate_user_flag_stats.rb:9 | `present?` holds exactly for a given, non-empty list of ids |
| `TruncateUserFlagStats.TruncateOne` | app/jobs/regular/truncate_user_flag_stats.rb:12-39 | one loop pass creates no record, changes no other user, never raises the user's total, and leaves a total below 100 as it was |
| `TruncateUserFlagStats.Truncated` | app/jobs/regular/truncate_user_flag_stats.rb:12-13 | the job neither creates nor removes stat records |
| `TruncateUserFlagStats.TruncatedStep` | app/jobs/regular/truncate_user_flag_stats.rb:11-40 | one more loop iteration moves to the next prefix's table, including for an id seen before |
| `TruncateUserFlagStats.TruncatedUnlistedUnchanged` | app/jobs/regular/truncate_user_flag_stats.rb:11-40 | the record of a user that is not listed is unchanged, and it exists afterwards exactly when it existed before |
| `TruncateUserFlagStats.TruncatedListed` | app/jobs/regular/truncate_user_flag_stats.rb:15-16 | a listed user with total < 100 keeps the same counters; one with total ≥ 100 gets the recount |
| `TruncateUserFlagStats.TruncatedBounded` | app/jobs/regular/truncate_user_flag_stats.rb:15-38 | afterwards every listed user's counters sum to at most 100 |
| `TruncateUserFlagStats.TruncatedSetOnly` | app/jobs/regular/truncate_user_flag_stats.rb:11-40 | two id lists with the same members give the same table, whatever their order and repetitions |
| `TruncateUserFlagStats.TruncatedIdempotent` | app/jobs/regular/truncate_user_flag_stats.rb:15-39 | a second run with the same ids and no new scores changes nothing, given the same score order (ties in `created_at` are taken as fixed) |
| `TruncateUserFlagStats.Execute` | app/jobs/regular/truncate_user_flag_stats.rb:8-42 | raises InvalidParameters exactly when `user_ids` is missing or empty, and then leaves the table unchanged; otherwise the table becomes `Truncated`; the scores are never changed |

## Left out

- Floating point: IEEE-754 rounding in `to_f` and in the division is not modelled. Arithmetic is exact `real`.
- ActiveRecord and SQL execution are not modelled. `find_by`, `update_columns` and `DB.query` become map lookups, map updates and pure functions over the score sequence.
- The scopes at app/models/reviewable_score.rb:25 are defined with `self.class.define_method`. That puts them on `Class`, so every class gets them, not only `ReviewableScore`. `ReviewableScore.Where` models only their use on score rows.
- The scopes are modelled as filters that keep the table's order. SQL `where` promises no order.
- `score_type`: it wraps `Reviewable::Collection::Item`, which is not part of this model.
- `staff?` belongs to the `User` model, which is not part of this model. It is taken to be "admin or moderator".
- `created_at`: the score sequence is taken to be already in newest-first order, and ties keep that order. The sort itself is not modelled. With ties at the 100th score, `ORDER BY created_at DESC LIMIT 100` could choose different rows on another run. Idempotence (`TruncatedIdempotent`) and the window lemmas hold for the fixed order.
- The moderation workflow that creates scores, moves them out of pending, and increments the counters is not modelled. That code is not part of this model.
- Job scheduling through `Jobs::Base` and concurrency between the job and new scores are not modelled.
- `Execute`: it models no exception other than the argument guard. The database calls are taken to succeed.

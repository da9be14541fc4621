/** The `TruncateUserFlagStats` job: for each listed user whose three flag
    counters add up to at least `truncate_to`, recount them from only the
    newest `truncate_to` judged scores of that user and overwrite them. */
module TruncateUserFlagStats {
  import opened Wrappers
  import opened Users
  import opened ReviewableScore

  /** `truncate_to`: the size of the window the counters are bounded to. */
  const TruncateTo: nat := 100

  // ---------------------------------------------------------------------
  // The stored state
  // ---------------------------------------------------------------------

  /** The two tables the job touches. `reviewableScores` is kept in the order
      of `ORDER BY created_at DESC`: index 0 is the newest score. */
  class Database {
    var userStats: map<UserId, UserStat>
    var reviewableScores: seq<ScoreRecord>

    constructor (userStats: map<UserId, UserStat>, reviewableScores: seq<ScoreRecord>)
      ensures this.userStats == userStats && this.reviewableScores == reviewableScores
    {
      this.userStats := userStats;
      this.reviewableScores := reviewableScores;
    }

    /** `UserStat.find_by(user_id: u)`: the user's stat record, or nil. */
    method FindUserStat(u: UserId) returns (userStat: Option<UserStat>)
      ensures userStat.Some? <==> u in userStats
      ensures userStat.Some? ==> userStat.value == userStats[u]
    {
      userStat := if u in userStats then Some(userStats[u]) else None;
    }

    /** `user_stat.update_columns(...)`: overwrite all three counters of an
        existing record in one step; no other record and no score changes. */
    method UpdateColumns(u: UserId, userStat: UserStat)
      requires u in userStats
      modifies this`userStats
      ensures userStats == old(userStats)[u := userStat]
      ensures userStats.Keys == old(userStats).Keys
    {
      userStats := userStats[u := userStat];
    }
  }

  // ---------------------------------------------------------------------
  // The window query
  // ---------------------------------------------------------------------

  /** `status IN (:agreed, :disagreed, :ignored)`: a judged score. */
  predicate Qualifying(code: int) {
    code == Code(Agreed) || code == Code(Disagreed) || code == Code(Ignored)
  }

  /** The judged codes are exactly the valid codes other than pending. */
  lemma QualifyingIsJudged(code: int)
    ensures Qualifying(code) <==> StatusOfCode(code).Some? && StatusOfCode(code) != Some(Pending)
  {
  }

  /** The inner `SELECT status ... WHERE user_id = :user_id AND status IN (...)`
      without its `LIMIT`: the statuses of the user's judged scores, newest first. */
  function QualifyingStatuses(log: seq<ScoreRecord>, u: UserId): (r: seq<int>)
    ensures |r| <= |log|
    ensures forall i :: 0 <= i < |r| ==> Qualifying(r[i])
    ensures forall row :: row in log && row.userId == u && Qualifying(row.status) ==> row.status in r
  {
    if log == [] then []
    else
      var head := if log[0].userId == u && Qualifying(log[0].status) then [log[0].status] else [];
      head + QualifyingStatuses(log[1..], u)
  }

  /** `LIMIT n`: the first `n` elements, or all of them when there are fewer. */
  function Limit(s: seq<int>, n: nat): (r: seq<int>)
    ensures |r| == if |s| <= n then |s| else n
    ensures r == s[..|r|]
  {
    if |s| <= n then s else s[..n]
  }

  /** The sub-select `rs`: the statuses of the user's newest `truncate_to` judged scores. */
  function Window(log: seq<ScoreRecord>, u: UserId): (w: seq<int>)
    ensures |w| <= TruncateTo
    ensures |w| == TruncateTo || w == QualifyingStatuses(log, u)
    ensures |w| <= |QualifyingStatuses(log, u)| && w == QualifyingStatuses(log, u)[..|w|]
  {
    Limit(QualifyingStatuses(log, u), TruncateTo)
  }

  /** The number of rows whose status is `code`, as `SUM(CASE WHEN ... THEN 1 ELSE 0 END)`
      computes it over a non-empty set of rows. */
  function CountCode(w: seq<int>, code: int): (n: nat)
    ensures n <= |w|
  {
    if w == [] then 0
    else (if w[0] == code then 1 else 0) + CountCode(w[1..], code)
  }

  /** The counted rows are exactly the occurrences of `code`. */
  lemma {:induction false} CountCodeIsMultiplicity(w: seq<int>, code: int)
    ensures CountCode(w, code) == multiset(w)[code]
  {
    if w != [] {
      CountCodeIsMultiplicity(w[1..], code);
      assert w == [w[0]] + w[1..];
      assert multiset(w) == multiset([w[0]]) + multiset(w[1..]);
    }
  }

  /** Every judged row lands in exactly one of the three buckets. */
  lemma {:induction false} BucketsCoverWindow(w: seq<int>)
    requires forall i :: 0 <= i < |w| ==> Qualifying(w[i])
    ensures CountCode(w, Code(Agreed)) + CountCode(w, Code(Disagreed)) + CountCode(w, Code(Ignored)) == |w|
  {
    if w != [] {
      BucketsCoverWindow(w[1..]);
    }
  }

  /** `SUM(...)` in SQL: NULL over no rows, otherwise the count. */
  function SqlSum(w: seq<int>, code: int): (r: Option<nat>)
    ensures r.None? <==> w == []
    ensures r.Some? ==> r.value == multiset(w)[code]
  {
    CountCodeIsMultiplicity(w, code);
    if w == [] then None else Some(CountCode(w, code))
  }

  /** The one row `result[0]` of the query. */
  datatype SumRow = SumRow(agreed: Option<nat>, disagreed: Option<nat>, ignored: Option<nat>)

  /** The whole `DB.query` for user `u`: three sums over the window. */
  function Query(log: seq<ScoreRecord>, u: UserId): (row: SumRow)
    ensures row.agreed.None? <==> Window(log, u) == []
    ensures row.disagreed.None? <==> Window(log, u) == []
    ensures row.ignored.None? <==> Window(log, u) == []
  {
    var w := Window(log, u);
    SumRow(SqlSum(w, Code(Agreed)), SqlSum(w, Code(Disagreed)), SqlSum(w, Code(Ignored)))
  }

  /** The counters written back, `result[0].x || 0`: each one counts its
      outcome in the window, and together they count the whole window, that
      is min(`truncate_to`, number of judged scores of the user). */
  function RecountedStat(log: seq<ScoreRecord>, u: UserId): (userStat: UserStat)
    ensures userStat.flagsAgreed == multiset(Window(log, u))[Code(Agreed)]
    ensures userStat.flagsDisagreed == multiset(Window(log, u))[Code(Disagreed)]
    ensures userStat.flagsIgnored == multiset(Window(log, u))[Code(Ignored)]
    ensures userStat.Total() == if |QualifyingStatuses(log, u)| <= TruncateTo then |QualifyingStatuses(log, u)| else TruncateTo
    ensures userStat.Total() <= TruncateTo
  {
    var w := Window(log, u);
    BucketsCoverWindow(w);
    CountCodeIsMultiplicity(w, Code(Agreed));
    CountCodeIsMultiplicity(w, Code(Disagreed));
    CountCodeIsMultiplicity(w, Code(Ignored));
    var result := Query(log, u);
    UserStat(result.agreed.GetOr(0), result.disagreed.GetOr(0), result.ignored.GetOr(0))
  }

  // ---------------------------------------------------------------------
  // Properties of the window
  // ---------------------------------------------------------------------

  /** A single score is selected, as its status, exactly when it is the
      user's and judged; with QualifyingConcat this fixes the selection of
      every log. */
  lemma QualifyingSingleton(row: ScoreRecord, u: UserId)
    ensures QualifyingStatuses([row], u) == if row.userId == u && Qualifying(row.status) then [row.status] else []
  {
    assert [row][1..] == [];
  }

  /** Selecting from two stretches of the log selects from each in turn. */
  lemma {:induction false} QualifyingConcat(a: seq<ScoreRecord>, b: seq<ScoreRecord>, u: UserId)
    ensures QualifyingStatuses(a + b, u) == QualifyingStatuses(a, u) + QualifyingStatuses(b, u)
  {
    if a == [] {
      assert a + b == b;
    } else {
      var ab := a + b;
      assert ab != [] && ab[0] == a[0] && ab[1..] == a[1..] + b;
      QualifyingConcat(a[1..], b, u);
    }
  }

  /** A pending score, a score with an unknown status, or a score of another
      user changes nothing in the recount, wherever it stands in the log. */
  lemma NonQualifyingRowIgnored(log: seq<ScoreRecord>, k: nat, row: ScoreRecord, u: UserId)
    requires k <= |log|
    requires row.userId != u || !Qualifying(row.status)
    ensures RecountedStat(log[..k] + [row] + log[k..], u) == RecountedStat(log, u)
  {
    var front, back := log[..k], log[k..];
    QualifyingSingleton(row, u);
    calc {
      QualifyingStatuses(front + [row] + back, u);
      { QualifyingConcat(front + [row], back, u); }
      QualifyingStatuses(front + [row], u) + QualifyingStatuses(back, u);
      { QualifyingConcat(front, [row], u); }
      QualifyingStatuses(front, u) + QualifyingStatuses(back, u);
      { QualifyingConcat(front, back, u); assert front + back == log; }
      QualifyingStatuses(log, u);
    }
  }

  /** Once the user has `truncate_to` judged scores, older scores appended
      after them are outside the window and change nothing. */
  lemma OlderRowsOutsideWindow(log: seq<ScoreRecord>, older: seq<ScoreRecord>, u: UserId)
    requires |QualifyingStatuses(log, u)| >= TruncateTo
    ensures Window(log + older, u) == Window(log, u)
    ensures RecountedStat(log + older, u) == RecountedStat(log, u)
  {
    QualifyingConcat(log, older, u);
    var q := QualifyingStatuses(log, u);
    assert (q + QualifyingStatuses(older, u))[..TruncateTo] == q[..TruncateTo];
  }

  // ---------------------------------------------------------------------
  // The effect of the job on the stat table
  // ---------------------------------------------------------------------

  /** `args[:user_ids].present?`: given and non-empty. */
  predicate Present(userIds: Option<seq<UserId>>)
    ensures Present(userIds) <==> userIds.Some? && |userIds.value| > 0
  {
    userIds.Some? && userIds.value != []
  }

  /** One pass of the loop body for user `u`. */
  function TruncateOne(stats: map<UserId, UserStat>, log: seq<ScoreRecord>, u: UserId): (m: map<UserId, UserStat>)
    ensures m.Keys == stats.Keys
    ensures forall v :: v in stats && v != u ==> m[v] == stats[v]
    ensures u in stats ==> m[u].Total() <= stats[u].Total()
    ensures u in stats && stats[u].Total() < TruncateTo ==> m[u] == stats[u]
  {
    if u in stats && stats[u].Total() >= TruncateTo then stats[u := RecountedStat(log, u)] else stats
  }

  /** The table after the job: every listed user with a record and at least
      `truncate_to` judged flags holds the recount, every other record is kept. */
  function Truncated(stats: map<UserId, UserStat>, log: seq<ScoreRecord>, ids: seq<UserId>): (m: map<UserId, UserStat>)
    ensures m.Keys == stats.Keys
  {
    map u | u in stats :: if u in ids && stats[u].Total() >= TruncateTo then RecountedStat(log, u) else stats[u]
  }

  /** Processing one more id in the loop moves from one prefix's table to the
      next, also when the id was already processed. */
  lemma TruncatedStep(stats: map<UserId, UserStat>, log: seq<ScoreRecord>, ids: seq<UserId>, i: nat)
    requires i < |ids|
    ensures Truncated(stats, log, ids[..i + 1]) == TruncateOne(Truncated(stats, log, ids[..i]), log, ids[i])
  {
    assert ids[..i + 1] == ids[..i] + [ids[i]];
    var before := Truncated(stats, log, ids[..i]);
    var after := TruncateOne(before, log, ids[i]);
    forall v | v in stats
      ensures Truncated(stats, log, ids[..i + 1])[v] == after[v]
    {
      if v == ids[i] && v in ids[..i] && stats[v].Total() >= TruncateTo {
        assert before[v] == RecountedStat(log, v);
      }
    }
  }

  /** Records of users not listed are untouched, and no record is created. */
  lemma TruncatedUnlistedUnchanged(stats: map<UserId, UserStat>, log: seq<ScoreRecord>, ids: seq<UserId>, u: UserId)
    requires u !in ids
    ensures u in Truncated(stats, log, ids) <==> u in stats
    ensures u in stats ==> Truncated(stats, log, ids)[u] == stats[u]
  {
  }

  /** A listed user with fewer than `truncate_to` judged flags keeps exactly
      the same counters; one with at least that many gets the recount. */
  lemma TruncatedListed(stats: map<UserId, UserStat>, log: seq<ScoreRecord>, ids: seq<UserId>, u: UserId)
    requires u in ids && u in stats
    ensures stats[u].Total() < TruncateTo ==> Truncated(stats, log, ids)[u] == stats[u]
    ensures stats[u].Total() >= TruncateTo ==> Truncated(stats, log, ids)[u] == RecountedStat(log, u)
  {
  }

  /** After the job every listed user's counters sum to at most `truncate_to`. */
  lemma TruncatedBounded(stats: map<UserId, UserStat>, log: seq<ScoreRecord>, ids: seq<UserId>, u: UserId)
    requires u in ids && u in stats
    ensures Truncated(stats, log, ids)[u].Total() <= TruncateTo
  {
  }

  /** Only which ids are listed matters: not their order, nor repetitions. */
  lemma TruncatedSetOnly(stats: map<UserId, UserStat>, log: seq<ScoreRecord>, ids: seq<UserId>, ids': seq<UserId>)
    requires forall u :: u in ids <==> u in ids'
    ensures Truncated(stats, log, ids) == Truncated(stats, log, ids')
  {
  }

  /** Running the job a second time on the same ids, with no new scores in
      between, leaves the table as the first run left it. */
  lemma TruncatedIdempotent(stats: map<UserId, UserStat>, log: seq<ScoreRecord>, ids: seq<UserId>)
    ensures Truncated(Truncated(stats, log, ids), log, ids) == Truncated(stats, log, ids)
  {
  }

  // ---------------------------------------------------------------------
  // The job
  // ---------------------------------------------------------------------

  /** The job's arguments hash; `user_ids` may be missing. */
  datatype Args = Args(userIds: Option<seq<UserId>>)

  /** How `execute` ends: normally, or by raising `InvalidParameters`. */
  datatype Outcome = Completed | InvalidParameters(param: string)

  /** `execute(args)`: reject a missing or empty `user_ids` before reading any
      record; otherwise truncate the listed users one after the other. Only
      the stat table can change, and the scores are only read. */
  method Execute(db: Database, args: Args) returns (outcome: Outcome)
    modifies db`userStats
    ensures outcome == InvalidParameters("user_ids") <==> !Present(args.userIds)
    ensures outcome == Completed <==> Present(args.userIds)
    ensures !Present(args.userIds) ==> db.userStats == old(db.userStats)
    ensures Present(args.userIds) ==>
      db.userStats == Truncated(old(db.userStats), db.reviewableScores, args.userIds.value)
    ensures db.reviewableScores == old(db.reviewableScores)
  {
    if !Present(args.userIds) {
      return InvalidParameters("user_ids");
    }
    var ids := args.userIds.value;
    ghost var before := db.userStats;
    var i := 0;
    while i < |ids|
      invariant 0 <= i <= |ids|
      invariant db.userStats == Truncated(before, db.reviewableScores, ids[..i])
    {
      var u := ids[i];
      TruncatedStep(before, db.reviewableScores, ids, i);
      var userStat := db.FindUserStat(u);
      if userStat.Some? {
        var total := userStat.value.Total();
        if total >= TruncateTo {
          var result := Query(db.reviewableScores, u);
          db.UpdateColumns(u, UserStat(result.agreed.GetOr(0), result.disagreed.GetOr(0), result.ignored.GetOr(0)));
        }
      }
      i := i + 1;
    }
    assert ids[..|ids|] == ids;
    return Completed;
  }
}

/** The `ReviewableScore` model: the closed set of score statuses and their
    integer codes, the per-status predicates and scopes generated from them,
    the action-to-status transition table, and the two flag-reputation
    formulas `user_accuracy_bonus` and `user_flag_score`.
    Floating point is modelled by exact `real` arithmetic. */
module ReviewableScore {
  import opened Wrappers
  import opened Users

  // ---------------------------------------------------------------------
  // Statuses
  // ---------------------------------------------------------------------

  /** The keys of the `statuses` enumeration. */
  datatype Status = Pending | Agreed | Disagreed | Ignored

  /** `statuses[s]`: the integer stored in the `status` column. */
  function Code(s: Status): (c: int)
    ensures 0 <= c <= 3
    ensures c == 0 <==> s == Pending
  {
    match s
    case Pending => 0
    case Agreed => 1
    case Disagreed => 2
    case Ignored => 3
  }

  /** The enumeration read backwards: the status a stored code stands for,
      `None` when the code is not one of the four. */
  function StatusOfCode(c: int): (r: Option<Status>)
    ensures r.Some? <==> 0 <= c <= 3
    ensures r.Some? ==> Code(r.value) == c
  {
    if c == 0 then Some(Pending)
    else if c == 1 then Some(Agreed)
    else if c == 2 then Some(Disagreed)
    else if c == 3 then Some(Ignored)
    else None
  }

  /** The four codes are distinct and decode back to their status. */
  lemma CodeRoundTrip(s: Status, t: Status)
    ensures StatusOfCode(Code(s)) == Some(s)
    ensures Code(s) == Code(t) ==> s == t
  {
  }

  // ---------------------------------------------------------------------
  // Score rows and the generated helpers
  // ---------------------------------------------------------------------

  /** A `reviewable_scores` row, reduced to what the core reads. */
  datatype ScoreRecord = ScoreRecord(userId: UserId, status: int)

  /** The generated instance predicate `s?` for status `s`: `status == statuses[s]`. */
  predicate HasStatus(row: ScoreRecord, s: Status)
    ensures HasStatus(row, s) <==> StatusOfCode(row.status) == Some(s)
  {
    row.status == Code(s)
  }

  /** `pending?` */
  predicate IsPending(row: ScoreRecord)
    ensures IsPending(row) <==> row.status == 0
  {
    HasStatus(row, Pending)
  }

  /** `agreed?` */
  predicate IsAgreed(row: ScoreRecord)
    ensures IsAgreed(row) <==> row.status == 1
  {
    HasStatus(row, Agreed)
  }

  /** `disagreed?` */
  predicate IsDisagreed(row: ScoreRecord)
    ensures IsDisagreed(row) <==> row.status == 2
  {
    HasStatus(row, Disagreed)
  }

  /** `ignored?` */
  predicate IsIgnored(row: ScoreRecord)
    ensures IsIgnored(row) <==> row.status == 3
  {
    HasStatus(row, Ignored)
  }

  /** Each generated predicate holds exactly when the stored code decodes to
      its status; at most one of them holds, and one holds exactly when the
      code is one of the four. */
  lemma StatusPredicates(row: ScoreRecord)
    ensures IsPending(row) <==> StatusOfCode(row.status) == Some(Pending)
    ensures IsAgreed(row) <==> StatusOfCode(row.status) == Some(Agreed)
    ensures IsDisagreed(row) <==> StatusOfCode(row.status) == Some(Disagreed)
    ensures IsIgnored(row) <==> StatusOfCode(row.status) == Some(Ignored)
    ensures (IsPending(row) || IsAgreed(row) || IsDisagreed(row) || IsIgnored(row)) <==> 0 <= row.status <= 3
    ensures !(IsPending(row) && IsAgreed(row)) && !(IsPending(row) && IsDisagreed(row))
    ensures !(IsPending(row) && IsIgnored(row)) && !(IsAgreed(row) && IsDisagreed(row))
    ensures !(IsAgreed(row) && IsIgnored(row)) && !(IsDisagreed(row) && IsIgnored(row))
  {
  }

  /** The generated class-level scope `s` for status `s`: `where(status: id)`,
      keeping the rows in their original order. */
  function Where(rows: seq<ScoreRecord>, s: Status): (r: seq<ScoreRecord>)
    ensures |r| <= |rows|
    ensures forall i :: 0 <= i < |r| ==> HasStatus(r[i], s)
    ensures forall row :: row in rows && HasStatus(row, s) ==> row in r
    ensures forall row :: row in r ==> row in rows
    ensures forall row :: multiset(r)[row] == if HasStatus(row, s) then multiset(rows)[row] else 0
  {
    if rows == [] then []
    else
      assert rows == [rows[0]] + rows[1..];
      if HasStatus(rows[0], s) then [rows[0]] + Where(rows[1..], s)
      else Where(rows[1..], s)
  }

  /** The four scopes partition every table whose codes are all valid. */
  lemma {:induction false} WherePartitions(rows: seq<ScoreRecord>)
    requires forall i :: 0 <= i < |rows| ==> 0 <= rows[i].status <= 3
    ensures |Where(rows, Pending)| + |Where(rows, Agreed)| + |Where(rows, Disagreed)| + |Where(rows, Ignored)| == |rows|
  {
    if rows != [] {
      WherePartitions(rows[1..]);
    }
  }

  // ---------------------------------------------------------------------
  // Score transitions
  // ---------------------------------------------------------------------

  /** `score_transitions`: the status a pending score moves to when its
      reviewable is approved, rejected or ignored. */
  function ScoreTransitions(): (m: map<string, int>)
    ensures m.Keys == {"approved", "rejected", "ignored"}
    ensures forall action :: action in m ==> StatusOfCode(m[action]).Some? && m[action] != Code(Pending)
  {
    map["approved" := Code(Agreed), "rejected" := Code(Disagreed), "ignored" := Code(Ignored)]
  }

  /** The table sends each action to its own status, and no two actions to the same one. */
  lemma ScoreTransitionTargets()
    ensures StatusOfCode(ScoreTransitions()["approved"]) == Some(Agreed)
    ensures StatusOfCode(ScoreTransitions()["rejected"]) == Some(Disagreed)
    ensures StatusOfCode(ScoreTransitions()["ignored"]) == Some(Ignored)
    ensures forall a, b :: a in ScoreTransitions() && b in ScoreTransitions() && a != b ==>
      ScoreTransitions()[a] != ScoreTransitions()[b]
  {
  }

  // ---------------------------------------------------------------------
  // Flag-reputation formulas
  // ---------------------------------------------------------------------

  /** `user&.user_stat`: the stat record of a user that may itself be nil. */
  function StatOf(user: Option<User>): (userStat: Option<UserStat>)
    ensures user.None? ==> userStat.None?
    ensures user.Some? ==> userStat == user.value.userStat
  {
    if user.Some? then user.value.userStat else None
  }

  /** The bonus is withheld: there is no stat record, or at most five judged flags. */
  predicate TooFewFlags(user: Option<User>) {
    StatOf(user).None? || StatOf(user).value.Total() <= 5
  }

  /** `user_accuracy_bonus`: 0 for too few flags, otherwise five times the
      fraction of the user's judged flags that were agreed with. */
  function UserAccuracyBonus(user: Option<User>): (bonus: real)
    ensures 0.0 <= bonus <= 5.0
    ensures TooFewFlags(user) ==> bonus == 0.0
    ensures !TooFewFlags(user) ==>
      bonus * StatOf(user).value.Total() as real == 5.0 * StatOf(user).value.flagsAgreed as real
  {
    var userStat := StatOf(user);
    if userStat.None? then 0.0
    else
      var total := userStat.value.Total() as real;
      if total <= 5.0 then 0.0
      else
        var fraction := userStat.value.flagsAgreed as real / total;
        assert 0.0 <= fraction <= 1.0;
        fraction * 5.0
  }

  /** A user with the given counters and plain trust level 0. */
  function WithCounters(agreed: nat, disagreed: nat, ignored: nat): Option<User> {
    Some(User(false, false, 0, Some(UserStat(agreed, disagreed, ignored))))
  }

  /** Holding the number of other outcomes fixed, the bonus never decreases
      as the number of agreed flags grows (the bonus ignores roles and trust
      level, so a plain TL0 user stands for every user). */
  lemma AccuracyBonusMonotonic(agreed: nat, agreed': nat, disagreed: nat, ignored: nat)
    requires agreed <= agreed'
    ensures UserAccuracyBonus(WithCounters(agreed, disagreed, ignored)) <= UserAccuracyBonus(WithCounters(agreed', disagreed, ignored))
  {
    var others := (disagreed + ignored) as real;
    var a, a' := agreed as real, agreed' as real;
    if agreed + disagreed + ignored > 5 {
      assert a * (a' + others) <= a' * (a + others) by {
        assert a * others <= a' * others;
      }
      assert a / (a + others) <= a' / (a' + others) by {
        DivMonotonic(a, a + others, a', a' + others);
      }
    }
  }

  /** x/y <= x'/y' follows from x*y' <= x'*y for positive y, y'. */
  lemma DivMonotonic(x: real, y: real, x': real, y': real)
    requires y > 0.0 && y' > 0.0
    requires x * y' <= x' * y
    ensures x / y <= x' / y'
  {
  }

  /** `user_flag_score`: 1, plus 5 for staff or else the trust level, plus the
      accuracy bonus. */
  function UserFlagScore(user: User): (score: real)
    ensures user.Staff() ==> 6.0 <= score <= 11.0
    ensures !user.Staff() ==> 1.0 + user.trustLevel as real <= score <= 6.0 + user.trustLevel as real
    ensures TooFewFlags(Some(user)) ==> score == 1.0 + (if user.Staff() then 5.0 else user.trustLevel as real)
  {
    1.0 + (if user.Staff() then 5.0 else user.trustLevel as real) + UserAccuracyBonus(Some(user))
  }

  /** Staff status replaces the trust level instead of adding to it: two staff
      users with the same counters score the same whatever their trust levels. */
  lemma StaffOverridesTrustLevel(u: User, v: User)
    requires u.Staff() && v.Staff() && u.userStat == v.userStat
    ensures UserFlagScore(u) == UserFlagScore(v)
  {
  }

  // ---------------------------------------------------------------------
  // The documented example values
  // ---------------------------------------------------------------------

  /** Ruby's `Float#floor(2)`: round down to two decimal places. */
  function FloorTo2(x: real): (r: real)
    ensures r <= x < r + 0.01
    ensures (r * 100.0).Floor as real == r * 100.0
  {
    (x * 100.0).Floor as real / 100.0
  }

  /** `user_accuracy_bonus` examples: no user or stat record, a fresh record
      with zero counters, 4/1/0 flags,
      4/2/0 flags (3.33 after floor(2)) and 121/44/4 flags (3.57 after floor(2)). */
  lemma AccuracyBonusExamples()
    ensures UserAccuracyBonus(None) == 0.0
    ensures UserAccuracyBonus(Some(User(false, false, 0, None))) == 0.0
    ensures UserAccuracyBonus(WithCounters(0, 0, 0)) == 0.0
    ensures UserAccuracyBonus(WithCounters(4, 1, 0)) == 0.0
    ensures FloorTo2(UserAccuracyBonus(WithCounters(4, 2, 0))) == 3.33
    ensures FloorTo2(UserAccuracyBonus(WithCounters(121, 44, 4))) == 3.57
  {
  }

  /** `user_flag_score` examples: TL2 and TL3 without flags give 3.0 and 4.0,
      a TL2 moderator and a TL1 admin give 6.0, and TL2 with 12/2/2 flags gives 6.75. */
  lemma UserFlagScoreExamples()
    ensures UserFlagScore(User(false, false, 2, None)) == 3.0
    ensures UserFlagScore(User(false, false, 3, None)) == 4.0
    ensures UserFlagScore(User(false, true, 2, None)) == 6.0
    ensures UserFlagScore(User(true, false, 1, None)) == 6.0
    ensures UserFlagScore(User(false, false, 2, Some(UserStat(12, 2, 2)))) == 6.75
  {
  }
}

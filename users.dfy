/** The parts of the `users` and `user_stats` records that flag scoring reads. */
module Users {
  import opened Wrappers

  type UserId = int

  /** A `user_stats` row: the three rolling flag counters of one user. */
  datatype UserStat = UserStat(flagsAgreed: nat, flagsDisagreed: nat, flagsIgnored: nat) {

    /** The number of judged flags these counters summarise. */
    function Total(): nat {
      flagsAgreed + flagsDisagreed + flagsIgnored
    }
  }

  /** A user as flag scoring sees it: staff roles, trust level and the
      (possibly absent) stat record. */
  datatype User = User(admin: bool, moderator: bool, trustLevel: int, userStat: Option<UserStat>) {

    /** `staff?`: an admin or a moderator. */
    predicate Staff() {
      admin || moderator
    }
  }
}

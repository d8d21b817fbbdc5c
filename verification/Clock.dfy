// Time as Go keeps it: nanoseconds.
module Clock {
  const SECOND := 1_000_000_000
  const MINUTE := 60 * SECOND

  // time.Time's zero value, 1 January of year 1.
  const ZERO_TIME := -62_135_596_800 * SECOND

  // time.Time.Unix: whole seconds, rounded towards the past.
  function Unix(at: int): int {
    at / SECOND
  }
}

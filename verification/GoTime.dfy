/** Go's time.Time as nanoseconds. */
module GoTime {

  const SECOND := 1_000_000_000

  /** Time.Unix: whole seconds, rounding down. */
  function Unix(nanos: int): int {
    nanos / SECOND
  }
}

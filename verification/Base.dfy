/** Instants, durations and optional values shared by the whole model. */
module Base {

  datatype Option<+T> = None | Some(value: T)

  /** Nanoseconds since the Unix epoch. */
  type Instant = int

  /** A length of time in nanoseconds. */
  type Duration = int

  const MICROSECOND: Duration := 1_000
  const SECOND: Duration := 1_000_000_000
  const MINUTE: Duration := 60 * SECOND

  function Max(a: int, b: int): int {
    if a < b then b else a
  }

  function Min(a: int, b: int): int {
    if a < b then a else b
  }

  /** An optional gate is open once its instant has come; no gate is always open. */
  predicate Reached(gate: Option<Instant>, now: Instant) {
    gate.None? || gate.value <= now
  }
}

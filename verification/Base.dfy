/** Values shared by every module: optional values, the clock, and Go's integer division. */
module Base {

  datatype Option<+T> = None | Some(value: T)

  /** An instant, as nanoseconds since Go's zero time. */
  type Time = int

  const ZERO_TIME: Time := 0
  const SECOND: int := 1_000_000_000
  const MINUTE: int := 60 * SECOND
  const HOUR: int := 60 * MINUTE

  /** The units in nanoseconds. */
  lemma Units()
    ensures SECOND == 1_000_000_000 && MINUTE == 60_000_000_000 && HOUR == 3_600_000_000_000
  {
  }

  /** Go's `/` on signed integers: the quotient is cut towards zero. */
  function TruncDiv(a: int, b: int): int
    requires b > 0
  {
    if a >= 0 then a / b else -((-a) / b)
  }

  function Max(a: int, b: int): int {
    if a < b then b else a
  }

  /** Whole seconds from `since` to `at`; a clock that runs backwards gives zero. */
  function DwellSeconds(since: Time, at: Time): (s: nat)
    ensures at < since ==> s == 0
    ensures since <= at ==> s * SECOND <= at - since < (s + 1) * SECOND
  {
    Max(0, TruncDiv(at - since, SECOND))
  }

  lemma DwellMonotone(since: Time, since': Time, at: Time)
    requires since <= since'
    ensures DwellSeconds(since', at) <= DwellSeconds(since, at)
  {
  }
}

/** Types shared by every module of the model. */
module Common {

  datatype Option<+T> = None | Some(value: T)

  /** Go's `time.Time`, as nanoseconds since its zero value. */
  type Time = int

  const MICROSECOND: int := 1000

  /** `!IsZero()` and aligned to whole microseconds (`canonicalAuthorityTimestamp`, `validAuthorityDBTimestamp`). */
  predicate Canonical(t: Time) {
    t != 0 && t % MICROSECOND == 0
  }
}

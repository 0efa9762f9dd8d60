/** Readings of the clock. */
module Clock {
  /** Nanoseconds; the zero time.Time is 0. */
  type Time = int

  const ZERO_TIME: Time := 0
}

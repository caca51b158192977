/**
 * Wall-clock time as the token classes read it. `datetime.datetime.now()` is not
 * called inside the model: the current instant is a parameter of every operation
 * that reads it.
 */
module Clock {
  /** A `datetime`, as a count of microseconds (the resolution of `datetime`). */
  type Instant = int

  const MICROS_PER_SECOND := 1_000_000

  /** `datetime.timedelta(seconds=n)` */
  function Seconds(n: int): (r: int)
    ensures n >= 0 ==> r >= n
    ensures n > 0 ==> r > 0
  {
    n * MICROS_PER_SECOND
  }

  /** `REFRESH_TOKEN_TIME_GAP_IN_SECONDS` */
  const REFRESH_TOKEN_TIME_GAP_IN_SECONDS := 10

  /** `RAPID_TOKEN_LIFE_SPAN_IN_SECONDS` */
  const RAPID_TOKEN_LIFE_SPAN_IN_SECONDS := 300
}

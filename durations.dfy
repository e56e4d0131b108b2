/** The part of Go's `time` package that `WithMaxAge` uses. */
module Durations {

  /** `time.Duration`: a signed 64-bit count of nanoseconds. */
  newtype Duration = d: int | -0x8000_0000_0000_0000 <= d < 0x8000_0000_0000_0000

  const NanosPerSecond: int := 1_000_000_000

  const Second: Duration := 1_000_000_000
  const Minute: Duration := 60_000_000_000

  /** `int(age.Seconds())`: the whole seconds in `d`, the fraction dropped toward zero. */
  function WholeSeconds(d: Duration): (s: int)
    ensures 0 <= d ==> 0 <= s && s * 1_000_000_000 <= d as int < (s + 1) * 1_000_000_000
    ensures d < 0 ==> s <= 0 && (s - 1) * 1_000_000_000 < d as int <= s * 1_000_000_000
  {
    if d >= 0 then (d as int) / NanosPerSecond else -((-(d as int)) / NanosPerSecond)
  }

  /** Ten minutes are 600 seconds. */
  lemma TenMinutesWholeSeconds()
    ensures WholeSeconds(10 * Minute) == 600
  {
  }

  /** Anything shorter than a second, in either direction, is 0 seconds. */
  lemma SubSecondWholeSeconds(d: Duration)
    requires -Second < d < Second
    ensures WholeSeconds(d) == 0
  {
  }
}

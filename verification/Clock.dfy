/** Durations. All times that are not Redis times are counted in microseconds. */
module Clock {
  const HOUR := 3_600_000_000
  const DAY := 86_400_000_000
}

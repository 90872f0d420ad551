/** Go's `time.Time` and `time.Duration`, both as whole nanoseconds. The zero `time.Time{}` is 0. */
module Clock {

  type Time = int
  type Duration = int

  const ZeroTime: Time := 0

  const Nanosecond: Duration := 1
  const Second: Duration := 1_000_000_000 * Nanosecond
  const Minute: Duration := 60 * Second
  const Hour: Duration := 60 * Minute
}

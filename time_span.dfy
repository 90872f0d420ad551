/** timer/time_span.go: a timer that is up once `interval` has passed since the last clock-in. */
module TimeSpans {
  import opened Clock

  /** What `IsTimeUp(tm)` answers for a span whose last clock-in was at `lastAt`: with
      `next = lastAt + interval`, `(false, next)` before `next` and `(true, tm)` from `next` on. */
  function SpanUp(lastAt: Time, interval: Duration, tm: Time): (r: (bool, Time))
    ensures r.0 <==> lastAt + interval <= tm
    ensures r.0 ==> r.1 == tm
    ensures !r.0 ==> tm < r.1 && r.1 - lastAt == interval
  {
    var next := lastAt + interval;
    if tm < next then (false, next) else (true, tm)
  }

  /** `struct TimeSpan`: `interval` is fixed at construction, `lastAt` moves on each successful
      clock-in. */
  class TimeSpan {
    const interval: Duration
    var lastAt: Time

    /** `NewTimeSpan(interval, lastAt)`: the `lastAt` argument is ignored and the span starts at
        the zero time. */
    constructor (interval: Duration, lastAt: Time)
      ensures this.interval == interval && this.lastAt == ZeroTime
    {
      this.interval := interval;
      this.lastAt := ZeroTime;
    }

    /** `IsTimeUp(tm)`: reads the span and changes nothing. */
    function IsTimeUp(tm: Time): (r: (bool, Time))
      reads this
      ensures r.0 <==> lastAt + interval <= tm
      ensures r.1 == if r.0 then tm else lastAt + interval
    {
      SpanUp(lastAt, interval, tm)
    }

    /** `ClockIn(tm)`: answers as `IsTimeUp(tm)` and, when up, restarts the span at `tm`. */
    method ClockIn(tm: Time) returns (up: bool, next: Time)
      modifies this
      ensures (up, next) == old(IsTimeUp(tm))
      ensures lastAt == if up then tm else old(lastAt)
      ensures up ==> forall t :: t < tm + interval ==> !IsTimeUp(t).0
    {
      up, next := IsTimeUp(tm).0, IsTimeUp(tm).1;
      if up {
        ResetAs(tm);
      }
    }

    /** `ResetAs(tm)`: the last clock-in becomes `tm`. */
    method ResetAs(tm: Time)
      modifies this
      ensures lastAt == tm
    {
      lastAt := tm;
    }
  }

  /** The clock-ins that succeed when a span that last clocked in at `lastAt` is clocked at the
      times `ts`, one `ClockIn` after another. */
  function Accepted(lastAt: Time, interval: Duration, ts: seq<Time>): (acc: seq<Time>)
    ensures |acc| <= |ts|
    decreases |ts|
  {
    if ts == [] then []
    else if SpanUp(lastAt, interval, ts[0]).0 then [ts[0]] + Accepted(ts[0], interval, ts[1..])
    else Accepted(lastAt, interval, ts[1..])
  }

  /** Whatever times a span is clocked at, and in whatever order, successive successful clock-ins
      are at least `interval` apart, and the first comes at least `interval` after `lastAt`. */
  lemma {:induction false} AcceptedAreSpaced(lastAt: Time, interval: Duration, ts: seq<Time>)
    ensures var acc := Accepted(lastAt, interval, ts);
      && (|acc| > 0 ==> lastAt + interval <= acc[0])
      && forall i :: 0 <= i < |acc| - 1 ==> acc[i] + interval <= acc[i + 1]
    decreases |ts|
  {
    if ts != [] {
      if SpanUp(lastAt, interval, ts[0]).0 {
        AcceptedAreSpaced(ts[0], interval, ts[1..]);
        var rest := Accepted(ts[0], interval, ts[1..]);
        var acc := [ts[0]] + rest;
        forall i | 0 <= i < |acc| - 1
          ensures acc[i] + interval <= acc[i + 1]
        {
          if i > 0 {
            assert acc[i] == rest[i - 1] && acc[i + 1] == rest[i];
          }
        }
      } else {
        AcceptedAreSpaced(lastAt, interval, ts[1..]);
      }
    }
  }
}

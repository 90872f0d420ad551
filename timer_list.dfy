/** timer/timer.go: a list of timers that is up only when all of them are up. */
module TimerLists {
  import opened Wrappers
  import opened Clock
  import opened TimeSpans
  import TimeRanges

  /** A member of a list: one of the package's two leaf timers, a `TimeSpan`, whose `ClockIn`
      changes it, or a `TimeRange`, which never changes. Nested lists and timers of other types
      are not members here. */
  datatype Timer = Span(span: TimeSpan) | Range(range: TimeRanges.TimeRange)

  /** The spans among `ts`: what `ClockIn` may change. */
  function SpansOf(ts: seq<Timer>): set<TimeSpan> {
    set i | 0 <= i < |ts| && ts[i].Span? :: ts[i].span
  }

  /** `timer.IsTimeUp(tm)` for one member. */
  function Answer(t: Timer, tm: Time): (bool, Time)
    reads if t.Span? then {t.span} else {}
  {
    match t
    case Span(s) => s.IsTimeUp(tm)
    case Range(r) => TimeRanges.IsTimeUp(r, tm)
  }

  /** The members' answers to `IsTimeUp(tm)`, in list order. */
  function Answers(ts: seq<Timer>, tm: Time): (rs: seq<(bool, Time)>)
    reads SpansOf(ts)
    ensures |rs| == |ts|
  {
    if ts == [] then []
    else
      assert SpansOf(ts[..|ts| - 1]) <= SpansOf(ts) by {
        forall s | s in SpansOf(ts[..|ts| - 1]) ensures s in SpansOf(ts) {
          var i :| 0 <= i < |ts| - 1 && ts[..|ts| - 1][i].Span? && ts[..|ts| - 1][i].span == s;
          assert ts[i].span == s;
        }
      }
      Answers(ts[..|ts| - 1], tm) + [Answer(ts[|ts| - 1], tm)]
  }

  lemma {:induction false} AnswersAt(ts: seq<Timer>, tm: Time, i: int)
    requires 0 <= i < |ts|
    ensures Answers(ts, tm)[i] == Answer(ts[i], tm)
    decreases |ts|
  {
    if i < |ts| - 1 {
      AnswersAt(ts[..|ts| - 1], tm, i);
    }
  }

  lemma AnswersOfPrefix(ts: seq<Timer>, tm: Time, i: int)
    requires 0 <= i < |ts|
    ensures Answers(ts[..i + 1], tm) == Answers(ts[..i], tm) + [Answer(ts[i], tm)]
  {
    assert ts[..i + 1][..i] == ts[..i];
  }

  /** Every answer is up. */
  predicate AllUp(rs: seq<(bool, Time)>) {
    forall i :: 0 <= i < |rs| ==> rs[i].0
  }

  /** The largest `next` among the answers that are not up, starting from the zero time and
      taking a later `next` only when it is strictly after the one kept so far. */
  function MaxNext(rs: seq<(bool, Time)>): Time {
    if rs == [] then ZeroTime
    else
      var m := MaxNext(rs[..|rs| - 1]);
      var last := rs[|rs| - 1];
      if !last.0 && last.1 > m then last.1 else m
  }

  /** `MaxNext` is no earlier than the `next` of any member that is not up, and is the zero time
      or the `next` of one of them. */
  lemma {:induction false} MaxNextIsMax(rs: seq<(bool, Time)>)
    ensures forall i :: 0 <= i < |rs| && !rs[i].0 ==> rs[i].1 <= MaxNext(rs)
    ensures MaxNext(rs) == ZeroTime || exists i :: 0 <= i < |rs| && !rs[i].0 && rs[i].1 == MaxNext(rs)
  {
    if rs != [] {
      var init := rs[..|rs| - 1];
      MaxNextIsMax(init);
      forall i | 0 <= i < |rs| - 1
        ensures rs[i] == init[i]
      {
      }
      if MaxNext(rs) != ZeroTime && MaxNext(rs) == MaxNext(init) {
        var i :| 0 <= i < |init| && !init[i].0 && init[i].1 == MaxNext(init);
        assert rs[i] == init[i];
      }
    }
  }

  /** One more answer, as one more turn of the loop in `IsTimeUp` sees it. */
  lemma OneMoreAnswer(rs: seq<(bool, Time)>, r: (bool, Time))
    ensures AllUp(rs + [r]) == (AllUp(rs) && r.0)
    ensures MaxNext(rs + [r]) == if !r.0 && r.1 > MaxNext(rs) then r.1 else MaxNext(rs)
  {
    assert (rs + [r])[..|rs|] == rs && (rs + [r])[|rs|] == r;
    assert forall i :: 0 <= i < |rs| ==> (rs + [r])[i] == rs[i];
  }

  /** What `TimerList.IsTimeUp(tm)` answers: `(true, tm)` when every member is up, otherwise
      `(false, MaxNext)`. */
  function Combine(rs: seq<(bool, Time)>, tm: Time): (bool, Time) {
    if AllUp(rs) then (true, tm) else (false, MaxNext(rs))
  }

  /** The list is up at `tm` exactly when each member is, and when it is not, its `next` is no
      earlier than any member's that is not up. */
  lemma ListUpIffEachUp(ts: seq<Timer>, tm: Time)
    ensures Combine(Answers(ts, tm), tm).0 <==> forall i :: 0 <= i < |ts| ==> Answer(ts[i], tm).0
    ensures forall i :: 0 <= i < |ts| && !Answer(ts[i], tm).0 ==>
      Answer(ts[i], tm).1 <= Combine(Answers(ts, tm), tm).1
  {
    forall i | 0 <= i < |ts|
      ensures Answers(ts, tm)[i] == Answer(ts[i], tm)
    {
      AnswersAt(ts, tm, i);
    }
    MaxNextIsMax(Answers(ts, tm));
  }

  datatype ListError = EmptyTimer  // "empty timer"

  /** `struct TimerList`. The member list is never reassigned. */
  class TimerList {
    const timers: seq<Timer>

    constructor (timers: seq<Timer>)
      ensures this.timers == timers
    {
      this.timers := timers;
    }

    /** What `IsTimeUp(tm)` answers in the current state. */
    function ListAnswer(tm: Time): (bool, Time)
      reads this, SpansOf(timers)
    {
      Combine(Answers(timers, tm), tm)
    }

    /** `IsTimeUp(tm)`: asks every member, keeps whether all are up and the latest `next` of
        those that are not. */
    method IsTimeUp(tm: Time) returns (up: bool, next: Time)
      ensures (up, next) == ListAnswer(tm)
    {
      var maxnext := ZeroTime;
      var iss := true;
      for i := 0 to |timers|
        invariant iss == AllUp(Answers(timers[..i], tm))
        invariant maxnext == MaxNext(Answers(timers[..i], tm))
      {
        var r := Answer(timers[i], tm);
        AnswersOfPrefix(timers, tm, i);
        OneMoreAnswer(Answers(timers[..i], tm), r);
        if !r.0 {
          iss := false;
          if r.1 > maxnext {
            maxnext := r.1;
          }
        }
      }
      assert timers[..|timers|] == timers;
      if !iss {
        return false, maxnext;
      }
      return true, tm;
    }

    /** `ClockIn(tm)`: when the list is up, clocks every member in at `tm` in list order, which
        restarts every span at `tm`; otherwise changes nothing. Answers as `IsTimeUp(tm)`. */
    method ClockIn(tm: Time) returns (up: bool, next: Time)
      modifies SpansOf(timers)
      ensures (up, next) == old(ListAnswer(tm))
      ensures forall s :: s in SpansOf(timers) ==> s.lastAt == if up then tm else old(s.lastAt)
    {
      up, next := IsTimeUp(tm);
      if !up {
        return;
      }
      ListUpIffEachUp(timers, tm);
      for i := 0 to |timers|
        invariant forall s :: s in SpansOf(timers) ==> s.lastAt == tm || s.lastAt == old(s.lastAt)
        invariant forall j :: 0 <= j < i && timers[j].Span? ==> timers[j].span.lastAt == tm
      {
        match timers[i]
        case Span(s) =>
          assert old(Answer(timers[i], tm)).0;
          var _, _ := s.ClockIn(tm);
        case Range(_) =>
      }
    }
  }

  /** `NewTimerList(timers...)`: an error for no timer, otherwise a list of the given timers in
      the given order. */
  method NewTimerList(timers: seq<Timer>) returns (r: Result<TimerList, ListError>)
    ensures timers == [] <==> r.Err?
    ensures r.Ok? ==> fresh(r.value) && r.value.timers == timers
  {
    if |timers| == 0 {
      return Err(EmptyTimer);
    }
    var list := new TimerList(timers);
    return Ok(list);
  }
}

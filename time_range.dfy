/** timer/time_range.go: a time window given by a five-field cron spec whose fields are each `*`
    or a range `l-r`. The cron parser and its `Schedule.Next` come from a library and are
    parameters here. */
module TimeRanges {
  import opened Wrappers
  import opened Text
  import opened Clock

  /** `AnyTimeCronSpec`: every minute of every day matches. */
  const AnyTimeCronSpec: string := "* * * * *"

  /** Go's `unicode.IsSpace`, the separator of `strings.Fields`. */
  predicate IsSpace(c: char) {
    || c == ' ' || c == '\t' || c == '\n' || c == '\U{B}' || c == '\U{C}' || c == '\r'
    || c == '\U{85}' || c == '\U{A0}' || c == '\U{1680}' || '\U{2000}' <= c <= '\U{200A}'
    || c == '\U{2028}' || c == '\U{2029}' || c == '\U{202F}' || c == '\U{205F}' || c == '\U{3000}'
  }

  predicate NoSpace(s: string) {
    forall i :: 0 <= i < |s| ==> !IsSpace(s[i])
  }

  /** A field of `strings.Fields`: a non-empty run of non-space characters. */
  predicate IsField(f: string) {
    f != [] && NoSpace(f)
  }

  /** `strings.Fields(s)` scanned from the left, `cur` being the field read so far. */
  function FieldsFrom(s: string, cur: string): (fs: seq<string>)
    requires NoSpace(cur)
    ensures forall i :: 0 <= i < |fs| ==> IsField(fs[i])
  {
    if s == [] then (if cur == [] then [] else [cur])
    else if IsSpace(s[0]) then (if cur == [] then [] else [cur]) + FieldsFrom(s[1..], [])
    else FieldsFrom(s[1..], cur + [s[0]])
  }

  /** `strings.Fields(s)`: the maximal runs of non-space characters of `s`, in order. */
  function Fields(s: string): seq<string> {
    FieldsFrom(s, [])
  }

  /** The fields joined by single spaces, as the `New*TimeRange` builders format them. */
  function JoinFields(fs: seq<string>): string {
    if |fs| == 0 then [] else if |fs| == 1 then fs[0] else fs[0] + " " + JoinFields(fs[1..])
  }

  lemma {:induction false} FieldsFromWord(w: string, rest: string, cur: string)
    requires NoSpace(w) && NoSpace(cur)
    ensures FieldsFrom(w + rest, cur) == FieldsFrom(rest, cur + w)
  {
    if w == [] {
      assert w + rest == rest && cur + w == cur;
    } else {
      assert (w + rest)[0] == w[0] && (w + rest)[1..] == w[1..] + rest;
      assert cur + w == (cur + [w[0]]) + w[1..];
      FieldsFromWord(w[1..], rest, cur + [w[0]]);
    }
  }

  /** `strings.Fields` gives back fields joined by single spaces. */
  lemma {:induction false} FieldsOfJoin(fs: seq<string>)
    requires forall i :: 0 <= i < |fs| ==> IsField(fs[i])
    ensures Fields(JoinFields(fs)) == fs
  {
    if |fs| == 1 {
      FieldsFromWord(fs[0], [], []);
      assert fs[0] + [] == fs[0] && [] + fs[0] == fs[0];
    } else if |fs| > 1 {
      var rest := JoinFields(fs[1..]);
      assert fs[0] + " " + rest == fs[0] + (" " + rest);
      FieldsFromWord(fs[0], " " + rest, []);
      assert [] + fs[0] == fs[0];
      assert (" " + rest)[1..] == rest;
      FieldsOfJoin(fs[1..]);
    }
  }

  /** One field passes the check in `NewTimeRange`: `*`, or anything containing `-`. */
  predicate FieldShapeOk(f: string) {
    f == "*" || '-' in f
  }

  /** The validation in `NewTimeRange`: exactly five fields, each `*` or containing `-`. */
  predicate ValidShape(spec: string) {
    var fs := Fields(spec);
    |fs| == 5 && forall i :: 0 <= i < 5 ==> FieldShapeOk(fs[i])
  }

  /** What `schedule.Next(tm)` is: the first activation after `tm`, or the zero time for none. */
  type Schedule = Time -> Time

  /** `cronParser.Parse`: a schedule, or the parser's error message. */
  type Parser = string -> Result<Schedule, string>

  /** `struct TimeRange`: the spec it was built from, `Spec()`, and its parsed schedule. */
  datatype TimeRange = TimeRange(spec: string, schedule: Schedule)

  datatype RangeError =
    | InvalidSpec(spec: string)   // "invaild spec <spec>"
    | ParseFailed(message: string)  // the cron parser's error

  /** `NewTimeRange(spec)`: the shape check first, then the cron parser. */
  function NewTimeRange(spec: string, parse: Parser): (r: Result<TimeRange, RangeError>)
    ensures r.Ok? <==> ValidShape(spec) && parse(spec).Ok?
    ensures r.Ok? ==> r.value.spec == spec && r.value.schedule == parse(spec).value
    ensures !ValidShape(spec) ==> r == Err(InvalidSpec(spec))
  {
    if !ValidShape(spec) then Err(InvalidSpec(spec))
    else match parse(spec)
      case Err(e) => Err(ParseFailed(e))
      case Ok(schedule) => Ok(TimeRange(spec, schedule))
  }

  /** A plain field such as `5` fails the shape check whatever the other fields are. */
  lemma FieldWithoutDashRejected(fs: seq<string>, i: int, parse: Parser)
    requires |fs| == 5 && forall j :: 0 <= j < 5 ==> IsField(fs[j])
    requires 0 <= i < 5 && fs[i] != "*" && '-' !in fs[i]
    ensures NewTimeRange(JoinFields(fs), parse) == Err(InvalidSpec(JoinFields(fs)))
  {
    FieldsOfJoin(fs);
  }

  /** "5 * * * *" is refused. */
  lemma PlainMinuteRejected(parse: Parser)
    ensures NewTimeRange("5 * * * *", parse) == Err(InvalidSpec("5 * * * *"))
  {
    var fs := ["5", "*", "*", "*", "*"];
    assert JoinFields(fs) == "5 * * * *";
    FieldWithoutDashRejected(fs, 0, parse);
  }

  /** A spec with other than five fields is refused. */
  lemma WrongFieldCountRejected(fs: seq<string>, parse: Parser)
    requires |fs| != 5 && forall j :: 0 <= j < |fs| ==> IsField(fs[j])
    ensures NewTimeRange(JoinFields(fs), parse) == Err(InvalidSpec(JoinFields(fs)))
  {
    FieldsOfJoin(fs);
  }

  // ---------------------------------------------------------------------------
  // The builders

  /** `fmt.Sprintf("%d-%d", left, right)`. */
  function Bounds(left: nat, right: nat): string {
    NatToString(left) + "-" + NatToString(right)
  }

  /** The five fields a builder puts in its spec: `l-r` at `position` (1 to 5) and `*` elsewhere. */
  function RangeFields(position: nat, left: nat, right: nat): (fs: seq<string>)
    ensures |fs| == 5
  {
    var b := Bounds(left, right);
    if position == 1 then [b, "*", "*", "*", "*"]
    else if position == 2 then ["*", b, "*", "*", "*"]
    else if position == 3 then ["*", "*", b, "*", "*"]
    else if position == 4 then ["*", "*", "*", b, "*"]
    else ["*", "*", "*", "*", b]
  }

  /** The spec of each builder, as its `Sprintf` writes it. */
  function BuilderSpec(position: nat, left: nat, right: nat): string {
    var b := Bounds(left, right);
    if position == 1 then b + " * * * *"
    else if position == 2 then "* " + b + " * * *"
    else if position == 3 then "* * " + b + " * *"
    else if position == 4 then "* * * " + b + " *"
    else "* * * * " + b
  }

  /** `l-r` is one field, and it contains `-`. */
  lemma BoundsIsField(left: nat, right: nat)
    ensures IsField(Bounds(left, right)) && '-' in Bounds(left, right)
  {
    var l, r := NatToString(left), NatToString(right);
    var b := Bounds(left, right);
    assert b[|l|] == '-';
    forall i | 0 <= i < |b|
      ensures !IsSpace(b[i])
    {
      if i < |l| {
        assert b[i] == l[i];
      } else if i > |l| {
        assert b[i] == r[i - |l| - 1];
      }
    }
  }

  lemma JoinFiveFields(fs: seq<string>)
    requires |fs| == 5
    ensures JoinFields(fs) == fs[0] + " " + fs[1] + " " + fs[2] + " " + fs[3] + " " + fs[4]
  {
    assert JoinFields(fs[4..]) == fs[4];
    assert JoinFields(fs[3..]) == fs[3] + " " + fs[4];
    assert JoinFields(fs[2..]) == fs[2] + " " + fs[3] + " " + fs[4];
    assert JoinFields(fs[1..]) == fs[1] + " " + fs[2] + " " + fs[3] + " " + fs[4];
  }

  /** Each builder's spec is its five fields joined by spaces. */
  lemma BuilderSpecIsJoin(position: nat, left: nat, right: nat)
    requires 1 <= position <= 5
    ensures BuilderSpec(position, left, right) == JoinFields(RangeFields(position, left, right))
  {
    JoinFiveFields(RangeFields(position, left, right));
    StarsAroundBounds(Bounds(left, right));
  }

  /** The five `Sprintf` layouts, regrouped field by field. */
  lemma StarsAroundBounds(b: string)
    ensures b + " * * * *" == b + " " + "*" + " " + "*" + " " + "*" + " " + "*"
    ensures "* " + b + " * * *" == "*" + " " + b + " " + "*" + " " + "*" + " " + "*"
    ensures "* * " + b + " * *" == "*" + " " + "*" + " " + b + " " + "*" + " " + "*"
    ensures "* * * " + b + " *" == "*" + " " + "*" + " " + "*" + " " + b + " " + "*"
    ensures "* * * * " + b == "*" + " " + "*" + " " + "*" + " " + "*" + " " + b
  {
  }

  /** `strings.Fields` splits each builder's spec into its five fields, and the spec passes the
      shape check. */
  lemma BuilderSpecShape(position: nat, left: nat, right: nat)
    requires 1 <= position <= 5
    ensures Fields(BuilderSpec(position, left, right)) == RangeFields(position, left, right)
    ensures ValidShape(BuilderSpec(position, left, right))
  {
    var fs := RangeFields(position, left, right);
    BoundsIsField(left, right);
    assert forall i :: 0 <= i < 5 ==> fs[i] == "*" || fs[i] == Bounds(left, right);
    BuilderSpecIsJoin(position, left, right);
    FieldsOfJoin(fs);
  }

  /** `NewMinTimeRange(l, r)`: `l-r` in the minute field. */
  function NewMinTimeRange(left: nat, right: nat, parse: Parser): (r: Result<TimeRange, RangeError>)
    ensures r.Ok? <==> parse(BuilderSpec(1, left, right)).Ok?
    ensures r.Ok? ==> Fields(r.value.spec) == [Bounds(left, right), "*", "*", "*", "*"]
  {
    BuilderSpecShape(1, left, right);
    NewTimeRange(BuilderSpec(1, left, right), parse)
  }

  /** `NewHourTimeRange(l, r)`: `l-r` in the hour field. */
  function NewHourTimeRange(left: nat, right: nat, parse: Parser): (r: Result<TimeRange, RangeError>)
    ensures r.Ok? <==> parse(BuilderSpec(2, left, right)).Ok?
    ensures r.Ok? ==> Fields(r.value.spec) == ["*", Bounds(left, right), "*", "*", "*"]
  {
    BuilderSpecShape(2, left, right);
    NewTimeRange(BuilderSpec(2, left, right), parse)
  }

  /** `NewDomTimeRange(l, r)`: `l-r` in the day-of-month field (the third). */
  function NewDomTimeRange(left: nat, right: nat, parse: Parser): (r: Result<TimeRange, RangeError>)
    ensures r.Ok? <==> parse(BuilderSpec(3, left, right)).Ok?
    ensures r.Ok? ==> Fields(r.value.spec) == ["*", "*", Bounds(left, right), "*", "*"]
  {
    BuilderSpecShape(3, left, right);
    NewTimeRange(BuilderSpec(3, left, right), parse)
  }

  /** `NewMonthTimeRange(l, r)`: `l-r` in the month field. */
  function NewMonthTimeRange(left: nat, right: nat, parse: Parser): (r: Result<TimeRange, RangeError>)
    ensures r.Ok? <==> parse(BuilderSpec(4, left, right)).Ok?
    ensures r.Ok? ==> Fields(r.value.spec) == ["*", "*", "*", Bounds(left, right), "*"]
  {
    BuilderSpecShape(4, left, right);
    NewTimeRange(BuilderSpec(4, left, right), parse)
  }

  /** `NewDowTimeRange(l, r)`: `l-r` in the day-of-week field. */
  function NewDowTimeRange(left: nat, right: nat, parse: Parser): (r: Result<TimeRange, RangeError>)
    ensures r.Ok? <==> parse(BuilderSpec(5, left, right)).Ok?
    ensures r.Ok? ==> Fields(r.value.spec) == ["*", "*", "*", "*", Bounds(left, right)]
  {
    BuilderSpecShape(5, left, right);
    NewTimeRange(BuilderSpec(5, left, right), parse)
  }

  // ---------------------------------------------------------------------------
  // IsTimeUp

  /** `IsTimeUp(tm)` (and so `ClockIn(tm)`): up when the next activation is within a minute,
      since the schedule's resolution is one minute; a schedule with no next activation is never up. */
  function IsTimeUp(r: TimeRange, tm: Time): (res: (bool, Time))
    ensures res.0 <==> r.schedule(tm) != ZeroTime && r.schedule(tm) - tm <= Minute
    ensures res.1 == if res.0 then tm else r.schedule(tm)
  {
    var next := r.schedule(tm);
    if next == ZeroTime then (false, next)
    else if next - tm <= Minute then (true, tm)
    else (false, next)
  }
}

# kit: a verified model of its sequential core

This project models in Dafny the small, sequential pieces of logic of the Go toolkit `kit`,
and proves the properties those pieces promise:

- **units** (`units.dfy`). This covers:
  - the size constants, counted in bits;
  - the suffix table;
  - `ParseSize`: the exact-key shortcut, the regular-expression shape check, the longest-suffix
    match over the length-sorted `pairs`, the stripping of letters, spaces and `/`, and the
    truncated number times the unit;
  - `MaxSize` and `MinSize`.
- **timer**:
  - `TimeSpan` (`time_span.dfy`) is a class whose `lastAt` moves on a successful clock-in.
  - `TimerList` (`timer_list.dfy`) is a class over members that are spans or ranges. It is up
    when all its members are up, and it clocks every member in only then.
  - `TimeRange` (`time_range.dfy`) covers the five-field cron spec check, the `New*TimeRange`
    builders and the one-minute rule on top of the cron schedule's `Next`.
- **eventbus**:
  - `bucket` (`bucket.dfy`) maps a handler name to its handler. It has add-with-conflict,
    remove and deep copy.
  - `bus` (`bus.dfy`) maps a topic to its bucket. It has `Subscribe`, `UnSubscribe` and the
    snapshot that `Publish` delivers to.
- **runner**:
  - `Runner` (`runner.dfy`) is a class with `Start`, `Stop`, `KeepAlive`, `IsTimeout` and the
    first turn of its `run` loop. The `RunningRunners` registry is a class holding a map.
  - One sweep of `CheckaliveForever` over that registry is in `keepalive.dfy`.

Time is an integer count of nanoseconds. The zero time is Go's `time.Time{}`.
`wrappers.dfy` holds `Option` and `Result`. `text.dfy` holds the decimal formatting of `%d`
and `strings.HasSuffix`. `clock.dfy` holds the time units.

Some behaviour comes from code outside the model, so the model takes it as a parameter:
- the cron parser and the schedule's `Next`;
- the result of a handler's `OnStart`;
- the current time wherever the source calls `time.Now()`.

The comment on `RunningRunners` (runner/runner.go:20) says it records every running runner by
name. `Start` overwrites the entry of a name already stored (runner/runner.go:97), and `Stop`
deletes it whoever holds it (runner/runner.go:120), so a running runner can go unrecorded. The
model follows the code, and the version that keeps the record exact appears as the corrected
member of a finding below. The doc comment of `NewDomTimeRange`
(timer/time_range.go:44) shows the range in the fourth field. Its code puts it in the third
field, and the model follows the code.

## Model

| member | source | states |
|---|---|---|
| `Units.SuffixTable` | units/units.go:11-40 | the table holds exactly the 27 entries, with every unit at its constant's value: binary letters `k`/`K`…`T` and `KiB`…`TiB` are powers of 1024 bytes, `KB`…`TB` powers of 1000 bytes, `Kb`…`Gb` and their `/s`, `ps` spellings powers of 1000 bits |
| `Units.PairsAreValid` | units/units.go:213-227 | `pairs` holds exactly the table's entries, each with its table value, sorted by descending suffix length |
| `Units.PairsHoldTableValues` | units/units.go:214-219 | every pair carries the table's value for its suffix |
| `Units.PairsAreSortedByLength` | units/units.go:221-225 | longer suffixes come before shorter ones |
| `Units.PairsCoverFourLetterKeys` | units/units.go:214-219 | every four-letter key of the table has a pair |
| `Units.PairsCoverThreeLetterKeys` | units/units.go:214-219 | every three-letter key of the table has a pair |
| `Units.PairsCoverTwoLetterKeys` | units/units.go:214-219 | every two-letter key of the table has a pair |
| `Units.PairsCoverOneLetterKeys` | units/units.go:214-219 | every one-letter key of the table has a pair |
| `Units.Span` | units/units.go:45 | the length of the longest prefix made of one character class: the prefix is in the class and the next character is not |
| `Units.SpanIs` | units/units.go:45 | any maximal in-class prefix has exactly that length |
| `Units.ShapeMatches` | units/units.go:45 | every string the hand-coded shape check accepts splits into spaces, number characters, suffix characters and spaces, i.e. matches `re` |
| `Units.MatchIsShape` | units/units.go:45 | every split the regular expression admits is the greedy one, so the shape check accepts it |
| `Units.ShapeIsRegex` | units/units.go:45-64 | the shape check accepts exactly the strings `re` matches |
| `Units.Strip` | units/units.go:46-69 | `replaceRegex.ReplaceAllString(s, "")` deletes spaces, letters and `/` and never lengthens the input |
| `Units.StripAppend` | units/units.go:46 | stripping distributes over concatenation |
| `Units.ParseDecimalOfNumber` | units/units.go:71-75 | `ParseFloat` then `Size(...)` on `n` or on `n.<digits>` gives back `n` |
| `Units.KeySuffixUpTo` | units/units.go:67-68 | the longest key of bounded length that ends the input, or none when no such key does |
| `Units.LongestKeySuffix` | units/units.go:67-68 | the longest table key that ends the input; none exactly when no key ends it |
| `Units.LongestKeyIsUnique` | units/units.go:221-225 | keys of equal length cannot both end one string, so the longest key is unique |
| `Units.FirstMatchIsLongest` | units/units.go:67-77 | in any order `init` may produce, the first pair whose suffix ends the input holds the longest key that does |
| `Units.ParseSize` | units/units.go:56-81 | the loop over `pairs` computes the declarative parse: exact key, then shape check ("bad format 1"), then the longest key's unit times the integer part of the stripped number ("bad format 2" when that is no number, 0 when no key ends the input) |
| `Units.KeyAfterNumberIsLongest` | units/units.go:67-77 | the key written right after a number part is the longest key ending the input |
| `Units.NumberThenKeyShape` | units/units.go:62-69 | a number followed by a key of shape-class characters passes the shape check and strips to the number |
| `Units.NumberThenKey` | units/units.go:56-81 | such an input parses to its number's integer part times the key's unit, or "bad format 2" on the number |
| `Units.ParseIntegerTimesUnit` | units/units_test.go:28-40 | `"<n><key>"` parses to `n` times the key's unit for every key whose characters pass the shape check |
| `Units.ParseTruncatesFraction` | units/units.go:56-75 | `"<n>.<digits><key>"` parses to `n` units: the fraction is dropped before scaling |
| `Units.ParseRejectsMalformed` | units/units.go:62-64 | a non-key input that `re` does not match is "bad format 1" carrying the input |
| `Units.ParseTrailingSpaceIsZero` | units/units.go:66-80 | trailing white space passes the shape check, no key then ends the input, and the result is 0 with no error |
| `Units.NoKeyEndsInSpace` | units/units.go:30-40 | no key ends in white space |
| `Units.ParseBinaryExample` | units/units.go:56-81 | `"10KiB"` is 10 KiB |
| `Units.ParseLowerCaseExample` | units/units.go:33 | `"7k"` is 7 KiB: lower-case letters are binary units |
| `Units.ParseFractionExample` | units/units.go:56-75 | `"1.5KiB"` is 1 KiB |
| `Units.ParseKeyExample` | units/units.go:58-60 | the bare key `"Kbps"` is looked up before the shape check and gives `Kb` |
| `Units.ParseTrailingSpaceExample` | units/units.go:66-80 | `"10KB "` is 0 with no error |
| `Units.ParseTwoDotsExample` | units/units.go:69-74 | `"1.2.3KB"` is "bad format 2: 1.2.3" |
| `Units.ParseNoDigitExample` | units/units.go:69-74 | `".KB"` is "bad format 2: ." |
| `Units.RateSuffixRejected` | units/units.go:45-64 | as written, every `"<n>Kbps"` is "bad format 1" |
| `Units.RateSuffixFailsShape` | units/units.go:45 | the suffix part of `"<number>Kbps"` stops at `p`, so the shape check fails |
| `Units.IntendedParsesEveryKey` | units/units_test.go:28-40 | with `p` in the suffix class, `"<n><key>"` parses to `n` units for all 27 keys |
| `Units.MaxSize` | units/units.go:90-102 | 0 for no argument; otherwise an argument no smaller than any argument |
| `Units.MinSize` | units/units.go:104-116 | 0 for no argument; otherwise an argument no larger than any argument |
| `TimeSpans.SpanUp` | timer/time_span.go:41-48 | up exactly when `lastAt + interval <= tm`, answering `tm`; otherwise `next = lastAt + interval`, which is after `tm` |
| `TimeSpans.TimeSpan.constructor` | timer/time_span.go:13-18 | the given interval, and `lastAt` at the zero time whatever `lastAt` is passed |
| `TimeSpans.TimeSpan.IsTimeUp` | timer/time_span.go:41-48 | reads the span only; up exactly when the interval has passed since `lastAt`, answering `tm` when up and `lastAt + interval` when not |
| `TimeSpans.TimeSpan.ClockIn` | timer/time_span.go:26-33 | answers what `IsTimeUp(tm)` answered before; `lastAt` becomes `tm` exactly when up; after a successful clock-in no time before `tm + interval` is up |
| `TimeSpans.TimeSpan.ResetAs` | timer/time_span.go:56-58 | `lastAt` becomes `tm`; the interval is a constant |
| `TimeSpans.Accepted` | timer/time_span.go:26-33 | the successful clock-ins of a series of `ClockIn` calls, no more than the calls |
| `TimeSpans.AcceptedAreSpaced` | timer/time_span.go:26-48 | over any series of clock-ins, successful ones are at least `interval` apart and the first is at least `interval` after `lastAt` |
| `TimerLists.Answers` | timer/timer.go:60-66 | one answer per member, in list order |
| `TimerLists.AnswersAt` | timer/timer.go:64-65 | the `i`-th answer is the `i`-th member's `IsTimeUp` |
| `TimerLists.MaxNextIsMax` | timer/timer.go:61-72 | the kept `next` is no earlier than the `next` of any member not up, and is the zero time or one of those `next`s |
| `TimerLists.OneMoreAnswer` | timer/timer.go:64-71 | one more member updates "all up" and the maximum `next` as one loop turn does |
| `TimerLists.ListUpIffEachUp` | timer/timer.go:60-78 | the list is up exactly when every member is; when not, its `next` is no earlier than any member's that is not up |
| `TimerLists.TimerList.constructor` | timer/timer.go:25-27 | the list keeps the given timers |
| `TimerLists.TimerList.IsTimeUp` | timer/timer.go:60-78 | the loop answers `(true, tm)` when all members are up and `(false, maximum next)` otherwise |
| `TimerLists.TimerList.ClockIn` | timer/timer.go:43-54 | answers as `IsTimeUp(tm)` did before; when up, every span member's `lastAt` becomes `tm`; when not, no member changes |
| `TimerLists.NewTimerList` | timer/timer.go:29-37 | an error exactly for no timer; otherwise a new list of the given timers in the given order |
| `TimeRanges.FieldsFrom` | timer/time_range.go:76 | `strings.Fields` yields only non-empty fields without white space |
| `TimeRanges.FieldsOfJoin` | timer/time_range.go:76 | `strings.Fields` gives back fields joined by single spaces |
| `TimeRanges.NewTimeRange` | timer/time_range.go:73-103 | succeeds exactly when the spec has five fields, each `*` or containing `-`, and the cron parser accepts it; keeps the spec (`Spec()`) and the parsed schedule; a bad shape is "invaild spec" carrying the spec |
| `TimeRanges.FieldWithoutDashRejected` | timer/time_range.go:81-89 | any field that is neither `*` nor contains `-` makes the spec invalid |
| `TimeRanges.PlainMinuteRejected` | timer/time_range.go:81-89 | `"5 * * * *"` is refused |
| `TimeRanges.WrongFieldCountRejected` | timer/time_range.go:76-79 | a spec with other than five fields is refused |
| `TimeRanges.RangeFields` | timer/time_range.go:32-60 | each builder's spec has five fields |
| `TimeRanges.BoundsIsField` | timer/time_range.go:34 | `"%d-%d"` is one field and contains `-` |
| `TimeRanges.BuilderSpecIsJoin` | timer/time_range.go:32-60 | each builder's `Sprintf` spec is its five fields joined by single spaces |
| `TimeRanges.BuilderSpecShape` | timer/time_range.go:32-60 | each builder's spec splits into `l-r` at its position and `*` elsewhere, and passes the shape check |
| `TimeRanges.NewMinTimeRange` | timer/time_range.go:32-36 | fails only when the cron parser does; the spec has `l-r` in the minute field |
| `TimeRanges.NewHourTimeRange` | timer/time_range.go:38-42 | fails only when the cron parser does; `l-r` in the hour field |
| `TimeRanges.NewDomTimeRange` | timer/time_range.go:44-48 | fails only when the cron parser does; `l-r` in the third field, day of month |
| `TimeRanges.NewMonthTimeRange` | timer/time_range.go:50-54 | fails only when the cron parser does; `l-r` in the month field |
| `TimeRanges.NewDowTimeRange` | timer/time_range.go:56-60 | fails only when the cron parser does; `l-r` in the day-of-week field |
| `TimeRanges.IsTimeUp` | timer/time_range.go:109-121 | up exactly when the next activation exists and is within one minute, answering `tm`; otherwise the next activation (the zero time for none) |
| `Buckets.Bucket.constructor` | eventbus/bucket.go:7-9 | an empty bucket |
| `Buckets.Bucket.Add` | eventbus/bucket.go:11-19 | "conflict name" exactly when the name is present, leaving the bucket unchanged; otherwise stores the handler under its name and changes no other name; keeps one handler per name |
| `Buckets.Bucket.Remove` | eventbus/bucket.go:21-23 | deletes the handler's name, if present, and nothing else |
| `Buckets.Bucket.DeepCopy` | eventbus/bucket.go:25-31 | a new bucket with the same names and handlers |
| `Buckets.CopyOutlivesChanges` | eventbus/bucket.go:25-31 | a copy keeps its handlers through later `add` and `remove` on the original |
| `EventBus.TopicsAfterChange` | eventbus/bus.go:51-69 | changing one topic's bucket changes that topic's handlers only |
| `EventBus.Bus.constructor` | eventbus/bus.go:38-43 | a new bus has no topic |
| `EventBus.Bus.TopicBucket` | eventbus/bus.go:56-62 | the topic's bucket, created empty when the topic is new |
| `EventBus.Bus.Subscribe` | eventbus/bus.go:51-69 | the bucket's error exactly when the name is already on the topic, with no change anywhere; otherwise the topic, created if new, gains the handler and every other topic is unchanged |
| `EventBus.Bus.UnSubscribe` | eventbus/bus.go:71-85 | "topic not exist" exactly for an unknown topic, with no change; otherwise removes the name from that topic only, keeping the topic even when empty |
| `EventBus.Bus.Publish` | eventbus/bus.go:87-96 | subscriptions unchanged; for a known topic, the event and a fresh copy of the topic's handlers taken now; nothing for an unknown topic |
| `Runners.StartStep` | runner/runner.go:79-100 | running: "runner is running" and no change; otherwise `OnStart` is called, and the runner runs exactly when it succeeds, returning its error when it fails |
| `Runners.StopStep` | runner/runner.go:103-121 | not running: no change; otherwise `OnExit`, the channel closed, no longer running |
| `Runners.RunTurn` | runner/runner.go:164-171 | the first turn returns exactly when `stopCh` is closed; otherwise it calls `Handle` and keeps the runner alive at `now` |
| `Runners.KeepAliveDefersTimeout` | runner/runner.go:124-141 | after a keep-alive at `now`, the runner times out exactly after `now + Timeout` |
| `Runners.Registry.constructor` | runner/runner.go:20-21 | the registry starts empty |
| `Runners.Runner.constructor` | runner/runner.go:60-76 | not running, channel open, `Timeout` one hour, the given `Interval`, last keep-alive at the construction time, no callback made |
| `Runners.Runner.Start` | runner/runner.go:79-100 | the runner moves as `StartStep`; on success the registry stores it under its name, replacing any runner there; otherwise the registry is unchanged |
| `Runners.Runner.Stop` | runner/runner.go:103-121 | the runner moves as `StopStep`; a running runner deletes its name from the registry, whichever runner is stored there |
| `Runners.Runner.KeepAlive` | runner/runner.go:124-126 | the last keep-alive becomes `now`, nothing else changes |
| `Runners.Runner.IsTimeout` | runner/runner.go:134-141 | strictly more than `Timeout` has passed since the last keep-alive |
| `Runners.Runner.RunFirstTurn` | runner/runner.go:164-171 | the runner moves as `RunTurn` |
| `Runners.RestartedRunnerIsBroken` | runner/runner.go:70-167 | start, stop, start: the runner runs, its first turn returns without `Handle`, and `Stop` would close the closed channel |
| `Runners.StartRenewing` | runner/runner.go:79-100 | the intended `Start`: as written, but a successful start opens a new channel |
| `Runners.StepRenewing` | runner/runner.go:79-126 | with the intended `Start`, every step keeps the channel open while the runner runs |
| `Runners.RenewingNeverPanics` | runner/runner.go:79-171 | with the intended `Start`, no sequence of steps from `NewRunner` leads to a panicking `Stop`, and a running runner's first turn calls `Handle` |
| `Runners.SysStart` | runner/runner.go:93-97 | `Start` of one runner among several, as written |
| `Runners.SysStop` | runner/runner.go:111-120 | `Stop` of one runner among several, as written |
| `Runners.DuplicateNameLosesRunner` | runner/runner.go:97-120 | two runners named alike: after start, start, stop of the first, the second still runs but its name is gone from the registry |
| `Runners.SysStartChecked` | runner/runner.go:79-100 | the intended `Start`: a name held by another runner is refused before `OnStart` |
| `Runners.SysStopChecked` | runner/runner.go:103-121 | the intended `Stop`: only the runner's own entry is deleted |
| `Runners.StartCheckedKeepsRegistered` | runner/runner.go:93-97 | the intended `Start` keeps the registry holding exactly the running runners under their names |
| `Runners.StopCheckedKeepsRegistered` | runner/runner.go:117-120 | the intended `Stop` keeps the registry exact as well |
| `Keepalive.Reactions` | runner/keepalive.go:10-22 | at most one reaction per visit |
| `Keepalive.OneMoreVisit` | runner/keepalive.go:15-18 | one more visit adds a reaction exactly when that runner has timed out at the time read for it |
| `Keepalive.ReactionsAreTimeouts` | runner/keepalive.go:10-22 | a reaction is made for a visit exactly when its runner has timed out; it carries the name, the runner stored under it and the time of the check |
| `Keepalive.Sweep` | runner/keepalive.go:10-22 | visits every registry entry once, reading the time per entry, makes exactly the reactions of the timed-out runners, and changes nothing |
| `Text.NatToString` | timer/time_range.go:34 | `%d` gives a non-empty digit string without a leading zero |
| `Text.DecimalValueOfNatToString` | units/units.go:71 | reading back a formatted number gives the number |

## Left out

- Goroutines, the mutexes, the `WaitGroup` and `atomic.Value` are not modelled. `Start`, `Stop`, `KeepAlive` and `IsTimeout` are atomic steps.
- Only the first `select` of `run` is modelled. The `time.After(Interval)` loop blocks on a timer and a channel, and it repeats that first turn.
- The panic recovery, `runtime.Stack` and the `Logger` write in `run` are left out, because they are runtime and I/O behaviour.
- The ticker loop of `CheckaliveForever` is left out. One sweep is modelled, and the ticker only repeats it.
- `RunningRunners.Range` visits entries in an order it chooses. `Sweep` picks an arbitrary order, and its contract holds for every order.
- The effects of `handleTimeout` are not modelled. `Sweep` returns the calls it makes.
- The `go publish(...)` goroutine and the handlers' callbacks are not modelled. `Publish` returns the event and the snapshot it would be delivered to.
- The cron parser (`robfig/cron`) and `Schedule.Next` are foreign code. They are parameters: a parser function and, per range, a schedule function.
- `Clock`, `IsTimeUpNow`, `ResetNow` and `time.Now()` are not modelled. Every operation takes the time as a parameter.
- The getters `LastAt`, `Interval`, `Spec`, `Name` and `LastHandleTime` are not modelled as separate members. The model reads the fields directly.
- `TimeRange.ClockIn` and `TimeRange.Clock` are `IsTimeUp` itself. A range never changes, so `TimeRanges.IsTimeUp` stands for both.
- The floating-point code is left out: `AsSize`, the `TiB()`…`Bit()` getters and the `HumanSize` formatting.
- Units.ParseSize: the mantissa is read as an exact decimal. The model does not capture `float64` rounding, which moves the integer part whenever the mantissa has more significant digits than a `float64` holds: `"0.99999999999999999KB"` rounds to 1.0 in Go and gives 1 KB, where the model gives 0. `ParseTruncatesFraction` and `ParseDecimalOfNumber` describe the exact decimal reading only.
- Units.ParseSize: the model does not capture the range error of `strconv.ParseFloat` for numbers beyond `float64`. Such a number would be "bad format 2" in Go.
- Units.ParseSize: the model does not capture `int64` overflow of `Size(value) * pair.val`, because sizes are unbounded integers.
- The `fmt.Println` debug output in `TimeSpan.IsTimeUp` is left out, because it is output only.
- `config/`, `runner/handler.go` and `runner/demo` are not part of this model.
- Go's map iteration order in `init` may arrange suffixes of equal length in any order. `Pairs` fixes one order, and `FirstMatchIsLongest` holds for every valid order.
- Runners.Runner.Stop: requires that the stop not be the one that closes `stopCh` a second time. In Go that call panics, and `RestartedRunnerIsBroken` shows how it is reached.
- TimerLists.TimerList.ClockIn: members are `TimeSpan`s and `TimeRange`s only. Go's `Timer` is an open interface that `*TimerList` itself implements, so a list may nest lists or hold timers of the caller's own type; for those, the source promises only that each member's `ClockIn(tm)` is called in list order, and the model does not cover them. The same narrowing holds for `TimerLists.TimerList.IsTimeUp` and `TimerLists.NewTimerList`.
- Time is an unbounded integer, so `time.Time` addition and subtraction do not saturate.

## Findings

| source | as written | input that shows it | evidently intended | confidence | as-written member | corrected member |
|---|---|---|---|---|---|---|
| units/units.go:45 | the suffix class `[bBkKmMgGtTi/s]` has no `p` | `"10Kbps"` is "bad format 1" though `Kbps` is a key and units_test.go:31-38 expects `10 * Kb` | `p` in the class, so every `"<n><key>"` parses to `n` units | not executed | `Units.RateSuffixRejected` | `Units.IntendedParsesEveryKey` |
| runner/runner.go:70-113 | `stopCh` is made once in `NewRunner` and closed by every `Stop` | `Start`, `Stop`, `Start`: `run` returns at once without `Handle`, and a second `Stop` closes a closed channel and panics | a successful `Start` makes a new `stopCh` | not executed | `Runners.RestartedRunnerIsBroken` | `Runners.RenewingNeverPanics` |
| runner/runner.go:97-120 | `Start` overwrites the registry entry of its name, and `Stop` deletes that entry whoever holds it | two runners named `"worker"`: start both, stop the first; the second runs but is not in the registry, so no sweep watches it | a name held by another runner is refused, and `Stop` deletes only its own entry | not executed | `Runners.DuplicateNameLosesRunner` | `Runners.StartCheckedKeepsRegistered` |

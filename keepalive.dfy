/** runner/keepalive.go: one sweep of `CheckaliveForever` over the registry of started runners. */
module Keepalive {
  import opened Clock
  import opened Runners

  /** A call `handleTimeout(name, runner, curTime)`. */
  datatype Reaction = Reaction(name: string, runner: Runner, curTime: Time)

  /** The runners of the registry map `entries`. */
  function RunnersOf(entries: map<string, Runner>): set<Runner> {
    set name | name in entries :: entries[name]
  }

  /** The reactions of a sweep that visits the names `visited` in that order, the `k`-th visit
      reading the time `clock(k)`: one per visited runner that has timed out at its time. */
  function Reactions(entries: map<string, Runner>, visited: seq<string>, clock: nat -> Time): (rs: seq<Reaction>)
    requires forall k :: 0 <= k < |visited| ==> visited[k] in entries
    reads RunnersOf(entries)
    ensures |rs| <= |visited|
  {
    if visited == [] then []
    else
      var k := |visited| - 1;
      var name := visited[k];
      var runner := entries[name];
      Reactions(entries, visited[..k], clock)
        + (if runner.IsTimeout(clock(k)) then [Reaction(name, runner, clock(k))] else [])
  }

  /** The reactions after one more visit, as one more turn of the sweep sees them. */
  lemma OneMoreVisit(entries: map<string, Runner>, visited: seq<string>, name: string, clock: nat -> Time)
    requires forall k :: 0 <= k < |visited| ==> visited[k] in entries
    requires name in entries
    ensures Reactions(entries, visited + [name], clock) == Reactions(entries, visited, clock)
      + (if entries[name].IsTimeout(clock(|visited|)) then [Reaction(name, entries[name], clock(|visited|))] else [])
  {
    assert (visited + [name])[..|visited|] == visited;
  }

  /** A reaction names a visited runner, hands over the runner stored under that name and the
      time of that visit, and is made exactly for the visits whose runner has timed out at it. */
  lemma {:induction false} ReactionsAreTimeouts(entries: map<string, Runner>, visited: seq<string>, clock: nat -> Time)
    requires forall k :: 0 <= k < |visited| ==> visited[k] in entries
    requires forall j, k :: 0 <= j < k < |visited| ==> visited[j] != visited[k]
    ensures forall r :: r in Reactions(entries, visited, clock) ==>
      exists k :: 0 <= k < |visited| && r == Reaction(visited[k], entries[visited[k]], clock(k))
        && entries[visited[k]].IsTimeout(clock(k))
    ensures forall k :: 0 <= k < |visited| && entries[visited[k]].IsTimeout(clock(k)) ==>
      Reaction(visited[k], entries[visited[k]], clock(k)) in Reactions(entries, visited, clock)
    decreases |visited|
  {
    if visited != [] {
      var k := |visited| - 1;
      var init := visited[..k];
      ReactionsAreTimeouts(entries, init, clock);
      forall j | 0 <= j < k
        ensures init[j] == visited[j]
      {
      }
    }
  }

  /** One sweep: `RunningRunners.Range` visits every entry once, in an order it chooses; for each,
      it reads the time (`clock(k)` at the `k`-th visit), asks the runner `IsTimeout` and calls
      `handleTimeout` when it has timed out. The visitor always returns true, so every entry is
      visited; the sweep itself changes nothing. */
  method Sweep(registry: Registry, clock: nat -> Time) returns (visited: seq<string>, reactions: seq<Reaction>)
    ensures |visited| == |registry.entries|
    ensures forall name :: name in registry.entries <==> name in visited
    ensures forall j, k :: 0 <= j < k < |visited| ==> visited[j] != visited[k]
    ensures reactions == Reactions(registry.entries, visited, clock)
  {
    var entries := registry.entries;
    var remaining := entries.Keys;
    visited, reactions := [], [];
    while remaining != {}
      invariant remaining <= entries.Keys
      invariant forall name :: name in entries ==> (name in visited <==> name !in remaining)
      invariant forall k :: 0 <= k < |visited| ==> visited[k] in entries
      invariant forall j, k :: 0 <= j < k < |visited| ==> visited[j] != visited[k]
      invariant |visited| + |remaining| == |entries|
      invariant reactions == Reactions(entries, visited, clock)
      decreases remaining
    {
      var name :| name in remaining;
      var runner := entries[name];
      var curTime := clock(|visited|);
      OneMoreVisit(entries, visited, name, clock);
      if runner.IsTimeout(curTime) {
        reactions := reactions + [Reaction(name, runner, curTime)];
      }
      assert |remaining - {name}| == |remaining| - 1;
      visited := visited + [name];
      remaining := remaining - {name};
    }
  }
}

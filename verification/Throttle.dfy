/**
 The throttler: `add` remembers a function and starts a timer if none is running; the timer's goroutine
 runs the function that is then remembered. Both hold the mutex, so they take turns.
 */
module Throttle {
  import opened Wrappers

  /** Functions are named by numbers. A firing starts at `at` and its function returns at `done`. */
  datatype Event = Add(f: nat, at: int) | Fire(at: int, done: int)

  /** `waiting` are the deadlines of the goroutines that wait for a timer; `ran` the functions run so far
      with their starting times. */
  datatype State = State(f: Option<nat>, timer: Option<int>, waiting: seq<int>, now: int, ran: seq<(nat, int)>)

  const START := State(None, None, [], 0, [])

  ghost predicate Enabled(s: State, e: Event) {
    match e
    case Add(_, at) => s.now <= at
    case Fire(at, done) => s.waiting != [] && s.now <= at <= done && s.waiting[0] <= at
  }

  ghost function Next(after: nat, s: State, e: Event): State
    requires Enabled(s, e)
  {
    match e
    case Add(f, at) =>
      if s.timer.None?
      then s.(f := Some(f), timer := Some(at + after), waiting := s.waiting + [at + after], now := at)
      else s.(f := Some(f), now := at)
    case Fire(at, done) =>
      s.(timer := None, waiting := s.waiting[1..], now := done,
         ran := if s.f.Some? then s.ran + [(s.f.value, at)] else s.ran)
  }

  ghost predicate Runs(after: nat, events: seq<Event>)
    decreases |events|, 0
  {
    events == [] ||
    (var n := |events| - 1;
     Runs(after, events[..n]) && Enabled(After(after, events[..n]), events[n]))
  }

  ghost function After(after: nat, events: seq<Event>): State
    requires Runs(after, events)
    decreases |events|, 1
  {
    if events == [] then START
    else var n := |events| - 1; Next(after, After(after, events[..n]), events[n])
  }

  // What every execution keeps

  function LatestAdd(events: seq<Event>): Option<nat> {
    if events == [] then None
    else if events[|events| - 1].Add? then Some(events[|events| - 1].f)
    else LatestAdd(events[..|events| - 1])
  }

  ghost predicate Inv(after: nat, s: State, events: seq<Event>) {
    && s.waiting == (if s.timer.Some? then [s.timer.value] else [])
    && s.f == LatestAdd(events)
    && (s.timer.Some? ==> s.f.Some?)
    && (forall i :: 0 <= i < |s.ran| - 1 ==> s.ran[i].1 + after <= s.ran[i + 1].1)
    && (s.ran != [] ==> s.ran[|s.ran| - 1].1 <= s.now)
    && (s.ran != [] && s.timer.Some? ==> s.ran[|s.ran| - 1].1 + after <= s.timer.value)
  }

  /** Over every interleaving at most one timer is outstanding, the remembered function is the latest
      added one, and firings are at least `after` apart. */
  lemma {:induction false} ExecutionKeepsInv(after: nat, events: seq<Event>)
    requires Runs(after, events)
    ensures Inv(after, After(after, events), events)
    ensures |After(after, events).waiting| <= 1
  {
    if events != [] {
      var n := |events| - 1;
      ExecutionKeepsInv(after, events[..n]);
      var s, s' := After(after, events[..n]), After(after, events);
      if events[n].Fire? {
        forall i | 0 <= i < |s'.ran| - 1 ensures s'.ran[i].1 + after <= s'.ran[i + 1].1 {
          if i + 1 == |s.ran| {
            assert s'.ran[i] == s.ran[|s.ran| - 1];
          }
        }
      }
    }
  }

  lemma {:induction false} RunsPrefix(after: nat, events: seq<Event>, k: nat)
    requires Runs(after, events) && k <= |events|
    ensures Runs(after, events[..k])
  {
    if k < |events| {
      RunsPrefix(after, events[..|events| - 1], k);
      assert events[..|events| - 1][..k] == events[..k];
    } else {
      assert events[..k] == events;
    }
  }

  /** A firing runs the function that was added last before it. */
  lemma FiringRunsLatest(after: nat, events: seq<Event>, j: nat)
    requires Runs(after, events) && j < |events| && events[j].Fire?
    ensures Runs(after, events[..j]) && Runs(after, events[..j + 1])
    ensures LatestAdd(events[..j]).Some?
    ensures After(after, events[..j + 1]).ran ==
            After(after, events[..j]).ran + [(LatestAdd(events[..j]).value, events[j].at)]
    ensures exists i :: 0 <= i < j && events[i].Add? && events[i].f == LatestAdd(events[..j]).value
                        && forall k :: i < k < j ==> !events[k].Add?
  {
    RunsPrefix(after, events, j);
    RunsPrefix(after, events, j + 1);
    assert events[..j + 1][..j] == events[..j];
    ExecutionKeepsInv(after, events[..j]);
    var i := LatestPlace(events[..j]);
    assert events[i] == events[..j][i];
  }

  lemma {:induction false} LatestPlace(events: seq<Event>) returns (i: nat)
    requires LatestAdd(events).Some?
    ensures i < |events| && events[i].Add? && LatestAdd(events) == Some(events[i].f)
    ensures forall k :: i < k < |events| ==> !events[k].Add?
  {
    i := |events| - 1;
    if events[i].Fire? {
      i := LatestPlace(events[..|events| - 1]);
    }
  }

  lemma {:induction false} LatestSince(events: seq<Event>, i: nat)
    requires i < |events| && events[i].Add? && forall k :: i < k < |events| ==> !events[k].Add?
    ensures LatestAdd(events) == Some(events[i].f)
  {
    if i < |events| - 1 {
      LatestSince(events[..|events| - 1], i);
    }
  }

  lemma {:induction false} TimerUntilFire(after: nat, events: seq<Event>, i: nat)
    requires Runs(after, events) && i < |events| && events[i].Add?
    requires forall k :: i < k < |events| ==> !events[k].Fire?
    ensures After(after, events).timer.Some?
  {
    if i < |events| - 1 {
      TimerUntilFire(after, events[..|events| - 1], i);
    }
  }

  /** No added function is forgotten: either a timer is still outstanding, or the next firing runs it,
      unless a later add came first. */
  lemma NothingForgotten(after: nat, events: seq<Event>, i: nat)
    requires Runs(after, events) && i < |events| && events[i].Add?
    ensures (forall k :: i < k < |events| ==> !events[k].Fire?) ==> After(after, events).timer.Some?
    ensures forall j :: i < j < |events| && events[j].Fire? && (forall k :: i < k < j ==> !events[k].Fire?) ==>
              (exists k :: i < k < j && events[k].Add?) || LatestAdd(events[..j]) == Some(events[i].f)
  {
    if forall k :: i < k < |events| ==> !events[k].Fire? {
      TimerUntilFire(after, events, i);
    }
    forall j | i < j < |events| && forall k :: i < k < j ==> !events[k].Add?
      ensures LatestAdd(events[..j]) == Some(events[i].f)
    {
      LatestSince(events[..j], i);
    }
  }

  // The code

  class Throttler {
    const after: nat
    var f: Option<nat>
    var timer: Option<int>
    ghost var waiting: seq<int>
    ghost var now: int
    ghost var ran: seq<(nat, int)>

    constructor (after: nat)
      ensures this.after == after && Abs() == START
    {
      this.after, f, timer, waiting, now, ran := after, None, None, [], 0, [];
    }

    ghost function Abs(): State
      reads this
    {
      State(f, timer, waiting, now, ran)
    }

    method AddFunction(g: nat, at: int)
      requires Enabled(Abs(), Add(g, at))
      modifies this
      ensures Abs() == Next(after, old(Abs()), Add(g, at))
    {
      f := Some(g);
      if timer.None? {
        timer := Some(at + after);
        waiting := waiting + [at + after];
      }
      now := at;
    }

    /** The goroutine, once its timer has fired and it has the mutex. */
    method OnTimer(at: int, done: int) returns (run: nat)
      requires Enabled(Abs(), Fire(at, done)) && f.Some?
      modifies this
      ensures Abs() == Next(after, old(Abs()), Fire(at, done))
      ensures old(f) == Some(run)
    {
      run := f.value;
      ran := ran + [(run, at)];
      timer := None;
      waiting := waiting[1..];
      now := done;
    }
  }

  // The deadline

  /** Event `i` is an add, no firing comes after it, and no other add since the last firing comes before it. */
  ghost predicate StartsTimer(events: seq<Event>, i: nat) {
    && i < |events| && events[i].Add?
    && (forall k :: i < k < |events| ==> !events[k].Fire?)
    && (i == 0 || events[i - 1].Fire?)
  }

  lemma StartsBefore(events: seq<Event>, i: nat)
    requires i < |events| - 1
    ensures var n := |events| - 1; StartsTimer(events, i) <==> StartsTimer(events[..n], i) && events[n].Add?
  {
    var n := |events| - 1;
    var front := events[..n];
    assert forall k :: 0 <= k < n ==> front[k] == events[k];
  }

  /** A timer runs if and only if there has been an add since the last firing, and it is set for exactly
      `after` from the first such add: later adds do not postpone it. */
  lemma {:induction false} DeadlineIs(after: nat, events: seq<Event>)
    requires Runs(after, events)
    ensures After(after, events).timer.Some? <==> exists i: nat :: StartsTimer(events, i)
    ensures forall i: nat :: StartsTimer(events, i) ==> After(after, events).timer == Some(events[i].at + after)
  {
    if events != [] {
      var n := |events| - 1;
      var front := events[..n];
      DeadlineIs(after, front);
      TimerIffAdd(after, front);
      forall i: nat | i < n ensures StartsTimer(events, i) <==> StartsTimer(front, i) && events[n].Add? {
        StartsBefore(events, i);
      }
      if events[n].Add? && (n == 0 || events[n - 1].Fire?) {
        assert StartsTimer(events, n);
      }
      if i: nat :| StartsTimer(front, i) && events[n].Add? {
        assert StartsTimer(events, i);
      }
    }
  }

  /** Right after a firing, and at the start, no timer runs; right after an add one does. */
  lemma TimerIffAdd(after: nat, events: seq<Event>)
    requires Runs(after, events)
    ensures After(after, events).timer.Some? <==> events != [] && events[|events| - 1].Add?
  {
  }

  /** A firing can come whenever the deadline has passed, and at no other time. */
  lemma CanFireIff(after: nat, events: seq<Event>, at: int, done: int)
    requires Runs(after, events)
    ensures var s := After(after, events);
            Enabled(s, Fire(at, done)) <==> s.timer.Some? && s.timer.value <= at && s.now <= at <= done
  {
    ExecutionKeepsInv(after, events);
  }
}

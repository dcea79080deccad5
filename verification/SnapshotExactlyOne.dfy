/**
 "Exactly one pending row when it finishes": when a run of `handleApp` keeps that promise. For every way
 a run can end there is an exact condition on the state before its end, and for the two ends that write
 an exact condition on what the other runs of the application did in the meantime.
 */
module SnapshotExactlyOne {
  import opened Wrappers
  import opened FiniteSets
  import opened SnapshotQueue
  import opened SnapshotBounds
  import opened SnapshotHistory
  import opened SnapshotSolo

  // The end of a run

  predicate EndsRun(s: State, step: Step) {
    !step.List? && !step.Tick? && step.r in s.runs &&
    match step
    case CreateFirst(_, _, _) => true
    case Check(r, unfinished) => s.runs[r].at > s.now || unfinished
    case Lock(r) => s.runs[r].next !in s.rows || !Free(s, s.runs[r].next)
    case Commit(_) => true
    case Abort(_) => true
    case _ => false
  }

  /** The rows that a run knows: its first listed row and the candidates of its delete statement. */
  function Known(run: Run): set<string> {
    if run.phase == Empty then {} else run.seen + {run.next}
  }

  lemma Singleton<T>(s: set<T>, x: T)
    requires x in s
    ensures |s| == 1 <==> s <= {x}
  {
    SubsetCardinality({x}, s);
    if s <= {x} {
      assert s == {x};
    }
  }

  lemma CommitLeavesOneIff(s: State, run: Run)
    requires RunOk(s, run) && run.phase == Queued
    ensures |Pending(Committed(s.rows, run), run.app)| == 1 <==> Pending(s.rows, run.app) <= Known(run)
  {
    var after := Pending(Committed(s.rows, run), run.app);
    PendingAfterCommit(s, run, run.app);
    Singleton(after, run.queued);
    forall id | id in Pending(s.rows, run.app) && id in Known(run) ensures id == run.next || id in run.gone {
      assert IsPending(s.rows, run.app, id);
    }
    forall id | id in run.gone ensures id in Known(run) && id != run.queued {}
    if Pending(s.rows, run.app) <= Known(run) {
      assert after <= {run.queued};
    } else {
      var id :| id in Pending(s.rows, run.app) && id !in Known(run);
      assert id in after && id != run.queued;
    }
  }

  lemma FirstRowLeavesOneIff(rows: Table, app: string, id: string, at: int)
    requires id !in rows
    ensures |Pending(rows[id := Row(app, at, None)], app)| == 1 <==> Pending(rows, app) == {}
  {
    var after := Pending(rows[id := Row(app, at, None)], app);
    assert after == Pending(rows, app) + {id};
    Singleton(after, id);
  }

  /** For every way to end: what must hold before it for exactly one pending row to be left. */
  lemma EndLeavesOneIff(n: nat, s: State, step: Step)
    requires Inv(s) && Enabled(n, s, step) && EndsRun(s, step)
    ensures var run := s.runs[step.r];
            |Pending(Next(s, step).rows, run.app)| == 1 <==>
            match step
            case Commit(_) => Pending(s.rows, run.app) <= Known(run)
            case CreateFirst(_, _, _) => Pending(s.rows, run.app) == {}
            case _ => |Pending(s.rows, run.app)| == 1
  {
    var run := s.runs[step.r];
    assert RunOk(s, run);
    TableAfterStep(n, s, step);
    if step.Commit? {
      CommitLeavesOneIff(s, run);
    } else if step.CreateFirst? {
      FirstRowLeavesOneIff(s.rows, run.app, step.id, step.at);
    }
  }

  // What the others did in the meantime

  /** From here on the run's knowledge is fixed: its listing was short, or its delete statement has begun. */
  predicate Settled(run: Run) {
    run.listed <= 1 || Deletes(run)
  }

  /** A step that adds a pending row of `app` to the table. */
  predicate QueuesRow(s: State, step: Step, app: string) {
    (step.Commit? || step.CreateFirst?) && step.r in s.runs && s.runs[step.r].app == app
  }

  ghost predicate SomeQueues(n: nat, s: State, steps: seq<Step>, app: string)
    requires Runs(n, s, steps)
    decreases |steps|
  {
    steps != [] && (QueuesRow(s, steps[0], app) || SomeQueues(n, Next(s, steps[0]), steps[1..], app))
  }

  /** While a settled run is in flight its knowledge stays the same, whoever steps. */
  lemma StepKeepsKnown(n: nat, s: State, step: Step, r: nat)
    requires r in s.runs && RunOk(s, s.runs[r]) && Enabled(n, s, step) && CanTake(s, step)
    requires Settled(s.runs[r]) && r in Next(s, step).runs
    ensures var run := Next(s, step).runs[r];
            Settled(run) && run.app == s.runs[r].app && Known(run) == Known(s.runs[r])
  {
  }

  /** Only the steps that queue a row for the application add a pending row to it. */
  lemma QuietStepAddsNothing(n: nat, s: State, step: Step, app: string)
    requires Inv(s) && Enabled(n, s, step) && !QueuesRow(s, step, app)
    ensures Pending(Next(s, step).rows, app) == Pending(s.rows, app)
  {
    TableAfterStep(n, s, step);
    if step.Commit? {
      PendingAfterCommit(s, s.runs[step.r], app);
    }
  }

  /** A row that another run queues is one that `r` does not know. */
  lemma QueuedRowIsUnknown(n: nat, s: State, step: Step, r: nat)
    requires Inv(s) && Enabled(n, s, step) && r in s.runs && step != Commit(r)
    requires QueuesRow(s, step, s.runs[r].app) && r in Next(s, step).runs
    ensures !(Pending(Next(s, step).rows, s.runs[r].app) <= Known(s.runs[r]))
  {
    var run, app := s.runs[r], s.runs[r].app;
    assert RunOk(s, run) && RunOk(s, s.runs[step.r]);
    TableAfterStep(n, s, step);
    if step.Commit? {
      var other := s.runs[step.r];
      assert PairOk(other, run);
      PendingAfterCommit(s, other, app);
      assert other.queued in Pending(Next(s, step).rows, app) && other.queued !in Known(run);
    } else {
      assert step.id in Pending(Next(s, step).rows, app) && step.id !in Known(run);
    }
  }

  /** While a settled run is in flight, the application has a pending row that the run does not know if
      and only if it had one to begin with or some other run has queued a row since. */
  lemma {:induction false} UnknownRowIff(n: nat, s: State, steps: seq<Step>, r: nat)
    requires Inv(s) && Runs(n, s, steps) && InFlight(n, s, steps, r) && Settled(s.runs[r])
    ensures var s' := Exec(n, s, steps);
            && Inv(s') && r in s'.runs && s'.runs[r].app == s.runs[r].app && Settled(s'.runs[r])
    ensures var s' := Exec(n, s, steps);
            Pending(s'.rows, s'.runs[r].app) <= Known(s'.runs[r]) <==>
            Pending(s.rows, s.runs[r].app) <= Known(s.runs[r]) && !SomeQueues(n, s, steps, s.runs[r].app)
    decreases |steps|
  {
    if steps != [] {
      var step, s1, app := steps[0], Next(s, steps[0]), s.runs[r].app;
      StepKeepsInv(n, s, step);
      assert RunOk(s, s.runs[r]);
      StepKeepsKnown(n, s, step, r);
      UnknownRowIff(n, s1, steps[1..], r);
      if QueuesRow(s, step, app) {
        QueuedRowIsUnknown(n, s, step, r);
      } else {
        QuietStepAddsNothing(n, s, step, app);
      }
    }
  }

  /** The step that fixes what a run knows: a listing of at most one row, or the begin of its delete
      statement. Right after it, the run knows every pending row. */
  predicate Settles(s: State, step: Step) {
    || (step.List? && |Pending(s.rows, step.app)| <= 1)
    || step.DeleteBegin?
  }

  lemma SettlingKnowsAll(n: nat, s: State, step: Step)
    requires Inv(s) && Enabled(n, s, step) && Settles(s, step)
    ensures var s' := Next(s, step);
            && step.r in s'.runs && Settled(s'.runs[step.r])
            && Pending(s'.rows, s'.runs[step.r].app) <= Known(s'.runs[step.r])
  {
    if step.List? && step.first.Some? {
      assert step.first.value in Pending(s.rows, step.app);
      Singleton(Pending(s.rows, step.app), step.first.value);
    }
  }

  /** The promise over executions. A run fixes what it knows at `settle`; then any runs take `steps`, and
      the run ends by committing or by queueing a first row. Exactly one pending row is left if and
      only if no other run of the application queued a row in between. */
  lemma PromiseKeptIff(n: nat, s: State, settle: Step, steps: seq<Step>, end: Step)
    requires Inv(s) && Enabled(n, s, settle) && Settles(s, settle)
    requires Runs(n, Next(s, settle), steps) && InFlight(n, Next(s, settle), steps, settle.r)
    requires (end.Commit? || end.CreateFirst?) && end.r == settle.r
    requires Enabled(n, Exec(n, Next(s, settle), steps), end)
    ensures var s0 := Next(s, settle);
            var s1 := Exec(n, s0, steps);
            && end.r in s0.runs && end.r in s1.runs && CanTake(s1, end)
            && (|Pending(Next(s1, end).rows, s0.runs[end.r].app)| == 1 <==>
                !SomeQueues(n, s0, steps, s0.runs[end.r].app))
  {
    var s0 := Next(s, settle);
    var s1 := Exec(n, s0, steps);
    StepKeepsInv(n, s, settle);
    SettlingKnowsAll(n, s, settle);
    UnknownRowIff(n, s0, steps, end.r);
    assert RunOk(s1, s1.runs[end.r]);
    EndLeavesOneIff(n, s1, end);
  }

  // Two ways to miss it

  const TWO := State(map["x" := Row("app", 9, None), "y" := Row("app", 9, None)], map[], {"x", "y"}, 0, 0)

  /** Without any overlap: two rows that are not yet due stay two. */
  lemma NotDueLeavesTwo()
    ensures var steps := [List(1, "app", Some("x")), Check(1, false)];
            && Idle(TWO) && Runs(1, TWO, steps) && Idle(Exec(1, TWO, steps))
            && |Pending(Exec(1, TWO, steps).rows, "app")| == 2
  {
    var steps := [List(1, "app", Some("x")), Check(1, false)];
    assert Pending(TWO.rows, "app") == {"x", "y"};
    assert RunsOf(TWO, "app") == {};
    var s1 := Next(TWO, steps[0]);
    var s2 := Next(s1, Check(1, false));
    assert s2.runs == map[];
    Prepend(1, s1, Check(1, false), s2, []);
    Prepend(1, TWO, steps[0], s1, [Check(1, false)] + []);
    assert steps == [steps[0]] + ([Check(1, false)] + []);
  }

  const NONE := State(map[], map[], {}, 0, 0)

  const FIRST := Run("app", Empty, "", 0, 0, "", {}, {}, {}, 0, "", 0)

  lemma BothListNothing()
    ensures var s1, s2 := NONE.(runs := map[1 := FIRST]), NONE.(runs := map[1 := FIRST, 2 := FIRST]);
            Takes(2, NONE, List(1, "app", None), s1) && Takes(2, s1, List(2, "app", None), s2)
  {
    assert Pending(NONE.rows, "app") == {} && RunsOf(NONE, "app") == {};
    var s1, s2 := NONE.(runs := map[1 := FIRST]), NONE.(runs := map[1 := FIRST, 2 := FIRST]);
    assert RunsOf(s1, "app") == {1};
    assert s2 == WithRun(s1, 2, FIRST);
  }

  lemma BothQueue() returns (s: State)
    ensures s.rows == map["a" := Row("app", 7, None), "b" := Row("app", 7, None)] && Idle(s)
    ensures var s2 := NONE.(runs := map[1 := FIRST, 2 := FIRST]);
            var steps := [CreateFirst(1, "a", 7), CreateFirst(2, "b", 7)];
            Runs(2, s2, steps) && Exec(2, s2, steps) == s
  {
    var s2 := NONE.(runs := map[1 := FIRST, 2 := FIRST]);
    var s3 := Next(s2, CreateFirst(1, "a", 7));
    s := Next(s3, CreateFirst(2, "b", 7));
    assert s3.runs == map[2 := FIRST] && s.runs == map[];
    Prepend(2, s3, CreateFirst(2, "b", 7), s, []);
    Prepend(2, s2, CreateFirst(1, "a", 7), s3, [CreateFirst(2, "b", 7)] + []);
    assert [CreateFirst(1, "a", 7)] + ([CreateFirst(2, "b", 7)] + []) == [CreateFirst(1, "a", 7), CreateFirst(2, "b", 7)];
  }

  /** Two runs that both find no pending row queue one each; no row is locked or backed up. */
  lemma TwoFirstRowsLeaveTwo()
    ensures var steps := [List(1, "app", None), List(2, "app", None), CreateFirst(1, "a", 7), CreateFirst(2, "b", 7)];
            && Idle(NONE) && Runs(2, NONE, steps) && Idle(Exec(2, NONE, steps))
            && Pending(Exec(2, NONE, steps).rows, "app") == {"a", "b"}
  {
    var steps := [List(1, "app", None), List(2, "app", None), CreateFirst(1, "a", 7), CreateFirst(2, "b", 7)];
    var s1, s2 := NONE.(runs := map[1 := FIRST]), NONE.(runs := map[1 := FIRST, 2 := FIRST]);
    var rest := [CreateFirst(1, "a", 7), CreateFirst(2, "b", 7)];
    BothListNothing();
    var s := BothQueue();
    Prepend(2, s1, List(2, "app", None), s2, rest);
    Prepend(2, NONE, List(1, "app", None), s1, [List(2, "app", None)] + rest);
    assert steps == [List(1, "app", None)] + ([List(2, "app", None)] + rest);
  }
}

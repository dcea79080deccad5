/**
 A run of `handleApp` that meets no other lock on its way, as an execution of the queue protocol, and
 two such runs whose listings overlap.
 */
module SnapshotSolo {
  import opened Wrappers
  import opened SnapshotQueue
  import opened SnapshotBounds

  ghost predicate Takes(n: nat, s: State, step: Step, s': State) {
    Enabled(n, s, step) && CanTake(s, step) && Next(s, step) == s'
  }

  lemma Prepend(n: nat, s: State, step: Step, s': State, rest: seq<Step>)
    requires Takes(n, s, step, s') && Runs(n, s', rest)
    ensures Runs(n, s, [step] + rest) && Exec(n, s, [step] + rest) == Exec(n, s', rest)
  {
    assert ([step] + rest)[1..] == rest;
  }

  lemma {:induction false} Concat(n: nat, s: State, a: seq<Step>, b: seq<Step>)
    requires Runs(n, s, a) && Runs(n, Exec(n, s, a), b)
    ensures Runs(n, s, a + b) && Exec(n, s, a + b) == Exec(n, Exec(n, s, a), b)
    decreases |a|
  {
    if a == [] {
      assert a + b == b;
    } else {
      Concat(n, Next(s, a[0]), a[1..], b);
      assert (a + b)[1..] == a[1..] + b && (a + b)[0] == a[0];
    }
  }

  lemma Append(n: nat, s: State, steps: seq<Step>, step: Step, s': State)
    requires Runs(n, s, steps) && Takes(n, Exec(n, s, steps), step, s')
    ensures Runs(n, s, steps + [step]) && Exec(n, s, steps + [step]) == s'
  {
    Prepend(n, Exec(n, s, steps), step, s', []);
    assert [step] + [] == [step];
    Concat(n, s, steps, [step]);
  }

  // The run record at each point

  function ListedRun(rows: Table, app: string, next: string): Run
    requires next in rows
  {
    Run(app, Listed, next, rows[next].at, |Pending(rows, app)|, "", {}, {}, {}, 0, "", 0)
  }

  function MarkedRun(run: Run, mark: string): Run {
    run.(phase := Marked, mark := mark)
  }

  /** The run when its delete statement, if it has one, is over. */
  function SweptRun(s: State, run: Run): Run {
    if run.listed <= 1 then run
    else var seen := Pending(s.rows, run.app) - {run.next};
         run.(phase := Swept, seen := seen, todo := {}, gone := seen, started := s.deletes)
  }

  function QueuedRun(run: Run, id: string, at: int): Run {
    run.(phase := Queued, queued := id, queuedAt := at)
  }

  function SoloRun(s: State, run: Run, mark: string, id: string, at: int): Run {
    QueuedRun(SweptRun(s, MarkedRun(run, mark)), id, at)
  }

  /** The state a run leaves when it goes from its listing to its commit without interference. */
  function SoloState(s: State, r: nat, mark: string, id: string, at: int): State
    requires r in s.runs && s.runs[r].next in s.rows
  {
    WithoutRun(s, r).(rows := Committed(s.rows, SoloRun(s, s.runs[r], mark, id, at)),
                      used := s.used + {id},
                      deletes := if s.runs[r].listed > 1 then s.deletes + 1 else s.deletes)
  }

  ghost predicate NobodyHolds(s: State, r: nat) {
    forall q | q in s.runs && q != r :: Holds(s.runs[q]) == {}
  }

  lemma Overwrite(s: State, r: nat, a: Run, b: Run)
    ensures WithRun(WithRun(s, r, a), r, b) == WithRun(s, r, b)
    ensures WithoutRun(WithRun(s, r, a), r) == WithoutRun(s, r)
  {
    assert s.runs[r := a][r := b] == s.runs[r := b];
    assert s.runs[r := a] - {r} == s.runs - {r};
  }

  lemma LockSolo(n: nat, s: State, r: nat, mark: string)
    requires r in s.runs && s.runs[r].phase == Listed && s.runs[r].at <= s.now && s.runs[r].gone == {}
    requires s.runs[r].next in s.rows && NobodyHolds(s, r)
    ensures var run := s.runs[r];
            && Takes(n, s, Check(r, false), WithRun(s, r, run.(phase := Begun)))
            && Takes(n, WithRun(s, r, run.(phase := Begun)), Lock(r), WithRun(s, r, run.(phase := Locked)))
            && Takes(n, WithRun(s, r, run.(phase := Locked)), Mark(r, mark), WithRun(s, r, MarkedRun(run, mark)))
  {
    var run := s.runs[r];
    Overwrite(s, r, run.(phase := Begun), run.(phase := Locked));
    Overwrite(s, r, run.(phase := Locked), MarkedRun(run, mark));
    assert Free(WithRun(s, r, run.(phase := Begun)), run.next);
  }

  lemma CommitSolo(n: nat, s: State, r: nat, run: Run, id: string, at: int)
    requires r in s.runs && run.next in s.rows && id !in s.used
    requires run.phase == if run.listed > 1 then Swept else Marked
    ensures var last := QueuedRun(run, id, at);
            && Takes(n, WithRun(s, r, run), Queue(r, id, at), WithRun(s, r, last).(used := s.used + {id}))
            && Takes(n, WithRun(s, r, last).(used := s.used + {id}), Commit(r),
                     WithoutRun(s, r).(rows := Committed(s.rows, last), used := s.used + {id}))
  {
    Overwrite(s, r, run, QueuedRun(run, id, at));
  }

  /** The state while `run` deletes: `todo` candidates are left, the others are gone. */
  ghost function Sweeping(s: State, r: nat, run: Run, todo: set<string>): State {
    WithRun(s, r, run.(phase := Deleting, todo := todo, gone := run.seen - todo))
  }

  lemma {:induction false} Sweep(n: nat, s: State, r: nat, run: Run, todo: set<string>) returns (steps: seq<Step>)
    requires todo <= run.seen && run.seen <= Pending(s.rows, run.app) && NobodyHolds(s, r)
    ensures Runs(n, Sweeping(s, r, run, todo), steps)
    ensures Exec(n, Sweeping(s, r, run, todo), steps) == Sweeping(s, r, run, {})
    decreases |todo|
  {
    steps := [];
    if todo != {} {
      var id :| id in todo;
      var a, b := Sweeping(s, r, run, todo), Sweeping(s, r, run, todo - {id});
      assert id in Pending(s.rows, run.app);
      assert run.seen - todo + {id} == run.seen - (todo - {id});
      Overwrite(s, r, a.runs[r], b.runs[r]);
      assert Takes(n, a, DeleteRow(r, id), b);
      steps := Sweep(n, s, r, run, todo - {id});
      Prepend(n, a, DeleteRow(r, id), b, steps);
      steps := [DeleteRow(r, id)] + steps;
    }
  }

  /** The whole delete statement of a run with more than one listed row. */
  lemma DeleteSolo(n: nat, s: State, r: nat, run: Run) returns (steps: seq<Step>)
    requires run.phase == Marked && run.listed > 1 && NobodyHolds(s, r)
    requires run.gone == {}
    ensures Runs(n, WithRun(s, r, run), steps)
    ensures Exec(n, WithRun(s, r, run), steps) == WithRun(s, r, SweptRun(s, run)).(deletes := s.deletes + 1)
  {
    var seen := Pending(s.rows, run.app) - {run.next};
    var s1 := s.(deletes := s.deletes + 1);
    var run1 := run.(phase := Deleting, seen := seen, todo := seen, started := s.deletes);
    Overwrite(s, r, run, run1);
    assert run.gone == run1.seen - seen;
    assert Takes(n, WithRun(s, r, run), DeleteBegin(r), Sweeping(s1, r, run1, seen));
    steps := Sweep(n, s1, r, run1, seen);
    Overwrite(s1, r, Sweeping(s1, r, run1, {}).runs[r], SweptRun(s, run));
    assert run1.seen - {} == seen;
    Append(n, Sweeping(s1, r, run1, seen), steps, DeleteEnd(r), WithRun(s1, r, SweptRun(s, run)));
    steps := steps + [DeleteEnd(r)];
    Prepend(n, WithRun(s, r, run), DeleteBegin(r), Sweeping(s1, r, run1, seen), steps);
    steps := [DeleteBegin(r)] + steps;
  }

  /** From a due listing, a run that nobody disturbs goes all the way to its commit. */
  lemma FinishSolo(n: nat, s: State, r: nat, mark: string, id: string, at: int) returns (steps: seq<Step>)
    requires r in s.runs && s.runs[r].phase == Listed && s.runs[r].at <= s.now && s.runs[r].gone == {}
    requires s.runs[r].next in s.rows && NobodyHolds(s, r) && id !in s.used
    ensures Runs(n, s, steps) && Exec(n, s, steps) == SoloState(s, r, mark, id, at)
  {
    var run := s.runs[r];
    var marked := MarkedRun(run, mark);
    var swept := SweptRun(s, marked);
    LockSolo(n, s, r, mark);
    var middle, s1 := [], s;
    if run.listed > 1 {
      middle := DeleteSolo(n, s, r, marked);
      s1 := s.(deletes := s.deletes + 1);
    }
    CommitSolo(n, s1, r, swept, id, at);
    var last := QueuedRun(swept, id, at);
    Append(n, WithRun(s, r, marked), middle, Queue(r, id, at), WithRun(s1, r, last).(used := s.used + {id}));
    steps := middle + [Queue(r, id, at)];
    Append(n, WithRun(s, r, marked), steps, Commit(r), SoloState(s, r, mark, id, at));
    steps := steps + [Commit(r)];
    Prepend(n, WithRun(s, r, run.(phase := Locked)), Mark(r, mark), WithRun(s, r, marked), steps);
    steps := [Mark(r, mark)] + steps;
    Prepend(n, WithRun(s, r, run.(phase := Begun)), Lock(r), WithRun(s, r, run.(phase := Locked)), steps);
    steps := [Lock(r)] + steps;
    Prepend(n, s, Check(r, false), WithRun(s, r, run.(phase := Begun)), steps);
    steps := [Check(r, false)] + steps;
  }

  // Two overlapping runs

  /** With a single listed row nothing is deleted: the row is marked and one row comes. */
  lemma ShortSolo(s: State, r: nat, mark: string, id: string, at: int)
    requires r in s.runs && s.runs[r].next in s.rows && s.runs[r].listed <= 1 && s.runs[r].gone == {}
    ensures SoloState(s, r, mark, id, at).rows ==
            s.rows[s.runs[r].next := s.rows[s.runs[r].next].(backup := Some(mark))]
                  [id := Row(s.runs[r].app, at, None)]
  {
  }

  const START := State(map["a" := Row("app", 0, None)], map[], {"a"}, 0, 0)

  lemma BothListTheSameRow() returns (s: State)
    ensures Pending(START.rows, "app") == {"a"}
    ensures var listed := Run("app", Listed, "a", 0, 1, "", {}, {}, {}, 0, "", 0);
            && s == START.(runs := map[1 := listed, 2 := listed])
            && Takes(2, START, List(1, "app", Some("a")), START.(runs := map[1 := listed]))
            && Takes(2, START.(runs := map[1 := listed]), List(2, "app", Some("a")), s)
  {
    var listed := Run("app", Listed, "a", 0, 1, "", {}, {}, {}, 0, "", 0);
    assert Pending(START.rows, "app") == {"a"};
    assert RunsOf(START, "app") == {};
    assert RunsOf(START.(runs := map[1 := listed]), "app") == {1};
    s := START.(runs := map[1 := listed, 2 := listed]);
    assert s == WithRun(START.(runs := map[1 := listed]), 2, listed);
  }

  /** Both list, then the first one backs the row up and queues the next. */
  lemma FirstOfTwo(s: State) returns (first: seq<Step>)
    requires var listed := Run("app", Listed, "a", 0, 1, "", {}, {}, {}, 0, "", 0);
             && Pending(START.rows, "app") == {"a"}
             && s == START.(runs := map[1 := listed, 2 := listed])
             && Takes(2, START, List(1, "app", Some("a")), START.(runs := map[1 := listed]))
             && Takes(2, START.(runs := map[1 := listed]), List(2, "app", Some("a")), s)
    ensures Runs(2, START, first) && Exec(2, START, first) == SoloState(s, 1, "first", "b", 7)
  {
    first := FinishSolo(2, s, 1, "first", "b", 7);
    Prepend(2, START.(runs := map[1 := s.runs[1]]), List(2, "app", Some("a")), s, first);
    first := [List(2, "app", Some("a"))] + first;
    Prepend(2, START, List(1, "app", Some("a")), START.(runs := map[1 := s.runs[1]]), first);
    first := [List(1, "app", Some("a"))] + first;
  }

  /** "Exactly one pending row" is not kept when two runs overlap: both list the only row, the second
      one locks it after the first has committed, backs it up again and queues another row. */
  lemma TwoRunsBackUpOneRowTwice() returns (first: seq<Step>, second: seq<Step>)
    ensures Idle(START) && Pending(START.rows, "app") == {"a"}
    ensures Runs(2, START, first) && Runs(2, Exec(2, START, first), second)
    ensures var s1 := Exec(2, START, first);
            && Pending(s1.rows, "app") == {"b"}
            && "a" in s1.rows && s1.rows["a"].backup == Some("first")
            && var s2 := Exec(2, s1, second);
               && Idle(s2) && Pending(s2.rows, "app") == {"b", "c"}
               && "a" in s2.rows && s2.rows["a"].backup == Some("second")
  {
    var s := BothListTheSameRow();
    first := FirstOfTwo(s);
    var s1 := SoloState(s, 1, "first", "b", 7);
    ShortSolo(s, 1, "first", "b", 7);
    assert s1.rows == map["a" := Row("app", 0, Some("first")), "b" := Row("app", 7, None)];
    assert s1.runs == map[2 := s.runs[2]];
    second := FinishSolo(2, s1, 2, "second", "c", 14);
    ShortSolo(s1, 2, "second", "c", 14);
    var s2 := SoloState(s1, 2, "second", "c", 14);
    assert s2.rows == map["a" := Row("app", 0, Some("second")), "b" := Row("app", 7, None), "c" := Row("app", 14, None)];
    assert s2.runs == map[];
  }
}

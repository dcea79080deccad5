/**
 What every execution of the queue protocol does to single rows: handled rows stay, the queue never
 runs dry, a backup is only made when due, and when a row can be backed up twice.
 */
module SnapshotHistory {
  import opened Wrappers
  import opened SnapshotQueue
  import opened SnapshotBounds

  // Single steps

  /** A step either keeps the table, queues a first row, or commits. */
  lemma TableAfterStep(n: nat, s: State, step: Step)
    requires Inv(s) && Enabled(n, s, step)
    ensures var rows := Next(s, step).rows;
            match step
            case Commit(r) => RunOk(s, s.runs[r]) && rows == Committed(s.rows, s.runs[r])
            case CreateFirst(r, id, at) => id !in s.rows && rows == s.rows[id := Row(s.runs[r].app, at, None)]
            case _ => rows == s.rows
  {
    match step
    case Commit(r) => assert RunOk(s, s.runs[r]);
    case _ =>
  }

  /** Without a commit or a first row, no execution changes the table: a run that is rolled back, or
      ends before its transaction, leaves it as it was. */
  lemma {:induction false} OnlyCommitsWrite(n: nat, s: State, steps: seq<Step>)
    requires Inv(s) && Runs(n, s, steps)
    requires forall step :: step in steps ==> !step.Commit? && !step.CreateFirst?
    ensures Exec(n, s, steps).rows == s.rows
    decreases |steps|
  {
    if steps != [] {
      assert steps[0] in steps;
      StepKeepsInv(n, s, steps[0]);
      TableAfterStep(n, s, steps[0]);
      OnlyCommitsWrite(n, Next(s, steps[0]), steps[1..]);
    }
  }

  lemma StepKeepsQueueNonEmpty(n: nat, app: string, s: State, step: Step)
    requires Inv(s) && Enabled(n, s, step) && Pending(s.rows, app) != {}
    ensures Pending(Next(s, step).rows, app) != {}
  {
    TableAfterStep(n, s, step);
    var rows := Next(s, step).rows;
    if step.Commit? {
      var run := s.runs[step.r];
      PendingAfterCommit(s, run, app);
      assert run.app == app ==> run.queued in Pending(rows, app);
    } else {
      var id :| id in Pending(s.rows, app);
      assert id in Pending(rows, app);
    }
  }

  lemma StepKeepsHandled(n: nat, s: State, step: Step, id: string)
    requires Inv(s) && Enabled(n, s, step) && id in s.rows && s.rows[id].backup.Some?
    ensures var rows := Next(s, step).rows;
            id in rows && rows[id].backup.Some? && rows[id].app == s.rows[id].app && rows[id].at == s.rows[id].at
  {
    TableAfterStep(n, s, step);
    if step.Commit? {
      var run := s.runs[step.r];
      assert id in run.gone ==> IsPending(s.rows, run.app, id);
    }
  }

  lemma StepMarksWhenDue(n: nat, s: State, step: Step, id: string)
    requires Inv(s) && Enabled(n, s, step) && id in s.rows && s.rows[id].backup.None?
    ensures var rows := Next(s, step).rows;
            id in rows ==>
              && rows[id].at == s.rows[id].at
              && (rows[id].backup.Some? ==> rows[id].at <= s.now)
  {
    TableAfterStep(n, s, step);
  }

  lemma StepKeepsTime(n: nat, s: State, step: Step)
    requires Enabled(n, s, step) && CanTake(s, step)
    ensures s.now <= Next(s, step).now && s.used <= Next(s, step).used
  {
  }

  // Whole executions

  lemma {:induction false} NeverEmptyAgain(n: nat, app: string, s: State, steps: seq<Step>)
    requires Inv(s) && Runs(n, s, steps) && Pending(s.rows, app) != {}
    ensures Pending(Exec(n, s, steps).rows, app) != {}
    decreases |steps|
  {
    if steps != [] {
      StepKeepsInv(n, s, steps[0]);
      StepKeepsQueueNonEmpty(n, app, s, steps[0]);
      NeverEmptyAgain(n, app, Next(s, steps[0]), steps[1..]);
    }
  }

  /** A row with a backup name is never deleted and never becomes pending again. */
  lemma {:induction false} HandledStaysHandled(n: nat, s: State, steps: seq<Step>, id: string)
    requires Inv(s) && Runs(n, s, steps) && id in s.rows && s.rows[id].backup.Some?
    ensures var rows := Exec(n, s, steps).rows;
            id in rows && rows[id].backup.Some? && rows[id].app == s.rows[id].app && rows[id].at == s.rows[id].at
    decreases |steps|
  {
    if steps != [] {
      StepKeepsInv(n, s, steps[0]);
      StepKeepsHandled(n, s, steps[0], id);
      HandledStaysHandled(n, Next(s, steps[0]), steps[1..], id);
    }
  }

  lemma {:induction false} TimeMovesForward(n: nat, s: State, steps: seq<Step>)
    requires Runs(n, s, steps)
    ensures s.now <= Exec(n, s, steps).now && s.used <= Exec(n, s, steps).used
    decreases |steps|
  {
    if steps != [] {
      StepKeepsTime(n, s, steps[0]);
      TimeMovesForward(n, Next(s, steps[0]), steps[1..]);
    }
  }

  lemma UsedIdStaysAbsent(n: nat, s: State, step: Step, id: string)
    requires Inv(s) && Enabled(n, s, step) && id in s.used && id !in s.rows
    requires forall r | r in s.runs :: s.runs[r].phase == Queued ==> s.runs[r].queued != id
    ensures var s' := Next(s, step);
            && id in s'.used && id !in s'.rows
            && forall r | r in s'.runs :: s'.runs[r].phase == Queued ==> s'.runs[r].queued != id
  {
    TableAfterStep(n, s, step);
  }

  lemma {:induction false} DeletedStaysDeleted(n: nat, s: State, steps: seq<Step>, id: string)
    requires Inv(s) && Runs(n, s, steps) && id in s.used && id !in s.rows
    requires forall r | r in s.runs :: s.runs[r].phase == Queued ==> s.runs[r].queued != id
    ensures id !in Exec(n, s, steps).rows
    decreases |steps|
  {
    if steps != [] {
      StepKeepsInv(n, s, steps[0]);
      UsedIdStaysAbsent(n, s, steps[0], id);
      DeletedStaysDeleted(n, Next(s, steps[0]), steps[1..], id);
    }
  }

  lemma GoneIsUsed(n: nat, s: State, step: Step, id: string)
    requires Inv(s) && Enabled(n, s, step) && id in s.rows && id !in Next(s, step).rows
    ensures var s' := Next(s, step);
            && id in s'.used
            && forall r | r in s'.runs :: s'.runs[r].phase == Queued ==> s'.runs[r].queued != id
  {
    TableAfterStep(n, s, step);
    var s' := Next(s, step);
    forall r | r in s'.runs && s'.runs[r].phase == Queued ensures s'.runs[r].queued != id {
      assert RunOk(s, s.runs[r]);
    }
  }

  /** A pending row only ever gets a backup name once its scheduled time has come. */
  lemma {:induction false} BackedUpOnlyWhenDue(n: nat, s: State, steps: seq<Step>, id: string)
    requires Inv(s) && Runs(n, s, steps) && id in s.rows && s.rows[id].backup.None?
    ensures var s' := Exec(n, s, steps);
            id in s'.rows && s'.rows[id].backup.Some? ==> s.rows[id].at <= s'.now
    decreases |steps|
  {
    if steps != [] {
      var s1 := Next(s, steps[0]);
      StepKeepsInv(n, s, steps[0]);
      StepKeepsTime(n, s, steps[0]);
      StepMarksWhenDue(n, s, steps[0], id);
      if id !in s1.rows {
        GoneIsUsed(n, s, steps[0], id);
        DeletedStaysDeleted(n, s1, steps[1..], id);
      } else if s1.rows[id].backup.None? {
        BackedUpOnlyWhenDue(n, s1, steps[1..], id);
      } else {
        TimeMovesForward(n, s1, steps[1..]);
      }
    }
  }

  // When a row is backed up twice and the queue grows

  /** While a transaction holds its row, no other run changes that row or takes it over. */
  lemma StepKeepsHeldRow(n: nat, s: State, step: Step, r: nat)
    requires Inv(s) && Enabled(n, s, step) && r in s.runs && InTransaction(s.runs[r])
    requires step != Commit(r) && step != Abort(r)
    ensures var s' := Next(s, step);
            && r in s'.runs && InTransaction(s'.runs[r]) && s'.runs[r].next == s.runs[r].next
            && s.runs[r].next in s.rows && s.runs[r].next in s'.rows
            && s'.rows[s.runs[r].next] == s.rows[s.runs[r].next]
  {
    assert RunOk(s, s.runs[r]);
    TableAfterStep(n, s, step);
    if step.Commit? {
      assert PairOk(s.runs[r], s.runs[step.r]) && PairOk(s.runs[step.r], s.runs[r]);
      CommitIsLocal(s, s.runs[step.r], s.runs[r]);
    }
  }

  lemma {:induction false} HeldRowIsStable(n: nat, s: State, steps: seq<Step>, r: nat)
    requires Inv(s) && Runs(n, s, steps) && r in s.runs && InTransaction(s.runs[r])
    requires Commit(r) !in steps && Abort(r) !in steps
    ensures var s' := Exec(n, s, steps);
            && Inv(s')
            && r in s'.runs && InTransaction(s'.runs[r]) && s'.runs[r].next == s.runs[r].next
            && s.runs[r].next in s.rows && s.runs[r].next in s'.rows
            && s'.rows[s.runs[r].next] == s.rows[s.runs[r].next]
    decreases |steps|
  {
    if steps != [] {
      StepKeepsInv(n, s, steps[0]);
      StepKeepsHeldRow(n, s, steps[0], r);
      HeldRowIsStable(n, Next(s, steps[0]), steps[1..], r);
    } else {
      assert RunOk(s, s.runs[r]);
    }
  }

  lemma ExchangeCount(before: set<string>, gone: set<string>, next: string, queued: string)
    requires gone <= before && next !in gone && queued !in before
    ensures |before - {next} - gone + {queued}| == |before| + 1 - |gone| - (if next in before then 1 else 0)
  {
    assert |before - gone| == |before| - |gone|;
    assert before - {next} - gone == before - gone - {next};
  }

  /** The exact change of the queue length at a commit: one row comes, the deleted rows go, and the
      locked row goes if it was still pending. */
  lemma CommitCount(s: State, r: nat)
    requires Inv(s) && r in s.runs && s.runs[r].phase == Queued
    requires RunOk(s, s.runs[r])
    ensures var run := s.runs[r];
            |Pending(Committed(s.rows, run), run.app)| ==
            |Pending(s.rows, run.app)| + 1 - |run.gone| - (if s.rows[run.next].backup.None? then 1 else 0)
  {
    var run := s.runs[r];
    var before := Pending(s.rows, run.app);
    PendingAfterCommit(s, run, run.app);
    forall id | id in run.gone ensures id in before {
      assert IsPending(s.rows, run.app, id);
    }
    assert run.next in before <==> s.rows[run.next].backup.None?;
    ExchangeCount(before, run.gone, run.next, run.queued);
  }

  /** The lock query does not look at `backup_name`. From the state right after a run has locked its
      row, whatever the others do until it commits: its commit writes a second backup name over a
      first one exactly when the row already had one at that moment, and makes the queue longer exactly
      when, besides, its delete statement took nothing. */
  lemma SecondBackupIff(n: nat, s: State, steps: seq<Step>, r: nat)
    requires Inv(s) && r in s.runs && s.runs[r].phase == Locked && s.runs[r].next in s.rows
    requires Runs(n, s, steps) && Commit(r) !in steps && Abort(r) !in steps
    requires r in Exec(n, s, steps).runs && Exec(n, s, steps).runs[r].phase == Queued
    ensures var s1 := Exec(n, s, steps);
            var run := s1.runs[r];
            && run.next in s1.rows && run.next in Committed(s1.rows, run)
            && (s1.rows[run.next].backup.Some? <==> s.rows[s.runs[r].next].backup.Some?)
            && Committed(s1.rows, run)[run.next].backup == Some(run.mark)
            && (|Pending(Committed(s1.rows, run), run.app)| > |Pending(s1.rows, run.app)| <==>
                s.rows[s.runs[r].next].backup.Some? && run.gone == {})
  {
    HeldRowIsStable(n, s, steps, r);
    var s1 := Exec(n, s, steps);
    assert RunOk(s1, s1.runs[r]);
    CommitCount(s1, r);
  }

  // What a commit writes

  /** Every row after a commit: the locked one has the run's backup name and is otherwise as it was, the
      deleted ones are gone, the queued one is new, all others are as they were. */
  lemma CommitWrites(n: nat, s: State, r: nat, id: string)
    requires Inv(s) && Enabled(n, s, Commit(r)) && CanTake(s, Commit(r))
    ensures var run, rows := s.runs[r], Next(s, Commit(r)).rows;
            && run.next in s.rows && run.next != run.queued && run.queued !in s.rows
            && (id == run.queued ==> id in rows && rows[id] == Row(run.app, run.queuedAt, None))
            && (id == run.next ==> id in rows && rows[id] == Row(s.rows[id].app, s.rows[id].at, Some(run.mark)))
            && (id in run.gone ==> id !in rows)
            && (id != run.queued && id != run.next && id !in run.gone ==>
                  (id in rows <==> id in s.rows) && (id in rows ==> rows[id] == s.rows[id]))
  {
    assert RunOk(s, s.runs[r]);
    assert id in s.runs[r].gone ==> IsPending(s.rows, s.runs[r].app, id);
  }

  predicate IsMarked(run: Run) {
    run.phase in {Marked, Deleting, Swept, Queued}
  }

  lemma StepKeepsPromises(n: nat, s: State, step: Step, r: nat)
    requires r in s.runs && Enabled(n, s, step) && CanTake(s, step) && r in Next(s, step).runs
    requires IsMarked(s.runs[r])
    ensures var a, b := s.runs[r], Next(s, step).runs[r];
            && IsMarked(b) && b.app == a.app && b.next == a.next && b.mark == a.mark
            && (a.phase == Queued ==> b.phase == Queued && b.queued == a.queued && b.queuedAt == a.queuedAt)
  {
  }

  /** What a run has marked and queued stays so until it ends, whoever steps. */
  lemma {:induction false} PromisesAreKept(n: nat, s: State, steps: seq<Step>, r: nat)
    requires Runs(n, s, steps) && InFlight(n, s, steps, r) && IsMarked(s.runs[r])
    ensures r in Exec(n, s, steps).runs
    ensures var a, b := s.runs[r], Exec(n, s, steps).runs[r];
            && IsMarked(b) && b.app == a.app && b.next == a.next && b.mark == a.mark
            && (a.phase == Queued ==> b.phase == Queued && b.queued == a.queued && b.queuedAt == a.queuedAt)
    decreases |steps|
  {
    if steps != [] {
      StepKeepsPromises(n, s, steps[0], r);
      PromisesAreKept(n, Next(s, steps[0]), steps[1..], r);
    }
  }

  /** The row a run queues is in the table right after its commit, for its application and at the time it
      was asked for, whatever the listing and whatever the others did in between. */
  lemma QueuedRowArrives(n: nat, s: State, r: nat, id: string, at: int, steps: seq<Step>)
    requires Inv(s) && Enabled(n, s, Queue(r, id, at))
    requires Runs(n, Next(s, Queue(r, id, at)), steps) && InFlight(n, Next(s, Queue(r, id, at)), steps, r)
    ensures var s1 := Exec(n, Next(s, Queue(r, id, at)), steps);
            && Enabled(n, s1, Commit(r)) && CanTake(s1, Commit(r))
            && var rows := Next(s1, Commit(r)).rows;
               id in rows && rows[id] == Row(s.runs[r].app, at, None)
  {
    var s0 := Next(s, Queue(r, id, at));
    StepKeepsInv(n, s, Queue(r, id, at));
    ReachableKeepsInv(n, s0, steps);
    PromisesAreKept(n, s0, steps, r);
    var s1 := Exec(n, s0, steps);
    assert RunOk(s1, s1.runs[r]);
    CommitWrites(n, s1, r, id);
  }

  /** The name that marks a row is in the table right after the commit; the row's application and time are
      those it had when it was marked. */
  lemma MarkedRowArrives(n: nat, s: State, r: nat, name: string, steps: seq<Step>)
    requires Inv(s) && Enabled(n, s, Mark(r, name))
    requires Runs(n, Next(s, Mark(r, name)), steps) && InFlight(n, Next(s, Mark(r, name)), steps, r)
    requires Commit(r) !in steps && Abort(r) !in steps
    requires Enabled(n, Exec(n, Next(s, Mark(r, name)), steps), Commit(r))
    ensures var s1 := Exec(n, Next(s, Mark(r, name)), steps);
            && CanTake(s1, Commit(r)) && s.runs[r].next in s.rows
            && var rows, row := Next(s1, Commit(r)).rows, s.rows[s.runs[r].next];
               s.runs[r].next in rows && rows[s.runs[r].next] == Row(row.app, row.at, Some(name))
  {
    var s0 := Next(s, Mark(r, name));
    StepKeepsInv(n, s, Mark(r, name));
    HeldRowIsStable(n, s0, steps, r);
    PromisesAreKept(n, s0, steps, r);
    CommitWrites(n, Exec(n, s0, steps), r, s.runs[r].next);
  }

  // No run is blocked

  /** Wherever a run stands, its next statement can be taken whatever the other runs do; only the delete
      statement waits, for a row that another transaction holds. A listing can begin while fewer than `n`
      runs of its application are in flight. */
  lemma OnlyDeletesWait(n: nat, s: State, r: nat, id: string, at: int, name: string, unfinished: bool)
    requires Inv(s) && r in s.runs
    ensures var run := s.runs[r];
            match run.phase
            case Empty => id !in s.used ==> Enabled(n, s, CreateFirst(r, id, at))
            case Listed => Enabled(n, s, Check(r, unfinished))
            case Begun => Enabled(n, s, Lock(r))
            case Locked => Enabled(n, s, Mark(r, name))
            case Marked =>
              if run.listed > 1 then Enabled(n, s, DeleteBegin(r)) else id !in s.used ==> Enabled(n, s, Queue(r, id, at))
            case Deleting =>
              if run.todo == {} then Enabled(n, s, DeleteEnd(r))
              else id in run.todo ==>
                     (Enabled(n, s, DeleteRow(r, id)) <==> forall q | q in s.runs && q != r :: id !in Holds(s.runs[q]))
            case Swept => id !in s.used ==> Enabled(n, s, Queue(r, id, at))
            case Queued => Enabled(n, s, Commit(r)) && CanTake(s, Commit(r))
    ensures Enabled(n, s, Abort(r))
  {
    assert RunOk(s, s.runs[r]);
  }

  lemma ListingCanBegin(n: nat, s: State, r: nat, app: string, first: Option<string>)
    requires r !in s.runs && |RunsOf(s, app)| < n
    ensures Enabled(n, s, List(r, app, first)) <==>
            if Pending(s.rows, app) == {} then first == None
            else first.Some? && first.value in s.rows && s.rows[first.value].app == app && s.rows[first.value].backup.None?
  {
  }
}

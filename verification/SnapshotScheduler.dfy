/**
 `handleApp` and the statements of the snapshots store, as code that changes a database step by step.
 Every statement is a step of the queue protocol, so an undisturbed `HandleApp` is one of its
 executions.
 */
module SnapshotScheduler {
  import opened Wrappers
  import opened FiniteSets
  import opened SnapshotQueue
  import opened SnapshotBounds
  import opened SnapshotSolo

  class SnapshotsStore {
    var rows: Table
    var runs: map<nat, Run>
    var used: set<string>
    var deletes: nat
    var now: int

    constructor (rows: Table, now: int)
      ensures this.rows == rows && this.now == now && Idle(Abs())
    {
      this.rows, runs, used, deletes, this.now := rows, map[], rows.Keys, 0, now;
    }

    ghost function Abs(): State
      reads this
    {
      State(rows, runs, used, deletes, now)
    }

    /** The pending rows of an application, in whatever order the query returns them. */
    method ListPendingScheduledSnapshots(app: string) returns (pending: seq<string>)
      ensures forall i, j :: 0 <= i < j < |pending| ==> pending[i] != pending[j]
      ensures forall id :: id in pending <==> id in rows && rows[id].app == app && rows[id].backup.None?
      ensures |pending| == |Pending(rows, app)|
    {
      pending := [];
      var rest := Pending(rows, app);
      while rest != {}
        invariant rest <= Pending(rows, app)
        invariant forall i, j :: 0 <= i < j < |pending| ==> pending[i] != pending[j]
        invariant forall id :: id in pending <==> id in Pending(rows, app) && id !in rest
        invariant |pending| + |rest| == |Pending(rows, app)|
        decreases |rest|
      {
        var id :| id in rest;
        pending := pending + [id];
        rest := rest - {id};
      }
    }

    /** `SELECT ... FOR UPDATE SKIP LOCKED`: the row must exist and be free; its backup name is not
        looked at. A run that gets no row rolls back. */
    method LockScheduledSnapshot(r: nat) returns (acquired: bool)
      requires r in runs && runs[r].phase == Begun
      modifies this
      ensures Abs() == Next(old(Abs()), Lock(r))
      ensures acquired <==> r in runs
      ensures acquired <==> old(runs)[r].next in rows
                            && forall q | q in old(runs) ::
                                 && (InTransaction(old(runs)[q]) ==> old(runs)[q].next != old(runs)[r].next)
                                 && old(runs)[r].next !in old(runs)[q].gone
    {
      var run := runs[r];
      acquired := run.next in rows && forall q | q in runs :: run.next !in Holds(runs[q]);
      if acquired {
        runs := runs[r := run.(phase := Locked)];
      } else {
        runs := runs - {r};
      }
    }

    method UpdateScheduledSnapshot(r: nat, backup: string)
      requires r in runs && runs[r].phase == Locked
      modifies this
      ensures Abs() == Next(old(Abs()), Mark(r, backup))
    {
      runs := runs[r := MarkedRun(runs[r], backup)];
    }

    /** `DELETE ... WHERE backup_name IS NULL` while nobody else holds a row, one row at a time.
        `SnapshotSolo.DeleteSolo` gives the protocol steps that this takes. */
    method DeletePendingScheduledSnapshots(r: nat)
      requires r in runs && runs[r].phase == Marked && runs[r].listed > 1 && runs[r].gone == {}
      requires NobodyHolds(Abs(), r)
      modifies this
      ensures Abs() == WithRun(old(Abs()), r, SweptRun(old(Abs()), old(runs[r]))).(deletes := old(deletes) + 1)
    {
      var run := runs[r];
      var seen := Pending(rows, run.app) - {run.next};
      var todo := seen;
      run := run.(phase := Deleting, seen := seen, started := deletes);
      deletes := deletes + 1;
      while todo != {}
        invariant run == old(runs[r]).(phase := Deleting, seen := seen, started := old(deletes), gone := run.gone)
        invariant todo <= seen && run.gone == seen - todo
        decreases |todo|
      {
        var id :| id in todo;
        if id in rows && rows[id].app == run.app && rows[id].backup.None? {
          run := run.(gone := run.gone + {id});
        }
        todo := todo - {id};
      }
      assert run.gone == seen;
      runs := runs[r := run.(phase := Swept, todo := {})];
    }

    /** An insert: inside the transaction of a run, or at once without one. */
    method CreateScheduledSnapshot(app: string, id: string, at: int, tx: Option<nat>)
      requires tx.Some? ==> tx.value in runs && runs[tx.value].app == app
      modifies this
      ensures Abs() == match tx
                       case Some(r) => Next(old(Abs()), Queue(r, id, at))
                       case None => old(Abs()).(rows := old(rows)[id := Row(app, at, None)], used := old(used) + {id})
    {
      if tx.Some? {
        runs := runs[tx.value := QueuedRun(runs[tx.value], id, at)];
      } else {
        rows := rows[id := Row(app, at, None)];
      }
      used := used + {id};
    }

    method CommitTransaction(r: nat)
      requires r in runs && runs[r].next in rows
      modifies this
      ensures Abs() == Next(old(Abs()), Commit(r))
    {
      var run := runs[r];
      rows := rows[run.next := rows[run.next].(backup := Some(run.mark))];
      rows := rows - run.gone;
      rows := rows[run.queued := Row(run.app, run.queuedAt, None)];
      runs := runs - {r};
    }

    method Rollback(r: nat)
      requires r in runs
      modifies this
      ensures Abs() == Next(old(Abs()), Abort(r))
    {
      runs := runs - {r};
    }
  }

  lemma OnlyOne<T>(s: set<T>, x: T)
    requires x in s && |s| <= 1
    ensures s == {x}
  {
    SubsetCardinality({x}, s);
  }

  /** The table after a run has handled `next` and queued `id`: the handled row has the backup name, the
      queued one is there with its time, the other pending rows of the application are gone, and every
      other row is as it was. */
  ghost predicate Requeued(before: Table, after: Table, app: string, next: string, mark: string, id: string, at: int) {
    && id in after && after[id] == Row(app, at, None)
    && next in before && next in after && after[next] == Row(app, before[next].at, Some(mark))
    && after.Keys == before.Keys - Pending(before, app) + {next, id}
    && Pending(after, app) == {id}
    && forall x | x in before && x !in Pending(before, app) :: x in after && after[x] == before[x]
  }

  /** What an undisturbed run from a fresh listing leaves. */
  lemma SoloLeavesOnePending(s: State, r: nat, app: string, next: string, mark: string, id: string, at: int)
    requires next in Pending(s.rows, app) && id !in s.rows
    ensures var s1 := WithRun(s, r, ListedRun(s.rows, app, next));
            Requeued(s.rows, SoloState(s1, r, mark, id, at).rows, app, next, mark, id, at)
  {
    var run := ListedRun(s.rows, app, next);
    if run.listed <= 1 {
      OnlyOne(Pending(s.rows, app), next);
    }
    var s1 := WithRun(s, r, run);
    var rows := SoloState(s1, r, mark, id, at).rows;
    forall x | x in Pending(rows, app) ensures x == id {
      assert x != id ==> x in s.rows && x in Pending(s.rows, app) && x == next;
    }
    assert id in Pending(rows, app);
  }

  /** The rest of the transaction once the row is marked. */
  method Requeue(store: SnapshotsStore, r: nat, id: string, at: int, ghost s: State, ghost run: Run)
    requires store.Abs() == WithRun(s, r, run) && run.phase == Marked && run.gone == {}
    requires r in s.runs && run.next in s.rows && NobodyHolds(s, r)
    modifies store
    ensures store.Abs() ==
            WithoutRun(s, r).(rows := Committed(s.rows, QueuedRun(SweptRun(s, run), id, at)),
                              used := s.used + {id},
                              deletes := if run.listed > 1 then s.deletes + 1 else s.deletes)
  {
    ghost var s1 := s;
    if store.runs[r].listed > 1 {
      store.DeletePendingScheduledSnapshots(r);
      s1 := s.(deletes := s.deletes + 1);
    }
    Overwrite(s1, r, run, SweptRun(s, run));
    assert store.Abs() == WithRun(s1, r, SweptRun(s, run));
    CommitRequeued(store, r, id, at, s1, store.runs[r]);
  }

  method CommitRequeued(store: SnapshotsStore, r: nat, id: string, at: int, ghost s: State, run: Run)
    requires store.Abs() == WithRun(s, r, run) && r in s.runs && run.next in s.rows
    modifies store
    ensures store.Abs() ==
            WithoutRun(s, r).(rows := Committed(s.rows, QueuedRun(run, id, at)), used := s.used + {id})
  {
    Overwrite(s, r, run, QueuedRun(run, id, at));
    store.CreateScheduledSnapshot(run.app, id, at, Some(r));
    Overwrite(s, r, QueuedRun(run, id, at), run);
    store.CommitTransaction(r);
  }

  /** The transaction of `handleApp`: lock the row, create the backup, then mark, delete, queue and
      commit; when the backup throws, roll back. */
  method BackUpAndRequeue(store: SnapshotsStore, r: nat, backup: Option<string>, id: string, at: int)
    requires r in store.runs && store.runs[r].phase == Begun && store.runs[r].gone == {}
    requires store.runs[r].next in store.rows && NobodyHolds(store.Abs(), r)
    modifies store
    ensures backup.None? ==> store.Abs() == WithoutRun(old(store.Abs()), r)
    ensures backup.Some? ==> store.Abs() == SoloState(old(store.Abs()), r, backup.value, id, at)
  {
    ghost var s := store.Abs();
    ghost var run := store.runs[r];
    assert Free(s, run.next);
    Overwrite(s, r, run.(phase := Locked), run);
    var acquired := store.LockScheduledSnapshot(r);
    if backup.None? {
      store.Rollback(r);
      return;
    }
    Overwrite(s, r, run.(phase := Locked), MarkedRun(run, backup.value));
    store.UpdateScheduledSnapshot(r, backup.value);
    Requeue(store, r, id, at, s, MarkedRun(run, backup.value));
  }

  /** One undisturbed invocation of `handleApp`: no other run is in flight. `backup` is the name of the
      Velero backup, or None when creating it throws; `unfinished` is what Velero reports. The run
      queues a row exactly when the application had no pending row, or its first one is due, nothing
      is unfinished and the backup succeeds. */
  method HandleApp(store: SnapshotsStore, app: string, scheduled: bool, unfinished: bool,
                   backup: Option<string>, id: string, at: int)
    returns (ghost steps: seq<Step>, ghost first: Option<string>, queued: bool)
    requires Idle(store.Abs()) && id !in store.used
    modifies store
    ensures Idle(store.Abs())
    ensures Runs(1, old(store.Abs()), steps) && store.Abs() == Exec(1, old(store.Abs()), steps)
    ensures scheduled && first.None? ==> Pending(old(store.rows), app) == {}
    ensures first.Some? ==> first.value in Pending(old(store.rows), app)
    ensures queued <==> scheduled && (first.None? || (old(store.rows)[first.value].at <= old(store.now)
                                                      && !unfinished && backup.Some?))
    ensures queued && first.None? ==> store.rows == old(store.rows)[id := Row(app, at, None)]
    ensures queued && first.Some? ==> Requeued(old(store.rows), store.rows, app, first.value, backup.value, id, at)
    ensures queued ==> Pending(store.rows, app) == {id} && id in store.rows && store.rows[id] == Row(app, at, None)
    ensures !queued ==> store.rows == old(store.rows)
    ensures |Pending(store.rows, app)| == 1 <==> queued || |Pending(old(store.rows), app)| == 1
  {
    steps, first, queued := [], None, false;
    if !scheduled {
      return;
    }
    var pending := store.ListPendingScheduledSnapshots(app);
    if |pending| == 0 {
      assert Pending(store.rows, app) == {};
      steps := HandleNone(store, app, id, at);
      queued := true;
      return;
    }
    first := Some(pending[0]);
    steps, queued := HandleListed(store, app, pending[0], |pending|, unfinished, backup, id, at);
  }

  /** `handleApp` when its listing has a first row, by what it leaves. */
  method HandleListed(store: SnapshotsStore, app: string, next: string, listed: nat, unfinished: bool,
                      backup: Option<string>, id: string, at: int)
    returns (ghost steps: seq<Step>, queued: bool)
    requires Idle(store.Abs()) && id !in store.used
    requires next in Pending(store.rows, app) && listed == |Pending(store.rows, app)|
    modifies store
    ensures Idle(store.Abs())
    ensures Runs(1, old(store.Abs()), steps) && store.Abs() == Exec(1, old(store.Abs()), steps)
    ensures queued <==> old(store.rows)[next].at <= old(store.now) && !unfinished && backup.Some?
    ensures queued ==> Requeued(old(store.rows), store.rows, app, next, backup.value, id, at)
    ensures !queued ==> store.Abs() == old(store.Abs())
  {
    ghost var s := store.Abs();
    steps, queued := HandlePending(store, app, next, listed, unfinished, backup, id, at);
    if queued {
      SoloLeavesOnePending(s, 0, app, next, backup.value, id, at);
    }
  }

  /** `handleApp` when its listing is empty. */
  method HandleNone(store: SnapshotsStore, app: string, id: string, at: int) returns (ghost steps: seq<Step>)
    requires Idle(store.Abs()) && id !in store.used && Pending(store.rows, app) == {}
    modifies store
    ensures Idle(store.Abs())
    ensures Runs(1, old(store.Abs()), steps) && store.Abs() == Exec(1, old(store.Abs()), steps)
    ensures store.rows == old(store.rows)[id := Row(app, at, None)] && id !in old(store.rows)
    ensures Pending(store.rows, app) == {id}
  {
    ghost var s := store.Abs();
    assert RunsOf(s, app) == {};
    ghost var s1 := Next(s, List(0, app, None));
    store.CreateScheduledSnapshot(app, id, at, None);
    assert s1.runs - {0} == s.runs;
    Append(1, s, [], List(0, app, None), s1);
    steps := [] + [List(0, app, None)];
    Append(1, s, steps, CreateFirst(0, id, at), store.Abs());
    steps := steps + [CreateFirst(0, id, at)];
  }

  /** The steps of a run whose backup throws. */
  lemma FailSolo(s: State, r: nat) returns (steps: seq<Step>)
    requires r in s.runs && s.runs[r].phase == Listed && s.runs[r].at <= s.now && s.runs[r].gone == {}
    requires s.runs[r].next in s.rows && NobodyHolds(s, r)
    ensures Runs(1, s, steps) && Exec(1, s, steps) == WithoutRun(s, r)
  {
    var run := s.runs[r];
    LockSolo(1, s, r, "");
    Overwrite(s, r, run.(phase := Locked), run);
    Append(1, s, [], Check(r, false), WithRun(s, r, run.(phase := Begun)));
    steps := [] + [Check(r, false)];
    Append(1, s, steps, Lock(r), WithRun(s, r, run.(phase := Locked)));
    steps := steps + [Lock(r)];
    Append(1, s, steps, Abort(r), WithoutRun(s, r));
    steps := steps + [Abort(r)];
  }

  /** `handleApp` from the moment its listing has a first row. */
  method HandlePending(store: SnapshotsStore, app: string, next: string, listed: nat, unfinished: bool,
                       backup: Option<string>, id: string, at: int)
    returns (ghost steps: seq<Step>, queued: bool)
    requires Idle(store.Abs()) && id !in store.used
    requires next in Pending(store.rows, app) && listed == |Pending(store.rows, app)|
    modifies store
    ensures Runs(1, old(store.Abs()), steps) && store.Abs() == Exec(1, old(store.Abs()), steps)
    ensures queued <==> old(store.rows)[next].at <= old(store.now) && !unfinished && backup.Some?
    ensures store.Abs() == if queued
                           then SoloState(WithRun(old(store.Abs()), 0, ListedRun(old(store.rows), app, next)),
                                          0, backup.value, id, at)
                           else old(store.Abs())
  {
    ghost var s := store.Abs();
    var run := ListedRun(store.rows, app, next).(listed := listed);
    ghost var s1 := WithRun(s, 0, run);
    assert RunsOf(s, app) == {};
    assert WithoutRun(s1, 0) == s;
    Append(1, s, [], List(0, app, Some(next)), s1);
    steps := [] + [List(0, app, Some(next))];
    queued := false;
    if run.at > store.now || unfinished {
      Append(1, s, steps, Check(0, unfinished), s);
      steps := steps + [Check(0, unfinished)];
      return;
    }
    store.runs := store.runs[0 := run.(phase := Begun)];
    Overwrite(s, 0, run.(phase := Begun), run);
    BackUpAndRequeue(store, 0, backup, id, at);
    ghost var rest: seq<Step>;
    if backup.None? {
      rest := FailSolo(s1, 0);
    } else {
      queued := true;
      rest := FinishSolo(1, s1, 0, backup.value, id, at);
    }
    Concat(1, s, steps, rest);
    steps := steps + rest;
  }
}

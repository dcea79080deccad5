/**
 The scheduled snapshot queue as a transition system.

 One table of rows is shared by any number of `handleApp` invocations. A run lists the pending
 rows of its application without a lock, checks that the first of them is due, and then works
 inside a transaction: it locks that row (skipping it when another transaction holds it), marks it
 with a backup name, deletes the other pending rows when its listing had more than one, queues the
 next row and commits. Statements see committed rows only, the writes of a transaction appear at
 its commit, and a row lock is kept until the transaction ends. The delete statement fixes its
 candidate rows when it starts and then takes them one at a time: it waits for a row that another
 transaction holds and tests the row again before deleting it.
 */
module SnapshotQueue {
  import opened Wrappers

  datatype Row = Row(app: string, at: int, backup: Option<string>)

  type Table = map<string, Row>

  /** How far a run of `handleApp` has come. `Locked` and everything after it is inside a transaction
      that holds a row. */
  datatype Phase = Empty | Listed | Begun | Locked | Marked | Deleting | Swept | Queued

  /** `next` and `at` are the first listed row and `listed` is the length of the listing. `seen` are
      the candidates of the delete statement, `todo` those it has not reached, `gone` those it has
      locked and deleted. `started` orders the delete statements of the whole system. */
  datatype Run = Run(app: string, phase: Phase, next: string, at: int, listed: nat,
                     mark: string, seen: set<string>, todo: set<string>, gone: set<string>,
                     started: nat, queued: string, queuedAt: int)

  datatype State = State(rows: Table, runs: map<nat, Run>, used: set<string>, deletes: nat, now: int)

  datatype Step =
    | List(r: nat, app: string, first: Option<string>)
    | CreateFirst(r: nat, id: string, at: int)
    | Check(r: nat, unfinished: bool)
    | Lock(r: nat)
    | Mark(r: nat, backup: string)
    | DeleteBegin(r: nat)
    | DeleteRow(r: nat, id: string)
    | DeleteEnd(r: nat)
    | Queue(r: nat, id: string, at: int)
    | Commit(r: nat)
    | Abort(r: nat)
    | Tick(time: int)

  // Observations

  ghost predicate IsPending(rows: Table, app: string, id: string) {
    id in rows && rows[id].app == app && rows[id].backup.None?
  }

  function Pending(rows: Table, app: string): set<string> {
    set id | id in rows && rows[id].app == app && rows[id].backup.None?
  }

  predicate InTransaction(run: Run) {
    run.phase !in {Empty, Listed, Begun}
  }

  /** The rows a run holds a lock on. */
  function Holds(run: Run): set<string> {
    (if InTransaction(run) then {run.next} else {}) + run.gone
  }

  predicate Free(s: State, id: string) {
    forall q | q in s.runs :: id !in Holds(s.runs[q])
  }

  function RunsOf(s: State, app: string): set<nat> {
    set r | r in s.runs && s.runs[r].app == app
  }

  // Steps

  function WithoutRun(s: State, r: nat): State {
    s.(runs := s.runs - {r})
  }

  function WithRun(s: State, r: nat, run: Run): State {
    s.(runs := s.runs[r := run])
  }

  /** The table after the writes of `run`: its row marked, its deletions gone, its new row there. */
  function Committed(rows: Table, run: Run): Table
    requires run.next in rows
  {
    (rows[run.next := rows[run.next].(backup := Some(run.mark))] - run.gone)
      [run.queued := Row(run.app, run.queuedAt, None)]
  }

  /** `n` bounds the number of concurrent invocations for one application. A failing statement, a
      deadlock or a lost connection is `Abort`, which is possible at any moment. */
  ghost predicate Enabled(n: nat, s: State, step: Step) {
    match step
    case List(r, app, first) =>
      && r !in s.runs && |RunsOf(s, app)| < n
      && (first.None? ==> Pending(s.rows, app) == {})
      && (first.Some? ==> first.value in Pending(s.rows, app))
    case Tick(time) => s.now <= time
    case _ =>
      && step.r in s.runs
      && var run := s.runs[step.r];
         match step
         case CreateFirst(_, id, _) => run.phase == Empty && id !in s.used
         case Check(_, _) => run.phase == Listed
         case Lock(_) => run.phase == Begun
         case Mark(_, _) => run.phase == Locked
         case DeleteBegin(_) => run.phase == Marked && run.listed > 1
         case DeleteRow(_, id) =>
           && run.phase == Deleting && id in run.todo
           && forall q | q in s.runs && q != step.r :: id !in Holds(s.runs[q])
         case DeleteEnd(_) => run.phase == Deleting && run.todo == {}
         case Queue(_, id, _) => id !in s.used && run.phase == if run.listed > 1 then Swept else Marked
         case Commit(_) => run.phase == Queued
         case _ => true
  }

  ghost function Next(s: State, step: Step): State
    requires step.List? || step.Tick? || step.r in s.runs
    requires step.Commit? ==> s.runs[step.r].next in s.rows
  {
    match step
    case List(r, app, None) =>
      WithRun(s, r, Run(app, Empty, "", 0, 0, "", {}, {}, {}, 0, "", 0))
    case List(r, app, Some(id)) =>
      if id in s.rows then
        WithRun(s, r, Run(app, Listed, id, s.rows[id].at, |Pending(s.rows, app)|, "", {}, {}, {}, 0, "", 0))
      else s
    case CreateFirst(r, id, at) =>
      WithoutRun(s, r).(rows := s.rows[id := Row(s.runs[r].app, at, None)], used := s.used + {id})
    case Check(r, unfinished) =>
      if s.runs[r].at > s.now || unfinished then WithoutRun(s, r)
      else WithRun(s, r, s.runs[r].(phase := Begun))
    case Lock(r) =>
      if s.runs[r].next in s.rows && Free(s, s.runs[r].next)
      then WithRun(s, r, s.runs[r].(phase := Locked))
      else WithoutRun(s, r)
    case Mark(r, backup) =>
      WithRun(s, r, s.runs[r].(phase := Marked, mark := backup))
    case DeleteBegin(r) =>
      var seen := Pending(s.rows, s.runs[r].app) - {s.runs[r].next};
      WithRun(s, r, s.runs[r].(phase := Deleting, seen := seen, todo := seen, started := s.deletes))
        .(deletes := s.deletes + 1)
    case DeleteRow(r, id) =>
      var run := s.runs[r];
      WithRun(s, r, run.(todo := run.todo - {id},
                         gone := if IsPending(s.rows, run.app, id) then run.gone + {id} else run.gone))
    case DeleteEnd(r) =>
      WithRun(s, r, s.runs[r].(phase := Swept))
    case Queue(r, id, at) =>
      WithRun(s, r, s.runs[r].(phase := Queued, queued := id, queuedAt := at)).(used := s.used + {id})
    case Commit(r) =>
      WithoutRun(s, r).(rows := Committed(s.rows, s.runs[r]))
    case Abort(r) => WithoutRun(s, r)
    case Tick(time) => s.(now := time)
  }

  // The invariant of the locking discipline

  ghost predicate RunOk(s: State, run: Run) {
    && (run.phase == Empty <==> run.listed == 0)
    && (run.phase != Empty ==> run.next in s.used)
    && (run.phase != Empty && run.next in s.rows ==>
          s.rows[run.next].app == run.app && s.rows[run.next].at == run.at)
    && (run.phase !in {Empty, Listed} ==> run.at <= s.now)
    && (InTransaction(run) ==> run.next in s.rows)
    && (run.phase !in {Deleting, Swept, Queued} ==> run.seen == {})
    && (run.phase != Deleting ==> run.todo == {})
    && (run.phase in {Deleting, Swept} ==> run.listed > 1)
    && (run.listed <= 1 ==> run.seen == {})
    && run.gone <= run.seen && run.todo <= run.seen && run.next !in run.seen
    && run.gone !! run.todo
    && (forall id | id in run.gone :: IsPending(s.rows, run.app, id))
    && (forall id | id in run.seen && IsPending(s.rows, run.app, id) :: id in run.todo || id in run.gone)
    && run.seen <= s.used
    && (Deletes(run) ==> run.started < s.deletes)
    && (run.phase == Queued ==> run.queued in s.used && run.queued !in s.rows && run.queued !in run.seen)
  }

  /** Whether a run's delete statement has fixed its candidates. */
  predicate Deletes(run: Run) {
    run.listed > 1 && run.phase in {Deleting, Swept, Queued}
  }

  /** What two runs in flight owe each other. */
  ghost predicate PairOk(a: Run, b: Run) {
    && Holds(a) !! Holds(b)
    && (Deletes(a) && Deletes(b) ==> a.started != b.started)
    && (a.phase == Queued ==>
          && a.queued !in b.seen
          && (b.phase != Empty ==> a.queued != b.next)
          && (b.phase == Queued ==> a.queued != b.queued))
  }

  ghost predicate Inv(s: State) {
    && s.rows.Keys <= s.used
    && (forall r | r in s.runs :: RunOk(s, s.runs[r]))
    && (forall q, r | q in s.runs && r in s.runs && q != r :: PairOk(s.runs[q], s.runs[r]))
  }

  ghost predicate Idle(s: State) {
    s.runs == map[] && s.rows.Keys <= s.used
  }

  lemma EndKeepsInv(s: State, r: nat)
    requires Inv(s) && r in s.runs
    ensures Inv(WithoutRun(s, r))
  {
    var s' := WithoutRun(s, r);
    forall q | q in s'.runs ensures RunOk(s', s'.runs[q]) {
      assert RunOk(s, s.runs[q]);
    }
  }

  /** A step that leaves the table alone and moves one run forward. */
  lemma ForwardKeepsInv(s: State, s': State, r: nat, run: Run)
    requires Inv(s) && s'.rows == s.rows && s'.runs == s.runs[r := run]
    requires s.used <= s'.used && s.now <= s'.now && s.deletes <= s'.deletes
    requires RunOk(s', run)
    requires forall q | q in s.runs && q != r :: PairOk(s.runs[q], run) && PairOk(run, s.runs[q])
    ensures Inv(s')
  {
    forall q | q in s'.runs ensures RunOk(s', s'.runs[q]) {
      if q != r {
        assert RunOk(s, s.runs[q]);
      }
    }
  }

  lemma ListKeepsInv(n: nat, s: State, step: Step)
    requires Inv(s) && Enabled(n, s, step) && step.List?
    ensures Inv(Next(s, step))
  {
    var s' := Next(s, step);
    if step.first.Some? {
      assert step.first.value in Pending(s.rows, step.app);
      assert |Pending(s.rows, step.app)| != 0;
    }
    ForwardKeepsInv(s, s', step.r, s'.runs[step.r]);
  }

  lemma MoveKeepsInv(n: nat, s: State, step: Step)
    requires Inv(s) && Enabled(n, s, step)
    requires step.Check? || step.Lock? || step.Mark? || step.DeleteEnd?
    ensures Inv(Next(s, step))
  {
    var s' := Next(s, step);
    assert RunOk(s, s.runs[step.r]);
    if step.r in s'.runs {
      forall q | q in s.runs && q != step.r
        ensures PairOk(s.runs[q], s'.runs[step.r]) && PairOk(s'.runs[step.r], s.runs[q])
      {
        assert PairOk(s.runs[q], s.runs[step.r]) && PairOk(s.runs[step.r], s.runs[q]);
      }
      ForwardKeepsInv(s, s', step.r, s'.runs[step.r]);
    } else {
      EndKeepsInv(s, step.r);
    }
  }

  lemma DeleteBeginKeepsInv(n: nat, s: State, step: Step)
    requires Inv(s) && Enabled(n, s, step) && step.DeleteBegin?
    ensures Inv(Next(s, step))
  {
    var s' := Next(s, step);
    var run := s'.runs[step.r];
    assert RunOk(s, s.runs[step.r]);
    forall q | q in s.runs && q != step.r
      ensures PairOk(s.runs[q], run) && PairOk(run, s.runs[q])
    {
      assert RunOk(s, s.runs[q]);
      assert PairOk(s.runs[q], s.runs[step.r]) && PairOk(s.runs[step.r], s.runs[q]);
    }
    ForwardKeepsInv(s, s', step.r, run);
  }

  lemma DeleteRowKeepsInv(n: nat, s: State, step: Step)
    requires Inv(s) && Enabled(n, s, step) && step.DeleteRow?
    ensures Inv(Next(s, step))
  {
    var s' := Next(s, step);
    var run := s'.runs[step.r];
    assert RunOk(s, s.runs[step.r]);
    forall q | q in s.runs && q != step.r
      ensures PairOk(s.runs[q], run) && PairOk(run, s.runs[q])
    {
      assert PairOk(s.runs[q], s.runs[step.r]) && PairOk(s.runs[step.r], s.runs[q]);
    }
    ForwardKeepsInv(s, s', step.r, run);
  }

  lemma QueueKeepsInv(n: nat, s: State, step: Step)
    requires Inv(s) && Enabled(n, s, step) && step.Queue?
    ensures Inv(Next(s, step))
  {
    var s' := Next(s, step);
    var run := s'.runs[step.r];
    assert RunOk(s, s.runs[step.r]);
    forall q | q in s.runs && q != step.r
      ensures PairOk(s.runs[q], run) && PairOk(run, s.runs[q])
    {
      assert RunOk(s, s.runs[q]);
      assert PairOk(s.runs[q], s.runs[step.r]) && PairOk(s.runs[step.r], s.runs[q]);
    }
    ForwardKeepsInv(s, s', step.r, run);
  }

  lemma CreateKeepsInv(n: nat, s: State, step: Step)
    requires Inv(s) && Enabled(n, s, step) && step.CreateFirst?
    ensures Inv(Next(s, step))
  {
    var s' := Next(s, step);
    forall q | q in s'.runs ensures RunOk(s', s'.runs[q]) {
      assert RunOk(s, s.runs[q]);
    }
  }

  /** A commit by `run` touches no row that another run holds and adds none that it knows. */
  lemma CommitIsLocal(s: State, run: Run, other: Run)
    requires RunOk(s, run) && RunOk(s, other) && PairOk(other, run) && PairOk(run, other)
    requires run.phase == Queued && s.rows.Keys <= s.used
    ensures var rows := Committed(s.rows, run);
            && (forall id | id in Holds(other) :: id in rows && rows[id] == s.rows[id])
            && (forall id, app | id in other.seen && IsPending(rows, app, id) :: IsPending(s.rows, app, id))
            && (other.phase != Empty && other.next in rows ==>
                  other.next in s.rows && rows[other.next].app == s.rows[other.next].app
                  && rows[other.next].at == s.rows[other.next].at)
            && (other.phase == Queued ==> other.queued !in rows)
  {
    forall id | id in Holds(other)
      ensures id in s.rows && id != run.next && id !in run.gone && id != run.queued
    {
      assert run.next in Holds(run);
      if id in other.gone { assert IsPending(s.rows, other.app, id); }
    }
  }

  lemma CommitKeepsInv(s: State, r: nat)
    requires Inv(s) && r in s.runs && s.runs[r].phase == Queued
    ensures Inv(WithoutRun(s, r).(rows := Committed(s.rows, s.runs[r])))
  {
    var run := s.runs[r];
    var s' := WithoutRun(s, r).(rows := Committed(s.rows, run));
    assert RunOk(s, run);
    forall q | q in s'.runs ensures RunOk(s', s'.runs[q]) {
      var other := s.runs[q];
      assert RunOk(s, other) && PairOk(other, run) && PairOk(run, other);
      CommitIsLocal(s, run, other);
    }
  }

  lemma TickKeepsInv(s: State, time: int)
    requires Inv(s) && s.now <= time
    ensures Inv(s.(now := time))
  {
    var s' := s.(now := time);
    forall q | q in s'.runs ensures RunOk(s', s'.runs[q]) {
      assert RunOk(s, s.runs[q]);
    }
  }

  /** Every step of every run keeps the locking discipline: no two open transactions hold one row,
      a deletion is of a row still pending and held by the deleter. */
  lemma StepKeepsInv(n: nat, s: State, step: Step)
    requires Inv(s) && Enabled(n, s, step)
    ensures Inv(Next(s, step))
  {
    match step
    case List(_, _, _) => ListKeepsInv(n, s, step);
    case Tick(time) => TickKeepsInv(s, time);
    case CreateFirst(_, _, _) => CreateKeepsInv(n, s, step);
    case DeleteBegin(_) => DeleteBeginKeepsInv(n, s, step);
    case DeleteRow(_, _) => DeleteRowKeepsInv(n, s, step);
    case Queue(_, _, _) => QueueKeepsInv(n, s, step);
    case Commit(_) => CommitKeepsInv(s, step.r);
    case Abort(_) => EndKeepsInv(s, step.r);
    case _ => MoveKeepsInv(n, s, step);
  }
}

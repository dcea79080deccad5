/**
 How many pending rows an application can have, and what happens to a handled row, over every
 interleaving of the queue protocol.
 */
module SnapshotBounds {
  import opened Wrappers
  import opened FiniteSets
  import opened SnapshotQueue

  // Executions

  /** Whether `steps` can be taken from `s` with at most `n` invocations at a time per application. */
  ghost predicate Runs(n: nat, s: State, steps: seq<Step>)
    decreases |steps|
  {
    steps == [] || (Enabled(n, s, steps[0]) && CanTake(s, steps[0]) && Runs(n, Next(s, steps[0]), steps[1..]))
  }

  ghost predicate CanTake(s: State, step: Step) {
    && (step.List? || step.Tick? || step.r in s.runs)
    && (step.Commit? ==> s.runs[step.r].next in s.rows)
  }

  ghost function Exec(n: nat, s: State, steps: seq<Step>): State
    requires Runs(n, s, steps)
    decreases |steps|
  {
    if steps == [] then s else Exec(n, Next(s, steps[0]), steps[1..])
  }

  /** The locking discipline holds in every reachable state, whatever the starting table: in particular no
      two open transactions ever hold the same row. */
  lemma {:induction false} ReachableKeepsInv(n: nat, s: State, steps: seq<Step>)
    requires Inv(s) && Runs(n, s, steps)
    ensures var s' := Exec(n, s, steps);
            Inv(s') && forall q, r | q in s'.runs && r in s'.runs && q != r :: Holds(s'.runs[q]) !! Holds(s'.runs[r])
    decreases |steps|
  {
    if steps != [] {
      StepKeepsInv(n, s, steps[0]);
      ReachableKeepsInv(n, Next(s, steps[0]), steps[1..]);
    } else {
      forall q, r | q in s.runs && r in s.runs && q != r ensures Holds(s.runs[q]) !! Holds(s.runs[r]) {
        assert PairOk(s.runs[q], s.runs[r]);
      }
    }
  }

  /** The run is in flight all the time. */
  ghost predicate InFlight(n: nat, s: State, steps: seq<Step>, r: nat)
    requires Runs(n, s, steps)
    decreases |steps|
  {
    r in s.runs && (steps == [] || InFlight(n, Next(s, steps[0]), steps[1..], r))
  }

  // The measure

  /** Runs whose listing had at most one row: each can still add one row to the queue. */
  function Short(s: State, app: string): set<nat> {
    set r | r in RunsOf(s, app) && s.runs[r].listed <= 1
  }

  /** Runs whose delete statement began before that of `r`. */
  function Earlier(s: State, r: nat): set<nat>
    requires r in s.runs
  {
    set q | q in RunsOf(s, s.runs[r].app) && Deletes(s.runs[q]) && s.runs[q].started < s.runs[r].started
  }

  /** Pending rows that the delete statement of `run` cannot remove. */
  function Unseen(s: State, run: Run): set<string> {
    Pending(s.rows, run.app) - run.seen - {run.next}
  }

  /** What bounds the queue: each pending row and each short run count once, and once a run's delete
      statement has begun the same holds for the rows it did not see, with one unit to spare for
      every run that began deleting before it. */
  ghost predicate Bound(n: nat, app: string, s: State) {
    && |RunsOf(s, app)| <= n
    && |Pending(s.rows, app)| + |Short(s, app)| <= n + 1
    && forall r | r in RunsOf(s, app) && Deletes(s.runs[r]) :: RunBound(n, s, r)
  }

  ghost predicate RunBound(n: nat, s: State, r: nat)
    requires r in s.runs
  {
    |Unseen(s, s.runs[r])| + |Short(s, s.runs[r].app)| + |Earlier(s, r)| <= n
  }

  /** Short runs, earlier deleters and the run itself are different runs. */
  lemma RunsAreCounted(s: State, r: nat)
    requires r in s.runs && Deletes(s.runs[r])
    ensures |Short(s, s.runs[r].app)| + |Earlier(s, r)| + 1 <= |RunsOf(s, s.runs[r].app)|
  {
    var app := s.runs[r].app;
    DisjointCardinality(Short(s, app), Earlier(s, r), RunsOf(s, app) - {r});
  }

  /** A step that leaves the table, the listings and the delete statements as they are. */
  lemma NeutralKeepsBound(n: nat, app: string, s: State, s': State)
    requires Bound(n, app, s) && s'.rows == s.rows && s'.runs.Keys <= s.runs.Keys
    requires forall q | q in s'.runs :: SameMeasure(s.runs[q], s'.runs[q])
    ensures Bound(n, app, s')
  {
    SubsetCardinality(RunsOf(s', app), RunsOf(s, app));
    SubsetCardinality(Short(s', app), Short(s, app));
    forall r | r in RunsOf(s', app) && Deletes(s'.runs[r]) ensures RunBound(n, s', r) {
      assert RunBound(n, s, r);
      SubsetCardinality(Earlier(s', r), Earlier(s, r));
      assert Unseen(s', s'.runs[r]) == Unseen(s, s.runs[r]);
    }
  }

  /** The sets of the measure when a run leaves. */
  lemma RunLeaves(s: State, s': State, app: string, r: nat)
    requires r in s.runs && s'.runs == s.runs - {r}
    ensures RunsOf(s', app) == RunsOf(s, app) - {r}
    ensures Short(s', app) == Short(s, app) - {r}
  {
  }

  lemma EarlierRunLeaves(s: State, s': State, r: nat, q: nat)
    requires r in s.runs && s'.runs == s.runs - {r} && q in s'.runs
    ensures Earlier(s', q) == Earlier(s, q) - {r}
  {
  }

  /** The sets of the measure when a run arrives or changes. */
  lemma RunMoves(s: State, s': State, app: string, r: nat, run: Run)
    requires s'.runs == s.runs[r := run]
    requires r in s.runs ==> s.runs[r].app == run.app && s.runs[r].listed == run.listed
    ensures RunsOf(s', app) == if run.app == app then RunsOf(s, app) + {r} else RunsOf(s, app)
    ensures Short(s', app) == if run.app == app && run.listed <= 1 then Short(s, app) + {r} else Short(s, app)
  {
    assert forall q | q in s.runs && q != r :: s'.runs[q] == s.runs[q];
    assert r in s.runs ==> (r in RunsOf(s, app) <==> run.app == app);
  }

  lemma RunChanges(s: State, s': State, app: string, r: nat, run: Run)
    requires r in s.runs && s'.runs == s.runs[r := run]
    requires s.runs[r].app == run.app && s.runs[r].listed == run.listed
    ensures RunsOf(s', app) == RunsOf(s, app) && Short(s', app) == Short(s, app)
  {
    RunMoves(s, s', app, r, run);
    assert r in RunsOf(s, app) <==> run.app == app;
    assert r in Short(s, app) <==> run.app == app && run.listed <= 1;
  }

  lemma EarlierRunMoves(s: State, s': State, r: nat, run: Run, q: nat)
    requires s'.runs == s.runs[r := run] && q in s.runs && q != r
    requires r in s.runs ==> s.runs[r].app == run.app && !Deletes(s.runs[r])
    requires Deletes(run) ==> s.runs[q].started < run.started
    ensures Earlier(s', q) == Earlier(s, q)
  {
    assert forall o | o in s.runs && o != r :: s'.runs[o] == s.runs[o];
  }

  /** A run enters with a short listing only while the application has at most one pending row. */
  lemma ListKeepsRunBound(n: nat, s: State, s': State, r: nat, run: Run, q: nat)
    requires r !in s.runs && s'.runs == s.runs[r := run] && s'.rows == s.rows && !Deletes(run)
    requires run.listed == |Pending(s.rows, run.app)|
    requires q in s.runs && Deletes(s.runs[q]) && RunBound(n, s, q)
    requires |RunsOf(s', s.runs[q].app)| <= n
    ensures RunBound(n, s', q)
  {
    var app := s.runs[q].app;
    RunMoves(s, s', app, r, run);
    EarlierRunMoves(s, s', r, run, q);
    RunsAreCounted(s', q);
    SubsetCardinality(Unseen(s, s.runs[q]), Pending(s.rows, app));
  }

  lemma ListKeepsBound(n: nat, app: string, s: State, s': State, r: nat, run: Run)
    requires Bound(n, app, s) && |RunsOf(s, run.app)| < n
    requires r !in s.runs && s'.runs == s.runs[r := run] && s'.rows == s.rows && !Deletes(run)
    requires run.listed == |Pending(s.rows, run.app)|
    ensures Bound(n, app, s')
  {
    RunMoves(s, s', app, r, run);
    SubsetCardinality(Short(s', app), RunsOf(s', app));
    forall q | q in RunsOf(s', app) && Deletes(s'.runs[q]) ensures RunBound(n, s', q) {
      assert RunBound(n, s, q);
      ListKeepsRunBound(n, s, s', r, run, q);
    }
  }

  lemma DeleteBeginKeepsRunBound(n: nat, s: State, s': State, r: nat, run: Run, q: nat)
    requires r in s.runs && q in s.runs && !Deletes(s.runs[r]) && q in s'.runs && Deletes(s'.runs[q])
    requires s'.rows == s.rows && s'.runs == s.runs[r := run]
    requires run.app == s.runs[r].app && run.listed == s.runs[r].listed
    requires run.seen == Pending(s.rows, run.app) - {run.next}
    requires |RunsOf(s, s.runs[q].app)| <= n
    requires q != r ==> RunBound(n, s, q) && s.runs[q].started < run.started
    ensures RunBound(n, s', q)
  {
    RunChanges(s, s', s.runs[q].app, r, run);
    if q == r {
      assert Unseen(s', run) == {};
      RunsAreCounted(s', q);
    } else {
      EarlierRunMoves(s, s', r, run, q);
    }
  }

  lemma DeleteBeginKeepsBound(n: nat, app: string, s: State, s': State, r: nat, run: Run)
    requires Inv(s) && Bound(n, app, s) && r in s.runs && s.runs[r].phase == Marked
    requires s'.rows == s.rows && s'.runs == s.runs[r := run]
    requires run.app == s.runs[r].app && run.listed == s.runs[r].listed
    requires run.seen == Pending(s.rows, run.app) - {run.next} && run.started == s.deletes
    ensures Bound(n, app, s')
  {
    RunChanges(s, s', app, r, run);
    forall q | q in RunsOf(s', app) && Deletes(s'.runs[q]) ensures RunBound(n, s', q) {
      assert RunOk(s, s.runs[q]);
      if q != r {
        assert RunBound(n, s, q);
      }
      DeleteBeginKeepsRunBound(n, s, s', r, run, q);
    }
  }

  lemma UnseenGrows(s: State, s': State, run: Run, id: string)
    requires Pending(s'.rows, run.app) <= Pending(s.rows, run.app) + {id}
    ensures |Unseen(s', run)| <= |Unseen(s, run)| + 1
  {
    OneMore(Unseen(s', run), Unseen(s, run), id);
  }

  /** A run with a short listing ends and leaves at most one pending row more. */
  lemma ShortEndKeepsBound(n: nat, app: string, s: State, s': State, r: nat, id: string)
    requires Bound(n, app, s) && r in s.runs && s.runs[r].app == app && s.runs[r].listed <= 1
    requires s'.runs == s.runs - {r}
    requires Pending(s'.rows, app) <= Pending(s.rows, app) + {id}
    ensures Bound(n, app, s')
  {
    RunLeaves(s, s', app, r);
    OneLess(Short(s', app), Short(s, app), r);
    OneMore(Pending(s'.rows, app), Pending(s.rows, app), id);
    SubsetCardinality(RunsOf(s', app), RunsOf(s, app));
    forall q | q in RunsOf(s', app) && Deletes(s'.runs[q]) ensures RunBound(n, s', q) {
      assert RunBound(n, s, q);
      EarlierRunLeaves(s, s', r, q);
      SubsetCardinality(Earlier(s', q), Earlier(s, q));
      UnseenGrows(s, s', s.runs[q], id);
    }
  }

  /** When the deleter `r` ends, a run that began deleting later has one unit less to spare. */
  lemma DeleterEndForLater(n: nat, s: State, s': State, r: nat, q: nat, id: string)
    requires r in s.runs && q in s.runs && s.runs[r].app == s.runs[q].app
    requires Deletes(s.runs[r]) && s.runs[r].started < s.runs[q].started
    requires RunBound(n, s, q) && s'.runs == s.runs - {r}
    requires Pending(s'.rows, s.runs[r].app) <= Unseen(s, s.runs[r]) + {id}
    ensures RunBound(n, s', q)
  {
    RunLeaves(s, s', s.runs[r].app, r);
    SubsetCardinality(Short(s', s.runs[r].app), Short(s, s.runs[r].app));
    EarlierRunLeaves(s, s', r, q);
    OneLess(Earlier(s', q), Earlier(s, q), r);
    UnseenGrows(s, s', s.runs[q], id);
  }

  /** A run that began deleting before `r` inherits the bound of `r`. */
  lemma DeleterEndForSooner(n: nat, s: State, s': State, r: nat, q: nat, id: string)
    requires r in s.runs && q in s.runs && s.runs[r].app == s.runs[q].app
    requires Deletes(s.runs[q]) && s.runs[q].started < s.runs[r].started
    requires RunBound(n, s, r) && s'.runs == s.runs - {r}
    requires Pending(s'.rows, s.runs[r].app) <= Unseen(s, s.runs[r]) + {id}
    ensures RunBound(n, s', q)
  {
    RunLeaves(s, s', s.runs[r].app, r);
    SubsetCardinality(Short(s', s.runs[r].app), Short(s, s.runs[r].app));
    EarlierRunLeaves(s, s', r, q);
    OneLess(Earlier(s', q), Earlier(s, r), q);
    OneMore(Unseen(s', s.runs[q]), Unseen(s, s.runs[r]), id);
  }

  /** A run that deleted ends: what stays pending is what it had not seen, and its new row. */
  lemma DeleterEndKeepsBound(n: nat, app: string, s: State, s': State, r: nat, id: string)
    requires Inv(s) && Bound(n, app, s) && r in s.runs && s.runs[r].app == app && Deletes(s.runs[r])
    requires s'.runs == s.runs - {r}
    requires Pending(s'.rows, app) <= Unseen(s, s.runs[r]) + {id}
    ensures Bound(n, app, s')
  {
    assert RunBound(n, s, r);
    RunLeaves(s, s', app, r);
    SubsetCardinality(Short(s', app), Short(s, app));
    SubsetCardinality(RunsOf(s', app), RunsOf(s, app));
    OneMore(Pending(s'.rows, app), Unseen(s, s.runs[r]), id);
    forall q | q in RunsOf(s', app) && Deletes(s'.runs[q]) ensures RunBound(n, s', q) {
      assert RunBound(n, s, q);
      assert PairOk(s.runs[q], s.runs[r]);
      if s.runs[r].started < s.runs[q].started {
        DeleterEndForLater(n, s, s', r, q, id);
      } else {
        DeleterEndForSooner(n, s, s', r, q, id);
      }
    }
  }

  /** Rows of other applications come and go without touching this one. */
  lemma ForeignEndKeepsBound(n: nat, app: string, s: State, s': State, r: nat)
    requires Bound(n, app, s) && r in s.runs && s.runs[r].app != app
    requires s'.runs == s.runs - {r}
    requires Pending(s'.rows, app) == Pending(s.rows, app)
    ensures Bound(n, app, s')
  {
    RunLeaves(s, s', app, r);
    assert r !in RunsOf(s, app) && r !in Short(s, app);
    forall q | q in RunsOf(s', app) && Deletes(s'.runs[q]) ensures RunBound(n, s', q) {
      assert RunBound(n, s, q);
      EarlierRunLeaves(s, s', r, q);
      assert r !in Earlier(s, q);
    }
  }

  /** The pending rows after a commit: the locked row and the deleted rows leave, one row comes. */
  lemma PendingAfterCommit(s: State, run: Run, app: string)
    requires RunOk(s, run) && run.phase == Queued
    ensures Pending(Committed(s.rows, run), app) ==
            if app == run.app then Pending(s.rows, app) - {run.next} - run.gone + {run.queued}
            else Pending(s.rows, app)
  {
    forall id | id in run.gone ensures id in s.rows && s.rows[id].app == run.app {
      assert IsPending(s.rows, run.app, id);
    }
    assert run.next in s.rows && s.rows[run.next].app == run.app;
  }

  /** Every candidate still pending when a deleter commits is among its deletions. */
  lemma DeleterLeavesUnseen(s: State, run: Run)
    requires RunOk(s, run) && run.phase == Queued
    ensures Pending(Committed(s.rows, run), run.app) <= Unseen(s, run) + {run.queued}
  {
    PendingAfterCommit(s, run, run.app);
    forall id | id in Pending(s.rows, run.app) && id != run.next && id !in run.gone ensures id !in run.seen {
      assert IsPending(s.rows, run.app, id);
    }
  }

  lemma CommitKeepsBound(n: nat, app: string, s: State, r: nat)
    requires Inv(s) && Bound(n, app, s) && r in s.runs && s.runs[r].phase == Queued
    requires RunOk(s, s.runs[r])
    ensures Bound(n, app, WithoutRun(s, r).(rows := Committed(s.rows, s.runs[r])))
  {
    var run := s.runs[r];
    var s' := WithoutRun(s, r).(rows := Committed(s.rows, run));
    PendingAfterCommit(s, run, app);
    if run.app != app {
      ForeignEndKeepsBound(n, app, s, s', r);
    } else if run.listed <= 1 {
      ShortEndKeepsBound(n, app, s, s', r, run.queued);
    } else {
      DeleterLeavesUnseen(s, run);
      DeleterEndKeepsBound(n, app, s, s', r, run.queued);
    }
  }

  lemma CreateKeepsBound(n: nat, app: string, s: State, s': State, r: nat, id: string, at: int)
    requires Bound(n, app, s) && r in s.runs && s.runs[r].listed <= 1 && id !in s.rows
    requires s'.runs == s.runs - {r} && s'.rows == s.rows[id := Row(s.runs[r].app, at, None)]
    ensures Bound(n, app, s')
  {
    if s.runs[r].app == app {
      ShortEndKeepsBound(n, app, s, s', r, id);
    } else {
      assert Pending(s'.rows, app) == Pending(s.rows, app);
      ForeignEndKeepsBound(n, app, s, s', r);
    }
  }

  /** The steps that leave the table alone and start neither a listing nor a delete statement. */
  predicate IsNeutral(step: Step) {
    step.Check? || step.Lock? || step.Mark? || step.DeleteRow? || step.DeleteEnd? || step.Queue? || step.Abort?
  }

  predicate SameMeasure(a: Run, b: Run) {
    && b.app == a.app && b.listed == a.listed && b.next == a.next && b.started == a.started
    && Deletes(b) == Deletes(a)
    && (Deletes(a) ==> b.seen == a.seen)
  }

  lemma NeutralRun(n: nat, s: State, step: Step)
    requires IsNeutral(step) && step.r in s.runs && RunOk(s, s.runs[step.r]) && Enabled(n, s, step)
    ensures var s' := Next(s, step);
            && s'.rows == s.rows
            && (s'.runs == s.runs - {step.r}
                || (step.r in s'.runs && s'.runs == s.runs[step.r := s'.runs[step.r]]
                    && SameMeasure(s.runs[step.r], s'.runs[step.r])))
  {
  }

  lemma NeutralStepKeepsBound(n: nat, app: string, s: State, step: Step)
    requires IsNeutral(step) && step.r in s.runs && RunOk(s, s.runs[step.r])
    requires Bound(n, app, s) && Enabled(n, s, step)
    ensures Bound(n, app, Next(s, step))
  {
    NeutralRun(n, s, step);
    NeutralKeepsBound(n, app, s, Next(s, step));
  }

  lemma StepKeepsBound(n: nat, app: string, s: State, step: Step)
    requires Inv(s) && Bound(n, app, s) && Enabled(n, s, step)
    ensures Bound(n, app, Next(s, step))
  {
    var s' := Next(s, step);
    match step
    case List(r, a, first) =>
      assert first.Some? ==> first.value in Pending(s.rows, a);
      ListKeepsBound(n, app, s, s', r, s'.runs[r]);
    case DeleteBegin(r) =>
      forall q | q in s.runs && Deletes(s.runs[q]) ensures s.runs[q].started < s.deletes {
        assert RunOk(s, s.runs[q]);
      }
      DeleteBeginKeepsBound(n, app, s, s', r, s'.runs[r]);
    case Commit(r) =>
      assert RunOk(s, s.runs[r]);
      CommitKeepsBound(n, app, s, r);
    case CreateFirst(r, id, at) =>
      assert RunOk(s, s.runs[r]);
      CreateKeepsBound(n, app, s, s', r, id, at);
    case Tick(_) => NeutralKeepsBound(n, app, s, s');
    case _ =>
      assert RunOk(s, s.runs[step.r]);
      NeutralStepKeepsBound(n, app, s, step);
  }

  /** Main result: with at most `n` concurrent invocations and at most one pending row to begin
      with, no interleaving gives an application more than `n + 1` pending rows. */
  lemma {:induction false} AtMostOneMoreThanRuns(n: nat, app: string, s: State, steps: seq<Step>)
    requires Inv(s) && Bound(n, app, s) && Runs(n, s, steps)
    ensures Inv(Exec(n, s, steps)) && Bound(n, app, Exec(n, s, steps))
    ensures |Pending(Exec(n, s, steps).rows, app)| <= n + 1
    decreases |steps|
  {
    if steps != [] {
      StepKeepsInv(n, s, steps[0]);
      StepKeepsBound(n, app, s, steps[0]);
      AtMostOneMoreThanRuns(n, app, Next(s, steps[0]), steps[1..]);
    }
  }

  lemma IdleIsBounded(n: nat, app: string, s: State)
    requires Idle(s) && |Pending(s.rows, app)| <= 1
    ensures Inv(s) && Bound(n, app, s)
  {
    assert RunsOf(s, app) == {} && Short(s, app) == {};
  }
}

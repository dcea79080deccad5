/**
 The version history of an application: sequence numbers, update cursors, configuration values and the
 current pointer, under the steps that make versions.
 */
module VersionHistory {
  import opened ConfigRequest

  datatype Version = Version(cursor: int, config: Config)

  datatype App = App(versions: map<nat, Version>, current: nat)

  /** How one `updateAppConfig` ends: before or after it has created its version, or well. */
  datatype Outcome = NotCreated | CreatedThenFailed | Done

  /** `captured` is the sequence that the step read when it began. A `Config` step carries the answer of
      `getLaterVersions` and the outcome of each `updateAppConfig`. */
  datatype Step =
    | Config(values: Config, latest: nat, later: seq<nat>, primary: Outcome, outcomes: seq<Outcome>)
    | ConfigInPlace(sequence: nat, values: Config)
    | LicenseChange(captured: nat)
    | RegistryChange(captured: nat)
    | AirgapUpload(captured: nat, cursor: int)

  // Numbering and the greatest cursor

  ghost predicate Numbered(app: App) {
    forall k: nat :: k in app.versions <==> k <= app.current
  }

  /** The current version carries the greatest cursor. */
  ghost predicate Greatest(app: App) {
    app.current in app.versions
    && forall k :: k in app.versions ==> app.versions[k].cursor <= app.versions[app.current].cursor
  }

  ghost predicate IsNewestOf(app: App, k: nat, cursor: int) {
    && k in app.versions && app.versions[k].cursor == cursor
    && forall j :: j in app.versions && app.versions[j].cursor == cursor ==> j <= k
  }

  /** What `getLaterVersions` answers for a version with the cursor of `latest`. */
  ghost predicate IsReplayList(app: App, latest: nat, later: seq<nat>) {
    && latest in app.versions && IsNewestOf(app, latest, app.versions[latest].cursor)
    && (forall i :: 0 <= i < |later| ==>
          later[i] in app.versions && IsNewestOf(app, later[i], app.versions[later[i]].cursor)
          && app.versions[later[i]].cursor > app.versions[latest].cursor)
    && (forall i, j :: 0 <= i < j < |later| ==> app.versions[later[i]].cursor < app.versions[later[j]].cursor)
    && (forall k :: k in app.versions && app.versions[k].cursor > app.versions[latest].cursor ==>
          Replays(app, later, app.versions[k].cursor))
  }

  ghost predicate Replays(app: App, later: seq<nat>, cursor: int) {
    exists i :: 0 <= i < |later| && later[i] in app.versions && app.versions[later[i]].cursor == cursor
  }

  // Making versions

  /** `createVersion` on a numbered history: the next sequence, which becomes the current one. */
  function Create(app: App, v: Version): App {
    App(app.versions[app.current + 1 := v], app.current + 1)
  }

  function CreateAll(app: App, vs: seq<Version>): App
    decreases |vs|
  {
    if vs == [] then app else CreateAll(Create(app, vs[0]), vs[1..])
  }

  /** The request's values replace those of the version, which keeps the others. */
  function Edited(v: Version, values: Config): Version {
    v.(config := v.config + values)
  }

  /** `after` is `before` with the values of a request: these replace, other names keep theirs, no other
      name appears, and the cursor stays. */
  ghost predicate HasValues(before: Version, after: Version, values: Config) {
    && after.cursor == before.cursor
    && (forall name :: name in after.config <==> name in before.config || name in values)
    && (forall name :: name in values ==> name in after.config && after.config[name] == values[name])
    && (forall name :: name in before.config && name !in values ==>
          name in after.config && after.config[name] == before.config[name])
  }

  /** The version right after `app` is `latest` with the values of a request. */
  ghost predicate MakesEdited(app: App, app': App, latest: nat, values: Config) {
    latest in app.versions && app.current + 1 in app'.versions
    && HasValues(app.versions[latest], app'.versions[app.current + 1], values)
  }

  lemma EditedHasValues(v: Version, values: Config)
    ensures HasValues(v, Edited(v, values), values)
  {
  }

  /** The versions that the replay creates, oldest first. */
  function Replay(app: App, later: seq<nat>, outcomes: seq<Outcome>, values: Config): seq<Version>
    requires |outcomes| == |later| && forall i :: 0 <= i < |later| ==> later[i] in app.versions
  {
    if later == [] then []
    else (if outcomes[0].NotCreated? then [] else [Edited(app.versions[later[0]], values)])
         + Replay(app, later[1..], outcomes[1..], values)
  }

  ghost predicate Enabled(app: App, step: Step) {
    match step
    case Config(_, latest, later, _, outcomes) => IsReplayList(app, latest, later) && |outcomes| == |later|
    case ConfigInPlace(sequence, _) => sequence in app.versions
    case LicenseChange(captured) => captured in app.versions
    case RegistryChange(captured) => captured in app.versions
    case AirgapUpload(captured, cursor) => captured in app.versions && app.versions[captured].cursor < cursor
  }

  /** The versions a step creates. Later versions are only replayed when the first update went well; a
      failed replay is logged and skipped. */
  ghost function Created(app: App, step: Step): seq<Version>
    requires Enabled(app, step)
  {
    match step
    case Config(values, latest, later, primary, outcomes) =>
      if primary.NotCreated? then []
      else [Edited(app.versions[latest], values)]
           + (if primary.Done? then Replay(app, later, outcomes, values) else [])
    case ConfigInPlace(_, _) => []
    case LicenseChange(captured) => [app.versions[captured]]
    case RegistryChange(captured) => [app.versions[captured]]
    case AirgapUpload(captured, cursor) => [app.versions[captured].(cursor := cursor)]
  }

  ghost function Next(app: App, step: Step): App
    requires Enabled(app, step)
  {
    match step
    case ConfigInPlace(sequence, values) =>
      app.(versions := app.versions[sequence := Edited(app.versions[sequence], values)])
    case _ => CreateAll(app, Created(app, step))
  }

  lemma {:induction false} CreateAllShape(app: App, vs: seq<Version>)
    requires Numbered(app)
    ensures var app' := CreateAll(app, vs);
            && Numbered(app') && app'.current == app.current + |vs|
            && (forall k: nat :: k <= app.current ==> app'.versions[k] == app.versions[k])
            && (forall i :: 0 <= i < |vs| ==> app'.versions[app.current + 1 + i] == vs[i])
    decreases |vs|
  {
    if vs != [] {
      var app1 := Create(app, vs[0]);
      CreateAllShape(app1, vs[1..]);
      var app' := CreateAll(app, vs);
      forall i | 0 <= i < |vs| ensures app'.versions[app.current + 1 + i] == vs[i] {
        if i == 0 {
          assert app'.versions[app1.current] == app1.versions[app1.current];
        } else {
          assert app'.versions[app1.current + 1 + (i - 1)] == vs[1..][i - 1];
        }
      }
    }
  }

  /** Every step keeps the numbering 0..n without gaps with the current pointer at n, whatever fails
      in it and however old its captured sequence is. */
  lemma StepKeepsNumbering(app: App, step: Step)
    requires Numbered(app) && Enabled(app, step)
    ensures Numbered(Next(app, step)) && Next(app, step).current >= app.current
  {
    if !step.ConfigInPlace? {
      CreateAllShape(app, Created(app, step));
    }
  }

  /** After creating `vs`, the current version is greatest exactly when the last of them is. */
  lemma CreateAllGreatestIff(app: App, vs: seq<Version>)
    requires Numbered(app) && Greatest(app)
    ensures Greatest(CreateAll(app, vs)) <==>
            vs == [] || (&& app.versions[app.current].cursor <= vs[|vs| - 1].cursor
                         && forall i :: 0 <= i < |vs| ==> vs[i].cursor <= vs[|vs| - 1].cursor)
  {
    CreateAllShape(app, vs);
    var app' := CreateAll(app, vs);
    if vs != [] {
      assert app'.versions[app.current + 1 + (|vs| - 1)] == vs[|vs| - 1];
      forall i | 0 <= i < |vs| ensures app'.versions[app.current + 1 + i] == vs[i] {}
      if app.versions[app.current].cursor <= vs[|vs| - 1].cursor
         && (forall i :: 0 <= i < |vs| ==> vs[i].cursor <= vs[|vs| - 1].cursor) {
        forall k | k in app'.versions ensures app'.versions[k].cursor <= app'.versions[app'.current].cursor {
          if k > app.current {
            assert app'.versions[k] == vs[k - app.current - 1];
          }
        }
      }
    }
  }

  /** The replayed cursors, when `top` is that of the last version to replay and the others are below. */
  lemma {:induction false} ReplayCursors(app: App, later: seq<nat>, outcomes: seq<Outcome>, values: Config, top: int)
    requires |outcomes| == |later| && forall i :: 0 <= i < |later| ==> later[i] in app.versions
    requires forall i :: 0 <= i < |later| - 1 ==> app.versions[later[i]].cursor < top
    requires later != [] ==> app.versions[later[|later| - 1]].cursor == top
    ensures var vs := Replay(app, later, outcomes, values);
            && (forall v :: v in vs ==> v.cursor <= top)
            && (later != [] && !outcomes[|later| - 1].NotCreated? ==> vs != [] && vs[|vs| - 1].cursor == top)
            && (later != [] && outcomes[|later| - 1].NotCreated? ==> forall v :: v in vs ==> v.cursor < top)
    decreases |later|
  {
    if later != [] {
      ReplayCursors(app, later[1..], outcomes[1..], values, top);
    }
  }

  // When a step keeps the greatest cursor current

  /** What a caller could check: a captured sequence still has the greatest cursor, or the upload goes
      beyond it; a config change creates nothing, has nothing to replay, or gets its last replay done. */
  ghost predicate KeepsUp(app: App, step: Step)
    requires Enabled(app, step) && app.current in app.versions
  {
    var greatest := app.versions[app.current].cursor;
    match step
    case Config(_, _, later, primary, outcomes) =>
      || primary.NotCreated? || later == []
      || (primary.Done? && !outcomes[|later| - 1].NotCreated?)
    case ConfigInPlace(_, _) => true
    case LicenseChange(captured) => app.versions[captured].cursor == greatest
    case RegistryChange(captured) => app.versions[captured].cursor == greatest
    case AirgapUpload(_, cursor) => greatest <= cursor
  }

  lemma AboveGreatest(app: App, k: nat)
    requires Greatest(app) && k in app.versions
    ensures app.versions[k].cursor <= app.versions[app.current].cursor
  {
  }

  lemma LaterAscends(app: App, latest: nat, later: seq<nat>, i: nat)
    requires IsReplayList(app, latest, later) && i < |later|
    ensures app.versions[later[i]].cursor <= app.versions[later[|later| - 1]].cursor
  {
  }

  /** Without a later cursor the edited version has the greatest one; with some, the last of them has. */
  lemma LastReplayIsGreatest(app: App, latest: nat, later: seq<nat>)
    requires Numbered(app) && Greatest(app) && IsReplayList(app, latest, later)
    ensures app.versions[if later == [] then latest else later[|later| - 1]].cursor == app.versions[app.current].cursor
    ensures later != [] ==> app.versions[latest].cursor < app.versions[app.current].cursor
  {
    var greatest := app.versions[app.current].cursor;
    AboveGreatest(app, latest);
    if later != [] {
      AboveGreatest(app, later[0]);
      assert app.versions[latest].cursor < app.versions[later[0]].cursor;
    }
    if app.versions[latest].cursor < greatest {
      assert Replays(app, later, greatest);
      var i :| 0 <= i < |later| && later[i] in app.versions && app.versions[later[i]].cursor == greatest;
      var last := later[|later| - 1];
      AboveGreatest(app, last);
      LaterAscends(app, latest, later, i);
    }
  }

  lemma ConfigGreatestIff(app: App, step: Step)
    requires Numbered(app) && Greatest(app) && Enabled(app, step) && step.Config?
    ensures Greatest(Next(app, step)) <==> KeepsUp(app, step)
  {
    var vs := Created(app, step);
    var later, outcomes, values := step.later, step.outcomes, step.values;
    var greatest := app.versions[app.current].cursor;
    CreateAllGreatestIff(app, vs);
    LastReplayIsGreatest(app, step.latest, later);
    ReplayCursors(app, later, outcomes, values, greatest);
    if vs != [] && step.primary.Done? {
      assert vs == [Edited(app.versions[step.latest], values)] + Replay(app, later, outcomes, values);
      assert vs[|vs| - 1] in vs;
      forall i | 0 <= i < |vs| ensures vs[i].cursor <= greatest {
        assert vs[i] in vs;
      }
    }
  }

  /** The greatest cursor stays current exactly when the step keeps up. */
  lemma StepKeepsGreatestIff(app: App, step: Step)
    requires Numbered(app) && Greatest(app) && Enabled(app, step)
    ensures Greatest(Next(app, step)) <==> KeepsUp(app, step)
  {
    if step.Config? {
      ConfigGreatestIff(app, step);
    } else if !step.ConfigInPlace? {
      CreateAllGreatestIff(app, Created(app, step));
    }
  }

  // Runs of completed steps

  /** A step that reads the current version when it begins and whose updates all succeed. */
  ghost predicate Completed(app: App, step: Step) {
    && Enabled(app, step)
    && match step
       case Config(_, _, _, primary, outcomes) => primary.Done? && forall o :: o in outcomes ==> o.Done?
       case ConfigInPlace(_, _) => true
       case LicenseChange(captured) => captured == app.current
       case RegistryChange(captured) => captured == app.current
       case AirgapUpload(captured, _) => captured == app.current
  }

  ghost predicate Runs(app: App, steps: seq<Step>)
    decreases |steps|
  {
    steps == [] || (Completed(app, steps[0]) && Runs(Next(app, steps[0]), steps[1..]))
  }

  ghost function Exec(app: App, steps: seq<Step>): App
    requires Runs(app, steps)
    decreases |steps|
  {
    if steps == [] then app else Exec(Next(app, steps[0]), steps[1..])
  }

  /** `CreateFirstVersion`. */
  function First(v: Version): App {
    App(map[0 := v], 0)
  }

  lemma CompletedKeepsUp(app: App, step: Step)
    requires Completed(app, step) && app.current in app.versions
    ensures KeepsUp(app, step)
  {
    if step.Config? && step.later != [] {
      assert step.outcomes[|step.later| - 1] in step.outcomes;
    }
  }

  lemma CompletedKeepsInvariants(app: App, step: Step)
    requires Numbered(app) && Greatest(app) && Completed(app, step)
    ensures Numbered(Next(app, step)) && Greatest(Next(app, step))
  {
    CompletedKeepsUp(app, step);
    StepKeepsNumbering(app, step);
    StepKeepsGreatestIff(app, step);
  }

  lemma {:induction false} RunKeepsInvariants(app: App, steps: seq<Step>)
    requires Numbered(app) && Greatest(app) && Runs(app, steps)
    ensures Numbered(Exec(app, steps)) && Greatest(Exec(app, steps))
    decreases |steps|
  {
    if steps != [] {
      CompletedKeepsInvariants(app, steps[0]);
      RunKeepsInvariants(Next(app, steps[0]), steps[1..]);
    }
  }

  /** After a first version and any run of completed steps, versions are numbered 0..n, n is current and
      version n carries the greatest cursor. */
  lemma RunFromFirstVersion(v: Version, steps: seq<Step>)
    requires Runs(First(v), steps)
    ensures Numbered(Exec(First(v), steps)) && Greatest(Exec(First(v), steps))
  {
    RunKeepsInvariants(First(v), steps);
  }

  /** The replay makes one version for each later one that does not fail before it is created, in their
      order, each with the request's values. */
  lemma {:induction false} ReplayPlaces(app: App, later: seq<nat>, outcomes: seq<Outcome>, values: Config, i: nat)
    requires |outcomes| == |later| && forall j :: 0 <= j < |later| ==> later[j] in app.versions
    requires i < |later|
    ensures |Replay(app, later, outcomes, values)| == CreatedCount(outcomes)
    ensures !outcomes[i].NotCreated? ==>
              CreatedCount(outcomes[..i]) < CreatedCount(outcomes) &&
              HasValues(app.versions[later[i]], Replay(app, later, outcomes, values)[CreatedCount(outcomes[..i])], values)
    decreases |later|
  {
    EditedHasValues(app.versions[later[0]], values);
    if i > 0 {
      ReplayPlaces(app, later[1..], outcomes[1..], values, i - 1);
      assert outcomes[..i][1..] == outcomes[1..][..i - 1];
    } else if |later| > 1 {
      ReplayPlaces(app, later[1..], outcomes[1..], values, 0);
    } else {
      assert outcomes[1..] == [];
    }
  }

  function CreatedCount(outcomes: seq<Outcome>): nat {
    if outcomes == [] then 0 else (if outcomes[0].NotCreated? then 0 else 1) + CreatedCount(outcomes[1..])
  }

  // A config change reaches every later cursor

  lemma {:induction false} FullReplay(app: App, later: seq<nat>, outcomes: seq<Outcome>, values: Config)
    requires |outcomes| == |later| && forall i :: 0 <= i < |later| ==> later[i] in app.versions
    requires forall o :: o in outcomes ==> o.Done?
    ensures var vs := Replay(app, later, outcomes, values);
            |vs| == |later| && forall i :: 0 <= i < |later| ==> vs[i] == Edited(app.versions[later[i]], values)
    decreases |later|
  {
    if later != [] {
      assert outcomes[0] in outcomes;
      FullReplay(app, later[1..], outcomes[1..], values);
      var vs, rest := Replay(app, later, outcomes, values), Replay(app, later[1..], outcomes[1..], values);
      forall i | 0 <= i < |later| ensures vs[i] == Edited(app.versions[later[i]], values) {
        if i > 0 { assert vs[i] == rest[i - 1] && later[1..][i - 1] == later[i]; }
      }
    }
  }

  /** Appending versions with distinct cursors: each becomes the newest of its cursor, and the newest of
      any other cursor stays. */
  lemma NewestAfterCreateAll(app: App, vs: seq<Version>, k: nat, cursor: int)
    requires Numbered(app) && IsNewestOf(app, k, cursor)
    requires forall i, j :: 0 <= i < j < |vs| ==> vs[i].cursor != vs[j].cursor
    ensures var app' := CreateAll(app, vs);
            && (forall i :: 0 <= i < |vs| && vs[i].cursor == cursor ==> IsNewestOf(app', app.current + 1 + i, cursor))
            && ((forall i :: 0 <= i < |vs| ==> vs[i].cursor != cursor) ==> IsNewestOf(app', k, cursor))
  {
    CreateAllShape(app, vs);
    var app' := CreateAll(app, vs);
    forall j | j in app'.versions && j > app.current ensures app'.versions[j] == vs[j - app.current - 1] {}
  }

  /** What a completed config change appends: the edited version, then each later one in order. */
  lemma CompletedCreates(app: App, step: Step)
    requires Numbered(app) && Completed(app, step) && step.Config?
    ensures var vs := Created(app, step);
            && Next(app, step) == CreateAll(app, vs) && step.latest in app.versions
            && |vs| == |step.later| + 1 && vs[0] == Edited(app.versions[step.latest], step.values)
            && forall i :: 0 <= i < |step.later| ==>
                 step.later[i] in app.versions && vs[i + 1] == Edited(app.versions[step.later[i]], step.values)
  {
    FullReplay(app, step.later, step.outcomes, step.values);
    var rest := Replay(app, step.later, step.outcomes, step.values);
    assert Created(app, step) == [Edited(app.versions[step.latest], step.values)] + rest;
  }

  lemma CreatedCursorsDiffer(app: App, step: Step, i: nat, j: nat)
    requires Numbered(app) && Completed(app, step) && step.Config?
    requires i < j < |Created(app, step)|
    ensures Created(app, step)[i].cursor < Created(app, step)[j].cursor
  {
    CompletedCreates(app, step);
    if i > 0 {
      assert app.versions[step.later[i - 1]].cursor < app.versions[step.later[j - 1]].cursor;
    }
  }

  /** The place of the copy of the newest version of a cursor that is not an earlier one. */
  lemma CreatedAt(app: App, step: Step, k: nat) returns (i: nat)
    requires Numbered(app) && Completed(app, step) && step.Config?
    requires k in app.versions && IsNewestOf(app, k, app.versions[k].cursor)
    requires step.latest in app.versions && app.versions[k].cursor >= app.versions[step.latest].cursor
    ensures i < |Created(app, step)| && Created(app, step)[i] == Edited(app.versions[k], step.values)
  {
    var cursor := app.versions[k].cursor;
    CompletedCreates(app, step);
    if cursor == app.versions[step.latest].cursor {
      assert k == step.latest;
      i := 0;
    } else {
      assert Replays(app, step.later, cursor);
      var j: nat :| j < |step.later| && step.later[j] in app.versions && app.versions[step.later[j]].cursor == cursor;
      assert step.later[j] == k;
      i := j + 1;
    }
  }

  /** After a completed config change, the newest version of the edited cursor and of every later one has
      the new values over its own, and earlier cursors keep their newest version. */
  lemma ConfigReachesLaterCursors(app: App, step: Step, k: nat)
    requires Numbered(app) && Completed(app, step) && step.Config?
    requires k in app.versions && IsNewestOf(app, k, app.versions[k].cursor)
    ensures var app' := Next(app, step);
            var cursor := app.versions[k].cursor;
            exists k' :: IsNewestOf(app', k', cursor) &&
                         if cursor < app.versions[step.latest].cursor then app'.versions[k'] == app.versions[k]
                         else HasValues(app.versions[k], app'.versions[k'], step.values)
  {
    var vs := Created(app, step);
    var app' := Next(app, step);
    var cursor := app.versions[k].cursor;
    CompletedCreates(app, step);
    forall i, j | 0 <= i < j < |vs| ensures vs[i].cursor != vs[j].cursor {
      CreatedCursorsDiffer(app, step, i, j);
    }
    NewestAfterCreateAll(app, vs, k, cursor);
    CreateAllShape(app, vs);
    if cursor < app.versions[step.latest].cursor {
      forall i | 0 <= i < |vs| ensures vs[i].cursor != cursor {
        if i > 0 { CreatedCursorsDiffer(app, step, 0, i); }
      }
      assert IsNewestOf(app', k, cursor);
    } else {
      var i := CreatedAt(app, step, k);
      EditedHasValues(app.versions[k], step.values);
      assert app'.versions[app.current + 1 + i] == vs[i];
      assert IsNewestOf(app', app.current + 1 + i, cursor);
    }
  }

  /** A failing replay of the greatest cursor is only logged, and leaves an older cursor current. */
  lemma FailedReplayLeavesOldCursor()
    ensures var app := App(map[0 := Version(1, map[]), 1 := Version(2, map[])], 1);
            var step := Config(map["a" := "b"], 0, [1], Done, [NotCreated]);
            && Numbered(app) && Greatest(app) && Enabled(app, step)
            && var app' := Next(app, step);
               Numbered(app') && !Greatest(app') && app'.current == 2 && app'.versions[2].cursor == 1
  {
    var app := App(map[0 := Version(1, map[]), 1 := Version(2, map[])], 1);
    var step := Config(map["a" := "b"], 0, [1], Done, [NotCreated]);
    assert Replays(app, [1], 2) by { assert [1][0] in app.versions; }
    assert Enabled(app, step);
    assert Replay(app, [1], [NotCreated], step.values) == [];
    assert Created(app, step) == [Edited(app.versions[0], step.values)];
    CreateAllShape(app, Created(app, step));
    StepKeepsNumbering(app, step);
    StepKeepsGreatestIff(app, step);
    assert Next(app, step).versions[app.current + 1 + 0] == Edited(app.versions[0], step.values);
  }
}

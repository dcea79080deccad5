/**
 The code that makes versions: `createVersion` and its callers, over the rows of one application.
 */
module AppStore {
  import opened Wrappers
  import opened FiniteSets
  import opened LaterVersions
  import opened VersionHistory
  import opened ConfigRequest
  import opened ConfigSecrets

  class AppStore {
    var versions: map<nat, Version>
    var current: nat

    /** `CreateFirstVersion` on a new application. */
    constructor (v: Version)
      ensures Abs() == First(v) && Numbered(Abs())
    {
      versions, current := map[0 := v], 0;
    }

    function Abs(): App
      reads this
    {
      App(versions, current)
    }

    /** `select max(sequence)`. */
    method MaxSequence() returns (max: nat)
      requires Numbered(Abs())
      ensures max == current
    {
      max := 0;
      var rest := versions.Keys;
      while rest != {}
        invariant rest <= versions.Keys
        invariant max in versions && forall k :: k in versions && k !in rest ==> k <= max
        decreases |rest|
      {
        ghost var some := Member(rest);
        var k :| k in rest;
        rest := rest - {k};
        if max < k { max := k; }
      }
      assert current in versions;
    }

    /** The new sequence follows the greatest one in the table, whatever the caller thinks is current. */
    method CreateVersion(v: Version) returns (sequence: nat)
      requires Numbered(Abs())
      modifies this
      ensures Abs() == Create(old(Abs()), v) && sequence == current
      ensures versions == old(versions)[old(current) + 1 := v] && current == old(current) + 1
      ensures Numbered(Abs())
    {
      var max := MaxSequence();
      sequence := max + 1;
      versions := versions[sequence := v];
      current := sequence;
    }

    /** The rows of the version table in the order the query gives them. */
    method GetVersions() returns (rows: seq<AppVersion>)
      ensures UniqueSequences(rows) && RowsOf(Abs(), rows)
    {
      rows := [];
      var rest := versions.Keys;
      while rest != {}
        invariant rest <= versions.Keys
        invariant UniqueSequences(rows)
        invariant forall v :: v in rows <==> v.sequence in versions.Keys - rest && versions[v.sequence].cursor == v.cursor
        decreases |rest|
      {
        ghost var some := Member(rest);
        var k :| k in rest;
        rest := rest - {k};
        rows := rows + [AppVersion(k, versions[k].cursor)];
      }
    }
  }

  ghost predicate RowsOf(app: App, rows: seq<AppVersion>) {
    forall v :: v in rows <==> v.sequence in app.versions && app.versions[v.sequence].cursor == v.cursor
  }

  function Sequences(later: seq<AppVersion>): (s: seq<nat>)
    requires forall v :: v in later ==> v.sequence >= 0
    ensures |s| == |later| && forall i :: 0 <= i < |later| ==> s[i] == later[i].sequence
  {
    if later == [] then []
    else
      assert later[0] in later;
      [later[0].sequence] + Sequences(later[1..])
  }

  /** The answer of `getLaterVersions` on the rows is a replay list of the history. */
  lemma LaterIsReplayList(app: App, rows: seq<AppVersion>, latest: nat, cursor: int, later: seq<AppVersion>)
    requires RowsOf(app, rows) && IsNewest(rows, AppVersion(latest, cursor)) && IsLater(rows, cursor, later)
    ensures forall v :: v in later ==> v.sequence >= 0
    ensures IsReplayList(app, latest, Sequences(later))
  {
    forall v | v in later ensures v.sequence in app.versions && app.versions[v.sequence].cursor == v.cursor {
      assert v in rows;
    }
    var s := Sequences(later);
    forall v | IsNewest(rows, v) ensures v.sequence in app.versions && IsNewestOf(app, v.sequence, v.cursor) {
      forall j | j in app.versions && app.versions[j].cursor == v.cursor ensures j <= v.sequence {
        assert AppVersion(j, v.cursor) in rows;
      }
    }
    forall k | k in app.versions && app.versions[k].cursor > cursor ensures Replays(app, s, app.versions[k].cursor) {
      assert AppVersion(k, app.versions[k].cursor) in rows;
      assert HasCursor(later, app.versions[k].cursor);
      var i :| 0 <= i < |later| && later[i].cursor == app.versions[k].cursor;
      assert later[i] in later && s[i] == later[i].sequence;
    }
    forall i | 0 <= i < |s| ensures s[i] in app.versions && app.versions[s[i]].cursor == later[i].cursor {
      assert later[i] in later;
    }
  }

  lemma {:induction false} CreateAllAppend(app: App, vs: seq<Version>, v: Version)
    ensures CreateAll(app, vs + [v]) == Create(CreateAll(app, vs), v)
    decreases |vs|
  {
    if vs == [] {
      assert (vs + [v])[1..] == [];
    } else {
      CreateAllAppend(Create(app, vs[0]), vs[1..], v);
      assert (vs + [v])[1..] == vs[1..] + [v];
    }
  }

  lemma {:induction false} ReplayAppend(app: App, later: seq<nat>, outcomes: seq<Outcome>, values: Config, k: nat, o: Outcome)
    requires |outcomes| == |later| && forall i :: 0 <= i < |later| ==> later[i] in app.versions
    requires k in app.versions
    ensures forall i :: 0 <= i < |later| + 1 ==> (later + [k])[i] in app.versions
    ensures Replay(app, later + [k], outcomes + [o], values) ==
            Replay(app, later, outcomes, values) + (if o.NotCreated? then [] else [Edited(app.versions[k], values)])
    decreases |later|
  {
    if later == [] {
      assert (later + [k])[1..] == [];
    } else {
      ReplayAppend(app, later[1..], outcomes[1..], values, k, o);
      assert (later + [k])[1..] == later[1..] + [k] && (outcomes + [o])[1..] == outcomes[1..] + [o];
    }
  }

  lemma ReplayStep(app: App, first: Version, later: seq<nat>, outcomes: seq<Outcome>, values: Config, k: nat, o: Outcome)
    requires |outcomes| == |later| && forall i :: 0 <= i < |later| ==> later[i] in app.versions
    requires k in app.versions
    ensures forall i :: 0 <= i < |later| + 1 ==> (later + [k])[i] in app.versions
    ensures var app' := CreateAll(app, [first] + Replay(app, later, outcomes, values));
            CreateAll(app, [first] + Replay(app, later + [k], outcomes + [o], values)) ==
            if o.NotCreated? then app' else Create(app', Edited(app.versions[k], values))
  {
    var vs, v := [first] + Replay(app, later, outcomes, values), Edited(app.versions[k], values);
    ReplayAppend(app, later, outcomes, values, k, o);
    CreateAllAppend(app, vs, v);
    assert [first] + Replay(app, later + [k], outcomes + [o], values) == if o.NotCreated? then vs else vs + [v];
  }

  lemma ConfigNext(app: App, step: Step)
    requires Enabled(app, step) && step.Config? && step.latest in app.versions
    ensures var first := Edited(app.versions[step.latest], step.values);
            Next(app, step) ==
            if step.primary.NotCreated? then app
            else if step.primary.Done? then CreateAll(app, [first] + Replay(app, step.later, step.outcomes, step.values))
            else Create(app, first)
  {
    CreateOne(app, Edited(app.versions[step.latest], step.values));
    assert [Edited(app.versions[step.latest], step.values)] + [] == [Edited(app.versions[step.latest], step.values)];
  }

  lemma CreateOne(app: App, v: Version)
    ensures CreateAll(app, [v]) == Create(app, v)
  {
    assert [v][1..] == [];
  }

  /** `updateAppConfig` for a new version; it may fail before or after the version is created. */
  method UpdateVersionConfig(store: AppStore, sequence: nat, groups: seq<seq<RequestItem>>, cipher: Cipher, outcome: Outcome,
                             ghost values: Config)
    requires Numbered(store.Abs()) && sequence in store.versions
    requires values == Requested(cipher, Flat(groups))
    modifies store
    ensures Numbered(store.Abs())
    ensures store.Abs() == if outcome.NotCreated? then old(store.Abs())
                           else Create(old(store.Abs()), Edited(old(store.versions)[sequence], values))
  {
    var archive := store.versions[sequence];
    var merged := MergeValues(archive.config, groups, cipher);
    if outcome.NotCreated? {
      return;
    }
    var created := store.CreateVersion(archive.(config := merged));
  }

  /** One turn of the replay loop. */
  method ReplayOne(store: AppStore, sequence: nat, groups: seq<seq<RequestItem>>, cipher: Cipher, o: Outcome,
                   ghost app: App, ghost first: Version, ghost done: seq<nat>, ghost outcomes: seq<Outcome>, ghost values: Config)
    requires values == Requested(cipher, Flat(groups))
    requires Numbered(app) && sequence <= app.current
    requires |outcomes| == |done| && forall j :: 0 <= j < |done| ==> done[j] in app.versions
    requires store.Abs() == CreateAll(app, [first] + Replay(app, done, outcomes, values))
    modifies store
    ensures forall j :: 0 <= j < |done| + 1 ==> (done + [sequence])[j] in app.versions
    ensures store.Abs() == CreateAll(app, [first] + Replay(app, done + [sequence], outcomes + [o], values))
  {
    CreateAllShape(app, [first] + Replay(app, done, outcomes, values));
    UpdateVersionConfig(store, sequence, groups, cipher, o, values);
    ReplayStep(app, first, done, outcomes, values, sequence, o);
  }

  /** The replay loop over later versions; a failure is logged and the loop goes on. */
  method ReplayConfig(store: AppStore, later: seq<AppVersion>, groups: seq<seq<RequestItem>>, cipher: Cipher,
                      outcome: nat -> Outcome, ghost app: App, ghost first: Version, ghost values: Config)
    returns (ghost outcomes: seq<Outcome>)
    requires values == Requested(cipher, Flat(groups))
    requires Numbered(app) && store.Abs() == CreateAll(app, [first])
    requires forall v :: v in later ==> v.sequence >= 0 && v.sequence <= app.current
    modifies store
    ensures |outcomes| == |later|
    ensures forall i :: 0 <= i < |later| ==> Sequences(later)[i] in app.versions
    ensures store.Abs() == CreateAll(app, [first] + Replay(app, Sequences(later), outcomes, values))
  {
    ghost var all: seq<nat> := Sequences(later);
    ghost var done: seq<nat> := [];
    outcomes := [];
    assert [first] + Replay(app, done, outcomes, values) == [first];
    CreateAllShape(app, [first]);
    for i := 0 to |later|
      invariant done == all[..i] && |outcomes| == i
      invariant forall j :: 0 <= j < i ==> done[j] in app.versions
      invariant store.Abs() == CreateAll(app, [first] + Replay(app, done, outcomes, values))
    {
      assert later[i] in later;
      var sequence := later[i].sequence;
      var o := outcome(sequence);
      ReplayOne(store, sequence, groups, cipher, o, app, first, done, outcomes, values);
      assert all[..i + 1] == all[..i] + [sequence];
      done, outcomes := done + [sequence], outcomes + [o];
    }
    assert done == all;
  }

  /** The first update and, if it goes well, the replay. */
  method ChangeConfig(store: AppStore, latest: nat, later: seq<AppVersion>, groups: seq<seq<RequestItem>>,
                      cipher: Cipher, primary: Outcome, outcome: nat -> Outcome, ghost values: Config)
    returns (ghost step: Step)
    requires values == Requested(cipher, Flat(groups))
    requires Numbered(store.Abs())
    requires forall v :: v in later ==> 0 <= v.sequence <= store.current
    requires IsReplayList(store.Abs(), latest, Sequences(later))
    modifies store
    ensures Numbered(store.Abs())
    ensures Enabled(old(store.Abs()), step) && store.Abs() == Next(old(store.Abs()), step)
    ensures step.Config? && step.latest == latest && step.primary == primary
    ensures step.values == values
    ensures !primary.NotCreated? ==> MakesEdited(old(store.Abs()), store.Abs(), latest, values)
  {
    ghost var app := store.Abs();
    ghost var first := Edited(app.versions[latest], values);
    UpdateVersionConfig(store, latest, groups, cipher, primary, values);
    CreateOne(app, first);
    ghost var outcomes: seq<Outcome> := seq(|later|, i => NotCreated);
    if primary.Done? {
      outcomes := ReplayConfig(store, later, groups, cipher, outcome, app, first, values);
    }
    step := Config(values, latest, Sequences(later), primary, outcomes);
    ConfigNext(app, step);
    StepKeepsNumbering(app, step);
    FirstCreated(app, step);
  }

  /** The `UpdateAppConfig` handler with a new version: the newest version of the edited cursor first,
      then, if that went well, every later cursor. The step it takes is None when nothing changes. */
  method UpdateAppConfig(store: AppStore, start: nat, missingRequired: bool, groups: seq<seq<RequestItem>>,
                         cipher: Cipher, primary: Outcome, outcome: nat -> Outcome)
    returns (ghost step: Option<Step>)
    requires Numbered(store.Abs())
    modifies store
    ensures Numbered(store.Abs())
    ensures step.None? ==> store.Abs() == old(store.Abs())
    ensures step.Some? ==> step.value.Config? && Enabled(old(store.Abs()), step.value)
                           && store.Abs() == Next(old(store.Abs()), step.value)
    ensures step.Some? ==> !missingRequired && start in old(store.versions)
                           && step.value.values == Requested(cipher, Flat(groups)) && step.value.primary == primary
                           && old(store.versions)[step.value.latest].cursor == old(store.versions)[start].cursor
    ensures step.Some? && !primary.NotCreated? ==>
              MakesEdited(old(store.Abs()), store.Abs(), step.value.latest, step.value.values)
    ensures step.None? <==> missingRequired || start !in old(store.versions) || old(store.versions)[start].cursor == -1
  {
    var found := FindLater(store, start);
    if found.None? || missingRequired {
      return None;
    }
    var (latest, later) := found.value;
    ghost var taken := ChangeConfig(store, latest, later, groups, cipher, primary, outcome,
                                         Requested(cipher, Flat(groups)));
    step := Some(taken);
  }

  /** `getLaterVersions` on the rows of the table. */
  method FindLater(store: AppStore, start: nat) returns (r: Option<(nat, seq<AppVersion>)>)
    requires Numbered(store.Abs())
    ensures r.None? <==> start !in store.versions || store.versions[start].cursor == -1
    ensures r.Some? ==>
              && (forall v :: v in r.value.1 ==> 0 <= v.sequence <= store.current)
              && IsReplayList(store.Abs(), r.value.0, Sequences(r.value.1))
              && store.versions[r.value.0].cursor == store.versions[start].cursor
  {
    ghost var app := store.Abs();
    var rows := store.GetVersions();
    var answer := GetLaterVersions(rows, start);
    StartRow(app, rows, start);
    if answer.Failure? {
      return None;
    }
    var (latest, later) := answer.value;
    ghost var cursor :| AppVersion(start, cursor) in rows && IsNewest(rows, AppVersion(latest, cursor))
                        && IsLater(rows, cursor, later);
    assert AppVersion(latest, cursor) in rows;
    LaterIsReplayList(app, rows, latest, cursor, later);
    forall v | v in later ensures v.sequence <= app.current { assert v in rows; }
    r := Some((latest, later));
  }

  /** The first version that a config step creates is the edited one. */
  lemma FirstCreated(app: App, step: Step)
    requires Numbered(app) && Enabled(app, step) && step.Config? && step.latest in app.versions
    ensures !step.primary.NotCreated? ==> MakesEdited(app, Next(app, step), step.latest, step.values)
  {
    var vs := Created(app, step);
    CreateAllShape(app, vs);
    EditedHasValues(app.versions[step.latest], step.values);
    if !step.primary.NotCreated? {
      assert Next(app, step).versions[app.current + 1 + 0] == vs[0];
    }
  }

  lemma StartRow(app: App, rows: seq<AppVersion>, start: nat)
    requires RowsOf(app, rows)
    ensures (forall v :: v in rows && v.sequence == start ==> v.cursor == -1) <==>
            (start !in app.versions || app.versions[start].cursor == -1)
  {
    if start in app.versions {
      assert AppVersion(start, app.versions[start].cursor) in rows;
    }
  }

  /** The `UpdateAppConfig` handler without a new version: the archive of that version is replaced. */
  method UpdateAppConfigInPlace(store: AppStore, sequence: nat, missingRequired: bool,
                                groups: seq<seq<RequestItem>>, cipher: Cipher)
    requires Numbered(store.Abs())
    modifies store
    ensures Numbered(store.Abs())
    ensures missingRequired || sequence !in old(store.versions) ==> store.Abs() == old(store.Abs())
    ensures !missingRequired && sequence in old(store.versions) ==>
              && store.Abs() == Next(old(store.Abs()), ConfigInPlace(sequence, Requested(cipher, Flat(groups))))
              && store.versions.Keys == old(store.versions).Keys
              && HasValues(old(store.versions)[sequence], store.versions[sequence], Requested(cipher, Flat(groups)))
              && forall k :: k in store.versions && k != sequence ==> store.versions[k] == old(store.versions)[k]
  {
    if sequence !in store.versions || missingRequired {
      return;
    }
    var archive := store.versions[sequence];
    var merged := MergeValues(archive.config, groups, cipher);
    EditedHasValues(archive, Requested(cipher, Flat(groups)));
    store.versions := store.versions[sequence := archive.(config := merged)];
  }

  /** `license.Sync` of an app loaded when `captured` was current. */
  method SyncLicense(store: AppStore, captured: nat, changed: bool)
    requires Numbered(store.Abs()) && captured in store.versions
    modifies store
    ensures Numbered(store.Abs())
    ensures store.Abs() == if changed then Next(old(store.Abs()), LicenseChange(captured)) else old(store.Abs())
    ensures changed ==> store.versions == old(store.versions)[old(store.current) + 1 := old(store.versions)[captured]]
  {
    if changed {
      ghost var app := store.Abs();
      var created := store.CreateVersion(store.versions[captured]);
      CreateOne(app, app.versions[captured]);
    }
  }

  /** `RewriteImages` started when `captured` was current. */
  method RewriteImages(store: AppStore, captured: nat)
    requires Numbered(store.Abs()) && captured in store.versions
    modifies store
    ensures Numbered(store.Abs())
    ensures store.Abs() == Next(old(store.Abs()), RegistryChange(captured))
    ensures store.versions == old(store.versions)[old(store.current) + 1 := old(store.versions)[captured]]
  {
    ghost var app := store.Abs();
    var created := store.CreateVersion(store.versions[captured]);
    CreateOne(app, app.versions[captured]);
  }

  /** `UpdateAppFromAirgap`: refused unless the bundle's cursor is after that of the captured version. */
  method UpdateAppFromAirgap(store: AppStore, captured: nat, cursor: int) returns (installed: bool)
    requires Numbered(store.Abs()) && captured in store.versions
    modifies store
    ensures Numbered(store.Abs())
    ensures installed <==> old(store.versions)[captured].cursor < cursor
    ensures store.Abs() == if installed then Next(old(store.Abs()), AirgapUpload(captured, cursor)) else old(store.Abs())
    ensures installed ==>
              store.versions == old(store.versions)[old(store.current) + 1 := Version(cursor, old(store.versions)[captured].config)]
  {
    installed := store.versions[captured].cursor < cursor;
    if installed {
      ghost var app := store.Abs();
      var created := store.CreateVersion(store.versions[captured].(cursor := cursor));
      CreateOne(app, app.versions[captured].(cursor := cursor));
    }
  }
}

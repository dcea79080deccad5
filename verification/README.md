# Kotsadm: queue, deploy, version and index logic, proved

This project models the parts of kotsadm that decide something over unbounded inputs and runs, and proves
what they keep. `dafny verify dfyconfig.toml` checks all of it.

| Files | What they model |
|---|---|
| `SnapshotQueue`, `SnapshotBounds`, `SnapshotHistory`, `SnapshotSolo`, `SnapshotExactlyOne`, `SnapshotScheduler` | the scheduled snapshot queue: any number of `handleApp` invocations over one table, as a transition system with stale listings, row locks, a delete statement that takes its rows one at a time, commit and rollback; and the store and `handleApp` as a class and methods that take its steps |
| `Documents`, `Manifests`, `DeployPlan`, `DeployCluster`, `DeployClient` | the deploy pipeline: splitting and joining multi-document text, CRDs and namespaces, the diff that removes, the batches that apply, and the set of objects in the cluster over a chain of deploys |
| `LaterVersions`, `ConfigRequest`, `VersionHistory`, `AppStore` | the values of a config request, version numbering, cursors and the replay of a config change onto later cursors |
| `PathTree`, `PathText`, `PathOrder` | the path tree, built on the heap through a moving level; on the text of the paths; and in order |
| `FileTree`, `FileTreeNodes` | the support bundle's file tree and its recursion |
| `RoomIndex` | the two maps of the socket server |
| `ResourceOrder`, `AppStatus` | the running status summary and its order |
| `Throttle` | the throttler's lock and timer |
| `Decimals`, `SnapshotTTL`, `AzureConfig`, `AzureText`, `ConfigSecrets`, `AppSlug` | printing and parsing, encryption in place, slug search |
| `FiniteSets`, `Wrappers` | cardinalities; options and results |

YAML decoding, kubectl's verdict on a call, the cipher, the cron schedule, Velero, the clock and the text
that slugification makes are parameters. Where a theorem needs a law of one of them it is a precondition
(`BlankIsEmpty`: the empty text decodes to no kind, name or namespace; `Inverts`: decrypting undoes
encrypting).

## Where the code does less than it says

- The comment in `handleApp` promises exactly one pending row when it finishes. That fails in several
  ways. Without any overlap, several rows that are not yet due stay several (`NotDueLeavesTwo`). Two runs that
  both find no pending row queue one each (`TwoFirstRowsLeaveTwo`). The lock query does not look at
  `backup_name`, so a run with an old listing backs the same row up again and queues one more
  (`TwoRunsBackUpOneRowTwice`). A delete statement misses rows queued after it began. `EndLeavesOneIff` gives the exact condition for each way a run can end.
  `PromiseKeptIff` gives it over executions: a run that commits or queues a first row leaves exactly one
  pending row if and only if no other run of the application queued one since it listed at most one row, or
  since its delete statement began. A run that does neither leaves one exactly when there was one. An
  undisturbed `HandleApp` leaves exactly one if and only if it queues or there was exactly one before.
  `AtMostOneMoreThanRuns` bounds the rows for every interleaving.
- The deploy diff compares objects by `apiVersion-kind-name` and leaves the namespace out, so an object can
  be left behind (`TwoNamespacesLeaveOneBehind`), and with dashes different objects can share a key
  (`DashesShareKey`; `SameKeyIff` says when they do). `DeployExactIff` gives the exact condition for one deploy
  and `ChainExactIff` for a whole chain. A namespace batch whose text is empty is not sent, so a document
  list with a single empty document in the target namespace loses it (`NothingLostIff`, `EmptyTextIsLost`).
- A rejected removal is only logged, and a deploy can end without an error while its object is still there;
  `Deploy` gives the exact cluster over the accepted removals.
- A failing replay of a config change is only logged, so the current version may not carry the greatest
  cursor (`FailedReplayLeavesOldCursor`); so may a version made from a sequence that was read before another
  step finished. `StepKeepsGreatestIff` covers both.
- `ResourceStates.Less` is not an order: two elements can each be less than the other, and then no
  arrangement is sorted (`NoSortedArrangement`, `SortableIff`).
- The web API's `getState` calls an empty list ready, the operator's `MinState` calls it missing.
- `getDirectoryNode` compares names as strings, not as paths, and nests every deeper directory under every
  listed prefix: deep files are shown several times (`ShownBeneath`, `FileShownOnceIff`).
- `parseTTL` undoes `formatTTL` up to the unit; `EncryptConfigValues` does nothing and succeeds without a
  config, so a success can leave a plaintext (`PlaintextIsLeft`); its contract says exactly when;
  numbered slug proposals use the raw name, because `strings.Replace` with a count of 0 replaces nothing.

## Model

| member | source | states |
|---|---|---|
| `SnapshotQueue.StepKeepsInv` | api/src/snapshots/schedule.ts:61-110 | every step of any run, at any interleaving, keeps the locking discipline: no two open transactions hold a row, deleted rows were pending and listed, delete statements are ordered, queued ids are new |
| `SnapshotBounds.ReachableKeepsInv` | api/src/snapshots/schedule.ts:61-110 | in every state reachable from any starting table the discipline holds, and no two open transactions hold one row |
| `SnapshotQueue.CommitIsLocal` | api/src/snapshots/snapshots_store.ts:45-95 | a commit changes no row that another open transaction holds, and makes no row pending again that another run has listed |
| `SnapshotBounds.AtMostOneMoreThanRuns` | api/src/snapshots/schedule.ts:61-105 | over every execution with at most n concurrent invocations for an app it never has more than n + 1 pending rows |
| `SnapshotBounds.IdleIsBounded` | api/src/snapshots/schedule.ts:45-47 | a table with at most one pending row and no runs meets the invariant and the bound, so the theorem applies from there |
| `SnapshotBounds.PendingAfterCommit` | api/src/snapshots/schedule.ts:93-104 | the pending rows after a commit: the handled and deleted ones gone, the queued one there, other apps untouched |
| `SnapshotHistory.NeverEmptyAgain` | api/src/snapshots/schedule.ts:61-105 | once an app has a pending row it has one in every later state |
| `SnapshotHistory.HandledStaysHandled` | api/src/snapshots/snapshots_store.ts:45-74 | a row with a backup name is never deleted, never pending again, and keeps its app and time |
| `SnapshotHistory.BackedUpOnlyWhenDue` | api/src/snapshots/schedule.ts:69-72 | no row gets a backup name before its time has come, over any execution |
| `SnapshotHistory.HeldRowIsStable` | api/src/snapshots/snapshots_store.ts:57-65 | a locked row stays in the table unchanged until its holder commits or rolls back |
| `SnapshotHistory.OnlyCommitsWrite` | api/src/snapshots/schedule.ts:81-107 | an execution without a commit and without a first row leaves the whole table as it was, so runs that are rolled back or end early change nothing |
| `SnapshotHistory.DeletedStaysDeleted` | api/src/snapshots/snapshots_store.ts:45-55 | a deleted row never comes back |
| `SnapshotHistory.CommitCount` | api/src/snapshots/schedule.ts:93-104 | how a commit changes the number of pending rows |
| `SnapshotHistory.CommitWrites` | api/src/snapshots/snapshots_store.ts:67-95 | every row after a commit: the locked one has the run's backup name and keeps its application and time, the deleted ones are gone, the queued one is there, all others are as before |
| `SnapshotHistory.QueuedRowArrives` | api/src/snapshots/schedule.ts:100-104 | over executions: the row a run queues is in the table after its commit for its application and at the time asked for, whatever its listing and the other runs |
| `SnapshotHistory.MarkedRowArrives` | api/src/snapshots/schedule.ts:93-104 | over executions: the name a run marks its row with is in the table after its commit |
| `SnapshotHistory.OnlyDeletesWait` | api/src/snapshots/schedule.ts:81-107 | in every reachable state the next statement of every run can be taken, except that the delete statement waits for a row another transaction holds |
| `SnapshotHistory.ListingCanBegin` | api/src/snapshots/schedule.ts:61-63 | a listing has a first row exactly when there is a pending one, and any of them can be it |
| `SnapshotHistory.SecondBackupIff` | api/src/snapshots/snapshots_store.ts:57-74 | a committing run backs a row up a second time exactly when the row had a backup name when it was locked; its commit makes the queue longer exactly when, besides, its delete statement took nothing |
| `SnapshotExactlyOne.EndLeavesOneIff` | api/src/snapshots/schedule.ts:45-47 | for every way a run can end, what must hold just before for exactly one pending row to be left: a commit knows all pending rows, a first row finds none, any other end finds one |
| `SnapshotExactlyOne.PromiseKeptIff` | api/src/snapshots/schedule.ts:61-104 | over executions: a run that commits or queues a first row leaves exactly one pending row if and only if no other run of the application queued one since it listed at most one row, or since its delete statement began |
| `SnapshotExactlyOne.UnknownRowIff` | api/src/snapshots/schedule.ts:97-99 | while such a run is in flight, the application has a pending row that the run does not know exactly when it had one at the start or another run has queued one |
| `SnapshotExactlyOne.NotDueLeavesTwo` | api/src/snapshots/schedule.ts:69-72 | a concrete single run that ends with two pending rows |
| `SnapshotExactlyOne.TwoFirstRowsLeaveTwo` | api/src/snapshots/schedule.ts:63-68 | a concrete execution of two runs that each queue a first row |
| `SnapshotSolo.TwoRunsBackUpOneRowTwice` | api/src/snapshots/schedule.ts:61-104 | a concrete interleaving of two runs that backs one row up twice and ends with two pending rows |
| `SnapshotSolo.FinishSolo` | api/src/snapshots/schedule.ts:81-104 | a run whose row nobody holds can finish, from any listing, in the state computed by `SoloState` |
| `SnapshotSolo.DeleteSolo` | api/src/snapshots/snapshots_store.ts:45-55 | the delete statement, uncontended, takes exactly the other pending rows |
| `SnapshotScheduler.SoloLeavesOnePending` | api/src/snapshots/schedule.ts:45-60 | an uncontended committed run leaves exactly the queued row pending, with its application and time, the handled row with its backup name, the other pending rows gone and every other row as it was |
| `SnapshotScheduler.SnapshotsStore.ListPendingScheduledSnapshots` | api/src/snapshots/snapshots_store.ts:29-43 | the listing has every pending row of the app once and no other |
| `SnapshotScheduler.SnapshotsStore.DeletePendingScheduledSnapshots` | api/src/snapshots/snapshots_store.ts:45-55 | the delete loop refines the delete steps of the transition system |
| `SnapshotScheduler.SnapshotsStore.LockScheduledSnapshot` | api/src/snapshots/snapshots_store.ts:57-65 | the lock is acquired exactly when the row exists and no open transaction has locked or deleted it; it is the lock step |
| `SnapshotScheduler.SnapshotsStore.UpdateScheduledSnapshot` | api/src/snapshots/snapshots_store.ts:67-74 | marking the row is the mark step |
| `SnapshotScheduler.SnapshotsStore.CreateScheduledSnapshot` | api/src/snapshots/snapshots_store.ts:76-95 | inside a transaction it is the queue step; without one the row is in the table at once |
| `SnapshotScheduler.HandleApp` | api/src/snapshots/schedule.ts:37-111 | without overlap: every outcome is an execution of the transition system; it queues exactly when there is no pending row or the first is due, nothing is in progress and the backup works; then the new row has its application and time and is the only pending one, the first has the backup name, the other pending ones are gone and every other row is as before; otherwise the table is unchanged, so exactly one row is left if and only if it queued or there was one before |
| `Documents.RoundTripIff` | operator/pkg/client/doc.go:14-28 | a list of documents survives joining and splitting exactly when it is separable |
| `Documents.ClosedIff` | operator/pkg/client/doc.go:34-57 | what a document must be to survive before another one: no separator inside, and not ending in the separator's first four characters |
| `Documents.SelectionRoundTrip` | operator/pkg/client/doc.go:14-28 | every non-empty order-preserving selection of the pieces of a text survives, although the separator overlaps itself |
| `Documents.JoinSplit` | operator/pkg/client/doc.go:14-28 | joining the pieces of a text gives the text |
| `Documents.CutAtSeparator` | operator/pkg/client/doc.go:14 | a text is cut at its first five-character separator and nowhere before |
| `Documents.NoCut` | operator/pkg/client/doc.go:14 | a text without one is one document |
| `Documents.JoinPutsSeparators` | operator/pkg/client/doc.go:26-28 | joining puts one separator between neighbours |
| `Manifests.SplitIntoCRDsAndOthers` | operator/pkg/client/doc.go:10-29 | CRDs and others in their order, and the unchanged text when there is no CRD |
| `Manifests.SplitByKind` | operator/pkg/client/doc.go:16-24 | CRDs and others together are all documents, each once |
| `Manifests.GroupByNamespace` | operator/pkg/client/doc.go:31-50 | fails exactly when some document does not decode; else each namespace has its documents in order |
| `Manifests.DocsByNamespace` | operator/pkg/client/doc.go:31-61 | the same with one joined text for each namespace that occurs |
| `Manifests.GroupedIff` | operator/pkg/client/doc.go:36-48 | a document is grouped under its own namespace, or under the target one if it has none |
| `Manifests.SameKeyIff` | operator/pkg/client/gvkn.go:27-37 | documents that agree in API version, kind and name share a key; if two of the fields agree, or there is no dash in API version and kind, they share it only then; documents that do not decode share one of their own |
| `Manifests.DashesShareKey` | operator/pkg/client/gvkn.go:35 | two concrete documents of different kinds and names with one key |
| `Manifests.CrdIff` | operator/pkg/client/gvkn.go:39-47 | exactly the custom resource definitions of the one API version count as such |
| `DeployPlan.BatchRoundTrip` | operator/pkg/client/doc.go:52-57 | kubectl finds in a namespace's text exactly the namespace's documents, in order |
| `DeployPlan.EveryDocumentOnce` | operator/pkg/client/deploy.go:203-295 | conservation: the CRD call holds the CRDs, and CRD call, batches and a lone empty document add up to the documents of the manifests, as multisets |
| `DeployPlan.NothingLostIff` | operator/pkg/client/deploy.go:267-295 | every document is in exactly one call if and only if the target namespace's batch is not a single empty document |
| `DeployPlan.NoPhantom` | operator/pkg/client/doc.go:26-28 | with nothing but CRDs no batch is sent for the empty document that the rest splits into |
| `DeployPlan.OrderIsKept` | operator/pkg/client/doc.go:14-57 | the CRD call splits into exactly the CRDs in their order, and every batch into exactly its namespace's other documents in theirs |
| `DeployPlan.PlanCallByCall` | operator/pkg/client/deploy.go:203-295 | CRDs go without a namespace; without CRDs the dry run is of exactly the batches that follow, with CRDs there is none; no namespace is applied twice |
| `DeployPlan.SameObjectIff` | operator/pkg/client/gvkn.go:16-25 | when two documents are one object of the cluster |
| `DeployPlan.EmptyTextIsLost` | operator/pkg/client/deploy.go:267-295 | the empty text is one document, planned for no call |
| `DeployCluster.ByKeyIsLast` | operator/pkg/client/deploy.go:48-59 | the map of the diff has the keys of the documents and the last document of each |
| `DeployCluster.RemovedIff` | operator/pkg/client/deploy.go:79-83 | on the fields, for documents without dashes in API version and kind: a document is removed if and only if it is the last previous one with its API version, kind and name and no current one has these |
| `DeployCluster.HandledOnFields` | operator/pkg/client/deploy.go:48-83 | the condition of the exactness theorems on the fields of the documents |
| `DeployCluster.EffectsOfRemovals` | operator/pkg/client/deploy.go:79-120 | the removals take away exactly the object of each dropped key's document |
| `DeployCluster.EffectsOfPlan` | operator/pkg/client/deploy.go:203-295 | the calls of a deploy, all accepted, add exactly the objects of the manifests |
| `DeployCluster.DeployExactIff` | operator/pkg/client/client.go:252-276 | a deploy over the objects of the previous manifests leaves exactly the objects of the current ones if and only if the diff takes care of every previous document |
| `DeployCluster.LeftBehind` | operator/pkg/client/deploy.go:79-83 | exactly which objects are left behind |
| `DeployCluster.TwoNamespacesLeaveOneBehind` | operator/pkg/client/gvkn.go:27-37 | a concrete previous and current list that leave an object behind |
| `DeployCluster.OneObjectPerKeyIsExact` | operator/pkg/client/gvkn.go:27-37 | if no two objects share a key the deploy is exact |
| `DeployCluster.ChainExactIff` | operator/pkg/client/client.go:252-276 | over any chain of deploys, each with the last manifests as its previous ones, the cluster is exact after every deploy if and only if each diff takes care of every document before it |
| `DeployCluster.NextDeployExactIff` | operator/pkg/client/client.go:252-276 | an exact cluster stays exact if and only if the next diff takes care of every document |
| `DeployCluster.ChainIsExact` | operator/pkg/client/client.go:252-276 | its corollary for chains whose neighbours have one object for each key |
| `DeployClient.ManifestsByKey` | operator/pkg/client/deploy.go:48-59 | the map-filling loop gives the last document of each key |
| `DeployClient.DiffAndRemovePreviousManifests` | operator/pkg/client/deploy.go:36-154 | one removal for each dropped key, of its last document, and nothing else; without dashes these are exactly the last previous documents whose API version, kind and name no current one has; a failed removal does not stop the rest, and the cluster loses exactly the objects of the accepted ones |
| `DeployClient.DryRun` | operator/pkg/client/deploy.go:203-241 | a dry run of every batch, stopping at the first rejection, that leaves the cluster unchanged |
| `DeployClient.ApplyBatches` | operator/pkg/client/deploy.go:267-295 | every non-empty batch is sent once, and an error is reported exactly when one was rejected |
| `DeployClient.EnsureResourcesPresent` | operator/pkg/client/deploy.go:187-303 | how a deploy ends: what was sent in each case, why it failed, and the untouched cluster when it ends before applying without CRDs |
| `DeployClient.Deploy` | operator/pkg/client/client.go:223-281 | the removals of the diff come first, then what `EnsureResourcesPresent` sends; an error is reported exactly when a batch was rejected; without one the cluster has lost exactly the objects of the accepted removals and has every current one |
| `LaterVersions.GetLaterVersions` | pkg/handlers/config.go:306-352 | fails exactly when the start has no cursor; else the greatest sequence of the start's cursor and, strictly ascending, the greatest sequence of each greater cursor |
| `LaterVersions.AnswerIsUnique` | pkg/handlers/config.go:306-352 | the whole result, sequence and list, is the same for every ordering of the rows |
| `LaterVersions.ScanLater` | pkg/handlers/config.go:321-337 | the loop's maximum and map hold the newest version of each cursor |
| `ConfigRequest.MergeValues` | pkg/handlers/config.go:187-219 | the loops over groups and items replace the requested values and keep the others |
| `ConfigRequest.LastItemDecides` | pkg/handlers/config.go:190-218 | the last item with a name gives its value: a truth value in words, a text as it is, a password encrypted unless it decrypts |
| `ConfigRequest.RequestedIff` | pkg/handlers/config.go:190-218 | exactly the names with an item are requested |
| `VersionHistory.StepKeepsNumbering` | pkg/version/version.go:84-93 | every kind of step, with any failures, keeps versions numbered 0..n with n current |
| `VersionHistory.StepKeepsGreatestIff` | pkg/handlers/config.go:108-139 | the current version keeps the greatest cursor exactly when the last replay works and captured sequences are not behind |
| `VersionHistory.RunFromFirstVersion` | pkg/version/version.go:31-264 | after a first version and any run of completed steps, versions are 0..n, n is current and has the greatest cursor |
| `VersionHistory.ConfigReachesLaterCursors` | pkg/handlers/config.go:108-139 | after a completed config change the newest version of the edited and of every later cursor has each requested value, its own values under every other name, no other name and its cursor; earlier cursors keep their newest version |
| `VersionHistory.ReplayPlaces` | pkg/handlers/config.go:125-139 | the replay makes one version, in order and with the requested values, for each later one that does not fail before it |
| `VersionHistory.FailedReplayLeavesOldCursor` | pkg/handlers/config.go:129-137 | a concrete failing replay that leaves an older cursor current |
| `AppStore.AppStore.CreateVersion` | pkg/version/version.go:84-149 | the new version is one after the greatest and becomes current |
| `AppStore.AppStore.GetVersions` | pkg/version/version.go:267-287 | every version is listed once with its cursor |
| `AppStore.LaterIsReplayList` | pkg/handlers/config.go:112-125 | what `GetLaterVersions` finds is a list that the replay theorems are about |
| `AppStore.ReplayConfig` | pkg/handlers/config.go:125-139 | the replay loop makes the versions of `Replay`, whatever fails |
| `AppStore.UpdateAppConfig` | pkg/handlers/config.go:45-142 | it takes a config step of the model, or none exactly when a required item is missing or the start has no cursor; the first new version has each requested value, the other values of the edited version, no other name and its cursor |
| `AppStore.UpdateAppConfigInPlace` | pkg/handlers/config.go:89-106 | the edited version gets each requested value in place and keeps its other values, every other version stays, or nothing changes |
| `AppStore.SyncLicense` | pkg/license/license.go:63-100 | a changed license makes a version with cursor and values of the captured one, else nothing changes |
| `AppStore.RewriteImages` | pkg/registry/registry.go:85-223 | it makes a version with cursor and values of the captured one |
| `AppStore.UpdateAppFromAirgap` | pkg/airgap/update.go:175-204 | a version with the bundle's cursor and the captured version's values is made exactly when the cursor is greater than the captured version's |
| `PathTree.ArrangeIntoTree` | api/src/kots_app/kots_app.ts:269-296 | the heap tree it returns represents the shape of the paths: each level's nodes in order, no two places share a level |
| `PathTree.Descend` | api/src/troubleshoot/supportbundle.ts:59-75 | one step of the moving level, on the heap, is one step on the shape |
| `PathTree.Arranged` | api/src/kots_app/kots_app.ts:269-296 | siblings have distinct names, and every node's children are a level of the tree |
| `PathTree.ArrangedKeys` | api/src/kots_app/kots_app.ts:269-296 | the name sequences of the tree are exactly the prefixes of the split paths, and every stored path leads through its node |
| `PathText.SplitIs` | api/src/kots_app/kots_app.ts:272 | no part of a path has a slash, and the parts with slashes between them are the path |
| `PathText.SplitOfJoin` | api/src/kots_app/kots_app.ts:272 | there is no other such list of parts |
| `PathText.KeysOnText` | api/src/kots_app/kots_app.ts:269-296 | on the text: the name sequences are exactly the names without slashes that, joined with slashes, are a path or what is before one of its slashes, a first slash aside |
| `PathText.LeafOnText` | api/src/troubleshoot/supportbundle.ts:67-72 | on the text: the names that lead to a leaf, joined with slashes, are its stored path, a first slash aside |
| `PathOrder.FirstPathIsKept` | api/src/kots_app/kots_app.ts:284-291 | every node keeps the first path that leads through it |
| `PathOrder.SiblingsInOrder` | api/src/kots_app/kots_app.ts:284-291 | siblings stand in the order in which the first paths through them do |
| `PathTree.OrderDoesNotMatter` | api/src/kots_app/kots_app.ts:269-296 | the set of name sequences does not depend on the order of the paths |
| `PathTree.LeafPathIsExact` | api/src/troubleshoot/supportbundle.ts:67-72 | a stored path is one of the input, and a leaf's splits to exactly the names leading to it |
| `FileTree.GetDirectoryNode` | pkg/supportbundle/filetree.go:84-119 | it ends for every list of names, because each call is on a strictly longer listed name, and builds the node of `DirectoryNode` |
| `FileTree.ArchiveToFileTree` | pkg/supportbundle/filetree.go:55-82 | the top level has the top directories, then the top files |
| `FileTreeNodes.TopLevelIs` | pkg/supportbundle/filetree.go:59-81 | on the text: the top level has exactly the directories and files without a separator, directories first, each in the order of the listing |
| `FileTreeNodes.ChildrenAre` | pkg/supportbundle/filetree.go:92-116 | on the text: the children of a directory are a leaf with name and path for each of its files, then a node for each listed name that continues its own, each in the order of the listing |
| `FileTreeNodes.DirectoryName` | pkg/supportbundle/filetree.go:85-88 | a directory's node has its whole path as its name |
| `FileTreeNodes.UnderIff` | pkg/supportbundle/filetree.go:104 | the prefix is one of strings |
| `FileTreeNodes.SiblingIsShownBelow` | pkg/supportbundle/filetree.go:104 | a concrete top-level directory that is shown below its sibling too |
| `FileTree.NameIsBase` | pkg/supportbundle/filetree.go:93-97 | the name of a file is what follows the last separator of its path, its directory what precedes it |
| `FileTree.ShownBeneath` | pkg/supportbundle/filetree.go:103-112 | below a directory, another one is shown 2 to the power of the number of listed names between them |
| `FileTree.ShownInTree` | pkg/supportbundle/filetree.go:59-81 | how often a directory is shown in the whole tree |
| `FileTree.ShownOnceIff` | pkg/supportbundle/filetree.go:59-119 | in a listing closed under parents every directory is shown, and once exactly when it has no listed prefix at the top, or one below it |
| `FileTree.FileShownOnceIff` | pkg/supportbundle/filetree.go:92-101 | the same for the files of a directory |
| `FileTree.EveryFileIsShown` | pkg/supportbundle/filetree.go:59-119 | every file dir/name of the archive is a leaf with that name and path in the tree, every file without a separator one with its path as name |
| `FileTree.OnlyListedIsShown` | pkg/supportbundle/filetree.go:84-119 | every node at any depth is the whole node of a listed file or directory |
| `FileTree.DeepFileIsShownAgain` | pkg/supportbundle/filetree.go:103-104 | a concrete file that is shown more than once |
| `RoomIndex.MembershipIff` | operator/pkg/socket/server.go:90-139 | after any sequence of joins, leaves and disconnects both maps have a channel in a room exactly when it joined and has not left or disconnected since, and no room is empty |
| `RoomIndex.Server.Connect` | operator/pkg/socket/server.go:253-258 | the channel is stored under its id, until its disconnect |
| `RoomIndex.Server.JoinRoom` | operator/pkg/socket/server.go:90-112 | a join step of the model, refused without a server: afterwards both maps have the channel in the room, and nothing else has changed |
| `RoomIndex.Server.LeaveRoom` | operator/pkg/socket/server.go:117-139 | a leave step of the model: afterwards neither map has the channel in the room, and nothing else has changed |
| `RoomIndex.Server.OnDisconnectCleanup` | operator/pkg/socket/server.go:263-286 | a disconnect step of the model: afterwards the channel is in neither map, every other channel is where it was, and the id is forgotten |
| `RoomIndex.Server.Amount` | operator/pkg/socket/server.go:155-161 | the number of channels in the room |
| `RoomIndex.Server.List` | operator/pkg/socket/server.go:177-195 | exactly the channels in the room, each once |
| `RoomIndex.Server.AmountOfRooms` | operator/pkg/socket/server.go:361-366 | the number of rooms that have a channel |
| `ResourceOrder.SortableIff` | operator/pkg/appstate/types/types.go:77-88 | a list has a sorted arrangement exactly when no two of its elements are each less than the other |
| `ResourceOrder.StrLessIff` | operator/pkg/appstate/types/types.go:78-86 | strings are compared at the first place where they differ, and a strict prefix comes first |
| `ResourceOrder.ComparablePairIff` | operator/pkg/appstate/types/types.go:77-88 | two states are comparable exactly when one of them is nowhere greater: in kind, name and namespace |
| `ResourceOrder.NoSortedArrangement` | operator/pkg/appstate/types/types.go:77-88 | a concrete list without one |
| `ResourceOrder.Sort` | operator/pkg/appstate/util.go:38-40 | the result is a permutation, sorted whenever that is possible |
| `AppStatus.CommonNameIs` | operator/pkg/appstate/resource.go:13-22 | the common name is the first name of the first group that has the kind in lower case |
| `AppStatus.NoCommonName` | operator/pkg/appstate/resource.go:13-22 | a kind in no group keeps its name |
| `AppStatus.GetResourceKindCommonName` | operator/pkg/appstate/resource.go:13-22 | the two nested loops find that name |
| `AppStatus.NormalizeStatusInformers` | operator/pkg/appstate/util.go:9-18 | every informer gets its common kind, keeps its name and namespace, and gets the target namespace if it has none |
| `AppStatus.BuildResourceStatesFromStatusInformers` | operator/pkg/appstate/util.go:29-41 | one missing state for each informer, sorted when possible |
| `AppStatus.ResourceStatesApplyNew` | operator/pkg/appstate/util.go:43-57 | exactly the matching states change, the list is sorted again, and a change is reported exactly when there is one before sorting |
| `AppStatus.StatusAfter` | operator/pkg/appstate/appstate.go:168-233 | every status sent has exactly the informers' identities, each with the state of its last event or missing |
| `AppStatus.StatusEntries` | operator/pkg/appstate/util.go:29-57 | a status has one entry for each informer, with its kind, name and namespace, and no other |
| `AppStatus.LastEventDecides` | operator/pkg/appstate/util.go:43-57 | the state of an entry is that of the last event for it |
| `AppStatus.NoEventIsMissing` | operator/pkg/appstate/util.go:29-41 | without an event it is missing |
| `AppStatus.RunInformers` | operator/pkg/appstate/appstate.go:168-233 | the loop sends such a status at the start and after each event |
| `AppStatus.GroupInformers` | operator/pkg/appstate/appstate.go:187-196 | a group for exactly the pairs of namespace and kind that occur, with their informers in order |
| `AppStatus.EveryInformerIsWatched` | operator/pkg/appstate/appstate.go:187-196 | every informer is in its own group as often as it is listed, and in no other |
| `AppStatus.WatchedInOrder` | operator/pkg/appstate/appstate.go:194 | a group keeps the order of the list |
| `AppStatus.GetState` | api/src/kots_app/kots_app_status.ts:32-41 | missing without states, else the worst of them |
| `AppStatus.MinStateOf` | operator/pkg/appstate/types/types.go:55-71 | the worst of the states, missing for the empty list |
| `AppStatus.WorstIs` | operator/pkg/appstate/types/types.go:59-69 | missing before unavailable before degraded before ready |
| `AppStatus.OverallState` | api/src/kots_app/kots_app_status.ts:32-67 | the overall state does not depend on the order and is ready exactly when all states are |
| `Throttle.ExecutionKeepsInv` | operator/pkg/util/throttler.go:23-39 | over every interleaving at most one timer is outstanding, the remembered function is the last added one, and firings are at least `after` apart |
| `Throttle.FiringRunsLatest` | operator/pkg/util/throttler.go:30-37 | each firing runs the function of the last add before it, at the time of the firing |
| `Throttle.NothingForgotten` | operator/pkg/util/throttler.go:23-39 | an added function is run by the next firing or was replaced by a later add; until then a timer is outstanding |
| `Throttle.DeadlineIs` | operator/pkg/util/throttler.go:29-30 | a timer runs exactly when there has been an add since the last firing, and it is set for exactly `after` from the first such add |
| `Throttle.CanFireIff` | operator/pkg/util/throttler.go:31-37 | a firing can come exactly when the deadline has passed |
| `Throttle.Throttler.AddFunction` | operator/pkg/util/throttler.go:23-31 | the code of an add is the add step |
| `Throttle.Throttler.OnTimer` | operator/pkg/util/throttler.go:31-37 | the code of a firing is the fire step |
| `Decimals.PrintReadIff` | api/src/snapshots/backup.ts:128-161 | reading digits and printing the number gives the digits back exactly when there is no leading zero |
| `Decimals.PrintIsInjective` | pkg/app/app.go:102-124 | different numbers have different digits |
| `Decimals.PrintIs` | pkg/app/app.go:109 | what is printed: the ten digits, and for greater numbers the digits of a tenth and the last one |
| `SnapshotTTL.ParseFormat` | api/src/snapshots/backup.ts:96-161 | what is printed parses exactly when the quantity is not negative, and then to the same duration, in the greatest unit that divides it |
| `SnapshotTTL.FormatParseIff` | api/src/snapshots/backup.ts:96-161 | a duration text is printed again after parsing exactly when it has no leading zero |
| `SnapshotTTL.FormatMeans` | api/src/snapshots/backup.ts:96-120 | the printed text stands for the quantity of units, as seconds, minutes or hours by its last letter |
| `SnapshotTTL.ParseMeans` | api/src/snapshots/backup.ts:128-161 | what is parsed is what the text stands for |
| `SnapshotTTL.UnitLengths` | api/src/snapshots/backup.ts:102-117 | the lengths of the seven units in seconds |
| `SnapshotTTL.UnitForHours` | api/src/snapshots/backup.ts:140-156 | which unit a number of hours comes back in |
| `SnapshotTTL.FormatFailsIff` | api/src/snapshots/backup.ts:97-119 | exactly what is no number, or another unit, is refused |
| `AzureConfig.RoundTripIff` | pkg/snapshot/providers/azure.go:19-63 | a configuration comes back from printing and parsing exactly when its values have no "=", no line break and no surrounding white space, and their lines fit the scanner's buffer in bytes |
| `AzureConfig.ParsedIsCarried` | pkg/snapshot/providers/azure.go:19-49 | whatever the text, the parsed values are of that kind |
| `AzureConfig.ParseAzureConfig` | pkg/snapshot/providers/azure.go:19-49 | the scanner loop computes `ParseFrom`, which the round trip is about |
| `AzureConfig.RenderAzureConfig` | pkg/snapshot/providers/azure.go:51-63 | the six writes give `Render`, which the round trip is about |
| `AzureText.KeyNames` | pkg/snapshot/providers/azure.go:32-45 | the six keys |
| `AzureText.SixLines` | pkg/snapshot/providers/azure.go:55-60 | the printed text is the six lines of key and value in their order |
| `AzureText.LineSets` | pkg/snapshot/providers/azure.go:22-45 | a line with one "=" sets exactly the field of its key, white space aside, and a line with another key sets nothing |
| `AzureText.OtherLinesSetNothing` | pkg/snapshot/providers/azure.go:23-26 | a line without "=" or with more than one sets nothing |
| `AzureText.TrimIs` | pkg/snapshot/providers/azure.go:28-29 | trimming takes white space off both ends and leaves none there |
| `AzureText.LineByLine` | pkg/snapshot/providers/azure.go:20-22 | the parser takes one line after the other, without a trailing carriage return, and stops at one of 64 kilobytes |
| `ConfigSecrets.KotsKinds.EncryptConfigValues` | pkg/kotsutil/kots.go:51-100 | it succeeds exactly with a cipher and when every plaintext belongs to a password item; then every plaintext has become its encrypted value and every other entry is as before; a failure changes nothing; after a success no plaintext is left if and only if there is a configuration or there was none |
| `ConfigSecrets.KindOfIs` | pkg/kotsutil/kots.go:70-77 | the kind of a name is that of the first item with it, over all groups in order |
| `ConfigSecrets.NoKind` | pkg/kotsutil/kots.go:68-82 | a name without an item has no kind |
| `ConfigSecrets.KotsKinds.DecryptConfigValues` | pkg/kotsutil/kots.go:102-141 | it succeeds exactly with a cipher or without values; then every value that decrypts has become a plaintext and every other entry is as before; a failure changes nothing |
| `ConfigSecrets.EncryptThenDecrypt` | pkg/kotsutil/kots.go:51-141 | no plaintext is left after encrypting, and decrypting gives every plaintext back with an empty value |
| `ConfigSecrets.EncryptAndDecrypt` | pkg/kotsutil/kots.go:51-141 | both on one object: when they succeed, what every entry is then, and exactly when all of them are as before |
| `ConfigSecrets.PlaintextIsLeft` | pkg/kotsutil/kots.go:52-54 | a concrete object without a configuration whose encryption succeeds and leaves the plaintext |
| `ConfigSecrets.RoundTripIff` | pkg/kotsutil/kots.go:51-141 | encrypting and decrypting gives all values back exactly when each one alone survives |
| `AppSlug.FindUniqueSlug` | pkg/app/app.go:102-124 | it ends within two more probes than there are slugs, with a free slug: the made one, or the name with a dash and the smallest number from 1 on that is free |
| `AppSlug.SomeProbeIsFree` | pkg/app/app.go:102-124 | the pigeonhole: only as many numbered slugs can be taken as there are slugs |

## Left out

- Network, disk and process work: Postgres drivers, S3 archives, kubectl, git, Velero, Helm, websockets. Tables are maps, kubectl calls succeed or fail as a parameter says, a rejected apply may have applied any part of its documents and a rejected removal has removed nothing.
- The snapshot table runs under READ COMMITTED; serialization failures, deadlocks and lost connections appear as a rollback that can come at any moment. Ids are fresh, the random generator that makes them is not modelled.
- SnapshotScheduler.SnapshotsStore.DeletePendingScheduledSnapshots: the statement that has to wait for other transactions is not this method but the steps `DeleteBegin`, `DeleteRow` and `DeleteEnd` of `SnapshotQueue`, because a method cannot be interrupted.
- `scheduleLoop` over several apps: each app's queue is independent, so it adds no state.
- Base64 around manifests, PVC clearing, namespace clearing, wait flags, image pull secrets and additional namespaces in the deploy handler.
- YAML decoding, SHA, AES, cron arithmetic and slugification are uninterpreted.
- ConfigRequest.MergeValues: an entry's plaintext field, and the error when no cipher can be made from the key, which counts as an update that fails before it creates a version.
- Version steps whose cursor comes from outside (uploading an existing app, upstream downloads), downstream statuses and the version archives; rows of the version table are read in any order because the cursor column is text.
- ResourceOrder.Sort: Go's sort algorithm is not part of this model. An insertion stands in for it; what it does with a list that has no sorted arrangement is left open.
- Throttle: the timer's channel is read without the lock; the model lets a firing happen at any moment after the deadline.
- `closeChannel`, `outLoop` and acknowledgements of the socket server.
- SnapshotTTL.ParseFormat: numbers of 2^53 and more in size, where the source's arithmetic rounds, are excluded. SnapshotTTL.FormatParseIff excludes them as well.
- AzureConfig.RoundTripIff: texts are sequences of characters, counted by their bytes in UTF-8; byte strings that are not UTF-8 are not modelled.
- FileTree.FileShownOnceIff: file names are compared as strings of characters; extracting the archive and walking it are not modelled, a walk gives every path once.
- The web client, GraphQL schemas, HTTP handlers that only forward, logging and `kurl_proxy`.

# Properties of the image23mf core

This project models the parts of image23mf where a mistake would lose or corrupt a user's work, and proves
what those parts promise. `dafny verify dfyconfig.toml` checks all of it.

- **Project bundles** (`Identifiers`, `Columns`, `Sorting`, `SharedRecords`, `Presets`, `History`,
  `HistoryValidation`, `Renaming`, `RestoreValidity`, `RoundTrip`, `StateIdentity`, `HistoryImport`, `RevisionOrder`,
  `DerivationKeys`, `ArtifactImport`, `Evidence`, `ProjectManifest`, `ValidContents`, `ProjectExport`,
  `ProjectRestore`, `RestoredHistory`, `RestoredProject`, `ExportScope`, `ProjectForesight`, `ExportValidity`,
  `ProjectRoundTrip`, `BundleExamples`, `ImportRace`): what a valid bundle and a valid undo/redo history are; a restore
  of a whole project into any database, as one transaction, with exact conditions for each way it ends; what every row
  holds afterwards, field by field, and what becomes of ids, derivation keys, fingerprints and evidence; what an export
  takes from the tables and what leaves it unchanged, a restore of another project included; when the restored project
  validates and so can be exported again; when that gives the same bundle back; concrete bundles at which each of these
  fails; and what concurrent restores of one bundle can do.
- **Workers** (`JobContract`, `Workers`, `WorkerSafety`, `WorkerEndings`, `WorkerManager`): job threads, tokens, the
  publication transaction with its four checkpoints, process death and startup recovery, as one state machine whose
  runs are all finite sequences of steps, as mutable state with a method for every step, and with what each end of a
  callback leaves in the row of its job.
- **Previews** (`Interior`, `PreviewPlan`, `PreviewReuse`, `RiskMask`, `Cursor`): the strictly-interior test and
  what it protects, the planner that reuses planes, the proof that reuse changes no result, the batched risk
  mask and the revision cursor.
- **Workspaces** (`WorkspaceSwap`, `WorkspaceRecords`, `GarbageCollection`): the staged restore and its swap of
  directory names under every pattern of failures and interrupts, what a workspace archive keeps, and the two-step
  removal of files that the queried tables do not name.

Code that changes state is modelled by classes and loops, proved against functions and predicates; code that
only computes is modelled by functions. Conventions: identifiers are numbers, because the code only compares
them; a SHA-256 digest is the value it was taken of, so equal digests mean equal values; `new_id` returns an id
that no row and no record of the bundle has; failures of the disk, of the database and of image code are inputs.

## What turned out not to hold as stated

- Garbage collection deletes files that rows still name. The selection mask of a prompted edit session and the two
  changed masks of each alternative are stored as artifacts that only the tables of prompted edits name, and
  `_referenced_blobs` does not ask those tables. A complete collection keeps every file that a row names exactly
  when no file of sufficient age is named by prompted edits alone
  (`GarbageCollection.Workspace.ApplyCurrentPlan`, `GarbageCollection.NamedFilesSurviveExactly`; at one mask,
  `GarbageCollection.CollectsASelectionMask`).
- Startup recovery fails as a whole exactly when a prompted edit was queued or running: `_retry_action` has no
  entry for it, the lookup raises inside the transaction, and nothing is recovered
  (`WorkerSafety.ReconcileCondition`, `WorkerSafety.InterruptedPromptedEditBlocksRecovery`).
- A restored history validates again exactly when its configurations were already canonical and the cursor's
  state was already spelled out (`RestoreValidity.RestoredHistoryValidates`; at one history each,
  `BundleExamples.SparseConfigFailsValidation`, `BundleExamples.TerseCursorFailsValidation`); it reads back unchanged
  under more conditions (`RoundTrip.RestoredHistoryExportsTheSame`, `BundleExamples.TerseStateExportsDifferently`).
- An export ends in the validation of what it has read, so a project can be restored and then never be exported with
  its history again: a configuration without one field that loading fills in is enough. Into whatever database it
  went, a restored project's records always validate, and its history does exactly under the two conditions above
  (`ExportValidity.RestoredRecordsAreOk`, `ExportValidity.RestoredContentsValidateExactly`; after an empty database,
  `ProjectRoundTrip.RestoreAndExport`, which adds that every asset in use has the extension of its path, a thing the
  validator of the bundle does not ask; at one project, `BundleExamples.SparseProjectIsStuck`).
- Exported, restored into an empty database and exported again, a project is the same up to operation ids exactly
  when the bundle is in the form of `ProjectRoundTrip.ComesBack`: natural keys unique, every shared record in use,
  presets of unique names and not built in, the active revision in the bundle, configurations canonical, operations
  and artifacts in export order, no kind and key shared by two artifacts, history and draft in current form
  (`ProjectRoundTrip.EmptyDatabaseRoundTrip`).
- A bundle that passes its validation may still be refused. The revision order raises for a cycle or a missing parent;
  everything else ends as one error, after which nothing has changed. The restore goes through exactly when none of
  these occurs (`ProjectRestore.ProjectDatabase.Restore`; told beforehand, `ProjectForesight.RestorableExactly`):
  - a column refuses a value that the validator never looks at: a blank project name, unless the id of the project is
    taken, since that makes the name longer; the color of a filament or the size of an asset that is not found in the
    table; the position or source of an operation; the generation of a draft; an integer over 64 bits;
  - the revisions have a cycle or lack a parent, such as the empty text, which the validator takes for no parent;
  - a configuration loads and cannot be rewritten, because its palette is a list, as version 0 had it, or because
    its asset was found under an id that loading refuses;
  - a publication stays fresh although the table wants a job, a preview and an artifact for it;
  - a preset's version is not positive, or the name it would be imported under is taken as well;
  - two states differ only in filaments with one natural key, so that their rewritten fingerprints collide.

  At concrete bundles: `BundleExamples.BlankNameNeedsATakenId`, `BundleExamples.ListPaletteIsRefused`,
  `BundleExamples.PublishedNothingIsRefused`, `BundleExamples.TwinFilamentsAreRefused`.
- Two revisions published from one preview share derivation keys, so importing both downgrades the fresh evidence
  of the later one, even into an empty database (`Evidence.SharedKeysCostEvidence`,
  `BundleExamples.PublishedTwiceLosesEvidence`).
- A recovery error of the directory swap names the wrong staged directory exactly when both renames worked, the
  sync failed, and the target could not be moved out of the way (`WorkspaceSwap.Volume.Activate`,
  `WorkspaceSwap.ReportsAMissingStage`).
- An interrupt between the two renames of a swap leaves nothing at the target and removes the directory that was
  there: the handlers are skipped, the removal of the previous directory is not. The rollback archive is then all
  that is left of it (`WorkspaceSwap.Volume.Restore`, `WorkspaceSwap.InterruptLosesTheDirectory`).
- A strictly interior edit leaves every other region alone but may split the region it edits
  (`Interior.InteriorEditMaySplitItsOwnRegion`); the region stays whole exactly when the pixels around the edit
  stay connected (`Interior.EditedRegionStaysWholeExactly`).

## Model

| member | source | states |
|---|---|---|
| WorkerSafety.StepKeepsInv | src/image23mf/workers.py:128-368 | every step of every thread, of the recovery and of process death keeps the tables, row ownership, thread and writer-lock invariants; what each step does is told by `WorkerEndings` and the methods of `WorkerManager` |
| WorkerSafety.RunKeepsInv | src/image23mf/workers.py:128-368 | so does every interleaving of any length |
| WorkerSafety.RowsBelongToSucceededJobs | src/image23mf/workers.py:267-336 | in every reachable state a job owns artifact rows only if it succeeded, and then exactly one row for each artifact of its one result, under the job and its revision |
| WorkerSafety.TerminalIsFinal | src/image23mf/contracts/jobs.py:61-80 | after any further run a job that was succeeded, failed, canceled or superseded is unchanged |
| WorkerSafety.SupersededNeverSucceeds | src/image23mf/workers.py:142-174 | a job of a generation at or below an enqueued newer one can only be succeeded later if it already was, whatever tokens were or were not found |
| WorkerSafety.OneActiveJobPerKey | src/image23mf/storage/jobs.py:56-135 | of two active jobs of one project and key there is only one, and it carries the newest generation |
| WorkerSafety.RunEvolves | src/image23mf/workers.py:267-336 | over any run the artifact rows only grow, terminal jobs stay, and new generations exceed every earlier head |
| WorkerSafety.ReconcileCondition | src/image23mf/recovery.py:80-104 | recovery fails every interrupted job exactly when each has a retry action, and otherwise changes nothing |
| WorkerSafety.InterruptedPromptedEditBlocksRecovery | src/image23mf/recovery.py:190-196 | a reachable run that ends with an interrupted prompted edit recovery cannot get past |
| WorkerSafety.StepFollowsTheTable | src/image23mf/contracts/jobs.py:61-80 | in one step a queued row stays or becomes running, failed, canceled or superseded, a running one stays or becomes succeeded, failed, canceled or superseded, and no other row moves |
| WorkerSafety.TablesAreLocked | src/image23mf/workers.py:277-320 | while a publication's transaction is open, no step of anyone else but the end of the process touches the tables or the lock |
| WorkerSafety.OnlyTheCommitShows | src/image23mf/workers.py:299-334 | artifact rows change in no other step than a commit, by the holder of the lock, which succeeds its job in the same step |
| WorkerEndings.RaisingMeans | src/image23mf/workers.py:248-265 | what a callback lets out decides the way its row goes: a cancellation towards the cancel, a crash towards the failure, a forbidden transition nowhere but to its token |
| WorkerEndings.ReadingMeans | src/image23mf/workers.py:342-363 | the first half of both ways goes on to the write exactly for a queued or running row, the cancel for a canceled one as well |
| WorkerEndings.WritingMeans | src/image23mf/workers.py:342-363 | the second half ends a queued or running row as canceled or as failed, by the way it came, and leaves every other row and one that has ended meanwhile as they are |
| WorkerEndings.WritingWaits | src/image23mf/storage/repositories.py:109-124 | while another thread's transaction is open the write waits |
| WorkerEndings.EndIsRecorded | src/image23mf/workers.py:248-265 | whatever other threads do before and between the two halves, a crashed callback leaves exactly its job failed and a canceled one leaves it canceled, unless it has ended otherwise by then |
| WorkerEndings.LeftAloneItEnds | src/image23mf/workers.py:342-363 | left alone, an active job always ends that way |
| WorkerEndings.LeftAloneItPublishes | src/image23mf/workers.py:241-336 | left alone, a job whose result passes every check ends succeeded, with one row for each artifact behind the rows there were |
| WorkerEndings.CanceledTokenEndsTheJob | src/image23mf/workers.py:75-77 | a canceled token stops the callback at its next check and the job ends canceled |
| WorkerManager.InsertRows | src/image23mf/workers.py:299-319 | the insert loop succeeds exactly when every row is unique per owner, key and kind among those before it and no revision is sealed |
| Workers.InsertableExactly | src/image23mf/workers.py:299-319 | rows go in exactly when none is of a sealed revision, none clashes with an existing row, and no two clash with each other |
| Workers.ResultFitsExactly | src/image23mf/storage/migrations.py:461-471 | for a result that is: its revision is not sealed, no row of the job or of the revision has an artifact's kind and key, and no two artifacts share both |
| Workers.WellFormedExactly | src/image23mf/workers.py:268-272 | kind and key hold a character that is not white space, and the path begins with the artifacts namespace |
| JobContract.AllowedExactly | src/image23mf/contracts/jobs.py:61-80 | the transition table |
| WorkerManager.FailInterrupted | src/image23mf/recovery.py:80-104 | the loop reports exactly the active jobs and fails them all, or stops at one without a retry action |
| WorkerManager.LocalWorkerManager.Enqueue | src/image23mf/storage/jobs.py:56-135 | the new job is queued at the head of its key with a generation above every earlier one, is the only active job of the key, and the active old head is superseded; no other row changes |
| WorkerManager.LocalWorkerManager.Register | src/image23mf/workers.py:154-174 | an open manager gives the job a live token and cancels the superseded job's token if there is one; a closed one registers nothing and withdraws the row |
| WorkerManager.LocalWorkerManager.Shutdown | src/image23mf/workers.py:215-223 | closes once and cancels every token there is |
| WorkerManager.LocalWorkerManager.CancelRow | src/image23mf/workers.py:176-185 | a cancel is accepted exactly when the job ends canceled |
| WorkerManager.LocalWorkerManager.Start | src/image23mf/workers.py:225-240 | a thread starts exactly a queued or running job; a refused start cancels the token |
| WorkerManager.LocalWorkerManager.Report | src/image23mf/workers.py:79-91 | progress is stored exactly for a live token, a value from 0 to below 1, a running row and no step back; a job no longer running has its token canceled |
| WorkerManager.LocalWorkerManager.CheckCanceled | src/image23mf/workers.py:75-77 | a callback goes on exactly with a live token, else towards the cancel |
| WorkerManager.LocalWorkerManager.Raise | src/image23mf/workers.py:248-265 | where each exception of a callback leads, and that it writes no row |
| WorkerManager.LocalWorkerManager.ReadRow | src/image23mf/workers.py:342-363 | the states in which a cancellation and a failure go on to write |
| WorkerManager.LocalWorkerManager.WriteRow | src/image23mf/workers.py:342-363 | a write from a cancellation cancels and one from a failure fails, exactly an active job, and changes no other row |
| WorkerManager.LocalWorkerManager.Forget | src/image23mf/workers.py:365-368 | a thread that is done leaves no phase and no token |
| WorkerManager.LocalWorkerManager.VerifyBlobs | src/image23mf/workers.py:267-275 | publication goes on exactly for an uncanceled token, well-formed artifacts and intact blobs |
| WorkerManager.LocalWorkerManager.WriteRows | src/image23mf/workers.py:277-320 | rows are staged exactly for a running job that is still the head of its key and whose rows can be inserted, one for each artifact; committed rows do not change; a result no longer wanted ends quietly, a refused one as a failure |
| WorkerManager.LocalWorkerManager.Commit | src/image23mf/workers.py:320-334 | the conditional update never misses: the job has succeeded and owns exactly the rows of what its callback returned, every other job's rows are unchanged |
| WorkerManager.LocalWorkerManager.RaiseAtCheckpoint | src/image23mf/workers.py:338-363 | an exception at a checkpoint drops staged rows and leaves jobs and committed rows alone |
| WorkerManager.LocalWorkerManager.Reconcile | src/image23mf/recovery.py:73-104 | recovers exactly when every active job has a retry action; then no job is active and the evidence lists each that was; otherwise nothing changes |
| History.StoredReadsBack | src/image23mf/bundles.py:1583-1598 | operations written in stored form read back as they were |
| History.RepetitionClosesTheChain | src/image23mf/bundles.py:1623-1636 | once a parent chain repeats a node it visits nothing new |
| History.IsAncestor | src/image23mf/bundles.py:1623-1636 | on any finite parent map, cyclic or not, the loop terminates and decides reflexive-transitive ancestry |
| HistoryValidation.UpDescendsByOne | src/image23mf/bundles.py:461-487 | each parent step stays in the lineage and lowers the depth by one |
| HistoryValidation.EveryNodeReachesTheOnlyRoot | src/image23mf/bundles.py:461-487 | in a valid graph following parents reaches the lineage's unique root in exactly `depth` steps, all nodes on the way distinct |
| HistoryValidation.PathHasDepthPlusOneNodes | src/image23mf/bundles.py:461-487 | the path to the root has depth + 1 nodes of the same lineage |
| HistoryValidation.AbandonedNodeCount | src/image23mf/bundles.py:1647-1660 | the loops count the nodes of the head's lineage minus the depth of the tip plus one |
| HistoryValidation.ValidateHistory | src/image23mf/bundles.py:390-525 | the checks accept exactly the histories whose graph, head and draft are in order |
| HistoryValidation.ValidatedHistoryIsCountable | src/image23mf/bundles.py:461-510 | validation gives what the count needs |
| Renaming.UpCommutes | src/image23mf/bundles.py:1733-1763 | the k-th ancestor of a node's image is the image of its k-th ancestor |
| Renaming.AncestryCommutes | src/image23mf/bundles.py:1733-1763 | an injective renaming keeps and reflects ancestry |
| RestoreValidity.StateStaysOk | src/image23mf/bundles.py:1693-1731 | a restored state passes validation exactly when its configuration was canonical, although the hash is taken before canonicalisation |
| RestoreValidity.RootsStaySingle | src/image23mf/bundles.py:461-487 | every restored lineage has exactly one root |
| RestoreValidity.GraphStaysOk | src/image23mf/bundles.py:1663-1785 | the restored lineages, states and nodes pass every graph check exactly when the configurations were canonical |
| RestoreValidity.HeadStaysOk | src/image23mf/bundles.py:488-525 | the restored head's four nodes are in one lineage, in order, on the path of the tip |
| RestoreValidity.DraftStaysAtCursor | src/image23mf/bundles.py:1199-1219 | the restored draft is the restored cursor state exactly when the cursor state was in current form |
| RestoreValidity.RestoredHistoryValidates | src/image23mf/bundles.py:390-525 | the whole validation holds again exactly under these two conditions, for any target database |
| Identifiers.AvailableIds | src/image23mf/bundles.py:1812-1819 | new ids are injective and unused, and an id is kept exactly when it was free |
| HistoryImport.HistoryTables.InsertNextNode | src/image23mf/bundles.py:1733-1763 | nodes go in by depth, each meeting the table's triggers because its parent is already there |
| HistoryImport.HistoryTables.InsertGraph | src/image23mf/bundles.py:1675-1763 | all inserts of lineages, states and nodes pass exactly when every integer fits its column, every configuration can be rewritten and no two rewritten states are equal |
| HistoryImport.HistoryTables.RestoreFullHistory | src/image23mf/bundles.py:1663-1785 | into any database the restore succeeds exactly when every integer and the draft's generation fit their columns, every configuration can be rewritten and the chosen filament ids make no two states alike; it keeps an id exactly when it was free, yields an isomorphic image of the bundle's history, and leaves every other project's history as it was |
| RestoredHistory.HeadIsCarried | src/image23mf/bundles.py:1766-1784 | after any restore checkpoint, floor, cursor and tip are the images of the bundle's four, under the same lineage, with undo limit and details as they were |
| RestoredHistory.NodeIsCarried | src/image23mf/bundles.py:1733-1763 | every node has its row under its new id, with the images of its lineage, parent, state and checkpoint, and its own depth, request, time and details |
| RestoredHistory.StateIsCarried | src/image23mf/bundles.py:1693-1731 | every state has its row, with the images of lineage, base, source and filaments, its configuration in loaded form and its operations spelled out |
| RestoredHistory.LineageIsCarried | src/image23mf/bundles.py:1675-1692 | every lineage has its row with the images of base and source and its own details |
| RestoredHistory.DraftIsCarried | src/image23mf/bundles.py:1199-1219 | the draft has the image of its base and configuration, and its own operations, generation and details |
| RestoredHistory.NothingIsAdded | src/image23mf/bundles.py:1663-1785 | the project has no other lineage, state or node, and a head and a draft exactly when the bundle has them |
| RestoredHistory.StepsAreKept | src/image23mf/bundles.py:1733-1763 | as many steps lead from a node to another one's image as led from the one to the other |
| RestoredHistory.UndoAndRedoAreKept | src/image23mf/bundles.py:1766-1784 | so the same number of undo and redo steps is left, and as many nodes are abandoned |
| SharedRecords.ImportShared | src/image23mf/bundles.py:923-1000 | shared records are found by natural key or inserted, a new one under its own id exactly when that was free; existing rows stay, keys stay unique; it ends exactly when the columns refuse a record that is not found |
| SharedRecords.TargetOf | src/image23mf/bundles.py:923-1000 | a record ends up at the row with its key, else where the first record with its key goes: under that one's id when free, else under an id new to table and bundle |
| SharedRecords.SharedIdStaysExactly | src/image23mf/bundles.py:923-1000 | told before the import: a record keeps its id exactly when the row with its key has it, or there is no such row, the record is the first with its key and its id is free |
| SharedRecords.EmptyTableTakesOverExactly | src/image23mf/bundles.py:923-1000 | an empty table takes the records over as they are exactly when no two share a natural key |
| SharedRecords.RecordsCollapseByKey | src/image23mf/bundles.py:923-975 | two records get one id exactly when they share their natural key |
| Columns.ImportedNameFitsExactly | src/image23mf/bundles.py:1002-1007 | the suffix of an imported project makes a name of spaces acceptable, and no other refused one |
| Presets.RestorePresets | src/image23mf/bundles.py:1865-1897 | goes through exactly when each preset, among the rows there were and the presets before it, is there already or finds its place free and its version storable; rows there were stay |
| Presets.EveryPresetIsThere | src/image23mf/bundles.py:1865-1897 | afterwards the contents of every preset are there, under its name or beside another preset of that name |
| Presets.PresetIsOnARow | src/image23mf/bundles.py:1865-1897 | that is: a row has its version and settings, under its own name or the one with the first eight characters of the bundle's hash |
| Presets.NewPresetKeepsItsName | src/image23mf/bundles.py:1877-1897 | a preset whose name no row and no earlier preset takes keeps it, with all details, and its id when that is free |
| Presets.NothingIsAddedExactly | src/image23mf/bundles.py:1871-1876 | no row is added exactly when every preset was there before |
| Presets.DistinctNamesFitExactly | src/image23mf/bundles.py:1865-1897 | into an empty table presets of distinct names go exactly when every version is positive and fits |
| Presets.EmptyTableTakesOverPresets | src/image23mf/bundles.py:1877-1897 | an empty table takes over presets of distinct names as they are |
| StateIdentity.StatesStayDistinctExactly | src/image23mf/bundles.py:1693-1731 | all states can be rewritten to different rows exactly when each configuration can be rewritten and no two states differ in nothing but filaments that got one id |
| StateIdentity.NamingsAgree | src/image23mf/bundles.py:923-975 | natural keys and chosen ids make the same states collide, so the collision can be told from the bundle |
| StateIdentity.InjectiveFilamentsKeepStatesApart | src/image23mf/bundles.py:1693-1731 | with injective filament ids no two states of a valid history collide |
| RoundTrip.RestoredHistoryExportsTheSame | src/image23mf/bundles.py:687-858 | with no id renamed, the rows of the restored history read as the history of the bundle exactly when configurations, operations and draft version were in stored form |
| RevisionOrder.TopologicalRevisions | src/image23mf/bundles.py:1788-1809 | terminates; succeeds exactly when every parent chain ends at a parentless revision; lists every revision once, by distance from the root, then time, then id |
| RevisionOrder.EqualLevelsGoByTime | src/image23mf/bundles.py:1795-1802 | of two revisions as far from their roots the one published earlier stands first, at one time the one with the lower id |
| RevisionOrder.LowerLevelsComeFirst | src/image23mf/bundles.py:1794-1808 | a revision nearer its root stands before one farther from its own |
| RevisionOrder.RepeatedIdsKeepTheLast | src/image23mf/bundles.py:1791 | of revisions with one id the last is ordered |
| RevisionOrder.ParentsComeFirst | src/image23mf/bundles.py:1788-1809 | every parent stands before its children |
| RevisionOrder.OrderIsAPermutation | src/image23mf/bundles.py:1788-1809 | with distinct ids the result is a permutation of the input |
| RevisionOrder.OrderFailsExactlyOnRootlessSets | src/image23mf/bundles.py:1802-1803 | the error is raised exactly when some non-empty set of revisions is closed under parents and has no root: a cycle or a missing parent |
| DerivationKeys.DecimalReadsBack | src/image23mf/bundles.py:1854-1862 | a printed counter reads back |
| DerivationKeys.CandidatesDiffer | src/image23mf/bundles.py:1854-1862 | the keys tried are pairwise distinct |
| DerivationKeys.KeyForIsChosen | src/image23mf/bundles.py:1854-1862 | a free key is kept; one in use becomes the copy with the first twelve characters of the bundle's hash and the least number from 1 that is free |
| DerivationKeys.AvailableDerivationKey | src/image23mf/bundles.py:1854-1862 | terminates after at most as many tries as there are keys in use, with the first free candidate |
| ArtifactImport.ArtifactTable.Import | src/image23mf/bundles.py:1084-1115 | appends one row per artifact that differs from it only in owner, id and key, with id and key kept exactly when they were free at that moment |
| ArtifactImport.ImportKeepsRowsDistinct | src/image23mf/bundles.py:1084-1115 | the import keeps ids, and derivation keys within a kind, unique |
| ArtifactImport.KeyStaysExactly | src/image23mf/bundles.py:1089-1094 | told from the rows there were and the bundle: an artifact keeps its key exactly when neither a row nor an earlier artifact of its kind has taken it |
| ArtifactImport.IdStaysExactly | src/image23mf/bundles.py:1084-1088 | and its id exactly when no row had it |
| ArtifactImport.EmptyTableKeepsKeysExactly | src/image23mf/bundles.py:1084-1094 | an empty table keeps all keys exactly when no two artifacts share kind and key |
| ArtifactImport.RevisionOwnsItsImages | src/image23mf/bundles.py:1136-1147 | a restored revision owns exactly the images of its artifacts |
| Evidence.RestorePublication | src/image23mf/bundles.py:1130-1188 | whatever was rewritten, the restored row satisfies the evidence rule on the restored artifacts, and only fresh evidence that no longer matches is downgraded |
| Evidence.RestorePublications | src/image23mf/bundles.py:339-374 | the same for all rows; the insert is refused exactly when a draft generation is over 64 bits or evidence stays fresh without an artifact, a job or a preview key |
| Evidence.SameManifestExactly | src/image23mf/storage/repositories.py:1851-1868 | the artifact manifest is unchanged exactly when order, keys and source ids are |
| Evidence.FreshEvidenceSurvivesExactly | src/image23mf/bundles.py:1130-1160 | told before the import: fresh evidence survives exactly when the config hash is kept, the bundle lists the artifacts by age, and each finds its key free and its id free or not needed |
| Evidence.SharedKeysCostEvidence | src/image23mf/bundles.py:1084-1160 | of two fresh revisions with artifacts of one kind and key the later never stays fresh, even in an empty database |
| ProjectManifest.ValidateContents | src/image23mf/bundles.py:285-388 | the checks accept exactly what is closed under references, has the fingerprints and evidence of its contents and a valid history |
| ValidContents.RevisionsAreClosed | src/image23mf/bundles.py:320-332 | in accepted contents every revision's source, parent and filaments are there, its configuration loads with two to eight colors, and its fingerprint is that of the loaded one |
| ValidContents.OwnersAreClosed | src/image23mf/bundles.py:333-345 | the active revision and the owner of every artifact, operation and publication are there |
| ValidContents.HistoryIsClosed | src/image23mf/bundles.py:390-487 | every lineage, state and node names only what is there and agrees with it in lineage, source, base and depth; every state is some node's, every request one node's, every size and hash its state's |
| ValidContents.DraftIsAtTheCursor | src/image23mf/bundles.py:488-525 | there is a head exactly when there is a draft, its nodes are of its lineage, and the draft is the state at the cursor |
| ValidContents.PublicationsAreSupported | src/image23mf/bundles.py:343-374 | every publication has the config hash and the commands of its revision; a fresh one lists every artifact by source, kind, digest, key, type and size, another lists none |
| ValidContents.EvidenceSupportsExactly | src/image23mf/storage/repositories.py:1851-1868 | the evidence rule, told by the fields of what it compares |
| ValidContents.CommandsAreSelected | src/image23mf/bundles.py:1836-1851 | the commands of two stretches of operations are those of the one before those of the other |
| ValidContents.OneCommand | src/image23mf/bundles.py:1836-1851 | an operation has its command, a palette edit none |
| ValidContents.OperationsAreReplayedInOrder | src/image23mf/bundles.py:346-356 | replayed are the operations of the revision, each as often as it is there, by sequence |
| ValidContents.RecordColumnsFitExactly | src/image23mf/storage/migrations.py:24-110 | the columns take the records exactly when every new filament's color begins with a hash sign and a hexadecimal digit, every new asset's size is positive, and the project's name has a character that counts |
| ValidContents.RowColumnsFitExactly | src/image23mf/storage/migrations.py:144-150 | and the other rows exactly when positions are not negative, sources are one of three words, a draft's generation is positive, and every integer has 64 bits |
| ProjectExport.Export | src/image23mf/bundles.py:687-858 | an export is there exactly when its assets have the extensions of their paths and what was read validates; it is what `ExportScope` tells |
| ExportScope.FilamentsExportedExactly | src/image23mf/bundles.py:1567-1580 | a filament row is exported, as it is, exactly when some palette color of the project's revisions, draft or states names its id |
| ExportScope.AssetsExportedExactly | src/image23mf/bundles.py:747-757 | an asset row exactly when a revision, the draft or a lineage of the project has it as its source |
| ExportScope.RecordsExportedExactly | src/image23mf/bundles.py:687-858 | the project's revisions and their publications, all of them and as they are, and every preset of the workspace that is not built in |
| ExportScope.HistoryExportedExactly | src/image23mf/bundles.py:710-745 | the project's lineages, their states, its nodes, its head and its draft |
| ExportScope.OperationsExportedExactly | src/image23mf/bundles.py:807-818 | the operations of its revisions, each as often as it is there, by revision and sequence |
| ExportScope.ArtifactsExportedExactly | src/image23mf/bundles.py:759-776 | the artifacts of its revisions, each as often as it is there, by age and id |
| ExportScope.UnnamedRowsMakeNoDifference | src/image23mf/bundles.py:747-823 | any other filament and asset tables that agree on what the project names give the same export |
| ExportScope.FilamentsAgreeExactly | src/image23mf/bundles.py:820-823 | two filament tables give the same exported filaments exactly when they agree on every filament the project names |
| ExportScope.OtherExportsStayExactly | src/image23mf/bundles.py:889-1266 | importing a project leaves the export of every other one as it was, but for presets, exactly when it brings no filament or asset that the other names and lacks; presets only gain |
| ProjectRestore.InsertRevisions | src/image23mf/bundles.py:1025-1057 | revisions go in parents first, each finding its parent's new row, and nothing else changes; it ends exactly when a configuration cannot be rewritten; what the rows hold is told by `RestoredProject.RevisionIsCarried` |
| ProjectRestore.ProjectDatabase.Restore | src/image23mf/bundles.py:889-1266 | one transaction over all tables: exactly when it raises for the revision order, exactly when it goes through; on success every record is there under its chosen id, as `RestoredProject` tells field by field, otherwise nothing changed |
| RestoredProject.RevisionIsCarried | src/image23mf/bundles.py:1025-1057 | into any database: every revision of the bundle has its row under its new id, which no row had, with no parent exactly when it had none and else its parent's new id, the image of its source and of each palette filament, its body in loaded form and the fingerprint of that, and its time and details as they were |
| RestoredProject.NoOtherRevision | src/image23mf/bundles.py:1025-1057 | the project has no other revision |
| RestoredProject.FilamentIsCarried | src/image23mf/bundles.py:923-952 | every reference to a filament leads to a row of its product and color, with its details when the row is new |
| RestoredProject.AssetIsCarried | src/image23mf/bundles.py:953-1000 | and every reference to an asset to a row of its digest |
| RestoredProject.ProjectIsCarried | src/image23mf/bundles.py:1002-1023 | the project has a new row, under its id and name when the id was free and under the longer name when not; its active revision is the image of the bundle's |
| RestoredProject.OperationIsCarried | src/image23mf/bundles.py:1062-1082 | the operations follow those there were in the order of the bundle, each under a new id, its revision's new id and else as it was |
| RestoredProject.ArtifactIsCarried | src/image23mf/bundles.py:1084-1115 | so do the artifacts, each with an id and a key within its kind that no earlier row has |
| RestoredProject.ArtifactKeyIsCarried | src/image23mf/bundles.py:1089-1094 | and its own key when that is free among them, else the first free numbered copy |
| RestoredProject.PublicationIsCarried | src/image23mf/bundles.py:1117-1188 | every publication has its row, as it was or downgraded from fresh to stale with count and manifest gone |
| RestoredProject.SequenceIsTakenAgain | src/image23mf/bundles.py:1131-1135 | its editor sequence is that of the restored fingerprint and the commands of its revision |
| RestoredProject.NoOtherPublication | src/image23mf/bundles.py:1161-1188 | and there is no other new publication |
| RestoredProject.PresetIsCarried | src/image23mf/bundles.py:1865-1897 | every preset is in the workspace, under its name or the longer one; under its own, with its details, when that was free |
| RestoredProject.HistoryIsCarried | src/image23mf/bundles.py:1199-1219 | head and draft of the project are the images of the bundle's, field by field |
| RestoredProject.HistoryNodeIsCarried | src/image23mf/bundles.py:1733-1763 | and so is every node |
| RestoredProject.RestoreKeepsRows | src/image23mf/bundles.py:889-1266 | no row there was is changed or removed, in any table, and no other project's history |
| ProjectForesight.FingerprintStaysExactly | src/image23mf/bundles.py:1822-1833 | a revision keeps its fingerprint exactly when its source image and every filament of its palette keep their ids |
| ProjectForesight.FreshStaysExactly | src/image23mf/bundles.py:1117-1160 | told before the restore, from the tables and the bundle: when a fresh publication stays fresh |
| ProjectForesight.RefusedExactly | src/image23mf/bundles.py:1161-1188 | a restore that gets to the publications is refused one exactly when a draft generation is over 64 bits or evidence will stay fresh that has no job, no preview or no artifact |
| ProjectForesight.RewritesExactly | src/image23mf/bundles.py:1822-1833 | told before the restore: a configuration can be rewritten exactly when its palette is an object, it loads, and loading accepts the id at which its asset is found or goes in |
| ProjectForesight.RestorableExactly | src/image23mf/bundles.py:889-1266 | told before the restore, from the tables and the bundle: whether it goes through |
| ExportValidity.SortingKeepsRevisions | src/image23mf/bundles.py:752-786 | the artifacts of a revision are the same, in order, whether an export sorts them all or a restore sorts them alone |
| ExportValidity.CommandsComeAlong | src/image23mf/bundles.py:1836-1851 | a restored revision replays the commands of its original, whatever ids and places its operations got |
| ExportValidity.RestoredRecordsAreOk | src/image23mf/bundles.py:285-388 | after a restore into any database, revisions, artifacts, operations and publications of the project validate again, always |
| ExportValidity.RestoredContentsValidateExactly | src/image23mf/bundles.py:817-858 | so what an export of it reads validates exactly when the bundle's configurations were canonical and its cursor state current |
| ProjectRoundTrip.OperationsComeBack | src/image23mf/bundles.py:1059-1081 | operations come back under new ids in the same order exactly when the bundle had them in export order |
| ProjectRoundTrip.ArtifactsComeBack | src/image23mf/bundles.py:1084-1115 | artifacts come back as they were exactly when no two share kind and key and the bundle lists them by age |
| ProjectRoundTrip.PublicationsComeBack | src/image23mf/bundles.py:1117-1188 | with their artifacts back, so is every publication |
| ProjectRoundTrip.PresetsComeBack | src/image23mf/bundles.py:824-826 | presets come back exactly when their names are unique and none is built in |
| ProjectRoundTrip.ExportableExactly | src/image23mf/bundles.py:817-858 | a bundle restored into an empty database can be exported again exactly when its configurations were canonical, its cursor state current and the extensions of its used assets those of their paths |
| ProjectRoundTrip.EmptyDatabaseRoundTrip | src/image23mf/bundles.py:687-858 | what an export then reads is the bundle up to operation ids exactly under the conditions of `ComesBack` |
| ProjectRoundTrip.RestoreAndExport | src/image23mf/bundles.py:889-1266 | the whole trip through an empty database: exactly when a validated bundle goes in, when the restored project can be exported again, and when the second manifest is the first |
| BundleExamples.SparseConfigFailsValidation | src/image23mf/bundles.py:1693-1731 | a valid one-node history whose configuration lacks a field that loading fills in; its restored form does not validate |
| BundleExamples.TerseCursorFailsValidation | src/image23mf/bundles.py:1199-1219 | one with canonical configurations and a terse operation at the cursor, which does not validate either |
| BundleExamples.TerseStateExportsDifferently | src/image23mf/bundles.py:1583-1598 | one whose restored form validates and reads differently |
| BundleExamples.TwinFilamentsAreRefused | src/image23mf/bundles.py:1693-1731 | a valid bundle with two filament records of one natural key that no database takes |
| BundleExamples.ListPaletteIsRefused | src/image23mf/bundles.py:1822-1833 | a valid bundle with a revision of version 0 that no database takes |
| BundleExamples.BlankNameNeedsATakenId | src/image23mf/bundles.py:1002-1019 | a valid bundle with a blank project name, whose columns a database takes exactly when it has the project's id |
| BundleExamples.SparseProjectIsStuck | src/image23mf/bundles.py:817-858 | a valid bundle that goes into an empty database and cannot be exported from it |
| BundleExamples.PublishedOnceComesBack | src/image23mf/bundles.py:687-858 | a valid bundle with a fresh publication that goes into an empty database and comes back as it was |
| BundleExamples.PublishedNothingIsRefused | src/image23mf/bundles.py:339-374 | a valid bundle whose fresh publication lists no artifact and is refused |
| BundleExamples.PublishedTwiceLosesEvidence | src/image23mf/bundles.py:1084-1160 | a valid bundle with two revisions of one preview: the first stays fresh, the second does not |
| ImportRace.StepKeepsInv | src/image23mf/bundles.py:902-921 | every step of concurrent restores keeps one import row per bundle and every returned project in the tables |
| ImportRace.RunKeepsInv | src/image23mf/bundles.py:902-921 | over every interleaving projects and import rows grow together, by appending |
| ImportRace.OneProjectPerBundle | src/image23mf/bundles.py:663-685 | two restores of one bundle return one project, and at most one of them created it; none did when it was imported before |
| ImportRace.RowIsNeverRefused | src/image23mf/bundles.py:1241-1248 | the check inside the transaction makes the primary key constraint unreachable |
| ImportRace.OnlyCommitsWrite | src/image23mf/storage/repositories.py:109-124 | no step but a commit changes the tables, and an exception or the end of the process closes the transaction |
| ImportRace.FailuresLeaveNoTrace | src/image23mf/bundles.py:1249-1254 | a payload that cannot be stored and an exception inside the transaction end the restore with the tables as they were |
| ImportRace.KnownBundleReturnsItsProject | src/image23mf/bundles.py:663-681 | a bundle imported before returns a project that its import row names, and changes nothing |
| ImportRace.LateBundleReturnsItsProject | src/image23mf/bundles.py:902-921 | so does one imported between the two checks |
| ImportRace.NewBundleIsImported | src/image23mf/bundles.py:683-685 | a new bundle, undisturbed, adds its project and its import row and nothing else |
| Interior.StrictlyInteriorExactly | src/image23mf/invalidation.py:71-109 | the test holds exactly when the selection is non-empty and every 3x3 block around a selected pixel lies in the canvas, is active and has one label |
| Interior.InteriorEditKeepsOtherRegions | src/image23mf/invalidation.py:71-109 | relabelling such a selection leaves connectivity of all other pixels unchanged, for both adjacencies |
| Interior.EditedPixelsFormTheirOwnRegions | src/image23mf/invalidation.py:71-109 | a recolored pixel is connected only to selected pixels |
| Interior.InteriorEditOnlySplitsItsRegion | src/image23mf/invalidation.py:71-109 | the edited region can fall apart but never grows or merges |
| Interior.InteriorEditMaySplitItsOwnRegion | src/image23mf/invalidation.py:71-109 | and it does fall apart when a closed ring is filled |
| Interior.EditedRegionStaysWholeExactly | src/image23mf/invalidation.py:71-109 | the regions of a label stay whole exactly when the pixels beside recolored ones that were connected still are |
| PreviewPlan.EveryPlanIsWellFormed | src/image23mf/invalidation.py:28-50 | each stage is either reused or recomputed, and scoped work names its baseline and a non-empty mask |
| PreviewPlan.ScopedExactly | src/image23mf/processing.py:1911-2009 | work is scoped exactly when versions, catalogs and the whole configuration are the baseline's, the commands are its commands and one more, and that is a fill or a color cleanup whose selection can be rasterized and is strictly interior to the baseline's planes; a scoped plan names the baseline, the mask and its count |
| PreviewPlan.ReasonsExactly | src/image23mf/processing.py:1911-2009 | every plan's reason is given exactly when its own condition is the first to fail, and every full plan reuses nothing and recomputes all stages |
| PreviewPlan.NoBaselineExactly | src/image23mf/processing.py:1939-1940 | no baseline is reported exactly when there is none |
| PreviewReuse.JobScopedExactly | src/image23mf/processing.py:1827-1908 | against the store: scoped exactly when the baseline's evidence can be read, its request differs by that one command, and the edit is strictly interior to its stored labels and active pixels |
| PreviewReuse.ReusedPlanesAreCurrent | src/image23mf/processing.py:1003-1091 | whenever planes are reused they equal what this request would compute |
| PreviewReuse.PreviewIsTheFullPipeline | src/image23mf/processing.py:962-1091 | a preview stores what the unconditional pipeline stores, from any baseline |
| PreviewReuse.EveryPreviewIsExact | src/image23mf/processing.py:395-465 | over any sequence of previews, each planned against earlier ones that may themselves be scoped, every stored record is exact |
| PreviewReuse.PreviewJobs.RunPreview | src/image23mf/processing.py:962-1091 | whatever it reuses, a job stores exactly what the full pipeline gives, fails only with the pipeline or its evidence, writes the component fingerprints of its own configuration, and keeps every stored record exact |
| RiskMask.RegionIndex | src/image23mf/processing.py:1760 | a repeated region id stands for its last region |
| RiskMask.MarkFinding | src/image23mf/processing.py:1769-1786 | one warning adds its severity to exactly the regions and labels it names and is exact exactly when it names one |
| RiskMask.SpreadLabels | src/image23mf/processing.py:1787-1788 | label marks reach exactly the regions of their label |
| RiskMask.RiskSeverityMask | src/image23mf/processing.py:1744-1792 | a pixel has a severity bit exactly when it is active and a warning of that severity names its region or label; no other bits; exact and approximate counts add up; each error exactly in its case |
| RiskMask.MaskByteIsASum | src/image23mf/processing.py:1764 | every byte is one for an info, two for a warning and four for an error that lists the label of the pixel's region, or its id when no later region has the same |
| RiskMask.MaskIsDetermined | src/image23mf/processing.py:1750-1755 | the per-pixel definition fixes every byte |
| RiskMask.MaskIgnoresOrder | src/image23mf/processing.py:1769-1788 | order and repetition of warnings do not matter |
| RiskMask.DistinctIdsNameDirectly | src/image23mf/processing.py:1760-1775 | with distinct region ids a warning names a region exactly by listing its id or label |
| Cursor.SymbolsAreUrlSafe | src/image23mf/processing.py:2447-2449 | the 64 symbols of the URL-safe alphabet in their order |
| Cursor.DecodeInvertsEncode | src/image23mf/processing.py:2447-2449 | padded URL-safe base64 decodes back |
| Cursor.StrippedPaddingComesBack | src/image23mf/processing.py:2452-2455 | stripped padding is determined by the length modulo four |
| Cursor.CursorRoundTrip | src/image23mf/processing.py:2447-2467 | decoding an encoded cursor returns the payload for every length |
| Cursor.DecodedCursorsEncodeBackExactly | src/image23mf/processing.py:2447-2467 | an accepted cursor is the encoding of what it decodes to exactly when it is canonical |
| Cursor.ExcessPaddingIsIgnored | src/image23mf/processing.py:2452-2455 | any number of padding signs after a whole last group decodes to the same bytes |
| Cursor.SeveralTextsReadAlike | src/image23mf/processing.py:2452-2455 | the decoder also accepts left-over bits, explicit padding, padding after a whole group and the standard alphabet |
| WorkspaceSwap.ArchiveKeepsExactly | src/image23mf/workspace_bundles.py:404-480 | an archive holds no write-ahead log, shared memory or temporary file, every other file as it is, and for the database a snapshot read through its log |
| WorkspaceSwap.ExportableExactly | src/image23mf/workspace_bundles.py:404-480 | an archive can be written exactly when every file that the rows of the snapshot name is there as they describe it, outside `temp` and the sidecars |
| WorkspaceSwap.Volume.Activate | src/image23mf/workspace_bundles.py:601-659 | for every pattern of failing and interrupted renames and syncs both trees survive at known places; when each outcome occurs; when the error names the staged directory correctly |
| WorkspaceSwap.Volume.PutBack | src/image23mf/workspace_bundles.py:621-636 | the rollback of a swap over an existing target |
| WorkspaceSwap.Volume.TakeBack | src/image23mf/workspace_bundles.py:637-647 | the rollback of a swap onto a free name |
| WorkspaceSwap.Volume.Restore | src/image23mf/workspace_bundles.py:311-402 | when each outcome occurs; success puts the staged tree at the target, leaves of a replaced one what its archive holds, and changes nothing else; every reported failure leaves the original; after an interrupt the new tree and the archive survive |
| WorkspaceSwap.ReportsAMissingStage | src/image23mf/workspace_bundles.py:629-636 | a swap whose recovery error names a directory that does not exist |
| WorkspaceSwap.InterruptLosesTheDirectory | src/image23mf/workspace_bundles.py:385-402 | an interrupt between the renames, after which only the archive of the old workspace is left |
| WorkspaceRecords.QueriedExactly | src/image23mf/workspace_health.py:492-556 | a path is queried exactly when a row of one of six tables names it |
| WorkspaceRecords.PromptedExactly | src/image23mf/prompted_edits/lifecycle.py:399-410 | the tables of prompted edits name the selection masks and both files of every alternative |
| WorkspaceRecords.ReferencedBlobs | src/image23mf/workspace_health.py:492-556 | every path of the six queried tables with what is stored there when all rows agree on it, and no path of the tables of prompted edits |
| GarbageCollection.Workspace.PlanCollection | src/image23mf/workspace_health.py:363-407 | the plan lists exactly the old blobs no queried row names and old cache and temporary files, once each, in path order, as they are |
| GarbageCollection.PlanListsExactly | src/image23mf/workspace_health.py:369-386 | a plan lists a path exactly when it is a managed regular file whose age in nanoseconds is at least the given seconds, and a stored blob only when no row references it |
| GarbageCollection.PlanTellsExactly | src/image23mf/workspace_health.py:387-397 | with size, contents, time and reason as they are, in the order of the paths |
| GarbageCollection.PlanTellsItsBytes | src/image23mf/workspace_health.py:398-407 | the bytes it promises are those its files take |
| GarbageCollection.DeletableExactly | src/image23mf/workspace_health.py:409-476 | a file may be deleted exactly when it is managed, unreferenced now, and some candidate states its contents, size and time |
| GarbageCollection.CollectedExactly | src/image23mf/workspace_health.py:486-490 | what a complete collection removes, told by age, namespace and the rows of the six tables |
| GarbageCollection.Workspace.Execute | src/image23mf/workspace_health.py:409-484 | only files no queried row names and exactly as planned are deleted, even when an unlink fails; a completed run deletes them all, conserves bytes and accounts for every candidate; a dry run changes nothing |
| GarbageCollection.Workspace.ApplyCurrentPlan | src/image23mf/workspace_health.py:486-490 | refuses exactly when the reviewed plan is not the current one; what is deleted was reviewed; keeps every file a row names exactly when no old file is named by prompted edits alone |
| GarbageCollection.NamedFilesSurviveExactly | src/image23mf/prompted_edits/lifecycle.py:399-410 | the same of any complete collection |
| GarbageCollection.CollectsASelectionMask | src/image23mf/prompted_edits/lifecycle.py:128-134 | a day-old selection mask is collected while its session names it |
| GarbageCollection.ListingIsDetermined | src/image23mf/workspace_health.py:681-686 | one workspace has one plan, so the fingerprint changes exactly with it |
| GarbageCollection.ReplanningFindsNothing | src/image23mf/workspace_health.py:363-407 | with rows that name stored blobs only, as all writers see to, a new plan right after a complete collection is empty |
| GarbageCollection.DryRunPredictsDeletion | src/image23mf/workspace_health.py:467-484 | a dry run counts exactly the files applying the plan deletes |

## Left out

- Zip reading and writing, SQLite itself, file hashing and the file system beneath directory names: tables and
  directories are maps, and failures are inputs.
- Archive limits: `export` does not verify what it writes, and `verify` refuses a compression ratio over 1000.
- The table of imports beyond `ImportRace`, and the members of a bundle: they are stored before the transaction, and
  only their identity enters the tables. Values that have no JSON text, such as a NaN in a metadata object.
- ProjectExport.Export: of the members, only that an asset's extension is that of its path; two records of one path
  with different media types raise as well, which rows of one bundle never are. A draft without history is given its
  anchor before the original exports it; a restored draft has one.
- ProjectRestore.ProjectDatabase.Restore: bundles of the current state only, and the anchor that the original makes for
  their draft; file names of assets are the last part of what a manifest says.
- ProjectRoundTrip.EmptyDatabaseRoundTrip: order of records in a manifest that every export sorts by their own
  columns, and exports of selected artifacts or of the current state only.
- ProjectForesight.RefusedExactly: for bundles in which no fresh revision has two copies of one artifact or a tie
  in creation time that made-up ids would decide; an empty database has no such ties. The ids that `new_id` makes up
  at random decide the others, and with them the order in which the manifest hash takes the artifacts.
- ProjectForesight.RestorableExactly: for the same bundles, and for made-up ids that loading accepts, as it accepts
  those of `new_id`.
- RevisionOrder.TopologicalRevisions: publication times are numbers in the order of their texts.
- Evidence.RestorePublication: an operation whose command cannot be read makes the original raise while it hashes
  the editor sequence; here every operation can be read.
- Loading a configuration is one idempotent function to its current form, besides the number of colors and the id of
  the source; the sizes of stored states are uninterpreted.
- Secret filtering and provenance validation of operation payloads.
- The job's stage column, request keys, timestamps, error details and deletion of job or artifact rows; other
  writers of artifact rows than publication are modelled only as sealing a revision.
- Rendering, quantization, cleanup and replay are uninterpreted functions; a preview fails when one of them does
  or when reading a chosen baseline raises anything but the three swallowed errors.
- Interleavings of artifact deletion or garbage collection with publication: references are read before the
  deletions, so garbage collection is a sequential claim.
- GarbageCollection.Workspace.Execute: removal of emptied folders, and symlinks in place of parent folders.
- WorkspaceSwap.Volume.Restore: interrupts outside the swap, changes to the directories by other programs, a target
  that is a symlink or a file, and symlinks or special files inside it, for which writing the archive fails.
- Cursor.CursorRoundTrip: the JSON text inside the payload is not modelled, only its bytes.
- Cursor.SeveralTextsReadAlike: what strict decoding accepts depends on the interpreter; the model follows CPython
  3.11, where the project asks for 3.9 or newer. A cursor with characters outside ASCII raises `ValueError` in the
  original, which the cursor error does not catch; here it decodes to nothing like every other refused text.
- The slicer, the exporters, murals, calibration and the whole front end: process orchestration, or properties
  one branch settles.

/**
Export, restore into an empty database, export again: when the second manifest is the first
(src/image23mf/bundles.py:687-858, 889-1266).
*/
module ProjectRoundTrip {
  import opened Wrappers
  import opened Identifiers
  import opened Sorting
  import opened SharedRecords
  import opened Presets
  import opened ArtifactImport
  import opened Evidence
  import opened History
  import opened HistoryValidation
  import opened Renaming
  import opened RestoreValidity
  import opened RoundTrip
  import opened HistoryImport
  import opened ProjectManifest
  import opened ProjectExport
  import opened ProjectRestore
  import opened ProjectForesight
  import opened ExportValidity
  import opened StateIdentity
  import RevisionOrder

  // ----- what a bundle must be to come back unchanged

  /** The revisions hold what the application stores today. */
  predicate RevisionCurrent(schema: Schema, revision: Revision) {
    && schema.load(revision.config.body) == Some(revision.config.body)
    && revision.schemaVersion == revision.config.body.schemaVersion
  }

  predicate RevisionsCurrent(schema: Schema, m: Manifest) {
    forall i :: 0 <= i < |m.revisions| ==> RevisionCurrent(schema, m.revisions[i])
  }

  /** Every filament and every asset is one that an export of the project reaches. */
  ghost predicate EverythingUsed(m: Manifest) {
    && (forall id :: id in IdsOf(m.filaments) ==> UsesFilament(RevisionOrder.ById(m.revisions), m.history, id))
    && (forall id :: id in IdsOf(m.assets) ==> UsesAsset(RevisionOrder.ById(m.revisions), m.history, id))
  }

  ghost predicate HistoryStored(schema: Schema, h: History) {
    ConfigsCanonical(schema, h) && OperationsSpelledOut(h) && DraftCurrent(h)
  }

  /** Names are unique, and no preset is built in: an export leaves those out. */
  predicate PresetsExportable(presets: seq<Preset>) {
    && NaturalKeysUnique(presets)
    && forall i :: 0 <= i < |presets| ==> !presets[i].details.builtIn
  }

  /** The active revision is one of the bundle's; the validator also lets the empty text pass. */
  predicate ActiveIsKnown(m: Manifest) {
    m.project.active.Some? ==> m.project.active.value in RevisionIds(m)
  }

  ghost predicate ComesBack(schema: Schema, m: Manifest) {
    && NaturalKeysUnique(m.filaments) && NaturalKeysUnique(m.assets) && EverythingUsed(m)
    && PresetsExportable(m.presets) && ActiveIsKnown(m)
    && RevisionsCurrent(schema, m)
    && InOrder(m.operations, OperationBefore)
    && DistinctKeys(m.artifacts) && InOrder(m.artifacts, Earlier)
    && HistoryStored(schema, m.history)
  }

  // ----- nothing is renamed

  ghost predicate NothingRenamed(m: Manifest, after: Tables, run: Run) {
    && Identity(run.r) && run.project == m.project.id
    && after.filaments == AsRows(m.filaments) && after.assets == AsRows(m.assets)
  }

  lemma UniqueKeysRenameNothing(schema: Schema, m: Manifest, bundleHash: string, after: Tables, run: Run)
    requires RecordIdsUnique(m) && Restoration(schema, m, bundleHash, EMPTY_TABLES, after, run)
    requires NaturalKeysUnique(m.filaments) && NaturalKeysUnique(m.assets)
    ensures NothingRenamed(m, after, run)
  {
    EmptyTableTakesOverExactly(m.filaments, run.r.filaments, run.filaments);
    EmptyTableTakesOverExactly(m.assets, run.r.assets, run.assets);
  }

  /** A table that holds all records under their own ids cannot have merged any of them. */
  lemma UnmergedRecordsHaveUniqueKeys<K, D>(records: seq<Shared<K, D>>, rows: map<Id, Entry<K, D>>)
    requires KeysUnique(rows) && IdsUnique(records)
    requires forall id :: id in AsRows(records) ==> id in rows && rows[id] == AsRows(records)[id]
    ensures NaturalKeysUnique(records)
  {
    forall i, j | 0 <= i < |records| && 0 <= j < |records| && records[i].key == records[j].key ensures i == j {
      assert AsRows(records)[records[i].id].key == AsRows(records)[records[j].id].key;
    }
  }

  // ----- part by part, when nothing is renamed

  lemma RevisionComesBack(schema: Schema, m: Manifest, r: Renames, revision: Revision)
    requires Identity(r) && RevisionRewritable(schema, r, revision)
    requires revision.parent.Some? ==> revision.parent.value in r.revisions
    requires revision.fingerprint == CanonicalConfig(schema, revision.config)
    ensures RestoredRevision(schema, r, revision).fingerprint == revision.fingerprint
    ensures RestoredRevision(schema, r, revision) == revision <==> RevisionCurrent(schema, revision)
  {
    IdentityKeepsConfig(r, revision.config);
  }

  lemma RevisionRowComesBack(schema: Schema, m: Manifest, r: Renames, project: Id, rows: map<Id, Row<Revision>>,
                             id: Id)
    requires RevisionsOk(schema, ContentsOf(m)) && Identity(r) && r.revisions.Keys == RevisionIds(m)
    requires RevisionOrder.AllGrounded(RevisionOrder.ById(m.revisions)) && id in RevisionIds(m)
    requires RevisionRestored(schema, r, project, rows, RevisionOrder.ById(m.revisions)[id])
    ensures id in rows && rows[id].project == project
    ensures rows[id].record == RevisionOrder.ById(m.revisions)[id]
       <==> RevisionCurrent(schema, RevisionOrder.ById(m.revisions)[id])
  {
    var c := ContentsOf(m);
    assert RevisionOk(schema, NamesIn(c), c.revisions[id]);
    RevisionOrder.GroundedParentIsThere(c.revisions, id);
    RevisionComesBack(schema, m, r, c.revisions[id]);
  }

  lemma RevisionsComeBack(schema: Schema, m: Manifest, r: Renames, project: Id, rows: map<Id, Row<Revision>>)
    requires RecordIdsUnique(m) && RevisionsOk(schema, ContentsOf(m)) && Identity(r)
    requires r.revisions.Keys == RevisionIds(m) && RevisionOrder.AllGrounded(RevisionOrder.ById(m.revisions))
    requires AllRestored(schema, r, project, rows, m.revisions) && rows.Keys == RevisionIds(m)
    ensures RecordsOf(rows, project).Keys == RevisionIds(m)
    ensures RecordsOf(rows, project) == RevisionOrder.ById(m.revisions) <==> RevisionsCurrent(schema, m)
  {
    var table, records := RevisionOrder.ById(m.revisions), RecordsOf(rows, project);
    forall id | id in table
      ensures id in records && (records[id] == table[id] <==> RevisionCurrent(schema, table[id]))
    {
      RevisionByIdComesBack(schema, m, r, project, rows, id);
    }
    TablesAgreeWhenCurrent(schema, records, table);
    CurrentByTable(schema, m);
  }

  lemma RevisionByIdComesBack(schema: Schema, m: Manifest, r: Renames, project: Id, rows: map<Id, Row<Revision>>,
                              id: Id)
    requires RevisionsOk(schema, ContentsOf(m)) && Identity(r) && r.revisions.Keys == RevisionIds(m)
    requires RevisionOrder.AllGrounded(RevisionOrder.ById(m.revisions)) && id in RevisionIds(m)
    requires AllRestored(schema, r, project, rows, m.revisions)
    ensures id in rows && rows[id].project == project
    ensures rows[id].record == RevisionOrder.ById(m.revisions)[id]
       <==> RevisionCurrent(schema, RevisionOrder.ById(m.revisions)[id])
  {
    var i: nat :| i < |m.revisions| && m.revisions[i] == RevisionOrder.ById(m.revisions)[id];
    assert RevisionRestored(schema, r, project, rows, m.revisions[i]);
    RevisionRowComesBack(schema, m, r, project, rows, id);
  }

  lemma TablesAgreeWhenCurrent(schema: Schema, records: map<Id, Revision>, table: map<Id, Revision>)
    requires records.Keys == table.Keys
    requires forall id :: id in table ==> (records[id] == table[id] <==> RevisionCurrent(schema, table[id]))
    ensures records == table <==> TableCurrent(schema, table)
  {
  }

  ghost predicate TableCurrent(schema: Schema, table: map<Id, Revision>) {
    forall id :: id in table ==> RevisionCurrent(schema, table[id])
  }

  lemma CurrentByTable(schema: Schema, m: Manifest)
    requires RecordIdsUnique(m)
    ensures TableCurrent(schema, RevisionOrder.ById(m.revisions)) <==> RevisionsCurrent(schema, m)
  {
    var table := RevisionOrder.ById(m.revisions);
    if TableCurrent(schema, table) {
      forall i: nat | i < |m.revisions| ensures RevisionCurrent(schema, m.revisions[i]) {
        OneRevisionPerId(m, i);
      }
    }
  }

  lemma RowsAreTheRevisions(schema: Schema, m: Manifest, r: Renames, project: Id, rows: map<Id, Row<Revision>>)
    requires IdentityMap(r.revisions) && r.revisions.Keys == RevisionIds(m)
    requires RevisionsRestored(schema, r, project, map[], rows, m.revisions)
    ensures rows.Keys == RevisionIds(m)
  {
    DoneIdsAreAll(m);
    forall id ensures id in Images(r.revisions, RevisionIds(m)) <==> id in RevisionIds(m) {
      if id in RevisionIds(m) { assert r.revisions[id] == id; }
    }
  }

  lemma {:induction false} AllOperationsIn(rows: seq<RegionOperation>, revisions: set<Id>)
    requires forall i :: 0 <= i < |rows| ==> rows[i].revision in revisions
    ensures OperationsIn(rows, revisions) == rows
  {
    if rows != [] {
      AllOperationsIn(rows[..|rows| - 1], revisions);
      assert rows == rows[..|rows| - 1] + [rows[|rows| - 1]];
    }
  }

  lemma {:induction false} AllArtifactsIn(rows: seq<Artifact>, revisions: set<Id>)
    requires forall i :: 0 <= i < |rows| ==> rows[i].revision.Some? && rows[i].revision.value in revisions
    ensures ArtifactsIn(rows, revisions) == rows
  {
    if rows != [] {
      AllArtifactsIn(rows[..|rows| - 1], revisions);
      assert rows == rows[..|rows| - 1] + [rows[|rows| - 1]];
    }
  }

  /** Operations come back, under new ids, in the order the export asks for. */
  lemma OperationsComeBack(operations: seq<RegionOperation>, rows: seq<RegionOperation>)
    requires SameOperations(rows, operations)
    requires forall i, j :: 0 <= i < j < |operations| ==>
               !(operations[i].revision == operations[j].revision && operations[i].sequence == operations[j].sequence)
    ensures SameOperations(Sorted(rows, OperationBefore), operations) <==> InOrder(operations, OperationBefore)
  {
    if InOrder(operations, OperationBefore) {
      SortedLeavesOrder(rows, OperationBefore);
    }
    if SameOperations(Sorted(rows, OperationBefore), operations) {
      assert Ordering(rows, OperationBefore);
      SortedIsInOrder(rows, OperationBefore);
    }
  }

  /** Artifacts come back exactly when none shares its key and the bundle lists them by age. */
  lemma ArtifactsComeBack(artifacts: seq<Artifact>, images: seq<Artifact>, c: Context)
    requires AllImported([], images, artifacts, c) && DistinctIds(artifacts) && c.reserved == Reserved(artifacts)
    requires IdentityMap(c.revisions)
    ensures Sorted(images, Earlier) == artifacts <==> DistinctKeys(artifacts) && InOrder(artifacts, Earlier)
    ensures DistinctKeys(artifacts) ==> images == artifacts
  {
    EmptyTableKeepsKeysExactly(artifacts, c.bundleHash);
    forall i: nat | i < |artifacts|
      ensures images[i] == artifacts[i].(key := images[i].key)
      ensures images[i].key == artifacts[i].key <==> KeyStays([], artifacts, c.bundleHash, i)
    {
      ImageInEmptyTable(artifacts, images, c, i);
    }
    if DistinctKeys(artifacts) {
      assert images == artifacts;
      if InOrder(artifacts, Earlier) { SortedLeavesOrder(artifacts, Earlier); }
    }
    if Sorted(images, Earlier) == artifacts {
      SortedRowsAreInOrder(images, artifacts);
      forall i: nat | i < |artifacts| ensures images[i].key == artifacts[i].key {
        SameIdSameArtifact(artifacts, images[i], i);
      }
    }
  }

  lemma SameIdSameArtifact(artifacts: seq<Artifact>, image: Artifact, i: nat)
    requires DistinctIds(artifacts) && i < |artifacts| && image in artifacts && image.id == artifacts[i].id
    ensures image == artifacts[i]
  {
    var j :| 0 <= j < |artifacts| && artifacts[j] == image;
  }

  lemma ImageInEmptyTable(artifacts: seq<Artifact>, images: seq<Artifact>, c: Context, i: nat)
    requires AllImported([], images, artifacts, c) && DistinctIds(artifacts) && c.reserved == Reserved(artifacts)
    requires IdentityMap(c.revisions) && i < |artifacts|
    ensures images[i] == artifacts[i].(key := images[i].key)
    ensures images[i].key == artifacts[i].key <==> KeyStays([], artifacts, c.bundleHash, i)
  {
    KeyStaysExactly([], images, artifacts, c, i);
    IdStaysExactly([], images, artifacts, c, i);
    assert ImportedInto([] + images[..i], images[i], artifacts[i], c);
  }

  lemma SortedRowsAreInOrder(images: seq<Artifact>, artifacts: seq<Artifact>)
    requires |images| == |artifacts| && DistinctIds(artifacts)
    requires forall i :: 0 <= i < |images| ==> images[i].id == artifacts[i].id
    requires Sorted(images, Earlier) == artifacts
    ensures InOrder(artifacts, Earlier) && forall x :: x in images <==> x in artifacts
  {
    SortedKeepsRows(images, Earlier);
    AgeOrders(images);
    SortedIsInOrder(images, Earlier);
  }

  /** With its artifacts back, so is every publication. */
  lemma PublicationComesBack(schema: Schema, m: Manifest, r: Renames, p: Publication, row: Publication)
    requires RevisionsOk(schema, ContentsOf(m)) && Identity(r) && r.revisions.Keys == RevisionIds(m)
    requires PublicationOk(ContentsOf(m), p) && InOrder(m.artifacts, Earlier)
    requires RestoredAs(p, row, BasesOf(schema, r, m), r.revisions, m.artifacts)
    ensures row == p
  {
    BasisComesBack(schema, m, r, p.revision);
    OfRevisionKeepsOrder(m.artifacts, p.revision);
    SortedLeavesOrder(OfRevision(m.artifacts, p.revision), Earlier);
    EvidenceComesBack(p, row, BasesOf(schema, r, m)[p.revision], OfRevision(m.artifacts, p.revision));
  }

  lemma BasisComesBack(schema: Schema, m: Manifest, r: Renames, id: Id)
    requires RevisionsOk(schema, ContentsOf(m)) && Identity(r) && r.revisions.Keys == RevisionIds(m)
    requires id in BasesOf(schema, r, m)
    ensures var fingerprint := RevisionOrder.ById(m.revisions)[id].fingerprint;
            BasesOf(schema, r, m)[id] == Basis(fingerprint, fingerprint, OperationsOf(m.operations, id))
  {
    var c := ContentsOf(m);
    assert RevisionOk(schema, NamesIn(c), c.revisions[id]);
    IdentityKeepsConfig(r, c.revisions[id].config);
  }

  lemma EvidenceComesBack(p: Publication, row: Publication, basis: Basis, artifacts: seq<Artifact>)
    requires EvidenceHolds(p, basis.config, basis.operations, artifacts) && basis.restoredConfig == basis.config
    requires EvidenceHolds(row, basis.restoredConfig, basis.operations, artifacts)
    requires row.status.Fresh? <==> StaysFresh(p, basis, artifacts)
    requires row.status == p.status ==> row == p.(revision := row.revision, editorSequence := row.editorSequence)
    requires !p.status.Fresh? ==> row.status == p.status
    requires row.revision == p.revision
    ensures row == p
  {
  }

  lemma PublicationsComeBack(schema: Schema, m: Manifest, r: Renames, rows: map<Id, Publication>)
    requires RevisionsOk(schema, ContentsOf(m)) && Identity(r) && r.revisions.Keys == RevisionIds(m)
    requires InOrder(m.artifacts, Earlier) && PublicationsOk(ContentsOf(m))
    requires PublicationsRestored(m.publications, BasesOf(schema, r, m), r.revisions, m.artifacts, map[], rows)
    ensures rows == PublicationsById(m.publications)
    ensures rows.Keys <= RevisionIds(m)
  {
    var table, bases := PublicationsById(m.publications), BasesOf(schema, r, m);
    forall id | id in table ensures id in RevisionIds(m) && id in rows && rows[id] == table[id] {
      var i :| 0 <= i < |m.publications| && m.publications[i] == table[id];
      assert PublicationOk(ContentsOf(m), ContentsOf(m).publications[id]);
      assert PublicationRestored(table[id], bases, r.revisions, m.artifacts, rows);
      PublicationComesBack(schema, m, r, table[id], rows[id]);
    }
    forall id | id in rows ensures id in table {
      assert TargetOfSome(m.publications, r.revisions, id);
      var p :| p in m.publications && p.revision in r.revisions && r.revisions[p.revision] == id;
    }
  }

  // ----- the whole manifest

  lemma ProjectComesBack(m: Manifest, after: Tables, run: Run)
    requires IdentityMap(run.r.revisions) && run.r.revisions.Keys == RevisionIds(m) && run.project == m.project.id
    ensures RestoredProject(m.project, run.project, run.r.revisions) == m.project <==> ActiveIsKnown(m)
  {
  }

  lemma ExportedRevisionsComeBack(schema: Schema, m: Manifest, r: Renames, project: Id, rows: map<Id, Row<Revision>>)
    requires RecordIdsUnique(m) && RevisionsOk(schema, ContentsOf(m)) && Identity(r)
    requires r.revisions.Keys == RevisionIds(m) && RevisionOrder.AllGrounded(RevisionOrder.ById(m.revisions))
    requires RevisionsRestored(schema, r, project, map[], rows, m.revisions)
    ensures RecordsOf(rows, project).Keys == RevisionIds(m)
    ensures RecordsOf(rows, project) == RevisionOrder.ById(m.revisions) <==> RevisionsCurrent(schema, m)
  {
    RowsAreTheRevisions(schema, m, r, project, rows);
    RevisionsComeBack(schema, m, r, project, rows);
  }

  lemma ExportedHistoryComesBack(schema: Schema, m: Manifest, run: Run, before: HistoryRows, after: HistoryRows)
    requires ManifestOk(schema, m) && Identity(run.r)
    requires HistoryRestored(schema, NamesOf(m), m.history, before, after, run.project, run.r)
    ensures ExportOf(after, run.project) == m.history <==> HistoryStored(schema, m.history)
  {
    RestoredHistoryExportsTheSame(schema, NamesOf(m), m.history, run.r, ExportOf(after, run.project));
  }

  /** The parts of an export that need no condition on shared records, given the others. */
  lemma ExportedParts(schema: Schema, m: Manifest, bundleHash: string, after: Tables, run: Run)
    requires ManifestOk(schema, m) && Restoration(schema, m, bundleHash, EMPTY_TABLES, after, run)
    requires RevisionOrder.AllGrounded(RevisionOrder.ById(m.revisions)) && NothingRenamed(m, after, run)
    ensures run.project in after.projects
    ensures var e := Exported(after, run.project);
            && (e.project == m.project <==> ActiveIsKnown(m))
            && e.revisions.Keys == RevisionIds(m)
            && (e.revisions == RevisionOrder.ById(m.revisions) <==> RevisionsCurrent(schema, m))
            && (e.history == m.history <==> HistoryStored(schema, m.history))
  {
    ProjectComesBack(m, after, run);
    ExportedRevisionsComeBack(schema, m, RecordMaps(run.r), run.project, after.revisions);
    ExportedHistoryComesBack(schema, m, run, EMPTY_TABLES.history, after.history);
  }

  /** Presets come back exactly when their names are unique and none is built in. */
  lemma PresetsComeBack(presets: seq<Preset>, bundleHash: string, after: map<Id, PresetRow>)
    requires IdsUnique(presets) && PresetsTaken(presets, bundleHash, map[], after)
    ensures OwnPresets(after) == AsRows(presets) <==> PresetsExportable(presets)
  {
    EmptyShelf();
    if NaturalKeysUnique(presets) {
      EmptyTableTakesOverPresets(presets, bundleHash, after);
      OwnPresetsAreAll(presets);
    } else if OwnPresets(after) == AsRows(presets) {
      assert forall id :: id in AsRows(presets) ==> id in OwnPresets(after);
      UnmergedRecordsHaveUniqueKeys(presets, after);
      assert false;
    }
  }

  lemma EmptyShelf()
    ensures ShelfOf(map[]) == map[]
  {
    OneShelf(ShelfOf(map[]), map[], map[]);
  }

  lemma OwnPresetsAreAll(presets: seq<Preset>)
    requires IdsUnique(presets)
    ensures OwnPresets(AsRows(presets)) == AsRows(presets)
       <==> forall i :: 0 <= i < |presets| ==> !presets[i].details.builtIn
  {
    var rows := AsRows(presets);
    if OwnPresets(rows) == rows {
      forall i | 0 <= i < |presets| ensures !presets[i].details.builtIn {
        assert presets[i].id in rows && rows[presets[i].id] == Entry(presets[i].key, presets[i].details);
      }
    }
  }

  lemma OperationsTravel(operations: seq<RegionOperation>, rows: seq<RegionOperation>, revisions: map<Id, Id>)
    requires IdentityMap(revisions) && OperationsRestored(revisions, [], rows, operations)
    requires forall i, j :: 0 <= i < j < |operations| ==>
               !(operations[i].revision == operations[j].revision && operations[i].sequence == operations[j].sequence)
    ensures SameOperations(Sorted(OperationsIn(rows, revisions.Keys), OperationBefore), operations)
       <==> InOrder(operations, OperationBefore)
  {
    var before: seq<RegionOperation> := [];
    forall i | 0 <= i < |operations|
      ensures rows[i] == operations[i].(id := rows[i].id) && rows[i].revision in revisions
    {
      assert OperationImage(rows[|before| + i], operations[i], revisions);
    }
    AllOperationsIn(rows, revisions.Keys);
    OperationsComeBack(operations, rows);
  }

  lemma ExportedOperations(m: Manifest, revisions: map<Id, Id>, before: seq<RegionOperation>,
                           rows: seq<RegionOperation>)
    requires RecordIdsUnique(m) && IdentityMap(revisions) && revisions.Keys == RevisionIds(m) && before == []
    requires OperationsRestored(revisions, before, rows, m.operations)
    ensures SameOperations(Sorted(OperationsIn(rows, RevisionIds(m)), OperationBefore), m.operations)
       <==> InOrder(m.operations, OperationBefore)
  {
    OperationsTravel(m.operations, rows, revisions);
  }

  lemma ArtifactsTravel(artifacts: seq<Artifact>, images: seq<Artifact>, c: Context)
    requires AllImported([], images, artifacts, c) && DistinctIds(artifacts) && c.reserved == Reserved(artifacts)
    requires IdentityMap(c.revisions)
    ensures Sorted(ArtifactsIn(images, c.revisions.Keys), Earlier) == artifacts
       <==> DistinctKeys(artifacts) && InOrder(artifacts, Earlier)
    ensures DistinctKeys(artifacts) ==> images == artifacts
  {
    forall i | 0 <= i < |images|
      ensures images[i].revision.Some? && images[i].revision.value in c.revisions
    {
      assert ImportedInto([] + images[..i], images[i], artifacts[i], c);
    }
    AllArtifactsIn(images, c.revisions.Keys);
    ArtifactsComeBack(artifacts, images, c);
  }

  lemma ExportedArtifacts(m: Manifest, revisions: map<Id, Id>, before: seq<Artifact>, images: seq<Artifact>,
                          bundleHash: string)
    requires RecordIdsUnique(m) && IdentityMap(revisions) && revisions.Keys == RevisionIds(m) && before == []
    requires AllImported(before, images, m.artifacts, ContextFor(m.artifacts, revisions, bundleHash))
    ensures before + images == images
    ensures Sorted(ArtifactsIn(images, RevisionIds(m)), Earlier) == m.artifacts
       <==> DistinctKeys(m.artifacts) && InOrder(m.artifacts, Earlier)
    ensures DistinctKeys(m.artifacts) ==> images == m.artifacts
  {
    ArtifactsTravel(m.artifacts, images, ContextFor(m.artifacts, revisions, bundleHash));
  }

  lemma ExportedPublications(schema: Schema, m: Manifest, bundleHash: string, after: Tables, run: Run)
    requires ManifestOk(schema, m) && Restoration(schema, m, bundleHash, EMPTY_TABLES, after, run)
    requires NothingRenamed(m, after, run) && after.artifacts == m.artifacts && InOrder(m.artifacts, Earlier)
    ensures after.publications == PublicationsById(m.publications) && after.publications.Keys <= RevisionIds(m)
  {
    PublicationsComeBack(schema, m, RecordMaps(run.r), after.publications);
  }

  /** How each part of the second export relates to the first. */
  ghost predicate PartsRelate(schema: Schema, m: Manifest, e: Contents) {
    && (e.project == m.project <==> ActiveIsKnown(m))
    && (e.presets == AsRows(m.presets) <==> PresetsExportable(m.presets))
    && e.filaments == UsedFilaments(AsRows(m.filaments), e.revisions, e.history)
    && e.assets == UsedAssets(AsRows(m.assets), e.revisions, e.history)
    && (e.revisions == RevisionOrder.ById(m.revisions) <==> RevisionsCurrent(schema, m))
    && (e.history == m.history <==> HistoryStored(schema, m.history))
    && (SameOperations(e.operations, m.operations) <==> InOrder(m.operations, OperationBefore))
    && (e.artifacts == m.artifacts <==> DistinctKeys(m.artifacts) && InOrder(m.artifacts, Earlier))
    && (e.artifacts == m.artifacts ==> e.publications == PublicationsById(m.publications))
  }

  // What an export reads for each of its parts.
  lemma ExportReads(t: Tables, project: Id)
    requires project in t.projects
    ensures var e := Exported(t, project);
            && e.filaments == UsedFilaments(t.filaments, e.revisions, e.history)
            && e.assets == UsedAssets(t.assets, e.revisions, e.history)
            && e.operations == Sorted(OperationsIn(t.operations, e.revisions.Keys), OperationBefore)
            && e.artifacts == Sorted(ArtifactsIn(t.artifacts, e.revisions.Keys), Earlier)
            && e.presets == OwnPresets(t.presets)
            && (t.publications.Keys <= e.revisions.Keys ==> e.publications == t.publications)
  {
  }

  lemma ExportedSequences(schema: Schema, m: Manifest, bundleHash: string, after: Tables, run: Run)
    requires RecordIdsUnique(m) && Restoration(schema, m, bundleHash, EMPTY_TABLES, after, run)
    requires NothingRenamed(m, after, run)
    ensures SameOperations(Sorted(OperationsIn(after.operations, RevisionIds(m)), OperationBefore), m.operations)
       <==> InOrder(m.operations, OperationBefore)
    ensures Sorted(ArtifactsIn(after.artifacts, RevisionIds(m)), Earlier) == m.artifacts
       <==> DistinctKeys(m.artifacts) && InOrder(m.artifacts, Earlier)
    ensures DistinctKeys(m.artifacts) ==> after.artifacts == m.artifacts
  {
    ExportedOperations(m, run.r.revisions, EMPTY_TABLES.operations, after.operations);
    ExportedArtifacts(m, run.r.revisions, EMPTY_TABLES.artifacts, run.images, bundleHash);
  }

  lemma ExportRelates(schema: Schema, m: Manifest, bundleHash: string, after: Tables, run: Run)
    requires ManifestOk(schema, m) && Restoration(schema, m, bundleHash, EMPTY_TABLES, after, run)
    requires RevisionOrder.AllGrounded(RevisionOrder.ById(m.revisions)) && NothingRenamed(m, after, run)
    ensures run.project in after.projects && PartsRelate(schema, m, Exported(after, run.project))
  {
    ExportedParts(schema, m, bundleHash, after, run);
    ExportReads(after, run.project);
    PresetsComeBack(m.presets, bundleHash, after.presets);
    ExportedSequences(schema, m, bundleHash, after, run);
    if DistinctKeys(m.artifacts) && InOrder(m.artifacts, Earlier) {
      ExportedPublications(schema, m, bundleHash, after, run);
    }
  }

  lemma EverythingIsReached(m: Manifest, e: Contents)
    requires e.revisions == RevisionOrder.ById(m.revisions) && e.history == m.history
    requires e.filaments == UsedFilaments(AsRows(m.filaments), e.revisions, e.history)
    requires e.assets == UsedAssets(AsRows(m.assets), e.revisions, e.history)
    ensures e.filaments == AsRows(m.filaments) && e.assets == AsRows(m.assets) <==> EverythingUsed(m)
  {
  }

  lemma RelatedPartsComeBack(schema: Schema, m: Manifest, e: Contents)
    requires PartsRelate(schema, m, e) && NaturalKeysUnique(m.filaments) && NaturalKeysUnique(m.assets)
    ensures SameUpToOperationIds(e, ContentsOf(m)) <==> ComesBack(schema, m)
  {
    if e.revisions == RevisionOrder.ById(m.revisions) && e.history == m.history {
      EverythingIsReached(m, e);
    }
  }

  lemma UnchangedExportMergedNothing(m: Manifest, t: Tables, project: Id)
    requires KeysUnique(t.filaments) && KeysUnique(t.assets) && project in t.projects && RecordIdsUnique(m)
    requires SameUpToOperationIds(Exported(t, project), ContentsOf(m))
    ensures NaturalKeysUnique(m.filaments) && NaturalKeysUnique(m.assets)
  {
    var e := Exported(t, project);
    assert forall id :: id in e.filaments ==> id in t.filaments && t.filaments[id] == e.filaments[id];
    assert forall id :: id in e.assets ==> id in t.assets && t.assets[id] == e.assets[id];
    UnmergedRecordsHaveUniqueKeys(m.filaments, t.filaments);
    UnmergedRecordsHaveUniqueKeys(m.assets, t.assets);
  }

  /**
  Restored into an empty database and exported again, a bundle is the same up to operation ids
  exactly when `ComesBack` holds of it.
  */
  lemma EmptyDatabaseRoundTrip(schema: Schema, m: Manifest, bundleHash: string, after: Tables, run: Run)
    requires ManifestOk(schema, m) && Restoration(schema, m, bundleHash, EMPTY_TABLES, after, run)
    requires RevisionOrder.AllGrounded(RevisionOrder.ById(m.revisions))
    ensures run.project in after.projects
    ensures SameUpToOperationIds(Exported(after, run.project), ContentsOf(m)) <==> ComesBack(schema, m)
  {
    if NaturalKeysUnique(m.filaments) && NaturalKeysUnique(m.assets) {
      UniqueKeysRenameNothing(schema, m, bundleHash, after, run);
      ExportRelates(schema, m, bundleHash, after, run);
      RelatedPartsComeBack(schema, m, Exported(after, run.project));
    } else if SameUpToOperationIds(Exported(after, run.project), ContentsOf(m)) {
      UnchangedExportMergedNothing(m, after, run.project);
    }
  }

  // ----- whether there is a second manifest

  predicate ExtensionFits(asset: AssetDetails) {
    asset.extension == asset.suffix
  }

  /** Every asset in use has the extension of its path; of assets with one SHA-256 the first counts. */
  ghost predicate UsedExtensionsFit(m: Manifest) {
    forall i: nat {:trigger m.assets[i]} ::
      i < |m.assets| && UsesAsset(RevisionOrder.ById(m.revisions), m.history, m.assets[i].id) ==>
        ExtensionFits(m.assets[FirstWithKey(m.assets, i)].details)
  }

  // Into an empty table an asset goes as the first record with its key.
  lemma AssetRowIsTheFirst(assets: seq<Asset>, ids: map<Id, Id>, after: map<Id, AssetRow>, i: nat)
    requires SharedImport(map[], assets, ids, after) && MadeUpIdsAreNew(map[], assets, ids, |assets|)
    requires IdsUnique(assets) && i < |assets|
    ensures assets[i].id in ids && ids[assets[i].id] in after
    ensures after[ids[assets[i].id]].details == assets[FirstWithKey(assets, i)].details
  {
    var first := FirstWithKey(assets, i);
    TargetOf(map[], assets, ids, after, i);
    assert Settled(map[], assets, first, ids, after) && IsNew(map[], assets, first);
  }

  /** An export uses an asset exactly when it is what some used asset of the bundle became. */
  ghost predicate UsesImages(m: Manifest, ids: map<Id, Id>, e: Contents) {
    forall x {:trigger UsesAsset(e.revisions, e.history, x)} ::
      UsesAsset(e.revisions, e.history, x)
      <==> exists a :: a in ids && ids[a] == x && UsesAsset(RevisionOrder.ById(m.revisions), m.history, a)
  }

  lemma FittingAssetsExport(m: Manifest, ids: map<Id, Id>, rows: map<Id, AssetRow>, e: Contents)
    requires SharedImport(map[], m.assets, ids, rows) && MadeUpIdsAreNew(map[], m.assets, ids, |m.assets|)
    requires IdsUnique(m.assets) && UsesImages(m, ids, e) && e.assets == UsedAssets(rows, e.revisions, e.history)
    requires UsedExtensionsFit(m)
    ensures ExtensionsFit(e.assets)
  {
    forall x | x in e.assets ensures ExtensionFits(e.assets[x].details) {
      assert UsesAsset(e.revisions, e.history, x);
      var a :| a in ids && ids[a] == x && UsesAsset(RevisionOrder.ById(m.revisions), m.history, a);
      var i: nat :| i < |m.assets| && m.assets[i].id == a;
      AssetRowIsTheFirst(m.assets, ids, rows, i);
    }
  }

  lemma ExportedAssetsFit(m: Manifest, ids: map<Id, Id>, rows: map<Id, AssetRow>, e: Contents)
    requires SharedImport(map[], m.assets, ids, rows) && MadeUpIdsAreNew(map[], m.assets, ids, |m.assets|)
    requires IdsUnique(m.assets) && UsesImages(m, ids, e) && e.assets == UsedAssets(rows, e.revisions, e.history)
    requires ExtensionsFit(e.assets)
    ensures UsedExtensionsFit(m)
  {
    forall i: nat | i < |m.assets| && UsesAsset(RevisionOrder.ById(m.revisions), m.history, m.assets[i].id)
      ensures ExtensionFits(m.assets[FirstWithKey(m.assets, i)].details)
    {
      AssetRowIsTheFirst(m.assets, ids, rows, i);
      assert UsesAsset(e.revisions, e.history, ids[m.assets[i].id]);
      assert ids[m.assets[i].id] in e.assets;
    }
  }

  lemma ExportUsesImages(schema: Schema, m: Manifest, r: Renames, e: Contents)
    requires ManifestOk(schema, m) && Covers(r, NamesOf(m), m.history)
    requires RevisionsMapped(schema, RecordMaps(r), m, e.revisions) && Image(schema, r, m.history, e.history)
    ensures UsesImages(m, r.assets, e)
  {
    forall x
      ensures UsesAsset(e.revisions, e.history, x)
         <==> exists a :: a in r.assets && r.assets[a] == x && UsesAsset(RevisionOrder.ById(m.revisions), m.history, a)
    {
      UsedAssetsCommute(schema, m, r, e, x);
    }
  }

  lemma ExtensionsFitExactly(schema: Schema, m: Manifest, bundleHash: string, after: Tables, run: Run)
    requires ManifestOk(schema, m) && Restoration(schema, m, bundleHash, EMPTY_TABLES, after, run)
    requires run.project in after.projects
    requires RevisionsMapped(schema, RecordMaps(run.r), m, RecordsOf(after.revisions, run.project))
    ensures ExtensionsFit(Exported(after, run.project).assets) <==> UsedExtensionsFit(m)
  {
    var e := Exported(after, run.project);
    ExportUsesImages(schema, m, run.r, e);
    if UsedExtensionsFit(m) {
      FittingAssetsExport(m, run.r.assets, after.assets, e);
    }
    if ExtensionsFit(e.assets) {
      ExportedAssetsFit(m, run.r.assets, after.assets, e);
    }
  }

  /** A bundle restored into an empty database can be exported again exactly under these conditions on it. */
  lemma ExportableExactly(schema: Schema, m: Manifest, bundleHash: string, after: Tables, run: Run)
    requires Idempotent(schema) && ManifestOk(schema, m)
    requires Restoration(schema, m, bundleHash, EMPTY_TABLES, after, run)
    ensures run.project in after.projects
    ensures Exportable(schema, after, run.project)
       <==> ConfigsCanonical(schema, m.history) && CursorCurrent(m.history) && UsedExtensionsFit(m)
  {
    RestoredContentsValidateExactly(schema, m, bundleHash, EMPTY_TABLES, after, run);
    ProjectRowsAreImages(schema, m, bundleHash, EMPTY_TABLES, after, run);
    ExtensionsFitExactly(schema, m, bundleHash, after, run);
  }

  lemma EmptyDatabaseIsForetold(schema: Schema, m: Manifest, bundleHash: string, run: Run)
    requires ManifestOk(schema, m)
    requires RecordColumnsFit(m, EMPTY_TABLES) ==> RecordsImported(schema, m, bundleHash, EMPTY_TABLES, run)
    ensures EvidenceIsDecided(m, EMPTY_TABLES) ==>
              (Restorable(schema, m, bundleHash, EMPTY_TABLES, run)
               <==> WillBeRestored(schema, m, bundleHash, EMPTY_TABLES))
  {
    if RecordColumnsFit(m, EMPTY_TABLES) && EvidenceIsDecided(m, EMPTY_TABLES) {
      RestorableExactly(schema, m, bundleHash, EMPTY_TABLES, run);
    }
  }

  /**
  The whole trip as a caller sees it: when a validated bundle goes into an empty database; when the
  restored project can be exported again; and when the second manifest is the first.
  */
  method RestoreAndExport(schema: Schema, m: Manifest, bundleHash: string)
    returns (outcome: Outcome, again: Option<Contents>)
    requires Idempotent(schema) && ManifestOk(schema, m)
    ensures outcome.CycleOrMissingParent? <==>
              RecordColumnsFit(m, EMPTY_TABLES) && !RevisionOrder.AllGrounded(RevisionOrder.ById(m.revisions))
    ensures EvidenceIsDecided(m, EMPTY_TABLES) ==>
              (outcome.Restored? <==> WillBeRestored(schema, m, bundleHash, EMPTY_TABLES))
    ensures again.Some? <==>
              && outcome.Restored?
              && ConfigsCanonical(schema, m.history) && CursorCurrent(m.history) && UsedExtensionsFit(m)
    ensures again.Some? ==> (SameUpToOperationIds(again.value, ContentsOf(m)) <==> ComesBack(schema, m))
  {
    var database := new ProjectDatabase(EMPTY_TABLES);
    ghost var run;
    outcome, run := database.Restore(schema, m, bundleHash);
    EmptyDatabaseIsForetold(schema, m, bundleHash, run);
    again := None;
    if outcome.Restored? {
      EmptyDatabaseRoundTrip(schema, m, bundleHash, database.tables, run);
      ExportableExactly(schema, m, bundleHash, database.tables, run);
      again := database.Export(schema, outcome.project);
    }
  }
}

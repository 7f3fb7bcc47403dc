/**
What the tables hold after a restore, row by row and field by field, whatever they held before, and what
a restore leaves alone (src/image23mf/bundles.py:889-1266).
*/
module RestoredProject {
  import opened Wrappers
  import opened Identifiers
  import opened Columns
  import opened Sorting
  import opened SharedRecords
  import opened DerivationKeys
  import opened Presets
  import opened ArtifactImport
  import opened Evidence
  import opened History
  import opened HistoryValidation
  import opened Renaming
  import opened HistoryImport
  import opened ProjectManifest
  import opened ProjectExport
  import opened ProjectRestore
  import opened RestoredHistory
  import RevisionOrder

  // ----- shared records and the project

  /** A record is found by its natural key, under the id that every reference to it is given. */
  lemma FilamentIsCarried(schema: Schema, m: Manifest, bundleHash: string, before: Tables, after: Tables, run: Run,
                          i: nat)
    requires Restoration(schema, m, bundleHash, before, after, run) && i < |m.filaments|
    ensures var from := m.filaments[i];
            && from.id in run.r.filaments && run.r.filaments[from.id] in after.filaments
            && var to := after.filaments[run.r.filaments[from.id]];
            && to.key.product == from.key.product && to.key.color == from.key.color
            && (IsNew(before.filaments, m.filaments, i) ==> to.details == from.details)
  {
    assert Settled(before.filaments, m.filaments, i, run.r.filaments, run.filaments);
  }

  lemma AssetIsCarried(schema: Schema, m: Manifest, bundleHash: string, before: Tables, after: Tables, run: Run, i: nat)
    requires Restoration(schema, m, bundleHash, before, after, run) && i < |m.assets|
    ensures var from := m.assets[i];
            && from.id in run.r.assets && run.r.assets[from.id] in after.assets
            && var to := after.assets[run.r.assets[from.id]];
            && to.key == from.key
            && (IsNew(before.assets, m.assets, i) ==> to.details == from.details)
  {
    assert Settled(before.assets, m.assets, i, run.r.assets, run.assets);
  }

  /** The project has its row, under its own name when its id was free and under a longer one when not. */
  lemma ProjectIsCarried(schema: Schema, m: Manifest, bundleHash: string, before: Tables, after: Tables, run: Run)
    requires ManifestOk(schema, m) && Restoration(schema, m, bundleHash, before, after, run)
    ensures run.project !in before.projects && run.project in after.projects
    ensures var from, to := m.project, after.projects[run.project];
            && to.id == run.project && (run.project == from.id <==> from.id !in before.projects)
            && to.name == (if from.id in before.projects then from.name + " (Imported)" else from.name)
            && (from.active.Some? && from.active.value in RevisionIds(m) ==>
                  CarriedId(run.r.revisions, from.active, to.active))
            && (!(from.active.Some? && from.active.value in RevisionIds(m)) ==> to.active.None?)
            && to.details == from.details
  {
  }

  // ----- revisions

  /** A revision and its row: in the tree where it was, under the new id of its parent or a root as before. */
  ghost predicate CarriedRevision(schema: Schema, r: Renames, from: Revision, to: Revision) {
    && from.id in r.revisions && to.id == r.revisions[from.id]
    && from.source in r.assets && to.source == r.assets[from.source]
    && CarriedId(r.revisions, from.parent, to.parent)
    && CarriedConfig(schema, r.assets, r.filaments, from.config, to.config)
    && to.schemaVersion == to.config.body.schemaVersion && to.fingerprint == to.config
    && to.publishedAt == from.publishedAt && to.details == from.details
  }

  lemma RevisionRowIsCarried(schema: Schema, names: Names, r: Renames, project: Id, rows: map<Id, Row<Revision>>,
                             from: Revision)
    requires RevisionOk(schema, names, from) && RevisionRestored(schema, r, project, rows, from)
    requires r.assets.Keys == names.assets && r.filaments.Keys == names.filaments
    requires from.parent.Some? ==> from.parent.value in r.revisions
    ensures from.id in r.revisions && r.revisions[from.id] in rows && rows[r.revisions[from.id]].project == project
    ensures CarriedRevision(schema, r, from, rows[r.revisions[from.id]].record)
  {
    ConfigIsCarried(schema, names, r, from.config);
  }

  lemma RevisionIsCarried(schema: Schema, m: Manifest, bundleHash: string, before: Tables, after: Tables, run: Run,
                          i: nat)
    requires ManifestOk(schema, m) && RevisionOrder.AllGrounded(RevisionOrder.ById(m.revisions))
    requires Restoration(schema, m, bundleHash, before, after, run) && i < |m.revisions|
    ensures var from := m.revisions[i];
            && from.id in run.r.revisions && run.r.revisions[from.id] !in before.revisions
            && run.r.revisions[from.id] in after.revisions
            && after.revisions[run.r.revisions[from.id]].project == run.project
            && CarriedRevision(schema, RecordMaps(run.r), from, after.revisions[run.r.revisions[from.id]].record)
  {
    var from, c := m.revisions[i], ContentsOf(m);
    OneRevisionPerId(m, i);
    assert RevisionOk(schema, NamesIn(c), c.revisions[from.id]);
    assert RevisionRestored(schema, RecordMaps(run.r), run.project, after.revisions, from);
    RevisionOrder.GroundedParentIsThere(c.revisions, from.id);
    RevisionRowIsCarried(schema, NamesIn(c), RecordMaps(run.r), run.project, after.revisions, from);
    assert run.r.revisions[from.id] in run.r.revisions.Values;
  }

  /** The project has no other revision. */
  lemma NoOtherRevision(schema: Schema, m: Manifest, bundleHash: string, before: Tables, after: Tables, run: Run, x: Id)
    requires Consistent(before) && Restoration(schema, m, bundleHash, before, after, run)
    requires x in after.revisions && after.revisions[x].project == run.project
    ensures exists i :: 0 <= i < |m.revisions| && m.revisions[i].id in run.r.revisions
                     && run.r.revisions[m.revisions[i].id] == x
  {
    assert x in Images(run.r.revisions, DoneIds(m.revisions));
    var id :| id in DoneIds(m.revisions) && id in run.r.revisions && run.r.revisions[id] == x;
    var i :| 0 <= i < |m.revisions| && m.revisions[i].id == id;
  }

  // ----- operations, artifacts and publications

  /** An operation and its row. */
  ghost predicate CarriedOperation(revisions: map<Id, Id>, from: RegionOperation, to: RegionOperation) {
    && from.revision in revisions && to.revision == revisions[from.revision]
    && to.sequence == from.sequence && to.paletteEdit == from.paletteEdit && to.command == from.command
    && to.source == from.source && to.details == from.details
  }

  lemma OperationRowIsCarried(revisions: map<Id, Id>, before: seq<RegionOperation>, rows: seq<RegionOperation>,
                              operations: seq<RegionOperation>, i: nat)
    requires OperationsRestored(revisions, before, rows, operations) && i < |operations|
    ensures |rows| == |before| + |operations| && CarriedOperation(revisions, operations[i], rows[|before| + i])
    ensures forall j :: 0 <= j < |before| + i ==> rows[j].id != rows[|before| + i].id
  {
    assert OperationImage(rows[|before| + i], operations[i], revisions);
  }

  lemma OperationIsCarried(schema: Schema, m: Manifest, bundleHash: string, before: Tables, after: Tables, run: Run,
                           i: nat)
    requires Restoration(schema, m, bundleHash, before, after, run) && i < |m.operations|
    ensures |after.operations| == |before.operations| + |m.operations|
    ensures CarriedOperation(run.r.revisions, m.operations[i], after.operations[|before.operations| + i])
    ensures forall j :: 0 <= j < |before.operations| + i ==>
              after.operations[j].id != after.operations[|before.operations| + i].id
  {
    OperationRowIsCarried(run.r.revisions, before.operations, after.operations, m.operations, i);
  }

  /** An artifact and its row, which may have another id and another key. */
  ghost predicate CarriedArtifact(revisions: map<Id, Id>, from: Artifact, to: Artifact) {
    && from.revision.Some? && CarriedId(revisions, from.revision, to.revision)
    && to.kind == from.kind && to.digest == from.digest && to.mediaType == from.mediaType && to.size == from.size
    && to.sourceId == from.sourceId && to.createdAt == from.createdAt && to.details == from.details
  }

  /** No earlier row has its id, or its key within its kind. */
  ghost predicate NewAmong(rows: seq<Artifact>, i: nat)
    requires i < |rows|
  {
    forall j :: 0 <= j < i ==>
      rows[j].id != rows[i].id && !(rows[j].kind == rows[i].kind && rows[j].key == rows[i].key)
  }

  lemma ArtifactRowIsCarried(before: seq<Artifact>, images: seq<Artifact>, artifacts: seq<Artifact>, c: Context, i: nat)
    requires AllImported(before, images, artifacts, c) && i < |artifacts|
    ensures |before + images| == |before| + |artifacts|
    ensures CarriedArtifact(c.revisions, artifacts[i], (before + images)[|before| + i])
    ensures NewAmong(before + images, |before| + i)
  {
    var rows := before + images[..i];
    assert ImportedInto(rows, images[i], artifacts[i], c);
    NewRowDiffers(rows, images[i], artifacts[i], c);
    forall j | 0 <= j < |rows| ensures (before + images)[j] == rows[j] {
    }
  }

  lemma ArtifactIsCarried(schema: Schema, m: Manifest, bundleHash: string, before: Tables, after: Tables, run: Run,
                          i: nat)
    requires Restoration(schema, m, bundleHash, before, after, run) && i < |m.artifacts|
    ensures |after.artifacts| == |before.artifacts| + |m.artifacts|
    ensures CarriedArtifact(run.r.revisions, m.artifacts[i], after.artifacts[|before.artifacts| + i])
    ensures NewAmong(after.artifacts, |before.artifacts| + i)
  {
    var c := ContextFor(m.artifacts, run.r.revisions, bundleHash);
    ArtifactRowIsCarried(before.artifacts, run.images, m.artifacts, c, i);
  }

  lemma ArtifactKeyIsChosen(before: seq<Artifact>, images: seq<Artifact>, artifacts: seq<Artifact>, c: Context, i: nat)
    requires AllImported(before, images, artifacts, c) && i < |artifacts|
    ensures |before + images| == |before| + |artifacts|
    ensures IsChosen((before + images)[|before| + i].key,
                     KeysOf((before + images)[..|before| + i], artifacts[i].kind), artifacts[i].key, c.bundleHash)
  {
    var rows := before + images[..i];
    assert (before + images)[..|before| + i] == rows;
    assert ImportedInto(rows, images[i], artifacts[i], c);
    KeyForIsChosen(KeysOf(rows, artifacts[i].kind), artifacts[i].key, c.bundleHash);
  }

  /** A key that an earlier row of the kind has is replaced by the first numbered copy that none has. */
  lemma ArtifactKeyIsCarried(schema: Schema, m: Manifest, bundleHash: string, before: Tables, after: Tables, run: Run,
                             i: nat)
    requires Restoration(schema, m, bundleHash, before, after, run) && i < |m.artifacts|
    ensures |after.artifacts| == |before.artifacts| + |m.artifacts|
    ensures IsChosen(after.artifacts[|before.artifacts| + i].key,
                     KeysOf(after.artifacts[..|before.artifacts| + i], m.artifacts[i].kind), m.artifacts[i].key,
                     bundleHash)
  {
    ArtifactKeyIsChosen(before.artifacts, run.images, m.artifacts,
                        ContextFor(m.artifacts, run.r.revisions, bundleHash), i);
  }

  /** A publication is what it was, or what fresh evidence becomes that no longer agrees. */
  ghost predicate CarriedPublication(revisions: map<Id, Id>, from: Publication, to: Publication) {
    && from.revision in revisions && to.revision == revisions[from.revision]
    && to.draftGeneration == from.draftGeneration && to.job == from.job && to.previewKey == from.previewKey
    && to.details == from.details
    && (|| (to.status == from.status && to.downgraded == from.downgraded && to.manifest == from.manifest
            && to.count == from.count)
        || (from.status == Fresh && to.status == Stale && to.downgraded && to.manifest.None? && to.count == 0))
  }

  lemma PublicationRowIsCarried(from: Publication, to: Publication, bases: map<Id, Basis>, revisions: map<Id, Id>,
                                artifacts: seq<Artifact>)
    requires RestoredAs(from, to, bases, revisions, artifacts)
    ensures CarriedPublication(revisions, from, to)
  {
    if to.status.Fresh? { assert from.status.Fresh?; }
  }

  lemma PublicationIsCarried(schema: Schema, m: Manifest, bundleHash: string, before: Tables, after: Tables, run: Run,
                             i: nat)
    requires Restoration(schema, m, bundleHash, before, after, run) && i < |m.publications|
    ensures m.publications[i].revision in run.r.revisions
    ensures run.r.revisions[m.publications[i].revision] in after.publications
    ensures CarriedPublication(run.r.revisions, m.publications[i],
                               after.publications[run.r.revisions[m.publications[i].revision]])
  {
    var from, bases := m.publications[i], BasesOf(schema, RecordMaps(run.r), m);
    assert from in m.publications;
    assert PublicationRestored(from, bases, run.r.revisions, after.artifacts, after.publications);
    PublicationRowIsCarried(from, after.publications[run.r.revisions[from.revision]], bases, run.r.revisions,
                            after.artifacts);
  }

  lemma BasisIsOfTheRow(schema: Schema, m: Manifest, r: Renames, project: Id, rows: map<Id, Row<Revision>>, id: Id)
    requires AllRestored(schema, r, project, rows, m.revisions) && id in BasesOf(schema, r, m)
    ensures id in r.revisions && r.revisions[id] in rows
    ensures BasesOf(schema, r, m)[id].restoredConfig == rows[r.revisions[id]].record.fingerprint
    ensures BasesOf(schema, r, m)[id].operations == OperationsOf(m.operations, id)
  {
    var table := RevisionOrder.ById(m.revisions);
    assert table[id] in m.revisions;
    var k :| 0 <= k < |m.revisions| && m.revisions[k] == table[id];
    assert RevisionRestored(schema, r, project, rows, m.revisions[k]);
  }

  lemma SequenceIsOfTheBasis(p: Publication, bases: map<Id, Basis>, targets: map<Id, Id>, artifacts: seq<Artifact>,
                             rows: map<Id, Publication>)
    requires PublicationRestored(p, bases, targets, artifacts, rows)
    ensures p.revision in bases && p.revision in targets && targets[p.revision] in rows
    ensures rows[targets[p.revision]].editorSequence.config == bases[p.revision].restoredConfig
    ensures rows[targets[p.revision]].editorSequence.commands == Commands(bases[p.revision].operations)
  {
  }

  /** Its editor sequence is taken again, of the restored fingerprint and the commands of its revision. */
  lemma SequenceIsTakenAgain(schema: Schema, m: Manifest, bundleHash: string, before: Tables, after: Tables, run: Run,
                             i: nat)
    requires Restoration(schema, m, bundleHash, before, after, run) && i < |m.publications|
    ensures var id := m.publications[i].revision;
            && id in run.r.revisions && run.r.revisions[id] in after.revisions
            && run.r.revisions[id] in after.publications
            && var to := after.publications[run.r.revisions[id]];
            && to.editorSequence.config == after.revisions[run.r.revisions[id]].record.fingerprint
            && to.editorSequence.commands == Commands(OperationsOf(m.operations, id))
  {
    var p, bases := m.publications[i], BasesOf(schema, RecordMaps(run.r), m);
    assert PublicationRestored(p, bases, run.r.revisions, after.artifacts, after.publications);
    SequenceIsOfTheBasis(p, bases, run.r.revisions, after.artifacts, after.publications);
    BasisIsOfTheRow(schema, m, RecordMaps(run.r), run.project, after.revisions, p.revision);
  }

  lemma NewPublicationIsOfSome(publications: seq<Publication>, bases: map<Id, Basis>, targets: map<Id, Id>,
                               artifacts: seq<Artifact>, before: map<Id, Publication>, rows: map<Id, Publication>,
                               x: Id)
    requires PublicationsRestored(publications, bases, targets, artifacts, before, rows)
    requires x in rows && x !in before
    ensures exists i :: 0 <= i < |publications| && publications[i].revision in targets
                     && targets[publications[i].revision] == x
  {
    assert TargetOfSome(publications, targets, x);
    var p :| p in publications && p.revision in targets && targets[p.revision] == x;
    var i :| 0 <= i < |publications| && publications[i] == p;
  }

  /** The project has no other publication. */
  lemma NoOtherPublication(schema: Schema, m: Manifest, bundleHash: string, before: Tables, after: Tables, run: Run,
                           x: Id)
    requires Restoration(schema, m, bundleHash, before, after, run)
    requires x in after.publications && x !in before.publications
    ensures exists i :: 0 <= i < |m.publications| && m.publications[i].revision in run.r.revisions
                     && run.r.revisions[m.publications[i].revision] == x
  {
    NewPublicationIsOfSome(m.publications, BasesOf(schema, RecordMaps(run.r), m), run.r.revisions, after.artifacts,
                           before.publications, after.publications, x);
  }

  // ----- presets

  /** Every preset is in the workspace, under its name or beside another one that has it. */
  lemma PresetIsCarried(schema: Schema, m: Manifest, bundleHash: string, before: Tables, after: Tables, run: Run,
                        i: nat)
    requires Restoration(schema, m, bundleHash, before, after, run)
    requires PresetsWillFit(m.presets, bundleHash, before.presets) && i < |m.presets|
    ensures Carries(after.presets, m.presets[i], bundleHash)
    ensures (forall id :: id in before.presets ==> before.presets[id].key != m.presets[i].key)
            && (forall j :: 0 <= j < i ==> m.presets[j].key != m.presets[i].key
                                           && !IsBeside(m.presets[i].key, m.presets[j].key, bundleHash)) ==>
              exists id :: id in after.presets && id !in before.presets
                && after.presets[id].key == m.presets[i].key && after.presets[id].details == m.presets[i].details
                && (id == m.presets[i].id <==> m.presets[i].id !in before.presets)
  {
    var shelf := ShelfOf(before.presets);
    PresetIsOnARow(shelf, before.presets, m.presets, bundleHash, after.presets, i);
    if (forall id :: id in before.presets ==> before.presets[id].key != m.presets[i].key)
       && (forall j :: 0 <= j < i ==> m.presets[j].key != m.presets[i].key
                                      && !IsBeside(m.presets[i].key, m.presets[j].key, bundleHash)) {
      NewPresetKeepsItsName(shelf, before.presets, m.presets, bundleHash, after.presets, i);
    }
  }

  // ----- the history

  /** The rows of the project's history, which `RestoredHistory` tells field by field. */
  lemma HistoryIsCarried(schema: Schema, m: Manifest, bundleHash: string, before: Tables, after: Tables, run: Run)
    requires ManifestOk(schema, m) && Restoration(schema, m, bundleHash, before, after, run)
    ensures m.history.head.Some? <==> run.project in after.history.heads
    ensures m.history.head.Some? ==>
              var from, to := m.history.head.value, after.history.heads[run.project];
              && from.checkpoint in run.r.nodes && to.checkpoint == run.r.nodes[from.checkpoint]
              && from.floor in run.r.nodes && to.floor == run.r.nodes[from.floor]
              && from.cursor in run.r.nodes && to.cursor == run.r.nodes[from.cursor]
              && from.tip in run.r.nodes && to.tip == run.r.nodes[from.tip]
              && to.undoLimit == from.undoLimit && to.details == from.details
    ensures m.history.draft.Some? <==> run.project in after.history.drafts
    ensures m.history.draft.Some? ==>
              var from, to := m.history.draft.value, after.history.drafts[run.project];
              && CarriedId(run.r.revisions, from.base, to.base)
              && CarriedConfig(schema, run.r.assets, run.r.filaments, from.config, to.config)
              && to.operations == from.operations && to.generation == from.generation && to.details == from.details
  {
    var t := ExportOf(after.history, run.project);
    HeadIsCarried(schema, NamesOf(m), m.history, run.r, t);
    DraftIsCarried(schema, NamesOf(m), m.history, run.r, t);
  }

  lemma HistoryNodeIsCarried(schema: Schema, m: Manifest, bundleHash: string, before: Tables, after: Tables, run: Run,
                             id: Id)
    requires ManifestOk(schema, m) && Restoration(schema, m, bundleHash, before, after, run) && id in m.history.nodes
    ensures id in run.r.nodes && run.r.nodes[id] in after.history.nodes
    ensures var from, to := m.history.nodes[id], after.history.nodes[run.r.nodes[id]].record;
            && after.history.nodes[run.r.nodes[id]].project == run.project
            && CarriedId(run.r.nodes, from.parent, to.parent) && to.depth == from.depth
            && to.request == from.request && CarriedId(run.r.revisions, from.checkpoint, to.checkpoint)
            && to.createdAt == from.createdAt && to.details == from.details
  {
    NodeIsCarried(schema, NamesOf(m), m.history, run.r, ExportOf(after.history, run.project), id);
  }

  // ----- what was there

  /** No row there was is changed or removed. */
  ghost predicate RowsStay(before: Tables, after: Tables, project: Id) {
    && (forall x :: x in before.filaments ==> x in after.filaments && after.filaments[x] == before.filaments[x])
    && (forall x :: x in before.assets ==> x in after.assets && after.assets[x] == before.assets[x])
    && (forall x :: x in before.projects ==> x in after.projects && after.projects[x] == before.projects[x])
    && (forall x :: x in before.revisions ==> x in after.revisions && after.revisions[x] == before.revisions[x])
    && (forall x :: x in before.presets ==> x in after.presets && after.presets[x] == before.presets[x])
    && (forall x :: x in before.publications ==>
          x in after.publications && after.publications[x] == before.publications[x])
    && before.operations <= after.operations && before.artifacts <= after.artifacts
    && forall p :: p != project ==> ExportOf(after.history, p) == ExportOf(before.history, p)
  }

  lemma RestoreKeepsRows(schema: Schema, m: Manifest, bundleHash: string, before: Tables, after: Tables, run: Run)
    requires Restoration(schema, m, bundleHash, before, after, run)
    ensures RowsStay(before, after, run.project)
  {
    assert after.operations[..|before.operations|] == before.operations;
  }
}

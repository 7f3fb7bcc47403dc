/**
Restoring a project bundle with its full history: `_restore_manifest` as one transaction over the
tables (src/image23mf/bundles.py:889-1266).
*/
module ProjectRestore {
  import opened Wrappers
  import opened Identifiers
  import opened Sorting
  import opened Columns
  import opened SharedRecords
  import opened Presets
  import opened ArtifactImport
  import opened Evidence
  import opened History
  import opened HistoryValidation
  import opened Renaming
  import opened StateIdentity
  import opened HistoryImport
  import opened ProjectManifest
  import opened ProjectExport
  import RevisionOrder

  function ProjectOfRevision(rows: map<Id, Row<Revision>>): map<Id, Id> {
    map id | id in rows :: rows[id].project
  }

  // ----- the records a restore inserts

  /** The maps have an entry for every id that a revision's row needs. */
  predicate RevisionNamed(r: Renames, revision: Revision) {
    revision.id in r.revisions && revision.source in r.assets
  }

  predicate RevisionRewritable(schema: Schema, r: Renames, revision: Revision) {
    RevisionNamed(r, revision) && ConfigRewrites(schema, r.assets, revision.config)
  }

  /** The configurations of all revisions survive the rewriting of their ids. */
  predicate RevisionsRewrite(schema: Schema, assets: map<Id, Id>, revisions: seq<Revision>) {
    forall i {:trigger revisions[i]} ::
      0 <= i < |revisions| ==> ConfigRewrites(schema, assets, revisions[i].config)
  }

  /** Schema version and fingerprint come from the loaded configuration. */
  function RestoredRevision(schema: Schema, r: Renames, revision: Revision): Revision
    requires RevisionRewritable(schema, r, revision)
  {
    var config := CanonicalConfig(schema, RenamedConfig(r, revision.config));
    revision.(id := r.revisions[revision.id], source := r.assets[revision.source],
              parent := Lookup(r.revisions, revision.parent), schemaVersion := config.body.schemaVersion,
              config := config, fingerprint := config)
  }

  function DoneIds(done: seq<Revision>): set<Id> {
    set i | 0 <= i < |done| :: done[i].id
  }

  ghost predicate RevisionRestored(schema: Schema, r: Renames, project: Id, rows: map<Id, Row<Revision>>,
                                   revision: Revision) {
    && RevisionRewritable(schema, r, revision)
    && r.revisions[revision.id] in rows
    && rows[r.revisions[revision.id]] == Row(project, RestoredRevision(schema, r, revision))
  }

  ghost predicate RevisionsRestored(schema: Schema, r: Renames, project: Id, before: map<Id, Row<Revision>>,
                                    rows: map<Id, Row<Revision>>, done: seq<Revision>) {
    && (forall x :: x in before ==> x in rows && rows[x] == before[x])
    && rows.Keys == before.Keys + Images(r.revisions, DoneIds(done))
    && AllRestored(schema, r, project, rows, done)
  }

  ghost predicate AllRestored(schema: Schema, r: Renames, project: Id, rows: map<Id, Row<Revision>>,
                              done: seq<Revision>) {
    forall i {:trigger RevisionRestored(schema, r, project, rows, done[i])} ::
      0 <= i < |done| ==> RevisionRestored(schema, r, project, rows, done[i])
  }

  /** Every revision finds its parent's new row, because parents come first; one that cannot be rewritten ends it. */
  method InsertRevisions(schema: Schema, ordered: seq<Revision>, ghost table: map<Id, Revision>, r: Renames,
                         project: Id, before: map<Id, Row<Revision>>) returns (ok: bool, rows: map<Id, Row<Revision>>)
    requires RevisionOrder.OrderedByLevel(table, ordered) && RevisionOrder.AllGrounded(table)
    requires forall id :: id in table ==> table[id].id == id && RevisionNamed(r, table[id])
    requires r.revisions.Keys == table.Keys && Injective(r.revisions) && r.revisions.Values !! before.Keys
    ensures ok <==> RevisionsRewrite(schema, r.assets, ordered)
    ensures ok ==> RevisionsRestored(schema, r, project, before, rows, ordered)
  {
    rows := before;
    for k := 0 to |ordered|
      invariant RevisionsRestored(schema, r, project, before, rows, ordered[..k])
      invariant forall i {:trigger ordered[i]} :: 0 <= i < k ==> ConfigRewrites(schema, r.assets, ordered[i].config)
    {
      var revision := ordered[k];
      assert revision in table.Values;
      if !ConfigRewrites(schema, r.assets, revision.config) { return false, rows; }
      var row := Row(project, RestoredRevision(schema, r, revision));
      ParentIsIn(schema, ordered, table, r, project, before, rows, k);
      assert row.record.parent.Some? ==> row.record.parent.value in rows;
      OneMoreRevision(schema, ordered, table, r, project, before, rows, k);
      rows := rows[row.record.id := row];
    }
    assert ordered[..|ordered|] == ordered;
    ok := true;
  }

  lemma ParentIsIn(schema: Schema, ordered: seq<Revision>, table: map<Id, Revision>, r: Renames, project: Id,
                   before: map<Id, Row<Revision>>, rows: map<Id, Row<Revision>>, k: nat)
    requires RevisionOrder.OrderedByLevel(table, ordered) && RevisionOrder.AllGrounded(table)
    requires forall id :: id in table ==> table[id].id == id
    requires k < |ordered| && RevisionsRestored(schema, r, project, before, rows, ordered[..k])
    ensures ordered[k].parent.Some? ==>
              ordered[k].parent.value in r.revisions && r.revisions[ordered[k].parent.value] in rows
  {
    if ordered[k].parent.Some? {
      RevisionOrder.ParentsComeFirst(table, ordered, k);
      var i :| 0 <= i < k && ordered[i].id == ordered[k].parent.value;
      assert ordered[..k][i] == ordered[i];
      assert RevisionRestored(schema, r, project, rows, ordered[..k][i]);
    }
  }

  lemma OneMoreRevision(schema: Schema, ordered: seq<Revision>, table: map<Id, Revision>, r: Renames, project: Id,
                        before: map<Id, Row<Revision>>, rows: map<Id, Row<Revision>>, k: nat)
    requires RevisionOrder.OrderedByLevel(table, ordered) && k < |ordered|
    requires RevisionsRestored(schema, r, project, before, rows, ordered[..k])
    requires RevisionRewritable(schema, r, ordered[k]) && Injective(r.revisions)
    requires r.revisions.Values !! before.Keys
    ensures RevisionsRestored(schema, r, project, before,
                              rows[r.revisions[ordered[k].id] := Row(project, RestoredRevision(schema, r, ordered[k]))],
                              ordered[..k + 1])
  {
    var id := ordered[k].id;
    var after := rows[r.revisions[id] := Row(project, RestoredRevision(schema, r, ordered[k]))];
    var head, longer := ordered[..k], ordered[..k + 1];
    DoneIdsGrow(ordered, k);
    ImagesGrow(r.revisions, DoneIds(head), id);
    assert r.revisions[id] in r.revisions.Values;
    forall i {:trigger RevisionRestored(schema, r, project, after, longer[i])} | 0 <= i < |longer|
      ensures RevisionRestored(schema, r, project, after, longer[i])
    {
      if i < k {
        assert longer[i] == head[i] == ordered[i];
        assert RevisionRestored(schema, r, project, rows, head[i]);
        assert ordered[i].id != ordered[k].id;
        OtherRevisionStays(schema, r, project, rows, ordered[i], id, after[r.revisions[id]]);
      } else {
        assert longer[i] == ordered[k];
      }
    }
  }

  lemma DoneIdsGrow(ordered: seq<Revision>, k: nat)
    requires k < |ordered|
    ensures DoneIds(ordered[..k + 1]) == DoneIds(ordered[..k]) + {ordered[k].id}
  {
    var head, longer := ordered[..k], ordered[..k + 1];
    forall x ensures x in DoneIds(longer) <==> x in DoneIds(head) + {ordered[k].id} {
      if x in DoneIds(head) {
        var i :| 0 <= i < k && head[i].id == x;
        assert longer[i].id == x;
      }
      if x == ordered[k].id { assert longer[k].id == x; }
    }
  }

  lemma OtherRevisionStays(schema: Schema, r: Renames, project: Id, rows: map<Id, Row<Revision>>, revision: Revision,
                           id: Id, row: Row<Revision>)
    requires RevisionRestored(schema, r, project, rows, revision)
    requires id in r.revisions && revision.id != id && Injective(r.revisions)
    ensures RevisionRestored(schema, r, project, rows[r.revisions[id] := row], revision)
  {
  }

  // ----- operations and publications

  predicate OperationImage(row: RegionOperation, operation: RegionOperation, revisions: map<Id, Id>) {
    && operation.revision in revisions
    && row == operation.(id := row.id, revision := revisions[operation.revision])
  }

  ghost predicate OperationsRestored(revisions: map<Id, Id>, before: seq<RegionOperation>, rows: seq<RegionOperation>,
                                     operations: seq<RegionOperation>) {
    && |rows| == |before| + |operations| && rows[..|before|] == before
    && (forall i :: 0 <= i < |operations| ==> OperationImage(rows[|before| + i], operations[i], revisions))
    && (forall i, j :: 0 <= i < j < |rows| && |before| <= j ==> rows[i].id != rows[j].id)
  }

  ghost predicate OperationsFit(operations: seq<RegionOperation>) {
    forall i {:trigger operations[i]} :: 0 <= i < |operations| ==> OperationFits(operations[i])
  }

  method InsertOperations(operations: seq<RegionOperation>, revisions: map<Id, Id>, before: seq<RegionOperation>)
    returns (ok: bool, rows: seq<RegionOperation>)
    requires forall i :: 0 <= i < |operations| ==> operations[i].revision in revisions
    ensures ok <==> OperationsFit(operations)
    ensures ok ==> OperationsRestored(revisions, before, rows, operations)
  {
    rows := before;
    for k := 0 to |operations|
      invariant OperationsRestored(revisions, before, rows, operations[..k])
      invariant forall i {:trigger operations[i]} :: 0 <= i < k ==> OperationFits(operations[i])
    {
      if !OperationFits(operations[k]) { return false, rows; }
      var used := set i | 0 <= i < |rows| :: rows[i].id;
      var id := NewId(used);
      assert forall i :: 0 <= i < |rows| ==> rows[i].id in used;
      rows := rows + [operations[k].(id := id, revision := revisions[operations[k].revision])];
    }
    assert operations[..|operations|] == operations;
    ok := true;
  }

  /** What the evidence of every revision rests on, before and after the import. */
  function BasesOf(schema: Schema, r: Renames, m: Manifest): map<Id, Basis> {
    var table := RevisionOrder.ById(m.revisions);
    map id | id in table && RevisionRewritable(schema, r, table[id]) ::
      Basis(table[id].fingerprint, RestoredRevision(schema, r, table[id]).fingerprint, OperationsOf(m.operations, id))
  }

  ghost predicate PublicationsRestored(publications: seq<Publication>, bases: map<Id, Basis>, targets: map<Id, Id>,
                                       artifacts: seq<Artifact>, before: map<Id, Publication>,
                                       rows: map<Id, Publication>) {
    && (forall id :: id in before ==> id in rows && rows[id] == before[id])
    && (forall p {:trigger PublicationRestored(p, bases, targets, artifacts, rows)} ::
          p in publications ==> PublicationRestored(p, bases, targets, artifacts, rows))
    && (forall id {:trigger TargetOfSome(publications, targets, id)} ::
          id in rows && id !in before ==> TargetOfSome(publications, targets, id))
  }

  ghost predicate PublicationRestored(p: Publication, bases: map<Id, Basis>, targets: map<Id, Id>,
                                      artifacts: seq<Artifact>, rows: map<Id, Publication>) {
    && p.revision in targets && targets[p.revision] in rows
    && RestoredAs(p, rows[targets[p.revision]], bases, targets, artifacts)
  }

  ghost predicate TargetOfSome(publications: seq<Publication>, targets: map<Id, Id>, id: Id) {
    exists p :: p in publications && p.revision in targets && targets[p.revision] == id
  }

  method InsertPublications(publications: seq<Publication>, restored: seq<Publication>, ghost bases: map<Id, Basis>,
                            ghost targets: map<Id, Id>, ghost artifacts: seq<Artifact>, before: map<Id, Publication>)
    returns (rows: map<Id, Publication>)
    requires |restored| == |publications| && Injective(targets)
    requires forall i :: 0 <= i < |publications| ==>
               RestoredAs(publications[i], restored[i], bases, targets, artifacts)
    requires forall i, j :: 0 <= i < j < |publications| ==> publications[i].revision != publications[j].revision
    requires targets.Values !! before.Keys
    ensures PublicationsRestored(publications, bases, targets, artifacts, before, rows)
  {
    rows := before;
    for k := 0 to |publications|
      invariant PublicationsRestored(publications[..k], bases, targets, artifacts, before, rows)
    {
      OneMorePublication(publications, restored, bases, targets, artifacts, before, rows, k);
      rows := rows[restored[k].revision := restored[k]];
    }
    assert publications[..|publications|] == publications;
  }

  lemma OneMorePublication(publications: seq<Publication>, restored: seq<Publication>, bases: map<Id, Basis>,
                           targets: map<Id, Id>, artifacts: seq<Artifact>, before: map<Id, Publication>,
                           rows: map<Id, Publication>, k: nat)
    requires |restored| == |publications| && k < |publications| && Injective(targets)
    requires RestoredAs(publications[k], restored[k], bases, targets, artifacts)
    requires forall i, j :: 0 <= i < j < |publications| ==> publications[i].revision != publications[j].revision
    requires targets.Values !! before.Keys
    requires PublicationsRestored(publications[..k], bases, targets, artifacts, before, rows)
    ensures PublicationsRestored(publications[..k + 1], bases, targets, artifacts, before,
                                 rows[restored[k].revision := restored[k]])
  {
    var head, longer, last := publications[..k], publications[..k + 1], publications[k];
    var after := rows[restored[k].revision := restored[k]];
    assert longer == head + [last];
    assert targets[last.revision] in targets.Values;
    forall p {:trigger PublicationRestored(p, bases, targets, artifacts, after)} | p in longer
      ensures PublicationRestored(p, bases, targets, artifacts, after)
    {
      if p != last {
        assert p in head && PublicationRestored(p, bases, targets, artifacts, rows);
        var i :| 0 <= i < k && head[i] == p;
        assert publications[i].revision != publications[k].revision;
      }
    }
    forall id {:trigger TargetOfSome(longer, targets, id)} | id in after && id !in before
      ensures TargetOfSome(longer, targets, id)
    {
      if id == targets[last.revision] {
        assert last in longer;
      } else {
        assert TargetOfSome(head, targets, id);
        var p :| p in head && p.revision in targets && targets[p.revision] == id;
        assert p in longer;
      }
    }
  }

  // ----- the transaction

  /** What one restore chose: ids, shared rows and artifact rows. */
  datatype Run = Run(
    project: Id, r: Renames, filaments: map<Id, FilamentRow>, assets: map<Id, AssetRow>, images: seq<Artifact>)

  /** The ids, and the filament and asset rows, that an import may choose. */
  ghost predicate Chosen(t: Tables, m: Manifest, run: Run) {
    && SharedImport(t.filaments, m.filaments, run.r.filaments, run.filaments)
    && SharedImport(t.assets, m.assets, run.r.assets, run.assets)
    && MadeUpIdsAreNew(t.filaments, m.filaments, run.r.filaments, |m.filaments|)
    && MadeUpIdsAreNew(t.assets, m.assets, run.r.assets, |m.assets|)
    && run.project !in t.projects && (run.project == m.project.id <==> m.project.id !in t.projects)
    && run.r.revisions.Keys == RevisionIds(m) && Injective(run.r.revisions)
    && run.r.revisions.Values !! t.revisions.Keys
    && (forall id :: id in run.r.revisions ==> (run.r.revisions[id] == id <==> id !in t.revisions))
  }

  /** What a restore chose is what it may choose, and its artifact rows are an import of the bundle's. */
  ghost predicate RecordsImported(schema: Schema, m: Manifest, bundleHash: string, t: Tables, run: Run) {
    && Chosen(t, m, run)
    && AllImported(t.artifacts, run.images, m.artifacts, ContextFor(m.artifacts, run.r.revisions, bundleHash))
  }

  /** Some publication has a generation that does not fit, or would stay fresh although the table cannot hold it. */
  ghost predicate AnyRefusable(schema: Schema, m: Manifest, t: Tables, run: Run) {
    exists i :: 0 <= i < |m.publications| &&
      Refusable(m.publications[i], BasesOf(schema, RecordMaps(run.r), m), run.r.revisions, t.artifacts + run.images)
  }

  /** A project whose id is taken is imported under a longer name. */
  function RestoredProject(project: Project, id: Id, revisions: map<Id, Id>): Project {
    Project(id, if id == project.id then project.name else project.name + IMPORTED,
            Lookup(revisions, project.active), project.details)
  }

  /** Everything a successful restore leaves in the tables. */
  ghost predicate Restoration(schema: Schema, m: Manifest, bundleHash: string, before: Tables, after: Tables,
                              run: Run) {
    && RecordsImported(schema, m, bundleHash, before, run)
    && after.filaments == run.filaments && after.assets == run.assets
    && after.projects == before.projects[run.project := RestoredProject(m.project, run.project, run.r.revisions)]
    && RevisionsRestored(schema, RecordMaps(run.r), run.project, before.revisions, after.revisions, m.revisions)
    && OperationsRestored(run.r.revisions, before.operations, after.operations, m.operations)
    && after.artifacts == before.artifacts + run.images
    && PublicationsRestored(m.publications, BasesOf(schema, RecordMaps(run.r), m), run.r.revisions, after.artifacts,
                            before.publications, after.publications)
    && PresetsTaken(m.presets, bundleHash, before.presets, after.presets)
    && HistoryRestored(schema, NamesOf(m), m.history, before.history, after.history, run.project, run.r)
  }

  ghost predicate PresetsTaken(presets: seq<Preset>, bundleHash: string, before: map<Id, PresetRow>,
                               after: map<Id, PresetRow>) {
    KeysUnique(before) && PresetsRestored(ShelfOf(before), before, presets, bundleHash, after)
  }

  // ----- when a restore goes through

  predicate FilamentFits(filament: Filament) {
    ColorFits(filament.key.color)
  }

  predicate AssetFits(asset: Asset) {
    SizeFits(asset.details.width) && SizeFits(asset.details.height)
  }

  predicate ProjectNameFits(project: Project, projects: map<Id, Project>) {
    NameFits(if project.id in projects then project.name + IMPORTED else project.name)
  }

  /** The columns take the project, and the filaments and assets that are not found. */
  ghost predicate RecordColumnsFit(m: Manifest, t: Tables) {
    && NewRecordsFit(t.filaments, m.filaments, FilamentFits, |m.filaments|)
    && NewRecordsFit(t.assets, m.assets, AssetFits, |m.assets|)
    && ProjectNameFits(m.project, t.projects)
  }

  /** Every configuration has a palette that the rewriting of ids can read, and loads under its new source. */
  ghost predicate ConfigsRewrite(schema: Schema, assets: map<Id, Id>, m: Manifest) {
    RevisionsRewrite(schema, assets, m.revisions) && StatesRewrite(schema, assets, m.history)
  }

  ghost predicate PresetsWillFit(presets: seq<Preset>, bundleHash: string, rows: map<Id, PresetRow>) {
    KeysUnique(rows) && PresetsFit(ShelfOf(rows), presets, bundleHash, |presets|)
  }

  /** All that a validated bundle needs to get into these tables. */
  ghost predicate Restorable(schema: Schema, m: Manifest, bundleHash: string, t: Tables, run: Run) {
    && RecordColumnsFit(m, t) && OperationsFit(m.operations) && HistoryFits(m.history)
    && RevisionOrder.AllGrounded(RevisionOrder.ById(m.revisions))
    && ConfigsRewrite(schema, run.r.assets, m)
    && !AnyRefusable(schema, m, t, run)
    && PresetsWillFit(m.presets, bundleHash, t.presets)
    && !StatesCollide(KeyNames(m.filaments), m.history)
  }

  /** The order of revisions raises an error of its own; whatever else fails ends as one and the same. */
  datatype Outcome = Restored(project: Id) | CycleOrMissingParent | RolledBack

  lemma RevisionsAreNamed(schema: Schema, m: Manifest, r: Renames)
    requires RevisionsOk(schema, ContentsOf(m)) && r.assets.Keys == IdsOf(m.assets)
    requires r.revisions.Keys == RevisionIds(m)
    ensures forall id :: id in RevisionOrder.ById(m.revisions) ==> RevisionNamed(r, RevisionOrder.ById(m.revisions)[id])
  {
    var c := ContentsOf(m);
    forall id | id in c.revisions ensures RevisionNamed(r, c.revisions[id]) {
      assert RevisionOk(schema, NamesIn(c), c.revisions[id]);
    }
  }

  lemma RevisionsAreRewritable(schema: Schema, m: Manifest, r: Renames)
    requires RevisionsOk(schema, ContentsOf(m)) && r.assets.Keys == IdsOf(m.assets)
    requires r.revisions.Keys == RevisionIds(m) && RevisionsRewrite(schema, r.assets, m.revisions)
    ensures forall id :: id in RevisionOrder.ById(m.revisions) ==>
              RevisionRewritable(schema, r, RevisionOrder.ById(m.revisions)[id])
    ensures BasesOf(schema, r, m).Keys == RevisionIds(m)
  {
    var table := RevisionOrder.ById(m.revisions);
    RevisionsAreNamed(schema, m, r);
    forall id | id in table ensures RevisionRewritable(schema, r, table[id]) {
      var i :| 0 <= i < |m.revisions| && m.revisions[i] == table[id];
    }
  }

  lemma PublicationsAreKnown(schema: Schema, m: Manifest, r: Renames)
    requires ManifestOk(schema, m) && r.revisions.Keys == RevisionIds(m)
    requires BasesOf(schema, r, m).Keys == RevisionIds(m)
    ensures forall i :: 0 <= i < |m.publications| ==>
              PublicationKnown(m.publications[i], BasesOf(schema, r, m), r.revisions)
  {
    var c := ContentsOf(m);
    EveryPublicationIsKept(m.publications);
    forall i | 0 <= i < |m.publications|
      ensures PublicationKnown(m.publications[i], BasesOf(schema, r, m), r.revisions)
    {
      assert PublicationOk(c, c.publications[m.publications[i].revision]);
    }
  }

  /** The rows of a sorted bundle are the rows of the bundle. */
  lemma OrderDoesNotMatter(schema: Schema, m: Manifest, ordered: seq<Revision>, r: Renames, project: Id,
                           before: map<Id, Row<Revision>>, rows: map<Id, Row<Revision>>)
    requires RecordIdsUnique(m) && RevisionOrder.OrderedByLevel(RevisionOrder.ById(m.revisions), ordered)
    requires RevisionsRestored(schema, r, project, before, rows, ordered)
    ensures RevisionsRestored(schema, r, project, before, rows, m.revisions)
  {
    SameRevisions(m, ordered);
    forall i {:trigger RevisionRestored(schema, r, project, rows, m.revisions[i])} | 0 <= i < |m.revisions|
      ensures RevisionRestored(schema, r, project, rows, m.revisions[i])
    {
      assert m.revisions[i] in ordered;
      var j :| 0 <= j < |ordered| && ordered[j] == m.revisions[i];
      assert RevisionRestored(schema, r, project, rows, ordered[j]);
    }
    SameIds(ordered, m.revisions);
  }

  lemma SameRevisions(m: Manifest, ordered: seq<Revision>)
    requires RecordIdsUnique(m) && RevisionOrder.OrderedByLevel(RevisionOrder.ById(m.revisions), ordered)
    ensures forall revision :: revision in ordered <==> revision in m.revisions
  {
    RevisionOrder.EveryRevisionIsKept(m.revisions);
  }

  lemma RewritingIsOrderless(schema: Schema, assets: map<Id, Id>, a: seq<Revision>, b: seq<Revision>)
    requires forall revision :: revision in a <==> revision in b
    ensures RevisionsRewrite(schema, assets, a) <==> RevisionsRewrite(schema, assets, b)
  {
    if RevisionsRewrite(schema, assets, a) {
      forall i | 0 <= i < |b| ensures ConfigRewrites(schema, assets, b[i].config) {
        assert b[i] in a;
      }
    }
    if RevisionsRewrite(schema, assets, b) {
      forall i | 0 <= i < |a| ensures ConfigRewrites(schema, assets, a[i].config) {
        assert a[i] in b;
      }
    }
  }

  lemma SameIds(a: seq<Revision>, b: seq<Revision>)
    requires forall revision :: revision in a <==> revision in b
    ensures DoneIds(a) == DoneIds(b)
  {
    forall x ensures x in DoneIds(a) <==> x in DoneIds(b) {
      if i :| 0 <= i < |a| && a[i].id == x {
        assert a[i] in b;
      }
      if i :| 0 <= i < |b| && b[i].id == x {
        assert b[i] in a;
      }
    }
  }

  // The history's foreign keys to assets and revisions hold.
  lemma RevisionsBelong(schema: Schema, m: Manifest, r: Renames, project: Id, rows: map<Id, Row<Revision>>)
    requires AllRestored(schema, r, project, rows, m.revisions) && r.revisions.Keys == RevisionIds(m)
    ensures forall x :: x in r.revisions.Values ==> x in rows && rows[x].project == project
  {
    forall x | x in r.revisions.Values ensures x in rows && rows[x].project == project {
      var id := Origin(r.revisions, x);
      var i :| 0 <= i < |m.revisions| && m.revisions[i] == RevisionOrder.ById(m.revisions)[id];
      assert RevisionRestored(schema, r, project, rows, m.revisions[i]);
    }
  }

  method InsertAllRevisions(schema: Schema, m: Manifest, ordered: seq<Revision>, project: Id, maps: Renames,
                            before: map<Id, Row<Revision>>) returns (ok: bool, rows: map<Id, Row<Revision>>)
    requires ManifestOk(schema, m) && RevisionOrder.AllGrounded(RevisionOrder.ById(m.revisions))
    requires RevisionOrder.OrderedByLevel(RevisionOrder.ById(m.revisions), ordered)
    requires maps.revisions.Keys == RevisionIds(m) && Injective(maps.revisions)
    requires maps.assets.Keys == IdsOf(m.assets) && maps.revisions.Values !! before.Keys
    ensures ok <==> RevisionsRewrite(schema, maps.assets, m.revisions)
    ensures ok ==> RevisionsRestored(schema, maps, project, before, rows, m.revisions)
  {
    RevisionsAreNamed(schema, m, maps);
    ok, rows := InsertRevisions(schema, ordered, RevisionOrder.ById(m.revisions), maps, project, before);
    SameRevisions(m, ordered);
    RewritingIsOrderless(schema, maps.assets, ordered, m.revisions);
    if ok {
      OrderDoesNotMatter(schema, m, ordered, maps, project, before, rows);
    }
  }

  method ImportArtifacts(artifacts: seq<Artifact>, revisions: map<Id, Id>, bundleHash: string, before: seq<Artifact>)
    returns (rows: seq<Artifact>, ghost images: seq<Artifact>)
    requires forall i :: 0 <= i < |artifacts| ==> Owned(artifacts[i], revisions)
    ensures rows == before + images
    ensures AllImported(before, images, artifacts, ContextFor(artifacts, revisions, bundleHash))
  {
    var table := new ArtifactTable(before);
    table.Import(artifacts, revisions, bundleHash);
    rows, images := table.rows, table.rows[|before|..];
  }

  /** No rows at all when the table refuses one of them. */
  method ImportPublications(publications: seq<Publication>, bases: map<Id, Basis>, targets: map<Id, Id>,
                            artifacts: seq<Artifact>, before: map<Id, Publication>)
    returns (rows: Option<map<Id, Publication>>)
    requires forall i :: 0 <= i < |publications| ==> PublicationKnown(publications[i], bases, targets)
    requires forall i, j :: 0 <= i < j < |publications| ==> publications[i].revision != publications[j].revision
    requires Injective(targets) && targets.Values !! before.Keys
    ensures rows.None? <==>
              exists i :: 0 <= i < |publications| && Refusable(publications[i], bases, targets, artifacts)
    ensures rows.Some? ==> PublicationsRestored(publications, bases, targets, artifacts, before, rows.value)
  {
    var restored := RestorePublications(publications, bases, targets, artifacts);
    rows := None;
    if restored.Some? {
      var table := InsertPublications(publications, restored.value, bases, targets, artifacts, before);
      rows := Some(table);
    }
  }

  // What a manifest gives the inserts of its parts.
  lemma PartsMayGoIn(schema: Schema, m: Manifest, t: Tables, run: Run)
    requires ManifestOk(schema, m) && Consistent(t) && Chosen(t, m, run)
    ensures forall i :: 0 <= i < |m.artifacts| ==> Owned(m.artifacts[i], run.r.revisions)
    ensures forall i :: 0 <= i < |m.operations| ==> m.operations[i].revision in run.r.revisions
    ensures run.r.revisions.Values !! t.publications.Keys
    ensures HistoryMayGoIn(t.history, run.project)
    ensures RecordIdsUnique(m) && Validated(schema, NamesOf(m), m.history)
  {
    OwnersAreKnown(schema, ContentsOf(m), run.r.revisions);
    NewProjectHasNoHistory(t, run.project);
  }

  lemma OwnersAreKnown(schema: Schema, c: Contents, revisions: map<Id, Id>)
    requires RecordsOk(schema, c) && revisions.Keys == c.revisions.Keys
    ensures forall i :: 0 <= i < |c.artifacts| ==> Owned(c.artifacts[i], revisions)
    ensures forall i :: 0 <= i < |c.operations| ==> c.operations[i].revision in revisions
  {
  }

  lemma NewProjectHasNoHistory(t: Tables, project: Id)
    requires Consistent(t) && project !in t.projects
    ensures HistoryMayGoIn(t.history, project)
  {
  }

  lemma ImagesAreThere(schema: Schema, m: Manifest, bundleHash: string, t: Tables, chosen: Run) returns (run: Run)
    requires ManifestOk(schema, m) && Consistent(t) && Chosen(t, m, chosen)
    ensures run == chosen.(images := run.images) && RecordsImported(schema, m, bundleHash, t, run)
  {
    PartsMayGoIn(schema, m, t, chosen);
    var images := ImagesExist(t.artifacts, m.artifacts, ContextFor(m.artifacts, chosen.r.revisions, bundleHash));
    run := chosen.(images := images);
  }

  /** The ids and the rows a restore starts with; it ends here when a column refuses one of them. */
  method ChooseIds(t: Tables, m: Manifest) returns (ok: bool, run: Run)
    requires Consistent(t) && RecordIdsUnique(m)
    ensures ok <==> RecordColumnsFit(m, t)
    ensures ok ==> Chosen(t, m, run) && run.r == RecordMaps(run.r)
  {
    run := Run(0, Renames(map[], map[], map[], map[], map[]), map[], map[], []);
    var filamentMap, filaments;
    ok, filamentMap, filaments := ImportShared(t.filaments, m.filaments, FilamentFits);
    if !ok { return; }
    var assetMap, assets;
    ok, assetMap, assets := ImportShared(t.assets, m.assets, AssetFits);
    if !ok { return; }
    var project := AvailableId(t.projects.Keys, m.project.id, {});
    if !NameFits(RestoredProject(m.project, project, map[]).name) { return false, run; }
    var revisionMap := AvailableIds(t.revisions.Keys, RevisionIds(m));
    run := Run(project, Renames(assetMap, revisionMap, filamentMap, map[], map[]), filaments, assets, []);
  }

  /** What the transaction has inserted when it comes to the presets. */
  datatype Inserted = Inserted(
    revisions: map<Id, Row<Revision>>,
    operations: seq<RegionOperation>,
    artifacts: seq<Artifact>,
    publications: map<Id, Publication>)

  /** What revisions, operations and publications need to go in. */
  ghost predicate RecordsMayGoIn(schema: Schema, m: Manifest, t: Tables, run: Run) {
    && RevisionsRewrite(schema, run.r.assets, m.revisions) && OperationsFit(m.operations)
    && !AnyRefusable(schema, m, t, run)
  }

  ghost predicate RecordsInserted(schema: Schema, m: Manifest, t: Tables, run: Run, rows: Inserted) {
    && RevisionsRestored(schema, RecordMaps(run.r), run.project, t.revisions, rows.revisions, m.revisions)
    && OperationsRestored(run.r.revisions, t.operations, rows.operations, m.operations)
    && rows.artifacts == t.artifacts + run.images
    && PublicationsRestored(m.publications, BasesOf(schema, RecordMaps(run.r), m), run.r.revisions, rows.artifacts,
                            t.publications, rows.publications)
  }

  lemma BasesAreKnown(schema: Schema, m: Manifest, r: Renames)
    requires ManifestOk(schema, m) && r.assets.Keys == IdsOf(m.assets) && r.revisions.Keys == RevisionIds(m)
    requires RevisionsRewrite(schema, r.assets, m.revisions)
    ensures forall i :: 0 <= i < |m.publications| ==>
              PublicationKnown(m.publications[i], BasesOf(schema, r, m), r.revisions)
  {
    RevisionsAreRewritable(schema, m, r);
    PublicationsAreKnown(schema, m, r);
  }

  // Artifacts and the publications that rest on them.
  method InsertEvidence(schema: Schema, m: Manifest, bundleHash: string, t: Tables, chosen: Run)
    returns (artifacts: seq<Artifact>, publications: Option<map<Id, Publication>>, ghost run: Run)
    requires ManifestOk(schema, m) && Consistent(t) && Chosen(t, m, chosen) && chosen.r == RecordMaps(chosen.r)
    requires RevisionsRewrite(schema, chosen.r.assets, m.revisions)
    ensures run == chosen.(images := run.images) && RecordsImported(schema, m, bundleHash, t, run)
    ensures artifacts == t.artifacts + run.images
    ensures publications.Some? <==> !AnyRefusable(schema, m, t, run)
    ensures publications.Some? ==>
              PublicationsRestored(m.publications, BasesOf(schema, chosen.r, m), chosen.r.revisions, artifacts,
                                   t.publications, publications.value)
  {
    PartsMayGoIn(schema, m, t, chosen);
    ghost var images;
    artifacts, images := ImportArtifacts(m.artifacts, chosen.r.revisions, bundleHash, t.artifacts);
    run := chosen.(images := images);
    BasesAreKnown(schema, m, chosen.r);
    publications := ImportPublications(m.publications, BasesOf(schema, chosen.r, m), chosen.r.revisions, artifacts,
                                       t.publications);
  }

  // Revisions, operations, artifacts and publications.
  method InsertRecords(schema: Schema, m: Manifest, bundleHash: string, t: Tables, ordered: seq<Revision>, chosen: Run)
    returns (rows: Option<Inserted>, ghost run: Run)
    requires ManifestOk(schema, m) && Consistent(t) && RevisionOrder.AllGrounded(RevisionOrder.ById(m.revisions))
    requires RevisionOrder.OrderedByLevel(RevisionOrder.ById(m.revisions), ordered)
    requires Chosen(t, m, chosen) && chosen.r == RecordMaps(chosen.r)
    ensures run == chosen.(images := run.images) && RecordsImported(schema, m, bundleHash, t, run)
    ensures rows.Some? <==> RecordsMayGoIn(schema, m, t, run)
    ensures rows.Some? ==> RecordsInserted(schema, m, t, run, rows.value)
  {
    PartsMayGoIn(schema, m, t, chosen);
    run := ImagesAreThere(schema, m, bundleHash, t, chosen);
    var ok, revisions := InsertAllRevisions(schema, m, ordered, chosen.project, chosen.r, t.revisions);
    if !ok { return None, run; }
    var operations;
    ok, operations := InsertOperations(m.operations, chosen.r.revisions, t.operations);
    if !ok { return None, run; }
    var artifacts, publications;
    artifacts, publications, run := InsertEvidence(schema, m, bundleHash, t, chosen);
    if publications.None? { return None, run; }
    rows := Some(Inserted(revisions, operations, artifacts, publications.value));
  }

  /** What the presets and the history need. */
  ghost predicate RestMayGoIn(schema: Schema, m: Manifest, bundleHash: string, t: Tables, assets: map<Id, Id>) {
    && PresetsWillFit(m.presets, bundleHash, t.presets)
    && HistoryFits(m.history) && StatesRewrite(schema, assets, m.history)
    && !StatesCollide(KeyNames(m.filaments), m.history)
  }

  // Chosen filament ids and natural keys make the same states one.
  lemma FilamentKeysDecide(t: Tables, m: Manifest, run: Run)
    requires Chosen(t, m, run) && RecordIdsUnique(m)
    ensures StatesCollide(run.r.filaments, m.history) <==> StatesCollide(KeyNames(m.filaments), m.history)
  {
    IdsAndKeysNameAlike(t.filaments, m.filaments, run.r.filaments, run.filaments);
    NamingsAgree(run.r.filaments, KeyNames(m.filaments), m.history);
  }

  method InsertHistory(schema: Schema, m: Manifest, t: Tables, run: Run, revisions: map<Id, Row<Revision>>)
    returns (ok: bool, history: HistoryRows, r: Renames)
    requires ManifestOk(schema, m) && Consistent(t) && Chosen(t, m, run) && run.r == RecordMaps(run.r)
    requires AllRestored(schema, run.r, run.project, revisions, m.revisions)
    ensures RecordMaps(r) == run.r
    ensures ok <==> && HistoryFits(m.history) && StatesRewrite(schema, run.r.assets, m.history)
                    && !StatesCollide(KeyNames(m.filaments), m.history)
    ensures ok ==> HistoryRestored(schema, NamesOf(m), m.history, t.history, history, run.project, r)
  {
    PartsMayGoIn(schema, m, t, run);
    RevisionsBelong(schema, m, run.r, run.project, revisions);
    ok, r, history := RestoreHistoryRows(schema, m.history, NamesOf(m), run.project, run.r, run.assets.Keys,
                                         ProjectOfRevision(revisions), t.history);
    FilamentKeysDecide(t, m, run);
  }

  // The presets, the draft and its history.
  method InsertRest(schema: Schema, m: Manifest, bundleHash: string, t: Tables, run: Run,
                    revisions: map<Id, Row<Revision>>)
    returns (ok: bool, presets: map<Id, PresetRow>, history: HistoryRows, r: Renames)
    requires ManifestOk(schema, m) && Consistent(t) && Chosen(t, m, run) && run.r == RecordMaps(run.r)
    requires AllRestored(schema, run.r, run.project, revisions, m.revisions)
    ensures RecordMaps(r) == run.r
    ensures ok <==> RestMayGoIn(schema, m, bundleHash, t, run.r.assets)
    ensures ok ==> PresetsTaken(m.presets, bundleHash, t.presets, presets)
    ensures ok ==> HistoryRestored(schema, NamesOf(m), m.history, t.history, history, run.project, r)
  {
    r, history := run.r, t.history;
    ok, presets := RestorePresets(ShelfOf(t.presets), t.presets, m.presets, bundleHash);
    if ok {
      ok, history, r := InsertHistory(schema, m, t, run, revisions);
    }
  }

  // What a history import adds to a run's renamings concerns no other record.
  lemma HistoryRenamesNothingElse(schema: Schema, m: Manifest, bundleHash: string, t: Tables, run: Run, r: Renames)
    requires RecordMaps(r) == RecordMaps(run.r)
    ensures RecordsImported(schema, m, bundleHash, t, run) <==> RecordsImported(schema, m, bundleHash, t, run.(r := r))
    ensures RecordsMayGoIn(schema, m, t, run) <==> RecordsMayGoIn(schema, m, t, run.(r := r))
  {
    assert RecordMaps(r).assets == r.assets && RecordMaps(r).revisions == r.revisions;
    assert RecordMaps(r).filaments == r.filaments;
  }

  // After the ids are chosen and the revisions sorted.
  method InsertAll(schema: Schema, m: Manifest, bundleHash: string, t: Tables, ordered: seq<Revision>, chosen: Run)
    returns (after: Option<Tables>, ghost run: Run)
    requires ManifestOk(schema, m) && Consistent(t) && RevisionOrder.AllGrounded(RevisionOrder.ById(m.revisions))
    requires RevisionOrder.OrderedByLevel(RevisionOrder.ById(m.revisions), ordered)
    requires Chosen(t, m, chosen) && chosen.r == RecordMaps(chosen.r)
    ensures run.project == chosen.project && RecordMaps(run.r) == chosen.r
    ensures RecordsImported(schema, m, bundleHash, t, run)
    ensures after.Some? <==> RecordsMayGoIn(schema, m, t, run) && RestMayGoIn(schema, m, bundleHash, t, run.r.assets)
    ensures after.Some? ==> Restoration(schema, m, bundleHash, t, after.value, run)
  {
    var rows;
    rows, run := InsertRecords(schema, m, bundleHash, t, ordered, chosen);
    if rows.None? { return None, run; }
    var ok, presets, history, r := InsertRest(schema, m, bundleHash, t, chosen, rows.value.revisions);
    HistoryRenamesNothingElse(schema, m, bundleHash, t, run, r);
    run := run.(r := r);
    if !ok { return None, run; }
    var project := RestoredProject(m.project, chosen.project, chosen.r.revisions);
    after := Some(Tables(chosen.filaments, chosen.assets, t.projects[chosen.project := project], rows.value.revisions,
                         rows.value.operations, rows.value.artifacts, rows.value.publications, presets, history));
  }

  class ProjectDatabase {
    var tables: Tables

    constructor (tables: Tables)
      ensures this.tables == tables
    {
      this.tables := tables;
    }

    /** Everything goes in, or nothing; the first two clauses say when, exactly. */
    method Restore(schema: Schema, m: Manifest, bundleHash: string) returns (outcome: Outcome, ghost run: Run)
      requires ManifestOk(schema, m) && Consistent(tables)
      modifies this
      ensures outcome.CycleOrMissingParent? <==>
                && RecordColumnsFit(m, old(tables))
                && !RevisionOrder.AllGrounded(RevisionOrder.ById(m.revisions))
      ensures outcome.Restored? <==> Restorable(schema, m, bundleHash, old(tables), run)
      ensures RecordColumnsFit(m, old(tables)) ==> RecordsImported(schema, m, bundleHash, old(tables), run)
      ensures outcome.Restored? ==>
                outcome.project == run.project && Restoration(schema, m, bundleHash, old(tables), tables, run)
      ensures !outcome.Restored? ==> tables == old(tables)
    {
      var ok, chosen := ChooseIds(tables, m);
      run := chosen;
      if !ok { return RolledBack, run; }
      var order := RevisionOrder.TopologicalRevisions(m.revisions);
      if order.CycleOrMissingParent? {
        run := ImagesAreThere(schema, m, bundleHash, tables, chosen);
        return CycleOrMissingParent, run;
      }
      var after;
      after, run := InsertAll(schema, m, bundleHash, tables, order.revisions, chosen);
      if after.None? { return RolledBack, run; }
      tables := after.value;
      outcome := Restored(chosen.project);
    }

    method Export(schema: Schema, project: Id) returns (contents: Option<Contents>)
      requires project in tables.projects
      ensures contents.Some? <==> Exportable(schema, tables, project)
      ensures contents.Some? ==> contents.value == Exported(tables, project)
    {
      contents := ProjectExport.Export(schema, tables, project);
    }
  }
}

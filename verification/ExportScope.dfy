/**
What an export takes from the workspace's tables, row by row, and what it does not depend on
(src/image23mf/bundles.py:687-816, 1567-1580).
*/
module ExportScope {
  import opened Wrappers
  import opened Identifiers
  import opened Sorting
  import opened SharedRecords
  import opened Presets
  import opened ArtifactImport
  import opened Evidence
  import opened History
  import opened Renaming
  import opened HistoryImport
  import opened ProjectManifest
  import opened ProjectExport
  import opened ProjectRestore
  import opened RestoredProject
  import RevisionOrder

  // ----- filaments and assets

  /** Some color of the palette names the filament. */
  ghost predicate PaletteNames(config: Config, filament: Id) {
    exists i :: 0 <= i < |config.colors| && config.colors[i].filament == Some(filament)
  }

  /** A revision, the draft or a state of the project's histories names the filament. */
  ghost predicate ProjectNamesFilament(t: Tables, project: Id, filament: Id) {
    || (exists id :: id in t.revisions && t.revisions[id].project == project
                     && PaletteNames(t.revisions[id].record.config, filament))
    || (project in t.history.drafts && PaletteNames(t.history.drafts[project].config, filament))
    || (exists sha :: sha in t.history.states && t.history.states[sha].lineage in t.history.lineages
                      && t.history.lineages[t.history.states[sha].lineage].project == project
                      && PaletteNames(t.history.states[sha].config, filament))
  }

  /** A revision, the draft or a lineage of the project names the asset as its source. */
  ghost predicate ProjectNamesAsset(t: Tables, project: Id, asset: Id) {
    || (exists id :: id in t.revisions && t.revisions[id].project == project && t.revisions[id].record.source == asset)
    || (project in t.history.drafts && t.history.drafts[project].config.source == asset)
    || (exists id :: id in t.history.lineages && t.history.lineages[id].project == project
                     && t.history.lineages[id].record.source == asset)
  }

  lemma PaletteHoldsNames(config: Config, filament: Id)
    ensures filament in FilamentsIn(config) <==> PaletteNames(config, filament)
  {
  }

  lemma FilamentUseIsNaming(t: Tables, project: Id, filament: Id)
    ensures UsesFilament(RecordsOf(t.revisions, project), ExportOf(t.history, project), filament)
            <==> ProjectNamesFilament(t, project, filament)
  {
    var revisions, h := RecordsOf(t.revisions, project), ExportOf(t.history, project);
    forall id | id in revisions
      ensures filament in FilamentsIn(revisions[id].config)
              <==> PaletteNames(t.revisions[id].record.config, filament)
    {
      PaletteHoldsNames(revisions[id].config, filament);
    }
    forall sha | sha in h.states
      ensures filament in FilamentsIn(h.states[sha].config)
              <==> PaletteNames(t.history.states[sha].config, filament)
    {
      PaletteHoldsNames(h.states[sha].config, filament);
    }
    if h.draft.Some? { PaletteHoldsNames(h.draft.value.config, filament); }
    if ProjectNamesFilament(t, project, filament) {
      if id :| id in t.revisions && t.revisions[id].project == project
               && PaletteNames(t.revisions[id].record.config, filament) {
        assert id in revisions;
      } else if sha :| sha in t.history.states && t.history.states[sha].lineage in t.history.lineages
                       && t.history.lineages[t.history.states[sha].lineage].project == project
                       && PaletteNames(t.history.states[sha].config, filament) {
        assert sha in h.states;
      }
    }
  }

  /** A filament is exported exactly when the project names it. */
  lemma FilamentsExportedExactly(t: Tables, project: Id, x: Id)
    requires project in t.projects
    ensures x in Exported(t, project).filaments <==> x in t.filaments && ProjectNamesFilament(t, project, x)
    ensures x in Exported(t, project).filaments ==> Exported(t, project).filaments[x] == t.filaments[x]
  {
    FilamentUseIsNaming(t, project, x);
  }

  lemma AssetUseIsNaming(t: Tables, project: Id, asset: Id)
    ensures UsesAsset(RecordsOf(t.revisions, project), ExportOf(t.history, project), asset)
            <==> ProjectNamesAsset(t, project, asset)
  {
    var revisions, h := RecordsOf(t.revisions, project), ExportOf(t.history, project);
    if ProjectNamesAsset(t, project, asset) {
      if id :| id in t.revisions && t.revisions[id].project == project && t.revisions[id].record.source == asset {
        assert id in revisions;
      } else if id :| id in t.history.lineages && t.history.lineages[id].project == project
                      && t.history.lineages[id].record.source == asset {
        assert id in h.lineages;
      }
    }
  }

  /** An asset is exported exactly when the project names it. */
  lemma AssetsExportedExactly(t: Tables, project: Id, x: Id)
    requires project in t.projects
    ensures x in Exported(t, project).assets <==> x in t.assets && ProjectNamesAsset(t, project, x)
    ensures x in Exported(t, project).assets ==> Exported(t, project).assets[x] == t.assets[x]
  {
    AssetUseIsNaming(t, project, x);
  }

  // ----- the project's own rows

  /** Every record of the project, and none of another. */
  lemma RecordsExportedExactly(t: Tables, project: Id, x: Id)
    requires project in t.projects
    ensures Exported(t, project).project == t.projects[project]
    ensures x in Exported(t, project).revisions <==> x in t.revisions && t.revisions[x].project == project
    ensures x in Exported(t, project).revisions ==> Exported(t, project).revisions[x] == t.revisions[x].record
    ensures x in Exported(t, project).publications
            <==> x in t.publications && x in t.revisions && t.revisions[x].project == project
    ensures x in Exported(t, project).publications ==> Exported(t, project).publications[x] == t.publications[x]
    ensures x in Exported(t, project).presets <==> x in t.presets && !t.presets[x].details.builtIn
    ensures x in Exported(t, project).presets ==> Exported(t, project).presets[x] == t.presets[x]
  {
  }

  lemma HistoryExportedExactly(t: Tables, project: Id, x: Id, sha: Hash)
    requires project in t.projects
    ensures var h := Exported(t, project).history;
            && (x in h.lineages <==> x in t.history.lineages && t.history.lineages[x].project == project)
            && (x in h.lineages ==> h.lineages[x] == t.history.lineages[x].record)
            && (x in h.nodes <==> x in t.history.nodes && t.history.nodes[x].project == project)
            && (x in h.nodes ==> h.nodes[x] == t.history.nodes[x].record)
            && (sha in h.states <==> sha in t.history.states && t.history.states[sha].lineage in t.history.lineages
                                     && t.history.lineages[t.history.states[sha].lineage].project == project)
            && (sha in h.states ==> h.states[sha] == t.history.states[sha])
            && h.head == (if project in t.history.heads then Some(t.history.heads[project]) else None)
            && h.draft == (if project in t.history.drafts then Some(t.history.drafts[project]) else None)
  {
  }

  ghost predicate OperationOf(t: Tables, project: Id, o: RegionOperation) {
    o in t.operations && o.revision in t.revisions && t.revisions[o.revision].project == project
  }

  ghost predicate ArtifactOf(t: Tables, project: Id, a: Artifact) {
    && a in t.artifacts && a.revision.Some?
    && a.revision.value in t.revisions && t.revisions[a.revision.value].project == project
  }

  lemma {:induction false} OperationsAreSelected(rows: seq<RegionOperation>, revisions: set<Id>, o: RegionOperation)
    ensures multiset(OperationsIn(rows, revisions))[o] == if o.revision in revisions then multiset(rows)[o] else 0
  {
    if rows != [] {
      OperationsAreSelected(rows[..|rows| - 1], revisions, o);
      assert rows == rows[..|rows| - 1] + [rows[|rows| - 1]];
    }
  }

  lemma {:induction false} ArtifactsAreSelected(rows: seq<Artifact>, revisions: set<Id>, a: Artifact)
    ensures multiset(ArtifactsIn(rows, revisions))[a]
            == if a.revision.Some? && a.revision.value in revisions then multiset(rows)[a] else 0
  {
    if rows != [] {
      ArtifactsAreSelected(rows[..|rows| - 1], revisions, a);
      assert rows == rows[..|rows| - 1] + [rows[|rows| - 1]];
    }
  }

  /** The operations of the project's revisions, each as often as it is there, by revision and sequence. */
  lemma OperationsExportedExactly(t: Tables, project: Id)
    requires project in t.projects
    ensures var e := Exported(t, project).operations;
            && (forall o {:trigger OperationOf(t, project, o)} ::
                  multiset(e)[o] == if OperationOf(t, project, o) then multiset(t.operations)[o] else 0)
            && (forall i, j :: 0 <= i < j < |e| ==>
                  e[i].revision < e[j].revision
                  || (e[i].revision == e[j].revision && e[i].sequence <= e[j].sequence))
  {
    var revisions := RecordsOf(t.revisions, project);
    var rows := OperationsIn(t.operations, revisions.Keys);
    SortedIsAPermutation(rows, OperationBefore);
    forall o ensures multiset(rows)[o] == if OperationOf(t, project, o) then multiset(t.operations)[o] else 0 {
      OperationsAreSelected(t.operations, revisions.Keys, o);
    }
    SortedIsWeaklyInOrder(rows, OperationBefore, (a: RegionOperation, b: RegionOperation) =>
      a.revision < b.revision || (a.revision == b.revision && a.sequence <= b.sequence));
  }

  /** The artifacts of the project's revisions, each as often as it is there, by age and id. */
  lemma ArtifactsExportedExactly(t: Tables, project: Id)
    requires project in t.projects
    ensures var e := Exported(t, project).artifacts;
            && (forall a {:trigger ArtifactOf(t, project, a)} ::
                  multiset(e)[a] == if ArtifactOf(t, project, a) then multiset(t.artifacts)[a] else 0)
            && (forall i, j :: 0 <= i < j < |e| ==>
                  e[i].createdAt < e[j].createdAt || (e[i].createdAt == e[j].createdAt && e[i].id <= e[j].id))
  {
    var revisions := RecordsOf(t.revisions, project);
    var rows := ArtifactsIn(t.artifacts, revisions.Keys);
    SortedIsAPermutation(rows, Earlier);
    forall a ensures multiset(rows)[a] == if ArtifactOf(t, project, a) then multiset(t.artifacts)[a] else 0 {
      ArtifactsAreSelected(t.artifacts, revisions.Keys, a);
    }
    SortedIsWeaklyInOrder(rows, Earlier, (a: Artifact, b: Artifact) =>
      a.createdAt < b.createdAt || (a.createdAt == b.createdAt && a.id <= b.id));
  }

  // ----- what an export does not depend on

  /** Both tables have the same row for the id, or neither has one. */
  ghost predicate SameRow<T(!new)>(a: map<Id, T>, b: map<Id, T>, x: Id) {
    (x in a <==> x in b) && (x in a ==> a[x] == b[x])
  }

  /** The same revisions and the same history. */
  ghost predicate SameOwnRows(t: Tables, u: Tables, project: Id) {
    && RecordsOf(t.revisions, project) == RecordsOf(u.revisions, project)
    && ExportOf(t.history, project) == ExportOf(u.history, project)
  }

  lemma FilamentsAgreeExactly(t: Tables, u: Tables, project: Id)
    requires SameOwnRows(t, u, project)
    ensures var revisions, h := RecordsOf(t.revisions, project), ExportOf(t.history, project);
            UsedFilaments(t.filaments, revisions, h) == UsedFilaments(u.filaments, revisions, h)
            <==> forall x {:trigger ProjectNamesFilament(t, project, x)} ::
                   ProjectNamesFilament(t, project, x) ==> SameRow(t.filaments, u.filaments, x)
  {
    var revisions, h := RecordsOf(t.revisions, project), ExportOf(t.history, project);
    var a, b := UsedFilaments(t.filaments, revisions, h), UsedFilaments(u.filaments, revisions, h);
    forall x ensures UsesFilament(revisions, h, x) <==> ProjectNamesFilament(t, project, x) {
      FilamentUseIsNaming(t, project, x);
    }
    if a == b {
      forall x {:trigger ProjectNamesFilament(t, project, x)} | ProjectNamesFilament(t, project, x)
        ensures SameRow(t.filaments, u.filaments, x)
      {
        assert x in a <==> x in b;
      }
    }
  }

  lemma AssetsAgreeExactly(t: Tables, u: Tables, project: Id)
    requires SameOwnRows(t, u, project)
    ensures var revisions, h := RecordsOf(t.revisions, project), ExportOf(t.history, project);
            UsedAssets(t.assets, revisions, h) == UsedAssets(u.assets, revisions, h)
            <==> forall x {:trigger ProjectNamesAsset(t, project, x)} ::
                   ProjectNamesAsset(t, project, x) ==> SameRow(t.assets, u.assets, x)
  {
    var revisions, h := RecordsOf(t.revisions, project), ExportOf(t.history, project);
    var a, b := UsedAssets(t.assets, revisions, h), UsedAssets(u.assets, revisions, h);
    forall x ensures UsesAsset(revisions, h, x) <==> ProjectNamesAsset(t, project, x) {
      AssetUseIsNaming(t, project, x);
    }
    if a == b {
      forall x {:trigger ProjectNamesAsset(t, project, x)} | ProjectNamesAsset(t, project, x)
        ensures SameRow(t.assets, u.assets, x)
      {
        assert x in a <==> x in b;
      }
    }
  }

  /** Filaments and assets that no configuration of the project names make no difference to its export. */
  lemma UnnamedRowsMakeNoDifference(t: Tables, project: Id, filaments: map<Id, FilamentRow>, assets: map<Id, AssetRow>)
    requires project in t.projects
    requires forall x {:trigger ProjectNamesFilament(t, project, x)} ::
               ProjectNamesFilament(t, project, x) ==> SameRow(t.filaments, filaments, x)
    requires forall x {:trigger ProjectNamesAsset(t, project, x)} ::
               ProjectNamesAsset(t, project, x) ==> SameRow(t.assets, assets, x)
    ensures Exported(t.(filaments := filaments, assets := assets), project) == Exported(t, project)
  {
    var u := t.(filaments := filaments, assets := assets);
    FilamentsAgreeExactly(t, u, project);
    AssetsAgreeExactly(t, u, project);
  }

  // ----- what a restore does to the exports of the other projects

  /** The restore adds no filament and no asset that a project names without having it. */
  ghost predicate FillsNoGap(before: Tables, after: Tables, project: Id) {
    && (forall x {:trigger ProjectNamesFilament(before, project, x)} ::
          ProjectNamesFilament(before, project, x) && x in after.filaments ==> x in before.filaments)
    && (forall x {:trigger ProjectNamesAsset(before, project, x)} ::
          ProjectNamesAsset(before, project, x) && x in after.assets ==> x in before.assets)
  }

  lemma OtherRevisionsStay(schema: Schema, r: Renames, project: Id, before: map<Id, Row<Revision>>,
                           rows: map<Id, Row<Revision>>, done: seq<Revision>, other: Id)
    requires RevisionsRestored(schema, r, project, before, rows, done) && other != project
    ensures RecordsOf(rows, other) == RecordsOf(before, other)
  {
    forall x | x in rows && x !in before ensures rows[x].project == project {
      assert x in Images(r.revisions, DoneIds(done));
      var id :| id in DoneIds(done) && id in r.revisions && r.revisions[id] == x;
      var i :| 0 <= i < |done| && done[i].id == id;
      assert RevisionRestored(schema, r, project, rows, done[i]);
    }
    assert RecordsOf(rows, other).Keys == RecordsOf(before, other).Keys;
  }

  lemma {:induction false} OtherOperationsAreLeftOut(rows: seq<RegionOperation>, more: seq<RegionOperation>,
                                                     revisions: set<Id>)
    requires forall i :: 0 <= i < |more| ==> more[i].revision !in revisions
    ensures OperationsIn(rows + more, revisions) == OperationsIn(rows, revisions)
  {
    if more == [] {
      assert rows + more == rows;
    } else {
      OtherOperationsAreLeftOut(rows, more[..|more| - 1], revisions);
      assert (rows + more)[..|rows + more| - 1] == rows + more[..|more| - 1];
    }
  }

  lemma {:induction false} OtherArtifactsAreLeftOut(rows: seq<Artifact>, more: seq<Artifact>, revisions: set<Id>)
    requires forall i :: 0 <= i < |more| ==> more[i].revision.Some? && more[i].revision.value !in revisions
    ensures ArtifactsIn(rows + more, revisions) == ArtifactsIn(rows, revisions)
  {
    if more == [] {
      assert rows + more == rows;
    } else {
      OtherArtifactsAreLeftOut(rows, more[..|more| - 1], revisions);
      assert (rows + more)[..|rows + more| - 1] == rows + more[..|more| - 1];
    }
  }

  lemma OperationsOfOthersStay(targets: map<Id, Id>, before: seq<RegionOperation>, rows: seq<RegionOperation>,
                               operations: seq<RegionOperation>, revisions: set<Id>)
    requires OperationsRestored(targets, before, rows, operations) && targets.Values !! revisions
    ensures OperationsIn(rows, revisions) == OperationsIn(before, revisions)
  {
    var more := rows[|before|..];
    assert rows == before + more;
    forall i | 0 <= i < |more| ensures more[i].revision !in revisions {
      assert OperationImage(rows[|before| + i], operations[i], targets);
      assert more[i].revision in targets.Values;
    }
    OtherOperationsAreLeftOut(before, more, revisions);
  }

  lemma ArtifactsOfOthersStay(before: seq<Artifact>, images: seq<Artifact>, artifacts: seq<Artifact>, c: Context,
                              revisions: set<Id>)
    requires AllImported(before, images, artifacts, c) && c.revisions.Values !! revisions
    ensures ArtifactsIn(before + images, revisions) == ArtifactsIn(before, revisions)
  {
    forall i | 0 <= i < |images| ensures images[i].revision.Some? && images[i].revision.value !in revisions {
      ArtifactRowIsCarried(before, images, artifacts, c, i);
      assert (before + images)[|before| + i] == images[i];
    }
    OtherArtifactsAreLeftOut(before, images, revisions);
  }

  lemma PublicationsOfOthersStay(publications: seq<Publication>, bases: map<Id, Basis>, targets: map<Id, Id>,
                                 artifacts: seq<Artifact>, before: map<Id, Publication>, rows: map<Id, Publication>,
                                 revisions: set<Id>)
    requires PublicationsRestored(publications, bases, targets, artifacts, before, rows)
    requires targets.Values !! revisions
    ensures forall id {:trigger SameRow(before, rows, id)} :: id in revisions ==> SameRow(before, rows, id)
  {
    forall id | id in rows && id !in before ensures id in targets.Values {
      assert TargetOfSome(publications, targets, id);
    }
  }

  /** The tables agree on all that the project's export reads, up to the shared tables. */
  ghost predicate SameReadings(t: Tables, u: Tables, project: Id) {
    && project in t.projects && project in u.projects && u.projects[project] == t.projects[project]
    && SameOwnRows(t, u, project)
    && var revisions := RecordsOf(t.revisions, project).Keys;
       && OperationsIn(u.operations, revisions) == OperationsIn(t.operations, revisions)
       && ArtifactsIn(u.artifacts, revisions) == ArtifactsIn(t.artifacts, revisions)
       && forall id {:trigger SameRow(t.publications, u.publications, id)} ::
            id in revisions ==> SameRow(t.publications, u.publications, id)
  }

  lemma ExportsAgreeExactly(t: Tables, u: Tables, project: Id)
    requires SameReadings(t, u, project)
    ensures Exported(u, project) == Exported(t, project).(presets := Exported(u, project).presets)
            <==> (forall x {:trigger ProjectNamesFilament(t, project, x)} ::
                    ProjectNamesFilament(t, project, x) ==> SameRow(t.filaments, u.filaments, x))
                 && (forall x {:trigger ProjectNamesAsset(t, project, x)} ::
                       ProjectNamesAsset(t, project, x) ==> SameRow(t.assets, u.assets, x))
  {
    var a, b := Exported(t, project), Exported(u, project);
    FilamentsAgreeExactly(t, u, project);
    AssetsAgreeExactly(t, u, project);
    assert b.revisions == a.revisions && b.history == a.history;
    forall id | id in a.publications || id in b.publications
      ensures id in a.publications && id in b.publications && a.publications[id] == b.publications[id]
    {
      assert SameRow(t.publications, u.publications, id);
    }
    assert b.publications == a.publications;
    assert b.operations == a.operations && b.artifacts == a.artifacts;
    assert b == a.(presets := b.presets) <==> b.filaments == a.filaments && b.assets == a.assets;
  }

  lemma OtherReadingsStay(schema: Schema, m: Manifest, bundleHash: string, before: Tables, after: Tables, run: Run,
                          other: Id)
    requires Restoration(schema, m, bundleHash, before, after, run) && RowsStay(before, after, run.project)
    requires other in before.projects
    ensures SameReadings(before, after, other)
  {
    var revisions := RecordsOf(before.revisions, other).Keys;
    assert run.r.revisions.Values !! revisions;
    OtherRevisionsStay(schema, RecordMaps(run.r), run.project, before.revisions, after.revisions, m.revisions, other);
    OperationsOfOthersStay(run.r.revisions, before.operations, after.operations, m.operations, revisions);
    ArtifactsOfOthersStay(before.artifacts, run.images, m.artifacts,
                          ContextFor(m.artifacts, run.r.revisions, bundleHash), revisions);
    PublicationsOfOthersStay(m.publications, BasesOf(schema, RecordMaps(run.r), m), run.r.revisions, after.artifacts,
                             before.publications, after.publications, revisions);
  }

  lemma KeptRowsAgreeExactly(before: Tables, after: Tables, project: Id)
    requires forall x :: x in before.filaments ==> x in after.filaments && after.filaments[x] == before.filaments[x]
    requires forall x :: x in before.assets ==> x in after.assets && after.assets[x] == before.assets[x]
    ensures FillsNoGap(before, after, project)
            <==> (forall x {:trigger ProjectNamesFilament(before, project, x)} ::
                    ProjectNamesFilament(before, project, x) ==> SameRow(before.filaments, after.filaments, x))
                 && (forall x {:trigger ProjectNamesAsset(before, project, x)} ::
                       ProjectNamesAsset(before, project, x) ==> SameRow(before.assets, after.assets, x))
  {
  }

  lemma KeptRowsKeepTheExportExactly(before: Tables, after: Tables, project: Id, other: Id)
    requires RowsStay(before, after, project) && SameReadings(before, after, other)
    ensures Exported(after, other) == Exported(before, other).(presets := Exported(after, other).presets)
            <==> FillsNoGap(before, after, other)
    ensures forall x :: x in Exported(before, other).presets ==>
              x in Exported(after, other).presets
              && Exported(after, other).presets[x] == Exported(before, other).presets[x]
  {
    KeptRowsAgreeExactly(before, after, other);
    ExportsAgreeExactly(before, after, other);
  }

  /**
  A project's export after another was imported is the export before, but for presets, which belong to
  the workspace: exactly when the import brings no filament or asset that the project lacked.
  */
  lemma OtherExportsStayExactly(schema: Schema, m: Manifest, bundleHash: string, before: Tables, after: Tables,
                                run: Run, other: Id)
    requires Restoration(schema, m, bundleHash, before, after, run) && other in before.projects
    ensures other in after.projects
    ensures Exported(after, other) == Exported(before, other).(presets := Exported(after, other).presets)
            <==> FillsNoGap(before, after, other)
    ensures forall x :: x in Exported(before, other).presets ==>
              x in Exported(after, other).presets
              && Exported(after, other).presets[x] == Exported(before, other).presets[x]
  {
    RestoreKeepsRows(schema, m, bundleHash, before, after, run);
    OtherReadingsStay(schema, m, bundleHash, before, after, run, other);
    KeptRowsKeepTheExportExactly(before, after, run.project, other);
  }
}

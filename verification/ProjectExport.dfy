/**
The tables a project bundle is made of, and exporting a project from them with its full history: the
queries of `_build_manifest` and the validation at its end (src/image23mf/bundles.py:687-858).
*/
module ProjectExport {
  import opened Wrappers
  import opened Identifiers
  import opened Sorting
  import opened SharedRecords
  import opened Presets
  import opened ArtifactImport
  import opened Evidence
  import opened History
  import opened HistoryImport
  import opened ProjectManifest

  datatype Tables = Tables(
    filaments: map<Id, FilamentRow>,
    assets: map<Id, AssetRow>,
    projects: map<Id, Project>,
    revisions: map<Id, Row<Revision>>,
    operations: seq<RegionOperation>,
    artifacts: seq<Artifact>,
    publications: map<Id, Publication>,
    presets: map<Id, PresetRow>,
    history: HistoryRows)

  const EMPTY_TABLES: Tables :=
    Tables(map[], map[], map[], map[], [], [], map[], map[], HistoryRows(map[], map[], map[], map[], map[]))

  /** Unique natural keys and ids, and foreign keys that name existing rows. */
  ghost predicate Consistent(t: Tables) {
    && KeysUnique(t.filaments) && KeysUnique(t.assets) && KeysUnique(t.presets) && DistinctIds(t.artifacts)
    && (forall i :: 0 <= i < |t.artifacts| ==>
          t.artifacts[i].revision.Some? ==> t.artifacts[i].revision.value in t.revisions)
    && (forall i :: 0 <= i < |t.operations| ==> t.operations[i].revision in t.revisions)
    && t.publications.Keys <= t.revisions.Keys
    && (forall id :: id in t.revisions ==> t.revisions[id].project in t.projects)
    && (forall id :: id in t.history.lineages ==> t.history.lineages[id].project in t.projects)
    && (forall id :: id in t.history.nodes ==> t.history.nodes[id].project in t.projects)
    && t.history.heads.Keys <= t.projects.Keys && t.history.drafts.Keys <= t.projects.Keys
    && (forall sha :: sha in t.history.states ==>
          t.history.states[sha].lineage in t.history.lineages && sha.lineage == t.history.states[sha].lineage)
  }

  // ----- `_build_manifest`

  predicate OperationBefore(a: RegionOperation, b: RegionOperation) {
    a.revision < b.revision || (a.revision == b.revision && a.sequence < b.sequence)
  }

  function OperationsIn(rows: seq<RegionOperation>, revisions: set<Id>): seq<RegionOperation> {
    if rows == [] then []
    else
      var front, last := OperationsIn(rows[..|rows| - 1], revisions), rows[|rows| - 1];
      if last.revision in revisions then front + [last] else front
  }

  function ArtifactsIn(rows: seq<Artifact>, revisions: set<Id>): seq<Artifact> {
    if rows == [] then []
    else
      var front, last := ArtifactsIn(rows[..|rows| - 1], revisions), rows[|rows| - 1];
      if last.revision.Some? && last.revision.value in revisions then front + [last] else front
  }

  /** The presets that are not built in, of whatever project. */
  function OwnPresets(rows: map<Id, PresetRow>): map<Id, PresetRow> {
    map id | id in rows && !rows[id].details.builtIn :: rows[id]
  }

  /** What `_build_manifest` reads in full-history mode. */
  function Exported(t: Tables, project: Id): Contents
    requires project in t.projects
  {
    var revisions := RecordsOf(t.revisions, project);
    var h := ExportOf(t.history, project);
    Contents(
      t.projects[project],
      UsedFilaments(t.filaments, revisions, h),
      UsedAssets(t.assets, revisions, h),
      revisions,
      Sorted(OperationsIn(t.operations, revisions.Keys), OperationBefore),
      Sorted(ArtifactsIn(t.artifacts, revisions.Keys), Earlier),
      map id | id in t.publications && id in revisions :: t.publications[id],
      OwnPresets(t.presets),
      h)
  }

  /** The member of an asset is built with the asset's extension, which has to be that of its path. */
  predicate ExtensionsFit(assets: map<Id, AssetRow>) {
    forall id {:trigger assets[id]} :: id in assets ==> assets[id].details.extension == assets[id].details.suffix
  }

  /**
  Building the manifest raises for an asset whose extension is not that of its path, and for
  contents that do not validate. The check of fresh evidence before it is one of the validator's.
  */
  ghost predicate Exportable(schema: Schema, t: Tables, project: Id)
    requires project in t.projects
  {
    var contents := Exported(t, project);
    ExtensionsFit(contents.assets) && ContentsOk(schema, contents)
  }

  method Export(schema: Schema, t: Tables, project: Id) returns (contents: Option<Contents>)
    requires project in t.projects
    ensures contents.Some? <==> Exportable(schema, t, project)
    ensures contents.Some? ==> contents.value == Exported(t, project)
  {
    var exported := Exported(t, project);
    if !ExtensionsFit(exported.assets) { return None; }
    var ok := ValidateContents(schema, exported);
    contents := if ok then Some(exported) else None;
  }
}

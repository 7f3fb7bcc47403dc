/**
The manifest of a project bundle with its full history, and what its validation guarantees
(src/image23mf/bundles.py:265-388).
*/
module ProjectManifest {
  import opened Wrappers
  import opened Identifiers
  import opened Sorting
  import opened SharedRecords
  import opened ArtifactImport
  import opened Evidence
  import opened Presets
  import opened History
  import opened HistoryValidation
  import opened Renaming
  import RevisionOrder

  type Revision = RevisionOrder.Revision

  /** What the tables identify a filament by: its color, and manufacturer, family and name as one. */
  datatype FilamentKey = FilamentKey(product: nat, color: string)

  /** `extension` is the asset's own, `suffix` that of the path of its content. */
  datatype AssetDetails = AssetDetails(
    width: Option<int>, height: Option<int>, extension: nat, suffix: nat, details: nat)

  type Filament = Shared<FilamentKey, nat>
  type FilamentRow = Entry<FilamentKey, nat>

  /** An asset is identified by its SHA-256. */
  type Asset = Shared<nat, AssetDetails>
  type AssetRow = Entry<nat, AssetDetails>

  datatype Project = Project(id: Id, name: string, active: Option<Id>, details: nat)

  datatype Manifest = Manifest(
    project: Project,
    filaments: seq<Filament>,
    assets: seq<Asset>,
    revisions: seq<Revision>,
    operations: seq<RegionOperation>,
    artifacts: seq<Artifact>,
    publications: seq<Publication>,
    presets: seq<Preset>,
    history: History)

  /** What a manifest holds, without the order of records that every export lists by their own columns. */
  datatype Contents = Contents(
    project: Project,
    filaments: map<Id, FilamentRow>,
    assets: map<Id, AssetRow>,
    revisions: map<Id, Revision>,
    operations: seq<RegionOperation>,
    artifacts: seq<Artifact>,
    publications: map<Id, Publication>,
    presets: map<Id, PresetRow>,
    history: History)

  function PublicationsById(publications: seq<Publication>): (table: map<Id, Publication>)
    ensures forall id :: id in table ==> table[id].revision == id && table[id] in publications
    ensures forall p :: p in publications ==> p.revision in table
  {
    if publications == [] then map[]
    else
      var last := publications[|publications| - 1];
      PublicationsById(publications[..|publications| - 1])[last.revision := last]
  }

  function ContentsOf(m: Manifest): Contents {
    Contents(m.project, AsRows(m.filaments), AsRows(m.assets), RevisionOrder.ById(m.revisions), m.operations,
             m.artifacts, PublicationsById(m.publications), AsRows(m.presets), m.history)
  }

  /** A restore gives every operation a new id; nothing else names them. */
  predicate SameOperations(a: seq<RegionOperation>, b: seq<RegionOperation>) {
    |a| == |b| && forall i :: 0 <= i < |a| ==> a[i] == b[i].(id := a[i].id)
  }

  predicate SameUpToOperationIds(a: Contents, b: Contents) {
    a == b.(operations := a.operations) && SameOperations(a.operations, b.operations)
  }

  // ----- validation

  /** The empty text, which the validator takes for no id where a parent or an active revision may be absent. */
  const NO_ID: Id := 0

  function RevisionIds(m: Manifest): set<Id> {
    RevisionOrder.ById(m.revisions).Keys
  }

  function NamesIn(c: Contents): Names {
    Names(c.assets.Keys, c.revisions.Keys, c.filaments.Keys)
  }

  function NamesOf(m: Manifest): (names: Names)
    ensures names == Names(IdsOf(m.assets), RevisionIds(m), IdsOf(m.filaments))
  {
    NamesIn(ContentsOf(m))
  }

  predicate RevisionOk(schema: Schema, names: Names, revision: Revision) {
    && revision.source in names.assets
    && (revision.parent.Some? && revision.parent.value != NO_ID ==> revision.parent.value in names.revisions)
    && Loads(schema, revision.config)
    && revision.config.source == revision.source
    && revision.fingerprint == CanonicalConfig(schema, revision.config)
    && FilamentsKnown(revision.config, names)
  }

  predicate RevisionsOk(schema: Schema, c: Contents) {
    forall id {:trigger RevisionOk(schema, NamesIn(c), c.revisions[id])} ::
      id in c.revisions ==> RevisionOk(schema, NamesIn(c), c.revisions[id])
  }

  predicate PublicationOk(c: Contents, p: Publication) {
    && p.revision in c.revisions && p.draftGeneration > 0
    && EvidenceHolds(p, c.revisions[p.revision].fingerprint,
                     OperationsOf(c.operations, p.revision), OfRevision(c.artifacts, p.revision))
  }

  predicate PublicationsOk(c: Contents) {
    forall id {:trigger PublicationOk(c, c.publications[id])} ::
      id in c.publications ==> PublicationOk(c, c.publications[id])
  }

  /**
  `references_are_closed` up to the history. What it asks of the draft follows from the history, in
  which the draft is the state at the cursor.
  */
  predicate RecordsOk(schema: Schema, c: Contents) {
    && RevisionsOk(schema, c)
    && (c.project.active.Some? && c.project.active.value != NO_ID ==> c.project.active.value in c.revisions)
    && (forall i :: 0 <= i < |c.artifacts| ==>
          c.artifacts[i].revision.Some? && c.artifacts[i].revision.value in c.revisions)
    && (forall i :: 0 <= i < |c.operations| ==> c.operations[i].revision in c.revisions)
    && PublicationsOk(c)
  }

  ghost predicate ContentsOk(schema: Schema, c: Contents) {
    RecordsOk(schema, c) && Validated(schema, NamesIn(c), c.history)
  }

  predicate RecordIdsUnique(m: Manifest) {
    && IdsUnique(m.filaments) && IdsUnique(m.assets) && IdsUnique(m.presets)
    && (forall i, j :: 0 <= i < j < |m.revisions| ==> m.revisions[i].id != m.revisions[j].id)
    && (forall i, j :: 0 <= i < j < |m.artifacts| ==> m.artifacts[i].id != m.artifacts[j].id)
    && (forall i, j :: 0 <= i < j < |m.operations| ==>
          m.operations[i].id != m.operations[j].id
          && !(m.operations[i].revision == m.operations[j].revision
               && m.operations[i].sequence == m.operations[j].sequence))
    && (forall i, j :: 0 <= i < j < |m.publications| ==> m.publications[i].revision != m.publications[j].revision)
  }

  /** `references_are_closed` for a manifest in full-history mode. */
  ghost predicate ManifestOk(schema: Schema, m: Manifest) {
    RecordIdsUnique(m) && ContentsOk(schema, ContentsOf(m))
  }

  /** `references_are_closed` on what a manifest is built from. */
  method ValidateContents(schema: Schema, c: Contents) returns (ok: bool)
    ensures ok <==> ContentsOk(schema, c)
  {
    ok := RecordsOk(schema, c);
    if ok { ok := ValidateHistory(schema, NamesIn(c), c.history); }
  }

  lemma OneRevisionPerId(m: Manifest, i: nat)
    requires RecordIdsUnique(m) && i < |m.revisions|
    ensures m.revisions[i].id in RevisionIds(m)
    ensures RevisionOrder.ById(m.revisions)[m.revisions[i].id] == m.revisions[i]
  {
    RevisionOrder.EveryRevisionIsKept(m.revisions);
    assert m.revisions[i] in m.revisions;
    assert m.revisions[i] in RevisionOrder.ById(m.revisions).Values;
  }

  lemma {:induction false} EveryPublicationIsKept(publications: seq<Publication>)
    requires forall i, j :: 0 <= i < j < |publications| ==> publications[i].revision != publications[j].revision
    ensures forall i :: 0 <= i < |publications| ==>
              PublicationsById(publications)[publications[i].revision] == publications[i]
  {
    if publications != [] {
      EveryPublicationIsKept(publications[..|publications| - 1]);
    }
  }

  // ----- what an export reaches from a project's rows

  function FilamentsIn(config: Config): set<Id> {
    set i | 0 <= i < |config.colors| && config.colors[i].filament.Some? :: config.colors[i].filament.value
  }

  predicate UsesFilament(revisions: map<Id, Revision>, h: History, filament: Id) {
    || (exists id :: id in revisions && filament in FilamentsIn(revisions[id].config))
    || (h.draft.Some? && filament in FilamentsIn(h.draft.value.config))
    || (exists sha :: sha in h.states && filament in FilamentsIn(h.states[sha].config))
  }

  predicate UsesAsset(revisions: map<Id, Revision>, h: History, asset: Id) {
    || (exists id :: id in revisions && revisions[id].source == asset)
    || (h.draft.Some? && h.draft.value.config.source == asset)
    || (exists id :: id in h.lineages && h.lineages[id].source == asset)
  }

  function UsedFilaments(rows: map<Id, FilamentRow>, revisions: map<Id, Revision>, h: History): map<Id, FilamentRow> {
    map id | id in rows && UsesFilament(revisions, h, id) :: rows[id]
  }

  function UsedAssets(rows: map<Id, AssetRow>, revisions: map<Id, Revision>, h: History): map<Id, AssetRow> {
    map id | id in rows && UsesAsset(revisions, h, id) :: rows[id]
  }
}

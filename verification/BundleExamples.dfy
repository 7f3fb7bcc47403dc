/**
Bundles at which a round trip fails in each of the ways it can, and one that comes back
(src/image23mf/bundles.py:390-525, 687-858, 889-1266).
*/
module BundleExamples {
  import opened Wrappers
  import opened Identifiers
  import opened Sorting
  import opened Columns
  import opened SharedRecords
  import opened Presets
  import opened ArtifactImport
  import opened Evidence
  import opened History
  import opened HistoryValidation
  import opened Renaming
  import opened RestoreValidity
  import opened RoundTrip
  import opened StateIdentity
  import opened HistoryImport
  import opened ProjectManifest
  import opened ProjectExport
  import opened ProjectRestore
  import opened ProjectForesight
  import opened ProjectRoundTrip
  import RevisionOrder

  /**
  A small contract. Loading fills in one field that version 1 may leave out; version 0 loads as
  well, but its palette is a list.
  */
  function Contract(): Schema {
    Schema((body: Body) => if body.schemaVersion <= 1 then Some(Body(1, 1)) else None,
           (id: Id) => id != NO_ID,
           (body: Body) => body.schemaVersion == 1,
           (config, operations) => 0)
  }

  const TWO_COLORS: seq<Color> := [Color(None, 0), Color(None, 1)]

  const CONFIG: Config := Config(1, TWO_COLORS, Body(1, 1))

  /** The same configuration as an earlier release wrote it, without the field that loading fills in. */
  const SPARSE_CONFIG: Config := Config(1, TWO_COLORS, Body(1, 0))

  /** And as version 0 had it. */
  const LIST_CONFIG: Config := Config(1, TWO_COLORS, Body(0, 0))

  /** An operation written before its optional keys were. */
  const TERSE: RawOperation := RawOperation(Some(0), None, None, None, None, 0)

  const NAMES: Names := Names({1}, {}, {})

  lemma ContractIsIdempotent()
    ensures Idempotent(Contract())
  {
  }

  // ----- histories of one node

  function OneState(config: Config, operations: seq<RawOperation>): State {
    State(1, config.body.schemaVersion, None, config.source, config, operations, 0, 0)
  }

  function OneHash(config: Config, operations: seq<RawOperation>): Hash
    requires Readable(operations)
  {
    Hash(1, config.body.schemaVersion, None, config.source, config, Normalised(operations))
  }

  function OneNode(config: Config, operations: seq<RawOperation>, open: bool): History
    requires Readable(operations)
  {
    var sha := OneHash(config, operations);
    History(
      map[1 := Lineage(None, config.source, 0)],
      map[sha := OneState(config, operations)],
      map[1 := Node(1, None, sha, 0, None, 1, None, 0, 0)],
      if open then Some(Head(1, 1, 1, 1, 1, 100, 0)) else None,
      if open then Some(Draft(None, config.body.schemaVersion, config, operations, 1, true, 0)) else None)
  }

  lemma OneNodeIsValid(config: Config, operations: seq<RawOperation>, open: bool)
    requires Readable(operations) && config in {CONFIG, SPARSE_CONFIG}
    ensures Validated(Contract(), NAMES, OneNode(config, operations, open))
  {
    var h, sha := OneNode(config, operations, open), OneHash(config, operations);
    assert h.nodes[1].state == sha;
    assert Referenced(h.nodes, sha);
    assert Roots(h.nodes, 1) == {1};
    assert Up(h.nodes, 1, 0) == Some(1);
  }

  /** A configuration without a field that loading fills in: the restored history does not validate. */
  lemma SparseConfigFailsValidation(r: Renames, t: History)
    requires var h := OneNode(SPARSE_CONFIG, [], false);
             Covers(r, NAMES, h) && Isomorphic(r) && Image(Contract(), r, h, t)
    ensures Validated(Contract(), NAMES, OneNode(SPARSE_CONFIG, [], false))
    ensures !Validated(Contract(), RenamedNames(r), t)
  {
    var h := OneNode(SPARSE_CONFIG, [], false);
    ContractIsIdempotent();
    OneNodeIsValid(SPARSE_CONFIG, [], false);
    assert h.states[OneHash(SPARSE_CONFIG, [])].config == SPARSE_CONFIG;
    RestoredHistoryValidates(Contract(), NAMES, h, r, t);
  }

  /** Current configurations, but a cursor state with terse operations: it does not validate either. */
  lemma TerseCursorFailsValidation(r: Renames, t: History)
    requires var h := OneNode(CONFIG, [TERSE], true);
             Covers(r, NAMES, h) && Isomorphic(r) && Image(Contract(), r, h, t)
    ensures Validated(Contract(), NAMES, OneNode(CONFIG, [TERSE], true))
    ensures ConfigsCanonical(Contract(), OneNode(CONFIG, [TERSE], true))
    ensures !Validated(Contract(), RenamedNames(r), t)
  {
    var h := OneNode(CONFIG, [TERSE], true);
    ContractIsIdempotent();
    OneNodeIsValid(CONFIG, [TERSE], true);
    TerseIsNotStored();
    RestoredHistoryValidates(Contract(), NAMES, h, r, t);
  }

  lemma TerseIsNotStored()
    ensures Readable([TERSE]) && Stored(Normalised([TERSE])) != [TERSE]
  {
    assert Stored(Normalised([TERSE]))[0].selection == Some(EMPTY_OBJECT);
  }

  /** The same state away from the cursor: the history validates, and exports differently. */
  lemma TerseStateExportsDifferently(r: Renames, t: History)
    requires var h := OneNode(CONFIG, [TERSE], false);
             Covers(r, NAMES, h) && Identity(r) && Image(Contract(), r, h, t)
    ensures Validated(Contract(), RenamedNames(r), t)
    ensures t != OneNode(CONFIG, [TERSE], false)
  {
    var h := OneNode(CONFIG, [TERSE], false);
    ContractIsIdempotent();
    OneNodeIsValid(CONFIG, [TERSE], false);
    TerseIsNotStored();
    assert h.states[OneHash(CONFIG, [TERSE])].operations == [TERSE];
    RestoredHistoryValidates(Contract(), NAMES, h, r, t);
    RestoredHistoryExportsTheSame(Contract(), NAMES, h, r, t);
  }

  // ----- two states that become one

  function WithFilament(filament: Id): Config {
    Config(1, [Color(Some(filament), 0), Color(None, 1)], Body(1, 1))
  }

  /** The user swapped one filament for its twin: two states, the second a child of the first. */
  function TwoStates(): History {
    var first, second := OneHash(WithFilament(1), []), OneHash(WithFilament(2), []);
    History(
      map[1 := Lineage(None, 1, 0)],
      map[first := OneState(WithFilament(1), []), second := OneState(WithFilament(2), [])],
      map[1 := Node(1, None, first, 0, None, 1, None, 0, 0), 2 := Node(1, Some(1), second, 1, None, 1, None, 0, 0)],
      None, None)
  }

  const IMAGE: Asset := Shared(1, 0, AssetDetails(None, None, 0, 0, 0))

  function BundleOf(filaments: seq<Filament>, revisions: seq<Revision>, artifacts: seq<Artifact>,
                    publications: seq<Publication>, h: History): Manifest {
    Manifest(Project(1, "project", None, 0), filaments, [IMAGE], revisions, [], artifacts, publications, [], h)
  }

  /** Two filament records with one manufacturer, family, name and color. */
  function TwinFilaments(): Manifest {
    BundleOf([Shared(1, FilamentKey(7, "#7a"), 0), Shared(2, FilamentKey(7, "#7a"), 0)], [], [], [], TwoStates())
  }

  lemma TwinStateIsValid(filament: Id)
    requires filament in {1, 2}
    ensures StateOk(Contract(), Names({1}, {}, {1, 2}), map[1 := Lineage(None, 1, 0)],
                    OneHash(WithFilament(filament), []), OneState(WithFilament(filament), []))
  {
  }

  lemma TwoStatesDiffer()
    ensures OneHash(WithFilament(1), []) != OneHash(WithFilament(2), [])
  {
    assert OneHash(WithFilament(1), []).config.colors[0] != OneHash(WithFilament(2), []).config.colors[0];
  }

  lemma TwoNodesAreValid()
    ensures NodeOk(TwoStates(), Names({1}, {}, {1, 2}), TwoStates().nodes[1])
    ensures NodeOk(TwoStates(), Names({1}, {}, {1, 2}), TwoStates().nodes[2])
    ensures |Roots(TwoStates().nodes, 1)| == 1
  {
    TwoStatesDiffer();
    assert Roots(TwoStates().nodes, 1) == {1};
  }

  lemma TwoStatesAreValid()
    ensures Validated(Contract(), Names({1}, {}, {1, 2}), TwoStates())
  {
    var h := TwoStates();
    TwoNodesAreValid();
    TwinStateIsValid(1);
    TwinStateIsValid(2);
    assert Referenced(h.nodes, h.nodes[1].state) && Referenced(h.nodes, h.nodes[2].state);
  }

  lemma TwinFilamentsAreNamed()
    ensures NamesOf(TwinFilaments()) == Names({1}, {}, {1, 2})
  {
    var m := TwinFilaments();
    assert m.filaments[0].id in IdsOf(m.filaments) && m.filaments[1].id in IdsOf(m.filaments);
    assert m.assets[0].id in IdsOf(m.assets);
    assert IdsOf(m.filaments) == {1, 2} && IdsOf(m.assets) == {1};
  }

  lemma TwinRecordsAreOk()
    ensures RecordIdsUnique(TwinFilaments()) && RecordsOk(Contract(), ContentsOf(TwinFilaments()))
  {
  }

  lemma TwinFilamentsAreValid()
    ensures ManifestOk(Contract(), TwinFilaments())
  {
    TwinRecordsAreOk();
    TwoStatesAreValid();
    TwinFilamentsAreNamed();
  }

  lemma TwinStatesCollide()
    ensures StatesCollide(KeyNames(TwinFilaments().filaments), TwoStates())
  {
    TwoStatesDiffer();
    var filaments, h := TwinFilaments().filaments, TwoStates();
    var names := KeyNames(filaments);
    assert names[filaments[0].id] == filaments[0].key && names[filaments[1].id] == filaments[1].key;
    var first, second := OneHash(WithFilament(1), []), OneHash(WithFilament(2), []);
    assert Alike(names, h.states[first], h.states[second]);
  }

  /** It validates, and no database takes it. */
  lemma TwinFilamentsAreRefused()
    ensures ManifestOk(Contract(), TwinFilaments())
    ensures forall t, bundleHash, run :: !Restorable(Contract(), TwinFilaments(), bundleHash, t, run)
  {
    TwinFilamentsAreValid();
    TwinStatesCollide();
  }

  // ----- publications

  function EmptyHistory(): History {
    History(map[], map[], map[], None, None)
  }

  function RevisionAt(id: Id, parent: Option<Id>): Revision {
    RevisionOrder.Revision(id, 1, parent, 1, CONFIG, CONFIG, id, 0)
  }

  /** Copies of one preview share kind and derivation key. */
  function PreviewOf(revision: Id): Artifact {
    Artifact(revision, Some(revision), 0, 0, "preview", 0, 0, None, revision, 0)
  }

  function FreshOf(revision: Id, artifacts: seq<Artifact>): Publication {
    Publication(revision, 1, EditorSequence(CONFIG, []), Fresh, Some(1), Some(1), false,
                Some(ManifestOf(artifacts)), |artifacts|, 0)
  }

  function PublishedOnce(): Manifest {
    BundleOf([], [RevisionAt(1, None)], [PreviewOf(1)], [FreshOf(1, [PreviewOf(1)])], EmptyHistory())
  }

  function PublishedTwice(): Manifest {
    BundleOf([], [RevisionAt(1, None), RevisionAt(2, Some(1))], [PreviewOf(1), PreviewOf(2)],
             [FreshOf(1, [PreviewOf(1)]), FreshOf(2, [PreviewOf(2)])], EmptyHistory())
  }

  /** Fresh evidence of a revision that has no artifact. */
  function PublishedNothing(): Manifest {
    BundleOf([], [RevisionAt(1, None)], [], [FreshOf(1, [])], EmptyHistory())
  }

  lemma OnlyOneAsset(m: Manifest)
    requires m.assets == [IMAGE]
    ensures IdsOf(m.assets) == {1}
  {
    assert m.assets[0].id in IdsOf(m.assets);
  }

  lemma FirstRevisionIsKnown(m: Manifest)
    requires m.assets == [IMAGE] && m.revisions == [RevisionAt(1, None)]
    ensures RevisionOrder.ById(m.revisions) == map[1 := RevisionAt(1, None)] && RevisionsOk(Contract(), ContentsOf(m))
  {
    OnlyOneAsset(m);
    assert m.revisions[..0] == [];
  }

  lemma OfRevisionOfOne(artifact: Artifact, revision: Id)
    ensures OfRevision([artifact], revision) == if artifact.revision == Some(revision) then [artifact] else []
  {
    assert [artifact][..0] == [];
  }

  lemma NoOperations(revision: Id)
    ensures OperationsOf([], revision) == [] && Commands([]) == []
  {
  }

  // A publication that lists a revision's one artifact satisfies the evidence rule.
  lemma FreshIsOk(m: Manifest, revision: Id)
    requires revision in RevisionIds(m) && m.operations == []
    requires RevisionOrder.ById(m.revisions)[revision].fingerprint == CONFIG
    requires OfRevision(m.artifacts, revision) == [PreviewOf(revision)]
    ensures PublicationOk(ContentsOf(m), FreshOf(revision, [PreviewOf(revision)]))
  {
    NoOperations(revision);
  }

  lemma OnePublicationIsOk()
    ensures PublicationsOk(ContentsOf(PublishedOnce()))
  {
    FirstRevisionIsKnown(PublishedOnce());
    OfRevisionOfOne(PreviewOf(1), 1);
    FreshIsOk(PublishedOnce(), 1);
  }

  lemma PublishedOnceIsValid()
    ensures ManifestOk(Contract(), PublishedOnce())
  {
    OnePublicationIsOk();
    FirstRevisionIsKnown(PublishedOnce());
  }

  lemma OneImageFits(rows: map<Id, AssetRow>)
    ensures NewRecordsFit(rows, [IMAGE], AssetFits, 1)
  {
  }

  lemma ProjectNameIsThere()
    ensures NameFits("project") && NameFits("project" + IMPORTED)
  {
    assert "project"[0] == 'p';
    ImportedNameFitsExactly("project");
  }

  // Nothing but the image and what the parts of the bundle ask for stands in the way.
  lemma BundleColumnsFit(m: Manifest)
    requires m.filaments == [] && m.assets == [IMAGE] && m.project.name == "project"
    ensures RecordColumnsFit(m, EMPTY_TABLES)
  {
    OneImageFits(map[]);
    ProjectNameIsThere();
  }

  lemma ImageIsUsable(m: Manifest)
    requires m.assets == [IMAGE]
    ensures ConfigWillRewrite(Contract(), m, EMPTY_TABLES, CONFIG)
    ensures ConfigWillRewrite(Contract(), m, EMPTY_TABLES, SPARSE_CONFIG)
  {
    assert m.assets[0].id == CONFIG.source == SPARSE_CONFIG.source;
    assert TargetWillLoad(Contract(), m, EMPTY_TABLES, 0);
  }

  lemma NoPresetsFit(bundleHash: string)
    ensures PresetsWillFit([], bundleHash, map[])
  {
  }

  lemma OnlyRevisionIsGrounded(table: map<Id, Revision>)
    requires table == map[1 := RevisionAt(1, None)]
    ensures RevisionOrder.AllGrounded(table)
  {
    assert RevisionOrder.Level(table, 1, 0);
  }

  lemma OneAssetIsUsed(m: Manifest)
    requires m.assets == [IMAGE]
    ensures UsedExtensionsFit(m)
  {
  }

  lemma OneArtifactIsDecided(artifact: Artifact)
    ensures DistinctSources([artifact]) && TiesKeepTheirIds([], [artifact])
  {
  }

  lemma PublishedOnceIsDecided()
    ensures EvidenceIsDecided(PublishedOnce(), EMPTY_TABLES)
  {
    var m := PublishedOnce();
    forall i | 0 <= i < |m.publications|
      ensures DistinctSources(OfRevision(m.artifacts, m.publications[i].revision))
      ensures TiesKeepTheirIds([], OfRevision(m.artifacts, m.publications[i].revision))
    {
      assert m.publications[i].revision == 1;
      OfRevisionOfOne(PreviewOf(1), 1);
      OneArtifactIsDecided(PreviewOf(1));
    }
  }

  lemma PublishedOnceIsNotRefused(bundleHash: string)
    ensures !WillBeRefused(PublishedOnce(), EMPTY_TABLES, bundleHash)
  {
    var m := PublishedOnce();
    assert !RowWillBeRefused(m, EMPTY_TABLES, bundleHash, m.publications[0]);
  }

  lemma OnlyRevisionWillRewrite(m: Manifest)
    requires m.assets == [IMAGE] && m.revisions == [RevisionAt(1, None)] && m.history == EmptyHistory()
    ensures ConfigsWillRewrite(Contract(), m, EMPTY_TABLES)
  {
    ImageIsUsable(m);
  }

  lemma PublishedOnceGoesIn(bundleHash: string)
    ensures WillBeRestored(Contract(), PublishedOnce(), bundleHash, EMPTY_TABLES)
  {
    var m := PublishedOnce();
    BundleColumnsFit(m);
    FirstRevisionIsKnown(m);
    OnlyRevisionIsGrounded(RevisionOrder.ById(m.revisions));
    OnlyRevisionWillRewrite(m);
    NoPresetsFit(bundleHash);
    PublishedOnceIsNotRefused(bundleHash);
  }

  lemma PublishedOnceIsCurrent()
    ensures ComesBack(Contract(), PublishedOnce())
  {
    var m := PublishedOnce();
    FirstRevisionIsKnown(m);
    OnlyOneAsset(m);
    assert RevisionOrder.ById(m.revisions)[1].source == 1;
    assert UsesAsset(RevisionOrder.ById(m.revisions), m.history, 1);
  }

  /** It goes into an empty database and comes back as it was. */
  method PublishedOnceComesBack(bundleHash: string) returns (outcome: Outcome, again: Option<Contents>)
    ensures ManifestOk(Contract(), PublishedOnce())
    ensures outcome.Restored? && again.Some? && SameUpToOperationIds(again.value, ContentsOf(PublishedOnce()))
  {
    ContractIsIdempotent();
    PublishedOnceIsValid();
    PublishedOnceIsDecided();
    PublishedOnceGoesIn(bundleHash);
    PublishedOnceIsCurrent();
    OneAssetIsUsed(PublishedOnce());
    outcome, again := RestoreAndExport(Contract(), PublishedOnce(), bundleHash);
  }

  // ----- values that the validator does not look at

  /** A revision as version 0 had it: it loads, but its palette is a list. */
  function PublishedLongAgo(): Manifest {
    BundleOf([], [RevisionOrder.Revision(1, 1, None, 0, LIST_CONFIG, CONFIG, 1, 0)], [], [], EmptyHistory())
  }

  lemma PublishedLongAgoIsValid()
    ensures ManifestOk(Contract(), PublishedLongAgo())
  {
    var m := PublishedLongAgo();
    OnlyOneAsset(m);
    assert m.revisions[..0] == [];
  }

  /** It validates, and no database takes it. */
  lemma ListPaletteIsRefused()
    ensures ManifestOk(Contract(), PublishedLongAgo())
    ensures forall t, bundleHash, run :: !Restorable(Contract(), PublishedLongAgo(), bundleHash, t, run)
  {
    PublishedLongAgoIsValid();
    var m := PublishedLongAgo();
    assert m.revisions[0].config == LIST_CONFIG && !Contract().rewritable(LIST_CONFIG.body);
  }

  function BlankProject(): Manifest {
    BundleOf([], [], [], [], EmptyHistory()).(project := Project(1, " ", None, 0))
  }

  /** It validates; only a database that has its id, and so gives it a longer name, takes it. */
  lemma BlankNameNeedsATakenId(t: Tables)
    ensures ManifestOk(Contract(), BlankProject())
    ensures RecordColumnsFit(BlankProject(), t) <==> BlankProject().project.id in t.projects
  {
    OneImageFits(t.assets);
    ImportedNameFitsExactly(" ");
  }

  // ----- a project that can be restored and not exported

  /** An open draft whose configuration lacks a field that loading fills in. */
  function SparseProject(): Manifest {
    BundleOf([], [], [], [], OneNode(SPARSE_CONFIG, [], true))
  }

  lemma SparseProjectIsValid()
    ensures ManifestOk(Contract(), SparseProject())
  {
    var m := SparseProject();
    OnlyOneAsset(m);
    OneNodeIsValid(SPARSE_CONFIG, [], true);
    assert NamesOf(m) == NAMES;
  }

  lemma OneStateCannotCollide(m: Manifest)
    requires m.history == OneNode(SPARSE_CONFIG, [], true)
    ensures !StatesCollide(KeyNames(m.filaments), m.history) && HistoryFits(m.history)
  {
  }

  lemma SparseProjectGoesIn(bundleHash: string)
    ensures WillBeRestored(Contract(), SparseProject(), bundleHash, EMPTY_TABLES)
  {
    var m := SparseProject();
    BundleColumnsFit(m);
    ImageIsUsable(m);
    NoPresetsFit(bundleHash);
    OneStateCannotCollide(m);
  }

  lemma SparseProjectIsNotCanonical()
    ensures !ConfigsCanonical(Contract(), SparseProject().history)
  {
    assert SparseProject().history.states[OneHash(SPARSE_CONFIG, [])].config == SPARSE_CONFIG;
  }

  /** It goes into an empty database, and can never be exported with its history again. */
  method SparseProjectIsStuck(bundleHash: string) returns (outcome: Outcome, again: Option<Contents>)
    ensures ManifestOk(Contract(), SparseProject())
    ensures outcome.Restored? && again.None?
  {
    ContractIsIdempotent();
    SparseProjectIsValid();
    SparseProjectGoesIn(bundleHash);
    SparseProjectIsNotCanonical();
    outcome, again := RestoreAndExport(Contract(), SparseProject(), bundleHash);
  }

  // ----- evidence that does not survive

  lemma PublishedNothingIsValid()
    ensures ManifestOk(Contract(), PublishedNothing())
  {
    var m := PublishedNothing();
    FirstRevisionIsKnown(m);
    NoOperations(1);
    assert PublicationOk(ContentsOf(m), m.publications[0]);
  }

  lemma ImageStays(m: Manifest)
    requires m.assets == [IMAGE]
    ensures ConfigWillStay(m, EMPTY_TABLES, CONFIG)
  {
    assert m.assets[0].id == CONFIG.source && IdWillStay(EMPTY_TABLES.assets, m.assets, 0);
  }

  /** It validates, and an empty database refuses its publication. */
  lemma PublishedNothingIsRefused(bundleHash: string)
    ensures ManifestOk(Contract(), PublishedNothing())
    ensures EvidenceIsDecided(PublishedNothing(), EMPTY_TABLES)
    ensures WillBeRefused(PublishedNothing(), EMPTY_TABLES, bundleHash)
  {
    var m := PublishedNothing();
    PublishedNothingIsValid();
    FirstRevisionIsKnown(m);
    ImageStays(m);
    assert RowWillBeRefused(m, EMPTY_TABLES, bundleHash, m.publications[0]);
  }

  lemma TwoRevisionsAreKnown()
    ensures RevisionOrder.ById(PublishedTwice().revisions) == map[1 := RevisionAt(1, None), 2 := RevisionAt(2, Some(1))]
    ensures RevisionsOk(Contract(), ContentsOf(PublishedTwice()))
  {
    var m := PublishedTwice();
    OnlyOneAsset(m);
    assert m.revisions[..1] == [RevisionAt(1, None)] && m.revisions[..1][..0] == [];
  }

  lemma TwoPreviewsAreOwned(revision: Id)
    requires revision in {1, 2}
    ensures OfRevision([PreviewOf(1), PreviewOf(2)], revision) == [PreviewOf(revision)]
  {
    OfRevisionOfOne(PreviewOf(1), revision);
    OfRevisionOfOne(PreviewOf(2), revision);
    OfRevisionAppend([PreviewOf(1)], [PreviewOf(2)], revision);
    assert [PreviewOf(1)] + [PreviewOf(2)] == [PreviewOf(1), PreviewOf(2)];
  }

  lemma TwoPublicationsAreOk()
    ensures PublicationsOk(ContentsOf(PublishedTwice()))
  {
    var m := PublishedTwice();
    TwoRevisionsAreKnown();
    TwoPreviewsAreOwned(1);
    TwoPreviewsAreOwned(2);
    FreshIsOk(m, 1);
    FreshIsOk(m, 2);
  }

  lemma TwiceIdsAreUnique()
    ensures RecordIdsUnique(PublishedTwice())
  {
  }

  lemma TwicePublishedRecordsAreOk()
    ensures RecordsOk(Contract(), ContentsOf(PublishedTwice()))
  {
    TwoPublicationsAreOk();
    TwoRevisionsAreKnown();
  }

  lemma NoHistoryIsValid(names: Names)
    ensures Validated(Contract(), names, EmptyHistory())
  {
  }

  lemma PublishedTwiceIsValid()
    ensures ManifestOk(Contract(), PublishedTwice())
  {
    TwiceIdsAreUnique();
    TwicePublishedRecordsAreOk();
    NoHistoryIsValid(NamesOf(PublishedTwice()));
  }

  lemma TwoPublicationsAreDecided()
    ensures EvidenceIsDecided(PublishedTwice(), EMPTY_TABLES)
  {
    var m := PublishedTwice();
    forall i | 0 <= i < |m.publications|
      ensures DistinctSources(OfRevision(m.artifacts, m.publications[i].revision))
      ensures TiesKeepTheirIds([], OfRevision(m.artifacts, m.publications[i].revision))
    {
      assert m.publications[i].revision == i + 1;
      TwoPreviewsAreOwned(i + 1);
      OneArtifactIsDecided(PreviewOf(i + 1));
    }
  }

  lemma FirstPreviewStays(bundleHash: string)
    ensures AllEvidenceWillStay([], [PreviewOf(1), PreviewOf(2)], bundleHash, 1)
    ensures !AllEvidenceWillStay([], [PreviewOf(1), PreviewOf(2)], bundleHash, 2)
  {
    var artifacts := [PreviewOf(1), PreviewOf(2)];
    assert artifacts[..0] == [];
    assert EvidenceWillStay([], artifacts, bundleHash, 0);
    SharedKeyIsTaken(artifacts, bundleHash, 0, 1);
    assert !EvidenceWillStay([], artifacts, bundleHash, 1);
  }

  lemma FirstPublicationStays(bundleHash: string)
    ensures FreshWillStay(PublishedTwice(), EMPTY_TABLES, bundleHash, PublishedTwice().publications[0])
    ensures !FreshWillStay(PublishedTwice(), EMPTY_TABLES, bundleHash, PublishedTwice().publications[1])
  {
    TwoRevisionsAreKnown();
    TwoPreviewsAreOwned(1);
    FirstPreviewStays(bundleHash);
    assert IdWillStay(EMPTY_TABLES.assets, PublishedTwice().assets, 0);
  }

  /** It validates, and an empty database keeps the evidence of its first revision only. */
  lemma PublishedTwiceLosesEvidence(bundleHash: string)
    ensures ManifestOk(Contract(), PublishedTwice())
    ensures EvidenceIsDecided(PublishedTwice(), EMPTY_TABLES)
    ensures FreshWillStay(PublishedTwice(), EMPTY_TABLES, bundleHash, PublishedTwice().publications[0])
    ensures !FreshWillStay(PublishedTwice(), EMPTY_TABLES, bundleHash, PublishedTwice().publications[1])
  {
    PublishedTwiceIsValid();
    TwoPublicationsAreDecided();
    FirstPublicationStays(bundleHash);
  }
}

/**
How a restore will end, told before it runs from the tables and the bundle: which configurations
survive their rewriting, which fingerprints stay, which evidence stays fresh, which publication the
table will refuse, and so whether the restore goes through (src/image23mf/bundles.py:923-1239).
*/
module ProjectForesight {
  import opened Wrappers
  import opened Identifiers
  import opened Sorting
  import opened Columns
  import opened SharedRecords
  import opened ArtifactImport
  import opened Evidence
  import opened History
  import opened HistoryValidation
  import opened Renaming
  import opened StateIdentity
  import opened HistoryImport
  import opened ProjectManifest
  import opened ProjectExport
  import opened ProjectRestore
  import RevisionOrder

  // ----- the fingerprint of a revision

  /** The shared record with this id keeps it. */
  predicate Kept<K(==), D>(rows: map<Id, Entry<K, D>>, records: seq<Shared<K, D>>, id: Id) {
    exists i :: 0 <= i < |records| && records[i].id == id && IdWillStay(rows, records, i)
  }

  lemma KeptExactly<K, D>(rows: map<Id, Entry<K, D>>, records: seq<Shared<K, D>>, ids: map<Id, Id>,
                          after: map<Id, Entry<K, D>>, id: Id)
    requires SharedImport(rows, records, ids, after) && MadeUpIdsAreNew(rows, records, ids, |records|)
    requires IdsUnique(records) && id in ids
    ensures ids[id] == id <==> Kept(rows, records, id)
  {
    var i: nat :| i < |records| && records[i].id == id;
    SharedIdStaysExactly(rows, records, ids, after, i);
  }

  /** Its source image and every filament of its palette keep their ids. */
  predicate ConfigWillStay(m: Manifest, t: Tables, config: Config) {
    && Kept(t.assets, m.assets, config.source)
    && forall i :: 0 <= i < |config.colors| && config.colors[i].filament.Some? ==>
         Kept(t.filaments, m.filaments, config.colors[i].filament.value)
  }

  lemma FilamentStaysExactly(m: Manifest, t: Tables, run: Run, color: Color)
    requires RecordIdsUnique(m) && Chosen(t, m, run)
    requires color.filament.Some? && color.filament.value in IdsOf(m.filaments)
    ensures color.filament.value in run.r.filaments
    ensures run.r.filaments[color.filament.value] == color.filament.value
       <==> Kept(t.filaments, m.filaments, color.filament.value)
  {
    KeptExactly(t.filaments, m.filaments, run.r.filaments, run.filaments, color.filament.value);
  }

  lemma ConfigStaysExactly(m: Manifest, t: Tables, run: Run, config: Config)
    requires RecordIdsUnique(m) && Chosen(t, m, run)
    requires config.source in IdsOf(m.assets) && FilamentsKnown(config, NamesOf(m))
    ensures config.source in run.r.assets
    ensures RenamedConfig(run.r, config) == config <==> ConfigWillStay(m, t, config)
  {
    KeptExactly(t.assets, m.assets, run.r.assets, run.assets, config.source);
    ColorsStayExactly(m, t, run, config);
  }

  // The colors stay exactly when every filament id among them does.
  lemma ColorsStayWithTheirFilaments(r: Renames, config: Config)
    requires config.source in r.assets
    requires forall i :: 0 <= i < |config.colors| && config.colors[i].filament.Some? ==>
               config.colors[i].filament.value in r.filaments
    ensures RenamedConfig(r, config).colors == config.colors
       <==> forall i :: 0 <= i < |config.colors| && config.colors[i].filament.Some? ==>
              r.filaments[config.colors[i].filament.value] == config.colors[i].filament.value
  {
    var colors := RenamedConfig(r, config).colors;
    forall i | 0 <= i < |config.colors| && config.colors[i].filament.Some?
      ensures colors[i] == config.colors[i]
         <==> r.filaments[config.colors[i].filament.value] == config.colors[i].filament.value
    {
    }
  }

  lemma ColorsStayExactly(m: Manifest, t: Tables, run: Run, config: Config)
    requires RecordIdsUnique(m) && Chosen(t, m, run)
    requires config.source in run.r.assets && FilamentsKnown(config, NamesOf(m))
    ensures RenamedConfig(run.r, config).colors == config.colors
       <==> forall i :: 0 <= i < |config.colors| && config.colors[i].filament.Some? ==>
              Kept(t.filaments, m.filaments, config.colors[i].filament.value)
  {
    forall i | 0 <= i < |config.colors| && config.colors[i].filament.Some?
      ensures config.colors[i].filament.value in run.r.filaments
      ensures run.r.filaments[config.colors[i].filament.value] == config.colors[i].filament.value
         <==> Kept(t.filaments, m.filaments, config.colors[i].filament.value)
    {
      FilamentStaysExactly(m, t, run, config.colors[i]);
    }
    ColorsStayWithTheirFilaments(run.r, config);
  }

  lemma FingerprintStaysExactly(schema: Schema, m: Manifest, bundleHash: string, t: Tables, run: Run, id: Id)
    requires RecordIdsUnique(m) && RevisionsOk(schema, ContentsOf(m)) && RecordsImported(schema, m, bundleHash, t, run)
    requires RevisionsRewrite(schema, run.r.assets, m.revisions) && id in RevisionIds(m)
    ensures var bases := BasesOf(schema, RecordMaps(run.r), m);
            && id in bases
            && (bases[id].restoredConfig == bases[id].config
                <==> ConfigWillStay(m, t, RevisionOrder.ById(m.revisions)[id].config))
  {
    var revision := RevisionOrder.ById(m.revisions)[id];
    RevisionsAreRewritable(schema, m, RecordMaps(run.r));
    assert RevisionOk(schema, NamesIn(ContentsOf(m)), ContentsOf(m).revisions[id]);
    ConfigStaysExactly(m, t, run, revision.config);
  }

  // ----- fresh evidence

  /** Everything a fresh publication rests on will stay. */
  ghost predicate FreshWillStay(m: Manifest, t: Tables, bundleHash: string, p: Publication) {
    && p.status.Fresh? && p.revision in RevisionIds(m)
    && ConfigWillStay(m, t, RevisionOrder.ById(m.revisions)[p.revision].config)
    && InOrder(OfRevision(m.artifacts, p.revision), Earlier)
    && AllEvidenceWillStay(t.artifacts, m.artifacts, bundleHash, p.revision)
  }

  /** No revision with fresh evidence has two copies of one artifact or a tie that new ids decide. */
  ghost predicate EvidenceIsDecided(m: Manifest, t: Tables) {
    forall i :: 0 <= i < |m.publications| && m.publications[i].status.Fresh? ==>
      var artifacts := OfRevision(m.artifacts, m.publications[i].revision);
      DistinctSources(artifacts) && TiesKeepTheirIds(t.artifacts, artifacts)
  }

  lemma PublicationIsOk(schema: Schema, m: Manifest, i: nat)
    requires ManifestOk(schema, m) && i < |m.publications|
    ensures PublicationOk(ContentsOf(m), m.publications[i])
  {
    EveryPublicationIsKept(m.publications);
    var c := ContentsOf(m);
    assert PublicationOk(c, c.publications[m.publications[i].revision]);
  }

  // A fresh publication of a validated bundle, as the evidence rule sees it.
  lemma FreshIsInBundle(m: Manifest, bundleHash: string, t: Tables, revisions: map<Id, Id>, p: Publication,
                        basis: Basis)
    requires RecordIdsUnique(m) && PublicationOk(ContentsOf(m), p) && p.status.Fresh?
    requires Consistent(t) && Injective(revisions) && p.revision in revisions && revisions[p.revision] !in t.revisions
    requires basis.config == RevisionOrder.ById(m.revisions)[p.revision].fingerprint
    requires basis.operations == OperationsOf(m.operations, p.revision)
    requires DistinctSources(OfRevision(m.artifacts, p.revision))
    ensures FreshInBundle(t.artifacts, m.artifacts, ContextFor(m.artifacts, revisions, bundleHash), p, basis)
  {
  }

  lemma FreshStaysExactly(schema: Schema, m: Manifest, bundleHash: string, t: Tables, run: Run, i: nat)
    requires ManifestOk(schema, m) && Consistent(t) && RecordsImported(schema, m, bundleHash, t, run)
    requires EvidenceIsDecided(m, t) && RevisionsRewrite(schema, run.r.assets, m.revisions) && i < |m.publications|
    ensures var p, bases := m.publications[i], BasesOf(schema, RecordMaps(run.r), m);
            && PublicationKnown(p, bases, run.r.revisions)
            && (StaysFresh(p, bases[p.revision], ArtifactsOf(t.artifacts + run.images, run.r.revisions[p.revision]))
                <==> FreshWillStay(m, t, bundleHash, p))
  {
    var p, bases := m.publications[i], BasesOf(schema, RecordMaps(run.r), m);
    PublicationIsOk(schema, m, i);
    FingerprintStaysExactly(schema, m, bundleHash, t, run, p.revision);
    if p.status.Fresh? {
      var c := ContextFor(m.artifacts, run.r.revisions, bundleHash);
      assert run.r.revisions[p.revision] in run.r.revisions.Values;
      FreshIsInBundle(m, bundleHash, t, run.r.revisions, p, bases[p.revision]);
      FreshEvidenceSurvivesExactly(t.artifacts, run.images, m.artifacts, c, p, bases[p.revision]);
    }
  }

  // ----- the refusal

  /**
  A draft generation that does not fit, or fresh evidence that will stay although the table wants a
  job, a preview and an artifact for it.
  */
  ghost predicate RowWillBeRefused(m: Manifest, t: Tables, bundleHash: string, p: Publication) {
    || !Storable(p.draftGeneration)
    || (FreshWillStay(m, t, bundleHash, p) && (p.job.None? || p.previewKey.None? || p.count == 0))
  }

  ghost predicate WillBeRefused(m: Manifest, t: Tables, bundleHash: string) {
    exists i :: 0 <= i < |m.publications| && RowWillBeRefused(m, t, bundleHash, m.publications[i])
  }

  lemma RowRefusedExactly(schema: Schema, m: Manifest, bundleHash: string, t: Tables, run: Run, i: nat)
    requires ManifestOk(schema, m) && Consistent(t) && RecordsImported(schema, m, bundleHash, t, run)
    requires EvidenceIsDecided(m, t) && RevisionsRewrite(schema, run.r.assets, m.revisions) && i < |m.publications|
    ensures Refusable(m.publications[i], BasesOf(schema, RecordMaps(run.r), m), run.r.revisions,
                      t.artifacts + run.images)
       <==> RowWillBeRefused(m, t, bundleHash, m.publications[i])
  {
    FreshStaysExactly(schema, m, bundleHash, t, run, i);
  }

  /** A restore that gets to the publications is refused one exactly when that could be told beforehand. */
  lemma RefusedExactly(schema: Schema, m: Manifest, bundleHash: string, t: Tables, run: Run)
    requires ManifestOk(schema, m) && Consistent(t) && RecordsImported(schema, m, bundleHash, t, run)
    requires EvidenceIsDecided(m, t) && RevisionsRewrite(schema, run.r.assets, m.revisions)
    ensures AnyRefusable(schema, m, t, run) <==> WillBeRefused(m, t, bundleHash)
  {
    forall i: nat | i < |m.publications|
      ensures Refusable(m.publications[i], BasesOf(schema, RecordMaps(run.r), m), run.r.revisions,
                        t.artifacts + run.images)
         <==> RowWillBeRefused(m, t, bundleHash, m.publications[i])
    {
      RowRefusedExactly(schema, m, bundleHash, t, run, i);
    }
  }

  // ----- the rewriting of configurations

  /** No asset needs a new id, or loading accepts the ids that `new_id` makes up, as it does. */
  ghost predicate MadeUpIdsLoad(schema: Schema, m: Manifest, t: Tables) {
    || IdsOf(m.assets) !! t.assets.Keys
    || forall id :: id !in t.assets && id !in IdsOf(m.assets) ==> schema.sourceId(id)
  }

  /** Loading will accept the id that the i-th asset of the bundle gets. */
  ghost predicate TargetWillLoad(schema: Schema, m: Manifest, t: Tables, i: nat)
    requires i < |m.assets|
  {
    var first := m.assets[FirstWithKey(m.assets, i)].id;
    if KeyInRows(t.assets, m.assets[i].key) then
      forall x :: x in t.assets && t.assets[x].key == m.assets[i].key ==> schema.sourceId(x)
    else
      first in t.assets || schema.sourceId(first)
  }

  lemma TargetLoadsExactly(schema: Schema, m: Manifest, t: Tables, run: Run, i: nat)
    requires RecordIdsUnique(m) && Consistent(t) && Chosen(t, m, run) && MadeUpIdsLoad(schema, m, t) && i < |m.assets|
    ensures m.assets[i].id in run.r.assets
    ensures schema.sourceId(run.r.assets[m.assets[i].id]) <==> TargetWillLoad(schema, m, t, i)
  {
    TargetOf(t.assets, m.assets, run.r.assets, run.assets, i);
  }

  /** The palette is an object, the configuration loads, and loading will accept its new source id. */
  ghost predicate ConfigWillRewrite(schema: Schema, m: Manifest, t: Tables, config: Config) {
    && schema.rewritable(config.body) && schema.load(config.body).Some?
    && exists i: nat :: i < |m.assets| && m.assets[i].id == config.source && TargetWillLoad(schema, m, t, i)
  }

  lemma RewritesExactly(schema: Schema, m: Manifest, t: Tables, run: Run, config: Config)
    requires RecordIdsUnique(m) && Consistent(t) && Chosen(t, m, run) && MadeUpIdsLoad(schema, m, t)
    requires config.source in IdsOf(m.assets)
    ensures ConfigRewrites(schema, run.r.assets, config) <==> ConfigWillRewrite(schema, m, t, config)
  {
    var i: nat :| i < |m.assets| && m.assets[i].id == config.source;
    TargetLoadsExactly(schema, m, t, run, i);
  }

  ghost predicate RevisionsWillRewrite(schema: Schema, m: Manifest, t: Tables) {
    forall i {:trigger m.revisions[i]} ::
      0 <= i < |m.revisions| ==> ConfigWillRewrite(schema, m, t, m.revisions[i].config)
  }

  ghost predicate StatesWillRewrite(schema: Schema, m: Manifest, t: Tables) {
    forall sha {:trigger m.history.states[sha]} ::
      sha in m.history.states ==> ConfigWillRewrite(schema, m, t, m.history.states[sha].config)
  }

  /** Every configuration of the bundle will be rewritten. */
  ghost predicate ConfigsWillRewrite(schema: Schema, m: Manifest, t: Tables) {
    RevisionsWillRewrite(schema, m, t) && StatesWillRewrite(schema, m, t)
  }

  lemma RevisionRewritesExactly(schema: Schema, m: Manifest, t: Tables, run: Run, i: nat)
    requires RecordIdsUnique(m) && RevisionsOk(schema, ContentsOf(m)) && i < |m.revisions|
    requires Consistent(t) && Chosen(t, m, run) && MadeUpIdsLoad(schema, m, t)
    ensures ConfigRewrites(schema, run.r.assets, m.revisions[i].config)
       <==> ConfigWillRewrite(schema, m, t, m.revisions[i].config)
  {
    OneRevisionPerId(m, i);
    var c := ContentsOf(m);
    assert RevisionOk(schema, NamesIn(c), c.revisions[m.revisions[i].id]);
    RewritesExactly(schema, m, t, run, m.revisions[i].config);
  }

  lemma RevisionsRewriteExactly(schema: Schema, m: Manifest, t: Tables, run: Run)
    requires RecordIdsUnique(m) && RevisionsOk(schema, ContentsOf(m))
    requires Consistent(t) && Chosen(t, m, run) && MadeUpIdsLoad(schema, m, t)
    ensures RevisionsRewrite(schema, run.r.assets, m.revisions) <==> RevisionsWillRewrite(schema, m, t)
  {
    forall i: nat | i < |m.revisions|
      ensures ConfigRewrites(schema, run.r.assets, m.revisions[i].config)
         <==> ConfigWillRewrite(schema, m, t, m.revisions[i].config)
    {
      RevisionRewritesExactly(schema, m, t, run, i);
    }
  }

  lemma StatesRewriteExactly(schema: Schema, m: Manifest, t: Tables, run: Run)
    requires RecordIdsUnique(m) && GraphOk(schema, NamesOf(m), m.history)
    requires Consistent(t) && Chosen(t, m, run) && MadeUpIdsLoad(schema, m, t)
    ensures StatesRewrite(schema, run.r.assets, m.history) <==> StatesWillRewrite(schema, m, t)
  {
    forall sha | sha in m.history.states
      ensures ConfigRewrites(schema, run.r.assets, m.history.states[sha].config)
         <==> ConfigWillRewrite(schema, m, t, m.history.states[sha].config)
    {
      StateSourceIsKnown(schema, NamesOf(m), m.history, sha);
      RewritesExactly(schema, m, t, run, m.history.states[sha].config);
    }
  }

  lemma StateSourceIsKnown(schema: Schema, names: Names, h: History, sha: Hash)
    requires GraphOk(schema, names, h) && sha in h.states
    ensures h.states[sha].config.source in names.assets
  {
    assert StateOk(schema, names, h.lineages, sha, h.states[sha]);
    assert LineageOk(h.lineages[h.states[sha].lineage], names);
  }

  // ----- the whole restore

  /** All that a restore depends on, on the tables and the bundle alone. */
  ghost predicate WillBeRestored(schema: Schema, m: Manifest, bundleHash: string, t: Tables) {
    && RecordColumnsFit(m, t) && OperationsFit(m.operations) && HistoryFits(m.history)
    && RevisionOrder.AllGrounded(RevisionOrder.ById(m.revisions))
    && ConfigsWillRewrite(schema, m, t)
    && !WillBeRefused(m, t, bundleHash)
    && PresetsWillFit(m.presets, bundleHash, t.presets)
    && !StatesCollide(KeyNames(m.filaments), m.history)
  }

  /** A restore goes through exactly when that could be told beforehand. */
  lemma RestorableExactly(schema: Schema, m: Manifest, bundleHash: string, t: Tables, run: Run)
    requires ManifestOk(schema, m) && Consistent(t) && RecordsImported(schema, m, bundleHash, t, run)
    requires EvidenceIsDecided(m, t) && MadeUpIdsLoad(schema, m, t)
    ensures Restorable(schema, m, bundleHash, t, run) <==> WillBeRestored(schema, m, bundleHash, t)
  {
    RevisionsRewriteExactly(schema, m, t, run);
    StatesRewriteExactly(schema, m, t, run);
    if RevisionsRewrite(schema, run.r.assets, m.revisions) {
      RefusedExactly(schema, m, bundleHash, t, run);
    }
  }
}

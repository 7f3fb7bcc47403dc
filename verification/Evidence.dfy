/**
The evidence rule of publications, and what an import makes of it
(src/image23mf/bundles.py:339-374, 1117-1188; src/image23mf/storage/repositories.py:1851-1868).
*/
module Evidence {
  import opened Wrappers
  import opened Identifiers
  import opened Columns
  import opened Sorting
  import opened ArtifactImport
  import History

  /** A config's fingerprint is taken of the loaded config. */
  type ConfigHash = History.Config

  datatype Status = Fresh | Missing | Stale

  /** What the editor sequence hash is taken of: the config's hash and the commands that are replayed. */
  datatype EditorSequence = EditorSequence(config: ConfigHash, commands: seq<nat>)

  datatype RegionOperation = RegionOperation(
    id: Id, revision: Id, sequence: int, paletteEdit: bool, command: nat, source: string, details: nat)

  /** The CHECKs of the operations table (src/image23mf/storage/migrations.py:146-150). */
  predicate OperationFits(operation: RegionOperation) {
    operation.sequence >= 0 && Storable(operation.sequence) && operation.source in {"automatic", "manual", "model"}
  }

  /** What the artifact manifest hash lists for each artifact. */
  datatype Item = Item(source: Id, kind: nat, digest: nat, key: seq<char>, mediaType: nat, size: nat)

  /** `downgraded` says that the reason names a downgrade by an import. */
  datatype Publication = Publication(
    revision: Id,
    draftGeneration: int,
    editorSequence: EditorSequence,
    status: Status,
    job: Option<nat>,
    previewKey: Option<nat>,
    downgraded: bool,
    manifest: Option<seq<Item>>,
    count: nat,
    details: nat)

  function SourceOf(artifact: Artifact): Id {
    if artifact.sourceId.Some? then artifact.sourceId.value else artifact.id
  }

  function ItemOf(artifact: Artifact): Item {
    Item(SourceOf(artifact), artifact.kind, artifact.digest, artifact.key, artifact.mediaType, artifact.size)
  }

  function ManifestOf(artifacts: seq<Artifact>): seq<Item> {
    seq(|artifacts|, i requires 0 <= i < |artifacts| => ItemOf(artifacts[i]))
  }

  predicate SequenceBefore(a: RegionOperation, b: RegionOperation) {
    a.sequence < b.sequence
  }

  function OfRevisionOnly(operations: seq<RegionOperation>, revision: Id): seq<RegionOperation> {
    if operations == [] then []
    else
      var front := OfRevisionOnly(operations[..|operations| - 1], revision);
      var last := operations[|operations| - 1];
      if last.revision == revision then front + [last] else front
  }

  /** A revision's operations by sequence. */
  function OperationsOf(operations: seq<RegionOperation>, revision: Id): seq<RegionOperation> {
    Sorted(OfRevisionOnly(operations, revision), SequenceBefore)
  }

  /** Palette edits are not replayed on pixels. */
  function Commands(operations: seq<RegionOperation>): seq<nat> {
    if operations == [] then []
    else
      var front := Commands(operations[..|operations| - 1]);
      var last := operations[|operations| - 1];
      if last.paletteEdit then front else front + [last.command]
  }

  /** What evidence rests on: a revision's config hash in the bundle and after the import, and its operations. */
  datatype Basis = Basis(config: ConfigHash, restoredConfig: ConfigHash, operations: seq<RegionOperation>)

  /** The rule every publication of a manifest satisfies. */
  predicate EvidenceHolds(publication: Publication, config: ConfigHash, operations: seq<RegionOperation>,
                          artifacts: seq<Artifact>) {
    && publication.editorSequence == EditorSequence(config, Commands(operations))
    && (publication.status.Fresh? ==>
          publication.count == |artifacts| && publication.manifest == Some(ManifestOf(artifacts)))
    && (!publication.status.Fresh? ==> publication.count == 0 && publication.manifest.None?)
  }

  /** The CHECKs of the publications table. */
  predicate Insertable(publication: Publication) {
    && publication.draftGeneration > 0 && Storable(publication.draftGeneration)
    && if publication.status.Fresh? then
      publication.job.Some? && publication.previewKey.Some? && publication.manifest.Some? && publication.count > 0
    else
      publication.manifest.None? && publication.count == 0
  }

  /** The rows of a restored revision as every reader selects them. */
  function ArtifactsOf(rows: seq<Artifact>, revision: Id): seq<Artifact> {
    Sorted(OfRevision(rows, revision), Earlier)
  }

  /** Fresh evidence is kept only when config, sequence, count and manifest all still agree. */
  predicate StaysFresh(publication: Publication, basis: Basis, artifacts: seq<Artifact>) {
    && publication.status.Fresh?
    && basis.restoredConfig == basis.config
    && EditorSequence(basis.restoredConfig, Commands(basis.operations)) == publication.editorSequence
    && |artifacts| == publication.count
    && Some(ManifestOf(artifacts)) == publication.manifest
  }

  method RestorePublication(publication: Publication, basis: Basis, target: Id, rows: seq<Artifact>)
    returns (row: Publication)
    requires !publication.status.Fresh? ==> publication.count == 0 && publication.manifest.None?
    ensures EvidenceHolds(row, basis.restoredConfig, basis.operations, ArtifactsOf(rows, target))
    ensures !publication.status.Fresh? || StaysFresh(publication, basis, ArtifactsOf(rows, target)) ==>
              row == publication.(revision := target, editorSequence := row.editorSequence)
    ensures publication.status.Fresh? && !StaysFresh(publication, basis, ArtifactsOf(rows, target)) ==>
              row == publication.(revision := target, editorSequence := row.editorSequence, status := Stale,
                                  downgraded := true, manifest := None, count := 0)
  {
    var editorSequence := EditorSequence(basis.restoredConfig, Commands(basis.operations));
    var artifacts := ArtifactsOf(rows, target);
    row := publication.(revision := target, editorSequence := editorSequence);
    if publication.status.Fresh? && (
      || basis.restoredConfig != basis.config
      || editorSequence != publication.editorSequence
      || |artifacts| != publication.count
      || Some(ManifestOf(artifacts)) != publication.manifest)
    {
      row := row.(status := Stale, downgraded := true, count := 0, manifest := None);
    }
  }

  /** What an import needs to know about every publication of a bundle. */
  predicate PublicationKnown(p: Publication, bases: map<Id, Basis>, targets: map<Id, Id>) {
    && p.revision in bases && p.revision in targets && p.draftGeneration > 0
    && (!p.status.Fresh? ==> p.count == 0 && p.manifest.None?)
  }

  /** Its generation does not fit, or its evidence would stay fresh although the table cannot hold it. */
  predicate Refusable(p: Publication, bases: map<Id, Basis>, targets: map<Id, Id>, rows: seq<Artifact>) {
    && PublicationKnown(p, bases, targets)
    && (|| !Storable(p.draftGeneration)
        || (&& StaysFresh(p, bases[p.revision], ArtifactsOf(rows, targets[p.revision]))
            && (p.job.None? || p.previewKey.None? || p.count == 0)))
  }

  /** A restored row: its evidence holds, it is fresh exactly when it stays fresh, and only then not downgraded. */
  predicate RestoredAs(p: Publication, row: Publication, bases: map<Id, Basis>, targets: map<Id, Id>,
                       rows: seq<Artifact>) {
    && PublicationKnown(p, bases, targets)
    && var basis, artifacts := bases[p.revision], ArtifactsOf(rows, targets[p.revision]);
    && EvidenceHolds(row, basis.restoredConfig, basis.operations, artifacts)
    && (row.status.Fresh? <==> StaysFresh(p, basis, artifacts))
    && (row.status == p.status ==> row == p.(revision := row.revision, editorSequence := row.editorSequence))
    && row.revision == targets[p.revision]
    && (!p.status.Fresh? ==> row.status == p.status)
    && (p.status.Fresh? && !row.status.Fresh? ==>
          row == p.(revision := row.revision, editorSequence := row.editorSequence, status := Stale,
                    downgraded := true, manifest := None, count := 0))
  }

  /** The publication rows of an import; none at all when the table refuses one of them. */
  method RestorePublications(publications: seq<Publication>, bases: map<Id, Basis>, targets: map<Id, Id>,
                             rows: seq<Artifact>)
    returns (restored: Option<seq<Publication>>)
    requires forall i :: 0 <= i < |publications| ==> PublicationKnown(publications[i], bases, targets)
    ensures restored.Some? <==>
              forall i :: 0 <= i < |publications| ==> !Refusable(publications[i], bases, targets, rows)
    ensures restored.Some? ==> |restored.value| == |publications|
    ensures restored.Some? ==>
              forall i :: 0 <= i < |publications| ==>
                RestoredAs(publications[i], restored.value[i], bases, targets, rows)
  {
    var inserted: seq<Publication> := [];
    for k := 0 to |publications|
      invariant |inserted| == k
      invariant forall i :: 0 <= i < k ==> RestoredAs(publications[i], inserted[i], bases, targets, rows)
      invariant forall i :: 0 <= i < k ==> !Refusable(publications[i], bases, targets, rows)
    {
      var p := publications[k];
      var row := RestorePublication(p, bases[p.revision], targets[p.revision], rows);
      if !Insertable(row) {
        return None;
      }
      inserted := inserted + [row];
    }
    restored := Some(inserted);
  }

  // ----- exactly when fresh evidence survives an import

  /** An imported artifact still yields the evidence it yielded before. */
  predicate KeepsItsEvidence(image: Artifact, original: Artifact) {
    image.key == original.key && (image.id == original.id || original.sourceId.Some?)
  }

  ghost predicate AllKeepEvidence(images: seq<Artifact>, originals: seq<Artifact>)
    requires |images| == |originals|
  {
    forall k :: 0 <= k < |images| ==> KeepsItsEvidence(images[k], originals[k])
  }

  /** No two artifacts of the revision count as copies of one source. */
  ghost predicate DistinctSources(artifacts: seq<Artifact>) {
    forall i, j :: 0 <= i < j < |artifacts| ==> SourceOf(artifacts[i]) != SourceOf(artifacts[j])
  }

  /** The images of a revision's artifacts, pairwise: nothing but owner, id and key may differ. */
  ghost predicate ImagesOf(images: seq<Artifact>, originals: seq<Artifact>, c: Context) {
    && |images| == |originals|
    && forall k :: 0 <= k < |images| ==>
         && ImageOf(images[k], originals[k], c.revisions)
         && (images[k].id == originals[k].id || images[k].id !in c.reserved)
         && SourceOf(originals[k]) in c.reserved
  }

  /** The core: sorted images list the same items as the originals exactly when all are kept and in order. */
  lemma SameManifestExactly(images: seq<Artifact>, originals: seq<Artifact>, c: Context)
    requires ImagesOf(images, originals, c) && DistinctIds(images) && DistinctSources(originals)
    ensures ManifestOf(Sorted(images, Earlier)) == ManifestOf(originals)
       <==> InOrder(images, Earlier) && AllKeepEvidence(images, originals)
  {
    SortedKeepsRows(images, Earlier);
    if InOrder(images, Earlier) && AllKeepEvidence(images, originals) {
      SortedLeavesOrder(images, Earlier);
      forall k | 0 <= k < |images| ensures ItemOf(images[k]) == ItemOf(originals[k]) {
        assert KeepsItsEvidence(images[k], originals[k]);
      }
      assert ManifestOf(images) == ManifestOf(originals);
    }
    if ManifestOf(Sorted(images, Earlier)) == ManifestOf(originals) {
      forall k | 0 <= k < |images|
        ensures Sorted(images, Earlier)[k] == images[k] && KeepsItsEvidence(images[k], originals[k])
      {
        SameItemSameArtifact(images, originals, c, k);
      }
      assert Sorted(images, Earlier) == images;
      AgeOrders(images);
      SortedIsInOrder(images, Earlier);
    }
  }

  lemma SameItemSameArtifact(images: seq<Artifact>, originals: seq<Artifact>, c: Context, k: nat)
    requires ImagesOf(images, originals, c) && DistinctSources(originals)
    requires k < |images| && |Sorted(images, Earlier)| == |images| && Sorted(images, Earlier)[k] in images
    requires ManifestOf(Sorted(images, Earlier)) == ManifestOf(originals)
    ensures Sorted(images, Earlier)[k] == images[k] && KeepsItsEvidence(images[k], originals[k])
  {
    var row := Sorted(images, Earlier)[k];
    assert ManifestOf(Sorted(images, Earlier))[k] == ItemOf(row);
    assert ManifestOf(originals)[k] == ItemOf(originals[k]);
    var j :| 0 <= j < |images| && images[j] == row;
    assert ImageOf(images[j], originals[j], c.revisions);
    assert SourceOf(row) == SourceOf(originals[k]);
    assert SourceOf(row) == SourceOf(originals[j]);
  }

  /** What an import into these rows knows of a revision whose evidence is fresh. */
  ghost predicate FreshInBundle(before: seq<Artifact>, artifacts: seq<Artifact>, c: Context,
                                publication: Publication, basis: Basis) {
    && c.reserved == Reserved(artifacts)
    && DistinctIds(before) && DistinctIds(artifacts)
    && Injective(c.revisions) && publication.revision in c.revisions
    && (forall i :: 0 <= i < |before| ==> before[i].revision != Some(c.revisions[publication.revision]))
    && DistinctSources(OfRevision(artifacts, publication.revision))
    && publication.status.Fresh?
    && EvidenceHolds(publication, basis.config, basis.operations, OfRevision(artifacts, publication.revision))
  }

  /** The restored revision owns exactly the images of its artifacts. */
  lemma RestoredRows(before: seq<Artifact>, images: seq<Artifact>, artifacts: seq<Artifact>, c: Context,
                     publication: Publication, basis: Basis)
    requires AllImported(before, images, artifacts, c) && FreshInBundle(before, artifacts, c, publication, basis)
    ensures var target := c.revisions[publication.revision];
            && ArtifactsOf(before + images, target) == Sorted(OfRevision(images, target), Earlier)
            && DistinctIds(OfRevision(images, target))
            && Paired(images, artifacts, OfRevision(images, target), OfRevision(artifacts, publication.revision))
            && ImagesOf(OfRevision(images, target), OfRevision(artifacts, publication.revision), c)
  {
    var target := c.revisions[publication.revision];
    OfRevisionAppend(before, images, target);
    OfRevisionNone(before, target);
    assert OfRevision(before + images, target) == OfRevision(images, target);
    ImportKeepsRowsDistinct(before, images, artifacts, c);
    OfRevisionKeepsIdsDistinct(before + images, target);
    AllAreImages(before, images, artifacts, c);
    RevisionOwnsItsImages(images, artifacts, c.revisions, publication.revision);
    RevisionHoldsImages(before, images, artifacts, c, publication.revision);
  }

  lemma AllAreImages(before: seq<Artifact>, images: seq<Artifact>, artifacts: seq<Artifact>, c: Context)
    requires AllImported(before, images, artifacts, c)
    ensures forall i :: 0 <= i < |images| ==> ImageOf(images[i], artifacts[i], c.revisions)
  {
    forall i | 0 <= i < |images| ensures ImageOf(images[i], artifacts[i], c.revisions) {
      assert ImportedInto(before + images[..i], images[i], artifacts[i], c);
    }
  }

  lemma RevisionHoldsImages(before: seq<Artifact>, images: seq<Artifact>, artifacts: seq<Artifact>, c: Context,
                            revision: Id)
    requires AllImported(before, images, artifacts, c) && c.reserved == Reserved(artifacts)
    requires revision in c.revisions
    requires Paired(images, artifacts, OfRevision(images, c.revisions[revision]), OfRevision(artifacts, revision))
    ensures ImagesOf(OfRevision(images, c.revisions[revision]), OfRevision(artifacts, revision), c)
  {
    var rows, originals := OfRevision(images, c.revisions[revision]), OfRevision(artifacts, revision);
    forall k: nat | k < |rows|
      ensures ImageOf(rows[k], originals[k], c.revisions)
      ensures rows[k].id == originals[k].id || rows[k].id !in c.reserved
      ensures SourceOf(originals[k]) in c.reserved
    {
      assert HasPair(images, artifacts, rows, originals, k);
      var i: nat :| PairedAt(images, artifacts, rows, originals, k, i);
      assert ImportedInto(before + images[..i], images[i], artifacts[i], c);
    }
  }

  /** Fresh evidence survives exactly when the config hash, every artifact's evidence and their order do. */
  lemma FreshEvidenceSurvives(before: seq<Artifact>, images: seq<Artifact>, artifacts: seq<Artifact>, c: Context,
                              publication: Publication, basis: Basis)
    requires AllImported(before, images, artifacts, c) && FreshInBundle(before, artifacts, c, publication, basis)
    ensures var target := c.revisions[publication.revision];
            && |OfRevision(images, target)| == |OfRevision(artifacts, publication.revision)|
            && (StaysFresh(publication, basis, ArtifactsOf(before + images, target))
                <==> && basis.restoredConfig == basis.config
                     && InOrder(OfRevision(images, target), Earlier)
                     && AllKeepEvidence(OfRevision(images, target), OfRevision(artifacts, publication.revision)))
  {
    var target := c.revisions[publication.revision];
    RestoredRows(before, images, artifacts, c, publication, basis);
    SortedKeepsRows(OfRevision(images, target), Earlier);
    SameManifestExactly(OfRevision(images, target), OfRevision(artifacts, publication.revision), c);
  }

  // ----- the same, told before the import from the rows there are and the bundle

  /** The i-th artifact of the bundle will find its key free, and its id free or not needed. */
  ghost predicate EvidenceWillStay(before: seq<Artifact>, artifacts: seq<Artifact>, bundleHash: seq<char>, i: nat)
    requires i < |artifacts|
  {
    && KeyStays(before, artifacts, bundleHash, i)
    && (!IdInUse(before, artifacts[i].id) || artifacts[i].sourceId.Some?)
  }

  ghost predicate AllEvidenceWillStay(before: seq<Artifact>, artifacts: seq<Artifact>, bundleHash: seq<char>,
                                      revision: Id) {
    forall i: nat {:trigger EvidenceWillStay(before, artifacts, bundleHash, i)} ::
      i < |artifacts| && artifacts[i].revision == Some(revision) ==>
        EvidenceWillStay(before, artifacts, bundleHash, i)
  }

  /** Only free ids are left to decide between artifacts of one creation time; made-up ids have no say. */
  ghost predicate TiesKeepTheirIds(before: seq<Artifact>, originals: seq<Artifact>) {
    forall i, j :: 0 <= i < j < |originals| && originals[i].createdAt == originals[j].createdAt ==>
      !IdInUse(before, originals[i].id) && !IdInUse(before, originals[j].id)
  }

  lemma EvidenceStaysAsForetold(before: seq<Artifact>, images: seq<Artifact>, artifacts: seq<Artifact>, c: Context,
                                i: nat)
    requires AllImported(before, images, artifacts, c) && DistinctIds(artifacts) && c.reserved == Reserved(artifacts)
    requires i < |artifacts|
    ensures KeepsItsEvidence(images[i], artifacts[i]) <==> EvidenceWillStay(before, artifacts, c.bundleHash, i)
    ensures images[i].id == artifacts[i].id <==> !IdInUse(before, artifacts[i].id)
    ensures images[i].createdAt == artifacts[i].createdAt
  {
    KeyStaysExactly(before, images, artifacts, c, i);
    IdStaysExactly(before, images, artifacts, c, i);
    assert ImportedInto(before + images[..i], images[i], artifacts[i], c);
  }

  lemma AllStayAsForetold(before: seq<Artifact>, images: seq<Artifact>, artifacts: seq<Artifact>, c: Context,
                          publication: Publication, basis: Basis)
    requires AllImported(before, images, artifacts, c) && FreshInBundle(before, artifacts, c, publication, basis)
    requires |OfRevision(images, c.revisions[publication.revision])| == |OfRevision(artifacts, publication.revision)|
    requires Paired(images, artifacts, OfRevision(images, c.revisions[publication.revision]),
                    OfRevision(artifacts, publication.revision))
    ensures AllKeepEvidence(OfRevision(images, c.revisions[publication.revision]),
                            OfRevision(artifacts, publication.revision))
       <==> AllEvidenceWillStay(before, artifacts, c.bundleHash, publication.revision)
  {
    var rows := OfRevision(images, c.revisions[publication.revision]);
    var originals := OfRevision(artifacts, publication.revision);
    if AllEvidenceWillStay(before, artifacts, c.bundleHash, publication.revision) {
      OfRevisionIsPart(artifacts, publication.revision);
      forall k: nat | k < |rows| ensures KeepsItsEvidence(rows[k], originals[k]) {
        assert HasPair(images, artifacts, rows, originals, k);
        var i: nat :| PairedAt(images, artifacts, rows, originals, k, i);
        assert originals[k] in originals;
        assert EvidenceWillStay(before, artifacts, c.bundleHash, i);
        EvidenceStaysAsForetold(before, images, artifacts, c, i);
      }
    }
    if AllKeepEvidence(rows, originals) {
      forall i: nat | i < |artifacts| && artifacts[i].revision == Some(publication.revision)
        ensures EvidenceWillStay(before, artifacts, c.bundleHash, i)
      {
        AllAreImages(before, images, artifacts, c);
        var k := PlaceOf(images, artifacts, c.revisions, publication.revision, i);
        assert KeepsItsEvidence(rows[k], originals[k]);
        EvidenceStaysAsForetold(before, images, artifacts, c, i);
      }
    }
  }

  lemma OrderStaysAsForetold(before: seq<Artifact>, images: seq<Artifact>, artifacts: seq<Artifact>, c: Context,
                             rows: seq<Artifact>, originals: seq<Artifact>)
    requires AllImported(before, images, artifacts, c) && DistinctIds(artifacts) && c.reserved == Reserved(artifacts)
    requires Paired(images, artifacts, rows, originals) && TiesKeepTheirIds(before, originals)
    ensures InOrder(rows, Earlier) <==> InOrder(originals, Earlier)
  {
    forall k: nat | k < |rows|
      ensures rows[k].createdAt == originals[k].createdAt
      ensures !IdInUse(before, originals[k].id) ==> rows[k].id == originals[k].id
    {
      assert HasPair(images, artifacts, rows, originals, k);
      var i: nat :| PairedAt(images, artifacts, rows, originals, k, i);
      EvidenceStaysAsForetold(before, images, artifacts, c, i);
    }
    forall i, j | 0 <= i < j < |rows| ensures Earlier(rows[i], rows[j]) <==> Earlier(originals[i], originals[j]) {
    }
  }

  /**
  Told before the import: fresh evidence survives exactly when the config hash is the same, the
  bundle lists the revision's artifacts by age, and every one of them finds its key free and its id
  free or not needed.
  */
  lemma FreshEvidenceSurvivesExactly(before: seq<Artifact>, images: seq<Artifact>, artifacts: seq<Artifact>,
                                     c: Context, publication: Publication, basis: Basis)
    requires AllImported(before, images, artifacts, c) && FreshInBundle(before, artifacts, c, publication, basis)
    requires TiesKeepTheirIds(before, OfRevision(artifacts, publication.revision))
    ensures StaysFresh(publication, basis, ArtifactsOf(before + images, c.revisions[publication.revision]))
       <==> && basis.restoredConfig == basis.config
            && InOrder(OfRevision(artifacts, publication.revision), Earlier)
            && AllEvidenceWillStay(before, artifacts, c.bundleHash, publication.revision)
  {
    var target := c.revisions[publication.revision];
    RestoredRows(before, images, artifacts, c, publication, basis);
    FreshEvidenceSurvives(before, images, artifacts, c, publication, basis);
    AllStayAsForetold(before, images, artifacts, c, publication, basis);
    OrderStaysAsForetold(before, images, artifacts, c, OfRevision(images, target),
                         OfRevision(artifacts, publication.revision));
  }

  /**
  Publishing one preview twice gives two revisions whose artifacts share kind and derivation key. A
  restore then downgrades the evidence of the later one, even into an empty database.
  */
  lemma SharedKeysCostEvidence(images: seq<Artifact>, artifacts: seq<Artifact>, c: Context,
                               publication: Publication, basis: Basis, i: nat, j: nat)
    requires AllImported([], images, artifacts, c) && FreshInBundle([], artifacts, c, publication, basis)
    requires i < j < |artifacts| && artifacts[j].revision == Some(publication.revision)
    requires UsesKey(artifacts[j], artifacts[i].kind, artifacts[i].key)
    ensures !StaysFresh(publication, basis, ArtifactsOf(images, c.revisions[publication.revision]))
  {
    assert [] + images == images;
    SharedKeyIsTaken(artifacts, c.bundleHash, i, j);
    assert !EvidenceWillStay([], artifacts, c.bundleHash, j);
    FreshEvidenceSurvivesExactly([], images, artifacts, c, publication, basis);
  }
}

/**
Exporting a restored project: building its manifest ends in the validation that the bundle passed.
Whatever database it was restored into, the records pass again; the history does exactly when its
configurations were canonical and its cursor state current (src/image23mf/bundles.py:278-525, 817-858).
*/
module ExportValidity {
  import opened Wrappers
  import opened Identifiers
  import opened Sorting
  import opened SharedRecords
  import opened ArtifactImport
  import opened Evidence
  import opened History
  import opened HistoryValidation
  import opened Renaming
  import opened RestoreValidity
  import opened HistoryImport
  import opened ProjectManifest
  import opened ProjectExport
  import opened ProjectRestore
  import RevisionOrder

  // ----- revisions

  ghost predicate RevisionMapped(schema: Schema, r: Renames, revisions: map<Id, Revision>, revision: Revision) {
    && RevisionRewritable(schema, r, revision)
    && r.revisions[revision.id] in revisions
    && revisions[r.revisions[revision.id]] == RestoredRevision(schema, r, revision)
  }

  /** The exported revisions are the restored ones of the bundle. */
  ghost predicate RevisionsMapped(schema: Schema, r: Renames, m: Manifest, revisions: map<Id, Revision>) {
    && r.revisions.Keys == RevisionIds(m) && revisions.Keys == r.revisions.Values
    && forall id {:trigger RevisionOrder.ById(m.revisions)[id]} :: id in RevisionIds(m) ==>
         RevisionMapped(schema, r, revisions, RevisionOrder.ById(m.revisions)[id])
  }

  lemma DoneIdsAreAll(m: Manifest)
    ensures DoneIds(m.revisions) == RevisionIds(m)
  {
    forall id ensures id in DoneIds(m.revisions) <==> id in RevisionIds(m) {
      if id in RevisionIds(m) {
        var i :| 0 <= i < |m.revisions| && m.revisions[i] == RevisionOrder.ById(m.revisions)[id];
      }
    }
  }

  lemma ExportedRevisions(schema: Schema, m: Manifest, r: Renames, project: Id, before: map<Id, Row<Revision>>,
                          rows: map<Id, Row<Revision>>)
    requires RevisionsRestored(schema, r, project, before, rows, m.revisions) && r.revisions.Keys == RevisionIds(m)
    requires r.revisions.Values !! before.Keys && forall id :: id in before ==> before[id].project != project
    ensures RevisionsMapped(schema, r, m, RecordsOf(rows, project))
  {
    DoneIdsAreAll(m);
    assert Images(r.revisions, RevisionIds(m)) == r.revisions.Values;
    RevisionsBelong(schema, m, r, project, rows);
    RecordsOfGrown(before, rows, r.revisions.Values, project);
    forall id | id in RevisionIds(m)
      ensures RevisionMapped(schema, r, RecordsOf(rows, project), RevisionOrder.ById(m.revisions)[id])
    {
      ExportedRevisionIsMapped(schema, m, r, project, rows, id);
    }
  }

  lemma ExportedRevisionIsMapped(schema: Schema, m: Manifest, r: Renames, project: Id, rows: map<Id, Row<Revision>>,
                                 id: Id)
    requires AllRestored(schema, r, project, rows, m.revisions) && id in RevisionIds(m)
    ensures RevisionMapped(schema, r, RecordsOf(rows, project), RevisionOrder.ById(m.revisions)[id])
  {
    var i :| 0 <= i < |m.revisions| && m.revisions[i] == RevisionOrder.ById(m.revisions)[id];
    assert RevisionRestored(schema, r, project, rows, m.revisions[i]);
  }

  /** The filaments and assets an export reaches have their rows. */
  ghost predicate Reaches(r: Renames, e: Contents) {
    && e.revisions.Keys == r.revisions.Values
    && (forall x {:trigger UsesAsset(e.revisions, e.history, x)} ::
          x in r.assets.Values && UsesAsset(e.revisions, e.history, x) ==> x in e.assets)
    && (forall x {:trigger UsesFilament(e.revisions, e.history, x)} ::
          x in r.filaments.Values && UsesFilament(e.revisions, e.history, x) ==> x in e.filaments)
  }

  lemma RestoredColorsAreKnown(r: Renames, e: Contents, revision: Revision, row: Revision)
    requires Reaches(r, e) && row.id in e.revisions && e.revisions[row.id] == row
    requires revision.config.source in r.assets && row.config.colors == RenamedConfig(r, revision.config).colors
    requires forall i :: 0 <= i < |revision.config.colors| && revision.config.colors[i].filament.Some? ==>
               revision.config.colors[i].filament.value in r.filaments
    ensures FilamentsKnown(row.config, NamesIn(e))
  {
    forall i | 0 <= i < |row.config.colors| && row.config.colors[i].filament.Some?
      ensures row.config.colors[i].filament.value in e.filaments
    {
      assert revision.config.colors[i].filament.value in r.filaments;
      assert row.config.colors[i].filament.value in FilamentsIn(e.revisions[row.id].config);
      assert UsesFilament(e.revisions, e.history, row.config.colors[i].filament.value);
    }
  }

  lemma RestoredRevisionIsOk(schema: Schema, names: Names, r: Renames, e: Contents, revision: Revision)
    requires Idempotent(schema) && RevisionOk(schema, names, revision) && Reaches(r, e)
    requires RevisionMapped(schema, r, e.revisions, revision) && r.filaments.Keys == names.filaments
    ensures RevisionOk(schema, NamesIn(e), e.revisions[r.revisions[revision.id]])
  {
    var row := RestoredRevision(schema, r, revision);
    assert e.revisions[row.id] == row;
    assert UsesAsset(e.revisions, e.history, row.source);
    assert row.parent.Some? ==> row.parent.value in r.revisions.Values;
    assert schema.load(row.config.body) == Some(row.config.body);
    RestoredColorsAreKnown(r, e, revision, row);
  }

  lemma RestoredRevisionsAreOk(schema: Schema, m: Manifest, r: Renames, e: Contents)
    requires Idempotent(schema) && RevisionsOk(schema, ContentsOf(m))
    requires RevisionsMapped(schema, r, m, e.revisions) && Reaches(r, e)
    requires r.assets.Keys == IdsOf(m.assets) && r.filaments.Keys == IdsOf(m.filaments)
    ensures RevisionsOk(schema, e)
  {
    forall x | x in e.revisions ensures RevisionOk(schema, NamesIn(e), e.revisions[x]) {
      var id := Origin(r.revisions, x);
      var c := ContentsOf(m);
      assert RevisionOk(schema, NamesIn(c), c.revisions[id]);
      assert RevisionMapped(schema, r, e.revisions, RevisionOrder.ById(m.revisions)[id]);
      RestoredRevisionIsOk(schema, NamesIn(c), r, e, c.revisions[id]);
    }
  }

  // ----- the rows of the project among all rows

  lemma {:induction false} OperationsInAppend(a: seq<RegionOperation>, b: seq<RegionOperation>, revisions: set<Id>)
    requires forall i :: 0 <= i < |a| ==> a[i].revision !in revisions
    requires forall i :: 0 <= i < |b| ==> b[i].revision in revisions
    ensures OperationsIn(a + b, revisions) == b
    decreases |a| + |b|
  {
    var rows := a + b;
    if b != [] {
      assert rows[..|rows| - 1] == a + b[..|b| - 1];
      OperationsInAppend(a, b[..|b| - 1], revisions);
    } else if a != [] {
      assert rows[..|rows| - 1] == a[..|a| - 1] + b;
      OperationsInAppend(a[..|a| - 1], b, revisions);
    }
  }

  lemma {:induction false} ArtifactsInAppend(a: seq<Artifact>, b: seq<Artifact>, revisions: set<Id>)
    requires forall i :: 0 <= i < |a| ==> a[i].revision.Some? ==> a[i].revision.value !in revisions
    requires forall i :: 0 <= i < |b| ==> b[i].revision.Some? && b[i].revision.value in revisions
    ensures ArtifactsIn(a + b, revisions) == b
    decreases |a| + |b|
  {
    var rows := a + b;
    if b != [] {
      assert rows[..|rows| - 1] == a + b[..|b| - 1];
      ArtifactsInAppend(a, b[..|b| - 1], revisions);
    } else if a != [] {
      assert rows[..|rows| - 1] == a[..|a| - 1] + b;
      ArtifactsInAppend(a[..|a| - 1], b, revisions);
    }
  }

  // ----- artifacts

  /** A revision's artifacts are the same whether all are sorted first or the revision is selected first. */
  lemma SortingKeepsRevisions(rows: seq<Artifact>, revision: Id)
    requires DistinctIds(rows)
    ensures OfRevision(Sorted(rows, Earlier), revision) == Sorted(OfRevision(rows, revision), Earlier)
  {
    AgeOrders(rows);
    SortedIsInOrder(rows, Earlier);
    SortedKeepsRows(rows, Earlier);
    OfRevisionKeepsOrder(Sorted(rows, Earlier), revision);
    OfRevisionIsPart(Sorted(rows, Earlier), revision);
    OfRevisionIsPart(rows, revision);
    OfRevisionKeepsIdsDistinct(rows, revision);
    AgeOrders(OfRevision(rows, revision));
    SortedIsInOrder(OfRevision(rows, revision), Earlier);
    SortedKeepsRows(OfRevision(rows, revision), Earlier);
    OrderIsDetermined(OfRevision(Sorted(rows, Earlier), revision), Sorted(OfRevision(rows, revision), Earlier),
                      Earlier);
  }

  lemma {:induction false} OfRevisionKeepsOrder(artifacts: seq<Artifact>, revision: Id)
    requires InOrder(artifacts, Earlier)
    ensures InOrder(OfRevision(artifacts, revision), Earlier)
  {
    if artifacts != [] {
      var front, last := artifacts[..|artifacts| - 1], artifacts[|artifacts| - 1];
      OfRevisionKeepsOrder(front, revision);
      OfRevisionIsPart(front, revision);
      forall x | x in OfRevision(front, revision) ensures Earlier(x, last) {
        var i :| 0 <= i < |front| && front[i] == x;
        assert Earlier(artifacts[i], artifacts[|artifacts| - 1]);
      }
    }
  }

  // ----- operations

  predicate SamePosition(a: RegionOperation, b: RegionOperation) {
    a.revision == b.revision && a.sequence == b.sequence
  }

  ghost predicate DistinctPositions(operations: seq<RegionOperation>) {
    forall i, j :: 0 <= i < j < |operations| ==> !SamePosition(operations[i], operations[j])
  }

  lemma {:induction false} OfRevisionOnlyIsPart(operations: seq<RegionOperation>, revision: Id)
    requires DistinctPositions(operations)
    ensures forall x :: x in OfRevisionOnly(operations, revision) <==> x in operations && x.revision == revision
    ensures Ordering(OfRevisionOnly(operations, revision), SequenceBefore)
  {
    if operations != [] {
      var front, last := operations[..|operations| - 1], operations[|operations| - 1];
      OfRevisionOnlyIsPart(front, revision);
      assert operations == front + [last];
      forall x | x in OfRevisionOnly(front, revision) && last.revision == revision
        ensures SequenceBefore(x, last) || SequenceBefore(last, x)
      {
        var i :| 0 <= i < |front| && front[i] == x;
        assert !SamePosition(operations[i], operations[|operations| - 1]);
      }
    }
  }

  lemma OperationsOfARevision(operations: seq<RegionOperation>, revision: Id)
    requires DistinctPositions(operations)
    ensures InOrder(OperationsOf(operations, revision), SequenceBefore)
    ensures forall x :: x in OperationsOf(operations, revision) <==> x in operations && x.revision == revision
  {
    OfRevisionOnlyIsPart(operations, revision);
    SortedKeepsRows(OfRevisionOnly(operations, revision), SequenceBefore);
    SortedIsInOrder(OfRevisionOnly(operations, revision), SequenceBefore);
  }

  /** Replayed alike: the same command at the same place. */
  predicate ReplaysAlike(a: RegionOperation, b: RegionOperation) {
    a.sequence == b.sequence && a.paletteEdit == b.paletteEdit && a.command == b.command
  }

  ghost predicate HasItsLike(x: RegionOperation, b: seq<RegionOperation>) {
    exists y :: y in b && ReplaysAlike(x, y)
  }

  ghost predicate EachHasItsLike(a: seq<RegionOperation>, b: seq<RegionOperation>) {
    forall x {:trigger HasItsLike(x, b)} :: x in a ==> HasItsLike(x, b)
  }

  lemma FrontsAreAlike(a: seq<RegionOperation>, b: seq<RegionOperation>)
    requires a != [] && b != [] && InOrder(a, SequenceBefore) && EachHasItsLike(a, b)
    requires a[|a| - 1].sequence == b[|b| - 1].sequence
    ensures EachHasItsLike(a[..|a| - 1], b[..|b| - 1])
  {
    var front := a[..|a| - 1];
    forall x | x in front ensures HasItsLike(x, b[..|b| - 1]) {
      var i :| 0 <= i < |front| && front[i] == x;
      assert SequenceBefore(a[i], a[|a| - 1]);
      assert x in a && HasItsLike(x, b);
      var y :| y in b && ReplaysAlike(x, y);
      var j :| 0 <= j < |b| && b[j] == y;
      assert b[..|b| - 1][j] == y;
    }
  }

  /** Operations that are alike, in order, replay the same commands. */
  lemma {:induction false} CommandsAgree(a: seq<RegionOperation>, b: seq<RegionOperation>)
    requires InOrder(a, SequenceBefore) && InOrder(b, SequenceBefore) && EachHasItsLike(a, b) && EachHasItsLike(b, a)
    ensures Commands(a) == Commands(b)
  {
    if a == [] {
      if b != [] {
        LastsAreAlike(b, a);
        assert false;
      }
    } else {
      LastsAreAlike(a, b);
      FrontsAreAlike(a, b);
      FrontsAreAlike(b, a);
      CommandsAgree(a[..|a| - 1], b[..|b| - 1]);
    }
  }

  lemma LastComesLast(a: seq<RegionOperation>, i: nat)
    requires i < |a| && InOrder(a, SequenceBefore)
    ensures a[i].sequence <= a[|a| - 1].sequence
    ensures a[i].sequence == a[|a| - 1].sequence ==> i == |a| - 1
  {
    if i != |a| - 1 { assert SequenceBefore(a[i], a[|a| - 1]); }
  }

  lemma LastsAreAlike(a: seq<RegionOperation>, b: seq<RegionOperation>)
    requires a != [] && InOrder(a, SequenceBefore) && InOrder(b, SequenceBefore)
    requires EachHasItsLike(a, b) && EachHasItsLike(b, a)
    ensures b != [] && ReplaysAlike(a[|a| - 1], b[|b| - 1])
  {
    var x := a[|a| - 1];
    assert HasItsLike(x, b);
    var y :| y in b && ReplaysAlike(x, y);
    var j :| 0 <= j < |b| && b[j] == y;
    var last := b[|b| - 1];
    assert HasItsLike(last, a);
    var z :| z in a && ReplaysAlike(last, z);
    var i :| 0 <= i < |a| && a[i] == z;
    LastComesLast(a, i);
    LastComesLast(b, j);
  }

  /** The images of a bundle's operations. */
  ghost predicate OperationImages(images: seq<RegionOperation>, operations: seq<RegionOperation>,
                                  revisions: map<Id, Id>) {
    && |images| == |operations|
    && forall i {:trigger images[i]} :: 0 <= i < |images| ==> OperationImage(images[i], operations[i], revisions)
  }

  lemma ImagesKeepPositions(images: seq<RegionOperation>, operations: seq<RegionOperation>, revisions: map<Id, Id>)
    requires OperationImages(images, operations, revisions) && Injective(revisions) && DistinctPositions(operations)
    ensures DistinctPositions(images)
  {
    forall i, j | 0 <= i < j < |images| ensures !SamePosition(images[i], images[j]) {
      assert OperationImage(images[i], operations[i], revisions) && OperationImage(images[j], operations[j], revisions);
      assert !SamePosition(operations[i], operations[j]);
    }
  }

  lemma PositionsOrder(operations: seq<RegionOperation>)
    requires DistinctPositions(operations)
    ensures Ordering(operations, OperationBefore)
  {
    forall i, j | 0 <= i < j < |operations|
      ensures OperationBefore(operations[i], operations[j]) || OperationBefore(operations[j], operations[i])
    {
      assert !SamePosition(operations[i], operations[j]);
    }
  }

  lemma SortedPositions(operations: seq<RegionOperation>)
    requires DistinctPositions(operations)
    ensures DistinctPositions(Sorted(operations, OperationBefore))
    ensures forall x :: x in Sorted(operations, OperationBefore) <==> x in operations
  {
    PositionsOrder(operations);
    SortedIsInOrder(operations, OperationBefore);
    SortedKeepsRows(operations, OperationBefore);
    var rows := Sorted(operations, OperationBefore);
    forall i, j | 0 <= i < j < |rows| ensures !SamePosition(rows[i], rows[j]) {
      assert OperationBefore(rows[i], rows[j]);
    }
  }

  /** A restored revision replays the commands of its original. */
  lemma CommandsComeAlong(images: seq<RegionOperation>, operations: seq<RegionOperation>, revisions: map<Id, Id>,
                          revision: Id)
    requires OperationImages(images, operations, revisions) && Injective(revisions) && DistinctPositions(operations)
    requires revision in revisions
    ensures Commands(OperationsOf(Sorted(images, OperationBefore), revisions[revision]))
         == Commands(OperationsOf(operations, revision))
  {
    ImagesKeepPositions(images, operations, revisions);
    SortedPositions(images);
    var a := OperationsOf(Sorted(images, OperationBefore), revisions[revision]);
    var b := OperationsOf(operations, revision);
    OperationsOfARevision(Sorted(images, OperationBefore), revisions[revision]);
    OperationsOfARevision(operations, revision);
    forall x | x in a ensures HasItsLike(x, b) {
      var i :| 0 <= i < |images| && images[i] == x;
      assert OperationImage(images[i], operations[i], revisions);
      assert operations[i] in b && ReplaysAlike(x, operations[i]);
    }
    forall y | y in b ensures HasItsLike(y, a) {
      var i :| 0 <= i < |operations| && operations[i] == y;
      assert OperationImage(images[i], operations[i], revisions);
      assert images[i] in a && ReplaysAlike(y, images[i]);
    }
    CommandsAgree(a, b);
  }

  // ----- the rows of the project

  lemma ProjectOperations(before: seq<RegionOperation>, rows: seq<RegionOperation>, operations: seq<RegionOperation>,
                          revisions: map<Id, Id>)
    requires OperationsRestored(revisions, before, rows, operations)
    requires forall i :: 0 <= i < |before| ==> before[i].revision !in revisions.Values
    ensures OperationImages(OperationsIn(rows, revisions.Values), operations, revisions)
  {
    var images := rows[|before|..];
    assert rows == before + images;
    forall i | 0 <= i < |images| ensures OperationImage(images[i], operations[i], revisions) {
      assert OperationImage(rows[|before| + i], operations[i], revisions);
    }
    OperationsInAppend(before, images, revisions.Values);
  }

  lemma ProjectArtifacts(before: seq<Artifact>, images: seq<Artifact>, artifacts: seq<Artifact>, c: Context)
    requires AllImported(before, images, artifacts, c) && DistinctIds(before)
    requires forall i :: 0 <= i < |before| && before[i].revision.Some? ==>
               before[i].revision.value !in c.revisions.Values
    ensures ArtifactsIn(before + images, c.revisions.Values) == images && DistinctIds(images)
    ensures forall id :: id in c.revisions.Values ==> OfRevision(before + images, id) == OfRevision(images, id)
  {
    AllAreImages(before, images, artifacts, c);
    ArtifactsInAppend(before, images, c.revisions.Values);
    ImportKeepsRowsDistinct(before, images, artifacts, c);
    forall i, j | 0 <= i < j < |images| ensures images[i].id != images[j].id {
      var rows := before + images;
      assert rows[|before| + i] == images[i] && rows[|before| + j] == images[j];
    }
    forall id | id in c.revisions.Values ensures OfRevision(before + images, id) == OfRevision(images, id) {
      OfRevisionAppend(before, images, id);
      OfRevisionNone(before, id);
    }
  }

  // ----- publications

  /** What an export of the restored project reads of operations and artifacts. */
  ghost predicate EvidenceMapped(m: Manifest, revisions: map<Id, Id>, rows: seq<Artifact>, e: Contents) {
    && (forall id :: id in revisions ==>
          Commands(OperationsOf(e.operations, revisions[id])) == Commands(OperationsOf(m.operations, id)))
    && (forall id :: id in revisions ==> OfRevision(e.artifacts, revisions[id]) == ArtifactsOf(rows, revisions[id]))
  }

  lemma ExportedEvidence(m: Manifest, revisions: map<Id, Id>, operations: seq<RegionOperation>, images: seq<Artifact>,
                         rows: seq<Artifact>, e: Contents)
    requires OperationImages(operations, m.operations, revisions) && Injective(revisions)
    requires DistinctPositions(m.operations) && DistinctIds(images)
    requires forall id :: id in revisions.Values ==> OfRevision(rows, id) == OfRevision(images, id)
    requires e.operations == Sorted(operations, OperationBefore) && e.artifacts == Sorted(images, Earlier)
    ensures EvidenceMapped(m, revisions, rows, e)
  {
    forall id | id in revisions
      ensures Commands(OperationsOf(e.operations, revisions[id])) == Commands(OperationsOf(m.operations, id))
      ensures OfRevision(e.artifacts, revisions[id]) == ArtifactsOf(rows, revisions[id])
    {
      CommandsComeAlong(operations, m.operations, revisions, id);
      SortingKeepsRevisions(images, revisions[id]);
    }
  }

  // What a publication rests on in the export is what it rested on when it was inserted.
  lemma EvidenceCarriesOver(e: Contents, row: Publication, basis: Basis, artifacts: seq<Artifact>)
    requires row.revision in e.revisions && row.draftGeneration > 0
    requires e.revisions[row.revision].fingerprint == basis.restoredConfig
    requires Commands(OperationsOf(e.operations, row.revision)) == Commands(basis.operations)
    requires OfRevision(e.artifacts, row.revision) == artifacts
    requires EvidenceHolds(row, basis.restoredConfig, basis.operations, artifacts)
    ensures PublicationOk(e, row)
  {
  }

  lemma RestoredPublicationIsOk(schema: Schema, m: Manifest, r: Renames, rows: seq<Artifact>, e: Contents,
                                p: Publication, row: Publication)
    requires RevisionsMapped(schema, r, m, e.revisions) && EvidenceMapped(m, r.revisions, rows, e)
    requires RestoredAs(p, row, BasesOf(schema, r, m), r.revisions, rows)
    ensures PublicationOk(e, row)
  {
    var revision := RevisionOrder.ById(m.revisions)[p.revision];
    assert RevisionMapped(schema, r, e.revisions, revision);
    assert row.draftGeneration == p.draftGeneration;
    EvidenceCarriesOver(e, row, BasesOf(schema, r, m)[p.revision], ArtifactsOf(rows, r.revisions[p.revision]));
  }

  lemma RestoredPublicationsAreOk(schema: Schema, m: Manifest, r: Renames, before: map<Id, Publication>,
                                  publications: map<Id, Publication>, rows: seq<Artifact>, e: Contents)
    requires RevisionsMapped(schema, r, m, e.revisions) && EvidenceMapped(m, r.revisions, rows, e)
    requires PublicationsRestored(m.publications, BasesOf(schema, r, m), r.revisions, rows, before, publications)
    requires r.revisions.Values !! before.Keys
    requires forall id :: id in e.publications ==>
               id in e.revisions && id in publications && e.publications[id] == publications[id]
    ensures PublicationsOk(e)
  {
    forall id | id in e.publications ensures PublicationOk(e, e.publications[id]) {
      assert id in r.revisions.Values;
      assert TargetOfSome(m.publications, r.revisions, id);
      var p :| p in m.publications && p.revision in r.revisions && r.revisions[p.revision] == id;
      assert PublicationRestored(p, BasesOf(schema, r, m), r.revisions, rows, publications);
      RestoredPublicationIsOk(schema, m, r, rows, e, p, publications[id]);
    }
  }

  // ----- the history under the names of the export

  /** Two ways to name what a history refers to. */
  ghost predicate NamesAlike(h: History, a: Names, b: Names) {
    && a.revisions == b.revisions
    && (forall id {:trigger h.lineages[id]} :: id in h.lineages ==>
          (h.lineages[id].source in a.assets <==> h.lineages[id].source in b.assets))
    && (forall sha {:trigger h.states[sha]} :: sha in h.states ==>
          (FilamentsKnown(h.states[sha].config, a) <==> FilamentsKnown(h.states[sha].config, b)))
  }

  lemma NamesAlikeValidateAlike(schema: Schema, h: History, a: Names, b: Names)
    requires NamesAlike(h, a, b) && Validated(schema, a, h)
    ensures Validated(schema, b, h)
  {
    forall id | id in h.lineages ensures LineageOk(h.lineages[id], b) {
      assert LineageOk(h.lineages[id], a);
    }
    forall sha | sha in h.states ensures StateOk(schema, b, h.lineages, sha, h.states[sha]) {
      assert StateOk(schema, a, h.lineages, sha, h.states[sha]);
    }
    forall id | id in h.nodes ensures NodeOk(h, b, h.nodes[id]) {
      assert NodeOk(h, a, h.nodes[id]);
    }
  }

  lemma RestoredStateIsNamed(schema: Schema, names: Names, h: History, r: Renames, e: Contents, x: Hash)
    requires GraphOk(schema, names, h) && Covers(r, names, h) && StateImage(schema, r, h, e.history.states)
    requires Reaches(r, e) && x in e.history.states
    ensures FilamentsKnown(e.history.states[x].config, RenamedNames(r))
    ensures FilamentsKnown(e.history.states[x].config, NamesIn(e))
  {
    assert StateOrigin(schema, r, h, x);
    var sha :| sha in h.states && Rewritable(schema, r, h.states[sha]) && RenamedHash(schema, r, h.states[sha]) == x;
    assert StateMapped(schema, r, h, e.history.states, sha) && StateOk(schema, names, h.lineages, sha, h.states[sha]);
    RenamedFilamentsKnown(names, r, h.states[sha].config);
    var config := e.history.states[x].config;
    assert config.colors == RenamedConfig(r, h.states[sha].config).colors;
    forall i | 0 <= i < |config.colors| && config.colors[i].filament.Some?
      ensures config.colors[i].filament.value in e.filaments
    {
      assert config.colors[i].filament.value in RenamedNames(r).filaments;
      assert config.colors[i].filament.value in FilamentsIn(e.history.states[x].config);
      assert UsesFilament(e.revisions, e.history, config.colors[i].filament.value);
    }
  }

  lemma RestoredLineageIsNamed(h: History, r: Renames, e: Contents, x: Id)
    requires LineageImage(r, h, e.history.lineages) && r.lineages.Keys == h.lineages.Keys
    requires Reaches(r, e) && x in e.history.lineages
    ensures e.history.lineages[x].source in r.assets.Values && e.history.lineages[x].source in e.assets
  {
    var id := Origin(r.lineages, x);
    assert LineageMapped(r, h, e.history.lineages, id);
    assert UsesAsset(e.revisions, e.history, e.history.lineages[x].source);
  }

  lemma ExportNamesSuffice(schema: Schema, names: Names, h: History, r: Renames, e: Contents)
    requires GraphOk(schema, names, h) && Covers(r, names, h) && Image(schema, r, h, e.history) && Reaches(r, e)
    ensures NamesAlike(e.history, RenamedNames(r), NamesIn(e)) && NamesAlike(e.history, NamesIn(e), RenamedNames(r))
  {
    forall x | x in e.history.lineages
      ensures e.history.lineages[x].source in r.assets.Values && e.history.lineages[x].source in e.assets
    {
      RestoredLineageIsNamed(h, r, e, x);
    }
    forall x | x in e.history.states
      ensures FilamentsKnown(e.history.states[x].config, RenamedNames(r))
      ensures FilamentsKnown(e.history.states[x].config, NamesIn(e))
    {
      RestoredStateIsNamed(schema, names, h, r, e, x);
    }
  }

  /** The history of the export validates exactly when the bundle's was canonical and current. */
  lemma ExportedHistoryValidates(schema: Schema, names: Names, h: History, r: Renames, e: Contents)
    requires Idempotent(schema) && Validated(schema, names, h) && Covers(r, names, h) && Isomorphic(r)
    requires Image(schema, r, h, e.history) && Reaches(r, e)
    ensures Validated(schema, NamesIn(e), e.history) <==> ConfigsCanonical(schema, h) && CursorCurrent(h)
  {
    RestoredHistoryValidates(schema, names, h, r, e.history);
    ExportNamesSuffice(schema, names, h, r, e);
    if Validated(schema, RenamedNames(r), e.history) {
      NamesAlikeValidateAlike(schema, e.history, RenamedNames(r), NamesIn(e));
    }
    if Validated(schema, NamesIn(e), e.history) {
      NamesAlikeValidateAlike(schema, e.history, NamesIn(e), RenamedNames(r));
    }
  }

  // ----- assets

  /** The export uses exactly the images of the assets that the bundle uses. */
  lemma UsedAssetsCommute(schema: Schema, m: Manifest, r: Renames, e: Contents, x: Id)
    requires ManifestOk(schema, m) && Covers(r, NamesOf(m), m.history)
    requires RevisionsMapped(schema, RecordMaps(r), m, e.revisions) && Image(schema, r, m.history, e.history)
    ensures UsesAsset(e.revisions, e.history, x)
       <==> exists a :: a in r.assets && r.assets[a] == x && UsesAsset(RevisionOrder.ById(m.revisions), m.history, a)
  {
    if UsesAsset(e.revisions, e.history, x) {
      var a := UsedAssetsComeFromSome(schema, m, r, e, x);
    }
    if a :| a in r.assets && r.assets[a] == x && UsesAsset(RevisionOrder.ById(m.revisions), m.history, a) {
      UsedAssetsStayUsed(schema, m, r, e, a);
    }
  }

  lemma UsedAssetsComeFromSome(schema: Schema, m: Manifest, r: Renames, e: Contents, x: Id) returns (a: Id)
    requires Covers(r, NamesOf(m), m.history) && UsesAsset(e.revisions, e.history, x)
    requires RevisionsMapped(schema, RecordMaps(r), m, e.revisions) && Image(schema, r, m.history, e.history)
    ensures a in r.assets && r.assets[a] == x && UsesAsset(RevisionOrder.ById(m.revisions), m.history, a)
  {
    if id :| id in e.revisions && e.revisions[id].source == x {
      var origin := Origin(r.revisions, id);
      assert RevisionMapped(schema, RecordMaps(r), e.revisions, RevisionOrder.ById(m.revisions)[origin]);
      a := RevisionOrder.ById(m.revisions)[origin].source;
    } else if id :| id in e.history.lineages && e.history.lineages[id].source == x {
      var origin := Origin(r.lineages, id);
      assert LineageMapped(r, m.history, e.history.lineages, origin);
      a := m.history.lineages[origin].source;
    } else {
      a := m.history.draft.value.config.source;
    }
  }

  lemma UsedAssetsStayUsed(schema: Schema, m: Manifest, r: Renames, e: Contents, a: Id)
    requires Covers(r, NamesOf(m), m.history) && a in r.assets
    requires UsesAsset(RevisionOrder.ById(m.revisions), m.history, a)
    requires RevisionsMapped(schema, RecordMaps(r), m, e.revisions) && Image(schema, r, m.history, e.history)
    ensures UsesAsset(e.revisions, e.history, r.assets[a])
  {
    var table := RevisionOrder.ById(m.revisions);
    if id :| id in table && table[id].source == a {
      assert RevisionMapped(schema, RecordMaps(r), e.revisions, table[id]);
      assert e.revisions[r.revisions[id]].source == r.assets[a];
    } else if id :| id in m.history.lineages && m.history.lineages[id].source == a {
      assert LineageMapped(r, m.history, e.history.lineages, id);
      assert e.history.lineages[r.lineages[id]].source == r.assets[a];
    }
  }

  // ----- the whole manifest

  lemma ExportReaches(t: Tables, r: Renames, project: Id)
    requires project in t.projects && RecordsOf(t.revisions, project).Keys == r.revisions.Values
    requires r.assets.Values <= t.assets.Keys && r.filaments.Values <= t.filaments.Keys
    ensures Reaches(r, Exported(t, project))
  {
  }

  lemma ProjectRowsAreImages(schema: Schema, m: Manifest, bundleHash: string, before: Tables, after: Tables, run: Run)
    requires Consistent(before) && Restoration(schema, m, bundleHash, before, after, run)
    ensures run.project in after.projects
    ensures RevisionsMapped(schema, RecordMaps(run.r), m, RecordsOf(after.revisions, run.project))
    ensures Reaches(run.r, Exported(after, run.project))
  {
    ExportedRevisions(schema, m, RecordMaps(run.r), run.project, before.revisions, after.revisions);
    ExportReaches(after, run.r, run.project);
  }

  lemma RestoredEvidence(schema: Schema, m: Manifest, bundleHash: string, before: Tables, after: Tables, run: Run)
    requires Consistent(before) && RecordIdsUnique(m) && Restoration(schema, m, bundleHash, before, after, run)
    requires run.project in after.projects
    requires RevisionsMapped(schema, RecordMaps(run.r), m, RecordsOf(after.revisions, run.project))
    ensures var e := Exported(after, run.project);
            && EvidenceMapped(m, run.r.revisions, after.artifacts, e)
            && (forall i :: 0 <= i < |e.artifacts| ==>
                  e.artifacts[i].revision.Some? && e.artifacts[i].revision.value in e.revisions)
            && (forall i :: 0 <= i < |e.operations| ==> e.operations[i].revision in e.revisions)
  {
    var e, revisions := Exported(after, run.project), run.r.revisions;
    ProjectOperations(before.operations, after.operations, m.operations, revisions);
    var operations := OperationsIn(after.operations, revisions.Values);
    var c := ContextFor(m.artifacts, revisions, bundleHash);
    ProjectArtifacts(before.artifacts, run.images, m.artifacts, c);
    AllAreImages(before.artifacts, run.images, m.artifacts, c);
    ExportedEvidence(m, revisions, operations, run.images, after.artifacts, e);
    SortedKeepsRows(operations, OperationBefore);
    SortedKeepsRows(run.images, Earlier);
    OwnersAreRevisions(e, operations, run.images, m, revisions);
  }

  lemma OwnersAreRevisions(e: Contents, operations: seq<RegionOperation>, images: seq<Artifact>, m: Manifest,
                           revisions: map<Id, Id>)
    requires e.revisions.Keys == revisions.Values && OperationImages(operations, m.operations, revisions)
    requires |images| == |m.artifacts|
    requires forall i :: 0 <= i < |images| ==> ImageOf(images[i], m.artifacts[i], revisions)
    requires forall x :: x in e.operations <==> x in operations
    requires forall x :: x in e.artifacts <==> x in images
    ensures forall i :: 0 <= i < |e.artifacts| ==>
              e.artifacts[i].revision.Some? && e.artifacts[i].revision.value in e.revisions
    ensures forall i :: 0 <= i < |e.operations| ==> e.operations[i].revision in e.revisions
  {
    forall i | 0 <= i < |e.operations| ensures e.operations[i].revision in e.revisions {
      assert e.operations[i] in operations;
      var k :| 0 <= k < |operations| && operations[k] == e.operations[i];
      assert OperationImage(operations[k], m.operations[k], revisions);
    }
    forall i | 0 <= i < |e.artifacts|
      ensures e.artifacts[i].revision.Some? && e.artifacts[i].revision.value in e.revisions
    {
      assert e.artifacts[i] in images;
      var k :| 0 <= k < |images| && images[k] == e.artifacts[i];
      assert ImageOf(images[k], m.artifacts[k], revisions);
    }
  }

  /** Whatever the bundle and the database: the records of a restored project validate again. */
  lemma RestoredRecordsAreOk(schema: Schema, m: Manifest, bundleHash: string, before: Tables, after: Tables,
                             run: Run)
    requires Idempotent(schema) && ManifestOk(schema, m) && Consistent(before)
    requires Restoration(schema, m, bundleHash, before, after, run)
    ensures run.project in after.projects && RecordsOk(schema, Exported(after, run.project))
  {
    ProjectRowsAreImages(schema, m, bundleHash, before, after, run);
    RestoredEvidence(schema, m, bundleHash, before, after, run);
    var e, maps := Exported(after, run.project), RecordMaps(run.r);
    RestoredRevisionsAreOk(schema, m, maps, e);
    RestoredPublicationsAreOk(schema, m, maps, before.publications, after.publications, after.artifacts, e);
  }

  /**
  So a restored project passes the validation at the end of its export exactly when the bundle's
  configurations were canonical and its cursor state was current.
  */
  lemma RestoredContentsValidateExactly(schema: Schema, m: Manifest, bundleHash: string, before: Tables,
                                        after: Tables, run: Run)
    requires Idempotent(schema) && ManifestOk(schema, m) && Consistent(before)
    requires Restoration(schema, m, bundleHash, before, after, run)
    ensures run.project in after.projects
    ensures ContentsOk(schema, Exported(after, run.project))
       <==> ConfigsCanonical(schema, m.history) && CursorCurrent(m.history)
  {
    RestoredRecordsAreOk(schema, m, bundleHash, before, after, run);
    ProjectRowsAreImages(schema, m, bundleHash, before, after, run);
    ExportedHistoryValidates(schema, NamesOf(m), m.history, run.r, Exported(after, run.project));
  }
}

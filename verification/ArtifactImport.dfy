/**
Importing artifacts (src/image23mf/bundles.py:1084-1115): the ids and derivation keys they get, and
which of them keep what they had.
*/
module ArtifactImport {
  import opened Wrappers
  import opened Identifiers
  import opened DerivationKeys
  import opened Sorting

  datatype Artifact = Artifact(
    id: Id,
    revision: Option<Id>,
    kind: nat,
    digest: nat,
    key: Text,
    mediaType: nat,
    size: nat,
    sourceId: Option<Id>,  // the provenance its metadata records
    createdAt: nat,
    details: nat)

  predicate UsesKey(row: Artifact, kind: nat, key: Text) {
    row.kind == kind && row.key == key
  }

  predicate KeyInUse(rows: seq<Artifact>, kind: nat, key: Text) {
    exists i :: 0 <= i < |rows| && UsesKey(rows[i], kind, key)
  }

  predicate IdInUse(rows: seq<Artifact>, id: Id) {
    exists i :: 0 <= i < |rows| && rows[i].id == id
  }

  /** The keys a kind has in a table. */
  function KeysOf(rows: seq<Artifact>, kind: nat): set<Text> {
    set i | 0 <= i < |rows| && rows[i].kind == kind :: rows[i].key
  }

  lemma KeysOfAreInUse(rows: seq<Artifact>, kind: nat, key: Text)
    ensures key in KeysOf(rows, kind) <==> KeyInUse(rows, kind, key)
  {
  }

  /** The ids a new id avoids: those of the bundle's artifacts and of the artifacts they were copied from. */
  function Reserved(artifacts: seq<Artifact>): set<Id> {
    (set i | 0 <= i < |artifacts| :: artifacts[i].id)
    + (set i | 0 <= i < |artifacts| && artifacts[i].sourceId.Some? :: artifacts[i].sourceId.value)
  }

  /** What an import goes by: the new ids of the revisions, the ids not to make up, the bundle's hash. */
  datatype Context = Context(revisions: map<Id, Id>, reserved: set<Id>, bundleHash: Text)

  function ContextFor(artifacts: seq<Artifact>, revisions: map<Id, Id>, bundleHash: Text): Context {
    Context(revisions, Reserved(artifacts), bundleHash)
  }

  predicate Owned(artifact: Artifact, revisions: map<Id, Id>) {
    artifact.revision.Some? && artifact.revision.value in revisions
  }

  /** The artifact itself, but for its owner, its id and its key. */
  predicate ImageOf(row: Artifact, artifact: Artifact, revisions: map<Id, Id>) {
    && Owned(artifact, revisions)
    && row == artifact.(id := row.id, key := row.key, revision := Some(revisions[artifact.revision.value]))
  }

  /** One artifact imported into a table: its own id or a new one, and the first key free for its kind. */
  ghost predicate ImportedInto(rows: seq<Artifact>, row: Artifact, artifact: Artifact, c: Context) {
    && ImageOf(row, artifact, c.revisions)
    && !IdInUse(rows, row.id)
    && (row.id == artifact.id <==> !IdInUse(rows, artifact.id))
    && (row.id == artifact.id || row.id !in c.reserved)
    && row.key == KeyFor(KeysOf(rows, artifact.kind), artifact.key, c.bundleHash)
  }

  /** All of a bundle's artifacts, one after the other. */
  ghost predicate AllImported(before: seq<Artifact>, images: seq<Artifact>, artifacts: seq<Artifact>, c: Context) {
    && |images| == |artifacts|
    && forall i {:trigger images[i]} :: 0 <= i < |images| ==>
         ImportedInto(before + images[..i], images[i], artifacts[i], c)
  }

  ghost predicate DistinctIds(rows: seq<Artifact>) {
    forall i, j :: 0 <= i < j < |rows| ==> rows[i].id != rows[j].id
  }

  ghost predicate DistinctKeys(rows: seq<Artifact>) {
    forall i, j :: 0 <= i < j < |rows| ==> !UsesKey(rows[j], rows[i].kind, rows[i].key)
  }

  lemma ImportsGrow(before: seq<Artifact>, images: seq<Artifact>, artifacts: seq<Artifact>, k: nat, row: Artifact,
                    c: Context)
    requires k < |artifacts| && AllImported(before, images, artifacts[..k], c)
    requires ImportedInto(before + images, row, artifacts[k], c)
    ensures AllImported(before, images + [row], artifacts[..k + 1], c)
  {
    var longer := images + [row];
    forall i {:trigger longer[i]} | 0 <= i < |longer|
      ensures ImportedInto(before + longer[..i], longer[i], artifacts[..k + 1][i], c)
    {
      if i < |images| {
        assert longer[..i] == images[..i];
        assert ImportedInto(before + images[..i], images[i], artifacts[..k][i], c);
      } else {
        assert longer[..i] == images;
      }
    }
  }

  class ArtifactTable {
    var rows: seq<Artifact>

    constructor (rows: seq<Artifact>)
      ensures this.rows == rows
    {
      this.rows := rows;
    }

    method Insert(artifact: Artifact, c: Context)
      requires Owned(artifact, c.revisions) && artifact.id in c.reserved
      modifies this
      ensures |rows| == |old(rows)| + 1 && rows[..|old(rows)|] == old(rows)
      ensures ImportedInto(old(rows), rows[|old(rows)|], artifact, c)
    {
      var present := set i | 0 <= i < |rows| :: rows[i].id;
      assert forall id :: id in present <==> IdInUse(rows, id);
      var id := AvailableId(present, artifact.id, c.reserved);
      var key, _ := AvailableDerivationKey(KeysOf(rows, artifact.kind), artifact.key, c.bundleHash);
      rows := rows + [artifact.(id := id, key := key, revision := Some(c.revisions[artifact.revision.value]))];
    }

    method Import(artifacts: seq<Artifact>, revisions: map<Id, Id>, bundleHash: Text)
      requires forall i :: 0 <= i < |artifacts| ==> Owned(artifacts[i], revisions)
      modifies this
      ensures |old(rows)| <= |rows| && rows[..|old(rows)|] == old(rows)
      ensures AllImported(old(rows), rows[|old(rows)|..], artifacts, ContextFor(artifacts, revisions, bundleHash))
    {
      ghost var before := rows;
      var c := ContextFor(artifacts, revisions, bundleHash);
      for k := 0 to |artifacts|
        invariant |before| <= |rows| && rows[..|before|] == before
        invariant AllImported(before, rows[|before|..], artifacts[..k], c)
      {
        ghost var images := rows[|before|..];
        assert rows == before + images;
        Insert(artifacts[k], c);
        assert rows[|before|..] == images + [rows[|rows| - 1]];
        ImportsGrow(before, images, artifacts, k, rows[|rows| - 1], c);
      }
      assert artifacts[..|artifacts|] == artifacts;
    }
  }

  /** There is an import of any artifacts into any rows. */
  lemma {:induction false} ImagesExist(before: seq<Artifact>, artifacts: seq<Artifact>, c: Context)
    returns (images: seq<Artifact>)
    requires forall i :: 0 <= i < |artifacts| ==> Owned(artifacts[i], c.revisions)
    ensures AllImported(before, images, artifacts, c)
  {
    images := [];
    if artifacts != [] {
      var n := |artifacts| - 1;
      var earlier := ImagesExist(before, artifacts[..n], c);
      var rows, artifact := before + earlier, artifacts[n];
      var id := artifact.id;
      if IdInUse(rows, id) {
        var used := set i | 0 <= i < |rows| :: rows[i].id;
        id := FreshId(used + c.reserved + {artifact.id});
        assert forall i :: 0 <= i < |rows| ==> rows[i].id in used;
      }
      var row := artifact.(id := id, key := KeyFor(KeysOf(rows, artifact.kind), artifact.key, c.bundleHash),
                           revision := Some(c.revisions[artifact.revision.value]));
      ImportsGrow(before, earlier, artifacts, n, row, c);
      assert artifacts[..n + 1] == artifacts;
      images := earlier + [row];
    }
  }

  lemma FewerImports(before: seq<Artifact>, images: seq<Artifact>, artifacts: seq<Artifact>, n: nat, c: Context)
    requires AllImported(before, images, artifacts, c) && n <= |images|
    ensures AllImported(before, images[..n], artifacts[..n], c)
  {
    var front := images[..n];
    forall i {:trigger front[i]} | 0 <= i < n
      ensures ImportedInto(before + front[..i], front[i], artifacts[..n][i], c)
    {
      assert front[..i] == images[..i];
      assert ImportedInto(before + images[..i], images[i], artifacts[i], c);
    }
  }

  /** The import keeps ids, and derivation keys within a kind, unique. */
  lemma {:induction false} ImportKeepsRowsDistinct(before: seq<Artifact>, images: seq<Artifact>,
                                                   artifacts: seq<Artifact>, c: Context)
    requires AllImported(before, images, artifacts, c)
    ensures DistinctIds(before) ==> DistinctIds(before + images)
    ensures DistinctKeys(before) ==> DistinctKeys(before + images)
    decreases |images|
  {
    if images == [] {
      assert before + images == before;
    } else {
      var n := |images| - 1;
      FewerImports(before, images, artifacts, n, c);
      ImportKeepsRowsDistinct(before, images[..n], artifacts[..n], c);
      assert before + images == before + images[..n] + [images[n]];
      assert ImportedInto(before + images[..n], images[n], artifacts[n], c);
      NewRowDiffers(before + images[..n], images[n], artifacts[n], c);
    }
  }

  lemma NewRowDiffers(rows: seq<Artifact>, row: Artifact, artifact: Artifact, c: Context)
    requires ImportedInto(rows, row, artifact, c)
    ensures forall i :: 0 <= i < |rows| ==> rows[i].id != row.id && !UsesKey(rows[i], row.kind, row.key)
  {
    KeysOfAreInUse(rows, row.kind, row.key);
  }

  // ----- what is kept, told from the rows there were and the bundle

  /** The keys of each kind after an import, computed from what there was and the bundle alone. */
  ghost function KeysAfter(before: seq<Artifact>, artifacts: seq<Artifact>, bundleHash: Text, kind: nat): set<Text> {
    if artifacts == [] then KeysOf(before, kind)
    else
      var front, last := artifacts[..|artifacts| - 1], artifacts[|artifacts| - 1];
      var used := KeysAfter(before, front, bundleHash, kind);
      if last.kind == kind then used + {KeyFor(used, last.key, bundleHash)} else used
  }

  /** The i-th artifact finds its key free: no row has it, and no earlier artifact was given it. */
  ghost predicate KeyStays(before: seq<Artifact>, artifacts: seq<Artifact>, bundleHash: Text, i: nat)
    requires i < |artifacts|
  {
    artifacts[i].key !in KeysAfter(before, artifacts[..i], bundleHash, artifacts[i].kind)
  }

  lemma KeysOfOneMore(rows: seq<Artifact>, row: Artifact, kind: nat)
    ensures KeysOf(rows + [row], kind) == KeysOf(rows, kind) + if row.kind == kind then {row.key} else {}
  {
    var longer := rows + [row];
    assert longer[|rows|] == row;
    forall key ensures key in KeysOf(longer, kind) <==>
                       key in KeysOf(rows, kind) || (row.kind == kind && key == row.key)
    {
      KeysOfAreInUse(rows, kind, key);
      KeysOfAreInUse(longer, kind, key);
      if KeyInUse(rows, kind, key) {
        var i :| 0 <= i < |rows| && UsesKey(rows[i], kind, key);
        assert UsesKey(longer[i], kind, key);
      }
      if row.kind == kind && key == row.key { assert UsesKey(longer[|rows|], kind, key); }
    }
  }

  lemma {:induction false} KeysAfterImport(before: seq<Artifact>, images: seq<Artifact>, artifacts: seq<Artifact>,
                                           c: Context, kind: nat)
    requires AllImported(before, images, artifacts, c)
    ensures KeysOf(before + images, kind) == KeysAfter(before, artifacts, c.bundleHash, kind)
    decreases |images|
  {
    if images == [] {
      assert before + images == before;
    } else {
      var n := |images| - 1;
      FewerImports(before, images, artifacts, n, c);
      KeysAfterImport(before, images[..n], artifacts[..n], c, kind);
      assert before + images == before + images[..n] + [images[n]];
      assert ImportedInto(before + images[..n], images[n], artifacts[n], c);
      KeysOfOneMore(before + images[..n], images[n], kind);
    }
  }

  /** An artifact keeps its key exactly when it finds it free. */
  lemma KeyStaysExactly(before: seq<Artifact>, images: seq<Artifact>, artifacts: seq<Artifact>, c: Context, i: nat)
    requires AllImported(before, images, artifacts, c) && i < |artifacts|
    ensures images[i].key == artifacts[i].key <==> KeyStays(before, artifacts, c.bundleHash, i)
  {
    FewerImports(before, images, artifacts, i, c);
    KeysAfterImport(before, images[..i], artifacts[..i], c, artifacts[i].kind);
    assert ImportedInto(before + images[..i], images[i], artifacts[i], c);
  }

  /** And its id exactly when no row had it: made-up ids are no artifact's. */
  lemma IdStaysExactly(before: seq<Artifact>, images: seq<Artifact>, artifacts: seq<Artifact>, c: Context, i: nat)
    requires AllImported(before, images, artifacts, c) && DistinctIds(artifacts) && Reserved(artifacts) <= c.reserved
    requires i < |artifacts|
    ensures images[i].id == artifacts[i].id <==> !IdInUse(before, artifacts[i].id)
  {
    var rows, id := before + images[..i], artifacts[i].id;
    assert ImportedInto(rows, images[i], artifacts[i], c);
    forall j | 0 <= j < i ensures images[j].id != id {
      assert ImportedInto(before + images[..j], images[j], artifacts[j], c);
      assert id in Reserved(artifacts);
    }
    if n :| 0 <= n < |before| && before[n].id == id {
      assert rows[n].id == id;
    }
    assert forall n :: |before| <= n < |rows| ==> rows[n] == images[n - |before|];
  }

  /** Into an empty table all keys are kept exactly when no two artifacts of one kind share one. */
  lemma EmptyTableKeepsKeysExactly(artifacts: seq<Artifact>, bundleHash: Text)
    ensures (forall i: nat :: i < |artifacts| ==> KeyStays([], artifacts, bundleHash, i)) <==> DistinctKeys(artifacts)
  {
    if DistinctKeys(artifacts) {
      forall i: nat | i < |artifacts| ensures KeyStays([], artifacts, bundleHash, i) {
        DistinctKeysStay(artifacts[..i], bundleHash, artifacts[i].kind);
        KeysOfAreInUse(artifacts[..i], artifacts[i].kind, artifacts[i].key);
      }
    } else {
      var i, j :| 0 <= i < j < |artifacts| && UsesKey(artifacts[j], artifacts[i].kind, artifacts[i].key);
      SharedKeyIsTaken(artifacts, bundleHash, i, j);
    }
  }

  lemma {:induction false} DistinctKeysStay(artifacts: seq<Artifact>, bundleHash: Text, kind: nat)
    requires DistinctKeys(artifacts)
    ensures KeysAfter([], artifacts, bundleHash, kind) == KeysOf(artifacts, kind)
  {
    if artifacts != [] {
      var front, last := artifacts[..|artifacts| - 1], artifacts[|artifacts| - 1];
      DistinctKeysStay(front, bundleHash, kind);
      assert artifacts == front + [last];
      KeysOfOneMore(front, last, kind);
      KeysOfAreInUse(front, kind, last.key);
    }
  }

  lemma {:induction false} KeysOnlyGrow(before: seq<Artifact>, artifacts: seq<Artifact>, bundleHash: Text, kind: nat,
                                        n: nat)
    requires n <= |artifacts|
    ensures KeysAfter(before, artifacts[..n], bundleHash, kind) <= KeysAfter(before, artifacts, bundleHash, kind)
    decreases |artifacts|
  {
    if n < |artifacts| {
      var front := artifacts[..|artifacts| - 1];
      KeysOnlyGrow(before, front, bundleHash, kind, n);
      assert front[..n] == artifacts[..n];
    } else {
      assert artifacts[..n] == artifacts;
    }
  }

  /** Of two artifacts with one kind and key the later one never finds its key free. */
  lemma SharedKeyIsTaken(artifacts: seq<Artifact>, bundleHash: Text, i: nat, j: nat)
    requires i < j < |artifacts| && UsesKey(artifacts[j], artifacts[i].kind, artifacts[i].key)
    ensures !KeyStays([], artifacts, bundleHash, j)
  {
    var upTo := artifacts[..i + 1];
    assert upTo[..|upTo| - 1] == artifacts[..i];
    KeysOnlyGrow([], artifacts[..j], bundleHash, artifacts[j].kind, i + 1);
    assert artifacts[..j][..i + 1] == upTo;
  }

  // ----- the rows of one revision

  function OfRevision(rows: seq<Artifact>, revision: Id): seq<Artifact> {
    if rows == [] then []
    else
      var front := OfRevision(rows[..|rows| - 1], revision);
      if rows[|rows| - 1].revision == Some(revision) then front + [rows[|rows| - 1]] else front
  }

  lemma {:induction false} OfRevisionAppend(a: seq<Artifact>, b: seq<Artifact>, revision: Id)
    ensures OfRevision(a + b, revision) == OfRevision(a, revision) + OfRevision(b, revision)
    decreases |b|
  {
    if b == [] {
      assert a + b == a;
    } else {
      assert (a + b)[..|a + b| - 1] == a + b[..|b| - 1];
      OfRevisionAppend(a, b[..|b| - 1], revision);
    }
  }

  lemma {:induction false} OfRevisionNone(rows: seq<Artifact>, revision: Id)
    requires forall i :: 0 <= i < |rows| ==> rows[i].revision != Some(revision)
    ensures OfRevision(rows, revision) == []
  {
    if rows != [] {
      OfRevisionNone(rows[..|rows| - 1], revision);
    }
  }

  lemma {:induction false} OfRevisionIsPart(rows: seq<Artifact>, revision: Id)
    ensures forall x :: x in OfRevision(rows, revision) <==> x in rows && x.revision == Some(revision)
  {
    if rows != [] {
      OfRevisionIsPart(rows[..|rows| - 1], revision);
      assert rows == rows[..|rows| - 1] + [rows[|rows| - 1]];
    }
  }

  lemma {:induction false} OfRevisionKeepsIdsDistinct(rows: seq<Artifact>, revision: Id)
    requires DistinctIds(rows)
    ensures DistinctIds(OfRevision(rows, revision))
  {
    if rows != [] {
      var front := rows[..|rows| - 1];
      OfRevisionKeepsIdsDistinct(front, revision);
      OfRevisionIsPart(front, revision);
      forall x | x in OfRevision(front, revision) ensures x.id != rows[|rows| - 1].id {
        assert x in front;
      }
    }
  }

  /** The k-th artifact of a revision is the i-th of the bundle, and the k-th row is its image. */
  ghost predicate PairedAt(images: seq<Artifact>, artifacts: seq<Artifact>, rows: seq<Artifact>,
                           originals: seq<Artifact>, k: nat, i: nat) {
    && i < |artifacts| && i < |images| && k < |originals| && k < |rows|
    && originals[k] == artifacts[i] && rows[k] == images[i]
  }

  ghost predicate HasPair(images: seq<Artifact>, artifacts: seq<Artifact>, rows: seq<Artifact>,
                          originals: seq<Artifact>, k: nat) {
    exists i: nat :: PairedAt(images, artifacts, rows, originals, k, i)
  }

  /** The imported revision owns exactly the images of its artifacts, in their order. */
  ghost predicate Paired(images: seq<Artifact>, artifacts: seq<Artifact>, rows: seq<Artifact>,
                         originals: seq<Artifact>) {
    && |rows| == |originals|
    && (forall k: nat {:trigger HasPair(images, artifacts, rows, originals, k)} ::
          k < |originals| ==> HasPair(images, artifacts, rows, originals, k))
  }

  lemma {:induction false} RevisionOwnsItsImages(images: seq<Artifact>, artifacts: seq<Artifact>,
                                                 revisions: map<Id, Id>, revision: Id)
    requires |images| == |artifacts| && Injective(revisions) && revision in revisions
    requires forall i :: 0 <= i < |images| ==> ImageOf(images[i], artifacts[i], revisions)
    ensures Paired(images, artifacts, OfRevision(images, revisions[revision]), OfRevision(artifacts, revision))
    decreases |images|
  {
    if images != [] {
      var n := |images| - 1;
      RevisionOwnsItsImages(images[..n], artifacts[..n], revisions, revision);
      assert ImageOf(images[n], artifacts[n], revisions);
      var fewer, kept := OfRevision(images[..n], revisions[revision]), OfRevision(artifacts[..n], revision);
      var rows, originals := OfRevision(images, revisions[revision]), OfRevision(artifacts, revision);
      forall k: nat {:trigger HasPair(images, artifacts, rows, originals, k)} | k < |originals|
        ensures HasPair(images, artifacts, rows, originals, k)
      {
        if k < |kept| {
          assert HasPair(images[..n], artifacts[..n], fewer, kept, k);
          var i: nat :| PairedAt(images[..n], artifacts[..n], fewer, kept, k, i);
          assert PairedAt(images, artifacts, rows, originals, k, i);
        } else {
          assert PairedAt(images, artifacts, rows, originals, k, n);
        }
      }
    }
  }

  /** Every artifact of the revision has its place among the rows. */
  lemma {:induction false} PlaceOf(images: seq<Artifact>, artifacts: seq<Artifact>, revisions: map<Id, Id>,
                                   revision: Id, i: nat) returns (k: nat)
    requires |images| == |artifacts| && Injective(revisions) && revision in revisions
    requires forall n :: 0 <= n < |images| ==> ImageOf(images[n], artifacts[n], revisions)
    requires i < |artifacts| && artifacts[i].revision == Some(revision)
    ensures PairedAt(images, artifacts, OfRevision(images, revisions[revision]), OfRevision(artifacts, revision), k, i)
    decreases |images|
  {
    var n := |images| - 1;
    assert ImageOf(images[n], artifacts[n], revisions);
    RevisionOwnsItsImages(images[..n], artifacts[..n], revisions, revision);
    if i == n {
      k := |OfRevision(artifacts[..n], revision)|;
    } else {
      k := PlaceOf(images[..n], artifacts[..n], revisions, revision, i);
    }
  }

  // ----- ORDER BY created_at, id

  predicate Earlier(a: Artifact, b: Artifact) {
    a.createdAt < b.createdAt || (a.createdAt == b.createdAt && a.id < b.id)
  }

  lemma AgeOrders(rows: seq<Artifact>)
    requires DistinctIds(rows)
    ensures Ordering(rows, Earlier)
  {
  }
}

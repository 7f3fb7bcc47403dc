/**
The rows of a workspace database that name stored files, and the query by which a garbage collection
learns of them: `_referenced_blobs` (src/image23mf/workspace_health.py:492-556, 624-640).
*/
module WorkspaceRecords {
  import opened Wrappers

  /** The managed namespaces in the order of their names, and every path outside them. */
  datatype Namespace = Artifacts | Assets | Cache | Temp | Unmanaged

  datatype Path = Path(namespace: Namespace, name: nat)

  /** What a row says of a stored file. */
  datatype Blob = Blob(path: Path, digest: nat, size: nat, mediaType: nat, extension: nat)

  /** A generated alternative of a prompted edit keeps its changed mask and a picture of it. */
  datatype Alternative = Alternative(changedMask: Blob, changedMaskPreview: Blob)

  datatype Records = Records(
    assets: seq<Blob>,
    artifacts: seq<Blob>,
    calibrationArtifactMembers: seq<Blob>,
    calibrationRunMembers: seq<Blob>,
    calibrationDraftMembers: seq<Blob>,
    calibrationRunBundles: seq<Blob>,
    selectionMasks: seq<Blob>,        // of prompted edit sessions
    alternatives: seq<Alternative>)   // of prompted edit sessions

  function Paths(rows: seq<Blob>): set<Path> {
    set i | 0 <= i < |rows| :: rows[i].path
  }

  lemma PathsAppend(a: seq<Blob>, b: seq<Blob>)
    ensures Paths(a + b) == Paths(a) + Paths(b)
  {
    forall path ensures path in Paths(a + b) <==> path in Paths(a) + Paths(b) {
      if path in Paths(a) {
        var i :| 0 <= i < |a| && a[i].path == path;
        assert (a + b)[i].path == path;
      }
      if path in Paths(b) {
        var i :| 0 <= i < |b| && b[i].path == path;
        assert (a + b)[|a| + i].path == path;
      }
    }
  }

  /** The rows that the collection asks the database for. */
  function QueriedRows(records: Records): seq<Blob> {
    records.assets + records.artifacts + records.calibrationArtifactMembers + records.calibrationRunMembers
    + records.calibrationDraftMembers + records.calibrationRunBundles
  }

  function QueriedPaths(records: Records): set<Path> {
    Paths(QueriedRows(records))
  }

  /** The paths that only the tables of prompted edits name. */
  function PromptedPaths(records: Records): set<Path> {
    Paths(records.selectionMasks)
    + (set i | 0 <= i < |records.alternatives| :: records.alternatives[i].changedMask.path)
    + (set i | 0 <= i < |records.alternatives| :: records.alternatives[i].changedMaskPreview.path)
  }

  /** Every path that some row of the database names. */
  function NamedPaths(records: Records): set<Path> {
    QueriedPaths(records) + PromptedPaths(records)
  }

  ghost predicate SomeRowNames(rows: seq<Blob>, path: Path) {
    exists row :: row in rows && row.path == path
  }

  lemma PathsAreNamed(rows: seq<Blob>, path: Path)
    ensures path in Paths(rows) <==> SomeRowNames(rows, path)
  {
    if SomeRowNames(rows, path) {
      var row :| row in rows && row.path == path;
      var i :| 0 <= i < |rows| && rows[i] == row;
    }
  }

  /** Six tables are asked for the files their rows name. */
  lemma QueriedExactly(records: Records, path: Path)
    ensures path in QueriedPaths(records) <==>
              || SomeRowNames(records.assets, path) || SomeRowNames(records.artifacts, path)
              || SomeRowNames(records.calibrationArtifactMembers, path)
              || SomeRowNames(records.calibrationRunMembers, path)
              || SomeRowNames(records.calibrationDraftMembers, path)
              || SomeRowNames(records.calibrationRunBundles, path)
  {
    PathsAreNamed(QueriedRows(records), path);
    assert forall row :: row in QueriedRows(records) <==>
             || row in records.assets || row in records.artifacts || row in records.calibrationArtifactMembers
             || row in records.calibrationRunMembers || row in records.calibrationDraftMembers
             || row in records.calibrationRunBundles;
  }

  /** The masks of edit sessions and both files of their alternatives are not asked for. */
  lemma PromptedExactly(records: Records, path: Path)
    ensures path in PromptedPaths(records) <==>
              || SomeRowNames(records.selectionMasks, path)
              || exists alternative :: alternative in records.alternatives
                   && (alternative.changedMask.path == path || alternative.changedMaskPreview.path == path)
  {
    PathsAreNamed(records.selectionMasks, path);
    if alternative :| alternative in records.alternatives
                      && (alternative.changedMask.path == path || alternative.changedMaskPreview.path == path) {
      var i :| 0 <= i < |records.alternatives| && records.alternatives[i] == alternative;
    }
  }

  /** Where every writer of rows puts their files: no row names a cache or a temporary file. */
  predicate BlobsAreStored(records: Records) {
    forall path :: path in NamedPaths(records) ==> path.namespace.Assets? || path.namespace.Artifacts?
  }

  predicate AssetPathsUnique(records: Records) {
    forall i, j :: 0 <= i < j < |records.assets| ==> records.assets[i].path != records.assets[j].path
  }

  /** The rows agree on what is stored at a path, or two of them do not and no file can satisfy both. */
  ghost predicate Agrees(rows: seq<Blob>, path: Path, blob: Option<Blob>) {
    match blob
    case Some(b) => b in rows && forall row :: row in rows && row.path == path ==> row == b
    case None => exists a, b :: a in rows && b in rows && a.path == b.path == path && a != b
  }

  ghost predicate Collected(rows: seq<Blob>, blobs: map<Path, Option<Blob>>) {
    && blobs.Keys == Paths(rows)
    && forall path {:trigger Agrees(rows, path, blobs[path])} :: path in blobs ==> Agrees(rows, path, blobs[path])
  }

  /** One table's rows, each compared with what is already known of its path. */
  method RecordAll(ghost seen: seq<Blob>, known: map<Path, Option<Blob>>, rows: seq<Blob>)
    returns (blobs: map<Path, Option<Blob>>)
    requires Collected(seen, known)
    ensures Collected(seen + rows, blobs)
  {
    blobs := known;
    assert seen + rows[..0] == seen;
    for k := 0 to |rows|
      invariant Collected(seen + rows[..k], blobs)
    {
      var row := rows[k];
      var blob := if row.path in blobs && blobs[row.path] != Some(row) then None else Some(row);
      OneMoreRow(seen + rows[..k], blobs, row, blob);
      assert seen + rows[..k + 1] == seen + rows[..k] + [row];
      blobs := blobs[row.path := blob];
    }
    assert rows[..|rows|] == rows;
  }

  lemma OneMoreRow(seen: seq<Blob>, blobs: map<Path, Option<Blob>>, row: Blob, blob: Option<Blob>)
    requires Collected(seen, blobs)
    requires blob == if row.path in blobs && blobs[row.path] != Some(row) then None else Some(row)
    ensures Collected(seen + [row], blobs[row.path := blob])
  {
    PathsAppend(seen, [row]);
    assert [row][0].path in Paths([row]) && Paths([row]) == {row.path};
    var more, after := seen + [row], blobs[row.path := blob];
    forall path {:trigger Agrees(more, path, after[path])} | path in after ensures Agrees(more, path, after[path]) {
      if path in blobs {
        assert Agrees(seen, path, blobs[path]);
        KnownRows(seen, path, blobs[path], row);
      } else {
        assert forall other :: other in seen ==> other.path in Paths(seen);
      }
    }
  }

  lemma KnownRows(seen: seq<Blob>, path: Path, known: Option<Blob>, row: Blob)
    requires Agrees(seen, path, known) && path in Paths(seen)
    ensures row.path != path ==> Agrees(seen + [row], path, known)
    ensures row.path == path ==> Agrees(seen + [row], path, if known != Some(row) then None else Some(row))
  {
    if known.None? {
      var a, b :| a in seen && b in seen && a.path == b.path == path && a != b;
      assert a in seen + [row] && b in seen + [row];
    } else {
      var i :| 0 <= i < |seen| && seen[i].path == path;
      assert seen[i] in seen && seen[i] == known.value;
      assert known.value in seen + [row] && row in seen + [row];
    }
  }

  /** The first loop takes every asset's word; paths of assets are unique in their table. */
  method RecordAssets(rows: seq<Blob>) returns (blobs: map<Path, Option<Blob>>)
    requires forall i, j :: 0 <= i < j < |rows| ==> rows[i].path != rows[j].path
    ensures Collected(rows, blobs)
  {
    blobs := map[];
    for k := 0 to |rows|
      invariant Collected(rows[..k], blobs)
    {
      assert rows[..k + 1] == rows[..k] + [rows[k]];
      OneMoreRow(rows[..k], blobs, rows[k], Some(rows[k]));
      blobs := blobs[rows[k].path := Some(rows[k])];
    }
    assert rows[..|rows|] == rows;
  }

  /**
  What the collection knows: every path of the queried tables, with what is stored there when all rows
  agree on it. Nothing of the tables of prompted edits.
  */
  method ReferencedBlobs(records: Records) returns (blobs: map<Path, Option<Blob>>)
    requires AssetPathsUnique(records)
    ensures blobs.Keys == QueriedPaths(records)
    ensures Collected(QueriedRows(records), blobs)
  {
    blobs := RecordAssets(records.assets);
    ghost var seen := records.assets;
    blobs := RecordAll(seen, blobs, records.artifacts);
    seen := seen + records.artifacts;
    blobs := RecordAll(seen, blobs, records.calibrationArtifactMembers);
    seen := seen + records.calibrationArtifactMembers;
    blobs := RecordAll(seen, blobs, records.calibrationRunMembers);
    seen := seen + records.calibrationRunMembers;
    blobs := RecordAll(seen, blobs, records.calibrationDraftMembers);
    seen := seen + records.calibrationDraftMembers;
    blobs := RecordAll(seen, blobs, records.calibrationRunBundles);
  }
}

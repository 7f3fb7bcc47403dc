/**
What a validated bundle is known to hold: every id that a record names belongs to a record of the
bundle, and every publication's evidence is that of its revision (src/image23mf/bundles.py:278-525).
*/
module ValidContents {
  import opened Wrappers
  import opened Identifiers
  import opened Columns
  import opened Sorting
  import opened SharedRecords
  import opened ArtifactImport
  import opened Evidence
  import opened History
  import opened HistoryValidation
  import opened Renaming
  import opened HistoryImport
  import opened ProjectManifest
  import opened ProjectExport
  import opened ProjectRestore
  import RevisionOrder

  // ----- records

  /** A configuration that loads, and names only filaments that are there. */
  ghost predicate Closed(schema: Schema, config: Config, filaments: set<Id>) {
    && schema.load(config.body).Some? && schema.sourceId(config.source) && 2 <= |config.colors| <= 8
    && forall i :: 0 <= i < |config.colors| && config.colors[i].filament.Some? ==>
         config.colors[i].filament.value in filaments
  }

  lemma RevisionsAreClosed(schema: Schema, c: Contents, id: Id)
    requires ContentsOk(schema, c) && id in c.revisions
    ensures var r := c.revisions[id];
            && r.source in c.assets && r.config.source == r.source && Closed(schema, r.config, c.filaments.Keys)
            && (r.parent.Some? && r.parent.value != 0 ==> r.parent.value in c.revisions)
            && r.fingerprint.source == r.config.source && r.fingerprint.colors == r.config.colors
            && Some(r.fingerprint.body) == schema.load(r.config.body)
  {
    assert RevisionOk(schema, NamesIn(c), c.revisions[id]);
  }

  lemma OwnersAreClosed(schema: Schema, c: Contents)
    requires ContentsOk(schema, c)
    ensures c.project.active.Some? && c.project.active.value != 0 ==> c.project.active.value in c.revisions
    ensures forall a :: a in c.artifacts ==> a.revision.Some? && a.revision.value in c.revisions
    ensures forall o :: o in c.operations ==> o.revision in c.revisions
    ensures forall id :: id in c.publications ==>
              c.publications[id].revision in c.revisions && c.publications[id].draftGeneration > 0
  {
    forall id | id in c.publications
      ensures c.publications[id].revision in c.revisions && c.publications[id].draftGeneration > 0
    {
      assert PublicationOk(c, c.publications[id]);
    }
  }

  // ----- the history

  /** A lineage, a state and a node name only what is there, and agree with each other. */
  lemma HistoryIsClosed(schema: Schema, c: Contents, id: Id, sha: Hash)
    requires ContentsOk(schema, c)
    ensures var h := c.history;
            id in h.lineages ==>
              && h.lineages[id].source in c.assets
              && (h.lineages[id].base.Some? ==> h.lineages[id].base.value in c.revisions)
    ensures var h := c.history;
            sha in h.states ==>
              && var s := h.states[sha];
              && s.schemaVersion > 0 && s.lineage in h.lineages
              && s.source == h.lineages[s.lineage].source && s.base == h.lineages[s.lineage].base
              && s.config.source == s.source && Closed(schema, s.config, c.filaments.Keys)
              && Readable(s.operations) && s.byteSize == schema.size(s.config, Normalised(s.operations))
              && sha == Hash(s.lineage, s.schemaVersion, s.base, s.source, s.config, Normalised(s.operations))
              && exists x :: x in h.nodes && h.nodes[x].state == sha
    ensures var h := c.history;
            id in h.nodes ==>
              && var n := h.nodes[id];
              && n.lineage in h.lineages && n.state in h.states && h.states[n.state].lineage == n.lineage
              && (n.checkpoint.Some? ==> n.checkpoint.value in c.revisions)
              && (n.parent.None? ==> n.depth == 0)
              && (n.parent.Some? ==>
                    && n.parent.value in h.nodes && h.nodes[n.parent.value].lineage == n.lineage
                    && h.nodes[n.parent.value].depth + 1 == n.depth)
              && (n.request.Some? ==>
                    forall other :: other in h.nodes && h.nodes[other].request == n.request ==> other == id)
  {
    var h, names := c.history, NamesIn(c);
    if id in h.lineages { assert LineageOk(h.lineages[id], names); }
    if sha in h.states { StatesAreClosed(schema, names, h, sha); }
    if id in h.nodes { assert NodeOk(h, names, h.nodes[id]); }
  }

  lemma StatesAreClosed(schema: Schema, names: Names, h: History, sha: Hash)
    requires GraphOk(schema, names, h) && sha in h.states
    ensures StateOk(schema, names, h.lineages, sha, h.states[sha]) && Referenced(h.nodes, sha)
  {
  }

  /** There is a draft exactly when there is a head, and the draft is the state at the cursor. */
  lemma DraftIsAtTheCursor(schema: Schema, c: Contents)
    requires ContentsOk(schema, c)
    ensures var h := c.history;
            && (h.draft.Some? <==> h.head.Some?)
            && (h.head.Some? ==>
                  && var head, draft := h.head.value, h.draft.value;
                  && head.lineage in h.lineages && head.cursor in h.nodes && h.nodes[head.cursor].state in h.states
                  && var state := h.states[h.nodes[head.cursor].state];
                  && draft.schemaVersion == state.schemaVersion && draft.base == state.base
                  && draft.config == state.config && draft.operations == state.operations)
    ensures var h := c.history;
            h.head.Some? ==>
              forall x :: x in {h.head.value.checkpoint, h.head.value.floor, h.head.value.cursor, h.head.value.tip} ==>
                x in h.nodes && h.nodes[x].lineage == h.head.value.lineage
  {
  }

  // ----- evidence

  /** The commands that are replayed: those of all operations but palette edits, in their order. */
  lemma {:induction false} CommandsAreSelected(operations: seq<RegionOperation>, more: seq<RegionOperation>)
    ensures Commands(operations + more) == Commands(operations) + Commands(more)
    decreases |more|
  {
    if more == [] {
      assert operations + more == operations;
    } else {
      CommandsAreSelected(operations, more[..|more| - 1]);
      assert (operations + more)[..|operations + more| - 1] == operations + more[..|more| - 1];
    }
  }

  lemma OneCommand(operation: RegionOperation)
    ensures Commands([operation]) == if operation.paletteEdit then [] else [operation.command]
  {
    assert [operation][..0] == [];
  }

  lemma {:induction false} OperationsOfOneRevision(operations: seq<RegionOperation>, revision: Id, o: RegionOperation)
    ensures multiset(OfRevisionOnly(operations, revision))[o]
            == if o.revision == revision then multiset(operations)[o] else 0
  {
    if operations != [] {
      OperationsOfOneRevision(operations[..|operations| - 1], revision, o);
      assert operations == operations[..|operations| - 1] + [operations[|operations| - 1]];
    }
  }

  /** They are replayed for the revision's own operations, each as often as it is there, by sequence. */
  lemma OperationsAreReplayedInOrder(operations: seq<RegionOperation>, revision: Id)
    ensures var replayed := OperationsOf(operations, revision);
            && (forall o {:trigger multiset(replayed)[o]} ::
                  multiset(replayed)[o] == if o.revision == revision then multiset(operations)[o] else 0)
            && forall i, j :: 0 <= i < j < |replayed| ==> replayed[i].sequence <= replayed[j].sequence
  {
    var own := OfRevisionOnly(operations, revision);
    SortedIsAPermutation(own, SequenceBefore);
    forall o: RegionOperation
      ensures multiset(own)[o] == if o.revision == revision then multiset(operations)[o] else 0
    {
      OperationsOfOneRevision(operations, revision, o);
    }
    SortedIsWeaklyInOrder(own, SequenceBefore, (a: RegionOperation, b: RegionOperation) => a.sequence <= b.sequence);
  }

  /** What the manifest of fresh evidence lists of an artifact. */
  ghost predicate Lists(item: Item, artifact: Artifact) {
    && (artifact.sourceId.Some? ==> item.source == artifact.sourceId.value)
    && (artifact.sourceId.None? ==> item.source == artifact.id)
    && item.kind == artifact.kind && item.digest == artifact.digest && item.key == artifact.key
    && item.mediaType == artifact.mediaType && item.size == artifact.size
  }

  ghost predicate Supported(p: Publication, config: Config, operations: seq<RegionOperation>,
                            artifacts: seq<Artifact>) {
    && p.editorSequence.config == config && p.editorSequence.commands == Commands(operations)
    && (p.status == Fresh ==>
          && p.count == |artifacts| && p.manifest.Some? && |p.manifest.value| == |artifacts|
          && forall i :: 0 <= i < |artifacts| ==> Lists(p.manifest.value[i], artifacts[i]))
    && (p.status != Fresh ==> p.count == 0 && p.manifest.None?)
  }

  lemma EvidenceSupportsExactly(p: Publication, config: Config, operations: seq<RegionOperation>,
                                artifacts: seq<Artifact>)
    ensures EvidenceHolds(p, config, operations, artifacts) <==> Supported(p, config, operations, artifacts)
  {
    if Supported(p, config, operations, artifacts) && p.status == Fresh {
      forall i | 0 <= i < |artifacts| ensures p.manifest.value[i] == ItemOf(artifacts[i]) {
        assert Lists(p.manifest.value[i], artifacts[i]);
      }
      assert p.manifest.value == ManifestOf(artifacts);
    }
  }

  /** A publication of a validated bundle rests on its revision's fingerprint, operations and artifacts. */
  lemma PublicationsAreSupported(schema: Schema, c: Contents, id: Id)
    requires ContentsOk(schema, c) && id in c.publications
    ensures var p := c.publications[id];
            && p.revision in c.revisions
            && Supported(p, c.revisions[p.revision].fingerprint, OperationsOf(c.operations, p.revision),
                         OfRevision(c.artifacts, p.revision))
  {
    var p := c.publications[id];
    assert PublicationOk(c, p);
    EvidenceSupportsExactly(p, c.revisions[p.revision].fingerprint, OperationsOf(c.operations, p.revision),
                            OfRevision(c.artifacts, p.revision));
  }

  // ----- what the columns take

  /** A text that `length(trim(name)) > 0` accepts, told by its first character that is not a space. */
  ghost predicate NameIsTaken(name: string) {
    exists i :: 0 <= i < |name| && name[i] != ' ' && name[i] != '\0' && forall j :: 0 <= j < i ==> name[j] == ' '
  }

  ghost predicate ColorIsTaken(color: string) {
    && |color| >= 2 && color[0] == '#'
    && ('0' <= color[1] <= '9' || 'a' <= color[1] <= 'f' || 'A' <= color[1] <= 'F')
  }

  ghost predicate Int64(x: int) {
    -9223372036854775808 <= x <= 9223372036854775807
  }

  /** What the columns ask of the new filaments and assets and of the project. */
  lemma RecordColumnsFitExactly(m: Manifest, t: Tables)
    ensures RecordColumnsFit(m, t) <==>
              && (forall i: nat {:trigger IsNew(t.filaments, m.filaments, i)} ::
                    i < |m.filaments| && IsNew(t.filaments, m.filaments, i) ==> ColorIsTaken(m.filaments[i].key.color))
              && (forall i: nat {:trigger IsNew(t.assets, m.assets, i)} ::
                    i < |m.assets| && IsNew(t.assets, m.assets, i) ==>
                      var d := m.assets[i].details;
                      && (d.width.Some? ==> 0 < d.width.value <= 9223372036854775807)
                      && (d.height.Some? ==> 0 < d.height.value <= 9223372036854775807))
              && NameIsTaken(if m.project.id in t.projects then m.project.name + " (Imported)" else m.project.name)
  {
    var name := if m.project.id in t.projects then m.project.name + " (Imported)" else m.project.name;
    assert NameFits(name) <==> NameIsTaken(name);
    assert forall filament: Filament {:trigger FilamentFits(filament)} ::
             FilamentFits(filament) <==> ColorIsTaken(filament.key.color);
    assert forall asset: Asset {:trigger AssetFits(asset)} :: AssetFits(asset) <==>
             && (asset.details.width.Some? ==> 0 < asset.details.width.value <= 9223372036854775807)
             && (asset.details.height.Some? ==> 0 < asset.details.height.value <= 9223372036854775807);
  }

  /** What they ask of the operations and of the history. */
  lemma RowColumnsFitExactly(operations: seq<RegionOperation>, h: History)
    ensures OperationsFit(operations) <==>
              forall i {:trigger operations[i]} :: 0 <= i < |operations| ==>
                && 0 <= operations[i].sequence <= 9223372036854775807
                && (operations[i].source == "automatic" || operations[i].source == "manual"
                    || operations[i].source == "model")
    ensures HistoryFits(h) <==>
              && (forall sha {:trigger h.states[sha]} :: sha in h.states ==> Int64(h.states[sha].schemaVersion))
              && (forall id {:trigger h.nodes[id]} :: id in h.nodes ==>
                    Int64(h.nodes[id].depth) && Int64(h.nodes[id].schemaVersion))
              && (h.head.Some? ==> Int64(h.head.value.undoLimit))
              && (h.draft.Some? ==> 0 < h.draft.value.generation <= 9223372036854775807)
  {
  }
}

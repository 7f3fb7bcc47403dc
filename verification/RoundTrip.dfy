/**
What comes back of a history: restored with no id renamed and exported again, it is unchanged
exactly when it was in stored form (src/image23mf/bundles.py:687-858, 1663-1785).
*/
module RoundTrip {
  import opened Wrappers
  import opened Identifiers
  import opened History
  import opened HistoryValidation
  import opened Renaming
  import opened RestoreValidity

  predicate Identity(r: Renames) {
    IdentityMap(r.assets) && IdentityMap(r.revisions) && IdentityMap(r.filaments)
    && IdentityMap(r.lineages) && IdentityMap(r.nodes)
  }

  /** Every state's operations are spelled out as the application stores them. */
  ghost predicate OperationsSpelledOut(h: History) {
    forall sha :: sha in h.states ==>
      Readable(h.states[sha].operations) && Stored(Normalised(h.states[sha].operations)) == h.states[sha].operations
  }

  /** The draft carries the schema version of its own configuration, and a fingerprint. */
  ghost predicate DraftCurrent(h: History) {
    h.draft.Some? ==>
      h.draft.value.schemaVersion == h.draft.value.config.body.schemaVersion && h.draft.value.hashed
  }

  lemma IdentityKeepsConfig(r: Renames, config: Config)
    requires Identity(r) && config.source in r.assets
    ensures RenamedConfig(r, config) == config
  {
    var c := RenamedConfig(r, config);
    forall i | 0 <= i < |config.colors| ensures c.colors[i] == config.colors[i] {
    }
    assert c.colors == config.colors;
  }

  lemma IdentityKeepsState(schema: Schema, names: Names, h: History, r: Renames, sha: Hash)
    requires GraphOk(schema, names, h) && Covers(r, names, h) && Identity(r) && sha in h.states
    requires ConfigRewrites(schema, r.assets, h.states[sha].config)
    ensures Rewritable(schema, r, h.states[sha]) && RenamedHash(schema, r, h.states[sha]) == sha
    ensures RenamedState(schema, r, h.states[sha]) == h.states[sha] <==>
      schema.load(h.states[sha].config.body) == Some(h.states[sha].config.body)
      && Stored(Normalised(h.states[sha].operations)) == h.states[sha].operations
  {
    var state := h.states[sha];
    assert StateOk(schema, names, h.lineages, sha, state) && LineageOk(h.lineages[state.lineage], names);
    IdentityKeepsConfig(r, state.config);
  }

  lemma IdentityKeepsGraph(schema: Schema, names: Names, h: History, r: Renames, t: History)
    requires GraphOk(schema, names, h) && Covers(r, names, h) && Identity(r)
    requires LineageImage(r, h, t.lineages) && StateImage(schema, r, h, t.states) && NodeImage(schema, r, h, t.nodes)
    ensures t.lineages == h.lineages && t.nodes == h.nodes && t.states.Keys == h.states.Keys
  {
    forall id | id in h.lineages ensures id in t.lineages && t.lineages[id] == h.lineages[id] {
      assert LineageMapped(r, h, t.lineages, id) && LineageOk(h.lineages[id], names);
    }
    forall id | id in h.nodes ensures id in t.nodes && t.nodes[id] == h.nodes[id] {
      assert NodeMapped(schema, r, h, t.nodes, id) && NodeOk(h, names, h.nodes[id]);
      assert StateMapped(schema, r, h, t.states, h.nodes[id].state);
      IdentityKeepsState(schema, names, h, r, h.nodes[id].state);
    }
    forall sha ensures sha in t.states <==> sha in h.states {
      if sha in h.states {
        assert StateMapped(schema, r, h, t.states, sha);
        IdentityKeepsState(schema, names, h, r, sha);
      } else if sha in t.states {
        assert StateOrigin(schema, r, h, sha);
        var origin :| origin in h.states && Rewritable(schema, r, h.states[origin])
                      && RenamedHash(schema, r, h.states[origin]) == sha;
        IdentityKeepsState(schema, names, h, r, origin);
      }
    }
    assert r.lineages.Values == r.lineages.Keys && r.nodes.Values == r.nodes.Keys;
  }

  lemma StatesComeBack(schema: Schema, names: Names, h: History, r: Renames, t: History)
    requires GraphOk(schema, names, h) && Covers(r, names, h) && Identity(r)
    requires StateImage(schema, r, h, t.states) && t.states.Keys == h.states.Keys
    ensures t.states == h.states <==> ConfigsCanonical(schema, h) && OperationsSpelledOut(h)
  {
    forall sha | sha in h.states
      ensures Readable(h.states[sha].operations) && (t.states[sha] == h.states[sha] <==>
        schema.load(h.states[sha].config.body) == Some(h.states[sha].config.body)
        && Stored(Normalised(h.states[sha].operations)) == h.states[sha].operations)
    {
      assert StateMapped(schema, r, h, t.states, sha);
      IdentityKeepsState(schema, names, h, r, sha);
    }
  }

  /**
  Restored into a database without any of the ids, a history reads as it was exactly when it held
  canonical configurations, spelled-out operations and a draft of the current schema version.
  Whether an export of it validates is another question.
  */
  lemma RestoredHistoryExportsTheSame(schema: Schema, names: Names, h: History, r: Renames, t: History)
    requires Validated(schema, names, h) && Covers(r, names, h) && Identity(r) && Image(schema, r, h, t)
    ensures t == h <==> ConfigsCanonical(schema, h) && OperationsSpelledOut(h) && DraftCurrent(h)
  {
    IdentityKeepsGraph(schema, names, h, r, t);
    StatesComeBack(schema, names, h, r, t);
    assert t.head == h.head;
    if h.draft.Some? {
      var draft := h.draft.value;
      var sha := h.nodes[h.head.value.cursor].state;
      assert StateOk(schema, names, h.lineages, sha, h.states[sha]);
      assert LineageOk(h.lineages[h.states[sha].lineage], names);
      IdentityKeepsConfig(r, draft.config);
      assert t.draft.value == RenamedDraft(schema, r, draft);
      if ConfigsCanonical(schema, h) {
        assert t.draft == h.draft <==> DraftCurrent(h);
      }
    }
  }
}

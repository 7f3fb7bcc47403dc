/**
What an import does to a history: every id goes through a map, every fingerprint is taken
again, configurations are stored in canonical form (src/image23mf/bundles.py:1663-1833).
*/
module Renaming {
  import opened Wrappers
  import opened Identifiers
  import opened History
  import opened HistoryValidation

  datatype Renames = Renames(
    assets: map<Id, Id>,
    revisions: map<Id, Id>,
    filaments: map<Id, Id>,
    lineages: map<Id, Id>,
    nodes: map<Id, Id>)

  // `dict.get` on an optional key.
  function Lookup(m: map<Id, Id>, key: Option<Id>): Option<Id> {
    if key.Some? && key.value in m then Some(m[key.value]) else None
  }

  /** The maps have an entry for every id of the manifest. */
  ghost predicate Covers(r: Renames, names: Names, h: History) {
    && r.assets.Keys == names.assets
    && r.revisions.Keys == names.revisions
    && r.filaments.Keys == names.filaments
    && r.lineages.Keys == h.lineages.Keys
    && r.nodes.Keys == h.nodes.Keys
  }

  function RenamedNames(r: Renames): Names {
    Names(r.assets.Values, r.revisions.Values, r.filaments.Values)
  }

  /** `_rewrite_config`. */
  function RenamedConfig(r: Renames, config: Config): (c: Config)
    requires config.source in r.assets
    ensures c.body == config.body && |c.colors| == |config.colors|
  {
    Config(r.assets[config.source],
           seq(|config.colors|, i requires 0 <= i < |config.colors| =>
             var color := config.colors[i];
             if color.filament.Some? && color.filament.value in r.filaments
             then Color(Some(r.filaments[color.filament.value]), color.swatch) else color),
           config.body)
  }

  /** `_rewrite_config` and then `load_job_config` return: neither finds anything to raise for. */
  predicate ConfigRewrites(schema: Schema, assets: map<Id, Id>, config: Config) {
    && config.source in assets
    && schema.rewritable(config.body)
    && schema.load(config.body).Some?
    && schema.sourceId(assets[config.source])
  }

  /** `load_job_config(...).canonical_json()` of a rewritten configuration. */
  function CanonicalConfig(schema: Schema, config: Config): Config
    requires schema.load(config.body).Some?
  {
    config.(body := schema.load(config.body).value)
  }

  function RenamedLineage(r: Renames, lineage: Lineage): Lineage
    requires lineage.source in r.assets
  {
    Lineage(Lookup(r.revisions, lineage.base), r.assets[lineage.source], lineage.details)
  }

  predicate Rewritable(schema: Schema, r: Renames, state: State) {
    && state.lineage in r.lineages
    && state.source in r.assets
    && ConfigRewrites(schema, r.assets, state.config)
    && Readable(state.operations)
  }

  /** The fingerprint is taken from the rewritten configuration as it came, not as it is stored. */
  function RenamedHash(schema: Schema, r: Renames, state: State): Hash
    requires Rewritable(schema, r, state)
  {
    Hash(r.lineages[state.lineage], state.schemaVersion, Lookup(r.revisions, state.base), r.assets[state.source],
         RenamedConfig(r, state.config), Normalised(state.operations))
  }

  function RenamedState(schema: Schema, r: Renames, state: State): State
    requires Rewritable(schema, r, state)
  {
    var operations := Normalised(state.operations);
    var config := CanonicalConfig(schema, RenamedConfig(r, state.config));
    State(r.lineages[state.lineage], state.schemaVersion, Lookup(r.revisions, state.base), r.assets[state.source],
          config, Stored(operations), schema.size(config, operations), state.details)
  }

  predicate NodeRenamable(schema: Schema, r: Renames, h: History, node: Node) {
    && node.lineage in r.lineages
    && node.state in h.states
    && Rewritable(schema, r, h.states[node.state])
  }

  function RenamedNode(schema: Schema, r: Renames, h: History, node: Node): Node
    requires NodeRenamable(schema, r, h, node)
  {
    Node(r.lineages[node.lineage], Lookup(r.nodes, node.parent), RenamedHash(schema, r, h.states[node.state]),
         node.depth, node.request, node.schemaVersion, Lookup(r.revisions, node.checkpoint), node.createdAt,
         node.details)
  }

  function RenamedHead(r: Renames, head: Head): Head
    requires head.lineage in r.lineages
    requires head.checkpoint in r.nodes && head.floor in r.nodes && head.cursor in r.nodes && head.tip in r.nodes
  {
    Head(r.lineages[head.lineage], r.nodes[head.checkpoint], r.nodes[head.floor], r.nodes[head.cursor],
         r.nodes[head.tip], head.undoLimit, head.details)
  }

  /** The restored draft row: its schema version and its fingerprint come from the loaded configuration. */
  function RenamedDraft(schema: Schema, r: Renames, draft: Draft): Draft
    requires ConfigRewrites(schema, r.assets, draft.config)
  {
    var config := CanonicalConfig(schema, RenamedConfig(r, draft.config));
    Draft(Lookup(r.revisions, draft.base), config.body.schemaVersion, config, draft.operations,
          draft.generation, true, draft.details)
  }

  // ----- the image of a history under a renaming

  ghost predicate LineageMapped(r: Renames, h: History, t: map<Id, Lineage>, id: Id)
    requires id in h.lineages
  {
    && id in r.lineages && h.lineages[id].source in r.assets
    && r.lineages[id] in t && t[r.lineages[id]] == RenamedLineage(r, h.lineages[id])
  }

  ghost predicate LineageImage(r: Renames, h: History, t: map<Id, Lineage>) {
    && (forall id {:trigger LineageMapped(r, h, t, id)} :: id in h.lineages ==> LineageMapped(r, h, t, id))
    && t.Keys == r.lineages.Values
  }

  ghost predicate StateMapped(schema: Schema, r: Renames, h: History, t: map<Hash, State>, sha: Hash)
    requires sha in h.states
  {
    && Rewritable(schema, r, h.states[sha])
    && RenamedHash(schema, r, h.states[sha]) in t
    && t[RenamedHash(schema, r, h.states[sha])] == RenamedState(schema, r, h.states[sha])
  }

  ghost predicate StateOrigin(schema: Schema, r: Renames, h: History, x: Hash) {
    exists sha :: sha in h.states && Rewritable(schema, r, h.states[sha]) && RenamedHash(schema, r, h.states[sha]) == x
  }

  ghost predicate StateImage(schema: Schema, r: Renames, h: History, t: map<Hash, State>) {
    && (forall sha {:trigger StateMapped(schema, r, h, t, sha)} :: sha in h.states ==>
          StateMapped(schema, r, h, t, sha))
    && (forall x {:trigger StateOrigin(schema, r, h, x)} :: x in t ==> StateOrigin(schema, r, h, x))
  }

  ghost predicate NodeMapped(schema: Schema, r: Renames, h: History, t: map<Id, Node>, id: Id)
    requires id in h.nodes
  {
    && id in r.nodes && NodeRenamable(schema, r, h, h.nodes[id])
    && r.nodes[id] in t && t[r.nodes[id]] == RenamedNode(schema, r, h, h.nodes[id])
  }

  ghost predicate NodeImage(schema: Schema, r: Renames, h: History, t: map<Id, Node>) {
    && (forall id {:trigger NodeMapped(schema, r, h, t, id)} :: id in h.nodes ==> NodeMapped(schema, r, h, t, id))
    && t.Keys == r.nodes.Values
  }

  // A value of an id map comes from one of its keys.
  lemma Origin(m: map<Id, Id>, x: Id) returns (id: Id)
    requires x in m.Values
    ensures id in m && m[id] == x
  {
    id :| id in m && m[id] == x;
  }

  ghost predicate HeadImage(r: Renames, h: History, t: Option<Head>) {
    && (h.head.Some? <==> t.Some?)
    && (h.head.Some? ==>
          && h.head.value.lineage in r.lineages && h.head.value.checkpoint in r.nodes && h.head.value.floor in r.nodes
          && h.head.value.cursor in r.nodes && h.head.value.tip in r.nodes
          && t.value == RenamedHead(r, h.head.value))
  }

  ghost predicate DraftImage(schema: Schema, r: Renames, h: History, t: Option<Draft>) {
    && (h.draft.Some? <==> t.Some?)
    && (h.draft.Some? ==>
          && ConfigRewrites(schema, r.assets, h.draft.value.config)
          && t.value == RenamedDraft(schema, r, h.draft.value))
  }

  /** `t` is exactly `h` with every id renamed: nothing missing, nothing added. */
  ghost predicate Image(schema: Schema, r: Renames, h: History, t: History) {
    && LineageImage(r, h, t.lineages)
    && StateImage(schema, r, h, t.states)
    && NodeImage(schema, r, h, t.nodes)
    && HeadImage(r, h, t.head)
    && DraftImage(schema, r, h, t.draft)
  }

  // ----- isomorphism

  // The ids the import hands out are distinct for distinct lineages and distinct nodes.
  ghost predicate Isomorphic(r: Renames) {
    Injective(r.lineages) && Injective(r.nodes)
  }

  // What ancestry depends on: every node of the image has the image of its parent as parent.
  ghost predicate ParentImage(nodes: map<Id, Node>, ids: map<Id, Id>, t: map<Id, Node>) {
    && (forall id :: id in nodes ==> id in ids && ids[id] in t)
    && (forall id :: id in nodes && nodes[id].parent.None? ==> t[ids[id]].parent.None?)
    && (forall id :: id in nodes && nodes[id].parent.Some? ==>
          nodes[id].parent.value in nodes && t[ids[id]].parent == Some(ids[nodes[id].parent.value]))
  }

  lemma NodeImageKeepsParents(schema: Schema, r: Renames, h: History, t: map<Id, Node>)
    requires Rooted(h.nodes) && NodeImage(schema, r, h, t)
    ensures ParentImage(h.nodes, r.nodes, t)
  {
    forall id | id in h.nodes
      ensures id in r.nodes && r.nodes[id] in t && t[r.nodes[id]].parent == Lookup(r.nodes, h.nodes[id].parent)
      ensures h.nodes[id].parent.Some? ==> h.nodes[id].parent.value in h.nodes
    {
      assert NodeMapped(schema, r, h, t, id) && ParentOk(h.nodes, id);
    }
  }

  /** The k-th ancestor of a node's image is the image of its k-th ancestor. */
  lemma {:induction false} UpCommutes(nodes: map<Id, Node>, ids: map<Id, Id>, t: map<Id, Node>, id: Id, k: nat)
    requires ParentImage(nodes, ids, t) && id in nodes
    ensures Up(nodes, id, k).Some? <==> Up(t, ids[id], k).Some?
    ensures Up(nodes, id, k).Some? ==>
      var a := Up(nodes, id, k).value; a in nodes && Up(t, ids[id], k) == Some(ids[a])
    decreases k
  {
    if k > 0 && nodes[id].parent.Some? {
      UpCommutes(nodes, ids, t, nodes[id].parent.value, k - 1);
    }
  }

  /** A renaming keeps and reflects ancestry. */
  lemma AncestryCommutes(nodes: map<Id, Node>, ids: map<Id, Id>, t: map<Id, Node>, a: Id, d: Id)
    requires ParentImage(nodes, ids, t) && Injective(ids) && a in nodes && d in nodes
    ensures Ancestor(nodes, a, d) <==> Ancestor(t, ids[a], ids[d])
  {
    if Ancestor(nodes, a, d) {
      var k: nat :| Up(nodes, d, k) == Some(a);
      UpCommutes(nodes, ids, t, d, k);
      assert Up(t, ids[d], k) == Some(ids[a]);
    }
    if Ancestor(t, ids[a], ids[d]) {
      var k: nat :| Up(t, ids[d], k) == Some(ids[a]);
      UpCommutes(nodes, ids, t, d, k);
      assert Up(nodes, d, k) == Some(a);
    }
  }
}

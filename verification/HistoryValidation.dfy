/**
`BundleManifest._validate_history` and what a history that passes it looks like: one tree per
lineage, a head on one path of it (src/image23mf/bundles.py:390-525).
*/
module HistoryValidation {
  import opened Wrappers
  import opened Identifiers
  import opened History

  predicate FilamentsKnown(config: Config, names: Names) {
    forall i :: 0 <= i < |config.colors| && config.colors[i].filament.Some? ==>
      config.colors[i].filament.value in names.filaments
  }

  predicate LineageOk(lineage: Lineage, names: Names) {
    lineage.source in names.assets && (lineage.base.Some? ==> lineage.base.value in names.revisions)
  }

  predicate StateOk(schema: Schema, names: Names, lineages: map<Id, Lineage>, sha: Hash, state: State) {
    && state.schemaVersion > 0
    && state.lineage in lineages
    && state.source == lineages[state.lineage].source
    && state.base == lineages[state.lineage].base
    && Loads(schema, state.config)
    && state.config.source == state.source
    && FilamentsKnown(state.config, names)
    && Readable(state.operations)
    && var operations := Normalised(state.operations);
    && state.byteSize == schema.size(state.config, operations)
    && sha == Hash(state.lineage, state.schemaVersion, state.base, state.source, state.config, operations)
  }

  predicate NodeOk(h: History, names: Names, node: Node) {
    && node.lineage in h.lineages
    && node.state in h.states
    && h.states[node.state].lineage == node.lineage
    && (node.checkpoint.Some? ==> node.checkpoint.value in names.revisions)
    && match node.parent
       case None => node.depth == 0
       case Some(parent) =>
         && parent in h.nodes
         && h.nodes[parent].lineage == node.lineage
         && h.nodes[parent].depth + 1 == node.depth
  }

  predicate IsRoot(nodes: map<Id, Node>, lineage: Id, id: Id) {
    id in nodes && nodes[id].lineage == lineage && nodes[id].parent.None?
  }

  function Roots(nodes: map<Id, Node>, lineage: Id): set<Id> {
    set id | id in nodes && IsRoot(nodes, lineage, id)
  }

  predicate OfLineage(nodes: map<Id, Node>, id: Id, lineage: Id) {
    id in nodes && nodes[id].lineage == lineage
  }

  ghost predicate HeadOk(h: History, head: Head) {
    && head.lineage in h.lineages
    && OfLineage(h.nodes, head.checkpoint, head.lineage)
    && OfLineage(h.nodes, head.floor, head.lineage)
    && OfLineage(h.nodes, head.cursor, head.lineage)
    && OfLineage(h.nodes, head.tip, head.lineage)
    && Ancestor(h.nodes, head.checkpoint, head.floor)
    && Ancestor(h.nodes, head.floor, head.cursor)
    && Ancestor(h.nodes, head.cursor, head.tip)
  }

  predicate DraftMatches(draft: Draft, state: State) {
    && draft.schemaVersion == state.schemaVersion
    && draft.base == state.base
    && draft.config == state.config
    && draft.operations == state.operations
  }

  predicate RequestsDistinct(nodes: map<Id, Node>) {
    forall a, b :: a in nodes && b in nodes && nodes[a].request.Some? && nodes[a].request == nodes[b].request ==> a == b
  }

  predicate Referenced(nodes: map<Id, Node>, sha: Hash) {
    exists id :: id in nodes && nodes[id].state == sha
  }

  /** Lineages, states and nodes: everything but the head and the draft. */
  predicate GraphOk(schema: Schema, names: Names, h: History) {
    && (forall id {:trigger LineageOk(h.lineages[id], names)} :: id in h.lineages ==> LineageOk(h.lineages[id], names))
    && (forall sha {:trigger StateOk(schema, names, h.lineages, sha, h.states[sha])} ::
          sha in h.states ==> StateOk(schema, names, h.lineages, sha, h.states[sha]))
    && (forall id {:trigger NodeOk(h, names, h.nodes[id])} :: id in h.nodes ==> NodeOk(h, names, h.nodes[id]))
    && (forall sha {:trigger Referenced(h.nodes, sha)} :: sha in h.states ==> Referenced(h.nodes, sha))
    && (forall id {:trigger Roots(h.nodes, id)} :: id in h.lineages ==> |Roots(h.nodes, id)| == 1)
    && RequestsDistinct(h.nodes)
  }

  ghost predicate Validated(schema: Schema, names: Names, h: History) {
    && GraphOk(schema, names, h)
    && (h.draft.Some? <==> h.head.Some?)
    && (h.head.Some? ==>
          && HeadOk(h, h.head.value)
          && h.nodes[h.head.value.cursor].state in h.states
          && DraftMatches(h.draft.value, h.states[h.nodes[h.head.value.cursor].state]))
  }

  // The head's four nodes are ordered on the path to its tip.
  method HeadIsOk(h: History, head: Head) returns (ok: bool)
    ensures ok <==> HeadOk(h, head)
  {
    ok := && head.lineage in h.lineages
          && OfLineage(h.nodes, head.checkpoint, head.lineage) && OfLineage(h.nodes, head.floor, head.lineage)
          && OfLineage(h.nodes, head.cursor, head.lineage) && OfLineage(h.nodes, head.tip, head.lineage);
    if ok { ok := IsAncestor(h.nodes, head.checkpoint, head.floor); }
    if ok { ok := IsAncestor(h.nodes, head.floor, head.cursor); }
    if ok { ok := IsAncestor(h.nodes, head.cursor, head.tip); }
  }

  /** `_validate_history` in full-history mode: it accepts exactly the histories that are `Validated`. */
  method ValidateHistory(schema: Schema, names: Names, h: History) returns (ok: bool)
    ensures ok <==> Validated(schema, names, h)
  {
    ok := GraphOk(schema, names, h) && (h.draft.Some? <==> h.head.Some?);
    if ok && h.head.Some? {
      ok := HeadIsOk(h, h.head.value);
      if ok {
        var cursor := h.nodes[h.head.value.cursor];
        assert NodeOk(h, names, cursor);
        ok := DraftMatches(h.draft.value, h.states[cursor.state]);
      }
    }
  }

  // ----- one tree per lineage

  // The local part of the node checks: what the tree shape needs.
  predicate ParentOk(nodes: map<Id, Node>, id: Id)
    requires id in nodes
  {
    match nodes[id].parent
    case None => nodes[id].depth == 0
    case Some(parent) =>
      parent in nodes && nodes[parent].lineage == nodes[id].lineage && nodes[parent].depth + 1 == nodes[id].depth
  }

  ghost predicate Rooted(nodes: map<Id, Node>) {
    forall id {:trigger ParentOk(nodes, id)} :: id in nodes ==> ParentOk(nodes, id)
  }

  lemma GraphIsRooted(schema: Schema, names: Names, h: History)
    requires GraphOk(schema, names, h)
    ensures Rooted(h.nodes)
  {
    forall id | id in h.nodes ensures ParentOk(h.nodes, id) {
      assert NodeOk(h, names, h.nodes[id]);
    }
  }

  /** Each parent step stays in the lineage and costs exactly one level of depth. */
  lemma {:induction false} UpDescendsByOne(nodes: map<Id, Node>, id: Id, k: nat)
    requires Rooted(nodes) && id in nodes
    ensures Up(nodes, id, k).Some? <==> k <= nodes[id].depth
    ensures k <= nodes[id].depth ==> var a := Up(nodes, id, k).value;
      a in nodes && nodes[a].lineage == nodes[id].lineage && nodes[a].depth == nodes[id].depth - k
    decreases k
  {
    assert ParentOk(nodes, id);
    if k > 0 && nodes[id].parent.Some? {
      UpDescendsByOne(nodes, nodes[id].parent.value, k - 1);
    }
  }

  lemma ChainShape(nodes: map<Id, Node>, id: Id)
    requires Rooted(nodes) && id in nodes
    ensures forall k: nat :: k > nodes[id].depth ==> Up(nodes, id, k).None?
    ensures forall i: nat, j: nat :: i < j <= nodes[id].depth ==> Up(nodes, id, i) != Up(nodes, id, j)
    ensures Up(nodes, id, nodes[id].depth).Some?
    ensures IsRoot(nodes, nodes[id].lineage, Up(nodes, id, nodes[id].depth).value)
  {
    forall k: nat ensures (Up(nodes, id, k).Some? <==> k <= nodes[id].depth)
      && (k <= nodes[id].depth ==>
            Up(nodes, id, k).value in nodes && nodes[Up(nodes, id, k).value].depth == nodes[id].depth - k)
    {
      UpDescendsByOne(nodes, id, k);
    }
    UpDescendsByOne(nodes, id, nodes[id].depth);
    assert ParentOk(nodes, Up(nodes, id, nodes[id].depth).value);
  }

  /**
  From any node of a validated history, following parents reaches the one root of its lineage
  in exactly `depth` steps, visits no node twice and stops there.
  */
  lemma EveryNodeReachesTheOnlyRoot(schema: Schema, names: Names, h: History, id: Id)
    requires GraphOk(schema, names, h) && id in h.nodes
    ensures var depth := h.nodes[id].depth;
      && Up(h.nodes, id, depth).Some?
      && Roots(h.nodes, h.nodes[id].lineage) == {Up(h.nodes, id, depth).value}
      && (forall k: nat :: k > depth ==> Up(h.nodes, id, k).None?)
      && (forall i: nat, j: nat :: i < j <= depth ==> Up(h.nodes, id, i) != Up(h.nodes, id, j))
  {
    GraphIsRooted(schema, names, h);
    ChainShape(h.nodes, id);
    assert NodeOk(h, names, h.nodes[id]);
    SingletonOf(Roots(h.nodes, h.nodes[id].lineage), Up(h.nodes, id, h.nodes[id].depth).value);
  }

  lemma SingletonOf(s: set<Id>, x: Id)
    requires |s| == 1 && x in s
    ensures s == {x}
  {
    assert |s - {x}| == 0;
    assert s == {x} + (s - {x});
  }

  // ----- abandoned redo branches

  /** The nodes on the path from a node to its root. */
  ghost function PathSet(nodes: map<Id, Node>, id: Id): set<Id>
    requires Rooted(nodes) && id in nodes
    decreases nodes[id].depth
  {
    assert ParentOk(nodes, id);
    {id} + if nodes[id].parent.Some? then PathSet(nodes, nodes[id].parent.value) else {}
  }

  lemma {:induction false} PathHasDepthPlusOneNodes(nodes: map<Id, Node>, id: Id)
    requires Rooted(nodes) && id in nodes
    ensures |PathSet(nodes, id)| == nodes[id].depth + 1
    ensures forall a :: a in PathSet(nodes, id) ==>
      OfLineage(nodes, a, nodes[id].lineage) && nodes[a].depth <= nodes[id].depth
    decreases nodes[id].depth
  {
    assert ParentOk(nodes, id);
    if nodes[id].parent.Some? {
      var parent := nodes[id].parent.value;
      PathHasDepthPlusOneNodes(nodes, parent);
      assert id !in PathSet(nodes, parent);
    }
  }

  function LineageNodes(nodes: map<Id, Node>, lineage: Id): set<Id> {
    set id | id in nodes && OfLineage(nodes, id, lineage)
  }

  lemma SizeOfDifference(whole: set<Id>, part: set<Id>)
    requires part <= whole
    ensures |whole - part| + |part| == |whole|
  {
    assert whole == (whole - part) + part;
  }

  // The first loop of `_abandoned_history_node_count`: the ids on the active path.
  method ActivePath(nodes: map<Id, Node>, tip: Id) returns (path: set<Id>)
    requires Rooted(nodes) && tip in nodes
    ensures path == PathSet(nodes, tip)
  {
    path := {};
    var current := Some(tip);
    while current.Some? && current.value !in path
      invariant current.Some? ==> current.value in nodes
      invariant PathSet(nodes, tip) == path + if current.Some? then PathSet(nodes, current.value) else {}
      invariant current.Some? ==> forall a :: a in path ==> a in nodes && nodes[a].depth > nodes[current.value].depth
      decreases if current.Some? then nodes[current.value].depth + 1 else 0
    {
      assert ParentOk(nodes, current.value);
      path := path + {current.value};
      current := nodes[current.value].parent;
    }
  }

  // The second one: the nodes of a lineage outside a path.
  method CountOutside(nodes: map<Id, Node>, lineage: Id, path: set<Id>) returns (count: nat)
    ensures count == |LineageNodes(nodes, lineage) - path|
  {
    var remaining := nodes.Keys;
    count := 0;
    ghost var counted: set<Id> := {};
    while remaining != {}
      invariant remaining <= nodes.Keys && count == |counted|
      invariant counted == LineageNodes(nodes, lineage) - path - remaining
      decreases remaining
    {
      var id :| id in remaining;
      if nodes[id].lineage == lineage && id !in path {
        count := count + 1;
        counted := counted + {id};
      }
      remaining := remaining - {id};
    }
    assert counted == LineageNodes(nodes, lineage) - path;
  }

  /**
  `_abandoned_history_node_count`: with a head, the nodes of its lineage that are not on the
  path of `depth + 1` nodes from the tip to the root.
  */
  method AbandonedNodeCount(h: History) returns (count: nat)
    requires Rooted(h.nodes)
    requires h.head.Some? ==> OfLineage(h.nodes, h.head.value.tip, h.head.value.lineage)
    ensures h.head.None? ==> count == 0
    ensures h.head.Some? ==>
      count + h.nodes[h.head.value.tip].depth + 1 == |LineageNodes(h.nodes, h.head.value.lineage)|
  {
    if h.head.None? { return 0; }
    var head := h.head.value;
    var path := ActivePath(h.nodes, head.tip);
    PathHasDepthPlusOneNodes(h.nodes, head.tip);
    count := CountOutside(h.nodes, head.lineage, path);
    SizeOfDifference(LineageNodes(h.nodes, head.lineage), path);
  }

  /** A manifest that passes validation is in the domain of `AbandonedNodeCount`. */
  lemma ValidatedHistoryIsCountable(schema: Schema, names: Names, h: History)
    requires Validated(schema, names, h)
    ensures Rooted(h.nodes)
    ensures h.head.Some? ==> OfLineage(h.nodes, h.head.value.tip, h.head.value.lineage)
  {
    GraphIsRooted(schema, names, h);
  }
}

/**
Restoring keeps every check of `_validate_history`, exactly when the bundle holds the current
form of its configurations and of the cursor's operations.
*/
module RestoreValidity {
  import opened Wrappers
  import opened Identifiers
  import opened History
  import opened HistoryValidation
  import opened Renaming

  /** The configurations are what the application would store today. */
  ghost predicate ConfigsCanonical(schema: Schema, h: History) {
    forall sha :: sha in h.states ==> schema.load(h.states[sha].config.body) == Some(h.states[sha].config.body)
  }

  /**
  The cursor state carries the schema version of its own configuration and spells its operations
  out: the draft row takes the first from the configuration and keeps the operations unread.
  */
  ghost predicate CursorCurrent(h: History) {
    h.head.Some? && h.head.value.cursor in h.nodes && h.nodes[h.head.value.cursor].state in h.states ==>
      var state := h.states[h.nodes[h.head.value.cursor].state];
      && state.schemaVersion == state.config.body.schemaVersion
      && Readable(state.operations)
      && Stored(Normalised(state.operations)) == state.operations
  }

  // ----- lineages and states

  lemma LineagesStayOk(schema: Schema, names: Names, h: History, r: Renames, t: History)
    requires GraphOk(schema, names, h) && Covers(r, names, h) && LineageImage(r, h, t.lineages)
    ensures forall x :: x in t.lineages ==> LineageOk(t.lineages[x], RenamedNames(r))
  {
    forall x | x in t.lineages ensures LineageOk(t.lineages[x], RenamedNames(r)) {
      var id := Origin(r.lineages, x);
      assert LineageOk(h.lineages[id], names) && LineageMapped(r, h, t.lineages, id);
    }
  }

  lemma RenamedFilamentsKnown(names: Names, r: Renames, config: Config)
    requires FilamentsKnown(config, names) && r.filaments.Keys == names.filaments && config.source in r.assets
    ensures FilamentsKnown(RenamedConfig(r, config), RenamedNames(r))
  {
    var c := RenamedConfig(r, config);
    forall i | 0 <= i < |c.colors| && c.colors[i].filament.Some?
      ensures c.colors[i].filament.value in RenamedNames(r).filaments
    {
      assert config.colors[i].filament.value in r.filaments;
    }
  }

  /** One restored state passes its check exactly when its configuration was canonical. */
  lemma StateStaysOk(schema: Schema, names: Names, h: History, r: Renames, t: History, sha: Hash)
    requires Idempotent(schema) && GraphOk(schema, names, h) && Covers(r, names, h)
    requires LineageImage(r, h, t.lineages) && sha in h.states && StateMapped(schema, r, h, t.states, sha)
    ensures var x := RenamedHash(schema, r, h.states[sha]);
      StateOk(schema, RenamedNames(r), t.lineages, x, t.states[x])
      <==> schema.load(h.states[sha].config.body) == Some(h.states[sha].config.body)
  {
    var state := h.states[sha];
    var x := RenamedHash(schema, r, state);
    var operations := Normalised(state.operations);
    assert StateOk(schema, names, h.lineages, sha, state);
    assert LineageMapped(r, h, t.lineages, state.lineage);
    StoredReadsBack(operations);
    RenamedFilamentsKnown(names, r, state.config);
    assert FilamentsKnown(t.states[x].config, RenamedNames(r));
  }

  lemma StatesStayOk(schema: Schema, names: Names, h: History, r: Renames, t: History)
    requires Idempotent(schema) && GraphOk(schema, names, h) && Covers(r, names, h)
    requires LineageImage(r, h, t.lineages) && StateImage(schema, r, h, t.states)
    requires ConfigsCanonical(schema, h)
    ensures forall x :: x in t.states ==> StateOk(schema, RenamedNames(r), t.lineages, x, t.states[x])
  {
    forall x | x in t.states ensures StateOk(schema, RenamedNames(r), t.lineages, x, t.states[x]) {
      assert StateOrigin(schema, r, h, x);
      var sha :| sha in h.states && Rewritable(schema, r, h.states[sha]) && RenamedHash(schema, r, h.states[sha]) == x;
      assert StateMapped(schema, r, h, t.states, sha);
      StateStaysOk(schema, names, h, r, t, sha);
    }
  }

  lemma OnlyCanonicalStatesStayOk(schema: Schema, names: Names, h: History, r: Renames, t: History)
    requires Idempotent(schema) && GraphOk(schema, names, h) && Covers(r, names, h)
    requires LineageImage(r, h, t.lineages) && StateImage(schema, r, h, t.states)
    requires forall x :: x in t.states ==> StateOk(schema, RenamedNames(r), t.lineages, x, t.states[x])
    ensures ConfigsCanonical(schema, h)
  {
    forall sha | sha in h.states ensures schema.load(h.states[sha].config.body) == Some(h.states[sha].config.body) {
      assert StateMapped(schema, r, h, t.states, sha);
      StateStaysOk(schema, names, h, r, t, sha);
    }
  }

  // ----- nodes

  lemma NodeStaysOk(schema: Schema, names: Names, h: History, r: Renames, t: History, id: Id)
    requires GraphOk(schema, names, h) && Covers(r, names, h)
    requires LineageImage(r, h, t.lineages) && StateImage(schema, r, h, t.states) && NodeImage(schema, r, h, t.nodes)
    requires id in h.nodes
    ensures r.nodes[id] in t.nodes && NodeOk(t, RenamedNames(r), t.nodes[r.nodes[id]])
  {
    var node := h.nodes[id];
    assert NodeOk(h, names, node) && NodeMapped(schema, r, h, t.nodes, id);
    assert LineageMapped(r, h, t.lineages, node.lineage) && StateMapped(schema, r, h, t.states, node.state);
    if node.parent.Some? {
      assert NodeMapped(schema, r, h, t.nodes, node.parent.value);
    }
  }

  lemma EveryStateStaysReferenced(schema: Schema, names: Names, h: History, r: Renames, t: History, x: Hash)
    requires GraphOk(schema, names, h)
    requires StateImage(schema, r, h, t.states) && NodeImage(schema, r, h, t.nodes) && x in t.states
    ensures Referenced(t.nodes, x)
  {
    assert StateOrigin(schema, r, h, x);
    var sha :| sha in h.states && Rewritable(schema, r, h.states[sha]) && RenamedHash(schema, r, h.states[sha]) == x;
    assert Referenced(h.nodes, sha);
    var id :| id in h.nodes && h.nodes[id].state == sha;
    assert NodeMapped(schema, r, h, t.nodes, id);
    assert t.nodes[r.nodes[id]].state == x;
  }

  // A node's image is a root of the image lineage exactly when the node is one of the lineage.
  lemma RootCommutes(schema: Schema, names: Names, h: History, r: Renames, t: History, lineage: Id, id: Id)
    requires GraphOk(schema, names, h) && Covers(r, names, h) && Isomorphic(r) && NodeImage(schema, r, h, t.nodes)
    requires lineage in h.lineages && id in h.nodes
    ensures IsRoot(t.nodes, r.lineages[lineage], r.nodes[id]) <==> IsRoot(h.nodes, lineage, id)
  {
    assert NodeOk(h, names, h.nodes[id]) && NodeMapped(schema, r, h, t.nodes, id);
  }

  lemma RootsStaySingle(schema: Schema, names: Names, h: History, r: Renames, t: History, x: Id)
    requires GraphOk(schema, names, h) && Covers(r, names, h) && Isomorphic(r)
    requires LineageImage(r, h, t.lineages) && NodeImage(schema, r, h, t.nodes) && x in t.lineages
    ensures |Roots(t.nodes, x)| == 1
  {
    var lineage := Origin(r.lineages, x);
    var roots := Roots(h.nodes, lineage);
    assert |roots| == 1;
    var root :| root in roots;
    SingletonOf(roots, root);
    RootCommutes(schema, names, h, r, t, lineage, root);
    forall y | y in Roots(t.nodes, x) ensures y == r.nodes[root] {
      var id := Origin(r.nodes, y);
      RootCommutes(schema, names, h, r, t, lineage, id);
      assert id in roots;
    }
    assert Roots(t.nodes, x) == {r.nodes[root]};
  }

  lemma RequestsStayDistinct(schema: Schema, h: History, r: Renames, t: History)
    requires RequestsDistinct(h.nodes) && NodeImage(schema, r, h, t.nodes) && r.nodes.Keys == h.nodes.Keys
    ensures RequestsDistinct(t.nodes)
  {
    forall a, b | a in t.nodes && b in t.nodes && t.nodes[a].request.Some? && t.nodes[a].request == t.nodes[b].request
      ensures a == b
    {
      var p := Origin(r.nodes, a);
      var q := Origin(r.nodes, b);
      assert NodeMapped(schema, r, h, t.nodes, p) && NodeMapped(schema, r, h, t.nodes, q);
    }
  }

  lemma NodesStayOk(schema: Schema, names: Names, h: History, r: Renames, t: History)
    requires GraphOk(schema, names, h) && Covers(r, names, h) && Isomorphic(r)
    requires LineageImage(r, h, t.lineages) && StateImage(schema, r, h, t.states) && NodeImage(schema, r, h, t.nodes)
    ensures forall x {:trigger NodeOk(t, RenamedNames(r), t.nodes[x])} :: x in t.nodes ==>
              NodeOk(t, RenamedNames(r), t.nodes[x])
  {
    forall x | x in t.nodes ensures NodeOk(t, RenamedNames(r), t.nodes[x]) {
      var id := Origin(r.nodes, x);
      NodeStaysOk(schema, names, h, r, t, id);
    }
  }

  lemma StatesStayReferenced(schema: Schema, names: Names, h: History, r: Renames, t: History)
    requires GraphOk(schema, names, h) && Covers(r, names, h) && Isomorphic(r)
    requires LineageImage(r, h, t.lineages) && StateImage(schema, r, h, t.states) && NodeImage(schema, r, h, t.nodes)
    ensures forall x {:trigger Referenced(t.nodes, x)} :: x in t.states ==> Referenced(t.nodes, x)
  {
    forall x | x in t.states ensures Referenced(t.nodes, x) {
      EveryStateStaysReferenced(schema, names, h, r, t, x);
    }
  }

  lemma RootsAllStaySingle(schema: Schema, names: Names, h: History, r: Renames, t: History)
    requires GraphOk(schema, names, h) && Covers(r, names, h) && Isomorphic(r)
    requires LineageImage(r, h, t.lineages) && StateImage(schema, r, h, t.states) && NodeImage(schema, r, h, t.nodes)
    ensures forall x {:trigger Roots(t.nodes, x)} :: x in t.lineages ==> |Roots(t.nodes, x)| == 1
  {
    forall x | x in t.lineages ensures |Roots(t.nodes, x)| == 1 {
      RootsStaySingle(schema, names, h, r, t, x);
    }
  }

  lemma GraphStaysOkWhenCanonical(schema: Schema, names: Names, h: History, r: Renames, t: History)
    requires Idempotent(schema) && ConfigsCanonical(schema, h)
    requires GraphOk(schema, names, h) && Covers(r, names, h) && Isomorphic(r)
    requires LineageImage(r, h, t.lineages) && StateImage(schema, r, h, t.states) && NodeImage(schema, r, h, t.nodes)
    ensures GraphOk(schema, RenamedNames(r), t)
  {
    LineagesStayOk(schema, names, h, r, t);
    StatesStayOk(schema, names, h, r, t);
    NodesStayOk(schema, names, h, r, t);
    StatesStayReferenced(schema, names, h, r, t);
    RootsAllStaySingle(schema, names, h, r, t);
    RequestsStayDistinct(schema, h, r, t);
  }

  /** The restored graph passes every graph check exactly when its configurations were canonical. */
  lemma GraphStaysOk(schema: Schema, names: Names, h: History, r: Renames, t: History)
    requires Idempotent(schema)
    requires GraphOk(schema, names, h) && Covers(r, names, h) && Isomorphic(r)
    requires LineageImage(r, h, t.lineages) && StateImage(schema, r, h, t.states) && NodeImage(schema, r, h, t.nodes)
    ensures GraphOk(schema, RenamedNames(r), t) <==> ConfigsCanonical(schema, h)
  {
    if ConfigsCanonical(schema, h) {
      GraphStaysOkWhenCanonical(schema, names, h, r, t);
    } else if GraphOk(schema, RenamedNames(r), t) {
      OnlyCanonicalStatesStayOk(schema, names, h, r, t);
    }
  }

  // ----- head and draft

  /** The head's four nodes stay in one lineage and keep their order on the tip path. */
  lemma HeadStaysOk(schema: Schema, names: Names, h: History, r: Renames, t: History)
    requires GraphOk(schema, names, h) && Covers(r, names, h) && Isomorphic(r)
    requires LineageImage(r, h, t.lineages) && NodeImage(schema, r, h, t.nodes) && HeadImage(r, h, t.head)
    requires h.head.Some? && HeadOk(h, h.head.value)
    ensures HeadOk(t, t.head.value)
  {
    var head := h.head.value;
    GraphIsRooted(schema, names, h);
    NodeImageKeepsParents(schema, r, h, t.nodes);
    AncestryCommutes(h.nodes, r.nodes, t.nodes, head.checkpoint, head.floor);
    AncestryCommutes(h.nodes, r.nodes, t.nodes, head.floor, head.cursor);
    AncestryCommutes(h.nodes, r.nodes, t.nodes, head.cursor, head.tip);
    forall id | OfLineage(h.nodes, id, head.lineage) ensures OfLineage(t.nodes, r.nodes[id], r.lineages[head.lineage]) {
      assert NodeMapped(schema, r, h, t.nodes, id);
    }
  }

  /** The restored draft is the restored cursor state exactly when the cursor state was current. */
  lemma DraftStaysAtCursor(schema: Schema, names: Names, h: History, r: Renames, t: History)
    requires Validated(schema, names, h) && Covers(r, names, h) && ConfigsCanonical(schema, h)
    requires StateImage(schema, r, h, t.states) && NodeImage(schema, r, h, t.nodes)
    requires HeadImage(r, h, t.head) && DraftImage(schema, r, h, t.draft) && h.head.Some?
    ensures t.head.value.cursor in t.nodes && t.nodes[t.head.value.cursor].state in t.states
    ensures DraftMatches(t.draft.value, t.states[t.nodes[t.head.value.cursor].state]) <==> CursorCurrent(h)
  {
    var cursor := h.head.value.cursor;
    var sha := h.nodes[cursor].state;
    var state := h.states[sha];
    assert NodeOk(h, names, h.nodes[cursor]) && StateOk(schema, names, h.lineages, sha, state);
    assert NodeMapped(schema, r, h, t.nodes, cursor) && StateMapped(schema, r, h, t.states, sha);
    assert schema.load(state.config.body) == Some(state.config.body);
  }

  /**
  Main result. Into whatever database the history goes: the restored rows pass every check of
  the validator again exactly when the bundle's configurations are canonical and its cursor
  state is in current form.
  */
  lemma RestoredHistoryValidates(schema: Schema, names: Names, h: History, r: Renames, t: History)
    requires Idempotent(schema) && Validated(schema, names, h) && Covers(r, names, h) && Isomorphic(r)
    requires Image(schema, r, h, t)
    ensures Validated(schema, RenamedNames(r), t) <==> ConfigsCanonical(schema, h) && CursorCurrent(h)
  {
    GraphStaysOk(schema, names, h, r, t);
    if ConfigsCanonical(schema, h) && h.head.Some? {
      HeadStaysOk(schema, names, h, r, t);
      DraftStaysAtCursor(schema, names, h, r, t);
    }
  }
}

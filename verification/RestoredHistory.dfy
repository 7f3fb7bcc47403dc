/**
What the rows of a restored history hold, field by field, whatever database it went into
(src/image23mf/bundles.py:1199-1219, 1663-1833).
*/
module RestoredHistory {
  import opened Wrappers
  import opened Identifiers
  import opened History
  import opened HistoryValidation
  import opened Renaming

  /** An optional id by its new name: absent as before, or what the map has for it. */
  predicate CarriedId(ids: map<Id, Id>, from: Option<Id>, to: Option<Id>) {
    match from
    case None => to.None?
    case Some(id) => id in ids && to.Some? && to.value == ids[id]
  }

  /** A source and a palette with new ids. */
  predicate CarriedIds(assets: map<Id, Id>, filaments: map<Id, Id>, from: Config, to: Config) {
    && from.source in assets && to.source == assets[from.source]
    && |to.colors| == |from.colors|
    && (forall i :: 0 <= i < |from.colors| ==>
          to.colors[i].swatch == from.colors[i].swatch
          && CarriedId(filaments, from.colors[i].filament, to.colors[i].filament))
  }

  /** A configuration with new ids, as loading completes it. */
  predicate CarriedConfig(schema: Schema, assets: map<Id, Id>, filaments: map<Id, Id>, from: Config, to: Config) {
    && CarriedIds(assets, filaments, from, to)
    && schema.load(from.body).Some? && to.body == schema.load(from.body).value
  }

  lemma ConfigIsCarried(schema: Schema, names: Names, r: Renames, config: Config)
    requires ConfigRewrites(schema, r.assets, config) && FilamentsKnown(config, names)
    requires r.filaments.Keys == names.filaments
    ensures CarriedConfig(schema, r.assets, r.filaments, config, CanonicalConfig(schema, RenamedConfig(r, config)))
    ensures CarriedIds(r.assets, r.filaments, config, RenamedConfig(r, config))
  {
    var to := CanonicalConfig(schema, RenamedConfig(r, config));
    forall i | 0 <= i < |config.colors|
      ensures to.colors[i].swatch == config.colors[i].swatch
      ensures CarriedId(r.filaments, config.colors[i].filament, to.colors[i].filament)
    {
    }
  }

  lemma LineageIsCarried(schema: Schema, names: Names, h: History, r: Renames, t: History, id: Id)
    requires GraphOk(schema, names, h) && Covers(r, names, h) && Image(schema, r, h, t) && id in h.lineages
    ensures id in r.lineages && r.lineages[id] in t.lineages
    ensures var from, to := h.lineages[id], t.lineages[r.lineages[id]];
            && CarriedId(r.revisions, from.base, to.base)
            && from.source in r.assets && to.source == r.assets[from.source]
            && to.details == from.details
  {
    assert LineageMapped(r, h, t.lineages, id) && LineageOk(h.lineages[id], names);
  }

  /** A stored operation with every key spelled out, and no other. */
  predicate SpelledOut(from: RawOperation, to: RawOperation) {
    && from.kind.Some? && to.kind == from.kind
    && to.selection == Some(if from.selection.Some? then from.selection.value else EMPTY_OBJECT)
    && to.parameters == Some(if from.parameters.Some? then from.parameters.value else EMPTY_OBJECT)
    && to.source == Some(if from.source.Some? then from.source.value else MANUAL)
    && to.provenance == Some(if from.provenance.Some? then from.provenance.value else EMPTY_OBJECT)
    && to.unknown == EMPTY_OBJECT
  }

  /** One state and its row. */
  predicate CarriedState(schema: Schema, r: Renames, from: State, to: State) {
    && from.lineage in r.lineages && to.lineage == r.lineages[from.lineage]
    && to.schemaVersion == from.schemaVersion
    && CarriedId(r.revisions, from.base, to.base)
    && from.source in r.assets && to.source == r.assets[from.source]
    && CarriedConfig(schema, r.assets, r.filaments, from.config, to.config)
    && |to.operations| == |from.operations|
    && (forall i :: 0 <= i < |from.operations| ==> SpelledOut(from.operations[i], to.operations[i]))
    && Readable(to.operations) && to.byteSize == schema.size(to.config, Normalised(to.operations))
    && to.details == from.details
  }

  lemma StateIsCarried(schema: Schema, names: Names, h: History, r: Renames, t: History, sha: Hash)
    requires GraphOk(schema, names, h) && Covers(r, names, h) && Image(schema, r, h, t) && sha in h.states
    ensures Rewritable(schema, r, h.states[sha]) && RenamedHash(schema, r, h.states[sha]) in t.states
    ensures CarriedState(schema, r, h.states[sha], t.states[RenamedHash(schema, r, h.states[sha])])
  {
    var from := h.states[sha];
    assert StateMapped(schema, r, h, t.states, sha) && StateOk(schema, names, h.lineages, sha, from);
    assert LineageOk(h.lineages[from.lineage], names);
    ConfigIsCarried(schema, names, r, from.config);
    StoredReadsBack(Normalised(from.operations));
  }

  /** Every node goes on where it was: under its parent, at its depth, with its state, its request and its texts. */
  lemma NodeIsCarried(schema: Schema, names: Names, h: History, r: Renames, t: History, id: Id)
    requires GraphOk(schema, names, h) && Covers(r, names, h) && Image(schema, r, h, t) && id in h.nodes
    ensures id in r.nodes && r.nodes[id] in t.nodes
    ensures var from, to := h.nodes[id], t.nodes[r.nodes[id]];
            && from.lineage in r.lineages && to.lineage == r.lineages[from.lineage]
            && CarriedId(r.nodes, from.parent, to.parent)
            && from.state in h.states && to.state in t.states
            && CarriedState(schema, r, h.states[from.state], t.states[to.state])
            && to.depth == from.depth && to.request == from.request && to.schemaVersion == from.schemaVersion
            && CarriedId(r.revisions, from.checkpoint, to.checkpoint)
            && to.createdAt == from.createdAt && to.details == from.details
  {
    assert NodeMapped(schema, r, h, t.nodes, id) && NodeOk(h, names, h.nodes[id]);
    StateIsCarried(schema, names, h, r, t, h.nodes[id].state);
  }

  /** The fingerprint of a state's row is taken of its new ids and of the configuration as it came. */
  predicate CarriedHash(r: Renames, from: State, x: Hash) {
    && from.lineage in r.lineages && x.lineage == r.lineages[from.lineage]
    && x.schemaVersion == from.schemaVersion
    && CarriedId(r.revisions, from.base, x.base)
    && from.source in r.assets && x.source == r.assets[from.source]
    && CarriedIds(r.assets, r.filaments, from.config, x.config) && x.config.body == from.config.body
    && Readable(from.operations) && x.operations == Normalised(from.operations)
  }

  lemma HashIsCarried(schema: Schema, names: Names, h: History, r: Renames, sha: Hash)
    requires GraphOk(schema, names, h) && Covers(r, names, h) && sha in h.states
    requires Rewritable(schema, r, h.states[sha])
    ensures CarriedHash(r, h.states[sha], RenamedHash(schema, r, h.states[sha]))
  {
    assert StateOk(schema, names, h.lineages, sha, h.states[sha]);
    assert LineageOk(h.lineages[h.states[sha].lineage], names);
    ConfigIsCarried(schema, names, r, h.states[sha].config);
  }

  /** The tables hold no row of the project beside these. */
  lemma NothingIsAdded(schema: Schema, names: Names, h: History, r: Renames, t: History)
    requires GraphOk(schema, names, h) && Covers(r, names, h) && Image(schema, r, h, t)
    ensures forall x :: x in t.lineages ==> exists id :: id in h.lineages && r.lineages[id] == x
    ensures forall x :: x in t.nodes ==> exists id :: id in h.nodes && r.nodes[id] == x
    ensures forall x :: x in t.states ==> exists sha :: sha in h.states && CarriedHash(r, h.states[sha], x)
  {
    forall x | x in t.states ensures exists sha :: sha in h.states && CarriedHash(r, h.states[sha], x) {
      assert StateOrigin(schema, r, h, x);
      var sha :| sha in h.states && Rewritable(schema, r, h.states[sha]) && RenamedHash(schema, r, h.states[sha]) == x;
      HashIsCarried(schema, names, h, r, sha);
    }
  }

  // ----- the head

  /** The head stands where it stood: at the images of its four nodes, with its limit and its time. */
  lemma HeadIsCarried(schema: Schema, names: Names, h: History, r: Renames, t: History)
    requires Validated(schema, names, h) && Covers(r, names, h) && Image(schema, r, h, t)
    ensures h.head.Some? <==> t.head.Some?
    ensures h.head.Some? ==>
              var from, to := h.head.value, t.head.value;
              && from.lineage in r.lineages && to.lineage == r.lineages[from.lineage]
              && from.checkpoint in r.nodes && to.checkpoint == r.nodes[from.checkpoint]
              && from.floor in r.nodes && to.floor == r.nodes[from.floor]
              && from.cursor in r.nodes && to.cursor == r.nodes[from.cursor]
              && from.tip in r.nodes && to.tip == r.nodes[from.tip]
              && to.undoLimit == from.undoLimit && to.details == from.details
  {
  }

  /** As many steps lead from one restored node to another as did in the bundle. */
  lemma StepsAreKept(schema: Schema, names: Names, h: History, r: Renames, t: History, from: Id, to: Id, k: nat)
    requires GraphOk(schema, names, h) && Covers(r, names, h) && Isomorphic(r) && Image(schema, r, h, t)
    requires from in h.nodes && to in h.nodes
    ensures from in r.nodes && to in r.nodes
    ensures Up(h.nodes, from, k) == Some(to) <==> Up(t.nodes, r.nodes[from], k) == Some(r.nodes[to])
  {
    GraphIsRooted(schema, names, h);
    NodeImageKeepsParents(schema, r, h, t.nodes);
    UpCommutes(h.nodes, r.nodes, t.nodes, from, k);
  }

  /** So as many steps can be undone and redone, and as many nodes were abandoned. */
  lemma UndoAndRedoAreKept(schema: Schema, names: Names, h: History, r: Renames, t: History)
    requires Validated(schema, names, h) && Covers(r, names, h) && Isomorphic(r) && Image(schema, r, h, t)
    requires h.head.Some?
    ensures t.head.Some?
    ensures forall k: nat {:trigger Up(h.nodes, h.head.value.tip, k)} ::
              Up(h.nodes, h.head.value.tip, k) == Some(h.head.value.cursor)
              <==> Up(t.nodes, t.head.value.tip, k) == Some(t.head.value.cursor)
    ensures forall k: nat {:trigger Up(h.nodes, h.head.value.cursor, k)} ::
              Up(h.nodes, h.head.value.cursor, k) == Some(h.head.value.floor)
              <==> Up(t.nodes, t.head.value.cursor, k) == Some(t.head.value.floor)
    ensures h.head.value.tip in h.nodes && t.head.value.tip in t.nodes
    ensures t.nodes[t.head.value.tip].depth == h.nodes[h.head.value.tip].depth
    ensures |LineageNodes(t.nodes, t.head.value.lineage)| == |LineageNodes(h.nodes, h.head.value.lineage)|
  {
    var head := h.head.value;
    HeadIsCarried(schema, names, h, r, t);
    forall k: nat
      ensures Up(h.nodes, head.tip, k) == Some(head.cursor)
              <==> Up(t.nodes, t.head.value.tip, k) == Some(t.head.value.cursor)
      ensures Up(h.nodes, head.cursor, k) == Some(head.floor)
              <==> Up(t.nodes, t.head.value.cursor, k) == Some(t.head.value.floor)
    {
      StepsAreKept(schema, names, h, r, t, head.tip, head.cursor, k);
      StepsAreKept(schema, names, h, r, t, head.cursor, head.floor, k);
    }
    NodeIsCarried(schema, names, h, r, t, head.tip);
    LineageKeepsItsNodes(schema, names, h, r, t, head.lineage);
  }

  lemma LineageKeepsItsNodes(schema: Schema, names: Names, h: History, r: Renames, t: History, lineage: Id)
    requires GraphOk(schema, names, h) && Covers(r, names, h) && Isomorphic(r) && Image(schema, r, h, t)
    requires lineage in h.lineages
    ensures |LineageNodes(t.nodes, r.lineages[lineage])| == |LineageNodes(h.nodes, lineage)|
  {
    var ids := LineageNodes(h.nodes, lineage);
    forall x ensures x in LineageNodes(t.nodes, r.lineages[lineage]) <==> exists id :: id in ids && r.nodes[id] == x {
      if x in t.nodes {
        var id := Origin(r.nodes, x);
        NodeIsCarried(schema, names, h, r, t, id);
        assert NodeOk(h, names, h.nodes[id]);
      }
      if id :| id in ids && r.nodes[id] == x {
        NodeIsCarried(schema, names, h, r, t, id);
      }
    }
    assert LineageNodes(t.nodes, r.lineages[lineage]) == ImageOf(r.nodes, ids);
    InjectiveImagesCount(r.nodes, ids);
  }

  function ImageOf(ids: map<Id, Id>, s: set<Id>): set<Id>
    requires s <= ids.Keys
  {
    set id | id in s :: ids[id]
  }

  lemma {:induction false} InjectiveImagesCount(ids: map<Id, Id>, s: set<Id>)
    requires Injective(ids) && s <= ids.Keys
    ensures |ImageOf(ids, s)| == |s|
    decreases |s|
  {
    if s != {} {
      var id :| id in s;
      InjectiveImagesCount(ids, s - {id});
      assert ImageOf(ids, s) == ImageOf(ids, s - {id}) + {ids[id]};
      assert ids[id] !in ImageOf(ids, s - {id});
    }
  }

  /** The draft, whose operations are taken as they are. */
  lemma DraftIsCarried(schema: Schema, names: Names, h: History, r: Renames, t: History)
    requires Validated(schema, names, h) && Covers(r, names, h) && Image(schema, r, h, t)
    ensures h.draft.Some? <==> t.draft.Some?
    ensures h.draft.Some? ==>
              var from, to := h.draft.value, t.draft.value;
              && CarriedId(r.revisions, from.base, to.base)
              && CarriedConfig(schema, r.assets, r.filaments, from.config, to.config)
              && to.schemaVersion == to.config.body.schemaVersion
              && to.operations == from.operations && to.generation == from.generation && to.hashed
              && to.details == from.details
  {
    if h.draft.Some? {
      var sha := h.nodes[h.head.value.cursor].state;
      assert StateOk(schema, names, h.lineages, sha, h.states[sha]);
      assert LineageOk(h.lineages[h.states[sha].lineage], names);
      ConfigIsCarried(schema, names, r, h.draft.value.config);
    }
  }
}

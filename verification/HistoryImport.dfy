/**
The history tables and `_restore_full_history` on them (src/image23mf/bundles.py:1663-1785), with
the constraints and triggers that guard every insert (src/image23mf/storage/migrations.py:657-962).
*/
module HistoryImport {
  import opened Wrappers
  import opened Identifiers
  import opened Columns
  import opened History
  import opened HistoryValidation
  import opened Renaming
  import opened StateIdentity

  /** A row that belongs to a project. */
  datatype Row<T> = Row(project: Id, record: T)

  // The images of the records already handled.
  function Images(ids: map<Id, Id>, done: set<Id>): set<Id> {
    set id | id in done && id in ids :: ids[id]
  }

  lemma ImagesGrow(ids: map<Id, Id>, done: set<Id>, id: Id)
    requires id in ids
    ensures Images(ids, done + {id}) == Images(ids, done) + {ids[id]}
  {
    forall x ensures x in Images(ids, done + {id}) <==> x in Images(ids, done) + {ids[id]} {
    }
  }

  /** The nodes of a finite set include one of least depth. */
  lemma {:induction false} ShallowestExists(nodes: map<Id, Node>, ids: set<Id>)
    requires ids != {} && ids <= nodes.Keys
    ensures exists id :: id in ids && forall other :: other in ids ==> nodes[id].depth <= nodes[other].depth
    decreases |ids|
  {
    var any :| any in ids;
    var rest := ids - {any};
    if rest != {} {
      ShallowestExists(nodes, rest);
      var best :| best in rest && forall other :: other in rest ==> nodes[best].depth <= nodes[other].depth;
      var id := if nodes[any].depth <= nodes[best].depth then any else best;
      assert forall other :: other in ids ==> other == any || other in rest;
      assert id in ids && forall other :: other in ids ==> nodes[id].depth <= nodes[other].depth;
    } else {
      assert ids == {any};
    }
  }

  // The next node of `sorted(nodes, key=depth, ...)`.
  method Shallowest(nodes: map<Id, Node>, ids: set<Id>) returns (id: Id)
    requires ids != {} && ids <= nodes.Keys
    ensures id in ids && forall other :: other in ids ==> nodes[id].depth <= nodes[other].depth
  {
    ShallowestExists(nodes, ids);
    id :| id in ids && forall other :: other in ids ==> nodes[id].depth <= nodes[other].depth;
  }

  /** `WHERE project_id = ?`. */
  function RecordsOf<T>(rows: map<Id, Row<T>>, project: Id): map<Id, T> {
    map id | id in rows && rows[id].project == project :: rows[id].record
  }

  /** `WHERE lineage_id IN (the project's lineages)`. */
  function StatesOf(lineages: map<Id, Row<Lineage>>, states: map<Hash, State>, project: Id): map<Hash, State> {
    map sha | sha in states && states[sha].lineage in lineages && lineages[states[sha].lineage].project == project
      :: states[sha]
  }

  function At<T>(rows: map<Id, T>, project: Id): Option<T> {
    if project in rows then Some(rows[project]) else None
  }

  // ----- what the tables hold after the loops

  ghost predicate LineageRowOf(h: History, r: Renames, project: Id, rows: map<Id, Row<Lineage>>, id: Id) {
    && id in h.lineages && id in r.lineages && h.lineages[id].source in r.assets
    && r.lineages[id] in rows && rows[r.lineages[id]] == Row(project, RenamedLineage(r, h.lineages[id]))
  }

  ghost predicate LineagesUpTo(h: History, r: Renames, project: Id,
                               before: map<Id, Row<Lineage>>, rows: map<Id, Row<Lineage>>, handled: set<Id>) {
    && rows.Keys == before.Keys + Images(r.lineages, handled)
    && (forall x :: x in before ==> x in rows && rows[x] == before[x])
    && (forall id {:trigger LineageRowOf(h, r, project, rows, id)} ::
          id in handled ==> LineageRowOf(h, r, project, rows, id))
  }

  lemma LineagesGrow(h: History, r: Renames, project: Id,
                     before: map<Id, Row<Lineage>>, rows: map<Id, Row<Lineage>>, handled: set<Id>, id: Id)
    requires LineagesUpTo(h, r, project, before, rows, handled) && Injective(r.lineages)
    requires id in h.lineages && id in r.lineages && id !in handled && h.lineages[id].source in r.assets
    requires r.lineages[id] !in before
    ensures r.lineages[id] !in rows
    ensures LineagesUpTo(h, r, project, before,
                         rows[r.lineages[id] := Row(project, RenamedLineage(r, h.lineages[id]))], handled + {id})
  {
    var after := rows[r.lineages[id] := Row(project, RenamedLineage(r, h.lineages[id]))];
    ImagesGrow(r.lineages, handled, id);
    forall x | x in handled + {id} ensures LineageRowOf(h, r, project, after, x) {
      if x != id { assert LineageRowOf(h, r, project, rows, x); }
    }
  }

  ghost predicate StateRowOf(schema: Schema, h: History, r: Renames, rows: map<Hash, State>, sha: Hash) {
    && sha in h.states && Rewritable(schema, r, h.states[sha])
    && RenamedHash(schema, r, h.states[sha]) in rows
    && rows[RenamedHash(schema, r, h.states[sha])] == RenamedState(schema, r, h.states[sha])
  }

  ghost predicate Handled(schema: Schema, r: Renames, h: History, remaining: set<Hash>, x: Hash) {
    exists sha :: sha in h.states && sha !in remaining && Rewritable(schema, r, h.states[sha])
      && RenamedHash(schema, r, h.states[sha]) == x
  }

  ghost predicate StatesUpTo(schema: Schema, h: History, r: Renames,
                             before: map<Hash, State>, rows: map<Hash, State>, remaining: set<Hash>) {
    && (forall x :: x in before ==> x in rows && rows[x] == before[x])
    && (forall sha {:trigger StateRowOf(schema, h, r, rows, sha)} ::
          sha in h.states && sha !in remaining ==> StateRowOf(schema, h, r, rows, sha))
    && (forall x {:trigger Handled(schema, r, h, remaining, x)} ::
          x in rows ==> x in before || Handled(schema, r, h, remaining, x))
  }

  lemma StatesGrow(schema: Schema, h: History, r: Renames,
                   before: map<Hash, State>, rows: map<Hash, State>, remaining: set<Hash>, sha: Hash)
    requires StatesUpTo(schema, h, r, before, rows, remaining)
    requires sha in remaining && sha in h.states && Rewritable(schema, r, h.states[sha])
    requires RenamedHash(schema, r, h.states[sha]) !in rows
    ensures StatesUpTo(schema, h, r, before,
                       rows[RenamedHash(schema, r, h.states[sha]) := RenamedState(schema, r, h.states[sha])],
                       remaining - {sha})
    ensures forall a :: a in h.states && a !in remaining - {sha} ==>
              Apart(schema, r, h, a, sha) && Apart(schema, r, h, sha, a)
  {
    var target := RenamedHash(schema, r, h.states[sha]);
    var after := rows[target := RenamedState(schema, r, h.states[sha])];
    forall a | a in h.states && a !in remaining - {sha}
      ensures StateRowOf(schema, h, r, after, a) && Apart(schema, r, h, a, sha) && Apart(schema, r, h, sha, a)
    {
      if a != sha { assert StateRowOf(schema, h, r, rows, a); }
    }
    forall x | x in after && x !in before ensures Handled(schema, r, h, remaining - {sha}, x) {
      if x != target {
        assert Handled(schema, r, h, remaining, x);
        var origin :| origin in h.states && origin !in remaining && Rewritable(schema, r, h.states[origin])
          && RenamedHash(schema, r, h.states[origin]) == x;
      }
    }
  }

  ghost predicate NodeRowOf(schema: Schema, h: History, r: Renames, project: Id, rows: map<Id, Row<Node>>, id: Id) {
    && id in h.nodes && id in r.nodes && NodeRenamable(schema, r, h, h.nodes[id])
    && r.nodes[id] in rows && rows[r.nodes[id]] == Row(project, RenamedNode(schema, r, h, h.nodes[id]))
  }

  // The rows there were, and the rows of the nodes handled so far.
  ghost predicate NodesUpTo(schema: Schema, h: History, r: Renames, project: Id,
                            before: map<Id, Row<Node>>, rows: map<Id, Row<Node>>, handled: set<Id>) {
    && rows.Keys == before.Keys + Images(r.nodes, handled)
    && (forall x :: x in before ==> x in rows && rows[x] == before[x])
    && (forall id {:trigger NodeRowOf(schema, h, r, project, rows, id)} ::
          id in handled ==> NodeRowOf(schema, h, r, project, rows, id))
  }

  lemma NodesGrow(schema: Schema, h: History, r: Renames, project: Id,
                  before: map<Id, Row<Node>>, rows: map<Id, Row<Node>>, handled: set<Id>, id: Id)
    requires NodesUpTo(schema, h, r, project, before, rows, handled) && Injective(r.nodes)
    requires id in h.nodes && id in r.nodes && id !in handled && NodeRenamable(schema, r, h, h.nodes[id])
    requires r.nodes[id] !in before
    ensures NodesUpTo(schema, h, r, project, before,
                      rows[r.nodes[id] := Row(project, RenamedNode(schema, r, h, h.nodes[id]))], handled + {id})
  {
    var after := rows[r.nodes[id] := Row(project, RenamedNode(schema, r, h, h.nodes[id]))];
    ImagesGrow(r.nodes, handled, id);
    forall x | x in handled + {id} ensures NodeRowOf(schema, h, r, project, after, x) {
      if x != id { assert NodeRowOf(schema, h, r, project, rows, x); }
    }
  }

  // ----- what the project exports then

  lemma GraphExport(schema: Schema, h: History, r: Renames, names: Names, project: Id,
                    lineagesBefore: map<Id, Row<Lineage>>, lineages: map<Id, Row<Lineage>>,
                    statesBefore: map<Hash, State>, states: map<Hash, State>,
                    nodesBefore: map<Id, Row<Node>>, nodes: map<Id, Row<Node>>)
    requires GraphOk(schema, names, h) && Covers(r, names, h)
    requires LineagesUpTo(h, r, project, lineagesBefore, lineages, h.lineages.Keys)
    requires StatesUpTo(schema, h, r, statesBefore, states, {})
    requires NodesUpTo(schema, h, r, project, nodesBefore, nodes, h.nodes.Keys)
    requires r.lineages.Values !! lineagesBefore.Keys && r.nodes.Values !! nodesBefore.Keys
    requires forall id :: id in lineagesBefore ==> lineagesBefore[id].project != project
    requires forall id :: id in nodesBefore ==> nodesBefore[id].project != project
    requires forall sha :: sha in statesBefore ==>
      statesBefore[sha].lineage in lineagesBefore && sha.lineage == statesBefore[sha].lineage
    ensures LineageImage(r, h, RecordsOf(lineages, project))
    ensures StateImage(schema, r, h, StatesOf(lineages, states, project))
    ensures NodeImage(schema, r, h, RecordsOf(nodes, project))
    ensures forall p :: p != project ==> RecordsOf(lineages, p) == RecordsOf(lineagesBefore, p)
    ensures forall p :: p != project ==> StatesOf(lineages, states, p) == StatesOf(lineagesBefore, statesBefore, p)
    ensures forall p :: p != project ==> RecordsOf(nodes, p) == RecordsOf(nodesBefore, p)
  {
    forall sha | sha in h.states ensures h.states[sha].lineage in h.lineages {
      assert StateOk(schema, names, h.lineages, sha, h.states[sha]);
    }
    LineageExport(h, r, names, project, lineagesBefore, lineages);
    StateExport(schema, h, r, names, project, lineagesBefore, lineages, statesBefore, states);
    NodeExport(schema, h, r, names, project, nodesBefore, nodes);
  }

  lemma RecordsOfGrown<T>(before: map<Id, Row<T>>, rows: map<Id, Row<T>>, added: set<Id>, project: Id)
    requires rows.Keys == before.Keys + added && added !! before.Keys
    requires forall x :: x in before ==> rows[x] == before[x] && before[x].project != project
    requires forall x :: x in added ==> rows[x].project == project
    ensures RecordsOf(rows, project).Keys == added
    ensures forall p :: p != project ==> RecordsOf(rows, p) == RecordsOf(before, p)
  {
    forall p | p != project ensures RecordsOf(rows, p) == RecordsOf(before, p) {
      assert forall x :: x in RecordsOf(rows, p) <==> x in RecordsOf(before, p);
    }
  }

  lemma LineageExport(h: History, r: Renames, names: Names, project: Id,
                      before: map<Id, Row<Lineage>>, rows: map<Id, Row<Lineage>>)
    requires LineagesUpTo(h, r, project, before, rows, h.lineages.Keys) && Covers(r, names, h)
    requires r.lineages.Values !! before.Keys
    requires forall id :: id in before ==> before[id].project != project
    ensures LineageImage(r, h, RecordsOf(rows, project))
    ensures forall p :: p != project ==> RecordsOf(rows, p) == RecordsOf(before, p)
  {
    assert Images(r.lineages, h.lineages.Keys) == r.lineages.Values;
    forall x | x in r.lineages.Values ensures x in rows && rows[x].project == project {
      var id := Origin(r.lineages, x);
      assert LineageRowOf(h, r, project, rows, id);
    }
    RecordsOfGrown(before, rows, r.lineages.Values, project);
    forall id | id in h.lineages ensures LineageMapped(r, h, RecordsOf(rows, project), id) {
      assert LineageRowOf(h, r, project, rows, id);
    }
  }

  lemma NodeExport(schema: Schema, h: History, r: Renames, names: Names, project: Id,
                   before: map<Id, Row<Node>>, rows: map<Id, Row<Node>>)
    requires NodesUpTo(schema, h, r, project, before, rows, h.nodes.Keys) && Covers(r, names, h)
    requires r.nodes.Values !! before.Keys
    requires forall id :: id in before ==> before[id].project != project
    ensures NodeImage(schema, r, h, RecordsOf(rows, project))
    ensures forall p :: p != project ==> RecordsOf(rows, p) == RecordsOf(before, p)
  {
    assert Images(r.nodes, h.nodes.Keys) == r.nodes.Values;
    forall x | x in r.nodes.Values ensures x in rows && rows[x].project == project {
      var id := Origin(r.nodes, x);
      assert NodeRowOf(schema, h, r, project, rows, id);
    }
    RecordsOfGrown(before, rows, r.nodes.Values, project);
    forall id | id in h.nodes ensures NodeMapped(schema, r, h, RecordsOf(rows, project), id) {
      assert NodeRowOf(schema, h, r, project, rows, id);
    }
  }

  lemma StateExport(schema: Schema, h: History, r: Renames, names: Names, project: Id,
                    lineagesBefore: map<Id, Row<Lineage>>, lineages: map<Id, Row<Lineage>>,
                    before: map<Hash, State>, rows: map<Hash, State>)
    requires StatesUpTo(schema, h, r, before, rows, {}) && Covers(r, names, h)
    requires LineagesUpTo(h, r, project, lineagesBefore, lineages, h.lineages.Keys)
    requires forall sha :: sha in before ==> before[sha].lineage in lineagesBefore && sha.lineage == before[sha].lineage
    requires r.lineages.Values !! lineagesBefore.Keys
    requires forall id :: id in lineagesBefore ==> lineagesBefore[id].project != project
    requires forall sha :: sha in h.states ==> h.states[sha].lineage in h.lineages
    ensures StateImage(schema, r, h, StatesOf(lineages, rows, project))
    ensures forall p :: p != project ==> StatesOf(lineages, rows, p) == StatesOf(lineagesBefore, before, p)
  {
    var exported := StatesOf(lineages, rows, project);
    forall sha | sha in h.states ensures StateMapped(schema, r, h, exported, sha) {
      assert StateRowOf(schema, h, r, rows, sha) && LineageRowOf(h, r, project, lineages, h.states[sha].lineage);
    }
    forall x | x in rows && x !in before
      ensures rows[x].lineage in lineages && lineages[rows[x].lineage].project == project
      ensures StateOrigin(schema, r, h, x)
    {
      assert Handled(schema, r, h, {}, x);
      var sha :| sha in h.states && Rewritable(schema, r, h.states[sha]) && RenamedHash(schema, r, h.states[sha]) == x;
      assert StateRowOf(schema, h, r, rows, sha) && LineageRowOf(h, r, project, lineages, h.states[sha].lineage);
    }
    OtherStatesStay(project, lineagesBefore, lineages, before, rows);
  }

  lemma OtherStatesStay(project: Id, lineagesBefore: map<Id, Row<Lineage>>, lineages: map<Id, Row<Lineage>>,
                        before: map<Hash, State>, rows: map<Hash, State>)
    requires forall id :: id in lineagesBefore ==> id in lineages && lineages[id] == lineagesBefore[id]
    requires forall x :: x in before ==> x in rows && rows[x] == before[x] && before[x].lineage in lineagesBefore
    requires forall x :: x in rows && x !in before ==>
              rows[x].lineage in lineages && lineages[rows[x].lineage].project == project
    ensures forall p :: p != project ==> StatesOf(lineages, rows, p) == StatesOf(lineagesBefore, before, p)
  {
    forall p | p != project ensures StatesOf(lineages, rows, p) == StatesOf(lineagesBefore, before, p) {
      assert forall x :: x in StatesOf(lineages, rows, p) <==> x in StatesOf(lineagesBefore, before, p);
    }
  }

  // ----- what an insert may be refused for, whatever the database holds

  predicate NodeFits(node: Node) {
    Storable(node.depth) && Storable(node.schemaVersion)
  }

  /** The CHECK of the drafts table. */
  predicate DraftFits(draft: Draft) {
    draft.generation > 0 && Storable(draft.generation)
  }

  ghost predicate StatesFit(h: History) {
    forall sha {:trigger h.states[sha]} :: sha in h.states ==> Storable(h.states[sha].schemaVersion)
  }

  ghost predicate NodesFit(h: History) {
    forall id {:trigger h.nodes[id]} :: id in h.nodes ==> NodeFits(h.nodes[id])
  }

  ghost predicate HistoryFits(h: History) {
    && StatesFit(h) && NodesFit(h)
    && (h.head.Some? ==> Storable(h.head.value.undoLimit))
    && (h.draft.Some? ==> DraftFits(h.draft.value))
  }

  // The draft of a full history is the state at its cursor.
  lemma DraftRewritesLikeItsState(schema: Schema, names: Names, h: History, assets: map<Id, Id>)
    requires Validated(schema, names, h) && StatesRewrite(schema, assets, h)
    ensures h.draft.Some? ==> ConfigRewrites(schema, assets, h.draft.value.config)
  {
    if h.draft.Some? {
      assert ConfigRewrites(schema, assets, h.states[h.nodes[h.head.value.cursor].state].config);
    }
  }

  /** The rows of the five history tables; heads and drafts are kept by project. */
  datatype HistoryRows = HistoryRows(
    lineages: map<Id, Row<Lineage>>,
    states: map<Hash, State>,
    nodes: map<Id, Row<Node>>,
    heads: map<Id, Head>,
    drafts: map<Id, Draft>)

  /** The full-history queries of `_build_manifest`. */
  function ExportOf(rows: HistoryRows, project: Id): History {
    History(
      RecordsOf(rows.lineages, project),
      StatesOf(rows.lineages, rows.states, project),
      RecordsOf(rows.nodes, project),
      At(rows.heads, project),
      At(rows.drafts, project))
  }

  /** No history row names the project yet; every state row has its lineage row, which its fingerprint covers. */
  ghost predicate HistoryMayGoIn(rows: HistoryRows, project: Id) {
    && (forall id :: id in rows.lineages ==> rows.lineages[id].project != project)
    && (forall id :: id in rows.nodes ==> rows.nodes[id].project != project)
    && project !in rows.heads && project !in rows.drafts
    && (forall sha :: sha in rows.states ==>
          rows.states[sha].lineage in rows.lineages && sha.lineage == rows.states[sha].lineage)
  }

  /** What a successful import leaves: the project's image, and every other project as it was. */
  ghost predicate Imported(schema: Schema, h: History, r: Renames, before: HistoryRows, after: HistoryRows,
                           project: Id) {
    && Image(schema, r, h, ExportOf(after, project))
    && forall p :: p != project ==> ExportOf(after, p) == ExportOf(before, p)
  }

  lemma ImportIsAnImage(schema: Schema, h: History, r: Renames, names: Names, before: HistoryRows, after: HistoryRows,
                        project: Id)
    requires GraphOk(schema, names, h) && Covers(r, names, h) && HistoryMayGoIn(before, project)
    requires r.lineages.Values !! before.lineages.Keys && r.nodes.Values !! before.nodes.Keys
    requires LineagesUpTo(h, r, project, before.lineages, after.lineages, h.lineages.Keys)
    requires StatesUpTo(schema, h, r, before.states, after.states, {})
    requires NodesUpTo(schema, h, r, project, before.nodes, after.nodes, h.nodes.Keys)
    requires HeadImage(r, h, At(after.heads, project)) && DraftImage(schema, r, h, At(after.drafts, project))
    requires forall p :: p != project ==> At(after.heads, p) == At(before.heads, p)
    requires forall p :: p != project ==> At(after.drafts, p) == At(before.drafts, p)
    ensures Imported(schema, h, r, before, after, project)
  {
    GraphExport(schema, h, r, names, project, before.lineages, after.lineages, before.states, after.states,
                before.nodes, after.nodes);
  }

  class HistoryTables {
    var assets: set<Id>
    var revisions: map<Id, Id>  // revision to project
    var lineages: map<Id, Row<Lineage>>
    var states: map<Hash, State>
    var nodes: map<Id, Row<Node>>
    var heads: map<Id, Head>    // by project
    var drafts: map<Id, Draft>  // by project

    constructor (assets: set<Id>, revisions: map<Id, Id>, rows: HistoryRows)
      ensures this.assets == assets && this.revisions == revisions
      ensures lineages == rows.lineages && states == rows.states && nodes == rows.nodes
      ensures heads == rows.heads && drafts == rows.drafts
    {
      this.assets, this.revisions := assets, revisions;
      lineages, states, nodes, heads, drafts := rows.lineages, rows.states, rows.nodes, rows.heads, rows.drafts;
    }

    // ----- what the schema refuses

    predicate LineageInsertable(id: Id, row: Row<Lineage>)
      reads this
    {
      && id !in lineages
      && row.record.source in assets
      && (row.record.base.Some? ==>
            row.record.base.value in revisions && revisions[row.record.base.value] == row.project)
    }

    predicate StateInsertable(sha: Hash, state: State)
      reads this
    {
      && sha !in states
      && state.lineage in lineages
      && state.source == lineages[state.lineage].record.source
      && state.base == lineages[state.lineage].record.base
      && Storable(state.schemaVersion)
    }

    predicate NodeInsertable(id: Id, row: Row<Node>)
      reads this
    {
      var node := row.record;
      && id !in nodes && NodeFits(node)
      && node.lineage in lineages && lineages[node.lineage].project == row.project
      && node.state in states && states[node.state].lineage == node.lineage
      && (node.checkpoint.Some? ==>
            node.checkpoint.value in revisions && revisions[node.checkpoint.value] == row.project)
      && (node.parent.Some? ==>
            && node.parent.value in nodes
            && nodes[node.parent.value].project == row.project
            && nodes[node.parent.value].record.lineage == node.lineage
            && nodes[node.parent.value].record.depth + 1 == node.depth)
      && (node.request.Some? ==>
            forall x :: x in nodes && nodes[x].project == row.project ==> nodes[x].record.request != node.request)
    }

    predicate InProject(id: Id, project: Id, lineage: Id)
      reads this
    {
      id in nodes && nodes[id].project == project && nodes[id].record.lineage == lineage
    }

    predicate HeadInsertable(project: Id, head: Head)
      reads this
    {
      && project !in heads && Storable(head.undoLimit)
      && head.lineage in lineages && lineages[head.lineage].project == project
      && InProject(head.checkpoint, project, head.lineage)
      && InProject(head.floor, project, head.lineage)
      && InProject(head.cursor, project, head.lineage)
      && InProject(head.tip, project, head.lineage)
    }

    ghost function Rows(): HistoryRows
      reads this
    {
      HistoryRows(lineages, states, nodes, heads, drafts)
    }

    ghost function Export(project: Id): History
      reads this
    {
      ExportOf(Rows(), project)
    }

    // Every state row has its lineage row, a foreign key, and its fingerprint covers that id.
    ghost predicate StatesOwned()
      reads this
    {
      forall sha :: sha in states ==> states[sha].lineage in lineages && sha.lineage == states[sha].lineage
    }

    // The project row was just inserted: no history row can name it yet.
    ghost predicate Unused(project: Id)
      reads this
    {
      && (forall id :: id in lineages ==> lineages[id].project != project)
      && (forall id :: id in nodes ==> nodes[id].project != project)
      && project !in heads && project !in drafts
    }

    // ----- inserts: an insert whose constraint fails aborts, so each one must be shown to pass

    method InsertLineage(id: Id, row: Row<Lineage>)
      requires LineageInsertable(id, row)
      modifies this`lineages
      ensures lineages == old(lineages)[id := row]
    {
      lineages := lineages[id := row];
    }

    method InsertState(sha: Hash, state: State)
      requires StateInsertable(sha, state)
      modifies this`states
      ensures states == old(states)[sha := state]
    {
      states := states[sha := state];
    }

    method InsertNode(id: Id, row: Row<Node>)
      requires NodeInsertable(id, row)
      modifies this`nodes
      ensures nodes == old(nodes)[id := row]
    {
      nodes := nodes[id := row];
    }

    method InsertHead(project: Id, head: Head)
      requires HeadInsertable(project, head)
      modifies this`heads
      ensures heads == old(heads)[project := head]
    {
      heads := heads[project := head];
    }

    // ----- the loops of `_restore_full_history`

    method InsertLineages(h: History, r: Renames, names: Names, project: Id)
      requires Covers(r, names, h) && Injective(r.lineages)
      requires forall id :: id in h.lineages ==> LineageOk(h.lineages[id], names)
      requires r.lineages.Values !! lineages.Keys && r.assets.Values <= assets
      requires forall x :: x in r.revisions.Values ==> x in revisions && revisions[x] == project
      modifies this`lineages
      ensures LineagesUpTo(h, r, project, old(lineages), lineages, h.lineages.Keys)
    {
      var remaining := h.lineages.Keys;
      while remaining != {}
        invariant remaining <= h.lineages.Keys
        invariant LineagesUpTo(h, r, project, old(lineages), lineages, h.lineages.Keys - remaining)
        decreases remaining
      {
        var id :| id in remaining;
        assert LineageOk(h.lineages[id], names);
        LineagesGrow(h, r, project, old(lineages), lineages, h.lineages.Keys - remaining, id);
        assert h.lineages.Keys - remaining + {id} == h.lineages.Keys - (remaining - {id});
        InsertLineage(r.lineages[id], Row(project, RenamedLineage(r, h.lineages[id])));
        remaining := remaining - {id};
      }
      assert h.lineages.Keys - remaining == h.lineages.Keys;
    }

    // One turn of the loop over the states.
    method InsertNextState(schema: Schema, h: History, r: Renames, names: Names, project: Id,
                           ghost linesBefore: map<Id, Row<Lineage>>, ghost before: map<Hash, State>,
                           ghost remaining: set<Hash>, sha: Hash) returns (ok: bool)
      requires GraphOk(schema, names, h) && Covers(r, names, h) && sha in remaining && sha in h.states
      requires LineagesUpTo(h, r, project, linesBefore, lineages, h.lineages.Keys)
      requires forall x :: x in before ==> x.lineage !in r.lineages.Values
      requires StatesUpTo(schema, h, r, before, states, remaining)
      modifies this`states
      ensures ok ==> StatesUpTo(schema, h, r, before, states, remaining - {sha})
      ensures ok ==> Storable(h.states[sha].schemaVersion)
      ensures ok ==> forall a :: a in h.states && a !in remaining - {sha} ==>
                Apart(schema, r, h, a, sha) && Apart(schema, r, h, sha, a)
      ensures !ok ==> !StatesFit(h) || !StatesStayDistinct(schema, r, h)
    {
      var state := h.states[sha];
      assert StateOk(schema, names, h.lineages, sha, state);
      assert LineageRowOf(h, r, project, lineages, state.lineage);
      if !ConfigRewrites(schema, r.assets, state.config) || !Storable(state.schemaVersion) {
        assert !Apart(schema, r, h, sha, sha) || !StatesFit(h);
        return false;
      }
      var target := RenamedHash(schema, r, state);
      if target in states {
        assert Handled(schema, r, h, remaining, target);
        ghost var other :| other in h.states && other !in remaining && Rewritable(schema, r, h.states[other])
          && RenamedHash(schema, r, h.states[other]) == target;
        assert !Apart(schema, r, h, sha, other);
        return false;
      }
      StatesGrow(schema, h, r, before, states, remaining, sha);
      InsertState(target, RenamedState(schema, r, state));
      ok := true;
    }

    /** The loop over the states stops at one that cannot be rewritten or stored, or has become an earlier one's row. */
    method InsertStates(schema: Schema, h: History, r: Renames, names: Names, project: Id,
                        ghost before: map<Id, Row<Lineage>>) returns (ok: bool)
      requires GraphOk(schema, names, h) && Covers(r, names, h)
      requires LineagesUpTo(h, r, project, before, lineages, h.lineages.Keys)
      requires forall sha :: sha in states ==> sha.lineage !in r.lineages.Values
      modifies this`states
      ensures ok ==> StatesUpTo(schema, h, r, old(states), states, {})
      ensures ok <==> StatesFit(h) && StatesStayDistinct(schema, r, h)
    {
      var remaining := h.states.Keys;
      while remaining != {}
        invariant remaining <= h.states.Keys
        invariant StatesUpTo(schema, h, r, old(states), states, remaining)
        invariant forall a {:trigger h.states[a]} :: a in h.states && a !in remaining ==>
          Storable(h.states[a].schemaVersion)
        invariant forall a, b :: a in h.states && b in h.states && a !in remaining && b !in remaining ==>
          Apart(schema, r, h, a, b)
        decreases remaining
      {
        var sha :| sha in remaining;
        ok := InsertNextState(schema, h, r, names, project, before, old(states), remaining, sha);
        if !ok { return; }
        remaining := remaining - {sha};
      }
      ok := true;
    }

    // What the earlier loops have established when the nodes go in.
    ghost predicate NodesMayGoIn(schema: Schema, h: History, r: Renames, names: Names, project: Id)
      reads this`lineages, this`states, this`revisions
    {
      && GraphOk(schema, names, h) && Covers(r, names, h) && Injective(r.nodes)
      && (forall x {:trigger LineageRowOf(h, r, project, lineages, x)} ::
            x in h.lineages ==> LineageRowOf(h, r, project, lineages, x))
      && (forall sha {:trigger StateRowOf(schema, h, r, states, sha)} ::
            sha in h.states ==> StateRowOf(schema, h, r, states, sha))
      && (forall x :: x in r.revisions.Values ==> x in revisions && revisions[x] == project)
    }

    // A node whose parent is in passes every check of its insert.
    lemma NodeCanBeInserted(schema: Schema, h: History, r: Renames, names: Names, project: Id,
                            before: map<Id, Row<Node>>, handled: set<Id>, id: Id)
      requires NodesMayGoIn(schema, h, r, names, project) && id in h.nodes && id !in handled
      requires NodesUpTo(schema, h, r, project, before, nodes, handled)
      requires forall x :: x in before ==> before[x].project != project
      requires r.nodes[id] !in before
      requires h.nodes[id].parent.Some? ==> h.nodes[id].parent.value in handled
      requires NodeFits(h.nodes[id])
      ensures NodeRenamable(schema, r, h, h.nodes[id])
      ensures NodeInsertable(r.nodes[id], Row(project, RenamedNode(schema, r, h, h.nodes[id])))
    {
      var node := h.nodes[id];
      assert NodeOk(h, names, node);
      assert LineageRowOf(h, r, project, lineages, node.lineage) && StateRowOf(schema, h, r, states, node.state);
      if node.parent.Some? { assert NodeRowOf(schema, h, r, project, nodes, node.parent.value); }
      forall x | x in nodes && nodes[x].project == project && node.request.Some?
        ensures nodes[x].record.request != node.request
      {
        assert x in Images(r.nodes, handled);
        var origin :| origin in handled && origin in r.nodes && r.nodes[origin] == x;
        assert NodeRowOf(schema, h, r, project, nodes, origin);
      }
    }

    // One turn of the loop over the sorted nodes: the next node goes in, or its integers do not fit.
    method InsertNextNode(schema: Schema, h: History, r: Renames, names: Names, project: Id,
                          ghost before: map<Id, Row<Node>>, ghost handled: set<Id>, remaining: set<Id>)
      returns (id: Id, ok: bool)
      requires NodesMayGoIn(schema, h, r, names, project)
      requires remaining != {} && remaining <= h.nodes.Keys && handled == h.nodes.Keys - remaining
      requires NodesUpTo(schema, h, r, project, before, nodes, handled)
      requires forall x :: x in before ==> before[x].project != project
      requires r.nodes.Values !! before.Keys
      modifies this`nodes
      ensures id in remaining && (ok <==> NodeFits(h.nodes[id]))
      ensures ok ==> NodesUpTo(schema, h, r, project, before, nodes, handled + {id})
    {
      id := Shallowest(h.nodes, remaining);
      assert h.nodes[id].parent.Some? ==> h.nodes[id].parent.value in handled by {
        assert NodeOk(h, names, h.nodes[id]);
      }
      ok := NodeFits(h.nodes[id]);
      if ok {
        NodeCanBeInserted(schema, h, r, names, project, before, handled, id);
        NodesGrow(schema, h, r, project, before, nodes, handled, id);
        InsertNode(r.nodes[id], Row(project, RenamedNode(schema, r, h, h.nodes[id])));
      }
    }

    /** Nodes go in by depth, so every node finds its parent in the table. */
    method InsertNodes(schema: Schema, h: History, r: Renames, names: Names, project: Id) returns (ok: bool)
      requires NodesMayGoIn(schema, h, r, names, project)
      requires r.nodes.Values !! nodes.Keys
      requires forall id :: id in nodes ==> nodes[id].project != project
      modifies this`nodes
      ensures ok <==> NodesFit(h)
      ensures ok ==> NodesUpTo(schema, h, r, project, old(nodes), nodes, h.nodes.Keys)
    {
      var remaining := h.nodes.Keys;
      while remaining != {}
        invariant remaining <= h.nodes.Keys
        invariant forall id {:trigger h.nodes[id]} :: id in h.nodes && id !in remaining ==> NodeFits(h.nodes[id])
        invariant NodesUpTo(schema, h, r, project, old(nodes), nodes, h.nodes.Keys - remaining)
        decreases remaining
      {
        var id, fits := InsertNextNode(schema, h, r, names, project, old(nodes), h.nodes.Keys - remaining, remaining);
        if !fits { return false; }
        assert h.nodes.Keys - remaining + {id} == h.nodes.Keys - (remaining - {id});
        remaining := remaining - {id};
      }
      assert h.nodes.Keys - remaining == h.nodes.Keys;
      ok := true;
    }

    lemma HeadCanBeInserted(schema: Schema, h: History, r: Renames, names: Names, project: Id,
                            before: map<Id, Row<Node>>)
      requires NodesMayGoIn(schema, h, r, names, project)
      requires NodesUpTo(schema, h, r, project, before, nodes, h.nodes.Keys)
      requires h.head.Some? && HeadOk(h, h.head.value) && project !in heads && Storable(h.head.value.undoLimit)
      ensures HeadInsertable(project, RenamedHead(r, h.head.value))
    {
      var head := h.head.value;
      assert LineageRowOf(h, r, project, lineages, head.lineage);
      assert NodeRowOf(schema, h, r, project, nodes, head.checkpoint)
          && NodeRowOf(schema, h, r, project, nodes, head.floor);
      assert NodeRowOf(schema, h, r, project, nodes, head.cursor) && NodeRowOf(schema, h, r, project, nodes, head.tip);
    }

    lemma StatesWereRewritten(schema: Schema, h: History, r: Renames, names: Names, project: Id)
      requires NodesMayGoIn(schema, h, r, names, project)
      ensures StatesRewrite(schema, r.assets, h)
    {
      forall sha | sha in h.states ensures ConfigRewrites(schema, r.assets, h.states[sha].config) {
        assert StateRowOf(schema, h, r, states, sha);
      }
    }

    method InsertHeadAndDraft(schema: Schema, h: History, r: Renames, names: Names, project: Id,
                              ghost before: map<Id, Row<Node>>) returns (ok: bool)
      requires Validated(schema, names, h) && NodesMayGoIn(schema, h, r, names, project)
      requires NodesUpTo(schema, h, r, project, before, nodes, h.nodes.Keys) && project !in heads && project !in drafts
      modifies this`heads, this`drafts
      ensures ok <==> && (h.head.Some? ==> Storable(h.head.value.undoLimit))
                      && (h.draft.Some? ==> DraftFits(h.draft.value))
      ensures ok ==> HeadImage(r, h, At(heads, project)) && DraftImage(schema, r, h, At(drafts, project))
      ensures forall p :: p != project ==> At(heads, p) == At(old(heads), p) && At(drafts, p) == At(old(drafts), p)
    {
      if h.draft.Some? {
        if !DraftFits(h.draft.value) { return false; }
        StatesWereRewritten(schema, h, r, names, project);
        DraftRewritesLikeItsState(schema, names, h, r.assets);
        drafts := drafts[project := RenamedDraft(schema, r, h.draft.value)];
      }
      if h.head.Some? {
        if !Storable(h.head.value.undoLimit) { return false; }
        HeadCanBeInserted(schema, h, r, names, project, before);
        InsertHead(project, RenamedHead(r, h.head.value));
      }
      ok := true;
    }

    // Lineages, states and nodes.
    method InsertGraph(schema: Schema, h: History, r: Renames, names: Names, project: Id) returns (ok: bool)
      requires GraphOk(schema, names, h) && Covers(r, names, h) && Isomorphic(r)
      requires r.lineages.Values !! lineages.Keys && r.nodes.Values !! nodes.Keys && r.assets.Values <= assets
      requires forall x :: x in r.revisions.Values ==> x in revisions && revisions[x] == project
      requires forall sha :: sha in states ==> sha.lineage !in r.lineages.Values
      requires forall id :: id in nodes ==> nodes[id].project != project
      modifies this`lineages, this`states, this`nodes
      ensures ok <==> StatesFit(h) && NodesFit(h) && StatesStayDistinct(schema, r, h)
      ensures ok ==> LineagesUpTo(h, r, project, old(lineages), lineages, h.lineages.Keys)
      ensures ok ==> StatesUpTo(schema, h, r, old(states), states, {})
      ensures ok ==> NodesUpTo(schema, h, r, project, old(nodes), nodes, h.nodes.Keys)
      ensures ok ==> NodesMayGoIn(schema, h, r, names, project)
    {
      InsertLineages(h, r, names, project);
      ok := InsertStates(schema, h, r, names, project, old(lineages));
      if ok {
        ok := InsertNodes(schema, h, r, names, project);
      }
    }

    // Everything under the chosen ids; a refused insert leaves rows behind that the rollback removes.
    method InsertHistory(schema: Schema, h: History, r: Renames, names: Names, project: Id) returns (ok: bool)
      requires Validated(schema, names, h) && Covers(r, names, h) && Isomorphic(r)
      requires Unused(project) && StatesOwned()
      requires r.lineages.Values !! lineages.Keys && r.nodes.Values !! nodes.Keys && r.assets.Values <= assets
      requires forall x :: x in r.revisions.Values ==> x in revisions && revisions[x] == project
      modifies this`lineages, this`states, this`nodes, this`heads, this`drafts
      ensures ok <==> HistoryFits(h) && StatesStayDistinct(schema, r, h)
      ensures ok ==> Imported(schema, h, r, old(Rows()), Rows(), project)
    {
      ghost var before := Rows();
      ok := InsertGraph(schema, h, r, names, project);
      if ok {
        ok := InsertHeadAndDraft(schema, h, r, names, project, before.nodes);
      }
      if ok {
        ImportIsAnImage(schema, h, r, names, before, Rows(), project);
      }
    }

    // One transaction: all or nothing.
    method InsertOrRollBack(schema: Schema, h: History, r: Renames, names: Names, project: Id) returns (ok: bool)
      requires Validated(schema, names, h) && Covers(r, names, h) && Isomorphic(r)
      requires Unused(project) && StatesOwned()
      requires r.lineages.Values !! lineages.Keys && r.nodes.Values !! nodes.Keys && r.assets.Values <= assets
      requires forall x :: x in r.revisions.Values ==> x in revisions && revisions[x] == project
      modifies this`lineages, this`states, this`nodes, this`heads, this`drafts
      ensures ok <==> HistoryFits(h) && StatesStayDistinct(schema, r, h)
      ensures ok ==> Imported(schema, h, r, old(Rows()), Rows(), project)
      ensures !ok ==> Rows() == old(Rows())
    {
      var saved := HistoryRows(lineages, states, nodes, heads, drafts);
      ok := InsertHistory(schema, h, r, names, project);
      if !ok {
        lineages, states, nodes := saved.lineages, saved.states, saved.nodes;
        heads, drafts := saved.heads, saved.drafts;
      }
    }

    /**
    The draft row and `_restore_full_history`. On success the project's rows are the image of the
    bundle's history under injective renamings and no other project's rows change; the import fails,
    and is rolled back, exactly when an integer does not fit its column, a configuration cannot be
    rewritten, or two states of the bundle would become one row.
    */
    method RestoreFullHistory(schema: Schema, h: History, names: Names, project: Id,
                              assetMap: map<Id, Id>, revisionMap: map<Id, Id>, filamentMap: map<Id, Id>)
      returns (ok: bool, r: Renames)
      requires Validated(schema, names, h) && Unused(project) && StatesOwned()
      requires assetMap.Keys == names.assets && assetMap.Values <= assets
      requires revisionMap.Keys == names.revisions && filamentMap.Keys == names.filaments
      requires forall x :: x in revisionMap.Values ==> x in revisions && revisions[x] == project
      modifies this`lineages, this`states, this`nodes, this`heads, this`drafts
      ensures (r.assets, r.revisions, r.filaments) == (assetMap, revisionMap, filamentMap)
      ensures Covers(r, names, h) && Isomorphic(r)
      ensures ok <==> HistoryFits(h) && StatesRewrite(schema, assetMap, h) && !StatesCollide(filamentMap, h)
      ensures forall id :: id in h.lineages ==> (r.lineages[id] == id <==> id !in old(lineages))
      ensures forall id :: id in h.nodes ==> (r.nodes[id] == id <==> id !in old(nodes))
      ensures ok ==> Image(schema, r, h, Export(project))
      ensures forall p :: p != project ==> Export(p) == old(Export(p))
      ensures !ok ==> Rows() == old(Rows())
    {
      var lineageMap := AvailableIds(lineages.Keys, h.lineages.Keys);
      var nodeMap := AvailableIds(nodes.Keys, h.nodes.Keys);
      r := Renames(assetMap, revisionMap, filamentMap, lineageMap, nodeMap);
      StatesStayDistinctExactly(schema, names, h, r);
      ok := InsertOrRollBack(schema, h, r, names, project);
    }
  }

  /** The id maps that exist before the history goes in. */
  function RecordMaps(r: Renames): Renames {
    r.(lineages := map[], nodes := map[])
  }

  /** The project's history is the bundle's under new ids; ids that were free are kept; nothing else changes. */
  ghost predicate HistoryRestored(schema: Schema, names: Names, h: History, before: HistoryRows, after: HistoryRows,
                                  project: Id, r: Renames) {
    && Covers(r, names, h) && Isomorphic(r)
    && (forall id :: id in h.lineages ==> (r.lineages[id] == id <==> id !in before.lineages))
    && (forall id :: id in h.nodes ==> (r.nodes[id] == id <==> id !in before.nodes))
    && Image(schema, r, h, ExportOf(after, project))
    && (forall p :: p != project ==> ExportOf(after, p) == ExportOf(before, p))
  }

  /** The same on a transaction's own view of the rows. */
  method RestoreHistoryRows(schema: Schema, h: History, names: Names, project: Id, maps: Renames, assets: set<Id>,
                            revisions: map<Id, Id>, before: HistoryRows)
    returns (ok: bool, r: Renames, after: HistoryRows)
    requires Validated(schema, names, h) && HistoryMayGoIn(before, project) && maps == RecordMaps(maps)
    requires maps.assets.Keys == names.assets && maps.assets.Values <= assets
    requires maps.revisions.Keys == names.revisions && maps.filaments.Keys == names.filaments
    requires forall x :: x in maps.revisions.Values ==> x in revisions && revisions[x] == project
    ensures RecordMaps(r) == maps
    ensures ok <==> HistoryFits(h) && StatesRewrite(schema, maps.assets, h) && !StatesCollide(maps.filaments, h)
    ensures ok ==> HistoryRestored(schema, names, h, before, after, project, r)
  {
    var tables := new HistoryTables(assets, revisions, before);
    assert forall p :: tables.Export(p) == ExportOf(before, p);
    ok, r := tables.RestoreFullHistory(schema, h, names, project, maps.assets, maps.revisions, maps.filaments);
    after := HistoryRows(tables.lineages, tables.states, tables.nodes, tables.heads, tables.drafts);
    assert after == tables.Rows();
    assert forall p :: tables.Export(p) == ExportOf(after, p);
  }
}

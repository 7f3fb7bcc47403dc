/**
The draft history that a project bundle carries, and the validation a manifest must pass
(src/image23mf/bundles.py, src/image23mf/storage/history.py).

A manifest's record lists are finite maps keyed by id, as the validator builds them. A SHA-256
fingerprint is its own preimage, so equal fingerprints mean equal contents.
*/
module History {
  import opened Wrappers
  import opened Identifiers

  /** One stored operation: absent keys and keys the application does not know stay visible. */
  datatype RawOperation = RawOperation(
    kind: Option<nat>,
    selection: Option<nat>,
    parameters: Option<nat>,
    source: Option<nat>,
    provenance: Option<nat>,
    unknown: nat)

  datatype Operation = Operation(kind: nat, selection: nat, parameters: nat, source: nat, provenance: nat)

  const EMPTY_OBJECT: nat := 0
  const MANUAL: nat := 0

  function OrElse(value: Option<nat>, default: nat): nat {
    if value.Some? then value.value else default
  }

  predicate Readable(operations: seq<RawOperation>) {
    forall i :: 0 <= i < |operations| ==> operations[i].kind.Some?
  }

  /** `_history_operations`: defaults for absent keys, unknown keys dropped. */
  function Normalised(operations: seq<RawOperation>): (r: seq<Operation>)
    requires Readable(operations)
    ensures |r| == |operations|
  {
    seq(|operations|, i requires 0 <= i < |operations| =>
      Operation(operations[i].kind.value,
                OrElse(operations[i].selection, EMPTY_OBJECT),
                OrElse(operations[i].parameters, EMPTY_OBJECT),
                OrElse(operations[i].source, MANUAL),
                OrElse(operations[i].provenance, EMPTY_OBJECT)))
  }

  /** `operation_json`: all five keys and no other. */
  function Stored(operations: seq<Operation>): (r: seq<RawOperation>)
    ensures |r| == |operations|
  {
    seq(|operations|, i requires 0 <= i < |operations| =>
      RawOperation(Some(operations[i].kind), Some(operations[i].selection), Some(operations[i].parameters),
                   Some(operations[i].source), Some(operations[i].provenance), EMPTY_OBJECT))
  }

  lemma StoredReadsBack(operations: seq<Operation>)
    ensures Readable(Stored(operations)) && Normalised(Stored(operations)) == operations
  {
  }

  /** A palette entry as loading reads it. */
  datatype Color = Color(filament: Option<Id>, swatch: nat)

  /** What a configuration holds besides the ids that an import rewrites, as it is written. */
  datatype Body = Body(schemaVersion: nat, fields: nat)

  datatype Config = Config(source: Id, colors: seq<Color>, body: Body)

  /**
  What this model takes from the configuration contract (src/image23mf/contracts/job.py:90-241):
  `load` validates a configuration and returns its canonical current form; `sourceId` accepts the
  ids of 1 to 128 characters; `rewritable` says that the palette is an object, which the rewriting
  of ids takes for granted although loading accepts a list of colors from version 0; `size` is the
  length of the canonical JSON text.
  */
  datatype Schema = Schema(
    load: Body -> Option<Body>,
    sourceId: Id -> bool,
    rewritable: Body -> bool,
    size: (Config, seq<Operation>) -> nat)

  const FEWEST_COLORS: nat := 2
  const MOST_COLORS: nat := 8

  /** `load_job_config` returns. */
  predicate Loads(schema: Schema, config: Config) {
    && schema.load(config.body).Some?
    && schema.sourceId(config.source)
    && FEWEST_COLORS <= |config.colors| <= MOST_COLORS
  }

  // Canonical configurations load as themselves.
  ghost predicate Idempotent(schema: Schema) {
    forall body :: schema.load(body).Some? ==>
      schema.load(schema.load(body).value) == schema.load(body)
  }

  datatype Hash = Hash(
    lineage: Id,
    schemaVersion: nat,
    base: Option<Id>,
    source: Id,
    config: Config,
    operations: seq<Operation>)

  datatype Lineage = Lineage(base: Option<Id>, source: Id, details: nat)

  datatype State = State(
    lineage: Id,
    schemaVersion: nat,
    base: Option<Id>,
    source: Id,
    config: Config,
    operations: seq<RawOperation>,
    byteSize: nat,
    details: nat)

  datatype Node = Node(
    lineage: Id,
    parent: Option<Id>,
    state: Hash,
    depth: nat,
    request: Option<Id>,
    schemaVersion: nat,
    checkpoint: Option<Id>,
    createdAt: nat,
    details: nat)

  datatype Head = Head(
    lineage: Id, checkpoint: Id, floor: Id, cursor: Id, tip: Id, undoLimit: nat, details: nat)

  /** `hashed` says that the config's fingerprint is recorded; older drafts lack it. */
  datatype Draft = Draft(
    base: Option<Id>,
    schemaVersion: nat,
    config: Config,
    operations: seq<RawOperation>,
    generation: int,
    hashed: bool,
    details: nat)

  datatype History = History(
    lineages: map<Id, Lineage>,
    states: map<Hash, State>,
    nodes: map<Id, Node>,
    head: Option<Head>,
    draft: Option<Draft>)

  /** The ids a manifest declares. */
  datatype Names = Names(assets: set<Id>, revisions: set<Id>, filaments: set<Id>)

  // ----- ancestry

  /** The k-th ancestor of a node, if the parent chain is that long. */
  function Up(nodes: map<Id, Node>, id: Id, k: nat): Option<Id>
    decreases k
  {
    if k == 0 then Some(id)
    else if id in nodes && nodes[id].parent.Some? then Up(nodes, nodes[id].parent.value, k - 1)
    else None
  }

  /** Reflexive and transitive ancestry, with no assumption on the parent map. */
  ghost predicate Ancestor(nodes: map<Id, Node>, ancestor: Id, descendant: Id) {
    exists k: nat :: Up(nodes, descendant, k) == Some(ancestor)
  }

  lemma {:induction false} UpSplits(nodes: map<Id, Node>, id: Id, a: nat, b: nat)
    ensures Up(nodes, id, a + b) == if Up(nodes, id, a).Some? then Up(nodes, Up(nodes, id, a).value, b) else None
    decreases a
  {
    if a > 0 && id in nodes && nodes[id].parent.Some? {
      UpSplits(nodes, nodes[id].parent.value, a - 1, b);
    }
  }

  // A chain that meets an earlier node again only ever visits the nodes before the repetition.
  lemma {:induction false} RepetitionClosesTheChain(nodes: map<Id, Node>, id: Id, i: nat, k: nat, m: nat)
    requires i < k && Up(nodes, id, k).Some? && Up(nodes, id, i) == Up(nodes, id, k)
    ensures exists j: nat :: j < k && Up(nodes, id, m) == Up(nodes, id, j)
    decreases m
  {
    if m >= k {
      UpSplits(nodes, id, k, m - k);
      UpSplits(nodes, id, i, m - k);
      RepetitionClosesTheChain(nodes, id, i, k, i + (m - k));
    }
  }

  /** `_history_is_ancestor`: it ends on every finite parent map, cyclic or not, and decides ancestry. */
  method IsAncestor(nodes: map<Id, Node>, ancestor: Id, descendant: Id) returns (found: bool)
    ensures found <==> Ancestor(nodes, ancestor, descendant)
  {
    var current := descendant;
    var seen: set<Id> := {};
    ghost var k: nat := 0;
    while current !in seen
      invariant Up(nodes, descendant, k) == Some(current)
      invariant seen <= nodes.Keys
      invariant forall id :: id in seen <==> exists j: nat :: j < k && Up(nodes, descendant, j) == Some(id)
      invariant ancestor !in seen
      decreases nodes.Keys - seen
    {
      if current == ancestor { return true; }
      if current !in nodes || nodes[current].parent.None? {
        ChainEnds(nodes, descendant, k, ancestor, seen);
        return false;
      }
      UpSplits(nodes, descendant, k, 1);
      assert Up(nodes, current, 1) == Up(nodes, nodes[current].parent.value, 0);
      seen := seen + {current};
      k := k + 1;
      current := nodes[current].parent.value;
    }
    ghost var i: nat :| i < k && Up(nodes, descendant, i) == Some(current);
    forall m: nat ensures Up(nodes, descendant, m) != Some(ancestor) {
      RepetitionClosesTheChain(nodes, descendant, i, k, m);
    }
    return false;
  }

  lemma ChainEnds(nodes: map<Id, Node>, descendant: Id, k: nat, ancestor: Id, seen: set<Id>)
    requires Up(nodes, descendant, k).Some?
    requires var last := Up(nodes, descendant, k).value;
             last != ancestor && (last in nodes ==> nodes[last].parent.None?)
    requires forall id :: id in seen <==> exists j: nat :: j < k && Up(nodes, descendant, j) == Some(id)
    requires ancestor !in seen
    ensures !Ancestor(nodes, ancestor, descendant)
  {
    forall m: nat ensures Up(nodes, descendant, m) != Some(ancestor) {
      if m > k {
        UpSplits(nodes, descendant, k, m - k);
      }
    }
  }
}

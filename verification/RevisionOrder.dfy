/**
The order in which an import inserts revisions: `_topological_revisions`
(src/image23mf/bundles.py:1788-1809).
*/
module RevisionOrder {
  import opened Wrappers
  import opened Identifiers
  import opened Sorting
  import History

  /** A revision record; `fingerprint` is what its config hash was taken of. */
  datatype Revision = Revision(
    id: Id,
    source: Id,
    parent: Option<Id>,
    schemaVersion: nat,
    config: History.Config,
    fingerprint: History.Config,
    publishedAt: nat,
    details: nat)

  datatype Outcome = Ordered(revisions: seq<Revision>) | CycleOrMissingParent

  /** `{revision.id: revision for revision in revisions}`: a repeated id keeps its last revision. */
  function ById(revisions: seq<Revision>): (table: map<Id, Revision>)
    ensures forall id :: id in table ==> table[id].id == id && table[id] in revisions
    ensures forall r :: r in revisions ==> r.id in table
  {
    if revisions == [] then map[]
    else
      var last := revisions[|revisions| - 1];
      var table := ById(revisions[..|revisions| - 1]);
      table[last.id := last]
  }

  /** Following parents inside the table reaches a parentless revision in exactly k steps. */
  predicate Level(table: map<Id, Revision>, id: Id, k: nat)
    decreases k
  {
    id in table
    && if k == 0 then table[id].parent.None?
       else table[id].parent.Some? && Level(table, table[id].parent.value, k - 1)
  }

  ghost predicate Grounded(table: map<Id, Revision>, id: Id) {
    exists k: nat :: Level(table, id, k)
  }

  ghost predicate AllGrounded(table: map<Id, Revision>) {
    forall id :: id in table ==> Grounded(table, id)
  }

  lemma GroundedParentIsThere(table: map<Id, Revision>, id: Id)
    requires AllGrounded(table) && id in table
    ensures table[id].parent.Some? ==> table[id].parent.value in table
  {
    assert Grounded(table, id);
    var k: nat :| Level(table, id, k);
    if k > 0 { assert Level(table, table[id].parent.value, k - 1); }
  }

  lemma {:induction false} LevelIsUnique(table: map<Id, Revision>, id: Id, a: nat, b: nat)
    requires Level(table, id, a) && Level(table, id, b)
    ensures a == b
    decreases a
  {
    if a > 0 && b > 0 {
      LevelIsUnique(table, table[id].parent.value, a - 1, b - 1);
    }
  }

  lemma {:induction false} LowerLevelsAreInhabited(table: map<Id, Revision>, id: Id, m: nat, k: nat)
    requires Level(table, id, m) && k <= m
    ensures exists ancestor :: Level(table, ancestor, k)
    decreases m
  {
    if k < m {
      LowerLevelsAreInhabited(table, table[id].parent.value, m - 1, k);
    }
  }

  // ----- sorted(ready, key=(published_at, id))

  predicate PublishedBefore(a: Revision, b: Revision) {
    a.publishedAt < b.publishedAt || (a.publishedAt == b.publishedAt && a.id < b.id)
  }

  method Earliest(table: map<Id, Revision>, ids: set<Id>) returns (first: Id)
    requires ids != {} && ids <= table.Keys && forall id :: id in table ==> table[id].id == id
    ensures first in ids
    ensures forall other :: other in ids && other != first ==> PublishedBefore(table[first], table[other])
  {
    first :| first in ids;
    var remaining := ids - {first};
    while remaining != {}
      invariant remaining <= ids && first in ids && first !in remaining
      invariant forall other :: other in ids && other !in remaining && other != first ==>
                PublishedBefore(table[first], table[other])
      decreases remaining
    {
      var id :| id in remaining;
      if PublishedBefore(table[id], table[first]) { first := id; }
      remaining := remaining - {id};
    }
  }

  method SortedByTime(table: map<Id, Revision>, ids: set<Id>) returns (sorted: seq<Revision>)
    requires ids <= table.Keys && forall id :: id in table ==> table[id].id == id
    ensures InOrder(sorted, PublishedBefore)
    ensures forall i :: 0 <= i < |sorted| ==> sorted[i].id in ids && sorted[i] == table[sorted[i].id]
    ensures forall id :: id in ids ==> table[id] in sorted
  {
    sorted := [];
    var remaining := ids;
    while remaining != {}
      invariant remaining <= ids && InOrder(sorted, PublishedBefore)
      invariant forall i :: 0 <= i < |sorted| ==> sorted[i].id in ids && sorted[i] == table[sorted[i].id]
      invariant forall i, id :: 0 <= i < |sorted| && id in remaining ==> PublishedBefore(sorted[i], table[id])
      invariant forall id :: id in ids ==> id in remaining || table[id] in sorted
      decreases remaining
    {
      var id := Earliest(table, remaining);
      sorted := sorted + [table[id]];
      remaining := remaining - {id};
    }
  }

  // ----- the rounds

  ghost predicate Within(table: map<Id, Revision>, id: Id, k: nat) {
    exists m: nat :: m < k && Level(table, id, m)
  }

  // Nearer its root, or as near and published earlier.
  ghost predicate Precedes(table: map<Id, Revision>, x: Revision, y: Revision) {
    forall a: nat, b: nat :: Level(table, x.id, a) && Level(table, y.id, b) ==>
      a < b || (a == b && PublishedBefore(x, y))
  }

  // Everything below level k, in order: by level, then by publication time and id.
  ghost predicate OrderedBelow(table: map<Id, Revision>, ordered: seq<Revision>, k: nat) {
    && (forall i :: 0 <= i < |ordered| ==>
          ordered[i].id in table && ordered[i] == table[ordered[i].id] && Within(table, ordered[i].id, k))
    && (forall id, m: nat :: m < k && Level(table, id, m) ==> table[id] in ordered)
    && (forall i, j :: 0 <= i < j < |ordered| ==> Precedes(table, ordered[i], ordered[j]))
  }

  /** A round appends exactly the next level. */
  lemma RoundAppendsALevel(table: map<Id, Revision>, ordered: seq<Revision>, k: nat, ready: seq<Revision>)
    requires OrderedBelow(table, ordered, k) && InOrder(ready, PublishedBefore)
    requires forall i :: 0 <= i < |ready| ==>
              ready[i] in table.Values && Level(table, ready[i].id, k) && ready[i] == table[ready[i].id]
    requires forall id :: Level(table, id, k) ==> table[id] in ready
    ensures OrderedBelow(table, ordered + ready, k + 1)
  {
    var all := ordered + ready;
    forall i, j | 0 <= i < j < |all| && j >= |ordered| ensures Precedes(table, all[i], all[j]) {
      forall a: nat, b: nat | Level(table, all[i].id, a) && Level(table, all[j].id, b)
        ensures a < b || (a == b && PublishedBefore(all[i], all[j]))
      {
        LevelIsUnique(table, all[j].id, b, k);
        if i < |ordered| {
          var m: nat :| m < k && Level(table, ordered[i].id, m);
          LevelIsUnique(table, all[i].id, a, m);
        } else {
          LevelIsUnique(table, all[i].id, a, k);
        }
      }
    }
    forall id, m: nat | m < k + 1 && Level(table, id, m) ensures table[id] in all {
    }
  }

  ghost predicate AtLevelsBelow(table: map<Id, Revision>, ids: set<Id>, k: nat) {
    forall id :: id in ids <==> Within(table, id, k)
  }

  /** A round is ready for exactly the revisions at the next level. */
  lemma ReadyIsTheNextLevel(table: map<Id, Revision>, published: set<Id>, ready: set<Id>, k: nat)
    requires published <= table.Keys
    requires AtLevelsBelow(table, published, k)
    requires forall id :: id in ready <==>
               id in table && id !in published && (table[id].parent.None? || table[id].parent.value in published)
    ensures forall id :: id in ready <==> Level(table, id, k)
  {
    forall id | id in ready ensures Level(table, id, k) {
      if table[id].parent.None? {
        assert Level(table, id, 0);
      } else {
        var m: nat :| m < k && Level(table, table[id].parent.value, m);
        assert Level(table, id, m + 1);
      }
    }
    forall id | Level(table, id, k) ensures id in ready {
      if id in published {
        var m: nat :| m < k && Level(table, id, m);
        LevelIsUnique(table, id, m, k);
        assert false;
      }
      if k > 0 {
        assert Level(table, table[id].parent.value, k - 1);
        assert Within(table, table[id].parent.value, k);
      }
    }
  }

  lemma PublishedGrows(table: map<Id, Revision>, published: set<Id>, ready: set<Id>, k: nat)
    requires AtLevelsBelow(table, published, k)
    requires forall id :: id in ready <==> Level(table, id, k)
    ensures AtLevelsBelow(table, published + ready, k + 1)
  {
    forall id ensures id in published + ready <==> Within(table, id, k + 1) {
      if Level(table, id, k) {
        assert Within(table, id, k + 1);
      }
      if Within(table, id, k) {
        assert Within(table, id, k + 1);
      }
      if Within(table, id, k + 1) {
        var m: nat :| m < k + 1 && Level(table, id, m);
        assert m < k || m == k;
      }
    }
  }

  /** Once a level is empty, so is every later one: what is still pending has no root. */
  lemma PendingIsUngrounded(table: map<Id, Revision>, published: set<Id>, k: nat, id: Id)
    requires AtLevelsBelow(table, published, k)
    requires forall other :: !Level(table, other, k)
    requires id in table && id !in published
    ensures !Grounded(table, id)
  {
    if Grounded(table, id) {
      var m: nat :| Level(table, id, m);
      LowerLevelsAreInhabited(table, id, m, k);
    }
  }

  /** Exactly the table's revisions, each once, by distance from the root, then publication time, then id. */
  ghost predicate OrderedByLevel(table: map<Id, Revision>, ordered: seq<Revision>) {
    && (forall revision :: revision in ordered <==> revision in table.Values)
    && (forall i, j :: 0 <= i < j < |ordered| ==> ordered[i].id != ordered[j].id)
    && (forall i, j :: 0 <= i < j < |ordered| ==> Precedes(table, ordered[i], ordered[j]))
  }

  lemma OrderedOnce(table: map<Id, Revision>, ordered: seq<Revision>, k: nat)
    requires OrderedBelow(table, ordered, k)
    requires forall id :: id in table ==> Within(table, id, k)
    ensures OrderedByLevel(table, ordered)
  {
    forall i, j | 0 <= i < j < |ordered| ensures ordered[i].id != ordered[j].id {
      assert Within(table, ordered[i].id, k);
      var a: nat :| a < k && Level(table, ordered[i].id, a);
      assert Precedes(table, ordered[i], ordered[j]);
    }
    forall revision | revision in table.Values ensures revision in ordered {
      var id :| id in table && table[id] == revision;
      var m: nat :| m < k && Level(table, id, m);
    }
  }

  // After k rounds: everything below level k is listed and published, the rest is pending.
  ghost predicate RoundsDone(table: map<Id, Revision>, pending: map<Id, Revision>, published: set<Id>,
                             ordered: seq<Revision>, k: nat) {
    && pending == table - published && published <= table.Keys
    && AtLevelsBelow(table, published, k)
    && OrderedBelow(table, ordered, k)
  }

  lemma OneMoreRound(table: map<Id, Revision>, pending: map<Id, Revision>, published: set<Id>, ordered: seq<Revision>,
                     k: nat, ready: set<Id>, sorted: seq<Revision>)
    requires RoundsDone(table, pending, published, ordered, k) && ready <= pending.Keys
    requires forall id :: id in ready <==> Level(table, id, k)
    requires InOrder(sorted, PublishedBefore)
    requires forall i :: 0 <= i < |sorted| ==> sorted[i].id in ready && sorted[i] == pending[sorted[i].id]
    requires forall id :: id in ready ==> pending[id] in sorted
    requires forall id :: id in table ==> table[id].id == id
    ensures RoundsDone(table, pending - ready, published + ready, ordered + sorted, k + 1)
  {
    RoundAppendsALevel(table, ordered, k, sorted);
    PublishedGrows(table, published, ready, k);
    assert pending - ready == table - (published + ready);
  }

  lemma EverythingIsPublished(table: map<Id, Revision>, published: set<Id>, k: nat)
    requires AtLevelsBelow(table, published, k) && table - published == map[]
    ensures AllGrounded(table) && forall id :: id in table ==> Within(table, id, k)
  {
    assert forall id :: id in table && id !in published ==> id in table - published;
  }

  method TopologicalRevisions(revisions: seq<Revision>) returns (outcome: Outcome)
    ensures outcome.Ordered? <==> AllGrounded(ById(revisions))
    ensures outcome.Ordered? ==> OrderedByLevel(ById(revisions), outcome.revisions)
  {
    var pending := ById(revisions);
    ghost var table := pending;
    var ordered: seq<Revision> := [];
    var published: set<Id> := {};
    ghost var k: nat := 0;
    while pending != map[]
      invariant RoundsDone(table, pending, published, ordered, k)
      decreases pending.Keys
    {
      var ready := set id | id in pending && (pending[id].parent.None? || pending[id].parent.value in published);
      ReadyIsTheNextLevel(table, published, ready, k);
      if ready == {} {
        ghost var stuck :| stuck in pending;
        PendingIsUngrounded(table, published, k, stuck);
        return CycleOrMissingParent;
      }
      var sorted := SortedByTime(pending, ready);
      OneMoreRound(table, pending, published, ordered, k, ready, sorted);
      ordered := ordered + sorted;
      published := published + ready;
      assert pending.Keys - ready < pending.Keys;
      pending := pending - ready;
      k := k + 1;
    }
    EverythingIsPublished(table, published, k);
    OrderedOnce(table, ordered, k);
    outcome := Ordered(ordered);
  }

  // ----- what the order is for

  /** Every parent is inserted before its children, so a child can name its parent's new id. */
  lemma ParentsComeFirst(table: map<Id, Revision>, ordered: seq<Revision>, j: nat)
    requires OrderedByLevel(table, ordered)
    requires AllGrounded(table) && forall id :: id in table ==> table[id].id == id
    requires j < |ordered| && ordered[j].parent.Some?
    ensures exists i :: 0 <= i < j && ordered[i].id == ordered[j].parent.value
  {
    var child := ordered[j];
    assert child in table.Values;
    var k: nat :| Level(table, child.id, k);
    assert Level(table, child.parent.value, k - 1);
    var parent := table[child.parent.value];
    assert parent in table.Values;
    var i :| 0 <= i < |ordered| && ordered[i] == parent;
    assert i > j ==> Precedes(table, child, parent);
    if i == j {
      LevelIsUnique(table, child.id, k, k - 1);
      assert false;
    }
    assert Level(table, ordered[i].id, k - 1) && Level(table, ordered[j].id, k);
  }

  /** Revisions at one distance from their roots stand by publication time and then by id. */
  lemma EqualLevelsGoByTime(table: map<Id, Revision>, ordered: seq<Revision>, i: nat, j: nat, k: nat)
    requires OrderedByLevel(table, ordered) && i < |ordered| && j < |ordered|
    requires Level(table, ordered[i].id, k) && Level(table, ordered[j].id, k)
    ensures i < j <==>
              || ordered[i].publishedAt < ordered[j].publishedAt
              || (ordered[i].publishedAt == ordered[j].publishedAt && ordered[i].id < ordered[j].id)
  {
    if i < j {
      assert Precedes(table, ordered[i], ordered[j]);
    } else if j < i {
      assert Precedes(table, ordered[j], ordered[i]);
    }
  }

  /** And those nearer their roots stand before all others. */
  lemma LowerLevelsComeFirst(table: map<Id, Revision>, ordered: seq<Revision>, i: nat, j: nat, m: nat, k: nat)
    requires OrderedByLevel(table, ordered) && i < |ordered| && j < |ordered|
    requires Level(table, ordered[i].id, m) && Level(table, ordered[j].id, k) && m < k
    ensures i < j
  {
    assert j < i ==> Precedes(table, ordered[j], ordered[i]);
    if i == j {
      LevelIsUnique(table, ordered[i].id, m, k);
      assert false;
    }
  }

  /** Of revisions with one id the last is ordered, and the others are lost. */
  lemma {:induction false} RepeatedIdsKeepTheLast(revisions: seq<Revision>, i: nat)
    requires i < |revisions| && forall j :: i < j < |revisions| ==> revisions[j].id != revisions[i].id
    ensures revisions[i].id in ById(revisions) && ById(revisions)[revisions[i].id] == revisions[i]
  {
    if i < |revisions| - 1 { RepeatedIdsKeepTheLast(revisions[..|revisions| - 1], i); }
  }

  /** With distinct ids no revision is lost or repeated: the result is a permutation of the input. */
  lemma OrderIsAPermutation(revisions: seq<Revision>, ordered: seq<Revision>)
    requires forall i, j :: 0 <= i < j < |revisions| ==> revisions[i].id != revisions[j].id
    requires OrderedByLevel(ById(revisions), ordered)
    ensures multiset(ordered) == multiset(revisions)
  {
    EveryRevisionIsKept(revisions);
    forall revision ensures multiset(ordered)[revision] == multiset(revisions)[revision] {
      OccursOnce(ordered, revision);
      OccursOnce(revisions, revision);
    }
  }

  lemma {:induction false} EveryRevisionIsKept(revisions: seq<Revision>)
    requires forall i, j :: 0 <= i < j < |revisions| ==> revisions[i].id != revisions[j].id
    ensures forall revision :: revision in revisions <==> revision in ById(revisions).Values
  {
    if revisions != [] {
      var front := revisions[..|revisions| - 1];
      EveryRevisionIsKept(front);
      assert revisions == front + [revisions[|revisions| - 1]];
      forall revision | revision in front ensures revision in ById(revisions).Values {
        assert ById(revisions)[revision.id] == ById(front)[revision.id];
      }
    }
  }

  lemma {:induction false} OccursOnce(revisions: seq<Revision>, revision: Revision)
    requires forall i, j :: 0 <= i < j < |revisions| ==> revisions[i].id != revisions[j].id
    ensures multiset(revisions)[revision] == if revision in revisions then 1 else 0
  {
    if revisions != [] {
      var front := revisions[..|revisions| - 1];
      OccursOnce(front, revision);
      assert revisions == front + [revisions[|revisions| - 1]];
    }
  }

  /**
  An id never reaches a root exactly when it belongs to a set of revisions that is closed under
  parents and holds no root: a cycle, or a chain that leaves the table.
  */
  ghost predicate Rootless(table: map<Id, Revision>, ids: set<Id>) {
    forall id :: id in ids ==>
      && id in table && table[id].parent.Some?
      && (table[id].parent.value in table ==> table[id].parent.value in ids)
  }

  lemma {:induction false} RootlessIsUngrounded(table: map<Id, Revision>, ids: set<Id>, id: Id, k: nat)
    requires Rootless(table, ids) && id in ids
    ensures !Level(table, id, k)
    decreases k
  {
    if k > 0 && table[id].parent.value in table {
      RootlessIsUngrounded(table, ids, table[id].parent.value, k - 1);
    }
  }

  lemma OrderFailsExactlyOnRootlessSets(revisions: seq<Revision>)
    ensures !AllGrounded(ById(revisions))
       <==> exists ids: set<Id> :: ids != {} && Rootless(ById(revisions), ids)
  {
    var table := ById(revisions);
    if ids: set<Id> :| ids != {} && Rootless(table, ids) {
      var id :| id in ids;
      forall k: nat ensures !Level(table, id, k) {
        RootlessIsUngrounded(table, ids, id, k);
      }
    }
    if !AllGrounded(table) {
      var id :| id in table && !Grounded(table, id);
      var ids := set other | other in table && !Grounded(table, other);
      assert id in ids;
      forall other | other in ids
        ensures table[other].parent.Some?
        ensures table[other].parent.value in table ==> table[other].parent.value in ids
      {
        assert !Level(table, other, 0);
        if table[other].parent.value in table && Grounded(table, table[other].parent.value) {
          var k: nat :| Level(table, table[other].parent.value, k);
          assert Level(table, other, k + 1);
        }
      }
      assert Rootless(table, ids);
    }
  }
}

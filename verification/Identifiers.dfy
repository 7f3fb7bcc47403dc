/**
Ids for imported records: `_available_id` (src/image23mf/bundles.py:1812-1819) and the ids that
`new_id` makes up.
*/
module Identifiers {
  type Id = nat

  predicate Injective(m: map<Id, Id>) {
    forall a, b :: a in m && b in m && m[a] == m[b] ==> a == b
  }

  predicate IdentityMap(m: map<Id, Id>) {
    forall x :: x in m ==> m[x] == x
  }

  method NewId(avoid: set<Id>) returns (id: Id)
    ensures id !in avoid
  {
    id := 0;
    var remaining := avoid;
    while remaining != {}
      invariant remaining <= avoid
      invariant forall x :: x in avoid ==> x in remaining || x < id
      decreases remaining
    {
      var x :| x in remaining;
      if id <= x { id := x + 1; }
      remaining := remaining - {x};
    }
  }

  /** Some id is always left. */
  lemma FreshId(avoid: set<Id>) returns (id: Id)
    ensures id !in avoid
  {
    id := 0;
    var remaining := avoid;
    while remaining != {}
      invariant forall x :: x in avoid ==> x in remaining || x < id
      decreases remaining
    {
      var x :| x in remaining;
      if id <= x { id := x + 1; }
      remaining := remaining - {x};
    }
  }

  /** One record's id. A new one is neither in the table nor reserved by another record of the bundle. */
  method AvailableId(taken: set<Id>, preferred: Id, reserved: set<Id>) returns (id: Id)
    ensures id !in taken
    ensures id == preferred <==> preferred !in taken
    ensures id == preferred || id !in reserved
  {
    id := preferred;
    if preferred in taken {
      id := NewId(taken + reserved);
    }
  }

  /**
  The ids of all records of a table: the preferred id when the table does not have it, else a new
  one. A new id collides with no row, no id of the bundle and no earlier new id.
  */
  method AvailableIds(taken: set<Id>, wanted: set<Id>) returns (ids: map<Id, Id>)
    ensures ids.Keys == wanted && Injective(ids)
    ensures forall id :: id in wanted ==> ids[id] !in taken
    ensures forall id :: id in wanted ==> (ids[id] == id <==> id !in taken)
  {
    ids := map[];
    var remaining := wanted;
    while remaining != {}
      invariant remaining <= wanted && ids.Keys == wanted - remaining && Injective(ids)
      invariant forall id :: id in ids ==> ids[id] !in taken && ids[id] !in remaining
      invariant forall id :: id in ids ==> (ids[id] == id <==> id !in taken)
      invariant forall id :: id in ids && ids[id] in wanted ==> ids[id] == id
      decreases remaining
    {
      var id :| id in remaining;
      var target := AvailableId(taken, id, wanted + ids.Values);
      ids := ids[id := target];
      remaining := remaining - {id};
    }
  }
}

/**
Records that projects share: an import finds filaments by manufacturer, family, name and color and
assets by SHA-256, and inserts a row only for what it does not find
(src/image23mf/bundles.py:923-1000).
*/
module SharedRecords {
  import opened Wrappers
  import opened Identifiers

  /** One shared record of the bundle: its id there, what identifies it anywhere, and the rest of it. */
  datatype Shared<K, D> = Shared(id: Id, key: K, details: D)

  /** A row by its id. */
  datatype Entry<K, D> = Entry(key: K, details: D)

  predicate KeysUnique<K(==), D>(rows: map<Id, Entry<K, D>>) {
    forall a, b :: a in rows && b in rows && rows[a].key == rows[b].key ==> a == b
  }

  predicate IdsUnique<K, D>(records: seq<Shared<K, D>>) {
    forall i, j :: 0 <= i < |records| && 0 <= j < |records| && records[i].id == records[j].id ==> i == j
  }

  predicate NaturalKeysUnique<K(==), D>(records: seq<Shared<K, D>>) {
    forall i, j :: 0 <= i < |records| && 0 <= j < |records| && records[i].key == records[j].key ==> i == j
  }

  function IdsOf<K, D>(records: seq<Shared<K, D>>): set<Id> {
    set i | 0 <= i < |records| :: records[i].id
  }

  predicate KeyInRows<K(==), D>(rows: map<Id, Entry<K, D>>, key: K) {
    exists x :: x in rows && rows[x].key == key
  }

  /** Neither the table nor an earlier record has the natural key of the i-th record. */
  predicate IsNew<K(==), D>(rows: map<Id, Entry<K, D>>, records: seq<Shared<K, D>>, i: nat)
    requires i < |records|
  {
    !KeyInRows(rows, records[i].key) && forall j :: 0 <= j < i ==> records[j].key != records[i].key
  }

  /** Where the i-th record ends up: at the row with its key, which is its own when the key was new. */
  ghost predicate Settled<K, D>(rows: map<Id, Entry<K, D>>, records: seq<Shared<K, D>>, i: nat,
                                ids: map<Id, Id>, after: map<Id, Entry<K, D>>)
    requires i < |records|
  {
    var record := records[i];
    && record.id in ids && ids[record.id] in after && after[ids[record.id]].key == record.key
    && (IsNew(rows, records, i) ==>
          && after[ids[record.id]] == Entry(record.key, record.details)
          && (ids[record.id] == record.id <==> record.id !in rows))
  }

  ghost predicate SharedImport<K, D>(rows: map<Id, Entry<K, D>>, records: seq<Shared<K, D>>,
                                     ids: map<Id, Id>, after: map<Id, Entry<K, D>>) {
    && KeysUnique(after)
    && (forall x :: x in rows ==> x in after && after[x] == rows[x])
    && ids.Keys == IdsOf(records)
    && after.Keys == rows.Keys + ids.Values
    && (forall i: nat {:trigger Settled(rows, records, i, ids, after)} ::
          i < |records| ==> Settled(rows, records, i, ids, after))
  }

  // A new row has its record's id, or one that no record of the bundle has.
  ghost predicate NewRowsKeepTheirIds<K, D>(rows: map<Id, Entry<K, D>>, records: seq<Shared<K, D>>,
                                            ids: map<Id, Id>, after: map<Id, Entry<K, D>>) {
    forall x :: x in after && x !in rows ==> (x in ids && ids[x] == x) || x !in IdsOf(records)
  }

  ghost predicate MadeUpIdIsNew<K, D>(rows: map<Id, Entry<K, D>>, records: seq<Shared<K, D>>, ids: map<Id, Id>,
                                      i: nat)
    requires i < |records|
  {
    && records[i].id in ids
    && (IsNew(rows, records, i) ==> ids[records[i].id] == records[i].id || ids[records[i].id] !in IdsOf(records))
  }

  /** A record that does not keep its id gets one that no record of the bundle has. */
  ghost predicate MadeUpIdsAreNew<K, D>(rows: map<Id, Entry<K, D>>, records: seq<Shared<K, D>>, ids: map<Id, Id>,
                                        n: nat)
    requires n <= |records|
  {
    forall i: nat {:trigger MadeUpIdIsNew(rows, records, ids, i)} :: i < n ==> MadeUpIdIsNew(rows, records, ids, i)
  }

  // The row with a natural key, if the table has one.
  method FindByKey<K(==), D>(rows: map<Id, Entry<K, D>>, key: K) returns (found: Option<Id>)
    ensures match found
      case Some(id) => id in rows && rows[id].key == key
      case None => !KeyInRows(rows, key)
  {
    var remaining := rows.Keys;
    while remaining != {}
      invariant remaining <= rows.Keys
      invariant forall id :: id in rows && rows[id].key == key ==> id in remaining
      decreases remaining
    {
      var id :| id in remaining;
      if rows[id].key == key { return Some(id); }
      remaining := remaining - {id};
    }
    return None;
  }

  /** The columns accept every record that gets a row; one that is found is not even looked at. */
  ghost predicate NewRecordsFit<K, D>(rows: map<Id, Entry<K, D>>, records: seq<Shared<K, D>>,
                                      fits: Shared<K, D> -> bool, n: nat)
    requires n <= |records|
  {
    forall i: nat {:trigger IsNew(rows, records, i)} :: i < n && IsNew(rows, records, i) ==> fits(records[i])
  }

  // What the loop has established after k records.
  ghost predicate ImportedUpTo<K, D>(rows: map<Id, Entry<K, D>>, records: seq<Shared<K, D>>,
                                     fits: Shared<K, D> -> bool, ids: map<Id, Id>, after: map<Id, Entry<K, D>>, k: nat)
    requires k <= |records|
  {
    && SharedImport(rows, records[..k], ids, after)
    && NewRowsKeepTheirIds(rows, records, ids, after)
    && MadeUpIdsAreNew(rows, records, ids, k)
    && NewRecordsFit(rows, records, fits, k)
  }

  lemma OneMoreFound<K, D>(rows: map<Id, Entry<K, D>>, records: seq<Shared<K, D>>, fits: Shared<K, D> -> bool,
                           ids: map<Id, Id>, after: map<Id, Entry<K, D>>, k: nat, found: Id)
    requires k < |records| && IdsUnique(records) && ImportedUpTo(rows, records, fits, ids, after, k)
    requires found in after && after[found].key == records[k].key
    ensures ImportedUpTo(rows, records, fits, ids[records[k].id := found], after, k + 1)
  {
    RecordIsFound(rows, records, k, ids, after, found);
    FoundIdIsNotMadeUp(rows, records, k, ids, after, found);
    FoundRecordIsNotNew(rows, records, k, ids, after, found);
  }

  lemma OneMoreAdded<K, D>(rows: map<Id, Entry<K, D>>, records: seq<Shared<K, D>>, fits: Shared<K, D> -> bool,
                           ids: map<Id, Id>, after: map<Id, Entry<K, D>>, k: nat, added: Id)
    requires k < |records| && IdsUnique(records) && ImportedUpTo(rows, records, fits, ids, after, k)
    requires !KeyInRows(after, records[k].key) && fits(records[k])
    requires added !in after && (added == records[k].id <==> records[k].id !in after)
    requires added == records[k].id || added !in IdsOf(records)
    ensures ImportedUpTo(rows, records, fits, ids[records[k].id := added],
                         after[added := Entry(records[k].key, records[k].details)], k + 1)
  {
    RecordIsAdded(rows, records, k, ids, after, added);
    OneMoreId(rows, records, k, ids, added);
    IdsOfOneMore(records, k);
    AddedRowKeepsItsId(rows, records, k, ids, after, Entry(records[k].key, records[k].details), added);
  }

  lemma AddedRowKeepsItsId<K, D>(rows: map<Id, Entry<K, D>>, records: seq<Shared<K, D>>, k: nat, ids: map<Id, Id>,
                                 after: map<Id, Entry<K, D>>, row: Entry<K, D>, added: Id)
    requires k < |records| && NewRowsKeepTheirIds(rows, records, ids, after) && records[k].id !in ids
    requires added == records[k].id || added !in IdsOf(records)
    ensures NewRowsKeepTheirIds(rows, records, ids[records[k].id := added], after[added := row])
  {
  }

  /** The filament loop and the asset loop; it ends at a record that its columns refuse. */
  method ImportShared<K(==), D>(rows: map<Id, Entry<K, D>>, records: seq<Shared<K, D>>, fits: Shared<K, D> -> bool)
    returns (ok: bool, ids: map<Id, Id>, after: map<Id, Entry<K, D>>)
    requires KeysUnique(rows) && IdsUnique(records)
    ensures ok <==> NewRecordsFit(rows, records, fits, |records|)
    ensures ok ==> SharedImport(rows, records, ids, after) && MadeUpIdsAreNew(rows, records, ids, |records|)
  {
    ids, after := map[], rows;
    for k := 0 to |records|
      invariant ImportedUpTo(rows, records, fits, ids, after, k)
    {
      var record := records[k];
      var found := FindByKey(after, record.key);
      if found.Some? {
        OneMoreFound(rows, records, fits, ids, after, k, found.value);
        ids := ids[record.id := found.value];
      } else {
        if !fits(record) {
          UnfoundRecordIsNew(rows, records, k, ids, after);
          return false, ids, after;
        }
        var id := AvailableId(after.Keys, record.id, IdsOf(records));
        OneMoreAdded(rows, records, fits, ids, after, k, id);
        ids := ids[record.id := id];
        after := after[id := Entry(record.key, record.details)];
      }
    }
    assert records[..|records|] == records;
    ok := true;
  }

  // A record whose natural key is in the table.
  lemma RecordIsFound<K, D>(rows: map<Id, Entry<K, D>>, records: seq<Shared<K, D>>, k: nat,
                            ids: map<Id, Id>, after: map<Id, Entry<K, D>>, found: Id)
    requires k < |records| && IdsUnique(records) && SharedImport(rows, records[..k], ids, after)
    requires found in after && after[found].key == records[k].key
    ensures SharedImport(rows, records[..k + 1], ids[records[k].id := found], after)
  {
    var known := ids[records[k].id := found];
    IdsOfOneMore(records, k);
    ValuesOfOneMore(ids, records[k].id, found);
    EarlierRecordsStaySettled(rows, records, k, ids, after, known, after);
    FoundRecordIsNotNew(rows, records, k, ids, after, found);
    assert records[..k + 1][k] == records[k];
  }

  lemma FoundRecordIsNotNew<K, D>(rows: map<Id, Entry<K, D>>, records: seq<Shared<K, D>>, k: nat,
                                  ids: map<Id, Id>, after: map<Id, Entry<K, D>>, found: Id)
    requires k < |records| && SharedImport(rows, records[..k], ids, after)
    requires found in after && after[found].key == records[k].key
    ensures !IsNew(rows, records, k) && !IsNew(rows, records[..k + 1], k)
  {
    var head, longer := records[..k], records[..k + 1];
    assert IsNew(rows, longer, k) == IsNew(rows, records, k) by {
      assert forall j :: 0 <= j <= k ==> longer[j] == records[j];
    }
    if IsNew(rows, longer, k) {
      forall j | 0 <= j < |head| ensures head[j].key != records[k].key {
        assert longer[j] == head[j];
      }
      NewKeyIsNotFound(rows, head, ids, after, records[k].key);
      assert false;
    }
  }

  lemma UnfoundRecordIsNew<K, D>(rows: map<Id, Entry<K, D>>, records: seq<Shared<K, D>>, k: nat,
                                 ids: map<Id, Id>, after: map<Id, Entry<K, D>>)
    requires k < |records| && SharedImport(rows, records[..k], ids, after) && !KeyInRows(after, records[k].key)
    ensures IsNew(rows, records, k)
  {
    var head := records[..k];
    forall x | x in rows ensures rows[x].key != records[k].key {
      assert x in after && after[x] == rows[x];
    }
    forall j: nat | j < k ensures records[j].key != records[k].key {
      assert Settled(rows, head, j, ids, after);
      assert head[j] == records[j];
    }
  }

  lemma FoundIdIsNotMadeUp<K, D>(rows: map<Id, Entry<K, D>>, records: seq<Shared<K, D>>, k: nat,
                                 ids: map<Id, Id>, after: map<Id, Entry<K, D>>, found: Id)
    requires k < |records| && IdsUnique(records) && SharedImport(rows, records[..k], ids, after)
    requires found in after && after[found].key == records[k].key && MadeUpIdsAreNew(rows, records, ids, k)
    ensures MadeUpIdsAreNew(rows, records, ids[records[k].id := found], k + 1)
  {
    FoundRecordIsNotNew(rows, records, k, ids, after, found);
    OneMoreId(rows, records, k, ids, found);
  }

  lemma OneMoreId<K, D>(rows: map<Id, Entry<K, D>>, records: seq<Shared<K, D>>, k: nat, ids: map<Id, Id>, id: Id)
    requires k < |records| && IdsUnique(records) && MadeUpIdsAreNew(rows, records, ids, k)
    requires IsNew(rows, records, k) ==> id == records[k].id || id !in IdsOf(records)
    ensures MadeUpIdsAreNew(rows, records, ids[records[k].id := id], k + 1)
  {
    var more := ids[records[k].id := id];
    forall i: nat {:trigger MadeUpIdIsNew(rows, records, more, i)} | i < k + 1
      ensures MadeUpIdIsNew(rows, records, more, i)
    {
      if i < k { assert MadeUpIdIsNew(rows, records, ids, i); }
    }
  }

  // A record whose natural key is not in the table.
  lemma RecordIsAdded<K, D>(rows: map<Id, Entry<K, D>>, records: seq<Shared<K, D>>, k: nat,
                            ids: map<Id, Id>, after: map<Id, Entry<K, D>>, added: Id)
    requires k < |records| && IdsUnique(records) && SharedImport(rows, records[..k], ids, after)
    requires NewRowsKeepTheirIds(rows, records, ids, after)
    requires !KeyInRows(after, records[k].key) && added !in after
    requires (added == records[k].id <==> records[k].id !in after)
    ensures SharedImport(rows, records[..k + 1], ids[records[k].id := added],
                         after[added := Entry(records[k].key, records[k].details)])
  {
    IdsOfOneMore(records, k);
    ValuesOfOneMore(ids, records[k].id, added);
    KeysStayUnique(after, records[k].key, records[k].details, added);
    AllSettle(rows, records, k, ids, after, added);
  }

  lemma AllSettle<K, D>(rows: map<Id, Entry<K, D>>, records: seq<Shared<K, D>>, k: nat,
                        ids: map<Id, Id>, after: map<Id, Entry<K, D>>, added: Id)
    requires k < |records| && IdsUnique(records) && SharedImport(rows, records[..k], ids, after)
    requires NewRowsKeepTheirIds(rows, records, ids, after) && added !in after
    requires added == records[k].id <==> records[k].id !in after
    ensures var known, grown := ids[records[k].id := added],
                                after[added := Entry(records[k].key, records[k].details)];
            forall i: nat {:trigger Settled(rows, records[..k + 1], i, known, grown)} ::
              i < k + 1 ==> Settled(rows, records[..k + 1], i, known, grown)
  {
    var known, grown := ids[records[k].id := added], after[added := Entry(records[k].key, records[k].details)];
    IdsOfOneMore(records, k);
    EarlierRecordsStaySettled(rows, records, k, ids, after, known, grown);
    AddedRecordSettles(rows, records, k, ids, after, known, grown);
  }

  lemma KeysStayUnique<K, D>(after: map<Id, Entry<K, D>>, key: K, details: D, added: Id)
    requires KeysUnique(after) && !KeyInRows(after, key)
    ensures KeysUnique(after[added := Entry(key, details)])
  {
  }

  lemma EarlierRecordsStaySettled<K, D>(rows: map<Id, Entry<K, D>>, records: seq<Shared<K, D>>, k: nat,
                                        ids: map<Id, Id>, after: map<Id, Entry<K, D>>,
                                        known: map<Id, Id>, grown: map<Id, Entry<K, D>>)
    requires k < |records| && IdsUnique(records) && SharedImport(rows, records[..k], ids, after)
    requires forall x :: x in ids ==> x in known && known[x] == ids[x]
    requires forall x :: x in after ==> x in grown && grown[x] == after[x]
    ensures forall i: nat {:trigger Settled(rows, records[..k + 1], i, known, grown)} ::
              i < k ==> Settled(rows, records[..k + 1], i, known, grown)
  {
    forall i: nat {:trigger Settled(rows, records[..k + 1], i, known, grown)} | i < k
      ensures Settled(rows, records[..k + 1], i, known, grown)
    {
      assert Settled(rows, records[..k], i, ids, after);
      assert records[..k][i] == records[i];
      SettledStays(rows, records, k, i, ids, after, known, grown);
    }
  }

  lemma AddedRecordSettles<K, D>(rows: map<Id, Entry<K, D>>, records: seq<Shared<K, D>>, k: nat,
                                 ids: map<Id, Id>, after: map<Id, Entry<K, D>>,
                                 known: map<Id, Id>, grown: map<Id, Entry<K, D>>)
    requires k < |records| && IdsUnique(records) && ids.Keys == IdsOf(records[..k])
    requires NewRowsKeepTheirIds(rows, records, ids, after) && rows.Keys <= after.Keys
    requires records[k].id in known && known[records[k].id] in grown
    requires grown[known[records[k].id]] == Entry(records[k].key, records[k].details)
    requires known[records[k].id] == records[k].id <==> records[k].id !in after
    ensures Settled(rows, records[..k + 1], k, known, grown)
  {
    IdsOfOneMore(records, k);
    assert records[k].id in IdsOf(records);
    assert records[..k + 1][k] == records[k];
  }

  lemma ValuesOfOneMore(ids: map<Id, Id>, key: Id, value: Id)
    requires key !in ids
    ensures ids[key := value].Values == ids.Values + {value}
  {
    var more := ids[key := value];
    forall x ensures x in more.Values <==> x in ids.Values + {value} {
      if x in ids.Values {
        var id :| id in ids && ids[id] == x;
        assert id in more && more[id] == x;
      }
      if x == value { assert key in more && more[key] == x; }
    }
  }

  lemma IdsOfOneMore<K, D>(records: seq<Shared<K, D>>, k: nat)
    requires k < |records| && IdsUnique(records)
    ensures IdsOf(records[..k + 1]) == IdsOf(records[..k]) + {records[k].id}
    ensures records[k].id !in IdsOf(records[..k])
  {
    var head, longer := records[..k], records[..k + 1];
    assert longer == head + [records[k]];
    forall x ensures x in IdsOf(longer) <==> x in IdsOf(head) + {records[k].id} {
      if x in IdsOf(head) {
        var i :| 0 <= i < k && head[i].id == x;
        assert longer[i].id == x;
      }
      if x == records[k].id { assert longer[k].id == x; }
    }
  }

  lemma SettledStays<K, D>(rows: map<Id, Entry<K, D>>, records: seq<Shared<K, D>>, k: nat, i: nat,
                           ids: map<Id, Id>, after: map<Id, Entry<K, D>>,
                           known: map<Id, Id>, grown: map<Id, Entry<K, D>>)
    requires i < k < |records| && Settled(rows, records[..k], i, ids, after)
    requires records[i].id in known && known[records[i].id] == ids[records[i].id]
    requires forall x :: x in after ==> x in grown && grown[x] == after[x]
    ensures Settled(rows, records[..k + 1], i, known, grown)
  {
    assert records[..k + 1][i] == records[..k][i] == records[i];
    assert forall j :: 0 <= j < i ==> records[..k + 1][j] == records[..k][j];
    assert IsNew(rows, records[..k + 1], i) == IsNew(rows, records[..k], i);
  }

  lemma NewKeyIsNotFound<K, D>(rows: map<Id, Entry<K, D>>, records: seq<Shared<K, D>>,
                               ids: map<Id, Id>, after: map<Id, Entry<K, D>>, key: K)
    requires SharedImport(rows, records, ids, after) && !KeyInRows(rows, key)
    requires forall j :: 0 <= j < |records| ==> records[j].key != key
    ensures !KeyInRows(after, key)
  {
    forall x | x in after ensures after[x].key != key {
      if x !in rows {
        var id :| id in ids && ids[id] == x;
        var j :| 0 <= j < |records| && records[j].id == id;
        assert Settled(rows, records, j, ids, after);
      }
    }
  }

  // ----- what the ids tell apart

  /** Two records of a bundle get one id exactly when they share their natural key. */
  lemma RecordsCollapseByKey<K, D>(rows: map<Id, Entry<K, D>>, records: seq<Shared<K, D>>, ids: map<Id, Id>,
                                   after: map<Id, Entry<K, D>>, i: nat, j: nat)
    requires SharedImport(rows, records, ids, after) && i < |records| && j < |records|
    ensures records[i].id in ids && records[j].id in ids
    ensures ids[records[i].id] == ids[records[j].id] <==> records[i].key == records[j].key
  {
    assert Settled(rows, records, i, ids, after) && Settled(rows, records, j, ids, after);
  }

  /** The natural key by the id a bundle uses. */
  function KeyNames<K, D>(records: seq<Shared<K, D>>): (names: map<Id, K>)
    ensures names.Keys == IdsOf(records)
    ensures IdsUnique(records) ==> forall i :: 0 <= i < |records| ==> names[records[i].id] == records[i].key
  {
    if records == [] then map[]
    else
      var front, last := records[..|records| - 1], records[|records| - 1];
      assert IdsOf(records) == IdsOf(front) + {last.id} by {
        assert records == front + [last];
        assert forall x :: x in IdsOf(records) <==> x in IdsOf(front) + {last.id};
      }
      KeyNames(front)[last.id := last.key]
  }

  /** So ids and natural keys name the same records alike. */
  lemma IdsAndKeysNameAlike<K, D>(rows: map<Id, Entry<K, D>>, records: seq<Shared<K, D>>, ids: map<Id, Id>,
                                  after: map<Id, Entry<K, D>>)
    requires SharedImport(rows, records, ids, after) && IdsUnique(records)
    ensures KeyNames(records).Keys == ids.Keys
    ensures forall a, b :: a in ids && b in ids ==> (ids[a] == ids[b] <==> KeyNames(records)[a] == KeyNames(records)[b])
  {
    forall a, b | a in ids && b in ids ensures ids[a] == ids[b] <==> KeyNames(records)[a] == KeyNames(records)[b] {
      var i: nat :| i < |records| && records[i].id == a;
      var j: nat :| j < |records| && records[j].id == b;
      RecordsCollapseByKey(rows, records, ids, after, i, j);
    }
  }

  // ----- told before the import

  /** The first record of the bundle that has the i-th one's natural key. */
  ghost function FirstWithKey<K, D>(records: seq<Shared<K, D>>, i: nat): (j: nat)
    requires i < |records|
    ensures j <= i && records[j].key == records[i].key && forall n :: 0 <= n < j ==> records[n].key != records[i].key
  {
    if n: nat :| n < i && records[n].key == records[i].key then FirstWithKey(records, n) else i
  }

  /** Where a record ends up: at the row with its key, else where the first record with its key does. */
  lemma TargetOf<K, D>(rows: map<Id, Entry<K, D>>, records: seq<Shared<K, D>>, ids: map<Id, Id>,
                       after: map<Id, Entry<K, D>>, i: nat)
    requires SharedImport(rows, records, ids, after) && MadeUpIdsAreNew(rows, records, ids, |records|)
    requires IdsUnique(records) && i < |records|
    ensures records[i].id in ids
    ensures var target, first := ids[records[i].id], records[FirstWithKey(records, i)].id;
            if KeyInRows(rows, records[i].key) then target in rows && rows[target].key == records[i].key
            else if first !in rows then target == first
            else target !in rows && target !in IdsOf(records)
  {
    var first := FirstWithKey(records, i);
    assert Settled(rows, records, i, ids, after) && Settled(rows, records, first, ids, after);
    assert MadeUpIdIsNew(rows, records, ids, first);
    RecordsCollapseByKey(rows, records, ids, after, i, first);
    if KeyInRows(rows, records[i].key) {
      var x :| x in rows && rows[x].key == records[i].key;
      assert x in after && after[x] == rows[x];
    }
  }

  /** The row with its natural key has the record's id, or there is none and the id is free. */
  predicate IdWillStay<K(==), D>(rows: map<Id, Entry<K, D>>, records: seq<Shared<K, D>>, i: nat)
    requires i < |records|
  {
    if IsNew(rows, records, i) then records[i].id !in rows
    else records[i].id in rows && rows[records[i].id].key == records[i].key
  }

  lemma SharedIdStaysExactly<K, D>(rows: map<Id, Entry<K, D>>, records: seq<Shared<K, D>>, ids: map<Id, Id>,
                                   after: map<Id, Entry<K, D>>, i: nat)
    requires SharedImport(rows, records, ids, after) && MadeUpIdsAreNew(rows, records, ids, |records|)
    requires IdsUnique(records) && i < |records|
    ensures records[i].id in ids
    ensures ids[records[i].id] == records[i].id <==> IdWillStay(rows, records, i)
  {
    assert Settled(rows, records, i, ids, after);
    if !IsNew(rows, records, i) && !KeyInRows(rows, records[i].key) {
      var j := FirstWithKey(records, i);
      assert Settled(rows, records, j, ids, after) && IsNew(rows, records, j);
      assert MadeUpIdIsNew(rows, records, ids, j);
      assert records[i].id in IdsOf(records);
    }
  }

  // ----- into an empty table

  /** The records as the table holds them. */
  function AsRows<K, D>(records: seq<Shared<K, D>>): (rows: map<Id, Entry<K, D>>)
    ensures rows.Keys == IdsOf(records)
    ensures IdsUnique(records) ==>
              forall i :: 0 <= i < |records| ==> rows[records[i].id] == Entry(records[i].key, records[i].details)
  {
    if records == [] then map[]
    else
      var front, last := records[..|records| - 1], records[|records| - 1];
      assert IdsOf(records) == IdsOf(front) + {last.id} by {
        assert records == front + [last];
        assert forall x :: x in IdsOf(records) <==> x in IdsOf(front) + {last.id};
      }
      AsRows(front)[last.id := Entry(last.key, last.details)]
  }

  lemma RecordsGoInAsTheyAre<K, D>(records: seq<Shared<K, D>>, ids: map<Id, Id>, after: map<Id, Entry<K, D>>)
    requires SharedImport(map[], records, ids, after) && IdsUnique(records) && NaturalKeysUnique(records)
    ensures IdentityMap(ids) && forall x :: x in ids ==> x in after && after[x] == AsRows(records)[x]
  {
    forall x | x in ids ensures ids[x] == x && x in after && after[x] == AsRows(records)[x] {
      var i: nat :| i < |records| && records[i].id == x;
      assert Settled(map[], records, i, ids, after) && IsNew(map[], records, i);
    }
  }

  /** An empty table takes over the records as they are exactly when no two share their natural key. */
  lemma EmptyTableTakesOverExactly<K, D>(records: seq<Shared<K, D>>, ids: map<Id, Id>, after: map<Id, Entry<K, D>>)
    requires SharedImport(map[], records, ids, after) && IdsUnique(records)
    ensures NaturalKeysUnique(records) ==> IdentityMap(ids)
    ensures after == AsRows(records) <==> NaturalKeysUnique(records)
  {
    if NaturalKeysUnique(records) {
      RecordsGoInAsTheyAre(records, ids, after);
      forall x | x in after ensures x in ids {
        var id :| id in ids && ids[id] == x;
      }
    } else {
      var i: nat, j: nat :| i < |records| && j < |records| && records[i].key == records[j].key && i != j;
      assert AsRows(records)[records[i].id].key == AsRows(records)[records[j].id].key;
    }
  }
}

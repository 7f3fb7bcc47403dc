/**
Presets of a bundle: `_restore_preset` for each of them, inside the transaction of the restore
(src/image23mf/bundles.py:1196-1197, 1865-1897).
*/
module Presets {
  import opened Wrappers
  import opened Identifiers
  import opened Columns
  import opened DerivationKeys
  import opened SharedRecords

  datatype PresetKey = PresetKey(scope: nat, name: Text)
  datatype PresetBody = PresetBody(version: int, settings: nat, builtIn: bool, details: nat)

  type Preset = Shared<PresetKey, PresetBody>
  type PresetRow = Entry<PresetKey, PresetBody>

  /** What a restore compares of a preset. */
  datatype Content = Content(version: int, settings: nat)

  function ContentOf(body: PresetBody): Content {
    Content(body.version, body.settings)
  }

  /** The contents by scope and name, whatever ids the rows have. */
  type Shelf = map<PresetKey, Content>

  /** The shelf of a table. */
  ghost predicate Shelves(shelf: Shelf, rows: map<Id, PresetRow>) {
    && (forall id {:trigger rows[id]} :: id in rows ==>
          rows[id].key in shelf && shelf[rows[id].key] == ContentOf(rows[id].details))
    && (forall key {:trigger KeyInRows(rows, key)} :: key in shelf ==> KeyInRows(rows, key))
  }

  // Scope and name are unique in the table.
  ghost function ContentAt(rows: map<Id, PresetRow>, key: PresetKey): Content
    requires KeyInRows(rows, key)
  {
    var id :| id in rows && rows[id].key == key;
    ContentOf(rows[id].details)
  }

  ghost function ShelfOf(rows: map<Id, PresetRow>): (shelf: Shelf)
    requires KeysUnique(rows)
    ensures Shelves(shelf, rows)
  {
    var keys := set id | id in rows :: rows[id].key;
    map key | key in keys :: ContentAt(rows, key)
  }

  lemma OneShelf(a: Shelf, b: Shelf, rows: map<Id, PresetRow>)
    requires Shelves(a, rows) && Shelves(b, rows)
    ensures a == b
  {
    forall key ensures key in a <==> key in b {
      if key in a { assert KeyInRows(rows, key); }
      if key in b { assert KeyInRows(rows, key); }
    }
    forall key | key in a ensures a[key] == b[key] {
      assert KeyInRows(rows, key);
    }
  }

  predicate Present(shelf: Shelf, preset: Preset) {
    preset.key in shelf && shelf[preset.key] == ContentOf(preset.details)
  }

  function ImportedKey(key: PresetKey, bundleHash: Text): PresetKey {
    key.(name := key.name + " (Imported " + Head(bundleHash, 8) + ")")
  }

  /** Where a preset goes that is not there yet: under its name, or beside another one that has it. */
  function PlaceFor(shelf: Shelf, preset: Preset, bundleHash: Text): PresetKey {
    if preset.key in shelf then ImportedKey(preset.key, bundleHash) else preset.key
  }

  /** It is there already, or its place is free and its version fits its column. */
  predicate PresetFits(shelf: Shelf, preset: Preset, bundleHash: Text) {
    || Present(shelf, preset)
    || (PlaceFor(shelf, preset, bundleHash) !in shelf && preset.details.version > 0 && Storable(preset.details.version))
  }

  function ShelfAfter(shelf: Shelf, presets: seq<Preset>, bundleHash: Text): Shelf {
    if presets == [] then shelf
    else
      var before, last := ShelfAfter(shelf, presets[..|presets| - 1], bundleHash), presets[|presets| - 1];
      if Present(before, last) then before
      else before[PlaceFor(before, last, bundleHash) := ContentOf(last.details)]
  }

  lemma ShelfAfterOneMore(shelf: Shelf, presets: seq<Preset>, bundleHash: Text, k: nat)
    requires k < |presets|
    ensures var before := ShelfAfter(shelf, presets[..k], bundleHash);
            ShelfAfter(shelf, presets[..k + 1], bundleHash)
            == if Present(before, presets[k]) then before
               else before[PlaceFor(before, presets[k], bundleHash) := ContentOf(presets[k].details)]
  {
    assert presets[..k + 1][..k] == presets[..k] && presets[..k + 1][k] == presets[k];
  }

  /** Every preset fits among the rows there were and the presets before it. */
  ghost predicate PresetsFit(shelf: Shelf, presets: seq<Preset>, bundleHash: Text, n: nat)
    requires n <= |presets|
  {
    forall i {:trigger presets[i]} :: 0 <= i < n ==>
      PresetFits(ShelfAfter(shelf, presets[..i], bundleHash), presets[i], bundleHash)
  }

  /** The i-th preset was there already, or has its row, under its own id when that was free. */
  ghost predicate Placed(shelf: Shelf, rows: map<Id, PresetRow>, presets: seq<Preset>, bundleHash: Text,
                         after: map<Id, PresetRow>, i: nat)
    requires i < |presets|
  {
    var earlier := ShelfAfter(shelf, presets[..i], bundleHash);
    Present(earlier, presets[i]) || HasRow(rows, after, presets[i], PlaceFor(earlier, presets[i], bundleHash))
  }

  ghost predicate HasRow(rows: map<Id, PresetRow>, after: map<Id, PresetRow>, preset: Preset, place: PresetKey) {
    exists id :: id in after && id !in rows && after[id] == Entry(place, preset.details)
              && (id == preset.id <==> preset.id !in rows)
  }

  /** A new row is some preset's. */
  ghost predicate OfSome(presets: seq<Preset>, bundleHash: Text, row: PresetRow) {
    exists i :: 0 <= i < |presets| && row.details == presets[i].details
             && row.key in {presets[i].key, ImportedKey(presets[i].key, bundleHash)}
  }

  ghost predicate PresetsRestored(shelf: Shelf, rows: map<Id, PresetRow>, presets: seq<Preset>, bundleHash: Text,
                                  after: map<Id, PresetRow>) {
    && KeysUnique(after)
    && (forall x :: x in rows ==> x in after && after[x] == rows[x])
    && Shelves(ShelfAfter(shelf, presets, bundleHash), after)
    && (forall i: nat {:trigger Placed(shelf, rows, presets, bundleHash, after, i)} ::
          i < |presets| ==> Placed(shelf, rows, presets, bundleHash, after, i))
    && (forall x {:trigger after[x]} :: x in after && x !in rows ==> OfSome(presets, bundleHash, after[x]))
  }

  // A new row has its preset's id, or one that no preset of the bundle has.
  ghost predicate NewRowsAreNamed(rows: map<Id, PresetRow>, presets: seq<Preset>, after: map<Id, PresetRow>, n: nat)
    requires n <= |presets|
  {
    forall x :: x in after && x !in rows ==> x in IdsOf(presets[..n]) || x !in IdsOf(presets)
  }

  lemma ShelfOfOneMore(shelf: Shelf, rows: map<Id, PresetRow>, id: Id, row: PresetRow)
    requires KeysUnique(rows) && Shelves(shelf, rows) && id !in rows && row.key !in shelf
    ensures KeysUnique(rows[id := row]) && Shelves(shelf[row.key := ContentOf(row.details)], rows[id := row])
  {
    var more := rows[id := row];
    forall key | key in shelf || key == row.key ensures KeyInRows(more, key) {
      if key in shelf {
        assert KeyInRows(rows, key);
        var x :| x in rows && rows[x].key == key;
        assert more[x].key == key;
      } else {
        assert more[id].key == key;
      }
    }
  }

  lemma EarlierPresetsStayPlaced(shelf: Shelf, rows: map<Id, PresetRow>, presets: seq<Preset>, bundleHash: Text,
                                 after: map<Id, PresetRow>, grown: map<Id, PresetRow>, k: nat)
    requires k < |presets| && PresetsRestored(shelf, rows, presets[..k], bundleHash, after)
    requires forall x :: x in after ==> x in grown && grown[x] == after[x]
    ensures forall i: nat {:trigger Placed(shelf, rows, presets[..k + 1], bundleHash, grown, i)} ::
              i < k ==> Placed(shelf, rows, presets[..k + 1], bundleHash, grown, i)
  {
    forall i: nat {:trigger Placed(shelf, rows, presets[..k + 1], bundleHash, grown, i)} | i < k
      ensures Placed(shelf, rows, presets[..k + 1], bundleHash, grown, i)
    {
      assert Placed(shelf, rows, presets[..k], bundleHash, after, i);
      assert presets[..k][..i] == presets[..k + 1][..i] && presets[..k][i] == presets[..k + 1][i];
    }
  }

  lemma PresetIsThere(shelf: Shelf, rows: map<Id, PresetRow>, presets: seq<Preset>, bundleHash: Text,
                      after: map<Id, PresetRow>, k: nat)
    requires k < |presets| && PresetsRestored(shelf, rows, presets[..k], bundleHash, after)
    requires Present(ShelfAfter(shelf, presets[..k], bundleHash), presets[k])
    ensures PresetsRestored(shelf, rows, presets[..k + 1], bundleHash, after)
  {
    var longer := presets[..k + 1];
    assert longer[..k] == presets[..k] && longer[k] == presets[k];
    ShelfAfterOneMore(shelf, presets, bundleHash, k);
    EarlierPresetsStayPlaced(shelf, rows, presets, bundleHash, after, after, k);
    forall x | x in after && x !in rows ensures OfSome(longer, bundleHash, after[x]) {
      StillOfSome(presets, bundleHash, after[x], k);
    }
  }

  lemma StillOfSome(presets: seq<Preset>, bundleHash: Text, row: PresetRow, k: nat)
    requires k < |presets| && OfSome(presets[..k], bundleHash, row)
    ensures OfSome(presets[..k + 1], bundleHash, row)
  {
    var i :| 0 <= i < k && row.details == presets[..k][i].details
          && row.key in {presets[..k][i].key, ImportedKey(presets[..k][i].key, bundleHash)};
    assert presets[..k + 1][i] == presets[..k][i];
  }

  lemma PresetIsAdded(shelf: Shelf, rows: map<Id, PresetRow>, presets: seq<Preset>, bundleHash: Text,
                      after: map<Id, PresetRow>, k: nat, id: Id, place: PresetKey)
    requires k < |presets| && PresetsRestored(shelf, rows, presets[..k], bundleHash, after)
    requires !Present(ShelfAfter(shelf, presets[..k], bundleHash), presets[k])
    requires place == PlaceFor(ShelfAfter(shelf, presets[..k], bundleHash), presets[k], bundleHash)
    requires place !in ShelfAfter(shelf, presets[..k], bundleHash)
    requires id !in after && (id == presets[k].id <==> presets[k].id !in rows)
    ensures PresetsRestored(shelf, rows, presets[..k + 1], bundleHash, after[id := Entry(place, presets[k].details)])
  {
    var row := Entry(place, presets[k].details);
    ShelfAfterOneMore(shelf, presets, bundleHash, k);
    ShelfOfOneMore(ShelfAfter(shelf, presets[..k], bundleHash), after, id, row);
    AllArePlaced(shelf, rows, presets, bundleHash, after, k, id, place);
    NewRowsAreOfSome(rows, presets, bundleHash, after, k, id, place);
  }

  lemma AllArePlaced(shelf: Shelf, rows: map<Id, PresetRow>, presets: seq<Preset>, bundleHash: Text,
                     after: map<Id, PresetRow>, k: nat, id: Id, place: PresetKey)
    requires k < |presets| && PresetsRestored(shelf, rows, presets[..k], bundleHash, after)
    requires place == PlaceFor(ShelfAfter(shelf, presets[..k], bundleHash), presets[k], bundleHash)
    requires id !in after && (id == presets[k].id <==> presets[k].id !in rows)
    ensures var grown := after[id := Entry(place, presets[k].details)];
            forall i: nat {:trigger Placed(shelf, rows, presets[..k + 1], bundleHash, grown, i)} ::
              i < k + 1 ==> Placed(shelf, rows, presets[..k + 1], bundleHash, grown, i)
  {
    EarlierPresetsStayPlaced(shelf, rows, presets, bundleHash, after, after[id := Entry(place, presets[k].details)], k);
    AddedPresetIsPlaced(shelf, rows, presets, bundleHash, after, k, id, place);
  }

  lemma AddedPresetIsPlaced(shelf: Shelf, rows: map<Id, PresetRow>, presets: seq<Preset>, bundleHash: Text,
                            after: map<Id, PresetRow>, k: nat, id: Id, place: PresetKey)
    requires k < |presets| && id !in rows && (id == presets[k].id <==> presets[k].id !in rows)
    requires place == PlaceFor(ShelfAfter(shelf, presets[..k], bundleHash), presets[k], bundleHash)
    ensures Placed(shelf, rows, presets[..k + 1], bundleHash, after[id := Entry(place, presets[k].details)], k)
  {
    assert presets[..k + 1][..k] == presets[..k] && presets[..k + 1][k] == presets[k];
    assert HasRow(rows, after[id := Entry(place, presets[k].details)], presets[k], place);
  }

  lemma NewRowsAreOfSome(rows: map<Id, PresetRow>, presets: seq<Preset>, bundleHash: Text, after: map<Id, PresetRow>,
                         k: nat, id: Id, place: PresetKey)
    requires k < |presets| && place in {presets[k].key, ImportedKey(presets[k].key, bundleHash)}
    requires forall x {:trigger after[x]} :: x in after && x !in rows ==> OfSome(presets[..k], bundleHash, after[x])
    ensures var grown := after[id := Entry(place, presets[k].details)];
            forall x {:trigger grown[x]} :: x in grown && x !in rows ==> OfSome(presets[..k + 1], bundleHash, grown[x])
  {
    var longer, grown := presets[..k + 1], after[id := Entry(place, presets[k].details)];
    forall x | x in grown && x !in rows ensures OfSome(longer, bundleHash, grown[x]) {
      if x != id {
        StillOfSome(presets, bundleHash, after[x], k);
      } else {
        assert longer[k] == presets[k];
      }
    }
  }

  // The id of a preset is free among the rows there were exactly when it is free now.
  lemma OwnIdIsFreeAlike(rows: map<Id, PresetRow>, presets: seq<Preset>, after: map<Id, PresetRow>, k: nat)
    requires k < |presets| && IdsUnique(presets) && NewRowsAreNamed(rows, presets, after, k)
    requires forall x :: x in rows ==> x in after
    ensures presets[k].id in after <==> presets[k].id in rows
  {
    IdsOfOneMore(presets, k);
    assert presets[k].id in IdsOf(presets);
  }

  // One turn of the loop: the preset is there, has a row now, or is refused.
  method RestorePreset(ghost shelf: Shelf, ghost rows: map<Id, PresetRow>, ghost presets: seq<Preset>, preset: Preset,
                       avoid: set<Id>, bundleHash: Text, ghost k: nat, before: map<Id, PresetRow>)
    returns (ok: bool, after: map<Id, PresetRow>)
    requires k < |presets| && presets[k] == preset && IdsUnique(presets) && avoid == IdsOf(presets)
    requires PresetsRestored(shelf, rows, presets[..k], bundleHash, before)
    requires NewRowsAreNamed(rows, presets, before, k)
    ensures ok <==> PresetFits(ShelfAfter(shelf, presets[..k], bundleHash), preset, bundleHash)
    ensures ok ==> PresetsRestored(shelf, rows, presets[..k + 1], bundleHash, after)
    ensures ok ==> NewRowsAreNamed(rows, presets, after, k + 1)
  {
    after := before;
    IdsOfOneMore(presets, k);
    var found := FindByKey(before, preset.key);
    if found.Some? && ContentOf(before[found.value].details) == ContentOf(preset.details) {
      PresetIsThere(shelf, rows, presets, bundleHash, before, k);
      return true, after;
    }
    var place := if found.Some? then ImportedKey(preset.key, bundleHash) else preset.key;
    var other := FindByKey(before, place);
    if other.Some? || preset.details.version <= 0 || !Storable(preset.details.version) {
      return false, after;
    }
    var id := AvailableId(before.Keys, preset.id, avoid);
    OwnIdIsFreeAlike(rows, presets, before, k);
    PresetIsAdded(shelf, rows, presets, bundleHash, before, k, id, place);
    ok, after := true, before[id := Entry(place, preset.details)];
  }

  method RestorePresets(ghost shelf: Shelf, rows: map<Id, PresetRow>, presets: seq<Preset>, bundleHash: Text)
    returns (ok: bool, after: map<Id, PresetRow>)
    requires KeysUnique(rows) && Shelves(shelf, rows) && IdsUnique(presets)
    ensures ok <==> PresetsFit(shelf, presets, bundleHash, |presets|)
    ensures ok ==> PresetsRestored(shelf, rows, presets, bundleHash, after)
  {
    after := rows;
    for k := 0 to |presets|
      invariant PresetsRestored(shelf, rows, presets[..k], bundleHash, after)
      invariant NewRowsAreNamed(rows, presets, after, k)
      invariant PresetsFit(shelf, presets, bundleHash, k)
    {
      ok, after := RestorePreset(shelf, rows, presets, presets[k], IdsOf(presets), bundleHash, k, after);
      if !ok { return; }
    }
    assert presets[..|presets|] == presets;
    ok := true;
  }

  // ----- what that means

  /** A shelf only ever gains. */
  lemma {:induction false} ShelfOnlyGains(shelf: Shelf, presets: seq<Preset>, bundleHash: Text, i: nat, n: nat)
    requires i <= n <= |presets| && PresetsFit(shelf, presets, bundleHash, n)
    ensures var earlier, later := ShelfAfter(shelf, presets[..i], bundleHash),
                                  ShelfAfter(shelf, presets[..n], bundleHash);
            forall key :: key in earlier ==> key in later && later[key] == earlier[key]
    decreases n
  {
    if i < n {
      ShelfOnlyGains(shelf, presets, bundleHash, i, n - 1);
      ShelfAfterOneMore(shelf, presets, bundleHash, n - 1);
      assert PresetFits(ShelfAfter(shelf, presets[..n - 1], bundleHash), presets[n - 1], bundleHash);
    }
  }

  /** After a restore every preset of the bundle is there, under its name or beside another one of that name. */
  lemma EveryPresetIsThere(shelf: Shelf, presets: seq<Preset>, bundleHash: Text, i: nat)
    requires i < |presets| && PresetsFit(shelf, presets, bundleHash, |presets|)
    ensures var after, preset := ShelfAfter(shelf, presets, bundleHash), presets[i];
            || Present(after, preset)
            || Present(after, preset.(key := ImportedKey(preset.key, bundleHash)))
  {
    ShelfOnlyGains(shelf, presets, bundleHash, i + 1, |presets|);
    ShelfAfterOneMore(shelf, presets, bundleHash, i);
    assert presets[..|presets|] == presets;
    assert PresetFits(ShelfAfter(shelf, presets[..i], bundleHash), presets[i], bundleHash);
  }

  /** The name of a preset that is imported beside another one of its name. */
  ghost predicate IsBeside(key: PresetKey, preferred: PresetKey, bundleHash: Text) {
    && key.scope == preferred.scope
    && key.name == preferred.name + " (Imported " + (if |bundleHash| <= 8 then bundleHash else bundleHash[..8]) + ")"
  }

  /** A name on the shelf was there, or is an earlier preset's own or the one beside it. */
  lemma {:induction false} ShelfHoldsOnly(shelf: Shelf, presets: seq<Preset>, bundleHash: Text, n: nat, key: PresetKey)
    requires n <= |presets| && key in ShelfAfter(shelf, presets[..n], bundleHash)
    ensures key in shelf
            || exists i :: 0 <= i < n && (presets[i].key == key || IsBeside(key, presets[i].key, bundleHash))
  {
    if n == 0 {
      assert presets[..0] == [];
    } else {
      ShelfAfterOneMore(shelf, presets, bundleHash, n - 1);
      if key in ShelfAfter(shelf, presets[..n - 1], bundleHash) {
        ShelfHoldsOnly(shelf, presets, bundleHash, n - 1, key);
      } else {
        assert presets[n - 1].key == key || IsBeside(key, presets[n - 1].key, bundleHash);
      }
    }
  }

  /** A row with what a restore compares of a preset, under its name or beside it. */
  ghost predicate Carries(rows: map<Id, PresetRow>, preset: Preset, bundleHash: Text) {
    exists id :: id in rows && rows[id].details.version == preset.details.version
      && rows[id].details.settings == preset.details.settings
      && (rows[id].key == preset.key || IsBeside(rows[id].key, preset.key, bundleHash))
  }

  lemma PresetIsOnARow(shelf: Shelf, rows: map<Id, PresetRow>, presets: seq<Preset>, bundleHash: Text,
                       after: map<Id, PresetRow>, i: nat)
    requires PresetsRestored(shelf, rows, presets, bundleHash, after)
    requires i < |presets| && PresetsFit(shelf, presets, bundleHash, |presets|)
    ensures Carries(after, presets[i], bundleHash)
  {
    EveryPresetIsThere(shelf, presets, bundleHash, i);
    var key := if Present(ShelfAfter(shelf, presets, bundleHash), presets[i]) then presets[i].key
               else ImportedKey(presets[i].key, bundleHash);
    assert KeyInRows(after, key);
    var id :| id in after && after[id].key == key;
    assert key == presets[i].key || IsBeside(key, presets[i].key, bundleHash);
  }

  /** A preset whose name is new keeps it, with all its details, and its id when that is free. */
  lemma NewPresetKeepsItsName(shelf: Shelf, rows: map<Id, PresetRow>, presets: seq<Preset>, bundleHash: Text,
                              after: map<Id, PresetRow>, i: nat)
    requires Shelves(shelf, rows) && PresetsRestored(shelf, rows, presets, bundleHash, after) && i < |presets|
    requires forall id :: id in rows ==> rows[id].key != presets[i].key
    requires forall j :: 0 <= j < i ==>
               presets[j].key != presets[i].key && !IsBeside(presets[i].key, presets[j].key, bundleHash)
    ensures exists id :: id in after && id !in rows && after[id].key == presets[i].key
                      && after[id].details == presets[i].details && (id == presets[i].id <==> presets[i].id !in rows)
  {
    var key := presets[i].key;
    assert key in shelf ==> KeyInRows(rows, key);
    if key in ShelfAfter(shelf, presets[..i], bundleHash) {
      ShelfHoldsOnly(shelf, presets, bundleHash, i, key);
    }
    assert Placed(shelf, rows, presets, bundleHash, after, i);
    assert HasRow(rows, after, presets[i], key);
  }

  lemma StepAddsNothingExactly(shelf: Shelf, before: Shelf, after: Shelf, preset: Preset, bundleHash: Text)
    requires forall key :: key in shelf ==> key in before && before[key] == shelf[key]
    requires PresetFits(before, preset, bundleHash)
    requires after == if Present(before, preset) then before
                      else before[PlaceFor(before, preset, bundleHash) := ContentOf(preset.details)]
    ensures after == shelf <==> before == shelf && Present(shelf, preset)
  {
    if !Present(before, preset) {
      assert PlaceFor(before, preset, bundleHash) in after && PlaceFor(before, preset, bundleHash) !in shelf;
    }
  }

  ghost predicate AllPresent(shelf: Shelf, presets: seq<Preset>, n: nat)
    requires n <= |presets|
  {
    forall i {:trigger presets[i]} :: 0 <= i < n ==> Present(shelf, presets[i])
  }

  lemma OneMorePresent(shelf: Shelf, presets: seq<Preset>, n: nat)
    requires n < |presets|
    ensures AllPresent(shelf, presets, n + 1) <==> AllPresent(shelf, presets, n) && Present(shelf, presets[n])
  {
  }

  lemma OneMoreAddsNothingExactly(shelf: Shelf, presets: seq<Preset>, bundleHash: Text, n: nat)
    requires n < |presets| && PresetsFit(shelf, presets, bundleHash, n + 1)
    ensures ShelfAfter(shelf, presets[..n + 1], bundleHash) == shelf
       <==> ShelfAfter(shelf, presets[..n], bundleHash) == shelf && Present(shelf, presets[n])
  {
    ShelfAfterOneMore(shelf, presets, bundleHash, n);
    ShelfOnlyGains(shelf, presets, bundleHash, 0, n);
    assert presets[..0] == [];
    StepAddsNothingExactly(shelf, ShelfAfter(shelf, presets[..n], bundleHash),
                           ShelfAfter(shelf, presets[..n + 1], bundleHash), presets[n], bundleHash);
  }

  /** Nothing is added exactly when every preset of the bundle is there before. */
  lemma {:induction false} NothingIsAddedExactly(shelf: Shelf, presets: seq<Preset>, bundleHash: Text, n: nat)
    requires n <= |presets| && PresetsFit(shelf, presets, bundleHash, n)
    ensures ShelfAfter(shelf, presets[..n], bundleHash) == shelf <==> AllPresent(shelf, presets, n)
  {
    if n == 0 {
      assert presets[..0] == [];
    } else {
      NothingIsAddedExactly(shelf, presets, bundleHash, n - 1);
      OneMoreAddsNothingExactly(shelf, presets, bundleHash, n - 1);
      OneMorePresent(shelf, presets, n - 1);
    }
  }

  // ----- into an empty table

  /** Presets of distinct names stand under them. */
  lemma {:induction false} DistinctNamesAreKept(presets: seq<Preset>, bundleHash: Text, n: nat)
    requires n <= |presets| && NaturalKeysUnique(presets)
    ensures forall key :: key in ShelfAfter(map[], presets[..n], bundleHash) ==>
              exists i :: 0 <= i < n && presets[i].key == key
  {
    if n > 0 {
      DistinctNamesAreKept(presets, bundleHash, n - 1);
      ShelfAfterOneMore(map[], presets, bundleHash, n - 1);
    }
  }

  lemma NewNameIsFree(presets: seq<Preset>, bundleHash: Text, i: nat)
    requires i < |presets| && NaturalKeysUnique(presets)
    ensures presets[i].key !in ShelfAfter(map[], presets[..i], bundleHash)
  {
    DistinctNamesAreKept(presets, bundleHash, i);
  }

  lemma DistinctNamesFitExactly(presets: seq<Preset>, bundleHash: Text)
    requires NaturalKeysUnique(presets)
    ensures PresetsFit(map[], presets, bundleHash, |presets|)
       <==> forall i :: 0 <= i < |presets| ==> presets[i].details.version > 0 && Storable(presets[i].details.version)
  {
    forall i: nat | i < |presets|
      ensures PresetFits(ShelfAfter(map[], presets[..i], bundleHash), presets[i], bundleHash)
         <==> presets[i].details.version > 0 && Storable(presets[i].details.version)
    {
      NewNameIsFree(presets, bundleHash, i);
    }
  }

  /** An empty table takes over presets of distinct names as they are. */
  lemma EmptyTableTakesOverPresets(presets: seq<Preset>, bundleHash: Text, after: map<Id, PresetRow>)
    requires IdsUnique(presets) && NaturalKeysUnique(presets)
    requires PresetsRestored(map[], map[], presets, bundleHash, after)
    ensures after == AsRows(presets)
  {
    forall i: nat | i < |presets|
      ensures presets[i].id in after && after[presets[i].id] == Entry(presets[i].key, presets[i].details)
    {
      assert Placed(map[], map[], presets, bundleHash, after, i);
      NewNameIsFree(presets, bundleHash, i);
    }
    forall x | x in after ensures x in IdsOf(presets) {
      NewRowIsOwn(presets, bundleHash, after, x);
    }
  }

  lemma NewRowIsOwn(presets: seq<Preset>, bundleHash: Text, after: map<Id, PresetRow>, x: Id)
    requires NaturalKeysUnique(presets) && PresetsRestored(map[], map[], presets, bundleHash, after) && x in after
    requires forall i :: 0 <= i < |presets| ==>
               presets[i].id in after && after[presets[i].id] == Entry(presets[i].key, presets[i].details)
    ensures x in IdsOf(presets)
  {
    DistinctNamesAreKept(presets, bundleHash, |presets|);
    assert presets[..|presets|] == presets;
    var i :| 0 <= i < |presets| && presets[i].key == after[x].key;
    assert x == presets[i].id;
  }
}

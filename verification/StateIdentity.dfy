/**
When two states of a bundle become one row. Their fingerprints cover every id, so after an import
they can only meet when the import gives two of their filaments one id
(src/image23mf/bundles.py:923-952, 1693-1731).
*/
module StateIdentity {
  import opened Wrappers
  import opened Identifiers
  import opened History
  import opened HistoryValidation
  import opened Renaming

  // Two different states do not become one row.
  ghost predicate Apart(schema: Schema, r: Renames, h: History, a: Hash, b: Hash)
    requires a in h.states && b in h.states
  {
    && Rewritable(schema, r, h.states[a]) && Rewritable(schema, r, h.states[b])
    && (a != b ==> RenamedHash(schema, r, h.states[a]) != RenamedHash(schema, r, h.states[b]))
  }

  /** No two states of the bundle have the same rewritten contents. */
  ghost predicate StatesStayDistinct(schema: Schema, r: Renames, h: History) {
    forall a, b :: a in h.states && b in h.states ==> Apart(schema, r, h, a, b)
  }

  /** The configurations of all states survive the rewriting of their ids. */
  ghost predicate StatesRewrite(schema: Schema, assets: map<Id, Id>, h: History) {
    forall sha {:trigger h.states[sha]} :: sha in h.states ==> ConfigRewrites(schema, assets, h.states[sha].config)
  }

  // ----- the same, as a property of the bundle and of how filaments are named

  /** A color by the name its filament is given. */
  datatype Painted<N> = Named(name: N, swatch: nat) | Bare(color: Color)

  function Repaint<N>(naming: map<Id, N>, color: Color): Painted<N> {
    if color.filament.Some? && color.filament.value in naming
    then Named(naming[color.filament.value], color.swatch)
    else Bare(color)
  }

  predicate SamePaint<N(==)>(naming: map<Id, N>, a: seq<Color>, b: seq<Color>) {
    |a| == |b| && forall i :: 0 <= i < |a| ==> Repaint(naming, a[i]) == Repaint(naming, b[i])
  }

  /** Two states of one lineage that differ in nothing but filaments of one name. */
  predicate Alike<N(==)>(naming: map<Id, N>, a: State, b: State) {
    && a.lineage == b.lineage
    && a.schemaVersion == b.schemaVersion
    && a.config.body == b.config.body
    && SamePaint(naming, a.config.colors, b.config.colors)
    && Readable(a.operations) && Readable(b.operations)
    && Normalised(a.operations) == Normalised(b.operations)
  }

  ghost predicate StatesCollide<N>(naming: map<Id, N>, h: History) {
    exists a, b :: a in h.states && b in h.states && a != b && Alike(naming, h.states[a], h.states[b])
  }

  /** Two rewritten colorings agree exactly when filaments of one new id explain every difference. */
  lemma RecoloringAgreesExactly(names: Names, r: Renames, a: Config, b: Config)
    requires FilamentsKnown(a, names) && FilamentsKnown(b, names) && r.filaments.Keys == names.filaments
    requires a.source in r.assets && b.source in r.assets
    ensures RenamedConfig(r, a).colors == RenamedConfig(r, b).colors <==> SamePaint(r.filaments, a.colors, b.colors)
  {
    var x, y := RenamedConfig(r, a).colors, RenamedConfig(r, b).colors;
    if |a.colors| == |b.colors| {
      forall i | 0 <= i < |a.colors|
        ensures x[i] == y[i] <==> Repaint(r.filaments, a.colors[i]) == Repaint(r.filaments, b.colors[i])
      {
      }
    }
  }

  lemma FingerprintsMeetExactly(schema: Schema, names: Names, h: History, r: Renames, a: Hash, b: Hash)
    requires GraphOk(schema, names, h) && Covers(r, names, h) && Isomorphic(r)
    requires a in h.states && b in h.states
    requires ConfigRewrites(schema, r.assets, h.states[a].config)
    requires ConfigRewrites(schema, r.assets, h.states[b].config)
    ensures Rewritable(schema, r, h.states[a]) && Rewritable(schema, r, h.states[b])
    ensures RenamedHash(schema, r, h.states[a]) == RenamedHash(schema, r, h.states[b])
       <==> Alike(r.filaments, h.states[a], h.states[b])
  {
    var x, y := h.states[a], h.states[b];
    assert StateOk(schema, names, h.lineages, a, x) && StateOk(schema, names, h.lineages, b, y);
    assert LineageOk(h.lineages[x.lineage], names) && LineageOk(h.lineages[y.lineage], names);
    RecoloringAgreesExactly(names, r, x.config, y.config);
  }

  /** The states go in exactly when all can be rewritten and the chosen filament ids make no two alike. */
  lemma StatesStayDistinctExactly(schema: Schema, names: Names, h: History, r: Renames)
    requires GraphOk(schema, names, h) && Covers(r, names, h) && Isomorphic(r)
    ensures StatesStayDistinct(schema, r, h) <==> StatesRewrite(schema, r.assets, h) && !StatesCollide(r.filaments, h)
  {
    if StatesStayDistinct(schema, r, h) {
      forall sha | sha in h.states ensures ConfigRewrites(schema, r.assets, h.states[sha].config) {
        assert Apart(schema, r, h, sha, sha);
      }
    }
    if StatesRewrite(schema, r.assets, h) {
      forall a, b | a in h.states && b in h.states
        ensures Apart(schema, r, h, a, b) <==> a == b || !Alike(r.filaments, h.states[a], h.states[b])
      {
        FingerprintsMeetExactly(schema, names, h, r, a, b);
      }
    }
  }

  /** Two ways of naming filaments that tell the same filaments apart make the same states alike. */
  lemma NamingsAgree<M, N>(first: map<Id, M>, second: map<Id, N>, h: History)
    requires first.Keys == second.Keys
    requires forall a, b :: a in first && b in first ==> (first[a] == first[b] <==> second[a] == second[b])
    ensures StatesCollide(first, h) <==> StatesCollide(second, h)
  {
    forall a, b | a in h.states && b in h.states
      ensures Alike(first, h.states[a], h.states[b]) <==> Alike(second, h.states[a], h.states[b])
    {
      PaintAgrees(first, second, h.states[a].config.colors, h.states[b].config.colors);
    }
  }

  lemma PaintAgrees<M, N>(first: map<Id, M>, second: map<Id, N>, a: seq<Color>, b: seq<Color>)
    requires first.Keys == second.Keys
    requires forall x, y :: x in first && y in first ==> (first[x] == first[y] <==> second[x] == second[y])
    ensures SamePaint(first, a, b) <==> SamePaint(second, a, b)
  {
    if |a| == |b| {
      forall i | 0 <= i < |a|
        ensures Repaint(first, a[i]) == Repaint(first, b[i]) <==> Repaint(second, a[i]) == Repaint(second, b[i])
      {
      }
    }
  }

  /** With injective filament ids no two states of a valid history become one. */
  lemma InjectiveFilamentsKeepStatesApart(schema: Schema, names: Names, h: History, filaments: map<Id, Id>)
    requires GraphOk(schema, names, h) && filaments.Keys == names.filaments && Injective(filaments)
    ensures !StatesCollide(filaments, h)
  {
    forall a, b | a in h.states && b in h.states && Alike(filaments, h.states[a], h.states[b]) ensures a == b {
      var x, y := h.states[a], h.states[b];
      assert StateOk(schema, names, h.lineages, a, x) && StateOk(schema, names, h.lineages, b, y);
      forall i | 0 <= i < |x.config.colors| ensures x.config.colors[i] == y.config.colors[i] {
        assert Repaint(filaments, x.config.colors[i]) == Repaint(filaments, y.config.colors[i]);
      }
      assert x.config.colors == y.config.colors;
    }
  }
}

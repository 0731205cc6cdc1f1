/** The settings state `TVA_CONFIG` and the code that rewrites settings in
    place: the migrations `registerSettings` runs on the loaded settings, and
    the pruning of search filters in `updateSettings`. */
module Settings {
  import opened Js
  import opened Migration

  // ---------------------------------------------------------------------
  // `map` with a callback that mutates each entry in place.

  /** The first `k` entries have gone through `step`, the others are as
      they were: the state a `map` whose callback mutates its entry leaves
      behind when it throws at entry `k`. */
  predicate MigratedUpTo(ps: seq<Value>, qs: seq<Value>, step: Value -> Result<Value>, k: nat)
  {
    && k <= |ps| && |qs| == |ps|
    && (forall j :: 0 <= j < k ==> step(ps[j]) == Ok(qs[j]))
    && (forall j :: k <= j < |ps| ==> qs[j] == ps[j])
  }

  /** `ps.map(step)`, entry by entry. `qs` is what the entries are
      afterwards, whether or not the `map` throws. */
  method MapInPlace(ps: seq<Value>, step: Value -> Result<Value>) returns (qs: seq<Value>, r: Result<seq<Value>>)
    ensures r == MapAll(ps, step)
    ensures r.Ok? ==> qs == r.value
    ensures exists k: nat :: MigratedUpTo(ps, qs, step, k)
    ensures r.TypeError? ==> exists k: nat :: MigratedUpTo(ps, qs, step, k) && k < |ps| && step(ps[k]).TypeError?
  {
    qs := ps;
    var i := 0;
    while i < |ps|
      invariant MigratedUpTo(ps, qs, step, i)
    {
      var q := step(qs[i]);
      if q.TypeError? {
        r := TypeError;
        return;
      }
      qs := qs[i := q.value];
      i := i + 1;
    }
    MapAllExact(ps, qs, step);
    r := Ok(qs);
  }

  /** A forge holder after its `paths.map(...)`, finished or not: the same
      holder with some prefix of its entries migrated. */
  ghost predicate HolderPartly(h: Value, h': Value)
  {
    || h' == h
    || (&& h.Obj? && Get(h.fields, "paths").Arr?
        && h'.Obj? && Get(h'.fields, "paths").Arr?
        && h'.fields == h.fields["paths" := Get(h'.fields, "paths")]
        && exists k: nat :: MigratedUpTo(Get(h.fields, "paths").elems, Get(h'.fields, "paths").elems, MigrateForgeEntry, k))
  }

  /** `holder.paths = holder.paths.map(...)` on one forge holder. */
  method MigrateHolderInPlace(h: Value) returns (h': Value, r: Result<Value>)
    ensures r == MigrateHolder(h)
    ensures r.Ok? ==> h' == r.value
    ensures HolderPartly(h, h')
  {
    if !h.Obj? || !Get(h.fields, "paths").Arr? {
      return h, TypeError;
    }
    var ps := Get(h.fields, "paths").elems;
    var qs, mapped := MapInPlace(ps, MigrateForgeEntry);
    h' := Obj(h.fields["paths" := Arr(qs)]);
    assert Get(h'.fields, "paths") == Arr(qs);
    r := if mapped.Ok? then Ok(h') else TypeError;
  }

  /** `for (let uid in forgeSearchPaths)`, in whatever order the keys come.
      When a holder throws, the holders done before it are migrated, it is
      partly migrated and the rest are untouched. */
  method MigrateHolders(holders: map<string, Value>) returns (hs: map<string, Value>, r: Result<map<string, Value>>)
    ensures r == ForgeMigration(holders)
    ensures r.Ok? ==> hs == r.value
    ensures hs.Keys == holders.Keys
    ensures forall uid :: uid in hs ==> HolderPartly(holders[uid], hs[uid])
  {
    hs := holders;
    var pending := holders.Keys;
    while pending != {}
      invariant pending <= holders.Keys && hs.Keys == holders.Keys
      invariant forall uid :: uid in holders && uid !in pending ==> MigrateHolder(holders[uid]) == Ok(hs[uid])
      invariant forall uid :: uid in pending ==> hs[uid] == holders[uid]
      invariant forall uid :: uid in hs ==> HolderPartly(holders[uid], hs[uid])
      decreases pending
    {
      var uid :| uid in pending;
      var h, hr := MigrateHolderInPlace(hs[uid]);
      hs := hs[uid := h];
      if hr.TypeError? {
        return hs, TypeError;
      }
      pending := pending - {uid};
    }
    ForgeMigrationOf(holders, hs);
    r := Ok(hs);
  }

  lemma ForgeMigrationOf(holders: map<string, Value>, hs: map<string, Value>)
    requires hs.Keys == holders.Keys
    requires forall uid :: uid in holders ==> MigrateHolder(holders[uid]) == Ok(hs[uid])
    ensures ForgeMigration(holders) == Ok(hs)
  {
    assert hs == map uid | uid in holders :: MigrateHolder(holders[uid]).value;
  }

  // ---------------------------------------------------------------------
  // `TVA_CONFIG`.

  /** The parts of the module's configuration the migrations rewrite. */
  class TvaConfig {
    var searchPaths: seq<Value>
    var forgeSearchPaths: map<string, Value>
    var searchFilters: map<string, Value>
    var compendiumMapper: map<string, Value>

    /** The configuration after `mergeObject(TVA_CONFIG, settings)`. */
    constructor (searchPaths: seq<Value>, forgeSearchPaths: map<string, Value>,
                 searchFilters: map<string, Value>, compendiumMapper: map<string, Value>)
      ensures this.searchPaths == searchPaths && this.forgeSearchPaths == forgeSearchPaths
      ensures this.searchFilters == searchFilters && this.compendiumMapper == compendiumMapper
    {
      this.searchPaths := searchPaths;
      this.forgeSearchPaths := forgeSearchPaths;
      this.searchFilters := searchFilters;
      this.compendiumMapper := compendiumMapper;
    }

    /** `TVA_CONFIG.searchPaths = TVA_CONFIG.searchPaths.map(...)`. When an
        entry throws, the entries before it are migrated in place. */
    method MigrateSearchPaths() returns (r: Result<()>)
      modifies this
      ensures r.Ok? <==> MapAll(old(searchPaths), StartupEntry).Ok?
      ensures r.Ok? ==> searchPaths == MapAll(old(searchPaths), StartupEntry).value
      ensures r.TypeError? ==> exists k: nat ::
        MigratedUpTo(old(searchPaths), searchPaths, StartupEntry, k) && k < |searchPaths|
        && StartupEntry(old(searchPaths)[k]).TypeError?
      ensures forgeSearchPaths == old(forgeSearchPaths)
      ensures searchFilters == old(searchFilters) && compendiumMapper == old(compendiumMapper)
    {
      var qs, mapped := MapInPlace(searchPaths, StartupEntry);
      searchPaths := qs;
      r := if mapped.Ok? then Ok(()) else TypeError;
    }

    /** The filter conversion at startup, which resets only the mapper's
        `searchFilters`. Afterwards the filters are in the new format. */
    method ConvertFilterFormat()
      modifies this
      ensures IsLegacyFilters(old(searchFilters)) ==>
        && searchFilters == ConvertFilters(old(searchFilters), AtStartup)
        && compendiumMapper == old(compendiumMapper)["searchFilters" := Obj(map[])]
      ensures !IsLegacyFilters(old(searchFilters)) ==>
        searchFilters == old(searchFilters) && compendiumMapper == old(compendiumMapper)
      ensures !IsLegacyFilters(searchFilters)
      ensures searchPaths == old(searchPaths) && forgeSearchPaths == old(forgeSearchPaths)
    {
      if IsLegacyFilters(searchFilters) {
        ConvertedRecords(searchFilters, AtStartup);
        searchFilters := ConvertFilters(searchFilters, AtStartup);
        compendiumMapper := compendiumMapper["searchFilters" := Obj(map[])];
      }
    }

    /** The forge-path loop at startup. */
    method MigrateForgePaths() returns (r: Result<()>)
      modifies this
      ensures r.Ok? <==> ForgeMigration(old(forgeSearchPaths)).Ok?
      ensures r.Ok? ==> forgeSearchPaths == ForgeMigration(old(forgeSearchPaths)).value
      ensures forgeSearchPaths.Keys == old(forgeSearchPaths).Keys
      ensures forall uid :: uid in forgeSearchPaths ==>
        HolderPartly(old(forgeSearchPaths)[uid], forgeSearchPaths[uid])
      ensures searchPaths == old(searchPaths)
      ensures searchFilters == old(searchFilters) && compendiumMapper == old(compendiumMapper)
    {
      var hs, migrated := MigrateHolders(forgeSearchPaths);
      forgeSearchPaths := hs;
      r := if migrated.Ok? then Ok(()) else TypeError;
    }

    /** The three migrations of `registerSettings`, in order; a throw stops
        the rest, leaving the state the earlier steps reached. When they all
        go through, running them again would change nothing. */
    method RegisterMigrations() returns (r: Result<()>)
      modifies this
      ensures r.Ok? <==>
        MapAll(old(searchPaths), StartupEntry).Ok? && ForgeMigration(old(forgeSearchPaths)).Ok?
      ensures r.Ok? ==>
        && searchPaths == MapAll(old(searchPaths), StartupEntry).value
        && forgeSearchPaths == ForgeMigration(old(forgeSearchPaths)).value
        && searchFilters ==
             (if IsLegacyFilters(old(searchFilters)) then ConvertFilters(old(searchFilters), AtStartup)
              else old(searchFilters))
      ensures r.Ok? ==>
        && MapAll(searchPaths, StartupEntry) == Ok(searchPaths)
        && ForgeMigration(forgeSearchPaths) == Ok(forgeSearchPaths)
        && !IsLegacyFilters(searchFilters)
      ensures MapAll(old(searchPaths), StartupEntry).TypeError? ==>
        && forgeSearchPaths == old(forgeSearchPaths)
        && searchFilters == old(searchFilters) && compendiumMapper == old(compendiumMapper)
      ensures MapAll(old(searchPaths), StartupEntry).TypeError? ==> exists k: nat ::
        MigratedUpTo(old(searchPaths), searchPaths, StartupEntry, k) && k < |searchPaths|
        && StartupEntry(old(searchPaths)[k]).TypeError?
      ensures MapAll(old(searchPaths), StartupEntry).Ok? ==>
        && searchPaths == MapAll(old(searchPaths), StartupEntry).value
        && searchFilters ==
             (if IsLegacyFilters(old(searchFilters)) then ConvertFilters(old(searchFilters), AtStartup)
              else old(searchFilters))
        && compendiumMapper ==
             (if IsLegacyFilters(old(searchFilters)) then old(compendiumMapper)["searchFilters" := Obj(map[])]
              else old(compendiumMapper))
        && forgeSearchPaths.Keys == old(forgeSearchPaths).Keys
        && forall uid :: uid in forgeSearchPaths ==>
             HolderPartly(old(forgeSearchPaths)[uid], forgeSearchPaths[uid])
    {
      r := MigrateSearchPaths();
      if r.TypeError? {
        return;
      }
      StartupPathsIdempotent(old(searchPaths));
      ConvertFilterFormat();
      r := MigrateForgePaths();
      if r.Ok? {
        ForgeMigrationIdempotent(old(forgeSearchPaths));
      }
    }
  }

  // ---------------------------------------------------------------------
  // Pruning in `updateSettings`.

  const BuiltinCategories: seq<string> := ["token", "portrait", "portraitAndToken", "item", "journal", "tile"]

  /** `{ include: '', exclude: '', regex: '' }` */
  const EmptyFilter: Value := Obj(map["include" := Str(""), "exclude" := Str(""), "regex" := Str("")])

  /** The filters whose category is listed. */
  function KeptFilters(filters: map<string, Value>, categories: seq<string>): map<string, Value>
  {
    map k | k in filters && k in categories :: filters[k]
  }

  /** Each category of `types` whose filter reads as null gets the empty
      filter. The object inherits `inherited`: as written that is
      `PrototypeMembers`, so a category named like one of them reads as set
      and gets nothing; the corrected own-property test has
      `inherited == {}`. */
  function Filled(filters: map<string, Value>, types: seq<string>, inherited: set<string>): map<string, Value>
  {
    map k | k in filters.Keys + (set t | t in types && t !in filters && t !in inherited) ::
      if k in types && NullishAt(filters, k, inherited) then EmptyFilter else filters[k]
  }

  /** The search filters `updateSettings` stores, given the custom image
      categories: only built-in categories already present and custom ones
      are left. */
  function Pruned(filters: map<string, Value>, custom: seq<string>, inherited: set<string>): (r: map<string, Value>)
    ensures forall k :: k in r <==>
      (k in filters && (k in BuiltinCategories || k in custom)) || (k in custom && k !in inherited)
  {
    Filled(KeptFilters(filters, BuiltinCategories + custom), custom, inherited)
  }

  /** The two loops of `updateSettings`: delete the filters of unknown
      categories, then add an empty filter for each custom category whose
      filter reads as null. */
  method PruneSearchFilters(filters: map<string, Value>, custom: seq<string>, inherited: set<string>)
    returns (r: map<string, Value>)
    ensures r == Pruned(filters, custom, inherited)
  {
    r := DropUnknown(filters, BuiltinCategories + custom);
    r := AddMissing(r, custom, inherited);
  }

  /** `for (const filter in searchFilters) if (!categories.includes(filter)) delete ...` */
  method DropUnknown(filters: map<string, Value>, categories: seq<string>) returns (r: map<string, Value>)
    ensures r == KeptFilters(filters, categories)
  {
    r := filters;
    var pending := filters.Keys;
    while pending != {}
      invariant pending <= filters.Keys
      invariant r == map k | k in filters && (k in pending || k in categories) :: filters[k]
      decreases pending
    {
      var key :| key in pending;
      if key !in categories {
        r := r - {key};
      }
      pending := pending - {key};
    }
  }

  /** `customImageCategories.forEach(...)`: a filter that reads as null
      becomes the empty one. */
  method AddMissing(kept: map<string, Value>, custom: seq<string>, inherited: set<string>) returns (r: map<string, Value>)
    ensures r == Filled(kept, custom, inherited)
  {
    r := kept;
    var i := 0;
    while i < |custom|
      invariant i <= |custom|
      invariant r == Filled(kept, custom[..i], inherited)
    {
      FilledSnoc(kept, custom[..i], custom[i], inherited);
      assert custom[..i + 1] == custom[..i] + [custom[i]];
      if NullishAt(r, custom[i], inherited) {
        r := r[custom[i] := EmptyFilter];
      }
      i := i + 1;
    }
    assert custom[..|custom|] == custom;
  }

  /** One more step of the `forEach`. */
  lemma FilledSnoc(m: map<string, Value>, types: seq<string>, t: string, inherited: set<string>)
    ensures Filled(m, types + [t], inherited) ==
      var f := Filled(m, types, inherited);
      if NullishAt(f, t, inherited) then f[t := EmptyFilter] else f
  {
    var f := Filled(m, types, inherited);
    if t in types && t in f {
      assert !IsNullish(f[t]);
    }
  }

  /** What pruning promises: every custom category the object does not
      inherit, or already sets, has a non-null filter, kept filters are
      unchanged, and added ones are empty. */
  lemma PrunedFilters(filters: map<string, Value>, custom: seq<string>, inherited: set<string>)
    ensures forall t :: t in custom && (t in filters || t !in inherited) ==>
      t in Pruned(filters, custom, inherited) && !IsNullish(Pruned(filters, custom, inherited)[t])
    ensures forall k :: k in filters && k in Pruned(filters, custom, inherited) && !(k in custom && IsNullish(filters[k])) ==>
      Pruned(filters, custom, inherited)[k] == filters[k]
    ensures forall t :: t in custom && NullishAt(filters, t, inherited) ==>
      Pruned(filters, custom, inherited)[t] == EmptyFilter
  {
  }

  /** As written, a custom category named like a member of
      `Object.prototype` that has no filter yet gets none. */
  lemma PrototypeCategoryGetsNoFilter(filters: map<string, Value>)
    requires "constructor" !in filters
    ensures "constructor" !in Pruned(filters, ["constructor"], PrototypeMembers)
  {
  }

  /** With the own-property test every custom category ends with a non-null
      filter. */
  lemma CustomCategoriesFilled(filters: map<string, Value>, custom: seq<string>)
    ensures forall t :: t in custom ==>
      t in Pruned(filters, custom, {}) && !IsNullish(Pruned(filters, custom, {})[t])
  {
    PrunedFilters(filters, custom, {});
  }

  /** Pruning twice is pruning once. */
  lemma PruneIdempotent(filters: map<string, Value>, custom: seq<string>, inherited: set<string>)
    ensures Pruned(Pruned(filters, custom, inherited), custom, inherited) == Pruned(filters, custom, inherited)
  {
    PrunedFilters(filters, custom, inherited);
    var p := Pruned(filters, custom, inherited);
    PrunedFilters(p, custom, inherited);
  }
}

/** The settings migrations of `registerSettings` and `importSettingsFromJSON`
    as functions on values: legacy search-path entries whose `text` encodes
    their source, forge search paths without a source, and the old flat
    filter format. The in-place loops that apply them are in `Settings`. */
module Migration {
  import opened Js
  import opened Text
  import opened SearchPaths

  /** The two copies of the search-path migration differ: at startup every
      entry gets a default `types`, on import only the entries that had no
      `source`. */
  datatype Mode = AtStartup | OnImport

  // ---------------------------------------------------------------------
  // Search-path entries.

  /** `p.tiles ? ['tile'] : ['token']` */
  function TypesDefault(fields: map<string, Value>): Value
  {
    if Truthy(Get(fields, "tiles")) then Arr([Str("tile")]) else Arr([Str("token")])
  }

  /** `if (!p.types) p.types = ...`: a missing `types` gets its default. */
  function WithTypes(fields: map<string, Value>): (r: map<string, Value>)
    ensures Truthy(Get(r, "types"))
    ensures r.Keys == fields.Keys + {"types"}
    ensures forall k :: k in fields && k != "types" ==> r[k] == fields[k]
    ensures Truthy(Get(fields, "types")) ==> r == fields
    ensures !Truthy(Get(fields, "types")) ==>
      r["types"] == (if Truthy(Get(fields, "tiles")) then Arr([Str("tile")]) else Arr([Str("token")]))
  {
    if Truthy(Get(fields, "types")) then fields else fields["types" := TypesDefault(fields)]
  }

  /** A prefix ending in a colon leaves at least two colon-separated fields. */
  lemma ColonInPrefix(text: string, prefix: string)
    requires StartsWith(text, prefix) && |prefix| >= 1 && prefix[|prefix| - 1] == ':'
    ensures |Split(text, IsColon)| >= 2
  {
    assert text[|prefix| - 1] == text[..|prefix|][|prefix| - 1];
    SplitAtLeastTwo(text, |prefix| - 1, IsColon);
  }

  /** `text.split(':')[1]` after a prefix that ends in a colon. */
  function SecondField(text: string, prefix: string): string
    requires StartsWith(text, prefix) && |prefix| >= 1 && prefix[|prefix| - 1] == ':'
  {
    ColonInPrefix(text, prefix);
    Split(text, IsColon)[1]
  }

  /** The `source` and `text` a legacy entry's `text` stands for, by its
      prefix. The source is never empty. */
  function LegacySource(text: string): (r: (string, string))
    ensures r.0 != ""
  {
    if StartsWith(text, "s3:") then
      ColonInPrefix(text, "s3:");
      var parts := Split(text, IsColon);
      if |parts| > 2 then ("s3:" + parts[1], parts[2])
      else ("s3:", text[3..])
    else if StartsWith(text, "rolltable:") then ("rolltable", SecondField(text, "rolltable:"))
    else if StartsWith(text, "forgevtt:") then ("forgevtt", SecondField(text, "forgevtt:"))
    else if StartsWith(text, "imgur:") then ("imgur", SecondField(text, "imgur:"))
    else ("data", text)
  }

  /** The `map` callback over `searchPaths`. An entry that is not an object,
      or that has no `source` and no string `text`, throws. An entry with a
      `source` is kept; otherwise its `text` is decoded. */
  function MigrateEntry(p: Value, mode: Mode): (r: Result<Value>)
    ensures r.TypeError? <==>
      !p.Obj? || (!Truthy(Get(p.fields, "source")) && !Get(p.fields, "text").Str?)
    ensures r.Ok? ==> r.value.Obj? && Truthy(Get(r.value.fields, "source"))
    ensures r.Ok? && (mode == AtStartup || !Truthy(Get(p.fields, "source"))) ==>
      Truthy(Get(r.value.fields, "types"))
  {
    if !p.Obj? then TypeError
    else if Truthy(Get(p.fields, "source")) then
      if mode == AtStartup then Ok(Obj(WithTypes(p.fields))) else Ok(p)
    else
      match Get(p.fields, "text")
      case Str(text) =>
        var decoded := LegacySource(text);
        Ok(Obj(WithTypes(p.fields["text" := Str(decoded.1)]["source" := Str(decoded.0)])))
      case _ => TypeError
  }

  function StartupEntry(p: Value): Result<Value>
  {
    MigrateEntry(p, AtStartup)
  }

  function ImportEntry(p: Value): Result<Value>
  {
    MigrateEntry(p, OnImport)
  }

  /** `ps.map(step)`: throws when some step throws, and otherwise keeps the
      length and the order. */
  function MapAll(ps: seq<Value>, step: Value -> Result<Value>): (r: Result<seq<Value>>)
    ensures r.Ok? <==> forall i :: 0 <= i < |ps| ==> step(ps[i]).Ok?
    ensures r.Ok? ==> |r.value| == |ps| && forall i :: 0 <= i < |ps| ==> step(ps[i]) == Ok(r.value[i])
  {
    if ps == [] then Ok([])
    else
      match step(ps[0])
      case TypeError => TypeError
      case Ok(q) =>
        match MapAll(ps[1..], step)
        case TypeError => TypeError
        case Ok(qs) => Ok([q] + qs)
  }

  /** The result of `map` is fixed by its entries. */
  lemma {:induction false} MapAllExact(ps: seq<Value>, qs: seq<Value>, step: Value -> Result<Value>)
    requires |qs| == |ps| && forall i :: 0 <= i < |ps| ==> step(ps[i]) == Ok(qs[i])
    ensures MapAll(ps, step) == Ok(qs)
  {
    if ps != [] {
      MapAllExact(ps[1..], qs[1..], step);
      assert [qs[0]] + qs[1..] == qs;
    }
  }

  // ---------------------------------------------------------------------
  // What the migration of one entry does.

  /** An entry that already has a source keeps its `source` and `text`; on
      import it is not touched at all. */
  lemma SourcedEntryKept(p: Value, mode: Mode)
    requires p.Obj? && Truthy(Get(p.fields, "source"))
    ensures MigrateEntry(p, mode).Ok?
    ensures Get(MigrateEntry(p, mode).value.fields, "source") == Get(p.fields, "source")
    ensures Get(MigrateEntry(p, mode).value.fields, "text") == Get(p.fields, "text")
    ensures mode == OnImport ==> MigrateEntry(p, mode) == Ok(p)
  {
  }

  /** An entry without a source gets the source and text its `text` encodes
      and a `types`; nothing else changes. */
  lemma UnsourcedEntryDecoded(p: Value, mode: Mode, text: string)
    requires p.Obj? && !Truthy(Get(p.fields, "source")) && Get(p.fields, "text") == Str(text)
    ensures MigrateEntry(p, mode).Ok?
    ensures var q := MigrateEntry(p, mode).value.fields;
      && Get(q, "source") == Str(LegacySource(text).0)
      && Get(q, "text") == Str(LegacySource(text).1)
      && Truthy(Get(q, "types"))
      && q.Keys == p.fields.Keys + {"source", "types"}
      && (forall k :: k in p.fields && k !in {"source", "text", "types"} ==> q[k] == p.fields[k])
  {
  }

  /** Migrating a migrated entry changes nothing. */
  lemma EntryIdempotent(p: Value, mode: Mode)
    requires MigrateEntry(p, mode).Ok?
    ensures MigrateEntry(MigrateEntry(p, mode).value, mode) == MigrateEntry(p, mode)
  {
    var q := MigrateEntry(p, mode).value;
    if mode == AtStartup {
      assert WithTypes(q.fields) == q.fields;
    }
  }

  /** The two copies differ: a sourced entry without `types` gets one at
      startup and is left alone on import. */
  lemma ModesDiffer()
    ensures var p := Obj(map["source" := Str("data"), "text" := Str("x")]);
      && StartupEntry(p) == Ok(Obj(map["source" := Str("data"), "text" := Str("x"), "types" := Arr([Str("token")])]))
      && ImportEntry(p) == Ok(p)
  {
    var fields := map["source" := Str("data"), "text" := Str("x")];
    assert Get(fields, "types") == Undefined && Get(fields, "tiles") == Undefined;
  }

  // ---------------------------------------------------------------------
  // The encodings.

  predicate ColonFree(s: string)
  {
    forall i :: 0 <= i < |s| ==> s[i] != ':'
  }

  /** The first colon field of `w + tail`, when `tail` is empty or starts
      with a colon, is `w`. */
  lemma FirstField(w: string, tail: string)
    requires ColonFree(w) && (tail == "" || tail[0] == ':')
    ensures Split(w + tail, IsColon)[0] == w
  {
    if tail == "" {
      assert w + tail == w;
      SplitWithoutSeparator(w, IsColon);
    } else {
      assert w + tail == w + [':'] + tail[1..];
      SplitAtSeparator(w, ':', tail[1..], IsColon);
    }
  }

  /** `s3:B:P` (with anything after a further colon) becomes source `s3:B`
      and text `P`; the rest is dropped. */
  lemma S3WithBucket(bucket: string, path: string, tail: string)
    requires ColonFree(bucket) && ColonFree(path) && (tail == "" || tail[0] == ':')
    ensures LegacySource("s3:" + bucket + ":" + path + tail) == ("s3:" + bucket, path)
  {
    var text := "s3:" + bucket + ":" + path + tail;
    assert text[..3] == "s3:";
    assert text == "s3" + [':'] + (bucket + [':'] + (path + tail));
    SplitAtSeparator("s3", ':', bucket + [':'] + (path + tail), IsColon);
    SplitAtSeparator(bucket, ':', path + tail, IsColon);
    FirstField(path, tail);
  }

  /** `s3:X` without a further colon becomes source `s3:` and text `X`. */
  lemma S3WithoutBucket(x: string)
    requires ColonFree(x)
    ensures LegacySource("s3:" + x) == ("s3:", x)
  {
    var text := "s3:" + x;
    assert text[..3] == "s3:";
    assert text == "s3" + [':'] + x;
    SplitAtSeparator("s3", ':', x, IsColon);
    SplitWithoutSeparator(x, IsColon);
  }

  /** `rolltable:`, `forgevtt:` and `imgur:` become that source, with the
      second colon field as text. */
  lemma NamedPrefix(name: string, w: string, tail: string)
    requires name in ["rolltable", "forgevtt", "imgur"]
    requires ColonFree(w) && (tail == "" || tail[0] == ':')
    ensures LegacySource(name + ":" + w + tail) == (name, w)
  {
    var text := name + ":" + w + tail;
    PrefixField(name, w, tail);
    OtherFirstChar(text, "s3:");
    if name == "forgevtt" {
      OtherFirstChar(text, "rolltable:");
    } else if name == "imgur" {
      OtherFirstChar(text, "rolltable:");
      OtherFirstChar(text, "forgevtt:");
    }
  }

  /** `name:w...` starts with `name:` and has `w` as second colon field. */
  lemma PrefixField(name: string, w: string, tail: string)
    requires |name| >= 1 && ColonFree(name)
    requires ColonFree(w) && (tail == "" || tail[0] == ':')
    ensures var text := name + ":" + w + tail;
      && StartsWith(text, name + ":") && text[0] == name[0]
      && |Split(text, IsColon)| >= 2 && Split(text, IsColon)[1] == w
  {
    var text := name + ":" + w + tail;
    assert text[..|name| + 1] == name + ":";
    assert text == name + [':'] + (w + tail);
    SplitAtSeparator(name, ':', w + tail, IsColon);
    FirstField(w, tail);
  }

  lemma OtherFirstChar(s: string, prefix: string)
    requires |s| >= 1 && |prefix| >= 1 && s[0] != prefix[0]
    ensures !StartsWith(s, prefix)
  {
    if |prefix| <= |s| {
      assert s[..|prefix|][0] == s[0];
    }
  }

  /** Any other text is a `data` path, kept as it is. */
  lemma DataPath(text: string)
    requires !StartsWith(text, "s3:") && !StartsWith(text, "rolltable:")
    requires !StartsWith(text, "forgevtt:") && !StartsWith(text, "imgur:")
    ensures LegacySource(text) == ("data", text)
  {
  }

  /** The two parsers of `s3:` paths disagree: here `s3:a:b:c` is bucket `a`
      and path `b`, while the search-path parser reads bucket `a:b` and path
      `c`. */
  lemma S3ParsesDiffer()
    ensures LegacySource("s3:a:b:c") == ("s3:a", "b")
    ensures MatchBucket("s3:a:b:c") == Match("a:b", "c")
  {
    S3Example();
    BucketUpToLastColon();
  }

  lemma S3Example()
    ensures LegacySource("s3:a:b:c") == ("s3:a", "b")
  {
    var text := "s3:" + "a" + ":" + "b" + ":c";
    assert text == "s3:a:b:c";
    assert "s3:" + "a" == "s3:a";
    S3WithBucket("a", "b", ":c");
  }

  // ---------------------------------------------------------------------
  // Forge search paths.

  /** The `map` callback over a forge holder's `paths`: a missing source
      becomes `forgevtt`, and `types` gets its default. Assigning to a
      primitive throws. */
  function MigrateForgeEntry(p: Value): (r: Result<Value>)
    ensures r.TypeError? <==> !p.Obj?
    ensures r.Ok? ==> r.value.Obj? && Truthy(Get(r.value.fields, "types"))
    ensures r.Ok? ==>
      Get(r.value.fields, "source") == (if Truthy(Get(p.fields, "source")) then Get(p.fields, "source") else Str("forgevtt"))
  {
    if !p.Obj? then TypeError
    else
      var fields := if Truthy(Get(p.fields, "source")) then p.fields else p.fields["source" := Str("forgevtt")];
      Ok(Obj(WithTypes(fields)))
  }

  /** `holder.paths = holder.paths.map(...)`: the holder must be an object
      whose `paths` is an array of objects. Each entry is migrated in place
      of the old one; the other fields are kept. */
  function MigrateHolder(h: Value): (r: Result<Value>)
    ensures r.Ok? <==>
      && h.Obj? && Get(h.fields, "paths").Arr?
      && forall i :: 0 <= i < |Get(h.fields, "paths").elems| ==> Get(h.fields, "paths").elems[i].Obj?
    ensures r.Ok? ==>
      var ps := Get(h.fields, "paths").elems;
      && r.value.Obj?
      && var qs := Get(r.value.fields, "paths");
      && qs.Arr? && |qs.elems| == |ps|
      && forall i :: 0 <= i < |ps| ==> MigrateForgeEntry(ps[i]) == Ok(qs.elems[i])
    ensures r.Ok? ==> r.value.Obj? && r.value.fields.Keys == h.fields.Keys
    ensures r.Ok? ==> forall k :: k in h.fields && k != "paths" ==> r.value.fields[k] == h.fields[k]
  {
    if !h.Obj? then TypeError
    else
      match Get(h.fields, "paths")
      case Arr(ps) =>
        (match MapAll(ps, MigrateForgeEntry)
         case TypeError => TypeError
         case Ok(qs) => Ok(Obj(h.fields["paths" := Arr(qs)])))
      case _ => TypeError
  }

  /** The `for (uid in forgeSearchPaths)` loop, when no holder throws. */
  function ForgeMigration(holders: map<string, Value>): (r: Result<map<string, Value>>)
    ensures r.Ok? <==> forall uid :: uid in holders ==> MigrateHolder(holders[uid]).Ok?
    ensures r.Ok? ==> r.value.Keys == holders.Keys
    ensures r.Ok? ==> forall uid :: uid in holders ==> MigrateHolder(holders[uid]) == Ok(r.value[uid])
  {
    if forall uid :: uid in holders ==> MigrateHolder(holders[uid]).Ok? then
      Ok(map uid | uid in holders :: MigrateHolder(holders[uid]).value)
    else TypeError
  }

  // ---------------------------------------------------------------------
  // A second pass changes nothing.

  lemma {:induction false} MapAllIdempotent(ps: seq<Value>, step: Value -> Result<Value>)
    requires forall p :: step(p).Ok? ==> step(step(p).value) == step(p)
    ensures MapAll(ps, step).Ok? ==> MapAll(MapAll(ps, step).value, step) == MapAll(ps, step)
  {
    if ps != [] && MapAll(ps, step).Ok? {
      MapAllIdempotent(ps[1..], step);
      var qs := MapAll(ps, step).value;
      assert qs[1..] == MapAll(ps[1..], step).value;
    }
  }

  lemma StartupPathsIdempotent(ps: seq<Value>)
    ensures MapAll(ps, StartupEntry).Ok? ==>
      MapAll(MapAll(ps, StartupEntry).value, StartupEntry) == MapAll(ps, StartupEntry)
  {
    forall p | StartupEntry(p).Ok?
      ensures StartupEntry(StartupEntry(p).value) == StartupEntry(p)
    {
      EntryIdempotent(p, AtStartup);
    }
    MapAllIdempotent(ps, StartupEntry);
  }

  lemma ImportPathsIdempotent(ps: seq<Value>)
    ensures MapAll(ps, ImportEntry).Ok? ==>
      MapAll(MapAll(ps, ImportEntry).value, ImportEntry) == MapAll(ps, ImportEntry)
  {
    forall p | ImportEntry(p).Ok?
      ensures ImportEntry(ImportEntry(p).value) == ImportEntry(p)
    {
      EntryIdempotent(p, OnImport);
    }
    MapAllIdempotent(ps, ImportEntry);
  }

  lemma ForgeEntryIdempotent(p: Value)
    requires MigrateForgeEntry(p).Ok?
    ensures MigrateForgeEntry(MigrateForgeEntry(p).value) == MigrateForgeEntry(p)
  {
    var q := MigrateForgeEntry(p).value;
    assert Truthy(Get(q.fields, "source"));
    assert WithTypes(q.fields) == q.fields;
  }

  lemma HolderIdempotent(h: Value)
    requires MigrateHolder(h).Ok?
    ensures MigrateHolder(MigrateHolder(h).value) == MigrateHolder(h)
  {
    forall p | MigrateForgeEntry(p).Ok?
      ensures MigrateForgeEntry(MigrateForgeEntry(p).value) == MigrateForgeEntry(p)
    {
      ForgeEntryIdempotent(p);
    }
    var ps := Get(h.fields, "paths").elems;
    MapAllIdempotent(ps, MigrateForgeEntry);
    var qs := MapAll(ps, MigrateForgeEntry).value;
    var h' := MigrateHolder(h).value;
    assert h' == Obj(h.fields["paths" := Arr(qs)]);
    assert Get(h'.fields, "paths") == Arr(qs);
    assert h'.fields["paths" := Arr(qs)] == h'.fields;
  }

  lemma ForgeMigrationIdempotent(holders: map<string, Value>)
    requires ForgeMigration(holders).Ok?
    ensures ForgeMigration(ForgeMigration(holders).value) == ForgeMigration(holders)
  {
    var migrated := ForgeMigration(holders).value;
    forall uid | uid in migrated
      ensures MigrateHolder(migrated[uid]) == Ok(migrated[uid])
    {
      HolderIdempotent(holders[uid]);
    }
    ForgeMigrationFixed(migrated);
  }

  lemma ForgeMigrationFixed(holders: map<string, Value>)
    requires forall uid :: uid in holders ==> MigrateHolder(holders[uid]) == Ok(holders[uid])
    ensures ForgeMigration(holders) == Ok(holders)
  {
    assert (map uid | uid in holders :: MigrateHolder(holders[uid]).value) == holders;
  }

  // ---------------------------------------------------------------------
  // The filter format.

  /** `searchFilters.portraitFilterInclude != null` */
  predicate IsLegacyFilters(filters: map<string, Value>)
  {
    !IsNullish(Get(filters, "portraitFilterInclude"))
  }

  /** One legacy field: as it is at startup, `?? ''` on import. */
  function LegacyField(filters: map<string, Value>, key: string, mode: Mode): (v: Value)
    ensures !IsNullish(Get(filters, key)) ==> v == Get(filters, key)
    ensures mode == OnImport ==> !IsNullish(v)
    ensures mode == AtStartup ==> v == Get(filters, key)
  {
    if mode == OnImport then OrDefault(Get(filters, key), Str("")) else Get(filters, key)
  }

  /** An `{include, exclude, regex}` record, with no null field on import. */
  predicate IsFilterRecord(v: Value, mode: Mode)
  {
    && v.Obj? && v.fields.Keys == {"include", "exclude", "regex"}
    && (mode == OnImport ==> forall f :: f in v.fields ==> !IsNullish(v.fields[f]))
  }

  function FilterRecord(filters: map<string, Value>, prefix: string, mode: Mode): (r: Value)
    ensures IsFilterRecord(r, mode)
  {
    Obj(map[
      "include" := LegacyField(filters, prefix + "FilterInclude", mode),
      "exclude" := LegacyField(filters, prefix + "FilterExclude", mode),
      "regex" := LegacyField(filters, prefix + "FilterRegex", mode)])
  }

  /** The reshaped filters: one record per category, `general` becoming
      `portraitAndToken`. */
  function ConvertFilters(filters: map<string, Value>, mode: Mode): (r: map<string, Value>)
    ensures r.Keys == {"portrait", "token", "portraitAndToken"}
  {
    map[
      "portrait" := FilterRecord(filters, "portrait", mode),
      "token" := FilterRecord(filters, "token", mode),
      "portraitAndToken" := FilterRecord(filters, "general", mode)]
  }

  /** Every converted category is an `{include, exclude, regex}` record, with
      no null field on import; and the result is no longer in the old
      format, so the conversion applies once. */
  lemma ConvertedRecords(filters: map<string, Value>, mode: Mode)
    ensures forall c :: c in ConvertFilters(filters, mode) ==> IsFilterRecord(ConvertFilters(filters, mode)[c], mode)
    ensures !IsLegacyFilters(ConvertFilters(filters, mode))
  {
    var r := ConvertFilters(filters, mode);
    assert "portraitFilterInclude" !in r;
  }

  /** A legacy filter with only `portraitFilterInclude` set: at startup its
      value is carried over and the missing fields stay missing... */
  lemma StartupConvertExample()
    ensures ConvertFilters(map["portraitFilterInclude" := Str("a")], AtStartup)["portrait"] ==
      Obj(map["include" := Str("a"), "exclude" := Undefined, "regex" := Undefined])
  {
    assert "portrait" + "FilterInclude" == "portraitFilterInclude";
    assert "portrait" + "FilterExclude" == "portraitFilterExclude";
    assert "portrait" + "FilterRegex" == "portraitFilterRegex";
  }

  /** ... while on import they become `''`. */
  lemma ImportConvertExample()
    ensures ConvertFilters(map["portraitFilterInclude" := Str("a")], OnImport)["token"] ==
      Obj(map["include" := Str(""), "exclude" := Str(""), "regex" := Str("")])
  {
    assert "token" + "FilterInclude" == "tokenFilterInclude";
    assert "token" + "FilterExclude" == "tokenFilterExclude";
    assert "token" + "FilterRegex" == "tokenFilterRegex";
  }

  // ---------------------------------------------------------------------
  // `importSettingsFromJSON`, on the parsed value.

  /** `if (json.searchPaths) json.searchPaths = json.searchPaths.map(...)`;
      a truthy value that is not an array has no `map`. */
  function ImportPaths(fields: map<string, Value>): (r: Result<map<string, Value>>)
    ensures !Truthy(Get(fields, "searchPaths")) ==> r == Ok(fields)
    ensures r.TypeError? <==>
      var paths := Get(fields, "searchPaths");
      Truthy(paths) && (!paths.Arr? || exists i :: 0 <= i < |paths.elems| && ImportEntry(paths.elems[i]).TypeError?)
    ensures r.Ok? ==>
      && r.value.Keys == fields.Keys
      && forall k :: k in fields && k != "searchPaths" ==> r.value[k] == fields[k]
    ensures r.Ok? && Truthy(Get(fields, "searchPaths")) ==>
      var ps := Get(fields, "searchPaths").elems;
      var qs := Get(r.value, "searchPaths");
      && qs.Arr? && |qs.elems| == |ps|
      && forall i :: 0 <= i < |ps| ==> ImportEntry(ps[i]) == Ok(qs.elems[i])
  {
    var paths := Get(fields, "searchPaths");
    if !Truthy(paths) then Ok(fields)
    else if !paths.Arr? then TypeError
    else
      match MapAll(paths.elems, ImportEntry)
      case TypeError => TypeError
      case Ok(qs) => Ok(fields["searchPaths" := Arr(qs)])
  }

  /** `for (uid in json.forgeSearchPaths)`: over an object's keys, an
      array's indices, a string's indices (whose one-character holders have
      no `paths`), or nothing at all for a number or a boolean. */
  function ImportForge(fields: map<string, Value>): (r: Result<map<string, Value>>)
    ensures var forge := Get(fields, "forgeSearchPaths");
      !Truthy(forge) || !(forge.Obj? || forge.Arr? || forge.Str?) ==> r == Ok(fields)
    ensures Get(fields, "forgeSearchPaths").Str? && Truthy(Get(fields, "forgeSearchPaths")) ==> r.TypeError?
    ensures r.Ok? ==>
      && r.value.Keys == fields.Keys
      && forall k :: k in fields && k != "forgeSearchPaths" ==> r.value[k] == fields[k]
    ensures var forge := Get(fields, "forgeSearchPaths");
      forge.Obj? ==> (r.Ok? <==> forall uid :: uid in forge.fields ==> MigrateHolder(forge.fields[uid]).Ok?)
    ensures var forge := Get(fields, "forgeSearchPaths");
      r.Ok? && forge.Obj? ==>
        var hs := Get(r.value, "forgeSearchPaths");
        && hs.Obj? && hs.fields.Keys == forge.fields.Keys
        && forall uid :: uid in forge.fields ==> MigrateHolder(forge.fields[uid]) == Ok(hs.fields[uid])
    ensures var forge := Get(fields, "forgeSearchPaths");
      forge.Arr? ==> (r.Ok? <==> forall i :: 0 <= i < |forge.elems| ==> MigrateHolder(forge.elems[i]).Ok?)
    ensures var forge := Get(fields, "forgeSearchPaths");
      r.Ok? && forge.Arr? ==>
        var hs := Get(r.value, "forgeSearchPaths");
        && hs.Arr? && |hs.elems| == |forge.elems|
        && forall i :: 0 <= i < |forge.elems| ==> MigrateHolder(forge.elems[i]) == Ok(hs.elems[i])
  {
    var forge := Get(fields, "forgeSearchPaths");
    if !Truthy(forge) then Ok(fields)
    else
      match forge
      case Obj(holders) =>
        (match ForgeMigration(holders)
         case TypeError => TypeError
         case Ok(hs) => Ok(fields["forgeSearchPaths" := Obj(hs)]))
      case Arr(holders) =>
        (match MapAll(holders, MigrateHolder)
         case TypeError => TypeError
         case Ok(hs) => Ok(fields["forgeSearchPaths" := Arr(hs)]))
      case Str(_) => TypeError
      case _ => Ok(fields)
  }

  /** The filter conversion on import also resets `compendiumMapper`;
      filters already in the new format leave everything as it is. */
  function ImportFilters(fields: map<string, Value>): (r: map<string, Value>)
    ensures var filters := Get(fields, "searchFilters");
      filters.Obj? && IsLegacyFilters(filters.fields) ==>
        && r.Keys == fields.Keys + {"compendiumMapper"}
        && r["searchFilters"] == Obj(ConvertFilters(filters.fields, OnImport))
        && r["compendiumMapper"] == Obj(map[])
        && forall k :: k in fields && k != "searchFilters" && k != "compendiumMapper" ==> r[k] == fields[k]
    ensures var filters := Get(fields, "searchFilters");
      !(filters.Obj? && IsLegacyFilters(filters.fields)) ==> r == fields
  {
    var filters := Get(fields, "searchFilters");
    if filters.Obj? && IsLegacyFilters(filters.fields) then
      fields["searchFilters" := Obj(ConvertFilters(filters.fields, OnImport))]["compendiumMapper" := Obj(map[])]
    else fields
  }

  /** The settings as `importSettingsFromJSON` passes them on. Reading a
      property of `null` or `undefined` throws; any other non-object has none
      of the migrated properties and goes through unchanged. */
  function ImportSettings(json: Value): (r: Result<Value>)
    ensures IsNullish(json) ==> r.TypeError?
    ensures !json.Obj? && !IsNullish(json) ==> r == Ok(json)
    ensures r.Ok? && json.Obj? ==> r.value.Obj? && json.fields.Keys <= r.value.fields.Keys
  {
    match json
    case Undefined => TypeError
    case Null => TypeError
    case Obj(fields) =>
      (match ImportPaths(fields)
       case TypeError => TypeError
       case Ok(f1) =>
         match ImportForge(f1)
         case TypeError => TypeError
         case Ok(f2) => Ok(Obj(ImportFilters(f2))))
    case _ => Ok(json)
  }

  /** After an import no filter is left in the old format. */
  lemma ImportConvertsFilters(json: Value)
    requires json.Obj? && ImportSettings(json).Ok?
    ensures var f := ImportSettings(json).value.fields;
      Get(f, "searchFilters").Obj? ==> !IsLegacyFilters(Get(f, "searchFilters").fields)
  {
    var f1 := ImportPaths(json.fields).value;
    var f2 := ImportForge(f1).value;
    if Get(f2, "searchFilters").Obj? {
      ConvertedRecords(Get(f2, "searchFilters").fields, OnImport);
    }
  }

  /** After an import every search path is a migrated entry, in the same
      order. */
  lemma ImportMigratesPaths(json: Value)
    requires json.Obj? && ImportSettings(json).Ok? && Truthy(Get(json.fields, "searchPaths"))
    ensures Get(json.fields, "searchPaths").Arr?
    ensures Get(ImportSettings(json).value.fields, "searchPaths") ==
      Arr(MapAll(Get(json.fields, "searchPaths").elems, ImportEntry).value)
  {
    var f1 := ImportPaths(json.fields).value;
    assert Get(f1, "searchPaths") == Arr(MapAll(Get(json.fields, "searchPaths").elems, ImportEntry).value);
    var f2 := ImportForge(f1).value;
    assert Get(f2, "searchPaths") == Get(f1, "searchPaths");
  }

  /** Importing already imported settings changes nothing. */
  lemma ImportIdempotent(json: Value)
    requires ImportSettings(json).Ok?
    ensures ImportSettings(ImportSettings(json).value) == ImportSettings(json)
  {
    if json.Obj? {
      var f1 := ImportPaths(json.fields).value;
      var f2 := ImportForge(f1).value;
      var f3 := ImportFilters(f2);
      ImportPathsAgain(json.fields, f1, f3);
      ImportForgeAgain(f1, f2, f3);
      ImportFiltersAgain(f2, f3);
    }
  }

  lemma ImportPathsAgain(f0: map<string, Value>, f1: map<string, Value>, f3: map<string, Value>)
    requires ImportPaths(f0) == Ok(f1)
    requires Get(f3, "searchPaths") == Get(f1, "searchPaths")
    ensures ImportPaths(f3) == Ok(f3)
  {
    var paths := Get(f0, "searchPaths");
    if Truthy(paths) {
      ImportPathsIdempotent(paths.elems);
      assert f3["searchPaths" := Get(f1, "searchPaths")] == f3;
    }
  }

  lemma ImportForgeAgain(f1: map<string, Value>, f2: map<string, Value>, f3: map<string, Value>)
    requires ImportForge(f1) == Ok(f2)
    requires Get(f3, "forgeSearchPaths") == Get(f2, "forgeSearchPaths")
    ensures ImportForge(f3) == Ok(f3)
  {
    var forge := Get(f1, "forgeSearchPaths");
    if Truthy(forge) {
      match forge
      case Obj(holders) =>
        ForgeMigrationIdempotent(holders);
        assert f3["forgeSearchPaths" := Get(f2, "forgeSearchPaths")] == f3;
      case Arr(holders) =>
        forall h | MigrateHolder(h).Ok?
          ensures MigrateHolder(MigrateHolder(h).value) == MigrateHolder(h)
        {
          HolderIdempotent(h);
        }
        MapAllIdempotent(holders, MigrateHolder);
        assert f3["forgeSearchPaths" := Get(f2, "forgeSearchPaths")] == f3;
      case _ =>
    }
  }

  lemma ImportFiltersAgain(f2: map<string, Value>, f3: map<string, Value>)
    requires f3 == ImportFilters(f2)
    ensures ImportFilters(f3) == f3
  {
    var filters := Get(f2, "searchFilters");
    if filters.Obj? && IsLegacyFilters(filters.fields) {
      ConvertedRecords(filters.fields, OnImport);
    }
  }

  /** An import whose filters are in the old format converts them and
      resets `compendiumMapper` to `{}`; otherwise `compendiumMapper` is
      passed on as it came. */
  lemma ImportResetsCompendiumMapper(json: Value)
    requires json.Obj? && ImportSettings(json).Ok?
    ensures var filters := Get(json.fields, "searchFilters");
      var f := ImportSettings(json).value.fields;
      if filters.Obj? && IsLegacyFilters(filters.fields) then
        Get(f, "compendiumMapper") == Obj(map[]) && Get(f, "searchFilters") == Obj(ConvertFilters(filters.fields, OnImport))
      else
        Get(f, "compendiumMapper") == Get(json.fields, "compendiumMapper")
        && Get(f, "searchFilters") == filters
  {
    var f1 := ImportPaths(json.fields).value;
    var f2 := ImportForge(f1).value;
    assert Get(f2, "searchFilters") == Get(json.fields, "searchFilters");
    assert Get(f2, "compendiumMapper") == Get(json.fields, "compendiumMapper");
  }

  /** An import migrates every forge holder, whether `forgeSearchPaths` is an
      object keyed by user or an array. */
  lemma ImportMigratesForge(json: Value)
    requires json.Obj? && ImportSettings(json).Ok?
    ensures var forge := Get(json.fields, "forgeSearchPaths");
      var hs := Get(ImportSettings(json).value.fields, "forgeSearchPaths");
      && (forge.Obj? ==>
            && hs.Obj? && hs.fields.Keys == forge.fields.Keys
            && forall uid :: uid in forge.fields ==> MigrateHolder(forge.fields[uid]) == Ok(hs.fields[uid]))
      && (forge.Arr? ==>
            && hs.Arr? && |hs.elems| == |forge.elems|
            && forall i :: 0 <= i < |forge.elems| ==> MigrateHolder(forge.elems[i]) == Ok(hs.elems[i]))
  {
    var f1 := ImportPaths(json.fields).value;
    assert Get(f1, "forgeSearchPaths") == Get(json.fields, "forgeSearchPaths");
    var f2 := ImportForge(f1).value;
    assert Get(ImportFilters(f2), "forgeSearchPaths") == Get(f2, "forgeSearchPaths");
  }
}

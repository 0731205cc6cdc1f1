/** `getSearchPaths`: the configured search-path list split into local
    (`data`) paths and, per S3 bucket, the paths inside that bucket. */
module SearchPaths {
  import opened Js
  import opened Text

  /** One bucket of the `s3` Map with the paths pushed for it, in order. */
  datatype BucketPaths = BucketPaths(bucket: string, paths: seq<string>)

  /** The returned Map: key `data` holds the local paths, key `s3` a Map from
      bucket to paths, both in insertion order. Both keys are always present. */
  datatype SearchPathMap = SearchPathMap(data: seq<string>, s3: seq<BucketPaths>)

  /** The outcome of `path.match(/s3:(.*):(.*)/)`. */
  datatype S3Match = NoMatch | Match(bucket: string, path: string)

  /** Index of the last `:` of `s`, or -1 when there is none. */
  function LastColon(s: string): (k: int)
    ensures -1 <= k < |s|
    ensures k >= 0 ==> s[k] == ':'
    ensures forall j :: k < j < |s| ==> s[j] != ':'
  {
    if s == [] then -1
    else if s[|s| - 1] == ':' then |s| - 1
    else LastColon(s[..|s| - 1])
  }

  /** The regular expression applied to a path that starts with `s3:`. The
      first group is greedy, so the bucket runs up to the LAST colon; with no
      colon after the prefix there is no match. */
  function MatchBucket(path: string): (m: S3Match)
    requires StartsWith(path, "s3:")
    ensures m.NoMatch? <==> forall j :: 3 <= j < |path| ==> path[j] != ':'
    ensures m.Match? ==> path == "s3:" + m.bucket + ":" + m.path && ':' !in m.path
  {
    var k := LastColon(path);
    if k < 3 then NoMatch
    else
      assert path == path[..3] + path[3..k] + [path[k]] + path[k + 1..];
      Match(path[3..k], path[k + 1..])
  }

  /** `Array.prototype.flat()` with its default depth of one. */
  function Flat(items: seq<Value>): (flat: seq<Value>)
    ensures |flat| >= |items| - CountArrays(items)
  {
    if items == [] then []
    else (if items[0].Arr? then items[0].elems else [items[0]]) + Flat(items[1..])
  }

  function CountArrays(items: seq<Value>): nat
  {
    if items == [] then 0 else (if items[0].Arr? then 1 else 0) + CountArrays(items[1..])
  }

  /** `game.settings.get(..., "searchPaths")[0].flat()`: only an array has `flat`. */
  function SearchPathList(setting: seq<Value>): Result<seq<Value>>
  {
    if |setting| > 0 && setting[0].Arr? then Ok(Flat(setting[0].elems)) else TypeError
  }

  /** `buckets.get(b).push(p)` when `b` is present, `buckets.set(b, [p])` otherwise. */
  function AppendToBucket(buckets: seq<BucketPaths>, b: string, p: string): seq<BucketPaths>
  {
    if buckets == [] then [BucketPaths(b, [p])]
    else if buckets[0].bucket == b then [buckets[0].(paths := buckets[0].paths + [p])] + buckets[1..]
    else [buckets[0]] + AppendToBucket(buckets[1..], b, p)
  }

  /** The body of the `forEach`: route one entry. A non-string entry has no
      `startsWith`, and an `s3:` entry without a second colon makes `match`
      null; both throw. */
  function Route(m: SearchPathMap, entry: Value): Result<SearchPathMap>
  {
    if !entry.Str? then TypeError
    else if StartsWith(entry.s, "s3:") then
      match MatchBucket(entry.s)
      case NoMatch => TypeError
      case Match(b, p) => if b == "" then Ok(m) else Ok(m.(s3 := AppendToBucket(m.s3, b, p)))
    else Ok(m.(data := m.data + [entry.s]))
  }

  /** The `forEach` over the flattened list, from the empty Map. */
  function Parse(entries: seq<Value>): Result<SearchPathMap>
  {
    if entries == [] then Ok(SearchPathMap([], []))
    else
      match Parse(entries[..|entries| - 1])
      case TypeError => TypeError
      case Ok(m) => Route(m, entries[|entries| - 1])
  }

  /** The whole of `getSearchPaths`: it succeeds exactly when the setting's
      first element is an array whose flattened list is well formed; then
      `data` holds the local paths in order and each bucket its `s3:` paths. */
  function ParseSearchPaths(setting: seq<Value>): (r: Result<SearchPathMap>)
    ensures r.Ok? <==> |setting| > 0 && setting[0].Arr? && WellFormed(Flat(setting[0].elems))
    ensures r.Ok? ==>
      var entries := Flat(setting[0].elems);
      && r.value.data == LocalPaths(entries)
      && BucketNames(r.value.s3) == BucketOrder(entries)
      && forall b :: b != "" ==> Lookup(r.value.s3, b) == BucketEntries(entries, b)
  {
    match SearchPathList(setting)
    case TypeError => TypeError
    case Ok(entries) =>
      ParseSucceedsIffWellFormed(entries);
      if Parse(entries).Ok? then
        ParseLocalPaths(entries);
        ParseBuckets(entries);
        Parse(entries)
      else Parse(entries)
  }

  /** `getSearchPaths` */
  method GetSearchPaths(setting: seq<Value>) returns (r: Result<SearchPathMap>)
    ensures r == ParseSearchPaths(setting)
  {
    if !(|setting| > 0 && setting[0].Arr?) {
      return TypeError;
    }
    var searchPathList := Flat(setting[0].elems);
    var searchPaths := SearchPathMap([], []);
    for i := 0 to |searchPathList|
      invariant Parse(searchPathList[..i]) == Ok(searchPaths)
    {
      assert searchPathList[..i + 1][..i] == searchPathList[..i];
      var entry := searchPathList[i];
      if !entry.Str? {
        ParseFailurePersists(searchPathList, i + 1);
        return TypeError;
      }
      var path := entry.s;
      if StartsWith(path, "s3:") {
        var match_ := MatchBucket(path);
        if match_.NoMatch? {
          ParseFailurePersists(searchPathList, i + 1);
          return TypeError;
        }
        if match_.bucket != "" {
          searchPaths := searchPaths.(s3 := AppendToBucket(searchPaths.s3, match_.bucket, match_.path));
        }
      } else {
        searchPaths := searchPaths.(data := searchPaths.data + [path]);
      }
    }
    assert searchPathList[..|searchPathList|] == searchPathList;
    return Ok(searchPaths);
  }

  // ---------------------------------------------------------------------
  // What the parse computes, stated on the input list alone.

  predicate IsS3Entry(e: Value)
  {
    e.Str? && StartsWith(e.s, "s3:")
  }

  /** Every entry is a string and every `s3:` entry has a colon after its prefix. */
  predicate WellFormed(entries: seq<Value>)
  {
    forall i :: 0 <= i < |entries| ==>
      entries[i].Str? && (IsS3Entry(entries[i]) ==> MatchBucket(entries[i].s).Match?)
  }

  /** The non-`s3:` entries, in input order. */
  function LocalPaths(entries: seq<Value>): seq<string>
  {
    if entries == [] then []
    else
      var e := entries[|entries| - 1];
      LocalPaths(entries[..|entries| - 1]) + (if e.Str? && !IsS3Entry(e) then [e.s] else [])
  }

  /** The paths of the `s3:` entries naming bucket `b`, in input order. */
  function BucketEntries(entries: seq<Value>, b: string): seq<string>
  {
    if entries == [] then []
    else
      var e := entries[|entries| - 1];
      BucketEntries(entries[..|entries| - 1], b)
      + (if IsS3Entry(e) && MatchBucket(e.s).Match? && MatchBucket(e.s).bucket == b
         then [MatchBucket(e.s).path] else [])
  }

  /** The non-empty bucket names, each once, in order of first appearance. */
  function BucketOrder(entries: seq<Value>): seq<string>
  {
    if entries == [] then []
    else
      var e := entries[|entries| - 1];
      var before := BucketOrder(entries[..|entries| - 1]);
      if IsS3Entry(e) && MatchBucket(e.s).Match? && MatchBucket(e.s).bucket != ""
      then Add(before, MatchBucket(e.s).bucket) else before
  }

  function BucketNames(buckets: seq<BucketPaths>): seq<string>
  {
    if buckets == [] then [] else [buckets[0].bucket] + BucketNames(buckets[1..])
  }

  /** `buckets.get(b) ?? []` */
  function Lookup(buckets: seq<BucketPaths>, b: string): seq<string>
  {
    if buckets == [] then []
    else if buckets[0].bucket == b then buckets[0].paths
    else Lookup(buckets[1..], b)
  }

  lemma {:induction false} AppendToBucketEffect(buckets: seq<BucketPaths>, b: string, p: string)
    ensures BucketNames(AppendToBucket(buckets, b, p)) == Add(BucketNames(buckets), b)
    ensures forall b' :: Lookup(AppendToBucket(buckets, b, p), b')
                         == (if b' == b then Lookup(buckets, b) + [p] else Lookup(buckets, b'))
  {
    if buckets != [] && buckets[0].bucket != b {
      AppendToBucketEffect(buckets[1..], b, p);
      assert b in BucketNames(buckets) <==> b in BucketNames(buckets[1..]);
    }
  }

  lemma WellFormedSnoc(entries: seq<Value>)
    requires entries != []
    ensures var e := entries[|entries| - 1];
      WellFormed(entries) <==> WellFormed(entries[..|entries| - 1])
                               && e.Str? && (IsS3Entry(e) ==> MatchBucket(e.s).Match?)
  {
    var init := entries[..|entries| - 1];
    assert forall i :: 0 <= i < |init| ==> init[i] == entries[i];
  }

  /** The parse succeeds exactly on well-formed lists. */
  lemma {:induction false} ParseSucceedsIffWellFormed(entries: seq<Value>)
    ensures Parse(entries).Ok? <==> WellFormed(entries)
  {
    if entries != [] {
      ParseSucceedsIffWellFormed(entries[..|entries| - 1]);
      WellFormedSnoc(entries);
    }
  }

  /** Once an entry throws, the whole `forEach` throws. */
  lemma {:induction false} ParseFailurePersists(entries: seq<Value>, n: nat)
    requires n <= |entries| && Parse(entries[..n]).TypeError?
    ensures Parse(entries).TypeError?
  {
    if n < |entries| {
      var init := entries[..|entries| - 1];
      assert init[..n] == entries[..n];
      ParseFailurePersists(init, n);
    } else {
      assert entries[..n] == entries;
    }
  }

  /** `data` holds the non-`s3:` entries in input order. */
  lemma {:induction false} ParseLocalPaths(entries: seq<Value>)
    requires Parse(entries).Ok?
    ensures Parse(entries).value.data == LocalPaths(entries)
  {
    if entries != [] {
      ParseLocalPaths(entries[..|entries| - 1]);
    }
  }

  /** Each non-empty bucket holds exactly the paths of the `s3:` entries that
      name it, in input order; the buckets appear once each, in order of first
      appearance, and an entry with an empty bucket is dropped. */
  lemma {:induction false} ParseBuckets(entries: seq<Value>)
    requires Parse(entries).Ok?
    ensures var m := Parse(entries).value;
      && BucketNames(m.s3) == BucketOrder(entries)
      && NoDuplicates(BucketNames(m.s3))
      && "" !in BucketNames(m.s3)
      && forall b :: b != "" ==> Lookup(m.s3, b) == BucketEntries(entries, b)
  {
    if entries != [] {
      var init := entries[..|entries| - 1];
      var e := entries[|entries| - 1];
      ParseBuckets(init);
      var m := Parse(init).value;
      if IsS3Entry(e) && MatchBucket(e.s).Match? && MatchBucket(e.s).bucket != "" {
        AppendToBucketEffect(m.s3, MatchBucket(e.s).bucket, MatchBucket(e.s).path);
      }
    }
  }

  /** Both files parse `s3:` paths, differently: here the bucket of
      `s3:a:b:c` is `a:b` and its path `c`. */
  lemma BucketUpToLastColon()
    ensures MatchBucket("s3:a:b:c") == Match("a:b", "c")
  {
    assert "s3:a:b:c"[..7] == "s3:a:b:";
    assert "s3:a:b:c"[..6] == "s3:a:b";
    assert "s3:a:b:c"[..5] == "s3:a:";
  }
}

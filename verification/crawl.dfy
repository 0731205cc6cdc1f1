/** The art search of `findTokens` and `walkFindTokens`, as functions of the
    directory tree the host's file browser exposes. These functions are the
    specification that the imperative methods of `TokenVariants` are proved
    against. */
module Crawl {
  import opened Js
  import opened Text
  import opened Names
  import opened SearchPaths

  /** What `FilePicker.browse` returns for one directory: its `target` (`"."`
      when the directory could not be browsed), its files and its
      sub-directories. */
  datatype Listing = Listing(target: string, files: seq<string>, dirs: seq<SubDir>)

  /** A sub-directory path as the listing names it, with the listing that
      browsing that path returns. */
  datatype SubDir = SubDir(path: string, listing: Listing)

  /** Where a search path is browsed: the local `data` source, or an S3 bucket. */
  datatype Location = DataDir(path: string) | S3Dir(bucket: string, path: string)

  /** The host's file browser, as the listing it returns for each root. */
  type Browser = Location -> Listing

  /** The match test of both lookups: an empty key matches every file, any
      other key must occur in the simplified file name. */
  predicate FileMatches(file: string, key: string)
  {
    key == "" || Includes(SimplifyTokenName(GetFileName(file)), key)
  }

  /** The files of `files` that match `key`, in their order. */
  function Filter(files: seq<string>, key: string): (r: seq<string>)
    ensures |r| <= |files|
    decreases |files|
  {
    if files == [] then []
    else
      var f := files[|files| - 1];
      Filter(files[..|files| - 1], key) + (if FileMatches(f, key) then [f] else [])
  }

  /** The paths `walkFindTokens(path, key, bucket)` adds, in the order it adds
      them (repeats included): nothing for an empty path outside a bucket or
      a listing whose target is `"."`; otherwise the matching files of the
      directory, then the walk of each sub-directory in turn. */
  function Walk(path: string, bucket: string, l: Listing, key: string): (r: seq<string>)
    ensures (bucket == "" && path == "") || l.target == "." ==> r == []
    decreases l, 1
  {
    if bucket == "" && path == "" then []
    else if l.target == "." then []
    else Filter(l.files, key) + WalkDirs(bucket, l, |l.dirs|, key)
  }

  /** The walks of the first `n` sub-directories of `l`, in order. */
  function WalkDirs(bucket: string, l: Listing, n: nat, key: string): (r: seq<string>)
    requires n <= |l.dirs|
    decreases l, 0, n
  {
    if n == 0 then []
    else WalkDirs(bucket, l, n - 1, key) + Walk(l.dirs[n - 1].path, bucket, l.dirs[n - 1].listing, key)
  }

  /** The walks of the local search paths, in order. */
  function DataCrawl(paths: seq<string>, browse: Browser, key: string): seq<string>
  {
    if paths == [] then []
    else
      var p := paths[|paths| - 1];
      DataCrawl(paths[..|paths| - 1], browse, key) + Walk(p, "", browse(DataDir(p)), key)
  }

  /** The walks of the paths of one bucket, in order. */
  function BucketCrawl(bucket: string, paths: seq<string>, browse: Browser, key: string): seq<string>
  {
    if paths == [] then []
    else
      var p := paths[|paths| - 1];
      BucketCrawl(bucket, paths[..|paths| - 1], browse, key) + Walk(p, bucket, browse(S3Dir(bucket, p)), key)
  }

  /** The walks of every bucket, bucket by bucket. */
  function S3Crawl(buckets: seq<BucketPaths>, browse: Browser, key: string): seq<string>
  {
    if buckets == [] then []
    else
      var b := buckets[|buckets| - 1];
      S3Crawl(buckets[..|buckets| - 1], browse, key) + BucketCrawl(b.bucket, b.paths, browse, key)
  }

  /** The live crawl: local paths first, then the buckets. */
  function CrawlAll(sp: SearchPathMap, browse: Browser, key: string): seq<string>
  {
    DataCrawl(sp.data, browse, key) + S3Crawl(sp.s3, browse, key)
  }

  /** What `findTokens(name)` returns: with a non-empty cache, the cached paths
      whose file name matches; otherwise the distinct paths of the live crawl,
      which throws when the search paths cannot be parsed. */
  function Find(cache: seq<string>, setting: seq<Value>, browse: Browser, name: string): (r: Result<seq<string>>)
    ensures r.Ok? ==> NoDuplicates(r.value)
    ensures r.TypeError? <==> cache == [] && ParseSearchPaths(setting).TypeError?
  {
    var key := SimplifyTokenName(name);
    if cache != [] then
      AddAllKeepsDistinct([], Filter(cache, key));
      Ok(AddAll([], Filter(cache, key)))
    else
      match ParseSearchPaths(setting)
      case TypeError => TypeError
      case Ok(sp) =>
        AddAllKeepsDistinct([], CrawlAll(sp, browse, key));
        Ok(AddAll([], CrawlAll(sp, browse, key)))
  }

  /** With a non-empty cache the lookup never throws and returns exactly the
      cached paths whose file name matches the name's key. */
  lemma FindInCache(cache: seq<string>, setting: seq<Value>, browse: Browser, name: string)
    requires cache != []
    ensures Find(cache, setting, browse, name).Ok?
    ensures forall f :: f in Find(cache, setting, browse, name).value <==>
      f in cache && FileMatches(f, SimplifyTokenName(name))
  {
    var key := SimplifyTokenName(name);
    FilterMembers(cache, key);
    AddAllMembers([], Filter(cache, key));
  }

  // ---------------------------------------------------------------------

  /** `Filter` keeps exactly the matching files, and keeps them distinct. */
  lemma {:induction false} FilterMembers(files: seq<string>, key: string)
    ensures forall f :: f in Filter(files, key) <==> f in files && FileMatches(f, key)
    ensures NoDuplicates(files) ==> NoDuplicates(Filter(files, key))
    decreases |files|
  {
    if files != [] {
      FilterMembers(files[..|files| - 1], key);
      assert files == files[..|files| - 1] + [files[|files| - 1]];
    }
  }

  lemma {:induction false} FilterEverything(files: seq<string>)
    ensures Filter(files, "") == files
    decreases |files|
  {
    if files != [] {
      FilterEverything(files[..|files| - 1]);
    }
  }

  lemma {:induction false} FilterConcat(a: seq<string>, b: seq<string>, key: string)
    ensures Filter(a + b, key) == Filter(a, key) + Filter(b, key)
    decreases |b|
  {
    if b == [] {
      assert a + b == a;
    } else {
      assert (a + b)[..|a + b| - 1] == a + b[..|b| - 1];
      FilterConcat(a, b[..|b| - 1], key);
    }
  }

  lemma FilterPieces(a: seq<string>, b: seq<string>, fa: seq<string>, fb: seq<string>, key: string)
    requires fa == Filter(a, key) && fb == Filter(b, key)
    ensures Filter(a + b, key) == fa + fb
  {
    FilterConcat(a, b, key);
  }

  lemma FilterSnoc(files: seq<string>, f: string, key: string)
    ensures Filter(files + [f], key) == Filter(files, key) + (if FileMatches(f, key) then [f] else [])
  {
    assert (files + [f])[..|files|] == files;
  }

  /** Looking at one more file adds it to the collected matches when it matches. */
  lemma AddFilterStep(s: seq<string>, files: seq<string>, i: nat, key: string)
    requires i < |files|
    ensures AddAll(s, Filter(files[..i + 1], key))
         == if FileMatches(files[i], key) then Add(AddAll(s, Filter(files[..i], key)), files[i])
            else AddAll(s, Filter(files[..i], key))
  {
    var init, f := files[..i], files[i];
    assert files[..i + 1] == init + [f];
    FilterSnoc(init, f, key);
    if FileMatches(f, key) {
      AddAllSnoc(s, Filter(init, key), f);
    } else {
      assert Filter(init + [f], key) == Filter(init, key);
    }
  }

  /** Collecting one more sub-directory's walk extends the collected walks. */
  lemma AddWalkDir(s: seq<string>, bucket: string, l: Listing, i: nat, key: string)
    requires i < |l.dirs|
    ensures AddAll(AddAll(s, WalkDirs(bucket, l, i, key)), Walk(l.dirs[i].path, bucket, l.dirs[i].listing, key))
         == AddAll(s, WalkDirs(bucket, l, i + 1, key))
  {
    AddAllConcat(s, WalkDirs(bucket, l, i, key), Walk(l.dirs[i].path, bucket, l.dirs[i].listing, key));
  }

  /** A walk past its guards collects the directory's files, then its
      sub-directories' walks. */
  lemma AddWalk(s: seq<string>, path: string, bucket: string, l: Listing, key: string)
    requires !(bucket == "" && path == "") && l.target != "."
    ensures AddAll(AddAll(s, Filter(l.files, key)), WalkDirs(bucket, l, |l.dirs|, key))
         == AddAll(s, Walk(path, bucket, l, key))
  {
    AddAllConcat(s, Filter(l.files, key), WalkDirs(bucket, l, |l.dirs|, key));
  }

  /** Walking one more local path extends the collected walks. */
  lemma AddDataWalk(s: seq<string>, paths: seq<string>, i: nat, browse: Browser, key: string)
    requires i < |paths|
    ensures AddAll(AddAll(s, DataCrawl(paths[..i], browse, key)), Walk(paths[i], "", browse(DataDir(paths[i])), key))
         == AddAll(s, DataCrawl(paths[..i + 1], browse, key))
  {
    assert paths[..i + 1][..i] == paths[..i];
    AddAllConcat(s, DataCrawl(paths[..i], browse, key), Walk(paths[i], "", browse(DataDir(paths[i])), key));
  }

  /** Walking one more path of a bucket extends the collected walks. */
  lemma AddBucketWalk(s: seq<string>, bucket: string, paths: seq<string>, k: nat, browse: Browser, key: string)
    requires k < |paths|
    ensures AddAll(AddAll(s, BucketCrawl(bucket, paths[..k], browse, key)), Walk(paths[k], bucket, browse(S3Dir(bucket, paths[k])), key))
         == AddAll(s, BucketCrawl(bucket, paths[..k + 1], browse, key))
  {
    assert paths[..k + 1][..k] == paths[..k];
    AddAllConcat(s, BucketCrawl(bucket, paths[..k], browse, key), Walk(paths[k], bucket, browse(S3Dir(bucket, paths[k])), key));
  }

  /** Crawling one more bucket extends the collected crawls. */
  lemma AddBucketCrawl(s: seq<string>, buckets: seq<BucketPaths>, j: nat, browse: Browser, key: string)
    requires j < |buckets|
    ensures AddAll(AddAll(s, S3Crawl(buckets[..j], browse, key)), BucketCrawl(buckets[j].bucket, buckets[j].paths, browse, key))
         == AddAll(s, S3Crawl(buckets[..j + 1], browse, key))
  {
    assert buckets[..j + 1][..j] == buckets[..j];
    AddAllConcat(s, S3Crawl(buckets[..j], browse, key), BucketCrawl(buckets[j].bucket, buckets[j].paths, browse, key));
  }

  /** A filtered walk is the full walk with the non-matching files taken out. */
  lemma {:induction false} WalkIsFilteredWalk(path: string, bucket: string, l: Listing, key: string)
    ensures Walk(path, bucket, l, key) == Filter(Walk(path, bucket, l, ""), key)
    decreases l, 1
  {
    if !(bucket == "" && path == "") && l.target != "." {
      FilterEverything(l.files);
      WalkDirsIsFilteredWalk(bucket, l, |l.dirs|, key);
      FilterConcat(l.files, WalkDirs(bucket, l, |l.dirs|, ""), key);
    }
  }

  /** Every file a walk adds matches the key, and past the guards every
      matching file of the directory itself is added. */
  lemma WalkMembers(path: string, bucket: string, l: Listing, key: string)
    ensures forall f :: f in Walk(path, bucket, l, key) ==> FileMatches(f, key)
    ensures !(bucket == "" && path == "") && l.target != "." ==>
      forall f :: f in l.files && FileMatches(f, key) ==> f in Walk(path, bucket, l, key)
  {
    WalkIsFilteredWalk(path, bucket, l, key);
    FilterMembers(Walk(path, bucket, l, ""), key);
    FilterMembers(l.files, key);
  }

  lemma {:induction false} WalkDirsIsFilteredWalk(bucket: string, l: Listing, n: nat, key: string)
    requires n <= |l.dirs|
    ensures WalkDirs(bucket, l, n, key) == Filter(WalkDirs(bucket, l, n, ""), key)
    decreases l, 0, n
  {
    if n > 0 {
      var d := l.dirs[n - 1];
      assert d in l.dirs;
      var prev, w := WalkDirs(bucket, l, n - 1, ""), Walk(d.path, bucket, d.listing, "");
      WalkDirsIsFilteredWalk(bucket, l, n - 1, key);
      WalkIsFilteredWalk(d.path, bucket, d.listing, key);
      FilterPieces(prev, w, WalkDirs(bucket, l, n - 1, key), Walk(d.path, bucket, d.listing, key), key);
    }
  }

  lemma {:induction false} DataCrawlIsFiltered(paths: seq<string>, browse: Browser, key: string)
    ensures DataCrawl(paths, browse, key) == Filter(DataCrawl(paths, browse, ""), key)
  {
    if paths != [] {
      var p := paths[|paths| - 1];
      DataCrawlIsFiltered(paths[..|paths| - 1], browse, key);
      WalkIsFilteredWalk(p, "", browse(DataDir(p)), key);
      FilterConcat(DataCrawl(paths[..|paths| - 1], browse, ""), Walk(p, "", browse(DataDir(p)), ""), key);
    }
  }

  lemma {:induction false} BucketCrawlIsFiltered(bucket: string, paths: seq<string>, browse: Browser, key: string)
    ensures BucketCrawl(bucket, paths, browse, key) == Filter(BucketCrawl(bucket, paths, browse, ""), key)
  {
    if paths != [] {
      var p := paths[|paths| - 1];
      BucketCrawlIsFiltered(bucket, paths[..|paths| - 1], browse, key);
      WalkIsFilteredWalk(p, bucket, browse(S3Dir(bucket, p)), key);
      FilterConcat(BucketCrawl(bucket, paths[..|paths| - 1], browse, ""), Walk(p, bucket, browse(S3Dir(bucket, p)), ""), key);
    }
  }

  lemma {:induction false} S3CrawlIsFiltered(buckets: seq<BucketPaths>, browse: Browser, key: string)
    ensures S3Crawl(buckets, browse, key) == Filter(S3Crawl(buckets, browse, ""), key)
  {
    if buckets != [] {
      var b := buckets[|buckets| - 1];
      S3CrawlIsFiltered(buckets[..|buckets| - 1], browse, key);
      BucketCrawlIsFiltered(b.bucket, b.paths, browse, key);
      FilterConcat(S3Crawl(buckets[..|buckets| - 1], browse, ""), BucketCrawl(b.bucket, b.paths, browse, ""), key);
    }
  }

  /** A crawl for a key finds exactly the files of the full crawl that match it. */
  lemma CrawlIsFilteredCrawl(sp: SearchPathMap, browse: Browser, key: string)
    ensures CrawlAll(sp, browse, key) == Filter(CrawlAll(sp, browse, ""), key)
  {
    DataCrawlIsFiltered(sp.data, browse, key);
    S3CrawlIsFiltered(sp.s3, browse, key);
    FilterConcat(DataCrawl(sp.data, browse, ""), S3Crawl(sp.s3, browse, ""), key);
  }

  /** Filtering commutes with collecting into a `Set`. */
  lemma {:induction false} FilterAddAll(s: seq<string>, xs: seq<string>, key: string)
    ensures Filter(AddAll(s, xs), key) == AddAll(Filter(s, key), Filter(xs, key))
    decreases |xs|
  {
    if xs != [] {
      var init, x := xs[..|xs| - 1], xs[|xs| - 1];
      var before := AddAll(s, init);
      var tail := if FileMatches(x, key) then [x] else [];
      var sofar := AddAll(Filter(s, key), Filter(init, key));
      FilterAddAll(s, init, key);
      assert Filter(xs, key) == Filter(init, key) + tail;
      AddAllConcat(Filter(s, key), Filter(init, key), tail);
      assert AddAll(Filter(s, key), Filter(xs, key)) == AddAll(sofar, tail);
      FilterMembers(before, key);
      if x in before {
        assert AddAll(s, xs) == before;
        if tail == [x] {
          assert x in sofar;
          assert AddAll(sofar, tail) == Add(AddAll(sofar, []), x);
        }
      } else {
        assert AddAll(s, xs) == before + [x];
        FilterConcat(before, [x], key);
        assert [x][..0] == [];
        assert Filter([x], key) == tail;
        if tail == [x] {
          assert x !in sofar;
          assert AddAll(sofar, tail) == Add(AddAll(sofar, []), x);
        }
      }
    }
  }

  /** Filtering the cache built by a full crawl gives what a live crawl for
      the same name gives: the two tiers of `findTokens` agree. */
  lemma CachedFindMatchesLiveFind(cache: seq<string>, setting: seq<Value>, browse: Browser, name: string)
    requires ParseSearchPaths(setting).Ok?
    requires cache == AddAll([], CrawlAll(ParseSearchPaths(setting).value, browse, ""))
    ensures Find(cache, setting, browse, name) == Find([], setting, browse, name)
  {
    if cache != [] {
      var sp := ParseSearchPaths(setting).value;
      var key := SimplifyTokenName(name);
      var full := CrawlAll(sp, browse, "");
      var hits := Filter(cache, key);
      AddAllKeepsDistinct([], full);
      CrawlIsFilteredCrawl(sp, browse, key);
      FilterAddAll([], full, key);
      assert Filter([], key) == [];
      assert hits == AddAll([], CrawlAll(sp, browse, key));
      FilterMembers(cache, key);
      AddAllFresh([], hits);
      assert [] + hits == hits;
      assert Find(cache, setting, browse, name) == Ok(hits);
    }
  }
}

/** The module-level state of the art search (`cachedTokens`, `foundTokens`
    and the configuration flags) and the operations that update it:
    `walkFindTokens`, `findTokens`, `cacheTokens`, the `onChange` handlers
    and the search loop of `displayArtSelect`. Each is proved against the
    functions of `Crawl` and `ArtSelect`. */
module ArtSearch {
  import opened Js
  import opened Text
  import opened Names
  import opened SearchPaths
  import opened Crawl
  import opened ArtSelect

  /** What the host supplies: the `searchPaths` and `excludedKeywords`
      settings, the file browser and the monster list file. */
  datatype Host = Host(searchPaths: seq<Value>, browse: Browser, excludedKeywords: string, monsterSrd: seq<string>)

  /** `monsterNameList.map(name => simplifyTokenName(name))` */
  function SimplifyAll(names: seq<string>): (keys: seq<string>)
    ensures |keys| == |names|
    ensures forall i :: 0 <= i < |keys| ==> IsKey(keys[i]) && keys[i] == SimplifyTokenName(names[i])
  {
    seq(|names|, i requires 0 <= i < |names| => SimplifyTokenName(names[i]))
  }

  /** The cache `cacheTokens` builds when caching is on: the distinct paths
      of a full crawl, or nothing when the search paths cannot be parsed. */
  function RebuiltCache(host: Host): (cache: seq<string>)
    ensures NoDuplicates(cache)
  {
    match Find([], host.searchPaths, host.browse, "")
    case TypeError => []
    case Ok(found) => found
  }

  /** The rebuilt cache is the full crawl, and looking a name up in it gives
      what a live crawl gives. */
  lemma RebuiltCacheIsFullCrawl(host: Host, name: string)
    ensures ParseSearchPaths(host.searchPaths).Ok? ==>
      RebuiltCache(host) == AddAll([], CrawlAll(ParseSearchPaths(host.searchPaths).value, host.browse, ""))
    ensures Find(RebuiltCache(host), host.searchPaths, host.browse, name) == Find([], host.searchPaths, host.browse, name)
  {
    assert SimplifyTokenName("") == "";
    if ParseSearchPaths(host.searchPaths).Ok? {
      CachedFindMatchesLiveFind(RebuiltCache(host), host.searchPaths, host.browse, name);
    }
  }

  class TokenVariants {
    var monsterNameList: seq<string>
    var filterMSRD: bool
    var keywordSearch: bool
    var excludedKeywords: seq<string>
    var disableCaching: bool
    /** `cachedTokens` and `foundTokens`: `Set`s, kept in insertion order. */
    var cachedTokens: seq<string>
    var foundTokens: seq<string>

    ghost predicate Valid()
      reads this
    {
      NoDuplicates(cachedTokens) && NoDuplicates(foundTokens)
    }

    /** The initial values of the module-level variables. */
    constructor ()
      ensures Valid()
      ensures monsterNameList == [] && filterMSRD && !keywordSearch && excludedKeywords == []
      ensures !disableCaching && cachedTokens == [] && foundTokens == []
    {
      monsterNameList := [];
      filterMSRD := true;
      keywordSearch := false;
      excludedKeywords := [];
      disableCaching := false;
      cachedTokens := [];
      foundTokens := [];
    }

    /** The file loop of `walkFindTokens`: adds each file of the directory
        whose simplified name holds `key` (every file when `key` is empty). */
    method AddMatchingFiles(files: seq<string>, key: string)
      requires Valid()
      modifies `foundTokens
      ensures Valid()
      ensures foundTokens == AddAll(old(foundTokens), Filter(files, key))
    {
      for i := 0 to |files|
        invariant Valid()
        invariant foundTokens == AddAll(old(foundTokens), Filter(files[..i], key))
      {
        AddFilterStep(old(foundTokens), files, i, key);
        var token := files[i];
        var tokenName := GetFileName(token);
        var cleanTokenName := SimplifyTokenName(tokenName);
        if key != "" && !Includes(cleanTokenName, key) {
          continue;
        }
        AddKeepsDistinct(foundTokens, token);
        foundTokens := Add(foundTokens, token);
      }
      assert files[..|files|] == files;
    }

    /** `walkFindTokens(path, key, bucket)`, where `l` is what browsing the
        path returns: adds the walk's files to `foundTokens`. */
    method WalkFindTokens(path: string, key: string, bucket: string, l: Listing)
      requires Valid()
      modifies `foundTokens
      ensures Valid()
      ensures foundTokens == AddAll(old(foundTokens), Walk(path, bucket, l, key))
      decreases l
    {
      if bucket == "" && path == "" {
        return;
      }
      if l.target == "." {
        return;
      }
      AddMatchingFiles(l.files, key);
      ghost var afterFiles := foundTokens;
      for i := 0 to |l.dirs|
        invariant Valid()
        invariant foundTokens == AddAll(afterFiles, WalkDirs(bucket, l, i, key))
      {
        var dir := l.dirs[i];
        assert dir in l.dirs;
        WalkFindTokens(dir.path, key, bucket, dir.listing);
        AddWalkDir(afterFiles, bucket, l, i, key);
      }
      AddWalk(old(foundTokens), path, bucket, l, key);
    }

    /** The cache loop of `findTokens`: adds each cached path whose
        simplified file name holds `simpleName`. */
    method FilterCachedTokens(simpleName: string)
      requires Valid()
      modifies `foundTokens
      ensures Valid()
      ensures foundTokens == AddAll(old(foundTokens), Filter(cachedTokens, simpleName))
    {
      for i := 0 to |cachedTokens|
        invariant Valid()
        invariant foundTokens == AddAll(old(foundTokens), Filter(cachedTokens[..i], simpleName))
      {
        AddFilterStep(old(foundTokens), cachedTokens, i, simpleName);
        var tokenSrc := cachedTokens[i];
        var simpleTokenName := SimplifyTokenName(GetFileName(tokenSrc));
        if simpleName == "" {
          IncludesEmpty(simpleTokenName);
        }
        if Includes(simpleTokenName, simpleName) {
          AddKeepsDistinct(foundTokens, tokenSrc);
          foundTokens := Add(foundTokens, tokenSrc);
        }
      }
      assert cachedTokens[..|cachedTokens|] == cachedTokens;
    }

    /** The loop of `findTokens` over the local search paths. */
    method WalkDataPaths(data: seq<string>, simpleName: string, browse: Browser)
      requires Valid()
      modifies `foundTokens
      ensures Valid()
      ensures foundTokens == AddAll(old(foundTokens), DataCrawl(data, browse, simpleName))
    {
      for i := 0 to |data|
        invariant Valid()
        invariant foundTokens == AddAll(old(foundTokens), DataCrawl(data[..i], browse, simpleName))
      {
        WalkFindTokens(data[i], simpleName, "", browse(DataDir(data[i])));
        AddDataWalk(old(foundTokens), data, i, browse, simpleName);
      }
      assert data[..|data|] == data;
    }

    /** The inner loop of `findTokens` over the paths of one bucket. */
    method WalkBucketPaths(bucket: string, paths: seq<string>, simpleName: string, browse: Browser)
      requires Valid()
      modifies `foundTokens
      ensures Valid()
      ensures foundTokens == AddAll(old(foundTokens), BucketCrawl(bucket, paths, browse, simpleName))
    {
      for k := 0 to |paths|
        invariant Valid()
        invariant foundTokens == AddAll(old(foundTokens), BucketCrawl(bucket, paths[..k], browse, simpleName))
      {
        WalkFindTokens(paths[k], simpleName, bucket, browse(S3Dir(bucket, paths[k])));
        AddBucketWalk(old(foundTokens), bucket, paths, k, browse, simpleName);
      }
      assert paths[..|paths|] == paths;
    }

    /** `findTokens(name)`: resets `foundTokens`, fills it from the cache or
        from a live crawl, and returns it. */
    method FindTokens(name: string, host: Host) returns (r: Result<seq<string>>)
      requires Valid()
      modifies `foundTokens
      ensures Valid()
      ensures r == Find(cachedTokens, host.searchPaths, host.browse, name)
      ensures foundTokens == if r.Ok? then r.value else []
    {
      foundTokens := [];
      var simpleName := SimplifyTokenName(name);
      if |cachedTokens| != 0 {
        FilterCachedTokens(simpleName);
        return Ok(foundTokens);
      }
      var parsed := GetSearchPaths(host.searchPaths);
      if parsed.TypeError? {
        return TypeError;
      }
      var searchPaths := parsed.value;
      WalkDataPaths(searchPaths.data, simpleName, host.browse);
      ghost var afterData := foundTokens;
      var s3 := searchPaths.s3;
      for j := 0 to |s3|
        invariant Valid()
        invariant foundTokens == AddAll(afterData, S3Crawl(s3[..j], host.browse, simpleName))
      {
        WalkBucketPaths(s3[j].bucket, s3[j].paths, simpleName, host.browse);
        AddBucketCrawl(afterData, s3, j, host.browse, simpleName);
      }
      assert s3[..|s3|] == s3;
      AddAllConcat([], DataCrawl(searchPaths.data, host.browse, simpleName), S3Crawl(s3, host.browse, simpleName));
      return Ok(foundTokens);
    }

    /** `cacheTokens()`: clears the cache, reloads the monster list when
        filtering is on, and (unless caching is disabled) fills the cache from
        a full crawl, leaving `foundTokens` empty. A parse failure throws and
        leaves the cache empty. */
    method CacheTokens(host: Host) returns (r: Result<()>)
      requires Valid()
      modifies this
      ensures Valid()
      ensures r.TypeError? <==> !disableCaching && ParseSearchPaths(host.searchPaths).TypeError?
      ensures cachedTokens == if disableCaching then [] else RebuiltCache(host)
      ensures foundTokens == if disableCaching then old(foundTokens) else []
      ensures monsterNameList == if filterMSRD then SimplifyAll(host.monsterSrd) else old(monsterNameList)
      ensures filterMSRD == old(filterMSRD) && keywordSearch == old(keywordSearch)
      ensures excludedKeywords == old(excludedKeywords) && disableCaching == old(disableCaching)
      ensures forall name :: Find(cachedTokens, host.searchPaths, host.browse, name)
                             == Find([], host.searchPaths, host.browse, name)
    {
      cachedTokens := [];
      if filterMSRD {
        monsterNameList := SimplifyAll(host.monsterSrd);
      }
      if disableCaching {
        return Ok(());
      }
      var found := FindTokens("", host);
      if found.TypeError? {
        return TypeError;
      }
      cachedTokens := foundTokens;
      foundTokens := [];
      forall name: string
        ensures Find(cachedTokens, host.searchPaths, host.browse, name) == Find([], host.searchPaths, host.browse, name)
      {
        RebuiltCacheIsFullCrawl(host, name);
      }
      return Ok(());
    }

    /** The `onChange` of `searchPaths`: `disableCaching || cacheTokens()`. */
    method OnSearchPathsChange(host: Host) returns (r: Result<()>)
      requires Valid()
      modifies this
      ensures Valid()
      ensures disableCaching ==> r == Ok(()) && unchanged(this)
      ensures !disableCaching ==> cachedTokens == RebuiltCache(host) && foundTokens == []
      ensures !disableCaching ==> monsterNameList == if filterMSRD then SimplifyAll(host.monsterSrd) else old(monsterNameList)
      ensures filterMSRD == old(filterMSRD) && keywordSearch == old(keywordSearch)
      ensures excludedKeywords == old(excludedKeywords) && disableCaching == old(disableCaching)
    {
      if disableCaching {
        return Ok(());
      }
      r := CacheTokens(host);
    }

    /** The `onChange` of `disableCaching`: store the flag, then rebuild. */
    method OnDisableCachingChange(disable: bool, host: Host) returns (r: Result<()>)
      requires Valid()
      modifies this
      ensures Valid()
      ensures disableCaching == disable
      ensures cachedTokens == if disable then [] else RebuiltCache(host)
      ensures foundTokens == if disable then old(foundTokens) else []
      ensures monsterNameList == if filterMSRD then SimplifyAll(host.monsterSrd) else old(monsterNameList)
      ensures filterMSRD == old(filterMSRD) && keywordSearch == old(keywordSearch)
      ensures excludedKeywords == old(excludedKeywords)
    {
      disableCaching := disable;
      r := CacheTokens(host);
    }

    /** The `onChange` of `filterMSRD`: store the flag, then rebuild. */
    method OnFilterMSRDChange(filter: bool, host: Host) returns (r: Result<()>)
      requires Valid()
      modifies this
      ensures Valid()
      ensures filterMSRD == filter
      ensures cachedTokens == if disableCaching then [] else RebuiltCache(host)
      ensures foundTokens == if disableCaching then old(foundTokens) else []
      ensures monsterNameList == if filter then SimplifyAll(host.monsterSrd) else old(monsterNameList)
      ensures keywordSearch == old(keywordSearch) && disableCaching == old(disableCaching)
      ensures excludedKeywords == old(excludedKeywords)
    {
      filterMSRD := filter;
      r := CacheTokens(host);
    }

    /** The `onChange` of `keywordSearch`. */
    method OnKeywordSearchChange(kSearch: bool)
      modifies `keywordSearch
      ensures keywordSearch == kSearch
    {
      keywordSearch := kSearch;
    }

    /** The `onChange` of `excludedKeywords`. */
    method OnExcludedKeywordsChange(keywords: string)
      modifies `excludedKeywords
      ensures excludedKeywords == ParseKeywords(keywords)
      ensures forall i :: 0 <= i < |excludedKeywords| ==> excludedKeywords[i] != "" && IsKey(excludedKeywords[i])
    {
      excludedKeywords := ParseKeywords(keywords);
    }

    /** The buttons of one term: a button for each result not used before. */
    method EmitButtons(tokens: seq<string>, usedTokens: seq<string>, buttonId: nat, callback: CallbackKind)
      returns (buttons: seq<Button>, used: seq<string>, lastId: nat)
      ensures buttons == ButtonsFor(tokens, usedTokens, buttonId, callback)
      ensures used == AddAll(usedTokens, tokens)
      ensures lastId == buttonId + |buttons|
    {
      buttons, used, lastId := [], usedTokens, buttonId;
      for j := 0 to |tokens|
        invariant buttons == ButtonsFor(tokens[..j], usedTokens, buttonId, callback)
        invariant used == AddAll(usedTokens, tokens[..j])
        invariant lastId == buttonId + |buttons|
      {
        ButtonsSnoc(tokens, usedTokens, buttonId, callback, j, buttons, used, lastId);
        buttons, used, lastId := EmitButton(tokens[j], callback, buttons, used, lastId);
      }
      assert tokens[..|tokens|] == tokens;
    }

    /** The `forEach` callback over one result: a result not used yet is
        marked used and gets the next button. */
    method EmitButton(tokenSrc: string, callback: CallbackKind, buttons: seq<Button>, used: seq<string>, lastId: nat)
      returns (buttons': seq<Button>, used': seq<string>, lastId': nat)
      ensures tokenSrc in used ==> buttons' == buttons && used' == used && lastId' == lastId
      ensures tokenSrc !in used ==>
        && buttons' == buttons + [Button(lastId + 1, tokenSrc, GetFileName(tokenSrc), callback)]
        && used' == used + [tokenSrc] && lastId' == lastId + 1
    {
      buttons', used', lastId' := buttons, used, lastId;
      if tokenSrc !in used {
        used' := Add(used, tokenSrc);
        lastId' := lastId + 1;
        buttons' := buttons + [Button(lastId', tokenSrc, GetFileName(tokenSrc), callback)];
      }
    }

    /** One turn of the search loop of `displayArtSelect`: a term already
        processed is skipped; otherwise its results are looked up (leaving
        them in `foundTokens`) and its buttons emitted. */
    method SearchTerm(search: string, callback: CallbackKind, host: Host, st: MergeState)
      returns (r: Result<MergeState>)
      requires Valid()
      modifies `foundTokens
      ensures Valid()
      ensures r == MergeStep(st, search, Searcher(cachedTokens, host.searchPaths, host.browse), callback, {})
      ensures search in Terms(st.allButtons) ==> foundTokens == old(foundTokens)
      ensures search !in Terms(st.allButtons) && r.Ok? ==>
        FindFor(Searcher(cachedTokens, host.searchPaths, host.browse), search) == Ok(foundTokens)
      ensures r.TypeError? ==> foundTokens == []
    {
      if search in Terms(st.allButtons) {
        return Ok(st);
      }
      var tokens := FindTokens(search, host);
      if tokens.TypeError? {
        return TypeError;
      }
      var next := AppendButtons(st, search, tokens.value, callback);
      SearchedStep(st, search, Searcher(cachedTokens, host.searchPaths, host.browse), callback, tokens.value);
      r := Ok(next);
    }

    /** The rest of the turn once a term's results are known: `allButtons[search]`
        gets the term's buttons, and `artFound` is set once one exists. */
    method AppendButtons(st: MergeState, search: string, tokens: seq<string>, callback: CallbackKind)
      returns (next: MergeState)
      ensures next == AppendTerm(st, search, tokens, callback)
    {
      var buttons, used, lastId := EmitButtons(tokens, st.used, st.lastId, callback);
      next := MergeState(st.allButtons + [TermButtons(search, buttons)], used, lastId, st.artFound || |buttons| > 0);
    }

    /** The loop of `displayArtSelect` over its search terms, with the
        corrected skip test: merges the buttons of every term, leaving the
        results of the last term looked up in `foundTokens`. */
    method SearchAll(searches: seq<string>, callback: CallbackKind, host: Host) returns (r: Result<MergeState>)
      requires Valid()
      modifies `foundTokens
      ensures Valid()
      ensures r == MergeTerms(searches, Searcher(cachedTokens, host.searchPaths, host.browse), callback, {})
      ensures r.Ok? && searches != [] ==>
        FindFor(Searcher(cachedTokens, host.searchPaths, host.browse), Last(AddAll([], searches))) == Ok(foundTokens)
      ensures r.TypeError? ==> foundTokens == []
    {
      ghost var s := Searcher(cachedTokens, host.searchPaths, host.browse);
      var st := MergeState([], [], 0, false);
      for i := 0 to |searches|
        invariant Valid()
        invariant SearchedUpTo(searches, i, s, callback, st, foundTokens)
      {
        ghost var found := foundTokens;
        var next := SearchTerm(searches[i], callback, host, st);
        if next.TypeError? {
          SearchLoopFails(searches, i, s, callback, st);
          return TypeError;
        }
        SearchLoopAdvance(searches, i, s, callback, st, next.value, found, foundTokens);
        st := next.value;
      }
      SearchLoopDone(searches, s, callback, st, foundTokens);
      return Ok(st);
    }

    /** The search part of `displayArtSelect(name, obj, callbackFor,
        ignoreFilterMSRD)`, with the corrected skip test. */
    method DisplayArtSelect(name: string, callback: CallbackKind, ignoreFilterMSRD: bool, host: Host)
      returns (r: Result<ArtSelectView>)
      requires Valid()
      modifies `excludedKeywords, `foundTokens
      ensures Valid()
      ensures r == Display(filterMSRD, monsterNameList, keywordSearch, excludedKeywords, name,
                           ignoreFilterMSRD, callback, Searcher(cachedTokens, host.searchPaths, host.browse), {})
      ensures excludedKeywords == if (r.Ok? && r.value.NotInMonsterList?) || !keywordSearch
                                  then old(excludedKeywords) else ParseKeywords(host.excludedKeywords)
      ensures r.Ok? && r.value.NotInMonsterList? ==> foundTokens == old(foundTokens)
      ensures r.Ok? && !r.value.NotInMonsterList? ==>
        var terms := SearchTerms(name, keywordSearch, excludedKeywords);
        Find(cachedTokens, host.searchPaths, host.browse, Last(AddAll([], terms))) == Ok(foundTokens)
      ensures r.TypeError? ==> foundTokens == []
    {
      if filterMSRD && !ignoreFilterMSRD && SimplifyTokenName(name) !in monsterNameList {
        return Ok(NotInMonsterList(callback != ActorArt));
      }
      if keywordSearch {
        excludedKeywords := ParseKeywords(host.excludedKeywords);
      }
      var searches := SearchTerms(name, keywordSearch, excludedKeywords);
      var merged := SearchAll(searches, callback, host);
      r := Shown(merged, name);
      DisplaySearches(filterMSRD, monsterNameList, keywordSearch, excludedKeywords, name, ignoreFilterMSRD,
                      callback, Searcher(cachedTokens, host.searchPaths, host.browse), {});
    }
  }
}

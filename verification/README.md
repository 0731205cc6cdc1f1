# Token Variant Art: art search and settings migration, in Dafny

This project models two parts of the Token Variant Art module for Foundry VTT
and proves properties of them.

**The art search** (`token-variants.mjs`):
- name normalisation (`simplifyTokenName`);
- file-name extraction (`getFileName`);
- the excluded-keyword list (`parseKeywords`);
- the search-path parser (`getSearchPaths`);
- the recursive directory crawl (`walkFindTokens`);
- the two-tier lookup (`findTokens`), which reads the cache when it has
  entries and crawls otherwise;
- the cache rebuild (`cacheTokens`) and the `onChange` handlers that trigger it;
- the search loop of `displayArtSelect`. It expands a name into search terms,
  looks each one up, and merges the results into per-term button lists. Each
  path gets one button, and buttons are numbered in emission order.

The module-level variables become the fields of the class
`ArtSearch.TokenVariants`: `cachedTokens`, `foundTokens`, the monster list and
the flags. The methods that mutate them are proved against specification
functions in `Crawl` and `ArtSelect`. The host's file browser is a finite tree
of directory listings (`Crawl.Listing`), so the crawl terminates structurally.

**The settings code** (`scripts/settings.js`):
- the legacy search-path migration. It turns a prefix-encoded `text` into
  `source`, `text` and `types`, and it appears twice, at startup and on import;
- the forge search-path migration;
- the conversion of the old flat filter format;
- the pruning of search filters in `updateSettings`;
- the structural diff `_arrayAwareDiffObject` with `_arrayEquality`.

Values are a small JSON-like datatype (`Js.Value`). A thrown `TypeError` is
the `TypeError` case of `Js.Result`. The startup code rewrites `TVA_CONFIG`
in place, which is the class `Settings.TvaConfig`. Its `map` callbacks mutate
each entry, so when one entry throws, the entries before it stay migrated.
The in-place methods state exactly that partial state.

Modules:
- `Js`: values, truthiness, `===`, `Object.keys`, and the insertion-ordered `Set`.
- `Text`: `split`, `includes`, `toLowerCase` and `\w`.
- `Names`, `SearchPaths`, `Crawl`, `ArtSelect`, `ArtSearch`: the art search.
- `Migration`, `Settings`, `Diff`: the settings code.

## Model

| member | source | states |
|---|---|---|
| Names.SimplifyTokenName | token-variants.mjs:310-312 | the key holds only `[a-z0-9_]` and is no longer than the name |
| Names.SimplifyIdempotent | token-variants.mjs:310-312 | simplifying a key again gives the same key |
| Names.SimplifyKey | token-variants.mjs:310-312 | a string already made of `[a-z0-9_]` is its own key |
| Names.SimplifyConcat | token-variants.mjs:310-312 | the key of `a + b` is the key of `a` followed by the key of `b` |
| Names.SimplifyIgnoresNonWord | token-variants.mjs:310-312 | removing one non-word character from a name does not change its key |
| Names.SimplifyIgnoresCase | token-variants.mjs:310-312 | lower-casing a name first does not change its key (ASCII lower-casing, see Left out) |
| Names.KeyExample | token-variants.mjs:310-312 | `Orc-1` and `orc1` have the same key, `orc1` |
| Names.LastSegmentStart | token-variants.mjs:318 | the position just after the last `/` or `\`, with no separator after it |
| Names.GetFileName | token-variants.mjs:317-319 | the file name contains no `/`, `\` or `.`; it starts the last path segment and ends at that segment's first dot or at the end of the path |
| Names.GetFileNameIsSplitPop | token-variants.mjs:318 | the file name equals the `split('\\').pop().split('/').pop().split('.')[0]` chain |
| Names.SegmentIsLast | token-variants.mjs:318 | the two `split(..).pop()` steps on `\` then `/` leave exactly the text after the last separator of either kind |
| Names.DotIndexUnique | token-variants.mjs:318 | the first dot is the only cut position with a dot (or the end) there and no dot before it |
| Names.ParseKeywords | token-variants.mjs:152-154 | every keyword is non-empty, made of `[a-z0-9_]` and the key of some `\W`-separated word; and the key of every word is a keyword unless it is empty |
| Names.DefaultExcludedKeywords | token-variants.mjs:108 | the default setting `and,for` gives the keywords `and` and `for` |
| SearchPaths.MatchBucket | token-variants.mjs:206-218 | no match exactly when no colon follows `s3:`; otherwise the path is `s3:` + bucket + `:` + path, and the path holds no colon |
| SearchPaths.LastColon | token-variants.mjs:206 | the greedy `(.*)` of the bucket pattern ends at the last colon: no colon follows it |
| SearchPaths.ParseSearchPaths | token-variants.mjs:205-232 | succeeds exactly when the first element is an array whose flattened entries are well formed; then `data` holds the local paths in order, the buckets appear in order of first use, and each bucket holds its own paths |
| SearchPaths.GetSearchPaths | token-variants.mjs:205-232 | the loop over the flattened setting returns what the parse function gives, including its `TypeError`s |
| SearchPaths.ParseSucceedsIffWellFormed | token-variants.mjs:213-230 | the parse succeeds exactly when every entry is a string and every `s3:` entry has a colon after its prefix |
| SearchPaths.ParseFailurePersists | token-variants.mjs:213-230 | once an entry throws, the whole parse throws |
| SearchPaths.ParseLocalPaths | token-variants.mjs:227-229 | `data` holds the non-`s3:` entries, in input order |
| SearchPaths.ParseBuckets | token-variants.mjs:214-226 | bucket names appear once each, in order of first appearance, and never empty; each bucket holds the paths of its entries in input order; entries with an empty bucket are dropped |
| SearchPaths.AppendToBucketEffect | token-variants.mjs:219-225 | pushing to a bucket adds its name if it is new, and appends the path to that bucket alone |
| SearchPaths.BucketUpToLastColon | token-variants.mjs:206 | `s3:a:b:c` is bucket `a:b` with path `c` |
| Crawl.Find | token-variants.mjs:255-278 | the lookup has no duplicates; it throws exactly when the cache is empty and the search paths do not parse |
| Crawl.FindInCache | token-variants.mjs:259-265 | with a non-empty cache the lookup succeeds and returns exactly the cached paths whose file name matches the name's key |
| Crawl.FilterMembers | token-variants.mjs:295-301 | the filter keeps exactly the matching files, and keeps a duplicate-free list duplicate-free |
| Crawl.WalkIsFilteredWalk | token-variants.mjs:283-305 | a walk with a key is the full walk (empty key) with the non-matching files removed |
| Crawl.Walk | token-variants.mjs:283-305 | an empty path outside a bucket, or a listing whose target is `"."`, adds nothing |
| Crawl.WalkMembers | token-variants.mjs:283-305 | every file a walk adds matches the key; past the two guards, every matching file of the directory itself is added |
| Crawl.CrawlIsFilteredCrawl | token-variants.mjs:267-275 | the crawl of local then S3 paths for a key is the full crawl filtered by that key |
| Crawl.FilterAddAll | token-variants.mjs:259-265 | filtering a `Set` built from a list is the `Set` built from the filtered parts |
| Crawl.CachedFindMatchesLiveFind | token-variants.mjs:237-278 | filtering a cache built from a full crawl gives the same result as a live crawl for that name |
| ArtSelect.Reverse | token-variants.mjs:347 | same length, elements in opposite order |
| ArtSelect.LongWordsAreKept | token-variants.mjs:347 | every kept word is a word of the name, longer than two characters, and its lower-case form is not excluded |
| ArtSelect.SearchTerms | token-variants.mjs:341-348 | there is always at least one term, and the first is the full name; with keyword search off it is the only one (which words follow is stated by the next two lemmas: exactly the kept words of the name) |
| ArtSelect.SearchTermsAreKeptWords | token-variants.mjs:345-347 | terms after the name exist only with keyword search on; each is one of the name's `\W`-separated words, longer than two characters, whose lower-case form is not excluded |
| ArtSelect.LongWordsComplete | token-variants.mjs:347 | the filter drops no word that is longer than two characters and not excluded |
| ArtSelect.SearchTermsCoverKeptWords | token-variants.mjs:345-347 | with keyword search on, every such word of the name is a term after the name |
| ArtSelect.ThreeWordSearchTerms | token-variants.mjs:341-348 | a name `a b c` of three kept words gives the terms name, `c`, `b`, `a` |
| ArtSelect.SearchTermsOfLongWords | token-variants.mjs:347 | when every word is kept, the terms are the name and then its words reversed |
| ArtSelect.ButtonsNumbered | token-variants.mjs:374-382 | a term's buttons are numbered on from the last id, with callback `cb` and the file name of their path as label |
| ArtSelect.ButtonsAreNewResults | token-variants.mjs:359-383 | a term's buttons are its results not used before, once each, in result order; their paths extend the used paths exactly as the `Set` does |
| ArtSelect.ButtonsSnoc | token-variants.mjs:374-382 | a result already used adds nothing; a new one adds the next button and joins the used paths |
| ArtSelect.SearchedStep | token-variants.mjs:352-387 | a term not processed yet whose lookup succeeds is recorded with its buttons |
| ArtSelect.MergeStep | token-variants.mjs:352-387 | a turn throws exactly when the term is not skipped and its lookup throws; a skipped term changes nothing; otherwise exactly one list is appended, keyed by the term |
| ArtSelect.AppendTermConsistent | token-variants.mjs:357-387 | recording a new term keeps the loop state consistent: used paths are exactly the button paths, with no path twice; ids run 1, 2, 3, …; `artFound` holds iff some list is non-empty; no term appears twice |
| ArtSelect.StepConsistent | token-variants.mjs:352-387 | one turn of the loop keeps the state consistent |
| ArtSelect.MergeConsistent | token-variants.mjs:350-388 | every state the search loop reaches is consistent (see AppendTermConsistent) |
| ArtSelect.MergeFailurePersists | token-variants.mjs:352-354 | once a lookup throws, the whole search throws |
| ArtSelect.MergeExtends | token-variants.mjs:352-388 | later terms only append: the lists recorded so far stay as they are |
| ArtSelect.StepExtends | token-variants.mjs:352-387 | one turn only appends to the lists recorded so far |
| ArtSelect.MergeRecordsOnlyTerms | token-variants.mjs:350-388 | the loop records at most one list per term, and only for the given terms |
| ArtSelect.MergeRecordsEachTerm | token-variants.mjs:352-387 | with the corrected test, each distinct term is recorded once (even with an empty list), in order of first occurrence |
| ArtSelect.MergePrefixStep | token-variants.mjs:352-387 | the loop over one more term is one more step |
| ArtSelect.SearchLoopAdvance | token-variants.mjs:350-388 | a successful turn extends the merge of the terms before it by one term; the last list is the last new term's, and the lookup results are re-read only for a new term |
| ArtSelect.SearchLoopDone | token-variants.mjs:350-388 | after the last term the loop state is the merge of all terms, and the results left are those of the last distinct term |
| ArtSelect.SearchLoopFails | token-variants.mjs:352-354 | a turn whose lookup throws makes the whole search throw |
| ArtSelect.StepRecordsTerm | token-variants.mjs:353-386 | a turn adds its term to the recorded terms (once), and puts a new term's list last |
| ArtSelect.MergeFirstTerm | token-variants.mjs:352-387 | with the corrected test, the first term's list has one button for each of its results, in result order |
| ArtSelect.SingleTermButtons | token-variants.mjs:352-387 | a single term whose lookup succeeds is recorded, with a button for each of its results |
| ArtSelect.MergeFailsIffSearchFails | token-variants.mjs:352-354 | with the corrected test, the search throws exactly when the cache is empty and the search paths do not parse |
| ArtSelect.MergeNeverFails | token-variants.mjs:352-354 | with a usable cache or parsable paths, the search does not throw |
| ArtSelect.Shown | token-variants.mjs:394-400 | a failed search opens nothing; otherwise the window shows buttons exactly when `artFound` holds |
| ArtSelect.Display | token-variants.mjs:328-400 | the monster-list refusal happens exactly when filtering is on, not ignored, and the name's key is not in the list, with a prompt unless the art is for an actor; every window is titled with the name and lists only search terms |
| ArtSelect.SingleTermFindsArt | token-variants.mjs:384-386 | a term with results sets `artFound` |
| ArtSelect.CachedMatchFindsArt | token-variants.mjs:352-386 | a name that some cached file matches shows art |
| ArtSelect.PrototypeNameNeverSearched | token-variants.mjs:353 | as written, the name `constructor` is never looked up and the window opens without art |
| ArtSelect.PrototypeNameSearchedWhenCorrected | token-variants.mjs:353 | with an own-key test, `constructor` is looked up and a matching cached file is shown |
| ArtSearch.SimplifyAll | token-variants.mjs:242 | the monster list maps one-to-one to the keys of its names |
| ArtSearch.RebuiltCache | token-variants.mjs:247-249 | the rebuilt cache holds no duplicates |
| ArtSearch.RebuiltCacheIsFullCrawl | token-variants.mjs:247-248 | the rebuilt cache is the distinct files of a full crawl; a lookup in it equals a live lookup |
| ArtSearch.TokenVariants.constructor | token-variants.mjs:7-24 | the initial values of the module-level variables |
| ArtSearch.TokenVariants.AddMatchingFiles | token-variants.mjs:295-301 | `foundTokens` gains a directory's matching files, in order, with no duplicates |
| ArtSearch.TokenVariants.WalkFindTokens | token-variants.mjs:283-305 | `foundTokens` gains the walk: nothing for an empty path outside a bucket or a `"."` listing; otherwise the matching files, then each sub-directory in turn |
| ArtSearch.TokenVariants.FilterCachedTokens | token-variants.mjs:259-265 | `foundTokens` gains the cached paths whose key contains the name's key, in cache order |
| ArtSearch.TokenVariants.WalkDataPaths | token-variants.mjs:268-270 | `foundTokens` gains the walks of the local paths, in order |
| ArtSearch.TokenVariants.WalkBucketPaths | token-variants.mjs:272-274 | `foundTokens` gains the walks of one bucket's paths, in order |
| ArtSearch.TokenVariants.FindTokens | token-variants.mjs:255-278 | returns the specified lookup and leaves it in `foundTokens` (empty when it throws) |
| ArtSearch.TokenVariants.CacheTokens | token-variants.mjs:237-250 | the cache is cleared, then is either empty (caching disabled) or the full crawl; `foundTokens` is left empty; the monster list is reloaded when filtering is on; a throw happens exactly when the paths do not parse; afterwards every cached lookup equals a live one |
| ArtSearch.TokenVariants.OnSearchPathsChange | token-variants.mjs:69 | nothing changes while caching is disabled; otherwise the cache is rebuilt |
| ArtSearch.TokenVariants.OnDisableCachingChange | token-variants.mjs:79 | stores the flag, then rebuilds the cache under it |
| ArtSearch.TokenVariants.OnFilterMSRDChange | token-variants.mjs:89 | stores the flag, then rebuilds (reloading the monster list when on) |
| ArtSearch.TokenVariants.OnKeywordSearchChange | token-variants.mjs:99 | stores the flag |
| ArtSearch.TokenVariants.OnExcludedKeywordsChange | token-variants.mjs:109 | the excluded keywords become the parsed, non-empty keys |
| ArtSearch.TokenVariants.EmitButtons | token-variants.mjs:359-383 | returns the term's buttons, the used paths extended by the results, and the last id |
| ArtSearch.TokenVariants.EmitButton | token-variants.mjs:374-382 | a used path adds nothing; a new one is marked used and gets the next id, its file name as label and the callback |
| ArtSearch.TokenVariants.SearchTerm | token-variants.mjs:352-387 | one loop turn as specified: a processed term leaves `foundTokens` as it was; otherwise the term's results are left there |
| ArtSearch.TokenVariants.AppendButtons | token-variants.mjs:357-387 | records the term with its buttons, grows the used paths, and sets `artFound` once a button exists |
| ArtSearch.TokenVariants.SearchAll | token-variants.mjs:350-388 | the loop over the terms equals the specified merge; the last distinct term's results are left in `foundTokens` |
| ArtSearch.TokenVariants.DisplayArtSelect | token-variants.mjs:328-400 | outcomes: the monster-list refusal (a prompt unless the art is for an actor) or the specified search and window. With keyword search on, the excluded keywords are re-read |
| Diff.Diff | scripts/settings.js:551-572 | reported keys are own keys of `other`; with `inner`, they are also keys of `original`; each reports the new value or a non-empty nested diff inside it (the converse, that every changed key is reported, is Diff.DiffReportsChanges) |
| Diff.DiffAt | scripts/settings.js:566-570 | a reported key is present in `original` when `inner` is set, and reports the new value or a nested diff (which keys are reported: Diff.DiffReportsChanges) |
| Diff.Changed | scripts/settings.js:568 | a change reports the new value or a nested diff |
| Diff.ChangedIsDifference | scripts/settings.js:568 | the per-key comparison is `_difference` of the two properties |
| Diff.DiffReportsChanges | scripts/settings.js:564-570 | when the diff succeeds, an own key of `other` present in `original` (when `inner`) is reported exactly when `_difference` says changed, with its value |
| Diff.Difference | scripts/settings.js:552-563 | values of different type tags are different, with the new value; a scalar new value gives `[v0 !== v1, v1]`; two arrays differ exactly when `_arrayEquality` is false; two objects differ when exactly one is empty, otherwise exactly when their inner diff is non-empty, which is then the reported value |
| Diff.ArrayEquality | scripts/settings.js:574-580 | false unless the second value is an array of the same length; true exactly when every element matches (an object diffs empty, any other value is `===`); false exactly when some element fails to match after only matching ones; throws otherwise |
| Diff.Every | scripts/settings.js:576-579 | true exactly when every element from `i` on matches; false exactly when a mismatch comes before any throw |
| Diff.SelfDiffEmpty | scripts/settings.js:551-572 | an object diffed against itself gives `{}` (no array directly inside an array) |
| Diff.SelfDifference | scripts/settings.js:552-563 | a value never differs from itself (same restriction) |
| Diff.SelfEvery | scripts/settings.js:576-579 | an array is element-wise equal to itself (same restriction) |
| Diff.NestedArrayNeverEqual | scripts/settings.js:578 | an array holding an array is unequal even to itself |
| Diff.EmptyObjectMatchesNumber | scripts/settings.js:577 | `[{}]` and `[5]` count as equal, because objects are compared only by their diff |
| Diff.OnlyNewKeysReported | scripts/settings.js:566 | a key only `original` has is never reported |
| Migration.WithTypes | scripts/settings.js:392-395 | afterwards `types` is truthy and the other keys are unchanged; an existing truthy `types` is kept; otherwise it becomes `['tile']` when `tiles` is truthy and `['token']` when not |
| Migration.LegacySource | scripts/settings.js:369-390 | the decoded source is never empty |
| Migration.MigrateEntry | scripts/settings.js:368-397 | throws exactly for a non-object, or one with no source and a non-string `text`; otherwise an object with a source; `types` is set at startup, and on import when there was no source |
| Migration.MapAll | scripts/settings.js:368 | succeeds exactly when every step does; then same length, entry by entry |
| Migration.MapAllExact | scripts/settings.js:368 | a list whose entries are the steps of the input is the result of the `map` |
| Migration.SourcedEntryKept | scripts/settings.js:369 | an entry with a source keeps `source` and `text`; on import it is untouched |
| Migration.UnsourcedEntryDecoded | scripts/settings.js:369-395 | an entry without a source gets the decoded source and text and a `types`; no other field changes |
| Migration.EntryIdempotent | scripts/settings.js:368-397 | migrating a migrated entry changes nothing |
| Migration.ModesDiffer | scripts/settings.js:452-479 | a sourced entry without `types` gains `['token']` at startup and is left alone on import |
| Migration.S3WithBucket | scripts/settings.js:370-374 | `s3:B:P[:…]` becomes source `s3:B`, text `P` |
| Migration.S3WithoutBucket | scripts/settings.js:375-378 | `s3:X` without a further colon becomes source `s3:`, text `X` |
| Migration.NamedPrefix | scripts/settings.js:379-387 | `rolltable:`, `forgevtt:` and `imgur:` become that source, with the second colon field as text |
| Migration.DataPath | scripts/settings.js:388-390 | any other text becomes source `data` and is kept |
| Migration.S3ParsesDiffer | scripts/settings.js:371-374 | `s3:a:b:c` is source `s3:a`, text `b` here, while the search-path parser reads bucket `a:b`, path `c` |
| Migration.MigrateForgeEntry | scripts/settings.js:423-432 | throws exactly for a non-object; the result has a truthy `types`, and its source is the old one if truthy, else `forgevtt` |
| Migration.MigrateHolder | scripts/settings.js:423 | succeeds exactly for an object whose `paths` is an array of objects; then `paths` holds each entry migrated, in order, and the keys and other fields are kept |
| Migration.ForgeMigration | scripts/settings.js:422-433 | succeeds exactly when every holder does; same uids, each holder migrated |
| Migration.MapAllIdempotent | scripts/settings.js:368 | a `map` of an idempotent step is idempotent |
| Migration.StartupPathsIdempotent | scripts/settings.js:368-397 | a second startup migration of the search paths changes nothing |
| Migration.ImportPathsIdempotent | scripts/settings.js:451-481 | a second import migration of the search paths changes nothing |
| Migration.ForgeEntryIdempotent | scripts/settings.js:423-432 | a second forge-entry migration changes nothing |
| Migration.HolderIdempotent | scripts/settings.js:423-432 | a second holder migration changes nothing |
| Migration.ForgeMigrationIdempotent | scripts/settings.js:422-433 | a second forge migration changes nothing |
| Migration.ForgeMigrationFixed | scripts/settings.js:422-433 | holders that each migrate to themselves are a fixpoint of the loop |
| Migration.LegacyField | scripts/settings.js:502-514 | at startup the old field as it is; on import never nullish (`?? ''`) |
| Migration.FilterRecord | scripts/settings.js:403-407 | exactly the keys `include`, `exclude` and `regex`; none is nullish on import |
| Migration.ConvertFilters | scripts/settings.js:400-418 | the keys are exactly `portrait`, `token` and `portraitAndToken` |
| Migration.ConvertedRecords | scripts/settings.js:400-418 | every category is a filter record, and the result is no longer in the old format |
| Migration.StartupConvertExample | scripts/settings.js:403-407 | at startup missing old fields stay `undefined` |
| Migration.ImportConvertExample | scripts/settings.js:506-510 | on import missing old fields become `''` |
| Migration.ImportSettings | scripts/settings.js:445-518 | `null`/`undefined` throws; another non-object passes unchanged; an object keeps all its keys (what the import does to them is stated by the `Import…` lemmas below) |
| Migration.ImportPaths | scripts/settings.js:450-481 | a falsy `searchPaths` is left alone; otherwise it throws exactly when it is not an array or some entry throws; on success the keys are kept, only `searchPaths` changes, and it holds each entry migrated in order |
| Migration.ImportForge | scripts/settings.js:483-495 | a falsy or non-container `forgeSearchPaths` is left alone, a truthy string throws; an object or array succeeds exactly when every holder migrates, and then holds each holder migrated under the same key or index; nothing else changes |
| Migration.ImportFilters | scripts/settings.js:497-518 | old-format filters become the converted ones (with `?? ''`) and `compendiumMapper` becomes `{}`, nothing else changes; otherwise the settings are untouched |
| Migration.ImportResetsCompendiumMapper | scripts/settings.js:497-518 | after an import, `compendiumMapper` is `{}` and the filters converted exactly when the filters were in the old format; otherwise both are as given |
| Migration.ImportMigratesForge | scripts/settings.js:483-495 | after an import, each forge holder (by uid or index) is the migration of the given one |
| Migration.ImportConvertsFilters | scripts/settings.js:497-518 | after an import no filter object is in the old format |
| Migration.ImportMigratesPaths | scripts/settings.js:450-481 | after an import the search paths are the migrated entries, in order |
| Migration.ImportIdempotent | scripts/settings.js:445-518 | importing imported settings changes nothing |
| Migration.ImportPathsAgain | scripts/settings.js:450-481 | search paths an import produced are left alone by a second import |
| Migration.ImportForgeAgain | scripts/settings.js:483-495 | forge paths an import produced are left alone by a second import |
| Migration.ImportFiltersAgain | scripts/settings.js:497-518 | filters an import produced are left alone by a second import |
| Settings.MapInPlace | scripts/settings.js:368-397 | the `map` yields the specified result; on a throw at entry `k`, entries before `k` are migrated and the rest untouched |
| Settings.MigrateHolderInPlace | scripts/settings.js:423-432 | one holder's `paths` migrated as specified, or partly migrated when an entry throws |
| Settings.MigrateHolders | scripts/settings.js:422-433 | the `for…in` loop yields the specified migration; same uids; every holder is migrated, partly migrated or untouched |
| Settings.TvaConfig.constructor | scripts/settings.js:363-364 | the configuration holds the loaded settings |
| Settings.TvaConfig.MigrateSearchPaths | scripts/settings.js:368-397 | the search paths become the migrated list, or stay partly migrated when an entry throws; nothing else changes |
| Settings.TvaConfig.ConvertFilterFormat | scripts/settings.js:399-420 | old-format filters are converted and the mapper's `searchFilters` reset to `{}`; afterwards the filters are never in the old format |
| Settings.TvaConfig.MigrateForgePaths | scripts/settings.js:422-433 | the forge paths become the specified migration; uids are kept; a throw leaves each holder migrated, partly migrated or untouched |
| Settings.TvaConfig.RegisterMigrations | scripts/settings.js:366-433 | runs the three migrations in order, and a throw stops the rest: after a throw in the search-path `map` the paths are migrated up to the throwing entry and nothing else changed; after a throw in the forge loop the paths are migrated, the filters converted and `compendiumMapper.searchFilters` reset (both only for the old format), and each forge holder is migrated, partly migrated or untouched; on success a second run would change nothing |
| Settings.PruneSearchFilters | scripts/settings.js:528-542 | the deletion loop and the `forEach` together leave the pruned filters |
| Settings.DropUnknown | scripts/settings.js:531-533 | the `for…in` deletion keeps exactly the filters of listed categories |
| Settings.Pruned | scripts/settings.js:528-542 | a key survives exactly when it is a listed category already present, or a custom category that is not an inherited name |
| Settings.AddMissing | scripts/settings.js:534-542 | each custom category whose filter is missing or null gets the empty filter; as written, a missing category named like an `Object.prototype` member reads as present and gets none |
| Settings.FilledSnoc | scripts/settings.js:535-541 | one more category adds the empty filter only when its filter is null, or missing and not an inherited name |
| Settings.PrunedFilters | scripts/settings.js:528-542 | custom categories end up with a non-null filter unless missing under an inherited name; kept filters are unchanged; null or missing custom filters become `{include:'', exclude:'', regex:''}` |
| Settings.PruneIdempotent | scripts/settings.js:528-542 | pruning twice is pruning once |
| Settings.PrototypeCategoryGetsNoFilter | scripts/settings.js:535 | as written, a custom category `constructor` without a filter gets none |
| Settings.CustomCategoriesFilled | scripts/settings.js:534-542 | with an own-property test, every custom category ends up with a non-null filter |

## Left out

- I/O and host calls become inputs. The settings `searchPaths` and
  `excludedKeywords`, `FilePicker.browse` (a given tree of listings per root)
  and the monster-name list from `jQuery.getJSON` are fields of
  `ArtSearch.Host`. `game.settings.get/set`, `saveDataToFile` and the export
  are not modelled.
- `async`/`await`: overlapping rebuilds that write the shared sets are not
  modelled. Every operation runs to completion, one after another.
- `decodeURI` in `getFileName` is taken as the identity.
- `.` in the `s3:` regular expression also fails to match line terminators.
  Paths are assumed to contain none.
- `JSON.parse` in `importSettingsFromJSON`: `Migration.ImportSettings` takes
  the parsed value. The hand-off to `updateSettings` is not modelled. Neither
  are `mergeObject` and `deepClone`, whose results the pruning takes as given.
- The restore of `compendiumMapper.searchFilters` in `updateSettings`
  (scripts/settings.js:544-546) is a plain copy and is not modelled.
- Numbers are integers. Floating point and `fuzzyThreshold` are not modelled.
- Reference identity. `===` on two arrays or objects is modelled as false, as
  for separately built values. `Diff.SelfDiffEmpty` therefore excludes arrays
  directly inside arrays.
- Inherited (prototype) keys of `original` are not modelled in `Diff.HasProperty`
  and `Diff.Prop`. Only own keys and `length` are.
- The same entry object occurring twice in one list, so that mutating it
  mutates both, is not modelled.
- Migration.MigrateForgeEntry: an array entry is modelled as throwing, like
  any non-object. JavaScript would attach `source` and `types` to the array.
- Settings.MigrateHolders: the `for…in` order is left arbitrary. When a holder
  throws, the contract says only that every holder is migrated, partly
  migrated or untouched, not which ones come first.
- Settings.PruneSearchFilters: custom categories are strings. Non-string
  entries of `customImageCategories` are not modelled. The names a plain
  object inherits are the parameter `inherited`: `Js.PrototypeMembers` is the
  code as written (see Findings), `{}` the corrected own-property test.
- Settings.TvaConfig: `searchPaths` is a list and `searchFilters` and
  `forgeSearchPaths` are objects, as the loaded settings provide. A setting of
  another type, which would throw or be skipped at startup, is not modelled.
- `if (!tokens) continue;` (token-variants.mjs:355) is never taken, because
  `findTokens` always returns an array. The model has no such branch.
- The window, the `Dialog` prompt and `setTokenImage` are not modelled. Each
  button's callback is a tag (`ArtSelect.CallbackKind`), and the window's
  search-again callback is not modelled.
- ArtSearch.TokenVariants.DisplayArtSelect models the corrected skip test
  (see Findings). The as-written behaviour is in `ArtSelect.Display` with the
  `Js.PrototypeMembers` set.
- ArtSearch.TokenVariants.SearchTerm: one loop turn with the corrected skip
  test (the skip set `{}`), not the `!== undefined` test of
  token-variants.mjs:353. The as-written turn is `ArtSelect.MergeStep` with
  `Js.PrototypeMembers`.
- ArtSearch.TokenVariants.SearchAll: the loop with the corrected skip test
  (the skip set `{}`). The as-written loop is `ArtSelect.MergeTerms` with
  `Js.PrototypeMembers`.
- `FilePicker.browse` and `jQuery.getJSON` never fail in the model:
  `Crawl.Browser` is a total function and the monster list is a given list.
  In the source a rejected promise from either propagates out of
  `findTokens`, `cacheTokens` and `displayArtSelect`. So "throws exactly when"
  in the rows of Crawl.Find, ArtSelect.MergeFailsIffSearchFails and
  ArtSearch.TokenVariants.CacheTokens counts only the `TypeError`s of the
  modelled code.
- Names.SimplifyIgnoresCase: `Text.ToLower` lowers ASCII letters only.
  JavaScript's `toLowerCase` also maps other characters, some of them to
  ASCII: U+212A (Kelvin sign) becomes `k`. So in the source
  `simplifyTokenName("\u212A")` is `""` but the key of its lower-case form
  is `"k"`. The lemma holds for names without such characters.
  `Names.SimplifyTokenName` itself is exact for every name, because every
  character that survives the `\W` removal is ASCII.
- Key order of `allButtons`: the model keeps the lists in the order the terms
  were processed. A JavaScript object lists integer-like keys (such as `123`)
  first, in numeric order, so for `Goblin 123` with keyword search the source
  enumerates `123` before `Goblin 123`. The window's display order is not
  modelled.

## Findings

| source | as written | input that shows it | evidently intended | confidence | as-written member | corrected member |
|---|---|---|---|---|---|---|
| token-variants.mjs:353 | `allButtons[search] !== undefined` also holds for names that `{}` inherits from `Object.prototype` | a creature named `constructor` (or a keyword such as `toString`), with matching art in the cache | skip only terms already processed (an own-property test) | not executed | ArtSelect.PrototypeNameNeverSearched | ArtSelect.PrototypeNameSearchedWhenCorrected |
| scripts/settings.js:535 | `settings.searchFilters[type] == null` also sees the names a plain object inherits from `Object.prototype`, so such a name never reads as missing | a custom image category `constructor` (or `toString`, `valueOf`, …) with no filter stored | every custom category without an own filter gets `{include:'', exclude:'', regex:''}` | not executed | Settings.PrototypeCategoryGetsNoFilter | Settings.CustomCategoriesFilled |

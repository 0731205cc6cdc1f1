/** The search part of `displayArtSelect`: the search terms built from a
    name, and the merge of their results into per-term button lists in which
    every path appears once and the buttons are numbered in emission order.
    These functions are the specification that `TokenVariants.DisplayArtSelect`
    is proved against. */
module ArtSelect {
  import opened Js
  import opened Text
  import opened Names
  import opened SearchPaths
  import opened Crawl

  /** `callbackType`: what choosing a button updates (the actor, a token, or
      the image field of the token configuration). */
  datatype CallbackKind = ActorArt | TokenArt | TokenConfigField

  /** One button of the art selection window; `caption` is its `label`. */
  datatype Button = Button(id: nat, path: string, caption: string, callback: CallbackKind)

  /** The entry `allButtons[term]`. */
  datatype TermButtons = TermButtons(term: string, buttons: seq<Button>)

  /** The variables the search loop updates: `allButtons` (its entries kept
      in the order the terms were processed, which is the order a JavaScript
      object lists them unless a term is an integer-like key), `usedTokens`,
      `buttonId` and `artFound`. */
  datatype MergeState = MergeState(allButtons: seq<TermButtons>, used: seq<string>, lastId: nat, artFound: bool)

  /** What `findTokens` searches during one display: the cache, the
      search-path setting and the file browser, none of which the display
      changes. */
  datatype Searcher = Searcher(cache: seq<string>, setting: seq<Value>, browse: Browser)

  /** What the display ends in: the "not in the monster list" outcome
      (with a prompt unless the art is for an actor), the window with the
      buttons, or the window without art. */
  datatype ArtSelectView =
    | NotInMonsterList(prompted: bool)
    | Window(allButtons: seq<TermButtons>, title: string)
    | EmptyWindow(title: string)

  function FindFor(s: Searcher, term: string): Result<seq<string>>
  {
    Find(s.cache, s.setting, s.browse, term)
  }

  // ---------------------------------------------------------------------
  // Search terms.

  /** A word is kept as a search term when it is longer than two characters
      and its lower-case form is not an excluded keyword. */
  predicate Kept(w: string, excluded: seq<string>)
  {
    |w| > 2 && ToLower(w) !in excluded
  }

  /** The kept words, in order. */
  function LongWords(words: seq<string>, excluded: seq<string>): seq<string>
  {
    if words == [] then []
    else
      var w := words[|words| - 1];
      LongWords(words[..|words| - 1], excluded) + (if Kept(w, excluded) then [w] else [])
  }

  lemma {:induction false} LongWordsAreKept(words: seq<string>, excluded: seq<string>)
    ensures forall i :: 0 <= i < |LongWords(words, excluded)| ==>
      LongWords(words, excluded)[i] in words && Kept(LongWords(words, excluded)[i], excluded)
  {
    if words != [] {
      LongWordsAreKept(words[..|words| - 1], excluded);
    }
  }

  /** No kept word is dropped. */
  lemma {:induction false} LongWordsComplete(words: seq<string>, excluded: seq<string>)
    ensures forall w :: w in words && Kept(w, excluded) ==> w in LongWords(words, excluded)
  {
    if words != [] {
      var init := words[..|words| - 1];
      LongWordsComplete(init, excluded);
      assert words == init + [words[|words| - 1]];
    }
  }

  function Reverse(s: seq<string>): (r: seq<string>)
    ensures |r| == |s|
    ensures forall i :: 0 <= i < |s| ==> r[i] == s[|s| - 1 - i]
  {
    if s == [] then [] else [s[|s| - 1]] + Reverse(s[..|s| - 1])
  }

  /** `searches`: the full name, then (with keyword search on) the kept words
      of the name in reverse order. */
  function SearchTerms(name: string, keywordSearch: bool, excluded: seq<string>): (terms: seq<string>)
    ensures |terms| >= 1 && terms[0] == name
    ensures !keywordSearch ==> terms == [name]
  {
    if keywordSearch then [name] + Reverse(LongWords(Split(name, IsNonWordChar), excluded)) else [name]
  }

  /** Only with keyword search on are there terms after the name; each is a
      word of the name longer than two characters that is not excluded. */
  lemma SearchTermsAreKeptWords(name: string, keywordSearch: bool, excluded: seq<string>)
    ensures var terms := SearchTerms(name, keywordSearch, excluded);
      forall i :: 1 <= i < |terms| ==>
        && keywordSearch && terms[i] in Split(name, IsNonWordChar) && IsWord(terms[i])
        && |terms[i]| > 2 && ToLower(terms[i]) !in excluded
  {
    SplitPiecesSeparatorFree(name, IsNonWordChar);
    LongWordsAreKept(Split(name, IsNonWordChar), excluded);
  }

  /** Conversely, with keyword search on every word of the name longer than
      two characters that is not excluded is searched after the name. */
  lemma SearchTermsCoverKeptWords(name: string, excluded: seq<string>, w: string)
    requires w in Split(name, IsNonWordChar) && Kept(w, excluded)
    ensures w in SearchTerms(name, true, excluded)[1..]
  {
    var words := LongWords(Split(name, IsNonWordChar), excluded);
    LongWordsComplete(Split(name, IsNonWordChar), excluded);
    var i :| 0 <= i < |words| && words[i] == w;
    assert Reverse(words)[|words| - 1 - i] == w;
    assert SearchTerms(name, true, excluded)[1..] == Reverse(words);
  }

  // ---------------------------------------------------------------------
  // Buttons of one term.

  function Paths(bs: seq<Button>): (r: seq<string>)
    ensures |r| == |bs|
    ensures forall k :: 0 <= k < |bs| ==> r[k] == bs[k].path
  {
    if bs == [] then [] else Paths(bs[..|bs| - 1]) + [bs[|bs| - 1].path]
  }

  /** The buttons the `forEach` over one term's results pushes: one for each
      result not yet used, numbered on from `lastId`, labelled with its file
      name. */
  function ButtonsFor(tokens: seq<string>, used: seq<string>, lastId: nat, cb: CallbackKind): (bs: seq<Button>)
    ensures |bs| <= |tokens|
    decreases |tokens|
  {
    if tokens == [] then []
    else
      var t := tokens[|tokens| - 1];
      var before := ButtonsFor(tokens[..|tokens| - 1], used, lastId, cb);
      if t in AddAll(used, tokens[..|tokens| - 1]) then before
      else before + [Button(lastId + |before| + 1, t, GetFileName(t), cb)]
  }

  /** The buttons are numbered on from `lastId` and captioned with the file
      name of their path. */
  lemma {:induction false} ButtonsNumbered(tokens: seq<string>, used: seq<string>, lastId: nat, cb: CallbackKind)
    ensures Numbered(ButtonsFor(tokens, used, lastId, cb), lastId, cb)
    decreases |tokens|
  {
    if tokens != [] {
      var init := tokens[..|tokens| - 1];
      ButtonsNumbered(init, used, lastId, cb);
    }
  }

  /** One more result: a button for it when it is new, nothing otherwise. */
  lemma ButtonsSnoc(tokens: seq<string>, used: seq<string>, lastId: nat, cb: CallbackKind, j: nat,
                    before: seq<Button>, seen: seq<string>, id: nat)
    requires j < |tokens|
    requires before == ButtonsFor(tokens[..j], used, lastId, cb) && seen == AddAll(used, tokens[..j])
    requires id == lastId + |before|
    ensures tokens[j] in seen ==>
      ButtonsFor(tokens[..j + 1], used, lastId, cb) == before && AddAll(used, tokens[..j + 1]) == seen
    ensures tokens[j] !in seen ==>
      && ButtonsFor(tokens[..j + 1], used, lastId, cb) == before + [Button(id + 1, tokens[j], GetFileName(tokens[j]), cb)]
      && AddAll(used, tokens[..j + 1]) == seen + [tokens[j]]
  {
    ButtonsForSnoc(tokens, used, lastId, cb, j);
    AddAllPrefixSnoc(used, tokens, j);
    if tokens[j] in seen {
      assert Add(seen, tokens[j]) == seen;
    } else {
      assert Add(seen, tokens[j]) == seen + [tokens[j]];
    }
  }

  lemma AddAllPrefixSnoc(used: seq<string>, tokens: seq<string>, j: nat)
    requires j < |tokens|
    ensures AddAll(used, tokens[..j + 1]) == Add(AddAll(used, tokens[..j]), tokens[j])
  {
    assert tokens[..j + 1] == tokens[..j] + [tokens[j]];
    AddAllSnoc(used, tokens[..j], tokens[j]);
  }

  lemma ButtonsForSnoc(tokens: seq<string>, used: seq<string>, lastId: nat, cb: CallbackKind, j: nat)
    requires j < |tokens|
    ensures var before := ButtonsFor(tokens[..j], used, lastId, cb);
      ButtonsFor(tokens[..j + 1], used, lastId, cb) ==
        if tokens[j] in AddAll(used, tokens[..j]) then before
        else before + [Button(lastId + |before| + 1, tokens[j], GetFileName(tokens[j]), cb)]
  {
    var ts := tokens[..j + 1];
    assert ts[..|ts| - 1] == tokens[..j];
    assert ts[|ts| - 1] == tokens[j];
    var before := ButtonsFor(tokens[..j], used, lastId, cb);
    assert ButtonsFor(ts, used, lastId, cb) ==
      if tokens[j] in AddAll(used, tokens[..j]) then before
      else before + [Button(lastId + |before| + 1, tokens[j], GetFileName(tokens[j]), cb)];
  }

  /** The buttons of a term are its results that were not used before, once
      each, in result order. */
  lemma {:induction false} ButtonsAreNewResults(tokens: seq<string>, used: seq<string>, lastId: nat, cb: CallbackKind)
    ensures used + Paths(ButtonsFor(tokens, used, lastId, cb)) == AddAll(used, tokens)
    decreases |tokens|
  {
    if tokens != [] {
      var init, t := tokens[..|tokens| - 1], tokens[|tokens| - 1];
      ButtonsAreNewResults(init, used, lastId, cb);
      var before := ButtonsFor(init, used, lastId, cb);
      if t !in AddAll(used, init) {
        var b := Button(lastId + |before| + 1, t, GetFileName(t), cb);
        assert (before + [b])[..|before|] == before;
        assert Paths(before + [b]) == Paths(before) + [t];
      }
    }
  }

  // ---------------------------------------------------------------------
  // The merge over all terms.

  function Terms(all: seq<TermButtons>): (r: seq<string>)
    ensures |r| == |all|
    ensures forall i :: 0 <= i < |all| ==> r[i] == all[i].term
  {
    if all == [] then [] else Terms(all[..|all| - 1]) + [all[|all| - 1].term]
  }

  /** Every button, term by term. */
  function AllButtonList(all: seq<TermButtons>): seq<Button>
  {
    if all == [] then [] else AllButtonList(all[..|all| - 1]) + all[|all| - 1].buttons
  }

  /** The test `allButtons[search] !== undefined`, where `inherited` are the
      names a plain object answers without having them set. As written that
      is `PrototypeMembers`; the corrected test (an own-property test) has
      `inherited == {}` and asks only whether the term was already processed. */
  predicate Skipped(all: seq<TermButtons>, term: string, inherited: set<string>)
  {
    term in Terms(all) || term in inherited
  }

  /** One turn of the search loop. */
  function MergeStep(st: MergeState, term: string, s: Searcher, cb: CallbackKind, inherited: set<string>)
    : (r: Result<MergeState>)
    ensures r.TypeError? <==> !Skipped(st.allButtons, term, inherited) && FindFor(s, term).TypeError?
    ensures Skipped(st.allButtons, term, inherited) ==> r == Ok(st)
    ensures r.Ok? && !Skipped(st.allButtons, term, inherited) ==>
      && |r.value.allButtons| == |st.allButtons| + 1
      && r.value.allButtons == st.allButtons + [r.value.allButtons[|st.allButtons|]]
      && r.value.allButtons[|st.allButtons|].term == term
  {
    if Skipped(st.allButtons, term, inherited) then Ok(st)
    else
      match FindFor(s, term)
      case TypeError => TypeError
      case Ok(tokens) => Ok(AppendTerm(st, term, tokens, cb))
  }

  /** Records a searched term: its buttons go after the others, its results
      join the used paths, and the art counts as found once a button exists. */
  function AppendTerm(st: MergeState, term: string, tokens: seq<string>, cb: CallbackKind): MergeState
  {
    var bs := ButtonsFor(tokens, st.used, st.lastId, cb);
    MergeState(st.allButtons + [TermButtons(term, bs)], AddAll(st.used, tokens), st.lastId + |bs|, st.artFound || |bs| > 0)
  }

  /** A term that is not skipped and whose lookup succeeds is recorded. */
  lemma SearchedStep(st: MergeState, term: string, s: Searcher, cb: CallbackKind, tokens: seq<string>)
    requires !Skipped(st.allButtons, term, {}) && FindFor(s, term) == Ok(tokens)
    ensures MergeStep(st, term, s, cb, {}) == Ok(AppendTerm(st, term, tokens, cb))
  {
  }

  /** Every recorded term is one of `terms`. */
  predicate RecordedFrom(all: seq<TermButtons>, terms: seq<string>)
  {
    forall i :: 0 <= i < |all| ==> all[i].term in terms
  }

  /** The search loop over `terms`, from the empty state. */
  function MergeTerms(terms: seq<string>, s: Searcher, cb: CallbackKind, inherited: set<string>)
    : (r: Result<MergeState>)
  {
    if terms == [] then Ok(MergeState([], [], 0, false))
    else
      match MergeTerms(terms[..|terms| - 1], s, cb, inherited)
      case TypeError => TypeError
      case Ok(st) => MergeStep(st, terms[|terms| - 1], s, cb, inherited)
  }

  /** `displayArtSelect` after the monster-list check and the term list:
      `excluded` is the keyword list in effect during the search. */
  function Display(filterMSRD: bool, monsterNames: seq<string>, keywordSearch: bool, excluded: seq<string>,
                   name: string, ignoreFilterMSRD: bool, cb: CallbackKind, s: Searcher, inherited: set<string>)
    : (r: Result<ArtSelectView>)
    ensures (r.Ok? && r.value.NotInMonsterList?) <==>
      filterMSRD && !ignoreFilterMSRD && SimplifyTokenName(name) !in monsterNames
    ensures r.Ok? && r.value.NotInMonsterList? ==> r.value.prompted == (cb != ActorArt)
    ensures r.Ok? && r.value.Window? ==>
      && r.value.title == name
      && RecordedFrom(r.value.allButtons, SearchTerms(name, keywordSearch, excluded))
    ensures r.Ok? && r.value.EmptyWindow? ==> r.value.title == name
  {
    if filterMSRD && !ignoreFilterMSRD && SimplifyTokenName(name) !in monsterNames then
      Ok(NotInMonsterList(cb != ActorArt))
    else
      var terms := SearchTerms(name, keywordSearch, excluded);
      if MergeTerms(terms, s, cb, inherited).Ok? then
        MergeRecordsOnlyTerms(terms, s, cb, inherited);
        Shown(MergeTerms(terms, s, cb, inherited), name)
      else Shown(MergeTerms(terms, s, cb, inherited), name)
  }

  /** Past the monster-list check, the display is the window of the merged
      search terms. */
  lemma DisplaySearches(filterMSRD: bool, monsterNames: seq<string>, keywordSearch: bool, excluded: seq<string>,
                        name: string, ignoreFilterMSRD: bool, cb: CallbackKind, s: Searcher, inherited: set<string>)
    requires !(filterMSRD && !ignoreFilterMSRD && SimplifyTokenName(name) !in monsterNames)
    ensures Display(filterMSRD, monsterNames, keywordSearch, excluded, name, ignoreFilterMSRD, cb, s, inherited)
         == Shown(MergeTerms(SearchTerms(name, keywordSearch, excluded), s, cb, inherited), name)
  {
  }

  /** Only the given terms are recorded, each at most once. */
  lemma {:induction false} MergeRecordsOnlyTerms(terms: seq<string>, s: Searcher, cb: CallbackKind, inherited: set<string>)
    requires MergeTerms(terms, s, cb, inherited).Ok?
    ensures |MergeTerms(terms, s, cb, inherited).value.allButtons| <= |terms|
    ensures RecordedFrom(MergeTerms(terms, s, cb, inherited).value.allButtons, terms)
  {
    if terms != [] {
      var init := terms[..|terms| - 1];
      MergeRecordsOnlyTerms(init, s, cb, inherited);
      var st := MergeTerms(init, s, cb, inherited).value;
      assert forall t :: t in init ==> t in terms;
      var all := MergeTerms(terms, s, cb, inherited).value.allButtons;
      if !Skipped(st.allButtons, terms[|terms| - 1], inherited) {
        assert all[..|st.allButtons|] == st.allButtons;
        assert forall i :: 0 <= i < |st.allButtons| ==> all[i] == st.allButtons[i];
      }
    }
  }

  /** The window the outcome of the search loop opens: the buttons when some
      term has one, the window without art otherwise; a failed search opens
      nothing. */
  function Shown(merged: Result<MergeState>, name: string): (r: Result<ArtSelectView>)
    ensures r.TypeError? <==> merged.TypeError?
    ensures r.Ok? ==> !r.value.NotInMonsterList? && (r.value.Window? <==> merged.value.artFound)
  {
    match merged
    case TypeError => TypeError
    case Ok(st) => Ok(if st.artFound then Window(st.allButtons, name) else EmptyWindow(name))
  }

  // ---------------------------------------------------------------------
  // What the merge guarantees.

  /** The state the search loop keeps: the used paths are exactly the paths
      of the buttons, so no path has two buttons; the ids run 1, 2, 3, ... in
      emission order; every caption is the file name of its path; `artFound`
      says some term has a button; and no term is recorded twice. */
  predicate Consistent(st: MergeState, cb: CallbackKind)
  {
    var flat := AllButtonList(st.allButtons);
    && Paths(flat) == st.used
    && NoDuplicates(st.used)
    && st.lastId == |flat|
    && Numbered(flat, 0, cb)
    && (st.artFound <==> SomeButton(st.allButtons))
    && NoDuplicates(Terms(st.allButtons))
  }

  /** Button `k` has id `lastId + k + 1`, the file name of its path as caption,
      and callback `cb`. */
  predicate Numbered(bs: seq<Button>, lastId: nat, cb: CallbackKind)
  {
    forall k :: 0 <= k < |bs| ==> bs[k] == Button(lastId + k + 1, bs[k].path, GetFileName(bs[k].path), cb)
  }

  predicate SomeButton(all: seq<TermButtons>)
  {
    exists i :: 0 <= i < |all| && all[i].buttons != []
  }

  lemma PathsConcat(a: seq<Button>, b: seq<Button>)
    ensures Paths(a + b) == Paths(a) + Paths(b)
  {
    assert forall k :: 0 <= k < |a + b| ==> Paths(a + b)[k] == (Paths(a) + Paths(b))[k];
  }

  lemma NumberedConcat(a: seq<Button>, b: seq<Button>, cb: CallbackKind)
    requires Numbered(a, 0, cb) && Numbered(b, |a|, cb)
    ensures Numbered(a + b, 0, cb)
  {
    forall k | 0 <= k < |a + b|
      ensures (a + b)[k] == Button(k + 1, (a + b)[k].path, GetFileName((a + b)[k].path), cb)
    {
      if k >= |a| {
        assert (a + b)[k] == b[k - |a|];
      }
    }
  }

  lemma SomeButtonAppend(all: seq<TermButtons>, tb: TermButtons)
    ensures SomeButton(all + [tb]) <==> SomeButton(all) || tb.buttons != []
  {
    if tb.buttons != [] {
      assert (all + [tb])[|all|] == tb;
    }
    if SomeButton(all) {
      var i :| 0 <= i < |all| && all[i].buttons != [];
      assert (all + [tb])[i] == all[i];
    }
    if SomeButton(all + [tb]) {
      var i :| 0 <= i < |all + [tb]| && (all + [tb])[i].buttons != [];
      if i < |all| {
        assert all[i] == (all + [tb])[i];
      }
    }
  }

  /** Recording the buttons of a new term keeps the state consistent. */
  lemma AppendTermConsistent(st: MergeState, term: string, tokens: seq<string>, cb: CallbackKind)
    requires Consistent(st, cb) && term !in Terms(st.allButtons)
    ensures Consistent(AppendTerm(st, term, tokens, cb), cb)
  {
    var bs := ButtonsFor(tokens, st.used, st.lastId, cb);
    var tb := TermButtons(term, bs);
    var all' := st.allButtons + [tb];
    var flat := AllButtonList(st.allButtons);
    assert all'[..|all'| - 1] == st.allButtons;
    assert AllButtonList(all') == flat + bs;
    ButtonsAreNewResults(tokens, st.used, st.lastId, cb);
    PathsConcat(flat, bs);
    assert Terms(all') == Terms(st.allButtons) + [term];
    AddKeepsDistinct(Terms(st.allButtons), term);
    AddAllKeepsDistinct(st.used, tokens);
    ButtonsNumbered(tokens, st.used, st.lastId, cb);
    NumberedConcat(flat, bs, cb);
    SomeButtonAppend(st.allButtons, tb);
  }

  lemma StepConsistent(st: MergeState, term: string, s: Searcher, cb: CallbackKind, inherited: set<string>)
    requires Consistent(st, cb)
    requires MergeStep(st, term, s, cb, inherited).Ok?
    ensures Consistent(MergeStep(st, term, s, cb, inherited).value, cb)
  {
    if !Skipped(st.allButtons, term, inherited) {
      AppendTermConsistent(st, term, FindFor(s, term).value, cb);
    }
  }

  /** Every state the search loop reaches is consistent. */
  lemma {:induction false} MergeConsistent(terms: seq<string>, s: Searcher, cb: CallbackKind, inherited: set<string>)
    requires MergeTerms(terms, s, cb, inherited).Ok?
    ensures Consistent(MergeTerms(terms, s, cb, inherited).value, cb)
  {
    if terms != [] {
      var init := terms[..|terms| - 1];
      MergeConsistent(init, s, cb, inherited);
      StepConsistent(MergeTerms(init, s, cb, inherited).value, terms[|terms| - 1], s, cb, inherited);
    }
  }

  /** Once a search throws, the whole display throws. */
  lemma {:induction false} MergeFailurePersists(terms: seq<string>, n: nat, s: Searcher, cb: CallbackKind, inherited: set<string>)
    requires n <= |terms| && MergeTerms(terms[..n], s, cb, inherited).TypeError?
    ensures MergeTerms(terms, s, cb, inherited).TypeError?
  {
    if n < |terms| {
      var init := terms[..|terms| - 1];
      assert init[..n] == terms[..n];
      MergeFailurePersists(init, n, s, cb, inherited);
    } else {
      assert terms[..n] == terms;
    }
  }

  /** Later terms only append: the buttons of the terms processed so far stay
      as they are. */
  lemma {:induction false} MergeExtends(terms: seq<string>, n: nat, s: Searcher, cb: CallbackKind, inherited: set<string>)
    requires n <= |terms| && MergeTerms(terms, s, cb, inherited).Ok?
    ensures MergeTerms(terms[..n], s, cb, inherited).Ok?
    ensures var before := MergeTerms(terms[..n], s, cb, inherited).value.allButtons;
      var after := MergeTerms(terms, s, cb, inherited).value.allButtons;
      |before| <= |after| && after[..|before|] == before
  {
    if n < |terms| {
      var init := terms[..|terms| - 1];
      assert init[..n] == terms[..n];
      MergeExtends(init, n, s, cb, inherited);
      var mid := MergeTerms(init, s, cb, inherited).value;
      StepExtends(mid, terms[|terms| - 1], s, cb, inherited);
      PrefixOfPrefix(MergeTerms(terms[..n], s, cb, inherited).value.allButtons, mid.allButtons,
                     MergeTerms(terms, s, cb, inherited).value.allButtons);
    } else {
      assert terms[..n] == terms;
    }
  }

  /** One turn of the loop only appends. */
  lemma StepExtends(st: MergeState, term: string, s: Searcher, cb: CallbackKind, inherited: set<string>)
    requires MergeStep(st, term, s, cb, inherited).Ok?
    ensures var after := MergeStep(st, term, s, cb, inherited).value.allButtons;
      |st.allButtons| <= |after| && after[..|st.allButtons|] == st.allButtons
  {
  }

  lemma PrefixOfPrefix(a: seq<TermButtons>, b: seq<TermButtons>, c: seq<TermButtons>)
    requires |a| <= |b| && b[..|a|] == a
    requires |b| <= |c| && c[..|b|] == b
    ensures |a| <= |c| && c[..|a|] == a
  {
    assert c[..|a|] == c[..|b|][..|a|];
  }

  /** With the corrected test, each distinct term is recorded once, in order
      of first occurrence. */
  lemma {:induction false} MergeRecordsEachTerm(terms: seq<string>, s: Searcher, cb: CallbackKind)
    requires MergeTerms(terms, s, cb, {}).Ok?
    ensures Terms(MergeTerms(terms, s, cb, {}).value.allButtons) == AddAll([], terms)
  {
    if terms != [] {
      var init := terms[..|terms| - 1];
      MergeRecordsEachTerm(init, s, cb);
      var st := MergeTerms(init, s, cb, {}).value;
      if !Skipped(st.allButtons, terms[|terms| - 1], {}) {
        var bs := ButtonsFor(FindFor(s, terms[|terms| - 1]).value, st.used, st.lastId, cb);
        var all' := st.allButtons + [TermButtons(terms[|terms| - 1], bs)];
        assert all'[..|all'| - 1] == st.allButtons;
      }
    }
  }

  /** One more turn of the search loop, with the corrected test. */
  lemma MergePrefixStep(terms: seq<string>, i: nat, s: Searcher, cb: CallbackKind, st: MergeState)
    requires i < |terms| && MergeTerms(terms[..i], s, cb, {}) == Ok(st)
    ensures MergeTerms(terms[..i + 1], s, cb, {}) == MergeStep(st, terms[i], s, cb, {})
  {
    PrefixSnoc(terms, i);
    MergeTermsSnoc(terms[..i], terms[i], s, cb, {});
  }

  /** One turn of the search loop as `TokenVariants.SearchAll` takes it,
      when the term is searched and found: the merge of the longer list,
      the terms it records, and the term whose results were fetched last. */
  lemma SearchLoopStep(prefix: seq<string>, term: string, s: Searcher, cb: CallbackKind, st: MergeState, next: MergeState)
    requires MergeTerms(prefix, s, cb, {}) == Ok(st)
    requires Terms(st.allButtons) == AddAll([], prefix)
    requires Ok(next) == MergeStep(st, term, s, cb, {})
    ensures MergeTerms(prefix + [term], s, cb, {}) == Ok(next)
    ensures Terms(next.allButtons) == AddAll([], prefix + [term])
    ensures next.allButtons != []
    ensures term !in Terms(st.allButtons) ==> next.allButtons[|next.allButtons| - 1].term == term
  {
    MergeTermsSnoc(prefix, term, s, cb, {});
    SearchLoopTerms(prefix, term, s, cb, st, next);
  }

  /** Where the search loop stands after the first `i` terms: their merge is
      `st`, its lists are keyed by exactly those terms in first-seen order,
      and `found` holds the results of the term whose list is last. */
  ghost predicate SearchedUpTo(terms: seq<string>, i: nat, s: Searcher, cb: CallbackKind,
                               st: MergeState, found: seq<string>)
    requires i <= |terms|
  {
    && MergeTerms(terms[..i], s, cb, {}) == Ok(st)
    && Terms(st.allButtons) == AddAll([], terms[..i])
    && (st.allButtons != [] ==> FindFor(s, st.allButtons[|st.allButtons| - 1].term) == Ok(found))
  }

  /** A turn of the search loop that succeeds moves the loop on by one term;
      the results are looked up again only for a term not seen before. */
  lemma SearchLoopAdvance(terms: seq<string>, i: nat, s: Searcher, cb: CallbackKind,
                          st: MergeState, next: MergeState, found: seq<string>, found': seq<string>)
    requires i < |terms| && SearchedUpTo(terms, i, s, cb, st, found)
    requires Ok(next) == MergeStep(st, terms[i], s, cb, {})
    requires terms[i] in Terms(st.allButtons) ==> found' == found
    requires terms[i] !in Terms(st.allButtons) ==> FindFor(s, terms[i]) == Ok(found')
    ensures SearchedUpTo(terms, i + 1, s, cb, next, found')
  {
    SearchLoopStep(terms[..i], terms[i], s, cb, st, next);
    PrefixSnoc(terms, i);
    if terms[i] in Terms(st.allButtons) {
      assert next == st;
    }
  }

  lemma PrefixSnoc(terms: seq<string>, i: nat)
    requires i < |terms|
    ensures terms[..i] + [terms[i]] == terms[..i + 1]
  {
  }

  /** Once every term is merged, the loop's state is the merge of all terms
      and `found` holds the results of the last term of the list. */
  lemma SearchLoopDone(terms: seq<string>, s: Searcher, cb: CallbackKind, st: MergeState, found: seq<string>)
    requires SearchedUpTo(terms, |terms|, s, cb, st, found)
    ensures MergeTerms(terms, s, cb, {}) == Ok(st)
    ensures terms != [] ==> FindFor(s, Last(AddAll([], terms))) == Ok(found)
  {
    assert terms[..|terms|] == terms;
    assert terms != [] ==> |AddAll([], terms)| >= 1;
  }

  lemma SearchLoopTerms(prefix: seq<string>, term: string, s: Searcher, cb: CallbackKind, st: MergeState, next: MergeState)
    requires Terms(st.allButtons) == AddAll([], prefix)
    requires Ok(next) == MergeStep(st, term, s, cb, {})
    ensures Terms(next.allButtons) == AddAll([], prefix + [term])
    ensures next.allButtons != []
    ensures term !in Terms(st.allButtons) ==> next.allButtons[|next.allButtons| - 1].term == term
  {
    AddAllSnoc([], prefix, term);
    StepRecordsTerm(st, term, s, cb, next);
  }

  /** A turn of the loop with the corrected test records the term unless it
      was recorded before, and then puts it last. */
  lemma StepRecordsTerm(st: MergeState, term: string, s: Searcher, cb: CallbackKind, next: MergeState)
    requires Ok(next) == MergeStep(st, term, s, cb, {})
    ensures Terms(next.allButtons) == Add(Terms(st.allButtons), term)
    ensures next.allButtons != []
    ensures term !in Terms(st.allButtons) ==> next.allButtons[|next.allButtons| - 1].term == term
  {
    if term !in Terms(st.allButtons) {
      TermsSnoc(st.allButtons, next.allButtons[|st.allButtons|]);
    }
  }

  /** A turn of the search loop whose lookup throws makes the whole loop throw. */
  lemma SearchLoopFails(terms: seq<string>, i: nat, s: Searcher, cb: CallbackKind, st: MergeState)
    requires i < |terms| && MergeTerms(terms[..i], s, cb, {}) == Ok(st)
    requires MergeStep(st, terms[i], s, cb, {}).TypeError?
    ensures MergeTerms(terms, s, cb, {}).TypeError?
  {
    MergeTermsSnoc(terms[..i], terms[i], s, cb, {});
    PrefixSnoc(terms, i);
    MergeFailurePersists(terms, i + 1, s, cb, {});
  }

  lemma MergeTermsSnoc(terms: seq<string>, t: string, s: Searcher, cb: CallbackKind, inherited: set<string>)
    ensures MergeTerms(terms + [t], s, cb, inherited) ==
      match MergeTerms(terms, s, cb, inherited)
      case TypeError => TypeError
      case Ok(st) => MergeStep(st, t, s, cb, inherited)
  {
    assert (terms + [t])[..|terms|] == terms;
  }

  lemma TermsSnoc(all: seq<TermButtons>, tb: TermButtons)
    ensures Terms(all + [tb]) == Terms(all) + [tb.term]
  {
    assert (all + [tb])[..|all|] == all;
  }

  /** With the corrected test, the first term (the full name) gets a button
      for every one of its results, in result order. */
  lemma MergeFirstTerm(terms: seq<string>, s: Searcher, cb: CallbackKind)
    requires terms != [] && MergeTerms(terms, s, cb, {}).Ok?
    ensures var all := MergeTerms(terms, s, cb, {}).value.allButtons;
      all != [] && all[0].term == terms[0]
      && FindFor(s, terms[0]).Ok? && Paths(all[0].buttons) == FindFor(s, terms[0]).value
  {
    MergeExtends(terms, 1, s, cb, {});
    assert terms[..1] == [terms[0]];
    assert [terms[0]][..0] == [];
    assert Terms([]) == [];
    assert MergeTerms([terms[0]], s, cb, {}) == MergeStep(MergeState([], [], 0, false), terms[0], s, cb, {});
    SingleTermButtons(s, terms[0], cb);
  }

  lemma SingleTermButtons(s: Searcher, term: string, cb: CallbackKind)
    requires FindFor(s, term).Ok?
    ensures MergeTerms([term], s, cb, {}).Ok?
    ensures var all := MergeTerms([term], s, cb, {}).value.allButtons;
      |all| == 1 && all[0].term == term && Paths(all[0].buttons) == FindFor(s, term).value
  {
    var empty := MergeState([], [], 0, false);
    assert [term][..0] == [];
    assert Terms([]) == [];
    assert MergeTerms([term], s, cb, {}) == MergeStep(empty, term, s, cb, {});
    var tokens := FindFor(s, term).value;
    ButtonsAreNewResults(tokens, [], 0, cb);
    AddAllFresh([], tokens);
    assert [] + Paths(ButtonsFor(tokens, [], 0, cb)) == Paths(ButtonsFor(tokens, [], 0, cb));
  }

  /** With the corrected test, a display of at least one term throws exactly
      when `findTokens` throws: an empty cache and unparsable search paths. */
  lemma MergeFailsIffSearchFails(terms: seq<string>, s: Searcher, cb: CallbackKind)
    requires terms != []
    ensures MergeTerms(terms, s, cb, {}).TypeError? <==>
      s.cache == [] && ParseSearchPaths(s.setting).TypeError?
  {
    assert terms[..1][..0] == [];
    assert Terms([]) == [];
    if s.cache == [] && ParseSearchPaths(s.setting).TypeError? {
      MergeFailurePersists(terms, 1, s, cb, {});
    } else {
      MergeNeverFails(terms, s, cb);
    }
  }

  lemma {:induction false} MergeNeverFails(terms: seq<string>, s: Searcher, cb: CallbackKind)
    requires !(s.cache == [] && ParseSearchPaths(s.setting).TypeError?)
    ensures MergeTerms(terms, s, cb, {}).Ok?
  {
    if terms != [] {
      MergeNeverFails(terms[..|terms| - 1], s, cb);
    }
  }

  // ---------------------------------------------------------------------
  // Examples.

  /** A three-word name such as "Ancient Red Dragon" is searched as a whole,
      then by its last, middle and first word. */
  lemma ThreeWordSearchTerms(a: string, b: string, c: string, excluded: seq<string>)
    requires IsWord(a) && IsWord(b) && IsWord(c)
    requires |a| > 2 && |b| > 2 && |c| > 2
    requires ToLower(a) !in excluded && ToLower(b) !in excluded && ToLower(c) !in excluded
    ensures var name := a + " " + b + " " + c;
      SearchTerms(name, true, excluded) == [name, c, b, a]
  {
    SplitThreeWords(a, b, c);
    assert Kept(a, excluded) && Kept(b, excluded) && Kept(c, excluded);
    SearchTermsOfLongWords(a + " " + b + " " + c, [a, b, c], excluded);
    ReverseThree(a, b, c);
  }

  lemma ReverseThree(a: string, b: string, c: string)
    ensures Reverse([a, b, c]) == [c, b, a]
  {
  }

  /** When every word of a name is kept, the terms are the name and its words
      reversed. */
  lemma SearchTermsOfLongWords(name: string, words: seq<string>, excluded: seq<string>)
    requires Split(name, IsNonWordChar) == words
    requires forall i :: 0 <= i < |words| ==> Kept(words[i], excluded)
    ensures SearchTerms(name, true, excluded) == [name] + Reverse(words)
  {
    LongWordsKeepsLongWords(words, excluded);
  }

  lemma {:induction false} LongWordsKeepsLongWords(words: seq<string>, excluded: seq<string>)
    requires forall i :: 0 <= i < |words| ==> Kept(words[i], excluded)
    ensures LongWords(words, excluded) == words
  {
    if words != [] {
      var init, w := words[..|words| - 1], words[|words| - 1];
      assert forall i :: 0 <= i < |init| ==> init[i] == words[i];
      LongWordsKeepsLongWords(init, excluded);
      assert Kept(w, excluded);
      assert words == init + [w];
    }
  }

  lemma SplitThreeWords(a: string, b: string, c: string)
    requires IsWord(a) && IsWord(b) && IsWord(c)
    ensures Split(a + " " + b + " " + c, IsNonWordChar) == [a, b, c]
  {
    SplitWithoutSeparator(c, IsNonWordChar);
    SplitAtSeparator(b, ' ', c, IsNonWordChar);
    SplitAtSeparator(a, ' ', b + " " + c, IsNonWordChar);
    assert a + [' '] + (b + [' '] + c) == a + " " + b + " " + c;
  }

  /** As written, a creature called `constructor` is never searched: the
      window opens without art whatever the cache holds. */
  lemma PrototypeNameNeverSearched(s: Searcher, cb: CallbackKind, monsterNames: seq<string>, excluded: seq<string>)
    ensures Display(false, monsterNames, false, excluded, "constructor", false, cb, s, PrototypeMembers) == Ok(EmptyWindow("constructor"))
  {
    var empty := MergeState([], [], 0, false);
    assert SearchTerms("constructor", false, excluded) == ["constructor"];
    assert ["constructor"][..0] == [];
    assert "constructor" in PrototypeMembers;
    assert MergeStep(empty, "constructor", s, cb, PrototypeMembers) == Ok(empty);
    assert MergeTerms(["constructor"], s, cb, PrototypeMembers) == Ok(empty);
  }

  /** With the corrected test the same name is searched, and its art shown. */
  lemma PrototypeNameSearchedWhenCorrected(s: Searcher, cb: CallbackKind, monsterNames: seq<string>, excluded: seq<string>)
    requires s.cache != [] && exists f :: f in s.cache && FileMatches(f, SimplifyTokenName("constructor"))
    ensures var view := Display(false, monsterNames, false, excluded, "constructor", false, cb, s, {});
      view.Ok? && view.value.Window?
  {
    assert SearchTerms("constructor", false, excluded) == ["constructor"];
    var f :| f in s.cache && FileMatches(f, SimplifyTokenName("constructor"));
    CachedMatchFindsArt(s, "constructor", f, cb);
  }

  /** With the corrected test, a name some cached file matches shows art. */
  lemma CachedMatchFindsArt(s: Searcher, term: string, f: string, cb: CallbackKind)
    requires s.cache != [] && f in s.cache && FileMatches(f, SimplifyTokenName(term))
    ensures MergeTerms([term], s, cb, {}).Ok? && MergeTerms([term], s, cb, {}).value.artFound
  {
    FindInCache(s.cache, s.setting, s.browse, term);
    assert f in FindFor(s, term).value;
    SingleTermFindsArt(s, term, cb);
  }

  /** With the corrected test, a single term with results shows art. */
  lemma SingleTermFindsArt(s: Searcher, term: string, cb: CallbackKind)
    requires FindFor(s, term).Ok? && FindFor(s, term).value != []
    ensures MergeTerms([term], s, cb, {}).Ok? && MergeTerms([term], s, cb, {}).value.artFound
  {
    var empty := MergeState([], [], 0, false);
    assert [term][..0] == [];
    assert Terms([]) == [];
    var tokens := FindFor(s, term).value;
    var bs := ButtonsFor(tokens, [], 0, cb);
    ButtonsAreNewResults(tokens, [], 0, cb);
    AddAllMembers([], tokens);
    assert tokens[0] in [] + Paths(bs);
    assert MergeTerms([term], s, cb, {}) == MergeStep(empty, term, s, cb, {});
  }
}

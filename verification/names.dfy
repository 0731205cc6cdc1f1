/** Name handling of the art search: the comparison key of a name
    (`simplifyTokenName`), the file name of an asset path (`getFileName`)
    and the excluded-keyword list (`parseKeywords`). */
module Names {
  import opened Text

  /** A character that can occur in a comparison key: `[a-z0-9_]`. */
  predicate IsKeyChar(c: char)
  {
    'a' <= c <= 'z' || '0' <= c <= '9' || c == '_'
  }

  predicate IsKey(s: string)
  {
    forall i :: 0 <= i < |s| ==> IsKeyChar(s[i])
  }

  /** `simplifyTokenName`: drop every non-word character, lower-case the rest. */
  function SimplifyTokenName(name: string): (key: string)
    ensures IsKey(key)
    ensures |key| <= |name|
  {
    if name == [] then []
    else (if IsWordChar(name[0]) then [LowerChar(name[0])] else []) + SimplifyTokenName(name[1..])
  }

  /** A key is its own key. */
  lemma {:induction false} SimplifyKey(s: string)
    requires IsKey(s)
    ensures SimplifyTokenName(s) == s
  {
    if s != [] {
      SimplifyKey(s[1..]);
      assert [s[0]] + s[1..] == s;
    }
  }

  /** Simplifying twice gives the same key as simplifying once. */
  lemma {:induction false} SimplifyIdempotent(name: string)
    ensures SimplifyTokenName(SimplifyTokenName(name)) == SimplifyTokenName(name)
  {
    SimplifyKey(SimplifyTokenName(name));
  }

  /** The key of a concatenation is the concatenation of the keys. */
  lemma {:induction false} SimplifyConcat(a: string, b: string)
    ensures SimplifyTokenName(a + b) == SimplifyTokenName(a) + SimplifyTokenName(b)
  {
    if a != [] {
      assert (a + b)[1..] == a[1..] + b;
      SimplifyConcat(a[1..], b);
    } else {
      assert a + b == b;
    }
  }

  /** Punctuation does not matter: removing a non-word character keeps the key. */
  lemma SimplifyIgnoresNonWord(a: string, c: char, b: string)
    requires IsNonWordChar(c)
    ensures SimplifyTokenName(a + [c] + b) == SimplifyTokenName(a + b)
  {
    SimplifyConcat(a + [c], b);
    SimplifyConcat(a, [c]);
    SimplifyConcat(a, b);
  }

  /** Case does not matter: lower-casing first keeps the key. */
  lemma {:induction false} SimplifyIgnoresCase(name: string)
    ensures SimplifyTokenName(ToLower(name)) == SimplifyTokenName(name)
  {
    if name != [] {
      SimplifyIgnoresCase(name[1..]);
      assert ToLower(name)[1..] == ToLower(name[1..]);
    }
  }

  // ---------------------------------------------------------------------

  predicate IsPathSep(c: char)
  {
    c == '/' || c == '\\'
  }

  /** Where the last segment of a path begins: just after its last `/` or
      `\`, or at 0 when it has neither. */
  function LastSegmentStart(path: string): (k: nat)
    ensures k <= |path|
    ensures k == 0 || IsPathSep(path[k - 1])
    ensures forall j :: k <= j < |path| ==> !IsPathSep(path[j])
  {
    if path == [] then 0
    else if IsPathSep(path[|path| - 1]) then |path|
    else LastSegmentStart(path[..|path| - 1])
  }

  function Last(pieces: seq<string>): string
    requires |pieces| >= 1
  {
    pieces[|pieces| - 1]
  }

  /** Where the first `.` of `s` is, or `|s|` when it has none. */
  function DotIndex(s: string): (k: nat)
    ensures k <= |s| && (k == |s| || s[k] == '.')
  {
    if s == [] || s[0] == '.' then 0 else 1 + DotIndex(s[1..])
  }

  /** `getFileName` (with `decodeURI` taken as the identity): the last path
      segment, whether separated by `/` or `\`, up to its first dot. The
      name holds no separator and no dot, starts the last segment, and ends
      at that segment's first dot or at the end of the path. */
  function GetFileName(path: string): (name: string)
    ensures forall i :: 0 <= i < |name| ==> !IsPathSep(name[i]) && name[i] != '.'
    ensures var k := LastSegmentStart(path);
      && k + |name| <= |path| && name == path[k..k + |name|]
      && (k + |name| == |path| || path[k + |name|] == '.')
  {
    var segment := path[LastSegmentStart(path)..];
    NoDotBefore(segment);
    segment[..DotIndex(segment)]
  }

  lemma {:induction false} NoDotBefore(s: string)
    ensures forall i :: 0 <= i < DotIndex(s) ==> s[i] != '.'
  {
    if s != [] && s[0] != '.' {
      NoDotBefore(s[1..]);
    }
  }

  /** The first dot is the only position with no dot before it that holds a
      dot or is the end. */
  lemma {:induction false} DotIndexUnique(s: string, k: nat)
    requires k <= |s| && (k == |s| || s[k] == '.')
    requires forall i :: 0 <= i < k ==> s[i] != '.'
    ensures k == DotIndex(s)
  {
    if s != [] && s[0] != '.' {
      DotIndexUnique(s[1..], k - 1);
    }
  }

  /** `getFileName` as written: `path.split("\\").pop().split("/").pop().split(".")[0]`. */
  lemma GetFileNameIsSplitPop(path: string)
    ensures GetFileName(path) == Split(Last(Split(Last(Split(path, IsBackslash)), IsSlash)), IsDot)[0]
  {
    var segment := Last(Split(Last(Split(path, IsBackslash)), IsSlash));
    SegmentIsLast(path);
    var p := Split(segment, IsDot)[0];
    SplitHead(segment, IsDot);
    SplitPiecesSeparatorFree(segment, IsDot);
    assert forall i :: 0 <= i < |p| ==> segment[i] == p[i] && !IsDot(p[i]);
    DotIndexUnique(segment, |p|);
  }

  /** The last piece of a split: the suffix from `k` on, free of separators,
      preceded by one unless it is the whole string. */
  lemma LastPiece(s: string, isSep: char -> bool) returns (k: nat)
    ensures k <= |s| && Last(Split(s, isSep)) == s[k..]
    ensures forall j :: k <= j < |s| ==> !isSep(s[j])
    ensures k == 0 || isSep(s[k - 1])
  {
    SplitLast(s, isSep);
    SplitPiecesSeparatorFree(s, isSep);
    var q := Last(Split(s, isSep));
    k := |s| - |q|;
    forall j | k <= j < |s|
      ensures !isSep(s[j])
    {
      assert s[j] == q[j - k];
    }
  }

  /** The two `split(..).pop()` steps of `getFileName` leave exactly the last segment. */
  lemma SegmentIsLast(path: string)
    ensures var segment := Last(Split(Last(Split(path, IsBackslash)), IsSlash));
      segment == path[LastSegmentStart(path)..]
  {
    var k := SegmentAfterSeparators(path);
    LastSegmentUnique(path, k);
  }

  /** The two `split(..).pop()` steps leave a separator-free suffix preceded
      by a separator. */
  lemma SegmentAfterSeparators(path: string) returns (k: nat)
    ensures k <= |path| && Last(Split(Last(Split(path, IsBackslash)), IsSlash)) == path[k..]
    ensures k == 0 || IsPathSep(path[k - 1])
    ensures forall j :: k <= j < |path| ==> !IsPathSep(path[j])
  {
    var k1 := LastPiece(path, IsBackslash);
    var q1 := path[k1..];
    var k2 := LastPiece(q1, IsSlash);
    SuffixOfSuffix(path, k1, k2);
    k := k1 + k2;
    forall j | k <= j < |path|
      ensures !IsPathSep(path[j])
    {
      assert !IsBackslash(path[j]) && !IsSlash(q1[j - k1]);
    }
    if k2 > 0 {
      assert IsSlash(q1[k2 - 1]);
    } else if k1 > 0 {
      assert IsBackslash(path[k1 - 1]);
    }
  }

  /** A suffix of a suffix, with the characters of the inner one located in
      the whole string. */
  lemma SuffixOfSuffix(s: string, a: nat, b: nat)
    requires a + b <= |s|
    ensures s[a..][b..] == s[a + b..]
    ensures forall j :: a + b <= j < |s| ==> s[j] == s[a..][j - a]
    ensures b > 0 ==> s[a + b - 1] == s[a..][b - 1]
  {
  }

  /** The last segment is the only separator-free suffix preceded by a separator. */
  lemma LastSegmentUnique(path: string, k: nat)
    requires k <= |path|
    requires k == 0 || IsPathSep(path[k - 1])
    requires forall j :: k <= j < |path| ==> !IsPathSep(path[j])
    ensures k == LastSegmentStart(path)
  {
  }

  // ---------------------------------------------------------------------

  /** `parseKeywords`: the keys of the `\W`-separated words, empty ones
      dropped. Every keyword is a non-empty key, each is the key of a word of
      the list, and every word with a non-empty key contributes it. */
  function ParseKeywords(keywords: string): (r: seq<string>)
    ensures forall i :: 0 <= i < |r| ==> r[i] != "" && IsKey(r[i])
    ensures forall i :: 0 <= i < |r| ==> IsKeyOfSome(Split(keywords, IsNonWordChar), r[i])
    ensures forall w :: w in Split(keywords, IsNonWordChar) && SimplifyTokenName(w) != "" ==>
      SimplifyTokenName(w) in r
  {
    NonEmptyKeysSpec(Split(keywords, IsNonWordChar));
    NonEmptyKeys(Split(keywords, IsNonWordChar))
  }

  /** `key` is the key of one of the words. */
  ghost predicate IsKeyOfSome(pieces: seq<string>, key: string)
  {
    exists w :: w in pieces && SimplifyTokenName(w) == key
  }

  function NonEmptyKeys(pieces: seq<string>): seq<string>
  {
    if pieces == [] then []
    else
      var key := SimplifyTokenName(pieces[0]);
      var rest := NonEmptyKeys(pieces[1..]);
      if key == "" then rest else [key] + rest
  }

  lemma {:induction false} NonEmptyKeysSpec(pieces: seq<string>)
    ensures forall i :: 0 <= i < |NonEmptyKeys(pieces)| ==>
      NonEmptyKeys(pieces)[i] != "" && IsKey(NonEmptyKeys(pieces)[i])
    ensures forall i :: 0 <= i < |NonEmptyKeys(pieces)| ==> IsKeyOfSome(pieces, NonEmptyKeys(pieces)[i])
    ensures forall w :: w in pieces && SimplifyTokenName(w) != "" ==> SimplifyTokenName(w) in NonEmptyKeys(pieces)
  {
    if pieces != [] {
      NonEmptyKeysSpec(pieces[1..]);
      var r := NonEmptyKeys(pieces);
      var rest := NonEmptyKeys(pieces[1..]);
      forall i | 0 <= i < |r|
        ensures IsKeyOfSome(pieces, r[i])
      {
        if SimplifyTokenName(pieces[0]) != "" && i == 0 {
          assert pieces[0] in pieces;
        } else {
          var j := if SimplifyTokenName(pieces[0]) == "" then i else i - 1;
          assert r[i] == rest[j];
          assert IsKeyOfSome(pieces[1..], rest[j]);
          var w :| w in pieces[1..] && SimplifyTokenName(w) == rest[j];
          assert w in pieces;
        }
      }
      forall w | w in pieces && SimplifyTokenName(w) != ""
        ensures SimplifyTokenName(w) in r
      {
        if w != pieces[0] {
          assert w in pieces[1..];
        }
      }
    }
  }

  lemma SplitDefaultKeywords()
    ensures Split("and,for", IsNonWordChar) == ["and", "for"]
  {
    SplitWithoutSeparator("for", IsNonWordChar);
    SplitAtSeparator("and", ',', "for", IsNonWordChar);
    assert "and" + [','] + "for" == "and,for";
  }

  lemma DefaultKeywordsAreKeys()
    ensures SimplifyTokenName("and") == "and" && SimplifyTokenName("for") == "for"
  {
    assert IsKey("and") && IsKey("for");
    SimplifyKey("and");
    SimplifyKey("for");
  }

  /** The default excluded keywords. */
  lemma DefaultExcludedKeywords()
    ensures ParseKeywords("and,for") == ["and", "for"]
  {
    SplitDefaultKeywords();
    DefaultKeywordsAreKeys();
    assert ["for"][1..] == [];
    assert NonEmptyKeys(["for"]) == ["for"];
    assert ["and", "for"][1..] == ["for"];
    assert NonEmptyKeys(["and", "for"]) == ["and", "for"];
  }

  /** `simplifyTokenName("Orc-1") == simplifyTokenName("orc1")`. */
  lemma KeyExample()
    ensures SimplifyTokenName("Orc-1") == SimplifyTokenName("orc1") == "orc1"
  {
    SimplifyKey("orc1");
    SimplifyIgnoresNonWord("Orc", '-', "1");
    assert "Orc" + ['-'] + "1" == "Orc-1";
    assert "Orc" + "1" == "Orc1";
    SimplifyIgnoresCase("Orc1");
    assert ToLower("Orc1") == "orc1";
  }
}

/** String operations of the JavaScript standard library in the forms the
    modelled code uses them: `split` on a one-character separator,
    `includes`, `startsWith`, and the `\w` / `\W` character classes of a
    regular expression without the `u` flag. */
module Text {

  /** `\w`: ASCII letters, digits and `_`. */
  predicate IsWordChar(c: char)
  {
    'a' <= c <= 'z' || 'A' <= c <= 'Z' || '0' <= c <= '9' || c == '_'
  }

  predicate IsNonWordChar(c: char)
  {
    !IsWordChar(c)
  }

  predicate IsColon(c: char)
  {
    c == ':'
  }

  predicate IsSlash(c: char)
  {
    c == '/'
  }

  predicate IsBackslash(c: char)
  {
    c == '\\'
  }

  predicate IsDot(c: char)
  {
    c == '.'
  }

  /** Every character of `s` is a `\w` character. */
  predicate IsWord(s: string)
  {
    forall i :: 0 <= i < |s| ==> IsWordChar(s[i])
  }

  /** `toLowerCase` of one character. The model only lower-cases `\w`
      characters, which are ASCII, so the ASCII rule is the whole rule here. */
  function LowerChar(c: char): (d: char)
    ensures IsWordChar(c) ==> IsWordChar(d) && !('A' <= d <= 'Z')
    ensures !('A' <= c <= 'Z') ==> d == c
  {
    if 'A' <= c <= 'Z' then (c as int + 32) as char else c
  }

  /** `toLowerCase` of a string of `\w` characters. */
  function ToLower(s: string): (r: string)
    ensures |r| == |s|
    ensures forall i :: 0 <= i < |s| ==> r[i] == LowerChar(s[i])
  {
    if s == [] then [] else [LowerChar(s[0])] + ToLower(s[1..])
  }

  /** `s.startsWith(prefix)` */
  predicate StartsWith(s: string, prefix: string)
  {
    |prefix| <= |s| && s[..|prefix|] == prefix
  }

  /** `sub` occurs in `s` starting at index `i`. */
  predicate OccursAt(s: string, sub: string, i: int)
  {
    0 <= i <= |s| - |sub| && s[i..i + |sub|] == sub
  }

  /** `s.includes(sub)`: `sub` occurs in `s` at some position. */
  predicate Includes(s: string, sub: string)
  {
    exists i :: 0 <= i <= |s| && OccursAt(s, sub, i)
  }

  lemma IncludesEmpty(s: string)
    ensures Includes(s, "")
  {
    assert OccursAt(s, "", 0);
  }

  /** `s.split(sep)` where the separator is a single character that `isSep`
      picks out: the pieces between separators, empty ones included, at
      least one. */
  function Split(s: string, isSep: char -> bool): (pieces: seq<string>)
    ensures |pieces| >= 1
  {
    if s == [] then [[]]
    else
      var rest := Split(s[1..], isSep);
      if isSep(s[0]) then [[]] + rest else [[s[0]] + rest[0]] + rest[1..]
  }

  /** No piece of a split holds a separator. */
  lemma {:induction false} SplitPiecesSeparatorFree(s: string, isSep: char -> bool)
    ensures forall i, j :: 0 <= i < |Split(s, isSep)| && 0 <= j < |Split(s, isSep)[i]| ==>
      !isSep(Split(s, isSep)[i][j])
  {
    if s != [] {
      SplitPiecesSeparatorFree(s[1..], isSep);
      var rest := Split(s[1..], isSep);
      var pieces := Split(s, isSep);
      forall i, j | 0 <= i < |pieces| && 0 <= j < |pieces[i]|
        ensures !isSep(pieces[i][j])
      {
        if isSep(s[0]) {
          assert pieces == [[]] + rest;
          assert pieces[i][j] == rest[i - 1][j];
        } else {
          assert pieces == [[s[0]] + rest[0]] + rest[1..];
          if i > 0 {
            assert pieces[i][j] == rest[i][j];
          } else if j > 0 {
            assert pieces[0][j] == rest[0][j - 1];
          } else {
            assert pieces[0][0] == s[0];
          }
        }
      }
    }
  }

  /** The first piece of a split is the longest prefix without a separator. */
  lemma {:induction false} SplitHead(s: string, isSep: char -> bool)
    ensures var p := Split(s, isSep)[0];
      |p| <= |s| && p == s[..|p|] && (|p| == |s| || isSep(s[|p|]))
  {
    if s != [] && !isSep(s[0]) {
      SplitHead(s[1..], isSep);
      var p := Split(s[1..], isSep)[0];
      assert Split(s, isSep)[0] == [s[0]] + p;
      assert [s[0]] + s[1..][..|p|] == s[..|p| + 1];
    }
  }

  /** The last piece of a split is the longest suffix without a separator. */
  lemma {:induction false} SplitLast(s: string, isSep: char -> bool)
    ensures var pieces := Split(s, isSep);
      var q := pieces[|pieces| - 1];
      |q| <= |s| && q == s[|s| - |q|..] && (|q| == |s| || isSep(s[|s| - |q| - 1]))
      && (|pieces| == 1 ==> q == s) && (|pieces| >= 2 ==> |q| < |s|)
  {
    if s != [] {
      SplitLast(s[1..], isSep);
      var rest := Split(s[1..], isSep);
      var q' := rest[|rest| - 1];
      if isSep(s[0]) {
        assert Split(s, isSep) == [[]] + rest;
      } else if |rest| == 1 {
        assert Split(s, isSep) == [[s[0]] + rest[0]];
        assert [s[0]] + s[1..] == s;
      } else {
        assert Split(s, isSep) == [[s[0]] + rest[0]] + rest[1..];
        assert s[1..][|s| - 1 - |q'|..] == s[|s| - |q'|..];
        assert s[1..][|s| - 1 - |q'| - 1] == s[|s| - |q'| - 1];
      }
    }
  }

  /** The second piece of a split, when there is one, starts right after the
      first separator and runs to the next one. */
  lemma {:induction false} SplitSecond(s: string, isSep: char -> bool)
    requires |Split(s, isSep)| >= 2
    ensures var pieces := Split(s, isSep);
      var k := |pieces[0]|;
      k < |s| && isSep(s[k]) && pieces[1] == Split(s[k + 1..], isSep)[0]
      && |Split(s[k + 1..], isSep)| == |pieces| - 1
  {
    var rest := Split(s[1..], isSep);
    if !isSep(s[0]) {
      SplitSecond(s[1..], isSep);
      assert s[1..][|rest[0]| + 1..] == s[|rest[0]| + 2..];
    } else {
      assert s[1..] == s[0 + 1..];
    }
  }

  /** A string without separators is a single piece. */
  lemma {:induction false} SplitWithoutSeparator(w: string, isSep: char -> bool)
    requires forall i :: 0 <= i < |w| ==> !isSep(w[i])
    ensures Split(w, isSep) == [w]
  {
    if w != [] {
      SplitWithoutSeparator(w[1..], isSep);
      assert [w[0]] + w[1..] == w;
    }
  }

  /** A separator-free word followed by a separator is the first piece, and
      the rest splits on its own. */
  lemma {:induction false} SplitAtSeparator(w: string, c: char, rest: string, isSep: char -> bool)
    requires forall i :: 0 <= i < |w| ==> !isSep(w[i])
    requires isSep(c)
    ensures Split(w + [c] + rest, isSep) == [w] + Split(rest, isSep)
  {
    if w != [] {
      var s := w + [c] + rest;
      assert s[0] == w[0] && s[1..] == w[1..] + [c] + rest;
      SplitAtSeparator(w[1..], c, rest, isSep);
      assert [w[0]] + w[1..] == w;
    } else {
      assert (w + [c] + rest)[1..] == rest;
    }
  }

  /** A string holding a separator splits into at least two pieces. */
  lemma {:induction false} SplitAtLeastTwo(s: string, j: nat, isSep: char -> bool)
    requires j < |s| && isSep(s[j])
    ensures |Split(s, isSep)| >= 2
  {
    if !isSep(s[0]) {
      SplitAtLeastTwo(s[1..], j - 1, isSep);
    }
  }
}

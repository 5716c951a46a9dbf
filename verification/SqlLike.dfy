/** SQLite's LIKE without an ESCAPE clause, and what a search for `%text%` means. */
module SqlLike {

  /** LIKE folds ASCII letters only. */
  function Fold(c: char): char {
    if 'A' <= c <= 'Z' then (c as int + 32) as char else c
  }

  predicate Like(pattern: string, s: string)
    decreases |pattern| + |s|
  {
    if pattern == "" then s == ""
    else if pattern[0] == '%' then Like(pattern[1..], s) || (s != "" && Like(pattern, s[1..]))
    else if pattern[0] == '_' then s != "" && Like(pattern[1..], s[1..])
    else s != "" && Fold(pattern[0]) == Fold(s[0]) && Like(pattern[1..], s[1..])
  }

  function SearchPattern(text: string): string { "%" + text + "%" }

  ghost predicate StartsWithFolded(s: string, text: string) {
    |text| <= |s| && forall k :: 0 <= k < |text| ==> Fold(s[k]) == Fold(text[k])
  }

  /** The text occurs somewhere in s, up to ASCII case. */
  ghost predicate ContainsFolded(s: string, text: string) {
    exists i :: 0 <= i <= |s| && StartsWithFolded(s[i..], text)
  }

  predicate HasWildcard(text: string) { '%' in text || '_' in text }

  /** Characters fold together when they are the same or the two cases of one ASCII letter. */
  lemma FoldMeans(c: char, d: char)
    ensures Fold(c) == Fold(d)
      <==> c == d || ('A' <= c <= 'Z' && d as int == c as int + 32) || ('A' <= d <= 'Z' && c as int == d as int + 32)
  {
  }

  // ----- LIKE without a recursion: which part of the text each pattern character covers -----

  /** A `%` covers any stretch, an `_` one character, any other character one that folds to it. */
  ghost predicate Covers(p: char, s: string, lo: int, hi: int) {
    && 0 <= lo <= hi <= |s|
    && (p != '%' ==> hi == lo + 1 && (p == '_' || Fold(p) == Fold(s[lo])))
  }

  /** The pattern's characters cover the text from cut to cut. */
  ghost predicate Aligned(pattern: string, s: string, cuts: seq<int>) {
    && |cuts| == |pattern| + 1 && cuts[0] == 0 && cuts[|pattern|] == |s|
    && forall k :: 0 <= k < |pattern| ==> Covers(pattern[k], s, cuts[k], cuts[k + 1])
  }

  lemma AlignmentOneMore(pattern: string, s: string, cuts: seq<int>, n: nat)
    requires pattern != "" && n <= |s| && Covers(pattern[0], s, 0, n) && Aligned(pattern[1..], s[n..], cuts)
    ensures Aligned(pattern, s, [0] + seq(|cuts|, i requires 0 <= i < |cuts| => cuts[i] + n))
  {
    var all := [0] + seq(|cuts|, i requires 0 <= i < |cuts| => cuts[i] + n);
    forall k | 0 <= k < |pattern|
      ensures Covers(pattern[k], s, all[k], all[k + 1])
    {
      if k > 0 {
        assert Covers(pattern[1..][k - 1], s[n..], cuts[k - 1], cuts[k]);
      }
    }
  }

  lemma {:induction false} CutsAscend(pattern: string, s: string, cuts: seq<int>, k: nat)
    requires Aligned(pattern, s, cuts) && k <= |pattern|
    ensures 0 <= cuts[k] <= |s|
    ensures k > 0 ==> cuts[1] <= cuts[k]
  {
    if k > 1 {
      CutsAscend(pattern, s, cuts, k - 1);
      assert Covers(pattern[k - 1], s, cuts[k - 1], cuts[k]);
    } else if k == 1 {
      assert Covers(pattern[0], s, cuts[0], cuts[1]);
    }
  }

  lemma AlignmentOneLess(pattern: string, s: string, cuts: seq<int>)
    requires pattern != "" && Aligned(pattern, s, cuts)
    ensures 0 <= cuts[1] <= |s| && Covers(pattern[0], s, 0, cuts[1])
    ensures Aligned(pattern[1..], s[cuts[1]..],
                    seq(|pattern|, i requires 0 <= i < |pattern| => cuts[i + 1] - cuts[1]))
  {
    var n := cuts[1];
    CutsAscend(pattern, s, cuts, 1);
    var rest := seq(|pattern|, i requires 0 <= i < |pattern| => cuts[i + 1] - n);
    forall k | 0 <= k < |pattern| - 1
      ensures Covers(pattern[1..][k], s[n..], rest[k], rest[k + 1])
    {
      CutsAscend(pattern, s, cuts, k + 1);
      assert Covers(pattern[k + 1], s, cuts[k + 1], cuts[k + 2]);
    }
  }

  lemma {:induction false} MatchIsAligned(pattern: string, s: string) returns (cuts: seq<int>)
    requires Like(pattern, s)
    ensures Aligned(pattern, s, cuts)
    decreases |pattern| + |s|
  {
    hide Aligned;
    if pattern == "" {
      cuts := [0];
      EmptyAligned();
    } else {
      var n: nat;
      n, cuts := FirstCovers(pattern, s);
      AlignmentOneMore(pattern, s, cuts, n);
      cuts := [0] + seq(|cuts|, i requires 0 <= i < |cuts| => cuts[i] + n);
    }
  }

  lemma EmptyAligned()
    ensures Aligned("", "", [0])
  {
  }

  lemma {:induction false} FirstCovers(pattern: string, s: string) returns (n: nat, cuts: seq<int>)
    requires pattern != "" && Like(pattern, s)
    ensures n <= |s| && Covers(pattern[0], s, 0, n) && Aligned(pattern[1..], s[n..], cuts)
    decreases |pattern| + |s|, 0
  {
    hide Aligned;
    if pattern[0] != '%' {
      n := 1;
      cuts := MatchIsAligned(pattern[1..], s[1..]);
    } else if Like(pattern[1..], s) {
      n := 0;
      assert s[0..] == s;
      cuts := MatchIsAligned(pattern[1..], s);
    } else {
      var m: nat;
      m, cuts := FirstCovers(pattern, s[1..]);
      n := m + 1;
      assert s[1..][m..] == s[n..];
    }
  }

  lemma {:induction false} AlignedIsMatch(pattern: string, s: string, cuts: seq<int>)
    requires Aligned(pattern, s, cuts)
    ensures Like(pattern, s)
    decreases |pattern|
  {
    hide Aligned;
    if pattern == "" {
      assert s == "" by { AlignedEmpty(s, cuts); }
    } else {
      AlignedLength(pattern, s, cuts);
      var n := cuts[1];
      AlignmentOneLess(pattern, s, cuts);
      AlignedIsMatch(pattern[1..], s[n..], seq(|pattern|, i requires 0 <= i < |pattern| => cuts[i + 1] - cuts[1]));
      if pattern[0] == '%' {
        PercentCovers(pattern, s, n);
      }
    }
  }

  lemma AlignedEmpty(s: string, cuts: seq<int>)
    requires Aligned("", s, cuts)
    ensures s == ""
  {
  }

  lemma AlignedLength(pattern: string, s: string, cuts: seq<int>)
    requires Aligned(pattern, s, cuts)
    ensures |cuts| == |pattern| + 1
  {
  }

  lemma {:induction false} PercentCovers(pattern: string, s: string, n: nat)
    requires pattern != "" && pattern[0] == '%' && n <= |s| && Like(pattern[1..], s[n..])
    ensures Like(pattern, s)
    decreases n
  {
    if n == 0 {
      assert s[0..] == s;
    } else {
      assert s[1..][n - 1..] == s[n..];
      PercentCovers(pattern, s[1..], n - 1);
    }
  }

  /** A text matches a pattern exactly when it can be cut so that each character of the pattern covers
      its piece, wherever the wildcards stand. */
  lemma LikeIsAlignment(pattern: string, s: string)
    ensures Like(pattern, s) <==> exists cuts :: Aligned(pattern, s, cuts)
  {
    hide Like, Aligned;
    if Like(pattern, s) {
      var cuts := MatchIsAligned(pattern, s);
    }
    if cuts :| Aligned(pattern, s, cuts) {
      AlignedIsMatch(pattern, s, cuts);
    }
  }

  lemma {:induction false} PercentMatchesAll(s: string)
    ensures Like("%", s)
    decreases |s|
  {
    if s == "" {
      assert Like("%"[1..], s);
    } else {
      PercentMatchesAll(s[1..]);
    }
  }

  /** The pattern matches from some place of s to its end. */
  ghost predicate MatchesBehind(pattern: string, s: string) {
    exists i :: 0 <= i <= |s| && Like(pattern, s[i..])
  }

  lemma MatchesBehindStep(pattern: string, s: string)
    requires s != ""
    ensures MatchesBehind(pattern, s) <==> Like(pattern, s) || MatchesBehind(pattern, s[1..])
  {
    hide Like;
    assert s[0..] == s;
    if MatchesBehind(pattern, s) {
      var i :| 0 <= i <= |s| && Like(pattern, s[i..]);
      assert i > 0 ==> s[1..][i - 1..] == s[i..];
    }
    if MatchesBehind(pattern, s[1..]) {
      var i :| 0 <= i <= |s[1..]| && Like(pattern, s[1..][i..]);
      assert s[1..][i..] == s[i + 1..];
    }
  }

  lemma MatchesBehindNothing(pattern: string)
    ensures MatchesBehind(pattern, "") <==> Like(pattern, "")
  {
    hide Like;
    assert ""[0..] == "";
  }

  lemma PercentStep(rest: string, s: string)
    ensures Like("%" + rest, s) <==> Like(rest, s) || (s != "" && Like("%" + rest, s[1..]))
  {
    assert ("%" + rest)[1..] == rest;
  }

  lemma {:induction false} PercentSkips(rest: string, s: string)
    ensures Like("%" + rest, s) <==> MatchesBehind(rest, s)
    decreases |s|
  {
    hide Like, MatchesBehind;
    PercentStep(rest, s);
    if s == "" {
      MatchesBehindNothing(rest);
    } else {
      PercentSkips(rest, s[1..]);
      MatchesBehindStep(rest, s);
    }
  }

  lemma {:induction false} LiteralThenPercent(text: string, s: string)
    requires !HasWildcard(text)
    ensures Like(text + "%", s) <==> StartsWithFolded(s, text)
    decreases |text|
  {
    if text == "" {
      assert text + "%" == "%";
      PercentMatchesAll(s);
    } else {
      assert text[0] in text;
      assert (text + "%")[1..] == text[1..] + "%";
      if s != "" {
        LiteralThenPercent(text[1..], s[1..]);
        assert StartsWithFolded(s, text)
          <==> Fold(s[0]) == Fold(text[0]) && StartsWithFolded(s[1..], text[1..]);
      }
    }
  }

  lemma SearchOfLiteral(text: string, s: string)
    requires !HasWildcard(text)
    ensures Like(SearchPattern(text), s) <==> ContainsFolded(s, text)
  {
    PercentSkips(text + "%", s);
    assert SearchPattern(text) == "%" + (text + "%");
    forall i | 0 <= i <= |s|
      ensures Like(text + "%", s[i..]) <==> StartsWithFolded(s[i..], text)
    {
      LiteralThenPercent(text, s[i..]);
    }
  }

  /** A string the pattern matches without containing the wildcards themselves. */
  function Instance(text: string): (s: string)
    ensures |s| <= |text|
    ensures '%' in text ==> |s| < |text|
    ensures '%' !in text ==> |s| == |text|
    ensures '%' !in text ==> forall k :: 0 <= k < |text| && text[k] == '_' ==> s[k] == 'a'
  {
    if text == "" then ""
    else if text[0] == '%' then Instance(text[1..])
    else [if text[0] == '_' then 'a' else text[0]] + Instance(text[1..])
  }

  lemma {:induction false} InstanceMatches(text: string)
    ensures Like(text + "%", Instance(text))
    decreases |text|
  {
    if text == "" {
      assert text + "%" == "%";
      PercentMatchesAll("");
    } else {
      assert (text + "%")[1..] == text[1..] + "%";
      InstanceMatches(text[1..]);
      if text[0] != '%' {
        assert Instance(text)[1..] == Instance(text[1..]);
      }
    }
  }

  lemma InstanceDoesNotContain(text: string)
    requires HasWildcard(text)
    ensures !ContainsFolded(Instance(text), text)
  {
  }

  /** With a wildcard in the text, something is found that does not contain it. */
  lemma WildcardFindsMore(text: string)
    requires HasWildcard(text)
    ensures Like(SearchPattern(text), Instance(text)) && !ContainsFolded(Instance(text), text)
  {
    InstanceMatches(text);
    PercentSkips(text + "%", Instance(text));
    assert Instance(text)[0..] == Instance(text);
    assert SearchPattern(text) == "%" + (text + "%");
    InstanceDoesNotContain(text);
  }

  /** Searching is substring search up to ASCII case exactly for texts free of `%` and `_`:
      with either wildcard some string is found that does not contain the text. */
  lemma SearchIsSubstringSearch(text: string)
    ensures (forall s :: Like(SearchPattern(text), s) <==> ContainsFolded(s, text)) <==> !HasWildcard(text)
  {
    if HasWildcard(text) {
      WildcardFindsMore(text);
    } else {
      forall s
        ensures Like(SearchPattern(text), s) <==> ContainsFolded(s, text)
      {
        SearchOfLiteral(text, s);
      }
    }
  }
}

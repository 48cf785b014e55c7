/** The pieces of ECMAScript string behaviour the blog service relies on:
    the `\s` class and `String.prototype.trim`, the global replacement of
    `/<[^>]*>/g` by the empty string, `split(/\s+/)`, `substring(0, n)` and
    the `||` fallback on strings. */
module JsString {
  import opened Wrappers
  import opened Seqs

  /** WhiteSpace and LineTerminator code points of ECMAScript: the set that
      `\s` matches, `\S` excludes and `trim` removes. */
  predicate IsSpace(c: char) {
    || c == '\t' || c == '\n' || c == '\U{000B}' || c == '\U{000C}' || c == '\r'
    || c == ' ' || c == '\U{00A0}' || c == '\U{1680}'
    || ('\U{2000}' <= c <= '\U{200A}')
    || c == '\U{2028}' || c == '\U{2029}' || c == '\U{202F}' || c == '\U{205F}'
    || c == '\U{3000}' || c == '\U{FEFF}'
  }

  predicate NoSpace(s: string) {
    forall i :: 0 <= i < |s| ==> !IsSpace(s[i])
  }

  predicate AllSpace(s: string) {
    forall i :: 0 <= i < |s| ==> IsSpace(s[i])
  }

  // ---------------------------------------------------------------------
  // trim

  /** `s` without its leading white space. */
  function TrimStart(s: string): (r: string)
    ensures |r| <= |s| && r == s[|s| - |r|..]
    ensures AllSpace(s[..|s| - |r|])
    ensures r == [] || !IsSpace(r[0])
  {
    if |s| > 0 && IsSpace(s[0]) then
      var r := TrimStart(s[1..]);
      assert s[..|s| - |r|] == [s[0]] + s[1..][..|s| - 1 - |r|];
      r
    else s
  }

  /** `s` without its trailing white space. */
  function TrimEnd(s: string): (r: string)
    ensures |r| <= |s| && r == s[..|r|]
    ensures AllSpace(s[|r|..])
    ensures r == [] || !IsSpace(r[|r| - 1])
  {
    if |s| > 0 && IsSpace(s[|s| - 1]) then
      var r := TrimEnd(s[..|s| - 1]);
      assert s[|r|..] == s[..|s| - 1][|r|..] + [s[|s| - 1]];
      r
    else s
  }

  /** `String.prototype.trim`. */
  function Trim(s: string): (r: string)
    ensures |r| <= |s|
    ensures r == [] || (!IsSpace(r[0]) && !IsSpace(r[|r| - 1]))
  {
    TrimEnd(TrimStart(s))
  }

  /** What trim keeps is one slice of `s`, and everything around it is white space. */
  lemma TrimIsSlice(s: string) returns (i: nat)
    ensures i + |Trim(s)| <= |s|
    ensures Trim(s) == s[i..i + |Trim(s)|]
    ensures AllSpace(s[..i]) && AllSpace(s[i + |Trim(s)|..])
  {
    i := SliceOfSuffix(s, TrimStart(s), Trim(s));
  }

  /** A suffix `t` of `s` after white space only, and a prefix `r` of `t`
      followed in `t` by white space only: `r` is one slice of `s`, with
      white space only on either side. */
  lemma SliceOfSuffix(s: string, t: string, r: string) returns (i: nat)
    requires |t| <= |s| && t == s[|s| - |t|..] && AllSpace(s[..|s| - |t|])
    requires |r| <= |t| && r == t[..|r|] && AllSpace(t[|r|..])
    ensures i + |r| <= |s| && r == s[i..i + |r|]
    ensures AllSpace(s[..i]) && AllSpace(s[i + |r|..])
  {
    i := |s| - |t|;
    assert t[|r|..] == s[i + |r|..];
  }

  /** `!x.trim()` holds exactly when every character of `x` is white space. */
  lemma BlankIffAllSpace(s: string)
    ensures Trim(s) == [] <==> AllSpace(s)
  {
    var i := TrimIsSlice(s);
    if Trim(s) == [] {
      forall k | 0 <= k < |s| ensures IsSpace(s[k]) {
        if k < i {
          assert s[..i][k] == s[k];
        } else {
          assert s[i..][k - i] == s[k];
        }
      }
    } else {
      var c := Trim(s)[0];
      assert c == s[i] && !IsSpace(c);
    }
  }

  lemma {:induction false} TrimStartOfTrimmed(s: string)
    requires s == [] || !IsSpace(s[0])
    ensures TrimStart(s) == s
  {
  }

  lemma {:induction false} TrimEndOfTrimmed(s: string)
    requires s == [] || !IsSpace(s[|s| - 1])
    ensures TrimEnd(s) == s
  {
  }

  /** Trimming an already trimmed string changes nothing. */
  lemma TrimIdempotent(s: string)
    ensures Trim(Trim(s)) == Trim(s)
  {
    var t := Trim(s);
    TrimStartOfTrimmed(t);
    TrimEndOfTrimmed(t);
  }

  // ---------------------------------------------------------------------
  // replace(/<[^>]*>/g, '')

  /** Position of the first `>` at or after `from`. */
  function CloseAt(s: string, from: nat): (k: nat)
    requires from <= |s| && '>' in s[from..]
    ensures from <= k < |s| && s[k] == '>'
    ensures '>' !in s[from..k]
    decreases |s| - from
  {
    if s[from] == '>' then from
    else
      assert s[from..] == [s[from]] + s[from + 1..];
      var k := CloseAt(s, from + 1);
      assert s[from..k] == [s[from]] + s[from + 1..k];
      k
  }

  /** Global replacement of `<[^>]*>` by the empty string. A match starts
      at a `<` that has some `>` after it and ends at the first such `>`;
      a `<` with no `>` anywhere after it is kept. */
  function StripTags(s: string): (r: string)
    ensures |r| <= |s|
    decreases |s|
  {
    if s == [] then []
    else if s[0] == '<' && '>' in s[1..] then StripTags(s[CloseAt(s, 1) + 1..])
    else [s[0]] + StripTags(s[1..])
  }

  /** No `<` of `t` is followed, anywhere later, by a `>`: nothing left for
      `<[^>]*>` to match. */
  predicate NoTag(t: string) {
    forall i, j :: 0 <= i < j < |t| && t[i] == '<' ==> t[j] != '>'
  }

  /** Every character of the result occurs in the input. */
  lemma {:induction false} StripTagsChars(s: string)
    ensures forall c :: c in StripTags(s) ==> c in s
    decreases |s|
  {
    if s == [] {
    } else if s[0] == '<' && '>' in s[1..] {
      var k := CloseAt(s, 1);
      StripTagsChars(s[k + 1..]);
    } else {
      StripTagsChars(s[1..]);
    }
  }

  /** The replacement only deletes characters: what is left is the input
      with some characters left out, in their order. */
  lemma {:induction false} StripTagsSubsequence(s: string)
    ensures IsSubsequence(StripTags(s), s)
    decreases |s|
  {
    if s == [] {
    } else if s[0] == '<' && '>' in s[1..] {
      var k := CloseAt(s, 1);
      StripTagsSubsequence(s[k + 1..]);
      SubsequenceOfSuffix(StripTags(s[k + 1..]), s, k + 1);
    } else {
      var r := [s[0]] + StripTags(s[1..]);
      StripTagsSubsequence(s[1..]);
      assert r[0] == s[0] && r[1..] == StripTags(s[1..]);
    }
  }

  /** The output of the replacement contains no `<…>` pair. */
  lemma {:induction false} StripTagsNoTag(s: string)
    ensures NoTag(StripTags(s))
    decreases |s|
  {
    if s == [] {
    } else if s[0] == '<' && '>' in s[1..] {
      StripTagsNoTag(s[CloseAt(s, 1) + 1..]);
    } else {
      var rest := StripTags(s[1..]);
      StripTagsNoTag(s[1..]);
      StripTagsChars(s[1..]);
      var r := [s[0]] + rest;
      forall i, j | 0 <= i < j < |r| && r[i] == '<' ensures r[j] != '>' {
        if i == 0 {
          assert r[j] == rest[j - 1] && rest[j - 1] in rest;
        } else {
          assert r[i] == rest[i - 1] && r[j] == rest[j - 1];
        }
      }
    }
  }

  /** On text without a `<…>` pair the replacement is the identity. */
  lemma {:induction false} StripTagsOfNoTag(t: string)
    requires NoTag(t)
    ensures StripTags(t) == t
    decreases |t|
  {
    if t != [] {
      if t[0] == '<' {
        forall j | 0 <= j < |t| - 1 ensures t[1..][j] != '>' {
          assert t[1..][j] == t[j + 1];
        }
      }
      assert NoTag(t[1..]) by {
        forall i, j | 0 <= i < j < |t| - 1 && t[1..][i] == '<' ensures t[1..][j] != '>' {
          assert t[1..][i] == t[i + 1] && t[1..][j] == t[j + 1];
        }
      }
      StripTagsOfNoTag(t[1..]);
    }
  }

  lemma NoTagSlice(t: string, i: nat, j: nat)
    requires NoTag(t) && i <= j <= |t|
    ensures NoTag(t[i..j])
  {
    var u := t[i..j];
    forall a, b | 0 <= a < b < |u| && u[a] == '<' ensures u[b] != '>' {
      assert u[a] == t[i + a] && u[b] == t[i + b];
    }
  }

  lemma TrimKeepsNoTag(t: string)
    requires NoTag(t)
    ensures NoTag(Trim(t))
  {
    var i := TrimIsSlice(t);
    NoTagSlice(t, i, i + |Trim(t)|);
  }

  /** `cleanHtml`: strip the tags, then trim. */
  function CleanHtml(html: string): (r: string)
    ensures NoTag(r)
    ensures r == [] || (!IsSpace(r[0]) && !IsSpace(r[|r| - 1]))
  {
    StripTagsNoTag(html);
    TrimKeepsNoTag(StripTags(html));
    Trim(StripTags(html))
  }

  /** Cleaning cleaned text changes nothing. */
  lemma CleanHtmlIdempotent(html: string)
    ensures CleanHtml(CleanHtml(html)) == CleanHtml(html)
  {
    CleanHtmlOfClean(CleanHtml(html));
  }

  /** Text without tags and without surrounding white space is clean already. */
  lemma CleanHtmlOfClean(c: string)
    requires NoTag(c) && (c == [] || (!IsSpace(c[0]) && !IsSpace(c[|c| - 1])))
    ensures CleanHtml(c) == c
  {
    StripTagsOfNoTag(c);
    TrimIdempotentOn(c);
  }

  lemma TrimIdempotentOn(c: string)
    requires c == [] || (!IsSpace(c[0]) && !IsSpace(c[|c| - 1]))
    ensures Trim(c) == c
  {
    TrimStartOfTrimmed(c);
    TrimEndOfTrimmed(c);
  }

  // ---------------------------------------------------------------------
  // split(/\s+/)

  /** Index of the first white-space character at or after `from`, or `|s|`. */
  function NextSpace(s: string, from: nat): (k: nat)
    requires from <= |s|
    ensures from <= k <= |s|
    ensures NoSpace(s[from..k])
    ensures k < |s| ==> IsSpace(s[k])
    decreases |s| - from
  {
    if from == |s| || IsSpace(s[from]) then from
    else
      var k := NextSpace(s, from + 1);
      assert s[from..k] == [s[from]] + s[from + 1..k];
      k
  }

  /** End of the run of white space starting at `from` (greedy `\s+`). */
  function RunEnd(s: string, from: nat): (k: nat)
    requires from <= |s|
    ensures from <= k <= |s|
    ensures AllSpace(s[from..k])
    ensures k < |s| ==> !IsSpace(s[k])
    decreases |s| - from
  {
    if from == |s| || !IsSpace(s[from]) then from
    else
      var k := RunEnd(s, from + 1);
      assert s[from..k] == [s[from]] + s[from + 1..k];
      k
  }

  /** `s.split(/\s+/)`: the pieces between maximal runs of white space. */
  function Split(s: string): (r: seq<string>)
    ensures |r| >= 1
    ensures forall k :: 0 <= k < |r| ==> NoSpace(r[k])
    decreases |s|
  {
    var i := NextSpace(s, 0);
    if i == |s| then
      assert s[0..|s|] == s;
      [s]
    else
      [s[..i]] + Split(s[RunEnd(s, i + 1)..])
  }

  function Concat(ss: seq<string>): string {
    if ss == [] then [] else ss[0] + Concat(ss[1..])
  }

  /** `s` with every white-space character deleted. */
  function WithoutSpace(s: string): (r: string) {
    if s == [] then []
    else if IsSpace(s[0]) then WithoutSpace(s[1..])
    else [s[0]] + WithoutSpace(s[1..])
  }

  lemma {:induction false} WithoutSpaceAppend(a: string, b: string)
    ensures WithoutSpace(a + b) == WithoutSpace(a) + WithoutSpace(b)
    decreases |a|
  {
    if a != [] {
      assert (a + b)[0] == a[0];
      assert (a + b)[1..] == a[1..] + b;
      WithoutSpaceAppend(a[1..], b);
      if !IsSpace(a[0]) {
        assert WithoutSpace(a + b) == [a[0]] + (WithoutSpace(a[1..]) + WithoutSpace(b));
      }
    } else {
      assert a + b == b;
    }
  }

  lemma {:induction false} WithoutSpaceOfNoSpace(s: string)
    requires NoSpace(s)
    ensures WithoutSpace(s) == s
    decreases |s|
  {
    if s != [] {
      WithoutSpaceOfNoSpace(s[1..]);
    }
  }

  lemma {:induction false} WithoutSpaceOfAllSpace(s: string)
    requires AllSpace(s)
    ensures WithoutSpace(s) == []
    decreases |s|
  {
    if s != [] {
      WithoutSpaceOfAllSpace(s[1..]);
    }
  }

  /** The pieces, put back together, are the input minus its white space. */
  lemma {:induction false} SplitLosesOnlySpace(s: string)
    ensures Concat(Split(s)) == WithoutSpace(s)
    decreases |s|
  {
    var i := NextSpace(s, 0);
    if i == |s| {
      SplitOfWord(s);
    } else {
      var j := RunEnd(s, i + 1);
      SplitLosesOnlySpace(s[j..]);
      SplitOfSeparated(s, i, j);
    }
  }

  /** Text with no white space splits into itself. */
  lemma SplitOfWord(s: string)
    requires NextSpace(s, 0) == |s|
    ensures Concat(Split(s)) == WithoutSpace(s)
  {
    assert s[0..|s|] == s;
    WithoutSpaceOfNoSpace(s);
    assert Concat([s]) == s + Concat([]);
  }

  /** The first piece, then the pieces after the first run of white space. */
  lemma SplitOfSeparated(s: string, i: nat, j: nat)
    requires i == NextSpace(s, 0) && i < |s| && j == RunEnd(s, i + 1)
    requires Concat(Split(s[j..])) == WithoutSpace(s[j..])
    ensures Concat(Split(s)) == WithoutSpace(s)
  {
    var r := Split(s);
    assert r == [s[..i]] + Split(s[j..]);
    assert r[1..] == Split(s[j..]);
    assert Concat(r) == s[..i] + Concat(Split(s[j..]));
    SplitPieceWithoutSpace(s, i, j);
  }

  lemma SpaceRun(s: string, i: nat, j: nat)
    requires i < j <= |s| && IsSpace(s[i]) && AllSpace(s[i + 1..j])
    ensures AllSpace(s[i..j])
  {
    var run := s[i..j];
    forall k | 0 <= k < |run| ensures IsSpace(run[k]) {
      if k > 0 {
        assert run[k] == s[i + 1..j][k - 1];
      }
    }
  }

  lemma SplitPieceWithoutSpace(s: string, i: nat, j: nat)
    requires i < j <= |s| && NoSpace(s[..i]) && IsSpace(s[i]) && AllSpace(s[i + 1..j])
    ensures WithoutSpace(s) == s[..i] + WithoutSpace(s[j..])
  {
    var a, b, c := s[..i], s[i..j], s[j..];
    SpaceRun(s, i, j);
    assert b + c == s[i..];
    assert a + s[i..] == s;
    WithoutSpaceAppend(a, b + c);
    WithoutSpaceAppend(b, c);
    WithoutSpaceOfNoSpace(a);
    WithoutSpaceOfAllSpace(b);
    assert WithoutSpace(b + c) == WithoutSpace(c);
  }

  /** For trimmed, non-empty text every piece is a non-empty word. */
  lemma {:induction false} SplitOfTrimmedHasNoEmptyPiece(s: string)
    requires s != [] && !IsSpace(s[0]) && !IsSpace(s[|s| - 1])
    ensures forall k :: 0 <= k < |Split(s)| ==> Split(s)[k] != []
    decreases |s|
  {
    var i := NextSpace(s, 0);
    if i < |s| {
      var j := RunEnd(s, i + 1);
      assert j < |s|;
      SplitOfTrimmedHasNoEmptyPiece(s[j..]);
      assert i > 0;
      var r := Split(s);
      assert r == [s[..i]] + Split(s[j..]);
      forall k | 0 <= k < |r| ensures r[k] != [] {
        if k > 0 {
          assert r[k] == Split(s[j..])[k - 1];
        }
      }
    }
  }

  /** Position `i` starts a word: a non-space character at the start of
      the text or right after white space. */
  predicate WordStart(s: string, i: nat) {
    i < |s| && !IsSpace(s[i]) && (i == 0 || IsSpace(s[i - 1]))
  }

  /** The number of word starts at or after position `k`. */
  function WordsFrom(s: string, k: nat): nat
    requires k <= |s|
    decreases |s| - k
  {
    if k == |s| then 0 else (if WordStart(s, k) then 1 else 0) + WordsFrom(s, k + 1)
  }

  /** The number of words of `s`: its maximal runs of non-space characters. */
  function Words(s: string): nat {
    WordsFrom(s, 0)
  }

  /** Positions that start no word add nothing to the count. */
  lemma {:induction false} WordsFromSkip(s: string, a: nat, b: nat)
    requires a <= b <= |s|
    requires forall k :: a <= k < b ==> !WordStart(s, k)
    ensures WordsFrom(s, a) == WordsFrom(s, b)
    decreases b - a
  {
    if a < b {
      WordsFromSkip(s, a + 1, b);
    }
  }

  /** Past its first position, a suffix has the word starts of the text. */
  lemma {:induction false} WordsFromShift(s: string, j: nat, k: nat)
    requires j < k <= |s|
    ensures WordsFrom(s, k) == WordsFrom(s[j..], k - j)
    decreases |s| - k
  {
    if k < |s| {
      assert s[j..][k - j] == s[k] && s[j..][k - j - 1] == s[k - 1];
      assert WordStart(s, k) == WordStart(s[j..], k - j);
      WordsFromShift(s, j, k + 1);
    }
  }

  /** Text without white space is one word. */
  lemma OneWord(s: string)
    requires s != [] && NoSpace(s)
    ensures Words(s) == 1
  {
    forall k | 1 <= k < |s| ensures !WordStart(s, k) {
      assert !IsSpace(s[k - 1]);
    }
    WordsFromSkip(s, 1, |s|);
  }

  /** A word `s[..i]`, then white space up to `j`, then a word starting at
      `j`: the words of `s` are one more than those of `s[j..]`. */
  lemma WordsAfterRun(s: string, i: nat, j: nat)
    requires 0 < i < j < |s| && NoSpace(s[..i]) && IsSpace(s[i]) && AllSpace(s[i + 1..j]) && !IsSpace(s[j])
    ensures Words(s) == 1 + Words(s[j..])
  {
    forall k | 1 <= k < j ensures !WordStart(s, k) {
      if k < i {
        assert s[..i][k - 1] == s[k - 1];
      } else if k > i {
        assert s[i + 1..j][k - i - 1] == s[k];
      }
    }
    WordsFromSkip(s, 1, j);
    assert s[..i][0] == s[0];
    assert s[j..][0] == s[j];
    if j - 1 > i {
      assert s[i + 1..j][j - 1 - i - 1] == s[j - 1];
    }
    assert WordStart(s, j) && WordStart(s[j..], 0);
    WordsFromShift(s, j, j + 1);
  }

  /** Splitting non-empty trimmed text gives one piece per word. */
  lemma {:induction false} SplitCountsWords(s: string)
    requires s != [] && !IsSpace(s[0]) && !IsSpace(s[|s| - 1])
    ensures |Split(s)| == Words(s)
    decreases |s|
  {
    var i := NextSpace(s, 0);
    if i == |s| {
      assert s[0..|s|] == s;
      OneWord(s);
    } else {
      var j := RunEnd(s, i + 1);
      assert j < |s|;
      assert s[j..][0] == s[j] && s[j..][|s| - j - 1] == s[|s| - 1];
      SplitCountsWords(s[j..]);
      assert i > 0;
      WordsAfterRun(s, i, j);
      assert Split(s) == [s[..i]] + Split(s[j..]);
    }
  }

  /** `SplitCountsWords` for any trimmed text, empty included. */
  lemma SplitCount(c: string)
    requires c == [] || (!IsSpace(c[0]) && !IsSpace(c[|c| - 1]))
    ensures c != [] ==> |Split(c)| == Words(c)
  {
    if c != [] {
      SplitCountsWords(c);
    }
  }

  /** `substring(0, n)`. */
  function Take(s: string, n: nat): (r: string)
    ensures |r| == if |s| < n then |s| else n
    ensures r <= s
  {
    if |s| <= n then s else s[..n]
  }

  /** `x || d` for a string `x` that may be absent: the empty string is falsy. */
  function OrElse(x: Option<string>, d: string): (r: string)
    ensures x.Some? && x.value != [] ==> r == x.value
    ensures x.None? || x.value == [] ==> r == d
  {
    if x.Some? && x.value != [] then x.value else d
  }
}

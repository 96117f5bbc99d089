/** The four rewrites `Parser::parseDocComment` applies to the raw comment
    before scanning it: drop every `/**`, drop every `*/`, turn each carriage
    return into a line feed, and collapse each line feed that is followed by
    white space, a `*` and an optional space into a bare line feed. */
module Normalizer {

  /** The number of times `c` occurs in `s`. */
  function Count(s: string, c: char): nat {
    if s == [] then 0 else (if s[0] == c then 1 else 0) + Count(s[1..], c)
  }

  /** Counting distributes over concatenation. */
  lemma {:induction false} CountConcat(a: string, b: string, c: char)
    ensures Count(a + b, c) == Count(a, c) + Count(b, c)
  {
    if a == [] {
      assert a + b == b;
    } else {
      assert (a + b)[1..] == a[1..] + b;
      CountConcat(a[1..], b, c);
    }
  }

  /** A character occurs exactly when its count is positive. */
  lemma {:induction false} CountIn(s: string, c: char)
    ensures Count(s, c) == 0 <==> c !in s
  {
    if s != [] {
      CountIn(s[1..], c);
      assert s == [s[0]] + s[1..];
    }
  }

  /** `str_replace(pat, '', s)`: the occurrences of `pat` are found left to
      right without overlapping and removed; nothing is rescanned. */
  function RemoveAll(s: string, pat: string): (r: string)
    requires |pat| > 0
    ensures |r| <= |s|
    decreases |s|
  {
    if |s| < |pat| then s
    else if s[..|pat|] == pat then RemoveAll(s[|pat|..], pat)
    else [s[0]] + RemoveAll(s[1..], pat)
  }

  /** Removing the pattern leaves the number of every other character alone. */
  lemma {:induction false} RemoveAllKeeps(s: string, pat: string, c: char)
    requires |pat| > 0 && c !in pat
    ensures Count(RemoveAll(s, pat), c) == Count(s, c)
    decreases |s|
  {
    if |s| < |pat| {
    } else if s[..|pat|] == pat {
      RemoveAllKeeps(s[|pat|..], pat, c);
      assert s == pat + s[|pat|..];
      CountConcat(pat, s[|pat|..], c);
      CountIn(pat, c);
    } else {
      RemoveAllKeeps(s[1..], pat, c);
      assert RemoveAll(s, pat) == [s[0]] + RemoveAll(s[1..], pat);
      CountConcat([s[0]], RemoveAll(s[1..], pat), c);
    }
  }

  /** The leftmost occurrence goes, and the scan resumes after it: text
      before the first occurrence is kept and the rest is removed from
      independently. */
  lemma {:induction false} RemoveConcat(a: string, b: string, pat: string)
    requires |pat| > 0 && forall i :: 0 <= i < |a| ==> !OccursAt(a + pat, pat, i)
    ensures RemoveAll(a + pat + b, pat) == a + RemoveAll(b, pat)
    decreases |a|
  {
    var s := a + pat + b;
    if a == [] {
      assert s == pat + b && s[..|pat|] == pat && s[|pat|..] == b;
    } else {
      assert RemoveAll(s, pat) == [a[0]] + RemoveAll(a[1..] + pat + b, pat) by {
        RemoveSkipsFirst(a, b, pat);
      }
      assert forall i :: 0 <= i < |a[1..]| ==> !OccursAt(a[1..] + pat, pat, i) by {
        NoOccurrenceTail(a, pat);
      }
      RemoveConcat(a[1..], b, pat);
      assert a == [a[0]] + a[1..];
    }
  }

  /** No occurrence at the start: the first character is kept. */
  lemma RemoveSkipsFirst(a: string, b: string, pat: string)
    requires |pat| > 0 && a != [] && !OccursAt(a + pat, pat, 0)
    ensures RemoveAll(a + pat + b, pat) == [a[0]] + RemoveAll(a[1..] + pat + b, pat)
  {
    var s := a + pat + b;
    assert s[..|pat|] == (a + pat)[..|pat|];
    assert s[1..] == a[1..] + pat + b;
  }

  /** The occurrences of `pat` in `a[1..] + pat` before its end are those of
      `a + pat` one position later. */
  lemma NoOccurrenceTail(a: string, pat: string)
    requires a != [] && forall i :: 0 <= i < |a| ==> !OccursAt(a + pat, pat, i)
    ensures forall i :: 0 <= i < |a[1..]| ==> !OccursAt(a[1..] + pat, pat, i)
  {
    forall i | 0 <= i < |a[1..]| ensures !OccursAt(a[1..] + pat, pat, i) {
      assert !OccursAt(a + pat, pat, i + 1);
      assert (a[1..] + pat)[i..i + |pat|] == (a + pat)[i + 1..i + 1 + |pat|];
    }
  }

  /** `pat` occurs in `s` at position `i`. */
  predicate OccursAt(s: string, pat: string, i: nat) {
    i + |pat| <= |s| && s[i..i + |pat|] == pat
  }

  /** A comment without the pattern is left as it is. */
  lemma {:induction false} RemoveAbsent(s: string, pat: string)
    requires |pat| > 0
    requires forall i: nat :: !OccursAt(s, pat, i)
    ensures RemoveAll(s, pat) == s
  {
    if |s| >= |pat| {
      assert !OccursAt(s, pat, 0);
      forall i: nat ensures !OccursAt(s[1..], pat, i) {
        assert !OccursAt(s, pat, i + 1);
        if i + |pat| <= |s| - 1 {
          assert s[1..][i..i + |pat|] == s[i + 1..i + 1 + |pat|];
        }
      }
      RemoveAbsent(s[1..], pat);
      assert [s[0]] + s[1..] == s;
    }
  }

  /** A comment that ends in the pattern, and holds its last character
      nowhere else, loses only that closing pattern. */
  lemma {:induction false} RemoveClosing(s: string, pat: string)
    requires |pat| > 0 && pat[|pat| - 1] !in s && pat[|pat| - 1] !in pat[..|pat| - 1]
    ensures RemoveAll(s + pat, pat) == s
  {
    if s == [] {
      assert s + pat == pat;
      assert pat[|pat|..] == [];
    } else {
      var t := s + pat;
      assert t[1..] == s[1..] + pat;
      RemoveClosing(s[1..], pat);
    }
  }

  /** `preg_replace('/\r|\n/', "\n", s)`: each carriage return becomes a
      line feed, one for one. */
  function LineFeeds(s: string): (r: string)
    ensures |r| == |s| && '\r' !in r
    ensures forall i :: 0 <= i < |s| ==> r[i] == if s[i] == '\r' then '\n' else s[i]
  {
    if s == [] then []
    else [if s[0] == '\r' then '\n' else s[0]] + LineFeeds(s[1..])
  }

  /** A comment without carriage returns is left as it is. */
  lemma LineFeedsNone(s: string)
    requires '\r' !in s
    ensures LineFeeds(s) == s
  {
    forall i | 0 <= i < |s| ensures LineFeeds(s)[i] == s[i] {
      assert s[i] != '\r';
    }
  }

  /** Only carriage returns and line feeds change in number. */
  lemma {:induction false} LineFeedsKeeps(s: string, c: char)
    requires c != '\r' && c != '\n'
    ensures Count(LineFeeds(s), c) == Count(s, c)
  {
    if s != [] {
      LineFeedsKeeps(s[1..], c);
      assert LineFeeds(s)[1..] == LineFeeds(s[1..]);
    }
  }

  /** PCRE's `\s` without the UTF-8 flag: space, tab, line feed, vertical
      tab, form feed and carriage return. */
  predicate IsRegexSpace(c: char) {
    c == ' ' || c == '\t' || c == '\n' || c == '\U{0B}' || c == '\U{0C}' || c == '\r'
  }

  /** The length of the longest run of `\s` characters that starts `s`. */
  function SpaceRun(s: string): (n: nat)
    ensures n <= |s|
    ensures n == |s| || !IsRegexSpace(s[n])
  {
    if s != [] && IsRegexSpace(s[0]) then 1 + SpaceRun(s[1..]) else 0
  }

  /** The run is made of `\s` characters. */
  lemma {:induction false} SpaceRunChars(s: string)
    ensures forall i :: 0 <= i < SpaceRun(s) ==> IsRegexSpace(s[i])
  {
    if s != [] && IsRegexSpace(s[0]) {
      SpaceRunChars(s[1..]);
      assert forall i :: 0 < i < SpaceRun(s) ==> s[i] == s[1..][i - 1];
    }
  }

  /** The length of the match of `\n\s+\* ?` at the start of `s`, or 0 when
      there is none. The greedy `\s+` gains nothing by backtracking, since
      the characters it would give back are not `*`. */
  function ContinuationLength(s: string): (n: nat)
    ensures n == 0 || 3 <= n <= |s|
    ensures n > 0 ==> s[0] == '\n'
  {
    if s == [] || s[0] != '\n' then 0
    else
      var k := 1 + SpaceRun(s[1..]);
      if k == 1 || k == |s| || s[k] != '*' then 0
      else if k + 1 < |s| && s[k + 1] == ' ' then k + 2
      else k + 1
  }

  /** A match is a line feed followed by `\s` characters and `*`s only. */
  lemma ContinuationChars(s: string)
    ensures forall i :: 1 <= i < ContinuationLength(s) ==> IsRegexSpace(s[i]) || s[i] == '*'
  {
    if s != [] && s[0] == '\n' {
      SpaceRunChars(s[1..]);
      assert forall i :: 1 <= i <= SpaceRun(s[1..]) ==> s[i] == s[1..][i - 1];
    }
  }

  /** A run of `\s` characters ended by a character outside `\s` is the
      longest run. */
  lemma {:induction false} SpaceRunPrefix(s: string, m: nat)
    requires m < |s| && !IsRegexSpace(s[m])
    requires forall i :: 0 <= i < m ==> IsRegexSpace(s[i])
    ensures SpaceRun(s) == m
  {
    if m > 0 {
      assert forall i :: 0 <= i < m - 1 ==> s[1..][i] == s[i + 1];
      SpaceRunPrefix(s[1..], m - 1);
    }
  }

  /** `s` starts with a line feed, then `\s` characters up to position `k`,
      where it has a `*`: the part of `\n\s+\*` before the optional blank. */
  predicate StarAfterSpaces(s: string, k: nat) {
    1 < k < |s| && s[0] == '\n' && s[k] == '*' && forall i :: 1 <= i < k ==> IsRegexSpace(s[i])
  }

  /** The length of the match that the `*` at `k` ends: the optional blank
      after it is taken when it is there. */
  function StarMatchLength(s: string, k: nat): nat {
    if k + 1 < |s| && s[k + 1] == ' ' then k + 2 else k + 1
  }

  /** Every line feed followed by a non-empty run of `\s` and a `*` starts a
      match, which takes one more blank after the `*` when there is one. */
  lemma ContinuationExact(s: string, k: nat)
    requires StarAfterSpaces(s, k)
    ensures ContinuationLength(s) == StarMatchLength(s, k)
  {
    assert forall i :: 0 <= i < k - 1 ==> s[1..][i] == s[i + 1];
    SpaceRunPrefix(s[1..], k - 1);
  }

  /** Conversely, every match is such a line feed, `\s` run and `*`. */
  lemma ContinuationShape(s: string)
    requires ContinuationLength(s) > 0
    ensures exists k :: StarAfterSpaces(s, k) && ContinuationLength(s) == StarMatchLength(s, k)
  {
    var k := 1 + SpaceRun(s[1..]);
    SpaceRunChars(s[1..]);
    assert forall i :: 1 <= i < k ==> s[i] == s[1..][i - 1];
    assert StarAfterSpaces(s, k) && ContinuationLength(s) == StarMatchLength(s, k);
  }

  /** `preg_replace('/\n\s+\* ?/', "\n", s)`: scanned left to right, each
      match is replaced by one line feed and the scan resumes after it. */
  function CollapseContinuations(s: string): (r: string)
    ensures |r| <= |s|
    decreases |s|
  {
    if s == [] then []
    else
      var n := ContinuationLength(s);
      if n == 0 then [s[0]] + CollapseContinuations(s[1..])
      else ['\n'] + CollapseContinuations(s[n..])
  }

  /** A piece that ends in a character the pattern cannot match: no match
      of `\n\s+\* ?` that starts in it runs past its end. */
  predicate Closed(a: string) {
    a != [] && !IsRegexSpace(a[|a| - 1]) && a[|a| - 1] != '*'
  }

  /** A run of `\s` that stops before the end of `a` stops at the same place
      whatever follows `a`. */
  lemma {:induction false} SpaceRunConcat(a: string, b: string)
    requires a != [] && !IsRegexSpace(a[|a| - 1])
    ensures SpaceRun(a + b) == SpaceRun(a)
  {
    if IsRegexSpace(a[0]) {
      assert |a| > 1;
      assert (a + b)[1..] == a[1..] + b;
      SpaceRunConcat(a[1..], b);
    }
  }

  /** A match that starts in a closed piece is the same match whatever
      follows the piece, and ends inside it. */
  lemma ContinuationConcat(a: string, b: string)
    requires Closed(a)
    ensures ContinuationLength(a + b) == ContinuationLength(a) < |a|
  {
    if a[0] == '\n' {
      assert |a| > 1;
      assert (a + b)[1..] == a[1..] + b;
      SpaceRunConcat(a[1..], b);
      SpaceRunChars(a[1..]);
    }
  }

  /** Collapsing works piece by piece when every piece but the last is
      closed. */
  lemma {:induction false} CollapseConcat(a: string, b: string)
    requires Closed(a)
    ensures CollapseContinuations(a + b) == CollapseContinuations(a) + CollapseContinuations(b)
    decreases |a|
  {
    var n := ContinuationLength(a);
    var k := if n == 0 then 1 else n;
    var head := if n == 0 then [a[0]] else ['\n'];
    var u, v, w := CollapseContinuations(a + b), CollapseContinuations(a[k..] + b), CollapseContinuations(a);
    var x, y := CollapseContinuations(a[k..]), CollapseContinuations(b);
    assert k <= |a| && w == head + x;
    assert u == head + v by {
      ContinuationConcat(a, b);
      DropConcat(a, b, k);
    }
    assert v == x + y by {
      if k < |a| {
        ClosedDrop(a, k);
        CollapseConcat(a[k..], b);
      } else {
        assert a[k..] + b == b && x == [];
      }
    }
    Regroup(u, v, w, head, x, y);
  }

  lemma Regroup(u: string, v: string, w: string, h: string, x: string, y: string)
    requires u == h + v && v == x + y && w == h + x
    ensures u == w + y
  {
  }

  lemma ClosedDrop(a: string, k: nat)
    requires Closed(a) && k < |a|
    ensures Closed(a[k..])
  {
    assert a[k..][|a| - k - 1] == a[|a| - 1];
  }

  lemma DropConcat(a: string, b: string, k: nat)
    requires k <= |a|
    ensures (a + b)[k..] == a[k..] + b
  {
  }

  /** A text without line feeds holds no match and is left as it is. */
  lemma {:induction false} CollapsePlain(s: string)
    requires '\n' !in s
    ensures CollapseContinuations(s) == s
  {
    if s != [] {
      assert s[0] != '\n';
      assert '\n' !in s[1..];
      CollapsePlain(s[1..]);
    }
  }

  /** Collapsing keeps every character that the pattern cannot match. */
  lemma {:induction false} CollapseKeeps(s: string, c: char)
    requires !IsRegexSpace(c) && c != '*'
    ensures Count(CollapseContinuations(s), c) == Count(s, c)
    decreases |s|
  {
    if s != [] {
      var n := ContinuationLength(s);
      if n == 0 {
        CollapseKeeps(s[1..], c);
        CountConcat([s[0]], CollapseContinuations(s[1..]), c);
      } else {
        CollapseKeeps(s[n..], c);
        CountConcat(['\n'], CollapseContinuations(s[n..]), c);
        MatchHasNone(s, c);
      }
    }
  }

  /** The text a match covers holds none of the characters it keeps. */
  lemma MatchHasNone(s: string, c: char)
    requires !IsRegexSpace(c) && c != '*'
    ensures Count(s, c) == Count(s[ContinuationLength(s)..], c)
  {
    var n := ContinuationLength(s);
    assert s == s[..n] + s[n..];
    CountConcat(s[..n], s[n..], c);
    assert c !in s[..n] by {
      ContinuationChars(s);
      assert forall i :: 0 <= i < n ==> s[..n][i] == s[i];
    }
    CountIn(s[..n], c);
  }

  /** Collapsing brings in no character that was not there. */
  lemma {:induction false} CollapseAddsNothing(s: string, c: char)
    requires c !in s
    ensures c !in CollapseContinuations(s)
    decreases |s|
  {
    if s != [] {
      var n := ContinuationLength(s);
      if n == 0 {
        CollapseAddsNothing(s[1..], c);
      } else {
        CollapseAddsNothing(s[n..], c);
      }
    }
  }

  /** The whole normalisation, in the order the parser applies it. */
  function Normalize(docComment: string): (r: string)
    ensures |r| <= |docComment|
    ensures '\r' !in r
    ensures Count(r, '@') == Count(docComment, '@')
  {
    var a := RemoveAll(docComment, "/**");
    var b := RemoveAll(a, "*/");
    var c := LineFeeds(b);
    var r := CollapseContinuations(c);
    RemoveAllKeeps(docComment, "/**", '@');
    RemoveAllKeeps(a, "*/", '@');
    LineFeedsKeeps(b, '@');
    CollapseKeeps(c, '@');
    CollapseAddsNothing(c, '\r');
    r
  }
}

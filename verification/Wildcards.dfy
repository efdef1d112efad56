/** Glob matching, file_manager.rs: what a pattern means, and the greedy
    matchers that remember only the latest star. */
module Wildcards {
  import opened Text

  // ---- Meaning of a pattern over any alphabet ------------------------------

  // `star` picks the pattern elements that stand for any run of text elements;
  // `hit` says whether any other pattern element stands for one text element.
  // Does p[j..] match t[i..]?
  predicate Match<P, T>(star: P -> bool, hit: (P, T) -> bool, p: seq<P>, t: seq<T>, j: nat, i: nat)
    requires j <= |p| && i <= |t|
    decreases |p| - j, |t| - i
  {
    if j == |p| then
      i == |t|
    else if star(p[j]) then
      Match(star, hit, p, t, j + 1, i) || (i < |t| && Match(star, hit, p, t, j, i + 1))
    else
      i < |t| && hit(p[j], t[i]) && Match(star, hit, p, t, j + 1, i + 1)
  }

  // The pattern after element j matches the text from position k.
  ghost predicate HandsOver<P, T>(star: P -> bool, hit: (P, T) -> bool, p: seq<P>, t: seq<T>, j: nat, k: nat)
    requires j < |p|
  {
    k <= |t| && Match(star, hit, p, t, j + 1, k)
  }

  // A star spans any run, including none.
  lemma {:induction false} StarSpans<P, T>(star: P -> bool, hit: (P, T) -> bool, p: seq<P>, t: seq<T>, j: nat, i: nat)
    requires j < |p| && i <= |t| && star(p[j])
    ensures Match(star, hit, p, t, j, i) <==> exists k :: i <= k && HandsOver(star, hit, p, t, j, k)
    decreases |t| - i
  {
    assert Match(star, hit, p, t, j + 1, i) ==> HandsOver(star, hit, p, t, j, i);
    if i < |t| {
      StarSpans(star, hit, p, t, j, i + 1);
    }
  }

  // A starless stretch p[j..j2] consumes exactly as many text elements.
  lemma {:induction false} StarlessStretch<P, T>(star: P -> bool, hit: (P, T) -> bool, p: seq<P>, t: seq<T>,
                                                 j: nat, j2: nat, i: nat)
    requires j <= j2 <= |p| && i <= |t|
    requires forall k :: j <= k < j2 ==> !star(p[k])
    requires Match(star, hit, p, t, j, i)
    ensures i + (j2 - j) <= |t| && Match(star, hit, p, t, j2, i + (j2 - j))
    decreases j2 - j
  {
    if j < j2 {
      StarlessStretch(star, hit, p, t, j + 1, j2, i + 1);
    }
  }

  // Why the latest star is enough: a match resuming from the earlier star `s`
  // can be taken to resume at `j` from position `i`, the first place where the
  // starless stretch between them fits.
  lemma {:induction false} LatestStarSuffices<P, T>(star: P -> bool, hit: (P, T) -> bool, p: seq<P>, t: seq<T>,
                                                    s: nat, mark: nat, j: nat, i: nat)
    requires s < j < |p| && star(p[s]) && star(p[j])
    requires mark <= i <= |t| && i - mark == j - s - 1
    requires forall k :: s < k < j ==> !star(p[k])
    requires Match(star, hit, p, t, s + 1, mark) == Match(star, hit, p, t, j, i)
    ensures Match(star, hit, p, t, s, mark) == Match(star, hit, p, t, j, i)
  {
    StarSpans(star, hit, p, t, s, mark);
    if Match(star, hit, p, t, s, mark) {
      var k :| mark <= k && HandsOver(star, hit, p, t, s, k);
      StarlessStretch(star, hit, p, t, s + 1, j, k);
      StarSpans(star, hit, p, t, j, k + (j - s - 1));
      StarSpans(star, hit, p, t, j, i);
    }
  }

  // At the end of the text only trailing stars may be left.
  lemma {:induction false} AtEnd<P, T>(star: P -> bool, hit: (P, T) -> bool, p: seq<P>, t: seq<T>, j: nat)
    requires j <= |p|
    ensures Match(star, hit, p, t, j, |t|) <==> forall k :: j <= k < |p| ==> star(p[k])
    decreases |p| - j
  {
    if j < |p| && star(p[j]) {
      AtEnd(star, hit, p, t, j + 1);
    }
  }

  lemma {:induction false} LatestStarAtEnd<P, T>(star: P -> bool, hit: (P, T) -> bool, p: seq<P>, t: seq<T>,
                                                 s: nat, mark: nat, j: nat)
    requires s < j <= |p| && star(p[s])
    requires mark <= |t| && |t| - mark == j - s - 1
    requires forall k :: s < k < j ==> !star(p[k])
    requires Match(star, hit, p, t, s + 1, mark) == Match(star, hit, p, t, j, |t|)
    ensures Match(star, hit, p, t, s, mark) == Match(star, hit, p, t, j, |t|)
  {
    StarSpans(star, hit, p, t, s, mark);
    if Match(star, hit, p, t, s, mark) {
      var k :| mark <= k && HandsOver(star, hit, p, t, s, k);
      StarlessStretch(star, hit, p, t, s + 1, j, k);
    }
  }

  // What the greedy loop knows: `s` is the latest star, if any, `mark` the text
  // position its run restarts from, and j and i the current positions.
  ghost predicate Greedy<P, T>(star: P -> bool, hit: (P, T) -> bool, p: seq<P>, t: seq<T>,
                               s: Option<nat>, mark: nat, j: nat, i: nat) {
    mark <= i <= |t| && j <= |p| &&
    match s
    case None =>
      mark == 0 && Match(star, hit, p, t, 0, 0) == Match(star, hit, p, t, j, i)
    case Some(at) =>
      at < j && star(p[at]) && i - mark == j - at - 1 &&
      (forall k :: at < k < j ==> !star(p[k])) &&
      Match(star, hit, p, t, 0, 0) == Match(star, hit, p, t, at, mark) &&
      Match(star, hit, p, t, at + 1, mark) == Match(star, hit, p, t, j, i)
  }

  lemma GreedyTakesStar<P, T>(star: P -> bool, hit: (P, T) -> bool, p: seq<P>, t: seq<T>,
                              s: Option<nat>, mark: nat, j: nat, i: nat)
    requires Greedy(star, hit, p, t, s, mark, j, i) && j < |p| && star(p[j])
    ensures Greedy(star, hit, p, t, Some(j), i, j + 1, i)
  {
    if s.Some? {
      LatestStarSuffices(star, hit, p, t, s.value, mark, j, i);
    }
  }

  lemma GreedyTakesHit<P, T>(star: P -> bool, hit: (P, T) -> bool, p: seq<P>, t: seq<T>,
                             s: Option<nat>, mark: nat, j: nat, i: nat)
    requires Greedy(star, hit, p, t, s, mark, j, i) && j < |p| && i < |t| && !star(p[j]) && hit(p[j], t[i])
    ensures Greedy(star, hit, p, t, s, mark, j + 1, i + 1)
  {
  }

  // On a mismatch the run after the star re-tries one element further; with no
  // star to fall back on there is no match.
  lemma GreedyBacktracks<P, T>(star: P -> bool, hit: (P, T) -> bool, p: seq<P>, t: seq<T>,
                               s: Option<nat>, mark: nat, j: nat, i: nat)
    requires Greedy(star, hit, p, t, s, mark, j, i) && i < |t|
    requires j < |p| ==> !star(p[j]) && !hit(p[j], t[i])
    ensures s.Some? ==> Greedy(star, hit, p, t, s, mark + 1, s.value + 1, mark + 1)
    ensures s.None? ==> !Match(star, hit, p, t, 0, 0)
  {
  }

  lemma GreedyFinishes<P, T>(star: P -> bool, hit: (P, T) -> bool, p: seq<P>, t: seq<T>,
                             s: Option<nat>, mark: nat, j: nat)
    requires Greedy(star, hit, p, t, s, mark, j, |t|)
    ensures Match(star, hit, p, t, 0, 0) <==> forall k :: j <= k < |p| ==> star(p[k])
  {
    if s.Some? {
      LatestStarAtEnd(star, hit, p, t, s.value, mark, j);
    }
    AtEnd(star, hit, p, t, j);
  }

  // Without stars a pattern matches element by element, length for length.
  lemma {:induction false} StarlessIsPointwise<P, T>(star: P -> bool, hit: (P, T) -> bool, p: seq<P>, t: seq<T>,
                                                     j: nat, i: nat)
    requires j <= |p| && i <= |t|
    requires forall k :: j <= k < |p| ==> !star(p[k])
    ensures Match(star, hit, p, t, j, i)
       <==> |p| - j == |t| - i && forall k :: j <= k < |p| ==> hit(p[k], t[k - j + i])
    decreases |p| - j
  {
    if j < |p| && i < |t| {
      StarlessIsPointwise(star, hit, p, t, j + 1, i + 1);
    }
  }

  // Matching the rest of a pattern against the rest of a text.
  lemma {:induction false} MatchShift<P, T>(star: P -> bool, hit: (P, T) -> bool, head: seq<P>, rest: seq<P>,
                                            t: seq<T>, cut: nat, j: nat, i: nat)
    requires cut <= |t| && j <= |rest| && i <= |t| - cut
    ensures Match(star, hit, head + rest, t, |head| + j, cut + i) == Match(star, hit, rest, t[cut..], j, i)
    decreases |rest| - j, |t| - i
  {
    if j < |rest| {
      if i < |t| - cut {
        MatchShift(star, hit, head, rest, t, cut, j, i + 1);
        MatchShift(star, hit, head, rest, t, cut, j + 1, i + 1);
      }
      MatchShift(star, hit, head, rest, t, cut, j + 1, i);
    }
  }

  // An element other than a star stands for exactly one text element.
  lemma MatchOne<P, T>(star: P -> bool, hit: (P, T) -> bool, one: P, rest: seq<P>, t: seq<T>)
    requires !star(one)
    ensures Match(star, hit, [one] + rest, t, 0, 0)
       <==> t != [] && hit(one, t[0]) && Match(star, hit, rest, t[1..], 0, 0)
  {
    if t != [] {
      MatchShift(star, hit, [one], rest, t, 1, 0, 0);
    }
  }

  // A star leaves some end of the text to the rest.
  lemma MatchRun<P, T>(star: P -> bool, hit: (P, T) -> bool, run: P, rest: seq<P>, t: seq<T>)
    requires star(run)
    ensures Match(star, hit, [run] + rest, t, 0, 0)
       <==> exists k :: 0 <= k <= |t| && Match(star, hit, rest, t[k..], 0, 0)
  {
    var p := [run] + rest;
    StarSpans(star, hit, p, t, 0, 0);
    forall k | 0 <= k <= |t| ensures HandsOver(star, hit, p, t, 0, k) == Match(star, hit, rest, t[k..], 0, 0) {
      MatchShift(star, hit, [run], rest, t, k, 0, 0);
    }
    if k :| 0 <= k <= |t| && Match(star, hit, rest, t[k..], 0, 0) {
      assert HandsOver(star, hit, p, t, 0, k);
    }
  }

  // ---- Name globs: `*` and `?` over characters -----------------------------

  predicate IsStar(c: char) { c == '*' }

  predicate CharHit(c: char, x: char) { c == '?' || c == x }

  predicate GlobMatches(pattern: string, text: string) {
    Match(IsStar, CharHit, pattern, text, 0, 0)
  }

  // What a pattern means, by its first character: nothing more, any run, any one
  // character, or that character itself.
  lemma GlobMeans(c: char, rest: string, text: string)
    ensures GlobMatches("", text) <==> text == ""
    ensures GlobMatches("*" + rest, text) <==> exists k :: 0 <= k <= |text| && GlobMatches(rest, text[k..])
    ensures GlobMatches("?" + rest, text) <==> text != "" && GlobMatches(rest, text[1..])
    ensures c != '*' && c != '?' ==>
              (GlobMatches([c] + rest, text) <==> text != "" && text[0] == c && GlobMatches(rest, text[1..]))
  {
    MatchRun(IsStar, CharHit, '*', rest, text);
    MatchOne(IsStar, CharHit, '?', rest, text);
    if c != '*' {
      MatchOne(IsStar, CharHit, c, rest, text);
    }
    forall k | 0 <= k <= |text|
      ensures GlobMatches(rest, text[k..]) == Match(IsStar, CharHit, rest, text[k..], 0, 0)
    {
    }
  }

  // `a?.txt` matches `ab.txt` and not `a.txt`.
  lemma QuestionMarkIsOneCharacter()
    ensures GlobMatches("a?.txt", "ab.txt") && !GlobMatches("a?.txt", "a.txt")
  {
    StarlessIsPointwise(IsStar, CharHit, "a?.txt", "ab.txt", 0, 0);
    StarlessIsPointwise(IsStar, CharHit, "a?.txt", "a.txt", 0, 0);
  }

  predicate HasWildcard(s: string) {
    exists k :: 0 <= k < |s| && (s[k] == '*' || s[k] == '?')
  }

  method GlobGreedy(p: string, t: string) returns (matched: bool)
    ensures matched == GlobMatches(p, t)
  {
    var m, n := |p|, |t|;
    var i: nat, j: nat := 0, 0;
    var star: Option<nat> := None;
    var mark: nat := 0;
    while i < n
      invariant Greedy(IsStar, CharHit, p, t, star, mark, j, i)
      decreases n - mark, m - j
    {
      if j < m && p[j] == '*' {
        GreedyTakesStar(IsStar, CharHit, p, t, star, mark, j, i);
        star := Some(j);
        j := j + 1;
        mark := i;
      } else if j < m && (p[j] == '?' || p[j] == t[i]) {
        GreedyTakesHit(IsStar, CharHit, p, t, star, mark, j, i);
        i := i + 1;
        j := j + 1;
      } else {
        GreedyBacktracks(IsStar, CharHit, p, t, star, mark, j, i);
        if star.None? {
          return false;
        }
        j := star.value + 1;
        mark := mark + 1;
        i := mark;
      }
    }
    GreedyFinishes(IsStar, CharHit, p, t, star, mark, j);
    ghost var tail := j;
    while j < m && p[j] == '*'
      invariant tail <= j <= m
      invariant forall k :: tail <= k < j ==> IsStar(p[k])
    {
      j := j + 1;
    }
    return j == m;
  }

  // The three fast paths, each against the meaning of the pattern.
  lemma LiteralFastPath(pattern: string, text: string)
    requires !HasWildcard(pattern)
    ensures GlobMatches(pattern, text) <==> pattern == text
  {
    StarlessIsPointwise(IsStar, CharHit, pattern, text, 0, 0);
  }

  lemma SuffixFastPath(suffix: string, text: string)
    requires !HasWildcard(suffix)
    ensures GlobMatches("*" + suffix, text) <==> |suffix| <= |text| && text[|text| - |suffix|..] == suffix
  {
    var p := "*" + suffix;
    StarSpans(IsStar, CharHit, p, text, 0, 0);
    forall k | 0 <= k <= |text|
      ensures HandsOver(IsStar, CharHit, p, text, 0, k) <==> text[k..] == suffix
    {
      StarlessIsPointwise(IsStar, CharHit, p, text, 1, k);
      if HandsOver(IsStar, CharHit, p, text, 0, k) {
        forall x | 0 <= x < |suffix| ensures text[k..][x] == suffix[x] {
          assert CharHit(p[x + 1], text[x + 1 - 1 + k]) && p[x + 1] == suffix[x];
        }
      }
      if text[k..] == suffix {
        forall x | 1 <= x < |p| ensures CharHit(p[x], text[x - 1 + k]) {
          assert text[k..][x - 1] == suffix[x - 1];
        }
      }
    }
    if |suffix| <= |text| && text[|text| - |suffix|..] == suffix {
      assert HandsOver(IsStar, CharHit, p, text, 0, |text| - |suffix|);
    }
  }

  lemma PrefixFastPath(prefix: string, text: string)
    requires !HasWildcard(prefix)
    ensures GlobMatches(prefix + "*", text) <==> prefix <= text
  {
    var p := prefix + "*";
    if GlobMatches(p, text) {
      StarlessStretch(IsStar, CharHit, p, text, 0, |prefix|, 0);
      PrefixAgrees(p, text, |prefix|, 0);
    }
    if prefix <= text {
      StarSpans(IsStar, CharHit, p, text, |prefix|, |prefix|);
      assert HandsOver(IsStar, CharHit, p, text, |prefix|, |text|);
      PrefixBuilds(p, text, |prefix|, 0);
    }
  }

  lemma {:induction false} PrefixAgrees(p: string, t: string, len: nat, j: nat)
    requires j <= len <= |p| && j <= |t| && Match(IsStar, CharHit, p, t, j, j)
    requires forall k :: j <= k < len ==> p[k] != '*' && p[k] != '?'
    ensures len <= |t| && forall k :: j <= k < len ==> p[k] == t[k]
    decreases len - j
  {
    if j < len {
      PrefixAgrees(p, t, len, j + 1);
    }
  }

  lemma {:induction false} PrefixBuilds(p: string, t: string, len: nat, j: nat)
    requires j <= len <= |p| && len <= |t| && Match(IsStar, CharHit, p, t, len, len)
    requires forall k :: j <= k < len ==> p[k] != '*' && p[k] == t[k]
    ensures Match(IsStar, CharHit, p, t, j, j)
    decreases len - j
  {
    if j < len {
      PrefixBuilds(p, t, len, j + 1);
    }
  }

  method GlobMatch(pattern: string, text: string) returns (matched: bool)
    ensures matched == GlobMatches(pattern, text)
  {
    if !HasWildcard(pattern) {
      LiteralFastPath(pattern, text);
      return pattern == text;
    }
    if |pattern| > 0 && pattern[0] == '*' && !HasWildcard(pattern[1..]) {
      var suffix := pattern[1..];
      SuffixFastPath(suffix, text);
      assert pattern == "*" + suffix;
      return |suffix| <= |text| && text[|text| - |suffix|..] == suffix;
    }
    if |pattern| > 0 && pattern[|pattern| - 1] == '*' && !HasWildcard(pattern[..|pattern| - 1]) {
      var prefix := pattern[..|pattern| - 1];
      PrefixFastPath(prefix, text);
      assert pattern == prefix + "*";
      return prefix <= text;
    }
    matched := GlobGreedy(pattern, text);
  }

  // ---- Path globs: `**` over path segments ---------------------------------

  predicate IsDoubleStar(segment: string) { segment == "**" }

  predicate SegmentsMatch(p: seq<string>, t: seq<string>) {
    Match(IsDoubleStar, GlobMatches, p, t, 0, 0)
  }

  method SegmentsGreedy(p: seq<string>, t: seq<string>) returns (matched: bool)
    ensures matched == SegmentsMatch(p, t)
  {
    var m, n := |p|, |t|;
    var i: nat, j: nat := 0, 0;
    var star: Option<nat> := None;
    var mark: nat := 0;
    while i < n
      invariant Greedy(IsDoubleStar, GlobMatches, p, t, star, mark, j, i)
      decreases n - mark, m - j
    {
      var hit := false;
      if j < m && p[j] != "**" {
        hit := GlobMatch(p[j], t[i]);
      }
      if j < m && p[j] == "**" {
        GreedyTakesStar(IsDoubleStar, GlobMatches, p, t, star, mark, j, i);
        star := Some(j);
        j := j + 1;
        mark := i;
      } else if j < m && hit {
        GreedyTakesHit(IsDoubleStar, GlobMatches, p, t, star, mark, j, i);
        i := i + 1;
        j := j + 1;
      } else {
        GreedyBacktracks(IsDoubleStar, GlobMatches, p, t, star, mark, j, i);
        if star.None? {
          return false;
        }
        j := star.value + 1;
        mark := mark + 1;
        i := mark;
      }
    }
    GreedyFinishes(IsDoubleStar, GlobMatches, p, t, star, mark, j);
    ghost var tail := j;
    while j < m && p[j] == "**"
      invariant tail <= j <= m
      invariant forall k :: tail <= k < j ==> IsDoubleStar(p[k])
    {
      j := j + 1;
    }
    return j == m;
  }

  predicate IsSeparator(c: char) { c == '/' || c == '\\' }

  predicate IsPathPattern(pattern: string) {
    exists k :: 0 <= k < |pattern| && IsSeparator(pattern[k])
  }

  function DropLeading(pieces: seq<string>): seq<string> {
    if pieces != [] && pieces[0] == "" then pieces[1..] else pieces
  }

  function OpenTrailing(pieces: seq<string>): seq<string> {
    if pieces != [] && pieces[|pieces| - 1] == "" then pieces[..|pieces| - 1] + ["**"] else pieces
  }

  function PatternSegments(pattern: string): seq<string> {
    OpenTrailing(DropLeading(SplitBy(pattern, IsSeparator)))
  }

  predicate PathGlobMatches(pattern: string, path: string) {
    SegmentsMatch(PatternSegments(pattern), Split(path))
  }

  predicate IgnoreGlobMatches(pattern: string, name: string, relative: string) {
    if IsPathPattern(pattern) then PathGlobMatches(pattern, relative) else GlobMatches(pattern, name)
  }

  method PathGlobMatch(pattern: string, path: string) returns (matched: bool)
    ensures matched == PathGlobMatches(pattern, path)
  {
    var segments := SplitBy(pattern, IsSeparator);
    if |segments| > 0 && segments[0] == "" {
      segments := segments[1..];
    }
    if |segments| > 0 && segments[|segments| - 1] == "" {
      segments := segments[..|segments| - 1];
      segments := segments + ["**"];
    }
    matched := SegmentsGreedy(segments, Split(path));
  }

  method IgnoreGlobMatch(pattern: string, name: string, relative: string) returns (matched: bool)
    ensures matched == IgnoreGlobMatches(pattern, name, relative)
  {
    if IsPathPattern(pattern) {
      matched := PathGlobMatch(pattern, relative);
    } else {
      matched := GlobMatch(pattern, name);
    }
  }

  lemma TrailingPieces(pieces: seq<string>)
    requires pieces != []
    ensures OpenTrailing(DropLeading(pieces + [""])) == OpenTrailing(DropLeading(pieces + ["**"]))
  {
  }

  lemma TrailingSegments(body: string, c: char)
    requires IsSeparator(c)
    ensures PatternSegments(body + [c]) == PatternSegments(body + [c] + "**")
  {
    SplitAt(body, c, "", IsSeparator);
    SplitAt(body, c, "**", IsSeparator);
    SplitPlain("", IsSeparator);
    SplitPlain("**", IsSeparator);
    assert body + [c] + "" == body + [c];
    TrailingPieces(SplitBy(body, IsSeparator));
  }

  // A trailing separator is a final `**`, on every pattern.
  lemma TrailingSeparatorIsDoubleStar(body: string, c: char, path: string)
    requires IsSeparator(c)
    ensures PathGlobMatches(body + [c], path) == PathGlobMatches(body + [c] + "**", path)
  {
    TrailingSegments(body, c);
  }

  // A leading separator says only that matching starts at the root, where it
  // starts anyway: it changes nothing unless what follows is itself empty or
  // starts with a separator.
  lemma LeadingSeparatorAnchors(c: char, body: string, path: string)
    requires IsSeparator(c) && body != "" && !IsSeparator(body[0])
    ensures PathGlobMatches([c] + body, path) == PathGlobMatches(body, path)
  {
  }

  // `**` spans any run of directories, and what it leaves is matched whole.
  lemma DoubleStarSpansSegments(rest: seq<string>, t: seq<string>)
    ensures SegmentsMatch(["**"] + rest, t) <==> exists k :: 0 <= k <= |t| && SegmentsMatch(rest, t[k..])
  {
    MatchRun(IsDoubleStar, GlobMatches, "**", rest, t);
    forall k | 0 <= k <= |t|
      ensures SegmentsMatch(rest, t[k..]) == Match(IsDoubleStar, GlobMatches, rest, t[k..], 0, 0)
    {
    }
  }

  // Any other segment is a name glob for one segment, and no segments match none.
  lemma SegmentMatchesOne(segment: string, rest: seq<string>, t: seq<string>)
    ensures SegmentsMatch([], t) <==> t == []
    ensures segment != "**" ==>
              (SegmentsMatch([segment] + rest, t)
               <==> t != [] && GlobMatches(segment, t[0]) && SegmentsMatch(rest, t[1..]))
  {
    if segment != "**" {
      MatchOne(IsDoubleStar, GlobMatches, segment, rest, t);
    }
  }

  // A pattern of several segments, none empty at either end, is matched segment
  // by segment against the relative path, whatever the name.
  lemma PathPatternMatchesSegments(pattern: string, pieces: seq<string>, name: string, relative: string)
    requires SplitBy(pattern, IsSeparator) == pieces && |pieces| > 1
    requires pieces[0] != "" && pieces[|pieces| - 1] != ""
    ensures IgnoreGlobMatches(pattern, name, relative) <==> SegmentsMatch(pieces, Split(relative))
  {
    hide SplitBy, SegmentsMatch, Split, GlobMatches;
    if !IsPathPattern(pattern) {
      SplitPlain(pattern, IsSeparator);
    }
  }

  // `**/skip.txt` ignores `skip.txt` at the root and below any directory.
  lemma SkipFileIsIgnored(name: string)
    ensures IgnoreGlobMatches("**/skip.txt", name, "skip.txt")
    ensures IgnoreGlobMatches("**/skip.txt", name, "a/skip.txt")
  {
    hide SegmentsMatch, IgnoreGlobMatches, Split, SplitBy;
    SkipPieces();
    SplitSkip();
    PathPatternMatchesSegments("**/skip.txt", ["**", "skip.txt"], name, "skip.txt");
    PathPatternMatchesSegments("**/skip.txt", ["**", "skip.txt"], name, "a/skip.txt");
    EndsIn("skip.txt", [], ["skip.txt"]);
    EndsIn("skip.txt", ["a"], ["a", "skip.txt"]);
  }

  lemma SkipPieces()
    ensures SplitBy("**/skip.txt", IsSeparator) == ["**", "skip.txt"]
  {
    hide SplitBy;
    assert "**/skip.txt" == "**" + ['/'] + "skip.txt";
    SplitAt("**", '/', "skip.txt", IsSeparator);
    SplitPlain("**", IsSeparator);
    SplitPlain("skip.txt", IsSeparator);
  }

  lemma EndsIn(file: string, dirs: seq<string>, t: seq<string>)
    requires !HasWildcard(file) && t == dirs + [file]
    ensures SegmentsMatch(["**", file], t)
  {
    hide SegmentsMatch, GlobMatches;
    LiteralFastPath(file, file);
    assert "**"[0] == '*' && HasWildcard("**");
    SegmentMatchesOne(file, [], [file]);
    SegmentMatchesOne(file, [], []);
    assert [file] + [] == [file] && [file][1..] == [];
    DoubleStarSpansSegments([file], t);
    assert t[|dirs|..] == [file];
    assert ["**"] + [file] == ["**", file];
  }

  lemma SplitSkip()
    ensures Split("skip.txt") == ["skip.txt"] && Split("a/skip.txt") == ["a", "skip.txt"]
  {
    hide SplitBy;
    SplitPlain("skip.txt", IsSlash);
    SplitPlain("a", IsSlash);
    assert "a/skip.txt" == "a" + ['/'] + "skip.txt";
    SplitAt("a", '/', "skip.txt", IsSlash);
  }

  // Without `**`, `*` and `?` stay inside one segment: depth must agree.
  lemma WithoutDoubleStarDepthAgrees(p: seq<string>, t: seq<string>)
    requires forall k :: 0 <= k < |p| ==> p[k] != "**"
    ensures SegmentsMatch(p, t) <==> |p| == |t| && forall k :: 0 <= k < |p| ==> GlobMatches(p[k], t[k])
  {
    StarlessIsPointwise(IsDoubleStar, GlobMatches, p, t, 0, 0);
  }
}

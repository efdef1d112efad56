/** Directory matching, path_match.rs: the substring scan that decides whether a
    file lies under a type's `path`, against lists of path segments. */
module PathSegments {
  import opened Text

  // ---- What the scan decides ------------------------------------------------

  predicate At(h: string, n: string, i: nat) {
    i + |n| <= |h| && h[i..i + |n|] == n
  }

  // An occurrence cut off by separators or the ends of the path.
  predicate Bounded(h: string, n: string, i: nat) {
    At(h, n, i) && (i == 0 || h[i - 1] == '/') && (i + |n| == |h| || h[i + |n|] == '/')
  }

  ghost predicate RunAt(all: seq<string>, run: seq<string>, k: nat) {
    k + |run| <= |all| && all[k..k + |run|] == run
  }

  // `run` occurs in `all` as consecutive elements.
  ghost predicate IsRun(all: seq<string>, run: seq<string>) {
    exists k: nat :: RunAt(all, run, k)
  }

  ghost predicate IsTail(all: seq<string>, run: seq<string>) {
    |run| <= |all| && all[|all| - |run|..] == run
  }

  // ---- From positions to segment lists --------------------------------------

  // What stands left of position i, as segments; nothing at the start.
  function Before(h: string, i: nat): seq<string>
    requires i <= |h|
  {
    if i == 0 then [] else Split(h[..i - 1])
  }

  function After(h: string, i: nat): seq<string>
    requires i <= |h|
  {
    if i == |h| then [] else Split(h[i + 1..])
  }

  lemma FrontSplits(h: string, n: string, i: nat)
    requires Bounded(h, n, i)
    ensures Split(h[..i + |n|]) == Before(h, i) + Split(n)
  {
    hide SplitBy;
    if i > 0 {
      var left := h[..i - 1];
      assert h[..i + |n|] == left + ['/'] + n;
      SplitAt(left, '/', n, IsSlash);
    } else {
      assert h[..i + |n|] == n;
    }
  }

  lemma BackSplits(h: string, e: nat)
    requires e <= |h| && (e == |h| || h[e] == '/')
    ensures Split(h) == Split(h[..e]) + After(h, e)
  {
    hide SplitBy;
    if e < |h| {
      assert h == h[..e] + ['/'] + h[e + 1..];
      SplitAt(h[..e], '/', h[e + 1..], IsSlash);
    } else {
      assert h == h[..e];
    }
  }

  lemma BoundedSplits(h: string, n: string, i: nat)
    requires Bounded(h, n, i)
    ensures Split(h) == Before(h, i) + Split(n) + After(h, i + |n|)
  {
    hide Split, Before, After;
    FrontSplits(h, n, i);
    BackSplits(h, i + |n|);
  }

  // What joining puts before and after a run in the middle.
  function Prefixed(left: seq<string>): string { if left == [] then "" else Join(left) + "/" }

  function Suffixed(right: seq<string>): string { if right == [] then "" else "/" + Join(right) }

  lemma JoinAround(left: seq<string>, run: seq<string>, right: seq<string>)
    requires run != []
    ensures Join(left + run + right) == Prefixed(left) + Join(run) + Suffixed(right)
  {
    hide Join;
    if right == [] {
      assert left + run + right == left + run;
    } else {
      JoinConcat(left + run, right);
    }
    if left == [] {
      assert left + run == run;
    } else {
      JoinConcat(left, run);
    }
  }

  lemma BoundedBetween(left: string, n: string, right: string)
    requires left == "" || left[|left| - 1] == '/'
    requires right == "" || right[0] == '/'
    ensures Bounded(left + n + right, n, |left|)
  {
  }

  lemma RunIsBounded(h: string, n: string, k: nat)
    requires RunAt(Split(h), Split(n), k)
    ensures exists i: nat :: Bounded(h, n, i)
    ensures k + |Split(n)| == |Split(h)| ==> exists i: nat :: Bounded(h, n, i) && i + |n| == |h|
  {
    hide SplitBy, Join, Bounded, Split;
    var all, run := Split(h), Split(n);
    var left, right := all[..k], all[k + |run|..];
    SplitPieces(h);
    SplitPieces(n);
    assert all == left + run + right;
    JoinAround(left, run, right);
    BoundedBetween(Prefixed(left), n, Suffixed(right));
    assert Bounded(h, n, |Prefixed(left)|);
  }

  // A bounded occurrence is a run of whole segments, and the other way round.
  lemma BoundedIsRun(h: string, n: string)
    ensures (exists i: nat :: Bounded(h, n, i)) <==> IsRun(Split(h), Split(n))
  {
    hide Split;
    if i: nat :| Bounded(h, n, i) {
      BoundedSplits(h, n, i);
      assert RunAt(Split(h), Split(n), |Before(h, i)|);
    }
    if k: nat :| RunAt(Split(h), Split(n), k) {
      RunIsBounded(h, n, k);
    }
  }

  // ---- The scan --------------------------------------------------------------

  // `str::find` from `start`: the first occurrence of `n`, if any.
  method FindFrom(h: string, n: string, start: nat) returns (pos: Option<nat>)
    requires start <= |h|
    ensures pos.None? ==> forall i: nat :: start <= i ==> !At(h, n, i)
    ensures pos.Some? ==> start <= pos.value && At(h, n, pos.value)
    ensures pos.Some? ==> forall i: nat :: start <= i < pos.value ==> !At(h, n, i)
  {
    var i := start;
    while i + |n| <= |h|
      invariant start <= i
      invariant forall k: nat :: start <= k < i ==> !At(h, n, k)
    {
      if h[i..i + |n|] == n {
        return Some(i);
      }
      i := i + 1;
    }
    return None;
  }

  method PathContainsSegment(haystack: string, needle: string) returns (found: bool)
    ensures found <==> needle == "" || IsRun(Split(haystack), Split(needle))
  {
    hide Split, IsRun;
    if needle == "" {
      return true;
    }
    BoundedIsRun(haystack, needle);
    var start := 0;
    var pos := FindFrom(haystack, needle, start);
    while pos.Some?
      invariant start <= |haystack|
      invariant forall i: nat :: i < start ==> !Bounded(haystack, needle, i)
      invariant pos.Some? ==> start <= pos.value && At(haystack, needle, pos.value)
      invariant forall i: nat :: start <= i && (pos.Some? ==> i < pos.value) ==> !At(haystack, needle, i)
      decreases |haystack| - start, pos.Some?
    {
      var abs := pos.value;
      var leftOk := abs == 0 || haystack[abs - 1] == '/';
      var right := abs + |needle|;
      var rightOk := right == |haystack| || haystack[right] == '/';
      if leftOk && rightOk {
        assert Bounded(haystack, needle, abs);
        return true;
      }
      start := abs + 1;
      if start >= |haystack| {
        break;
      }
      pos := FindFrom(haystack, needle, start);
    }
    return false;
  }

  // The strict form: the file sits directly in the pattern's directory.
  predicate EndsWithSegments(dir: string, pattern: string) {
    dir == pattern
    || (|dir| > |pattern| && dir[|dir| - |pattern|..] == pattern && dir[|dir| - |pattern| - 1] == '/')
  }

  method DirMatchesPattern(dir: string, pattern: string, strict: bool) returns (found: bool)
    ensures strict ==> (found <==> IsTail(Split(dir), Split(pattern)))
    ensures !strict ==> (found <==> pattern == "" || IsRun(Split(dir), Split(pattern)))
  {
    if strict {
      StrictIsTail(dir, pattern);
      return EndsWithSegments(dir, pattern);
    } else {
      found := PathContainsSegment(dir, pattern);
    }
  }

  lemma StrictIsTail(dir: string, pattern: string)
    ensures EndsWithSegments(dir, pattern) <==> IsTail(Split(dir), Split(pattern))
  {
    hide Split;
    if EndsWithSegments(dir, pattern) {
      var i := |dir| - |pattern|;
      assert dir[i..i + |pattern|] == pattern;
      BoundedSplits(dir, pattern, i);
      assert Split(dir) == Before(dir, i) + Split(pattern);
    }
    if IsTail(Split(dir), Split(pattern)) {
      var k := |Split(dir)| - |Split(pattern)|;
      assert RunAt(Split(dir), Split(pattern), k);
      RunIsBounded(dir, pattern, k);
      var i: nat :| Bounded(dir, pattern, i) && i + |pattern| == |dir|;
      assert dir[i..] == pattern;
    }
  }

  // Whatever the strict test accepts, the loose one accepts: on every input,
  // the empty pattern included.
  lemma StrictImpliesLoose(dir: string, pattern: string)
    requires EndsWithSegments(dir, pattern)
    ensures pattern == "" || IsRun(Split(dir), Split(pattern))
    ensures IsTail(Split(dir), Split(pattern))
  {
    StrictIsTail(dir, pattern);
    assert RunAt(Split(dir), Split(pattern), |Split(dir)| - |Split(pattern)|);
  }

  // The one input on which the scan is wider than segment containment: an empty
  // needle is found in every path, though a path need not have an empty segment.
  lemma EmptyNeedleNeedNotBeARun(path: string)
    requires path != "" && Plain(path)
    ensures !IsRun(Split(path), Split(""))
  {
    SplitPlain(path, IsSlash);
    SplitPlain("", IsSlash);
    if k: nat :| RunAt(Split(path), Split(""), k) {
      assert Split(path)[k..k + 1][0] == path;
    }
  }
}

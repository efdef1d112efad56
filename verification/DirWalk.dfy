/** The pruning tree walk of workspace discovery and the path predicate that must
    agree with it, file_manager.rs. */
module DirWalk {
  import opened Text
  import opened Wildcards
  import opened FileTrees

  datatype WalkConfig = WalkConfig(excludePatterns: seq<string>, excludeDirs: seq<string>,
                                   excludeDirPatterns: seq<string>, excludeRootDirs: seq<string>)

  const DEFAULT_CONFIG: WalkConfig := WalkConfig(
    ["Changelog.txt", "README.txt", "LICENSE.txt", "README.md", "LICENSE.md", "*.md"],
    EXCLUDED_DIRS, [], EXCLUDED_ROOT_DIRS)

  // One walk: its lists, and which files it collects as what.
  datatype Walk<T> = Walk(cfg: WalkConfig, dirGlobs: seq<string>, accept: Path -> Option<T>)

  function Logical(path: Path): string
    requires path != []
  {
    ToSlashes(Join(path))
  }

  predicate AnyIgnores(patterns: seq<string>, name: string, relative: string) {
    exists i :: 0 <= i < |patterns| && IgnoreGlobMatches(patterns[i], name, relative)
  }

  predicate HasPathPattern(patterns: seq<string>) {
    exists i :: 0 <= i < |patterns| && IsPathPattern(patterns[i])
  }

  // Name globs never read the relative path, so a walk without path globs need
  // not build it.
  lemma RelativeUnread(patterns: seq<string>, name: string, a: string, b: string)
    requires !HasPathPattern(patterns)
    ensures AnyIgnores(patterns, name, a) == AnyIgnores(patterns, name, b)
  {
  }

  // ---- What an unbounded walk lists ------------------------------------------

  predicate DirSkipped<T>(walk: Walk<T>, at: Path, name: string, rootLevel: bool) {
    NamedIn(walk.cfg.excludeDirs, name)
    || AnyIgnores(walk.cfg.excludeDirPatterns, name, Logical(at + [name]))
    || AnyIgnores(walk.dirGlobs, name, Logical(at + [name]))
    || (rootLevel && NamedIn(walk.cfg.excludeRootDirs, name))
  }

  // The directory is kept out by its name, in any case, by one of its globs or of
  // the caller's, by name or location, or at root level by a name kept out there.
  ghost predicate KeptOut<T>(walk: Walk<T>, at: Path, name: string, rootLevel: bool) {
    (exists i :: 0 <= i < |walk.cfg.excludeDirs| && Lower(name) == Lower(walk.cfg.excludeDirs[i]))
    || (exists pattern ::
          (pattern in walk.cfg.excludeDirPatterns || pattern in walk.dirGlobs)
          && IgnoreGlobMatches(pattern, name, Logical(at + [name])))
    || (rootLevel
        && exists i :: 0 <= i < |walk.cfg.excludeRootDirs| && Lower(name) == Lower(walk.cfg.excludeRootDirs[i]))
  }

  lemma SkippedIsKeptOut<T>(walk: Walk<T>, at: Path, name: string, rootLevel: bool)
    ensures DirSkipped(walk, at, name, rootLevel) <==> KeptOut(walk, at, name, rootLevel)
  {
    hide Lower, IgnoreGlobMatches, Logical;
    var full := Logical(at + [name]);
    AnyIgnoresMeans(walk.cfg.excludeDirPatterns, name, full);
    AnyIgnoresMeans(walk.dirGlobs, name, full);
  }

  lemma AnyIgnoresMeans(patterns: seq<string>, name: string, relative: string)
    ensures AnyIgnores(patterns, name, relative) <==>
            exists pattern :: pattern in patterns && IgnoreGlobMatches(pattern, name, relative)
  {
    hide IgnoreGlobMatches;
  }

  function Collected<T>(walk: Walk<T>, path: Path): seq<T> {
    match walk.accept(path)
    case Some(item) => [item]
    case None => []
  }

  function EntryListing<T>(walk: Walk<T>, entry: Entry, at: Path, rootLevel: bool): seq<T>
    decreases entry
  {
    match entry.node
    case File => Collected(walk, at + [entry.name])
    case Dir(entries) =>
      if DirSkipped(walk, at, entry.name, rootLevel) then [] else Listing(walk, entries, at + [entry.name], false)
    case _ => []
  }

  function Listing<T>(walk: Walk<T>, entries: seq<Entry>, at: Path, rootLevel: bool): seq<T>
    decreases entries
  {
    if entries == [] then []
    else
      Listing(walk, entries[..|entries| - 1], at, rootLevel)
      + EntryListing(walk, entries[|entries| - 1], at, rootLevel)
  }

  function NodeListing<T>(walk: Walk<T>, node: Node, at: Path, rootLevel: bool): seq<T> {
    if node.Dir? then Listing(walk, node.entries, at, rootLevel) else []
  }

  lemma {:induction false} ListingGrows<T>(walk: Walk<T>, entries: seq<Entry>, at: Path, rootLevel: bool, n: nat)
    requires n <= |entries|
    ensures Listing(walk, entries[..n], at, rootLevel) <= Listing(walk, entries, at, rootLevel)
    decreases |entries|
  {
    if n < |entries| {
      var front := entries[..|entries| - 1];
      ListingGrows(walk, front, at, rootLevel, n);
      assert front[..n] == entries[..n];
    } else {
      assert entries[..n] == entries;
    }
  }

  lemma ListingStep<T>(walk: Walk<T>, entries: seq<Entry>, at: Path, rootLevel: bool, n: nat)
    requires n < |entries|
    ensures Listing(walk, entries[..n + 1], at, rootLevel)
         == Listing(walk, entries[..n], at, rootLevel) + EntryListing(walk, entries[n], at, rootLevel)
  {
    assert entries[..n + 1][..n] == entries[..n];
  }

  // ---- The walk --------------------------------------------------------------

  class WalkState<T> {
    var out: seq<T>
    var remaining: nat

    constructor (budget: nat)
      ensures out == [] && remaining == budget
    {
      out, remaining := [], budget;
    }

    // What `found` adds under the budget left before.
    ghost predicate Spent(before: seq<T>, budget: nat, found: seq<T>)
      reads this
    {
      out == before + Take(found, budget) && remaining == budget - |Take(found, budget)|
    }
  }

  method AnyIgnoreGlob(patterns: seq<string>, name: string, relative: string) returns (hit: bool)
    ensures hit == AnyIgnores(patterns, name, relative)
  {
    var i := 0;
    while i < |patterns|
      invariant 0 <= i <= |patterns|
      invariant forall k :: 0 <= k < i ==> !IgnoreGlobMatches(patterns[k], name, relative)
    {
      var one := IgnoreGlobMatch(patterns[i], name, relative);
      if one {
        return true;
      }
      i := i + 1;
    }
    return false;
  }

  method SkipsDir<T>(walk: Walk<T>, at: Path, name: string, rootLevel: bool, pathsNeeded: bool) returns (skip: bool)
    requires pathsNeeded == (HasPathPattern(walk.cfg.excludeDirPatterns) || HasPathPattern(walk.dirGlobs))
    ensures skip == DirSkipped(walk, at, name, rootLevel)
    ensures skip <==> KeptOut(walk, at, name, rootLevel)
  {
    hide AnyIgnores, NamedIn, HasPathPattern, KeptOut;
    SkippedIsKeptOut(walk, at, name, rootLevel);
    var full := Logical(at + [name]);
    var relative := if pathsNeeded then full else "";
    if !pathsNeeded {
      RelativeUnread(walk.cfg.excludeDirPatterns, name, relative, full);
      RelativeUnread(walk.dirGlobs, name, relative, full);
    }
    skip := NamedIn(walk.cfg.excludeDirs, name);
    if !skip {
      skip := AnyIgnoreGlob(walk.cfg.excludeDirPatterns, name, relative);
    }
    if !skip {
      skip := AnyIgnoreGlob(walk.dirGlobs, name, relative);
    }
    if !skip {
      skip := rootLevel && NamedIn(walk.cfg.excludeRootDirs, name);
    }
  }

  lemma TakeNone<T>(walk: Walk<T>, at: Path, rootLevel: bool, budget: nat)
    ensures Take(Listing(walk, [], at, rootLevel), budget) == []
  {
  }

  lemma TakeSmall<T>(found: seq<T>, n: nat)
    ensures n > 0 && |found| <= 1 ==> Take(found, n) == found
  {
  }

  lemma SpentOn<T>(before: seq<T>, budget: nat, done: seq<T>, found: seq<T>, out: seq<T>, left: nat, out2: seq<T>,
                   left2: nat)
    requires out == before + Take(done, budget) && left == budget - |Take(done, budget)|
    requires out2 == out + Take(found, left) && left2 == left - |Take(found, left)|
    ensures out2 == before + Take(done + found, budget) && left2 == budget - |Take(done + found, budget)|
  {
  }

  lemma ListingOfSorted<T>(walk: Walk<T>, entries: seq<Entry>, at: Path, rootLevel: bool)
    ensures NodeListing(walk, Ordered(Dir(entries)), at, rootLevel)
         == Listing(walk, EachOrdered(SortByName(entries)), at, rootLevel)
  {
    hide Listing;
    SortThenOrder(entries);
  }

  lemma SortedChild(entries: seq<Entry>, i: nat)
    requires i < |SortByName(entries)|
    ensures SortByName(entries)[i] in entries
  {
    SortMembers(entries);
    assert SortByName(entries)[i] in SortByName(entries);
  }

  // The first files of the listing in order of names, as many as the budget
  // allows; an unreadable directory yields none and fails only at the top.
  method WalkDir<T>(walk: Walk<T>, node: Node, at: Path, rootLevel: bool, state: WalkState<T>) returns (ok: bool)
    modifies state
    ensures ok == node.Dir?
    ensures state.Spent(old(state.out), old(state.remaining), NodeListing(walk, Ordered(node), at, rootLevel))
    decreases node
  {
    hide DirSkipped, HasPathPattern, Take, Listing, Ordered, SortByName;
    var pathsNeeded := HasPathPattern(walk.cfg.excludeDirPatterns) || HasPathPattern(walk.dirGlobs);
    if !node.Dir? {
      OtherNodesStay(node);
      TakeNone(walk, at, rootLevel, state.remaining);
      return false;
    }

    ghost var before, budget := state.out, state.remaining;
    var entries := SortByName(node.entries);
    ghost var ordered := EachOrdered(entries);
    ListingOfSorted(walk, node.entries, at, rootLevel);
    var i := 0;
    TakeNone(walk, at, rootLevel, budget);
    while i < |entries|
      invariant 0 <= i <= |entries|
      invariant state.Spent(before, budget, Listing(walk, ordered[..i], at, rootLevel))
    {
      ghost var done := Listing(walk, ordered[..i], at, rootLevel);
      if state.remaining == 0 {
        ListingGrows(walk, ordered, at, rootLevel, i);
        TakeSpent(done, Listing(walk, ordered, at, rootLevel), budget);
        return true;
      }
      var entry := entries[i];
      ghost var out, left := state.out, state.remaining;
      SortedChild(node.entries, i);
      OtherNodesStay(entry.node);
      match entry.node {
        case Dir(_) =>
          var skip := SkipsDir(walk, at, entry.name, rootLevel, pathsNeeded);
          if !skip {
            var childOk := WalkDir(walk, entry.node, at + [entry.name], false, state);
          }
        case File =>
          match walk.accept(at + [entry.name]) {
            case Some(item) =>
              state.remaining := state.remaining - 1;
              state.out := state.out + [item];
            case None =>
          }
        case _ =>
      }
      ghost var found := EntryListing(walk, ordered[i], at, rootLevel);
      assert state.Spent(out, left, found) by {
        TakeSmall(found, left);
      }
      SpentOn(before, budget, done, found, out, left, state.out, state.remaining);
      ListingStep(walk, ordered, at, rootLevel, i);
      i := i + 1;
    }
    assert ordered[..i] == ordered;
    return true;
  }

  lemma OtherNodesStay(node: Node)
    ensures if node.Dir? then Ordered(node).Dir? else Ordered(node) == node
  {
  }

  // Which files come out under which budget does not depend on the order in
  // which `read_dir` gives the entries of a directory.
  lemma WalkIgnoresReadDirOrder<T>(walk: Walk<T>, a: Node, b: Node, at: Path, rootLevel: bool, budget: nat)
    requires SameTree(a, b)
    ensures Take(NodeListing(walk, Ordered(a), at, rootLevel), budget)
         == Take(NodeListing(walk, Ordered(b), at, rootLevel), budget)
  {
    hide Ordered, Take;
    SameTreeSameOrder(a, b);
  }

  // ---- The workspace walk ------------------------------------------------------

  // The index of the last dot, or |name|.
  function LastDot(name: string): (i: nat)
    ensures i <= |name| && (i < |name| ==> name[i] == '.')
    ensures forall k :: 0 <= k < |name| && (i < k || i == |name|) ==> name[k] != '.'
  {
    if name == "" then 0
    else if name[|name| - 1] == '.' then |name| - 1
    else
      var i := LastDot(name[..|name| - 1]);
      if i == |name| - 1 then |name| else i
  }

  // `Path::extension`: what follows the last dot, unless that dot comes first.
  function Extension(name: string): Option<string> {
    var i := LastDot(name);
    if i == 0 || i == |name| then None else Some(name[i + 1..])
  }

  predicate Requested(extensions: seq<string>, path: Path) {
    path != [] && Extension(path[|path| - 1]).Some? && Extension(path[|path| - 1]).value in extensions
  }

  // What comes behind the last dot of a name that has something before that dot.
  lemma ExtensionMeans(name: string, extension: string)
    ensures Extension(name) == Some(extension) <==>
            '.' !in extension && exists stem :: stem != "" && name == stem + ['.'] + extension
  {
    hide LastDot;
    var i := LastDot(name);
    if Extension(name) == Some(extension) {
      assert name == name[..i] + ['.'] + extension;
    }
    if stem :| stem != "" && name == stem + ['.'] + extension && '.' !in extension {
      forall k | |stem| < k < |name| ensures name[k] != '.' {
        assert name[k] == extension[k - |stem| - 1];
      }
      assert name[|stem|] == '.' && i == |stem|;
      assert name[i + 1..] == extension;
    }
  }

  // A file is asked for exactly when its name ends in a dot and an extension asked
  // for, with something before the dot: `.txt` alone has none.
  lemma RequestedMeans(extensions: seq<string>, path: Path)
    ensures Requested(extensions, path) <==>
            path != []
            && exists extension :: extension in extensions && '.' !in extension
                                   && exists stem :: stem != "" && path[|path| - 1] == stem + ['.'] + extension
  {
    hide Extension;
    if path != [] {
      forall extension: string {
        ExtensionMeans(path[|path| - 1], extension);
      }
    }
  }

  function AcceptFile(extensions: seq<string>, fileGlobs: seq<string>, needsRelative: bool, path: Path): Option<Path> {
    if !Requested(extensions, path) then None
    else
      var name := path[|path| - 1];
      var relative := if needsRelative then Logical(path) else "";
      if AnyIgnores(DEFAULT_CONFIG.excludePatterns, name, relative) || AnyIgnores(fileGlobs, name, relative) then None
      else Some(path)
  }

  function WorkspaceWalk(extensions: seq<string>, fileGlobs: seq<string>, dirGlobs: seq<string>): Walk<Path> {
    var needsRelative := HasPathPattern(DEFAULT_CONFIG.excludePatterns) || HasPathPattern(fileGlobs);
    Walk(DEFAULT_CONFIG, dirGlobs, path => AcceptFile(extensions, fileGlobs, needsRelative, path))
  }

  // All files of the workspace, every directory in order of its names.
  function WorkspaceListing(root: Node, extensions: seq<string>, fileGlobs: seq<string>,
                            dirGlobs: seq<string>): seq<Path> {
    NodeListing(WorkspaceWalk(extensions, fileGlobs, dirGlobs), Ordered(root), [], true)
  }

  method WalkWorkspaceFiles(root: Node, extensions: seq<string>, fileGlobs: seq<string>, dirGlobs: seq<string>,
                            maxFiles: nat) returns (files: seq<Path>)
    ensures files == Take(WorkspaceListing(root, extensions, fileGlobs, dirGlobs), maxFiles)
  {
    hide Take, NodeListing, WorkspaceWalk, Ordered;
    var state := new WalkState(maxFiles);
    var _ := WalkDir(WorkspaceWalk(extensions, fileGlobs, dirGlobs), root, [], true, state);
    files := state.out;
  }

  // ---- The path predicate ------------------------------------------------------

  function LastPiece(logical: string): string {
    var pieces := SplitBy(logical, IsSeparator);
    pieces[|pieces| - 1]
  }

  predicate IgnoredFile(logical: string, fileGlobs: seq<string>) {
    var slashed := ToSlashes(logical);
    var name := LastPiece(slashed);
    AnyIgnores(DEFAULT_CONFIG.excludePatterns, name, slashed) || AnyIgnores(fileGlobs, name, slashed)
  }

  // Some directory above the file is matched, by its name or its location.
  predicate IgnoredBelow(path: Path, dirGlobs: seq<string>) {
    exists i :: 0 <= i < |path| - 1 && AnyIgnores(dirGlobs, path[i], Join(path[..i + 1]))
  }

  predicate IgnoredPath(logical: string, fileGlobs: seq<string>, dirGlobs: seq<string>) {
    IgnoredFile(logical, fileGlobs) || IgnoredBelow(Split(ToSlashes(logical)), dirGlobs)
  }

  // Which separators a path is spelled with does not matter.
  lemma SeparatorsDoNotMatter(a: string, b: string, fileGlobs: seq<string>, dirGlobs: seq<string>)
    requires ToSlashes(a) == ToSlashes(b)
    ensures IgnoredFile(a, fileGlobs) == IgnoredFile(b, fileGlobs)
    ensures IgnoredPath(a, fileGlobs, dirGlobs) == IgnoredPath(b, fileGlobs, dirGlobs)
  {
  }

  method IsIgnoredLogicalPath(logical: string, fileGlobs: seq<string>) returns (ignored: bool)
    ensures ignored == IgnoredFile(logical, fileGlobs)
  {
    hide AnyIgnores, LastPiece;
    var slashed := ToSlashes(logical);
    var name := LastPiece(slashed);
    ignored := AnyIgnoreGlob(DEFAULT_CONFIG.excludePatterns, name, slashed);
    if !ignored {
      ignored := AnyIgnoreGlob(fileGlobs, name, slashed);
    }
  }

  method IsIgnoredPath(logical: string, fileGlobs: seq<string>, dirGlobs: seq<string>) returns (ignored: bool)
    ensures ignored == IgnoredPath(logical, fileGlobs, dirGlobs)
  {
    hide IgnoreGlobMatches, IgnoredFile, Split, Join, IgnoredBelow;
    ignored := IsIgnoredLogicalPath(logical, fileGlobs);
    if ignored {
      return;
    }
    var segments := Split(ToSlashes(logical));
    if |dirGlobs| == 0 {
      NoGlobsIgnoreNothing(segments);
      return;
    }
    NothingIgnoredYet(segments, dirGlobs);
    var dirRelative := "";
    var i := 0;
    while i < |segments| - 1
      invariant 0 <= i < |segments|
      invariant i > 0 ==> dirRelative == Join(segments[..i])
      invariant i == 0 ==> dirRelative == ""
      invariant !IgnoredBelow(segments[..i + 1], dirGlobs)
    {
      if i > 0 {
        dirRelative := dirRelative + "/";
      }
      dirRelative := dirRelative + segments[i];
      JoinGrows(segments, i);
      var hit := AnyIgnoreGlob(dirGlobs, segments[i], dirRelative);
      IgnoredGrows(segments, dirGlobs, i);
      if hit {
        IgnoredStays(segments, dirGlobs, i + 2);
        return true;
      }
      i := i + 1;
    }
    assert segments[..i + 1] == segments;
  }

  lemma NoGlobsIgnoreNothing(path: Path)
    ensures !IgnoredBelow(path, [])
  {
  }

  lemma NothingIgnoredYet(path: Path, dirGlobs: seq<string>)
    requires path != []
    ensures !IgnoredBelow(path[..1], dirGlobs)
  {
  }

  lemma JoinGrows(path: Path, i: nat)
    requires i < |path|
    ensures Join(path[..i + 1]) == (if i > 0 then Join(path[..i]) + "/" else "") + path[i]
  {
    if i > 0 {
      JoinConcat(path[..i], [path[i]]);
      assert path[..i + 1] == path[..i] + [path[i]];
    } else {
      assert path[..1] == [path[0]];
    }
  }

  lemma IgnoredGrows(path: Path, dirGlobs: seq<string>, i: nat)
    requires i + 1 < |path|
    ensures IgnoredBelow(path[..i + 2], dirGlobs)
       <==> IgnoredBelow(path[..i + 1], dirGlobs) || AnyIgnores(dirGlobs, path[i], Join(path[..i + 1]))
  {
    hide AnyIgnores, Join;
    var now, was := path[..i + 2], path[..i + 1];
    forall k | 0 <= k <= i
      ensures now[k] == path[k] && now[..k + 1] == path[..k + 1] && (k < i ==> was[..k + 1] == path[..k + 1])
    {
    }
    if IgnoredBelow(was, dirGlobs) {
      var k :| 0 <= k < |was| - 1 && AnyIgnores(dirGlobs, was[k], Join(was[..k + 1]));
      assert AnyIgnores(dirGlobs, now[k], Join(now[..k + 1]));
    }
    if AnyIgnores(dirGlobs, path[i], Join(path[..i + 1])) {
      assert AnyIgnores(dirGlobs, now[i], Join(now[..i + 1]));
    }
    if IgnoredBelow(now, dirGlobs) {
      var k :| 0 <= k < |now| - 1 && AnyIgnores(dirGlobs, now[k], Join(now[..k + 1]));
      if k < i {
        assert AnyIgnores(dirGlobs, was[k], Join(was[..k + 1]));
      }
    }
  }

  lemma IgnoredStays(path: Path, dirGlobs: seq<string>, n: nat)
    requires n <= |path| && IgnoredBelow(path[..n], dirGlobs)
    ensures IgnoredBelow(path, dirGlobs)
  {
    hide AnyIgnores, Join;
    var front := path[..n];
    var k :| 0 <= k < |front| - 1 && AnyIgnores(dirGlobs, front[k], Join(front[..k + 1]));
    assert front[..k + 1] == path[..k + 1];
    assert AnyIgnores(dirGlobs, path[k], Join(path[..k + 1]));
  }

  // ---- What the walk returns, path by path --------------------------------------

  // No directory on the way from `at` is skipped.
  ghost predicate Open<T>(walk: Walk<T>, at: Path, path: Path, rootLevel: bool) {
    forall i :: 0 <= i < |path| - 1 ==> !KeptOut(walk, at + path[..i], path[i], rootLevel && i == 0)
  }

  ghost predicate Yields<T>(walk: Walk<T>, at: Path, path: Path, rootLevel: bool, item: T) {
    Open(walk, at, path, rootLevel) && walk.accept(at + path) == Some(item)
  }

  lemma OpenBelow<T>(walk: Walk<T>, at: Path, path: Path, rootLevel: bool)
    requires |path| > 1
    ensures Open(walk, at, path, rootLevel)
       <==> !KeptOut(walk, at, path[0], rootLevel) && Open(walk, at + [path[0]], path[1..], false)
  {
    hide KeptOut;
    var rest, below := path[1..], at + [path[0]];
    assert at + path[..0] == at;
    forall i | 0 <= i < |rest| - 1
      ensures below + rest[..i] == at + path[..i + 1] && rest[i] == path[i + 1]
    {
      assert path[..i + 1] == [path[0]] + rest[..i];
    }
    if Open(walk, at, path, rootLevel) {
      assert !KeptOut(walk, at + path[..0], path[0], rootLevel);
      forall i | 0 <= i < |rest| - 1 ensures !KeptOut(walk, below + rest[..i], rest[i], false) {
        assert !KeptOut(walk, at + path[..i + 1], path[i + 1], rootLevel && i + 1 == 0);
      }
    }
    if !KeptOut(walk, at, path[0], rootLevel) && Open(walk, below, rest, false) {
      forall i | 0 <= i < |path| - 1 ensures !KeptOut(walk, at + path[..i], path[i], rootLevel && i == 0) {
        if i > 0 {
          assert !KeptOut(walk, below + rest[..i - 1], rest[i - 1], false);
        }
      }
    }
  }

  lemma {:induction false} EntryYields<T>(walk: Walk<T>, entry: Entry, at: Path, rootLevel: bool, item: T)
    ensures item in EntryListing(walk, entry, at, rootLevel)
       <==> exists path :: FileBelow(entry, path) && Yields(walk, at, path, rootLevel, item)
    decreases entry
  {
    hide KeptOut, DirSkipped, Listing;
    match entry.node
    case File =>
      var path := [entry.name];
      assert FileBelow(entry, path) && Open(walk, at, path, rootLevel);
      forall other | FileBelow(entry, other) ensures other == path {
        assert other == [other[0]];
      }
      assert EntryListing(walk, entry, at, rootLevel) == Collected(walk, at + path);
      assert Yields(walk, at, path, rootLevel, item) <==> walk.accept(at + path) == Some(item);
    case Dir(entries) =>
      var below := at + [entry.name];
      ListingYields(walk, entries, below, false, item);
      SkippedIsKeptOut(walk, at, entry.name, rootLevel);
      if item in EntryListing(walk, entry, at, rootLevel) {
        var rest :| IsFileAt(entries, rest) && Yields(walk, below, rest, false, item);
        var path := [entry.name] + rest;
        assert path[1..] == rest && at + path == below + rest;
        OpenBelow(walk, at, path, rootLevel);
        assert FileBelow(entry, path) && Yields(walk, at, path, rootLevel, item);
      }
      if path :| FileBelow(entry, path) && Yields(walk, at, path, rootLevel, item) {
        assert at + path == below + path[1..];
        OpenBelow(walk, at, path, rootLevel);
        assert IsFileAt(entries, path[1..]) && Yields(walk, below, path[1..], false, item);
      }
    case _ =>
  }

  lemma {:induction false} ListingYields<T>(walk: Walk<T>, entries: seq<Entry>, at: Path, rootLevel: bool, item: T)
    ensures item in Listing(walk, entries, at, rootLevel)
       <==> exists path :: IsFileAt(entries, path) && Yields(walk, at, path, rootLevel, item)
    decreases entries
  {
    hide FileBelow, Yields;
    if entries != [] {
      var front, last := entries[..|entries| - 1], entries[|entries| - 1];
      ListingYields(walk, front, at, rootLevel, item);
      EntryYields(walk, last, at, rootLevel, item);
      forall path ensures IsFileAt(entries, path) <==> IsFileAt(front, path) || FileBelow(last, path) {
        LastEntry(entries, path);
      }
      if item in Listing(walk, front, at, rootLevel) {
        var path :| IsFileAt(front, path) && Yields(walk, at, path, rootLevel, item);
        assert IsFileAt(entries, path);
      }
      if item in EntryListing(walk, last, at, rootLevel) {
        var path :| FileBelow(last, path) && Yields(walk, at, path, rootLevel, item);
        assert IsFileAt(entries, path);
      }
      if path :| IsFileAt(entries, path) && Yields(walk, at, path, rootLevel, item) {
        assert IsFileAt(front, path) || FileBelow(last, path);
      }
    }
  }

  // ---- The walk and the predicate agree -------------------------------------------

  // A name that is one path segment on every platform.
  predicate PlainName(name: string) {
    forall k :: 0 <= k < |name| ==> !IsSeparator(name[k])
  }

  predicate PlainPath(path: Path) {
    path != [] && forall i :: 0 <= i < |path| ==> PlainName(path[i])
  }

  // Some directory above the file is one the engine never enters.
  predicate EngineExcluded(path: Path) {
    exists i :: 0 <= i < |path| - 1
                && (NamedIn(EXCLUDED_DIRS, path[i]) || (i == 0 && NamedIn(EXCLUDED_ROOT_DIRS, path[i])))
  }

  lemma {:induction false} PlainJoins(path: Path)
    requires PlainPath(path)
    ensures ToSlashes(Join(path)) == Join(path)
    ensures LastPiece(Join(path)) == path[|path| - 1]
    decreases |path|
  {
    hide SplitBy;
    var joined, name := Join(path), path[|path| - 1];
    SplitPlain(name, IsSeparator);
    if |path| > 1 {
      var front := path[..|path| - 1];
      PlainJoins(front);
      JoinConcat(front, [name]);
      assert path == front + [name];
      assert joined == Join(front) + ['/'] + name;
      SplitAt(Join(front), '/', name, IsSeparator);
      forall k | 0 <= k < |joined| ensures joined[k] != '\\' {
        if k < |Join(front)| {
          assert ToSlashes(Join(front))[k] == joined[k];
        } else if k > |Join(front)| {
          assert joined[k] == name[k - |Join(front)| - 1];
        }
      }
    } else {
      assert joined == name;
    }
    assert ToSlashes(joined) == joined;
  }

  lemma PlainSplits(path: Path)
    requires PlainPath(path)
    ensures Split(ToSlashes(Join(path))) == path
  {
    hide SplitBy, Split;
    PlainJoins(path);
    forall p | p in path ensures Plain(p) {
      assert PlainName(p);
    }
    SplitJoin(path);
  }

  lemma AcceptAgrees(extensions: seq<string>, fileGlobs: seq<string>, dirGlobs: seq<string>, path: Path)
    requires PlainPath(path)
    ensures var accepted := WorkspaceWalk(extensions, fileGlobs, dirGlobs).accept(path);
            accepted == if Requested(extensions, path) && !IgnoredFile(Join(path), fileGlobs) then Some(path) else None
  {
    hide AnyIgnores, HasPathPattern, Requested, LastPiece;
    PlainJoins(path);
    if !HasPathPattern(DEFAULT_CONFIG.excludePatterns) && !HasPathPattern(fileGlobs) {
      RelativeUnread(DEFAULT_CONFIG.excludePatterns, path[|path| - 1], "", Logical(path));
      RelativeUnread(fileGlobs, path[|path| - 1], "", Logical(path));
    }
  }

  lemma StepAgrees(walk: Walk<Path>, path: Path, i: nat)
    requires PlainPath(path) && i < |path| - 1 && walk.cfg == DEFAULT_CONFIG
    ensures KeptOut(walk, [] + path[..i], path[i], true && i == 0) <==>
            NamedIn(EXCLUDED_DIRS, path[i]) || (i == 0 && NamedIn(EXCLUDED_ROOT_DIRS, path[i]))
            || AnyIgnores(walk.dirGlobs, path[i], Join(path[..i + 1]))
  {
    hide IgnoreGlobMatches, NamedIn, Join, KeptOut;
    assert [] + path[..i] + [path[i]] == path[..i + 1];
    PlainJoins(path[..i + 1]);
    SkippedIsKeptOut(walk, [] + path[..i], path[i], true && i == 0);
  }

  lemma OpenAgrees(walk: Walk<Path>, path: Path)
    requires PlainPath(path) && walk.cfg == DEFAULT_CONFIG
    ensures Open(walk, [], path, true) <==> !EngineExcluded(path) && !IgnoredBelow(path, walk.dirGlobs)
  {
    hide KeptOut, AnyIgnores, NamedIn, Join;
    forall i: nat | i < |path| - 1 {
      StepAgrees(walk, path, i);
    }
    if !EngineExcluded(path) && !IgnoredBelow(path, walk.dirGlobs) {
      forall i | 0 <= i < |path| - 1 ensures !KeptOut(walk, [] + path[..i], path[i], true && i == 0) {
        StepAgrees(walk, path, i);
      }
    }
    if Open(walk, [], path, true) {
      forall i | 0 <= i < |path| - 1
        ensures !NamedIn(EXCLUDED_DIRS, path[i]) && !(i == 0 && NamedIn(EXCLUDED_ROOT_DIRS, path[i]))
        ensures !AnyIgnores(walk.dirGlobs, path[i], Join(path[..i + 1]))
      {
        assert !KeptOut(walk, [] + path[..i], path[i], true && i == 0);
        StepAgrees(walk, path, i);
      }
    }
  }

  lemma SortedHasFile(entries: seq<Entry>, path: Path)
    ensures IsFileAt(SortByName(entries), path) <==> IsFileAt(entries, path)
  {
    hide FileBelow, SortByName;
    SortMembers(entries);
    var sorted := SortByName(entries);
    if IsFileAt(entries, path) {
      var i :| 0 <= i < |entries| && FileBelow(entries[i], path);
      assert entries[i] in sorted;
    }
    if IsFileAt(sorted, path) {
      var i :| 0 <= i < |sorted| && FileBelow(sorted[i], path);
      assert sorted[i] in entries;
    }
  }

  // Sorting moves no file.
  lemma {:induction false} OrderedHasFile(entries: seq<Entry>, path: Path)
    ensures IsFileAt(SortByName(EachOrdered(entries)), path) <==> IsFileAt(entries, path)
    decreases |path|
  {
    hide SortByName;
    var each := EachOrdered(entries);
    SortedHasFile(each, path);
    forall i | 0 <= i < |entries| ensures FileBelow(each[i], path) <==> FileBelow(entries[i], path) {
      if |path| > 1 && entries[i].node.Dir? {
        OrderedHasFile(entries[i].node.entries, path[1..]);
      }
    }
  }

  // The walk lists a file exactly when it has a requested extension, the path
  // predicate does not ignore it, and the engine enters every directory above
  // it. The predicate itself never looks at the engine's directory lists.
  lemma WalkAgreesWithPredicate(entries: seq<Entry>, extensions: seq<string>, fileGlobs: seq<string>,
                                dirGlobs: seq<string>, path: Path)
    requires PlainPath(path)
    ensures path in WorkspaceListing(Dir(entries), extensions, fileGlobs, dirGlobs) <==>
            IsFileAt(entries, path) && Requested(extensions, path)
            && !EngineExcluded(path) && !IgnoredPath(Join(path), fileGlobs, dirGlobs)
  {
    hide AnyIgnores, Requested, IgnoredFile, IsFileAt, EngineExcluded, IgnoredBelow, Listing, Split, Open, Join,
         SortByName, EachOrdered;
    var walk, sorted := WorkspaceWalk(extensions, fileGlobs, dirGlobs), SortByName(EachOrdered(entries));
    OrderedDir(entries);
    OrderedHasFile(entries, path);
    ListingYields(walk, sorted, [], true, path);
    assert [] + path == path;
    AcceptAgrees(extensions, fileGlobs, dirGlobs, path);
    OpenAgrees(walk, path);
    PlainSplits(path);
    if path in Listing(walk, sorted, [], true) {
      var other :| IsFileAt(sorted, other) && Yields(walk, [], other, true, path);
      assert [] + other == other;
      assert other == path;
    }
    if IsFileAt(sorted, path) && Open(walk, [], path, true) && walk.accept(path) == Some(path) {
      assert Yields(walk, [], path, true, path);
    }
  }

  // For a requested file the two disagree exactly when it lies under an
  // engine-excluded directory and nothing else ignores it.
  lemma AgreeExactlyOutsideEngineDirs(entries: seq<Entry>, extensions: seq<string>, fileGlobs: seq<string>,
                               dirGlobs: seq<string>, path: Path)
    requires PlainPath(path) && IsFileAt(entries, path) && Requested(extensions, path)
    ensures (path in WorkspaceListing(Dir(entries), extensions, fileGlobs, dirGlobs)
             <==> !IgnoredPath(Join(path), fileGlobs, dirGlobs))
       <==> !EngineExcluded(path) || IgnoredPath(Join(path), fileGlobs, dirGlobs)
  {
    hide IsFileAt, EngineExcluded, IgnoredPath, WorkspaceListing, Requested, Join;
    WalkAgreesWithPredicate(entries, extensions, fileGlobs, dirGlobs, path);
  }

  lemma LongerLiteralFails(pattern: string, name: string, relative: string)
    requires !HasWildcard(pattern) && !IsPathPattern(pattern) && |pattern| > |name|
    ensures !IgnoreGlobMatches(pattern, name, relative)
  {
    hide Match;
    LiteralFastPath(pattern, name);
  }

  lemma MarkdownFails(name: string, relative: string)
    requires name == "a.txt"
    ensures !IgnoreGlobMatches("*.md", name, relative)
  {
    hide Match;
    assert "*.md" == "*" + ".md";
    SuffixFastPath(".md", name);
    assert name[|name| - 1] == 't' && ".md"[2] == 'd';
    assert name[2..][2] == name[4];
  }

  lemma DefaultsPass(name: string, relative: string)
    requires name == "a.txt"
    ensures !AnyIgnores(DEFAULT_CONFIG.excludePatterns, name, relative)
  {
    hide IgnoreGlobMatches;
    var patterns := DEFAULT_CONFIG.excludePatterns;
    LongerLiteralFails("Changelog.txt", name, relative);
    LongerLiteralFails("README.txt", name, relative);
    LongerLiteralFails("LICENSE.txt", name, relative);
    LongerLiteralFails("README.md", name, relative);
    LongerLiteralFails("LICENSE.md", name, relative);
    MarkdownFails(name, relative);
  }

  // A file the two disagree on: `bin/a.txt` is in the tree and requested, the
  // predicate does not ignore it, and the walk does not list it.
  lemma BinFileIsUnlistedAndUnignored(extensions: seq<string>)
    requires "txt" in extensions
    ensures var entries, path := [Entry("bin", Dir([Entry("a.txt", File)]))], ["bin", "a.txt"];
            IsFileAt(entries, path) && Requested(extensions, path)
            && path !in WorkspaceListing(Dir(entries), extensions, [], [])
            && Join(path) == "bin/a.txt" && !IgnoredPath(Join(path), [], [])
  {
    hide WorkspaceListing, IgnoredPath, Requested, Join, AnyIgnores, EngineExcluded, IsFileAt, PlainPath;
    var entries, path := [Entry("bin", Dir([Entry("a.txt", File)]))], ["bin", "a.txt"];
    BinHolds(entries, path, extensions);
    BinIsExcluded();
    BinIsUnignored(path);
    WalkAgreesWithPredicate(entries, extensions, [], [], path);
  }

  lemma BinHolds(entries: seq<Entry>, path: Path, extensions: seq<string>)
    requires entries == [Entry("bin", Dir([Entry("a.txt", File)]))] && path == ["bin", "a.txt"] && "txt" in extensions
    ensures IsFileAt(entries, path) && Requested(extensions, path) && PlainPath(path)
  {
    var inner := entries[0].node.entries;
    assert path[1..] == ["a.txt"];
    assert FileBelow(inner[0], path[1..]) && IsFileAt(inner, path[1..]);
    assert FileBelow(entries[0], path);
    TxtExtension();
  }

  lemma TxtExtension()
    ensures Extension("a.txt") == Some("txt")
  {
    hide LastDot;
    var name, i := "a.txt", LastDot("a.txt");
    assert name[1] == '.' && i == 1;
    assert name[i + 1..] == "txt";
  }

  lemma BinIsUnignored(path: Path)
    requires path == ["bin", "a.txt"] && PlainPath(path)
    ensures Join(path) == "bin/a.txt" && !IgnoredPath(Join(path), [], [])
  {
    hide AnyIgnores, Split, LastPiece;
    PlainJoins(path);
    assert path[1..] == ["a.txt"];
    DefaultsPass("a.txt", Join(path));
    NothingIgnores("a.txt", Join(path));
    forall p: Path ensures !IgnoredBelow(p, []) {
      NoGlobsIgnoreNothing(p);
    }
  }

  lemma NothingIgnores(name: string, relative: string)
    ensures !AnyIgnores([], name, relative)
  {
  }

  lemma BinIsExcluded()
    ensures EngineExcluded(["bin", "a.txt"])
  {
    assert EXCLUDED_DIRS[7] == "bin";
    assert EqIgnoreCase("bin", EXCLUDED_DIRS[7]);
    assert NamedIn(EXCLUDED_DIRS, "bin");
    assert ["bin", "a.txt"][0] == "bin";
  }
}

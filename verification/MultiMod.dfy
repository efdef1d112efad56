/** Discovery over several mods, file_manager.rs: the highest priority wins each
    path and `replace_path` takes lower ones away, against layering one mod over
    another. */
module MultiMod {
  import opened Text
  import opened FileTrees

  // A root to collect from: the include directories that exist below it, and the
  // paths it replaces. The base game has priority 0 and replaces nothing.
  datatype Source = Source(priority: nat, replacePaths: seq<string>, dirs: map<string, seq<Entry>>)

  datatype Mod = Mod(replacePaths: seq<string>, dirs: map<string, seq<Entry>>)

  // A file, by its source and its path below that source's root.
  datatype Origin = Origin(path: string, priority: nat)

  datatype Hit = Hit(logical: string, origin: Origin)

  // ---- Listing one source ------------------------------------------------------

  function Child(at: string, name: string): string {
    if at == "" || at[|at| - 1] == '/' then at + name else at + "/" + name
  }

  function EntryHits(entry: Entry, at: string, priority: nat): seq<Hit>
    decreases entry
  {
    var path := Child(at, entry.name);
    match entry.node
    case File => [Hit(ToSlashes(path), Origin(path, priority))]
    case Dir(entries) => if NamedIn(EXCLUDED_DIRS, entry.name) then [] else TreeHits(entries, path, priority)
    case _ => []
  }

  function TreeHits(entries: seq<Entry>, at: string, priority: nat): seq<Hit>
    decreases entries
  {
    if entries == [] then []
    else TreeHits(entries[..|entries| - 1], at, priority) + EntryHits(entries[|entries| - 1], at, priority)
  }

  function NodeHits(node: Node, at: string, priority: nat): seq<Hit> {
    if node.Dir? then TreeHits(node.entries, at, priority) else []
  }

  function Base(includeDir: string): string {
    if includeDir == "." then "" else includeDir
  }

  function DirHits(source: Source, includeDir: string): seq<Hit> {
    if includeDir in source.dirs then TreeHits(source.dirs[includeDir], Base(includeDir), source.priority) else []
  }

  function SourceHits(source: Source, includeDirs: seq<string>): seq<Hit> {
    if includeDirs == [] then []
    else
      SourceHits(source, includeDirs[..|includeDirs| - 1]) + DirHits(source, includeDirs[|includeDirs| - 1])
  }

  // Every file of every source, in the order it is met.
  function Stream(sources: seq<Source>, includeDirs: seq<string>): seq<Hit> {
    if sources == [] then []
    else
      Stream(sources[..|sources| - 1], includeDirs) + SourceHits(sources[|sources| - 1], includeDirs)
  }

  // ---- What one source has -------------------------------------------------------

  // `read_dir` gives no empty name and none with a slash.
  ghost predicate PlainEntry(entry: Entry)
    decreases entry
  {
    entry.name != "" && Plain(entry.name) && (entry.node.Dir? ==> PlainTree(entry.node.entries))
  }

  ghost predicate PlainTree(entries: seq<Entry>)
    decreases entries
  {
    forall i :: 0 <= i < |entries| ==> PlainEntry(entries[i])
  }

  ghost predicate PlainDirs(dirs: map<string, seq<Entry>>) {
    forall d :: d in dirs ==> PlainTree(dirs[d])
  }

  // The name is that of a directory never entered, in any case.
  ghost predicate Barred(name: string) {
    exists i :: 0 <= i < |EXCLUDED_DIRS| && Lower(name) == Lower(EXCLUDED_DIRS[i])
  }

  lemma NamedInIsBarred(name: string)
    ensures NamedIn(EXCLUDED_DIRS, name) <==> Barred(name)
  {
    hide EXCLUDED_DIRS;
  }

  // No directory on the way is one that is never entered.
  ghost predicate Entered(path: Path) {
    forall i :: 0 <= i < |path| - 1 ==> !Barred(path[i])
  }

  // A path below a directory.
  function Under(at: string, path: Path): string
    requires path != []
  {
    if at == "" then Join(path)
    else if at[|at| - 1] == '/' then at + Join(path)
    else at + "/" + Join(path)
  }

  // A path below an include directory, where "." is the root itself.
  function Located(includeDir: string, path: Path): string
    requires path != []
  {
    if includeDir == "." then Join(path) else Under(includeDir, path)
  }

  lemma UnderStep(at: string, path: Path)
    requires |path| > 1 && path[0] != "" && Plain(path[0])
    ensures Under(Child(at, path[0]), path[1..]) == Under(at, path)
  {
    var name, rest := path[0], Join(path[1..]);
    var child := Child(at, name);
    JoinStep(path);
    hide Join;
    assert child[|child| - 1] == name[|name| - 1];
    if at == "" {
      assert child == name;
    } else if at[|at| - 1] == '/' {
      Regroup(at, name, rest);
    } else {
      Regroup(at + "/", name, rest);
    }
  }

  lemma Regroup(base: string, name: string, rest: string)
    ensures base + name + "/" + rest == base + (name + "/" + rest)
  {
  }

  lemma JoinStep(path: Path)
    requires |path| > 1
    ensures Join(path) == path[0] + "/" + Join(path[1..])
  {
  }

  ghost predicate Leads(path: Path, at: string, priority: nat, hit: Hit) {
    path != [] && Entered(path) && hit.origin == Origin(Under(at, path), priority)
    && hit.logical == ToSlashes(Under(at, path))
  }

  lemma LeadsBelow(entry: Entry, path: Path, at: string, priority: nat, hit: Hit)
    requires |path| > 1 && entry.name == path[0] && entry.name != "" && Plain(entry.name)
    ensures Leads(path, at, priority, hit)
       <==> !NamedIn(EXCLUDED_DIRS, entry.name) && Leads(path[1..], Child(at, entry.name), priority, hit)
  {
    NamedInIsBarred(entry.name);
    hide NamedIn, Barred, ToSlashes, Under, Child, Plain, EXCLUDED_DIRS;
    UnderStep(at, path);
    var rest := path[1..];
    forall i | 0 <= i < |rest| - 1 ensures rest[i] == path[i + 1] {
    }
    if Entered(path) {
      assert !Barred(path[0]);
    }
    if !Barred(entry.name) && Entered(rest) {
      forall i | 0 <= i < |path| - 1 ensures !Barred(path[i]) {
        if i > 0 {
          assert path[i] == rest[i - 1];
        }
      }
    }
  }

  lemma {:induction false} EntryHitsAre(entry: Entry, at: string, priority: nat, hit: Hit)
    requires PlainEntry(entry)
    ensures hit in EntryHits(entry, at, priority)
       <==> exists path :: FileBelow(entry, path) && Leads(path, at, priority, hit)
    decreases entry
  {
    hide NamedIn, ToSlashes, TreeHits, Leads, PlainTree, EXCLUDED_DIRS;
    match entry.node
    case File =>
      var path := [entry.name];
      FileLeads(entry.name, at, priority, hit);
      assert FileBelow(entry, path);
      forall other | FileBelow(entry, other) ensures other == path {
        assert other == [other[0]];
      }
    case Dir(entries) =>
      var below := Child(at, entry.name);
      TreeHitsAre(entries, below, priority, hit);
      if hit in EntryHits(entry, at, priority) {
        var rest :| IsFileAt(entries, rest) && Leads(rest, below, priority, hit);
        var path := [entry.name] + rest;
        assert path[1..] == rest && |rest| > 0;
        LeadsBelow(entry, path, at, priority, hit);
        assert FileBelow(entry, path) && Leads(path, at, priority, hit);
      }
      if path :| FileBelow(entry, path) && Leads(path, at, priority, hit) {
        LeadsBelow(entry, path, at, priority, hit);
        assert IsFileAt(entries, path[1..]) && Leads(path[1..], below, priority, hit);
      }
    case _ =>
  }

  lemma FileLeads(name: string, at: string, priority: nat, hit: Hit)
    ensures Leads([name], at, priority, hit)
       <==> hit == Hit(ToSlashes(Child(at, name)), Origin(Child(at, name), priority))
  {
  }

  // What is collected below a directory: exactly the regular files reached
  // through directories that are entered.
  lemma {:induction false} TreeHitsAre(entries: seq<Entry>, at: string, priority: nat, hit: Hit)
    requires PlainTree(entries)
    ensures hit in TreeHits(entries, at, priority)
       <==> exists path :: IsFileAt(entries, path) && Leads(path, at, priority, hit)
    decreases entries
  {
    hide FileBelow, Leads;
    if entries != [] {
      var front, last := entries[..|entries| - 1], entries[|entries| - 1];
      TreeHitsAre(front, at, priority, hit);
      EntryHitsAre(last, at, priority, hit);
      forall path ensures IsFileAt(entries, path) <==> IsFileAt(front, path) || FileBelow(last, path) {
        LastEntry(entries, path);
      }
      if hit in TreeHits(front, at, priority) {
        var path :| IsFileAt(front, path) && Leads(path, at, priority, hit);
        assert IsFileAt(entries, path);
      }
      if hit in EntryHits(last, at, priority) {
        var path :| FileBelow(last, path) && Leads(path, at, priority, hit);
        assert IsFileAt(entries, path);
      }
      if path :| IsFileAt(entries, path) && Leads(path, at, priority, hit) {
        assert IsFileAt(front, path) || FileBelow(last, path);
      }
    }
  }

  // `path` leads from an include directory to a file the collector reaches.
  ghost predicate Locates(dirs: map<string, seq<Entry>>, includeDir: string, path: Path, file: string) {
    path != [] && includeDir in dirs && IsFileAt(dirs[includeDir], path) && Entered(path)
    && file == Located(includeDir, path)
  }

  // A root has a file below some of the include directories.
  ghost predicate Has(dirs: map<string, seq<Entry>>, includeDirs: seq<string>, file: string) {
    exists includeDir, path :: includeDir in includeDirs && Locates(dirs, includeDir, path, file)
  }

  // It has the file under this logical path, its forward-slash spelling.
  ghost predicate Offers(dirs: map<string, seq<Entry>>, includeDirs: seq<string>, logical: string) {
    exists file :: Has(dirs, includeDirs, file) && logical == ToSlashes(file)
  }

  ghost predicate Gives(source: Source, includeDirs: seq<string>, hit: Hit) {
    Has(source.dirs, includeDirs, hit.origin.path) && hit.logical == ToSlashes(hit.origin.path)
    && hit.origin.priority == source.priority
  }

  lemma DirHitsAre(source: Source, includeDir: string, hit: Hit)
    requires PlainDirs(source.dirs)
    ensures hit in DirHits(source, includeDir) <==>
            hit.origin.priority == source.priority && hit.logical == ToSlashes(hit.origin.path)
            && exists path :: Locates(source.dirs, includeDir, path, hit.origin.path)
  {
    hide ToSlashes, IsFileAt, Entered, Under, TreeHits;
    if includeDir in source.dirs {
      var entries, base := source.dirs[includeDir], Base(includeDir);
      TreeHitsAre(entries, base, source.priority, hit);
      forall path: Path | path != [] ensures Under(base, path) == Located(includeDir, path) {
        UnderRoot(path);
      }
      if path :| IsFileAt(entries, path) && Leads(path, base, source.priority, hit) {
        assert Locates(source.dirs, includeDir, path, hit.origin.path);
      }
      if path :| Locates(source.dirs, includeDir, path, hit.origin.path) {
        assert hit.origin.path == Under(base, path);
        assert Leads(path, base, hit.origin.priority, hit) <==> hit.logical == ToSlashes(hit.origin.path);
      }
    }
  }

  lemma UnderRoot(path: Path)
    requires path != []
    ensures Under("", path) == Join(path)
  {
  }

  // What a source gives: exactly the files it has below the include directories,
  // each under its forward-slash spelling.
  lemma {:induction false} SourceHitsAre(source: Source, includeDirs: seq<string>, hit: Hit)
    requires PlainDirs(source.dirs)
    ensures hit in SourceHits(source, includeDirs) <==> Gives(source, includeDirs, hit)
  {
    hide DirHits, Locates, PlainDirs, ToSlashes;
    if includeDirs != [] {
      var front, last := includeDirs[..|includeDirs| - 1], includeDirs[|includeDirs| - 1];
      assert includeDirs == front + [last];
      SourceHitsAre(source, front, hit);
      DirHitsAre(source, last, hit);
      if Gives(source, includeDirs, hit) && !Gives(source, front, hit) {
        var d, path :| d in includeDirs && Locates(source.dirs, d, path, hit.origin.path);
        assert d == last;
      }
      if hit in DirHits(source, last) {
        var path :| Locates(source.dirs, last, path, hit.origin.path);
        assert last in includeDirs;
      }
      if Gives(source, front, hit) {
        var d, path :| d in front && Locates(source.dirs, d, path, hit.origin.path);
        assert d in includeDirs;
      }
    }
  }

  // A file of an include directory is found under that directory's name.
  lemma CommonFileIsFound(entries: seq<Entry>)
    requires entries == [Entry("a.txt", File)]
    ensures var source, file := Source(1, [], map["common" := entries]), "common/a.txt";
            SourceHits(source, ["common"]) == [Hit(file, Origin(file, 1))]
    ensures SourceHits(Source(1, [], map["." := entries]), ["."]) == [Hit("a.txt", Origin("a.txt", 1))]
  {
    assert Child("common", "a.txt") == "common/a.txt" && Child("", "a.txt") == "a.txt";
    assert ToSlashes("common/a.txt") == "common/a.txt" && ToSlashes("a.txt") == "a.txt";
    assert EntryHits(entries[0], "common", 1) == [Hit("common/a.txt", Origin("common/a.txt", 1))];
    assert EntryHits(entries[0], "", 1) == [Hit("a.txt", Origin("a.txt", 1))];
    TreeHitsStep(entries, "common", 1, 0);
    TreeHitsStep(entries, "", 1, 0);
    assert entries[..1] == entries;
    OneDir(Source(1, [], map["common" := entries]), "common");
    OneDir(Source(1, [], map["." := entries]), ".");
  }

  lemma OneDir(source: Source, includeDir: string)
    ensures SourceHits(source, [includeDir]) == DirHits(source, includeDir)
  {
    SourceHitsStep(source, [includeDir], 0);
    assert [includeDir][..1] == [includeDir] && [includeDir][..0] == [];
  }

  // ---- The best origin for every path ---------------------------------------------

  type Files = map<string, Origin>

  function Put(best: Files, hit: Hit): Files {
    if hit.logical in best && hit.origin.priority <= best[hit.logical].priority then best
    else best[hit.logical := hit.origin]
  }

  function Fold(best: Files, hits: seq<Hit>): Files {
    if hits == [] then best else Put(Fold(best, hits[..|hits| - 1]), hits[|hits| - 1])
  }

  lemma {:induction false} FoldConcat(best: Files, a: seq<Hit>, b: seq<Hit>)
    ensures Fold(best, a + b) == Fold(Fold(best, a), b)
    decreases |b|
  {
    if b == [] {
      assert a + b == a;
    } else {
      var front := b[..|b| - 1];
      FoldConcat(best, a, front);
      assert (a + b)[..|a + b| - 1] == a + front;
    }
  }

  // ---- replace_path ------------------------------------------------------------------

  function TrimSlashes(s: string): string {
    if s != "" && s[0] == '/' then TrimSlashes(s[1..])
    else if s != "" && s[|s| - 1] == '/' then TrimSlashes(s[..|s| - 1])
    else s
  }

  function Prefix(replacePath: string): string {
    Lower(TrimSlashes(ToSlashes(replacePath)))
  }

  predicate Covers(replacePath: string, logical: string) {
    Lower(logical) == Prefix(replacePath) || Prefix(replacePath) + "/" <= Lower(logical)
  }

  predicate AnyCovers(replacePaths: seq<string>, logical: string) {
    exists i :: 0 <= i < |replacePaths| && Covers(replacePaths[i], logical)
  }

  // A replaced path covers whole segments: case aside, the path's segments start
  // with its own.
  lemma CoversIsSegmentPrefix(replacePath: string, logical: string)
    ensures Covers(replacePath, logical) <==> Split(Prefix(replacePath)) <= Split(Lower(logical))
  {
    hide Prefix, Lower, Split;
    SegmentPrefix(Prefix(replacePath), Lower(logical));
  }

  predicate OnlySeparators(s: string) {
    forall i :: 0 <= i < |s| ==> s[i] == '/' || s[i] == '\\'
  }

  ghost predicate PlainNames(path: Path) {
    path != [] && forall i :: 0 <= i < |path| ==> path[i] != "" && Plain(path[i])
  }

  lemma {:induction false} TrimSlashesAround(lead: string, body: string, trail: string)
    requires OnlySeparators(lead) && OnlySeparators(trail)
    requires body != "" && body[0] != '/' && body[|body| - 1] != '/'
    ensures TrimSlashes(ToSlashes(lead) + body + ToSlashes(trail)) == body
    decreases |lead| + |trail|
  {
    var s := ToSlashes(lead) + body + ToSlashes(trail);
    if lead != "" {
      assert s[1..] == ToSlashes(lead[1..]) + body + ToSlashes(trail);
      TrimSlashesAround(lead[1..], body, trail);
    } else if trail != "" {
      var front := trail[..|trail| - 1];
      assert s[..|s| - 1] == ToSlashes(lead) + body + ToSlashes(front);
      TrimSlashesAround(lead, body, front);
    }
  }

  lemma {:induction false} JoinEnds(path: Path)
    requires PlainNames(path)
    ensures Join(path) != "" && Join(path)[0] == path[0][0] && Join(path)[|Join(path)| - 1] != '/'
    ensures Join(path)[0] != '/'
  {
    if |path| > 1 {
      var rest := path[1..];
      forall i | 0 <= i < |rest| ensures rest[i] == path[i + 1] {
      }
      JoinEnds(rest);
    }
  }

  // A replaced path of names covers the files whose leading segments are those
  // names, case aside, with whichever separators it is written and surrounded.
  lemma ReplacesByNames(lead: string, body: string, trail: string, path: Path, logical: string)
    requires OnlySeparators(lead) && OnlySeparators(trail) && PlainNames(path) && ToSlashes(body) == Join(path)
    ensures Covers(lead + body + trail, logical) <==>
            |path| <= |Split(logical)| && forall i :: 0 <= i < |path| ==> EqIgnoreCase(path[i], Split(logical)[i])
  {
    hide Split, Join, TrimSlashes;
    var rp, joined := lead + body + trail, Join(path);
    JoinEnds(path);
    assert ToSlashes(rp) == ToSlashes(lead) + joined + ToSlashes(trail);
    TrimSlashesAround(lead, joined, trail);
    forall p | p in path ensures Plain(p) {
    }
    SplitJoin(path);
    LowerSplits(joined);
    LowerSplits(logical);
    CoversIsSegmentPrefix(rp, logical);
    SamePrefix(path, Split(logical), Split(Lower(joined)), Split(Lower(logical)));
  }

  lemma SamePrefix(p: Path, l: Path, lowerP: Path, lowerL: Path)
    requires |lowerP| == |p| && forall i :: 0 <= i < |p| ==> lowerP[i] == Lower(p[i])
    requires |lowerL| == |l| && forall i :: 0 <= i < |l| ==> lowerL[i] == Lower(l[i])
    ensures lowerP <= lowerL <==> |p| <= |l| && forall i :: 0 <= i < |p| ==> EqIgnoreCase(p[i], l[i])
  {
    hide Lower;
    if lowerP <= lowerL {
      forall i | 0 <= i < |p| ensures EqIgnoreCase(p[i], l[i]) {
        assert lowerP[i] == lowerL[i];
      }
    }
  }

  // A string prefix is not enough: it covers exactly when it ends where a segment
  // does.
  lemma StringPrefixCoversAtBoundary(replacePath: string, logical: string)
    requires Prefix(replacePath) <= Lower(logical)
    ensures Covers(replacePath, logical) <==>
            |Lower(logical)| == |Prefix(replacePath)| || Lower(logical)[|Prefix(replacePath)|] == '/'
  {
    hide Prefix, Lower;
    var p, l := Prefix(replacePath), Lower(logical);
    if |l| > |p| && l[|p|] == '/' {
      assert l == p + "/" + l[|p| + 1..];
    }
    if p + "/" <= l {
      assert l[|p|] == (p + "/")[|p|];
    }
  }

  // "common/idea" does not replace what is below "common/ideas".
  lemma StringPrefixDoesNotCover()
    ensures Prefix("common/idea") <= Lower("common/ideas/x.txt")
    ensures !Covers("common/idea", "common/ideas/x.txt")
  {
    var p, l := "common/idea", "common/ideas/x.txt";
    assert ToSlashes(p) == p && Lower(p) == p && Lower(l) == l;
    assert TrimSlashes(p) == p;
    assert p == l[..|p|] && l[|p|] == 's';
    StringPrefixCoversAtBoundary(p, l);
  }

  lemma SegmentPrefix(p: string, l: string)
    ensures l == p || p + "/" <= l <==> Split(p) <= Split(l)
  {
    hide SplitBy;
    if p + "/" <= l {
      var rest := l[|p| + 1..];
      assert l == p + ['/'] + rest;
      SplitAt(p, '/', rest, IsSlash);
    }
    if Split(p) <= Split(l) {
      var rest := Split(l)[|Split(p)|..];
      SplitPieces(p);
      SplitPieces(l);
      assert Split(l) == Split(p) + rest;
      if rest == [] {
        assert Split(l) == Split(p);
      } else {
        JoinConcat(Split(p), rest);
      }
    }
  }

  predicate Suppressed(sources: seq<Source>, logical: string, priority: nat) {
    exists k :: 0 <= k < |sources| && priority < sources[k].priority && AnyCovers(sources[k].replacePaths, logical)
  }

  function Unsuppressed(sources: seq<Source>, best: Files): Files {
    map l | l in best && !Suppressed(sources, l, best[l].priority) :: best[l]
  }

  // ---- The same by layers -------------------------------------------------------------

  function Logicals(hits: seq<Hit>): set<string> {
    set h | h in hits :: h.logical
  }

  function FirstOrigin(hits: seq<Hit>, logical: string): Origin
    requires logical in Logicals(hits)
  {
    if hits[0].logical == logical then hits[0].origin else FirstOrigin(hits[1..], logical)
  }

  // A source's own files; the first to claim a path has it.
  function Layer(hits: seq<Hit>): Files {
    map l | l in Logicals(hits) :: FirstOrigin(hits, l)
  }

  // From the lowest source up: delete what the next one replaces, then lay its
  // own files over the rest.
  function Layered(sources: seq<Source>, includeDirs: seq<string>): Files {
    if sources == [] then map[]
    else
      var below := Layered(sources[..|sources| - 1], includeDirs);
      var top := sources[|sources| - 1];
      (map l | l in below && !AnyCovers(top.replacePaths, l) :: below[l]) + Layer(SourceHits(top, includeDirs))
  }

  ghost predicate AscendingSources(sources: seq<Source>) {
    forall i, j :: 0 <= i < j < |sources| ==> sources[i].priority < sources[j].priority
  }

  ghost predicate AllOf(hits: seq<Hit>, priority: nat) {
    forall h :: h in hits ==> h.origin.priority == priority
  }

  lemma {:induction false} EntryHitsOf(entry: Entry, at: string, priority: nat)
    ensures AllOf(EntryHits(entry, at, priority), priority)
    decreases entry
  {
    match entry.node
    case Dir(entries) => TreeHitsOf(entries, Child(at, entry.name), priority);
    case _ =>
  }

  lemma {:induction false} TreeHitsOf(entries: seq<Entry>, at: string, priority: nat)
    ensures AllOf(TreeHits(entries, at, priority), priority)
    decreases entries
  {
    if entries != [] {
      TreeHitsOf(entries[..|entries| - 1], at, priority);
      EntryHitsOf(entries[|entries| - 1], at, priority);
    }
  }

  lemma {:induction false} SourceHitsOf(source: Source, includeDirs: seq<string>)
    ensures AllOf(SourceHits(source, includeDirs), source.priority)
  {
    if includeDirs != [] {
      SourceHitsOf(source, includeDirs[..|includeDirs| - 1]);
      var includeDir := includeDirs[|includeDirs| - 1];
      if includeDir in source.dirs {
        TreeHitsOf(source.dirs[includeDir], Base(includeDir), source.priority);
      }
    }
  }

  lemma {:induction false} FirstOriginStays(hits: seq<Hit>, hit: Hit, logical: string)
    requires logical in Logicals(hits + [hit])
    ensures FirstOrigin(hits + [hit], logical)
         == if logical in Logicals(hits) then FirstOrigin(hits, logical) else hit.origin
  {
    var all := hits + [hit];
    if hits != [] && hits[0].logical != logical {
      var rest := hits[1..];
      assert all[1..] == rest + [hit];
      assert logical in Logicals(rest + [hit]) by {
        var h :| h in all && h.logical == logical;
        assert h != all[0];
      }
      assert logical in Logicals(hits) <==> logical in Logicals(rest) by {
        forall h | h in hits && h.logical == logical ensures h in rest {
        }
      }
      FirstOriginStays(rest, hit, logical);
    } else if hits != [] {
      assert hits[0] in hits;
    }
  }

  lemma LogicalsPush(hits: seq<Hit>, hit: Hit)
    ensures Logicals(hits + [hit]) == Logicals(hits) + {hit.logical}
  {
  }

  ghost predicate Below(best: Files, priority: nat) {
    forall l :: l in best ==> best[l].priority < priority
  }

  lemma LayerPush(hits: seq<Hit>, hit: Hit)
    ensures Layer(hits + [hit])
         == if hit.logical in Layer(hits) then Layer(hits) else Layer(hits)[hit.logical := hit.origin]
  {
    hide FirstOrigin, Logicals;
    LogicalsPush(hits, hit);
    forall l | l in Logicals(hits + [hit]) {
      FirstOriginStays(hits, hit, l);
    }
  }

  lemma LayerIsOf(hits: seq<Hit>, priority: nat)
    requires AllOf(hits, priority)
    ensures forall l :: l in Layer(hits) ==> Layer(hits)[l].priority == priority
  {
    hide FirstOrigin, Logicals;
    forall l | l in Layer(hits) {
      FirstOriginIsHit(hits, l);
    }
  }

  // Files of a higher priority simply overlay what is there.
  lemma {:induction false} FoldOverlays(best: Files, hits: seq<Hit>, priority: nat)
    requires Below(best, priority) && AllOf(hits, priority)
    ensures Fold(best, hits) == best + Layer(hits)
  {
    if hits == [] {
      assert Layer(hits) == map[] by { NoLogicals(); }
    } else {
      hide Layer, Below, AllOf;
      var front, hit := hits[..|hits| - 1], hits[|hits| - 1];
      assert hits == front + [hit];
      AllOfFront(front, hit, priority);
      FoldOverlays(best, front, priority);
      LayerPush(front, hit);
      LayerIsOf(front, priority);
      PutOnLayer(best, Layer(front), hit, priority);
    }
  }

  lemma AllOfFront(front: seq<Hit>, hit: Hit, priority: nat)
    requires AllOf(front + [hit], priority)
    ensures AllOf(front, priority) && hit.origin.priority == priority
  {
  }

  lemma PutOnLayer(best: Files, layer: Files, hit: Hit, priority: nat)
    requires Below(best, priority) && hit.origin.priority == priority
    requires forall l :: l in layer ==> layer[l].priority == priority
    ensures Put(best + layer, hit)
         == best + if hit.logical in layer then layer else layer[hit.logical := hit.origin]
  {
  }

  lemma NoLogicals()
    ensures Logicals([]) == {}
  {
  }

  lemma {:induction false} FirstOriginIsHit(hits: seq<Hit>, logical: string)
    requires logical in Logicals(hits)
    ensures Hit(logical, FirstOrigin(hits, logical)) in hits
  {
    if hits[0].logical != logical {
      assert logical in Logicals(hits[1..]) by {
        var h :| h in hits && h.logical == logical;
        assert h != hits[0];
      }
      FirstOriginIsHit(hits[1..], logical);
    }
  }

  lemma {:induction false} FoldBelow(sources: seq<Source>, includeDirs: seq<string>, priority: nat)
    requires AscendingSources(sources) && forall i :: 0 <= i < |sources| ==> sources[i].priority < priority
    ensures Below(Fold(map[], Stream(sources, includeDirs)), priority)
  {
    if sources != [] {
      var below, top := sources[..|sources| - 1], sources[|sources| - 1];
      FoldBelow(below, includeDirs, top.priority);
      StreamOverlays(sources, includeDirs);
      SourceHitsOf(top, includeDirs);
      LayerIsOf(SourceHits(top, includeDirs), top.priority);
    }
  }

  lemma StreamOverlays(sources: seq<Source>, includeDirs: seq<string>)
    requires sources != [] && AscendingSources(sources)
    requires Below(Fold(map[], Stream(sources[..|sources| - 1], includeDirs)), sources[|sources| - 1].priority)
    ensures Fold(map[], Stream(sources, includeDirs))
         == Fold(map[], Stream(sources[..|sources| - 1], includeDirs))
            + Layer(SourceHits(sources[|sources| - 1], includeDirs))
  {
    hide Fold, Layer, SourceHits;
    var below, top := sources[..|sources| - 1], sources[|sources| - 1];
    FoldConcat(map[], Stream(below, includeDirs), SourceHits(top, includeDirs));
    SourceHitsOf(top, includeDirs);
    FoldOverlays(Fold(map[], Stream(below, includeDirs)), SourceHits(top, includeDirs), top.priority);
  }

  // What one more source on top suppresses: all it covers below, none of its own.
  lemma SuppressedByTop(sources: seq<Source>, logical: string, priority: nat)
    requires sources != [] && AscendingSources(sources)
    ensures var top := sources[|sources| - 1];
            Suppressed(sources, logical, priority) <==>
            Suppressed(sources[..|sources| - 1], logical, priority)
            || (priority < top.priority && AnyCovers(top.replacePaths, logical))
    ensures !Suppressed(sources, logical, sources[|sources| - 1].priority)
  {
  }

  // Picking the best origin for every path and suppressing afterwards is the
  // same as layering the sources one over another.
  lemma {:induction false} BestIsLayered(sources: seq<Source>, includeDirs: seq<string>)
    requires AscendingSources(sources)
    ensures Unsuppressed(sources, Fold(map[], Stream(sources, includeDirs))) == Layered(sources, includeDirs)
  {
    hide Fold, Layer, SourceHits, AnyCovers, Suppressed, Stream;
    if sources == [] {
      EmptyStream(includeDirs);
    } else {
      var below, top := sources[..|sources| - 1], sources[|sources| - 1];
      BestIsLayered(below, includeDirs);
      FoldBelow(below, includeDirs, top.priority);
      StreamOverlays(sources, includeDirs);
      SourceHitsOf(top, includeDirs);
      LayerIsOf(SourceHits(top, includeDirs), top.priority);
      var best := Fold(map[], Stream(below, includeDirs));
      var over := Layer(SourceHits(top, includeDirs));
      LayerOnTop(sources, best, over);
    }
  }

  lemma EmptyStream(includeDirs: seq<string>)
    ensures Fold(map[], Stream([], includeDirs)) == map[]
  {
  }

  lemma LayerOnTop(sources: seq<Source>, best: Files, over: Files)
    requires sources != [] && AscendingSources(sources) && Below(best, sources[|sources| - 1].priority)
    requires forall l :: l in over ==> over[l].priority == sources[|sources| - 1].priority
    ensures var below, top := Unsuppressed(sources[..|sources| - 1], best), sources[|sources| - 1];
            Unsuppressed(sources, best + over)
            == (map l | l in below && !AnyCovers(top.replacePaths, l) :: below[l]) + over
  {
    hide AnyCovers, Suppressed;
    var all := best + over;
    forall l | l in all ensures true {
      SuppressedByTop(sources, l, all[l].priority);
    }
    var below, top := Unsuppressed(sources[..|sources| - 1], best), sources[|sources| - 1];
    forall l | l in all
      ensures Suppressed(sources, l, all[l].priority) <==>
              l !in over && (Suppressed(sources[..|sources| - 1], l, all[l].priority) || AnyCovers(top.replacePaths, l))
    {
      SuppressedByTop(sources, l, all[l].priority);
    }
  }

  // ---- Discovery --------------------------------------------------------------------

  class Collector {
    var best: Files
    var remaining: nat

    constructor (budget: nat)
      ensures best == map[] && remaining == budget
    {
      best, remaining := map[], budget;
    }

    ghost predicate Collected(before: Files, budget: nat, hits: seq<Hit>)
      reads this
    {
      best == Fold(before, Take(hits, budget)) && remaining == budget - |Take(hits, budget)|
    }

    method CollectFiles(node: Node, at: string, priority: nat)
      modifies this
      ensures Collected(old(best), old(remaining), NodeHits(node, at, priority))
      decreases node
    {
      hide Fold, Take, TreeHits, NamedIn, Child, ToSlashes, EXCLUDED_DIRS;
      ghost var before, budget := best, remaining;
      NothingCollected(before, budget, at, priority);
      if !node.Dir? {
        return;
      }
      var entries := node.entries;
      var i := 0;
      while i < |entries|
        invariant 0 <= i <= |entries|
        invariant Collected(before, budget, TreeHits(entries[..i], at, priority))
      {
        ghost var done := TreeHits(entries[..i], at, priority);
        if remaining == 0 {
          TreeHitsGrow(entries, at, priority, i);
          TakeSpent(done, TreeHits(entries, at, priority), budget);
          return;
        }
        var entry := entries[i];
        var path := Child(at, entry.name);
        ghost var best0, left := best, remaining;
        match entry.node {
          case Dir(_) =>
            if !NamedIn(EXCLUDED_DIRS, entry.name) {
              CollectFiles(entry.node, path, priority);
            }
          case File =>
            remaining := remaining - 1;
            var logical := ToSlashes(path);
            if logical !in best || priority > best[logical].priority {
              best := best[logical := Origin(path, priority)];
            }
          case _ =>
        }
        ghost var found := EntryHits(entry, at, priority);
        FewHits(best0, found, left);
        CollectedOn(before, budget, done, found, best0, left, best, remaining);
        TreeHitsStep(entries, at, priority, i);
        i := i + 1;
      }
      assert entries[..i] == entries;
    }
  }

  lemma NothingCollected(before: Files, budget: nat, at: string, priority: nat)
    ensures Fold(before, Take([], budget)) == before && |Take<Hit>([], budget)| == 0
    ensures TreeHits([], at, priority) == []
  {
  }

  lemma FewHits(best: Files, found: seq<Hit>, left: nat)
    requires left > 0
    ensures |found| <= 1 ==> Take(found, left) == found
    ensures found == [] ==> Fold(best, found) == best
    ensures |found| == 1 ==> Fold(best, found) == Put(best, found[0])
  {
  }

  lemma CollectedOn(before: Files, budget: nat, done: seq<Hit>, found: seq<Hit>, best: Files, left: nat, best2: Files,
                    left2: nat)
    requires best == Fold(before, Take(done, budget)) && left == budget - |Take(done, budget)|
    requires best2 == Fold(best, Take(found, left)) && left2 == left - |Take(found, left)|
    ensures best2 == Fold(before, Take(done + found, budget)) && left2 == budget - |Take(done + found, budget)|
  {
    hide Take, Fold;
    TakeConcat(done, found, budget);
    FoldConcat(before, Take(done, budget), Take(found, left));
  }

  lemma TreeHitsStep(entries: seq<Entry>, at: string, priority: nat, n: nat)
    requires n < |entries|
    ensures TreeHits(entries[..n + 1], at, priority)
         == TreeHits(entries[..n], at, priority) + EntryHits(entries[n], at, priority)
  {
    assert entries[..n + 1][..n] == entries[..n];
  }

  lemma {:induction false} TreeHitsGrow(entries: seq<Entry>, at: string, priority: nat, n: nat)
    requires n <= |entries|
    ensures TreeHits(entries[..n], at, priority) <= TreeHits(entries, at, priority)
    decreases |entries|
  {
    if n < |entries| {
      var front := entries[..|entries| - 1];
      TreeHitsGrow(front, at, priority, n);
      assert front[..n] == entries[..n];
    } else {
      assert entries[..n] == entries;
    }
  }

  function ModSource(mods: seq<Mod>, i: nat): Source
    requires i < |mods|
  {
    Source(i + 1, mods[i].replacePaths, mods[i].dirs)
  }

  // The base game below every mod, the mods in the order given.
  function SourcesOf(vanilla: Option<map<string, seq<Entry>>>, mods: seq<Mod>): seq<Source> {
    (if vanilla.Some? then [Source(0, [], vanilla.value)] else [])
    + seq(|mods|, i requires 0 <= i < |mods| => ModSource(mods, i))
  }

  lemma SourcesAscend(vanilla: Option<map<string, seq<Entry>>>, mods: seq<Mod>)
    ensures AscendingSources(SourcesOf(vanilla, mods))
  {
  }

  // The first j paths replaced by mod i, and all those of the mods above it,
  // applied to a file.
  predicate Dropped(mods: seq<Mod>, i: nat, j: nat, logical: string, priority: nat)
    requires i <= |mods| && (i < |mods| ==> j <= |mods[i].replacePaths|)
  {
    (i < |mods| && priority < i + 1 && AnyCovers(mods[i].replacePaths[..j], logical))
    || exists k :: i < k < |mods| && priority < k + 1 && AnyCovers(mods[k].replacePaths, logical)
  }

  function Remaining(mods: seq<Mod>, i: nat, j: nat, best: Files): Files
    requires i <= |mods| && (i < |mods| ==> j <= |mods[i].replacePaths|)
  {
    map l | l in best && !Dropped(mods, i, j, l, best[l].priority) :: best[l]
  }

  lemma DropsOnePath(mods: seq<Mod>, i: nat, j: nat, best: Files)
    requires i < |mods| && j < |mods[i].replacePaths|
    ensures var was, rp := Remaining(mods, i, j, best), mods[i].replacePaths[j];
            Remaining(mods, i, j + 1, best) == map l | l in was && !(Covers(rp, l) && was[l].priority < i + 1) :: was[l]
  {
    hide Covers;
    forall l | l in best {
      CoversOneMore(mods[i].replacePaths, j, l);
    }
  }

  lemma CoversOneMore(replacePaths: seq<string>, j: nat, logical: string)
    requires j < |replacePaths|
    ensures AnyCovers(replacePaths[..j + 1], logical) <==>
            AnyCovers(replacePaths[..j], logical) || Covers(replacePaths[j], logical)
  {
    hide Covers;
    var now, was := replacePaths[..j + 1], replacePaths[..j];
    if AnyCovers(was, logical) {
      var x :| 0 <= x < |was| && Covers(was[x], logical);
      assert Covers(now[x], logical);
    }
    if Covers(replacePaths[j], logical) {
      assert Covers(now[j], logical);
    }
    if AnyCovers(now, logical) {
      var x :| 0 <= x < |now| && Covers(now[x], logical);
      assert x < j ==> Covers(was[x], logical);
    }
  }

  lemma NextModDown(mods: seq<Mod>, i: nat, best: Files)
    requires i < |mods|
    ensures i + 1 < |mods| ==>
              Remaining(mods, i, 0, best) == Remaining(mods, i + 1, |mods[i + 1].replacePaths|, best)
    ensures i + 1 == |mods| ==> Remaining(mods, i, 0, best) == best
  {
    hide Covers;
    if i + 1 < |mods| {
      var rps := mods[i + 1].replacePaths;
      assert rps[..|rps|] == rps;
    }
  }

  lemma SourceOfMod(vanilla: Option<map<string, seq<Entry>>>, mods: seq<Mod>)
    ensures var sources := SourcesOf(vanilla, mods);
            |sources| == |mods| + (if vanilla.Some? then 1 else 0)
            && (forall k :: 0 <= k < |mods| ==> sources[|sources| - |mods| + k] == ModSource(mods, k))
            && (vanilla.Some? ==> sources[0] == Source(0, [], vanilla.value))
  {
  }

  lemma DroppedIsSuppressed(vanilla: Option<map<string, seq<Entry>>>, mods: seq<Mod>, logical: string, priority: nat)
    ensures (mods != [] && Dropped(mods, 0, |mods[0].replacePaths|, logical, priority))
       <==> Suppressed(SourcesOf(vanilla, mods), logical, priority)
  {
    hide AnyCovers, SourcesOf;
    var sources := SourcesOf(vanilla, mods);
    var base := |sources| - |mods|;
    SourceOfMod(vanilla, mods);
    if mods != [] {
      assert mods[0].replacePaths[..|mods[0].replacePaths|] == mods[0].replacePaths;
    }
    if mods != [] && Dropped(mods, 0, |mods[0].replacePaths|, logical, priority) {
      var k :| 0 <= k < |mods| && priority < k + 1 && AnyCovers(mods[k].replacePaths, logical);
      assert sources[base + k] == ModSource(mods, k);
    }
    if Suppressed(sources, logical, priority) {
      var x :| 0 <= x < |sources| && priority < sources[x].priority && AnyCovers(sources[x].replacePaths, logical);
      var k := x - base;
      assert k >= 0 ==> sources[base + k] == ModSource(mods, k);
    }
  }

  // ---- The sorted result -------------------------------------------------------------

  function PathOf(hit: Hit): string { hit.logical }

  // Every path of `files` with its origin, once, in order.
  ghost predicate Lists(files: Files, list: seq<Hit>) {
    Ascending(PathOf, list)
    && (forall i :: 0 <= i < |list| ==> list[i].logical in files && files[list[i].logical] == list[i].origin)
    && forall l :: l in files ==> Hit(l, files[l]) in list
  }

  // The result does not depend on the order in which the map gave its paths.
  lemma ListIsUnique(files: Files, a: seq<Hit>, b: seq<Hit>)
    requires Lists(files, a) && Lists(files, b)
    ensures a == b
  {
    hide Before, Ascending;
    AscendingIsUnique(PathOf, a, b);
  }

  lemma InsertsHit(files: Files, list: seq<Hit>, hit: Hit, i: nat)
    requires Lists(files, list) && hit.logical !in files && i <= |list|
    requires forall k :: 0 <= k < i ==> Before(list[k].logical, hit.logical)
    requires i < |list| ==> !Before(list[i].logical, hit.logical)
    ensures Lists(files[hit.logical := hit.origin], list[..i] + [hit] + list[i..])
  {
    hide Before, Ascending;
    var longer, more := list[..i] + [hit] + list[i..], files[hit.logical := hit.origin];
    InsertKeepsSorted(list, hit, i);
    InsertMembers(list, hit, i);
    forall k | 0 <= k < |longer| ensures longer[k].logical in more && more[longer[k].logical] == longer[k].origin {
      assert longer[k] in longer;
      if longer[k] != hit {
        assert longer[k] in list;
      }
    }
  }

  lemma InsertMembers(list: seq<Hit>, hit: Hit, i: nat)
    requires i <= |list|
    ensures forall x :: x in list[..i] + [hit] + list[i..] <==> x == hit || x in list
  {
    assert list == list[..i] + list[i..];
  }

  lemma InsertKeepsSorted(list: seq<Hit>, hit: Hit, i: nat)
    requires Ascending(PathOf, list) && i <= |list| && forall k :: 0 <= k < |list| ==> list[k].logical != hit.logical
    requires forall k :: 0 <= k < i ==> Before(list[k].logical, hit.logical)
    requires i < |list| ==> !Before(list[i].logical, hit.logical)
    ensures Ascending(PathOf, list[..i] + [hit] + list[i..])
  {
    hide Before;
    forall k | i <= k < |list| ensures Before(hit.logical, list[k].logical) {
      BeforeIsTotal(hit.logical, list[i].logical);
      if k > i {
        BeforeChains(hit.logical, list[i].logical, list[k].logical);
      }
    }
  }

  method SortedByPath(files: Files) returns (list: seq<Hit>)
    ensures Lists(files, list)
  {
    hide Before, Ascending;
    list := [];
    var todo, done := files.Keys, map[];
    NothingListed();
    while todo != {}
      invariant todo <= files.Keys && done == files - todo && Lists(done, list)
      decreases |todo|
    {
      var l :| l in todo;
      var hit, i := Hit(l, files[l]), 0;
      while i < |list| && Before(list[i].logical, l)
        invariant 0 <= i <= |list|
        invariant forall k :: 0 <= k < i ==> Before(list[k].logical, l)
      {
        i := i + 1;
      }
      InsertsHit(done, list, hit, i);
      list := list[..i] + [hit] + list[i..];
      done := done[l := files[l]];
      todo := todo - {l};
      assert done == files - todo;
    }
    assert done == files;
  }

  lemma NothingListed()
    ensures Lists(map[], [])
  {
  }

  // A path's file comes from the highest source that has the path, if no source
  // above that one replaces it; then it is that source's first.
  lemma {:induction false} LayeredAt(sources: seq<Source>, includeDirs: seq<string>, k: nat, logical: string)
    requires k < |sources| && logical in Logicals(SourceHits(sources[k], includeDirs))
    requires forall i :: k < i < |sources| ==> logical !in Logicals(SourceHits(sources[i], includeDirs))
    ensures logical in Layered(sources, includeDirs)
       <==> forall i :: k < i < |sources| ==> !AnyCovers(sources[i].replacePaths, logical)
    ensures logical in Layered(sources, includeDirs) ==>
              Layered(sources, includeDirs)[logical] == FirstOrigin(SourceHits(sources[k], includeDirs), logical)
    decreases |sources|
  {
    hide AnyCovers, SourceHits, Logicals, FirstOrigin;
    var below := sources[..|sources| - 1];
    if k < |sources| - 1 {
      LayeredAt(below, includeDirs, k, logical);
    }
  }

  // ---- What discovery finds ------------------------------------------------------------

  ghost predicate PlainTrees(vanilla: Option<map<string, seq<Entry>>>, mods: seq<Mod>) {
    (vanilla.Some? ==> PlainDirs(vanilla.value)) && forall i :: 0 <= i < |mods| ==> PlainDirs(mods[i].dirs)
  }

  // Level 0 is the base game, level k the k-th mod.
  function DirsAt(vanilla: Option<map<string, seq<Entry>>>, mods: seq<Mod>, k: nat): map<string, seq<Entry>>
    requires k <= |mods|
  {
    if k > 0 then mods[k - 1].dirs else if vanilla.Some? then vanilla.value else map[]
  }

  predicate ReplacedAbove(mods: seq<Mod>, k: nat, logical: string) {
    exists i :: k <= i < |mods| && AnyCovers(mods[i].replacePaths, logical)
  }

  // A file of its level that no mod above replaces.
  ghost predicate Stands(vanilla: Option<map<string, seq<Entry>>>, mods: seq<Mod>, includeDirs: seq<string>, hit: Hit) {
    var k := hit.origin.priority;
    k <= |mods| && Has(DirsAt(vanilla, mods, k), includeDirs, hit.origin.path)
    && hit.logical == ToSlashes(hit.origin.path) && !ReplacedAbove(mods, k, hit.logical)
  }

  // Level k has the path, and no mod above has it or replaces it.
  ghost predicate Wins(vanilla: Option<map<string, seq<Entry>>>, mods: seq<Mod>, includeDirs: seq<string>, k: nat,
                       logical: string) {
    k <= |mods| && Offers(DirsAt(vanilla, mods, k), includeDirs, logical) && !ReplacedAbove(mods, k, logical)
    && forall i :: k < i <= |mods| ==> !Offers(DirsAt(vanilla, mods, i), includeDirs, logical)
  }

  ghost predicate ListedAt(result: seq<Hit>, k: nat, logical: string) {
    exists hit :: hit in result && hit.logical == logical && hit.origin.priority == k
  }

  // Every source is a level.
  lemma LevelOfSource(vanilla: Option<map<string, seq<Entry>>>, mods: seq<Mod>, j: nat)
    requires j < |SourcesOf(vanilla, mods)|
    ensures var source, k := SourcesOf(vanilla, mods)[j], j + |mods| + 1 - |SourcesOf(vanilla, mods)|;
            0 <= k <= |mods| && source.priority == k && source.dirs == DirsAt(vanilla, mods, k)
            && source.replacePaths == if k > 0 then mods[k - 1].replacePaths else []
  {
  }

  lemma CoveredAbove(vanilla: Option<map<string, seq<Entry>>>, mods: seq<Mod>, k: nat, logical: string)
    ensures Suppressed(SourcesOf(vanilla, mods), logical, k) <==> ReplacedAbove(mods, k, logical)
  {
    hide AnyCovers, SourcesOf;
    var sources := SourcesOf(vanilla, mods);
    SourceOfMod(vanilla, mods);
    if i :| k <= i < |mods| && AnyCovers(mods[i].replacePaths, logical) {
      assert sources[|sources| - |mods| + i] == ModSource(mods, i);
    }
    if x :| 0 <= x < |sources| && k < sources[x].priority && AnyCovers(sources[x].replacePaths, logical) {
      LevelOfSource(vanilla, mods, x);
      assert AnyCovers(mods[sources[x].priority - 1].replacePaths, logical);
    }
  }

  lemma {:induction false} FoldKeepsHits(hits: seq<Hit>, logical: string)
    requires logical in Fold(map[], hits)
    ensures Hit(logical, Fold(map[], hits)[logical]) in hits
  {
    if hits != [] {
      var front, hit := hits[..|hits| - 1], hits[|hits| - 1];
      if logical in Fold(map[], front) {
        FoldKeepsHits(front, logical);
      }
    }
  }

  lemma {:induction false} StreamHasSource(sources: seq<Source>, includeDirs: seq<string>, hit: Hit)
    requires hit in Stream(sources, includeDirs)
    ensures exists j :: 0 <= j < |sources| && hit in SourceHits(sources[j], includeDirs)
  {
    hide SourceHits;
    var below, top := sources[..|sources| - 1], sources[|sources| - 1];
    if hit in Stream(below, includeDirs) {
      StreamHasSource(below, includeDirs, hit);
      var j :| 0 <= j < |below| && hit in SourceHits(below[j], includeDirs);
      assert sources[j] == below[j];
    }
  }

  lemma KeptStand(vanilla: Option<map<string, seq<Entry>>>, mods: seq<Mod>, includeDirs: seq<string>, maxFiles: nat,
                  result: seq<Hit>, hit: Hit)
    requires PlainTrees(vanilla, mods) && hit in result
    requires var sources := SourcesOf(vanilla, mods);
             Lists(Unsuppressed(sources, Fold(map[], Take(Stream(sources, includeDirs), maxFiles))), result)
    ensures Stands(vanilla, mods, includeDirs, hit)
  {
    hide Fold, Take, Stream, SourceHits, PlainDirs, Ascending, Has, AnyCovers, SourcesOf, ToSlashes, ReplacedAbove,
         Suppressed;
    var sources := SourcesOf(vanilla, mods);
    var met := Take(Stream(sources, includeDirs), maxFiles);
    FoldKeepsHits(met, hit.logical);
    StreamHasSource(sources, includeDirs, hit);
    var j :| 0 <= j < |sources| && hit in SourceHits(sources[j], includeDirs);
    LevelOfSource(vanilla, mods, j);
    NoDirsArePlain();
    SourceHitsAre(sources[j], includeDirs, hit);
    CoveredAbove(vanilla, mods, hit.origin.priority, hit.logical);
  }

  lemma NoDirsArePlain()
    ensures PlainDirs(map[])
  {
  }

  ghost predicate WinsAmong(sources: seq<Source>, includeDirs: seq<string>, j: nat, logical: string) {
    j < |sources| && logical in Logicals(SourceHits(sources[j], includeDirs))
    && forall i :: j < i < |sources| ==>
      logical !in Logicals(SourceHits(sources[i], includeDirs)) && !AnyCovers(sources[i].replacePaths, logical)
  }

  lemma {:induction false} LayeredHasWinner(sources: seq<Source>, includeDirs: seq<string>, logical: string)
    requires logical in Layered(sources, includeDirs)
    ensures exists j :: WinsAmong(sources, includeDirs, j, logical)
  {
    hide AnyCovers, SourceHits, Logicals, FirstOrigin;
    var below, top := sources[..|sources| - 1], |sources| - 1;
    if logical in Logicals(SourceHits(sources[top], includeDirs)) {
      assert WinsAmong(sources, includeDirs, top, logical);
    } else {
      LayeredHasWinner(below, includeDirs, logical);
      var j :| WinsAmong(below, includeDirs, j, logical);
      assert WinsAmong(sources, includeDirs, j, logical);
    }
  }

  lemma WinnerIsLayered(sources: seq<Source>, includeDirs: seq<string>, j: nat, logical: string)
    requires WinsAmong(sources, includeDirs, j, logical)
    ensures logical in Layered(sources, includeDirs)
         && Layered(sources, includeDirs)[logical].priority == sources[j].priority
  {
    hide AnyCovers, SourceHits, Layered, FirstOrigin;
    var hits := SourceHits(sources[j], includeDirs);
    LayeredAt(sources, includeDirs, j, logical);
    FirstOriginIsHit(hits, logical);
    SourceHitsOf(sources[j], includeDirs);
  }

  lemma OffersAreLogicals(source: Source, includeDirs: seq<string>, logical: string)
    requires PlainDirs(source.dirs)
    ensures logical in Logicals(SourceHits(source, includeDirs)) <==> Offers(source.dirs, includeDirs, logical)
  {
    hide SourceHits, PlainDirs, Has, ToSlashes;
    var hits := SourceHits(source, includeDirs);
    if logical in Logicals(hits) {
      var hit :| hit in hits && hit.logical == logical;
      SourceHitsAre(source, includeDirs, hit);
    }
    if file :| Has(source.dirs, includeDirs, file) && logical == ToSlashes(file) {
      var hit := Hit(logical, Origin(file, source.priority));
      SourceHitsAre(source, includeDirs, hit);
      assert hit in hits;
    }
  }

  lemma WinnersAgree(vanilla: Option<map<string, seq<Entry>>>, mods: seq<Mod>, includeDirs: seq<string>, j: nat,
                     logical: string)
    requires PlainTrees(vanilla, mods) && j < |SourcesOf(vanilla, mods)|
    ensures WinsAmong(SourcesOf(vanilla, mods), includeDirs, j, logical)
       <==> Wins(vanilla, mods, includeDirs, SourcesOf(vanilla, mods)[j].priority, logical)
  {
    hide AnyCovers, SourceHits, Logicals, Offers, SourcesOf, PlainDirs;
    var sources := SourcesOf(vanilla, mods);
    var k := sources[j].priority;
    NoDirsArePlain();
    LevelOfSource(vanilla, mods, j);
    forall i | j <= i < |sources|
      ensures sources[i].priority == k + i - j <= |mods|
      ensures logical in Logicals(SourceHits(sources[i], includeDirs))
         <==> Offers(DirsAt(vanilla, mods, k + i - j), includeDirs, logical)
      ensures i > j ==> sources[i].replacePaths == mods[k + i - j - 1].replacePaths
    {
      LevelOfSource(vanilla, mods, i);
      OffersAreLogicals(sources[i], includeDirs, logical);
    }
    SourceOfMod(vanilla, mods);
    assert k + |sources| - 1 - j == |mods|;
    if WinsAmong(sources, includeDirs, j, logical) {
      forall i | k <= i < |mods|
        ensures !Offers(DirsAt(vanilla, mods, i + 1), includeDirs, logical)
        ensures !AnyCovers(mods[i].replacePaths, logical)
      {
        var x := j + i + 1 - k;
        assert j < x < |sources| && sources[x].replacePaths == mods[k + x - j - 1].replacePaths;
      }
      assert !ReplacedAbove(mods, k, logical);
    }
  }

  // What a layering lists: the paths a level wins, each from that level.
  lemma ListedAreWinners(vanilla: Option<map<string, seq<Entry>>>, mods: seq<Mod>, includeDirs: seq<string>,
                         result: seq<Hit>, k: nat, logical: string)
    requires PlainTrees(vanilla, mods) && Lists(Layered(SourcesOf(vanilla, mods), includeDirs), result)
    ensures ListedAt(result, k, logical) <==> Wins(vanilla, mods, includeDirs, k, logical)
  {
    hide Layered, SourcesOf, Ascending, PlainTrees, Offers, ReplacedAbove, WinsAmong;
    var sources := SourcesOf(vanilla, mods);
    var layered := Layered(sources, includeDirs);
    if ListedAt(result, k, logical) {
      var hit :| hit in result && hit.logical == logical && hit.origin.priority == k;
      LayeredHasWinner(sources, includeDirs, logical);
      var j :| WinsAmong(sources, includeDirs, j, logical);
      IsSource(sources, includeDirs, j, logical);
      WinnerIsLayered(sources, includeDirs, j, logical);
      WinnersAgree(vanilla, mods, includeDirs, j, logical);
    }
    if Wins(vanilla, mods, includeDirs, k, logical) {
      var j := SourceAt(vanilla, mods, includeDirs, k, logical);
      WinnersAgree(vanilla, mods, includeDirs, j, logical);
      WinnerIsLayered(sources, includeDirs, j, logical);
      assert Hit(logical, layered[logical]) in result;
    }
  }

  lemma IsSource(sources: seq<Source>, includeDirs: seq<string>, j: nat, logical: string)
    requires WinsAmong(sources, includeDirs, j, logical)
    ensures j < |sources|
  {
  }

  lemma SourceAt(vanilla: Option<map<string, seq<Entry>>>, mods: seq<Mod>, includeDirs: seq<string>, k: nat,
                 logical: string) returns (j: nat)
    requires Wins(vanilla, mods, includeDirs, k, logical)
    ensures j < |SourcesOf(vanilla, mods)| && SourcesOf(vanilla, mods)[j].priority == k
  {
    var sources := SourcesOf(vanilla, mods);
    j := if k > 0 then |sources| - |mods| + k - 1 else 0;
    if k == 0 && vanilla.None? {
      NothingOffered(includeDirs, logical);
    }
  }

  lemma NothingOffered(includeDirs: seq<string>, logical: string)
    ensures !Offers(map[], includeDirs, logical)
  {
  }

  // What is found under a budget: the best origins among the first files met,
  // less those a higher mod replaces, sorted by path. When the budget holds them
  // all, that is the layering of the sources.
  method DiscoverFiles(vanilla: Option<map<string, seq<Entry>>>, mods: seq<Mod>, includeDirs: seq<string>,
                       maxFiles: nat)
    returns (result: seq<Hit>)
    ensures var sources := SourcesOf(vanilla, mods);
            Lists(Unsuppressed(sources, Fold(map[], Take(Stream(sources, includeDirs), maxFiles))), result)
    ensures var sources := SourcesOf(vanilla, mods);
            |Stream(sources, includeDirs)| <= maxFiles ==> Lists(Layered(sources, includeDirs), result)
    ensures PlainTrees(vanilla, mods) ==>
              forall hit :: hit in result ==> Stands(vanilla, mods, includeDirs, hit)
    ensures PlainTrees(vanilla, mods) && |Stream(SourcesOf(vanilla, mods), includeDirs)| <= maxFiles ==>
              forall k: nat, l :: ListedAt(result, k, l) <==> Wins(vanilla, mods, includeDirs, k, l)
  {
    hide Stands, Wins, ListedAt, PlainTrees, Fold, Take, Stream, Layered, SourcesOf, Unsuppressed, AscendingSources,
         Lists;
    var sources := [];
    match vanilla {
      case Some(v) => sources := sources + [Source(0, [], v)];
      case None =>
    }
    var i := 0;
    SourcesStart(vanilla, mods);
    while i < |mods|
      invariant 0 <= i <= |mods|
      invariant sources == SourcesOf(vanilla, mods[..i])
    {
      sources := sources + [Source(i + 1, mods[i].replacePaths, mods[i].dirs)];
      SourcesPush(vanilla, mods, i);
      i := i + 1;
    }
    assert mods[..i] == mods;
    var best := CollectSources(sources, includeDirs, maxFiles);
    var kept := SuppressReplaced(mods, best);
    SuppressionMatches(vanilla, mods, best, kept);
    if |Stream(sources, includeDirs)| <= maxFiles {
      SourcesAscend(vanilla, mods);
      BestIsLayered(sources, includeDirs);
      TakeAll(Stream(sources, includeDirs), maxFiles);
    }
    result := SortedByPath(kept);
    if PlainTrees(vanilla, mods) {
      forall hit | hit in result ensures Stands(vanilla, mods, includeDirs, hit) {
        KeptStand(vanilla, mods, includeDirs, maxFiles, result, hit);
      }
      if |Stream(SourcesOf(vanilla, mods), includeDirs)| <= maxFiles {
        forall k: nat, l ensures ListedAt(result, k, l) <==> Wins(vanilla, mods, includeDirs, k, l) {
          ListedAreWinners(vanilla, mods, includeDirs, result, k, l);
        }
      }
    }
  }

  lemma TakeAll(hits: seq<Hit>, n: nat)
    ensures |hits| <= n ==> Take(hits, n) == hits
  {
  }

  lemma SourcesStart(vanilla: Option<map<string, seq<Entry>>>, mods: seq<Mod>)
    ensures SourcesOf(vanilla, mods[..0]) == if vanilla.Some? then [Source(0, [], vanilla.value)] else []
  {
  }

  lemma SourcesPush(vanilla: Option<map<string, seq<Entry>>>, mods: seq<Mod>, i: nat)
    requires i < |mods|
    ensures SourcesOf(vanilla, mods[..i + 1]) == SourcesOf(vanilla, mods[..i]) + [ModSource(mods, i)]
  {
  }

  lemma SuppressionMatches(vanilla: Option<map<string, seq<Entry>>>, mods: seq<Mod>, best: Files, result: Files)
    requires result == if mods == [] then best else Remaining(mods, 0, |mods[0].replacePaths|, best)
    ensures result == Unsuppressed(SourcesOf(vanilla, mods), best)
  {
    hide Dropped, Suppressed, SourcesOf;
    forall l | l in best {
      DroppedIsSuppressed(vanilla, mods, l, best[l].priority);
    }
  }

  method CollectSources(sources: seq<Source>, includeDirs: seq<string>, maxFiles: nat) returns (best: Files)
    ensures best == Fold(map[], Take(Stream(sources, includeDirs), maxFiles))
  {
    hide Fold, Take, SourceHits, Stream, Base;
    var collector := new Collector(maxFiles);
    NoSources(includeDirs, maxFiles);
    var s := 0;
    while s < |sources|
      invariant 0 <= s <= |sources|
      invariant collector.Collected(map[], maxFiles, Stream(sources[..s], includeDirs))
    {
      ghost var best0, left := collector.best, collector.remaining;
      var source := sources[s];
      NoDirs(source, best0, left);
      var d := 0;
      while d < |includeDirs|
        invariant 0 <= d <= |includeDirs|
        invariant collector.Collected(best0, left, SourceHits(source, includeDirs[..d]))
      {
        ghost var best1, left1 := collector.best, collector.remaining;
        var includeDir := includeDirs[d];
        if includeDir in source.dirs {
          collector.CollectFiles(Dir(source.dirs[includeDir]), Base(includeDir), source.priority);
        } else {
          NoHits(best1, left1);
        }
        CollectedOn(best0, left, SourceHits(source, includeDirs[..d]), DirHits(source, includeDir), best1, left1,
                    collector.best, collector.remaining);
        SourceHitsStep(source, includeDirs, d);
        d := d + 1;
      }
      assert includeDirs[..d] == includeDirs;
      CollectedOn(map[], maxFiles, Stream(sources[..s], includeDirs), SourceHits(source, includeDirs), best0, left,
                  collector.best, collector.remaining);
      StreamStep(sources, includeDirs, s);
      s := s + 1;
    }
    assert sources[..s] == sources;
    best := collector.best;
  }

  lemma NoHits(best: Files, left: nat)
    ensures Fold(best, Take([], left)) == best && |Take<Hit>([], left)| == 0
  {
  }

  lemma NoSources(includeDirs: seq<string>, left: nat)
    ensures Fold(map[], Take(Stream([], includeDirs), left)) == map[] && |Take(Stream([], includeDirs), left)| == 0
  {
  }

  lemma NoDirs(source: Source, best: Files, left: nat)
    ensures Fold(best, Take(SourceHits(source, []), left)) == best && |Take(SourceHits(source, []), left)| == 0
  {
  }

  lemma SourceHitsStep(source: Source, includeDirs: seq<string>, d: nat)
    requires d < |includeDirs|
    ensures SourceHits(source, includeDirs[..d + 1])
         == SourceHits(source, includeDirs[..d]) + DirHits(source, includeDirs[d])
  {
    assert includeDirs[..d + 1][..d] == includeDirs[..d];
  }

  lemma StreamStep(sources: seq<Source>, includeDirs: seq<string>, s: nat)
    requires s < |sources|
    ensures Stream(sources[..s + 1], includeDirs)
         == Stream(sources[..s], includeDirs) + SourceHits(sources[s], includeDirs)
  {
    assert sources[..s + 1][..s] == sources[..s];
  }

  // The mods from the highest down, each dropping what it replaces below it.
  method SuppressReplaced(mods: seq<Mod>, all: Files) returns (best: Files)
    ensures best == if mods == [] then all else Remaining(mods, 0, |mods[0].replacePaths|, all)
  {
    hide Remaining, Covers;
    best := all;
    var i: nat := |mods|;
    while i > 0
      invariant i <= |mods|
      invariant best == if i == |mods| then all else Remaining(mods, i, |mods[i].replacePaths|, all)
    {
      i := i - 1;
      NextModDown(mods, i, all);
      var replaced := mods[i].replacePaths;
      var j := 0;
      while j < |replaced|
        invariant 0 <= j <= |replaced|
        invariant best == Remaining(mods, i, j, all)
      {
        DropsOnePath(mods, i, j, all);
        best := map l | l in best && !(Covers(replaced[j], l) && best[l].priority < i + 1) :: best[l];
        j := j + 1;
      }
    }
  }
}

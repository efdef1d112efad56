/** Directory trees as discovery sees them, and the names it never enters,
    file_manager.rs. */
module FileTrees {
  import opened Text

  // What `read_dir` reports; symlinks, pipes and devices are Special. The entries
  // of a directory stand in the order `read_dir` gives them.
  datatype Node = File | Special | Unreadable | Dir(entries: seq<Entry>)

  datatype Entry = Entry(name: string, node: Node)

  const EXCLUDED_DIRS: seq<string> := [
    ".git", ".claude", "target", ".vs", "node_modules", "out", "dist", "bin", "obj", ".idea", ".vscode"
  ]

  const EXCLUDED_ROOT_DIRS: seq<string> := ["resources"]

  predicate NamedIn(names: seq<string>, name: string) {
    exists i :: 0 <= i < |names| && EqIgnoreCase(name, names[i])
  }

  // Paths are the names from the root down.
  type Path = seq<string>

  predicate FileBelow(entry: Entry, path: Path)
    decreases |path|, 0
  {
    path != [] && entry.name == path[0]
    && if |path| == 1 then entry.node.File? else entry.node.Dir? && IsFileAt(entry.node.entries, path[1..])
  }

  // `path` leads to a regular file.
  predicate IsFileAt(entries: seq<Entry>, path: Path)
    decreases |path|, 1
  {
    exists i :: 0 <= i < |entries| && FileBelow(entries[i], path)
  }

  lemma LastEntry(entries: seq<Entry>, path: Path)
    requires entries != []
    ensures IsFileAt(entries, path)
       <==> IsFileAt(entries[..|entries| - 1], path) || FileBelow(entries[|entries| - 1], path)
  {
  }

  // The forward-slash spelling of a path.
  function ToSlashes(s: string): (r: string)
    ensures |r| == |s|
    ensures forall i :: 0 <= i < |s| ==> r[i] == if s[i] == '\\' then '/' else s[i]
  {
    seq(|s|, i requires 0 <= i < |s| => if s[i] == '\\' then '/' else s[i])
  }

  // ---- Directories in order of their names ------------------------------------

  function NameOf(entry: Entry): string { entry.name }

  function Insert(entry: Entry, entries: seq<Entry>): seq<Entry> {
    if entries == [] || Before(entry.name, entries[0].name) then [entry] + entries
    else [entries[0]] + Insert(entry, entries[1..])
  }

  function SortByName(entries: seq<Entry>): seq<Entry> {
    if entries == [] then [] else Insert(entries[|entries| - 1], SortByName(entries[..|entries| - 1]))
  }

  lemma {:induction false} InsertMembers(entry: Entry, entries: seq<Entry>)
    ensures forall x :: x in Insert(entry, entries) <==> x == entry || x in entries
  {
    if entries != [] && !Before(entry.name, entries[0].name) {
      InsertMembers(entry, entries[1..]);
      assert entries == [entries[0]] + entries[1..];
    }
  }

  lemma {:induction false} SortMembers(entries: seq<Entry>)
    ensures forall x :: x in SortByName(entries) <==> x in entries
  {
    if entries != [] {
      var front, last := entries[..|entries| - 1], entries[|entries| - 1];
      SortMembers(front);
      InsertMembers(last, SortByName(front));
      assert entries == front + [last];
    }
  }

  ghost predicate DistinctNames(entries: seq<Entry>) {
    forall i, j :: 0 <= i < j < |entries| ==> entries[i].name != entries[j].name
  }

  lemma {:induction false} InsertAscends(entry: Entry, entries: seq<Entry>)
    requires Ascending(NameOf, entries) && forall x :: x in entries ==> x.name != entry.name
    ensures Ascending(NameOf, Insert(entry, entries))
  {
    hide Before;
    if entries != [] {
      BeforeIsTotal(entry.name, entries[0].name);
      if Before(entry.name, entries[0].name) {
        forall j | 0 < j < |entries| ensures Before(entry.name, entries[j].name) {
          BeforeChains(entry.name, entries[0].name, entries[j].name);
        }
      } else {
        var rest := entries[1..];
        InsertAscends(entry, rest);
        InsertMembers(entry, rest);
        forall x | x in Insert(entry, rest) ensures Before(entries[0].name, x.name) {
        }
      }
    }
  }

  lemma {:induction false} SortAscends(entries: seq<Entry>)
    requires DistinctNames(entries)
    ensures Ascending(NameOf, SortByName(entries))
  {
    if entries != [] {
      var front, last := entries[..|entries| - 1], entries[|entries| - 1];
      SortAscends(front);
      SortMembers(front);
      InsertAscends(last, SortByName(front));
    }
  }

  // The tree with every directory sorted by name.
  function Ordered(node: Node): Node
    decreases node
  {
    match node
    case Dir(entries) => Dir(SortByName(EachOrdered(entries)))
    case _ => node
  }

  function EachOrdered(entries: seq<Entry>): (r: seq<Entry>)
    ensures |r| == |entries|
    ensures forall i :: 0 <= i < |entries| ==> r[i] == Entry(entries[i].name, Ordered(entries[i].node))
    decreases entries
  {
    seq(|entries|, i requires 0 <= i < |entries| => Entry(entries[i].name, Ordered(entries[i].node)))
  }

  lemma {:induction false} InsertOrdered(entry: Entry, entries: seq<Entry>)
    ensures EachOrdered(Insert(entry, entries)) == Insert(Entry(entry.name, Ordered(entry.node)), EachOrdered(entries))
  {
    hide Ordered;
    if entries != [] && !Before(entry.name, entries[0].name) {
      InsertOrdered(entry, entries[1..]);
      assert EachOrdered(entries)[1..] == EachOrdered(entries[1..]);
    }
  }

  // A directory may be sorted before the ones below it.
  lemma {:induction false} SortThenOrder(entries: seq<Entry>)
    ensures EachOrdered(SortByName(entries)) == SortByName(EachOrdered(entries))
  {
    hide Ordered;
    if entries != [] {
      var front, last := entries[..|entries| - 1], entries[|entries| - 1];
      SortThenOrder(front);
      InsertOrdered(last, SortByName(front));
      assert EachOrdered(entries)[..|front|] == EachOrdered(front);
    }
  }

  predicate HasName(name: string, entries: seq<Entry>) {
    exists i :: 0 <= i < |entries| && entries[i].name == name
  }

  ghost predicate HasSame(entry: Entry, entries: seq<Entry>)
    decreases entry, 0
  {
    exists j :: 0 <= j < |entries| && entries[j].name == entry.name && SameTree(entry.node, entries[j].node)
  }

  // The same files and directories, whatever order `read_dir` gives them in.
  ghost predicate SameTree(a: Node, b: Node)
    decreases a
  {
    if a.Dir? && b.Dir? then
      && DistinctNames(a.entries) && DistinctNames(b.entries)
      && (forall i :: 0 <= i < |a.entries| ==> HasSame(a.entries[i], b.entries))
      && forall j :: 0 <= j < |b.entries| ==> HasName(b.entries[j].name, a.entries)
    else
      a == b
  }

  // Sorting takes the order away and nothing else.
  lemma {:induction false} SameTreeSameOrder(a: Node, b: Node)
    requires SameTree(a, b)
    ensures Ordered(a) == Ordered(b)
    decreases a
  {
    if a.Dir? && b.Dir? {
      hide Ordered;
      var x, y := EachOrdered(a.entries), EachOrdered(b.entries);
      forall i | 0 <= i < |x| ensures x[i] in y {
        var e := a.entries[i];
        assert HasSame(e, b.entries);
        var j :| 0 <= j < |b.entries| && b.entries[j].name == e.name && SameTree(e.node, b.entries[j].node);
        SameTreeSameOrder(e.node, b.entries[j].node);
        assert y[j] == x[i];
      }
      forall j | 0 <= j < |y| ensures HasName(y[j].name, x) {
        assert HasName(b.entries[j].name, a.entries);
        var i :| 0 <= i < |a.entries| && a.entries[i].name == b.entries[j].name;
        assert x[i].name == y[j].name;
      }
      SameMembersSortAlike(x, y);
      OrderedDir(a.entries);
      OrderedDir(b.entries);
    }
  }

  lemma OrderedDir(entries: seq<Entry>)
    ensures Ordered(Dir(entries)) == Dir(SortByName(EachOrdered(entries)))
  {
  }

  lemma SameMembersSortAlike(a: seq<Entry>, b: seq<Entry>)
    requires DistinctNames(a) && DistinctNames(b) && forall i :: 0 <= i < |a| ==> a[i] in b
    requires forall j :: 0 <= j < |b| ==> HasName(b[j].name, a)
    ensures SortByName(a) == SortByName(b)
  {
    forall j | 0 <= j < |b| ensures b[j] in a {
      assert HasName(b[j].name, a);
      var i :| 0 <= i < |a| && a[i].name == b[j].name;
      var k :| 0 <= k < |b| && b[k] == a[i];
      assert k == j;
    }
    SortMembers(a);
    SortMembers(b);
    SortAscends(a);
    SortAscends(b);
    AscendingIsUnique(NameOf, SortByName(a), SortByName(b));
  }

  // ---- Budgets -------------------------------------------------------------------

  // The first n elements, or all when there are fewer.
  function Take<T>(s: seq<T>, n: nat): (r: seq<T>)
    ensures |r| == if |s| <= n then |s| else n
    ensures r <= s
  {
    if |s| <= n then s else s[..n]
  }

  // A budget spent on one list and then the next is spent on both.
  lemma TakeConcat<T>(a: seq<T>, b: seq<T>, n: nat)
    ensures Take(a + b, n) == Take(a, n) + Take(b, n - |Take(a, n)|)
  {
  }

  lemma TakeSpent<T>(a: seq<T>, b: seq<T>, n: nat)
    requires a <= b && |Take(a, n)| == n
    ensures Take(a, n) == Take(b, n)
  {
  }
}

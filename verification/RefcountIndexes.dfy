/** The refcounted per-file indexes: `NamedValueIndex` (dynamic_values.rs) and
    `ScriptedLocIndex` (type_index.rs). Each keeps a refcount table beside the
    per-file lists it was built from; the lists are the simple thing. */
module RefcountIndexes {
  import opened Text
  import opened Counting

  type Pair = (string, string)
  type ValueTable = map<string, map<string, nat>>

  predicate AnyFile(file: string) { true }

  function Is<X(==)>(x: X): X -> bool { (y: X) => y == x }

  function Values(byName: ValueTable, name: string): map<string, nat> {
    if name in byName then byName[name] else map[]
  }

  ghost function PairTotal(perFile: map<string, seq<Pair>>, name: string): string -> nat {
    v => Tally(perFile, AnyFile, Is((name, v)))
  }

  // `byName` counts exactly the pairs the files list, with no empty set kept.
  ghost predicate Exact(byName: ValueTable, perFile: map<string, seq<Pair>>) {
    && (forall name :: Refcounts(Values(byName, name), PairTotal(perFile, name)))
    && (forall name :: name in byName ==> byName[name] != map[])
  }

  // Some file lists `value` under `name`.
  ghost predicate Contributed(perFile: map<string, seq<Pair>>, name: string, value: string) {
    exists f :: f in perFile && (name, value) in perFile[f]
  }

  function Added(byName: ValueTable, p: Pair): ValueTable {
    byName[p.0 := IncRef(Values(byName, p.0), p.1)]
  }

  function Dropped(byName: ValueTable, p: Pair): ValueTable
    requires p.0 in byName && p.1 in byName[p.0] ==> byName[p.0][p.1] > 0
  {
    if p.0 !in byName then byName
    else
      var vals := DecRef(byName[p.0], p.1);
      if vals == map[] then byName - {p.0} else byName[p.0 := vals]
  }

  lemma PairTotalAfterAdd(perFile: map<string, seq<Pair>>, f: string, p: Pair, name: string)
    ensures forall v :: PairTotal(perFile[f := ListOf(perFile, f) + [p]], name)(v)
                     == PairTotal(perFile, name)(v) + (if (name, v) == p then 1 else 0)
  {
    var b := ListOf(perFile, f);
    assert (b + [p])[..|b|] == b;
    forall v ensures PairTotal(perFile[f := b + [p]], name)(v)
                  == PairTotal(perFile, name)(v) + (if (name, v) == p then 1 else 0)
    {
      TallyChanges(perFile, AnyFile, Is((name, v)), f, b + [p]);
    }
  }

  lemma ExactAfterAdd(byName: ValueTable, perFile: map<string, seq<Pair>>, f: string, p: Pair)
    requires Exact(byName, perFile)
    ensures Exact(Added(byName, p), perFile[f := ListOf(perFile, f) + [p]])
  {
    var after, perFile' := Added(byName, p), perFile[f := ListOf(perFile, f) + [p]];
    forall name ensures Refcounts(Values(after, name), PairTotal(perFile', name)) {
      PairTotalAfterAdd(perFile, f, p, name);
      if name == p.0 {
        RefcountsIncrease(Values(byName, name), PairTotal(perFile, name), PairTotal(perFile', name), p.1);
      } else {
        RefcountsSame(Values(byName, name), PairTotal(perFile, name), PairTotal(perFile', name));
      }
    }
    forall name | name in after ensures after[name] != map[] {
      if name == p.0 { assert p.1 in after[name]; }
    }
  }

  lemma PairTotalAfterDrop(perFile: map<string, seq<Pair>>, f: string, rest: seq<Pair>, p: Pair, name: string)
    requires multiset(ListOf(perFile, f)) == multiset(rest) + multiset{p}
    ensures forall v :: PairTotal(perFile, name)(v)
                     == PairTotal(perFile[f := rest], name)(v) + (if (name, v) == p then 1 else 0)
  {
    forall v ensures PairTotal(perFile, name)(v)
                  == PairTotal(perFile[f := rest], name)(v) + (if (name, v) == p then 1 else 0)
    {
      TallyChanges(perFile, AnyFile, Is((name, v)), f, rest);
      CountDrop(ListOf(perFile, f), rest, p, Is((name, v)));
    }
  }

  lemma ValuesAfterDrop(byName: ValueTable, p: Pair, name: string)
    requires p.0 in byName && p.1 in byName[p.0] && byName[p.0][p.1] > 0
    ensures Values(Dropped(byName, p), name)
         == if name == p.0 then DecRef(Values(byName, name), p.1) else Values(byName, name)
    ensures (forall n :: n in byName ==> byName[n] != map[]) ==>
            forall n :: n in Dropped(byName, p) ==> Dropped(byName, p)[n] != map[]
  {
  }

  lemma ExactAfterDrop(byName: ValueTable, perFile: map<string, seq<Pair>>, f: string, rest: seq<Pair>, p: Pair)
    requires Exact(byName, perFile)
    requires multiset(ListOf(perFile, f)) == multiset(rest) + multiset{p}
    ensures p.0 in byName && p.1 in byName[p.0] && byName[p.0][p.1] > 0
    ensures Exact(Dropped(byName, p), perFile[f := rest])
  {
    hide Refcounts, DecRef, Dropped, PairTotal;
    var perFile' := perFile[f := rest];
    PairTotalAfterDrop(perFile, f, rest, p, p.0);
    RefcountsDecrease(Values(byName, p.0), PairTotal(perFile, p.0), PairTotal(perFile', p.0), p.1);
    forall name ensures Refcounts(Values(Dropped(byName, p), name), PairTotal(perFile', name)) {
      ValuesAfterDrop(byName, p, name);
      if name != p.0 {
        PairTotalAfterDrop(perFile, f, rest, p, name);
        RefcountsSame(Values(byName, name), PairTotal(perFile, name), PairTotal(perFile', name));
      }
    }
    ValuesAfterDrop(byName, p, p.0);
  }

  lemma ExactIgnoresEmpty(byName: ValueTable, perFile: map<string, seq<Pair>>, f: string)
    requires Exact(byName, perFile) && ListOf(perFile, f) == []
    ensures Exact(byName, perFile - {f}) && Exact(byName, perFile[f := []])
  {
    forall name
      ensures Refcounts(Values(byName, name), PairTotal(perFile - {f}, name))
      ensures Refcounts(Values(byName, name), PairTotal(perFile[f := []], name))
    {
      forall v ensures PairTotal(perFile - {f}, name)(v) == PairTotal(perFile, name)(v)
                    == PairTotal(perFile[f := []], name)(v)
      {
        TallyIgnoresEmpty(perFile, AnyFile, Is((name, v)), f);
      }
      RefcountsSame(Values(byName, name), PairTotal(perFile, name), PairTotal(perFile - {f}, name));
      RefcountsSame(Values(byName, name), PairTotal(perFile, name), PairTotal(perFile[f := []], name));
    }
  }

  // An exact table knows a value exactly when some file lists it.
  lemma ExactKnows(byName: ValueTable, perFile: map<string, seq<Pair>>, name: string, value: string)
    requires Exact(byName, perFile)
    ensures name in byName && value in byName[name] <==> Contributed(perFile, name, value)
  {
    assert Refcounts(Values(byName, name), PairTotal(perFile, name));
    assert value in Values(byName, name) <==> PairTotal(perFile, name)(value) > 0;
    TallyPositive(perFile, AnyFile, Is((name, value)));
    if PairTotal(perFile, name)(value) > 0 {
      var f, k :| f in perFile && AnyFile(f) && 0 <= k < |perFile[f]| && Is((name, value))(perFile[f][k]);
      assert (name, value) in perFile[f];
    }
    if Contributed(perFile, name, value) {
      var f :| f in perFile && (name, value) in perFile[f];
      var k :| 0 <= k < |perFile[f]| && perFile[f][k] == (name, value);
      assert AnyFile(f) && Is((name, value))(perFile[f][k]);
    }
  }

  // However it was reached, the table is the one a rebuild from the files'
  // current lists gives.
  lemma DeterminedByFiles(b1: ValueTable, p1: map<string, seq<Pair>>, b2: ValueTable, p2: map<string, seq<Pair>>)
    requires Exact(b1, p1) && Exact(b2, p2)
    requires p1.Keys == p2.Keys && forall f :: f in p1 ==> multiset(p1[f]) == multiset(p2[f])
    ensures b1 == b2
  {
    hide Refcounts;
    forall name ensures Values(b1, name) == Values(b2, name) {
      SameValues(b1, p1, b2, p2, name);
    }
    forall name ensures name in b1 <==> name in b2 {
      assert name in b1 <==> Values(b1, name) != map[];
      assert name in b2 <==> Values(b2, name) != map[];
    }
    forall name | name in b1 ensures b1[name] == b2[name] {
      assert b1[name] == Values(b1, name) && b2[name] == Values(b2, name);
    }
  }

  lemma SameValues(b1: ValueTable, p1: map<string, seq<Pair>>, b2: ValueTable, p2: map<string, seq<Pair>>, name: string)
    requires Refcounts(Values(b1, name), PairTotal(p1, name)) && Refcounts(Values(b2, name), PairTotal(p2, name))
    requires p1.Keys == p2.Keys && forall f :: f in p1 ==> multiset(p1[f]) == multiset(p2[f])
    ensures Values(b1, name) == Values(b2, name)
  {
    hide Refcounts;
    forall v ensures PairTotal(p1, name)(v) == PairTotal(p2, name)(v) {
      forall f | f in p1 ensures Count(p1[f], Is((name, v))) == Count(p2[f], Is((name, v))) {
        CountPermutation(p1[f], p2[f], Is((name, v)));
      }
      assert TallyTable(p1, AnyFile, Is((name, v))) == TallyTable(p2, AnyFile, Is((name, v)));
    }
    RefcountsUnique(Values(b1, name), Values(b2, name), PairTotal(p1, name), PairTotal(p2, name));
  }

  // What a batch of items lists under (name, value).
  function Listed(items: map<string, seq<string>>, p: Pair): nat {
    if p.0 in items then multiset(items[p.0])[p.1] else 0
  }

  function Tagged(name: string, values: seq<string>): (r: seq<Pair>)
    ensures |r| == |values| && forall k :: 0 <= k < |values| ==> r[k] == (name, values[k])
  {
    seq(|values|, k requires 0 <= k < |values| => (name, values[k]))
  }

  lemma {:induction false} TaggedCounts(name: string, values: seq<string>, p: Pair)
    ensures multiset(Tagged(name, values))[p] == if p.0 == name then multiset(values)[p.1] else 0
  {
    if values != [] {
      var last := |values| - 1;
      TaggedCounts(name, values[..last], p);
      assert values == values[..last] + [values[last]];
      assert Tagged(name, values) == Tagged(name, values[..last]) + [(name, values[last])];
    }
  }

  class NamedValueIndex {
    var byName: ValueTable
    var perFile: map<string, seq<Pair>>

    ghost predicate Valid()
      reads this
    {
      Exact(byName, perFile) && forall f :: f in perFile ==> perFile[f] != []
    }

    constructor ()
      ensures Valid() && perFile == map[]
    {
      byName, perFile := map[], map[];
      new;
      forall name, v ensures PairTotal(perFile, name)(v) == 0 {
        TallyPositive(perFile, AnyFile, Is((name, v)));
      }
    }

    // Count the values of one name; `flat` is the file's list so far.
    method AddValues(fileUri: string, name: string, values: seq<string>, flat: seq<Pair>,
                     ghost others: map<string, seq<Pair>>)
      returns (longer: seq<Pair>)
      requires Exact(byName, others[fileUri := flat])
      modifies this`byName
      ensures Exact(byName, others[fileUri := longer])
      ensures longer == flat + Tagged(name, values)
    {
      hide Exact;
      longer := flat;
      var i := 0;
      while i < |values|
        invariant 0 <= i <= |values|
        invariant longer == flat + Tagged(name, values)[..i]
        invariant Exact(byName, others[fileUri := longer])
      {
        var v := values[i];
        ExactAfterAdd(byName, others[fileUri := longer], fileUri, (name, v));
        assert others[fileUri := longer][fileUri := longer + [(name, v)]] == others[fileUri := longer + [(name, v)]];
        var vals := if name in byName then byName[name] else map[];
        byName := byName[name := vals[v := (if v in vals then vals[v] else 0) + 1]];
        longer := longer + [(name, v)];
        i := i + 1;
      }
    }

    // Replace the file's contribution with `items`.
    method MergeFile(fileUri: string, items: map<string, seq<string>>)
      requires Valid()
      modifies this
      ensures Valid()
      ensures perFile - {fileUri} == old(perFile) - {fileUri}
      ensures forall p ::
                multiset(ListOf(perFile, fileUri))[p] == if p.0 in items then multiset(items[p.0])[p.1] else 0
    {
      hide Exact;
      RemoveFile(fileUri);
      ghost var others := perFile;
      var flat: seq<Pair> := [];
      var todo := items.Keys;
      ExactIgnoresEmpty(byName, others, fileUri);
      while todo != {}
        invariant todo <= items.Keys
        invariant perFile == others
        invariant Exact(byName, others[fileUri := flat])
        invariant forall p: Pair :: multiset(flat)[p] == if p.0 in todo then 0 else Listed(items, p)
        decreases todo
      {
        var name :| name in todo;
        ghost var before := flat;
        flat := AddValues(fileUri, name, items[name], flat, others);
        todo := todo - {name};
        forall p: Pair ensures multiset(flat)[p] == if p.0 in todo then 0 else Listed(items, p) {
          TaggedCounts(name, items[name], p);
        }
      }
      if flat != [] {
        perFile := perFile[fileUri := flat];
      } else {
        ExactIgnoresEmpty(byName, others[fileUri := []], fileUri);
        assert others[fileUri := []] - {fileUri} == others;
      }
      assert perFile - {fileUri} == others - {fileUri} == old(perFile) - {fileUri};
    }

    // Drop the file's contribution.
    method RemoveFile(fileUri: string)
      requires Valid()
      modifies this
      ensures Valid()
      ensures perFile == old(perFile) - {fileUri}
    {
      hide Exact;
      if fileUri !in perFile {
        assert perFile == perFile - {fileUri};
        return;
      }
      var flat := perFile[fileUri];
      ghost var before := perFile;
      perFile := perFile - {fileUri};
      var i := 0;
      assert before[fileUri := flat[0..]] == before;
      while i < |flat|
        invariant 0 <= i <= |flat|
        invariant perFile == before - {fileUri}
        invariant Exact(byName, before[fileUri := flat[i..]])
      {
        var (name, v) := flat[i];
        assert flat[i..] == [flat[i]] + flat[i + 1..];
        ExactAfterDrop(byName, before[fileUri := flat[i..]], fileUri, flat[i + 1..], flat[i]);
        assert before[fileUri := flat[i..]][fileUri := flat[i + 1..]] == before[fileUri := flat[i + 1..]];
        if name in byName {
          var vals := DecRef(byName[name], v);
          assert byName[name := vals] - {name} == byName - {name};
          byName := byName[name := vals];
          if vals == map[] {
            byName := byName - {name};
          }
        }
        i := i + 1;
      }
      ExactIgnoresEmpty(byName, before[fileUri := flat[i..]], fileUri);
      assert before[fileUri := flat[i..]] - {fileUri} == perFile;
    }

    method Contains(name: string, value: string) returns (known: bool)
      requires Valid()
      ensures known <==> Contributed(perFile, name, value)
    {
      ExactKnows(byName, perFile, name, value);
      known := name in byName && value in byName[name];
    }
  }

  // ---- Scripted localisation names -------------------------------------------

  ghost function ListedTotal(perFile: map<string, seq<string>>): string -> nat {
    n => Tally(perFile, AnyFile, Is(n))
  }

  lemma NamesAfterAdd(names: map<string, nat>, perFile: map<string, seq<string>>, f: string, n: string)
    requires Refcounts(names, ListedTotal(perFile))
    ensures Refcounts(IncRef(names, n), ListedTotal(perFile[f := ListOf(perFile, f) + [n]]))
  {
    hide Refcounts;
    var b := ListOf(perFile, f);
    assert (b + [n])[..|b|] == b;
    forall x ensures ListedTotal(perFile[f := b + [n]])(x) == ListedTotal(perFile)(x) + (if x == n then 1 else 0) {
      TallyChanges(perFile, AnyFile, Is(x), f, b + [n]);
    }
    RefcountsIncrease(names, ListedTotal(perFile), ListedTotal(perFile[f := b + [n]]), n);
  }

  lemma NamesAfterDrop(names: map<string, nat>, perFile: map<string, seq<string>>, f: string, rest: seq<string>,
                       n: string)
    requires Refcounts(names, ListedTotal(perFile))
    requires multiset(ListOf(perFile, f)) == multiset(rest) + multiset{n}
    ensures n in names && names[n] > 0
    ensures Refcounts(DecRef(names, n), ListedTotal(perFile[f := rest]))
  {
    forall x ensures ListedTotal(perFile)(x) == ListedTotal(perFile[f := rest])(x) + (if x == n then 1 else 0) {
      TallyChanges(perFile, AnyFile, Is(x), f, rest);
      CountDrop(ListOf(perFile, f), rest, n, Is(x));
    }
    RefcountsDecrease(names, ListedTotal(perFile), ListedTotal(perFile[f := rest]), n);
  }

  lemma NamesIgnoreEmpty(names: map<string, nat>, perFile: map<string, seq<string>>, f: string)
    requires Refcounts(names, ListedTotal(perFile)) && ListOf(perFile, f) == []
    ensures Refcounts(names, ListedTotal(perFile - {f})) && Refcounts(names, ListedTotal(perFile[f := []]))
  {
    forall x ensures ListedTotal(perFile - {f})(x) == ListedTotal(perFile)(x) == ListedTotal(perFile[f := []])(x) {
      TallyIgnoresEmpty(perFile, AnyFile, Is(x), f);
    }
    RefcountsSame(names, ListedTotal(perFile), ListedTotal(perFile - {f}));
    RefcountsSame(names, ListedTotal(perFile), ListedTotal(perFile[f := []]));
  }

  lemma NamesKnow(names: map<string, nat>, perFile: map<string, seq<string>>, n: string)
    requires Refcounts(names, ListedTotal(perFile))
    ensures n in names <==> exists f :: f in perFile && n in perFile[f]
  {
    assert n in names <==> ListedTotal(perFile)(n) > 0;
    TallyPositive(perFile, AnyFile, Is(n));
    if ListedTotal(perFile)(n) > 0 {
      var f, k :| f in perFile && AnyFile(f) && 0 <= k < |perFile[f]| && Is(n)(perFile[f][k]);
      assert n in perFile[f];
    }
    if f :| f in perFile && n in perFile[f] {
      var k :| 0 <= k < |perFile[f]| && perFile[f][k] == n;
      assert AnyFile(f) && Is(n)(perFile[f][k]);
    }
  }

  function Lowered(names: seq<string>): (r: seq<string>)
    ensures |r| == |names| && forall k :: 0 <= k < |names| ==> r[k] == Lower(names[k])
  {
    seq(|names|, k requires 0 <= k < |names| => Lower(names[k]))
  }

  // Folding case neither makes a name empty nor fills an empty one.
  lemma GivenNames(names: seq<string>, name: string)
    ensures Lower(name) in (set n | n in names && n != "" :: Lower(n)) <==>
            name != "" && exists k :: 0 <= k < |names| && EqIgnoreCase(names[k], name)
  {
    if k :| 0 <= k < |names| && EqIgnoreCase(names[k], name) {
      assert |names[k]| == |Lower(names[k])| == |name|;
    }
  }

  class ScriptedLocIndex {
    var names: map<string, nat>
    var perFile: map<string, seq<string>>
    var vanillaNames: set<string>

    ghost predicate Valid()
      reads this
    {
      Refcounts(names, ListedTotal(perFile)) && forall f :: f in perFile ==> perFile[f] != []
    }

    constructor ()
      ensures Valid() && perFile == map[] && vanillaNames == {}
    {
      names, perFile, vanillaNames := map[], map[], {};
      new;
      forall n ensures ListedTotal(perFile)(n) == 0 {
        TallyPositive(perFile, AnyFile, Is(n));
      }
    }

    method MergeFile(fileUri: string, newNames: seq<string>)
      requires Valid()
      modifies this
      ensures Valid() && vanillaNames == old(vanillaNames)
      ensures perFile == if newNames == [] then old(perFile) - {fileUri}
                         else old(perFile)[fileUri := Lowered(newNames)]
    {
      hide Refcounts, ListedTotal;
      RemoveFile(fileUri);
      if newNames == [] {
        return;
      }
      ghost var others := perFile;
      var flat: seq<string> := [];
      var i := 0;
      NamesIgnoreEmpty(names, others, fileUri);
      while i < |newNames|
        invariant 0 <= i <= |newNames|
        invariant perFile == others && vanillaNames == old(vanillaNames)
        invariant flat == Lowered(newNames)[..i]
        invariant Refcounts(names, ListedTotal(others[fileUri := flat]))
      {
        var key := Lower(newNames[i]);
        NamesAfterAdd(names, others[fileUri := flat], fileUri, key);
        assert others[fileUri := flat][fileUri := flat + [key]] == others[fileUri := flat + [key]];
        names := IncRef(names, key);
        flat := flat + [key];
        i := i + 1;
      }
      perFile := perFile[fileUri := flat];
      assert flat == Lowered(newNames);
    }

    method RemoveFile(fileUri: string)
      requires Valid()
      modifies this
      ensures Valid() && vanillaNames == old(vanillaNames)
      ensures perFile == old(perFile) - {fileUri}
    {
      hide Refcounts, ListedTotal;
      if fileUri !in perFile {
        assert perFile == perFile - {fileUri};
        return;
      }
      var flat := perFile[fileUri];
      ghost var before := perFile;
      perFile := perFile - {fileUri};
      var i := 0;
      assert before[fileUri := flat[0..]] == before;
      while i < |flat|
        invariant 0 <= i <= |flat|
        invariant perFile == before - {fileUri} && vanillaNames == old(vanillaNames)
        invariant Refcounts(names, ListedTotal(before[fileUri := flat[i..]]))
      {
        assert flat[i..] == [flat[i]] + flat[i + 1..];
        NamesAfterDrop(names, before[fileUri := flat[i..]], fileUri, flat[i + 1..], flat[i]);
        assert before[fileUri := flat[i..]][fileUri := flat[i + 1..]] == before[fileUri := flat[i + 1..]];
        names := DecRef(names, flat[i]);
        i := i + 1;
      }
      NamesIgnoreEmpty(names, before[fileUri := flat[i..]], fileUri);
      assert before[fileUri := flat[i..]] - {fileUri} == perFile;
    }

    // What the files and the base game together define, whatever the case.
    ghost predicate Knows(name: string)
      reads this
    {
      Lower(name) in vanillaNames || exists f :: f in perFile && Lower(name) in perFile[f]
    }

    // A re-merge replaces the base-game names instead of accumulating them: then
    // exactly the names of the files and the new ones are known.
    method SetVanillaNames(newNames: seq<string>)
      requires Valid()
      modifies this`vanillaNames
      ensures Valid()
      ensures forall name :: Knows(name) <==>
                (exists f :: f in perFile && Lower(name) in perFile[f])
                || (name != "" && exists k :: 0 <= k < |newNames| && EqIgnoreCase(newNames[k], name))
    {
      vanillaNames := set n | n in newNames && n != "" :: Lower(n);
      forall name ensures Lower(name) in vanillaNames <==>
                            name != "" && exists k :: 0 <= k < |newNames| && EqIgnoreCase(newNames[k], name)
      {
        GivenNames(newNames, name);
      }
    }

    // Known exactly when some file or the base game defines it, in any case.
    method Contains(name: string) returns (known: bool)
      requires Valid()
      ensures known <==> Knows(name)
      ensures known <==> Lower(name) in vanillaNames || exists f :: f in perFile && Lower(name) in perFile[f]
    {
      NamesKnow(names, perFile, Lower(name));
      known := Lower(name) in names || Lower(name) in vanillaNames;
    }
  }
}

/** The cross-file type index, type_index.rs: five tables updated in place by
    merges and removals. The ghost history is the list of merges and removals;
    every query answers as a scan of the contributions that survive it. */
module TypeIndexes {
  import opened Text
  import opened Counting
  import opened TypeIndexModel
  import RefcountIndexes

  function StampAll(uri: string, instances: seq<TypeInstance>, baseGame: bool): (cs: seq<Contribution>)
    ensures |cs| == |instances|
    ensures forall k :: 0 <= k < |cs| ==> cs[k] == Contribution(uri, instances[k], baseGame)
  {
    seq(|instances|, k requires 0 <= k < |instances| => Contribution(uri, instances[k], baseGame))
  }

  // One file's instances by type, as a batch.
  function Stamped(uri: string, perType: map<string, seq<TypeInstance>>, baseGame: bool): Ledger {
    map t | t in perType :: StampAll(uri, perType[t], baseGame)
  }

  lemma StampedFlags(uri: string, perType: map<string, seq<TypeInstance>>, baseGame: bool)
    ensures forall t, i :: 0 <= i < |ListOf(Stamped(uri, perType, baseGame), t)| ==>
      ListOf(Stamped(uri, perType, baseGame), t)[i].uri == uri
      && ListOf(Stamped(uri, perType, baseGame), t)[i].baseGame == baseGame
  {
  }

  function BaseGame(sourced: seq<(string, TypeInstance)>): seq<Contribution> {
    seq(|sourced|, k requires 0 <= k < |sourced| => Contribution(sourced[k].0, sourced[k].1, true))
  }

  function FilesOf(sourced: seq<(string, TypeInstance)>): (files: set<string>)
    ensures forall i :: 0 <= i < |sourced| ==> sourced[i].0 in files
  {
    if sourced == [] then {} else FilesOf(sourced[..|sourced| - 1]) + {sourced[|sourced| - 1].0}
  }

  function UrisOf(batch: seq<(string, seq<(string, TypeInstance)>)>): set<string> {
    if batch == [] then {} else UrisOf(batch[..|batch| - 1]) + FilesOf(batch[|batch| - 1].1)
  }

  // A batch of base-game instances that each carry their own file.
  function Sourced(batch: seq<(string, seq<(string, TypeInstance)>)>): Ledger {
    if batch == [] then map[]
    else
      var earlier := Sourced(batch[..|batch| - 1]);
      var (t, sourced) := batch[|batch| - 1];
      earlier[t := ListOf(earlier, t) + BaseGame(sourced)]
  }

  // Some instance of the batch comes from that file.
  predicate NamesFile(batch: seq<(string, seq<(string, TypeInstance)>)>, u: string) {
    exists k, i :: 0 <= k < |batch| && 0 <= i < |batch[k].1| && batch[k].1[i].0 == u
  }

  // The instances given for one type, in order.
  function GivenFor(batch: seq<(string, seq<(string, TypeInstance)>)>, t: string): seq<(string, TypeInstance)> {
    if batch == [] then []
    else
      var last := batch[|batch| - 1];
      GivenFor(batch[..|batch| - 1], t) + if last.0 == t then last.1 else []
  }

  // The ledger gains exactly these instances, each from its file, all of them base
  // game or none.
  ghost predicate AppendsAt(before: Ledger, after: Ledger, t: string, added: seq<(string, TypeInstance)>,
                            baseGame: bool) {
    var b, a := ListOf(before, t), ListOf(after, t);
    |a| == |b| + |added| && b <= a
    && forall i :: 0 <= i < |added| ==> a[|b| + i] == Contribution(added[i].0, added[i].1, baseGame)
  }

  function From(uri: string, instances: seq<TypeInstance>): seq<(string, TypeInstance)> {
    seq(|instances|, i requires 0 <= i < |instances| => (uri, instances[i]))
  }

  function GivenIn(perType: map<string, seq<TypeInstance>>, t: string): seq<TypeInstance> {
    if t in perType then perType[t] else []
  }

  lemma {:induction false} SourcedGives(batch: seq<(string, seq<(string, TypeInstance)>)>, t: string)
    ensures |ListOf(Sourced(batch), t)| == |GivenFor(batch, t)|
    ensures forall i :: 0 <= i < |GivenFor(batch, t)| ==>
              ListOf(Sourced(batch), t)[i] == Contribution(GivenFor(batch, t)[i].0, GivenFor(batch, t)[i].1, true)
  {
    if batch != [] {
      SourcedGives(batch[..|batch| - 1], t);
    }
  }

  lemma {:induction false} FilesOfIs(sourced: seq<(string, TypeInstance)>, u: string)
    ensures u in FilesOf(sourced) <==> exists i :: 0 <= i < |sourced| && sourced[i].0 == u
  {
    if sourced != [] {
      var front, last := sourced[..|sourced| - 1], |sourced| - 1;
      FilesOfIs(front, u);
      assert forall i :: 0 <= i < last ==> front[i] == sourced[i];
    }
  }

  lemma {:induction false} UrisOfIs(batch: seq<(string, seq<(string, TypeInstance)>)>, u: string)
    ensures u in UrisOf(batch) <==> NamesFile(batch, u)
  {
    if batch != [] {
      var front, last := batch[..|batch| - 1], |batch| - 1;
      UrisOfIs(front, u);
      FilesOfIs(batch[last].1, u);
      if NamesFile(front, u) {
        var k, i :| 0 <= k < |front| && 0 <= i < |front[k].1| && front[k].1[i].0 == u;
        assert batch[k] == front[k];
      }
      if NamesFile(batch, u) {
        var k, i :| 0 <= k < |batch| && 0 <= i < |batch[k].1| && batch[k].1[i].0 == u;
        assert k < last ==> front[k] == batch[k];
      }
    }
  }

  lemma StampedAppends(history: seq<Change>, uri: string, perType: map<string, seq<TypeInstance>>, baseGame: bool)
    ensures forall t :: AppendsAt(Replay(history), Replay(history + [Record(Stamped(uri, perType, baseGame))]), t,
                                  From(uri, GivenIn(perType, t)), baseGame)
  {
    hide Replay;
    AppliedLists(history, Record(Stamped(uri, perType, baseGame)));
  }

  lemma SourcedAppends(history: seq<Change>, batch: seq<(string, seq<(string, TypeInstance)>)>)
    ensures forall t ::
              AppendsAt(Replay(history), Replay(history + [Record(Sourced(batch))]), t, GivenFor(batch, t), true)
  {
    hide Replay, Sourced, GivenFor;
    AppliedLists(history, Record(Sourced(batch)));
    forall t {
      SourcedGives(batch, t);
    }
  }

  // One provenance is kept by base-game instances whose files gave nothing else.
  lemma SourcedProvenance(before: Ledger, after: Ledger, batch: seq<(string, seq<(string, TypeInstance)>)>,
                          base: set<string>, base': set<string>)
    requires OneProvenance(before, base)
    requires forall t :: AppendsAt(before, after, t, GivenFor(batch, t), true)
    requires forall u :: u in base' <==> u in base || NamesFile(batch, u)
    requires forall u :: NamesFile(batch, u) ==> AllBaseGame(before, u)
    ensures OneProvenance(after, base')
  {
    hide NamesFile, GivenFor;
    forall t, i | 0 <= i < |ListOf(after, t)|
      ensures ListOf(after, t)[i].baseGame <==> ListOf(after, t)[i].uri in base'
    {
      assert AppendsAt(before, after, t, GivenFor(batch, t), true);
      var b, a, given := ListOf(before, t), ListOf(after, t), GivenFor(batch, t);
      if i < |b| {
        assert a[i] == b[i];
      } else {
        assert a[|b| + (i - |b|)] == Contribution(given[i - |b|].0, given[i - |b|].1, true);
        GivenIsNamed(batch, t, i - |b|);
      }
    }
  }

  lemma {:induction false} GivenIsNamed(batch: seq<(string, seq<(string, TypeInstance)>)>, t: string, i: nat)
    requires i < |GivenFor(batch, t)|
    ensures NamesFile(batch, GivenFor(batch, t)[i].0)
  {
    var front, last := batch[..|batch| - 1], |batch| - 1;
    var before, u := GivenFor(front, t), GivenFor(batch, t)[i].0;
    if i < |before| {
      GivenIsNamed(front, t, i);
      var k, x :| 0 <= k < |front| && 0 <= x < |front[k].1| && front[k].1[x].0 == u;
      assert batch[k] == front[k];
    } else {
      assert batch[last].1[i - |before|].0 == u;
    }
  }

  // How many of the instances are called `n`, in any case.
  function Called(n: string): TypeInstance -> bool {
    (inst: TypeInstance) => Lower(inst.name) == n
  }

  lemma AddRefCounts(sets: NameSets, t: string, name: string, baseGame: bool)
    requires t in sets
    ensures forall t', n :: WsOf(sets[t := AddRef(sets[t], name, baseGame)], t', n)
                         == WsOf(sets, t', n) + if !baseGame && t' == t && n == name then 1 else 0
  {
  }

  lemma OneMoreCalled(instances: seq<TypeInstance>, i: nat)
    requires i < |instances|
    ensures forall n :: Count(instances[..i + 1], Called(n))
                     == Count(instances[..i], Called(n)) + if Lower(instances[i].name) == n then 1 else 0
  {
    assert instances[..i + 1][..i] == instances[..i];
  }

  lemma GivenHere(perType: map<string, seq<TypeInstance>>, t: string)
    requires t in perType
    ensures GivenIn(perType, t) == perType[t]
  {
  }

  lemma NoneGiven(perType: map<string, seq<TypeInstance>>)
    ensures forall t :: t !in perType ==> GivenIn(perType, t) == []
  {
  }

  lemma RecordIs(fp: FilePositions, uri: string, t: string, pos: nat)
    ensures var byType := if uri in fp then fp[uri] else map[];
            Record1(fp, uri, t, pos) == fp[uri := byType[t := (if t in byType then byType[t] else []) + [pos]]]
  {
  }

  lemma NoneCalled()
    ensures forall n :: Count([], Called(n)) == 0
  {
  }

  lemma SourcedStep(batch: seq<(string, seq<(string, TypeInstance)>)>, k: nat)
    requires k < |batch|
    ensures Sourced(batch[..k + 1])
         == Sourced(batch[..k])[batch[k].0 := ListOf(Sourced(batch[..k]), batch[k].0) + BaseGame(batch[k].1)]
    ensures UrisOf(batch[..k + 1]) == UrisOf(batch[..k]) + FilesOf(batch[k].1)
  {
    assert batch[..k + 1][..k] == batch[..k];
  }

  lemma SameWith(ledger: Ledger, t: string)
    ensures SameLists(ledger, ledger[t := ListOf(ledger, t)])
  {
  }

  lemma AppendedStep(ledger: Ledger, t: string, cs: seq<Contribution>, i: nat)
    requires i < |cs|
    ensures Appended(ledger[t := ListOf(ledger, t) + cs[..i]], t, cs[i]) == ledger[t := ListOf(ledger, t) + cs[..i + 1]]
  {
    assert ListOf(ledger, t) + cs[..i] + [cs[i]] == ListOf(ledger, t) + cs[..i + 1];
  }

  // `ledger` is `before` with the batch's lists appended.
  ghost predicate ExtendsAt(ledger: Ledger, before: Ledger, batch: Ledger, t: string) {
    ListOf(ledger, t) == ListOf(before, t) + ListOf(batch, t)
  }

  ghost predicate Extends(ledger: Ledger, before: Ledger, batch: Ledger) {
    forall t :: ExtendsAt(ledger, before, batch, t)
  }

  lemma NothingSourced(ledger: Ledger)
    ensures Sourced([]) == map[] && UrisOf([]) == {} && Extends(ledger, ledger, map[])
  {
  }

  lemma BatchLists(before: Ledger, ledger: Ledger, longer: Ledger, batch: Ledger, batch': Ledger, t: string,
                   cs: seq<Contribution>)
    requires Extends(ledger, before, batch)
    requires longer == ledger[t := ListOf(ledger, t) + cs] && batch' == batch[t := ListOf(batch, t) + cs]
    ensures Extends(longer, before, batch')
  {
    hide ExtendsAt;
    forall t' ensures ExtendsAt(longer, before, batch', t') {
      assert ExtendsAt(ledger, before, batch, t');
      BatchListsAt(before, ledger, longer, batch, batch', t, cs, t');
    }
  }

  lemma BatchListsAt(before: Ledger, ledger: Ledger, longer: Ledger, batch: Ledger, batch': Ledger, t: string,
                     cs: seq<Contribution>, t': string)
    requires ExtendsAt(ledger, before, batch, t')
    requires longer == ledger[t := ListOf(ledger, t) + cs] && batch' == batch[t := ListOf(batch, t) + cs]
    ensures ExtendsAt(longer, before, batch', t')
  {
  }

  lemma StampedStep(uri: string, perType: map<string, seq<TypeInstance>>, baseGame: bool, todo: set<string>, t: string)
    requires t in todo && todo <= perType.Keys
    ensures Stamped(uri, perType - (todo - {t}), baseGame)
         == var done := Stamped(uri, perType - todo, baseGame);
            done[t := ListOf(done, t) + StampAll(uri, perType[t], baseGame)]
  {
    assert ListOf(Stamped(uri, perType - todo, baseGame), t) + StampAll(uri, perType[t], baseGame)
        == StampAll(uri, perType[t], baseGame);
  }

  lemma NothingStamped(uri: string, perType: map<string, seq<TypeInstance>>, baseGame: bool, ledger: Ledger)
    ensures Extends(ledger, ledger, Stamped(uri, perType - perType.Keys, baseGame))
  {
  }

  // Ledgers that list the same contributions under every type.
  ghost predicate SameLists(a: Ledger, b: Ledger) {
    forall t :: ListOf(a, t) == ListOf(b, t)
  }

  lemma SameListsHold(m: Buckets, sets: NameSets, base: set<string>, a: Ledger, b: Ledger)
    requires SameLists(a, b)
    ensures HoldsLedger(m, a) ==> HoldsLedger(m, b)
    ensures WorkspaceExact(sets, a) ==> WorkspaceExact(sets, b)
    ensures FlagsRecorded(a, base) ==> FlagsRecorded(b, base)
    ensures OneProvenance(a, base) ==> OneProvenance(b, base)
  {
    if HoldsLedger(m, a) {
      forall t ensures HoldsType(m, b, t) { assert HoldsType(m, a, t); }
    }
    if WorkspaceExact(sets, a) {
      forall t, n ensures WorkspaceExactAt(sets, b, t, n) { assert WorkspaceExactAt(sets, a, t, n); }
    }
  }

  lemma AppliedLists(history: seq<Change>, change: Change)
    ensures Replay(history + [change]) == Apply(Replay(history), change)
    ensures change.Record? ==>
      forall t :: ListOf(Replay(history + [change]), t) == ListOf(Replay(history), t) + ListOf(change.batch, t)
    ensures change.Forget? ==>
      forall t :: ListOf(Replay(history + [change]), t) == Without(ListOf(Replay(history), t), change.files)
  {
  }

  // Some surviving contribution of type `t` is named `n`, lowercased.
  ghost predicate Defined(ledger: Ledger, t: string, n: string) {
    exists k :: 0 <= k < |ListOf(ledger, t)| && Lower(ListOf(ledger, t)[k].inst.name) == n
  }

  lemma BucketDefines(m: Buckets, ledger: Ledger, t: string, n: string)
    requires HoldsLedger(m, ledger)
    ensures Count(ListOf(m, t), Named(n)) > 0 <==> Defined(ledger, t, n)
  {
    assert HoldsType(m, ledger, t);
    var es := Entries(ListOf(ledger, t));
    CountPermutation(ListOf(m, t), es, Named(n));
    CountPositive(es, Named(n));
    if Count(es, Named(n)) > 0 {
      var k :| 0 <= k < |es| && Named(n)(es[k]);
      assert Lower(ListOf(ledger, t)[k].inst.name) == n;
    }
    if Defined(ledger, t, n) {
      var k :| 0 <= k < |ListOf(ledger, t)| && Lower(ListOf(ledger, t)[k].inst.name) == n;
      assert Named(n)(es[k]);
    }
  }

  lemma NamesDefine(m: Buckets, names: map<string, nat>, ledger: Ledger, n: string)
    requires Refcounts(names, NameTotal(m)) && HoldsLedger(m, ledger)
    ensures n in names <==> exists t :: '.' !in t && Defined(ledger, t, n)
  {
    hide HoldsLedger, Defined;
    assert n in names <==> NameTotal(m)(n) > 0;
    TallyPositive(m, IsPlainKey, Named(n));
    if NameTotal(m)(n) > 0 {
      var t, k :| t in m && IsPlainKey(t) && 0 <= k < |m[t]| && Named(n)(m[t][k]);
      CountPositive(m[t], Named(n));
      BucketDefines(m, ledger, t, n);
    }
    if t :| '.' !in t && Defined(ledger, t, n) {
      BucketDefines(m, ledger, t, n);
      CountPositive(ListOf(m, t), Named(n));
      var k :| 0 <= k < |ListOf(m, t)| && Named(n)(ListOf(m, t)[k]);
      assert t in m && IsPlainKey(t) && Named(n)(m[t][k]);
    }
  }

  // Largest first, every position kept (`sort_unstable_by` on distinct positions).
  function SortedDescending(ps: seq<nat>): (r: seq<nat>)
    ensures Descending(r) && multiset(r) == multiset(ps)
  {
    if ps == [] then [] else
      assert ps == [ps[0]] + ps[1..];
      InsertDescending(ps[0], SortedDescending(ps[1..]))
  }

  function InsertDescending(x: nat, ps: seq<nat>): (r: seq<nat>)
    requires Descending(ps)
    ensures Descending(r) && multiset(r) == multiset(ps) + multiset{x}
  {
    if ps == [] || x >= ps[0] then [x] + ps
    else
      var rest := InsertDescending(x, ps[1..]);
      HeadAbove(x, ps, rest);
      [ps[0]] + rest
  }

  lemma HeadAbove(x: nat, ps: seq<nat>, rest: seq<nat>)
    requires Descending(ps) && ps != [] && x < ps[0]
    requires Descending(rest) && multiset(rest) == multiset(ps[1..]) + multiset{x}
    ensures Descending([ps[0]] + rest)
    ensures multiset([ps[0]] + rest) == multiset(ps) + multiset{x}
  {
    assert ps == [ps[0]] + ps[1..];
    forall k | 0 <= k < |rest| ensures rest[k] <= ps[0] {
      assert rest[k] in multiset(rest);
      assert rest[k] == x || rest[k] in ps[1..];
    }
  }

  lemma SortedIndexList(ps: seq<nat>, b: seq<Entry>, u: string)
    requires IndexList(ps, b, u)
    ensures IndexList(SortedDescending(ps), b, u)
  {
    var r := SortedDescending(ps);
    forall x ensures x in r <==> x in ps {
      assert x in r <==> x in multiset(r);
      assert x in ps <==> x in multiset(ps);
    }
    forall k | 0 <= k < |r| ensures r[k] < |b| && b[r[k]].uri == u { assert r[k] in ps; }
    forall j, k | 0 <= j < k < |r| ensures r[j] != r[k] {
      if r[j] == r[k] {
        DistinctOnce(ps, r[j]);
        TwiceListed(r, j, k);
        assert false;
      }
    }
  }

  lemma {:induction false} DistinctOnce(ps: seq<nat>, x: nat)
    requires forall j, k :: 0 <= j < k < |ps| ==> ps[j] != ps[k]
    ensures multiset(ps)[x] <= 1
  {
    if ps != [] {
      assert ps == [ps[0]] + ps[1..];
      DistinctOnce(ps[1..], x);
      assert x == ps[0] ==> x !in ps[1..];
    }
  }

  lemma TwiceListed(ps: seq<nat>, j: nat, k: nat)
    requires j < k < |ps| && ps[j] == ps[k]
    ensures multiset(ps)[ps[j]] >= 2
  {
    assert ps == ps[..j] + [ps[j]] + ps[j + 1..k] + [ps[k]] + ps[k + 1..];
  }

  lemma SameTypes(m: Buckets, names: map<string, nat>, sets: NameSets, fp: FilePositions, ledger: Ledger)
    requires Agree(m, names, sets, fp, ledger)
    ensures sets.Keys == m.Keys
  {
  }

  lemma TouchKeepsWs(sets: NameSets, t: string)
    requires t !in sets
    ensures forall t', n :: WsOf(sets[t := map[]], t', n) == WsOf(sets, t', n)
  {
  }

  lemma TouchKeeps(m: Buckets, names: map<string, nat>, sets: NameSets, fp: FilePositions, ledger: Ledger, t: string)
    requires Agree(m, names, sets, fp, ledger) && t !in m
    ensures Agree(m[t := []], names, sets[t := map[]], fp, ledger)
  {
    hide HoldsLedger, PositionsExact, Refcounts;
    forall n ensures NameTotal(m)(n) == NameTotal(m[t := []])(n) {
      TallyIgnoresEmpty(m, IsPlainKey, Named(n), t);
    }
    RefcountsSame(names, NameTotal(m), NameTotal(m[t := []]));
    SameBuckets(m, m[t := []], fp, ledger);
    EmptySetExact();
  }

  lemma EmptySetExact()
    ensures Refcounts(Totals(map[]), NameTotalIn([]))
  {
  }

  lemma AgreeSame(m: Buckets, names: map<string, nat>, sets: NameSets, fp: FilePositions, a: Ledger, b: Ledger)
    requires Agree(m, names, sets, fp, a) && SameLists(a, b)
    ensures Agree(m, names, sets, fp, b)
    ensures WorkspaceExact(sets, a) ==> WorkspaceExact(sets, b)
  {
    SameListsHold(m, sets, {}, a, b);
  }

  // Positions and ledger see a bucket only through its list.
  lemma SameBuckets(m: Buckets, m': Buckets, fp: FilePositions, ledger: Ledger)
    requires forall t :: ListOf(m', t) == ListOf(m, t)
    ensures PositionsExact(m, fp) ==> PositionsExact(m', fp)
    ensures HoldsLedger(m, ledger) ==> HoldsLedger(m', ledger)
  {
    if PositionsExact(m, fp) {
      forall u, t ensures PositionsExactAt(m', fp, u, t) { assert PositionsExactAt(m, fp, u, t); }
    }
    if HoldsLedger(m, ledger) {
      forall t ensures HoldsType(m', ledger, t) { assert HoldsType(m, ledger, t); }
    }
  }

  lemma TouchPositions(m: Buckets, fp: FilePositions, u: string, t: string)
    requires PositionsExact(m, fp) && PositionsOf(fp, u, t) == []
    ensures PositionsExact(m, fp[u := (if u in fp then fp[u] else map[])[t := []]])
  {
    var fp' := fp[u := (if u in fp then fp[u] else map[])[t := []]];
    forall w, t' ensures PositionsExactAt(m, fp', w, t') {
      assert PositionsExactAt(m, fp, w, t');
      assert PositionsOf(fp', w, t') == PositionsOf(fp, w, t');
    }
  }

  lemma WsOfSame(sets: NameSets, sets': NameSets, ledger: Ledger)
    requires forall t, n :: WsOf(sets', t, n) == WsOf(sets, t, n)
    ensures WorkspaceExact(sets, ledger) ==> WorkspaceExact(sets', ledger)
  {
    if WorkspaceExact(sets, ledger) {
      forall t, n ensures WorkspaceExactAt(sets', ledger, t, n) {
        assert WorkspaceExactAt(sets, ledger, t, n);
        assert WsOf(sets', t, n) == WsOf(sets, t, n);
      }
    }
  }

  lemma PushKeeps(m: Buckets, names: map<string, nat>, sets: NameSets, fp: FilePositions, ledger: Ledger,
                  t: string, c: Contribution)
    requires Agree(m, names, sets, fp, ledger) && t in m
    ensures Agree(m[t := m[t] + [EntryOf(c)]],
                  if IsSubtypeKey(t) then names else IncRef(names, Lower(c.inst.name)),
                  sets[t := AddRef(sets[t], Lower(c.inst.name), c.baseGame)],
                  Record1(fp, c.uri, t, |m[t]|), Appended(ledger, t, c))
    ensures WorkspaceExact(sets, ledger) ==>
            WorkspaceExact(sets[t := AddRef(sets[t], Lower(c.inst.name), c.baseGame)], Appended(ledger, t, c))
  {
    hide Refcounts, PositionsExact, HoldsLedger, WorkspaceExact, AddRef;
    var e := EntryOf(c);
    NamesAfterPush(m, names, t, e);
    SetAfterPush(sets[t], m[t], e, c.baseGame);
    PositionsAfterPush(m, fp, t, e);
    LedgerAfterPush(m, ledger, t, c);
    if WorkspaceExact(sets, ledger) {
      WorkspaceAfterPush(sets, ledger, t, c);
    }
  }

  lemma MergeRecordsFlags(before: Ledger, after: Ledger, batch: Ledger, base: set<string>, base': set<string>)
    requires forall t :: ListOf(after, t) == ListOf(before, t) + ListOf(batch, t)
    requires FlagsRecorded(before, base) && base <= base'
    requires forall t, i :: 0 <= i < |ListOf(batch, t)| && ListOf(batch, t)[i].baseGame ==>
             ListOf(batch, t)[i].uri in base'
    ensures FlagsRecorded(after, base')
  {
  }

  lemma {:induction false} SourcedUris(batch: seq<(string, seq<(string, TypeInstance)>)>, t: string, i: nat)
    requires i < |ListOf(Sourced(batch), t)|
    ensures ListOf(Sourced(batch), t)[i].uri in UrisOf(batch)
  {
    var init, last := batch[..|batch| - 1], |batch| - 1;
    var earlier := ListOf(Sourced(init), t);
    if i < |earlier| {
      SourcedUris(init, t, i);
      assert ListOf(Sourced(batch), t)[i] == earlier[i];
    } else {
      assert ListOf(Sourced(batch), t)[i] == BaseGame(batch[last].1)[i - |earlier|];
    }
  }

  lemma SourcedFlags(batch: seq<(string, seq<(string, TypeInstance)>)>, base: set<string>)
    requires UrisOf(batch) <= base
    ensures forall t, i :: 0 <= i < |ListOf(Sourced(batch), t)| ==> ListOf(Sourced(batch), t)[i].uri in base
  {
    forall t, i | 0 <= i < |ListOf(Sourced(batch), t)| ensures ListOf(Sourced(batch), t)[i].uri in base {
      SourcedUris(batch, t, i);
    }
  }

  // Merging keeps one provenance unless the file is already in the index the other way.
  lemma MergeProvenance(history: seq<Change>, batch: Ledger, base: set<string>, uri: string, baseGame: bool)
    requires OneProvenance(Replay(history), base)
    requires forall t, i :: 0 <= i < |ListOf(batch, t)| ==>
      ListOf(batch, t)[i].uri == uri && ListOf(batch, t)[i].baseGame == baseGame
    requires if baseGame then AllBaseGame(Replay(history), uri) else uri !in base
    ensures OneProvenance(Replay(history + [Record(batch)]), if baseGame then base + {uri} else base)
  {
  }

  // Everything the ledger holds of the file was merged as base game.
  ghost predicate AllBaseGame(ledger: Ledger, uri: string) {
    forall t, i :: 0 <= i < |ListOf(ledger, t)| && ListOf(ledger, t)[i].uri == uri ==> ListOf(ledger, t)[i].baseGame
  }

  // What both merges conclude once every instance is pushed.
  lemma MergeDone(m: Buckets, names: map<string, nat>, sets: NameSets, fp: FilePositions, ledger: Ledger,
                  history: seq<Change>, batch: Ledger, base: set<string>, base': set<string>)
    requires Agree(m, names, sets, fp, ledger)
    requires Extends(ledger, Replay(history), batch)
    requires FlagsRecorded(Replay(history), base) && base <= base'
    requires forall t, i :: 0 <= i < |ListOf(batch, t)| && ListOf(batch, t)[i].baseGame ==>
             ListOf(batch, t)[i].uri in base'
    ensures Agree(m, names, sets, fp, Replay(history + [Record(batch)]))
    ensures FlagsRecorded(Replay(history + [Record(batch)]), base')
    ensures WorkspaceExact(sets, ledger) ==> WorkspaceExact(sets, Replay(history + [Record(batch)]))
  {
    hide Agree, FlagsRecorded, WorkspaceExact, Replay, ListOf;
    AppliedLists(history, Record(batch));
    forall t ensures ListOf(ledger, t) == ListOf(Replay(history), t) + ListOf(batch, t) {
      assert ExtendsAt(ledger, Replay(history), batch, t);
    }
    AgreeSame(m, names, sets, fp, ledger, Replay(history + [Record(batch)]));
    MergeRecordsFlags(Replay(history), Replay(history + [Record(batch)]), batch, base, base');
  }

  lemma DescendingTail(ps: seq<nat>, k: nat)
    requires Descending(ps) && k <= |ps|
    ensures Descending(ps[k..])
  {
  }

  lemma NoPositions()
    ensures PositionsExact(map[], map[])
  {
  }

  // The buckets whose positions have been recorded again.
  ghost predicate Rebuilt(m: Buckets, todo: set<string>, built: Buckets) {
    forall t :: ListOf(built, t) == if t in todo then [] else ListOf(m, t)
  }

  // ... and of type `t` those of the first n entries.
  ghost predicate RebuiltUpTo(m: Buckets, todo: set<string>, built: Buckets, t: string, n: nat)
    requires n <= |ListOf(m, t)|
  {
    forall t' :: ListOf(built, t') == if t' == t then ListOf(m, t)[..n] else if t' in todo then [] else ListOf(m, t')
  }

  lemma NothingRebuilt(m: Buckets)
    ensures Rebuilt(m, m.Keys, map[])
  {
  }

  lemma RebuildingStarts(m: Buckets, todo: set<string>, built: Buckets, t: string)
    requires Rebuilt(m, todo, built) && t in todo && t in m
    ensures RebuiltUpTo(m, todo, built, t, 0) && ListOf(m, t) == m[t]
  {
  }

  lemma RebuildsOne(m: Buckets, todo: set<string>, built: Buckets, t: string, n: nat)
    requires n < |ListOf(m, t)| && RebuiltUpTo(m, todo, built, t, n)
    ensures |ListOf(built, t)| == n
    ensures RebuiltUpTo(m, todo, built[t := ListOf(built, t) + [ListOf(m, t)[n]]], t, n + 1)
  {
    assert ListOf(m, t)[..n + 1] == ListOf(m, t)[..n] + [ListOf(m, t)[n]];
  }

  lemma RebuildsType(m: Buckets, todo: set<string>, built: Buckets, t: string)
    requires RebuiltUpTo(m, todo, built, t, |ListOf(m, t)|)
    ensures Rebuilt(m, todo - {t}, built)
  {
    assert ListOf(m, t)[..|ListOf(m, t)|] == ListOf(m, t);
  }

  lemma SamePositions(m: Buckets, m': Buckets, fp: FilePositions)
    requires PositionsExact(m, fp) && forall t :: ListOf(m', t) == ListOf(m, t)
    ensures PositionsExact(m', fp)
  {
    forall u, t ensures PositionsExactAt(m', fp, u, t) { assert PositionsExactAt(m, fp, u, t); }
  }

  lemma RemovingStarts(m: Buckets, names: map<string, nat>, sets: NameSets, fp: FilePositions, base: set<string>,
                       u: string)
    requires u in fp && Refcounts(names, NameTotal(m)) && SetsExact(m, sets) && PositionsExact(m, fp)
    ensures Removing(m, sets, base, u, fp[u], m, names, sets, fp - {u})
  {
    hide Refcounts, SetsExact, PositionsExact, Dropping;
    DroppingStarts(m, names, sets, base, {u});
    assert (fp - {u})[u := fp[u]] == fp;
  }

  // Positions may be processed in sorted order.
  lemma RemovingSorted(m0: Buckets, sets0: NameSets, base: set<string>, u: string, pending: map<string, seq<nat>>,
                       m: Buckets, names: map<string, nat>, sets: NameSets, fp: FilePositions, t: string)
    requires Removing(m0, sets0, base, u, pending, m, names, sets, fp) && t in pending
    ensures Removing(m0, sets0, base, u, pending[t := SortedDescending(pending[t])], m, names, sets, fp)
  {
    hide Dropping, IndexList;
    var all, all' := fp[u := pending], fp[u := pending[t := SortedDescending(pending[t])]];
    forall w, t' ensures PositionsExactAt(m, all', w, t') {
      assert PositionsExactAt(m, all, w, t');
      if w == u && t' == t {
        SortedIndexList(pending[t], ListOf(m, t), u);
      } else {
        assert PositionsOf(all', w, t') == PositionsOf(all, w, t');
      }
    }
  }

  // What both removals conclude.
  lemma ForgetDone(m0: Buckets, sets0: NameSets, base: set<string>, files: set<string>,
                   m: Buckets, names: map<string, nat>, sets: NameSets, fp: FilePositions,
                   history: seq<Change>, base': set<string>)
    requires Dropping(m0, sets0, base, files, m, names, sets) && NoneOf(m, files) && PositionsExact(m, fp)
    requires HoldsLedger(m0, Replay(history)) && FlagsRecorded(Replay(history), base)
    requires base - files <= base' <= base
    ensures Agree(m, names, sets, fp, Replay(history + [Forget(files)]))
    ensures FlagsRecorded(Replay(history + [Forget(files)]), base')
    ensures WorkspaceExact(sets0, Replay(history)) ==>
            (WorkspaceExact(sets, Replay(history + [Forget(files)])) <==> NoMixedNamesake(Replay(history), base, files))
    ensures OneProvenance(Replay(history), base) ==> OneProvenance(Replay(history + [Forget(files)]), base')
  {
    hide Dropping, Agree, NoneOf, PositionsExact, HoldsLedger, FlagsRecorded, WorkspaceExact, NoMixedNamesake,
         OneProvenance, Replay, Apply;
    AppliedLists(history, Forget(files));
    DroppingDone(m0, sets0, base, files, m, names, sets, fp, Replay(history));
    ForgetProvenance(Replay(history), base, base', files);
  }

  // The early return: the file contributed nothing that survives.
  lemma ForgetUnknown(m: Buckets, fp: FilePositions, names: map<string, nat>, sets: NameSets, base: set<string>,
                      history: seq<Change>, u: string)
    requires Agree(m, names, sets, fp, Replay(history)) && FlagsRecorded(Replay(history), base) && u !in fp
    ensures Agree(m, names, sets, fp, Replay(history + [Forget({u})]))
    ensures FlagsRecorded(Replay(history + [Forget({u})]), base)
    ensures WorkspaceExact(sets, Replay(history)) ==>
            (WorkspaceExact(sets, Replay(history + [Forget({u})])) <==> NoMixedNamesake(Replay(history), base, {u}))
    ensures OneProvenance(Replay(history), base) ==> OneProvenance(Replay(history + [Forget({u})]), base)
  {
    hide Replay, Apply, Refcounts, SetsExact, WorkspaceExact, FlagsRecorded, OneProvenance, NoMixedNamesake,
         PositionsExactAt, HoldsLedger;
    assert NoneOf(m, {u}) by {
      forall t, i | 0 <= i < |ListOf(m, t)| ensures ListOf(m, t)[i].uri !in {u} {
        assert PositionsExactAt(m, fp, u, t);
        NotOwned(m, fp, u, t, i);
      }
    }
    DroppingStarts(m, names, sets, base, {u});
    ForgetDone(m, sets, base, {u}, m, names, sets, fp, history, base);
  }

  lemma NotOwned(m: Buckets, fp: FilePositions, u: string, t: string, i: nat)
    requires PositionsExactAt(m, fp, u, t) && u !in fp && i < |ListOf(m, t)|
    ensures ListOf(m, t)[i].uri != u
  {
  }

  lemma RetainStep(kept: seq<Entry>, v: seq<Entry>, i: nat)
    requires i < |v|
    ensures kept + [v[i]] + v[i + 1..] == kept + v[i..]
    ensures multiset(kept + v[i..]) == multiset(kept + v[i + 1..]) + multiset{v[i]}
  {
  }

  lemma NobodyIn(m: Buckets)
    ensures NoneOf(m, {})
  {
  }

  lemma NobodyLeft(m: Buckets, files: set<string>)
    requires forall t, i :: t in m && 0 <= i < |m[t]| ==> m[t][i].uri !in files
    ensures NoneOf(m, files)
  {
  }

  function NonEmpty(m: Buckets): Buckets { map t | t in m && m[t] != [] :: m[t] }

  function NonEmptySets(sets: NameSets): NameSets { map t | t in sets && sets[t] != map[] :: sets[t] }

  lemma NonEmptyIgnores(m: Buckets, sets: NameSets, t: string)
    requires t in m ==> m[t] == []
    requires t in sets ==> sets[t] == map[]
    ensures NonEmpty(m - {t}) == NonEmpty(m) && NonEmptySets(sets - {t}) == NonEmptySets(sets)
  {
  }

  lemma NonEmptyAll(m: Buckets, sets: NameSets)
    requires forall t :: t in m ==> m[t] != []
    requires forall t :: t in sets ==> sets[t] != map[]
    ensures NonEmpty(m) == m && NonEmptySets(sets) == sets
  {
  }

  // The final `retain`s drop exactly the emptied buckets and sets.
  lemma RetainsKeep(m0: Buckets, sets0: NameSets, base: set<string>, files: set<string>,
                    m: Buckets, names: map<string, nat>, sets: NameSets)
    requires Dropping(m0, sets0, base, files, m, names, sets)
    ensures Dropping(m0, sets0, base, files, NonEmpty(m), names, NonEmptySets(sets))
    decreases |m|
  {
    hide Dropping, NonEmpty, NonEmptySets;
    EmptyTogether(m0, sets0, base, files, m, names, sets);
    if t :| t in m && m[t] == [] {
      DroppingPrunes(m0, sets0, base, files, m, names, sets, t);
      assert (m - {t}).Keys == m.Keys - {t};
      RetainsKeep(m0, sets0, base, files, m - {t}, names, sets - {t});
      NonEmptyIgnores(m, sets, t);
    } else {
      NonEmptyAll(m, sets);
    }
  }

  lemma EmptyTogether(m0: Buckets, sets0: NameSets, base: set<string>, files: set<string>,
                      m: Buckets, names: map<string, nat>, sets: NameSets)
    requires Dropping(m0, sets0, base, files, m, names, sets)
    ensures m.Keys == sets.Keys
    ensures forall t :: t in m ==> (m[t] == [] <==> sets[t] == map[])
  {
    hide Refcounts, OthersKept, WsReleased;
    forall t | t in m ensures m[t] == [] <==> sets[t] == map[] {
      if sets[t] != map[] {
        var n :| n in sets[t];
        TotalIs(m, sets, t, n);
      }
      if m[t] != [] {
        var last := |m[t]| - 1;
        assert Named(NameOf(m[t][last]))(m[t][last]);
        CountPositive(m[t], Named(NameOf(m[t][last])));
        TotalIs(m, sets, t, NameOf(m[t][last]));
      }
    }
  }

  function TagAll(t: string, es: seq<Entry>): (r: seq<(string, TypeInstance)>)
    ensures |r| == |es| && forall k :: 0 <= k < |es| ==> r[k] == (t, es[k].inst)
  {
    seq(|es|, k requires 0 <= k < |es| => (t, es[k].inst))
  }

  lemma {:induction false} TagAllCounts(t: string, es: seq<Entry>, u: string, t': string, inst: TypeInstance)
    requires forall k :: 0 <= k < |es| ==> es[k].uri == u
    ensures multiset(TagAll(t, es))[(t', inst)] == if t' == t then multiset(es)[Entry(u, inst)] else 0
  {
    if es != [] {
      var last := |es| - 1;
      TagAllCounts(t, es[..last], u, t', inst);
      assert es == es[..last] + [es[last]];
      assert TagAll(t, es) == TagAll(t, es[..last]) + [(t, es[last].inst)];
    }
  }

  lemma PositionsInRange(m: Buckets, fp: FilePositions, u: string, t: string)
    requires PositionsExact(m, fp)
    ensures forall k :: 0 <= k < |PositionsOf(fp, u, t)| ==>
      PositionsOf(fp, u, t)[k] < |ListOf(m, t)| && ListOf(m, t)[PositionsOf(fp, u, t)[k]].uri == u
  {
    assert PositionsExactAt(m, fp, u, t);
  }

  // Reading a file's positions finds each surviving instance as often as the ledger does.
  lemma FileReads(m: Buckets, fp: FilePositions, ledger: Ledger, u: string, t: string, inst: TypeInstance)
    requires PositionsExact(m, fp) && HoldsLedger(m, ledger)
    ensures forall k :: 0 <= k < |PositionsOf(fp, u, t)| ==> PositionsOf(fp, u, t)[k] < |ListOf(m, t)|
    ensures multiset(Entries(ListOf(ledger, t)))[Entry(u, inst)]
         == multiset(Picked(PositionsOf(fp, u, t), ListOf(m, t)))[Entry(u, inst)]
  {
    assert PositionsExactAt(m, fp, u, t) && HoldsType(m, ledger, t);
    IndexListReads(PositionsOf(fp, u, t), ListOf(m, t), u, Entry(u, inst));
  }

  class TypeIndex {
    var buckets: Buckets
    var nameCounts: map<string, nat>
    var instanceSets: NameSets
    var baseGameUris: set<string>
    var filePositions: FilePositions
    const complexEnumValues: RefcountIndexes.NamedValueIndex
    const valueSetValues: RefcountIndexes.NamedValueIndex
    const scriptedLocIndex: RefcountIndexes.ScriptedLocIndex
    ghost var history: seq<Change>

    ghost predicate Valid()
      reads this
    {
      && Agree(buckets, nameCounts, instanceSets, filePositions, Replay(history))
      && FlagsRecorded(Replay(history), baseGameUris)
    }

    ghost predicate DynamicValid()
      reads this, complexEnumValues, valueSetValues, scriptedLocIndex
    {
      && complexEnumValues != valueSetValues
      && complexEnumValues.Valid() && valueSetValues.Valid() && scriptedLocIndex.Valid()
    }

    ghost predicate WorkspaceTracked()
      reads this
    {
      WorkspaceExact(instanceSets, Replay(history))
    }

    constructor ()
      ensures Valid() && DynamicValid() && WorkspaceTracked()
      ensures history == [] && baseGameUris == {}
      ensures fresh(complexEnumValues) && fresh(valueSetValues) && fresh(scriptedLocIndex)
    {
      buckets, nameCounts, instanceSets := map[], map[], map[];
      baseGameUris, filePositions, history := {}, map[], [];
      complexEnumValues := new RefcountIndexes.NamedValueIndex();
      valueSetValues := new RefcountIndexes.NamedValueIndex();
      scriptedLocIndex := new RefcountIndexes.ScriptedLocIndex();
      new;
      forall n ensures NameTotal(buckets)(n) == 0 {
        TallyPositive(buckets, IsPlainKey, Named(n));
      }
      forall t ensures HoldsType(buckets, Replay(history), t) {}
      forall u, t ensures PositionsExactAt(buckets, filePositions, u, t) {}
      forall t, n ensures WorkspaceExactAt(instanceSets, Replay(history), t, n) {}
    }

    // `entry(..).or_default()` on the bucket and name set of a type.
    method Touch(t: string, ghost ledger: Ledger)
      requires Agree(buckets, nameCounts, instanceSets, filePositions, ledger)
      modifies this`buckets, this`instanceSets
      ensures Agree(buckets, nameCounts, instanceSets, filePositions, ledger)
      ensures t in buckets
      ensures WorkspaceExact(old(instanceSets), ledger) ==> WorkspaceExact(instanceSets, ledger)
      ensures forall t', n :: WsOf(instanceSets, t', n) == WsOf(old(instanceSets), t', n)
    {
      hide Agree, WorkspaceExact, WsOf;
      if t !in buckets {
        assert t !in instanceSets by { SameTypes(buckets, nameCounts, instanceSets, filePositions, ledger); }
        TouchKeeps(buckets, nameCounts, instanceSets, filePositions, ledger, t);
        TouchKeepsWs(instanceSets, t);
        WsOfSame(instanceSets, instanceSets[t := map[]], ledger);
        buckets := buckets[t := []];
        instanceSets := instanceSets[t := map[]];
      }
    }

    // ... and on a file's position list for the type.
    method TouchFile(fileUri: string, t: string, ghost ledger: Ledger)
      requires Agree(buckets, nameCounts, instanceSets, filePositions, ledger)
      modifies this`filePositions
      ensures Agree(buckets, nameCounts, instanceSets, filePositions, ledger)
      ensures fileUri in filePositions && t in filePositions[fileUri]
    {
      var byType := if fileUri in filePositions then filePositions[fileUri] else map[];
      if t !in byType {
        TouchPositions(buckets, filePositions, fileUri, t);
        filePositions := filePositions[fileUri := byType[t := []]];
      }
    }

    // The body of both merge loops: count one instance and append it.
    method Push(t: string, uri: string, inst: TypeInstance, baseGame: bool, ghost ledger: Ledger)
      requires Agree(buckets, nameCounts, instanceSets, filePositions, ledger) && t in buckets
      modifies this`buckets, this`nameCounts, this`instanceSets, this`filePositions
      ensures t in buckets
      ensures Agree(buckets, nameCounts, instanceSets, filePositions,
                    Appended(ledger, t, Contribution(uri, inst, baseGame)))
      ensures WorkspaceExact(old(instanceSets), ledger) ==>
              WorkspaceExact(instanceSets, Appended(ledger, t, Contribution(uri, inst, baseGame)))
      ensures forall t', n :: WsOf(instanceSets, t', n)
                           == WsOf(old(instanceSets), t', n)
                              + if !baseGame && t' == t && n == Lower(inst.name) then 1 else 0
    {
      hide Agree, WorkspaceExact, AddRef, Appended, IncRef, WsOf, Record1;
      assert t in instanceSets by { SameTypes(buckets, nameCounts, instanceSets, filePositions, ledger); }
      var lower := Lower(inst.name);
      PushKeeps(buckets, nameCounts, instanceSets, filePositions, ledger, t, Contribution(uri, inst, baseGame));
      AddRefCounts(instanceSets, t, lower, baseGame);
      RecordIs(filePositions, uri, t, |buckets[t]|);
      var names := nameCounts;
      if !IsSubtypeKey(t) {
        names := IncRef(names, lower);
      }
      var sets := instanceSets[t := AddRef(instanceSets[t], lower, baseGame)];
      var byType := if uri in filePositions then filePositions[uri] else map[];
      var positions := if t in byType then byType[t] else [];
      var recorded := filePositions[uri := byType[t := positions + [|buckets[t]|]]];
      nameCounts, instanceSets, filePositions := names, sets, recorded;
      buckets := buckets[t := buckets[t] + [Entry(uri, inst)]];
    }

    // One type's instances of one file.
    method PushAll(t: string, fileUri: string, instances: seq<TypeInstance>, baseGame: bool, ghost ledger: Ledger)
      returns (ghost longer: Ledger)
      requires Agree(buckets, nameCounts, instanceSets, filePositions, ledger) && t in buckets
      modifies this`buckets, this`nameCounts, this`instanceSets, this`filePositions
      ensures Agree(buckets, nameCounts, instanceSets, filePositions, longer)
      ensures longer == ledger[t := ListOf(ledger, t) + StampAll(fileUri, instances, baseGame)]
      ensures WorkspaceExact(old(instanceSets), ledger) ==> WorkspaceExact(instanceSets, longer)
      ensures forall t', n :: WsOf(instanceSets, t', n)
                           == WsOf(old(instanceSets), t', n)
                              + if !baseGame && t' == t then Count(instances, Called(n)) else 0
    {
      hide Agree, WorkspaceExact, Appended, ListOf, WsOf, Called, Count;
      NoneCalled();
      assert instances[..0] == [];
      longer := ledger[t := ListOf(ledger, t)];
      ghost var stamped, tracked := StampAll(fileUri, instances, baseGame), WorkspaceExact(instanceSets, ledger);
      SameWith(ledger, t);
      AgreeSame(buckets, nameCounts, instanceSets, filePositions, ledger, longer);
      assert ListOf(ledger, t) + stamped[..0] == ListOf(ledger, t);
      var i := 0;
      while i < |instances|
        invariant 0 <= i <= |instances| && t in buckets
        invariant Agree(buckets, nameCounts, instanceSets, filePositions, longer)
        invariant longer == ledger[t := ListOf(ledger, t) + stamped[..i]]
        invariant tracked ==> WorkspaceExact(instanceSets, longer)
        invariant forall t', n ::
          WsOf(instanceSets, t', n)
          == WsOf(old(instanceSets), t', n) + if !baseGame && t' == t then Count(instances[..i], Called(n)) else 0
      {
        OneMoreCalled(instances, i);
        Push(t, fileUri, instances[i], baseGame, longer);
        AppendedStep(ledger, t, stamped, i);
        longer := Appended(longer, t, stamped[i]);
        i := i + 1;
      }
      assert stamped[..i] == stamped && instances[..i] == instances;
    }

    method MergeFrom(fileUri: string, perType: map<string, seq<TypeInstance>>, baseGame: bool)
      requires Valid()
      modifies this
      ensures Valid()
      ensures history == old(history) + [Record(Stamped(fileUri, perType, baseGame))]
      ensures baseGameUris == if baseGame then old(baseGameUris) + {fileUri} else old(baseGameUris)
      ensures old(WorkspaceTracked()) ==> WorkspaceTracked()
      ensures forall t ::
                AppendsAt(Replay(old(history)), Replay(history), t, From(fileUri, GivenIn(perType, t)), baseGame)
      ensures forall t, n :: WsOf(instanceSets, t, n)
                          == WsOf(old(instanceSets), t, n)
                             + if baseGame then 0 else Count(GivenIn(perType, t), Called(n))
    {
      hide Agree, WorkspaceExact, FlagsRecorded, StampAll, Stamped, Replay, ListOf, Extends, AppendsAt, From, WsOf,
           Count, Called, GivenIn;
      ghost var before := Replay(history);
      ghost var ledger, tracked := before, WorkspaceExact(instanceSets, before);
      if baseGame {
        baseGameUris := baseGameUris + {fileUri};
      }
      var todo := perType.Keys;
      NothingStamped(fileUri, perType, baseGame, before);
      NoneCalled();
      NoneGiven(perType);
      while todo != {}
        invariant todo <= perType.Keys
        invariant Agree(buckets, nameCounts, instanceSets, filePositions, ledger)
        invariant history == old(history)
        invariant baseGameUris == if baseGame then old(baseGameUris) + {fileUri} else old(baseGameUris)
        invariant tracked ==> WorkspaceExact(instanceSets, ledger)
        invariant Extends(ledger, before, Stamped(fileUri, perType - todo, baseGame))
        invariant forall t, n ::
          WsOf(instanceSets, t, n)
          == WsOf(old(instanceSets), t, n) + if baseGame || t in todo then 0 else Count(GivenIn(perType, t), Called(n))
        decreases todo
      {
        var t :| t in todo;
        assert GivenIn(perType, t) == perType[t] by { GivenHere(perType, t); }
        Touch(t, ledger);
        TouchFile(fileUri, t, ledger);
        ghost var longer := PushAll(t, fileUri, perType[t], baseGame, ledger);
        StampedStep(fileUri, perType, baseGame, todo, t);
        BatchLists(before, ledger, longer, Stamped(fileUri, perType - todo, baseGame),
                   Stamped(fileUri, perType - (todo - {t}), baseGame), t, StampAll(fileUri, perType[t], baseGame));
        ledger := longer;
        todo := todo - {t};
      }
      assert perType - todo == perType;
      StampedFlags(fileUri, perType, baseGame);
      MergeDone(buckets, nameCounts, instanceSets, filePositions, ledger, history, Stamped(fileUri, perType, baseGame),
                old(baseGameUris), baseGameUris);
      StampedAppends(history, fileUri, perType, baseGame);
      history := history + [Record(Stamped(fileUri, perType, baseGame))];
    }

    method Merge(fileUri: string, perType: map<string, seq<TypeInstance>>)
      requires Valid()
      modifies this
      ensures Valid() && baseGameUris == old(baseGameUris)
      ensures history == old(history) + [Record(Stamped(fileUri, perType, false))]
      ensures old(WorkspaceTracked()) ==> WorkspaceTracked()
      // One provenance is kept unless the file is on record as base game.
      ensures OneProvenance(Replay(old(history)), baseGameUris) && fileUri !in baseGameUris ==>
              OneProvenance(Replay(history), baseGameUris)
      // Exactly the given instances join, as the workspace's, and are counted so.
      ensures forall t :: AppendsAt(Replay(old(history)), Replay(history), t, From(fileUri, GivenIn(perType, t)), false)
      ensures forall t, n ::
                WsOf(instanceSets, t, n) == WsOf(old(instanceSets), t, n) + Count(GivenIn(perType, t), Called(n))
    {
      hide Replay, OneProvenance, Agree, FlagsRecorded, WorkspaceExact, AppendsAt, From, WsOf, Count, Called, GivenIn;
      MergeFrom(fileUri, perType, false);
      if OneProvenance(Replay(old(history)), baseGameUris) && fileUri !in baseGameUris {
        StampedFlags(fileUri, perType, false);
        MergeProvenance(old(history), Stamped(fileUri, perType, false), baseGameUris, fileUri, false);
      }
    }

    method MergeBaseGame(fileUri: string, perType: map<string, seq<TypeInstance>>)
      requires Valid()
      modifies this
      ensures Valid() && baseGameUris == old(baseGameUris) + {fileUri}
      ensures history == old(history) + [Record(Stamped(fileUri, perType, true))]
      ensures old(WorkspaceTracked()) ==> WorkspaceTracked()
      // ... and here unless the workspace already contributed that file.
      ensures OneProvenance(Replay(old(history)), old(baseGameUris)) && AllBaseGame(Replay(old(history)), fileUri) ==>
              OneProvenance(Replay(history), baseGameUris)
      // Exactly the given instances join, as the base game's; no workspace count moves.
      ensures forall t :: AppendsAt(Replay(old(history)), Replay(history), t, From(fileUri, GivenIn(perType, t)), true)
      ensures forall t, n :: WsOf(instanceSets, t, n) == WsOf(old(instanceSets), t, n)
    {
      hide Replay, OneProvenance, AllBaseGame, Agree, FlagsRecorded, WorkspaceExact, AppendsAt, From, WsOf, Count,
           Called, GivenIn;
      MergeFrom(fileUri, perType, true);
      if OneProvenance(Replay(old(history)), old(baseGameUris)) && AllBaseGame(Replay(old(history)), fileUri) {
        StampedFlags(fileUri, perType, true);
        MergeProvenance(old(history), Stamped(fileUri, perType, true), old(baseGameUris), fileUri, true);
      }
    }

    // One type's instances, each from its own base-game file.
    method PushSourced(t: string, sourced: seq<(string, TypeInstance)>, ghost ledger: Ledger)
      returns (ghost longer: Ledger)
      requires Agree(buckets, nameCounts, instanceSets, filePositions, ledger) && t in buckets
      modifies this`buckets, this`nameCounts, this`instanceSets, this`filePositions, this`baseGameUris
      ensures Agree(buckets, nameCounts, instanceSets, filePositions, longer)
      ensures longer == ledger[t := ListOf(ledger, t) + BaseGame(sourced)]
      ensures baseGameUris == old(baseGameUris) + FilesOf(sourced)
      ensures WorkspaceExact(old(instanceSets), ledger) ==> WorkspaceExact(instanceSets, longer)
      ensures forall t', n :: WsOf(instanceSets, t', n) == WsOf(old(instanceSets), t', n)
    {
      hide Agree, WorkspaceExact, Appended, ListOf, WsOf;
      longer := ledger[t := ListOf(ledger, t)];
      ghost var stamped, tracked := BaseGame(sourced), WorkspaceExact(instanceSets, ledger);
      SameWith(ledger, t);
      AgreeSame(buckets, nameCounts, instanceSets, filePositions, ledger, longer);
      assert ListOf(ledger, t) + stamped[..0] == ListOf(ledger, t);
      var i := 0;
      while i < |sourced|
        invariant 0 <= i <= |sourced| && t in buckets
        invariant Agree(buckets, nameCounts, instanceSets, filePositions, longer)
        invariant longer == ledger[t := ListOf(ledger, t) + stamped[..i]]
        invariant baseGameUris == old(baseGameUris) + FilesOf(sourced[..i])
        invariant tracked ==> WorkspaceExact(instanceSets, longer)
        invariant forall t', n :: WsOf(instanceSets, t', n) == WsOf(old(instanceSets), t', n)
      {
        var (uri, inst) := sourced[i];
        baseGameUris := baseGameUris + {uri};
        assert sourced[..i + 1][..i] == sourced[..i];
        Push(t, uri, inst, true, longer);
        AppendedStep(ledger, t, stamped, i);
        longer := Appended(longer, t, stamped[i]);
        i := i + 1;
      }
      assert stamped[..i] == stamped && sourced[..i] == sourced;
    }

    method PushBatch(t: string, sourced: seq<(string, TypeInstance)>,
                     ghost ledger: Ledger) returns (ghost longer: Ledger)
      requires Agree(buckets, nameCounts, instanceSets, filePositions, ledger)
      modifies this`buckets, this`nameCounts, this`instanceSets, this`filePositions, this`baseGameUris
      ensures Agree(buckets, nameCounts, instanceSets, filePositions, longer)
      ensures longer == ledger[t := ListOf(ledger, t) + BaseGame(sourced)]
      ensures baseGameUris == old(baseGameUris) + FilesOf(sourced)
      ensures WorkspaceExact(old(instanceSets), ledger) ==> WorkspaceExact(instanceSets, longer)
      ensures forall t', n :: WsOf(instanceSets, t', n) == WsOf(old(instanceSets), t', n)
    {
      hide Agree, WorkspaceExact, BaseGame, WsOf;
      Touch(t, ledger);
      longer := PushSourced(t, sourced, ledger);
    }

    method MergeBaseGameWithUris(perType: seq<(string, seq<(string, TypeInstance)>)>)
      requires Valid()
      modifies this
      ensures Valid()
      ensures history == old(history) + [Record(Sourced(perType))]
      ensures baseGameUris == old(baseGameUris) + UrisOf(perType)
      ensures old(WorkspaceTracked()) ==> WorkspaceTracked()
      // Exactly the given instances join, as the base game's, each from its own
      // file, which goes on record; no workspace count moves.
      ensures forall t :: AppendsAt(Replay(old(history)), Replay(history), t, GivenFor(perType, t), true)
      ensures forall u :: u in baseGameUris <==> u in old(baseGameUris) || NamesFile(perType, u)
      ensures forall t, n :: WsOf(instanceSets, t, n) == WsOf(old(instanceSets), t, n)
      // One provenance is kept unless the workspace contributed one of the files.
      ensures OneProvenance(Replay(old(history)), old(baseGameUris))
              && (forall u :: NamesFile(perType, u) ==> AllBaseGame(Replay(old(history)), u)) ==>
              OneProvenance(Replay(history), baseGameUris)
    {
      hide Agree, WorkspaceExact, FlagsRecorded, BaseGame, Replay, UrisOf, FilesOf, Sourced, ListOf, Extends, WsOf,
           AppendsAt, GivenFor, NamesFile, OneProvenance, AllBaseGame;
      ghost var before := Replay(history);
      ghost var ledger, tracked := before, WorkspaceExact(instanceSets, before);
      NothingSourced(before);
      assert perType[..0] == [];
      var k := 0;
      while k < |perType|
        invariant 0 <= k <= |perType|
        invariant Agree(buckets, nameCounts, instanceSets, filePositions, ledger)
        invariant history == old(history)
        invariant baseGameUris == old(baseGameUris) + UrisOf(perType[..k])
        invariant tracked ==> WorkspaceExact(instanceSets, ledger)
        invariant Extends(ledger, before, Sourced(perType[..k]))
        invariant forall t, n :: WsOf(instanceSets, t, n) == WsOf(old(instanceSets), t, n)
      {
        ghost var longer := PushBatch(perType[k].0, perType[k].1, ledger);
        SourcedStep(perType, k);
        BatchLists(before, ledger, longer, Sourced(perType[..k]), Sourced(perType[..k + 1]), perType[k].0,
                   BaseGame(perType[k].1));
        ledger := longer;
        k := k + 1;
      }
      assert perType[..k] == perType;
      SourcedFlags(perType, baseGameUris);
      MergeDone(buckets, nameCounts, instanceSets, filePositions, ledger, history, Sourced(perType),
                old(baseGameUris), baseGameUris);
      SourcedAppends(history, perType);
      forall u {
        UrisOfIs(perType, u);
      }
      history := history + [Record(Sourced(perType))];
      if OneProvenance(before, old(baseGameUris)) && forall u :: NamesFile(perType, u) ==> AllBaseGame(before, u) {
        SourcedProvenance(before, Replay(history), perType, old(baseGameUris), baseGameUris);
      }
    }

    // ---- Removal -------------------------------------------------------------

    // Drop buckets[t][index] by swapping the last entry in, and repair the
    // position recorded for whichever file owned it.
    method SwapRemoveInstance(t: string, index: nat)
      requires t in buckets && index < |buckets[t]|
      modifies this`buckets, this`filePositions
      ensures buckets == old(buckets)[t := SwapRemoved(old(buckets)[t], index)]
      ensures filePositions == Repaired(old(filePositions), old(buckets)[t], t, index)
    {
      var v := buckets[t];
      var last := |v| - 1;
      v := v[index := v[last]][..last];
      buckets := buckets[t := v];
      if index == last {
        return;
      }
      var movedUri := v[index].uri;
      if movedUri in filePositions && t in filePositions[movedUri] {
        var positions := filePositions[movedUri][t];
        var k := IndexOf(positions, last);
        if k < |positions| {
          filePositions := filePositions[movedUri := filePositions[movedUri][t := positions[k := index]]];
        }
      }
    }

    // One type's positions of the file being removed, largest first.
    method RemovePositions(t: string, positions: seq<nat>, baseGame: bool, ghost u: string,
                           ghost m0: Buckets, ghost sets0: NameSets, ghost base: set<string>,
                           ghost pending: map<string, seq<nat>>)
      requires t in pending && pending[t] == positions && Descending(positions)
      requires baseGame <==> u in base
      requires Removing(m0, sets0, base, u, pending, buckets, nameCounts, instanceSets, filePositions)
      modifies this`buckets, this`nameCounts, this`instanceSets, this`filePositions
      ensures Removing(m0, sets0, base, u, pending[t := []], buckets, nameCounts, instanceSets, filePositions)
    {
      hide Removing, SwapRemoved, Repaired, ReleaseName, Descending;
      var k := 0;
      assert pending[t := positions[0..]] == pending;
      while k < |positions|
        invariant 0 <= k <= |positions|
        invariant Removing(m0, sets0, base, u, pending[t := positions[k..]],
                           buckets, nameCounts, instanceSets, filePositions)
      {
        var index := positions[k];
        ghost var left := pending[t := positions[k..]];
        DescendingTail(positions, k);
        RemovingStep(m0, sets0, base, u, left, buckets, nameCounts, instanceSets, filePositions, t);
        assert left[t := left[t][1..]] == pending[t := positions[k + 1..]];
        var lower := NameOf(buckets[t][index]);
        if !IsSubtypeKey(t) {
          nameCounts := DecRef(nameCounts, lower);
        }
        instanceSets := instanceSets[t := ReleaseName(instanceSets[t], lower, baseGame)];
        SwapRemoveInstance(t, index);
        k := k + 1;
      }
      assert positions[k..] == [];
    }

    // One type of the file being removed; a bucket it empties is pruned.
    method RemoveType(t: string, unsorted: seq<nat>, baseGame: bool, ghost u: string,
                      ghost m0: Buckets, ghost sets0: NameSets, ghost base: set<string>,
                      ghost pending: map<string, seq<nat>>)
      requires t in pending && pending[t] == unsorted && (baseGame <==> u in base)
      requires Removing(m0, sets0, base, u, pending, buckets, nameCounts, instanceSets, filePositions)
      modifies this`buckets, this`nameCounts, this`instanceSets, this`filePositions
      ensures Removing(m0, sets0, base, u, pending[t := []], buckets, nameCounts, instanceSets, filePositions)
    {
      hide Removing;
      var positions := SortedDescending(unsorted);
      RemovingSorted(m0, sets0, base, u, pending, buckets, nameCounts, instanceSets, filePositions, t);
      RemovePositions(t, positions, baseGame, u, m0, sets0, base, pending[t := positions]);
      assert pending[t := positions][t := []] == pending[t := []];
      if t in buckets && buckets[t] == [] {
        RemovingPrunes(m0, sets0, base, u, pending[t := []], buckets, nameCounts, instanceSets, filePositions, t);
        buckets := buckets - {t};
        instanceSets := instanceSets - {t};
      }
    }

    // Drop the file from the refcounted dynamic-value indexes.
    method RemoveDynamic(fileUri: string)
      requires DynamicValid()
      modifies complexEnumValues, valueSetValues, scriptedLocIndex
      ensures DynamicValid()
      ensures complexEnumValues.perFile == old(complexEnumValues.perFile) - {fileUri}
      ensures valueSetValues.perFile == old(valueSetValues.perFile) - {fileUri}
      ensures scriptedLocIndex.perFile == old(scriptedLocIndex.perFile) - {fileUri}
    {
      complexEnumValues.RemoveFile(fileUri);
      valueSetValues.RemoveFile(fileUri);
      scriptedLocIndex.RemoveFile(fileUri);
    }

    // Remove everything the file contributed.
    method RemoveFile(fileUri: string)
      requires Valid() && DynamicValid()
      modifies this, complexEnumValues, valueSetValues, scriptedLocIndex
      ensures Valid() && DynamicValid()
      ensures history == old(history) + [Forget({fileUri})]
      ensures baseGameUris == if fileUri in old(filePositions) then old(baseGameUris) - {fileUri} else old(baseGameUris)
      ensures complexEnumValues.perFile == old(complexEnumValues.perFile) - {fileUri}
      ensures valueSetValues.perFile == old(valueSetValues.perFile) - {fileUri}
      ensures scriptedLocIndex.perFile == old(scriptedLocIndex.perFile) - {fileUri}
      // Workspace counts stay exact unless the file was merged both ways and
      // shares a workspace name with a survivor.
      ensures old(WorkspaceTracked()) ==>
              (WorkspaceTracked() <==> NoMixedNamesake(Replay(old(history)), old(baseGameUris), {fileUri}))
      ensures OneProvenance(Replay(old(history)), old(baseGameUris)) ==> OneProvenance(Replay(history), baseGameUris)
    {
      RemoveDynamic(fileUri);
      RemoveInstances(fileUri);
    }

    // Its type instances, guided by the positions recorded for it.
    method RemoveInstances(fileUri: string)
      requires Valid()
      modifies this
      ensures Valid()
      ensures history == old(history) + [Forget({fileUri})]
      ensures baseGameUris == if fileUri in old(filePositions) then old(baseGameUris) - {fileUri} else old(baseGameUris)
      ensures old(WorkspaceTracked()) ==>
              (WorkspaceTracked() <==> NoMixedNamesake(Replay(old(history)), old(baseGameUris), {fileUri}))
      ensures OneProvenance(Replay(old(history)), old(baseGameUris)) ==> OneProvenance(Replay(history), baseGameUris)
    {
      hide Removing, Dropping, PositionsExact, HoldsLedger, Refcounts, SetsExact, FlagsRecorded, WorkspaceExact,
           NoMixedNamesake, OneProvenance, NoneOf, Replay, Apply;
      if fileUri !in filePositions {
        history := history + [Forget({fileUri})];
        ForgetUnknown(buckets, filePositions, nameCounts, instanceSets, baseGameUris, old(history), fileUri);
        return;
      }
      var typePositions := filePositions[fileUri];
      ghost var m0, sets0, base := buckets, instanceSets, baseGameUris;
      var baseGame := fileUri in baseGameUris;
      RemovingStarts(buckets, nameCounts, instanceSets, filePositions, base, fileUri);
      filePositions := filePositions - {fileUri};
      baseGameUris := baseGameUris - {fileUri};
      ghost var pending := typePositions;
      var todo := typePositions.Keys;
      while todo != {}
        invariant todo <= typePositions.Keys && typePositions.Keys == pending.Keys
        invariant forall t :: t in pending ==> pending[t] == if t in todo then typePositions[t] else []
        invariant Removing(m0, sets0, base, fileUri, pending, buckets, nameCounts, instanceSets, filePositions)
        invariant history == old(history) && baseGameUris == old(baseGameUris) - {fileUri}
        decreases todo
      {
        var t :| t in todo;
        RemoveType(t, typePositions[t], baseGame, fileUri, m0, sets0, base, pending);
        pending := pending[t := []];
        todo := todo - {t};
      }
      RemovingDone(m0, sets0, base, fileUri, pending, buckets, nameCounts, instanceSets, filePositions);
      history := history + [Forget({fileUri})];
      ForgetDone(m0, sets0, base, {fileUri}, buckets, nameCounts, instanceSets, filePositions, old(history),
                 baseGameUris);
    }

    // One bucket of the bulk pass: keep the entries of other files, in order.
    method RetainOthers(t: string, files: set<string>, ghost m0: Buckets, ghost sets0: NameSets)
      requires t in buckets
      requires Dropping(m0, sets0, baseGameUris, files, buckets, nameCounts, instanceSets)
      modifies this`buckets, this`nameCounts, this`instanceSets
      ensures Dropping(m0, sets0, baseGameUris, files, buckets, nameCounts, instanceSets)
      ensures buckets.Keys == old(buckets).Keys
      ensures forall i :: 0 <= i < |buckets[t]| ==> buckets[t][i].uri !in files
      ensures forall t' :: t' in buckets && t' != t ==> buckets[t'] == old(buckets)[t']
    {
      hide Dropping, ReleaseName, DecRef, ListOf, IsSubtypeKey;
      var v := buckets[t];
      var kept: seq<Entry> := [];
      var i := 0;
      assert [] + v[0..] == v;
      assert buckets[t := v] == buckets;
      while i < |v|
        invariant 0 <= i <= |v|
        invariant buckets == old(buckets) && v == buckets[t]
        invariant forall j :: 0 <= j < |kept| ==> kept[j].uri !in files
        invariant Dropping(m0, sets0, baseGameUris, files, buckets[t := kept + v[i..]], nameCounts, instanceSets)
      {
        RetainStep(kept, v, i);
        if v[i].uri !in files {
          kept := kept + [v[i]];
        } else {
          ghost var m := buckets[t := kept + v[i..]];
          DroppingStep(m0, sets0, baseGameUris, files, m, nameCounts, instanceSets, t, kept + v[i + 1..], v[i]);
          assert m[t := kept + v[i + 1..]] == buckets[t := kept + v[i + 1..]];
          var lower := NameOf(v[i]);
          if !IsSubtypeKey(t) {
            nameCounts := DecRef(nameCounts, lower);
          }
          instanceSets := instanceSets[t := ReleaseName(instanceSets[t], lower, v[i].uri in baseGameUris)];
        }
        i := i + 1;
      }
      assert kept + v[i..] == kept;
      buckets := buckets[t := kept];
    }

    // `file_positions` from scratch.
    method RebuildPositions()
      modifies this`filePositions
      ensures PositionsExact(buckets, filePositions)
    {
      hide PositionsExact, RebuiltUpTo, ListOf;
      filePositions := map[];
      ghost var built: Buckets := map[];
      NoPositions();
      var todo := buckets.Keys;
      NothingRebuilt(buckets);
      while todo != {}
        invariant todo <= buckets.Keys
        invariant PositionsExact(built, filePositions)
        invariant Rebuilt(buckets, todo, built)
        decreases todo
      {
        var t :| t in todo;
        var entries := buckets[t];
        var i: nat := 0;
        RebuildingStarts(buckets, todo, built, t);
        while i < |entries|
          invariant 0 <= i <= |entries|
          invariant PositionsExact(built, filePositions)
          invariant RebuiltUpTo(buckets, todo, built, t, i)
        {
          PositionsAfterPush(built, filePositions, t, entries[i]);
          RebuildsOne(buckets, todo, built, t, i);
          var uri := entries[i].uri;
          var byType := if uri in filePositions then filePositions[uri] else map[];
          filePositions := filePositions[uri := byType[t := (if t in byType then byType[t] else []) + [i]]];
          built := built[t := ListOf(built, t) + [entries[i]]];
          i := i + 1;
        }
        RebuildsType(buckets, todo, built, t);
        todo := todo - {t};
      }
      SamePositions(built, buckets, filePositions);
    }

    // Remove every instance contributed by any of the files, in one pass.
    method RemoveFiles(files: set<string>)
      requires Valid()
      modifies this
      ensures Valid()
      ensures history == old(history) + [Forget(files)]
      ensures baseGameUris == old(baseGameUris) - files
      ensures old(WorkspaceTracked()) ==>
              (WorkspaceTracked() <==> NoMixedNamesake(Replay(old(history)), old(baseGameUris), files))
      ensures OneProvenance(Replay(old(history)), old(baseGameUris)) ==> OneProvenance(Replay(history), baseGameUris)
    {
      hide Dropping, PositionsExact, HoldsLedger, Refcounts, SetsExact, FlagsRecorded, WorkspaceExact,
           NoMixedNamesake, OneProvenance, NoneOf, Replay, Apply;
      ghost var m0, sets0, base := buckets, instanceSets, baseGameUris;
      history := history + [Forget(files)];
      DroppingStarts(buckets, nameCounts, instanceSets, baseGameUris, files);
      if files == {} {
        NobodyIn(buckets);
        ForgetDone(m0, sets0, base, files, buckets, nameCounts, instanceSets, filePositions, old(history),
                   baseGameUris);
        return;
      }
      var todo := buckets.Keys;
      while todo != {}
        invariant todo <= buckets.Keys
        invariant Dropping(m0, sets0, base, files, buckets, nameCounts, instanceSets)
        invariant forall t, i :: t in buckets && t !in todo && 0 <= i < |buckets[t]| ==> buckets[t][i].uri !in files
        invariant history == old(history) + [Forget(files)] && baseGameUris == base
        decreases todo
      {
        var t :| t in todo;
        RetainOthers(t, files, m0, sets0);
        todo := todo - {t};
      }
      NobodyLeft(NonEmpty(buckets), files);
      baseGameUris := baseGameUris - files;
      RetainsKeep(m0, sets0, base, files, buckets, nameCounts, instanceSets);
      buckets := NonEmpty(buckets);
      instanceSets := NonEmptySets(instanceSets);
      RebuildPositions();
      ForgetDone(m0, sets0, base, files, buckets, nameCounts, instanceSets, filePositions, old(history), baseGameUris);
    }

    // ---- Queries ---------------------------------------------------------------

    // Does a surviving contribution define `instance` as a `typeName`, in any case?
    method Contains(typeName: string, instance: string) returns (known: bool)
      requires Valid()
      ensures known <==> Defined(Replay(history), typeName, Lower(instance))
    {
      var key := instance;
      if HasUpper(instance) {
        key := Lower(instance);
      } else {
        NoUpperIsLower(instance);
      }
      TotalIs(buckets, instanceSets, typeName, key);
      BucketDefines(buckets, Replay(history), typeName, key);
      known := typeName in instanceSets && key in instanceSets[typeName];
    }

    // Is `name` an instance of any plain type?
    method IsAnyInstance(name: string) returns (known: bool)
      requires Valid()
      ensures known <==> exists t :: '.' !in t && Defined(Replay(history), t, Lower(name))
    {
      var key := name;
      if HasUpper(name) {
        key := Lower(name);
      } else {
        NoUpperIsLower(name);
      }
      NamesDefine(buckets, nameCounts, Replay(history), key);
      known := key in nameCounts;
    }

    // How often the workspace defines `instance`: the surviving workspace
    // contributions of that name, as long as the counts are tracked.
    method WorkspaceDefinitionCount(typeName: string, instance: string) returns (n: nat)
      requires Valid()
      ensures n == WsOf(instanceSets, typeName, Lower(instance))
      ensures WorkspaceTracked() ==> n == Count(ListOf(Replay(history), typeName), WorkspaceNamed(Lower(instance)))
    {
      var key := if HasUpper(instance) then Lower(instance) else instance;
      if !HasUpper(instance) {
        NoUpperIsLower(instance);
      }
      n :=
        if typeName in instanceSets && key in instanceSets[typeName] then instanceSets[typeName][key].workspace else 0;
      assert WorkspaceTracked() ==> WorkspaceExactAt(instanceSets, Replay(history), typeName, key);
    }

    // Every plain-type instance the file defines, each as often as it survives.
    method InstancesInFile(fileUri: string) returns (out: seq<(string, TypeInstance)>)
      requires Valid()
      ensures forall t, inst ::
        multiset(out)[(t, inst)]
          == (if '.' in t then 0 else multiset(Entries(ListOf(Replay(history), t)))[Entry(fileUri, inst)])
    {
      hide Refcounts, SetsExact, PositionsExact, HoldsLedger, FlagsRecorded, Replay;
      out := [];
      if fileUri !in filePositions {
        forall t, inst ensures multiset(Entries(ListOf(Replay(history), t)))[Entry(fileUri, inst)] == 0 {
          FileReads(buckets, filePositions, Replay(history), fileUri, t, inst);
        }
        return;
      }
      var byType := filePositions[fileUri];
      var todo := byType.Keys;
      while todo != {}
        invariant todo <= byType.Keys
        invariant forall t, inst ::
          (multiset(out)[(t, inst)]
           == (if IsSubtypeKey(t) || t in todo || t !in byType then 0
               else multiset(Entries(ListOf(Replay(history), t)))[Entry(fileUri, inst)]))
        decreases todo
      {
        var t :| t in todo;
        todo := todo - {t};
        if !IsSubtypeKey(t) {
          var listed := ReadPositions(t, fileUri, byType[t]);
          ghost var before := out;
          out := out + listed;
          assert multiset(out) == multiset(before) + multiset(listed);
        }
      }
      forall t, inst ensures t !in byType ==> multiset(Entries(ListOf(Replay(history), t)))[Entry(fileUri, inst)] == 0 {
        FileReads(buckets, filePositions, Replay(history), fileUri, t, inst);
      }
    }

    // One type's instances of the file, through its positions.
    method ReadPositions(t: string, fileUri: string, positions: seq<nat>) returns (out: seq<(string, TypeInstance)>)
      requires Valid() && positions == PositionsOf(filePositions, fileUri, t)
      ensures forall t', inst ::
        multiset(out)[(t', inst)]
          == (if t' != t then 0 else multiset(Entries(ListOf(Replay(history), t)))[Entry(fileUri, inst)])
    {
      hide Refcounts, SetsExact, PositionsExact, HoldsLedger, FlagsRecorded, Replay;
      PositionsInRange(buckets, filePositions, fileUri, t);
      var entries := ListOf(buckets, t);
      out := [];
      var k := 0;
      while k < |positions|
        invariant 0 <= k <= |positions| == |Picked(positions, entries)|
        invariant out == TagAll(t, Picked(positions, entries)[..k])
      {
        var pos := positions[k];
        out := out + [(t, entries[pos].inst)];
        k := k + 1;
      }
      assert Picked(positions, entries)[..k] == Picked(positions, entries);
      forall t', inst ensures multiset(out)[(t', inst)]
        == (if t' != t then 0 else multiset(Entries(ListOf(Replay(history), t)))[Entry(fileUri, inst)])
      {
        TagAllCounts(t, Picked(positions, entries), fileUri, t', inst);
        FileReads(buckets, filePositions, Replay(history), fileUri, t, inst);
      }
    }
  }

  // One file merged as workspace and again, even with nothing in it, as base
  // game: removing it leaves a workspace count too high for its namesake.
  method MixedProvenanceDrifts() returns (index: TypeIndex)
    ensures index.Valid() && !index.WorkspaceTracked()
  {
    hide Agree, FlagsRecorded, WorkspaceExact, OneProvenance, NoMixedNamesake, AllBaseGame, Replay, Stamped;
    index := new TypeIndex();
    var oil := TypeInstance("oil", SourceLocation(1, 0, 1, 0), None, []);
    index.Merge("a.txt", map["resource" := [oil]]);
    index.Merge("b.txt", map["resource" := [oil]]);
    index.MergeBaseGame("a.txt", map[]);
    assert !NoMixedNamesake(Replay(index.history), index.baseGameUris, {"a.txt"}) by {
      MixedHistory(index.history, oil, index.baseGameUris);
    }
    index.RemoveInstances("a.txt");
  }

  lemma MixedHistory(history: seq<Change>, oil: TypeInstance, base: set<string>)
    requires history == [Record(Stamped("a.txt", map["resource" := [oil]], false)),
                         Record(Stamped("b.txt", map["resource" := [oil]], false)),
                         Record(Stamped("a.txt", map[], true))]
    requires "a.txt" in base
    ensures !NoMixedNamesake(Replay(history), base, {"a.txt"})
  {
    hide Replay, Apply, NoMixedNamesake, Without;
    EmptyReplay();
    AppliedLists([], history[0]);
    AppliedLists([history[0]], history[1]);
    AppliedLists([history[0], history[1]], history[2]);
    assert [] + [history[0]] == [history[0]];
    assert [history[0]] + [history[1]] == [history[0], history[1]];
    assert [history[0], history[1]] + [history[2]] == history;
    assert ListOf(Replay(history), "resource")
      == [Contribution("a.txt", oil, false), Contribution("b.txt", oil, false)];
    var cs := ListOf(Replay(history), "resource");
    assert cs[0].uri in {"a.txt"} && cs[0].uri in base && !cs[0].baseGame && cs[1].uri !in {"a.txt"};
    MixedAt(Replay(history), base, {"a.txt"}, "resource", 0, 1);
  }

  lemma EmptyReplay()
    ensures forall t :: ListOf(Replay([]), t) == []
  {
  }

  lemma MixedAt(ledger: Ledger, base: set<string>, files: set<string>, t: string, i: nat, j: nat)
    requires var cs := ListOf(ledger, t);
             i < |cs| && j < |cs| && cs[i].uri in files && cs[i].uri in base && !cs[i].baseGame && cs[j].uri !in files
             && Lower(cs[i].inst.name) == Lower(cs[j].inst.name)
    ensures !NoMixedNamesake(ledger, base, files)
  {
  }

  // ---- One set of survivors, one set of tables ---------------------------------

  lemma {:induction false} EmptyBucketsUncounted(m: Buckets, n: string)
    ensures NameTotal(m)(n) == NameTotal(NonEmpty(m))(n)
    decreases |m|
  {
    hide Tally, Named, IsPlainKey, NonEmpty;
    if t :| t in m && m[t] == [] {
      TallyIgnoresEmpty(m, IsPlainKey, Named(n), t);
      assert (m - {t}).Keys == m.Keys - {t};
      EmptyBucketsUncounted(m - {t}, n);
      NonEmptySkips(m, t);
    } else {
      NonEmptyKeepsAll(m);
    }
  }

  lemma NonEmptySkips(m: Buckets, t: string)
    requires t in m && m[t] == []
    ensures NonEmpty(m - {t}) == NonEmpty(m)
  {
  }

  lemma NonEmptyKeepsAll(m: Buckets)
    requires forall t :: t in m ==> m[t] != []
    ensures NonEmpty(m) == m
  {
  }

  lemma SameBucketsSameNames(m1: Buckets, m2: Buckets, n: string)
    requires forall t :: multiset(ListOf(m1, t)) == multiset(ListOf(m2, t))
    ensures NameTotal(m1)(n) == NameTotal(m2)(n)
  {
    hide Count, IsPlainKey, Named;
    EmptyBucketsUncounted(m1, n);
    EmptyBucketsUncounted(m2, n);
    var b1, b2 := NonEmpty(m1), NonEmpty(m2);
    forall t ensures (t in b1 <==> t in b2) && (t in b1 ==> multiset(b1[t]) == multiset(b2[t])) {
      assert multiset(ListOf(m1, t)) == multiset(ListOf(m2, t));
      assert |multiset(ListOf(m1, t))| == |multiset(ListOf(m2, t))|;
    }
    forall t | t in b1 {
      CountPermutation(b1[t], b2[t], Named(n));
    }
    assert TallyTable(b1, IsPlainKey, Named(n)) == TallyTable(b2, IsPlainKey, Named(n));
  }

  function TotalOf(sets: NameSets, t: string, n: string): (total: nat)
    ensures t in sets && n in sets[t] ==> total == sets[t][n].total
  {
    if t in sets && n in sets[t] then sets[t][n].total else 0
  }

  // Through its positions a file reads the same instances in both.
  ghost predicate FileReadsAlike(m1: Buckets, fp1: FilePositions, m2: Buckets, fp2: FilePositions, u: string,
                                 t: string) {
    && (forall k :: 0 <= k < |PositionsOf(fp1, u, t)| ==> PositionsOf(fp1, u, t)[k] < |ListOf(m1, t)|)
    && (forall k :: 0 <= k < |PositionsOf(fp2, u, t)| ==> PositionsOf(fp2, u, t)[k] < |ListOf(m2, t)|)
    && multiset(Picked(PositionsOf(fp1, u, t), ListOf(m1, t)))
      == multiset(Picked(PositionsOf(fp2, u, t), ListOf(m2, t)))
  }

  lemma SameBucketsReadAlike(m1: Buckets, fp1: FilePositions, m2: Buckets, fp2: FilePositions, u: string, t: string)
    requires PositionsExactAt(m1, fp1, u, t) && PositionsExactAt(m2, fp2, u, t)
    requires multiset(ListOf(m1, t)) == multiset(ListOf(m2, t))
    ensures FileReadsAlike(m1, fp1, m2, fp2, u, t)
  {
    hide PositionsOf, ListOf, IndexList, Picked;
    SameReads(PositionsOf(fp1, u, t), ListOf(m1, t), PositionsOf(fp2, u, t), ListOf(m2, t), u);
  }

  lemma SameReads(ps1: seq<nat>, b1: seq<Entry>, ps2: seq<nat>, b2: seq<Entry>, u: string)
    requires IndexList(ps1, b1, u) && IndexList(ps2, b2, u) && multiset(b1) == multiset(b2)
    ensures (forall k :: 0 <= k < |ps1| ==> ps1[k] < |b1|) && forall k :: 0 <= k < |ps2| ==> ps2[k] < |b2|
    ensures multiset(Picked(ps1, b1)) == multiset(Picked(ps2, b2))
  {
    hide IndexList, Picked;
    FileReadsOwn(ps1, b1, u);
    FileReadsOwn(ps2, b2, u);
    var picked1, picked2 := multiset(Picked(ps1, b1)), multiset(Picked(ps2, b2));
    forall e: Entry ensures picked1[e] == picked2[e] {
    }
  }

  lemma FileReadsOwn(ps: seq<nat>, b: seq<Entry>, u: string)
    requires IndexList(ps, b, u)
    ensures forall k :: 0 <= k < |ps| ==> ps[k] < |b|
    ensures forall e :: multiset(Picked(ps, b))[e] == if e.uri == u then multiset(b)[e] else 0
  {
    forall e: Entry ensures multiset(Picked(ps, b))[e] == if e.uri == u then multiset(b)[e] else 0 {
      if e.uri == u {
        IndexListReads(ps, b, u, e);
      } else {
        assert e !in Picked(ps, b);
      }
    }
  }

  lemma SameContributionsSameWorkspace(sets1: NameSets, l1: Ledger, sets2: NameSets, l2: Ledger)
    requires WorkspaceExact(sets1, l1) && WorkspaceExact(sets2, l2)
    requires forall t :: multiset(ListOf(l1, t)) == multiset(ListOf(l2, t))
    ensures forall t, n :: WsOf(sets1, t, n) == WsOf(sets2, t, n)
  {
    hide WsOf;
    forall t, n ensures WsOf(sets1, t, n) == WsOf(sets2, t, n) {
      assert WorkspaceExactAt(sets1, l1, t, n) && WorkspaceExactAt(sets2, l2, t, n);
      CountPermutation(ListOf(l1, t), ListOf(l2, t), WorkspaceNamed(n));
    }
  }

  // However two indexes were edited, if the same instances survive in both then
  // their tables agree: an index is what a rebuild from its survivors would give.
  // Positions agree as far as order goes, each file reading the same instances;
  // workspace counts need the same provenance and both of them exact.
  lemma SurvivorsDetermineTables(m1: Buckets, names1: map<string, nat>, sets1: NameSets, fp1: FilePositions, l1: Ledger,
                                 m2: Buckets, names2: map<string, nat>, sets2: NameSets, fp2: FilePositions, l2: Ledger)
    requires Agree(m1, names1, sets1, fp1, l1) && Agree(m2, names2, sets2, fp2, l2)
    requires forall t :: multiset(Entries(ListOf(l1, t))) == multiset(Entries(ListOf(l2, t)))
    ensures names1 == names2
    ensures forall t, n :: TotalOf(sets1, t, n) == TotalOf(sets2, t, n)
    ensures forall t :: multiset(ListOf(m1, t)) == multiset(ListOf(m2, t))
    ensures forall u, t :: FileReadsAlike(m1, fp1, m2, fp2, u, t)
    ensures (forall t :: multiset(ListOf(l1, t)) == multiset(ListOf(l2, t)))
            && WorkspaceExact(sets1, l1) && WorkspaceExact(sets2, l2)
         ==> forall t, n :: WsOf(sets1, t, n) == WsOf(sets2, t, n)
  {
    hide Refcounts, PositionsExactAt, Entries, FileReadsAlike, WorkspaceExact, WsOf;
    forall t ensures multiset(ListOf(m1, t)) == multiset(ListOf(m2, t)) {
      assert HoldsType(m1, l1, t) && HoldsType(m2, l2, t);
    }
    hide HoldsLedger;
    forall u, t ensures FileReadsAlike(m1, fp1, m2, fp2, u, t) {
      SameBucketsReadAlike(m1, fp1, m2, fp2, u, t);
    }
    if (forall t :: multiset(ListOf(l1, t)) == multiset(ListOf(l2, t)))
       && WorkspaceExact(sets1, l1) && WorkspaceExact(sets2, l2) {
      SameContributionsSameWorkspace(sets1, l1, sets2, l2);
    }
    SameNamesAndTotals(m1, names1, sets1, m2, names2, sets2);
  }

  lemma SameNamesAndTotals(m1: Buckets, names1: map<string, nat>, sets1: NameSets,
                           m2: Buckets, names2: map<string, nat>, sets2: NameSets)
    requires Refcounts(names1, NameTotal(m1)) && SetsExact(m1, sets1)
    requires Refcounts(names2, NameTotal(m2)) && SetsExact(m2, sets2)
    requires forall t :: multiset(ListOf(m1, t)) == multiset(ListOf(m2, t))
    ensures names1 == names2
    ensures forall t, n :: TotalOf(sets1, t, n) == TotalOf(sets2, t, n)
  {
    hide Refcounts, Count, Named;
    forall n {
      SameBucketsSameNames(m1, m2, n);
    }
    RefcountsUnique(names1, names2, NameTotal(m1), NameTotal(m2));
    forall t, n ensures TotalOf(sets1, t, n) == TotalOf(sets2, t, n) {
      TotalIs(m1, sets1, t, n);
      TotalIs(m2, sets2, t, n);
      CountPermutation(ListOf(m1, t), ListOf(m2, t), Named(n));
    }
  }
}

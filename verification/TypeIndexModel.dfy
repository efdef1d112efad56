/** The redundant tables of the cross-file type index (type_index.rs) as values,
    what it means for them to agree, and why one push, one swap-removal or one
    whole-file removal keeps them in agreement. */
module TypeIndexModel {
  import opened Text
  import opened Counting

  datatype SourceLocation = SourceLocation(line: nat, col: nat, endLine: nat, endCol: nat)

  datatype TypeInstance = TypeInstance(
    name: string, location: SourceLocation, primaryLocKey: Option<string>, requiredLocKeys: seq<string>)

  datatype Entry = Entry(uri: string, inst: TypeInstance)

  datatype NameRefs = NameRefs(total: nat, workspace: nat)

  type Buckets = map<string, seq<Entry>>
  type NameSets = map<string, map<string, NameRefs>>
  type FilePositions = map<string, map<string, seq<nat>>>

  predicate IsSubtypeKey(typeName: string) { '.' in typeName }

  // A subtype's key is its type's name, a dot and its own.
  lemma SubtypeKeys(typeName: string)
    ensures IsSubtypeKey(typeName) <==> exists t: string, sub: string :: typeName == t + ['.'] + sub
  {
    if '.' in typeName {
      var i :| 0 <= i < |typeName| && typeName[i] == '.';
      assert typeName == typeName[..i] + ['.'] + typeName[i + 1..];
    }
  }

  function NameOf(e: Entry): string { Lower(e.inst.name) }

  function PositionsOf(fp: FilePositions, u: string, t: string): seq<nat> {
    if u in fp && t in fp[u] then fp[u][t] else []
  }

  // ---- The simple thing: contributions in the order they were merged --------

  // One definition as it was merged, with the provenance it was merged under.
  datatype Contribution = Contribution(uri: string, inst: TypeInstance, baseGame: bool)

  type Ledger = map<string, seq<Contribution>>

  datatype Change =
    | Record(batch: Ledger)
    | Forget(files: set<string>)

  function EntryOf(c: Contribution): Entry { Entry(c.uri, c.inst) }

  function Entries(cs: seq<Contribution>): (es: seq<Entry>)
    ensures |es| == |cs|
    ensures forall k :: 0 <= k < |cs| ==> es[k] == EntryOf(cs[k])
  {
    seq(|cs|, k requires 0 <= k < |cs| => EntryOf(cs[k]))
  }

  function Without(cs: seq<Contribution>, files: set<string>): seq<Contribution> {
    if cs == [] then []
    else if cs[|cs| - 1].uri in files then Without(cs[..|cs| - 1], files)
    else Without(cs[..|cs| - 1], files) + [cs[|cs| - 1]]
  }

  function Apply(ledger: Ledger, change: Change): Ledger {
    match change
    case Record(batch) => map t | t in ledger.Keys + batch.Keys :: ListOf(ledger, t) + ListOf(batch, t)
    case Forget(files) => map t | t in ledger.Keys :: Without(ledger[t], files)
  }

  function Replay(history: seq<Change>): Ledger {
    if history == [] then map[] else Apply(Replay(history[..|history| - 1]), history[|history| - 1])
  }

  // A contribution survives exactly when no later removal names its file.
  function ForgottenBy(history: seq<Change>): set<string> {
    if history == [] then {}
    else (if history[0].Forget? then history[0].files else {}) + ForgottenBy(history[1..])
  }

  function Survivors(history: seq<Change>, t: string): seq<Contribution> {
    if history == [] then []
    else (if history[0].Record? then Without(ListOf(history[0].batch, t), ForgottenBy(history[1..])) else [])
         + Survivors(history[1..], t)
  }

  lemma {:induction false} WithoutConcat(a: seq<Contribution>, b: seq<Contribution>, files: set<string>)
    ensures Without(a + b, files) == Without(a, files) + Without(b, files)
    decreases |b|
  {
    if b == [] {
      assert a + b == a;
    } else {
      assert (a + b)[..|a + b| - 1] == a + b[..|b| - 1];
      WithoutConcat(a, b[..|b| - 1], files);
    }
  }

  lemma {:induction false} WithoutTwice(cs: seq<Contribution>, f: set<string>, g: set<string>)
    ensures Without(Without(cs, f), g) == Without(cs, f + g)
  {
    if cs != [] {
      var init := cs[..|cs| - 1];
      WithoutTwice(init, f, g);
      if cs[|cs| - 1].uri !in f {
        WithoutConcat(Without(init, f), [cs[|cs| - 1]], g);
        assert [cs[|cs| - 1]][..0] == [];
      }
    }
  }

  lemma {:induction false} WithoutNothing(cs: seq<Contribution>)
    ensures Without(cs, {}) == cs
  {
    if cs != [] {
      WithoutNothing(cs[..|cs| - 1]);
    }
  }

  lemma {:induction false} LaterForget(history: seq<Change>, files: set<string>, t: string)
    ensures ForgottenBy(history + [Forget(files)]) == ForgottenBy(history) + files
    ensures Survivors(history + [Forget(files)], t) == Without(Survivors(history, t), files)
  {
    var longer := history + [Forget(files)];
    if history == [] {
      assert longer[1..] == [];
    } else {
      assert longer[1..] == history[1..] + [Forget(files)];
      LaterForget(history[1..], files, t);
      var first := if history[0].Record? then Without(ListOf(history[0].batch, t), ForgottenBy(history[1..])) else [];
      WithoutConcat(first, Survivors(history[1..], t), files);
      if history[0].Record? {
        WithoutTwice(ListOf(history[0].batch, t), ForgottenBy(history[1..]), files);
      }
    }
  }

  lemma {:induction false} LaterRecord(history: seq<Change>, batch: Ledger, t: string)
    ensures ForgottenBy(history + [Record(batch)]) == ForgottenBy(history)
    ensures Survivors(history + [Record(batch)], t) == Survivors(history, t) + ListOf(batch, t)
  {
    var longer := history + [Record(batch)];
    if history == [] {
      assert longer[1..] == [];
      WithoutNothing(ListOf(batch, t));
    } else {
      assert longer[1..] == history[1..] + [Record(batch)];
      LaterRecord(history[1..], batch, t);
    }
  }

  // Replaying any history leaves what a rebuild from the surviving
  // contributions alone would hold, in the same order.
  lemma {:induction false} ReplayIsSurvivors(history: seq<Change>, t: string)
    ensures ListOf(Replay(history), t) == Survivors(history, t)
  {
    if history != [] {
      var init := history[..|history| - 1];
      var last := history[|history| - 1];
      assert history == init + [last];
      ReplayIsSurvivors(init, t);
      match last
      case Record(batch) => LaterRecord(init, batch, t);
      case Forget(files) => LaterForget(init, files, t);
    }
  }

  lemma ForgetOneMore(history: seq<Change>, files: set<string>, last: string)
    ensures Replay(history + [Forget(files + {last})]) == Replay(history + [Forget(files), Forget({last})])
  {
    var ledger := Replay(history);
    assert (history + [Forget(files + {last})])[..|history|] == history;
    var two := history + [Forget(files), Forget({last})];
    assert two[..|two| - 1] == history + [Forget(files)];
    assert (history + [Forget(files)])[..|history|] == history;
    forall t | t in ledger ensures Without(Without(ledger[t], files), {last}) == Without(ledger[t], files + {last}) {
      WithoutTwice(ledger[t], files, {last});
    }
  }

  lemma ForgetNothing(history: seq<Change>)
    ensures Replay(history + [Forget({})]) == Replay(history)
  {
    var ledger := Replay(history);
    assert (history + [Forget({})])[..|history|] == history;
    forall t | t in ledger ensures Without(ledger[t], {}) == ledger[t] {
      WithoutNothing(ledger[t]);
    }
  }

  // One removal a file, in the given order.
  function ForgetEach(order: seq<string>): seq<Change> {
    if order == [] then [] else ForgetEach(order[..|order| - 1]) + [Forget({order[|order| - 1]})]
  }

  // Removing a set of files at once is removing each of them one after the other,
  // in any order and however often.
  lemma {:induction false} ForgetAllIsForgetEach(history: seq<Change>, files: set<string>, order: seq<string>)
    requires files == set u | u in order
    ensures Replay(history + [Forget(files)]) == Replay(history + ForgetEach(order))
    decreases |order|
  {
    if order == [] {
      assert files == {} && history + ForgetEach(order) == history;
      ForgetNothing(history);
    } else {
      var front, last := order[..|order| - 1], order[|order| - 1];
      var fewer := set u | u in front;
      assert files == fewer + {last};
      ForgetAllIsForgetEach(history, fewer, front);
      ForgetOneMore(history, fewer, last);
      var at, each := history + [Forget(fewer)], history + ForgetEach(front);
      assert history + [Forget(fewer), Forget({last})] == at + [Forget({last})];
      assert history + ForgetEach(order) == each + [Forget({last})];
      assert (at + [Forget({last})])[..|at|] == at && (each + [Forget({last})])[..|each|] == each;
    }
  }

  lemma {:induction false} WithoutEntries(cs: seq<Contribution>, files: set<string>, e: Entry)
    ensures multiset(Entries(Without(cs, files)))[e] == if e.uri in files then 0 else multiset(Entries(cs))[e]
  {
    if cs != [] {
      var init, last := cs[..|cs| - 1], cs[|cs| - 1];
      WithoutEntries(init, files, e);
      assert Entries(cs) == Entries(init) + [EntryOf(last)];
      if last.uri !in files {
        assert Entries(Without(cs, files)) == Entries(Without(init, files)) + [EntryOf(last)];
      }
    }
  }

  // ---- Agreement of the tables ---------------------------------------------

  function Named(n: string): Entry -> bool { (e: Entry) => NameOf(e) == n }

  predicate IsPlainKey(typeName: string) { !IsSubtypeKey(typeName) }

  // `name_counts`: definitions by lowercased name, over every plain type.
  ghost function NameTotal(m: Buckets): string -> nat {
    n => Tally(m, IsPlainKey, Named(n))
  }

  ghost function NameTotalIn(b: seq<Entry>): string -> nat {
    n => Count(b, Named(n))
  }

  function Totals(set1: map<string, NameRefs>): map<string, nat> {
    map n | n in set1 :: set1[n].total
  }

  ghost predicate SetsExact(m: Buckets, sets: NameSets) {
    && m.Keys == sets.Keys
    && forall t :: t in m ==> Refcounts(Totals(sets[t]), NameTotalIn(m[t]))
  }

  // The indices of `b` owned by `u`, each listed once.
  ghost predicate IndexList(ps: seq<nat>, b: seq<Entry>, u: string) {
    && (forall k :: 0 <= k < |ps| ==> ps[k] < |b| && b[ps[k]].uri == u)
    && (forall i :: 0 <= i < |b| && b[i].uri == u ==> i in ps)
    && (forall j, k :: 0 <= j < k < |ps| ==> ps[j] != ps[k])
  }

  ghost predicate PositionsExactAt(m: Buckets, fp: FilePositions, u: string, t: string) {
    IndexList(PositionsOf(fp, u, t), ListOf(m, t), u)
  }

  ghost predicate PositionsExact(m: Buckets, fp: FilePositions) {
    forall u, t :: PositionsExactAt(m, fp, u, t)
  }

  // The bucket of `t` holds the ledger's entries, in some order.
  ghost predicate HoldsType(m: Buckets, ledger: Ledger, t: string) {
    multiset(ListOf(m, t)) == multiset(Entries(ListOf(ledger, t)))
  }

  ghost predicate HoldsLedger(m: Buckets, ledger: Ledger) {
    forall t :: HoldsType(m, ledger, t)
  }

  ghost predicate Agree(m: Buckets, names: map<string, nat>, sets: NameSets, fp: FilePositions, ledger: Ledger) {
    && Refcounts(names, NameTotal(m))
    && SetsExact(m, sets)
    && PositionsExact(m, fp)
    && HoldsLedger(m, ledger)
  }

  // ---- Changing one bucket ---------------------------------------------------

  function AddRef(set1: map<string, NameRefs>, n: string, baseGame: bool): map<string, NameRefs> {
    var refs := if n in set1 then set1[n] else NameRefs(0, 0);
    set1[n := NameRefs(refs.total + 1, if baseGame then refs.workspace else refs.workspace + 1)]
  }

  function SaturatingDec(n: nat): nat { if n == 0 then 0 else n - 1 }

  function ReleaseName(set1: map<string, NameRefs>, n: string, baseGame: bool): map<string, NameRefs> {
    if n !in set1 then set1
    else
      var refs := set1[n];
      var left := NameRefs(SaturatingDec(refs.total),
                           if baseGame then refs.workspace else SaturatingDec(refs.workspace));
      if left.total == 0 then set1 - {n} else set1[n := left]
  }

  // Adding the entry `e` to the bucket of `t`.
  lemma NamesAfterPush(m: Buckets, names: map<string, nat>, t: string, e: Entry)
    requires Refcounts(names, NameTotal(m))
    ensures Refcounts(if IsSubtypeKey(t) then names else IncRef(names, NameOf(e)),
                      NameTotal(m[t := ListOf(m, t) + [e]]))
  {
    var b, b' := ListOf(m, t), ListOf(m, t) + [e];
    assert b'[..|b|] == b;
    forall n ensures NameTotal(m[t := b'])(n)
                  == NameTotal(m)(n) + (if !IsSubtypeKey(t) && n == NameOf(e) then 1 else 0)
    {
      TallyChanges(m, IsPlainKey, Named(n), t, b');
    }
    if IsSubtypeKey(t) {
      RefcountsSame(names, NameTotal(m), NameTotal(m[t := b']));
    } else {
      RefcountsIncrease(names, NameTotal(m), NameTotal(m[t := b']), NameOf(e));
    }
  }

  lemma SetAfterPush(set1: map<string, NameRefs>, b: seq<Entry>, e: Entry, baseGame: bool)
    requires Refcounts(Totals(set1), NameTotalIn(b))
    ensures Refcounts(Totals(AddRef(set1, NameOf(e), baseGame)), NameTotalIn(b + [e]))
  {
    var after := AddRef(set1, NameOf(e), baseGame);
    assert Totals(after) == IncRef(Totals(set1), NameOf(e));
    forall n ensures NameTotalIn(b + [e])(n) == NameTotalIn(b)(n) + (if n == NameOf(e) then 1 else 0) {
      assert (b + [e])[..|b|] == b;
    }
    RefcountsIncrease(Totals(set1), NameTotalIn(b), NameTotalIn(b + [e]), NameOf(e));
  }

  // Taking the entry `x` out of the bucket of `t`, wherever the others end up.
  lemma NamesAfterDrop(m: Buckets, names: map<string, nat>, t: string, b: seq<Entry>, x: Entry)
    requires Refcounts(names, NameTotal(m)) && t in m
    requires multiset(m[t]) == multiset(b) + multiset{x}
    ensures !IsSubtypeKey(t) ==> NameOf(x) in names && names[NameOf(x)] > 0
    ensures Refcounts(if IsSubtypeKey(t) then names else DecRef(names, NameOf(x)), NameTotal(m[t := b]))
  {
    forall n ensures NameTotal(m)(n)
                  == NameTotal(m[t := b])(n) + (if !IsSubtypeKey(t) && n == NameOf(x) then 1 else 0)
    {
      TallyChanges(m, IsPlainKey, Named(n), t, b);
      CountDrop(m[t], b, x, Named(n));
    }
    if IsSubtypeKey(t) {
      RefcountsSame(names, NameTotal(m), NameTotal(m[t := b]));
    } else {
      RefcountsDecrease(names, NameTotal(m), NameTotal(m[t := b]), NameOf(x));
    }
  }

  lemma SetAfterDrop(set1: map<string, NameRefs>, b0: seq<Entry>, b: seq<Entry>, x: Entry, baseGame: bool)
    requires Refcounts(Totals(set1), NameTotalIn(b0))
    requires multiset(b0) == multiset(b) + multiset{x}
    ensures Refcounts(Totals(ReleaseName(set1, NameOf(x), baseGame)), NameTotalIn(b))
  {
    forall n ensures NameTotalIn(b0)(n) == NameTotalIn(b)(n) + (if n == NameOf(x) then 1 else 0) {
      CountDrop(b0, b, x, Named(n));
    }
    RefcountsDecrease(Totals(set1), NameTotalIn(b0), NameTotalIn(b), NameOf(x));
    assert Totals(ReleaseName(set1, NameOf(x), baseGame)) == DecRef(Totals(set1), NameOf(x));
  }

  // ---- Positions under a push -------------------------------------------------

  lemma IndexListPush(ps: seq<nat>, b: seq<Entry>, e: Entry, u: string)
    requires IndexList(ps, b, u)
    ensures e.uri == u ==> IndexList(ps + [|b|], b + [e], u)
    ensures e.uri != u ==> IndexList(ps, b + [e], u)
  {
  }

  function Record1(fp: FilePositions, u: string, t: string, pos: nat): FilePositions {
    fp[u := (if u in fp then fp[u] else map[])[t := PositionsOf(fp, u, t) + [pos]]]
  }

  lemma PositionsAfterPush(m: Buckets, fp: FilePositions, t: string, e: Entry)
    requires PositionsExact(m, fp)
    ensures PositionsExact(m[t := ListOf(m, t) + [e]], Record1(fp, e.uri, t, |ListOf(m, t)|))
  {
    hide IndexList;
    var m', fp' := m[t := ListOf(m, t) + [e]], Record1(fp, e.uri, t, |ListOf(m, t)|);
    forall u, t' ensures PositionsExactAt(m', fp', u, t') {
      assert PositionsExactAt(m, fp, u, t');
      if t' == t {
        IndexListPush(PositionsOf(fp, u, t), ListOf(m, t), e, u);
      }
    }
  }

  // ---- Positions under a swap-removal -------------------------------------------

  // `Vec::swap_remove`: the last element takes the freed slot.
  function SwapRemoved(b: seq<Entry>, index: nat): seq<Entry>
    requires index < |b|
  {
    b[index := b[|b| - 1]][..|b| - 1]
  }

  lemma SwapRemovedDropsOne(b: seq<Entry>, index: nat)
    requires index < |b|
    ensures multiset(b) == multiset(SwapRemoved(b, index)) + multiset{b[index]}
  {
    var last := |b| - 1;
    assert b == b[..last] + [b[last]];
    if index < last {
      assert b[..last] == b[..index] + [b[index]] + b[index + 1..last];
      assert SwapRemoved(b, index) == b[..index] + [b[last]] + b[index + 1..last];
    } else {
      assert SwapRemoved(b, index) == b[..last];
    }
  }

  function IndexOf(ps: seq<nat>, x: nat): (k: nat)
    ensures k <= |ps| && (k < |ps| ==> ps[k] == x) && (x in ps ==> k < |ps|)
  {
    if ps == [] || ps[0] == x then 0 else 1 + IndexOf(ps[1..], x)
  }

  // What `swap_remove_instance` writes for the owner of the relocated entry.
  function Repaired(fp: FilePositions, b: seq<Entry>, t: string, index: nat): FilePositions
    requires index < |b|
  {
    var last := |b| - 1;
    var owner := b[last].uri;
    var ps := PositionsOf(fp, owner, t);
    var k := IndexOf(ps, last);
    if index == last || owner !in fp || t !in fp[owner] || k == |ps| then fp
    else fp[owner := fp[owner][t := ps[k := index]]]
  }

  // The owner of the relocated entry: its record moves with it.
  lemma IndexListRelocated(ps: seq<nat>, b: seq<Entry>, index: nat, u: string)
    requires IndexList(ps, b, u) && index < |b| - 1 && b[|b| - 1].uri == u && b[index].uri != u
    ensures IndexOf(ps, |b| - 1) < |ps|
    ensures IndexList(ps[IndexOf(ps, |b| - 1) := index], SwapRemoved(b, index), u)
  {
    var last := |b| - 1;
    var k := IndexOf(ps, last);
    assert last in ps;
    var ps' := ps[k := index];
    var b' := SwapRemoved(b, index);
    forall i | 0 <= i < |b'| && b'[i].uri == u ensures i in ps' {
      if i == index { assert ps'[k] == index; }
      else {
        assert b[i].uri == u && i in ps;
        var j :| 0 <= j < |ps| && ps[j] == i;
        assert ps'[j] == i;
      }
    }
  }

  // Any file that owns neither the removed nor the relocated entry.
  lemma IndexListUntouched(ps: seq<nat>, b: seq<Entry>, index: nat, u: string)
    requires IndexList(ps, b, u) && index < |b|
    requires b[index].uri != u && (index == |b| - 1 || b[|b| - 1].uri != u)
    ensures IndexList(ps, SwapRemoved(b, index), u)
  {
  }

  predicate Descending(ps: seq<nat>) {
    forall j, k :: 0 <= j < k < |ps| ==> ps[j] >= ps[k]
  }

  // The file being removed: dropping its largest position leaves the rest exact,
  // and the relocated entry is never its own.
  lemma IndexListLargestFirst(ps: seq<nat>, b: seq<Entry>, u: string)
    requires IndexList(ps, b, u) && ps != [] && Descending(ps)
    ensures ps[0] < |b| && b[ps[0]].uri == u
    ensures ps[0] != |b| - 1 ==> b[|b| - 1].uri != u
    ensures IndexList(ps[1..], SwapRemoved(b, ps[0]), u)
  {
  }

  // `pending` stands for the positions of the removed file not yet processed.
  lemma PositionsAfterSwapRemove(m: Buckets, fp: FilePositions, u: string, pending: map<string, seq<nat>>, t: string)
    requires u !in fp && PositionsExact(m, fp[u := pending])
    requires t in pending && pending[t] != [] && Descending(pending[t])
    ensures t in m && pending[t][0] < |m[t]| && m[t][pending[t][0]].uri == u
    ensures u !in Repaired(fp, m[t], t, pending[t][0])
    ensures PositionsExact(m[t := SwapRemoved(m[t], pending[t][0])],
                           Repaired(fp, m[t], t, pending[t][0])[u := pending[t := pending[t][1..]]])
  {
    hide IndexList, Repaired;
    LargestPending(m, fp, u, pending, t);
    var m' := m[t := SwapRemoved(m[t], pending[t][0])];
    var all' := Repaired(fp, m[t], t, pending[t][0])[u := pending[t := pending[t][1..]]];
    forall w, t' ensures PositionsExactAt(m', all', w, t') {
      assert PositionsExactAt(m, fp[u := pending], w, t');
      PositionAfterSwapRemove(m, fp, u, pending, t, w, t');
    }
  }

  lemma LargestPending(m: Buckets, fp: FilePositions, u: string, pending: map<string, seq<nat>>, t: string)
    requires u !in fp && PositionsExact(m, fp[u := pending])
    requires t in pending && pending[t] != [] && Descending(pending[t])
    ensures t in m && pending[t][0] < |m[t]| && m[t][pending[t][0]].uri == u
    ensures u !in Repaired(fp, m[t], t, pending[t][0])
    ensures IndexList(pending[t][1..], SwapRemoved(m[t], pending[t][0]), u)
  {
    assert PositionsExactAt(m, fp[u := pending], u, t);
    IndexListLargestFirst(pending[t], ListOf(m, t), u);
  }

  lemma PositionAfterSwapRemove(m: Buckets, fp: FilePositions, u: string, pending: map<string, seq<nat>>, t: string,
                                w: string, t': string)
    requires u !in fp && t in m && t in pending && pending[t] != [] && pending[t][0] < |m[t]|
    requires m[t][pending[t][0]].uri == u
    requires IndexList(pending[t][1..], SwapRemoved(m[t], pending[t][0]), u)
    requires IndexList(PositionsOf(fp[u := pending], w, t'), ListOf(m, t'), w)
    ensures IndexList(PositionsOf(Repaired(fp, m[t], t, pending[t][0])[u := pending[t := pending[t][1..]]], w, t'),
                      ListOf(m[t := SwapRemoved(m[t], pending[t][0])], t'), w)
  {
    if w != u && t' == t {
      RepairedPositions(fp, m[t], t, pending[t][0], w);
    } else if w != u {
      RepairedElsewhere(fp, m[t], t, pending[t][0], w, t');
    }
  }

  lemma RepairedElsewhere(fp: FilePositions, b: seq<Entry>, t: string, index: nat, w: string, t': string)
    requires index < |b| && t' != t
    ensures PositionsOf(Repaired(fp, b, t, index), w, t') == PositionsOf(fp, w, t')
  {
  }

  lemma RepairedHere(fp: FilePositions, b: seq<Entry>, t: string, index: nat, w: string)
    requires index < |b|
    ensures PositionsOf(Repaired(fp, b, t, index), w, t)
         == var ps := PositionsOf(fp, w, t);
            var k := IndexOf(ps, |b| - 1);
            if index != |b| - 1 && w == b[|b| - 1].uri && k < |ps| then ps[k := index] else ps
  {
  }

  lemma RepairedPositions(fp: FilePositions, b: seq<Entry>, t: string, index: nat, w: string)
    requires index < |b| && b[index].uri != w && IndexList(PositionsOf(fp, w, t), b, w)
    ensures IndexList(PositionsOf(Repaired(fp, b, t, index), w, t), SwapRemoved(b, index), w)
  {
    RepairedHere(fp, b, t, index, w);
    if index != |b| - 1 && w == b[|b| - 1].uri {
      IndexListRelocated(PositionsOf(fp, w, t), b, index, w);
    } else {
      IndexListUntouched(PositionsOf(fp, w, t), b, index, w);
    }
  }

  // ---- Reading one file's instances through its positions ------------------------

  function Picked(ps: seq<nat>, b: seq<Entry>): (es: seq<Entry>)
    requires forall k :: 0 <= k < |ps| ==> ps[k] < |b|
    ensures |es| == |ps|
    ensures forall k :: 0 <= k < |ps| ==> es[k] == b[ps[k]]
  {
    seq(|ps|, k requires 0 <= k < |ps| => b[ps[k]])
  }

  // Leaving the last entry of the bucket out, for a file that does not own it.
  lemma IndexListShrinksPast(ps: seq<nat>, b: seq<Entry>, u: string)
    requires IndexList(ps, b, u) && b != [] && b[|b| - 1].uri != u
    ensures IndexList(ps, b[..|b| - 1], u)
  {
  }

  // ... and for the file that owns it, together with its one record.
  lemma IndexListShrinks(ps: seq<nat>, b: seq<Entry>, u: string, k: nat)
    requires IndexList(ps, b, u) && b != [] && b[|b| - 1].uri == u && k < |ps| && ps[k] == |b| - 1
    ensures IndexList(ps[..k] + ps[k + 1..], b[..|b| - 1], u)
  {
  }

  lemma PickedWithout(ps: seq<nat>, b: seq<Entry>, k: nat)
    requires b != [] && k < |ps| && ps[k] == |b| - 1
    requires forall j :: 0 <= j < |ps| ==> ps[j] < |b| && (j != k ==> ps[j] < |b| - 1)
    ensures multiset(Picked(ps, b)) == multiset(Picked(ps[..k] + ps[k + 1..], b[..|b| - 1])) + multiset{b[|b| - 1]}
  {
    var rest := Picked(ps[..k] + ps[k + 1..], b[..|b| - 1]);
    assert Picked(ps, b) == rest[..k] + [b[|b| - 1]] + rest[k..];
    assert rest == rest[..k] + rest[k..];
  }

  lemma {:induction false} IndexListReads(ps: seq<nat>, b: seq<Entry>, u: string, e: Entry)
    requires IndexList(ps, b, u) && e.uri == u
    ensures multiset(Picked(ps, b))[e] == multiset(b)[e]
    decreases |b|
  {
    if ps == [] {
      assert e !in b;
    } else {
      assert ps[0] < |b|;
      var last := |b| - 1;
      assert b == b[..last] + [b[last]];
      if b[last].uri == u {
        assert last in ps;
        var k :| 0 <= k < |ps| && ps[k] == last;
        IndexListShrinks(ps, b, u, k);
        IndexListReads(ps[..k] + ps[k + 1..], b[..last], u, e);
        PickedWithout(ps, b, k);
      } else {
        IndexListShrinksPast(ps, b, u);
        IndexListReads(ps, b[..last], u, e);
        assert Picked(ps, b) == Picked(ps, b[..last]);
      }
    }
  }

  // ---- Holding the ledger's entries ---------------------------------------------

  // `m` is `m0` with entries of `files` taken out and nothing else changed.
  ghost predicate OthersKept(m0: Buckets, m: Buckets, files: set<string>) {
    forall t, e: Entry :: e.uri !in files ==> multiset(ListOf(m, t))[e] == multiset(ListOf(m0, t))[e]
  }

  ghost predicate NoneOf(m: Buckets, files: set<string>) {
    forall t, i :: 0 <= i < |ListOf(m, t)| ==> ListOf(m, t)[i].uri !in files
  }

  lemma LedgerAfterForget(m0: Buckets, m: Buckets, ledger: Ledger, files: set<string>)
    requires HoldsLedger(m0, ledger) && OthersKept(m0, m, files) && NoneOf(m, files)
    ensures HoldsLedger(m, Apply(ledger, Forget(files)))
  {
    forall t ensures HoldsType(m, Apply(ledger, Forget(files)), t) {
      assert HoldsType(m0, ledger, t);
      forall e: Entry ensures multiset(ListOf(m, t))[e] == multiset(Entries(Without(ListOf(ledger, t), files)))[e] {
        WithoutEntries(ListOf(ledger, t), files, e);
        if e.uri in files { assert e !in ListOf(m, t); }
      }
    }
  }

  lemma OthersKeptAfterDrop(m0: Buckets, m: Buckets, files: set<string>, t: string, b: seq<Entry>, x: Entry)
    requires OthersKept(m0, m, files) && t in m && x.uri in files
    requires multiset(m[t]) == multiset(b) + multiset{x}
    ensures OthersKept(m0, m[t := b], files)
  {
  }

  function Appended(ledger: Ledger, t: string, c: Contribution): Ledger {
    ledger[t := ListOf(ledger, t) + [c]]
  }

  lemma EntriesAppend(cs: seq<Contribution>, c: Contribution)
    ensures Entries(cs + [c]) == Entries(cs) + [EntryOf(c)]
    ensures (cs + [c])[..|cs|] == cs
  {
  }

  lemma LedgerAfterPush(m: Buckets, ledger: Ledger, t: string, c: Contribution)
    requires HoldsLedger(m, ledger)
    ensures HoldsLedger(m[t := ListOf(m, t) + [EntryOf(c)]], Appended(ledger, t, c))
  {
    hide Entries;
    var m', ledger' := m[t := ListOf(m, t) + [EntryOf(c)]], Appended(ledger, t, c);
    forall t' ensures HoldsType(m', ledger', t') {
      assert HoldsType(m, ledger, t');
      EntriesAppend(ListOf(ledger, t), c);
    }
  }

  // ---- Workspace counts ------------------------------------------------------------

  function WsOf(sets: NameSets, t: string, n: string): nat {
    if t in sets && n in sets[t] then sets[t][n].workspace else 0
  }

  function WorkspaceNamed(n: string): Contribution -> bool {
    (c: Contribution) => !c.baseGame && Lower(c.inst.name) == n
  }

  // The workspace count of every name is the number of its workspace definitions.
  ghost predicate WorkspaceExactAt(sets: NameSets, ledger: Ledger, t: string, n: string) {
    WsOf(sets, t, n) == Count(ListOf(ledger, t), WorkspaceNamed(n))
  }

  ghost predicate WorkspaceExact(sets: NameSets, ledger: Ledger) {
    forall t, n :: WorkspaceExactAt(sets, ledger, t, n)
  }

  function NonBase(base: set<string>, n: string): Entry -> bool {
    (e: Entry) => e.uri !in base && NameOf(e) == n
  }

  // What releasing does to one workspace count: removals of files not recorded
  // as base game come off, never below zero, and the entry goes with the name.
  function ReleasedWs(ws: nat, removed: int, remaining: nat): int {
    if remaining == 0 || ws < removed then 0 else ws - removed
  }

  ghost predicate WsReleasedAt(m0: Buckets, sets0: NameSets, m: Buckets, sets: NameSets, base: set<string>,
                               t: string, n: string) {
    WsOf(sets, t, n)
      == ReleasedWs(WsOf(sets0, t, n),
                    Count(ListOf(m0, t), NonBase(base, n)) - Count(ListOf(m, t), NonBase(base, n)),
                    Count(ListOf(m, t), Named(n)))
  }

  ghost predicate WsReleased(m0: Buckets, sets0: NameSets, m: Buckets, sets: NameSets, base: set<string>) {
    forall t, n :: WsReleasedAt(m0, sets0, m, sets, base, t, n)
  }

  lemma TotalIs(m: Buckets, sets: NameSets, t: string, n: string)
    requires SetsExact(m, sets)
    ensures t in m && n in sets[t] <==> Count(ListOf(m, t), Named(n)) > 0
    ensures t in m && n in sets[t] ==> sets[t][n].total == Count(m[t], Named(n))
  {
    if t in m {
      assert Refcounts(Totals(sets[t]), NameTotalIn(m[t]));
      assert n in Totals(sets[t]) <==> NameTotalIn(m[t])(n) > 0;
    }
  }

  lemma WsReleasedStart(m: Buckets, sets: NameSets, base: set<string>)
    requires SetsExact(m, sets)
    ensures WsReleased(m, sets, m, sets, base)
  {
    forall t, n ensures WsReleasedAt(m, sets, m, sets, base, t, n) {
      TotalIs(m, sets, t, n);
    }
  }

  lemma WsReleasedStep(m0: Buckets, sets0: NameSets, m: Buckets, sets: NameSets, base: set<string>,
                       t: string, b: seq<Entry>, x: Entry)
    requires WsReleased(m0, sets0, m, sets, base) && SetsExact(m, sets)
    requires t in m && multiset(m[t]) == multiset(b) + multiset{x}
    ensures WsReleased(m0, sets0, m[t := b], sets[t := ReleaseName(sets[t], NameOf(x), x.uri in base)], base)
  {
    hide WsReleasedAt;
    var m', sets' := m[t := b], sets[t := ReleaseName(sets[t], NameOf(x), x.uri in base)];
    forall t', n ensures WsReleasedAt(m0, sets0, m', sets', base, t', n) {
      TotalIs(m, sets, t', n);
      WsReleasedStepAt(m0, sets0, m, sets, base, t, b, x, t', n);
    }
  }

  lemma WsReleasedStepAt(m0: Buckets, sets0: NameSets, m: Buckets, sets: NameSets, base: set<string>,
                         t: string, b: seq<Entry>, x: Entry, t': string, n: string)
    requires WsReleasedAt(m0, sets0, m, sets, base, t', n)
    requires m.Keys == sets.Keys && t in m && multiset(m[t]) == multiset(b) + multiset{x}
    requires t' in m && n in sets[t'] <==> Count(ListOf(m, t'), Named(n)) > 0
    requires t' in m && n in sets[t'] ==> sets[t'][n].total == Count(m[t'], Named(n))
    ensures WsReleasedAt(m0, sets0, m[t := b], sets[t := ReleaseName(sets[t], NameOf(x), x.uri in base)], base, t', n)
  {
    if t' == t {
      CountDrop(m[t], b, x, NonBase(base, n));
      CountDrop(m[t], b, x, Named(n));
    }
  }

  function NameSet(sets: NameSets, t: string): map<string, NameRefs> { if t in sets then sets[t] else map[] }

  lemma WorkspaceAfterPush(sets: NameSets, ledger: Ledger, t: string, c: Contribution)
    requires WorkspaceExact(sets, ledger)
    ensures WorkspaceExact(sets[t := AddRef(NameSet(sets, t), Lower(c.inst.name), c.baseGame)], Appended(ledger, t, c))
  {
    hide WorkspaceExactAt;
    var sets', ledger' := sets[t := AddRef(NameSet(sets, t), Lower(c.inst.name), c.baseGame)], Appended(ledger, t, c);
    forall t', n ensures WorkspaceExactAt(sets', ledger', t', n) {
      WorkspaceAfterPushAt(sets, ledger, t, c, t', n);
    }
  }

  lemma WorkspaceAfterPushAt(sets: NameSets, ledger: Ledger, t: string, c: Contribution, t': string, n: string)
    requires WorkspaceExactAt(sets, ledger, t', n)
    ensures WorkspaceExactAt(sets[t := AddRef(NameSet(sets, t), Lower(c.inst.name), c.baseGame)],
                             Appended(ledger, t, c), t', n)
  {
    hide Lower;
    var ledger' := Appended(ledger, t, c);
    EntriesAppend(ListOf(ledger, t), c);
    if t' == t {
      assert ListOf(ledger', t) == ListOf(ledger, t) + [c];
    } else {
      assert ListOf(ledger', t') == ListOf(ledger, t');
    }
  }

  // A base-game contribution's file is recorded as base game.
  ghost predicate FlagsRecorded(ledger: Ledger, base: set<string>) {
    forall t, i :: 0 <= i < |ListOf(ledger, t)| && ListOf(ledger, t)[i].baseGame ==> ListOf(ledger, t)[i].uri in base
  }

  // ... and no file contributed both ways: the flag is exactly the record.
  ghost predicate OneProvenance(ledger: Ledger, base: set<string>) {
    forall t, i :: 0 <= i < |ListOf(ledger, t)| ==>
      (ListOf(ledger, t)[i].baseGame <==> ListOf(ledger, t)[i].uri in base)
  }

  // A workspace definition that removal will release as base game.
  function Mixed(base: set<string>, files: set<string>, n: string): Contribution -> bool {
    (c: Contribution) => c.uri in files && c.uri in base && !c.baseGame && Lower(c.inst.name) == n
  }

  function Surviving(files: set<string>, n: string): Contribution -> bool {
    (c: Contribution) => c.uri !in files && Lower(c.inst.name) == n
  }

  // No such definition shares its name with a survivor of the same type.
  ghost predicate NoMixedNamesake(ledger: Ledger, base: set<string>, files: set<string>) {
    forall t, i, j :: 0 <= i < |ListOf(ledger, t)| && 0 <= j < |ListOf(ledger, t)|
      && ListOf(ledger, t)[i].uri in files && ListOf(ledger, t)[i].uri in base && !ListOf(ledger, t)[i].baseGame
      && ListOf(ledger, t)[j].uri !in files
      ==> Lower(ListOf(ledger, t)[i].inst.name) != Lower(ListOf(ledger, t)[j].inst.name)
  }

  lemma WithoutStep(cs: seq<Contribution>, files: set<string>)
    requires cs != []
    ensures var init := Without(cs[..|cs| - 1], files);
            Without(cs, files) == if cs[|cs| - 1].uri in files then init else init + [cs[|cs| - 1]]
    ensures Entries(cs)[..|cs| - 1] == Entries(cs[..|cs| - 1])
    ensures cs[|cs| - 1].uri !in files ==>
            Entries(Without(cs, files)) == Entries(Without(cs[..|cs| - 1], files)) + [EntryOf(cs[|cs| - 1])]
  {
  }

  lemma CountAppend<T>(s: seq<T>, x: T, p: T -> bool)
    ensures Count(s + [x], p) == Count(s, p) + (if p(x) then 1 else 0)
  {
  }

  lemma {:induction false} RemovalSplits(cs: seq<Contribution>, base: set<string>, files: set<string>, n: string)
    requires forall i :: 0 <= i < |cs| && cs[i].baseGame ==> cs[i].uri in base
    ensures Count(cs, WorkspaceNamed(n)) - Count(Without(cs, files), WorkspaceNamed(n))
         == Count(Entries(cs), NonBase(base, n)) - Count(Entries(Without(cs, files)), NonBase(base, n))
            + Count(cs, Mixed(base, files, n))
  {
    if cs != [] {
      hide Lower, Without, Entries;
      var init, last := cs[..|cs| - 1], cs[|cs| - 1];
      RemovalSplits(init, base, files, n);
      WithoutStep(cs, files);
      CountAppend(Without(init, files), last, WorkspaceNamed(n));
      CountAppend(Entries(Without(init, files)), EntryOf(last), NonBase(base, n));
    }
  }

  lemma {:induction false} SurvivorsCounted(cs: seq<Contribution>, files: set<string>, n: string)
    ensures Count(Entries(Without(cs, files)), Named(n)) == Count(cs, Surviving(files, n))
    ensures Count(Without(cs, files), WorkspaceNamed(n)) <= Count(cs, Surviving(files, n))
  {
    if cs != [] {
      hide Lower, Without, Entries;
      var init, last := cs[..|cs| - 1], cs[|cs| - 1];
      SurvivorsCounted(init, files, n);
      WithoutStep(cs, files);
      CountAppend(Without(init, files), last, WorkspaceNamed(n));
      CountAppend(Entries(Without(init, files)), EntryOf(last), Named(n));
    }
  }

  lemma {:induction false} NonBaseBelowWorkspace(cs: seq<Contribution>, base: set<string>, n: string)
    requires forall i :: 0 <= i < |cs| && cs[i].baseGame ==> cs[i].uri in base
    ensures Count(Entries(cs), NonBase(base, n)) <= Count(cs, WorkspaceNamed(n))
  {
    if cs != [] {
      NonBaseBelowWorkspace(cs[..|cs| - 1], base, n);
      WithoutStep(cs, {});
    }
  }

  lemma {:induction false} WithoutKeepsFlags(cs: seq<Contribution>, base: set<string>, files: set<string>)
    requires forall i :: 0 <= i < |cs| && cs[i].baseGame ==> cs[i].uri in base
    ensures forall i :: 0 <= i < |Without(cs, files)| && Without(cs, files)[i].baseGame ==>
            Without(cs, files)[i].uri in base
  {
    if cs != [] {
      WithoutKeepsFlags(cs[..|cs| - 1], base, files);
    }
  }

  // When do workspace counts survive a removal? Exactly when no removed file is
  // recorded as base game yet contributed a workspace definition whose name a
  // surviving file of the same type still defines.
  lemma WorkspaceAfterRemoval(m0: Buckets, sets0: NameSets, m: Buckets, sets: NameSets,
                              ledger: Ledger, base: set<string>, files: set<string>)
    requires HoldsLedger(m0, ledger) && HoldsLedger(m, Apply(ledger, Forget(files)))
    requires WorkspaceExact(sets0, ledger) && FlagsRecorded(ledger, base)
    requires WsReleased(m0, sets0, m, sets, base)
    ensures WorkspaceExact(sets, Apply(ledger, Forget(files))) <==> NoMixedNamesake(ledger, base, files)
  {
    hide HoldsLedger, WorkspaceExactAt, WsReleased, FlagsRecorded, NoMixedNamesake;
    forall t, n
      ensures WorkspaceExactAt(sets, Apply(ledger, Forget(files)), t, n) <==> !Namesakes(ledger, base, files, t, n)
    {
      WorkspaceCountAfterRemoval(m0, sets0, m, sets, ledger, base, files, t, n);
    }
    NamesakesByCount(ledger, base, files);
  }

  ghost predicate Namesakes(ledger: Ledger, base: set<string>, files: set<string>, t: string, n: string) {
    Count(ListOf(ledger, t), Mixed(base, files, n)) > 0 && Count(ListOf(ledger, t), Surviving(files, n)) > 0
  }

  lemma WorkspaceCountAfterRemoval(m0: Buckets, sets0: NameSets, m: Buckets, sets: NameSets,
                                   ledger: Ledger, base: set<string>, files: set<string>, t: string, n: string)
    requires HoldsLedger(m0, ledger) && HoldsLedger(m, Apply(ledger, Forget(files)))
    requires WorkspaceExact(sets0, ledger) && FlagsRecorded(ledger, base)
    requires WsReleased(m0, sets0, m, sets, base)
    ensures WorkspaceExactAt(sets, Apply(ledger, Forget(files)), t, n) <==> !Namesakes(ledger, base, files, t, n)
  {
    var cs := ListOf(ledger, t);
    var kept := ListOf(Apply(ledger, Forget(files)), t);
    assert kept == Without(cs, files);
    forall i | 0 <= i < |cs| && cs[i].baseGame ensures cs[i].uri in base { assert ListOf(ledger, t)[i].baseGame; }
    RemovalSplits(cs, base, files, n);
    SurvivorsCounted(cs, files, n);
    WithoutKeepsFlags(cs, base, files);
    NonBaseBelowWorkspace(cs, base, n);
    NonBaseBelowWorkspace(kept, base, n);
    assert HoldsType(m0, ledger, t) && HoldsType(m, Apply(ledger, Forget(files)), t);
    assert WsReleasedAt(m0, sets0, m, sets, base, t, n) && WorkspaceExactAt(sets0, ledger, t, n);
    CountPermutation(ListOf(m0, t), Entries(cs), NonBase(base, n));
    CountPermutation(ListOf(m, t), Entries(kept), NonBase(base, n));
    CountPermutation(ListOf(m, t), Entries(kept), Named(n));
  }

  lemma NamesakesByCount(ledger: Ledger, base: set<string>, files: set<string>)
    ensures NoMixedNamesake(ledger, base, files) <==> forall t, n :: !Namesakes(ledger, base, files, t, n)
  {
    if NoMixedNamesake(ledger, base, files) {
      forall t, n ensures !Namesakes(ledger, base, files, t, n) {
        CountPositive(ListOf(ledger, t), Mixed(base, files, n));
        CountPositive(ListOf(ledger, t), Surviving(files, n));
      }
    } else {
      var t, i, j :| 0 <= i < |ListOf(ledger, t)| && 0 <= j < |ListOf(ledger, t)|
        && ListOf(ledger, t)[i].uri in files && ListOf(ledger, t)[i].uri in base && !ListOf(ledger, t)[i].baseGame
        && ListOf(ledger, t)[j].uri !in files
        && Lower(ListOf(ledger, t)[i].inst.name) == Lower(ListOf(ledger, t)[j].inst.name);
      var n := Lower(ListOf(ledger, t)[i].inst.name);
      assert Mixed(base, files, n)(ListOf(ledger, t)[i]) && Surviving(files, n)(ListOf(ledger, t)[j]);
      CountPositive(ListOf(ledger, t), Mixed(base, files, n));
      CountPositive(ListOf(ledger, t), Surviving(files, n));
      assert Namesakes(ledger, base, files, t, n);
    }
  }

  // A history that never merges one file both ways never meets the bad case.
  lemma OneProvenanceSuffices(ledger: Ledger, base: set<string>, files: set<string>)
    requires OneProvenance(ledger, base)
    ensures NoMixedNamesake(ledger, base, files) && FlagsRecorded(ledger, base)
  {
  }

  // ---- Removal in progress -----------------------------------------------------------

  // Some entries of `files` have been taken out of `m0`; counts are in step.
  ghost predicate Dropping(m0: Buckets, sets0: NameSets, base: set<string>, files: set<string>,
                           m: Buckets, names: map<string, nat>, sets: NameSets) {
    && Refcounts(names, NameTotal(m))
    && SetsExact(m, sets)
    && OthersKept(m0, m, files)
    && WsReleased(m0, sets0, m, sets, base)
  }

  lemma DroppingStarts(m: Buckets, names: map<string, nat>, sets: NameSets, base: set<string>, files: set<string>)
    requires Refcounts(names, NameTotal(m)) && SetsExact(m, sets)
    ensures Dropping(m, sets, base, files, m, names, sets)
  {
    WsReleasedStart(m, sets, base);
  }

  lemma DroppingStep(m0: Buckets, sets0: NameSets, base: set<string>, files: set<string>,
                     m: Buckets, names: map<string, nat>, sets: NameSets, t: string, b: seq<Entry>, x: Entry)
    requires Dropping(m0, sets0, base, files, m, names, sets)
    requires t in m && x.uri in files && multiset(m[t]) == multiset(b) + multiset{x}
    ensures t in sets
    ensures !IsSubtypeKey(t) ==> NameOf(x) in names && names[NameOf(x)] > 0
    ensures Dropping(m0, sets0, base, files, m[t := b], if IsSubtypeKey(t) then names else DecRef(names, NameOf(x)),
                     sets[t := ReleaseName(sets[t], NameOf(x), x.uri in base)])
  {
    hide Refcounts, OthersKept, WsReleased, ReleaseName, DecRef;
    NamesAfterDrop(m, names, t, b, x);
    SetAfterDrop(sets[t], m[t], b, x, x.uri in base);
    OthersKeptAfterDrop(m0, m, files, t, b, x);
    WsReleasedStep(m0, sets0, m, sets, base, t, b, x);
  }

  // Pruning an emptied bucket and its name set.
  lemma DroppingPrunes(m0: Buckets, sets0: NameSets, base: set<string>, files: set<string>,
                       m: Buckets, names: map<string, nat>, sets: NameSets, t: string)
    requires Dropping(m0, sets0, base, files, m, names, sets) && ListOf(m, t) == []
    ensures Dropping(m0, sets0, base, files, m - {t}, names, sets - {t})
  {
    hide Refcounts, WsReleasedAt;
    var m', sets' := m - {t}, sets - {t};
    forall n ensures NameTotal(m)(n) == NameTotal(m')(n) {
      TallyIgnoresEmpty(m, IsPlainKey, Named(n), t);
    }
    RefcountsSame(names, NameTotal(m), NameTotal(m'));
    assert SetsExact(m', sets');
    forall t', e: Entry | e.uri !in files ensures multiset(ListOf(m', t'))[e] == multiset(ListOf(m0, t'))[e] {
      assert ListOf(m', t') == ListOf(m, t');
    }
    forall t', n ensures WsReleasedAt(m0, sets0, m', sets', base, t', n) {
      assert WsReleasedAt(m0, sets0, m, sets, base, t', n);
      TotalIs(m, sets, t', n);
      WsReleasedSame(m0, sets0, m, sets, m', sets', base, t', n);
    }
  }

  lemma WsReleasedSame(m0: Buckets, sets0: NameSets, m: Buckets, sets: NameSets, m': Buckets, sets': NameSets,
                       base: set<string>, t: string, n: string)
    requires WsReleasedAt(m0, sets0, m, sets, base, t, n)
    requires ListOf(m', t) == ListOf(m, t) && WsOf(sets', t, n) == WsOf(sets, t, n)
    ensures WsReleasedAt(m0, sets0, m', sets', base, t, n)
  {
  }

  // The single-file removal also repairs positions as it goes.
  ghost predicate Removing(m0: Buckets, sets0: NameSets, base: set<string>, u: string, pending: map<string, seq<nat>>,
                           m: Buckets, names: map<string, nat>, sets: NameSets, fp: FilePositions) {
    && u !in fp
    && PositionsExact(m, fp[u := pending])
    && Dropping(m0, sets0, base, {u}, m, names, sets)
  }

  lemma RemovingStep(m0: Buckets, sets0: NameSets, base: set<string>, u: string, pending: map<string, seq<nat>>,
                     m: Buckets, names: map<string, nat>, sets: NameSets, fp: FilePositions, t: string)
    requires Removing(m0, sets0, base, u, pending, m, names, sets, fp)
    requires t in pending && pending[t] != [] && Descending(pending[t])
    ensures t in m && t in sets && pending[t][0] < |m[t]|
    ensures var x := m[t][pending[t][0]]; !IsSubtypeKey(t) ==> NameOf(x) in names && names[NameOf(x)] > 0
    ensures var x := m[t][pending[t][0]];
            Removing(m0, sets0, base, u, pending[t := pending[t][1..]],
                     m[t := SwapRemoved(m[t], pending[t][0])],
                     if IsSubtypeKey(t) then names else DecRef(names, NameOf(x)),
                     sets[t := ReleaseName(sets[t], NameOf(x), u in base)],
                     Repaired(fp, m[t], t, pending[t][0]))
  {
    hide Dropping, PositionsExact, Repaired, SwapRemoved, ReleaseName, DecRef;
    PositionsAfterSwapRemove(m, fp, u, pending, t);
    SwapRemovedDropsOne(m[t], pending[t][0]);
    DroppingStep(m0, sets0, base, {u}, m, names, sets, t, SwapRemoved(m[t], pending[t][0]), m[t][pending[t][0]]);
  }

  lemma RemovingPrunes(m0: Buckets, sets0: NameSets, base: set<string>, u: string, pending: map<string, seq<nat>>,
                       m: Buckets, names: map<string, nat>, sets: NameSets, fp: FilePositions, t: string)
    requires Removing(m0, sets0, base, u, pending, m, names, sets, fp) && ListOf(m, t) == []
    ensures Removing(m0, sets0, base, u, pending, m - {t}, names, sets - {t}, fp)
  {
    hide Dropping, PositionsExactAt;
    DroppingPrunes(m0, sets0, base, {u}, m, names, sets, t);
    var m', all := m - {t}, fp[u := pending];
    forall w, t' ensures PositionsExactAt(m', all, w, t') {
      assert PositionsExactAt(m, all, w, t');
      PositionsSameAt(m, m', all, w, t');
    }
  }

  lemma PositionsSameAt(m: Buckets, m': Buckets, fp: FilePositions, w: string, t: string)
    requires ListOf(m', t) == ListOf(m, t)
    ensures PositionsExactAt(m', fp, w, t) == PositionsExactAt(m, fp, w, t)
  {
  }

  // Every pending position processed: the file is gone and the rest is exact.
  lemma RemovingDone(m0: Buckets, sets0: NameSets, base: set<string>, u: string, pending: map<string, seq<nat>>,
                     m: Buckets, names: map<string, nat>, sets: NameSets, fp: FilePositions)
    requires Removing(m0, sets0, base, u, pending, m, names, sets, fp)
    requires forall t :: t in pending ==> pending[t] == []
    ensures PositionsExact(m, fp) && NoneOf(m, {u})
    ensures Dropping(m0, sets0, base, {u}, m, names, sets)
  {
    hide Dropping;
    forall t, i | 0 <= i < |ListOf(m, t)| ensures ListOf(m, t)[i].uri !in {u} {
      assert PositionsExactAt(m, fp[u := pending], u, t);
      assert PositionsOf(fp[u := pending], u, t) == [];
    }
    forall w, t ensures PositionsExactAt(m, fp, w, t) {
      assert PositionsExactAt(m, fp[u := pending], w, t);
      assert PositionsOf(fp, w, t) == PositionsOf(fp[u := pending], w, t);
    }
  }

  // The tables agree again on the ledger without the files.
  lemma DroppingDone(m0: Buckets, sets0: NameSets, base: set<string>, files: set<string>,
                     m: Buckets, names: map<string, nat>, sets: NameSets, fp: FilePositions, ledger: Ledger)
    requires Dropping(m0, sets0, base, files, m, names, sets) && NoneOf(m, files) && PositionsExact(m, fp)
    requires HoldsLedger(m0, ledger)
    ensures Agree(m, names, sets, fp, Apply(ledger, Forget(files)))
    ensures WorkspaceExact(sets0, ledger) && FlagsRecorded(ledger, base) ==>
            (WorkspaceExact(sets, Apply(ledger, Forget(files))) <==> NoMixedNamesake(ledger, base, files))
  {
    hide Refcounts, SetsExact, PositionsExact, HoldsLedger, WorkspaceExact, OthersKept, NoneOf, WsReleased,
         NoMixedNamesake, FlagsRecorded, Apply;
    LedgerAfterForget(m0, m, ledger, files);
    if WorkspaceExact(sets0, ledger) && FlagsRecorded(ledger, base) {
      WorkspaceAfterRemoval(m0, sets0, m, sets, ledger, base, files);
    }
  }

  // Provenance records after a removal that unrecords (some of) the files.
  lemma ForgetProvenance(ledger: Ledger, base: set<string>, base': set<string>, files: set<string>)
    requires base - files <= base' <= base
    ensures FlagsRecorded(ledger, base) ==> FlagsRecorded(Apply(ledger, Forget(files)), base')
    ensures OneProvenance(ledger, base) ==> OneProvenance(Apply(ledger, Forget(files)), base')
  {
    forall t
      ensures forall c :: c in ListOf(Apply(ledger, Forget(files)), t) ==> c in ListOf(ledger, t) && c.uri !in files
    {
      WithoutMembers(ListOf(ledger, t), files);
    }
    forall t, i | 0 <= i < |ListOf(Apply(ledger, Forget(files)), t)|
      ensures exists j ::
                0 <= j < |ListOf(ledger, t)| && ListOf(ledger, t)[j] == ListOf(Apply(ledger, Forget(files)), t)[i]
      ensures ListOf(Apply(ledger, Forget(files)), t)[i].uri !in files
    {
      assert ListOf(Apply(ledger, Forget(files)), t)[i] in ListOf(ledger, t);
    }
  }

  lemma {:induction false} WithoutMembers(cs: seq<Contribution>, files: set<string>)
    ensures forall c :: c in Without(cs, files) ==> c in cs && c.uri !in files
  {
    if cs != [] {
      WithoutMembers(cs[..|cs| - 1], files);
    }
  }
}

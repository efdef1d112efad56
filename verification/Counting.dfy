/** Counting elements of a sequence and summing the values of a map, with the
    facts that let a refcount be kept in step with what it counts. */
module Counting {

  // ---- Elements of a sequence with a property ------------------------------

  ghost function Count<T>(s: seq<T>, p: T -> bool): nat {
    if s == [] then 0 else Count(s[..|s| - 1], p) + (if p(s[|s| - 1]) then 1 else 0)
  }

  lemma {:induction false} CountConcat<T>(a: seq<T>, b: seq<T>, p: T -> bool)
    ensures Count(a + b, p) == Count(a, p) + Count(b, p)
    decreases |b|
  {
    if b == [] {
      assert a + b == a;
    } else {
      assert (a + b)[..|a + b| - 1] == a + b[..|b| - 1];
      CountConcat(a, b[..|b| - 1], p);
    }
  }

  lemma {:induction false} CountWithout<T>(s: seq<T>, k: nat, p: T -> bool)
    requires k < |s|
    ensures Count(s, p) == Count(s[..k] + s[k + 1..], p) + (if p(s[k]) then 1 else 0)
  {
    assert s == s[..k] + [s[k]] + s[k + 1..];
    CountConcat(s[..k] + [s[k]], s[k + 1..], p);
    CountConcat(s[..k], [s[k]], p);
    CountConcat(s[..k], s[k + 1..], p);
    assert [s[k]][..0] == [];
  }

  // The count does not depend on the order.
  lemma OneRemoved<T>(b: seq<T>, k: nat)
    requires k < |b|
    ensures multiset(b[..k] + b[k + 1..]) == multiset(b) - multiset{b[k]}
  {
    assert b == b[..k] + [b[k]] + b[k + 1..];
  }

  lemma {:induction false} CountPermutation<T>(a: seq<T>, b: seq<T>, p: T -> bool)
    requires multiset(a) == multiset(b)
    ensures Count(a, p) == Count(b, p)
    decreases |a|
  {
    assert |a| == |multiset(a)| == |multiset(b)| == |b|;
    if a != [] {
      var last := |a| - 1;
      assert a[last] in multiset(b);
      var k :| 0 <= k < |b| && b[k] == a[last];
      OneRemoved(a, last);
      OneRemoved(b, k);
      assert a[..last] + a[last + 1..] == a[..last];
      CountPermutation(a[..last], b[..k] + b[k + 1..], p);
      CountWithout(b, k, p);
    }
  }

  // Taking one element out, wherever the others end up.
  lemma CountDrop<T>(a: seq<T>, b: seq<T>, x: T, p: T -> bool)
    requires multiset(a) == multiset(b) + multiset{x}
    ensures Count(a, p) == Count(b, p) + (if p(x) then 1 else 0)
  {
    CountPermutation(a, b + [x], p);
  }

  lemma {:induction false} CountPositive<T>(s: seq<T>, p: T -> bool)
    ensures Count(s, p) > 0 <==> exists k :: 0 <= k < |s| && p(s[k])
  {
    if s != [] {
      var init := s[..|s| - 1];
      CountPositive(init, p);
      if Count(init, p) > 0 {
        var k :| 0 <= k < |init| && p(init[k]);
        assert p(s[k]);
      }
      if k :| 0 <= k < |s| && p(s[k]) && k < |init| {
        assert p(init[k]);
      }
    }
  }

  // ---- Sums over a map -----------------------------------------------------

  ghost function Sum<K>(m: map<K, nat>): nat
    decreases |m|
  {
    if m == map[] then 0 else
      var k :| k in m;
      assert |m - {k}| < |m| by { assert (m - {k}).Keys == m.Keys - {k}; }
      m[k] + Sum(m - {k})
  }

  lemma {:induction false} SumPick<K>(m: map<K, nat>, k: K)
    requires k in m
    ensures Sum(m) == m[k] + Sum(m - {k})
    decreases |m|
  {
    var j :| j in m && Sum(m) == m[j] + Sum(m - {j});
    if j != k {
      assert |m - {j}| < |m| && |m - {k}| < |m| by {
        assert (m - {j}).Keys == m.Keys - {j} && (m - {k}).Keys == m.Keys - {k};
      }
      SumPick(m - {j}, k);
      SumPick(m - {k}, j);
      assert m - {j} - {k} == m - {k} - {j};
    }
  }

  ghost function At<K>(m: map<K, nat>, k: K): nat { if k in m then m[k] else 0 }

  lemma SumUpdate<K>(m: map<K, nat>, k: K, v: nat)
    ensures Sum(m[k := v]) == Sum(m) - At(m, k) + v
  {
    SumPick(m[k := v], k);
    assert m[k := v] - {k} == m - {k};
    if k in m {
      SumPick(m, k);
    } else {
      assert m - {k} == m;
    }
  }

  lemma SumRemove<K>(m: map<K, nat>, k: K)
    ensures Sum(m - {k}) == Sum(m) - At(m, k)
  {
    if k in m {
      SumPick(m, k);
    } else {
      assert m - {k} == m;
    }
  }

  lemma {:induction false} SumPositive<K>(m: map<K, nat>)
    ensures Sum(m) > 0 <==> exists k :: k in m && m[k] > 0
    decreases |m|
  {
    if m != map[] {
      var j :| j in m && Sum(m) == m[j] + Sum(m - {j});
      assert |m - {j}| < |m| by { assert (m - {j}).Keys == m.Keys - {j}; }
      SumPositive(m - {j});
      if k :| k in m && m[k] > 0 {
        assert k != j ==> (m - {j})[k] > 0;
      }
      if k :| k in m - {j} && (m - {j})[k] > 0 {
        assert m[k] > 0;
      }
    }
  }

  // ---- Refcount tables -----------------------------------------------------

  function IncRef<K>(m: map<K, nat>, k: K): map<K, nat> {
    m[k := (if k in m then m[k] else 0) + 1]
  }

  // `dec_ref`: absent keys are left alone, a count reaching zero goes.
  function DecRef<K>(m: map<K, nat>, k: K): map<K, nat>
    requires k in m ==> m[k] > 0
  {
    if k !in m then m else if m[k] == 1 then m - {k} else m[k := m[k] - 1]
  }

  // The table holds exactly the keys counted at least once, with their counts.
  ghost predicate Refcounts<K(!new)>(m: map<K, nat>, count: K -> nat) {
    forall k :: (k in m <==> count(k) > 0) && (k in m ==> m[k] == count(k))
  }

  lemma RefcountsIncrease<K(!new)>(m: map<K, nat>, before: K -> nat, after: K -> nat, x: K)
    requires Refcounts(m, before)
    requires forall k :: after(k) == before(k) + (if k == x then 1 else 0)
    ensures Refcounts(IncRef(m, x), after)
  {
  }

  lemma RefcountsDecrease<K(!new)>(m: map<K, nat>, before: K -> nat, after: K -> nat, x: K)
    requires Refcounts(m, before)
    requires forall k :: before(k) == after(k) + (if k == x then 1 else 0)
    ensures x in m && m[x] > 0
    ensures Refcounts(DecRef(m, x), after)
  {
  }

  lemma RefcountsSame<K(!new)>(m: map<K, nat>, before: K -> nat, after: K -> nat)
    requires Refcounts(m, before)
    requires forall k :: before(k) == after(k)
    ensures Refcounts(m, after)
  {
  }

  // The counts determine the table.
  lemma RefcountsUnique<K(!new)>(m1: map<K, nat>, m2: map<K, nat>, count1: K -> nat, count2: K -> nat)
    requires Refcounts(m1, count1) && Refcounts(m2, count2)
    requires forall k :: count1(k) == count2(k)
    ensures m1 == m2
  {
  }

  // ---- Counting over a map of lists ------------------------------------------

  ghost function TallyTable<X>(m: map<string, seq<X>>, keep: string -> bool, p: X -> bool): map<string, nat> {
    map t | t in m && keep(t) :: Count(m[t], p)
  }

  // The elements with property `p` in all lists whose key is kept.
  ghost function Tally<X>(m: map<string, seq<X>>, keep: string -> bool, p: X -> bool): nat {
    Sum(TallyTable(m, keep, p))
  }

  function ListOf<X>(m: map<string, seq<X>>, t: string): seq<X> { if t in m then m[t] else [] }

  lemma TallyTableChanges<X>(m: map<string, seq<X>>, keep: string -> bool, p: X -> bool, t: string, b: seq<X>)
    ensures TallyTable(m[t := b], keep, p)
         == if keep(t) then TallyTable(m, keep, p)[t := Count(b, p)] else TallyTable(m, keep, p)
  {
  }

  lemma TallyChanges<X>(m: map<string, seq<X>>, keep: string -> bool, p: X -> bool, t: string, b: seq<X>)
    ensures Tally(m[t := b], keep, p)
         == if keep(t) then Tally(m, keep, p) - Count(ListOf(m, t), p) + Count(b, p) else Tally(m, keep, p)
  {
    TallyTableChanges(m, keep, p, t, b);
    SumUpdate(TallyTable(m, keep, p), t, Count(b, p));
    assert keep(t) ==> At(TallyTable(m, keep, p), t) == Count(ListOf(m, t), p);
  }

  // An empty list can appear or go without changing the tally.
  lemma TallyIgnoresEmpty<X>(m: map<string, seq<X>>, keep: string -> bool, p: X -> bool, t: string)
    requires ListOf(m, t) == []
    ensures Tally(m - {t}, keep, p) == Tally(m, keep, p) == Tally(m[t := []], keep, p)
  {
    assert TallyTable(m - {t}, keep, p) == TallyTable(m, keep, p) - {t};
    SumRemove(TallyTable(m, keep, p), t);
    TallyChanges(m, keep, p, t, []);
  }

  // An element is tallied exactly when some kept list holds one.
  lemma TallyPositive<X>(m: map<string, seq<X>>, keep: string -> bool, p: X -> bool)
    ensures Tally(m, keep, p) > 0 <==> exists t, k :: t in m && keep(t) && 0 <= k < |m[t]| && p(m[t][k])
  {
    var table := TallyTable(m, keep, p);
    SumPositive(table);
    if t :| t in table && table[t] > 0 {
      CountPositive(m[t], p);
      var k :| 0 <= k < |m[t]| && p(m[t][k]);
      assert t in m && keep(t) && p(m[t][k]);
    }
    if t, k :| t in m && keep(t) && 0 <= k < |m[t]| && p(m[t][k]) {
      CountPositive(m[t], p);
      assert t in table && table[t] > 0;
    }
  }
}

/** Strings as the program handles them: ASCII case folding, splitting on a
    separator, and joining the pieces back. */
module Text {

  datatype Option<+T> = None | Some(value: T)

  function Elements<T>(s: seq<T>): set<T> {
    set x | x in s
  }

  // ---- ASCII case folding -------------------------------------------------

  function LowerChar(c: char): char {
    if 'A' <= c <= 'Z' then (c as int + 32) as char else c
  }

  function Lower(s: string): (r: string)
    ensures |r| == |s|
    ensures forall i :: 0 <= i < |s| ==> r[i] == LowerChar(s[i])
  {
    seq(|s|, i requires 0 <= i < |s| => LowerChar(s[i]))
  }

  // The letters are folded and nothing else is.
  lemma LowerLetters()
    ensures Lower("ABCDEFGHIJKLMNOPQRSTUVWXYZ") == "abcdefghijklmnopqrstuvwxyz"
    ensures forall c :: c < 'A' || 'Z' < c ==> LowerChar(c) == c
  {
    assert Lower("ABCDEFGHIJKLMNOPQRSTUVWXYZ") == "abcdefghijklmnopqrstuvwxyz";
  }

  predicate EqIgnoreCase(a: string, b: string) {
    Lower(a) == Lower(b)
  }

  predicate HasUpper(s: string) {
    exists i :: 0 <= i < |s| && 'A' <= s[i] <= 'Z'
  }

  lemma NoUpperIsLower(s: string)
    ensures !HasUpper(s) <==> Lower(s) == s
  {
  }

  // ---- Trimming -------------------------------------------------------------

  // Unicode's White_Space characters, which `str::trim` removes.
  predicate IsSpace(c: char) {
    var n := c as int;
    9 <= n <= 13 || n == 0x20 || n == 0x85 || n == 0xa0 || n == 0x1680 || 0x2000 <= n <= 0x200a
    || n == 0x2028 || n == 0x2029 || n == 0x202f || n == 0x205f || n == 0x3000
  }

  function TrimStart(s: string): (r: string)
    ensures r == "" || !IsSpace(r[0])
  {
    if s != "" && IsSpace(s[0]) then TrimStart(s[1..]) else s
  }

  function TrimEnd(s: string): (r: string)
    ensures r == "" || (!IsSpace(r[|r| - 1]) && s != "" && r[0] == s[0])
  {
    if s != "" && IsSpace(s[|s| - 1]) then TrimEnd(s[..|s| - 1]) else s
  }

  function Trim(s: string): string {
    TrimEnd(TrimStart(s))
  }

  ghost predicate Blank(s: string) {
    forall i :: 0 <= i < |s| ==> IsSpace(s[i])
  }

  lemma {:induction false} TrimStartCuts(s: string) returns (lead: string)
    ensures Blank(lead) && s == lead + TrimStart(s)
  {
    hide IsSpace;
    if s != "" && IsSpace(s[0]) {
      var rest := TrimStartCuts(s[1..]);
      lead := [s[0]] + rest;
      assert s == [s[0]] + s[1..];
    } else {
      lead := "";
    }
  }

  lemma {:induction false} TrimEndCuts(s: string) returns (trail: string)
    ensures Blank(trail) && s == TrimEnd(s) + trail
  {
    hide IsSpace;
    if s != "" && IsSpace(s[|s| - 1]) {
      var front := TrimEndCuts(s[..|s| - 1]);
      trail := front + [s[|s| - 1]];
      assert s == s[..|s| - 1] + [s[|s| - 1]];
    } else {
      trail := "";
    }
  }

  // Trimming takes blanks from both ends, all of them, and nothing else.
  lemma TrimCuts(s: string) returns (lead: string, trail: string)
    ensures Blank(lead) && Blank(trail) && s == lead + Trim(s) + trail
    ensures Trim(s) != "" ==> !IsSpace(Trim(s)[0]) && !IsSpace(Trim(s)[|Trim(s)| - 1])
  {
    hide IsSpace;
    lead := TrimStartCuts(s);
    trail := TrimEndCuts(TrimStart(s));
  }

  lemma {:induction false} TrimEndLower(s: string)
    ensures TrimEnd(Lower(s)) == Lower(TrimEnd(s))
  {
    hide IsSpace;
    if s != "" {
      LowerKeepsSpace(s[|s| - 1]);
      if IsSpace(s[|s| - 1]) {
        assert Lower(s)[..|s| - 1] == Lower(s[..|s| - 1]);
        TrimEndLower(s[..|s| - 1]);
      }
    }
  }

  lemma {:induction false} TrimStartLower(s: string)
    ensures TrimStart(Lower(s)) == Lower(TrimStart(s))
  {
    hide IsSpace;
    if s != "" {
      LowerKeepsSpace(s[0]);
      if IsSpace(s[0]) {
        assert Lower(s)[1..] == Lower(s[1..]);
        TrimStartLower(s[1..]);
      }
    }
  }

  lemma LowerKeepsSpace(c: char)
    ensures IsSpace(LowerChar(c)) == IsSpace(c)
  {
  }

  // Trimming and folding case commute; each is idempotent.
  lemma TrimLower(s: string)
    ensures Trim(Lower(s)) == Lower(Trim(s))
  {
    TrimStartLower(s);
    TrimEndLower(TrimStart(s));
  }

  lemma TrimTwice(s: string)
    ensures Trim(Trim(s)) == Trim(s)
  {
  }

  lemma LowerTwice(s: string)
    ensures Lower(Lower(s)) == Lower(s)
  {
  }

  // ---- Splitting and joining ----------------------------------------------

  // The position of the first separator of `s`, or |s| when it has none.
  function Find(s: string, sep: char -> bool): (i: nat)
    ensures i <= |s|
    ensures i < |s| ==> sep(s[i])
    ensures forall k :: 0 <= k < i ==> !sep(s[k])
  {
    if s == [] || sep(s[0]) then 0 else 1 + Find(s[1..], sep)
  }

  // Rust's `str::split`: always at least one piece, pieces hold no separator.
  function SplitBy(s: string, sep: char -> bool): (r: seq<string>)
    ensures |r| > 0
    decreases |s|
  {
    var i := Find(s, sep);
    if i == |s| then [s] else [s[..i]] + SplitBy(s[i + 1..], sep)
  }

  predicate IsSlash(c: char) { c == '/' }

  function Split(s: string): (r: seq<string>)
    ensures |r| > 0
  {
    SplitBy(s, IsSlash)
  }

  function Join(pieces: seq<string>): string
    requires |pieces| > 0
  {
    if |pieces| == 1 then pieces[0] else pieces[0] + "/" + Join(pieces[1..])
  }

  predicate Plain(piece: string) {
    forall k :: 0 <= k < |piece| ==> piece[k] != '/'
  }

  // One step of a split, from the position of the first separator.
  lemma SplitStep(s: string, sep: char -> bool, i: nat)
    requires i < |s| && sep(s[i]) && forall k :: 0 <= k < i ==> !sep(s[k])
    ensures SplitBy(s, sep) == [s[..i]] + SplitBy(s[i + 1..], sep)
  {
  }

  // Splitting `a`, a separator and `b` splits `a` and `b` on their own.
  lemma {:induction false} SplitAt(a: string, c: char, b: string, sep: char -> bool)
    requires sep(c)
    ensures SplitBy(a + [c] + b, sep) == SplitBy(a, sep) + SplitBy(b, sep)
    decreases |a|
  {
    hide SplitBy, Find;
    var s := a + [c] + b;
    var i := Find(a, sep);
    SplitStep(s, sep, i);
    if i == |a| {
      SplitPlain(a, sep);
      assert s[..i] == a && s[i + 1..] == b;
    } else {
      var rest := a[i + 1..];
      SplitStep(a, sep, i);
      assert s[..i] == a[..i];
      assert s[i + 1..] == rest + [c] + b;
      SplitAt(rest, c, b, sep);
    }
  }

  lemma {:induction false} SplitPlain(s: string, sep: char -> bool)
    requires forall k :: 0 <= k < |s| ==> !sep(s[k])
    ensures SplitBy(s, sep) == [s]
  {
  }

  lemma {:induction false} SplitPieces(s: string)
    ensures forall p :: p in Split(s) ==> Plain(p)
    ensures Join(Split(s)) == s
    decreases |s|
  {
    var i := Find(s, IsSlash);
    if i < |s| {
      SplitPieces(s[i + 1..]);
      assert Split(s)[1..] == Split(s[i + 1..]);
      assert s == s[..i] + "/" + s[i + 1..];
    }
  }

  // Join and Split are inverse on separator-free pieces.
  lemma {:induction false} SplitJoin(pieces: seq<string>)
    requires |pieces| > 0 && forall p :: p in pieces ==> Plain(p)
    ensures Split(Join(pieces)) == pieces
  {
    assert Plain(pieces[0]);
    SplitPlain(pieces[0], IsSlash);
    if |pieces| > 1 {
      SplitJoin(pieces[1..]);
      SplitAt(pieces[0], '/', Join(pieces[1..]), IsSlash);
    }
  }

  // Folding case moves no separator.
  lemma {:induction false} LowerSplits(s: string)
    ensures |Split(Lower(s))| == |Split(s)|
    ensures forall i :: 0 <= i < |Split(s)| ==> Split(Lower(s))[i] == Lower(Split(s)[i])
    decreases |s|
  {
    hide SplitBy, Find;
    var l, i := Lower(s), Find(s, IsSlash);
    if i < |s| {
      var rest := s[i + 1..];
      SplitStep(s, IsSlash, i);
      SplitStep(l, IsSlash, i);
      assert l[..i] == Lower(s[..i]) && l[i + 1..] == Lower(rest);
      LowerSplits(rest);
      assert Split(s) == [s[..i]] + Split(rest) && Split(l) == [l[..i]] + Split(Lower(rest));
    } else {
      SplitPlain(s, IsSlash);
      SplitPlain(l, IsSlash);
    }
  }

  lemma {:induction false} JoinConcat(a: seq<string>, b: seq<string>)
    requires |a| > 0 && |b| > 0
    ensures Join(a + b) == Join(a) + "/" + Join(b)
  {
    if |a| == 1 {
      assert (a + b)[1..] == b;
    } else {
      assert (a + b)[1..] == a[1..] + b;
      JoinConcat(a[1..], b);
      assert Join(a + b) == a[0] + "/" + (Join(a[1..]) + "/" + Join(b));
    }
  }

  // ---- Order ----------------------------------------------------------------

  // The order of strings, by the first character that differs.
  predicate Before(a: string, b: string) {
    b != "" && (a == "" || a[0] < b[0] || (a[0] == b[0] && Before(a[1..], b[1..])))
  }

  // A proper prefix comes before, and otherwise the first difference decides.
  lemma {:induction false} BeforeMeans(a: string, b: string)
    ensures Before(a, b) <==>
            a < b || exists i :: 0 <= i < |a| && i < |b| && a[..i] == b[..i] && a[i] < b[i]
    decreases |a|
  {
    if a != "" && b != "" {
      if a[0] == b[0] {
        var x, y := a[1..], b[1..];
        BeforeMeans(x, y);
        assert a == [a[0]] + x && b == [b[0]] + y;
        if i :| 0 <= i < |x| && i < |y| && x[..i] == y[..i] && x[i] < y[i] {
          assert a[..i + 1] == [a[0]] + x[..i] && b[..i + 1] == [b[0]] + y[..i];
          assert a[i + 1] < b[i + 1];
        }
        if i :| 0 <= i < |a| && i < |b| && a[..i] == b[..i] && a[i] < b[i] {
          assert x[..i - 1] == a[1..i] == a[..i][1..] && y[..i - 1] == b[1..i] == b[..i][1..];
          assert x[i - 1] < y[i - 1];
        }
      } else {
        assert a[..0] == b[..0];
        if i :| 0 <= i < |a| && i < |b| && a[..i] == b[..i] && a[i] < b[i] {
          assert i > 0 ==> a[..i][0] == b[..i][0];
        }
      }
    } else if b != "" {
      assert a < b;
    }
  }

  lemma {:induction false} BeforeIsTotal(a: string, b: string)
    ensures a != b ==> Before(a, b) || Before(b, a)
    ensures !(Before(a, b) && Before(b, a)) && !Before(a, a)
    decreases |a|
  {
    if a != "" && b != "" && a[0] == b[0] {
      assert a == [a[0]] + a[1..] && b == [b[0]] + b[1..];
      BeforeIsTotal(a[1..], b[1..]);
    }
    if a != "" {
      BeforeIsTotal(a[1..], a[1..]);
    }
  }

  lemma {:induction false} BeforeChains(a: string, b: string, c: string)
    requires Before(a, b) && Before(b, c)
    ensures Before(a, c)
    decreases |a|
  {
    if a != "" && a[0] == b[0] == c[0] {
      BeforeChains(a[1..], b[1..], c[1..]);
    }
  }

  ghost predicate Ascending<T>(key: T -> string, list: seq<T>) {
    forall i, j :: 0 <= i < j < |list| ==> Before(key(list[i]), key(list[j]))
  }

  // Members alone decide a strictly ascending list.
  lemma {:induction false} AscendingIsUnique<T>(key: T -> string, a: seq<T>, b: seq<T>)
    requires Ascending(key, a) && Ascending(key, b) && forall x :: x in a <==> x in b
    ensures a == b
    decreases |a|
  {
    assert a != [] ==> a[0] in a;
    assert b != [] ==> b[0] in b;
    if a != [] && b != [] {
      var m, n := |a| - 1, |b| - 1;
      SameGreatest(key, a, b);
      GreatestAside(key, a);
      GreatestAside(key, b);
      AscendingIsUnique(key, a[..m], b[..n]);
      assert a == a[..m] + [a[m]] && b == b[..n] + [b[n]];
    }
  }

  lemma SameGreatest<T>(key: T -> string, a: seq<T>, b: seq<T>)
    requires Ascending(key, a) && Ascending(key, b) && forall x :: x in a <==> x in b
    requires a != [] && b != []
    ensures a[|a| - 1] == b[|b| - 1]
  {
    hide Before;
    var x, y := a[|a| - 1], b[|b| - 1];
    assert x in b && y in a;
    BeforeIsTotal(key(x), key(y));
  }

  lemma GreatestAside<T>(key: T -> string, list: seq<T>)
    requires Ascending(key, list) && list != []
    ensures var m := |list| - 1; Ascending(key, list[..m]) && forall x :: x in list[..m] <==> x in list && x != list[m]
  {
    hide Before;
    var m := |list| - 1;
    forall x | x in list[..m] ensures x != list[m] {
      BeforeIsTotal(key(list[m]), key(list[m]));
    }
  }
}

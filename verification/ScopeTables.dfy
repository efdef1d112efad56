/** The tables of a scope registry as values, scope_registry.rs: looking names up,
    reachability over parents, and what it means for the tables to be closed. */
module ScopeTables {
  import opened Text

  type Id = nat

  const ANY: Id := 0
  const INVALID: Id := 1
  const FIRST_ID: Id := 100

  datatype ScopeDef = ScopeDef(name: string, aliases: seq<string>, parents: seq<Id>)

  datatype Link = Link(valid: seq<Id>, target: Option<Id>, ignoreKeys: seq<string>)

  datatype PrefixLink = PrefixLink(prefix: string, link: Link)

  datatype Registry = Registry(byId: map<Id, ScopeDef>, byName: map<string, Id>,
                               links: map<string, Link>, prefixLinks: seq<PrefixLink>)

  predicate Sentinel(id: Id) { id == ANY || id == INVALID }

  // ---- Looking a name up -----------------------------------------------------

  // Words that name a sentinel whatever the tables hold.
  function Reserved(trimmed: string): Option<Id> {
    if EqIgnoreCase(trimmed, "any") || EqIgnoreCase(trimmed, "all") || EqIgnoreCase(trimmed, "none") then
      Some(ANY)
    else if EqIgnoreCase(trimmed, "invalid") then
      Some(INVALID)
    else
      None
  }

  // any, all and none are the wildcard and invalid is the other sentinel, in any case.
  lemma ReservedWords(word: string)
    ensures Reserved(word) == Some(ANY) <==> Lower(word) in ["any", "all", "none"]
    ensures Reserved(word) == Some(INVALID) <==> Lower(word) == "invalid"
    ensures Reserved(word).None? <==> Lower(word) !in ["any", "all", "none", "invalid"]
  {
    assert Lower("any") == "any" && Lower("all") == "all" && Lower("none") == "none" && Lower("invalid") == "invalid";
  }

  function Get(byName: map<string, Id>, key: string): Option<Id> {
    if key in byName then Some(byName[key]) else None
  }

  // `id_of`: the key as it stands first, folded to lower case only on a miss.
  function IdOf(byName: map<string, Id>, name: string): Option<Id> {
    var trimmed := Trim(name);
    if Reserved(trimmed).Some? then
      Reserved(trimmed)
    else if trimmed in byName then
      Some(byName[trimmed])
    else if HasUpper(trimmed) then
      Get(byName, Lower(trimmed))
    else
      None
  }

  // What a name means: its trimmed, case-folded form.
  function Meaning(byName: map<string, Id>, name: string): Option<Id> {
    var trimmed := Trim(name);
    if Reserved(trimmed).Some? then Reserved(trimmed) else Get(byName, Lower(trimmed))
  }

  ghost predicate LowerKeys(byName: map<string, Id>) {
    forall k :: k in byName ==> Lower(k) == k
  }

  // The fast path agrees with folding every key, since only folded keys are stored.
  lemma IdOfIsMeaning(byName: map<string, Id>, name: string)
    requires LowerKeys(byName)
    ensures IdOf(byName, name) == Meaning(byName, name)
  {
    hide Trim, Reserved, HasUpper;
    NoUpperIsLower(Trim(name));
  }

  // Case and surrounding blanks never matter.
  lemma SpellingDoesNotMatter(byName: map<string, Id>, a: string, b: string)
    requires LowerKeys(byName) && Lower(Trim(a)) == Lower(Trim(b))
    ensures IdOf(byName, a) == IdOf(byName, b)
  {
    hide Trim, Lower;
    IdOfIsMeaning(byName, a);
    IdOfIsMeaning(byName, b);
  }

  // ---- Extending the names -----------------------------------------------------

  // A stored key can be reached by a lookup only if it is trimmed.
  ghost predicate KeepsAt(before: map<string, Id>, now: map<string, Id>, key: string) {
    key in before && Trim(key) == key ==> key in now && now[key] == before[key]
  }

  ghost predicate KeepsNames(before: map<string, Id>, now: map<string, Id>) {
    forall key :: KeepsAt(before, now, key)
  }

  lemma KeptNamesResolveAlike(before: map<string, Id>, now: map<string, Id>, name: string)
    requires LowerKeys(before) && LowerKeys(now) && KeepsNames(before, now)
    requires IdOf(before, name).Some?
    ensures IdOf(now, name) == IdOf(before, name)
  {
    hide Trim, Lower, Reserved;
    IdOfIsMeaning(before, name);
    IdOfIsMeaning(now, name);
    TrimLower(Trim(name));
    TrimTwice(name);
    assert KeepsAt(before, now, Lower(Trim(name)));
  }

  // All of a scope's spellings: its name and then its aliases.
  function Names(def: ScopeDef): (r: seq<string>)
    ensures |r| > 0 && r[0] == def.name
    ensures forall n :: n in r <==> n == def.name || n in def.aliases
  {
    [def.name] + def.aliases
  }

  // The tables after inserting every spelling for one id.
  function WithNames(byName: map<string, Id>, names: seq<string>, id: Id): map<string, Id> {
    byName + map k | k in KeysOf(names) :: id
  }

  function KeysOf(names: seq<string>): set<string> {
    set i | 0 <= i < |names| :: Lower(names[i])
  }

  // The first spelling that resolves decides.
  function FirstResolved(byName: map<string, Id>, names: seq<string>): (r: Option<Id>)
    ensures r.None? <==> forall i :: 0 <= i < |names| ==> IdOf(byName, names[i]).None?
    ensures r.Some? ==> exists i :: 0 <= i < |names| && IdOf(byName, names[i]) == r
  {
    if names == [] then None
    else if IdOf(byName, names[0]).Some? then
      IdOf(byName, names[0])
    else
      var r := FirstResolved(byName, names[1..]);
      assert forall i :: 1 <= i < |names| ==> names[i] == names[1..][i - 1];
      r
  }

  // It is the first: no spelling before it resolves.
  lemma {:induction false} FirstResolvedIsFirst(byName: map<string, Id>, names: seq<string>, i: nat)
    requires i < |names| && IdOf(byName, names[i]).Some?
    requires forall k :: 0 <= k < i ==> IdOf(byName, names[k]).None?
    ensures FirstResolved(byName, names) == IdOf(byName, names[i])
  {
    hide IdOf;
    if i > 0 {
      FirstResolvedIsFirst(byName, names[1..], i - 1);
    }
  }

  // Inserting spellings none of which resolved takes nothing away.
  lemma UnresolvedNamesAreNew(byName: map<string, Id>, names: seq<string>, id: Id)
    requires LowerKeys(byName) && FirstResolved(byName, names).None?
    ensures KeepsNames(byName, WithNames(byName, names, id)) && LowerKeys(WithNames(byName, names, id))
  {
    hide Trim, Lower, Reserved;
    var now := WithNames(byName, names, id);
    forall key ensures KeepsAt(byName, now, key) {
      if key in byName && Trim(key) == key && key in KeysOf(names) {
        var i :| 0 <= i < |names| && key == Lower(names[i]);
        TrimLower(names[i]);
        IdOfIsMeaning(byName, names[i]);
        assert false;
      }
    }
    forall key | key in now ensures Lower(key) == key {
      if key in KeysOf(names) {
        var i :| 0 <= i < |names| && key == Lower(names[i]);
        LowerTwice(names[i]);
      }
    }
  }

  // Every inserted spelling then resolves, to the new id or a reserved word's.
  lemma InsertedNamesResolve(byName: map<string, Id>, names: seq<string>, id: Id, i: nat)
    requires i < |names| && LowerKeys(WithNames(byName, names, id)) && Trim(names[i]) == names[i]
    requires Reserved(names[i]).None?
    ensures IdOf(WithNames(byName, names, id), names[i]) == Some(id)
  {
    IdOfIsMeaning(WithNames(byName, names, id), names[i]);
    assert Lower(names[i]) in KeysOf(names);
  }

  // ---- Closed tables -------------------------------------------------------------

  predicate Known(byId: map<Id, ScopeDef>, id: Id) {
    Sentinel(id) || id in byId
  }

  ghost predicate KnownAll(byId: map<Id, ScopeDef>, ids: seq<Id>) {
    forall i :: 0 <= i < |ids| ==> Known(byId, ids[i])
  }

  ghost predicate ClosedNames(byId: map<Id, ScopeDef>, byName: map<string, Id>) {
    forall k :: k in byName ==> Known(byId, byName[k])
  }

  ghost predicate ClosedParents(byId: map<Id, ScopeDef>) {
    forall id :: id in byId ==> KnownAll(byId, byId[id].parents)
  }

  ghost predicate ClosedLink(byId: map<Id, ScopeDef>, link: Link) {
    KnownAll(byId, link.valid) && (link.target.Some? ==> Known(byId, link.target.value))
  }

  ghost predicate ClosedLinks(byId: map<Id, ScopeDef>, links: map<string, Link>) {
    forall k :: k in links ==> ClosedLink(byId, links[k])
  }

  ghost predicate ClosedPrefixes(byId: map<Id, ScopeDef>, links: seq<PrefixLink>) {
    forall i :: 0 <= i < |links| ==> ClosedLink(byId, links[i].link)
  }

  // Every id the tables mention is a sentinel or has a definition.
  ghost predicate Closed(reg: Registry) {
    ClosedNames(reg.byId, reg.byName) && ClosedParents(reg.byId)
    && ClosedLinks(reg.byId, reg.links) && ClosedPrefixes(reg.byId, reg.prefixLinks)
  }

  ghost predicate WellNamed(byId: map<Id, ScopeDef>, byName: map<string, Id>) {
    LowerKeys(byName) && ClosedNames(byId, byName)
  }

  lemma ResolvedIsKnown(byId: map<Id, ScopeDef>, byName: map<string, Id>, name: string)
    requires ClosedNames(byId, byName)
    ensures IdOf(byName, name).Some? ==> Known(byId, IdOf(byName, name).value)
  {
  }

  // Ids already handed out: below the next one, and never a sentinel.
  ghost predicate Issued(byId: map<Id, ScopeDef>, next: Id) {
    next >= FIRST_ID && forall id :: id in byId ==> FIRST_ID <= id < next
  }

  // ---- Reachability over parents ---------------------------------------------------

  predicate Edge(byId: map<Id, ScopeDef>, a: Id, b: Id) {
    a in byId && b in byId[a].parents
  }

  ghost predicate IsPath(byId: map<Id, ScopeDef>, path: seq<Id>) {
    |path| > 0 && forall i :: 0 <= i < |path| - 1 ==> Edge(byId, path[i], path[i + 1])
  }

  ghost predicate Joins(byId: map<Id, ScopeDef>, path: seq<Id>, a: Id, b: Id) {
    IsPath(byId, path) && path[0] == a && path[|path| - 1] == b
  }

  ghost predicate Reaches(byId: map<Id, ScopeDef>, a: Id, b: Id) {
    exists path :: Joins(byId, path, a, b)
  }

  // `current` is accepted where `target` is asked for.
  ghost predicate Satisfies(byId: map<Id, ScopeDef>, current: Id, target: Id) {
    current == ANY || target == ANY || Reaches(byId, current, target)
  }

  lemma ReachesSelf(byId: map<Id, ScopeDef>, a: Id)
    ensures Reaches(byId, a, a)
  {
    assert Joins(byId, [a], a, a);
  }

  lemma ReachesOn(byId: map<Id, ScopeDef>, a: Id, b: Id, c: Id)
    requires Reaches(byId, a, b) && Edge(byId, b, c)
    ensures Reaches(byId, a, c)
  {
    var path :| Joins(byId, path, a, b);
    assert Joins(byId, path + [c], a, c);
  }

  lemma ReachesTransitive(byId: map<Id, ScopeDef>, a: Id, b: Id, c: Id)
    requires Reaches(byId, a, b) && Reaches(byId, b, c)
    ensures Reaches(byId, a, c)
  {
    var p :| Joins(byId, p, a, b);
    var q :| Joins(byId, q, b, c);
    var r := p + q[1..];
    forall i | 0 <= i < |r| - 1 ensures Edge(byId, r[i], r[i + 1]) {
      if i >= |p| - 1 {
        assert Edge(byId, q[i - |p| + 1], q[i - |p| + 2]);
      }
    }
    assert Joins(byId, r, a, c);
  }

  // A set with `a` that parents cannot leave holds all that `a` reaches.
  lemma {:induction false} ClosedSetHoldsReachable(byId: map<Id, ScopeDef>, inside: set<Id>, path: seq<Id>)
    requires IsPath(byId, path) && path[0] in inside
    requires forall a, b :: a in inside && Edge(byId, a, b) ==> b in inside
    ensures path[|path| - 1] in inside
  {
    if |path| > 1 {
      assert Edge(byId, path[0], path[1]);
      forall i | 0 <= i < |path| - 2 ensures Edge(byId, path[1..][i], path[1..][i + 1]) {
        assert Edge(byId, path[i + 1], path[i + 2]);
      }
      ClosedSetHoldsReachable(byId, inside, path[1..]);
    }
  }

  // Scopes nest: what satisfies a scope satisfies all that scope does. With the
  // wildcard in between nothing follows, so it is excluded.
  lemma SatisfiesTransitive(byId: map<Id, ScopeDef>, a: Id, b: Id, c: Id)
    requires Satisfies(byId, a, b) && Satisfies(byId, b, c) && b != ANY
    ensures Satisfies(byId, a, c)
  {
    if a != ANY && c != ANY {
      ReachesTransitive(byId, a, b, c);
    }
  }
}

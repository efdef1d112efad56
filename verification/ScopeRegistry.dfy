/** The scope registry, scope_registry.rs: the walk over parents, and building the
    tables from config with a hardcoded table filling the gaps. */
module ScopeRegistries {
  import opened Text
  import opened ScopeTables

  datatype ScopeInput = ScopeInput(name: string, aliases: seq<string>, subscopeOf: seq<string>)

  datatype LinkInput = LinkInput(name: string, outputScope: Option<string>, inputScopes: seq<string>,
                                 prefix: Option<string>)

  // ---- Ids and names from config -----------------------------------------------

  function Spellings(input: ScopeInput): (r: seq<string>)
    ensures |r| > 0 && forall n :: n in r <==> n == input.name || n in input.aliases
  {
    [input.name] + input.aliases
  }

  predicate Mentions(input: ScopeInput, word: string) {
    exists i :: 0 <= i < |Spellings(input)| && EqIgnoreCase(Spellings(input)[i], word)
  }

  predicate Ordinary(input: ScopeInput) {
    !Mentions(input, "invalid") && !Mentions(input, "any")
  }

  function OrdinaryBefore(inputs: seq<ScopeInput>, n: nat): nat
    requires n <= |inputs|
  {
    if n == 0 then 0 else OrdinaryBefore(inputs, n - 1) + if Ordinary(inputs[n - 1]) then 1 else 0
  }

  // Ordinary scopes are numbered in order; the others stand for a sentinel.
  function InputId(inputs: seq<ScopeInput>, i: nat): (id: Id)
    requires i < |inputs|
    ensures id == INVALID <==> Mentions(inputs[i], "invalid")
    ensures id == ANY <==> Mentions(inputs[i], "any") && !Mentions(inputs[i], "invalid")
    ensures Ordinary(inputs[i]) ==> id >= FIRST_ID
  {
    if Mentions(inputs[i], "invalid") then INVALID
    else if Mentions(inputs[i], "any") then ANY
    else FIRST_ID + OrdinaryBefore(inputs, i)
  }

  lemma {:induction false} NumbersGrow(inputs: seq<ScopeInput>, i: nat, j: nat)
    requires i < j <= |inputs| && Ordinary(inputs[i])
    ensures OrdinaryBefore(inputs, i) < OrdinaryBefore(inputs, j)
  {
    if i < j - 1 {
      NumbersGrow(inputs, i, j - 1);
    }
  }

  // No two ordinary scopes share an id, and no scope takes a sentinel's by accident.
  lemma IdsAreDistinct(inputs: seq<ScopeInput>, i: nat, j: nat)
    requires i < |inputs| && j < |inputs| && i != j && Ordinary(inputs[i])
    ensures InputId(inputs, i) != InputId(inputs, j) && !Sentinel(InputId(inputs, i))
  {
    hide Mentions;
    if Ordinary(inputs[j]) {
      NumbersGrow(inputs, if i < j then i else j, if i < j then j else i);
    }
  }

  predicate Declares(input: ScopeInput, key: string) {
    key in KeysOf(Spellings(input))
  }

  // Of the first n inputs, input i is the last to declare `key`.
  ghost predicate LastDeclarer(inputs: seq<ScopeInput>, n: nat, key: string, i: nat)
    requires n <= |inputs|
  {
    i < n && Declares(inputs[i], key) && forall j :: i < j < n ==> !Declares(inputs[j], key)
  }

  ghost predicate NameAt(inputs: seq<ScopeInput>, n: nat, byName: map<string, Id>, key: string)
    requires n <= |inputs|
  {
    (key in byName <==> exists i :: 0 <= i < n && Declares(inputs[i], key))
    && forall i :: 0 <= i < n && LastDeclarer(inputs, n, key, i) ==> key in byName && byName[key] == InputId(inputs, i)
  }

  // A key names the scope that declared it last.
  ghost predicate NamesFromInputs(inputs: seq<ScopeInput>, n: nat, byName: map<string, Id>)
    requires n <= |inputs|
  {
    forall key :: NameAt(inputs, n, byName, key)
  }

  ghost predicate DefinedBy(inputs: seq<ScopeInput>, n: nat, id: Id, i: nat)
    requires n <= |inputs|
  {
    i < n && Ordinary(inputs[i]) && InputId(inputs, i) == id
  }

  ghost predicate DefAt(inputs: seq<ScopeInput>, n: nat, byId: map<Id, ScopeDef>, id: Id)
    requires n <= |inputs|
  {
    (id in byId <==> exists i: nat :: DefinedBy(inputs, n, id, i))
    && forall i: nat :: DefinedBy(inputs, n, id, i) ==>
         id in byId && byId[id].name == inputs[i].name && byId[id].aliases == inputs[i].aliases
  }

  ghost predicate DefsFromInputs(inputs: seq<ScopeInput>, n: nat, byId: map<Id, ScopeDef>)
    requires n <= |inputs|
  {
    forall id :: DefAt(inputs, n, byId, id)
  }

  // ---- Parents from config -------------------------------------------------------

  // The names that resolve, in order.
  function ResolveAll(byName: map<string, Id>, names: seq<string>): seq<Id> {
    if names == [] then []
    else
      var before := ResolveAll(byName, names[..|names| - 1]);
      match IdOf(byName, names[|names| - 1])
      case Some(id) => before + [id]
      case None => before
  }

  // `ids` are what the names at `at` resolve to, which are all that resolve, in order.
  ghost predicate ResolvedAt(byName: map<string, Id>, names: seq<string>, at: seq<nat>, ids: seq<Id>) {
    |at| == |ids| && (forall i, j :: 0 <= i < j < |at| ==> at[i] < at[j])
    && (forall j :: 0 <= j < |at| ==> at[j] < |names| && IdOf(byName, names[at[j]]) == Some(ids[j]))
    && AllResolvedAt(byName, names, at)
  }

  ghost predicate AllResolvedAt(byName: map<string, Id>, names: seq<string>, at: seq<nat>) {
    forall i :: 0 <= i < |names| && IdOf(byName, names[i]).Some? ==> i in at
  }

  ghost predicate ResolvesTo(byName: map<string, Id>, names: seq<string>, ids: seq<Id>) {
    exists at :: ResolvedAt(byName, names, at, ids)
  }

  lemma {:induction false} ResolveAllAt(byName: map<string, Id>, names: seq<string>) returns (at: seq<nat>)
    ensures ResolvedAt(byName, names, at, ResolveAll(byName, names))
  {
    hide IdOf, ResolvedAt;
    if names == [] {
      at := [];
      NothingToResolve(byName);
    } else {
      var front, name := names[..|names| - 1], names[|names| - 1];
      at := ResolveAllAt(byName, front);
      at := ResolvedOneMore(byName, front, name, at, ResolveAll(byName, front));
      assert names == front + [name];
    }
  }

  lemma NothingToResolve(byName: map<string, Id>)
    ensures ResolvedAt(byName, [], [], [])
  {
  }

  lemma ResolvedOneMore(byName: map<string, Id>, front: seq<string>, name: string, at: seq<nat>, ids: seq<Id>)
    returns (more: seq<nat>)
    requires ResolvedAt(byName, front, at, ids)
    ensures ResolvedAt(byName, front + [name], more,
              if IdOf(byName, name).Some? then ids + [IdOf(byName, name).value] else ids)
  {
    hide IdOf, AllResolvedAt;
    var names := front + [name];
    more := if IdOf(byName, name).Some? then at + [|front|] else at;
    AllResolvedOneMore(byName, front, name, at, more);
    if IdOf(byName, name).Some? {
      var all := ids + [IdOf(byName, name).value];
      forall j | 0 <= j < |more| ensures more[j] < |names| && IdOf(byName, names[more[j]]) == Some(all[j]) {
        assert j < |at| ==> names[more[j]] == front[at[j]];
      }
    } else {
      forall j | 0 <= j < |at| ensures names[at[j]] == front[at[j]] {
      }
    }
  }

  lemma AllResolvedOneMore(byName: map<string, Id>, front: seq<string>, name: string, at: seq<nat>, more: seq<nat>)
    requires AllResolvedAt(byName, front, at)
    requires more == if IdOf(byName, name).Some? then at + [|front|] else at
    ensures AllResolvedAt(byName, front + [name], more)
  {
    hide IdOf;
    var names := front + [name];
    forall i | 0 <= i < |names| && IdOf(byName, names[i]).Some? ensures i in more {
      assert i < |front| ==> names[i] == front[i];
    }
  }

  lemma ResolveAllResolves(byName: map<string, Id>, names: seq<string>)
    ensures ResolvesTo(byName, names, ResolveAll(byName, names))
  {
    hide ResolvedAt, ResolveAll;
    var at := ResolveAllAt(byName, names);
  }

  lemma {:induction false} ResolveAllKnown(byId: map<Id, ScopeDef>, byName: map<string, Id>, names: seq<string>)
    requires ClosedNames(byId, byName)
    ensures KnownAll(byId, ResolveAll(byName, names))
  {
    hide IdOf, Known;
    if names != [] {
      ResolveAllKnown(byId, byName, names[..|names| - 1]);
      ResolvedIsKnown(byId, byName, names[|names| - 1]);
    }
  }

  predicate Denotes(byName: map<string, Id>, input: ScopeInput, id: Id) {
    IdOf(byName, input.name) == Some(id)
  }

  // Of the first n inputs, input i is the last whose name resolves to `id`.
  ghost predicate LastFor(inputs: seq<ScopeInput>, n: nat, byName: map<string, Id>, id: Id, i: nat)
    requires n <= |inputs|
  {
    i < n && Denotes(byName, inputs[i], id) && forall j :: i < j < n ==> !Denotes(byName, inputs[j], id)
  }

  ghost predicate ParentsAt(inputs: seq<ScopeInput>, n: nat, byName: map<string, Id>, id: Id, parents: seq<Id>)
    requires n <= |inputs|
  {
    ((forall i :: 0 <= i < n ==> !Denotes(byName, inputs[i], id)) ==> parents == [])
    && forall i: nat :: LastFor(inputs, n, byName, id, i) ==> ResolvesTo(byName, inputs[i].subscopeOf, parents)
  }

  // A scope's parents are those of the last input that names it, as far as they resolve.
  ghost predicate ParentsFromInputs(inputs: seq<ScopeInput>, n: nat, byName: map<string, Id>, byId: map<Id, ScopeDef>)
    requires n <= |inputs|
  {
    forall id :: id in byId ==> ParentsAt(inputs, n, byName, id, byId[id].parents)
  }

  // ---- Links from config -----------------------------------------------------------

  function OrAny(id: Option<Id>): Id {
    if id.Some? then id.value else ANY
  }

  // A link leads to what its output name resolves to, if it has one that does,
  // and is valid in what its input names resolve to, or anywhere for an unknown one.
  ghost predicate FollowsInput(byName: map<string, Id>, input: LinkInput, link: Link) {
    (input.outputScope.None? ==> link.target == None)
    && (input.outputScope.Some? ==> link.target == IdOf(byName, input.outputScope.value))
    && |link.valid| == |input.inputScopes|
    && (forall i :: 0 <= i < |link.valid| ==>
          match IdOf(byName, input.inputScopes[i])
          case Some(id) => link.valid[i] == id
          case None => link.valid[i] == ANY)
    && link.ignoreKeys == []
  }

  function LinkOf(byName: map<string, Id>, input: LinkInput): (link: Link)
    ensures FollowsInput(byName, input, link)
  {
    Link(seq(|input.inputScopes|, i requires 0 <= i < |input.inputScopes| => OrAny(IdOf(byName, input.inputScopes[i]))),
         if input.outputScope.Some? then IdOf(byName, input.outputScope.value) else None,
         [])
  }

  lemma LinkOfClosed(byId: map<Id, ScopeDef>, byName: map<string, Id>, input: LinkInput)
    requires ClosedNames(byId, byName)
    ensures ClosedLink(byId, LinkOf(byName, input))
  {
  }

  ghost predicate NamesLink(input: LinkInput, key: string) {
    input.prefix.None? && Lower(input.name) == key
  }

  ghost predicate LastLink(inputs: seq<LinkInput>, n: nat, key: string, i: nat)
    requires n <= |inputs|
  {
    i < n && NamesLink(inputs[i], key) && forall j :: i < j < n ==> !NamesLink(inputs[j], key)
  }

  ghost predicate SomeNames(inputs: seq<LinkInput>, n: nat, key: string)
    requires n <= |inputs|
  {
    exists i :: 0 <= i < n && NamesLink(inputs[i], key)
  }

  ghost predicate LinkAt(inputs: seq<LinkInput>, n: nat, byName: map<string, Id>, links: map<string, Link>, key: string)
    requires n <= |inputs|
  {
    (key in links <==> SomeNames(inputs, n, key))
    && forall i: nat :: i < n && LastLink(inputs, n, key, i) ==>
         key in links && FollowsInput(byName, inputs[i], links[key])
  }

  ghost predicate LinksFromInputs(inputs: seq<LinkInput>, n: nat, byName: map<string, Id>, links: map<string, Link>)
    requires n <= |inputs|
  {
    forall key :: LinkAt(inputs, n, byName, links, key)
  }

  // The links with a prefix, which stand at `at`, in order.
  ghost predicate PrefixesAt(inputs: seq<LinkInput>, n: nat, byName: map<string, Id>, at: seq<nat>,
                             links: seq<PrefixLink>)
    requires n <= |inputs|
  {
    |at| == |links| && (forall i, j :: 0 <= i < j < |at| ==> at[i] < at[j])
    && (forall j :: 0 <= j < |at| ==>
          at[j] < n && inputs[at[j]].prefix.Some? && links[j].prefix == Lower(inputs[at[j]].prefix.value)
          && FollowsInput(byName, inputs[at[j]], links[j].link))
    && forall i :: 0 <= i < n && inputs[i].prefix.Some? ==> i in at
  }

  ghost predicate PrefixesFromInputs(inputs: seq<LinkInput>, n: nat, byName: map<string, Id>, links: seq<PrefixLink>)
    requires n <= |inputs|
  {
    exists at :: PrefixesAt(inputs, n, byName, at, links)
  }

  lemma PrefixesAfterInput(inputs: seq<LinkInput>, n: nat, byName: map<string, Id>, before: seq<PrefixLink>,
                           now: seq<PrefixLink>)
    requires n < |inputs| && PrefixesFromInputs(inputs, n, byName, before)
    requires if inputs[n].prefix.None? then now == before
             else now == before + [PrefixLink(Lower(inputs[n].prefix.value), LinkOf(byName, inputs[n]))]
    ensures PrefixesFromInputs(inputs, n + 1, byName, now)
  {
    hide FollowsInput, LinkOf, Lower;
    var m := n + 1;
    var at :| PrefixesAt(inputs, n, byName, at, before);
    if inputs[n].prefix.None? {
      assert PrefixesAt(inputs, m, byName, at, now);
    } else {
      var more := at + [n];
      assert n in more;
      assert PrefixesAt(inputs, m, byName, more, now);
    }
  }

  lemma NoLinksYet(inputs: seq<LinkInput>, byName: map<string, Id>)
    ensures LinksFromInputs(inputs, 0, byName, map[])
  {
  }

  lemma NoPrefixesYet(inputs: seq<LinkInput>, byName: map<string, Id>)
    ensures PrefixesFromInputs(inputs, 0, byName, [])
  {
    assert PrefixesAt(inputs, 0, byName, [], []);
  }

  // ---- One more input --------------------------------------------------------------

  lemma NoKeys()
    ensures KeysOf([]) == {}
  {
  }

  lemma KeysOfPush(names: seq<string>, i: nat)
    requires i < |names|
    ensures KeysOf(names[..i + 1]) == KeysOf(names[..i]) + {Lower(names[i])}
  {
  }

  lemma NothingDeclared(inputs: seq<ScopeInput>)
    ensures NamesFromInputs(inputs, 0, map[]) && DefsFromInputs(inputs, 0, map[])
  {
  }

  lemma NamesAfterInput(inputs: seq<ScopeInput>, n: nat, byName: map<string, Id>)
    requires n < |inputs| && NamesFromInputs(inputs, n, byName)
    ensures NamesFromInputs(inputs, n + 1, WithNames(byName, Spellings(inputs[n]), InputId(inputs, n)))
  {
    hide InputId, KeysOf;
    var now := WithNames(byName, Spellings(inputs[n]), InputId(inputs, n));
    var m := n + 1;
    forall key ensures NameAt(inputs, m, now, key) {
      assert NameAt(inputs, n, byName, key);
      forall i: nat | LastDeclarer(inputs, n + 1, key, i) ensures key in now && now[key] == InputId(inputs, i) {
        if i < n {
          assert LastDeclarer(inputs, n, key, i);
          assert !Declares(inputs[n], key);
        }
      }
    }
  }

  lemma DefsAfterInput(inputs: seq<ScopeInput>, n: nat, byId: map<Id, ScopeDef>)
    requires n < |inputs| && DefsFromInputs(inputs, n, byId)
    ensures var si := inputs[n];
            DefsFromInputs(inputs, n + 1,
              if Sentinel(InputId(inputs, n)) then byId else byId[InputId(inputs, n) := ScopeDef(si.name, si.aliases,
              [])])
  {
    hide InputId, Mentions;
    var si, id := inputs[n], InputId(inputs, n);
    var now := if Sentinel(id) then byId else byId[id := ScopeDef(si.name, si.aliases, [])];
    OrdinaryIffNumbered(inputs, n);
    var m := n + 1;
    forall x ensures DefAt(inputs, m, now, x) {
      assert DefAt(inputs, n, byId, x);
      forall i: nat | DefinedBy(inputs, n + 1, x, i) && i < n ensures DefinedBy(inputs, n, x, i) && x != id {
        IdsAreDistinct(inputs, i, n);
      }
      if i: nat :| DefinedBy(inputs, n, x, i) {
        assert DefinedBy(inputs, n + 1, x, i);
      }
      assert !Sentinel(id) ==> DefinedBy(inputs, n + 1, id, n);
    }
  }

  lemma OrdinaryIffNumbered(inputs: seq<ScopeInput>, i: nat)
    requires i < |inputs|
    ensures Ordinary(inputs[i]) <==> !Sentinel(InputId(inputs, i))
  {
  }

  lemma NamedAfterInput(byId0: map<Id, ScopeDef>, byName0: map<string, Id>, byId: map<Id, ScopeDef>,
                        names: seq<string>, id: Id)
    requires WellNamed(byId0, byName0) && byId0.Keys <= byId.Keys && Known(byId, id)
    ensures WellNamed(byId, WithNames(byName0, names, id))
  {
  }

  lemma ParentsAtAfter(inputs: seq<ScopeInput>, n: nat, byName: map<string, Id>, id: Id, before: seq<Id>, now: seq<Id>)
    requires n < |inputs| && ParentsAt(inputs, n, byName, id, before)
    requires if Denotes(byName, inputs[n], id) then ResolvesTo(byName, inputs[n].subscopeOf, now) else now == before
    ensures ParentsAt(inputs, n + 1, byName, id, now)
  {
    hide Denotes, ResolvesTo;
    var last := Denotes(byName, inputs[n], id);
    forall i: nat | LastFor(inputs, n + 1, byName, id, i) ensures ResolvesTo(byName, inputs[i].subscopeOf, now) {
      assert last ==> i == n;
      assert !last ==> LastFor(inputs, n, byName, id, i);
    }
    if forall i :: 0 <= i < n + 1 ==> !Denotes(byName, inputs[i], id) {
      assert !last;
    }
  }

  lemma NoParentsYet(inputs: seq<ScopeInput>, byName: map<string, Id>, byId: map<Id, ScopeDef>)
    requires forall id :: id in byId ==> byId[id].parents == []
    ensures ParentsFromInputs(inputs, 0, byName, byId) && ClosedParents(byId)
  {
  }

  lemma ParentsAfterInput(inputs: seq<ScopeInput>, n: nat, byName: map<string, Id>, before: map<Id, ScopeDef>,
                          now: map<Id, ScopeDef>)
    requires n < |inputs| && ParentsFromInputs(inputs, n, byName, before)
    requires var id := IdOf(byName, inputs[n].name);
             now == if id.Some? && id.value in before then
                      before[id.value := before[id.value].(parents := ResolveAll(byName, inputs[n].subscopeOf))]
                    else before
    ensures ParentsFromInputs(inputs, n + 1, byName, now)
  {
    hide IdOf, ResolveAll, ResolvesTo, ParentsAt;
    ResolveAllResolves(byName, inputs[n].subscopeOf);
    var m := n + 1;
    forall id | id in now ensures ParentsAt(inputs, m, byName, id, now[id].parents) {
      ParentsAtAfter(inputs, n, byName, id, before[id].parents, now[id].parents);
    }
  }

  lemma ParentsStayClosed(before: map<Id, ScopeDef>, byName: map<string, Id>, names: seq<string>, id: Id)
    requires ClosedNames(before, byName) && ClosedParents(before) && id in before
    ensures ClosedParents(before[id := before[id].(parents := ResolveAll(byName, names))])
  {
    hide ResolveAll;
    ResolveAllKnown(before, byName, names);
    assert forall x :: x in before ==> KnownAll(before, before[x].parents);
  }

  lemma LastLinkStep(inputs: seq<LinkInput>, n: nat, key: string, i: nat)
    requires n < |inputs|
    ensures LastLink(inputs, n + 1, key, i) <==>
            if NamesLink(inputs[n], key) then i == n else LastLink(inputs, n, key, i)
    ensures LastLink(inputs, n, key, i) ==> i < n
    ensures SomeNames(inputs, n + 1, key) <==> SomeNames(inputs, n, key) || NamesLink(inputs[n], key)
  {
    hide NamesLink;
  }

  lemma LinkAtAfter(inputs: seq<LinkInput>, n: nat, byName: map<string, Id>, before: map<string, Link>,
                    now: map<string, Link>, key: string)
    requires n < |inputs| && LinkAt(inputs, n, byName, before, key)
    requires if NamesLink(inputs[n], key) then key in now && FollowsInput(byName, inputs[n], now[key])
             else (key in now <==> key in before) && (key in now ==> now[key] == before[key])
    ensures LinkAt(inputs, n + 1, byName, now, key)
  {
    hide FollowsInput, NamesLink, LastLink, SomeNames;
    LastLinkStep(inputs, n, key, n);
    var m := n + 1;
    assert key in now <==> SomeNames(inputs, m, key);
    forall i: nat | i < m && LastLink(inputs, m, key, i)
      ensures key in now && FollowsInput(byName, inputs[i], now[key])
    {
      LastLinkStep(inputs, n, key, i);
    }
  }

  lemma LinksAfterInput(inputs: seq<LinkInput>, n: nat, byName: map<string, Id>, before: map<string, Link>,
                        now: map<string, Link>)
    requires n < |inputs| && LinksFromInputs(inputs, n, byName, before)
    requires now
          == if inputs[n].prefix.None? then before[Lower(inputs[n].name) := LinkOf(byName, inputs[n])] else before
    ensures LinksFromInputs(inputs, n + 1, byName, now)
  {
    hide FollowsInput, LinkOf, Lower, LinkAt;
    var m := n + 1;
    forall key ensures LinkAt(inputs, m, byName, now, key) {
      LinkAtAfter(inputs, n, byName, before, now, key);
    }
  }

  // ---- Synthesized iterators ---------------------------------------------------------

  predicate WordChar(c: char) {
    'a' <= c <= 'z' || 'A' <= c <= 'Z' || '0' <= c <= '9' || c == '_'
  }

  // Letters, digits and the underscore, and none of their neighbours.
  lemma WordCharacters()
    ensures Word("azAZ09_") && Word("special_project2")
    ensures !WordChar(' ') && !WordChar('-') && !WordChar('/') && !WordChar(':') && !WordChar('@')
    ensures !WordChar('[') && !WordChar('^') && !WordChar('`') && !WordChar('{')
  {
  }

  predicate Word(s: string) {
    forall i :: 0 <= i < |s| ==> WordChar(s[i])
  }

  const ITERATORS: seq<string> := ["every_", "random_", "any_", "all_"]

  datatype Alias = Alias(word: string, id: Id)

  predicate IsAlias(byId: map<Id, ScopeDef>, alias: Alias) {
    alias.id in byId && exists i :: 0 <= i < |Names(byId[alias.id])| && Word(Names(byId[alias.id])[i])
                                    && Lower(Names(byId[alias.id])[i]) == alias.word
  }

  ghost predicate IteratorFor(byId: map<Id, ScopeDef>, alias: Alias, k: nat, key: string) {
    k < |ITERATORS| && IsAlias(byId, alias) && key == ITERATORS[k] + alias.word
  }

  function IteratorLink(id: Id): (link: Link)
    ensures link.target == Some(id) && link.valid == [] && link.ignoreKeys == []
  {
    Link([], Some(id), [])
  }

  // What synthesis may leave under `key`: the link that stood there, or an
  // iterator over some scope with that alias.
  ghost predicate SynthesizedAt(byId: map<Id, ScopeDef>, before: map<string, Link>, links: map<string, Link>,
                                key: string) {
    if key in before then
      key in links && links[key] == before[key]
    else
      key in links ==> links[key].valid == [] && links[key].ignoreKeys == []
                       && exists alias, k :: IteratorFor(byId, alias, k, key) && links[key].target == Some(alias.id)
  }

  ghost predicate Synthesized(byId: map<Id, ScopeDef>, before: map<string, Link>, links: map<string, Link>) {
    (forall key :: SynthesizedAt(byId, before, links, key))
    && forall alias, k, key :: IteratorFor(byId, alias, k, key) ==> key in links
  }

  // ---- Backfill ------------------------------------------------------------------------

  function Remap(hcToReg: map<Id, Id>, id: Id): Id {
    if Sentinel(id) || id !in hcToReg then id else hcToReg[id]
  }

  // A sentinel or unmapped id stands for itself, any other for what it is mapped to.
  ghost predicate StandsFor(hcToReg: map<Id, Id>, hid: Id, id: Id) {
    if hid == ANY || hid == INVALID || hid !in hcToReg then id == hid else id == hcToReg[hid]
  }

  ghost predicate AllStandFor(hcToReg: map<Id, Id>, hids: seq<Id>, ids: seq<Id>) {
    |ids| == |hids| && forall i :: 0 <= i < |ids| ==> StandsFor(hcToReg, hids[i], ids[i])
  }

  // A hardcoded link carried over, each of its ids by the one it stands for.
  ghost predicate FollowsHardcoded(hcToReg: map<Id, Id>, from: Link, to: Link) {
    AllStandFor(hcToReg, from.valid, to.valid) && to.ignoreKeys == from.ignoreKeys
    && match from.target
       case Some(hid) => to.target.Some? && StandsFor(hcToReg, hid, to.target.value)
       case None => to.target.None?
  }

  function RemapAll(hcToReg: map<Id, Id>, ids: seq<Id>): (r: seq<Id>)
    ensures AllStandFor(hcToReg, ids, r)
  {
    seq(|ids|, i requires 0 <= i < |ids| => Remap(hcToReg, ids[i]))
  }

  function RemapLink(hcToReg: map<Id, Id>, link: Link): (r: Link)
    ensures FollowsHardcoded(hcToReg, link, r)
  {
    Link(RemapAll(hcToReg, link.valid),
         if link.target.Some? then Some(Remap(hcToReg, link.target.value)) else None,
         link.ignoreKeys)
  }

  // After the hardcoded links were taken: config's own as they were, and the
  // others carried over.
  ghost predicate LinksBackfilled(hcToReg: map<Id, Id>, hc: map<string, Link>, before: map<string, Link>,
                                  now: map<string, Link>) {
    LinksBackfilling(hcToReg, hc, hc.Keys, before, now)
  }

  ghost predicate LinksBackfilling(hcToReg: map<Id, Id>, hc: map<string, Link>, done: set<string>,
                                   before: map<string, Link>, now: map<string, Link>) {
    now.Keys == done + before.Keys
    && (forall key :: key in before ==> now[key] == before[key])
    && forall key :: key in done && key in hc && key !in before ==> FollowsHardcoded(hcToReg, hc[key], now[key])
  }

  lemma NoLinksBackfilled(hcToReg: map<Id, Id>, hc: map<string, Link>, before: map<string, Link>)
    ensures LinksBackfilling(hcToReg, hc, {}, before, before)
  {
  }

  lemma BackfillsLink(hcToReg: map<Id, Id>, hc: map<string, Link>, done: set<string>, before: map<string, Link>,
                      now: map<string, Link>, key: string)
    requires LinksBackfilling(hcToReg, hc, done, before, now) && key in hc
    ensures LinksBackfilling(hcToReg, hc, done + {key}, before,
              if key in now then now else now[key := RemapLink(hcToReg, hc[key])])
  {
    hide RemapLink, FollowsHardcoded;
  }

  // Every hardcoded id is mapped to a known one.
  ghost predicate MapsInto(hcById: map<Id, ScopeDef>, byId: map<Id, ScopeDef>, hcToReg: map<Id, Id>) {
    hcToReg.Keys == hcById.Keys && forall hid :: hid in hcToReg ==> Known(byId, hcToReg[hid])
  }

  lemma FollowingIsClosed(hcById: map<Id, ScopeDef>, byId: map<Id, ScopeDef>, hcToReg: map<Id, Id>, from: Link,
                          to: Link)
    requires MapsInto(hcById, byId, hcToReg) && ClosedLink(hcById, from) && FollowsHardcoded(hcToReg, from, to)
    ensures ClosedLink(byId, to)
  {
  }

  ghost predicate CleanNames(def: ScopeDef) {
    forall i :: 0 <= i < |Names(def)| ==> Trim(Names(def)[i]) == Names(def)[i]
  }

  ghost predicate NamedAs(byName: map<string, Id>, def: ScopeDef, id: Id) {
    exists i :: 0 <= i < |Names(def)| && IdOf(byName, Names(def)[i]) == Some(id)
  }

  // A definition copied from the hardcoded table, its parents still to come.
  ghost predicate CopyOf(hcById: map<Id, ScopeDef>, hid: Id, def: ScopeDef) {
    hid in hcById && def == hcById[hid].(parents := [])
  }

  // The tables while hardcoded scopes are adopted, and the ids mapped so far.
  datatype Adoption = Adoption(byId: map<Id, ScopeDef>, byName: map<string, Id>, next: Id, hcToReg: map<Id, Id>)

  // Hardcoded scope `def` is mapped to `id`: a known scope that one of its
  // spellings names; the one its own name had in config, if any; and a config
  // scope only if config itself gave that scope one of the spellings.
  ghost predicate Mapped(def: ScopeDef, config: map<string, Id>, limit: Id, byId: map<Id, ScopeDef>,
                         byName: map<string, Id>, id: Id) {
    Known(byId, id)
    && (CleanNames(def) ==> NamedAs(byName, def, id))
    && (IdOf(config, def.name).Some? ==> IdOf(config, def.name).value == id)
    && (id < limit ==> NamedAs(config, def, id))
  }

  ghost predicate NameKeptOrFresh(config: map<string, Id>, limit: Id, byName: map<string, Id>, key: string) {
    key in byName ==> (key in config && byName[key] == config[key]) || byName[key] >= limit
  }

  ghost predicate NamesKeptOrFresh(config: map<string, Id>, limit: Id, byName: map<string, Id>) {
    forall key :: NameKeptOrFresh(config, limit, byName, key)
  }

  ghost predicate NamesExtend(config: map<string, Id>, limit: Id, byName: map<string, Id>) {
    LowerKeys(config) && LowerKeys(byName) && KeepsNames(config, byName) && NamesKeptOrFresh(config, limit, byName)
  }

  ghost predicate ScopesExtend(hcById: map<Id, ScopeDef>, config: map<Id, ScopeDef>, limit: Id,
                               byId: map<Id, ScopeDef>) {
    (forall id :: id in config ==> id in byId && byId[id] == config[id])
    && forall id :: id in byId && id !in config ==> limit <= id && exists hid :: CopyOf(hcById, hid, byId[id])
  }

  ghost predicate AllMapped(hcById: map<Id, ScopeDef>, config: map<string, Id>, limit: Id, now: Adoption) {
    forall hid :: hid in now.hcToReg ==>
      hid in hcById && Mapped(hcById[hid], config, limit, now.byId, now.byName, now.hcToReg[hid])
  }

  ghost predicate SpelledBy(hcById: map<Id, ScopeDef>, done: set<Id>, config: map<string, Id>, key: string) {
    exists hid :: hid in done && hid in hcById && key in KeysOf(Names(hcById[hid]))
                  && FirstResolved(config, Names(hcById[hid])).None?
  }

  // Every name beyond config's is a spelling of a scope already adopted that
  // config does not have.
  ghost predicate NamesAccounted(hcById: map<Id, ScopeDef>, done: set<Id>, config: map<string, Id>,
                                 byName: map<string, Id>) {
    forall key :: key in byName && key !in config ==> SpelledBy(hcById, done, config, key)
  }

  // Trimmed spellings of which no two scopes share one.
  ghost predicate Apart(hcById: map<Id, ScopeDef>) {
    (forall hid :: hid in hcById ==> CleanNames(hcById[hid]))
    && forall a, b :: a in hcById && b in hcById && a != b ==> KeysOf(Names(hcById[a])) !! KeysOf(Names(hcById[b]))
  }

  ghost predicate AllNamed(byName: map<string, Id>, names: seq<string>, id: Id) {
    forall i :: 0 <= i < |names| ==> IdOf(byName, names[i]) == Some(id)
  }

  // What config alone makes of hardcoded scope `def`: the scope that the first
  // resolving spelling means, or one that config does not have and that every
  // spelling means.
  ghost predicate MappedByConfig(def: ScopeDef, config: map<string, Id>, limit: Id, byName: map<string, Id>, id: Id) {
    if FirstResolved(config, Names(def)).Some? then FirstResolved(config, Names(def)) == Some(id)
    else limit <= id && AllNamed(byName, Names(def), id)
  }

  ghost predicate AllMappedByConfig(hcById: map<Id, ScopeDef>, config: map<string, Id>, limit: Id,
                                    byName: map<string, Id>, hcToReg: map<Id, Id>) {
    forall hid :: hid in hcToReg ==>
      hid in hcById && MappedByConfig(hcById[hid], config, limit, byName, hcToReg[hid])
  }

  // With the order of adoption irrelevant once no two scopes share a spelling.
  ghost predicate AdoptingInOrder(hcById: map<Id, ScopeDef>, done: set<Id>, from: Adoption, now: Adoption) {
    NamesAccounted(hcById, done, from.byName, now.byName)
    && (Apart(hcById) ==> AllMappedByConfig(hcById, from.byName, from.next, now.byName, now.hcToReg))
  }

  ghost predicate Adopting(hcById: map<Id, ScopeDef>, done: set<Id>, from: Adoption, now: Adoption) {
    ClosedNames(now.byId, now.byName) && Issued(now.byId, now.next) && FIRST_ID <= from.next <= now.next
    && NamesExtend(from.byName, from.next, now.byName)
    && ScopesExtend(hcById, from.byId, from.next, now.byId)
    && now.hcToReg.Keys == done
    && AllMapped(hcById, from.byName, from.next, now)
    && AdoptingInOrder(hcById, done, from, now)
  }

  lemma {:induction false} FirstResolvedAlike(a: map<string, Id>, b: map<string, Id>, names: seq<string>)
    requires forall i :: 0 <= i < |names| ==> IdOf(a, names[i]) == IdOf(b, names[i])
    ensures FirstResolved(a, names) == FirstResolved(b, names)
  {
    hide IdOf;
    if names != [] {
      assert forall i :: 0 <= i < |names[1..]| ==> names[1..][i] == names[i + 1];
      FirstResolvedAlike(a, b, names[1..]);
    }
  }

  // A scope still to be adopted resolves as it does in config.
  lemma UnadoptedResolvesAlike(hcById: map<Id, ScopeDef>, done: set<Id>, config: map<string, Id>, limit: Id,
                               byName: map<string, Id>, hid: Id)
    requires Apart(hcById) && NamesAccounted(hcById, done, config, byName) && NamesExtend(config, limit, byName)
    requires hid in hcById && hid !in done
    ensures FirstResolved(byName, Names(hcById[hid])) == FirstResolved(config, Names(hcById[hid]))
  {
    hide IdOf, FirstResolved, Trim, Lower, Reserved, KeysOf;
    var names := Names(hcById[hid]);
    forall i | 0 <= i < |names| ensures IdOf(byName, names[i]) == IdOf(config, names[i]) {
      IdOfIsMeaning(byName, names[i]);
      IdOfIsMeaning(config, names[i]);
      TrimLower(names[i]);
      var key := Lower(names[i]);
      SpellingIsKey(names, i);
      assert KeepsAt(config, byName, key);
      assert key in byName ==> key in config || SpelledBy(hcById, done, config, key);
    }
    FirstResolvedAlike(byName, config, names);
  }

  lemma SpellingIsKey(names: seq<string>, i: nat)
    requires i < |names|
    ensures Lower(names[i]) in KeysOf(names)
  {
  }

  lemma CopyAccounted(hcById: map<Id, ScopeDef>, done: set<Id>, config: map<string, Id>, byName: map<string, Id>,
                      hid: Id, id: Id)
    requires hid in hcById && NamesAccounted(hcById, done, config, byName)
    requires FirstResolved(config, Names(hcById[hid])).None?
    ensures NamesAccounted(hcById, done + {hid}, config, WithNames(byName, Names(hcById[hid]), id))
  {
    hide KeysOf;
    var now, also := WithNames(byName, Names(hcById[hid]), id), done + {hid};
    forall key | key in now && key !in config ensures SpelledBy(hcById, also, config, key) {
      if key in byName {
        assert SpelledBy(hcById, done, config, key);
      } else {
        assert key in KeysOf(Names(hcById[hid]));
      }
    }
  }

  lemma OneMoreMapped(hcById: map<Id, ScopeDef>, config: map<string, Id>, limit: Id, byName: map<string, Id>,
                      byName2: map<string, Id>, hcToReg: map<Id, Id>, hid: Id, id: Id)
    requires AllMappedByConfig(hcById, config, limit, byName, hcToReg)
    requires LowerKeys(byName) && LowerKeys(byName2) && KeepsNames(byName, byName2)
    requires hid in hcById && MappedByConfig(hcById[hid], config, limit, byName2, id)
    ensures AllMappedByConfig(hcById, config, limit, byName2, hcToReg[hid := id])
  {
    hide IdOf, KeepsNames, LowerKeys, FirstResolved, Names;
    forall h | h in hcToReg ensures MappedByConfig(hcById[h], config, limit, byName2, hcToReg[h]) {
      var names := Names(hcById[h]);
      if FirstResolved(config, names).None? {
        forall i | 0 <= i < |names| ensures IdOf(byName2, names[i]) == Some(hcToReg[h]) {
          KeptNamesResolveAlike(byName, byName2, names[i]);
        }
      }
    }
  }

  lemma UnresolvedInConfig(config: map<string, Id>, limit: Id, byName: map<string, Id>, names: seq<string>)
    requires NamesExtend(config, limit, byName) && FirstResolved(byName, names).None?
    ensures FirstResolved(config, names).None?
  {
    hide IdOf, KeepsNames, LowerKeys, NamesKeptOrFresh;
    forall i | 0 <= i < |names| ensures IdOf(config, names[i]).None? {
      if IdOf(config, names[i]).Some? {
        KeptNamesResolveAlike(config, byName, names[i]);
      }
    }
  }

  lemma CopyIsNamed(byName: map<string, Id>, def: ScopeDef, id: Id)
    requires LowerKeys(byName) && CleanNames(def) && FirstResolved(byName, Names(def)).None?
    ensures AllNamed(WithNames(byName, Names(def), id), Names(def), id)
  {
    hide LowerKeys, WithNames, KeepsNames, FirstResolved, Reserved, Trim;
    var names := Names(def);
    UnresolvedNamesAreNew(byName, names, id);
    forall i | 0 <= i < |names| ensures IdOf(WithNames(byName, names, id), names[i]) == Some(id) {
      assert Trim(names[i]) == names[i] && IdOf(byName, names[i]).None?;
      InsertedNamesResolve(byName, names, id, i);
    }
  }

  lemma AdoptsFreshInOrder(hcById: map<Id, ScopeDef>, done: set<Id>, from: Adoption, now: Adoption, hid: Id)
    requires AdoptingInOrder(hcById, done, from, now) && NamesExtend(from.byName, from.next, now.byName)
    requires from.next <= now.next && hid in hcById && hid !in done
    requires FirstResolved(now.byName, Names(hcById[hid])).None?
    ensures AdoptingInOrder(hcById, done + {hid}, from, WithCopy(now, hid, hcById[hid]))
  {
    hide FirstResolved, WithNames, Names, NamesAccounted, AllMappedByConfig, AllNamed, KeepsNames, LowerKeys,
         NamesKeptOrFresh, CleanNames;
    var names := Names(hcById[hid]);
    UnresolvedInConfig(from.byName, from.next, now.byName, names);
    CopyAccounted(hcById, done, from.byName, now.byName, hid, now.next);
    if Apart(hcById) {
      UnresolvedNamesAreNew(now.byName, names, now.next);
      CopyIsNamed(now.byName, hcById[hid], now.next);
      OneMoreMapped(hcById, from.byName, from.next, now.byName, WithNames(now.byName, names, now.next), now.hcToReg,
                    hid, now.next);
    }
  }

  lemma AdoptsExistingInOrder(hcById: map<Id, ScopeDef>, done: set<Id>, from: Adoption, now: Adoption, hid: Id, id: Id)
    requires AdoptingInOrder(hcById, done, from, now) && NamesExtend(from.byName, from.next, now.byName)
    requires hid in hcById && hid !in done && FirstResolved(now.byName, Names(hcById[hid])) == Some(id)
    ensures AdoptingInOrder(hcById, done + {hid}, from, now.(hcToReg := now.hcToReg[hid := id]))
  {
    hide FirstResolved, Names, Apart, NamesAccounted, AllMappedByConfig, KeepsNames, LowerKeys, NamesKeptOrFresh;
    AccountedStays(hcById, done, from.byName, now.byName, hid);
    if Apart(hcById) {
      UnadoptedResolvesAlike(hcById, done, from.byName, from.next, now.byName, hid);
      KeepsItself(now.byName);
      OneMoreMapped(hcById, from.byName, from.next, now.byName, now.byName, now.hcToReg, hid, id);
    }
  }

  lemma KeepsItself(byName: map<string, Id>)
    ensures KeepsNames(byName, byName)
  {
  }

  lemma AccountedStays(hcById: map<Id, ScopeDef>, done: set<Id>, config: map<string, Id>, byName: map<string, Id>,
                       hid: Id)
    requires NamesAccounted(hcById, done, config, byName)
    ensures NamesAccounted(hcById, done + {hid}, config, byName)
  {
    hide KeysOf;
    var also := done + {hid};
    forall key | key in byName && key !in config ensures SpelledBy(hcById, also, config, key) {
      assert SpelledBy(hcById, done, config, key);
    }
  }

  lemma StaysMapped(def: ScopeDef, config: map<string, Id>, limit: Id, byId: map<Id, ScopeDef>, byName: map<string, Id>,
                    byId2: map<Id, ScopeDef>, byName2: map<string, Id>, id: Id)
    requires Mapped(def, config, limit, byId, byName, id) && byId.Keys <= byId2.Keys
    requires LowerKeys(byName) && LowerKeys(byName2) && KeepsNames(byName, byName2)
    ensures Mapped(def, config, limit, byId2, byName2, id)
  {
    hide IdOf, KeepsNames, LowerKeys;
    if CleanNames(def) {
      var i :| 0 <= i < |Names(def)| && IdOf(byName, Names(def)[i]) == Some(id);
      KeptNamesResolveAlike(byName, byName2, Names(def)[i]);
    }
  }

  lemma KeepsChain(a: map<string, Id>, b: map<string, Id>, c: map<string, Id>)
    requires KeepsNames(a, b) && KeepsNames(b, c)
    ensures KeepsNames(a, c)
  {
    forall key ensures KeepsAt(a, c, key) {
      assert KeepsAt(a, b, key) && KeepsAt(b, c, key);
    }
  }

  // An id below the limit can only have come from config.
  lemma OldIdsComeFromConfig(config: map<string, Id>, limit: Id, byName: map<string, Id>, name: string)
    requires NamesExtend(config, limit, byName) && FIRST_ID <= limit
    requires IdOf(byName, name).Some? && IdOf(byName, name).value < limit
    ensures IdOf(config, name) == IdOf(byName, name)
  {
    hide Trim, Lower, Reserved;
    IdOfIsMeaning(config, name);
    IdOfIsMeaning(byName, name);
    assert NameKeptOrFresh(config, limit, byName, Lower(Trim(name)));
  }

  lemma FreshNamesExtend(config: map<string, Id>, limit: Id, byName: map<string, Id>, names: seq<string>, id: Id)
    requires NamesExtend(config, limit, byName) && limit <= id && FirstResolved(byName, names).None?
    ensures NamesExtend(config, limit, WithNames(byName, names, id))
    ensures KeepsNames(byName, WithNames(byName, names, id))
  {
    hide KeepsNames, LowerKeys, FirstResolved;
    UnresolvedNamesAreNew(byName, names, id);
    KeepsChain(config, byName, WithNames(byName, names, id));
    var now := WithNames(byName, names, id);
    forall key ensures NameKeptOrFresh(config, limit, now, key) {
      assert NameKeptOrFresh(config, limit, byName, key);
    }
  }

  // The tables after copying `def` in under the next id.
  ghost function WithCopy(now: Adoption, hid: Id, def: ScopeDef): Adoption {
    Adoption(now.byId[now.next := def.(parents := [])], WithNames(now.byName, Names(def), now.next), now.next + 1,
             now.hcToReg[hid := now.next])
  }

  lemma OneFewer(all: set<Id>, todo: set<Id>, hid: Id)
    requires hid in todo && todo <= all
    ensures all - (todo - {hid}) == all - todo + {hid}
  {
  }

  // A scope none of whose names resolves gets a fresh id.
  lemma AdoptsFresh(hcById: map<Id, ScopeDef>, done: set<Id>, from: Adoption, now: Adoption, hid: Id)
    requires Adopting(hcById, done, from, now)
    requires hid in hcById && hid !in done && FirstResolved(now.byName, Names(hcById[hid])).None?
    ensures Adopting(hcById, done + {hid}, from, WithCopy(now, hid, hcById[hid]))
  {
    hide Mapped, KeepsNames, LowerKeys, IdOf, WithNames, FirstResolved, NamesKeptOrFresh, AdoptingInOrder;
    AdoptsFreshInOrder(hcById, done, from, now, hid);
    var def, id := hcById[hid], now.next;
    var byId2, byName2 := now.byId[id := def.(parents := [])], WithNames(now.byName, Names(def), id);
    FreshNamesExtend(from.byName, from.next, now.byName, Names(def), id);
    NamedAfterInput(now.byId, now.byName, byId2, Names(def), id);
    FreshIsMapped(def, from.byName, from.next, now.byName, byId2, id);
    forall h | h in now.hcToReg ensures Mapped(hcById[h], from.byName, from.next, byId2, byName2, now.hcToReg[h]) {
      StaysMapped(hcById[h], from.byName, from.next, now.byId, now.byName, byId2, byName2, now.hcToReg[h]);
    }
    assert CopyOf(hcById, hid, byId2[id]);
  }

  lemma FreshIsMapped(def: ScopeDef, config: map<string, Id>, limit: Id, byName: map<string, Id>,
                      byId: map<Id, ScopeDef>, id: Id)
    requires NamesExtend(config, limit, byName) && limit <= id && id in byId
    requires FirstResolved(byName, Names(def)).None? && LowerKeys(WithNames(byName, Names(def), id))
    ensures Mapped(def, config, limit, byId, WithNames(byName, Names(def), id), id)
  {
    hide LowerKeys, WithNames, KeepsNames, NamesKeptOrFresh;
    assert Names(def)[0] == def.name && IdOf(byName, Names(def)[0]).None?;
    if IdOf(config, def.name).Some? {
      KeptNamesResolveAlike(config, byName, def.name);
    }
    if CleanNames(def) {
      assert Trim(Names(def)[0]) == Names(def)[0];
      InsertedNamesResolve(byName, Names(def), id, 0);
    }
  }

  lemma AdoptsExisting(hcById: map<Id, ScopeDef>, done: set<Id>, from: Adoption, now: Adoption, hid: Id, id: Id)
    requires Adopting(hcById, done, from, now)
    requires hid in hcById && hid !in done && FirstResolved(now.byName, Names(hcById[hid])) == Some(id)
    ensures Adopting(hcById, done + {hid}, from, now.(hcToReg := now.hcToReg[hid := id]))
  {
    hide Mapped, KeepsNames, LowerKeys, IdOf, NamesKeptOrFresh, FirstResolved, AdoptingInOrder;
    AdoptsExistingInOrder(hcById, done, from, now, hid, id);
    ExistingIsMapped(hcById[hid], from.byName, from.next, now.byId, now.byName, id);
  }

  lemma ExistingIsMapped(def: ScopeDef, config: map<string, Id>, limit: Id, byId: map<Id, ScopeDef>,
                         byName: map<string, Id>, id: Id)
    requires NamesExtend(config, limit, byName) && ClosedNames(byId, byName) && FIRST_ID <= limit
    requires FirstResolved(byName, Names(def)) == Some(id)
    ensures Mapped(def, config, limit, byId, byName, id)
  {
    hide KeepsNames, LowerKeys, IdOf, NamesKeptOrFresh;
    var names := Names(def);
    var i :| 0 <= i < |names| && IdOf(byName, names[i]) == Some(id);
    ResolvedIsKnown(byId, byName, names[i]);
    assert NamedAs(byName, def, id);
    if IdOf(config, def.name).Some? {
      KeptNamesResolveAlike(config, byName, def.name);
      assert names[0] == def.name;
    }
    if id < limit {
      OldIdsComeFromConfig(config, limit, byName, names[i]);
      assert IdOf(config, names[i]) == Some(id);
    }
  }

  // Whether backfilling parents touches a scope: only one without parents, and
  // only when some hardcoded scope mapped to it has parents.
  ghost predicate Donates(hcById: map<Id, ScopeDef>, done: set<Id>, hcToReg: map<Id, Id>, hid: Id, id: Id) {
    hid in done && hid in hcById && hid in hcToReg && hcToReg[hid] == id && hcById[hid].parents != []
  }

  ghost predicate ParentsBackfilled(hcById: map<Id, ScopeDef>, done: set<Id>, hcToReg: map<Id, Id>, id: Id,
                                    before: ScopeDef, now: ScopeDef) {
    now.name == before.name && now.aliases == before.aliases
    && if before.parents != [] || !exists hid :: Donates(hcById, done, hcToReg, hid, id) then
         now.parents == before.parents
       else
         exists hid :: Donates(hcById, done, hcToReg, hid, id) && AllStandFor(hcToReg, hcById[hid].parents, now.parents)
  }

  ghost predicate BackfillingParents(hcById: map<Id, ScopeDef>, done: set<Id>, hcToReg: map<Id, Id>,
                                     before: map<Id, ScopeDef>, now: map<Id, ScopeDef>) {
    now.Keys == before.Keys
    && forall id :: id in now ==> ParentsBackfilled(hcById, done, hcToReg, id, before[id], now[id])
  }

  ghost predicate FirstWithPrefix(links: seq<PrefixLink>, i: nat) {
    i < |links| && forall j :: 0 <= j < i ==> links[j].prefix != links[i].prefix
  }

  ghost function PrefixSet(links: seq<PrefixLink>): set<string> {
    set i | 0 <= i < |links| :: links[i].prefix
  }

  predicate HasPrefix(links: seq<PrefixLink>, prefix: string)
    ensures HasPrefix(links, prefix) <==> prefix in PrefixSet(links)
  {
    exists i :: 0 <= i < |links| && links[i].prefix == prefix
  }

  // After the first n hardcoded entries: config's own in front, then the first
  // entry for every prefix config lacks.
  ghost predicate PrefixesBackfilled(hcToReg: map<Id, Id>, hc: seq<PrefixLink>, n: nat,
                                     before: seq<PrefixLink>, now: seq<PrefixLink>)
    requires n <= |hc|
  {
    before <= now
    && (forall i :: 0 <= i < n ==> HasPrefix(now, hc[i].prefix))
    && forall x :: |before| <= x < |now| ==> AdoptedFrom(hcToReg, hc, n, before, now[x])
  }

  ghost predicate AdoptedFrom(hcToReg: map<Id, Id>, hc: seq<PrefixLink>, n: nat, before: seq<PrefixLink>,
                              entry: PrefixLink) {
    !HasPrefix(before, entry.prefix) && exists i: nat :: i < n && AdoptedPrefix(hcToReg, hc, i, entry)
  }

  ghost predicate AdoptedPrefix(hcToReg: map<Id, Id>, hc: seq<PrefixLink>, i: nat, entry: PrefixLink) {
    FirstWithPrefix(hc, i) && entry.prefix == hc[i].prefix && FollowsHardcoded(hcToReg, hc[i].link, entry.link)
  }

  lemma PrefixCarries(before: seq<PrefixLink>, now: seq<PrefixLink>, prefix: string)
    requires before <= now
    ensures HasPrefix(before, prefix) ==> HasPrefix(now, prefix)
  {
  }

  lemma BackfillsPrefix(hcToReg: map<Id, Id>, hc: seq<PrefixLink>, n: nat, before: seq<PrefixLink>,
                        now: seq<PrefixLink>)
    requires n < |hc| && PrefixesBackfilled(hcToReg, hc, n, before, now)
    ensures PrefixesBackfilled(hcToReg, hc, n + 1, before,
              if HasPrefix(now, hc[n].prefix) then now
              else now + [PrefixLink(hc[n].prefix, RemapLink(hcToReg, hc[n].link))])
  {
    hide RemapLink, FollowsHardcoded;
    if !HasPrefix(now, hc[n].prefix) {
      var entry := PrefixLink(hc[n].prefix, RemapLink(hcToReg, hc[n].link));
      var next := now + [entry];
      forall i | 0 <= i < n + 1 ensures HasPrefix(next, hc[i].prefix) {
        if i < n {
          assert HasPrefix(now, hc[i].prefix);
          var x :| 0 <= x < |now| && now[x].prefix == hc[i].prefix;
          assert next[x].prefix == hc[i].prefix;
        } else {
          assert next[|now|].prefix == hc[i].prefix;
        }
      }
      forall j | 0 <= j < n ensures hc[j].prefix != hc[n].prefix {
        assert HasPrefix(now, hc[j].prefix);
      }
      assert AdoptedPrefix(hcToReg, hc, n, entry);
      PrefixCarries(before, now, entry.prefix);
      assert AdoptedFrom(hcToReg, hc, n + 1, before, entry);
      forall x | |before| <= x < |next| ensures AdoptedFrom(hcToReg, hc, n + 1, before, next[x]) {
        if x < |now| {
          assert AdoptedFrom(hcToReg, hc, n, before, now[x]);
        }
      }
    }
  }

  lemma AliasesAreFound(byId: map<Id, ScopeDef>, id: Id, found: seq<Alias>)
    requires id in byId && found == AliasesOf(id, Names(byId[id]))
    ensures forall a :: a in found <==> a.id == id && IsAlias(byId, a)
  {
    forall a ensures a in found <==> a.id == id && IsAlias(byId, a) {
      AliasesOfMembers(id, Names(byId[id]), a);
    }
  }

  function AliasesOf(id: Id, names: seq<string>): seq<Alias> {
    if names == [] then []
    else if Word(names[0]) then [Alias(Lower(names[0]), id)] + AliasesOf(id, names[1..])
    else AliasesOf(id, names[1..])
  }

  lemma {:induction false} AliasesOfMembers(id: Id, names: seq<string>, a: Alias)
    ensures a in AliasesOf(id, names)
       <==> a.id == id && exists i :: 0 <= i < |names| && Word(names[i]) && Lower(names[i]) == a.word
  {
    hide Word, Lower;
    if names != [] {
      var rest := names[1..];
      AliasesOfMembers(id, rest, a);
      if i :| 0 <= i < |names| && Word(names[i]) && Lower(names[i]) == a.word {
        if i > 0 {
          assert Word(rest[i - 1]) && Lower(rest[i - 1]) == a.word;
        }
      }
      if i :| 0 <= i < |rest| && Word(rest[i]) && Lower(rest[i]) == a.word {
        assert Word(names[i + 1]) && Lower(names[i + 1]) == a.word;
      }
    }
  }

  lemma AliasesHaveScopes(byId: map<Id, ScopeDef>)
    ensures forall a :: IsAlias(byId, a) ==> a.id in byId
  {
  }

  lemma NothingSynthesized(byId: map<Id, ScopeDef>, links: map<string, Link>)
    ensures forall key :: SynthesizedAt(byId, links, links, key)
  {
  }

  lemma SynthesizesOne(byId: map<Id, ScopeDef>, before: map<string, Link>, links: map<string, Link>,
                       alias: Alias, k: nat, key: string)
    requires forall other :: SynthesizedAt(byId, before, links, other)
    requires IteratorFor(byId, alias, k, key) && key !in links
    ensures var now := links[key := IteratorLink(alias.id)]; forall other :: SynthesizedAt(byId, before, now, other)
  {
    hide IteratorFor;
    var now := links[key := IteratorLink(alias.id)];
    assert SynthesizedAt(byId, before, links, key);
    forall other ensures SynthesizedAt(byId, before, now, other) {
      assert SynthesizedAt(byId, before, links, other);
    }
  }

  lemma SynthesizedIsClosed(byId: map<Id, ScopeDef>, before: map<string, Link>, links: map<string, Link>)
    requires forall key :: SynthesizedAt(byId, before, links, key)
    ensures ClosedLinks(byId, before) ==> ClosedLinks(byId, links)
  {
    hide IsAlias;
    AliasesHaveScopes(byId);
    forall key | key in links && ClosedLinks(byId, before) ensures ClosedLink(byId, links[key]) {
      assert SynthesizedAt(byId, before, links, key);
      if key !in before {
        var alias, k :| IteratorFor(byId, alias, k, key) && links[key].target == Some(alias.id);
      }
    }
  }

  lemma AdoptedKeys(hcById: map<Id, ScopeDef>, done: set<Id>, from: Adoption, now: Adoption)
    requires Adopting(hcById, done, from, now)
    ensures now.hcToReg.Keys == done
  {
  }

  lemma NothingAdopted(hcById: map<Id, ScopeDef>, from: Adoption)
    requires WellNamed(from.byId, from.byName) && Issued(from.byId, from.next) && from.hcToReg == map[]
    ensures Adopting(hcById, {}, from, from)
  {
  }

  lemma NoParentsBackfilled(hcById: map<Id, ScopeDef>, hcToReg: map<Id, Id>, byId: map<Id, ScopeDef>)
    ensures BackfillingParents(hcById, {}, hcToReg, byId, byId)
  {
  }

  lemma BackfillsParentsOf(hcById: map<Id, ScopeDef>, done: set<Id>, hcToReg: map<Id, Id>, id: Id,
                           before: ScopeDef, now: ScopeDef, hid: Id)
    requires hid in hcById && hid in hcToReg && ParentsBackfilled(hcById, done, hcToReg, id, before, now)
    ensures ParentsBackfilled(hcById, done + {hid}, hcToReg, id, before,
              if hcToReg[hid] == id && hcById[hid].parents != [] && now.parents == [] then
                now.(parents := RemapAll(hcToReg, hcById[hid].parents))
              else now)
  {
    hide RemapAll, AllStandFor;
    if h :| Donates(hcById, done, hcToReg, h, id) && before.parents == []
            && AllStandFor(hcToReg, hcById[h].parents, now.parents) {
      assert Donates(hcById, done + {hid}, hcToReg, h, id);
    }
    if hcToReg[hid] == id && hcById[hid].parents != [] {
      assert Donates(hcById, done + {hid}, hcToReg, hid, id);
    }
    forall h | Donates(hcById, done + {hid}, hcToReg, h, id) && h != hid ensures Donates(hcById, done, hcToReg, h, id) {
    }
  }

  lemma BackfillsParents(hcById: map<Id, ScopeDef>, done: set<Id>, hcToReg: map<Id, Id>,
                         before: map<Id, ScopeDef>, now: map<Id, ScopeDef>, hid: Id)
    requires BackfillingParents(hcById, done, hcToReg, before, now) && hid in hcById && hid in hcToReg
    ensures var rid := hcToReg[hid];
            BackfillingParents(hcById, done + {hid}, hcToReg, before,
              if hcById[hid].parents != [] && rid in now && now[rid].parents == [] then
                now[rid := now[rid].(parents := RemapAll(hcToReg, hcById[hid].parents))]
              else now)
  {
    hide ParentsBackfilled, RemapAll;
    forall id | id in now {
      BackfillsParentsOf(hcById, done, hcToReg, id, before[id], now[id], hid);
    }
  }

  // ---- What building promises --------------------------------------------------------

  ghost predicate ConfigLinks(inputs: seq<LinkInput>, config: Registry, given: map<string, Link>) {
    LinksFromInputs(inputs, |inputs|, config.byName, given) && Synthesized(config.byId, given, config.links)
    && PrefixesFromInputs(inputs, |inputs|, config.byName, config.prefixLinks)
  }

  // The tables config alone gives.
  ghost predicate BuiltFrom(scopes: seq<ScopeInput>, linkInputs: seq<LinkInput>, config: Registry) {
    NamesFromInputs(scopes, |scopes|, config.byName) && DefsFromInputs(scopes, |scopes|, config.byId)
    && ParentsFromInputs(scopes, |scopes|, config.byName, config.byId)
    && exists given :: ConfigLinks(linkInputs, config, given)
  }

  ghost predicate BackfilledScopes(hc: Registry, nextId: Id, hcToReg: map<Id, Id>, config: Registry,
                                   adopted: map<Id, ScopeDef>, now: Registry, next: Id) {
    Adopting(hc.byId, hc.byId.Keys, Adoption(config.byId, config.byName, nextId, map[]),
             Adoption(adopted, now.byName, next, hcToReg))
    && BackfillingParents(hc.byId, hc.byId.Keys, hcToReg, adopted, now.byId)
  }

  // The tables after the hardcoded ones filled the gaps.
  ghost predicate Backfilled(hc: Registry, nextId: Id, hcToReg: map<Id, Id>, config: Registry, now: Registry) {
    if hc.byId == map[] then now == config
    else
      (exists adopted, next :: BackfilledScopes(hc, nextId, hcToReg, config, adopted, now, next))
      && LinksBackfilled(hcToReg, hc.links, config.links, now.links)
      && PrefixesBackfilled(hcToReg, hc.prefixLinks, |hc.prefixLinks|, config.prefixLinks, now.prefixLinks)
  }

  lemma DefsKeepTheirNames(inputs: seq<ScopeInput>, declared: map<Id, ScopeDef>, byId: map<Id, ScopeDef>)
    requires DefsFromInputs(inputs, |inputs|, declared) && byId.Keys == declared.Keys
    requires forall id :: id in byId ==> byId[id].name == declared[id].name && byId[id].aliases == declared[id].aliases
    ensures DefsFromInputs(inputs, |inputs|, byId)
  {
    hide DefinedBy;
    var n := |inputs|;
    forall id ensures DefAt(inputs, n, byId, id) {
      assert DefAt(inputs, n, declared, id);
    }
  }

  // ---- The walk over parents ---------------------------------------------------------

  // All the walk can ever visit.
  function Universe(byId: map<Id, ScopeDef>, current: Id): set<Id> {
    {current} + set a, b | a in byId && b in byId[a].parents :: b
  }

  function ParentsOf(byId: map<Id, ScopeDef>, id: Id): seq<Id> {
    if id in byId then byId[id].parents else []
  }

  // Everything stacked is reachable; what was seen is not the target, and its
  // parents were seen or wait on the stack.
  ghost predicate Walking(byId: map<Id, ScopeDef>, current: Id, target: Id, stack: seq<Id>, seen: seq<Id>) {
    Elements(seen) <= Universe(byId, current) && target !in seen
    && (forall x :: x in stack ==> x in Universe(byId, current) && Reaches(byId, current, x))
    && (current in seen || current in stack)
    && forall a, b :: a in seen && Edge(byId, a, b) ==> b in seen || b in stack
  }

  lemma StartsWalk(byId: map<Id, ScopeDef>, current: Id, target: Id)
    ensures Walking(byId, current, target, [current], [])
  {
    ReachesSelf(byId, current);
  }

  lemma StackedIsReachable(byId: map<Id, ScopeDef>, current: Id, target: Id, stack: seq<Id>, seen: seq<Id>, i: nat)
    requires Walking(byId, current, target, stack, seen) && i < |stack|
    ensures Reaches(byId, current, stack[i])
  {
  }

  lemma SkipsSeen(byId: map<Id, ScopeDef>, current: Id, target: Id, rest: seq<Id>, c: Id, seen: seq<Id>)
    requires Walking(byId, current, target, rest + [c], seen) && c in seen
    ensures Walking(byId, current, target, rest, seen)
  {
  }

  lemma VisitsNew(byId: map<Id, ScopeDef>, current: Id, target: Id, rest: seq<Id>, c: Id, seen: seq<Id>)
    requires Walking(byId, current, target, rest + [c], seen) && c !in seen && c != target
    ensures Walking(byId, current, target, rest + ParentsOf(byId, c), seen + [c])
    ensures |Universe(byId, current) - Elements(seen + [c])| < |Universe(byId, current) - Elements(seen)|
  {
    hide Reaches, Universe, Edge, Elements;
    StacksParents(byId, current, rest, c);
    KeepsFrontier(byId, rest, c, seen);
    assert c in rest + [c];
    OneLess(Universe(byId, current), seen, c);
  }

  lemma KeepsFrontier(byId: map<Id, ScopeDef>, rest: seq<Id>, c: Id, seen: seq<Id>)
    requires forall a, b :: a in seen && Edge(byId, a, b) ==> b in seen || b in rest + [c]
    ensures forall a, b :: a in seen + [c] && Edge(byId, a, b) ==> b in seen + [c] || b in rest + ParentsOf(byId, c)
  {
  }

  lemma OneLess(universe: set<Id>, seen: seq<Id>, c: Id)
    requires c in universe && c !in seen
    ensures |universe - Elements(seen + [c])| < |universe - Elements(seen)|
    ensures Elements(seen) <= universe ==> Elements(seen + [c]) <= universe
  {
    assert Elements(seen + [c]) == Elements(seen) + {c};
    assert universe - Elements(seen + [c]) == universe - Elements(seen) - {c};
  }

  lemma StacksParents(byId: map<Id, ScopeDef>, current: Id, rest: seq<Id>, c: Id)
    requires forall x :: x in rest + [c] ==> x in Universe(byId, current) && Reaches(byId, current, x)
    ensures forall x :: x in rest + ParentsOf(byId, c) ==> x in Universe(byId, current) && Reaches(byId, current, x)
  {
    hide Reaches;
    assert c in rest + [c];
    forall x | x in rest + ParentsOf(byId, c) ensures x in Universe(byId, current) && Reaches(byId, current, x) {
      if x in ParentsOf(byId, c) {
        ReachesOn(byId, current, c, x);
      } else {
        assert x in rest + [c];
      }
    }
  }

  lemma WalkExhausted(byId: map<Id, ScopeDef>, current: Id, target: Id, seen: seq<Id>)
    requires Walking(byId, current, target, [], seen)
    ensures !Reaches(byId, current, target)
  {
    if path :| Joins(byId, path, current, target) {
      ClosedSetHoldsReachable(byId, Elements(seen), path);
    }
  }

  // ---- Backfill is conservative and closed -------------------------------------------

  // Every name config resolved keeps its id.
  lemma ConfigNamesKept(hc: Registry, nextId: Id, hcToReg: map<Id, Id>, config: Registry, now: Registry, name: string)
    requires Backfilled(hc, nextId, hcToReg, config, now) && LowerKeys(config.byName)
    requires IdOf(config.byName, name).Some?
    ensures IdOf(now.byName, name) == IdOf(config.byName, name)
  {
    hide IdOf, AllMapped, ScopesExtend, BackfillingParents, PrefixesBackfilled;
    if hc.byId != map[] {
      KeptNamesResolveAlike(config.byName, now.byName, name);
    }
  }

  // Every link config defined is unchanged, by name and by prefix alike.
  lemma ConfigLinksKept(hc: Registry, nextId: Id, hcToReg: map<Id, Id>, config: Registry, now: Registry, key: string)
    requires Backfilled(hc, nextId, hcToReg, config, now)
    ensures key in config.links ==> key in now.links && now.links[key] == config.links[key]
    ensures config.prefixLinks <= now.prefixLinks
    ensures hc.byId != map[] ==> hc.links.Keys <= now.links.Keys
  {
  }

  // A config scope's definition changes exactly when config gave it no parents
  // and some hardcoded scope mapped to it has some.
  lemma ParentsChangeExactlyWhenDonated(hc: Registry, nextId: Id, hcToReg: map<Id, Id>, config: Registry,
                                        now: Registry, id: Id)
    requires Backfilled(hc, nextId, hcToReg, config, now) && id in config.byId
    ensures id in now.byId
    ensures now.byId[id] != config.byId[id] <==>
            config.byId[id].parents == [] && exists hid :: Donates(hc.byId, hc.byId.Keys, hcToReg, hid, id)
  {
  }

  // The config scope that hardcoded scope `hid` stands for, when it has parents to give.
  ghost predicate GivesParents(hcById: map<Id, ScopeDef>, config: map<string, Id>, hid: Id, id: Id) {
    hid in hcById && hcById[hid].parents != [] && FirstResolved(config, Names(hcById[hid])) == Some(id)
  }

  lemma DonatesExactlyWhenNamed(hc: Registry, nextId: Id, hcToReg: map<Id, Id>, config: Registry, now: Registry,
                                hid: Id, id: Id)
    requires Backfilled(hc, nextId, hcToReg, config, now) && Issued(config.byId, nextId) && Apart(hc.byId)
    requires id in config.byId
    ensures Donates(hc.byId, hc.byId.Keys, hcToReg, hid, id) <==> GivesParents(hc.byId, config.byName, hid, id)
  {
    hide Apart, IdOf, Names, NamesExtend, ScopesExtend, AllMapped, BackfillingParents, PrefixesBackfilled,
         FirstResolved;
    if hid in hc.byId {
      var adopted, next :| BackfilledScopes(hc, nextId, hcToReg, config, adopted, now, next);
      assert MappedByConfig(hc.byId[hid], config.byName, nextId, now.byName, hcToReg[hid]);
    }
  }

  // What a caller can check beforehand: a config scope's definition changes
  // exactly when config gave it no parents and it is what the first spelling that
  // config resolves means, of some hardcoded scope that has parents. Where two
  // hardcoded scopes shared a spelling it would depend on the order of adoption.
  lemma ParentsChangeExactlyForNamesakes(hc: Registry, nextId: Id, hcToReg: map<Id, Id>, config: Registry,
                                         now: Registry, id: Id)
    requires Backfilled(hc, nextId, hcToReg, config, now) && Issued(config.byId, nextId) && Apart(hc.byId)
    requires id in config.byId
    ensures id in now.byId
    ensures now.byId[id] != config.byId[id] <==>
            config.byId[id].parents == [] && exists hid :: GivesParents(hc.byId, config.byName, hid, id)
  {
    hide Apart, Backfilled, GivesParents, Donates;
    ParentsChangeExactlyWhenDonated(hc, nextId, hcToReg, config, now, id);
    forall hid
      ensures Donates(hc.byId, hc.byId.Keys, hcToReg, hid, id) <==> GivesParents(hc.byId, config.byName, hid, id)
    {
      DonatesExactlyWhenNamed(hc, nextId, hcToReg, config, now, hid, id);
    }
  }

  // On any tables: a hardcoded scope donates to the config
  // scope that its own name means, and to no scope that config calls otherwise.
  lemma DonorsAreNamesakes(hc: Registry, nextId: Id, hcToReg: map<Id, Id>, config: Registry, now: Registry,
                           hid: Id, id: Id)
    requires Backfilled(hc, nextId, hcToReg, config, now) && Issued(config.byId, nextId)
    requires id in config.byId && hid in hc.byId && hc.byId[hid].parents != []
    ensures IdOf(config.byName, hc.byId[hid].name) == Some(id) ==> Donates(hc.byId, hc.byId.Keys, hcToReg, hid, id)
    ensures Donates(hc.byId, hc.byId.Keys, hcToReg, hid, id) ==> NamedAs(config.byName, hc.byId[hid], id)
  {
    hide IdOf, NamesExtend, ScopesExtend, BackfillingParents, PrefixesBackfilled, NamedAs;
    var adopted, next :| BackfilledScopes(hc, nextId, hcToReg, config, adopted, now, next);
    assert Mapped(hc.byId[hid], config.byName, nextId, adopted, now.byName, hcToReg[hid]);
  }

  // No hardcoded scope is left unresolvable.
  lemma HardcodedScopesResolve(hc: Registry, nextId: Id, hcToReg: map<Id, Id>, config: Registry, now: Registry, hid: Id)
    requires Backfilled(hc, nextId, hcToReg, config, now) && hid in hc.byId && CleanNames(hc.byId[hid])
    ensures hid in hcToReg && NamedAs(now.byName, hc.byId[hid], hcToReg[hid]) && Known(now.byId, hcToReg[hid])
  {
    hide IdOf, NamesExtend, ScopesExtend, PrefixesBackfilled, NamedAs, ParentsBackfilled;
    var adopted, next :| BackfilledScopes(hc, nextId, hcToReg, config, adopted, now, next);
    assert Mapped(hc.byId[hid], config.byName, nextId, adopted, now.byName, hcToReg[hid]);
  }

  // ---- What links lead to ----------------------------------------------------------------

  // A hardcoded scope's own name means the scope it is mapped to exactly when
  // config resolves that name, or none of its spellings: where config has the
  // scope under another spelling alone, the hardcoded name is never inserted.
  lemma HardcodedNameMeansItExactly(hc: Registry, nextId: Id, hcToReg: map<Id, Id>, config: Registry, now: Registry,
                                    hid: Id)
    requires Backfilled(hc, nextId, hcToReg, config, now) && Apart(hc.byId) && hid in hc.byId
    ensures hid in hcToReg
    ensures IdOf(now.byName, hc.byId[hid].name) == Some(hcToReg[hid]) <==>
            IdOf(config.byName, hc.byId[hid].name).Some?
            || forall i :: 0 <= i < |Names(hc.byId[hid])| ==> IdOf(config.byName, Names(hc.byId[hid])[i]).None?
  {
    hide IdOf, KeepsNames, LowerKeys, NamesKeptOrFresh, ScopesExtend, AllMapped, BackfillingParents,
         PrefixesBackfilled, LinksBackfilled, FirstResolved, NamesAccounted, Apart;
    var def, names := hc.byId[hid], Names(hc.byId[hid]);
    var adopted, next :| BackfilledScopes(hc, nextId, hcToReg, config, adopted, now, next);
    assert MappedByConfig(def, config.byName, nextId, now.byName, hcToReg[hid]);
    if IdOf(config.byName, def.name).Some? {
      FirstResolvedIsFirst(config.byName, names, 0);
      KeptNamesResolveAlike(config.byName, now.byName, def.name);
    } else if FirstResolved(config.byName, names).Some? {
      NameNotInserted(hc.byId, hc.byId.Keys, config.byName, nextId, now.byName, hid);
    }
  }

  lemma NameNotInserted(hcById: map<Id, ScopeDef>, done: set<Id>, config: map<string, Id>, limit: Id,
                        byName: map<string, Id>, hid: Id)
    requires Apart(hcById) && NamesAccounted(hcById, done, config, byName) && NamesExtend(config, limit, byName)
    requires hid in hcById && IdOf(config, hcById[hid].name).None? && FirstResolved(config, Names(hcById[hid])).Some?
    ensures IdOf(byName, hcById[hid].name).None?
  {
    hide IdOf, FirstResolved, Trim, Lower, Reserved, KeysOf, KeepsNames;
    var name, names := hcById[hid].name, Names(hcById[hid]);
    assert Trim(names[0]) == names[0];
    IdOfIsMeaning(byName, name);
    IdOfIsMeaning(config, name);
    SpellingIsKey(names, 0);
    if Lower(name) in byName {
      assert SpelledBy(hcById, done, config, Lower(name));
      var other :| other in done && other in hcById && Lower(name) in KeysOf(Names(hcById[other]))
                   && FirstResolved(config, Names(hcById[other])).None?;
    }
  }

  // A hardcoded link that config does not replace leads to what a spelling of its
  // target scope means, its name wherever the above holds.
  lemma HardcodedLinkLeadsOn(hc: Registry, nextId: Id, hcToReg: map<Id, Id>, config: Registry, now: Registry,
                             key: string, hid: Id)
    requires Backfilled(hc, nextId, hcToReg, config, now) && key in hc.links && key !in config.links
    requires hc.links[key].target == Some(hid) && !Sentinel(hid) && hid in hc.byId && CleanNames(hc.byId[hid])
    ensures key in now.links && now.links[key].target.Some?
    ensures NamedAs(now.byName, hc.byId[hid], now.links[key].target.value)
    ensures Apart(hc.byId) && (IdOf(config.byName, hc.byId[hid].name).Some?
              || forall i :: 0 <= i < |Names(hc.byId[hid])| ==> IdOf(config.byName, Names(hc.byId[hid])[i]).None?) ==>
              IdOf(now.byName, hc.byId[hid].name) == now.links[key].target
  {
    hide IdOf, Apart, BackfilledScopes, PrefixesBackfilled, NamedAs, CleanNames, Names;
    HardcodedScopesResolve(hc, nextId, hcToReg, config, now, hid);
    if Apart(hc.byId) {
      HardcodedNameMeansItExactly(hc, nextId, hcToReg, config, now, hid);
    }
  }

  // A config link ends as the last link input of its name says, and what it leads
  // to its output name still means afterwards.
  lemma ConfigLinkLeadsOn(scopes: seq<ScopeInput>, linkInputs: seq<LinkInput>, hc: Registry, nextId: Id,
                          hcToReg: map<Id, Id>, config: Registry, now: Registry, key: string, i: nat)
    requires BuiltFrom(scopes, linkInputs, config) && LowerKeys(config.byName)
    requires Backfilled(hc, nextId, hcToReg, config, now)
    requires i < |linkInputs| && LastLink(linkInputs, |linkInputs|, key, i)
    ensures key in now.links && FollowsInput(config.byName, linkInputs[i], now.links[key])
    ensures now.links[key].target.Some? ==>
              linkInputs[i].outputScope.Some?
              && IdOf(now.byName, linkInputs[i].outputScope.value) == now.links[key].target
  {
    hide IdOf, LowerKeys, Backfilled, LastLink, NamesFromInputs, DefsFromInputs, ParentsFromInputs, PrefixesFromInputs,
         NamesLink;
    var given :| ConfigLinks(linkInputs, config, given);
    var n := |linkInputs|;
    assert LinkAt(linkInputs, n, config.byName, given, key);
    assert SynthesizedAt(config.byId, given, config.links, key);
    ConfigLinksKept(hc, nextId, hcToReg, config, now, key);
    if now.links[key].target.Some? {
      ConfigNamesKept(hc, nextId, hcToReg, config, now, linkInputs[i].outputScope.value);
    }
  }

  ghost predicate OnlySpelledBy(scopes: seq<ScopeInput>, i: nat, word: string) {
    i < |scopes| && word in Spellings(scopes[i])
    && forall j :: 0 <= j < |scopes| && j != i ==> !Declares(scopes[j], Lower(word))
  }

  // Where config names no link `every_<scope>`, it leads to that scope from
  // anywhere, which is what the scope's spelling means unless that is a reserved
  // word; and so do the other three iterators.
  lemma IteratorLeadsToScope(scopes: seq<ScopeInput>, linkInputs: seq<LinkInput>, hc: Registry, nextId: Id,
                             hcToReg: map<Id, Id>, config: Registry, now: Registry, prefix: string, word: string,
                             i: nat)
    requires BuiltFrom(scopes, linkInputs, config) && LowerKeys(config.byName)
    requires Backfilled(hc, nextId, hcToReg, config, now)
    requires OnlySpelledBy(scopes, i, word) && Ordinary(scopes[i]) && Word(word)
    requires prefix in ["every_", "random_", "any_", "all_"]
    requires !SomeNames(linkInputs, |linkInputs|, prefix + Lower(word))
    ensures var key := prefix + Lower(word);
            key in now.links && now.links[key] == Link([], Some(InputId(scopes, i)), [])
    ensures Lower(word) !in ["all", "none"] ==> IdOf(now.byName, word) == Some(InputId(scopes, i))
  {
    hide LowerKeys, IdOf, Backfilled, NamesFromInputs, DefsFromInputs, ParentsFromInputs, LinksFromInputs, Ordinary,
         PrefixesFromInputs, Synthesized, Word, Lower, SomeNames, OnlySpelledBy;
    var given :| ConfigLinks(linkInputs, config, given);
    var key := prefix + Lower(word);
    GivenLinks(linkInputs, config.byName, given, key);
    IteratorOver(scopes, config.byId, given, config.links, prefix, word, i);
    ConfigLinksKept(hc, nextId, hcToReg, config, now, key);
    if Lower(word) !in ["all", "none"] {
      SpellingMeansScope(scopes, config.byName, word, i);
      ConfigNamesKept(hc, nextId, hcToReg, config, now, word);
    }
  }

  lemma GivenLinks(linkInputs: seq<LinkInput>, byName: map<string, Id>, given: map<string, Link>, key: string)
    requires LinksFromInputs(linkInputs, |linkInputs|, byName, given)
    ensures key in given <==> SomeNames(linkInputs, |linkInputs|, key)
  {
    hide SomeNames, FollowsInput, LastLink;
    var n := |linkInputs|;
    assert LinkAt(linkInputs, n, byName, given, key);
  }

  lemma IteratorOver(scopes: seq<ScopeInput>, byId: map<Id, ScopeDef>, given: map<string, Link>,
                     links: map<string, Link>, prefix: string, word: string, i: nat)
    requires DefsFromInputs(scopes, |scopes|, byId) && Synthesized(byId, given, links)
    requires OnlySpelledBy(scopes, i, word) && Ordinary(scopes[i]) && Word(word)
    requires prefix in ["every_", "random_", "any_", "all_"] && prefix + Lower(word) !in given
    ensures var key := prefix + Lower(word); key in links && links[key] == Link([], Some(InputId(scopes, i)), [])
  {
    hide Word, Lower, Ordinary, DefsFromInputs, Synthesized, IsAlias;
    var key, alias := prefix + Lower(word), Alias(Lower(word), InputId(scopes, i));
    ScopeHasAlias(scopes, byId, word, i);
    var k: nat :| k < |ITERATORS| && ITERATORS[k] == prefix;
    SynthesizedKey(byId, given, links, alias, k, key);
    var other, j :| IteratorFor(byId, other, j, key) && links[key].target == Some(other.id);
    PrefixFree(j, other.word, k, alias.word);
    AliasHasScope(scopes, byId, word, i, other);
  }

  lemma SynthesizedKey(byId: map<Id, ScopeDef>, given: map<string, Link>, links: map<string, Link>, alias: Alias,
                       k: nat, key: string)
    requires Synthesized(byId, given, links) && IteratorFor(byId, alias, k, key) && key !in given
    ensures key in links && links[key].valid == [] && links[key].ignoreKeys == []
    ensures exists other, j :: IteratorFor(byId, other, j, key) && links[key].target == Some(other.id)
  {
    hide IteratorFor;
    assert SynthesizedAt(byId, given, links, key);
  }

  lemma PrefixFree(j: nat, a: string, k: nat, b: string)
    requires j < |ITERATORS| && k < |ITERATORS| && ITERATORS[j] + a == ITERATORS[k] + b
    ensures a == b
  {
    var x, y := ITERATORS[j], ITERATORS[k];
    assert (x + a)[0] == x[0] && (y + b)[0] == y[0] && (x + a)[1] == x[1] && (y + b)[1] == y[1];
    assert j == k;
    assert (x + a)[|x|..] == a && (y + b)[|y|..] == b;
  }

  lemma ScopeHasAlias(scopes: seq<ScopeInput>, byId: map<Id, ScopeDef>, word: string, i: nat)
    requires DefsFromInputs(scopes, |scopes|, byId) && i < |scopes| && Ordinary(scopes[i])
    requires word in Spellings(scopes[i]) && Word(word)
    ensures IsAlias(byId, Alias(Lower(word), InputId(scopes, i)))
  {
    hide Word, Lower, Ordinary, InputId;
    var id, n := InputId(scopes, i), |scopes|;
    assert DefAt(scopes, n, byId, id);
    assert DefinedBy(scopes, n, id, i);
    var k :| 0 <= k < |Spellings(scopes[i])| && Spellings(scopes[i])[k] == word;
    assert Names(byId[id])[k] == word;
  }

  lemma AliasHasScope(scopes: seq<ScopeInput>, byId: map<Id, ScopeDef>, word: string, i: nat, other: Alias)
    requires DefsFromInputs(scopes, |scopes|, byId) && OnlySpelledBy(scopes, i, word)
    requires IsAlias(byId, other) && other.word == Lower(word)
    ensures other.id == InputId(scopes, i)
  {
    hide Word, Lower, Ordinary, InputId;
    var n := |scopes|;
    assert DefAt(scopes, n, byId, other.id);
    var j: nat :| DefinedBy(scopes, n, other.id, j);
    var names := Names(byId[other.id]);
    var k :| 0 <= k < |names| && Word(names[k]) && Lower(names[k]) == other.word;
    assert Spellings(scopes[j])[k] == names[k];
    assert Declares(scopes[j], Lower(word));
  }

  lemma SpellingMeansScope(scopes: seq<ScopeInput>, byName: map<string, Id>, word: string, i: nat)
    requires NamesFromInputs(scopes, |scopes|, byName) && LowerKeys(byName)
    requires OnlySpelledBy(scopes, i, word) && Ordinary(scopes[i]) && Word(word) && Lower(word) !in ["all", "none"]
    ensures IdOf(byName, word) == Some(InputId(scopes, i))
  {
    hide Lower, Trim, IdOf, InputId, LowerKeys, Reserved;
    var n, key := |scopes|, Lower(word);
    var k :| 0 <= k < |Spellings(scopes[i])| && Spellings(scopes[i])[k] == word;
    assert Declares(scopes[i], key);
    assert NameAt(scopes, n, byName, key) && LastDeclarer(scopes, n, key, i);
    WordIsTrimmed(word);
    IdOfIsMeaning(byName, word);
    ReservedWords(word);
    NotReserved(scopes[i], k);
  }

  lemma NotReserved(input: ScopeInput, k: nat)
    requires Ordinary(input) && k < |Spellings(input)|
    ensures Lower(Spellings(input)[k]) != "any" && Lower(Spellings(input)[k]) != "invalid"
  {
    hide Lower;
    NoUpperIsLower("any");
    NoUpperIsLower("invalid");
  }

  lemma WordIsTrimmed(word: string)
    requires Word(word)
    ensures Trim(word) == word
  {
    if word != "" {
      assert WordChar(word[0]) && WordChar(word[|word| - 1]);
      assert TrimStart(word) == word;
      assert TrimEnd(word) == word;
    }
  }

  // With the scopes country and state, the link owner leads from the state to the
  // country, and every_country leads to the country.
  lemma OwnerLeadsToCountry(hc: Registry, nextId: Id, hcToReg: map<Id, Id>, config: Registry, now: Registry,
                            scopes: seq<ScopeInput>, linkInputs: seq<LinkInput>)
    requires scopes == [ScopeInput("Country", ["country"], []), ScopeInput("State", ["state"], [])]
    requires linkInputs == [LinkInput("owner", Some("country"), ["state"], None)]
    requires BuiltFrom(scopes, linkInputs, config) && LowerKeys(config.byName)
    requires Backfilled(hc, nextId, hcToReg, config, now)
    ensures "owner" in now.links && now.links["owner"] == Link([FIRST_ID + 1], Some(FIRST_ID), [])
    ensures "every_country" in now.links && now.links["every_country"] == Link([], Some(FIRST_ID), [])
    ensures IdOf(now.byName, "country") == Some(FIRST_ID)
  {
    hide IdOf, LowerKeys, Backfilled, LinksFromInputs, NamesFromInputs, DefsFromInputs, ParentsFromInputs,
         PrefixesFromInputs, Lower, Ordinary, Declares, Word, SomeNames, Synthesized, Mentions;
    CountryAndState(scopes);
    assert OrdinaryBefore(scopes, 0) == 0 && OrdinaryBefore(scopes, 1) == 1;
    SpellingMeansScope(scopes, config.byName, "country", 0);
    SpellingMeansScope(scopes, config.byName, "state", 1);
    OnlyOwner(linkInputs);
    ConfigLinkLeadsOn(scopes, linkInputs, hc, nextId, hcToReg, config, now, "owner", 0);
    IteratorLeadsToScope(scopes, linkInputs, hc, nextId, hcToReg, config, now, "every_", "country", 0);
    assert "every_" + "country" == "every_country";
  }

  lemma OnlyOwner(linkInputs: seq<LinkInput>)
    requires linkInputs == [LinkInput("owner", Some("country"), ["state"], None)]
    ensures LastLink(linkInputs, 1, "owner", 0) && !SomeNames(linkInputs, 1, "every_" + "country")
  {
    NoUpperIsLower("owner");
    assert |"every_" + "country"| == 13;
  }

  lemma TwoSpellings(input: ScopeInput, alias: string)
    requires input.aliases == [alias]
    ensures forall w :: Mentions(input, w) <==> Lower(input.name) == Lower(w) || Lower(alias) == Lower(w)
    ensures forall key :: Declares(input, key) <==> Lower(input.name) == key || Lower(alias) == key
  {
    hide Lower;
    assert Spellings(input)[0] == input.name && Spellings(input)[1] == alias;
  }

  lemma Lowered(capital: string, word: string)
    requires (capital == "Country" && word == "country") || (capital == "State" && word == "state")
    ensures Lower(capital) == word && Lower(word) == word && Word(word)
    ensures word != Lower("any") && word != Lower("invalid")
  {
    assert Lower(capital) == word;
    NoUpperIsLower(word);
    NoUpperIsLower("any");
    NoUpperIsLower("invalid");
  }

  lemma CountryAndState(scopes: seq<ScopeInput>)
    requires scopes == [ScopeInput("Country", ["country"], []), ScopeInput("State", ["state"], [])]
    ensures Ordinary(scopes[0]) && Ordinary(scopes[1]) && Word("country") && Word("state")
    ensures OnlySpelledBy(scopes, 0, "country") && OnlySpelledBy(scopes, 1, "state")
    ensures Lower("country") == "country" && Lower("state") == "state"
  {
    hide Lower, Word, Mentions, Declares;
    Lowered("Country", "country");
    Lowered("State", "state");
    TwoSpellings(scopes[0], "country");
    TwoSpellings(scopes[1], "state");
  }

  // A hardcoded name left unresolved: where config has the system as
  // galactic_object alone, "System" means nothing.
  lemma AliasAloneLosesTheName(scopes: seq<ScopeInput>, linkInputs: seq<LinkInput>, hc: Registry, nextId: Id,
                               hcToReg: map<Id, Id>, config: Registry, now: Registry)
    requires scopes == [ScopeInput("galactic_object", [], [])]
    requires hc.byId == map[2 := ScopeDef("System", ["galactic_object"], [])]
    requires BuiltFrom(scopes, linkInputs, config) && LowerKeys(config.byName)
    requires Backfilled(hc, nextId, hcToReg, config, now)
    ensures IdOf(now.byName, "System").None? && IdOf(now.byName, "galactic_object") == Some(FIRST_ID)
  {
    hide IdOf, LowerKeys, Lower, Ordinary, Declares, Word, FirstResolved, Apart, BackfillingParents, AllMapped,
         PrefixesBackfilled, LinksBackfilled, ScopesExtend, NamesAccounted, NamesExtend, ConfigLinks, DefsFromInputs,
         ParentsFromInputs;
    SystemAndObject(scopes[0], hc.byId);
    assert OrdinaryBefore(scopes, 0) == 0 && FIRST_ID == InputId(scopes, 0);
    SpellingMeansScope(scopes, config.byName, "galactic_object", 0);
    ConfigNamesKept(hc, nextId, hcToReg, config, now, "galactic_object");
    UndeclaredMeansNothing(scopes, config.byName, "System");
    assert 2 in hc.byId;
    var adopted, next :| BackfilledScopes(hc, nextId, hcToReg, config, adopted, now, next);
    assert Names(hc.byId[2])[1] == "galactic_object";
    NameNotInserted(hc.byId, hc.byId.Keys, config.byName, nextId, now.byName, 2);
  }

  lemma UndeclaredMeansNothing(scopes: seq<ScopeInput>, byName: map<string, Id>, word: string)
    requires NamesFromInputs(scopes, |scopes|, byName) && LowerKeys(byName) && Word(word)
    requires Lower(word) !in ["any", "all", "none", "invalid"]
    requires forall i :: 0 <= i < |scopes| ==> !Declares(scopes[i], Lower(word))
    ensures IdOf(byName, word).None?
  {
    hide IdOf, LowerKeys, Lower, Word, Trim, Declares, Reserved;
    var n, key := |scopes|, Lower(word);
    assert NameAt(scopes, n, byName, key);
    WordIsTrimmed(word);
    ReservedWords(word);
    IdOfIsMeaning(byName, word);
  }

  lemma LongWords()
    ensures |Lower("System")| == 6 && |Lower("galactic_object")| == 15 && |Lower("invalid")| == 7
    ensures |Lower("any")| == 3 && Word("System") && Word("galactic_object")
  {
  }

  lemma SystemAndObject(input: ScopeInput, hcById: map<Id, ScopeDef>)
    requires input == ScopeInput("galactic_object", [], [])
    requires hcById == map[2 := ScopeDef("System", ["galactic_object"], [])]
    ensures Ordinary(input) && Word("galactic_object") && Word("System") && Apart(hcById)
    ensures OnlySpelledBy([input], 0, "galactic_object") && !Declares(input, Lower("System"))
    ensures Lower("System") !in ["any", "all", "none", "invalid"] && Lower("galactic_object") !in ["all", "none"]
  {
    LongWords();
    hide Lower, Trim, Word;
    assert Spellings(input) == ["galactic_object"] && Spellings(input)[0] == "galactic_object";
    WordIsTrimmed("System");
    WordIsTrimmed("galactic_object");
    assert Names(hcById[2]) == ["System", "galactic_object"];
  }

  // Backfilling takes no subscope relation away.
  lemma SubscopesKept(hc: Registry, nextId: Id, hcToReg: map<Id, Id>, config: Registry, now: Registry, a: Id, b: Id)
    requires Backfilled(hc, nextId, hcToReg, config, now)
    requires Satisfies(config.byId, a, b)
    ensures Satisfies(now.byId, a, b)
  {
    hide Backfilled;
    if a != ANY && b != ANY {
      var path :| Joins(config.byId, path, a, b);
      forall i | 0 <= i < |path| - 1 ensures Edge(now.byId, path[i], path[i + 1]) {
        assert Edge(config.byId, path[i], path[i + 1]);
        ParentsChangeExactlyWhenDonated(hc, nextId, hcToReg, config, now, path[i]);
      }
      assert Joins(now.byId, path, a, b);
    }
  }

  lemma BackfilledParentsClosed(hc: Registry, hcToReg: map<Id, Id>, adopted: map<Id, ScopeDef>, now: map<Id, ScopeDef>)
    requires BackfillingParents(hc.byId, hc.byId.Keys, hcToReg, adopted, now)
    requires MapsInto(hc.byId, adopted, hcToReg) && ClosedParents(hc.byId) && ClosedParents(adopted)
    ensures ClosedParents(now)
  {
  }

  lemma LinksStayClosed(config: Registry, links: map<string, Link>, byId: map<Id, ScopeDef>)
    requires ClosedLinks(config.byId, links) && config.byId.Keys <= byId.Keys
    ensures ClosedLinks(byId, links)
  {
  }

  lemma BackfilledPrefixesClosed(hc: Registry, hcToReg: map<Id, Id>, config: Registry, now: Registry)
    requires PrefixesBackfilled(hcToReg, hc.prefixLinks, |hc.prefixLinks|, config.prefixLinks, now.prefixLinks)
    requires ClosedPrefixes(config.byId, config.prefixLinks) && config.byId.Keys <= now.byId.Keys
    requires MapsInto(hc.byId, now.byId, hcToReg) && ClosedPrefixes(hc.byId, hc.prefixLinks)
    ensures ClosedPrefixes(now.byId, now.prefixLinks)
  {
  }

  // Nothing in the merged tables dangles.
  lemma BackfillIsClosed(hc: Registry, nextId: Id, hcToReg: map<Id, Id>, config: Registry, now: Registry)
    requires Backfilled(hc, nextId, hcToReg, config, now) && Closed(config) && Closed(hc)
    ensures Closed(now)
  {
    hide IdOf, NamesExtend, PrefixesBackfilled, ParentsBackfilled, FollowsHardcoded, ClosedLink, KnownAll, CopyOf;
    if hc.byId != map[] {
      var adopted, next :| BackfilledScopes(hc, nextId, hcToReg, config, adopted, now, next);
      MappingIsInto(hc, nextId, hcToReg, config, adopted, now, next);
      AdoptedParentsClosed(hc, nextId, config, adopted);
      BackfilledParentsClosed(hc, hcToReg, adopted, now.byId);
      BackfilledPrefixesClosed(hc, hcToReg, config, now);
      LinksStayClosed(config, config.links, now.byId);
      forall key | key in now.links ensures ClosedLink(now.byId, now.links[key]) {
        if key !in config.links {
          FollowingIsClosed(hc.byId, now.byId, hcToReg, hc.links[key], now.links[key]);
        }
      }
    }
  }

  lemma MappingIsInto(hc: Registry, nextId: Id, hcToReg: map<Id, Id>, config: Registry,
                      adopted: map<Id, ScopeDef>, now: Registry, next: Id)
    requires BackfilledScopes(hc, nextId, hcToReg, config, adopted, now, next)
    ensures MapsInto(hc.byId, adopted, hcToReg) && MapsInto(hc.byId, now.byId, hcToReg)
    ensures ClosedNames(now.byId, now.byName)
  {
  }

  lemma AdoptedParentsClosed(hc: Registry, nextId: Id, config: Registry, adopted: map<Id, ScopeDef>)
    requires ScopesExtend(hc.byId, config.byId, nextId, adopted) && ClosedParents(config.byId)
    ensures ClosedParents(adopted)
  {
  }

  // ---- The registry ----------------------------------------------------------------------

  class ScopeRegistry {
    var byId: map<Id, ScopeDef>
    var byName: map<string, Id>
    var links: map<string, Link>
    var prefixLinks: seq<PrefixLink>

    ghost function Tables(): Registry
      reads this
    {
      Registry(byId, byName, links, prefixLinks)
    }

    constructor ()
      ensures Tables() == Registry(map[], map[], map[], [])
    {
      byId, byName, links, prefixLinks := map[], map[], map[], [];
    }

    // Depth-first over parents; parents may form cycles.
    method IsSubscopeOrEq(current: Id, target: Id) returns (r: bool)
      ensures r <==> Satisfies(byId, current, target)
    {
      hide Reaches, Universe, Walking, Elements;
      ReachesSelf(byId, current);
      if current == target || current == ANY || target == ANY {
        return true;
      }
      var stack, seen: seq<Id> := [current], [];
      StartsWalk(byId, current, target);
      while |stack| > 0
        invariant Walking(byId, current, target, stack, seen)
        decreases |Universe(byId, current) - Elements(seen)|, |stack|
      {
        var c := stack[|stack| - 1];
        assert stack == stack[..|stack| - 1] + [c];
        StackedIsReachable(byId, current, target, stack, seen, |stack| - 1);
        stack := stack[..|stack| - 1];
        if c == target {
          return true;
        }
        if c in seen {
          SkipsSeen(byId, current, target, stack, c, seen);
          continue;
        }
        VisitsNew(byId, current, target, stack, c, seen);
        assert stack + [] == stack;
        seen := seen + [c];
        if c in byId {
          stack := stack + byId[c].parents;
        }
      }
      WalkExhausted(byId, current, target, seen);
      return false;
    }

    // ---- From config ---------------------------------------------------------

    method InsertNames(names: seq<string>, id: Id)
      modifies this`byName
      ensures byName == WithNames(old(byName), names, id)
    {
      hide KeysOf, Lower;
      assert KeysOf([]) == {} by { NoKeys(); }
      var i := 0;
      while i < |names|
        invariant 0 <= i <= |names|
        invariant byName == WithNames(old(byName), names[..i], id)
      {
        byName := byName[Lower(names[i]) := id];
        KeysOfPush(names, i);
        i := i + 1;
      }
      assert names[..i] == names;
    }

    // Pass 1: ids and names.
    method DeclareScopes(inputs: seq<ScopeInput>) returns (next: Id)
      requires byId == map[] && byName == map[]
      modifies this`byId, this`byName
      ensures NamesFromInputs(inputs, |inputs|, byName) && DefsFromInputs(inputs, |inputs|, byId)
      ensures WellNamed(byId, byName) && Issued(byId, next)
      ensures forall id :: id in byId ==> byId[id].parents == []
    {
      hide Mentions, NamesFromInputs, DefsFromInputs, WithNames;
      NothingDeclared(inputs);
      next := FIRST_ID;
      var n := 0;
      while n < |inputs|
        invariant 0 <= n <= |inputs|
        invariant next == FIRST_ID + OrdinaryBefore(inputs, n)
        invariant NamesFromInputs(inputs, n, byName) && DefsFromInputs(inputs, n, byId)
        invariant WellNamed(byId, byName) && Issued(byId, next)
        invariant forall id :: id in byId ==> byId[id].parents == []
      {
        var si := inputs[n];
        var isInvalid, isAny := Mentions(si, "invalid"), Mentions(si, "any");
        var id;
        if isInvalid {
          id := INVALID;
        } else if isAny {
          id := ANY;
        } else {
          id := next;
          next := next + 1;
        }
        assert id == InputId(inputs, n);
        ghost var byId0, byName0 := byId, byName;
        InsertNames(Spellings(si), id);
        if !Sentinel(id) {
          byId := byId[id := ScopeDef(si.name, si.aliases, [])];
        }
        NamesAfterInput(inputs, n, byName0);
        DefsAfterInput(inputs, n, byId0);
        NamedAfterInput(byId0, byName0, byId, Spellings(si), id);
        n := n + 1;
      }
    }

    // Pass 2: parents, once every name is known.
    method ResolveParents(inputs: seq<ScopeInput>)
      requires WellNamed(byId, byName)
      requires forall id :: id in byId ==> byId[id].parents == []
      modifies this`byId
      ensures byId.Keys == old(byId).Keys
      ensures forall id :: id in byId ==>
                byId[id].name == old(byId)[id].name && byId[id].aliases == old(byId)[id].aliases
      ensures ParentsFromInputs(inputs, |inputs|, byName, byId)
      ensures ClosedParents(byId)
    {
      hide IdOf, ResolveAll, LowerKeys, ParentsFromInputs, ClosedParents;
      NoParentsYet(inputs, byName, byId);
      var n := 0;
      while n < |inputs|
        invariant 0 <= n <= |inputs|
        invariant byId.Keys == old(byId).Keys
        invariant forall id :: id in byId ==>
          byId[id].name == old(byId)[id].name && byId[id].aliases == old(byId)[id].aliases
        invariant ParentsFromInputs(inputs, n, byName, byId)
        invariant ClosedParents(byId)
      {
        var si := inputs[n];
        ghost var byId0 := byId;
        match IdOf(byName, si.name) {
          case None =>
          case Some(id) =>
            var parents := ResolveAll(byName, si.subscopeOf);
            if id in byId {
              ParentsStayClosed(byId, byName, si.subscopeOf, id);
              byId := byId[id := byId[id].(parents := parents)];
            }
        }
        ParentsAfterInput(inputs, n, byName, byId0, byId);
        n := n + 1;
      }
    }

    method DeclareLinks(inputs: seq<LinkInput>)
      requires links == map[] && prefixLinks == []
      requires ClosedNames(byId, byName)
      modifies this`links, this`prefixLinks
      ensures LinksFromInputs(inputs, |inputs|, byName, links)
      ensures PrefixesFromInputs(inputs, |inputs|, byName, prefixLinks)
      ensures ClosedLinks(byId, links) && ClosedPrefixes(byId, prefixLinks)
    {
      hide FollowsInput, PrefixesFromInputs, LinksFromInputs, LinkOf;
      NoLinksYet(inputs, byName);
      NoPrefixesYet(inputs, byName);
      var n := 0;
      while n < |inputs|
        invariant 0 <= n <= |inputs|
        invariant LinksFromInputs(inputs, n, byName, links)
        invariant PrefixesFromInputs(inputs, n, byName, prefixLinks)
        invariant ClosedLinks(byId, links) && ClosedPrefixes(byId, prefixLinks)
      {
        var li := inputs[n];
        var link := LinkOf(byName, li);
        ghost var links0, prefixes0 := links, prefixLinks;
        LinkOfClosed(byId, byName, li);
        match li.prefix {
          case Some(p) =>
            prefixLinks := prefixLinks + [PrefixLink(Lower(p), link)];
          case None =>
            links := links[Lower(li.name) := link];
        }
        LinksAfterInput(inputs, n, byName, links0, links);
        PrefixesAfterInput(inputs, n, byName, prefixes0, prefixLinks);
        n := n + 1;
      }
    }

    // Every word-like spelling of every scope; the order is the map's.
    method CollectAliases() returns (aliases: seq<Alias>)
      ensures forall a :: a in aliases <==> IsAlias(byId, a)
    {
      hide IsAlias;
      AliasesHaveScopes(byId);
      aliases := [];
      var todo := byId.Keys;
      while todo != {}
        invariant todo <= byId.Keys
        invariant forall a :: a in aliases <==> a.id !in todo && IsAlias(byId, a)
        decreases |todo|
      {
        var id :| id in todo;
        var found := AliasesOf(id, Names(byId[id]));
        AliasesAreFound(byId, id, found);
        todo := todo - {id};
        aliases := aliases + found;
      }
    }

    // The simple iterators links.cwt leaves out; a link of that name stays.
    method SynthesizeIterators()
      modifies this`links
      ensures Synthesized(byId, old(links), links)
      ensures ClosedLinks(byId, old(links)) ==> ClosedLinks(byId, links)
    {
      hide IsAlias, SynthesizedAt;
      var aliases := CollectAliases();
      NothingSynthesized(byId, links);
      var n := 0;
      while n < |aliases|
        invariant 0 <= n <= |aliases|
        invariant forall key :: SynthesizedAt(byId, old(links), links, key)
        invariant forall x, k :: 0 <= x < n && 0 <= k < |ITERATORS| ==> ITERATORS[k] + aliases[x].word in links
      {
        assert IsAlias(byId, aliases[n]);
        var k := 0;
        while k < |ITERATORS|
          invariant 0 <= k <= |ITERATORS|
          invariant forall key :: SynthesizedAt(byId, old(links), links, key)
          invariant forall x, y :: 0 <= x < n && 0 <= y < |ITERATORS| ==> ITERATORS[y] + aliases[x].word in links
          invariant forall y :: 0 <= y < k ==> ITERATORS[y] + aliases[n].word in links
        {
          var key := ITERATORS[k] + aliases[n].word;
          if key !in links {
            SynthesizesOne(byId, old(links), links, aliases[n], k, key);
            links := links[key := IteratorLink(aliases[n].id)];
          }
          k := k + 1;
        }
        n := n + 1;
      }
      SynthesizedIsClosed(byId, old(links), links);
    }

    // ---- Backfill ------------------------------------------------------------

    // The hardcoded scopes are taken in no particular order.
    method AdoptScopes(hc: Registry, nextId: Id) returns (next: Id, hcToReg: map<Id, Id>)
      requires WellNamed(byId, byName) && Issued(byId, nextId)
      modifies this`byId, this`byName
      ensures Adopting(hc.byId, hc.byId.Keys, Adoption(old(byId), old(byName), nextId, map[]),
                       Adoption(byId, byName, next, hcToReg))
      ensures hcToReg.Keys == hc.byId.Keys
    {
      hide Adopting, FirstResolved, Names, WithNames, IdOf, KeysOf, Issued, WellNamed;
      hcToReg, next := map[], nextId;
      ghost var from := Adoption(byId, byName, nextId, map[]);
      NothingAdopted(hc.byId, from);
      var todo := hc.byId.Keys;
      assert hc.byId.Keys - todo == {};
      while todo != {}
        invariant todo <= hc.byId.Keys
        invariant Adopting(hc.byId, hc.byId.Keys - todo, from, Adoption(byId, byName, next, hcToReg))
        decreases |todo|
      {
        var hid :| hid in todo;
        var def := hc.byId[hid];
        ghost var done, now := hc.byId.Keys - todo, Adoption(byId, byName, next, hcToReg);
        OneFewer(hc.byId.Keys, todo, hid);
        todo := todo - {hid};
        match FirstResolved(byName, Names(def)) {
          case Some(id) =>
            AdoptsExisting(hc.byId, done, from, now, hid, id);
            hcToReg := hcToReg[hid := id];
          case None =>
            AdoptsFresh(hc.byId, done, from, now, hid);
            InsertNames(Names(def), next);
            byId := byId[next := def.(parents := [])];
            hcToReg := hcToReg[hid := next];
            next := next + 1;
            assert Adoption(byId, byName, next, hcToReg) == WithCopy(now, hid, def);
        }
      }
      assert hc.byId.Keys - todo == hc.byId.Keys;
      AdoptedKeys(hc.byId, hc.byId.Keys, from, Adoption(byId, byName, next, hcToReg));
    }

    method AdoptParents(hc: Registry, hcToReg: map<Id, Id>)
      requires hcToReg.Keys == hc.byId.Keys
      modifies this`byId
      ensures BackfillingParents(hc.byId, hc.byId.Keys, hcToReg, old(byId), byId)
    {
      hide ParentsBackfilled;
      ghost var before := byId;
      NoParentsBackfilled(hc.byId, hcToReg, byId);
      var todo := hc.byId.Keys;
      assert hc.byId.Keys - todo == {};
      while todo != {}
        invariant todo <= hc.byId.Keys
        invariant BackfillingParents(hc.byId, hc.byId.Keys - todo, hcToReg, before, byId)
        decreases |todo|
      {
        var hid :| hid in todo;
        var rid := hcToReg[hid];
        ghost var done := hc.byId.Keys - todo;
        BackfillsParents(hc.byId, done, hcToReg, before, byId, hid);
        if hc.byId[hid].parents != [] && rid in byId && byId[rid].parents == [] {
          byId := byId[rid := byId[rid].(parents := RemapAll(hcToReg, hc.byId[hid].parents))];
        }
        OneFewer(hc.byId.Keys, todo, hid);
        todo := todo - {hid};
      }
      assert hc.byId.Keys - todo == hc.byId.Keys;
    }

    // A link config defined stays as it is.
    method AdoptLinks(hc: Registry, hcToReg: map<Id, Id>)
      modifies this`links
      ensures LinksBackfilled(hcToReg, hc.links, old(links), links)
    {
      hide RemapLink, LinksBackfilling;
      NoLinksBackfilled(hcToReg, hc.links, links);
      var todo := hc.links.Keys;
      assert hc.links.Keys - todo == {};
      while todo != {}
        invariant todo <= hc.links.Keys
        invariant LinksBackfilling(hcToReg, hc.links, hc.links.Keys - todo, old(links), links)
        decreases |todo|
      {
        var key :| key in todo;
        BackfillsLink(hcToReg, hc.links, hc.links.Keys - todo, old(links), links, key);
        assert hc.links.Keys - (todo - {key}) == hc.links.Keys - todo + {key};
        todo := todo - {key};
        if key !in links {
          links := links[key := RemapLink(hcToReg, hc.links[key])];
        }
      }
      assert hc.links.Keys - todo == hc.links.Keys;
    }

    method AdoptPrefixLinks(hc: Registry, hcToReg: map<Id, Id>)
      modifies this`prefixLinks
      ensures PrefixesBackfilled(hcToReg, hc.prefixLinks, |hc.prefixLinks|, old(prefixLinks), prefixLinks)
    {
      var n := 0;
      while n < |hc.prefixLinks|
        invariant 0 <= n <= |hc.prefixLinks|
        invariant PrefixesBackfilled(hcToReg, hc.prefixLinks, n, old(prefixLinks), prefixLinks)
      {
        BackfillsPrefix(hcToReg, hc.prefixLinks, n, old(prefixLinks), prefixLinks);
        var entry := hc.prefixLinks[n];
        if !HasPrefix(prefixLinks, entry.prefix) {
          prefixLinks := prefixLinks + [PrefixLink(entry.prefix, RemapLink(hcToReg, entry.link))];
        }
        n := n + 1;
      }
    }

    method BackfillHardcoded(hc: Registry, nextId: Id) returns (ghost hcToReg: map<Id, Id>)
      requires WellNamed(byId, byName) && Issued(byId, nextId)
      modifies this
      ensures Backfilled(hc, nextId, hcToReg, old(Tables()), Tables())
    {
      hide Adopting, BackfillingParents, PrefixesBackfilled, LinksBackfilled, WellNamed, Issued;
      if hc.byId == map[] {
        hcToReg := map[];
        return;
      }
      ghost var config := Tables();
      var next, mapping := AdoptScopes(hc, nextId);
      ghost var adopted := byId;
      AdoptParents(hc, mapping);
      AdoptLinks(hc, mapping);
      AdoptPrefixLinks(hc, mapping);
      hcToReg := mapping;
      assert BackfilledScopes(hc, nextId, hcToReg, config, adopted, Tables(), next);
    }

    // `hc` is the game's hardcoded registry.
    static method FromConfig(scopes: seq<ScopeInput>, linkInputs: seq<LinkInput>, hc: Registry)
      returns (reg: ScopeRegistry, ghost config: Registry, ghost nextId: Id, ghost hcToReg: map<Id, Id>)
      ensures fresh(reg)
      ensures scopes == [] ==> reg.Tables() == hc
      ensures scopes != [] ==> BuiltFrom(scopes, linkInputs, config) && Closed(config) && LowerKeys(config.byName)
      ensures scopes != [] ==> Issued(config.byId, nextId) && Backfilled(hc, nextId, hcToReg, config, reg.Tables())
      ensures Closed(hc) ==> Closed(reg.Tables())
    {
      hide Backfilled, NamesFromInputs, DefsFromInputs, ParentsFromInputs, LinksFromInputs, Synthesized;
      reg := new ScopeRegistry();
      if scopes == [] {
        reg.byId, reg.byName, reg.links, reg.prefixLinks := hc.byId, hc.byName, hc.links, hc.prefixLinks;
        config, nextId, hcToReg := hc, FIRST_ID, map[];
        return;
      }
      var next := reg.DeclareScopes(scopes);
      ghost var declared := reg.byId;
      reg.ResolveParents(scopes);
      DefsKeepTheirNames(scopes, declared, reg.byId);
      reg.DeclareLinks(linkInputs);
      ghost var given := reg.links;
      reg.SynthesizeIterators();
      config, nextId := reg.Tables(), next;
      assert ConfigLinks(linkInputs, config, given);
      hcToReg := reg.BackfillHardcoded(hc, next);
      if Closed(hc) {
        BackfillIsClosed(hc, next, hcToReg, config, reg.Tables());
      }
    }
  }

  // A scope with one donor ends with the donor's parents, in the registry's ids.
  lemma LoneDonorGivesParents(hc: Registry, nextId: Id, hcToReg: map<Id, Id>, config: Registry, now: Registry,
                              hid: Id, id: Id)
    requires Backfilled(hc, nextId, hcToReg, config, now)
    requires id in config.byId && config.byId[id].parents == []
    requires forall other :: Donates(hc.byId, hc.byId.Keys, hcToReg, other, id) <==> other == hid
    ensures hid in hc.byId && id in now.byId
    ensures AllStandFor(hcToReg, hc.byId[hid].parents, now.byId[id].parents)
  {
    hide AllMapped, NamesExtend, PrefixesBackfilled, LinksBackfilled, AllStandFor, AdoptingInOrder;
    assert Donates(hc.byId, hc.byId.Keys, hcToReg, hid, id);
    var adopted, next :| BackfilledScopes(hc, nextId, hcToReg, config, adopted, now, next);
    assert ParentsBackfilled(hc.byId, hc.byId.Keys, hcToReg, id, adopted[id], now.byId[id]);
  }

  lemma BackfilledKeysAreLower(hc: Registry, nextId: Id, hcToReg: map<Id, Id>, config: Registry, now: Registry)
    requires Backfilled(hc, nextId, hcToReg, config, now) && LowerKeys(config.byName)
    ensures LowerKeys(now.byName)
  {
    hide LowerKeys, AllMapped, ScopesExtend, PrefixesBackfilled, LinksBackfilled, AdoptingInOrder, BackfillingParents;
  }
}

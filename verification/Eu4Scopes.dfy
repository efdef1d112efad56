/** The one hardcoded table of constants.rs in which a scope has parents, EU4's,
    and what backfilling it does to a config. */
module Eu4Scopes {
  import opened Text
  import opened ScopeTables
  import opened ScopeRegistries

  const PROVINCE: Id := 301
  const TRADE_NODE: Id := 302

  const EU4_SCOPES: map<Id, ScopeDef> := map[
    300 := ScopeDef("Country", ["country"], []),
    301 := ScopeDef("Province", ["province"], []),
    302 := ScopeDef("Trade Node", ["trade_node", "tradenode"], [301]),
    303 := ScopeDef("Unit", ["unit"], []),
    304 := ScopeDef("Monarch", ["monarch"], []),
    305 := ScopeDef("Heir", ["heir"], []),
    306 := ScopeDef("Consort", ["consort"], []),
    307 := ScopeDef("Rebel Faction", ["rebel_faction"], []),
    308 := ScopeDef("Religion", ["religion"], []),
    309 := ScopeDef("Culture", ["culture"], []),
    310 := ScopeDef("Advisor", ["advisor"], [])
  ]

  // The scope a spelling belongs to, told by a few of its letters.
  function Owner(key: string): Id {
    if |key| < 3 then ANY
    else if key[0] == 'p' then 301
    else if key[0] == 't' then 302
    else if key[0] == 'u' then 303
    else if key[0] == 'm' then 304
    else if key[0] == 'h' then 305
    else if key[0] == 'r' then (if key[2] == 'b' then 307 else 308)
    else if key[0] == 'a' then 310
    else if key[1] == 'u' then 309
    else if key[2] == 'u' then 300
    else 306
  }

  lemma TrimmedAlready(s: string)
    requires s != "" && !IsSpace(s[0]) && !IsSpace(s[|s| - 1])
    ensures Trim(s) == s
  {
  }

  lemma SpellingTrimmed(hid: Id, i: nat)
    requires hid in EU4_SCOPES && i < |Names(EU4_SCOPES[hid])|
    ensures Trim(Names(EU4_SCOPES[hid])[i]) == Names(EU4_SCOPES[hid])[i]
  {
    hide Trim, Lower;
    TrimmedAlready(Names(EU4_SCOPES[hid])[i]);
  }

  lemma SpellingOwned(hid: Id, i: nat)
    requires hid in EU4_SCOPES && i < |Names(EU4_SCOPES[hid])|
    ensures Owner(Lower(Names(EU4_SCOPES[hid])[i])) == hid
  {
    hide Trim, Lower;
  }

  lemma ScopeOwnsItsKeys(hid: Id)
    requires hid in EU4_SCOPES
    ensures CleanNames(EU4_SCOPES[hid])
    ensures forall key :: key in KeysOf(Names(EU4_SCOPES[hid])) ==> Owner(key) == hid
  {
    hide EU4_SCOPES, Owner, Trim, Lower, Names;
    var names := Names(EU4_SCOPES[hid]);
    forall i: nat | i < |names| ensures Trim(names[i]) == names[i] && Owner(Lower(names[i])) == hid {
      SpellingTrimmed(hid, i);
      SpellingOwned(hid, i);
    }
  }

  // Every spelling is trimmed and belongs to one scope.
  lemma Eu4Apart()
    ensures Apart(EU4_SCOPES)
  {
    hide EU4_SCOPES, Owner, CleanNames, KeysOf;
    forall hid | hid in EU4_SCOPES
      ensures CleanNames(EU4_SCOPES[hid]) && forall key :: key in KeysOf(Names(EU4_SCOPES[hid])) ==> Owner(key) == hid
    {
      ScopeOwnsItsKeys(hid);
    }
  }

  lemma OnlyTheTradeNodeHasParents(hid: Id)
    requires hid in EU4_SCOPES
    ensures EU4_SCOPES[hid].parents == if hid == TRADE_NODE then [PROVINCE] else []
  {
  }

  lemma TradeNodeSpellings()
    ensures TRADE_NODE in EU4_SCOPES && Names(EU4_SCOPES[TRADE_NODE]) == ["Trade Node", "trade_node", "tradenode"]
    ensures PROVINCE in EU4_SCOPES && Names(EU4_SCOPES[PROVINCE]) == ["Province", "province"]
  {
  }

  // With EU4's table a config scope's definition changes exactly when config gave
  // it no parents and it is what config makes of the trade node.
  lemma OnlyTheTradeNodeGains(hc: Registry, nextId: Id, hcToReg: map<Id, Id>, config: Registry, now: Registry, id: Id)
    requires hc.byId == EU4_SCOPES && Backfilled(hc, nextId, hcToReg, config, now) && Issued(config.byId, nextId)
    requires id in config.byId
    ensures id in now.byId
    ensures now.byId[id] != config.byId[id] <==>
            config.byId[id].parents == []
            && FirstResolved(config.byName, ["Trade Node", "trade_node", "tradenode"]) == Some(id)
  {
    hide EU4_SCOPES, Apart, Backfilled, FirstResolved, Names;
    Eu4Apart();
    TradeNodeSpellings();
    ParentsChangeExactlyForNamesakes(hc, nextId, hcToReg, config, now, id);
    forall hid | hid in EU4_SCOPES {
      OnlyTheTradeNodeHasParents(hid);
    }
    assert GivesParents(hc.byId, config.byName, TRADE_NODE, id)
      <==> FirstResolved(config.byName, ["Trade Node", "trade_node", "tradenode"]) == Some(id);
  }

  // ---- A config that names the trade node alone -----------------------------------------

  function Eu4Registry(links: map<string, Link>, prefixLinks: seq<PrefixLink>): Registry {
    var spellings := set hid, key | hid in EU4_SCOPES && key in KeysOf(Names(EU4_SCOPES[hid])) :: key;
    Registry(EU4_SCOPES, map key | key in spellings :: Owner(key), links, prefixLinks)
  }

  lemma LoneScope(byId: map<Id, ScopeDef>, byName: map<string, Id>)
    requires LowerKeys(byName)
    requires var scopes := [ScopeInput("Trade Node", [], [])];
             NamesFromInputs(scopes, 1, byName) && DefsFromInputs(scopes, 1, byId)
             && ParentsFromInputs(scopes, 1, byName, byId)
    ensures IdOf(byName, "Trade Node") == Some(FIRST_ID)
    ensures FIRST_ID in byId && byId[FIRST_ID].parents == []
  {
    hide Mentions, Declares, Trim, Reserved, IdOf;
    var scopes := [ScopeInput("Trade Node", [], [])];
    LoneInput(scopes[0]);
    assert OrdinaryBefore(scopes, 0) == 0 && InputId(scopes, 0) == FIRST_ID;
    assert NameAt(scopes, 1, byName, "trade node") && LastDeclarer(scopes, 1, "trade node", 0);
    IdOfIsMeaning(byName, "Trade Node");
    assert DefAt(scopes, 1, byId, FIRST_ID) && DefinedBy(scopes, 1, FIRST_ID, 0);
    assert LastFor(scopes, 1, byName, FIRST_ID, 0);
    NothingResolves(byName, byId[FIRST_ID].parents);
  }

  lemma NothingResolves(byName: map<string, Id>, parents: seq<Id>)
    ensures ResolvesTo(byName, [], parents) ==> parents == []
  {
    if parents != [] {
      forall at ensures !ResolvedAt(byName, [], at, parents) {
        if |at| == |parents| {
          var first := at[0];
        }
      }
    }
  }

  lemma LoneInput(input: ScopeInput)
    requires input == ScopeInput("Trade Node", [], [])
    ensures Ordinary(input) && Declares(input, "trade node")
    ensures Trim("Trade Node") == "Trade Node" && Reserved("Trade Node").None? && Lower("Trade Node") == "trade node"
  {
    hide Trim;
    TrimmedAlready("Trade Node");
    assert |Lower("Trade Node")| == 10 && |Lower("invalid")| == 7;
    assert Lower("Trade Node") == "trade node";
    assert Spellings(input) == ["Trade Node"] && Spellings(input)[0] == "Trade Node";
  }

  // `scopes.cwt` names the trade node and gives it no parents: it ends with the
  // province as its parent, whatever links the hardcoded table has.
  method ConfigScopeGainsParents(links: map<string, Link>, prefixLinks: seq<PrefixLink>)
    returns (reg: ScopeRegistry, ghost config: Registry)
    ensures FIRST_ID in config.byId && config.byId[FIRST_ID].parents == []
    ensures FIRST_ID in reg.byId && |reg.byId[FIRST_ID].parents| == 1
    ensures IdOf(reg.byName, "Province") == Some(reg.byId[FIRST_ID].parents[0])
  {
    hide EU4_SCOPES, NamesFromInputs, DefsFromInputs, ParentsFromInputs, Backfilled, Closed, LowerKeys, Issued,
         ConfigLinks, IdOf, Eu4Registry;
    var scopes := [ScopeInput("Trade Node", [], [])];
    var hc := Eu4Registry(links, prefixLinks);
    ghost var nextId, hcToReg;
    reg, config, nextId, hcToReg := ScopeRegistry.FromConfig(scopes, [], hc);
    LoneScope(config.byId, config.byName);
    TradeNodeGains(hc, links, prefixLinks, nextId, hcToReg, config, reg.Tables(), FIRST_ID);
  }

  lemma TradeNodeGains(hc: Registry, links: map<string, Link>, prefixLinks: seq<PrefixLink>, nextId: Id,
                       hcToReg: map<Id, Id>, config: Registry, now: Registry, id: Id)
    requires hc == Eu4Registry(links, prefixLinks) && LowerKeys(config.byName)
    requires Backfilled(hc, nextId, hcToReg, config, now) && Issued(config.byId, nextId)
    requires id in config.byId && config.byId[id].parents == [] && IdOf(config.byName, "Trade Node") == Some(id)
    ensures id in now.byId && |now.byId[id].parents| == 1
    ensures IdOf(now.byName, "Province") == Some(now.byId[id].parents[0])
  {
    hide EU4_SCOPES, Backfilled, IdOf, Names, NamedAs, Donates, LowerKeys, Remap, CleanNames;
    TradeNodeSpellings();
    OnlyTheTradeNodeHasParents(TRADE_NODE);
    ScopeOwnsItsKeys(PROVINCE);
    forall hid ensures Donates(hc.byId, hc.byId.Keys, hcToReg, hid, id) <==> hid == TRADE_NODE {
      TradeNodeDonates(hc, nextId, hcToReg, config, now, hid, id);
    }
    LoneDonorGivesParents(hc, nextId, hcToReg, config, now, TRADE_NODE, id);
    HardcodedScopesResolve(hc, nextId, hcToReg, config, now, PROVINCE);
    RemapsMapped(hcToReg, PROVINCE);
    BackfilledKeysAreLower(hc, nextId, hcToReg, config, now);
    ProvinceResolves(now.byName, hcToReg[PROVINCE]);
  }

  lemma TradeNodeDonates(hc: Registry, nextId: Id, hcToReg: map<Id, Id>, config: Registry, now: Registry,
                         hid: Id, id: Id)
    requires hc.byId == EU4_SCOPES && Backfilled(hc, nextId, hcToReg, config, now) && Issued(config.byId, nextId)
    requires id in config.byId && IdOf(config.byName, "Trade Node") == Some(id)
    ensures Donates(hc.byId, hc.byId.Keys, hcToReg, hid, id) <==> hid == TRADE_NODE
  {
    hide EU4_SCOPES, Backfilled, IdOf, Names, NamedAs;
    TradeNodeSpellings();
    OnlyTheTradeNodeHasParents(TRADE_NODE);
    if hid in EU4_SCOPES {
      OnlyTheTradeNodeHasParents(hid);
    }
    assert Names(EU4_SCOPES[TRADE_NODE])[0] == EU4_SCOPES[TRADE_NODE].name by { NamesStart(EU4_SCOPES[TRADE_NODE]); }
    DonorsAreNamesakes(hc, nextId, hcToReg, config, now, TRADE_NODE, id);
  }

  lemma RemapsMapped(hcToReg: map<Id, Id>, hid: Id)
    requires hid in hcToReg && !Sentinel(hid)
    ensures Remap(hcToReg, hid) == hcToReg[hid]
  {
  }

  lemma NamesStart(def: ScopeDef)
    ensures Names(def)[0] == def.name
  {
  }

  // Both of the province's spellings resolve alike.
  lemma ProvinceResolves(byName: map<string, Id>, id: Id)
    requires LowerKeys(byName) && NamedAs(byName, EU4_SCOPES[PROVINCE], id)
    ensures IdOf(byName, "Province") == Some(id)
  {
    hide EU4_SCOPES, LowerKeys, IdOf, Trim, Names;
    TradeNodeSpellings();
    TrimLower("Province");
    assert Lower("Province") == "province";
    LowerTwice("Province");
    SpellingDoesNotMatter(byName, "Province", "province");
  }
}

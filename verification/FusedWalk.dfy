/** Collecting set-variable names and value-set members in one pass, collect.rs,
    against the two walks it replaces, variables.rs and dynamic_values.rs. */
module FusedWalk {
  import opened Text

  // A token is the text it resolves to in the string table, if it does.
  type Token = Option<string>

  // Text is a bare or quoted string; a number or boolean is its printed form.
  datatype Value = Text(token: Token) | Number(printed: string) | Clause(children: seq<Child>)

  datatype Leaf = Leaf(key: Token, value: Value, pos: Range)

  // Everything but a leaf (bare values, comments) is Other.
  datatype Child = LeafChild(leaf: Leaf) | Other

  datatype Range = Range(startLine: nat, startCol: nat, endLine: nat, endCol: nat)

  datatype DefinedVariable = DefinedVariable(name: string, value: Option<string>, pos: Range)

  datatype Member = Member(ns: string, name: string)

  type ValueSets = map<string, seq<string>>

  // The rules the walks read: which lower-cased key writes which set, and which
  // fields of its block form write which sets.
  datatype Rules = Rules(effects: map<string, string>, fields: map<string, seq<Binding>>)

  datatype Binding = Binding(field: string, ns: string)

  const VALUE_KEYS: seq<string> := ["value", "amount", "add"]
  const VAR_KEYS: seq<string> := ["var", "variable", "array"]
  const SKIP_KEYS: seq<string> := ["value", "tooltip", "var", "variable", "amount", "which"]
  const NAME_KEYS: seq<string> := ["flag", "name", "token", "var", "variable"]

  predicate KeyIn(key: Token, words: seq<string>) {
    key.Some? && exists i :: 0 <= i < |words| && EqIgnoreCase(key.value, words[i])
  }

  function OrEmpty(token: Token): string {
    if token.Some? then token.value else ""
  }

  function ValueString(value: Value): string {
    match value
    case Text(token) => OrEmpty(token)
    case Number(printed) => printed
    case Clause(_) => ""
  }

  function NonEmpty(s: string): Option<string> {
    if s == "" then None else Some(s)
  }

  // ---- What one variable-defining block defines ---------------------------------

  // The first value child with something in it.
  function SiblingValue(children: seq<Child>): Option<string> {
    if children == [] then None
    else
      match children[0]
      case LeafChild(leaf) =>
        if KeyIn(leaf.key, VALUE_KEYS) && ValueString(leaf.value) != "" then Some(ValueString(leaf.value))
        else SiblingValue(children[1..])
      case Other => SiblingValue(children[1..])
  }

  predicate NamesVariable(child: Child) {
    child.LeafChild? && KeyIn(child.leaf.key, VAR_KEYS)
  }

  function ExplicitDef(child: Child, sibling: Option<string>): seq<DefinedVariable> {
    if NamesVariable(child) && ValueString(child.leaf.value) != "" then
      [DefinedVariable(ValueString(child.leaf.value), sibling, child.leaf.pos)]
    else
      []
  }

  function ShorthandDef(child: Child): seq<DefinedVariable> {
    if child.LeafChild? && !KeyIn(Some(OrEmpty(child.leaf.key)), SKIP_KEYS) then
      [DefinedVariable(OrEmpty(child.leaf.key), NonEmpty(ValueString(child.leaf.value)), child.leaf.pos)]
    else
      []
  }

  function ExplicitDefs(children: seq<Child>, sibling: Option<string>): seq<DefinedVariable> {
    if children == [] then []
    else
      ExplicitDefs(children[..|children| - 1], sibling) + ExplicitDef(children[|children| - 1], sibling)
  }

  function ShorthandDefs(children: seq<Child>): seq<DefinedVariable> {
    if children == [] then []
    else ShorthandDefs(children[..|children| - 1]) + ShorthandDef(children[|children| - 1])
  }

  // One `var`-like child makes the whole block explicit, even when it names nothing.
  predicate IsExplicit(children: seq<Child>) {
    exists i :: 0 <= i < |children| && NamesVariable(children[i])
  }

  function BlockDefs(children: seq<Child>): seq<DefinedVariable> {
    if IsExplicit(children) then
      ExplicitDefs(children, SiblingValue(children))
    else
      ShorthandDefs(children)
  }

  // ---- What one leaf writes into the value sets -----------------------------------

  function Unquote(s: string): string {
    if |s| >= 2 && s[0] == '"' && s[|s| - 1] == '"' then s[1..|s| - 1] else s
  }

  predicate IsAt(c: char) { c == '@' }

  function Members(ns: string, raw: string): seq<Member> {
    var v := Unquote(raw);
    var base := v[..Find(v, IsAt)];
    if base == "" then [] else [Member(ns, base)]
  }

  function TokenMembers(ns: string, token: Token): seq<Member> {
    if token.Some? then Members(ns, token.value) else []
  }

  function Namespace(rules: Rules, key: Token): Option<string> {
    if key.Some? && Lower(key.value) in rules.effects then Some(rules.effects[Lower(key.value)]) else None
  }

  function Bindings(rules: Rules, key: Token): seq<Binding> {
    if key.Some? && Lower(key.value) in rules.fields then rules.fields[Lower(key.value)] else []
  }

  // The set the first binding of that field names.
  function BoundTo(bindings: seq<Binding>, key: Token): Option<string> {
    if key.None? || bindings == [] then None
    else if EqIgnoreCase(key.value, bindings[0].field) then Some(bindings[0].ns)
    else BoundTo(bindings[1..], key)
  }

  function BoundMember(bindings: seq<Binding>, child: Child): seq<Member> {
    if child.LeafChild? && child.leaf.value.Text? then
      match BoundTo(bindings, child.leaf.key)
      case Some(ns) => if ns == "variable" then [] else TokenMembers(ns, child.leaf.value.token)
      case None => []
    else
      []
  }

  function BoundMembers(bindings: seq<Binding>, children: seq<Child>): seq<Member> {
    if children == [] then []
    else
      BoundMembers(bindings, children[..|children| - 1]) + BoundMember(bindings, children[|children| - 1])
  }

  predicate NamesMember(child: Child) {
    child.LeafChild? && KeyIn(child.leaf.key, NAME_KEYS) && child.leaf.value.Text? && child.leaf.value.token.Some?
  }

  // The first child that carries a name decides, even when the name is empty.
  function FirstNamed(ns: string, children: seq<Child>): seq<Member> {
    if children == [] then []
    else if NamesMember(children[0]) then Members(ns, children[0].leaf.value.token.value)
    else FirstNamed(ns, children[1..])
  }

  function LeafMembers(rules: Rules, leaf: Leaf): seq<Member> {
    var ns := Namespace(rules, leaf.key);
    if ns.None? || ns.value == "variable" then []
    else
      match leaf.value
      case Text(token) => TokenMembers(ns.value, token)
      case Clause(children) =>
        var bindings := Bindings(rules, leaf.key);
        if bindings != [] then BoundMembers(bindings, children) else FirstNamed(ns.value, children)
      case Number(_) => []
  }

  // ---- The two walks -------------------------------------------------------------------

  predicate Defines(effects: set<string>, key: Token) {
    key.Some? && Lower(key.value) in effects
  }

  // The set-variable walk: every clause, its own definitions before those below.
  function DefsOf(effects: set<string>, children: seq<Child>): seq<DefinedVariable>
    decreases children
  {
    if children == [] then []
    else
      DefsOf(effects, children[..|children| - 1]) + DefsAt(effects, children[|children| - 1])
  }

  function DefsAt(effects: set<string>, child: Child): seq<DefinedVariable>
    decreases child
  {
    if child.LeafChild? && child.leaf.value.Clause? then
      var below := child.leaf.value.children;
      (if Defines(effects, child.leaf.key) then BlockDefs(below) else []) + DefsOf(effects, below)
    else
      []
  }

  predicate Enters(rules: Rules, leaf: Leaf) {
    leaf.value.Clause? && Namespace(rules, leaf.key) != Some("variable")
  }

  // The value-set walk: every leaf, but nothing below a `variable` block.
  function MembersOf(rules: Rules, children: seq<Child>): seq<Member>
    decreases children
  {
    if children == [] then []
    else
      MembersOf(rules, children[..|children| - 1]) + MembersAt(rules, children[|children| - 1])
  }

  function MembersAt(rules: Rules, child: Child): seq<Member>
    decreases child
  {
    if child.LeafChild? then
      LeafMembers(rules, child.leaf)
      + if Enters(rules, child.leaf) then MembersOf(rules, child.leaf.value.children) else []
    else
      []
  }

  // ---- Storing members by set --------------------------------------------------------

  function Get(sets: ValueSets, ns: string): seq<string> {
    if ns in sets then sets[ns] else []
  }

  function PushAll(sets: ValueSets, members: seq<Member>): ValueSets {
    if members == [] then sets
    else
      var last := members[|members| - 1];
      var before := PushAll(sets, members[..|members| - 1]);
      before[last.ns := Get(before, last.ns) + [last.name]]
  }

  function NamesIn(members: seq<Member>, ns: string): seq<string> {
    if members == [] then []
    else
      NamesIn(members[..|members| - 1], ns)
      + if members[|members| - 1].ns == ns then [members[|members| - 1].name] else []
  }

  // Every set receives its own members, in the order they were met.
  lemma {:induction false} PushAllAt(sets: ValueSets, members: seq<Member>, ns: string)
    ensures Get(PushAll(sets, members), ns) == Get(sets, ns) + NamesIn(members, ns)
  {
    if members != [] {
      PushAllAt(sets, members[..|members| - 1], ns);
    }
  }

  lemma {:induction false} PushAllConcat(sets: ValueSets, a: seq<Member>, b: seq<Member>)
    ensures PushAll(sets, a + b) == PushAll(PushAll(sets, a), b)
    decreases |b|
  {
    if b == [] {
      assert a + b == a;
    } else {
      var front := b[..|b| - 1];
      assert (a + b)[..|a + b| - 1] == a + front;
      PushAllConcat(sets, a, front);
    }
  }

  lemma DefsStep(effects: set<string>, children: seq<Child>, n: nat)
    requires n < |children|
    ensures DefsOf(effects, children[..n + 1]) == DefsOf(effects, children[..n]) + DefsAt(effects, children[n])
  {
    assert children[..n + 1][..n] == children[..n];
  }

  lemma MembersStep(rules: Rules, children: seq<Child>, n: nat)
    requires n < |children|
    ensures MembersOf(rules, children[..n + 1]) == MembersOf(rules, children[..n]) + MembersAt(rules, children[n])
  {
    assert children[..n + 1][..n] == children[..n];
  }

  // ---- The collectors -----------------------------------------------------------------

  class Sink {
    var defs: seq<DefinedVariable>
    var names: seq<string>
    var sets: ValueSets

    constructor ()
      ensures defs == [] && names == [] && sets == map[]
    {
      defs, names, sets := [], [], map[];
    }

    method PushMember(ns: string, raw: string)
      modifies this`sets
      ensures sets == PushAll(old(sets), Members(ns, raw))
    {
      hide Unquote;
      var v := Unquote(raw);
      var base := v[..Find(v, IsAt)];
      if base != "" {
        assert [Member(ns, base)][..0] == [];
        sets := sets[ns := Get(sets, ns) + [base]];
      }
    }

    method ExtractBlock(children: seq<Child>)
      modifies this`defs
      ensures defs == old(defs) + BlockDefs(children)
      ensures old(defs) <= defs && BlockDefines(children, defs[|old(defs)|..])
    {
      hide BlockDefines, KeyIn, ValueString, SiblingValue, ShorthandDef, ExplicitDefs, ShorthandDefs, IsExplicit;
      BlockMeans(children);
      var isExplicit := false;
      var sibling := SiblingValueIn(children);
      NoChildren(sibling);
      var i := 0;
      while i < |children|
        invariant 0 <= i <= |children|
        invariant isExplicit == IsExplicit(children[..i])
        invariant defs == old(defs) + ExplicitDefs(children[..i], sibling)
      {
        ExplicitStep(children, sibling, i);
        var child := children[i];
        if child.LeafChild? && KeyIn(child.leaf.key, VAR_KEYS) {
          var v := ValueString(child.leaf.value);
          if v != "" {
            defs := defs + [DefinedVariable(v, sibling, child.leaf.pos)];
          }
          isExplicit := true;
        }
        i := i + 1;
      }
      assert children[..i] == children;
      if isExplicit {
        return;
      }
      NoExplicitDefs(children, sibling);
      i := 0;
      while i < |children|
        invariant 0 <= i <= |children|
        invariant defs == old(defs) + ShorthandDefs(children[..i])
      {
        ShorthandStep(children, i);
        defs := defs + ShorthandDef(children[i]);
        i := i + 1;
      }
      assert children[..i] == children;
    }

    // ---- One walk at a time

    method WalkSetVariables(children: seq<Child>, effects: set<string>)
      modifies this`defs
      ensures defs == old(defs) + DefsOf(effects, children)
      decreases Clause(children)
    {
      hide BlockDefs, BlockDefines, Defines, DefsOf;
      NoDefs(effects);
      var i := 0;
      while i < |children|
        invariant 0 <= i <= |children|
        invariant defs == old(defs) + DefsOf(effects, children[..i])
      {
        DefsStep(effects, children, i);
        var child := children[i];
        if child.LeafChild? && child.leaf.value.Clause? {
          if Defines(effects, child.leaf.key) {
            ExtractBlock(child.leaf.value.children);
          }
          WalkSetVariables(child.leaf.value.children, effects);
        }
        i := i + 1;
      }
      assert children[..i] == children;
    }

    method ValueSetLeaf(leaf: Leaf, rules: Rules) returns (ns: Option<string>)
      modifies this`sets
      ensures ns == Namespace(rules, leaf.key)
      ensures sets == PushAll(old(sets), LeafMembers(rules, leaf))
    {
      hide KeyIn, Members, BoundMembers, FirstNamed;
      ns := Namespace(rules, leaf.key);
      if ns.None? || ns.value == "variable" {
        return;
      }
      match leaf.value {
        case Text(token) =>
          if token.Some? {
            PushMember(ns.value, token.value);
          }
        case Clause(sub) =>
          var bindings := Bindings(rules, leaf.key);
          if bindings != [] {
            PushBound(bindings, sub);
          } else {
            PushFirstNamed(ns.value, sub);
          }
        case Number(_) =>
      }
    }

    method PushBound(bindings: seq<Binding>, sub: seq<Child>)
      modifies this`sets
      ensures sets == PushAll(old(sets), BoundMembers(bindings, sub))
    {
      hide Members, BoundTo, PushAll;
      ghost var sets0 := sets;
      NothingPushed(sets);
      var i := 0;
      while i < |sub|
        invariant 0 <= i <= |sub|
        invariant sets == PushAll(sets0, BoundMembers(bindings, sub[..i]))
      {
        BoundStep(bindings, sub, i);
        PushAllConcat(sets0, BoundMembers(bindings, sub[..i]), BoundMember(bindings, sub[i]));
        NothingPushed(sets);
        var child := sub[i];
        if child.LeafChild? && child.leaf.value.Text? {
          var fieldNs := BoundTo(bindings, child.leaf.key);
          if fieldNs.Some? && fieldNs.value != "variable" && child.leaf.value.token.Some? {
            PushMember(fieldNs.value, child.leaf.value.token.value);
          }
        }
        i := i + 1;
      }
      assert sub[..i] == sub;
    }

    method PushFirstNamed(ns: string, sub: seq<Child>)
      modifies this`sets
      ensures sets == PushAll(old(sets), FirstNamed(ns, sub))
    {
      hide Members, KeyIn;
      var i := 0;
      while i < |sub|
        invariant 0 <= i <= |sub|
        invariant sets == old(sets)
        invariant FirstNamed(ns, sub) == FirstNamed(ns, sub[i..])
      {
        var child := sub[i];
        assert sub[i..][1..] == sub[i + 1..];
        if NamesMember(child) {
          PushMember(ns, child.leaf.value.token.value);
          return;
        }
        i := i + 1;
      }
    }

    method WalkValueSets(children: seq<Child>, rules: Rules)
      modifies this`sets
      ensures sets == PushAll(old(sets), MembersOf(rules, children))
      decreases Clause(children)
    {
      hide LeafMembers, PushAll, MembersOf, Namespace;
      ghost var sets0 := sets;
      NoMembers(rules, sets);
      var i := 0;
      while i < |children|
        invariant 0 <= i <= |children|
        invariant sets == PushAll(sets0, MembersOf(rules, children[..i]))
      {
        MembersStep(rules, children, i);
        PushAllConcat(sets0, MembersOf(rules, children[..i]), MembersAt(rules, children[i]));
        var child := children[i];
        NothingPushed(sets);
        if child.LeafChild? {
          ghost var sets1 := sets;
          var ns := ValueSetLeaf(child.leaf, rules);
          NothingPushed(sets);
          if child.leaf.value.Clause? && ns != Some("variable") {
            WalkValueSets(child.leaf.value.children, rules);
          }
          PushAllConcat(sets1, LeafMembers(rules, child.leaf),
                        if Enters(rules, child.leaf) then MembersOf(rules, child.leaf.value.children) else []);
        }
        i := i + 1;
      }
      assert children[..i] == children;
    }

    // ---- Both at once

    // `vsActive` is cleared below a `variable` block, so the pass that the
    // set-variable walk still needs there writes no members.
    method WalkBoth(children: seq<Child>, rules: Rules, varEffects: Option<set<string>>, vsActive: bool)
      modifies this`defs, this`sets
      ensures defs == old(defs) + if varEffects.Some? then DefsOf(varEffects.value, children) else []
      ensures sets == PushAll(old(sets), if vsActive then MembersOf(rules, children) else [])
      decreases Clause(children)
    {
      hide LeafMembers, PushAll, MembersOf, DefsOf, Namespace, BlockDefs, BlockDefines, Defines;
      ghost var sets0 := sets;
      NoMembers(rules, sets);
      if varEffects.Some? {
        NoDefs(varEffects.value);
      }
      var i := 0;
      while i < |children|
        invariant 0 <= i <= |children|
        invariant defs == old(defs) + if varEffects.Some? then DefsOf(varEffects.value, children[..i]) else []
        invariant sets == PushAll(sets0, if vsActive then MembersOf(rules, children[..i]) else [])
      {
        if varEffects.Some? {
          DefsStep(varEffects.value, children, i);
        }
        MembersStep(rules, children, i);
        PushAllConcat(sets0, MembersOf(rules, children[..i]), MembersAt(rules, children[i]));
        NothingPushed(sets);
        var child := children[i];
        if child.LeafChild? {
          var leaf := child.leaf;
          ghost var sets1 := sets;
          if varEffects.Some? && leaf.value.Clause? && Defines(varEffects.value, leaf.key) {
            ExtractBlock(leaf.value.children);
          }
          var ns := None;
          if vsActive {
            ns := ValueSetLeaf(leaf, rules);
          }
          NothingPushed(sets);
          if leaf.value.Clause? {
            var isVarNs := ns == Some("variable");
            var descend := varEffects.Some? || (vsActive && !isVarNs);
            var vsChild := vsActive && !isVarNs;
            if descend {
              WalkBoth(leaf.value.children, rules, varEffects, vsChild);
            }
          }
          PushAllConcat(sets1, LeafMembers(rules, leaf),
                        if Enters(rules, leaf) then MembersOf(rules, leaf.value.children) else []);
        }
        i := i + 1;
      }
      assert children[..i] == children;
    }

    // ---- What indexing calls

    method CollectSetVariableNames(children: seq<Child>, effects: set<string>)
      modifies this`names
      ensures names == old(names) + DefNames(DefsOf(effects, children))
    {
      var local := new Sink();
      local.WalkSetVariables(children, effects);
      names := names + DefNames(local.defs);
    }

    // No effects means the caller passed no effect set.
    method CollectVariablesAndValueSets(children: seq<Child>, rules: Rules, varEffects: Option<set<string>>)
      modifies this`names, this`sets
      ensures names == old(names) + DefNames(DefsOf(if varEffects.Some? then varEffects.value else {}, children))
      ensures sets == PushAll(old(sets), MembersOf(rules, children))
    {
      hide DefsOf, MembersOf, PushAll;
      EmptyEffectsDefineNothing(children);
      EmptyRulesWriteNothing(rules, children);
      NothingPushed(sets);
      var vsActive := rules.effects != map[];
      if varEffects.None? && !vsActive {
        return;
      }
      var local := new Sink();
      local.sets := sets;
      local.WalkBoth(children, rules, varEffects, vsActive);
      sets := local.sets;
      names := names + DefNames(local.defs);
    }
  }

  function DefNames(defs: seq<DefinedVariable>): seq<string> {
    seq(|defs|, i requires 0 <= i < |defs| => defs[i].name)
  }

  method CollectValueSetMembers(children: seq<Child>, rules: Rules) returns (sets: ValueSets)
    ensures sets == PushAll(map[], MembersOf(rules, children))
  {
    var sink := new Sink();
    if rules.effects == map[] {
      EmptyRulesWriteNothing(rules, children);
      return map[];
    }
    sink.WalkValueSets(children, rules);
    sets := sink.sets;
  }

  lemma EmptyEffectsDefineNothing(children: seq<Child>)
    ensures DefsOf({}, children) == []
  {
    var defs := DefsOf({}, children);
    if defs != [] {
      DefsComeFromBlocks({}, children, defs[0]);
    }
  }

  lemma NoDefs(effects: set<string>)
    ensures DefsOf(effects, []) == []
  {
  }

  lemma NothingPushed(sets: ValueSets)
    ensures PushAll(sets, []) == sets
  {
  }

  lemma NoMembers(rules: Rules, sets: ValueSets)
    ensures PushAll(sets, MembersOf(rules, [])) == sets && PushAll(sets, []) == sets
  {
  }

  lemma ExplicitStep(children: seq<Child>, sibling: Option<string>, n: nat)
    requires n < |children|
    ensures ExplicitDefs(children[..n + 1], sibling)
         == ExplicitDefs(children[..n], sibling) + ExplicitDef(children[n], sibling)
    ensures IsExplicit(children[..n + 1]) == (IsExplicit(children[..n]) || NamesVariable(children[n]))
  {
    hide NamesVariable;
    var now, was := children[..n + 1], children[..n];
    assert now[..n] == was && now[n] == children[n];
    forall k | 0 <= k < n ensures now[k] == was[k] {
    }
  }

  lemma NoChildren(sibling: Option<string>)
    ensures ExplicitDefs([], sibling) == [] && ShorthandDefs([]) == [] && !IsExplicit([])
  {
  }

  lemma ShorthandStep(children: seq<Child>, n: nat)
    requires n < |children|
    ensures ShorthandDefs(children[..n + 1]) == ShorthandDefs(children[..n]) + ShorthandDef(children[n])
  {
    assert children[..n + 1][..n] == children[..n];
  }

  lemma {:induction false} NoExplicitDefs(children: seq<Child>, sibling: Option<string>)
    requires !IsExplicit(children)
    ensures ExplicitDefs(children, sibling) == []
  {
    if children != [] {
      NoExplicitDefs(children[..|children| - 1], sibling);
    }
  }

  lemma BoundStep(bindings: seq<Binding>, children: seq<Child>, n: nat)
    requires n < |children|
    ensures BoundMembers(bindings, children[..n + 1])
         == BoundMembers(bindings, children[..n]) + BoundMember(bindings, children[n])
  {
    assert children[..n + 1][..n] == children[..n];
  }

  method SiblingValueIn(children: seq<Child>) returns (value: Option<string>)
    ensures value == SiblingValue(children)
  {
    hide KeyIn, ValueString;
    var i := 0;
    while i < |children|
      invariant 0 <= i <= |children|
      invariant SiblingValue(children) == SiblingValue(children[i..])
    {
      assert children[i..][1..] == children[i + 1..];
      var child := children[i];
      if child.LeafChild? && KeyIn(child.leaf.key, VALUE_KEYS) {
        var v := ValueString(child.leaf.value);
        if v != "" {
          return Some(v);
        }
      }
      i := i + 1;
    }
    return None;
  }

  // ---- What a block and a leaf mean ----------------------------------------------

  predicate KeyIs(child: Child, word: string) {
    child.LeafChild? && child.leaf.key.Some? && Lower(child.leaf.key.value) == word
  }

  predicate Carries(child: Child, text: string) {
    child.LeafChild?
    && match child.leaf.value
       case Text(token) => token == Some(text) || (token.None? && text == "")
       case Number(printed) => printed == text
       case Clause(_) => text == ""
  }

  predicate NamesByValue(child: Child) {
    KeyIs(child, "var") || KeyIs(child, "variable") || KeyIs(child, "array")
  }

  predicate NamesByKey(child: Child) {
    child.LeafChild?
    && !KeyIs(child, "value") && !KeyIs(child, "tooltip") && !KeyIs(child, "var") && !KeyIs(child, "variable")
    && !KeyIs(child, "amount") && !KeyIs(child, "which")
  }

  predicate GivesValue(child: Child) {
    (KeyIs(child, "value") || KeyIs(child, "amount") || KeyIs(child, "add")) && !Carries(child, "")
  }

  // The value assigned in a block: what its first value child with something in
  // it carries.
  ghost predicate Assigns(children: seq<Child>, value: Option<string>) {
    match value
    case Some(text) =>
      exists i :: 0 <= i < |children| && GivesValue(children[i]) && Carries(children[i], text)
                  && forall k :: 0 <= k < i ==> !GivesValue(children[k])
    case None => forall k :: 0 <= k < |children| ==> !GivesValue(children[k])
  }

  ghost predicate NamedByValue(child: Child, children: seq<Child>, def: DefinedVariable) {
    NamesByValue(child) && def.name != "" && Carries(child, def.name) && Assigns(children, def.value)
    && def.pos == child.leaf.pos
  }

  ghost predicate NamedByKey(child: Child, def: DefinedVariable) {
    NamesByKey(child) && def.name == (if child.leaf.key.Some? then child.leaf.key.value else "")
    && def.pos == child.leaf.pos
    && match def.value case Some(text) => text != "" && Carries(child, text) case None => Carries(child, "")
  }

  // One child's definition: in a block with a var-like child only such children
  // define, and only when they carry a name.
  ghost predicate ChildDefines(children: seq<Child>, i: nat, def: DefinedVariable)
    requires i < |children|
  {
    if exists k :: 0 <= k < |children| && NamesByValue(children[k]) then NamedByValue(children[i], children, def)
    else NamedByKey(children[i], def)
  }

  ghost predicate ChildDefinesSome(children: seq<Child>, i: nat)
    requires i < |children|
  {
    if exists k :: 0 <= k < |children| && NamesByValue(children[k]) then
      NamesByValue(children[i]) && !Carries(children[i], "")
    else NamesByKey(children[i])
  }

  // `at` are the positions below n of the children that define, in order, and
  // `defs` what they define.
  ghost predicate DefinedBelow(children: seq<Child>, n: nat, at: seq<nat>, defs: seq<DefinedVariable>)
    requires n <= |children|
  {
    |at| == |defs|
    && (forall i, j :: 0 <= i < j < |at| ==> at[i] < at[j])
    && (forall j :: 0 <= j < |at| ==> at[j] < n && ChildDefines(children, at[j], defs[j]))
    && forall i :: 0 <= i < n && ChildDefinesSome(children, i) ==> i in at
  }

  ghost predicate BlockDefines(children: seq<Child>, defs: seq<DefinedVariable>) {
    exists at :: DefinedBelow(children, |children|, at, defs)
  }

  lemma KeyIsIn(child: Child)
    requires child.LeafChild?
    ensures KeyIn(child.leaf.key, VAR_KEYS) <==> NamesByValue(child)
    ensures !KeyIn(Some(OrEmpty(child.leaf.key)), SKIP_KEYS) <==> NamesByKey(child)
    ensures KeyIn(child.leaf.key, VALUE_KEYS) && ValueString(child.leaf.value) != "" <==> GivesValue(child)
  {
    LowerWords();
    var vars, values, skips := VAR_KEYS, VALUE_KEYS, SKIP_KEYS;
    var key := OrEmpty(child.leaf.key);
    hide Lower;
    assert EqIgnoreCase(key, vars[0]) <==> Lower(key) == "var";
    assert EqIgnoreCase(key, vars[1]) <==> Lower(key) == "variable";
    assert EqIgnoreCase(key, vars[2]) <==> Lower(key) == "array";
    assert EqIgnoreCase(key, values[0]) <==> Lower(key) == "value";
    assert EqIgnoreCase(key, values[1]) <==> Lower(key) == "amount";
    assert EqIgnoreCase(key, values[2]) <==> Lower(key) == "add";
    assert EqIgnoreCase(key, skips[0]) <==> Lower(key) == "value";
    assert EqIgnoreCase(key, skips[1]) <==> Lower(key) == "tooltip";
    assert EqIgnoreCase(key, skips[2]) <==> Lower(key) == "var";
    assert EqIgnoreCase(key, skips[3]) <==> Lower(key) == "variable";
    assert EqIgnoreCase(key, skips[4]) <==> Lower(key) == "amount";
    assert EqIgnoreCase(key, skips[5]) <==> Lower(key) == "which";
  }

  lemma LowerWords()
    ensures forall w :: w in VAR_KEYS + VALUE_KEYS + SKIP_KEYS + NAME_KEYS ==> Lower(w) == w
  {
    hide Lower;
    var words := VAR_KEYS + VALUE_KEYS + SKIP_KEYS + NAME_KEYS;
    forall i | 0 <= i < |words| ensures !HasUpper(words[i]) {
    }
    forall w | w in words ensures Lower(w) == w {
      NoUpperIsLower(w);
    }
  }

  lemma CarriesIs(child: Child)
    requires child.LeafChild?
    ensures forall text :: Carries(child, text) <==> text == ValueString(child.leaf.value)
  {
  }

  lemma {:induction false} SiblingAssigns(children: seq<Child>)
    ensures Assigns(children, SiblingValue(children))
  {
    hide KeyIn, GivesValue, ValueString, Carries;
    if children != [] {
      var first, rest := children[0], children[1..];
      SiblingAssigns(rest);
      if first.LeafChild? {
        KeyIsIn(first);
        CarriesIs(first);
      } else {
        OtherGivesNothing(first);
      }
      forall k | 0 <= k < |rest| ensures rest[k] == children[k + 1] {
      }
      if !GivesValue(first) {
        if text :| SiblingValue(rest) == Some(text) {
          var i :| 0 <= i < |rest| && GivesValue(rest[i]) && Carries(rest[i], text)
            && forall k :: 0 <= k < i ==> !GivesValue(rest[k]);
          assert forall k :: 0 < k < i + 1 ==> children[k] == rest[k - 1];
          assert GivesValue(children[i + 1]) && Carries(children[i + 1], text);
        } else {
          assert forall k :: 0 < k < |children| ==> children[k] == rest[k - 1];
        }
      }
    }
  }

  lemma OtherGivesNothing(child: Child)
    ensures child.Other? ==> !GivesValue(child) && !NamesByValue(child) && !NamesByKey(child)
  {
  }

  lemma ExplicitMeans(children: seq<Child>)
    ensures IsExplicit(children) <==> exists k :: 0 <= k < |children| && NamesByValue(children[k])
  {
    hide KeyIn, NamesByValue;
    forall k | 0 <= k < |children| ensures NamesVariable(children[k]) <==> NamesByValue(children[k]) {
      OtherGivesNothing(children[k]);
      if children[k].LeafChild? {
        KeyIsIn(children[k]);
      }
    }
  }

  function DefsBelow(children: seq<Child>, n: nat): seq<DefinedVariable>
    requires n <= |children|
  {
    if IsExplicit(children) then ExplicitDefs(children[..n], SiblingValue(children)) else ShorthandDefs(children[..n])
  }

  function DefAt(children: seq<Child>, n: nat): seq<DefinedVariable>
    requires n < |children|
  {
    if IsExplicit(children) then ExplicitDef(children[n], SiblingValue(children)) else ShorthandDef(children[n])
  }

  lemma OneChildDefines(children: seq<Child>, n: nat)
    requires n < |children|
    ensures |DefAt(children, n)| == if ChildDefinesSome(children, n) then 1 else 0
    ensures DefAt(children, n) != [] ==> ChildDefines(children, n, DefAt(children, n)[0])
  {
    hide KeyIn, GivesValue, IsExplicit, ValueString, Carries, NamesByKey, NamesByValue, Assigns;
    ExplicitMeans(children);
    SiblingAssigns(children);
    OtherGivesNothing(children[n]);
    if children[n].LeafChild? {
      KeyIsIn(children[n]);
      CarriesIs(children[n]);
    }
  }

  lemma {:induction false} DefsAreBelow(children: seq<Child>, n: nat) returns (at: seq<nat>)
    requires n <= |children|
    ensures DefinedBelow(children, n, at, DefsBelow(children, n))
  {
    hide ChildDefines, ChildDefinesSome, DefAt;
    if n == 0 {
      at := [];
    } else {
      at := DefsAreBelow(children, n - 1);
      hide DefsBelow;
      DefsBelowStep(children, n - 1);
      OneChildDefines(children, n - 1);
      at := DefinedOneMore(children, n - 1, at, DefsBelow(children, n - 1), DefAt(children, n - 1));
    }
  }

  lemma DefinedOneMore(children: seq<Child>, n: nat, at: seq<nat>, defs: seq<DefinedVariable>,
                       def: seq<DefinedVariable>)
    returns (more: seq<nat>)
    requires n < |children| && DefinedBelow(children, n, at, defs)
    requires |def| == if ChildDefinesSome(children, n) then 1 else 0
    requires def != [] ==> ChildDefines(children, n, def[0])
    ensures DefinedBelow(children, n + 1, more, defs + def)
  {
    hide ChildDefines, ChildDefinesSome;
    if def == [] {
      more := at;
      assert defs + def == defs;
    } else {
      more := at + [n];
      assert n in more;
      assert defs + def == defs + [def[0]];
    }
  }

  lemma DefsBelowStep(children: seq<Child>, n: nat)
    requires n < |children|
    ensures DefsBelow(children, n + 1) == DefsBelow(children, n) + DefAt(children, n)
  {
    hide IsExplicit, ExplicitDefs, ShorthandDefs, ExplicitDef, ShorthandDef;
    ExplicitStep(children, SiblingValue(children), n);
    ShorthandStep(children, n);
  }

  // A block defines what its children define.
  lemma DefinedByChild(children: seq<Child>, def: DefinedVariable)
    ensures def in BlockDefs(children) <==> exists i :: 0 <= i < |children| && ChildDefines(children, i, def)
  {
    hide ChildDefines, ChildDefinesSome;
    BlockMeans(children);
    var defs := BlockDefs(children);
    var at :| DefinedBelow(children, |children|, at, defs);
    if i :| 0 <= i < |children| && ChildDefines(children, i, def) {
      DefinesOnce(children, i, def, def);
      var j :| 0 <= j < |at| && at[j] == i;
      DefinesOnce(children, i, def, defs[j]);
    }
    if def in defs {
      var j :| 0 <= j < |defs| && defs[j] == def;
      assert ChildDefines(children, at[j], def);
    }
  }

  lemma AssignsOnce(children: seq<Child>, a: Option<string>, b: Option<string>)
    requires Assigns(children, a) && Assigns(children, b)
    ensures a == b
  {
    hide GivesValue;
    if a.Some? && b.Some? {
      var i :| 0 <= i < |children| && GivesValue(children[i]) && Carries(children[i], a.value)
               && forall k :: 0 <= k < i ==> !GivesValue(children[k]);
      var j :| 0 <= j < |children| && GivesValue(children[j]) && Carries(children[j], b.value)
               && forall k :: 0 <= k < j ==> !GivesValue(children[k]);
      assert i == j;
    }
  }

  lemma DefinesOnce(children: seq<Child>, i: nat, a: DefinedVariable, b: DefinedVariable)
    requires i < |children| && ChildDefines(children, i, a) && ChildDefines(children, i, b)
    ensures a == b && ChildDefinesSome(children, i)
  {
    hide NamesByKey, NamesByValue, Assigns;
    if exists k :: 0 <= k < |children| && NamesByValue(children[k]) {
      AssignsOnce(children, a.value, b.value);
    }
  }

  // What a block defines, child by child and in order.
  lemma BlockMeans(children: seq<Child>)
    ensures BlockDefines(children, BlockDefs(children))
  {
    hide DefinedBelow, IsExplicit;
    var at := DefsAreBelow(children, |children|);
    assert children[..|children|] == children;
    assert DefsBelow(children, |children|) == BlockDefs(children);
  }

  // `set_variable = { my_var = 5 }` defines my_var with the value 5, and a block
  // that only carries a value defines nothing.
  lemma ShorthandDefinesItsKey(pos: Range)
    ensures BlockDefs([LeafChild(Leaf(Some("my_var"), Number("5"), pos))])
         == [DefinedVariable("my_var", Some("5"), pos)]
    ensures BlockDefs([LeafChild(Leaf(Some("value"), Number("5"), pos))]) == []
  {
    hide Lower, SiblingValue, BlockDefs, KeyIn;
    var named := LeafChild(Leaf(Some("my_var"), Number("5"), pos));
    var valued := LeafChild(Leaf(Some("value"), Number("5"), pos));
    NoUpperIsLower("my_var");
    NoUpperIsLower("value");
    KeyIsIn(named);
    KeyIsIn(valued);
    OnlyChild(named);
    OnlyChild(valued);
  }

  lemma OnlyChild(child: Child)
    ensures !NamesVariable(child) ==> BlockDefs([child]) == ShorthandDef(child)
  {
    assert [child][..0] == [];
    ShorthandStep([child], 0);
    assert [child][..1] == [child];
    assert ShorthandDefs([]) == [];
  }

  // `text` is what stands between the quotes of `raw`, or `raw` itself.
  ghost predicate Spells(raw: string, text: string) {
    if |raw| >= 2 && raw[0] == '"' && raw[|raw| - 1] == '"' then raw == "\"" + text + "\"" else raw == text
  }

  // `name` is what a written value names: its text up to the first '@'.
  ghost predicate Names(raw: string, name: string) {
    name != "" && '@' !in name && exists text :: Spells(raw, text) && (text == name || name + "@" <= text)
  }

  lemma UnquoteSpells(raw: string)
    ensures forall text :: Spells(raw, text) <==> text == Unquote(raw)
  {
    assert forall text :: raw == "\"" + text + "\"" ==> raw[1..|raw| - 1] == text;
    assert Unquote(raw) != raw ==> raw == "\"" + Unquote(raw) + "\"";
  }

  lemma MembersMean(ns: string, raw: string, m: Member)
    ensures m in Members(ns, raw) <==> m.ns == ns && Names(raw, m.name)
  {
    hide Find, Unquote, Spells;
    UnquoteSpells(raw);
    var v := Unquote(raw);
    var i := Find(v, IsAt);
    if m in Members(ns, raw) {
      assert m.name == v[..i] && Spells(raw, v);
      assert if i < |v| then m.name + "@" <= v else m.name == v;
    }
    if m.ns == ns && Names(raw, m.name) {
      FindsAt(v, m.name);
      assert Members(ns, raw) == [m];
    }
  }

  lemma FindsAt(v: string, name: string)
    requires '@' !in name && (v == name || name + "@" <= v)
    ensures Find(v, IsAt) == |name| && v[..|name|] == name
  {
    hide Find;
    if v != name {
      assert v[|name|] == (name + "@")[|name|];
      assert v[..|name|] == name;
    }
    forall k | 0 <= k < |name| ensures v[k] == name[k] && v[k] != '@' {
    }
  }

  predicate CarriesName(child: Child) {
    (KeyIs(child, "flag") || KeyIs(child, "name") || KeyIs(child, "token") || KeyIs(child, "var")
     || KeyIs(child, "variable"))
    && child.leaf.value.Text? && child.leaf.value.token.Some?
  }

  // The first binding of a field is the j-th and names that set.
  ghost predicate FirstBinding(bindings: seq<Binding>, field: string, j: int, ns: string) {
    0 <= j < |bindings| && EqIgnoreCase(field, bindings[j].field) && bindings[j].ns == ns
    && forall k :: 0 <= k < j ==> !EqIgnoreCase(field, bindings[k].field)
  }

  // A child writes into the set that the first binding of its field names.
  ghost predicate WritesBound(bindings: seq<Binding>, child: Child, m: Member) {
    child.LeafChild? && child.leaf.key.Some? && child.leaf.value.Text? && child.leaf.value.token.Some?
    && Names(child.leaf.value.token.value, m.name) && m.ns != "variable"
    && exists j :: FirstBinding(bindings, child.leaf.key.value, j, m.ns)
  }

  // The first child that carries a name writes it.
  ghost predicate WritesFirst(children: seq<Child>, name: string) {
    exists i :: 0 <= i < |children| && CarriesName(children[i]) && Names(children[i].leaf.value.token.value, name)
                && forall k :: 0 <= k < i ==> !CarriesName(children[k])
  }

  // What one leaf writes: its own text, or in its block what the bound fields
  // hold, or without bindings the first name.
  ghost predicate Writes(rules: Rules, leaf: Leaf, m: Member) {
    leaf.key.Some?
    && var key := Lower(leaf.key.value);
       key in rules.effects && rules.effects[key] != "variable"
       && match leaf.value
          case Text(token) => m.ns == rules.effects[key] && token.Some? && Names(token.value, m.name)
          case Number(_) => false
          case Clause(children) =>
            if key in rules.fields && rules.fields[key] != [] then
              exists i :: 0 <= i < |children| && WritesBound(rules.fields[key], children[i], m)
            else m.ns == rules.effects[key] && WritesFirst(children, m.name)
  }

  lemma {:induction false} BoundToFirst(bindings: seq<Binding>, key: string, ns: string)
    ensures BoundTo(bindings, Some(key)) == Some(ns) <==> exists j :: FirstBinding(bindings, key, j, ns)
  {
    hide EqIgnoreCase;
    if bindings != [] {
      var rest := bindings[1..];
      if EqIgnoreCase(key, bindings[0].field) {
        assert bindings[0].ns == ns ==> FirstBinding(bindings, key, 0, ns);
      } else {
        BoundToFirst(rest, key, ns);
        if j :| FirstBinding(rest, key, j, ns) {
          assert forall k :: 0 < k < j + 1 ==> bindings[k] == rest[k - 1];
          assert FirstBinding(bindings, key, j + 1, ns);
        }
        if j :| FirstBinding(bindings, key, j, ns) {
          assert forall k :: 0 <= k < j - 1 ==> rest[k] == bindings[k + 1];
          assert FirstBinding(rest, key, j - 1, ns);
        }
      }
    }
  }

  lemma BoundMemberMeans(bindings: seq<Binding>, child: Child, m: Member)
    ensures m in BoundMember(bindings, child) <==> WritesBound(bindings, child, m)
  {
    hide FirstBinding, Names, BoundTo, Members;
    if child.LeafChild? && child.leaf.key.Some? && child.leaf.value.Text? {
      BoundToFirst(bindings, child.leaf.key.value, m.ns);
      if child.leaf.value.token.Some? {
        MembersMean(m.ns, child.leaf.value.token.value, m);
        var bound := BoundTo(bindings, child.leaf.key);
        if bound.Some? {
          MembersMean(bound.value, child.leaf.value.token.value, m);
        }
      }
    } else if child.LeafChild? {
      NoKeyIsUnbound(bindings);
    }
  }

  lemma NoKeyIsUnbound(bindings: seq<Binding>)
    ensures BoundTo(bindings, None) == None
  {
  }

  lemma {:induction false} BoundMembersMean(bindings: seq<Binding>, children: seq<Child>, m: Member)
    ensures m in BoundMembers(bindings, children) <==>
            exists i :: 0 <= i < |children| && WritesBound(bindings, children[i], m)
  {
    hide WritesBound, BoundMember;
    if children != [] {
      var front := children[..|children| - 1];
      BoundMembersMean(bindings, front, m);
      BoundMemberMeans(bindings, children[|children| - 1], m);
      forall i | 0 <= i < |front| ensures front[i] == children[i] {
      }
    }
  }

  lemma NamesMemberIs(child: Child)
    ensures NamesMember(child) <==> CarriesName(child)
  {
    LowerWords();
    hide Lower;
    if child.LeafChild? {
      var names, key := NAME_KEYS, OrEmpty(child.leaf.key);
      assert EqIgnoreCase(key, names[0]) <==> Lower(key) == "flag";
      assert EqIgnoreCase(key, names[1]) <==> Lower(key) == "name";
      assert EqIgnoreCase(key, names[2]) <==> Lower(key) == "token";
      assert EqIgnoreCase(key, names[3]) <==> Lower(key) == "var";
      assert EqIgnoreCase(key, names[4]) <==> Lower(key) == "variable";
    }
  }

  lemma {:induction false} FirstNamedMeans(ns: string, children: seq<Child>, m: Member)
    ensures m in FirstNamed(ns, children) <==> m.ns == ns && WritesFirst(children, m.name)
  {
    hide Names, NamesMember, Members, CarriesName;
    if children != [] {
      var first, rest := children[0], children[1..];
      NamesMemberIs(first);
      if CarriesName(first) {
        NamedLeaf(first);
        MembersMean(ns, first.leaf.value.token.value, m);
      } else {
        FirstNamedMeans(ns, rest, m);
        WritesFirstLater(children, m.name);
      }
    }
  }

  lemma NamedLeaf(child: Child)
    requires CarriesName(child)
    ensures NamesMember(child) && child.LeafChild? && child.leaf.value.Text? && child.leaf.value.token.Some?
  {
    NamesMemberIs(child);
  }

  lemma WritesFirstLater(children: seq<Child>, name: string)
    requires children != [] && !CarriesName(children[0])
    ensures WritesFirst(children, name) <==> WritesFirst(children[1..], name)
  {
    hide Names;
    var rest := children[1..];
    if WritesFirst(rest, name) {
      var i :| 0 <= i < |rest| && CarriesName(rest[i]) && Names(rest[i].leaf.value.token.value, name)
        && forall k :: 0 <= k < i ==> !CarriesName(rest[k]);
      assert forall k :: 0 < k < i + 1 ==> children[k] == rest[k - 1];
      assert CarriesName(children[i + 1]);
    }
    if WritesFirst(children, name) {
      var i :| 0 <= i < |children| && CarriesName(children[i]) && Names(children[i].leaf.value.token.value, name)
        && forall k :: 0 <= k < i ==> !CarriesName(children[k]);
      assert forall k :: 0 <= k < i - 1 ==> rest[k] == children[k + 1];
      assert CarriesName(rest[i - 1]);
    }
  }

  lemma LeafMembersMean(rules: Rules, leaf: Leaf, m: Member)
    ensures m in LeafMembers(rules, leaf) <==> Writes(rules, leaf, m)
  {
    hide Names, Members, BoundMembers, FirstNamed, WritesBound, WritesFirst, Lower;
    var ns := Namespace(rules, leaf.key);
    if ns.Some? {
      match leaf.value
      case Text(token) =>
        if token.Some? {
          MembersMean(ns.value, token.value, m);
        }
      case Clause(children) =>
        BoundMembersMean(Bindings(rules, leaf.key), children, m);
        FirstNamedMeans(ns.value, children, m);
      case Number(_) =>
    }
  }

  // ---- What the walks find, leaf by leaf ------------------------------------------------

  // `leaf` occurs at some depth below `children`.
  predicate Occurs(children: seq<Child>, leaf: Leaf)
    decreases children
  {
    children != []
    && (Occurs(children[..|children| - 1], leaf) || OccursAt(children[|children| - 1], leaf))
  }

  predicate OccursAt(child: Child, leaf: Leaf)
    decreases child
  {
    child.LeafChild?
    && (child.leaf == leaf || (child.leaf.value.Clause? && Occurs(child.leaf.value.children, leaf)))
  }

  // A block whose key writes the set of variables.
  predicate IsVariableBlock(rules: Rules, leaf: Leaf) {
    leaf.key.Some? && Lower(leaf.key.value) in rules.effects
    && rules.effects[Lower(leaf.key.value)] == "variable"
  }

  // The same, without passing through a `variable` block.
  predicate Visible(rules: Rules, children: seq<Child>, leaf: Leaf)
    decreases children
  {
    children != []
    && (Visible(rules, children[..|children| - 1], leaf) || VisibleAt(rules, children[|children| - 1], leaf))
  }

  predicate VisibleAt(rules: Rules, child: Child, leaf: Leaf)
    decreases child
  {
    child.LeafChild?
    && (child.leaf == leaf
        || (child.leaf.value.Clause? && !IsVariableBlock(rules, child.leaf)
            && Visible(rules, child.leaf.value.children, leaf)))
  }

  ghost predicate DefinedIn(effects: set<string>, leaf: Leaf, def: DefinedVariable) {
    leaf.value.Clause? && leaf.key.Some? && Lower(leaf.key.value) in effects
    && exists i :: 0 <= i < |leaf.value.children| && ChildDefines(leaf.value.children, i, def)
  }

  lemma DefinedInMeans(effects: set<string>, leaf: Leaf, def: DefinedVariable)
    ensures DefinedIn(effects, leaf, def)
       <==> leaf.value.Clause? && Defines(effects, leaf.key) && def in BlockDefs(leaf.value.children)
  {
    hide BlockDefs, ChildDefines, Lower;
    if leaf.value.Clause? {
      DefinedByChild(leaf.value.children, def);
    }
  }

  // A variable is listed exactly when some block with a defining key, at any
  // depth, defines it.
  lemma {:induction false} DefsComeFromBlocks(effects: set<string>, children: seq<Child>, def: DefinedVariable)
    ensures def in DefsOf(effects, children) <==> exists leaf :: Occurs(children, leaf) && DefinedIn(effects, leaf, def)
    decreases children
  {
    hide DefinedIn;
    if children != [] {
      var front, last := children[..|children| - 1], children[|children| - 1];
      DefsComeFromBlocks(effects, front, def);
      DefsComeFromBlocksAt(effects, last, def);
      if leaf :| Occurs(front, leaf) && DefinedIn(effects, leaf, def) {
        assert Occurs(children, leaf);
      }
      if leaf :| OccursAt(last, leaf) && DefinedIn(effects, leaf, def) {
        assert Occurs(children, leaf);
      }
      if leaf :| Occurs(children, leaf) && DefinedIn(effects, leaf, def) {
        assert Occurs(front, leaf) || OccursAt(last, leaf);
      }
    }
  }

  lemma {:induction false} DefsComeFromBlocksAt(effects: set<string>, child: Child, def: DefinedVariable)
    ensures def in DefsAt(effects, child) <==> exists leaf :: OccursAt(child, leaf) && DefinedIn(effects, leaf, def)
    decreases child
  {
    hide BlockDefs, Defines, DefinedIn;
    if child.LeafChild? {
      assert OccursAt(child, child.leaf);
      DefinedInMeans(effects, child.leaf, def);
      if child.leaf.value.Clause? {
        var below := child.leaf.value.children;
        DefsComeFromBlocks(effects, below, def);
        if leaf :| Occurs(below, leaf) && DefinedIn(effects, leaf, def) {
          assert OccursAt(child, leaf);
        }
        if leaf :| OccursAt(child, leaf) && DefinedIn(effects, leaf, def) {
          assert leaf == child.leaf || Occurs(below, leaf);
        }
      }
    }
  }

  // A block's own definitions come before those of the blocks in it:
  // `set_variable = { a = 1 set_variable = { b = 2 } }` defines a, the inner key
  // and b.
  lemma OuterBlockFirst(pos: Range, a: Child, b: Child, inner: Child, outer: Child)
    requires a == Assignment("a", "1", pos) && b == Assignment("b", "2", pos)
    requires inner == LeafChild(Leaf(Some("set_variable"), Clause([b]), pos))
    requires outer == LeafChild(Leaf(Some("set_variable"), Clause([a, inner]), pos))
    ensures DefsOf({"set_variable"}, [outer])
         == [DefinedVariable("a", Some("1"), pos), DefinedVariable("set_variable", None, pos),
             DefinedVariable("b", Some("2"), pos)]
  {
    hide BlockDefs, DefsAt, DefsOf;
    OuterDefs(pos, a, b, inner);
    InnerBlock(pos, b, inner);
    NothingThenOne({"set_variable"}, outer);
    Opened(outer.leaf, [a, inner]);
    OneThenOther({"set_variable"}, a, inner);
    Unopened(a);
  }

  lemma OuterDefs(pos: Range, a: Child, b: Child, inner: Child)
    requires a == Assignment("a", "1", pos)
    requires inner == LeafChild(Leaf(Some("set_variable"), Clause([b]), pos))
    ensures BlockDefs([a, inner])
         == [DefinedVariable("a", Some("1"), pos), DefinedVariable("set_variable", None, pos)]
  {
    hide Lower, BlockDefs, KeyIn, ShorthandDef, NamesVariable;
    PlainShorthand(a, "a");
    PlainShorthand(inner, "set_variable");
    BothChildren(a, inner);
  }

  lemma Opened(leaf: Leaf, children: seq<Child>)
    requires leaf.key == Some("set_variable") && leaf.value == Clause(children)
    ensures DefsAt({"set_variable"}, LeafChild(leaf)) == BlockDefs(children) + DefsOf({"set_variable"}, children)
  {
    hide Lower, BlockDefs, DefsOf;
    NoUpperIsLower("set_variable");
  }

  lemma Unopened(child: Child)
    requires child.LeafChild? && child.leaf.value.Number?
    ensures DefsAt({"set_variable"}, child) == []
  {
  }

  lemma InnerBlock(pos: Range, b: Child, inner: Child)
    requires b == Assignment("b", "2", pos) && inner == LeafChild(Leaf(Some("set_variable"), Clause([b]), pos))
    ensures DefsAt({"set_variable"}, inner) == [DefinedVariable("b", Some("2"), pos)]
  {
    hide Lower, BlockDefs, KeyIn, DefsAt, DefsOf, ShorthandDef, NamesVariable;
    PlainShorthand(b, "b");
    OnlyChild(b);
    Opened(inner.leaf, [b]);
    NothingThenOne({"set_variable"}, b);
    Unopened(b);
  }

  lemma PlainShorthand(child: Child, key: string)
    requires key in ["a", "b", "set_variable"] && child.LeafChild? && child.leaf.key == Some(key)
    ensures !NamesVariable(child)
    ensures ShorthandDef(child) == [DefinedVariable(key, NonEmpty(ValueString(child.leaf.value)), child.leaf.pos)]
  {
    hide Lower, KeyIn;
    NoUpperIsLower(key);
    KeyIsIn(child);
  }

  function Assignment(key: string, printed: string, pos: Range): Child {
    LeafChild(Leaf(Some(key), Number(printed), pos))
  }

  lemma BothChildren(a: Child, b: Child)
    ensures !NamesVariable(a) && !NamesVariable(b) ==> BlockDefs([a, b]) == ShorthandDef(a) + ShorthandDef(b)
  {
    hide NamesVariable, ShorthandDef;
    ShorthandStep([a, b], 0);
    ShorthandStep([a, b], 1);
    assert [a, b][..0] == [] && [a, b][..2] == [a, b];
    assert ShorthandDefs([]) == [];
  }

  lemma OneThenOther(effects: set<string>, a: Child, b: Child)
    ensures DefsOf(effects, [a, b]) == DefsAt(effects, a) + DefsAt(effects, b)
  {
    hide DefsAt;
    NoDefs(effects);
    DefsStep(effects, [a, b], 0);
    DefsStep(effects, [a, b], 1);
    assert [a, b][..0] == [] && [a, b][..2] == [a, b];
  }

  lemma NothingThenOne(effects: set<string>, a: Child)
    ensures DefsOf(effects, [a]) == DefsAt(effects, a)
  {
    hide DefsAt;
    NoDefs(effects);
    DefsStep(effects, [a], 0);
    assert [a][..0] == [] && [a][..1] == [a];
  }

  // A member is written exactly by a leaf that the walk sees and that writes it.
  lemma {:induction false} MembersComeFromLeaves(rules: Rules, children: seq<Child>, m: Member)
    ensures m in MembersOf(rules, children) <==>
            exists leaf :: Visible(rules, children, leaf) && Writes(rules, leaf, m)
    decreases children
  {
    hide Writes;
    if children != [] {
      var front, last := children[..|children| - 1], children[|children| - 1];
      MembersComeFromLeaves(rules, front, m);
      MembersComeFromLeavesAt(rules, last, m);
      if leaf :| Visible(rules, front, leaf) && Writes(rules, leaf, m) {
        assert Visible(rules, children, leaf);
      }
      if leaf :| VisibleAt(rules, last, leaf) && Writes(rules, leaf, m) {
        assert Visible(rules, children, leaf);
      }
      if leaf :| Visible(rules, children, leaf) && Writes(rules, leaf, m) {
        assert Visible(rules, front, leaf) || VisibleAt(rules, last, leaf);
      }
    }
  }

  lemma EntersOthers(rules: Rules, leaf: Leaf)
    ensures Enters(rules, leaf) <==> leaf.value.Clause? && !IsVariableBlock(rules, leaf)
  {
  }

  lemma {:induction false} MembersComeFromLeavesAt(rules: Rules, child: Child, m: Member)
    ensures m in MembersAt(rules, child) <==> exists leaf :: VisibleAt(rules, child, leaf) && Writes(rules, leaf, m)
    decreases child
  {
    hide LeafMembers, Enters, IsVariableBlock, Writes;
    if child.LeafChild? {
      assert VisibleAt(rules, child, child.leaf);
      LeafMembersMean(rules, child.leaf, m);
      EntersOthers(rules, child.leaf);
      if Enters(rules, child.leaf) {
        var below := child.leaf.value.children;
        MembersComeFromLeaves(rules, below, m);
        if leaf :| Visible(rules, below, leaf) && Writes(rules, leaf, m) {
          assert VisibleAt(rules, child, leaf);
        }
      }
      if leaf :| VisibleAt(rules, child, leaf) && Writes(rules, leaf, m) {
        assert leaf == child.leaf || (Enters(rules, child.leaf) && Visible(rules, child.leaf.value.children, leaf));
      }
    }
  }

  // Without value-set rules no leaf writes anything.
  lemma EmptyRulesWriteNothing(rules: Rules, children: seq<Child>)
    ensures rules.effects == map[] ==> MembersOf(rules, children) == []
  {
    var members := MembersOf(rules, children);
    if rules.effects == map[] && members != [] {
      MembersComeFromLeaves(rules, children, members[0]);
    }
  }

  // Variables are never stored as value-set members.
  lemma NoVariableMembers(rules: Rules, children: seq<Child>, m: Member)
    requires m in MembersOf(rules, children)
    ensures m.ns != "variable"
  {
    hide Lower, Names, WritesFirst;
    MembersComeFromLeaves(rules, children, m);
  }
}

/** Interned strings, string_table.rs, reduced to one shard: a token is the id of
    the exact text together with the id of its lower-case form. */
module StringTables {
  import opened Text

  type Id = nat

  datatype Token = Token(lower: Id, normal: Id)

  // Slot 0 is the empty string's.
  const EMPTY: Token := Token(0, 0)

  function Resolve(texts: seq<string>, id: Id): (r: Option<string>)
    ensures r.Some? <==> id < |texts|
  {
    if id < |texts| then Some(texts[id]) else None
  }

  // The token a text has been given, if any.
  function TokenOf(exact: map<string, Token>, s: string): Option<Token> {
    if s == "" then Some(EMPTY)
    else if s in exact then Some(exact[s])
    else None
  }

  // A token the table handed out: the one it would hand out again for that text.
  ghost predicate Issued(texts: seq<string>, exact: map<string, Token>, t: Token) {
    t.normal < |texts| && TokenOf(exact, texts[t.normal]) == Some(t)
  }

  ghost predicate Extends(before: map<string, Token>, now: map<string, Token>) {
    forall s :: s in before ==> s in now && now[s] == before[s]
  }

  // Lower-casing, whatever its tables: it makes nothing empty and fills nothing.
  type Folding = string -> string

  ghost predicate KeepsEmpty(fold: Folding) {
    forall s :: fold(s) == "" <==> s == ""
  }

  ghost predicate Consistent(fold: Folding, texts: seq<string>, exact: map<string, Token>, lowers: map<string, Token>) {
    KeepsEmpty(fold) && |texts| > 0 && texts[0] == "" && "" !in exact
    && (forall s :: s in exact ==>
          Resolve(texts, exact[s].normal) == Some(s) && Resolve(texts, exact[s].lower) == Some(fold(s))
          && fold(s) in lowers && exact[s].lower == lowers[fold(s)].lower)
    && forall s :: s in lowers ==> Resolve(texts, lowers[s].lower) == Some(s)
  }

  // A new text takes a token whose lower half is the one on record for its folding.
  lemma TokenKeeps(fold: Folding, texts: seq<string>, exact: map<string, Token>, lowers: map<string, Token>,
                   s: string, t: Token, more: seq<string>, known: map<string, Token>)
    requires Consistent(fold, texts, exact, lowers) && s != "" && texts <= more
    requires Resolve(more, t.normal) == Some(s)
    requires known == if fold(s) in lowers then lowers else lowers[fold(s) := Token(t.lower, t.lower)]
    requires known[fold(s)].lower == t.lower && (fold(s) !in lowers ==> Resolve(more, t.lower) == Some(fold(s)))
    ensures Consistent(fold, more, exact[s := t], known)
  {
    forall id | Resolve(texts, id).Some? ensures Resolve(more, id) == Resolve(texts, id) {
    }
  }

  class StringTable {
    const fold: Folding
    var texts: seq<string>
    var exact: map<string, Token>
    var lowers: map<string, Token>

    ghost predicate Valid()
      reads this
    {
      Consistent(fold, texts, exact, lowers)
    }

    constructor (folding: Folding)
      requires KeepsEmpty(folding)
      ensures Valid() && fold == folding && texts == [""] && exact == map[]
    {
      fold, texts, exact, lowers := folding, [""], map[], map[];
    }

    // The same text always gets the same token; older tokens keep their meaning.
    method Intern(s: string) returns (t: Token)
      requires Valid()
      modifies this
      ensures Valid()
      ensures old(texts) <= texts && Extends(old(exact), exact)
      ensures TokenOf(exact, s) == Some(t)
      ensures if s == "" then t == EMPTY else s in exact && exact[s] == t
      ensures Resolve(texts, t.normal) == Some(s) && Resolve(texts, t.lower) == Some(fold(s))
      ensures forall u :: TokenOf(exact, u).Some? ==> (TokenOf(exact, u).value.lower == t.lower <==> fold(u) == fold(s))
      ensures s == "" || s in old(exact) ==> exact == old(exact) && texts == old(texts)
    {
      hide Consistent;
      if s == "" || s in exact {
        t := if s == "" then EMPTY else exact[s];
        IssuedResolves(fold, texts, exact, lowers, s, t);
        LowersFollow(fold, texts, exact, lowers, s);
        return;
      }
      ghost var was := texts;
      var lowerKey := fold(s);
      var normalId := |texts|;
      texts := texts + [s];
      if lowerKey in lowers {
        t := Token(lowers[lowerKey].lower, normalId);
        TokenKeeps(fold, was, exact, lowers, s, t, texts, lowers);
        exact := exact[s := t];
        IssuedResolves(fold, texts, exact, lowers, s, t);
        LowersFollow(fold, texts, exact, lowers, s);
        return;
      }
      var lowerId := |texts|;
      texts := texts + [lowerKey];
      t := Token(lowerId, normalId);
      TokenKeeps(fold, was, exact, lowers, s, t, texts, lowers[lowerKey := Token(lowerId, lowerId)]);
      lowers := lowers[lowerKey := Token(lowerId, lowerId)];
      exact := exact[s := t];
      IssuedResolves(fold, texts, exact, lowers, s, t);
      LowersFollow(fold, texts, exact, lowers, s);
    }

    method InternBatch(strings: seq<string>) returns (tokens: seq<Token>)
      requires Valid()
      modifies this
      ensures Valid()
      ensures old(texts) <= texts && Extends(old(exact), exact)
      ensures |tokens| == |strings|
      ensures forall k :: 0 <= k < |strings| ==> TokenOf(exact, strings[k]) == Some(tokens[k])
      ensures forall k :: 0 <= k < |strings| ==>
                Resolve(texts, tokens[k].normal) == Some(strings[k])
                && Resolve(texts, tokens[k].lower) == Some(fold(strings[k]))
    {
      hide Consistent;
      tokens := [];
      var i := 0;
      while i < |strings|
        invariant 0 <= i <= |strings|
        invariant Valid() && old(texts) <= texts && Extends(old(exact), exact)
        invariant |tokens| == i
        invariant forall k :: 0 <= k < i ==> TokenOf(exact, strings[k]) == Some(tokens[k])
        invariant forall k :: 0 <= k < i ==>
          Resolve(texts, tokens[k].normal) == Some(strings[k])
          && Resolve(texts, tokens[k].lower) == Some(fold(strings[k]))
      {
        var t := Intern(strings[i]);
        tokens := tokens + [t];
        i := i + 1;
      }
    }
  }

  // A token resolves to the text it was issued for, and its lower half to that
  // text's lower-case form.
  lemma IssuedResolves(fold: Folding, texts: seq<string>, exact: map<string, Token>, lowers: map<string, Token>,
                       s: string, t: Token)
    requires Consistent(fold, texts, exact, lowers) && TokenOf(exact, s) == Some(t)
    ensures Resolve(texts, t.normal) == Some(s) && Resolve(texts, t.lower) == Some(fold(s))
    ensures Issued(texts, exact, t)
  {
  }

  lemma LowersFollow(fold: Folding, texts: seq<string>, exact: map<string, Token>, lowers: map<string, Token>,
                     s: string)
    requires Consistent(fold, texts, exact, lowers) && TokenOf(exact, s).Some?
    ensures forall u :: TokenOf(exact, u).Some? ==>
              (TokenOf(exact, u).value.lower == TokenOf(exact, s).value.lower <==> fold(u) == fold(s))
  {
    hide Consistent, TokenOf;
    forall u | TokenOf(exact, u).Some? {
      TokensCompareTexts(fold, texts, exact, lowers, u, s);
    }
  }

  // Comparing tokens compares texts, and comparing their lower halves compares
  // texts without regard to case.
  lemma TokensCompareTexts(fold: Folding, texts: seq<string>, exact: map<string, Token>, lowers: map<string, Token>,
                           a: string, b: string)
    requires Consistent(fold, texts, exact, lowers) && TokenOf(exact, a).Some? && TokenOf(exact, b).Some?
    ensures TokenOf(exact, a) == TokenOf(exact, b) <==> a == b
    ensures TokenOf(exact, a).value.lower == TokenOf(exact, b).value.lower <==> fold(a) == fold(b)
  {
  }
}

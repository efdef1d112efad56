/** The localisation key index, loc_index.rs: building it from files, folding
    another index in, and what each key's representative entry is. */
module LocIndexes {
  import opened Text

  datatype Lang = English | Other(code: string)

  // Scripted commands sit in either list; an entry without any bears none.
  // `lowerKey` is what the library's lower-casing makes of the key.
  datatype LocEntry = LocEntry(key: string, lowerKey: string, desc: string, commands: seq<string>,
                               jominiCommands: seq<string>)

  // A file whose language is unknown is skipped.
  datatype LocFile = LocFile(lang: Option<Lang>, entries: seq<LocEntry>)

  // One entry of a file with a language.
  datatype Cell = Cell(lang: Lang, entry: LocEntry)

  type KeySets = map<Lang, set<string>>

  function Key(c: Cell): string { c.entry.lowerKey }

  predicate Bears(c: Cell) { c.entry.commands != [] || c.entry.jominiCommands != [] }

  // ---- What files hold ------------------------------------------------------------

  function FileCells(file: LocFile): seq<Cell> {
    if file.lang.None? then []
    else seq(|file.entries|, i requires 0 <= i < |file.entries| => Cell(file.lang.value, file.entries[i]))
  }

  // Every entry, in file order.
  function Cells(files: seq<LocFile>): seq<Cell> {
    if files == [] then [] else Cells(files[..|files| - 1]) + FileCells(files[|files| - 1])
  }

  function KeysIn(cells: seq<Cell>, lang: Lang): set<string> {
    set c | c in cells && c.lang == lang :: Key(c)
  }

  function AllKeys(cells: seq<Cell>): set<string> {
    set c | c in cells :: Key(c)
  }

  function Append<T(==)>(s: seq<T>, x: T): seq<T> {
    if x in s then s else s + [x]
  }

  // The languages that have a file, each where it first appears.
  function Langs(files: seq<LocFile>): seq<Lang> {
    if files == [] then []
    else
      var before, last := Langs(files[..|files| - 1]), files[|files| - 1];
      if last.lang.None? then before else Append(before, last.lang.value)
  }

  predicate Allowed(scope: Option<seq<Lang>>, lang: Lang) {
    scope.None? || lang in scope.value
  }

  function Scoped(langs: seq<Lang>, scope: Option<seq<Lang>>): seq<Lang> {
    if langs == [] then []
    else
      var before, last := Scoped(langs[..|langs| - 1], scope), langs[|langs| - 1];
      if Allowed(scope, last) then before + [last] else before
  }

  // ---- The representative entry of a key ---------------------------------------------

  predicate BearsFor(c: Cell, key: string) {
    Bears(c) && Key(c) == key
  }

  ghost predicate LastEnglish(cells: seq<Cell>, key: string, i: nat) {
    i < |cells| && BearsFor(cells[i], key) && cells[i].lang == English
    && forall j :: i < j < |cells| && cells[j].lang == English ==> !BearsFor(cells[j], key)
  }

  ghost predicate First(cells: seq<Cell>, key: string, i: nat) {
    i < |cells| && BearsFor(cells[i], key) && forall j :: 0 <= j < i ==> !BearsFor(cells[j], key)
  }

  ghost predicate Stored(entries: map<string, LocEntry>, key: string, entry: LocEntry) {
    key in entries && entries[key] == entry
  }

  // With English, the last English entry that bears commands, and nothing when
  // none does; without, the first entry of any language that bears some.
  ghost predicate Represents(cells: seq<Cell>, english: bool, entries: map<string, LocEntry>, key: string) {
    if english then
      (forall i: nat :: LastEnglish(cells, key, i) ==> Stored(entries, key, cells[i].entry))
      && ((forall i: nat :: !LastEnglish(cells, key, i)) ==> key !in entries)
    else
      (forall i: nat :: First(cells, key, i) ==> Stored(entries, key, cells[i].entry))
      && ((forall i: nat :: !First(cells, key, i)) ==> key !in entries)
  }

  ghost predicate AllRepresented(cells: seq<Cell>, english: set<string>, entries: map<string, LocEntry>) {
    forall key :: Represents(cells, key in english, entries, key)
  }

  // What the second pass does with one entry.
  function Consider(cell: Cell, english: set<string>, entries: map<string, LocEntry>): map<string, LocEntry> {
    if !Bears(cell) then entries
    else if cell.lang != English && (Key(cell) in english || Key(cell) in entries) then entries
    else entries[Key(cell) := cell.entry]
  }

  lemma ConsiderRepresents(cells: seq<Cell>, cell: Cell, english: set<string>, entries: map<string, LocEntry>,
                           key: string)
    requires Represents(cells, key in english, entries, key)
    requires cell.lang == English ==> Key(cell) in english
    ensures Represents(cells + [cell], key in english, Consider(cell, english, entries), key)
  {
    hide Key, Bears;
    var all, now := cells + [cell], Consider(cell, english, entries);
    if key in english {
      ConsiderEnglish(cells, cell, english, entries, key);
    } else {
      ConsiderOther(cells, cell, english, entries, key);
    }
  }

  lemma ConsiderEnglish(cells: seq<Cell>, cell: Cell, english: set<string>, entries: map<string, LocEntry>, key: string)
    requires key in english && Represents(cells, true, entries, key)
    requires cell.lang == English ==> Key(cell) in english
    ensures Represents(cells + [cell], true, Consider(cell, english, entries), key)
  {
    hide Key, Bears;
    var all, now := cells + [cell], Consider(cell, english, entries);
    if BearsFor(cell, key) && cell.lang == English {
      assert all[|cells|] == cell;
      assert LastEnglish(all, key, |cells|);
    } else {
      forall i: nat | LastEnglish(cells, key, i) ensures LastEnglish(all, key, i) {
      }
      forall i: nat | LastEnglish(all, key, i) ensures LastEnglish(cells, key, i) {
        forall j | i < j < |cells| && cells[j].lang == English ensures !BearsFor(cells[j], key) {
          assert all[j] == cells[j];
        }
      }
    }
  }

  lemma ConsiderOther(cells: seq<Cell>, cell: Cell, english: set<string>, entries: map<string, LocEntry>, key: string)
    requires key !in english && Represents(cells, false, entries, key)
    requires cell.lang == English ==> Key(cell) in english
    ensures Represents(cells + [cell], false, Consider(cell, english, entries), key)
  {
    hide Key, Bears;
    var all, now := cells + [cell], Consider(cell, english, entries);
    if k: nat :| First(cells, key, k) {
      assert First(all, key, k);
      forall i: nat | First(all, key, i) ensures i == k {
      }
    } else {
      NoneBears(cells, key);
      if BearsFor(cell, key) {
        assert First(all, key, |cells|);
      }
      forall i: nat | First(all, key, i) ensures i == |cells| && BearsFor(cell, key) {
      }
    }
  }

  lemma {:induction false} NoneBears(cells: seq<Cell>, key: string)
    requires forall i: nat :: !First(cells, key, i)
    ensures forall i :: 0 <= i < |cells| ==> !BearsFor(cells[i], key)
  {
    hide BearsFor;
    if i :| 0 <= i < |cells| && BearsFor(cells[i], key) {
      FirstExists(cells, key, i);
    }
  }

  lemma {:induction false} FirstExists(cells: seq<Cell>, key: string, i: nat)
    requires i < |cells| && BearsFor(cells[i], key)
    ensures exists k: nat :: First(cells, key, k)
  {
    hide BearsFor;
    if j :| 0 <= j < i && BearsFor(cells[j], key) {
      FirstExists(cells, key, j);
    } else {
      assert First(cells, key, i);
    }
  }

  // ---- What the files say, key by key ------------------------------------------------

  // Some file with a language, this one if any is given, has an entry for the key.
  ghost predicate Written(files: seq<LocFile>, lang: Option<Lang>, key: string) {
    exists f, n :: 0 <= f < |files| && 0 <= n < |files[f].entries| && files[f].lang.Some?
                   && (lang.Some? ==> files[f].lang == lang) && files[f].entries[n].lowerKey == key
  }

  // One that can represent the key: scripted commands of either kind stand in it.
  ghost predicate WrittenWithCommands(files: seq<LocFile>, lang: Option<Lang>, key: string) {
    exists f, n :: 0 <= f < |files| && 0 <= n < |files[f].entries| && files[f].lang.Some?
                   && (lang.Some? ==> files[f].lang == lang) && files[f].entries[n].lowerKey == key
                   && (files[f].entries[n].commands != [] || files[f].entries[n].jominiCommands != [])
  }

  lemma {:induction false} CellsAreEntries(files: seq<LocFile>, c: Cell)
    ensures c in Cells(files) <==>
            exists f, n :: 0 <= f < |files| && 0 <= n < |files[f].entries| && files[f].lang == Some(c.lang)
                           && files[f].entries[n] == c.entry
  {
    if files != [] {
      var front, last := files[..|files| - 1], |files| - 1;
      CellsAreEntries(front, c);
      forall f | 0 <= f < last ensures front[f] == files[f] {
      }
      if c in FileCells(files[last]) {
        var n :| 0 <= n < |FileCells(files[last])| && FileCells(files[last])[n] == c;
        assert files[last].entries[n] == c.entry;
      }
      if f, n :| 0 <= f < |files| && 0 <= n < |files[f].entries| && files[f].lang == Some(c.lang)
                 && files[f].entries[n] == c.entry {
        if f == last {
          assert FileCells(files[last])[n] == c;
        } else {
          assert front[f].entries[n] == c.entry;
        }
      }
    }
  }

  lemma CellOf(files: seq<LocFile>, f: nat, n: nat)
    requires f < |files| && n < |files[f].entries| && files[f].lang.Some?
    ensures Cell(files[f].lang.value, files[f].entries[n]) in Cells(files)
  {
    CellsAreEntries(files, Cell(files[f].lang.value, files[f].entries[n]));
  }

  // The key sets are those of the entries written.
  lemma KeysAreWritten(files: seq<LocFile>, lang: Lang, key: string)
    ensures key in AllKeys(Cells(files)) <==> Written(files, None, key)
    ensures key in KeysIn(Cells(files), lang) <==> Written(files, Some(lang), key)
  {
    hide Cells;
    forall c | c in Cells(files) {
      CellsAreEntries(files, c);
    }
    forall f, n | 0 <= f < |files| && 0 <= n < |files[f].entries| && files[f].lang.Some? {
      CellOf(files, f, n);
    }
  }

  // A key has a representative exactly when one is written with commands, in
  // English if the key is written in English at all.
  lemma RepresentedExactly(files: seq<LocFile>, entries: map<string, LocEntry>, key: string)
    requires AllRepresented(Cells(files), KeysIn(Cells(files), English), entries)
    ensures key in entries <==>
            WrittenWithCommands(files, if Written(files, Some(English), key) then Some(English) else None, key)
  {
    hide Cells, KeysIn, Written;
    var cells := Cells(files);
    KeysAreWritten(files, English, key);
    assert Represents(cells, key in KeysIn(cells, English), entries, key);
    if key in entries {
      var i := ChosenPosition(cells, key in KeysIn(cells, English), entries, key);
      CellsAreEntries(files, cells[i]);
    }
    var lang := if Written(files, Some(English), key) then Some(English) else None;
    if f, n :| 0 <= f < |files| && 0 <= n < |files[f].entries| && files[f].lang.Some?
               && (lang.Some? ==> files[f].lang == lang) && files[f].entries[n].lowerKey == key
               && (files[f].entries[n].commands != [] || files[f].entries[n].jominiCommands != []) {
      CellOf(files, f, n);
      BearerIsRepresented(cells, key in KeysIn(cells, English), entries, key,
                          Cell(files[f].lang.value, files[f].entries[n]));
    }
  }

  lemma BearerIsRepresented(cells: seq<Cell>, english: bool, entries: map<string, LocEntry>, key: string, c: Cell)
    requires Represents(cells, english, entries, key) && c in cells && BearsFor(c, key)
    requires english ==> c.lang == English
    ensures key in entries
  {
    hide BearsFor;
    var i :| 0 <= i < |cells| && cells[i] == c;
    if english {
      LastEnglishExists(cells, key);
    } else {
      FirstExists(cells, key, i);
    }
  }

  // ---- The index ------------------------------------------------------------------------

  function KeysOf(sets: KeySets, lang: Lang): set<string> {
    if lang in sets then sets[lang] else {}
  }

  // The union of the per-language sets.
  function Union(sets: KeySets): set<string> {
    set lang, key | lang in sets && key in sets[lang] :: key
  }

  // The per-language sets of a list of files.
  ghost predicate SetsOf(sets: KeySets, files: seq<LocFile>) {
    sets.Keys == (set l | l in Langs(files)) && forall lang :: KeysOf(sets, lang) == KeysIn(Cells(files), lang)
  }

  ghost predicate BuiltFrom(index: LocIndex, files: seq<LocFile>, scope: Option<seq<Lang>>)
    reads index
  {
    SetsOf(index.perLanguage, files)
    && index.union == AllKeys(Cells(files))
    && index.languages == Scoped(Langs(files), scope)
    && AllRepresented(Cells(files), KeysIn(Cells(files), English), index.entries)
  }

  lemma CellsStep(files: seq<LocFile>, n: nat)
    requires n < |files|
    ensures Cells(files[..n + 1]) == Cells(files[..n]) + FileCells(files[n])
    ensures Langs(files[..n + 1])
         == if files[n].lang.None? then Langs(files[..n]) else Append(Langs(files[..n]), files[n].lang.value)
  {
    assert files[..n + 1][..n] == files[..n];
  }

  // The cells of a file up to entry n.
  function CellsUpTo(files: seq<LocFile>, f: nat, n: nat): seq<Cell>
    requires f < |files| && n <= |files[f].entries|
  {
    Cells(files[..f]) + if files[f].lang.None? then [] else FileCells(files[f])[..n]
  }

  lemma CellsUpToStep(files: seq<LocFile>, f: nat, n: nat)
    requires f < |files| && n < |files[f].entries| && files[f].lang.Some?
    ensures CellsUpTo(files, f, n + 1) == CellsUpTo(files, f, n) + [Cell(files[f].lang.value, files[f].entries[n])]
  {
  }

  lemma CellsUpToEnds(files: seq<LocFile>, f: nat)
    requires f < |files|
    ensures CellsUpTo(files, f, 0) == Cells(files[..f])
    ensures CellsUpTo(files, f, |files[f].entries|) == Cells(files[..f + 1])
  {
    CellsStep(files, f);
  }

  lemma KeysPush(cells: seq<Cell>, cell: Cell)
    ensures AllKeys(cells + [cell]) == AllKeys(cells) + {Key(cell)}
    ensures forall lang ::
              KeysIn(cells + [cell], lang) == KeysIn(cells, lang) + if lang == cell.lang then {Key(cell)} else {}
  {
  }

  class LocIndex {
    var perLanguage: KeySets
    var union: set<string>
    var languages: seq<Lang>
    var entries: map<string, LocEntry>

    ghost predicate UnionTracks()
      reads this
    {
      union == Union(perLanguage)
    }

    // The union is the union of the sets, and entries are kept for indexed keys.
    ghost predicate Valid()
      reads this
    {
      UnionTracks() && entries.Keys <= union
    }

    constructor Empty()
      ensures Valid() && perLanguage == map[] && union == {} && languages == [] && entries == map[]
    {
      perLanguage, union, languages, entries := map[], {}, [], map[];
    }

    constructor BuildScoped(files: seq<LocFile>, scope: Option<seq<Lang>>)
      ensures Valid() && BuiltFrom(this, files, scope)
      ensures forall key :: key in union <==> Written(files, None, key)
      ensures forall lang, key :: key in KeysOf(perLanguage, lang) <==> Written(files, Some(lang), key)
      ensures forall key :: key in entries <==>
                WrittenWithCommands(files, if Written(files, Some(English), key) then Some(English) else None, key)
      ensures forall lang :: lang in languages <==>
                (scope.None? || lang in scope.value) && exists f :: 0 <= f < |files| && files[f].lang == Some(lang)
    {
      hide Written, WrittenWithCommands, Cells, Langs, AllKeys, KeysIn, AllRepresented, Scoped;
      perLanguage, union, languages, entries := map[], {}, [], map[];
      new;
      AddKeys(files);
      AddEntries(files);
      var langs := LanguagesOf(files);
      languages := ScopedTo(langs, scope);
      BuiltIsValid(files, perLanguage, union, entries);
      forall lang, key ensures key in KeysOf(perLanguage, lang) <==> Written(files, Some(lang), key) {
        KeysAreWritten(files, lang, key);
      }
      forall key
        ensures key in union <==> Written(files, None, key)
        ensures key in entries <==>
                WrittenWithCommands(files, if Written(files, Some(English), key) then Some(English) else None, key)
      {
        KeysAreWritten(files, English, key);
        RepresentedExactly(files, entries, key);
      }
      forall lang ensures lang in languages <==> Allowed(scope, lang) && lang in langs {
        ScopedMembers(langs, scope, lang);
      }
    }

    // First pass: every key, in its language's set and in the union.
    method AddKeys(files: seq<LocFile>)
      requires perLanguage == map[] && union == {}
      modifies this`perLanguage, this`union
      ensures SetsOf(perLanguage, files) && union == AllKeys(Cells(files))
    {
      hide Cells, KeysIn, AllKeys, CellsUpTo, Langs, Key;
      NoFiles();
      var f := 0;
      while f < |files|
        invariant 0 <= f <= |files|
        invariant SetsOf(perLanguage, files[..f]) && union == AllKeys(Cells(files[..f]))
      {
        CellsStep(files, f);
        CellsUpToEnds(files, f);
        var file := files[f];
        if file.lang.Some? {
          var lang := file.lang.value;
          perLanguage := perLanguage[lang := KeysOf(perLanguage, lang)];
          ghost var langs := perLanguage.Keys;
          var n := 0;
          while n < |file.entries|
            invariant 0 <= n <= |file.entries|
            invariant perLanguage.Keys == langs && lang in perLanguage
            invariant forall l :: KeysOf(perLanguage, l) == KeysIn(CellsUpTo(files, f, n), l)
            invariant union == AllKeys(CellsUpTo(files, f, n))
          {
            ghost var cell := Cell(lang, file.entries[n]);
            CellsUpToStep(files, f, n);
            KeysPush(CellsUpTo(files, f, n), cell);
            var lower := file.entries[n].lowerKey;
            assert lower == Key(cell) by { KeyIs(cell); }
            union := union + {lower};
            perLanguage := perLanguage[lang := perLanguage[lang] + {lower}];
            n := n + 1;
          }
        } else {
          SkippedFile(files, f);
        }
        f := f + 1;
      }
      assert files[..f] == files;
    }

    // Second pass: the representative entries, once the English keys are known.
    method AddEntries(files: seq<LocFile>)
      requires SetsOf(perLanguage, files) && union == AllKeys(Cells(files)) && entries == map[]
      modifies this`entries
      ensures AllRepresented(Cells(files), KeysIn(Cells(files), English), entries)
    {
      hide Cells, KeysIn, AllKeys, CellsUpTo, Langs, AllRepresented, Consider;
      ghost var english := KeysIn(Cells(files), English);
      NothingConsidered(english);
      var f := 0;
      while f < |files|
        invariant 0 <= f <= |files|
        invariant AllRepresented(Cells(files[..f]), english, entries)
      {
        CellsUpToEnds(files, f);
        var file := files[f];
        if file.lang.Some? {
          var lang := file.lang.value;
          var n := 0;
          while n < |file.entries|
            invariant 0 <= n <= |file.entries|
            invariant AllRepresented(CellsUpTo(files, f, n), english, entries)
          {
            var entry := file.entries[n];
            ghost var cell := Cell(lang, entry);
            CellsUpToStep(files, f, n);
            CellIsIn(files, f, n);
            ConsiderOne(CellsUpTo(files, f, n), cell, english, entries);
            ConsiderIs(cell, english, entries);
            if entry.commands != [] || entry.jominiCommands != [] {
              var lower := entry.lowerKey;
              if lower in union && (lang == English || lower !in KeysOf(perLanguage, English)) {
                if lower !in entries || lang == English {
                  entries := entries[lower := entry];
                }
              }
            }
            n := n + 1;
          }
        } else {
          SkippedFile(files, f);
        }
        f := f + 1;
      }
      assert files[..f] == files;
    }

    // Keys restored from a cache: they join their language and the union, and
    // bring no entries.
    method MergeCachedKeys(cached: seq<CachedKeys>, scope: Option<seq<Lang>>)
      requires Valid()
      modifies this`perLanguage, this`union, this`languages
      ensures Valid()
      ensures forall lang :: KeysOf(perLanguage, lang) == KeysOf(old(perLanguage), lang) + CachedFor(cached, lang)
      ensures languages == old(languages) + NewLangs(old(languages), CachedLangs(cached), scope)
    {
      hide Union, CachedFor, NewLangs, CachedLangs;
      NothingCached(old(languages), scope);
      var i := 0;
      while i < |cached|
        invariant 0 <= i <= |cached|
        invariant Valid()
        invariant forall lang ::
          KeysOf(perLanguage, lang) == KeysOf(old(perLanguage), lang) + CachedFor(cached[..i], lang)
        invariant languages == old(languages) + NewLangs(old(languages), CachedLangs(cached[..i]), scope)
      {
        var lang := cached[i].lang;
        CachedStep(cached, i, old(languages), scope);
        MergeKeys(lang, Elements(cached[i].keys));
        NoteLanguage(lang, scope);
        i := i + 1;
      }
      assert cached[..i] == cached;
    }

    // One language's keys join its set and the union.
    method MergeKeys(lang: Lang, keys: set<string>)
      requires UnionTracks()
      modifies this`perLanguage, this`union
      ensures UnionTracks()
      ensures perLanguage == old(perLanguage)[lang := KeysOf(old(perLanguage), lang) + keys]
      ensures union == old(union) + keys
    {
      hide Union, KeysOf;
      ghost var before := perLanguage;
      var own, all := InsertKeys(KeysOf(perLanguage, lang), union, keys);
      union := all;
      perLanguage := perLanguage[lang := own];
      UnionGrows(before, lang, keys);
    }

    method NoteLanguage(lang: Lang, scope: Option<seq<Lang>>)
      modifies this`languages
      ensures languages == Noted(old(languages), lang, scope)
    {
      if Allowed(scope, lang) && lang !in languages {
        languages := languages + [lang];
      }
    }

    // Entries of the other index are adopted for keys this one lacks and does
    // not have in English.
    method AdoptEntries(other: LocIndex)
      requires other != this
      modifies this`entries
      ensures entries == Adopted(KeysOf(perLanguage, English), old(entries), other.entries)
    {
      hide KeysOf, Adopted;
      ghost var before := entries;
      var english := KeysOf(perLanguage, English);
      AdoptedAt(english, before, other.entries);
      ghost var target := Adopted(english, before, other.entries);
      var todo := other.entries.Keys;
      while todo != {}
        invariant todo <= other.entries.Keys
        invariant forall key :: key in entries <==> key in target && (key in before || key !in todo)
        invariant forall key :: key in entries ==> entries[key] == target[key]
        decreases |todo|
      {
        var key :| key in todo;
        todo := todo - {key};
        if key !in english && key !in entries {
          entries := entries[key := other.entries[key]];
        }
      }
    }

    // This index holds the workspace and wins over the other, whose languages
    // are walked as it lists them. Its entries keep to indexed keys exactly when
    // each of the other's is indexed here or in a language the other lists.
    method MergeFrom(other: LocIndex, scope: Option<seq<Lang>>)
      requires other != this && Valid()
      modifies this
      ensures UnionTracks()
      ensures Valid() <==> other.entries.Keys <= old(union) + Listed(other.languages, other.perLanguage)
      ensures entries == Adopted(KeysOf(old(perLanguage), English), old(entries), other.entries)
      ensures perLanguage.Keys == old(perLanguage).Keys + (Elements(other.languages) * other.perLanguage.Keys)
      ensures forall lang :: KeysOf(perLanguage, lang)
                          == KeysOf(old(perLanguage), lang)
                            + KeysOf(other.perLanguage, lang) * ListedAt(other.languages, other.perLanguage, lang)
      ensures languages == old(languages) + NewLangs(old(languages), Present(other.languages, other.perLanguage), scope)
    {
      hide Union, NewLangs, Adopted, Listed, Present, ListedAt, Elements;
      ghost var own, all := perLanguage, union;
      AdoptEntries(other);
      ghost var merged := entries;
      NothingMerged(other.perLanguage, languages, scope);
      var i := 0;
      while i < |other.languages|
        invariant 0 <= i <= |other.languages|
        invariant UnionTracks() && entries == merged
        invariant union == all + Listed(other.languages[..i], other.perLanguage)
        invariant perLanguage.Keys == own.Keys + (Elements(other.languages[..i]) * other.perLanguage.Keys)
        invariant forall lang :: KeysOf(perLanguage, lang)
                              == KeysOf(own, lang)
                                + KeysOf(other.perLanguage, lang)
                                  * ListedAt(other.languages[..i], other.perLanguage, lang)
        invariant languages
               == old(languages) + NewLangs(old(languages), Present(other.languages[..i], other.perLanguage), scope)
      {
        var lang := other.languages[i];
        MergeStep(other.languages, other.perLanguage, i, old(languages), scope);
        if lang in other.perLanguage {
          MergeKeys(lang, other.perLanguage[lang]);
          NoteLanguage(lang, scope);
        }
        i := i + 1;
      }
      assert other.languages[..i] == other.languages;
      OwnKeysAreKnown(own, English);
      AdoptedKnown(KeysOf(own, English), old(entries), other.entries, all, union);
    }

    // The languages that ship data but lack the key, in the order of `languages`:
    // `at` holds their places.
    method MissingSyncedLanguages(key: string) returns (missing: seq<Lang>, ghost at: seq<nat>)
      ensures forall lang :: lang in missing <==> lang in languages && key !in KeysOf(perLanguage, lang)
      ensures |missing| <= |languages|
      ensures |at| == |missing| && forall x, y :: 0 <= x < y < |at| ==> at[x] < at[y]
      ensures forall x :: 0 <= x < |at| ==> at[x] < |languages| && missing[x] == languages[at[x]]
      ensures forall i :: 0 <= i < |languages| ==> (i in at <==> key !in KeysOf(perLanguage, languages[i]))
    {
      missing, at := [], [];
      var i := 0;
      while i < |languages|
        invariant 0 <= i <= |languages| && |missing| <= i
        invariant forall lang :: lang in missing <==> lang in languages[..i] && key !in KeysOf(perLanguage, lang)
        invariant |at| == |missing| && forall x, y :: 0 <= x < y < |at| ==> at[x] < at[y]
        invariant forall x :: 0 <= x < |at| ==> at[x] < i && missing[x] == languages[at[x]]
        invariant forall j :: 0 <= j < i ==> (j in at <==> key !in KeysOf(perLanguage, languages[j]))
      {
        if languages[i] !in perLanguage || key !in perLanguage[languages[i]] {
          missing, at := missing + [languages[i]], at + [i];
        }
        i := i + 1;
      }
      assert languages[..i] == languages;
    }
  }

  // ---- Merging -----------------------------------------------------------------------

  datatype CachedKeys = CachedKeys(lang: Lang, keys: seq<string>)

  function CachedFor(cached: seq<CachedKeys>, lang: Lang): set<string> {
    set c, key | c in cached && c.lang == lang && key in c.keys :: key
  }

  function CachedLangs(cached: seq<CachedKeys>): seq<Lang> {
    seq(|cached|, i requires 0 <= i < |cached| => cached[i].lang)
  }

  function Noted(langs: seq<Lang>, lang: Lang, scope: Option<seq<Lang>>): seq<Lang> {
    if Allowed(scope, lang) && lang !in langs then langs + [lang] else langs
  }

  // The allowed languages of `more` that `langs` lacks, each where it first appears.
  function NewLangs(langs: seq<Lang>, more: seq<Lang>, scope: Option<seq<Lang>>): seq<Lang> {
    if more == [] then []
    else
      var before, last := NewLangs(langs, more[..|more| - 1], scope), more[|more| - 1];
      if Allowed(scope, last) && last !in langs && last !in before then before + [last] else before
  }

  lemma NotedIsNew(langs: seq<Lang>, more: seq<Lang>, lang: Lang, scope: Option<seq<Lang>>)
    ensures Noted(langs + NewLangs(langs, more, scope), lang, scope) == langs + NewLangs(langs, more + [lang], scope)
  {
  }

  // The listed languages that have a key set.
  function Present(langs: seq<Lang>, sets: KeySets): seq<Lang> {
    if langs == [] then []
    else
      var before, last := Present(langs[..|langs| - 1], sets), langs[|langs| - 1];
      if last in sets then before + [last] else before
  }

  function ListedAt(langs: seq<Lang>, sets: KeySets, lang: Lang): set<string> {
    if lang in langs then KeysOf(sets, lang) else {}
  }

  // The keys of the listed languages.
  function Listed(langs: seq<Lang>, sets: KeySets): set<string> {
    set lang, key | lang in langs && lang in sets && key in sets[lang] :: key
  }

  // The entries after adopting another index's, given the English keys at hand.
  function Adopted(english: set<string>, own: map<string, LocEntry>,
                   others: map<string, LocEntry>): map<string, LocEntry> {
    (map key | key in others && key !in english :: others[key]) + own
  }

  lemma AdoptedAt(english: set<string>, own: map<string, LocEntry>, others: map<string, LocEntry>)
    ensures forall key :: key in Adopted(english, own, others) <==> key in own || (key in others && key !in english)
    ensures forall key :: key in Adopted(english, own, others) ==>
              Adopted(english, own, others)[key] == if key in own then own[key] else others[key]
  {
  }

  lemma NothingCached(langs: seq<Lang>, scope: Option<seq<Lang>>)
    ensures NewLangs(langs, CachedLangs([]), scope) == [] && forall lang :: CachedFor([], lang) == {}
  {
  }

  lemma CachedStep(cached: seq<CachedKeys>, i: nat, langs: seq<Lang>, scope: Option<seq<Lang>>)
    requires i < |cached|
    ensures forall lang :: CachedFor(cached[..i + 1], lang)
                        == CachedFor(cached[..i], lang)
                           + if lang == cached[i].lang then Elements(cached[i].keys) else {}
    ensures langs + NewLangs(langs, CachedLangs(cached[..i + 1]), scope)
         == Noted(langs + NewLangs(langs, CachedLangs(cached[..i]), scope), cached[i].lang, scope)
  {
    hide NewLangs;
    var now, was := cached[..i + 1], cached[..i];
    assert forall c :: c in now <==> c in was || c == cached[i];
    assert CachedLangs(now) == CachedLangs(was) + [cached[i].lang];
    NotedIsNew(langs, CachedLangs(was), cached[i].lang, scope);
  }

  lemma UnionGrows(sets: KeySets, lang: Lang, keys: set<string>)
    ensures Union(sets[lang := KeysOf(sets, lang) + keys]) == Union(sets) + keys
  {
    var now := sets[lang := KeysOf(sets, lang) + keys];
    forall key | key in Union(sets) + keys ensures key in Union(now) {
      if key in keys {
        assert lang in now && key in now[lang];
      } else {
        var l :| l in sets && key in sets[l];
        assert l in now && key in now[l];
      }
    }
  }

  lemma NothingMerged(sets: KeySets, langs: seq<Lang>, scope: Option<seq<Lang>>)
    ensures NewLangs(langs, Present([], sets), scope) == [] && Listed([], sets) == {}
    ensures Elements<Lang>([]) == {} && forall lang :: ListedAt([], sets, lang) == {}
  {
  }

  lemma MergeStep(others: seq<Lang>, sets: KeySets, i: nat, langs: seq<Lang>, scope: Option<seq<Lang>>)
    requires i < |others|
    ensures Listed(others[..i + 1], sets) == Listed(others[..i], sets) + KeysOf(sets, others[i])
    ensures Elements(others[..i + 1]) == Elements(others[..i]) + {others[i]}
    ensures forall lang :: ListedAt(others[..i + 1], sets, lang)
                        == if lang == others[i] then KeysOf(sets, lang) else ListedAt(others[..i], sets, lang)
    ensures langs + NewLangs(langs, Present(others[..i + 1], sets), scope)
         == if others[i] in sets then
              Noted(langs + NewLangs(langs, Present(others[..i], sets), scope), others[i], scope)
            else langs + NewLangs(langs, Present(others[..i], sets), scope)
  {
    hide NewLangs;
    var now, was := others[..i + 1], others[..i];
    assert now[..i] == was;
    assert forall l :: l in now <==> l in was || l == others[i];
    NotedIsNew(langs, Present(was, sets), others[i], scope);
  }

  // Each key goes into the language's set and into the union.
  method InsertKeys(own: set<string>, all: set<string>, keys: set<string>)
    returns (newOwn: set<string>, newAll: set<string>)
    ensures newOwn == own + keys && newAll == all + keys
  {
    newOwn, newAll := own, all;
    var todo := keys;
    while todo != {}
      invariant todo <= keys
      invariant newOwn + todo == own + keys && newAll + todo == all + keys
      decreases |todo|
    {
      var key :| key in todo;
      todo := todo - {key};
      newOwn := newOwn + {key};
      newAll := newAll + {key};
    }
  }

  lemma OwnKeysAreKnown(sets: KeySets, lang: Lang)
    ensures KeysOf(sets, lang) <= Union(sets)
  {
  }

  lemma AdoptedKnown(english: set<string>, own: map<string, LocEntry>, others: map<string, LocEntry>,
                     known: set<string>, union: set<string>)
    requires english <= known && own.Keys <= known && known <= union
    ensures Adopted(english, own, others).Keys <= union <==> others.Keys <= union
  {
  }

  lemma KeyIs(c: Cell)
    ensures Key(c) == c.entry.lowerKey
  {
  }

  lemma NoFiles()
    ensures Cells([]) == [] && Langs([]) == []
    ensures AllKeys([]) == {} && forall lang :: KeysIn([], lang) == {}
  {
  }

  lemma SkippedFile(files: seq<LocFile>, f: nat)
    requires f < |files| && files[f].lang.None?
    ensures Cells(files[..f + 1]) == Cells(files[..f])
  {
    CellsStep(files, f);
  }

  lemma NothingConsidered(english: set<string>)
    ensures AllRepresented(Cells([]), english, map[])
  {
  }

  lemma ConsiderOne(cells: seq<Cell>, cell: Cell, english: set<string>, entries: map<string, LocEntry>)
    requires AllRepresented(cells, english, entries) && (cell.lang == English ==> Key(cell) in english)
    ensures AllRepresented(cells + [cell], english, Consider(cell, english, entries))
  {
    hide Represents, Consider, Key;
    var all, now := cells + [cell], Consider(cell, english, entries);
    forall key ensures Represents(all, key in english, now, key) {
      ConsiderRepresents(cells, cell, english, entries, key);
    }
  }

  lemma ConsiderIs(cell: Cell, english: set<string>, entries: map<string, LocEntry>)
    ensures Consider(cell, english, entries)
         == if || !Bears(cell)
               || (cell.lang != English && (cell.entry.lowerKey in english || cell.entry.lowerKey in entries)) then
              entries
            else
              entries[cell.entry.lowerKey := cell.entry]
  {
  }

  lemma CellIsIn(files: seq<LocFile>, f: nat, n: nat)
    requires f < |files| && n < |files[f].entries| && files[f].lang.Some?
    ensures var cell := Cell(files[f].lang.value, files[f].entries[n]);
            Key(cell) in AllKeys(Cells(files)) && Key(cell) in KeysIn(Cells(files), cell.lang)
  {
  }

  predicate HasFile(files: seq<LocFile>, n: nat, lang: Lang)
    requires n <= |files|
  {
    exists f :: 0 <= f < n && files[f].lang == Some(lang)
  }

  // Exactly the languages with a file, none twice, each placed by its first file.
  ghost predicate InFirstFileOrder(files: seq<LocFile>, langs: seq<Lang>) {
    && (forall lang :: lang in langs <==> HasFile(files, |files|, lang))
    && (forall i, j :: 0 <= i < j < |langs| ==> langs[i] != langs[j])
    && forall i, j, f :: 0 <= i < j < |langs| && 0 <= f < |files| && files[f].lang == Some(langs[j]) ==>
         HasFile(files, f, langs[i])
  }

  lemma {:induction false} LangsInOrder(files: seq<LocFile>)
    ensures InFirstFileOrder(files, Langs(files))
  {
    if files != [] {
      hide Langs;
      var last := |files| - 1;
      LangsInOrder(files[..last]);
      CellsStep(files, last);
      assert files[..last + 1] == files;
      OneMoreLang(files, Langs(files[..last]));
    }
  }

  lemma OneMoreLang(files: seq<LocFile>, before: seq<Lang>)
    requires files != [] && InFirstFileOrder(files[..|files| - 1], before)
    ensures var last := files[|files| - 1].lang;
            InFirstFileOrder(files, if last.None? then before else Append(before, last.value))
  {
    hide HasFile;
    var front, last := files[..|files| - 1], |files| - 1;
    var now := if files[last].lang.None? then before else Append(before, files[last].lang.value);
    HasFileStep(files);
    forall lang ensures lang in now <==> HasFile(files, |files|, lang) {
    }
    forall i, j, f | 0 <= i < j < |now| && 0 <= f < |files| && files[f].lang == Some(now[j])
      ensures HasFile(files, f, now[i])
    {
      assert now[i] == before[i];
      if f < last {
        assert front[f] == files[f];
        assert HasFile(front, last, now[j]) by { FileIsThere(front, f); }
        assert HasFile(front, f, now[i]);
      } else {
        assert HasFile(front, last, before[i]);
      }
    }
  }

  lemma FileIsThere(files: seq<LocFile>, f: nat)
    requires f < |files| && files[f].lang.Some?
    ensures HasFile(files, |files|, files[f].lang.value)
  {
  }

  lemma HasFileStep(files: seq<LocFile>)
    requires files != []
    ensures var front, last := files[..|files| - 1], |files| - 1;
            (forall lang :: HasFile(files, |files|, lang) <==>
                            HasFile(front, last, lang) || files[last].lang == Some(lang))
            && forall lang, f :: 0 <= f <= last ==> (HasFile(files, f, lang) <==> HasFile(front, f, lang))
  {
  }

  method LanguagesOf(files: seq<LocFile>) returns (langs: seq<Lang>)
    ensures InFirstFileOrder(files, langs)
    ensures langs == Langs(files)
  {
    hide Langs, InFirstFileOrder;
    NoFiles();
    LangsInOrder(files);
    langs := [];
    var f := 0;
    while f < |files|
      invariant 0 <= f <= |files|
      invariant langs == Langs(files[..f])
    {
      CellsStep(files, f);
      match files[f].lang {
        case Some(lang) =>
          if lang !in langs {
            langs := langs + [lang];
          }
        case None =>
      }
      f := f + 1;
    }
    assert files[..f] == files;
  }

  method ScopedTo(langs: seq<Lang>, scope: Option<seq<Lang>>) returns (kept: seq<Lang>)
    ensures kept == Scoped(langs, scope)
  {
    kept := [];
    var i := 0;
    while i < |langs|
      invariant 0 <= i <= |langs|
      invariant kept == Scoped(langs[..i], scope)
    {
      assert langs[..i + 1][..i] == langs[..i];
      if Allowed(scope, langs[i]) {
        kept := kept + [langs[i]];
      }
      i := i + 1;
    }
    assert langs[..i] == langs;
  }

  lemma UnionIsAllKeys(sets: KeySets, files: seq<LocFile>)
    requires SetsOf(sets, files)
    ensures Union(sets) == AllKeys(Cells(files))
  {
    hide Key, Langs, Cells;
    var cells := Cells(files);
    forall key | key in Union(sets) ensures key in AllKeys(cells) {
      var lang :| lang in sets && key in sets[lang];
      assert key in KeysOf(sets, lang);
    }
    forall key | key in AllKeys(cells) ensures key in Union(sets) {
      var c :| c in cells && Key(c) == key;
      assert key in KeysIn(cells, c.lang);
      assert key in KeysOf(sets, c.lang);
    }
  }

  lemma RepresentedIsKnown(cells: seq<Cell>, english: set<string>, entries: map<string, LocEntry>)
    requires AllRepresented(cells, english, entries)
    ensures entries.Keys <= AllKeys(cells)
  {
    hide Key, Bears;
    forall key | key in entries ensures key in AllKeys(cells) {
      assert Represents(cells, key in english, entries, key);
      if key in english {
        var i: nat :| LastEnglish(cells, key, i);
        assert cells[i] in cells;
      } else {
        var i: nat :| First(cells, key, i);
        assert cells[i] in cells;
      }
    }
  }

  lemma BuiltIsValid(files: seq<LocFile>, sets: KeySets, union: set<string>, entries: map<string, LocEntry>)
    requires SetsOf(sets, files) && union == AllKeys(Cells(files))
    requires AllRepresented(Cells(files), KeysIn(Cells(files), English), entries)
    ensures union == Union(sets) && entries.Keys <= union
  {
    hide SetsOf, AllRepresented, AllKeys, KeysIn, Union;
    UnionIsAllKeys(sets, files);
    RepresentedIsKnown(Cells(files), KeysIn(Cells(files), English), entries);
  }

  // ---- Folding in is building over both --------------------------------------------------

  lemma {:induction false} CellsConcat(a: seq<LocFile>, b: seq<LocFile>)
    ensures Cells(a + b) == Cells(a) + Cells(b)
    decreases |b|
  {
    hide FileCells;
    if b == [] {
      assert a + b == a;
    } else {
      var front, last := b[..|b| - 1], b[|b| - 1];
      CellsConcat(a, front);
      assert (a + b)[..|a + b| - 1] == a + front;
      assert Cells(a + b) == Cells(a + front) + FileCells(last);
      assert Cells(b) == Cells(front) + FileCells(last);
    }
  }

  lemma {:induction false} ScopedMembers(langs: seq<Lang>, scope: Option<seq<Lang>>, x: Lang)
    ensures x in Scoped(langs, scope) <==> Allowed(scope, x) && x in langs
  {
    if langs != [] {
      ScopedMembers(langs[..|langs| - 1], scope, x);
    }
  }

  lemma {:induction false} NewLangsMembers(langs: seq<Lang>, more: seq<Lang>, scope: Option<seq<Lang>>, x: Lang)
    ensures x in NewLangs(langs, more, scope) <==> Allowed(scope, x) && x !in langs && x in more
  {
    if more != [] {
      NewLangsMembers(langs, more[..|more| - 1], scope, x);
    }
  }

  lemma ScopedAppend(langs: seq<Lang>, scope: Option<seq<Lang>>, x: Lang)
    ensures Scoped(Append(langs, x), scope) == Noted(Scoped(langs, scope), x, scope)
  {
    ScopedMembers(langs, scope, x);
    if x !in langs {
      assert (langs + [x])[..|langs|] == langs;
    }
  }

  // The allowed languages of both lists of files, each where it first appears.
  lemma {:induction false} LangsConcat(a: seq<LocFile>, b: seq<LocFile>, scope: Option<seq<Lang>>)
    ensures Scoped(Langs(a + b), scope) == Scoped(Langs(a), scope) + NewLangs(Scoped(Langs(a), scope), Langs(b), scope)
    ensures forall x :: x in Langs(a + b) <==> x in Langs(a) || x in Langs(b)
    decreases |b|
  {
    hide NewLangs, Scoped;
    if b == [] {
      assert a + b == a;
      assert NewLangs(Scoped(Langs(a), scope), Langs(b), scope) == [] by {
        NothingMerged(map[], Scoped(Langs(a), scope), scope);
      }
    } else {
      var front, last := b[..|b| - 1], b[|b| - 1];
      assert (a + b)[..|a + b| - 1] == a + front;
      LangsConcat(a, front, scope);
      if last.lang.Some? {
        var x, own := last.lang.value, Scoped(Langs(a), scope);
        ScopedAppend(Langs(a + front), scope, x);
        NotedIsNew(own, Langs(front), x, scope);
        NewLangsMembers(own, Langs(front), scope, x);
      }
    }
  }

  lemma {:induction false} PresentAll(langs: seq<Lang>, sets: KeySets)
    requires forall l :: l in langs ==> l in sets
    ensures Present(langs, sets) == langs
  {
    if langs != [] {
      PresentAll(langs[..|langs| - 1], sets);
    }
  }

  lemma {:induction false} ScopedNone(langs: seq<Lang>)
    ensures Scoped(langs, None) == langs
  {
    if langs != [] {
      ScopedNone(langs[..|langs| - 1]);
    }
  }

  lemma KeysConcat(a: seq<Cell>, b: seq<Cell>)
    ensures AllKeys(a + b) == AllKeys(a) + AllKeys(b)
    ensures forall lang :: KeysIn(a + b, lang) == KeysIn(a, lang) + KeysIn(b, lang)
  {
  }

  lemma MergedSets(a: KeySets, b: KeySets, merged: KeySets, files: seq<LocFile>, others: seq<LocFile>,
                   languages: seq<Lang>)
    requires SetsOf(a, files) && SetsOf(b, others) && languages == Langs(others)
    requires merged.Keys == a.Keys + (Elements(languages) * b.Keys)
    requires forall lang :: KeysOf(merged, lang) == KeysOf(a, lang) + KeysOf(b, lang) * ListedAt(languages, b, lang)
    ensures SetsOf(merged, files + others)
  {
    hide KeysIn, Cells, Langs;
    CellsConcat(files, others);
    KeysConcat(Cells(files), Cells(others));
    LangsConcat(files, others, None);
    forall lang ensures KeysOf(merged, lang) == KeysIn(Cells(files + others), lang) {
      assert KeysOf(b, lang) * ListedAt(languages, b, lang) == KeysOf(b, lang);
    }
  }

  lemma ListedIsUnion(langs: seq<Lang>, sets: KeySets)
    requires sets.Keys == (set l | l in langs)
    ensures Listed(langs, sets) == Union(sets)
  {
  }

  // An index built over one set of files, with an unscoped index over another
  // folded in, knows the keys and languages of one built over both. A key's
  // representative is the full build's exactly when the index folded in has no
  // better claim, or its entry reads alike; else it is that of the first build.
  method BuildAndMerge(files: seq<LocFile>, others: seq<LocFile>, scope: Option<seq<Lang>>) returns (index: LocIndex)
    ensures index.Valid()
    ensures SetsOf(index.perLanguage, files + others) && index.union == AllKeys(Cells(files + others))
    ensures index.languages == Scoped(Langs(files + others), scope)
    ensures forall key ::
              Represents(Cells(files + others), key in KeysIn(Cells(files + others), English), index.entries, key)
              <==> Agrees(files, others, key) || ReadsAlike(files, others, key)
    ensures forall key :: !Agrees(files, others, key) ==>
              Represents(Cells(files), key in KeysIn(Cells(files), English), index.entries, key)
  {
    hide SetsOf, AllRepresented, AllKeys, Scoped, NewLangs, Present, Adopted, Listed, Union, Represents, Agrees,
         ReadsAlike;
    index := new LocIndex.BuildScoped(files, scope);
    var other := new LocIndex.BuildScoped(others, None);
    ghost var own, ownEntries := index.perLanguage, index.entries;
    EnglishOf(own, files);
    OthersListed(other.perLanguage, others);
    index.MergeFrom(other, scope);
    MergedSets(own, other.perLanguage, index.perLanguage, files, others, other.languages);
    UnionIsAllKeys(index.perLanguage, files + others);
    LangsConcat(files, others, scope);
    UnionIsAllKeys(other.perLanguage, others);
    forall key
      ensures Represents(Cells(files + others), key in KeysIn(Cells(files + others), English), index.entries, key)
         <==> Agrees(files, others, key) || ReadsAlike(files, others, key)
      ensures !Agrees(files, others, key) ==>
                Represents(Cells(files), key in KeysIn(Cells(files), English), index.entries, key)
    {
      RepresentativeExactly(files, others, ownEntries, other.entries, key);
    }
  }

  lemma EnglishOf(sets: KeySets, files: seq<LocFile>)
    requires SetsOf(sets, files)
    ensures KeysOf(sets, English) == KeysIn(Cells(files), English)
  {
  }

  lemma OthersListed(sets: KeySets, others: seq<LocFile>)
    requires SetsOf(sets, others)
    ensures Scoped(Langs(others), None) == Langs(others) && Present(Langs(others), sets) == Langs(others)
    ensures Listed(Langs(others), sets) == Union(sets)
  {
    hide Listed, Union;
    ScopedNone(Langs(others));
    PresentAll(Langs(others), sets);
    ListedIsUnion(Langs(others), sets);
  }

  // ---- When the representative is the one a full build would choose ------------------------

  ghost predicate EnglishBears(cells: seq<Cell>, key: string) {
    exists i :: 0 <= i < |cells| && cells[i].lang == English && BearsFor(cells[i], key)
  }

  ghost predicate AnyBears(cells: seq<Cell>, key: string) {
    exists i :: 0 <= i < |cells| && BearsFor(cells[i], key)
  }

  // The other index has no better claim to the key: none in English against
  // English here, and none in English at all against any entry here.
  ghost predicate Agrees(files: seq<LocFile>, others: seq<LocFile>, key: string) {
    if key in KeysIn(Cells(files), English) then !EnglishBears(Cells(others), key)
    else key in KeysIn(Cells(others), English) ==> !AnyBears(Cells(files), key)
  }

  // Where a key's representative comes from.
  ghost predicate Chosen(cells: seq<Cell>, english: bool, key: string, i: nat) {
    if english then LastEnglish(cells, key, i) else First(cells, key, i)
  }

  // The other index has a better claim, but its entry reads like the one here.
  ghost predicate ReadsAlike(files: seq<LocFile>, others: seq<LocFile>, key: string) {
    SameEntry(Cells(files), Cells(files + others), key in KeysIn(Cells(files), English), key)
  }

  ghost predicate SameEntry(a: seq<Cell>, all: seq<Cell>, english: bool, key: string) {
    exists i: nat, j: nat :: LastEnglish(all, key, i) && Chosen(a, english, key, j) && a[j].entry == all[i].entry
  }

  // A merged representative is the full build's exactly when the other index has
  // no better claim, or its entry reads like the one kept.
  lemma RepresentativeExactly(files: seq<LocFile>, others: seq<LocFile>, own: map<string, LocEntry>,
                              theirs: map<string, LocEntry>, key: string)
    requires AllRepresented(Cells(files), KeysIn(Cells(files), English), own)
    requires AllRepresented(Cells(others), KeysIn(Cells(others), English), theirs)
    ensures Represents(Cells(files + others), key in KeysIn(Cells(files + others), English),
                       Adopted(KeysIn(Cells(files), English), own, theirs), key)
       <==> Agrees(files, others, key) || ReadsAlike(files, others, key)
    ensures !Agrees(files, others, key) ==>
              Represents(Cells(files), key in KeysIn(Cells(files), English),
                         Adopted(KeysIn(Cells(files), English), own, theirs), key)
  {
    hide Cells, KeysIn, Represents, Adopted, EnglishBears, AnyBears, SameEntry;
    if Agrees(files, others, key) {
      RepresentativeAgrees(files, others, own, theirs, key);
    } else {
      CellsConcat(files, others);
      var a, b := Cells(files), Cells(others);
      KeysConcat(a, b);
      AdoptedAt(KeysIn(a, English), own, theirs);
      assert Represents(a, key in KeysIn(a, English), own, key);
      if key in KeysIn(a, English) {
        EnglishReturns(a, b, key);
      } else {
        BearerIsKept(a, own, key);
      }
      KeptOnlyIfAlike(a, a + b, key in KeysIn(a, English), own, Adopted(KeysIn(a, English), own, theirs), key);
    }
  }

  // The kept entry stands where the last English one should.
  lemma KeptOnlyIfAlike(a: seq<Cell>, all: seq<Cell>, english: bool, own: map<string, LocEntry>,
                        merged: map<string, LocEntry>, key: string)
    requires Represents(a, english, own, key)
    requires (key in merged <==> key in own) && (key in own ==> merged[key] == own[key])
    requires key in own || exists i: nat :: LastEnglish(all, key, i)
    ensures Represents(all, true, merged, key) <==> SameEntry(a, all, english, key)
    ensures Represents(a, english, merged, key)
  {
    hide BearsFor;
    if Represents(all, true, merged, key) {
      var i: nat :| LastEnglish(all, key, i);
      assert Stored(merged, key, all[i].entry);
      var j := ChosenPosition(a, english, own, key);
      assert Stored(own, key, a[j].entry);
    }
    if SameEntry(a, all, english, key) {
      var i: nat, j: nat :| LastEnglish(all, key, i) && Chosen(a, english, key, j) && a[j].entry == all[i].entry;
      assert Stored(own, key, a[j].entry);
      forall x: nat | LastEnglish(all, key, x) ensures x == i {
      }
    }
  }

  lemma ChosenPosition(cells: seq<Cell>, english: bool, entries: map<string, LocEntry>, key: string) returns (i: nat)
    requires Represents(cells, english, entries, key) && key in entries
    ensures Chosen(cells, english, key, i)
  {
    if english {
      i :| LastEnglish(cells, key, i);
    } else {
      i :| First(cells, key, i);
    }
  }

  lemma {:induction false} LastEnglishExists(cells: seq<Cell>, key: string)
    requires EnglishBears(cells, key)
    ensures exists i: nat :: LastEnglish(cells, key, i)
  {
    hide BearsFor;
    var front, last := cells[..|cells| - 1], |cells| - 1;
    if cells[last].lang == English && BearsFor(cells[last], key) {
      assert LastEnglish(cells, key, last);
    } else {
      LastEnglishExists(front, key);
      var i: nat :| LastEnglish(front, key, i);
      assert LastEnglish(cells, key, i);
    }
  }

  lemma EnglishReturns(a: seq<Cell>, b: seq<Cell>, key: string)
    requires EnglishBears(b, key)
    ensures exists i: nat :: LastEnglish(a + b, key, i)
  {
    hide BearsFor;
    var x :| 0 <= x < |b| && b[x].lang == English && BearsFor(b[x], key);
    assert (a + b)[|a| + x] == b[x];
    LastEnglishExists(a + b, key);
  }

  lemma BearerIsKept(a: seq<Cell>, own: map<string, LocEntry>, key: string)
    requires Represents(a, false, own, key) && AnyBears(a, key)
    ensures key in own
  {
    hide BearsFor;
    if forall i: nat :: !First(a, key, i) {
      NoneBears(a, key);
    }
  }

  lemma RepresentativeAgrees(files: seq<LocFile>, others: seq<LocFile>, own: map<string, LocEntry>,
                             theirs: map<string, LocEntry>, key: string)
    requires AllRepresented(Cells(files), KeysIn(Cells(files), English), own)
    requires AllRepresented(Cells(others), KeysIn(Cells(others), English), theirs)
    requires Agrees(files, others, key)
    ensures Represents(Cells(files + others), key in KeysIn(Cells(files + others), English),
                       Adopted(KeysIn(Cells(files), English), own, theirs), key)
  {
    hide Cells, KeysIn, Represents, Adopted, EnglishBears, AnyBears;
    CellsConcat(files, others);
    var a, b := Cells(files), Cells(others);
    KeysConcat(a, b);
    AdoptedAt(KeysIn(a, English), own, theirs);
    assert Represents(a, key in KeysIn(a, English), own, key);
    assert Represents(b, key in KeysIn(b, English), theirs, key);
    var merged := Adopted(KeysIn(a, English), own, theirs);
    if key in KeysIn(a, English) {
      EnglishStays(a, b, own, merged, key);
    } else if key in KeysIn(b, English) {
      EnglishJoins(a, b, own, theirs, merged, key);
    } else {
      FirstWins(a, b, own, theirs, merged, key);
    }
  }

  lemma EnglishStays(a: seq<Cell>, b: seq<Cell>, own: map<string, LocEntry>, merged: map<string, LocEntry>, key: string)
    requires Represents(a, true, own, key) && !EnglishBears(b, key)
    requires (key in merged <==> key in own) && (key in own ==> merged[key] == own[key])
    ensures Represents(a + b, true, merged, key)
  {
    hide BearsFor;
    var all := a + b;
    forall i: nat | LastEnglish(a, key, i) ensures LastEnglish(all, key, i) {
      forall j | i < j < |all| && all[j].lang == English ensures !BearsFor(all[j], key) {
        if j >= |a| {
          assert all[j] == b[j - |a|];
        }
      }
    }
    forall x | |a| <= x < |all| && all[x].lang == English ensures !BearsFor(all[x], key) {
      assert all[x] == b[x - |a|];
    }
    forall i: nat | LastEnglish(all, key, i) ensures LastEnglish(a, key, i) {
      forall j | i < j < |a| && a[j].lang == English ensures !BearsFor(a[j], key) {
        assert all[j] == a[j];
      }
    }
  }

  lemma EnglishJoins(a: seq<Cell>, b: seq<Cell>, own: map<string, LocEntry>, theirs: map<string, LocEntry>,
                     merged: map<string, LocEntry>, key: string)
    requires Represents(a, false, own, key) && Represents(b, true, theirs, key) && !AnyBears(a, key)
    requires (key in merged <==> key in own || key in theirs)
    requires key in merged ==> merged[key] == if key in own then own[key] else theirs[key]
    ensures Represents(a + b, true, merged, key)
  {
    hide BearsFor;
    var all := a + b;
    forall i: nat ensures !First(a, key, i) {
    }
    assert key !in own;
    forall i: nat | LastEnglish(b, key, i) ensures LastEnglish(all, key, |a| + i) && all[|a| + i] == b[i] {
      forall j | |a| + i < j < |all| && all[j].lang == English ensures !BearsFor(all[j], key) {
        assert all[j] == b[j - |a|];
      }
    }
    forall x | 0 <= x < |a| ensures !BearsFor(all[x], key) {
      assert all[x] == a[x];
    }
    forall i: nat | LastEnglish(all, key, i) ensures i >= |a| && LastEnglish(b, key, i - |a|) && all[i] == b[i - |a|] {
      forall j | i - |a| < j < |b| && b[j].lang == English ensures !BearsFor(b[j], key) {
        assert all[|a| + j] == b[j];
      }
    }
  }

  lemma FirstWins(a: seq<Cell>, b: seq<Cell>, own: map<string, LocEntry>, theirs: map<string, LocEntry>,
                  merged: map<string, LocEntry>, key: string)
    requires Represents(a, false, own, key) && Represents(b, false, theirs, key)
    requires (key in merged <==> key in own || key in theirs)
    requires key in merged ==> merged[key] == if key in own then own[key] else theirs[key]
    ensures Represents(a + b, false, merged, key)
  {
    hide BearsFor;
    var all := a + b;
    if k: nat :| First(a, key, k) {
      forall i: nat | First(all, key, i) ensures i == k {
        assert all[k] == a[k];
        assert i < |a| ==> all[i] == a[i];
      }
      assert First(all, key, k);
    } else {
      NoneBears(a, key);
      if k: nat :| First(b, key, k) {
        assert all[|a| + k] == b[k];
        forall j | 0 <= j < |a| + k ensures !BearsFor(all[j], key) {
          assert all[j] == if j < |a| then a[j] else b[j - |a|];
        }
        assert First(all, key, |a| + k);
        forall i: nat | First(all, key, i) ensures i == |a| + k {
        }
      } else {
        NoneBears(b, key);
        forall i: nat ensures !First(all, key, i) {
          if i < |all| {
            assert all[i] == if i < |a| then a[i] else b[i - |a|];
          }
        }
      }
    }
  }

  // A key this index has in English never takes over the other's entry.
  lemma EnglishNeverAdopts(english: set<string>, own: map<string, LocEntry>, theirs: map<string, LocEntry>, key: string)
    requires key in english
    ensures var merged := Adopted(english, own, theirs);
            (key in merged <==> key in own) && (key in own ==> merged[key] == own[key])
  {
  }

  // An entry with Jomini commands alone represents its key.
  method JominiCommandsSuffice() returns (index: LocIndex)
    ensures "a" in index.entries && index.entries["a"].commands == []
  {
    hide Written, AllRepresented, Cells, KeysIn;
    var entry := LocEntry("a", "a", "[GetPlayer.GetName]", [], ["GetPlayer.GetName"]);
    var files := [LocFile(Some(English), [entry])];
    index := new LocIndex.BuildScoped(files, None);
    OneFileCells(files, entry);
    LastIsChosen([Cell(English, entry)], "a", index.entries);
    RepresentsAt(Cells(files), index.entries, "a");
  }

  // One English entry here and another in the index folded in: the full build
  // takes the later, the merged index keeps the earlier.
  method MergedEntryDiffers() returns (merged: LocIndex, full: LocIndex)
    ensures merged.Valid() && full.Valid() && merged.union == full.union
    ensures "a" in merged.entries && "a" in full.entries && merged.entries["a"] != full.entries["a"]
  {
    hide AllRepresented, SetsOf, AllKeys, Represents, Agrees, ReadsAlike, Cells, KeysIn;
    var early := LocEntry("a", "a", "early", ["Root.GetName"], []);
    var late := LocEntry("a", "a", "late", ["Root.GetName"], []);
    var files, others := [LocFile(Some(English), [early])], [LocFile(Some(English), [late])];
    merged := BuildAndMerge(files, others, None);
    full := new LocIndex.BuildScoped(files + others, None);
    OneEntryEach(early, late);
    LastIsChosen([Cell(English, early)], "a", merged.entries);
    LastIsChosen([Cell(English, early), Cell(English, late)], "a", full.entries);
    RepresentsAt(Cells(files + others), full.entries, "a");
  }

  lemma RepresentsAt(cells: seq<Cell>, entries: map<string, LocEntry>, key: string)
    requires AllRepresented(cells, KeysIn(cells, English), entries)
    ensures Represents(cells, key in KeysIn(cells, English), entries, key)
  {
  }

  lemma LastIsChosen(cells: seq<Cell>, key: string, entries: map<string, LocEntry>)
    requires |cells| > 0 && cells[|cells| - 1].lang == English && BearsFor(cells[|cells| - 1], key)
    ensures Represents(cells, true, entries, key) ==> Stored(entries, key, cells[|cells| - 1].entry)
    ensures key in KeysIn(cells, English)
  {
    hide Bears;
    assert LastEnglish(cells, key, |cells| - 1);
  }

  lemma OneEntryEach(early: LocEntry, late: LocEntry)
    requires early.lowerKey == late.lowerKey == "a" && early.commands != [] && late.commands != []
    ensures var files, others := [LocFile(Some(English), [early])], [LocFile(Some(English), [late])];
            Cells(files) == [Cell(English, early)]
            && Cells(files + others) == [Cell(English, early), Cell(English, late)]
            && BearsFor(Cell(English, early), "a") && BearsFor(Cell(English, late), "a") && !Agrees(files, others, "a")
  {
    var files, others := [LocFile(Some(English), [early])], [LocFile(Some(English), [late])];
    OneFileCells(files, early);
    OneFileCells(others, late);
    CellsConcat(files, others);
    assert Cells(others)[0].lang == English && BearsFor(Cells(others)[0], "a");
    LastIsChosen(Cells(files), "a", map[]);
  }

  lemma {:induction false} OneFileCells(files: seq<LocFile>, entry: LocEntry)
    requires |files| == 1 && files[0].lang.Some? && files[0].entries == [entry]
    ensures Cells(files) == [Cell(files[0].lang.value, entry)]
  {
  }

  // Folding in an index that was scoped: its entry comes along, its key does not.
  method ScopedMergeLosesKeys() returns (index: LocIndex)
    ensures index.UnionTracks() && !index.Valid()
  {
    hide AllRepresented, SetsOf, AllKeys;
    var entry := LocEntry("a", "a", "[Root.GetName]", ["Root.GetName"], []);
    var files := [LocFile(Some(Other("french")), [entry])];
    var other := new LocIndex.BuildScoped(files, Some([English]));
    OneFile(files, entry, other.entries);
    index := new LocIndex.Empty();
    index.MergeFrom(other, None);
    assert "a" in other.entries;
  }

  lemma OneFile(files: seq<LocFile>, entry: LocEntry, entries: map<string, LocEntry>)
    requires files == [LocFile(Some(Other("french")), [entry])] && entry.lowerKey == "a" && entry.commands != []
    requires AllRepresented(Cells(files), KeysIn(Cells(files), English), entries)
    ensures "a" in entries
    ensures Scoped(Langs(files), Some([English])) == []
    ensures forall sets :: Listed([], sets) == {}
  {
    OneFileHolds(files, entry);
    hide Cells, Langs, KeysIn;
    var cell := Cell(Other("french"), entry);
    assert Key(cell) == "a" && Bears(cell);
    assert First(Cells(files), "a", 0);
    assert Represents(Cells(files), "a" in KeysIn(Cells(files), English), entries, "a");
  }

  lemma OneFileHolds(files: seq<LocFile>, entry: LocEntry)
    requires files == [LocFile(Some(Other("french")), [entry])]
    ensures Cells(files) == [Cell(Other("french"), entry)] && Langs(files) == [Other("french")]
    ensures KeysIn(Cells(files), English) == {}
  {
  }
}

/** The parse-cache protocol, driver/src/lib.rs `load_or_parse` and
    `validate_selected` over cache/src/workspace.rs: any number of workers load
    files through the cache while an editor changes the sources and a pruner
    deletes entries, all between any two steps. */
module ParseCache {
  import opened Text

  type Path = string

  // One state of one source file. A key names exactly one version, and no
  // version comes back once the file has moved on.
  type Version = nat

  // What the parser makes of a text; `NotLoaded` is an index-only cache hit,
  // which skips the error sidecar.
  datatype Ast = AstOf(text: string)
  datatype Errors = ErrorsOf(text: string) | NotLoaded
  datatype Parsed = Parsed(ast: Ast, errors: Errors)

  function Parse(text: string): Parsed { Parsed(AstOf(text), ErrorsOf(text)) }

  // Entries are stored under a source key or under a text.
  datatype CacheKey = PathKey(version: Version) | ContentKey(text: string)

  datatype Fingerprint = Fingerprint(metadata: Option<Version>, contentHash: Option<string>)
  datatype Loaded = Loaded(parsed: Parsed, fingerprint: Fingerprint)

  datatype Use = Full | Index
  datatype Goal = Load | Validate

  datatype Phase =
    | Begun                                            // validate: before its first check
    | Start                                            // load_or_parse entered
    | Looking(key: Version)                            // load_path: key captured
    | LookedAst(key: Version, ast: Ast)
    | LookedAll(key: Version, parsed: Parsed)          // before the confirming key
    | Missed
    | Captured(meta: Option<Version>)
    | Reading(meta: Option<Version>, from: Option<Version>)
    | HaveText(meta: Option<Version>, text: string)
    | ContentFound(text: string, ast: Ast)
    | Unparsed(meta: Option<Version>, text: string)
    | HaveParse(meta: Option<Version>, text: string, parsed: Parsed, hit: bool)
    | Rechecked(meta: Option<Version>, byContent: bool, text: string, parsed: Parsed, hit: bool)
    | Storing(entry: CacheKey, loaded: Loaded)
    | StoringErrors(entry: CacheKey, loaded: Loaded)
    | Returned(loaded: Loaded)
    | Failed
    | Validated(parsed: Parsed)
    | ReportedChanged

  datatype Worker = Worker(path: Path, use: Use, goal: Goal, started: nat, phase: Phase)

  // `past` holds the sources at every instant so far, the present one last.
  datatype State = State(
    cacheOn: bool,
    clock: Version,
    texts: map<Version, string>,
    sources: map<Path, Version>,
    past: seq<map<Path, Version>>,
    asts: map<CacheKey, Ast>,
    errors: map<CacheKey, Errors>,
    workers: map<nat, Worker>,
    indexed: map<Path, Loaded>)

  ghost predicate Init(s: State) {
    && s.texts == map[] && s.sources == map[] && s.past == [map[]]
    && s.asts == map[] && s.errors == map[] && s.workers == map[] && s.indexed == map[]
  }

  datatype Step =
    | Check(seen: Option<Version>)
    | Lookup(seen: Option<Version>)
    | SkipLookup
    | ReadAst(found: bool)
    | ReadErrors(found: bool)
    | Confirm(seen: Option<Version>)
    | Capture(seen: Option<Version>)
    | BeginRead
    | EndRead(text: string)
    | FailRead
    | ContentAst(found: bool)
    | ContentErrors(found: bool)
    | ParseText
    | Recheck(seen: Option<Version>)
    | StoreByPath(seen: Option<Version>)
    | StoreByContent
    | SkipStore
    | WriteAst(written: bool)
    | WriteErrors(written: bool)
    | Compare

  datatype Action =
    | Edit(path: Path, text: string)
    | Delete(path: Path)
    | Prune(asts: set<CacheKey>, errors: set<CacheKey>)
    | Begin(w: nat, path: Path, use: Use, goal: Goal)
    | Work(w: nat, step: Step)
    | Record(w: nat)

  function SourceOf(s: State, path: Path): Option<Version> {
    if path in s.sources then Some(s.sources[path]) else None
  }

  // A key probe sees the present version or fails; a reliable one never fails.
  predicate Probe(s: State, path: Path, seen: Option<Version>, reliable: bool) {
    && (seen.Some? ==> SourceOf(s, path) == seen)
    && (reliable ==> seen.Some?)
  }

  function Finish(meta: Option<Version>, byContent: bool, text: string, parsed: Parsed): Loaded {
    Loaded(parsed, Fingerprint(meta, if byContent then Some(text) else None))
  }

  // One step of load_or_parse or of the validation around it: the next phase.
  function Advance(s: State, wk: Worker, step: Step, reliable: bool): Option<Phase> {
    match (step, wk.phase)
    case (Check(seen), Begun) =>
      if !Probe(s, wk.path, seen, reliable) || wk.path !in s.indexed then None
      else if seen == s.indexed[wk.path].fingerprint.metadata then Some(Start) else Some(ReportedChanged)
    case (Lookup(seen), Start) =>
      if !s.cacheOn || !Probe(s, wk.path, seen, reliable) then None
      else Some(if seen.Some? then Looking(seen.value) else Missed)
    case (SkipLookup, Start) => if s.cacheOn then None else Some(Missed)
    case (ReadAst(found), Looking(key)) =>
      if !found then Some(Missed)
      else if PathKey(key) in s.asts then Some(LookedAst(key, s.asts[PathKey(key)])) else None
    case (ReadErrors(found), LookedAst(key, ast)) =>
      if wk.use == Index then Some(LookedAll(key, Parsed(ast, NotLoaded)))
      else if !found then Some(Missed)
      else if PathKey(key) in s.errors then Some(LookedAll(key, Parsed(ast, s.errors[PathKey(key)]))) else None
    case (Confirm(seen), LookedAll(key, parsed)) =>
      if !Probe(s, wk.path, seen, reliable) then None
      else Some(if seen == Some(key) then Returned(Loaded(parsed, Fingerprint(Some(key), None))) else Missed)
    case (Capture(seen), Missed) => if Probe(s, wk.path, seen, reliable) then Some(Captured(seen)) else None
    case (BeginRead, Captured(meta)) => Some(Reading(meta, SourceOf(s, wk.path)))
    case (EndRead(text), Reading(meta, from)) =>
      // A read over an unchanged source is its text; over a changing one it may be torn.
      if from.Some? && SourceOf(s, wk.path) == from && (from.value !in s.texts || text != s.texts[from.value]) then None
      else Some(HaveText(meta, text))
    case (FailRead, Reading(meta, from)) => Some(Failed)
    case (ContentAst(found), HaveText(meta, text)) =>
      if !s.cacheOn || meta.Some? then None
      else if !found then Some(Unparsed(meta, text))
      else if ContentKey(text) in s.asts then Some(ContentFound(text, s.asts[ContentKey(text)])) else None
    case (ContentErrors(found), ContentFound(text, ast)) =>
      if wk.use == Index then Some(HaveParse(None, text, Parsed(ast, NotLoaded), true))
      else if !found then Some(Unparsed(None, text))
      else if ContentKey(text) in s.errors
        then Some(HaveParse(None, text, Parsed(ast, s.errors[ContentKey(text)]), true)) else None
    case (ParseText, HaveText(meta, text)) =>
      if s.cacheOn && meta.None? then None else Some(HaveParse(meta, text, Parse(text), false))
    case (ParseText, Unparsed(meta, text)) => Some(HaveParse(meta, text, Parse(text), false))
    case (Recheck(seen), HaveParse(meta, text, parsed, hit)) =>
      if !Probe(s, wk.path, seen, reliable) then None
      else Some(Rechecked(if meta.Some? && seen == meta then meta else None, meta.None?, text, parsed, hit))
    case (StoreByPath(seen), Rechecked(meta, byContent, text, parsed, hit)) =>
      if !s.cacheOn || hit || meta.None? || !Probe(s, wk.path, seen, reliable) then None
      else if seen == meta then Some(Storing(PathKey(meta.value), Finish(meta, byContent, text, parsed)))
      else Some(Returned(Finish(meta, byContent, text, parsed)))
    case (StoreByContent, Rechecked(meta, byContent, text, parsed, hit)) =>
      if !s.cacheOn || hit || meta.Some? then None
      else Some(Storing(ContentKey(text), Finish(meta, byContent, text, parsed)))
    case (SkipStore, Rechecked(meta, byContent, text, parsed, hit)) =>
      if s.cacheOn && !hit then None else Some(Returned(Finish(meta, byContent, text, parsed)))
    case (WriteAst(written), Storing(entry, loaded)) =>
      Some(if written then StoringErrors(entry, loaded) else Returned(loaded))
    case (WriteErrors(written), StoringErrors(entry, loaded)) => Some(Returned(loaded))
    case (Compare, Returned(loaded)) =>
      if wk.goal != Validate || wk.path !in s.indexed then None
      else
        Some(if loaded.fingerprint == s.indexed[wk.path].fingerprint then Validated(loaded.parsed) else ReportedChanged)
    case _ => None
  }

  // What a step writes to the cache directory; a failed sidecar takes its entry along.
  function Written(s: State, phase: Phase, step: Step): (map<CacheKey, Ast>, map<CacheKey, Errors>) {
    match (step, phase)
    case (WriteAst(true), Storing(entry, loaded)) => (s.asts[entry := loaded.parsed.ast], s.errors)
    case (WriteErrors(true), StoringErrors(entry, loaded)) => (s.asts, s.errors[entry := loaded.parsed.errors])
    case (WriteErrors(false), StoringErrors(entry, loaded)) => (s.asts - {entry}, s.errors - {entry})
    case _ => (s.asts, s.errors)
  }

  function Tick(s: State): State { s.(past := s.past + [s.sources]) }

  function Do(s: State, a: Action, reliable: bool): Option<State> {
    match a
    case Edit(path, text) =>
      Some(Tick(s.(clock := s.clock + 1, texts := s.texts[s.clock := text], sources := s.sources[path := s.clock])))
    case Delete(path) => Some(Tick(s.(sources := s.sources - {path})))
    case Prune(asts, errors) => Some(Tick(s.(asts := s.asts - asts, errors := s.errors - errors)))
    case Begin(w, path, use, goal) =>
      if w in s.workers || (goal == Validate && (path !in s.indexed || use != Full)) then None
      else
        var phase := if goal == Validate then Begun else Start;
        Some(Tick(s.(workers := s.workers[w := Worker(path, use, goal, |s.past|, phase)])))
    case Work(w, step) =>
      if w !in s.workers then None else
        (match Advance(s, s.workers[w], step, reliable)
         case None => None
         case Some(phase) =>
           var (asts, errors) := Written(s, s.workers[w].phase, step);
           Some(Tick(s.(asts := asts, errors := errors, workers := s.workers[w := s.workers[w].(phase := phase)]))))
    case Record(w) =>
      if w !in s.workers then None else
        var wk := s.workers[w];
        if wk.goal == Load && wk.use == Full && wk.phase.Returned? && wk.path !in s.indexed
          then Some(Tick(s.(indexed := s.indexed[wk.path := wk.phase.loaded]))) else None
  }

  // ---- What every state keeps --------------------------------------------------

  // `parsed` is what the parser makes of `text`, up to errors an index hit skips.
  predicate ParseOf(parsed: Parsed, text: string, use: Use) {
    parsed.ast == AstOf(text) && (parsed.errors == ErrorsOf(text) || (use == Index && parsed.errors == NotLoaded))
  }

  predicate TextIs(s: State, v: Version, text: string) { v in s.texts && s.texts[v] == text }

  // The source is not, and so never again will be, at version `v`.
  predicate MovedOn(s: State, path: Path, v: Version) { v < s.clock && SourceOf(s, path) != Some(v) }

  // `text` was read from `v` in one piece, or the source has moved on since.
  predicate Faithful(s: State, path: Path, meta: Option<Version>, text: string) {
    meta.Some? ==> TextIs(s, meta.value, text) || MovedOn(s, path, meta.value)
  }

  predicate KnownVersion(s: State, meta: Option<Version>) { meta.Some? ==> meta.value in s.texts }

  // At some instant since `started` the source was at version `v`.
  ghost predicate SeenSince(s: State, path: Path, started: nat, v: Version) {
    exists i :: started <= i < |s.past| && path in s.past[i] && s.past[i][path] == v
  }

  // A fingerprint vouches for the parse it comes with.
  ghost predicate Vouched(s: State, loaded: Loaded, use: Use) {
    && (loaded.fingerprint.metadata.Some? ==>
          loaded.fingerprint.metadata.value in s.texts
          && ParseOf(loaded.parsed, s.texts[loaded.fingerprint.metadata.value], use)
          && loaded.fingerprint.contentHash.None?)
    && (loaded.fingerprint.contentHash.Some? ==> ParseOf(loaded.parsed, loaded.fingerprint.contentHash.value, use))
  }

  ghost predicate LoadedInv(s: State, wk: Worker, loaded: Loaded) {
    && Vouched(s, loaded, wk.use)
    && (loaded.fingerprint.metadata.Some? ==> SeenSince(s, wk.path, wk.started, loaded.fingerprint.metadata.value))
  }

  // An entry about to be written holds the parse its key stands for.
  predicate EntryFits(s: State, entry: CacheKey, loaded: Loaded) {
    match entry
    case PathKey(v) => v in s.texts && loaded.parsed == Parse(s.texts[v])
    case ContentKey(text) => loaded.parsed == Parse(text)
  }

  ghost predicate PhaseInv(s: State, wk: Worker) {
    match wk.phase
    case Looking(key) => key in s.texts
    case LookedAst(key, ast) => key in s.texts && ast == AstOf(s.texts[key])
    case LookedAll(key, parsed) => key in s.texts && ParseOf(parsed, s.texts[key], wk.use)
    case Captured(meta) => KnownVersion(s, meta)
    case Reading(meta, from) =>
      KnownVersion(s, meta) && (meta.Some? ==> from == meta || MovedOn(s, wk.path, meta.value))
    case HaveText(meta, text) => KnownVersion(s, meta) && Faithful(s, wk.path, meta, text)
    case ContentFound(text, ast) => ast == AstOf(text)
    case Unparsed(meta, text) => meta.None?
    case HaveParse(meta, text, parsed, hit) =>
      KnownVersion(s, meta) && Faithful(s, wk.path, meta, text)
      && ParseOf(parsed, text, wk.use) && (!hit ==> parsed == Parse(text))
    case Rechecked(meta, byContent, text, parsed, hit) =>
      (meta.Some? ==> TextIs(s, meta.value, text) && !byContent && SeenSince(s, wk.path, wk.started, meta.value))
      && ParseOf(parsed, text, wk.use) && (!hit ==> parsed == Parse(text))
    case Storing(entry, loaded) => EntryFits(s, entry, loaded) && LoadedInv(s, wk, loaded)
    case StoringErrors(entry, loaded) => EntryFits(s, entry, loaded) && LoadedInv(s, wk, loaded)
    case Returned(loaded) => LoadedInv(s, wk, loaded)
    case Validated(parsed) =>
      wk.path in s.indexed && LoadedInv(s, wk, Loaded(parsed, s.indexed[wk.path].fingerprint))
    case _ => true
  }

  ghost predicate CacheInv(s: State) {
    && (forall v :: PathKey(v) in s.asts ==> v in s.texts && s.asts[PathKey(v)] == AstOf(s.texts[v]))
    && (forall v :: PathKey(v) in s.errors ==> v in s.texts && s.errors[PathKey(v)] == ErrorsOf(s.texts[v]))
    && (forall t :: ContentKey(t) in s.asts ==> s.asts[ContentKey(t)] == AstOf(t))
    && (forall t :: ContentKey(t) in s.errors ==> s.errors[ContentKey(t)] == ErrorsOf(t))
  }

  ghost predicate SourcesInv(s: State) {
    && (forall v :: v in s.texts ==> v < s.clock)
    && (forall p :: p in s.sources ==> s.sources[p] in s.texts)
    && |s.past| > 0 && s.past[|s.past| - 1] == s.sources
  }

  ghost predicate WorkersInv(s: State) {
    forall w :: w in s.workers ==>
      && PhaseInv(s, s.workers[w])
      && s.workers[w].started < |s.past|
      && (s.workers[w].goal == Validate ==> s.workers[w].use == Full)
  }

  ghost predicate IndexedInv(s: State) {
    forall p :: p in s.indexed ==> Vouched(s, s.indexed[p], Full)
  }

  ghost predicate Inv(s: State) {
    SourcesInv(s) && CacheInv(s) && WorkersInv(s) && IndexedInv(s)
  }

  // Nothing already established is undone by time passing.
  ghost predicate Later(s: State, s': State) {
    && s.clock <= s'.clock
    && (forall v :: v in s.texts ==> v in s'.texts && s'.texts[v] == s.texts[v])
    && s.past <= s'.past
    && (forall p :: p in s.indexed ==> p in s'.indexed && s'.indexed[p] == s.indexed[p])
    && (forall p, v :: MovedOn(s, p, v) ==> MovedOn(s', p, v))
  }

  lemma PhaseStays(s: State, s': State, wk: Worker)
    requires PhaseInv(s, wk) && Later(s, s')
    ensures PhaseInv(s', wk)
  {
  }

  lemma EditIsLater(s: State, path: Path, text: string)
    requires SourcesInv(s)
    ensures var s' := Tick(s.(clock := s.clock + 1, texts := s.texts[s.clock := text],
                              sources := s.sources[path := s.clock]));
            Later(s, s') && SourcesInv(s')
  {
  }

  lemma DeleteIsLater(s: State, path: Path)
    requires SourcesInv(s)
    ensures var s' := Tick(s.(sources := s.sources - {path})); Later(s, s') && SourcesInv(s')
  {
  }

  lemma QuietIsLater(s: State, s': State)
    requires SourcesInv(s)
    requires s'.clock == s.clock && s'.texts == s.texts && s'.sources == s.sources && s'.past == s.past + [s.sources]
    requires forall p :: p in s.indexed ==> p in s'.indexed && s'.indexed[p] == s.indexed[p]
    ensures Later(s, s') && SourcesInv(s')
  {
  }

  lemma DoIsLater(s: State, a: Action, reliable: bool)
    requires SourcesInv(s) && Do(s, a, reliable).Some?
    ensures Later(s, Do(s, a, reliable).value) && SourcesInv(Do(s, a, reliable).value)
  {
    hide Advance, Written, Later, SourcesInv;
    match a
    case Edit(path, text) => EditIsLater(s, path, text);
    case Delete(path) => DeleteIsLater(s, path);
    case _ => QuietIsLater(s, Do(s, a, reliable).value);
  }

  predicate LookingUp(phase: Phase) {
    phase.Begun? || phase.Start? || phase.Looking? || phase.LookedAst? || phase.LookedAll?
  }

  predicate GettingText(phase: Phase) {
    phase.Missed? || phase.Captured? || phase.Reading? || phase.HaveText? || phase.ContentFound? || phase.Unparsed?
  }

  lemma LookupKeeps(s: State, wk: Worker, step: Step, reliable: bool)
    requires SourcesInv(s) && CacheInv(s) && PhaseInv(s, wk) && wk.started < |s.past| && LookingUp(wk.phase)
    requires Advance(s, wk, step, reliable).Some?
    ensures PhaseInv(s, wk.(phase := Advance(s, wk, step, reliable).value))
  {
  }

  lemma TextKeeps(s: State, wk: Worker, step: Step, reliable: bool)
    requires SourcesInv(s) && CacheInv(s) && PhaseInv(s, wk) && GettingText(wk.phase)
    requires Advance(s, wk, step, reliable).Some?
    ensures PhaseInv(s, wk.(phase := Advance(s, wk, step, reliable).value))
  {
  }

  lemma ParseKeeps(s: State, wk: Worker, step: Step, reliable: bool)
    requires SourcesInv(s) && PhaseInv(s, wk) && wk.started < |s.past|
    requires !LookingUp(wk.phase) && !GettingText(wk.phase)
    requires Advance(s, wk, step, reliable).Some?
    ensures PhaseInv(s, wk.(phase := Advance(s, wk, step, reliable).value))
  {
  }

  // The state a worker's own step leads to, before the clock ticks.
  lemma AdvanceKeeps(s: State, wk: Worker, step: Step, reliable: bool)
    requires SourcesInv(s) && CacheInv(s) && PhaseInv(s, wk) && wk.started < |s.past|
    requires Advance(s, wk, step, reliable).Some?
    ensures PhaseInv(s, wk.(phase := Advance(s, wk, step, reliable).value))
  {
    hide PhaseInv, Advance, CacheInv, SourcesInv;
    if LookingUp(wk.phase) {
      LookupKeeps(s, wk, step, reliable);
    } else if GettingText(wk.phase) {
      TextKeeps(s, wk, step, reliable);
    } else {
      ParseKeeps(s, wk, step, reliable);
    }
  }

  lemma WrittenKeeps(s: State, wk: Worker, step: Step)
    requires CacheInv(s) && PhaseInv(s, wk)
    ensures var (asts, errors) := Written(s, wk.phase, step); CacheInv(s.(asts := asts, errors := errors))
  {
  }

  lemma WorkersStay(s: State, s': State, except: set<nat>)
    requires WorkersInv(s) && Later(s, s')
    requires forall w :: w in s'.workers && w !in except ==> w in s.workers && s'.workers[w] == s.workers[w]
    ensures forall w :: w in s'.workers && w !in except ==>
      && PhaseInv(s', s'.workers[w])
      && s'.workers[w].started < |s'.past|
      && (s'.workers[w].goal == Validate ==> s'.workers[w].use == Full)
  {
  }

  lemma WorkInv(s: State, w: nat, step: Step, reliable: bool)
    requires Inv(s) && Do(s, Work(w, step), reliable).Some?
    ensures Inv(Do(s, Work(w, step), reliable).value)
  {
    hide PhaseInv, Advance, Written, IndexedInv, CacheInv, Later, SourcesInv;
    var s' := Do(s, Work(w, step), reliable).value;
    DoIsLater(s, Work(w, step), reliable);
    WorkersStay(s, s', {w});
    IndexedStays(s, s');
    AdvanceKeeps(s, s.workers[w], step, reliable);
    PhaseStays(s, s', s'.workers[w]);
    var (asts, errors) := Written(s, s.workers[w].phase, step);
    WrittenKeeps(s, s.workers[w], step);
    CacheStays(s.(asts := asts, errors := errors), s');
  }

  lemma DoInv(s: State, a: Action, reliable: bool)
    requires Inv(s) && Do(s, a, reliable).Some?
    ensures Inv(Do(s, a, reliable).value)
  {
    hide PhaseInv, Advance, Written, Vouched, CacheInv, IndexedInv, SourcesInv, MovedOn;
    var s' := Do(s, a, reliable).value;
    DoIsLater(s, a, reliable);
    match a
    case Edit(path, text) => WorkersStay(s, s', {}); CacheStays(s, s'); IndexedStays(s, s');
    case Delete(path) => WorkersStay(s, s', {}); CacheStays(s, s'); IndexedStays(s, s');
    case Prune(asts, errors) => WorkersStay(s, s', {}); CacheStays(s, s'); IndexedStays(s, s');
    case Begin(w, path, use, goal) =>
      WorkersStay(s, s', {w}); CacheStays(s, s'); IndexedStays(s, s');
      NewWorker(s', s'.workers[w]);
    case Work(w, step) => WorkInv(s, w, step, reliable);
    case Record(w) =>
      WorkersStay(s, s', {}); CacheStays(s, s');
      ReturnedVouched(s, s.workers[w]);
      IndexedGrows(s, s', s.workers[w].path);
  }

  lemma NewWorker(s: State, wk: Worker)
    requires wk.phase == Begun || wk.phase == Start
    ensures PhaseInv(s, wk)
  {
  }

  lemma ReturnedVouched(s: State, wk: Worker)
    requires PhaseInv(s, wk) && wk.phase.Returned?
    ensures Vouched(s, wk.phase.loaded, wk.use)
  {
  }

  lemma IndexedStays(s: State, s': State)
    requires IndexedInv(s) && Later(s, s') && s'.indexed == s.indexed
    ensures IndexedInv(s')
  {
  }

  lemma IndexedGrows(s: State, s': State, path: Path)
    requires IndexedInv(s) && Later(s, s') && path in s'.indexed && s'.indexed == s.indexed[path := s'.indexed[path]]
    requires Vouched(s, s'.indexed[path], Full)
    ensures IndexedInv(s')
  {
  }

  lemma CacheStays(s: State, s': State)
    requires CacheInv(s)
    requires forall v :: v in s.texts ==> v in s'.texts && s'.texts[v] == s.texts[v]
    requires forall k :: k in s'.asts ==> k in s.asts && s'.asts[k] == s.asts[k]
    requires forall k :: k in s'.errors ==> k in s.errors && s'.errors[k] == s.errors[k]
    ensures CacheInv(s')
  {
  }

  // ---- Runs -----------------------------------------------------------------------

  // Where a schedule of editor, pruner and worker actions leads, if it can be taken.
  function After(s: State, schedule: seq<Action>, reliable: bool): Option<State>
    decreases |schedule|
  {
    if schedule == [] then Some(s)
    else
      match Do(s, schedule[0], reliable)
      case None => None
      case Some(s1) => After(s1, schedule[1..], reliable)
  }

  lemma {:induction false} AfterInv(s: State, schedule: seq<Action>, reliable: bool)
    requires Inv(s) && After(s, schedule, reliable).Some?
    ensures Inv(After(s, schedule, reliable).value)
    decreases |schedule|
  {
    if schedule != [] {
      hide Inv, Do;
      DoInv(s, schedule[0], reliable);
      AfterInv(Do(s, schedule[0], reliable).value, schedule[1..], reliable);
    }
  }

  ghost predicate Reachable(s: State, reliable: bool) {
    exists s0, schedule :: Init(s0) && After(s0, schedule, reliable) == Some(s)
  }

  lemma ReachableInv(s: State, reliable: bool)
    requires Reachable(s, reliable)
    ensures Inv(s)
  {
    var s0, schedule :| Init(s0) && After(s0, schedule, reliable) == Some(s);
    AfterInv(s0, schedule, reliable);
  }

  // Every entry in the cache holds the parse its key stands for: the version's
  // text under a path key, the text itself under a content key, torn or not.
  lemma EntriesAreSound(s: State, reliable: bool, v: Version, text: string)
    requires Reachable(s, reliable)
    ensures PathKey(v) in s.asts ==> v in s.texts && s.asts[PathKey(v)] == AstOf(s.texts[v])
    ensures PathKey(v) in s.errors ==> v in s.texts && s.errors[PathKey(v)] == ErrorsOf(s.texts[v])
    ensures ContentKey(text) in s.asts ==> s.asts[ContentKey(text)] == AstOf(text)
    ensures ContentKey(text) in s.errors ==> s.errors[ContentKey(text)] == ErrorsOf(text)
  {
    ReachableInv(s, reliable);
  }

  // A load that comes back with a key, from the cache or from a read, is the
  // parse of what the source was at some instant inside the call.
  lemma KeyedLoadsAreCurrent(s: State, reliable: bool, w: nat)
    requires Reachable(s, reliable) && w in s.workers && s.workers[w].phase.Returned?
    requires s.workers[w].phase.loaded.fingerprint.metadata.Some?
    ensures var v := s.workers[w].phase.loaded.fingerprint.metadata.value;
            v in s.texts && ParseOf(s.workers[w].phase.loaded.parsed, s.texts[v], s.workers[w].use)
            && SeenSince(s, s.workers[w].path, s.workers[w].started, v)
  {
    ReachableInv(s, reliable);
  }

  // A load without a key, read while the source was changing, still vouches for
  // the exact text it was keyed by when the content key was used.
  lemma ContentLoadsMatchTheirText(s: State, reliable: bool, w: nat)
    requires Reachable(s, reliable) && w in s.workers && s.workers[w].phase.Returned?
    requires s.workers[w].phase.loaded.fingerprint.contentHash.Some?
    ensures ParseOf(s.workers[w].phase.loaded.parsed, s.workers[w].phase.loaded.fingerprint.contentHash.value,
                    s.workers[w].use)
  {
    ReachableInv(s, reliable);
  }

  lemma InvValidates(s: State, w: nat)
    requires Inv(s) && w in s.workers && s.workers[w].phase.Validated? && s.workers[w].goal == Validate
    ensures s.workers[w].path in s.indexed
    ensures s.indexed[s.workers[w].path].fingerprint != Fingerprint(None, None) ==>
            s.workers[w].phase.parsed == s.indexed[s.workers[w].path].parsed
  {
    assert IndexedInv(s) && PhaseInv(s, s.workers[w]);
  }

  // What validation checks is what was indexed, unless the indexed load could
  // vouch for nothing at all.
  lemma ValidatedIsIndexed(s: State, reliable: bool, w: nat)
    requires Reachable(s, reliable) && w in s.workers && s.workers[w].phase.Validated? && s.workers[w].goal == Validate
    ensures s.workers[w].path in s.indexed
    ensures s.indexed[s.workers[w].path].fingerprint != Fingerprint(None, None) ==>
            s.workers[w].phase.parsed == s.indexed[s.workers[w].path].parsed
  {
    ReachableInv(s, reliable);
    InvValidates(s, w);
  }

  // ---- No worker is stuck, and none does what it should not --------------------------

  predicate Finished(wk: Worker) {
    wk.phase.Failed? || wk.phase.Validated? || wk.phase.ReportedChanged? || (wk.phase.Returned? && wk.goal == Load)
  }

  // The step that a probe's outcome leads to, where the worker probes next.
  function Probing(s: State, wk: Worker, seen: Option<Version>): Option<Step> {
    match wk.phase
    case Begun => Some(Check(seen))
    case Start => if s.cacheOn then Some(Lookup(seen)) else None
    case LookedAll(_, _) => Some(Confirm(seen))
    case Missed => Some(Capture(seen))
    case HaveParse(_, _, _, _) => Some(Recheck(seen))
    case Rechecked(meta, _, _, _, hit) => if s.cacheOn && !hit && meta.Some? then Some(StoreByPath(seen)) else None
    case _ => None
  }

  // Whatever a probe finds or fails to find, the worker goes on from it.
  lemma ProbesAreAnswered(s: State, wk: Worker, seen: Option<Version>, reliable: bool)
    requires Probe(s, wk.path, seen, reliable) && Probing(s, wk, seen).Some?
    requires wk.goal == Validate ==> wk.path in s.indexed
    requires wk.phase == Begun ==> wk.goal == Validate
    ensures Advance(s, wk, Probing(s, wk, seen).value, reliable).Some?
  {
  }

  // In every reachable state a worker that is not finished can take a step, if its
  // source is there to be probed or probes may fail.
  lemma NoWorkerIsStuck(s: State, w: nat, reliable: bool)
    requires Reachable(s, reliable) && w in s.workers && !Finished(s.workers[w])
    requires SourceOf(s, s.workers[w].path).Some? || !reliable
    ensures exists step :: Do(s, Work(w, step), reliable).Some?
  {
    hide Inv;
    var wk, seen := s.workers[w], SourceOf(s, s.workers[w].path);
    ReachableBegun(s, reliable);
    if Probing(s, wk, seen).Some? {
      ProbesAreAnswered(s, wk, seen, reliable);
      assert Do(s, Work(w, Probing(s, wk, seen).value), reliable).Some?;
    } else {
      var step := Unprobed(s, wk);
      assert Do(s, Work(w, step), reliable).Some?;
    }
  }

  lemma Unprobed(s: State, wk: Worker) returns (step: Step)
    requires !Finished(wk) && Probing(s, wk, None).None? && (wk.goal == Validate ==> wk.path in s.indexed)
    ensures forall reliable :: Advance(s, wk, step, reliable).Some?
  {
    match wk.phase
    case Start => step := SkipLookup;
    case Looking(_) => step := ReadAst(false);
    case LookedAst(_, _) => step := ReadErrors(false);
    case Captured(_) => step := BeginRead;
    case Reading(_, _) => step := FailRead;
    case HaveText(meta, _) => step := if s.cacheOn && meta.None? then ContentAst(false) else ParseText;
    case ContentFound(_, _) => step := ContentErrors(false);
    case Unparsed(_, _) => step := ParseText;
    case Rechecked(_, _, _, _, hit) => step := if s.cacheOn && !hit then StoreByContent else SkipStore;
    case Storing(_, _) => step := WriteAst(true);
    case StoringErrors(_, _) => step := WriteErrors(true);
    case Returned(_) => step := Compare;
  }

  // A worker checks before it loads only to validate, what was indexed.
  ghost predicate BegunInv(s: State) {
    forall w :: w in s.workers ==>
      (s.workers[w].goal == Validate ==> s.workers[w].path in s.indexed)
      && (s.workers[w].goal == Load ==>
            s.workers[w].phase != Begun && s.workers[w].phase != ReportedChanged && !s.workers[w].phase.Validated?)
  }

  lemma LoadsGoOnLoading(s: State, wk: Worker, step: Step, reliable: bool)
    requires wk.goal == Load && wk.phase != Begun && Advance(s, wk, step, reliable).Some?
    ensures var next := Advance(s, wk, step, reliable).value;
            next != Begun && next != ReportedChanged && !next.Validated?
  {
  }

  lemma DoBegun(s: State, a: Action, reliable: bool)
    requires BegunInv(s) && Do(s, a, reliable).Some?
    ensures BegunInv(Do(s, a, reliable).value)
  {
    hide Advance, Written;
    match a
    case Work(w, step) =>
      if s.workers[w].goal == Load {
        LoadsGoOnLoading(s, s.workers[w], step, reliable);
      }
    case _ =>
  }

  lemma {:induction false} AfterBegun(s: State, schedule: seq<Action>, reliable: bool)
    requires BegunInv(s) && After(s, schedule, reliable).Some?
    ensures BegunInv(After(s, schedule, reliable).value)
    decreases |schedule|
  {
    if schedule != [] {
      hide BegunInv, Do;
      DoBegun(s, schedule[0], reliable);
      AfterBegun(Do(s, schedule[0], reliable).value, schedule[1..], reliable);
    }
  }

  lemma ReachableBegun(s: State, reliable: bool)
    requires Reachable(s, reliable)
    ensures BegunInv(s)
  {
    hide Do;
    var s0, schedule :| Init(s0) && After(s0, schedule, reliable) == Some(s);
    AfterBegun(s0, schedule, reliable);
  }

  // Whoever validates or reports a change was begun to validate.
  lemma OnlyValidationsValidate(s: State, w: nat, reliable: bool)
    requires Reachable(s, reliable) && w in s.workers
    requires s.workers[w].phase.Validated? || s.workers[w].phase == ReportedChanged
    ensures s.workers[w].goal == Validate
  {
    ReachableBegun(s, reliable);
  }

  // A read over a source that stays put gives its text, and one over a source that
  // changed meanwhile may give any text.
  lemma ReadsMayBeTorn(s: State, wk: Worker, text: string, reliable: bool)
    requires wk.phase.Reading?
    requires wk.phase.from == SourceOf(s, wk.path) && wk.phase.from.Some? ==> TextIs(s, wk.phase.from.value, text)
    ensures Advance(s, wk, EndRead(text), reliable) == Some(HaveText(wk.phase.meta, text))
  {
  }

  // At every instant any source may be rewritten or deleted and any entries pruned,
  // and no worker notices.
  lemma OthersMayInterfere(s: State, path: Path, text: string, asts: set<CacheKey>, errors: set<CacheKey>,
                           reliable: bool)
    ensures var t := Do(s, Edit(path, text), reliable);
            t.Some? && t.value.workers == s.workers && SourceOf(t.value, path) == Some(s.clock)
            && TextIs(t.value, s.clock, text)
    ensures var t := Do(s, Delete(path), reliable);
            t.Some? && t.value.workers == s.workers && SourceOf(t.value, path).None?
    ensures var t := Do(s, Prune(asts, errors), reliable);
            t.Some? && t.value.workers == s.workers && t.value.sources == s.sources
            && t.value.asts == s.asts - asts && t.value.errors == s.errors - errors
  {
  }

  // With the cache off nothing is looked up or written.
  predicate UsesCache(phase: Phase) {
    phase.Looking? || phase.LookedAst? || phase.LookedAll? || phase.ContentFound? || phase.Unparsed?
    || phase.Storing? || phase.StoringErrors?
  }

  ghost predicate CacheUnused(s: State) {
    !s.cacheOn && s.asts == map[] && s.errors == map[]
    && forall w :: w in s.workers ==> !UsesCache(s.workers[w].phase)
  }

  lemma AdvanceCacheUnused(s: State, wk: Worker, step: Step, reliable: bool)
    requires !s.cacheOn && !UsesCache(wk.phase) && Advance(s, wk, step, reliable).Some?
    ensures !UsesCache(Advance(s, wk, step, reliable).value) && Written(s, wk.phase, step) == (s.asts, s.errors)
  {
  }

  lemma DoCacheUnused(s: State, a: Action, reliable: bool)
    requires CacheUnused(s) && Do(s, a, reliable).Some?
    ensures CacheUnused(Do(s, a, reliable).value)
  {
    hide Advance, Written, UsesCache;
    match a
    case Work(w, step) => AdvanceCacheUnused(s, s.workers[w], step, reliable);
    case Begin(_, _, _, goal) => assert !UsesCache(Begun) && !UsesCache(Start) by { FreshUsesNone(); }
    case _ =>
  }

  lemma FreshUsesNone()
    ensures !UsesCache(Begun) && !UsesCache(Start)
  {
  }

  lemma {:induction false} CacheOffIsUnused(s: State, schedule: seq<Action>, reliable: bool)
    requires CacheUnused(s) && After(s, schedule, reliable).Some?
    ensures CacheUnused(After(s, schedule, reliable).value)
    decreases |schedule|
  {
    if schedule != [] {
      hide CacheUnused, Do;
      DoCacheUnused(s, schedule[0], reliable);
      CacheOffIsUnused(Do(s, schedule[0], reliable).value, schedule[1..], reliable);
    }
  }

  // ---- Reliable keys ------------------------------------------------------------------

  // Past its first check a validation has an indexed key to compare against.
  predicate KeyedInv(s: State) {
    forall w ::
      (w in s.workers && s.workers[w].goal == Validate && s.workers[w].phase != Begun
        && s.workers[w].phase != ReportedChanged
       ==> s.workers[w].path in s.indexed && s.indexed[s.workers[w].path].fingerprint.metadata.Some?)
  }

  lemma DoKeyed(s: State, a: Action)
    requires KeyedInv(s) && Do(s, a, true).Some?
    ensures KeyedInv(Do(s, a, true).value)
  {
  }

  lemma {:induction false} AfterKeyed(s: State, schedule: seq<Action>)
    requires KeyedInv(s) && After(s, schedule, true).Some?
    ensures KeyedInv(After(s, schedule, true).value)
    decreases |schedule|
  {
    if schedule != [] {
      hide KeyedInv, Do;
      DoKeyed(s, schedule[0]);
      AfterKeyed(Do(s, schedule[0], true).value, schedule[1..]);
    }
  }

  // When every key probe succeeds, a file that validates was parsed from exactly
  // the version that was indexed, and the source was at that version again at
  // some instant of the validation, whatever edits came in between.
  lemma ValidatedVersionIsIndexedVersion(s: State, w: nat)
    requires Reachable(s, true) && w in s.workers && s.workers[w].phase.Validated? && s.workers[w].goal == Validate
    ensures s.workers[w].path in s.indexed && s.indexed[s.workers[w].path].fingerprint.metadata.Some?
    ensures var v := s.indexed[s.workers[w].path].fingerprint.metadata.value;
            v in s.texts
            && s.workers[w].phase.parsed == s.indexed[s.workers[w].path].parsed == Parse(s.texts[v])
            && SeenSince(s, s.workers[w].path, s.workers[w].started, v)
  {
    ReachableInv(s, true);
    assert IndexedInv(s) && PhaseInv(s, s.workers[w]);
    var s0, schedule :| Init(s0) && After(s0, schedule, true) == Some(s);
    AfterKeyed(s0, schedule);
  }

  // ---- Reports of change -----------------------------------------------------------------

  function SourceIn(sources: map<Path, Version>, path: Path): Option<Version> {
    if path in sources then Some(sources[path]) else None
  }

  // At some instant of the validation the source was at that key.
  ghost predicate WasAt(s: State, wk: Worker, meta: Option<Version>) {
    exists i :: wk.started <= i < |s.past| && SourceIn(s.past[i], wk.path) == meta
  }

  // At some instant of the validation the source was not as recorded.
  ghost predicate WasAway(s: State, wk: Worker)
    requires wk.path in s.indexed
  {
    exists i :: wk.started <= i < |s.past| && SourceIn(s.past[i], wk.path) != s.indexed[wk.path].fingerprint.metadata
  }

  // What a validation under reliable keys holds on to for the report it may make.
  ghost predicate Justified(s: State, wk: Worker) {
    wk.goal == Validate ==>
      wk.path in s.indexed
      && match wk.phase
         case Captured(meta) => meta.Some? && WasAt(s, wk, meta)
         case Reading(meta, _) => meta.Some? && WasAt(s, wk, meta)
         case HaveText(meta, _) => meta.Some? && WasAt(s, wk, meta)
         case HaveParse(meta, _, _, _) => meta.Some? && WasAt(s, wk, meta)
         case ContentFound(_, _) => false
         case Unparsed(_, _) => false
         case Rechecked(meta, byContent, _, _, _) =>
           !byContent && if meta.Some? then WasAt(s, wk, meta) else WasAway(s, wk)
         case Storing(_, loaded) => LoadJustified(s, wk, loaded)
         case StoringErrors(_, loaded) => LoadJustified(s, wk, loaded)
         case Returned(loaded) => LoadJustified(s, wk, loaded)
         case ReportedChanged => WasAway(s, wk)
         case _ => true
  }

  ghost predicate LoadJustified(s: State, wk: Worker, loaded: Loaded)
    requires wk.path in s.indexed
  {
    loaded.fingerprint.contentHash.None?
    && if loaded.fingerprint.metadata.Some? then WasAt(s, wk, loaded.fingerprint.metadata) else WasAway(s, wk)
  }

  ghost predicate AllJustified(s: State) {
    forall w :: w in s.workers ==> Justified(s, s.workers[w])
  }

  lemma JustifiedStays(s: State, s': State, wk: Worker)
    requires Justified(s, wk) && Later(s, s')
    ensures Justified(s', wk)
  {
    if wk.goal == Validate {
      forall meta | WasAt(s, wk, meta) ensures WasAt(s', wk, meta) {
        var i :| wk.started <= i < |s.past| && SourceIn(s.past[i], wk.path) == meta;
        assert s'.past[i] == s.past[i];
      }
      if WasAway(s, wk) {
        var i :| wk.started <= i < |s.past| && SourceIn(s.past[i], wk.path) != s.indexed[wk.path].fingerprint.metadata;
        assert s'.past[i] == s.past[i];
      }
    }
  }

  // A probe shows where the source is at this instant.
  lemma ProbeShows(s: State, wk: Worker, seen: Option<Version>)
    requires SourcesInv(s) && wk.started < |s.past| && Probe(s, wk.path, seen, true)
    ensures seen.Some? && WasAt(s, wk, seen)
  {
    assert SourceIn(s.past[|s.past| - 1], wk.path) == seen;
  }

  lemma AdvanceJustifies(s: State, wk: Worker, step: Step)
    requires SourcesInv(s) && IndexedInv(s) && wk.started < |s.past| && Justified(s, wk) && wk.goal == Validate
    requires Advance(s, wk, step, true).Some?
    ensures Justified(s, wk.(phase := Advance(s, wk, step, true).value))
  {
    hide SourcesInv, WasAt, WasAway;
    var next := wk.(phase := Advance(s, wk, step, true).value);
    SameInstants(s, wk, next);
    match (step, wk.phase)
    case (Check(seen), Begun) => ProbeJustifies(s, wk, seen);
    case (Confirm(seen), LookedAll(_, _)) => ProbeShows(s, wk, seen);
    case (Capture(seen), Missed) => ProbeShows(s, wk, seen);
    case (Recheck(seen), HaveParse(meta, _, _, _)) =>
      ProbeJustifies(s, wk, seen);
      ElsewhereOrThere(s, wk, meta);
    case (Compare, Returned(loaded)) =>
      assert Vouched(s, s.indexed[wk.path], Full);
      ElsewhereOrThere(s, wk, loaded.fingerprint.metadata);
    case _ =>
  }

  lemma SameInstants(s: State, wk: Worker, next: Worker)
    requires next.path == wk.path && next.started == wk.started
    ensures forall meta :: WasAt(s, next, meta) <==> WasAt(s, wk, meta)
    ensures wk.path in s.indexed ==> (WasAway(s, next) <==> WasAway(s, wk))
  {
  }

  lemma ElsewhereOrThere(s: State, wk: Worker, meta: Option<Version>)
    requires wk.path in s.indexed
    ensures WasAt(s, wk, meta) ==> meta == s.indexed[wk.path].fingerprint.metadata || WasAway(s, wk)
  {
  }

  lemma ProbeJustifies(s: State, wk: Worker, seen: Option<Version>)
    requires SourcesInv(s) && wk.started < |s.past| && wk.path in s.indexed
    ensures Probe(s, wk.path, seen, true) ==>
              seen.Some? && (seen == s.indexed[wk.path].fingerprint.metadata || WasAway(s, wk))
  {
    hide SourcesInv, WasAt, WasAway;
    if Probe(s, wk.path, seen, true) {
      ProbeShows(s, wk, seen);
      ElsewhereOrThere(s, wk, seen);
    }
  }

  lemma DoJustified(s: State, a: Action)
    requires Inv(s) && AllJustified(s) && Do(s, a, true).Some?
    ensures AllJustified(Do(s, a, true).value)
  {
    hide Advance, Written, Justified, SourcesInv, CacheInv, PhaseInv, IndexedInv, Later;
    var s' := Do(s, a, true).value;
    DoIsLater(s, a, true);
    forall w | w in s'.workers ensures Justified(s', s'.workers[w]) {
      match a
      case Begin(newcomer, _, _, _) =>
        if w == newcomer {
          BegunIsJustified(s', s'.workers[w]);
        } else {
          JustifiedStays(s, s', s.workers[w]);
        }
      case Work(mine, step) =>
        if w == mine {
          if s.workers[w].goal == Validate {
            AdvanceJustifies(s, s.workers[w], step);
          } else {
            LoadsNeedNone(s, s'.workers[w]);
          }
          JustifiedStays(s, s', s'.workers[w]);
        } else {
          JustifiedStays(s, s', s.workers[w]);
        }
      case _ => JustifiedStays(s, s', s.workers[w]);
    }
  }

  lemma BegunIsJustified(s: State, wk: Worker)
    requires wk.phase == if wk.goal == Validate then Begun else Start
    requires wk.goal == Validate ==> wk.path in s.indexed
    ensures Justified(s, wk)
  {
  }

  lemma LoadsNeedNone(s: State, wk: Worker)
    requires wk.goal != Validate
    ensures Justified(s, wk)
  {
  }

  lemma {:induction false} AfterJustified(s: State, schedule: seq<Action>)
    requires Inv(s) && AllJustified(s) && After(s, schedule, true).Some?
    ensures AllJustified(After(s, schedule, true).value)
    decreases |schedule|
  {
    if schedule != [] {
      hide Inv, Do, AllJustified;
      DoInv(s, schedule[0], true);
      DoJustified(s, schedule[0]);
      AfterJustified(Do(s, schedule[0], true).value, schedule[1..]);
    }
  }

  // When every key probe succeeds, a validation reports a change only if at some
  // instant of it the source was not at the key recorded for the indexed load.
  lemma ReportedChangesHappened(s: State, w: nat)
    requires Reachable(s, true) && w in s.workers
    requires s.workers[w].goal == Validate && s.workers[w].phase.ReportedChanged?
    ensures s.workers[w].path in s.indexed && WasAway(s, s.workers[w])
  {
    hide Inv, Do;
    var s0, schedule :| Init(s0) && After(s0, schedule, true) == Some(s);
    NothingToKeep(s0);
    AfterJustified(s0, schedule);
    assert Justified(s, s.workers[w]);
  }

  lemma NothingToKeep(s: State)
    requires Init(s)
    ensures Inv(s) && AllJustified(s)
  {
  }

  // ---- Runs that exist -------------------------------------------------------------------

  ghost predicate Leads(s: State, schedule: seq<Action>, t: State, reliable: bool) {
    After(s, schedule, reliable) == Some(t)
  }

  lemma NothingHappened(s: State, reliable: bool)
    ensures Leads(s, [], s, reliable)
  {
  }

  lemma {:induction false} LeadsOn(s: State, schedule: seq<Action>, t: State, a: Action, reliable: bool)
    requires Leads(s, schedule, t, reliable) && Do(t, a, reliable).Some?
    ensures Leads(s, schedule + [a], Do(t, a, reliable).value, reliable)
    decreases |schedule|
  {
    hide Do;
    var all := schedule + [a];
    if schedule == [] {
      var next := Do(t, a, reliable).value;
      assert all[1..] == [] && After(next, [], reliable) == Some(next);
    } else {
      assert all[1..] == schedule[1..] + [a];
      LeadsOn(Do(s, schedule[0], reliable).value, schedule[1..], t, a, reliable);
    }
  }

  lemma {:induction false} LeadsFurther(s: State, schedule: seq<Action>, t: State, more: seq<Action>, u: State,
                                        reliable: bool)
    requires Leads(s, schedule, t, reliable) && Leads(t, more, u, reliable)
    ensures Leads(s, schedule + more, u, reliable)
    decreases |more|
  {
    hide Do;
    if more == [] {
      assert schedule + more == schedule;
    } else {
      var next := Do(t, more[0], reliable).value;
      LeadsOn(s, schedule, t, more[0], reliable);
      LeadsFurther(s, schedule + [more[0]], next, more[1..], u, reliable);
      assert schedule + [more[0]] + more[1..] == schedule + more;
    }
  }

  // What is indexed stays indexed.
  lemma {:induction false} IndexKept(s: State, schedule: seq<Action>, t: State, path: Path)
    requires SourcesInv(s) && Leads(s, schedule, t, false) && path in s.indexed
    ensures path in t.indexed && t.indexed[path] == s.indexed[path]
    decreases |schedule|
  {
    if schedule != [] {
      hide Do, SourcesInv;
      var next := Do(s, schedule[0], false).value;
      DoIsLater(s, schedule[0], false);
      IndexKept(next, schedule[1..], t, path);
    }
  }

  // `base` with worker `w` in another phase, n quiet steps later.
  function Quiet(base: State, w: nat, phase: Phase, n: nat): State
    requires w in base.workers
  {
    base.(workers := base.workers[w := base.workers[w].(phase := phase)], past := base.past + seq(n, _ => base.sources))
  }

  lemma QuietStart(base: State, w: nat)
    requires w in base.workers
    ensures Quiet(base, w, base.workers[w].phase, 0) == base
  {
    assert base.workers[w := base.workers[w]] == base.workers;
  }

  predicate Writes(step: Step) { step == WriteAst(true) || step.WriteErrors? }

  lemma QuietStep(base: State, w: nat, n: nat, step: Step, was: Phase, next: Phase, reliable: bool)
    requires w in base.workers && !Writes(step)
    requires Advance(base, base.workers[w].(phase := was), step, reliable) == Some(next)
    ensures Do(Quiet(base, w, was, n), Work(w, step), reliable) == Some(Quiet(base, w, next, n + 1))
  {
    hide Advance;
    var s := Quiet(base, w, was, n);
    TimeIsUnseen(base, s, s.workers[w], step, reliable);
    assert s.workers[w] == base.workers[w].(phase := was);
    assert s.workers[w := s.workers[w].(phase := next)] == base.workers[w := base.workers[w].(phase := next)];
    assert s.past + [base.sources] == base.past + seq(n + 1, _ => base.sources);
  }

  lemma TimeIsUnseen(s: State, s': State, wk: Worker, step: Step, reliable: bool)
    requires s' == s.(past := s'.past, workers := s'.workers)
    ensures Advance(s', wk, step, reliable) == Advance(s, wk, step, reliable)
  {
  }

  // With nothing else going on, worker `w` takes these steps through these phases.
  ghost predicate Plays(base: State, w: nat, steps: seq<Step>, phases: seq<Phase>, reliable: bool) {
    && w in base.workers && |phases| == |steps| + 1 && phases[0] == base.workers[w].phase
    && forall n :: 0 <= n < |steps| ==> PlaysStep(base, w, steps[n], phases[n], phases[n + 1], reliable)
  }

  function Works(w: nat, steps: seq<Step>): seq<Action> {
    seq(|steps|, i requires 0 <= i < |steps| => Work(w, steps[i]))
  }

  lemma {:induction false} PlaysOut(s: State, schedule: seq<Action>, base: State, w: nat, steps: seq<Step>,
                                    phases: seq<Phase>, n: nat, reliable: bool)
    requires Leads(s, schedule, base, reliable) && Plays(base, w, steps, phases, reliable) && n <= |steps|
    ensures Leads(s, schedule + Works(w, steps[..n]), Quiet(base, w, phases[n], n), reliable)
  {
    hide Leads, Do, Advance;
    if n == 0 {
      QuietStart(base, w);
      assert schedule + Works(w, steps[..0]) == schedule;
    } else {
      PlaysOut(s, schedule, base, w, steps, phases, n - 1, reliable);
      QuietStep(base, w, n - 1, steps[n - 1], phases[n - 1], phases[n], reliable);
      LeadsOn(s, schedule + Works(w, steps[..n - 1]), Quiet(base, w, phases[n - 1], n - 1), Work(w, steps[n - 1]),
              reliable);
      assert schedule + Works(w, steps[..n - 1]) + [Work(w, steps[n - 1])] == schedule + Works(w, steps[..n]);
    }
  }

  // The whole play: the worker ends in the last phase and nothing else has moved.
  lemma PlaysToEnd(s: State, schedule: seq<Action>, base: State, w: nat, steps: seq<Step>, phases: seq<Phase>,
                   reliable: bool)
    requires Leads(s, schedule, base, reliable) && Plays(base, w, steps, phases, reliable)
    ensures Leads(s, schedule + Works(w, steps), Quiet(base, w, phases[|steps|], |steps|), reliable)
  {
    hide Leads, Plays;
    assert steps[..|steps|] == steps;
    PlaysShape(base, w, steps, phases, reliable);
    PlaysOut(s, schedule, base, w, steps, phases, |steps|, reliable);
  }

  lemma PlaysShape(base: State, w: nat, steps: seq<Step>, phases: seq<Phase>, reliable: bool)
    requires Plays(base, w, steps, phases, reliable)
    ensures w in base.workers && |phases| == |steps| + 1
  {
  }

  // No file is edited or deleted and no entry pruned.
  predicate Unedited(schedule: seq<Action>) {
    forall i :: 0 <= i < |schedule| ==> schedule[i].Begin? || schedule[i].Work?
  }

  // ---- Loads played out --------------------------------------------------------------------

  // A load that reads: past a cache that has nothing, the source at `v`, the last
  // probe seeing `seen`; what is parsed is not written.
  function ColdLoad(cacheOn: bool, v: Version, text: string, seen: Option<Version>): seq<Step> {
    (if !cacheOn then [SkipLookup] else if seen.Some? then [Lookup(seen), ReadAst(false)] else [Lookup(None)])
    + [Capture(Some(v)), BeginRead, EndRead(text), ParseText, Recheck(seen)]
    + (if !cacheOn then [SkipStore] else if seen.Some? then [StoreByPath(seen), WriteAst(false)]
       else [StoreByContent, WriteAst(false)])
  }

  function ColdPhases(cacheOn: bool, v: Version, text: string, seen: Option<Version>): seq<Phase> {
    var loaded := Loaded(Parse(text), Fingerprint(seen, None));
    [Start] + (if cacheOn && seen.Some? then [Looking(seen.value)] else [])
    + [Missed, Captured(Some(v)), Reading(Some(v), Some(v)), HaveText(Some(v), text),
       HaveParse(Some(v), text, Parse(text), false), Rechecked(seen, false, text, Parse(text), false)]
    + (if cacheOn then [Storing(if seen.Some? then PathKey(seen.value) else ContentKey(text), loaded)] else [])
    + [Returned(loaded)]
  }

  // The source is at `v`, whose text is known, and worker `w` enters the load.
  predicate Enters(base: State, w: nat, v: Version, text: string) {
    && w in base.workers && base.workers[w].phase == Start
    && SourceOf(base, base.workers[w].path) == Some(v) && TextIs(base, v, text)
  }

  lemma ColdLoadPlays(base: State, w: nat, v: Version, text: string, seen: Option<Version>)
    requires Enters(base, w, v, text) && (seen.Some? ==> seen.value == v)
    ensures Plays(base, w, ColdLoad(base.cacheOn, v, text, seen), ColdPhases(base.cacheOn, v, text, seen), seen.Some?)
  {
    hide Advance;
    var steps, phases := ColdLoad(base.cacheOn, v, text, seen), ColdPhases(base.cacheOn, v, text, seen);
    forall n | 0 <= n < |steps| ensures PlaysStep(base, w, steps[n], phases[n], phases[n + 1], seen.Some?) {
      ColdStep(base, w, v, text, seen, n);
    }
  }

  ghost predicate PlaysStep(base: State, w: nat, step: Step, was: Phase, next: Phase, reliable: bool)
    requires w in base.workers
  {
    !Writes(step) && Advance(base, base.workers[w].(phase := was), step, reliable) == Some(next)
  }

  // The read: the source's key is captured, or cannot be, and its text read whole.
  lemma ReadSteps(base: State, w: nat, v: Version, text: string, meta: Option<Version>, reliable: bool)
    requires Enters(base, w, v, text) && (if meta.Some? then meta.value == v else !reliable)
    ensures PlaysStep(base, w, Capture(meta), Missed, Captured(meta), reliable)
    ensures PlaysStep(base, w, BeginRead, Captured(meta), Reading(meta, Some(v)), reliable)
    ensures PlaysStep(base, w, EndRead(text), Reading(meta, Some(v)), HaveText(meta, text), reliable)
  {
    hide PlaysStep;
    CaptureStep(base, w, v, text, meta, reliable);
    WholeRead(base, w, v, text, meta, reliable);
  }

  lemma CaptureStep(base: State, w: nat, v: Version, text: string, meta: Option<Version>, reliable: bool)
    requires Enters(base, w, v, text) && (if meta.Some? then meta.value == v else !reliable)
    ensures PlaysStep(base, w, Capture(meta), Missed, Captured(meta), reliable)
  {
  }

  lemma WholeRead(base: State, w: nat, v: Version, text: string, meta: Option<Version>, reliable: bool)
    requires Enters(base, w, v, text)
    ensures PlaysStep(base, w, BeginRead, Captured(meta), Reading(meta, Some(v)), reliable)
    ensures PlaysStep(base, w, EndRead(text), Reading(meta, Some(v)), HaveText(meta, text), reliable)
  {
  }

  // The way in: past the cache, or to an entry that is not there.
  lemma MissSteps(base: State, w: nat, v: Version, text: string, reliable: bool)
    requires Enters(base, w, v, text)
    ensures !base.cacheOn ==> PlaysStep(base, w, SkipLookup, Start, Missed, reliable)
    ensures base.cacheOn ==> PlaysStep(base, w, Lookup(Some(v)), Start, Looking(v), reliable)
    ensures base.cacheOn ==> PlaysStep(base, w, ReadAst(false), Looking(v), Missed, reliable)
    ensures base.cacheOn && !reliable ==> PlaysStep(base, w, Lookup(None), Start, Missed, reliable)
  {
  }

  lemma ParseSteps(base: State, w: nat, v: Version, text: string, seen: Option<Version>, reliable: bool)
    requires Enters(base, w, v, text) && (if seen.Some? then seen.value == v else !reliable)
    ensures var parsed := Parse(text);
            PlaysStep(base, w, ParseText, HaveText(Some(v), text), HaveParse(Some(v), text, parsed, false), reliable)
            && PlaysStep(base, w, Recheck(seen), HaveParse(Some(v), text, parsed, false),
                         Rechecked(seen, false, text, parsed, false), reliable)
  {
  }

  lemma TextMissSteps(base: State, w: nat, v: Version, text: string)
    requires Enters(base, w, v, text)
    ensures base.cacheOn ==> PlaysStep(base, w, ContentAst(false), HaveText(None, text), Unparsed(None, text), false)
    ensures PlaysStep(base, w, ParseText, if base.cacheOn then Unparsed(None, text) else HaveText(None, text),
                      HaveParse(None, text, Parse(text), false), false)
  {
  }

  lemma TextRechecked(base: State, w: nat, v: Version, text: string, parsed: Parsed, hit: bool)
    requires Enters(base, w, v, text)
    ensures PlaysStep(base, w, Recheck(None), HaveParse(None, text, parsed, hit),
                      Rechecked(None, true, text, parsed, hit), false)
  {
  }

  lemma Unstored(base: State, w: nat, meta: Option<Version>, byContent: bool, text: string, parsed: Parsed, hit: bool,
                 reliable: bool)
    requires w in base.workers && (!base.cacheOn || hit)
    ensures PlaysStep(base, w, SkipStore, Rechecked(meta, byContent, text, parsed, hit),
                      Returned(Finish(meta, byContent, text, parsed)), reliable)
  {
  }

  lemma Stored(base: State, w: nat, v: Version, meta: Option<Version>, byContent: bool, text: string, parsed: Parsed,
               reliable: bool)
    requires base.cacheOn && Enters(base, w, v, text) && (meta.Some? ==> meta.value == v)
    ensures PlaysStep(base, w, if meta.Some? then StoreByPath(meta) else StoreByContent,
                      Rechecked(meta, byContent, text, parsed, false),
                      Storing(if meta.Some? then PathKey(v) else ContentKey(text),
                              Finish(meta, byContent, text, parsed)),
                      reliable)
  {
  }

  lemma Unwritten(base: State, w: nat, entry: CacheKey, loaded: Loaded, reliable: bool)
    requires w in base.workers
    ensures PlaysStep(base, w, WriteAst(false), Storing(entry, loaded), Returned(loaded), reliable)
  {
  }

  lemma StoreSteps(base: State, w: nat, v: Version, text: string, meta: Option<Version>, byContent: bool,
                   parsed: Parsed, hit: bool, reliable: bool)
    requires Enters(base, w, v, text) && (meta.Some? ==> meta.value == v)
    ensures var done, loaded := Rechecked(meta, byContent, text, parsed, hit), Finish(meta, byContent, text, parsed);
            var entry := if meta.Some? then PathKey(v) else ContentKey(text);
            var store := if meta.Some? then StoreByPath(meta) else StoreByContent;
            (!base.cacheOn || hit ==> PlaysStep(base, w, SkipStore, done, Returned(loaded), reliable))
            && (base.cacheOn && !hit ==>
                  PlaysStep(base, w, store, done, Storing(entry, loaded), reliable)
                  && PlaysStep(base, w, WriteAst(false), Storing(entry, loaded), Returned(loaded), reliable))
  {
    hide PlaysStep, Finish;
    if !base.cacheOn || hit {
      Unstored(base, w, meta, byContent, text, parsed, hit, reliable);
    } else {
      Stored(base, w, v, meta, byContent, text, parsed, reliable);
      Unwritten(base, w, if meta.Some? then PathKey(v) else ContentKey(text), Finish(meta, byContent, text, parsed),
                reliable);
    }
  }

  lemma ColdStep(base: State, w: nat, v: Version, text: string, seen: Option<Version>, n: nat)
    requires Enters(base, w, v, text) && (seen.Some? ==> seen.value == v)
    requires n < |ColdLoad(base.cacheOn, v, text, seen)|
    ensures var steps, phases := ColdLoad(base.cacheOn, v, text, seen), ColdPhases(base.cacheOn, v, text, seen);
            |phases| == |steps| + 1 && PlaysStep(base, w, steps[n], phases[n], phases[n + 1], seen.Some?)
  {
    hide PlaysStep, Enters, Parse;
    MissSteps(base, w, v, text, seen.Some?);
    ReadSteps(base, w, v, text, Some(v), seen.Some?);
    ParseSteps(base, w, v, text, seen, seen.Some?);
    StoreSteps(base, w, v, text, seen, false, Parse(text), false, seen.Some?);
    if !base.cacheOn {
    } else if seen.Some? {
    } else {
    }
  }

  // A load whose source cannot be keyed: its text is the key.
  function TextLoad(cacheOn: bool, text: string): seq<Step> {
    [if cacheOn then Lookup(None) else SkipLookup, Capture(None), BeginRead, EndRead(text)]
    + (if cacheOn then [ContentAst(false)] else []) + [ParseText, Recheck(None)]
    + if cacheOn then [StoreByContent, WriteAst(false)] else [SkipStore]
  }

  function TextPhases(cacheOn: bool, v: Version, text: string): seq<Phase> {
    var loaded := Loaded(Parse(text), Fingerprint(None, Some(text)));
    [Start, Missed, Captured(None), Reading(None, Some(v)), HaveText(None, text)]
    + (if cacheOn then [Unparsed(None, text)] else [])
    + [HaveParse(None, text, Parse(text), false), Rechecked(None, true, text, Parse(text), false)]
    + (if cacheOn then [Storing(ContentKey(text), loaded)] else []) + [Returned(loaded)]
  }

  lemma TextLoadPlays(base: State, w: nat, v: Version, text: string)
    requires Enters(base, w, v, text)
    ensures Plays(base, w, TextLoad(base.cacheOn, text), TextPhases(base.cacheOn, v, text), false)
  {
    hide Advance;
    var steps, phases := TextLoad(base.cacheOn, text), TextPhases(base.cacheOn, v, text);
    forall n | 0 <= n < |steps| ensures PlaysStep(base, w, steps[n], phases[n], phases[n + 1], false) {
      TextStep(base, w, v, text, n);
    }
  }

  lemma TextStep(base: State, w: nat, v: Version, text: string, n: nat)
    requires Enters(base, w, v, text) && n < |TextLoad(base.cacheOn, text)|
    ensures var steps, phases := TextLoad(base.cacheOn, text), TextPhases(base.cacheOn, v, text);
            |phases| == |steps| + 1 && PlaysStep(base, w, steps[n], phases[n], phases[n + 1], false)
  {
    hide PlaysStep, Enters, Parse;
    MissSteps(base, w, v, text, false);
    ReadSteps(base, w, v, text, None, false);
    TextMissSteps(base, w, v, text);
    TextRechecked(base, w, v, text, Parse(text), false);
    StoreSteps(base, w, v, text, None, true, Parse(text), false, false);
    if base.cacheOn {
    } else {
    }
  }

  // A load that finds its entry under the source's key and reads no source.
  function KeyHit(v: Version): seq<Step> {
    [Lookup(Some(v)), ReadAst(true), ReadErrors(true), Confirm(Some(v))]
  }

  function KeyHitPhases(v: Version, parsed: Parsed): seq<Phase> {
    [Start, Looking(v), LookedAst(v, parsed.ast), LookedAll(v, parsed),
     Returned(Loaded(parsed, Fingerprint(Some(v), None)))]
  }

  // What the cache holds under an entry, for this use.
  predicate Holds(s: State, entry: CacheKey, use: Use, parsed: Parsed) {
    && entry in s.asts && s.asts[entry] == parsed.ast
    && if use == Index then parsed.errors == NotLoaded else entry in s.errors && s.errors[entry] == parsed.errors
  }

  lemma KeyHitPlays(base: State, w: nat, v: Version, text: string, parsed: Parsed)
    requires base.cacheOn && Enters(base, w, v, text) && Holds(base, PathKey(v), base.workers[w].use, parsed)
    ensures Plays(base, w, KeyHit(v), KeyHitPhases(v, parsed), true)
  {
  }

  // A load that finds its entry under the text it read.
  function TextHit(text: string): seq<Step> {
    [Lookup(None), Capture(None), BeginRead, EndRead(text), ContentAst(true), ContentErrors(true), Recheck(None),
     SkipStore]
  }

  function TextHitPhases(v: Version, text: string, parsed: Parsed): seq<Phase> {
    [Start, Missed, Captured(None), Reading(None, Some(v)), HaveText(None, text), ContentFound(text, parsed.ast),
     HaveParse(None, text, parsed, true), Rechecked(None, true, text, parsed, true),
     Returned(Loaded(parsed, Fingerprint(None, Some(text))))]
  }

  lemma TextHitPlays(base: State, w: nat, v: Version, text: string, parsed: Parsed)
    requires base.cacheOn && Enters(base, w, v, text) && Holds(base, ContentKey(text), base.workers[w].use, parsed)
    ensures Plays(base, w, TextHit(text), TextHitPhases(v, text, parsed), false)
  {
    hide PlaysStep, Holds, Parse;
    MissSteps(base, w, v, text, false);
    ReadSteps(base, w, v, text, None, false);
    TextHitSteps(base, w, text, parsed);
    TextRechecked(base, w, v, text, parsed, true);
    StoreSteps(base, w, v, text, None, true, parsed, true, false);
  }

  lemma TextHitSteps(base: State, w: nat, text: string, parsed: Parsed)
    requires base.cacheOn && w in base.workers && Holds(base, ContentKey(text), base.workers[w].use, parsed)
    ensures PlaysStep(base, w, ContentAst(true), HaveText(None, text), ContentFound(text, parsed.ast), false)
    ensures PlaysStep(base, w, ContentErrors(true), ContentFound(text, parsed.ast),
                      HaveParse(None, text, parsed, true), false)
  {
  }

  // An entry that is there is used: under the source's key without a read, under
  // the text where there is no key.
  lemma EntriesAreUsed(base: State, w: nat, v: Version, text: string, parsed: Parsed)
    requires base.cacheOn && Enters(base, w, v, text)
    ensures Holds(base, PathKey(v), base.workers[w].use, parsed) ==>
              exists n :: Leads(base, Works(w, KeyHit(v)),
                                Quiet(base, w, Returned(Loaded(parsed, Fingerprint(Some(v), None))), n), true)
    ensures Holds(base, ContentKey(text), base.workers[w].use, parsed) ==>
              exists n :: Leads(base, Works(w, TextHit(text)),
                                Quiet(base, w, Returned(Loaded(parsed, Fingerprint(None, Some(text)))), n), false)
  {
    hide Leads, Plays;
    if Holds(base, PathKey(v), base.workers[w].use, parsed) {
      KeyHitPlays(base, w, v, text, parsed);
      NothingHappened(base, true);
      PlaysToEnd(base, [], base, w, KeyHit(v), KeyHitPhases(v, parsed), true);
      assert [] + Works(w, KeyHit(v)) == Works(w, KeyHit(v));
    }
    if Holds(base, ContentKey(text), base.workers[w].use, parsed) {
      TextHitPlays(base, w, v, text, parsed);
      NothingHappened(base, false);
      PlaysToEnd(base, [], base, w, TextHit(text), TextHitPhases(v, text, parsed), false);
      assert [] + Works(w, TextHit(text)) == Works(w, TextHit(text));
    }
  }

  lemma WritesAst(s: State, w: nat, entry: CacheKey, loaded: Loaded, reliable: bool)
    requires w in s.workers && s.workers[w].phase == Storing(entry, loaded)
    ensures var t := Do(s, Work(w, WriteAst(true)), reliable);
            t.Some? && entry in t.value.asts && t.value.asts[entry] == loaded.parsed.ast && w in t.value.workers
            && t.value.workers[w].phase == StoringErrors(entry, loaded)
  {
  }

  lemma WritesErrors(s: State, w: nat, entry: CacheKey, loaded: Loaded, reliable: bool)
    requires w in s.workers && s.workers[w].phase == StoringErrors(entry, loaded)
    requires entry in s.asts && s.asts[entry] == loaded.parsed.ast
    ensures var t := Do(s, Work(w, WriteErrors(true)), reliable);
            t.Some? && Holds(t.value, entry, Full, loaded.parsed) && w in t.value.workers
            && t.value.workers[w].phase == Returned(loaded)
  {
  }

  // A load that missed can leave its entry behind, under the source's key or,
  // where there is none, under the text.
  lemma LoadsAreStored(base: State, w: nat, v: Version, text: string, keyed: bool)
    requires base.cacheOn && Enters(base, w, v, text)
    ensures exists schedule, t ::
      Leads(base, schedule, t, keyed) && Unedited(schedule)
      && Holds(t, if keyed then PathKey(v) else ContentKey(text), Full, Parse(text)) && w in t.workers
      && t.workers[w].phase
      == Returned(Loaded(Parse(text), if keyed then Fingerprint(Some(v), None) else Fingerprint(None, Some(text))))
  {
    hide Leads, Plays, Do, Parse;
    NothingHappened(base, keyed);
    var steps, phases :=
      if keyed then ColdLoad(true, v, text, Some(v)) else TextLoad(true, text),
      if keyed then ColdPhases(true, v, text, Some(v)) else TextPhases(true, v, text);
    if keyed {
      ColdLoadPlays(base, w, v, text, Some(v));
    } else {
      TextLoadPlays(base, w, v, text);
    }
    var n := |steps| - 1;
    PlaysOut(base, [], base, w, steps, phases, n, keyed);
    var loaded := phases[n].loaded;
    var entry := if keyed then PathKey(v) else ContentKey(text);
    var waiting, begun := Quiet(base, w, phases[n], n), [] + Works(w, steps[..n]);
    WritesAst(waiting, w, entry, loaded, keyed);
    LeadsOn(base, begun, waiting, Work(w, WriteAst(true)), keyed);
    var half := Do(waiting, Work(w, WriteAst(true)), keyed).value;
    WritesErrors(half, w, entry, loaded, keyed);
    LeadsOn(base, begun + [Work(w, WriteAst(true))], half, Work(w, WriteErrors(true)), keyed);
    assert Unedited(begun + [Work(w, WriteAst(true))] + [Work(w, WriteErrors(true))]);
  }

  // ---- Validations played out ----------------------------------------------------------------

  lemma {:induction false} FreshWorker(ids: set<nat>) returns (w: nat)
    ensures forall x :: x in ids ==> x < w
  {
    if ids == {} {
      w := 0;
    } else {
      var x :| x in ids;
      var n := FreshWorker(ids - {x});
      w := if n <= x then x + 1 else n;
      assert forall y :: y in ids ==> y in ids - {x} || y == x;
    }
  }

  predicate HasValidated(t: State, w: nat, path: Path) {
    w in t.workers && t.workers[w].path == path && t.workers[w].goal == Validate && t.workers[w].phase.Validated?
  }

  // Worker `w`, validating `path`, has passed the first check and is about to
  // load `text`.
  predicate AboutToLoad(s: State, w: nat, path: Path, v: Version, text: string) {
    && w in s.workers && s.workers[w].path == path && s.workers[w].goal == Validate
    && Enters(s, w, v, text)
  }

  // The first check of a validation finds the key that was recorded, or none where
  // none was.
  lemma ChecksAlike(s: State, schedule: seq<Action>, base: State, w: nat, path: Path, v: Version, text: string,
                    reliable: bool)
    requires Leads(s, schedule, base, reliable) && w !in base.workers && path in base.indexed
    requires base.indexed[path].fingerprint.metadata == if reliable then Some(v) else None
    requires SourceOf(base, path) == Some(v) && TextIs(base, v, text)
    ensures var more := [Begin(w, path, Full, Validate), Work(w, Check(base.indexed[path].fingerprint.metadata))];
            exists t :: Leads(s, schedule + more, t, reliable) && AboutToLoad(t, w, path, v, text)
                        && t.indexed == base.indexed
  {
    hide Leads;
    var seen := base.indexed[path].fingerprint.metadata;
    LeadsOn(s, schedule, base, Begin(w, path, Full, Validate), reliable);
    var begun := Do(base, Begin(w, path, Full, Validate), reliable).value;
    LeadsOn(s, schedule + [Begin(w, path, Full, Validate)], begun, Work(w, Check(seen)), reliable);
    assert AboutToLoad(Do(begun, Work(w, Check(seen)), reliable).value, w, path, v, text);
    assert schedule + [Begin(w, path, Full, Validate)] + [Work(w, Check(seen))]
        == schedule + [Begin(w, path, Full, Validate), Work(w, Check(seen))];
  }

  lemma ComparesAlike(base: State, w: nat, path: Path, loaded: Loaded, n: nat, reliable: bool)
    requires w in base.workers && base.workers[w].path == path && base.workers[w].goal == Validate
    requires path in base.indexed && base.indexed[path].fingerprint == loaded.fingerprint
    ensures var t := Do(Quiet(base, w, Returned(loaded), n), Work(w, Compare), reliable);
            t.Some? && HasValidated(t.value, w, path) && t.value.workers[w].phase.parsed == loaded.parsed
  {
  }

  // From the first check on: a load played to its end, and the comparison.
  lemma PlaysValidation(s: State, schedule: seq<Action>, base: State, w: nat, path: Path, steps: seq<Step>,
                        phases: seq<Phase>, loaded: Loaded, reliable: bool)
    requires Leads(s, schedule, base, reliable) && Plays(base, w, steps, phases, reliable)
    requires |phases| > 0 && phases[|phases| - 1] == Returned(loaded)
    requires w in base.workers && base.workers[w].path == path && base.workers[w].goal == Validate
    requires path in base.indexed && base.indexed[path].fingerprint == loaded.fingerprint
    ensures exists t :: Leads(s, schedule + Works(w, steps) + [Work(w, Compare)], t, reliable)
                        && HasValidated(t, w, path) && t.workers[w].phase.parsed == loaded.parsed
  {
    hide Leads, Plays, Do, Quiet, HasValidated;
    PlaysShape(base, w, steps, phases, reliable);
    PlaysToEnd(s, schedule, base, w, steps, phases, reliable);
    ComparesAlike(base, w, path, loaded, |steps|, reliable);
    LeadsOn(s, schedule + Works(w, steps), Quiet(base, w, Returned(loaded), |steps|), Work(w, Compare), reliable);
  }

  // A file that is as it was indexed can validate, whether it was keyed by its
  // source, with every probe succeeding, or by its text: no edit is needed, and
  // what is checked is what was indexed.
  lemma UneditedFilesValidate(s: State, reliable: bool, path: Path, v: Version, text: string, keyed: bool)
    requires Reachable(s, reliable) && path in s.indexed && SourceOf(s, path) == Some(v) && TextIs(s, v, text)
    requires s.indexed[path].fingerprint == if keyed then Fingerprint(Some(v), None) else Fingerprint(None, Some(text))
    ensures exists schedule, t, w ::
      Leads(s, schedule, t, keyed) && Unedited(schedule) && HasValidated(t, w, path)
      && t.workers[w].phase.parsed == s.indexed[path].parsed
  {
    hide Leads, Plays, CacheInv, WorkersInv, SourcesInv, HasValidated, ColdLoad, ColdPhases, TextLoad, TextPhases;
    ReachableInv(s, reliable);
    IndexedIsParse(s, path, v, text, keyed);
    var w := FreshWorker(s.workers.Keys);
    NothingHappened(s, keyed);
    ChecksAlike(s, [], s, w, path, v, text, keyed);
    var checked := [] + [Begin(w, path, Full, Validate), Work(w, Check(s.indexed[path].fingerprint.metadata))];
    var t :| Leads(s, checked, t, keyed) && AboutToLoad(t, w, path, v, text) && t.indexed == s.indexed;
    var steps, phases, loaded := ReadsThrough(t, w, v, text, keyed);
    PlaysValidation(s, checked, t, w, path, steps, phases, loaded, keyed);
    assert Unedited(checked + Works(w, steps) + [Work(w, Compare)]);
  }

  lemma IndexedIsParse(s: State, path: Path, v: Version, text: string, keyed: bool)
    requires IndexedInv(s) && path in s.indexed && TextIs(s, v, text)
    requires s.indexed[path].fingerprint == if keyed then Fingerprint(Some(v), None) else Fingerprint(None, Some(text))
    ensures s.indexed[path].parsed == Parse(text)
  {
    assert Vouched(s, s.indexed[path], Full);
  }

  lemma ReadsThrough(base: State, w: nat, v: Version, text: string, keyed: bool)
    returns (steps: seq<Step>, phases: seq<Phase>, loaded: Loaded)
    requires Enters(base, w, v, text)
    ensures Plays(base, w, steps, phases, keyed) && |phases| > 0 && phases[|phases| - 1] == Returned(loaded)
    ensures loaded == Loaded(Parse(text), if keyed then Fingerprint(Some(v), None) else Fingerprint(None, Some(text)))
  {
    hide Plays;
    loaded := Loaded(Parse(text), if keyed then Fingerprint(Some(v), None) else Fingerprint(None, Some(text)));
    if keyed {
      steps, phases := ColdLoad(base.cacheOn, v, text, Some(v)), ColdPhases(base.cacheOn, v, text, Some(v));
      ColdLoadPlays(base, w, v, text, Some(v));
    } else {
      steps, phases := TextLoad(base.cacheOn, text), TextPhases(base.cacheOn, v, text);
      TextLoadPlays(base, w, v, text);
    }
  }

  // ---- Files indexed without a key ------------------------------------------------------------

  // A file indexed without a key can validate as any text at all: it is edited,
  // the first check finds no key, and the load's last probe fails.
  lemma UnkeyedValidatesAsAnything(s: State, path: Path, text: string)
    requires path in s.indexed && s.indexed[path].fingerprint == Fingerprint(None, None)
    ensures exists schedule, t, w ::
      Leads(s, schedule, t, false) && HasValidated(t, w, path) && t.workers[w].phase.parsed == Parse(text)
  {
    hide Leads, Plays, HasValidated, Advance, ColdLoad, ColdPhases;
    var w := FreshWorker(s.workers.Keys);
    NothingHappened(s, false);
    LeadsOn(s, [], s, Edit(path, text), false);
    var edited, schedule := Do(s, Edit(path, text), false).value, [] + [Edit(path, text)];
    ChecksAlike(s, schedule, edited, w, path, s.clock, text, false);
    var checked := schedule + [Begin(w, path, Full, Validate), Work(w, Check(None))];
    var t :| Leads(s, checked, t, false) && AboutToLoad(t, w, path, s.clock, text) && t.indexed == s.indexed;
    ColdLoadPlays(t, w, s.clock, text, None);
    ColdLoadEnds(t.cacheOn, s.clock, text, None);
    PlaysValidation(s, checked, t, w, path, ColdLoad(t.cacheOn, s.clock, text, None),
                    ColdPhases(t.cacheOn, s.clock, text, None), Loaded(Parse(text), Fingerprint(None, None)), false);
  }

  lemma ColdLoadEnds(cacheOn: bool, v: Version, text: string, seen: Option<Version>)
    ensures var phases := ColdPhases(cacheOn, v, text, seen);
            |phases| == |ColdLoad(cacheOn, v, text, seen)| + 1
            && phases[|phases| - 1] == Returned(Loaded(Parse(text), Fingerprint(seen, None)))
  {
  }

  // Whatever happens from here on, a validation of `path` that goes through
  // checks what was indexed.
  ghost predicate ValidatesAsIndexed(s: State, path: Path)
    requires path in s.indexed
  {
    forall schedule, t, w ::
      Leads(s, schedule, t, false) && HasValidated(t, w, path) ==> t.workers[w].phase.parsed == s.indexed[path].parsed
  }

  // For each indexed load on its own: its validations are bound to agree with it
  // exactly when it was recorded with a key, be it a source key or a content hash.
  lemma ValidatesAsIndexedIffKeyed(s: State, path: Path)
    requires Reachable(s, false) && path in s.indexed
    ensures ValidatesAsIndexed(s, path) <==> s.indexed[path].fingerprint != Fingerprint(None, None)
  {
    hide Do;
    if s.indexed[path].fingerprint == Fingerprint(None, None) {
      var text := if s.indexed[path].parsed == Parse("a") then "b" else "a";
      UnkeyedValidatesAsAnything(s, path, text);
    } else {
      forall schedule, t, w | Leads(s, schedule, t, false) && HasValidated(t, w, path)
        ensures t.workers[w].phase.parsed == s.indexed[path].parsed
      {
        KeyedValidatesAsIndexed(s, path, schedule, t, w);
      }
    }
  }

  lemma KeyedValidatesAsIndexed(s: State, path: Path, schedule: seq<Action>, t: State, w: nat)
    requires Reachable(s, false) && path in s.indexed && s.indexed[path].fingerprint != Fingerprint(None, None)
    requires Leads(s, schedule, t, false) && HasValidated(t, w, path)
    ensures t.workers[w].phase.parsed == s.indexed[path].parsed
  {
    hide PhaseInv, CacheInv, WorkersInv, Do;
    ReachableInv(s, false);
    IndexKept(s, schedule, t, path);
    AfterInv(s, schedule, false);
    InvValidates(t, w);
  }

  // Every validation agrees with the index, in every run.
  ghost predicate AgreementGuaranteed(reliable: bool) {
    forall s, w :: Reachable(s, reliable) && w in s.workers && s.workers[w].phase.Validated?
      && s.workers[w].goal == Validate && s.workers[w].path in s.indexed
      ==> s.workers[w].phase.parsed == s.indexed[s.workers[w].path].parsed
  }

  const NOTHING_YET: State := State(false, 0, map[], map[], [map[]], map[], map[], map[], map[])

  lemma IndexesUnkeyed()
    ensures exists schedule, s ::
      Leads(NOTHING_YET, schedule, s, false) && s.indexed == map["f" := Loaded(Parse("a"), Fingerprint(None, None))]
  {
    hide Leads, Plays;
    NothingHappened(NOTHING_YET, false);
    LeadsOn(NOTHING_YET, [], NOTHING_YET, Edit("f", "a"), false);
    var s1 := Do(NOTHING_YET, Edit("f", "a"), false).value;
    LeadsOn(NOTHING_YET, [] + [Edit("f", "a")], s1, Begin(0, "f", Full, Load), false);
    var s2 := Do(s1, Begin(0, "f", Full, Load), false).value;
    var begun := [] + [Edit("f", "a")] + [Begin(0, "f", Full, Load)];
    ColdLoadPlays(s2, 0, 0, "a", None);
    PlaysToEnd(NOTHING_YET, begun, s2, 0, ColdLoad(false, 0, "a", None), ColdPhases(false, 0, "a", None), false);
    var n := |ColdLoad(false, 0, "a", None)|;
    LeadsOn(NOTHING_YET, begun + Works(0, ColdLoad(false, 0, "a", None)),
            Quiet(s2, 0, Returned(Loaded(Parse("a"), Fingerprint(None, None))), n), Record(0), false);
  }

  // With key probes that can fail, a file indexed as "a" can validate as "b":
  // both loads come back with the empty fingerprint.
  lemma UnreliableKeysDisagree()
    ensures !AgreementGuaranteed(false)
  {
    hide After, Do;
    IndexesUnkeyed();
    var schedule, s :| Leads(NOTHING_YET, schedule, s, false)
      && s.indexed == map["f" := Loaded(Parse("a"), Fingerprint(None, None))];
    UnkeyedValidatesAsAnything(s, "f", "b");
    var more, t, w :| Leads(s, more, t, false) && HasValidated(t, w, "f") && t.workers[w].phase.parsed == Parse("b");
    assert Reachable(s, false) by {
      assert Init(NOTHING_YET) && After(NOTHING_YET, schedule, false) == Some(s);
    }
    assert Reachable(t, false) by {
      LeadsFurther(NOTHING_YET, schedule, s, more, t, false);
      assert Init(NOTHING_YET) && After(NOTHING_YET, schedule + more, false) == Some(t);
    }
    ReachableInv(s, false);
    IndexKept(s, more, t, "f");
    assert Parse("b") != Parse("a");
  }

  // Over all runs: index and validation agree in each of them exactly when key
  // probes never fail.
  lemma AgreementIffReliable(reliable: bool)
    ensures AgreementGuaranteed(reliable) <==> reliable
  {
    if reliable {
      forall s, w | Reachable(s, true) && w in s.workers && s.workers[w].phase.Validated?
        && s.workers[w].goal == Validate && s.workers[w].path in s.indexed
        ensures s.workers[w].phase.parsed == s.indexed[s.workers[w].path].parsed
      {
        ValidatedVersionIsIndexedVersion(s, w);
      }
    } else {
      UnreliableKeysDisagree();
    }
  }
}

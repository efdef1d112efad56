/** Saving a parsed file's arena to the cache and rebuilding it, convert.rs: the
    strings go out in one traversal and the tokens come back in another. */
module CacheConvert {
  import opened Text
  import opened StringTables

  // ---- The arena and its cached form ---------------------------------------------

  datatype Operator = Equals | GreaterThan | LessThan | GreaterThanOrEqual | LessThanOrEqual
                    | NotEqual | EqualEqual | QuestionEqual

  datatype CachedOperator = CEquals | CGreaterThan | CLessThan | CGreaterThanOrEqual | CLessThanOrEqual
                          | CNotEqual | CEqualEqual | CQuestionEqual

  datatype SourcePos = SourcePos(line: nat, col: nat)

  datatype SourceRange = SourceRange(start: SourcePos, end: SourcePos)

  // Children point into the arena's lists.
  datatype Child = LeafRef(index: nat) | LeafValueRef(index: nat) | CommentRef(index: nat)

  // A float is its bit pattern.
  datatype Value = Str(token: Token) | QStr(token: Token) | Float(bits: int) | Int(number: int) | Bool(truth: bool)
                 | Clause(children: seq<Child>)

  datatype Leaf = Leaf(key: Token, value: Value, op: Operator, pos: SourceRange, valuePos: SourceRange)

  datatype LeafValue = LeafValue(value: Value, pos: SourceRange)

  datatype Comment = Comment(text: string, pos: SourceRange)

  datatype Arena = Arena(leaves: seq<Leaf>, leafValues: seq<LeafValue>, comments: seq<Comment>)

  datatype CachedChild = CLeaf(index: nat) | CLeafValue(index: nat) | CComment(index: nat)

  datatype CachedValue = CStr(text: string) | CQStr(text: string) | CFloat(bits: int) | CInt(number: int)
                       | CBool(truth: bool)
                       | CClause(children: seq<CachedChild>)

  datatype CachedLeaf = CachedLeaf(key: string, value: CachedValue, op: CachedOperator,
                                   startLine: nat, startCol: nat, endLine: nat, endCol: nat,
                                   valueStartLine: nat, valueStartCol: nat, valueEndLine: nat, valueEndCol: nat)

  datatype CachedLeafValue = CachedLeafValue(value: CachedValue,
                                             startLine: nat, startCol: nat, endLine: nat, endCol: nat)

  datatype CachedComment = CachedComment(text: string, startLine: nat, startCol: nat, endLine: nat, endCol: nat)

  datatype CachedFile = CachedFile(root: seq<CachedChild>, leaves: seq<CachedLeaf>,
                                   leafValues: seq<CachedLeafValue>, comments: seq<CachedComment>)

  datatype Loaded = Ok(arena: Arena, root: seq<Child>) | Corrupt

  // ---- Saving ---------------------------------------------------------------------

  function TokenText(t: Token, texts: seq<string>): string {
    match Resolve(texts, t.normal)
    case Some(s) => s
    case None => ""
  }

  function OpToCached(op: Operator): CachedOperator {
    match op
    case Equals => CEquals
    case GreaterThan => CGreaterThan
    case LessThan => CLessThan
    case GreaterThanOrEqual => CGreaterThanOrEqual
    case LessThanOrEqual => CLessThanOrEqual
    case NotEqual => CNotEqual
    case EqualEqual => CEqualEqual
    case QuestionEqual => CQuestionEqual
  }

  function ChildToCached(c: Child): CachedChild {
    match c
    case LeafRef(i) => CLeaf(i)
    case LeafValueRef(i) => CLeafValue(i)
    case CommentRef(i) => CComment(i)
  }

  function ChildrenToCached(children: seq<Child>): seq<CachedChild> {
    seq(|children|, i requires 0 <= i < |children| => ChildToCached(children[i]))
  }

  function ValueToCached(v: Value, texts: seq<string>): CachedValue {
    match v
    case Str(t) => CStr(TokenText(t, texts))
    case QStr(t) => CQStr(TokenText(t, texts))
    case Float(bits) => CFloat(bits)
    case Int(i) => CInt(i)
    case Bool(b) => CBool(b)
    case Clause(children) => CClause(ChildrenToCached(children))
  }

  function LeafToCached(l: Leaf, texts: seq<string>): CachedLeaf {
    CachedLeaf(TokenText(l.key, texts), ValueToCached(l.value, texts), OpToCached(l.op),
               l.pos.start.line, l.pos.start.col, l.pos.end.line, l.pos.end.col,
               l.valuePos.start.line, l.valuePos.start.col, l.valuePos.end.line, l.valuePos.end.col)
  }

  function LeafValueToCached(v: LeafValue, texts: seq<string>): CachedLeafValue {
    CachedLeafValue(ValueToCached(v.value, texts), v.pos.start.line, v.pos.start.col, v.pos.end.line, v.pos.end.col)
  }

  function CommentToCached(c: Comment): CachedComment {
    CachedComment(c.text, c.pos.start.line, c.pos.start.col, c.pos.end.line, c.pos.end.col)
  }

  function ArenaToCached(arena: Arena, root: seq<Child>, texts: seq<string>): CachedFile {
    CachedFile(
      ChildrenToCached(root),
      seq(|arena.leaves|, i requires 0 <= i < |arena.leaves| => LeafToCached(arena.leaves[i], texts)),
      seq(|arena.leafValues|, i requires 0 <= i < |arena.leafValues| => LeafValueToCached(arena.leafValues[i], texts)),
      seq(|arena.comments|, i requires 0 <= i < |arena.comments| => CommentToCached(arena.comments[i])))
  }

  // ---- Child references in bounds ---------------------------------------------------

  predicate InBounds(arena: Arena, c: Child) {
    match c
    case LeafRef(i) => i < |arena.leaves|
    case LeafValueRef(i) => i < |arena.leafValues|
    case CommentRef(i) => i < |arena.comments|
  }

  ghost predicate AllInBounds(arena: Arena, children: seq<Child>) {
    forall i :: 0 <= i < |children| ==> InBounds(arena, children[i])
  }

  ghost predicate ValueInBounds(arena: Arena, v: Value) {
    v.Clause? ==> AllInBounds(arena, v.children)
  }

  // Every child reference of the file points at an element.
  ghost predicate Sound(arena: Arena, root: seq<Child>) {
    AllInBounds(arena, root)
    && (forall i :: 0 <= i < |arena.leaves| ==> ValueInBounds(arena, arena.leaves[i].value))
    && forall i :: 0 <= i < |arena.leafValues| ==> ValueInBounds(arena, arena.leafValues[i].value)
  }

  predicate CachedInBounds(file: CachedFile, c: CachedChild) {
    match c
    case CLeaf(i) => i < |file.leaves|
    case CLeafValue(i) => i < |file.leafValues|
    case CComment(i) => i < |file.comments|
  }

  ghost predicate AllCachedInBounds(file: CachedFile, children: seq<CachedChild>) {
    forall i :: 0 <= i < |children| ==> CachedInBounds(file, children[i])
  }

  ghost predicate CachedValueInBounds(file: CachedFile, v: CachedValue) {
    v.CClause? ==> AllCachedInBounds(file, v.children)
  }

  ghost predicate CachedSound(file: CachedFile) {
    AllCachedInBounds(file, file.root)
    && (forall i :: 0 <= i < |file.leaves| ==> CachedValueInBounds(file, file.leaves[i].value))
    && forall i :: 0 <= i < |file.leafValues| ==> CachedValueInBounds(file, file.leafValues[i].value)
  }

  lemma ChildrenSoundAlike(arena: Arena, root: seq<Child>, texts: seq<string>, children: seq<Child>)
    ensures AllInBounds(arena, children) <==>
            AllCachedInBounds(ArenaToCached(arena, root, texts), ChildrenToCached(children))
  {
    hide LeafToCached, LeafValueToCached, CommentToCached;
    var file, cached := ArenaToCached(arena, root, texts), ChildrenToCached(children);
    forall i | 0 <= i < |children| ensures InBounds(arena, children[i]) == CachedInBounds(file, cached[i]) {
    }
    if AllCachedInBounds(file, cached) {
      forall i | 0 <= i < |children| ensures InBounds(arena, children[i]) {
        assert CachedInBounds(file, cached[i]);
      }
    }
  }

  lemma ValueSoundAlike(arena: Arena, root: seq<Child>, texts: seq<string>, v: Value)
    ensures ValueInBounds(arena, v) <==>
            CachedValueInBounds(ArenaToCached(arena, root, texts), ValueToCached(v, texts))
  {
    hide ArenaToCached, ChildrenToCached, AllInBounds, AllCachedInBounds;
    if v.Clause? {
      ChildrenSoundAlike(arena, root, texts, v.children);
    }
  }

  // Saving neither breaks nor mends a reference.
  lemma SoundAlike(arena: Arena, root: seq<Child>, texts: seq<string>)
    ensures Sound(arena, root) <==> CachedSound(ArenaToCached(arena, root, texts))
  {
    hide ValueInBounds, CachedValueInBounds, AllInBounds, AllCachedInBounds, ValueToCached, ChildrenToCached;
    var file := ArenaToCached(arena, root, texts);
    ChildrenSoundAlike(arena, root, texts, root);
    forall i | 0 <= i < |arena.leaves|
      ensures ValueInBounds(arena, arena.leaves[i].value) == CachedValueInBounds(file, file.leaves[i].value)
    {
      ValueSoundAlike(arena, root, texts, arena.leaves[i].value);
    }
    forall i | 0 <= i < |arena.leafValues|
      ensures ValueInBounds(arena, arena.leafValues[i].value) == CachedValueInBounds(file, file.leafValues[i].value)
    {
      ValueSoundAlike(arena, root, texts, arena.leafValues[i].value);
    }
    if CachedSound(file) {
      forall i | 0 <= i < |arena.leaves| ensures ValueInBounds(arena, arena.leaves[i].value) {
        assert CachedValueInBounds(file, file.leaves[i].value);
      }
      forall i | 0 <= i < |arena.leafValues| ensures ValueInBounds(arena, arena.leafValues[i].value) {
        assert CachedValueInBounds(file, file.leafValues[i].value);
      }
    }
  }

  // ---- The strings, in traversal order -------------------------------------------------

  function ValueStrings(v: CachedValue): seq<string> {
    match v
    case CStr(s) => [s]
    case CQStr(s) => [s]
    case _ => []
  }

  function LeafStrings(leaves: seq<CachedLeaf>): seq<string> {
    if leaves == [] then [] else [leaves[0].key] + ValueStrings(leaves[0].value) + LeafStrings(leaves[1..])
  }

  function LeafValueStrings(values: seq<CachedLeafValue>): seq<string> {
    if values == [] then [] else ValueStrings(values[0].value) + LeafValueStrings(values[1..])
  }

  function AllStrings(file: CachedFile): seq<string> {
    LeafStrings(file.leaves) + LeafValueStrings(file.leafValues)
  }

  lemma LeafStringsFrom(leaves: seq<CachedLeaf>, n: nat)
    requires n < |leaves|
    ensures LeafStrings(leaves[n..]) == [leaves[n].key] + ValueStrings(leaves[n].value) + LeafStrings(leaves[n + 1..])
  {
  }

  lemma LeafValueStringsFrom(values: seq<CachedLeafValue>, n: nat)
    requires n < |values|
    ensures LeafValueStrings(values[n..]) == ValueStrings(values[n].value) + LeafValueStrings(values[n + 1..])
  {
  }

  lemma NoStrings()
    ensures LeafStrings([]) == [] && LeafValueStrings([]) == []
  {
  }

  // Leaf by leaf its key and then its own string, quoted or not, and the bare
  // values' strings behind them; other values have none.
  lemma StringsInOrder(file: CachedFile, a: string, b: string, c: string, d: string, e: string)
    requires |file.leaves| == 3 && |file.leafValues| == 1
    requires file.leaves[0].key == a && file.leaves[0].value == CStr(b)
    requires file.leaves[1].key == c && file.leaves[1].value.CInt?
    requires file.leaves[2].key == d && file.leaves[2].value == CQStr(e) && file.leafValues[0].value == CStr(a)
    ensures AllStrings(file) == [a, b, c, d, e, a]
  {
    hide LeafStrings, LeafValueStrings;
    NoStrings();
    LeafStringsFrom(file.leaves, 0);
    LeafStringsFrom(file.leaves, 1);
    LeafStringsFrom(file.leaves, 2);
    LeafValueStringsFrom(file.leafValues, 0);
    assert file.leaves[0..] == file.leaves && file.leafValues[0..] == file.leafValues;
    assert file.leaves[3..] == [] && file.leafValues[1..] == [];
  }

  method CollectStrings(file: CachedFile) returns (strings: seq<string>)
    ensures strings == AllStrings(file)
  {
    hide LeafStrings, LeafValueStrings, ValueStrings;
    strings := [];
    NoStrings();
    assert file.leaves[0..] == file.leaves && file.leafValues[0..] == file.leafValues;
    var i := 0;
    while i < |file.leaves|
      invariant 0 <= i <= |file.leaves|
      invariant strings + LeafStrings(file.leaves[i..]) == LeafStrings(file.leaves)
    {
      LeafStringsFrom(file.leaves, i);
      strings := strings + [file.leaves[i].key];
      strings := strings + ValueStrings(file.leaves[i].value);
      i := i + 1;
    }
    assert file.leaves[i..] == [];
    i := 0;
    while i < |file.leafValues|
      invariant 0 <= i <= |file.leafValues|
      invariant strings + LeafValueStrings(file.leafValues[i..]) == AllStrings(file)
    {
      LeafValueStringsFrom(file.leafValues, i);
      strings := strings + ValueStrings(file.leafValues[i].value);
      i := i + 1;
    }
    assert file.leafValues[i..] == [];
  }

  // ---- Loading ---------------------------------------------------------------------------

  function CachedToOp(op: CachedOperator): Operator {
    match op
    case CEquals => Equals
    case CGreaterThan => GreaterThan
    case CLessThan => LessThan
    case CGreaterThanOrEqual => GreaterThanOrEqual
    case CLessThanOrEqual => LessThanOrEqual
    case CNotEqual => NotEqual
    case CEqualEqual => EqualEqual
    case CQuestionEqual => QuestionEqual
  }

  function CachedToChild(c: CachedChild): Child {
    match c
    case CLeaf(i) => LeafRef(i)
    case CLeafValue(i) => LeafValueRef(i)
    case CComment(i) => CommentRef(i)
  }

  function CachedToChildren(children: seq<CachedChild>): seq<Child> {
    seq(|children|, i requires 0 <= i < |children| => CachedToChild(children[i]))
  }

  function ToRange(startLine: nat, startCol: nat, endLine: nat, endCol: nat): SourceRange {
    SourceRange(SourcePos(startLine, startCol), SourcePos(endLine, endCol))
  }

  // The tokens still to hand out are those of the strings still to come.
  ghost predicate Pending(exact: map<string, Token>, tokens: seq<Token>, strings: seq<string>) {
    |tokens| == |strings| && forall k :: 0 <= k < |tokens| ==> TokenOf(exact, strings[k]) == Some(tokens[k])
  }

  // A value rebuilt from `c`: its strings have the tokens the table gave them.
  ghost predicate ValueOf(exact: map<string, Token>, c: CachedValue, v: Value) {
    match c
    case CStr(s) => v.Str? && TokenOf(exact, s) == Some(v.token)
    case CQStr(s) => v.QStr? && TokenOf(exact, s) == Some(v.token)
    case CFloat(bits) => v == Float(bits)
    case CInt(i) => v == Int(i)
    case CBool(b) => v == Bool(b)
    case CClause(children) => v == Clause(CachedToChildren(children))
  }

  ghost predicate LeafOf(exact: map<string, Token>, c: CachedLeaf, l: Leaf) {
    TokenOf(exact, c.key) == Some(l.key) && ValueOf(exact, c.value, l.value) && l.op == CachedToOp(c.op)
    && l.pos == ToRange(c.startLine, c.startCol, c.endLine, c.endCol)
    && l.valuePos == ToRange(c.valueStartLine, c.valueStartCol, c.valueEndLine, c.valueEndCol)
  }

  ghost predicate LeafValueOf(exact: map<string, Token>, c: CachedLeafValue, v: LeafValue) {
    ValueOf(exact, c.value, v.value) && v.pos == ToRange(c.startLine, c.startCol, c.endLine, c.endCol)
  }

  ghost predicate CommentOf(c: CachedComment, comment: Comment) {
    comment == Comment(c.text, ToRange(c.startLine, c.startCol, c.endLine, c.endCol))
  }

  ghost predicate LeavesOf(exact: map<string, Token>, cached: seq<CachedLeaf>, leaves: seq<Leaf>) {
    |leaves| == |cached| && forall i :: 0 <= i < |leaves| ==> LeafOf(exact, cached[i], leaves[i])
  }

  ghost predicate LeafValuesOf(exact: map<string, Token>, cached: seq<CachedLeafValue>, values: seq<LeafValue>) {
    |values| == |cached| && forall i :: 0 <= i < |values| ==> LeafValueOf(exact, cached[i], values[i])
  }

  ghost predicate CommentsOf(cached: seq<CachedComment>, comments: seq<Comment>) {
    |comments| == |cached| && forall i :: 0 <= i < |comments| ==> CommentOf(cached[i], comments[i])
  }

  // The arena holds what the cached file describes, element by element.
  ghost predicate ArenaOf(exact: map<string, Token>, file: CachedFile, arena: Arena, root: seq<Child>) {
    LeavesOf(exact, file.leaves, arena.leaves) && LeafValuesOf(exact, file.leafValues, arena.leafValues)
    && CommentsOf(file.comments, arena.comments) && root == CachedToChildren(file.root)
  }

  // The next token off the batch; never short, as the pending strings show.
  method NextToken(tokens: seq<Token>, ghost exact: map<string, Token>, ghost s: string, ghost later: seq<string>)
    returns (t: Token, rest: seq<Token>)
    requires Pending(exact, tokens, [s] + later)
    ensures TokenOf(exact, s) == Some(t) && Pending(exact, rest, later)
  {
    assert ([s] + later)[0] == s;
    t, rest := tokens[0], tokens[1..];
    forall k | 0 <= k < |later| ensures TokenOf(exact, later[k]) == Some(rest[k]) {
      assert ([s] + later)[k + 1] == later[k];
    }
  }

  method RebuildValue(c: CachedValue, tokens: seq<Token>, ghost exact: map<string, Token>, ghost later: seq<string>)
    returns (v: Value, rest: seq<Token>)
    requires Pending(exact, tokens, ValueStrings(c) + later)
    ensures ValueOf(exact, c, v) && Pending(exact, rest, later)
  {
    hide Pending, TokenOf;
    rest := tokens;
    match c {
      case CStr(s) =>
        var t;
        t, rest := NextToken(rest, exact, s, later);
        v := Str(t);
      case CQStr(s) =>
        var t;
        t, rest := NextToken(rest, exact, s, later);
        v := QStr(t);
      case CFloat(bits) =>
        v := Float(bits);
        assert [] + later == later;
      case CInt(i) =>
        v := Int(i);
        assert [] + later == later;
      case CBool(b) =>
        v := Bool(b);
        assert [] + later == later;
      case CClause(children) =>
        v := Clause(CachedToChildren(children));
        assert [] + later == later;
    }
  }

  method RebuildLeaves(cached: seq<CachedLeaf>, tokens: seq<Token>, ghost exact: map<string, Token>,
                       ghost later: seq<string>)
    returns (leaves: seq<Leaf>, rest: seq<Token>)
    requires Pending(exact, tokens, LeafStrings(cached) + later)
    ensures LeavesOf(exact, cached, leaves) && Pending(exact, rest, later)
  {
    hide LeafStrings, ValueStrings, ValueOf, TokenOf, Pending;
    leaves, rest := [], tokens;
    NoStrings();
    assert cached[0..] == cached;
    var i := 0;
    while i < |cached|
      invariant 0 <= i <= |cached|
      invariant LeavesOf(exact, cached[..i], leaves)
      invariant Pending(exact, rest, LeafStrings(cached[i..]) + later)
    {
      var l := cached[i];
      ghost var below := LeafStrings(cached[i + 1..]) + later;
      LeafStringsFrom(cached, i);
      assert LeafStrings(cached[i..]) + later == [l.key] + (ValueStrings(l.value) + below);
      var key, value;
      key, rest := NextToken(rest, exact, l.key, ValueStrings(l.value) + below);
      value, rest := RebuildValue(l.value, rest, exact, below);
      leaves := leaves + [Leaf(key, value, CachedToOp(l.op),
                               ToRange(l.startLine, l.startCol, l.endLine, l.endCol),
                               ToRange(l.valueStartLine, l.valueStartCol, l.valueEndLine, l.valueEndCol))];
      i := i + 1;
    }
    assert cached[..i] == cached && cached[i..] == [];
    assert [] + later == later;
  }

  method RebuildLeafValues(cached: seq<CachedLeafValue>, tokens: seq<Token>, ghost exact: map<string, Token>)
    returns (values: seq<LeafValue>, rest: seq<Token>)
    requires Pending(exact, tokens, LeafValueStrings(cached))
    ensures LeafValuesOf(exact, cached, values) && rest == []
  {
    hide LeafValueStrings, ValueStrings, ValueOf, TokenOf;
    values, rest := [], tokens;
    NoStrings();
    assert cached[0..] == cached;
    var i := 0;
    while i < |cached|
      invariant 0 <= i <= |cached|
      invariant LeafValuesOf(exact, cached[..i], values)
      invariant Pending(exact, rest, LeafValueStrings(cached[i..]))
    {
      var c := cached[i];
      LeafValueStringsFrom(cached, i);
      var value;
      value, rest := RebuildValue(c.value, rest, exact, LeafValueStrings(cached[i + 1..]));
      values := values + [LeafValue(value, ToRange(c.startLine, c.startCol, c.endLine, c.endCol))];
      i := i + 1;
    }
    assert cached[..i] == cached && cached[i..] == [];
  }

  method RebuildComments(cached: seq<CachedComment>) returns (comments: seq<Comment>)
    ensures CommentsOf(cached, comments)
  {
    comments := [];
    var i := 0;
    while i < |cached|
      invariant 0 <= i <= |cached|
      invariant CommentsOf(cached[..i], comments)
    {
      var c := cached[i];
      comments := comments + [Comment(c.text, ToRange(c.startLine, c.startCol, c.endLine, c.endCol))];
      i := i + 1;
    }
    assert cached[..i] == cached;
  }

  method CheckChildList(arena: Arena, children: seq<Child>) returns (ok: bool)
    ensures ok == AllInBounds(arena, children)
  {
    var i := 0;
    while i < |children|
      invariant 0 <= i <= |children|
      invariant forall k :: 0 <= k < i ==> InBounds(arena, children[k])
    {
      if !InBounds(arena, children[i]) {
        return false;
      }
      i := i + 1;
    }
    return true;
  }

  // Every child list is looked at once and no reference is followed.
  method ValidateChildBounds(arena: Arena, root: seq<Child>) returns (ok: bool)
    ensures ok == Sound(arena, root)
  {
    hide AllInBounds;
    ok := CheckChildList(arena, root);
    if !ok {
      return;
    }
    var i := 0;
    while i < |arena.leaves|
      invariant 0 <= i <= |arena.leaves|
      invariant forall k :: 0 <= k < i ==> ValueInBounds(arena, arena.leaves[k].value)
    {
      if arena.leaves[i].value.Clause? {
        ok := CheckChildList(arena, arena.leaves[i].value.children);
        if !ok {
          return;
        }
      }
      i := i + 1;
    }
    i := 0;
    while i < |arena.leafValues|
      invariant 0 <= i <= |arena.leafValues|
      invariant forall k :: 0 <= k < i ==> ValueInBounds(arena, arena.leafValues[k].value)
    {
      if arena.leafValues[i].value.Clause? {
        ok := CheckChildList(arena, arena.leafValues[i].value.children);
        if !ok {
          return;
        }
      }
      i := i + 1;
    }
    return true;
  }

  // Loading succeeds exactly when every child reference is in bounds; the batch
  // of tokens is then used up to the last one, each for its own string. Either
  // way the strings are interned, and the table only grows.
  method ArchivedToArena(file: CachedFile, table: StringTable) returns (loaded: Loaded)
    requires table.Valid()
    modifies table
    ensures table.Valid() && old(table.texts) <= table.texts && Extends(old(table.exact), table.exact)
    ensures loaded.Ok? <==> CachedSound(file)
    ensures loaded.Ok? ==> ArenaOf(table.exact, file, loaded.arena, loaded.root) && Sound(loaded.arena, loaded.root)
  {
    hide LeafStrings, LeafValueStrings, Consistent, Sound, CachedSound, LeavesOf, LeafValuesOf, CommentsOf;
    var strings := CollectStrings(file);
    var tokens := table.InternBatch(strings);
    assert Pending(table.exact, tokens, strings);
    var leaves, leafValues, rest;
    leaves, rest := RebuildLeaves(file.leaves, tokens, table.exact, LeafValueStrings(file.leafValues));
    leafValues, rest := RebuildLeafValues(file.leafValues, rest, table.exact);
    var comments := RebuildComments(file.comments);
    assert rest == [];
    var arena, root := Arena(leaves, leafValues, comments), CachedToChildren(file.root);
    var ok := ValidateChildBounds(arena, root);
    RebuiltSoundAlike(table.exact, file, arena, root);
    loaded := if ok then Ok(arena, root) else Corrupt;
  }

  // ---- Loading undoes saving -----------------------------------------------------------

  lemma ValueRoundTrip(fold: Folding, texts: seq<string>, exact: map<string, Token>, lowers: map<string, Token>,
                       c: CachedValue, v: Value)
    requires Consistent(fold, texts, exact, lowers) && ValueOf(exact, c, v)
    ensures ValueToCached(v, texts) == c && ValueIssued(texts, exact, v)
  {
  }

  lemma ChildrenRoundTrip(children: seq<CachedChild>)
    ensures ChildrenToCached(CachedToChildren(children)) == children
  {
  }

  ghost predicate ValueIssued(texts: seq<string>, exact: map<string, Token>, v: Value) {
    match v
    case Str(t) => Issued(texts, exact, t)
    case QStr(t) => Issued(texts, exact, t)
    case _ => true
  }

  // Every token of the arena is one the table handed out.
  ghost predicate ArenaIssued(texts: seq<string>, exact: map<string, Token>, arena: Arena) {
    (forall i :: 0 <= i < |arena.leaves| ==>
       Issued(texts, exact, arena.leaves[i].key) && ValueIssued(texts, exact, arena.leaves[i].value))
    && forall i :: 0 <= i < |arena.leafValues| ==> ValueIssued(texts, exact, arena.leafValues[i].value)
  }

  // Saving what was loaded gives the same file: nothing is lost, moved or swapped.
  lemma SaveLoadedIsSame(fold: Folding, texts: seq<string>, exact: map<string, Token>, lowers: map<string, Token>,
                         file: CachedFile, arena: Arena, root: seq<Child>)
    requires Consistent(fold, texts, exact, lowers) && ArenaOf(exact, file, arena, root)
    ensures ArenaToCached(arena, root, texts) == file && ArenaIssued(texts, exact, arena)
  {
    hide ValueOf, ValueToCached, ValueIssued, Issued, Consistent, ChildrenToCached, CachedToChildren, TokenOf;
    ChildrenRoundTrip(file.root);
    forall i | 0 <= i < |arena.leaves|
      ensures LeafToCached(arena.leaves[i], texts) == file.leaves[i]
      ensures Issued(texts, exact, arena.leaves[i].key) && ValueIssued(texts, exact, arena.leaves[i].value)
    {
      assert LeafOf(exact, file.leaves[i], arena.leaves[i]);
      LeafRoundTrip(fold, texts, exact, lowers, file.leaves[i], arena.leaves[i]);
    }
    forall i | 0 <= i < |arena.leafValues|
      ensures LeafValueToCached(arena.leafValues[i], texts) == file.leafValues[i]
      ensures ValueIssued(texts, exact, arena.leafValues[i].value)
    {
      assert LeafValueOf(exact, file.leafValues[i], arena.leafValues[i]);
      ValueRoundTrip(fold, texts, exact, lowers, file.leafValues[i].value, arena.leafValues[i].value);
    }
    forall i | 0 <= i < |arena.comments| ensures CommentToCached(arena.comments[i]) == file.comments[i] {
      assert CommentOf(file.comments[i], arena.comments[i]);
    }
  }

  lemma LeafRoundTrip(fold: Folding, texts: seq<string>, exact: map<string, Token>, lowers: map<string, Token>,
                      c: CachedLeaf, l: Leaf)
    requires Consistent(fold, texts, exact, lowers) && LeafOf(exact, c, l)
    ensures LeafToCached(l, texts) == c
    ensures Issued(texts, exact, l.key) && ValueIssued(texts, exact, l.value)
  {
  }

  lemma RebuiltSoundAlike(exact: map<string, Token>, file: CachedFile, arena: Arena, root: seq<Child>)
    requires ArenaOf(exact, file, arena, root)
    ensures Sound(arena, root) <==> CachedSound(file)
  {
    hide AllInBounds, AllCachedInBounds, ValueOf, TokenOf;
    RebuiltChildrenSound(exact, file, arena, root, file.root);
    forall i | 0 <= i < |arena.leaves|
      ensures ValueInBounds(arena, arena.leaves[i].value) == CachedValueInBounds(file, file.leaves[i].value)
    {
      assert LeafOf(exact, file.leaves[i], arena.leaves[i]);
      RebuiltValueSound(exact, file, arena, root, file.leaves[i].value, arena.leaves[i].value);
    }
    forall i | 0 <= i < |arena.leafValues|
      ensures ValueInBounds(arena, arena.leafValues[i].value) == CachedValueInBounds(file, file.leafValues[i].value)
    {
      assert LeafValueOf(exact, file.leafValues[i], arena.leafValues[i]);
      RebuiltValueSound(exact, file, arena, root, file.leafValues[i].value, arena.leafValues[i].value);
    }
    hide ValueInBounds, CachedValueInBounds;
    if Sound(arena, root) {
      forall i | 0 <= i < |file.leaves| ensures CachedValueInBounds(file, file.leaves[i].value) {
        assert ValueInBounds(arena, arena.leaves[i].value);
      }
      forall i | 0 <= i < |file.leafValues| ensures CachedValueInBounds(file, file.leafValues[i].value) {
        assert ValueInBounds(arena, arena.leafValues[i].value);
      }
    }
  }

  lemma RebuiltValueSound(exact: map<string, Token>, file: CachedFile, arena: Arena, root: seq<Child>, c: CachedValue,
                          v: Value)
    requires ArenaOf(exact, file, arena, root) && ValueOf(exact, c, v)
    ensures ValueInBounds(arena, v) == CachedValueInBounds(file, c)
  {
    hide AllInBounds, AllCachedInBounds, ArenaOf, TokenOf;
    if c.CClause? {
      RebuiltChildrenSound(exact, file, arena, root, c.children);
    }
  }

  lemma RebuiltChildrenSound(exact: map<string, Token>, file: CachedFile, arena: Arena, root: seq<Child>,
                             children: seq<CachedChild>)
    requires ArenaOf(exact, file, arena, root)
    ensures AllInBounds(arena, CachedToChildren(children)) <==> AllCachedInBounds(file, children)
  {
    hide LeafOf, LeafValueOf, CommentOf;
    var rebuilt := CachedToChildren(children);
    forall i | 0 <= i < |children| ensures InBounds(arena, rebuilt[i]) == CachedInBounds(file, children[i]) {
    }
    if AllInBounds(arena, rebuilt) {
      forall i | 0 <= i < |children| ensures CachedInBounds(file, children[i]) {
        assert InBounds(arena, rebuilt[i]);
      }
    }
  }

  // The same value but for its tokens, which stand for the same text.
  ghost predicate SameValue(v: Value, texts: seq<string>, w: Value, texts2: seq<string>) {
    match v
    case Str(t) => w.Str? && TokenText(t, texts) == TokenText(w.token, texts2)
    case QStr(t) => w.QStr? && TokenText(t, texts) == TokenText(w.token, texts2)
    case _ => v == w
  }

  ghost predicate SameLeaf(l: Leaf, texts: seq<string>, m: Leaf, texts2: seq<string>) {
    TokenText(l.key, texts) == TokenText(m.key, texts2) && SameValue(l.value, texts, m.value, texts2)
    && l.op == m.op && l.pos == m.pos && l.valuePos == m.valuePos
  }

  ghost predicate SameLeafValue(v: LeafValue, texts: seq<string>, w: LeafValue, texts2: seq<string>) {
    SameValue(v.value, texts, w.value, texts2) && v.pos == w.pos
  }

  ghost predicate SameArena(a: Arena, texts: seq<string>, b: Arena, texts2: seq<string>) {
    |a.leaves| == |b.leaves| && |a.leafValues| == |b.leafValues| && a.comments == b.comments
    && (forall i :: 0 <= i < |a.leaves| ==> SameLeaf(a.leaves[i], texts, b.leaves[i], texts2))
    && forall i :: 0 <= i < |a.leafValues| ==> SameLeafValue(a.leafValues[i], texts, b.leafValues[i], texts2)
  }

  lemma ChildrenAreKept(a: seq<Child>, b: seq<Child>)
    requires ChildrenToCached(a) == ChildrenToCached(b)
    ensures a == b
  {
    forall i | 0 <= i < |a| ensures a[i] == b[i] {
      assert ChildrenToCached(a)[i] == ChildrenToCached(b)[i];
    }
  }

  lemma ValueIsKept(v: Value, texts: seq<string>, w: Value, texts2: seq<string>)
    requires ValueToCached(v, texts) == ValueToCached(w, texts2)
    ensures SameValue(v, texts, w, texts2)
  {
    hide TokenText, ChildrenToCached;
    if v.Clause? {
      ChildrenAreKept(v.children, w.children);
    }
  }

  // Two arenas saved as the same file are the same, token texts for tokens.
  lemma SavedAlikeIsSame(a: Arena, root: seq<Child>, texts: seq<string>, b: Arena, root2: seq<Child>,
                         texts2: seq<string>)
    requires ArenaToCached(a, root, texts) == ArenaToCached(b, root2, texts2)
    ensures SameArena(a, texts, b, texts2) && root == root2
  {
    hide TokenText, ChildrenToCached, ValueToCached, SameValue;
    var file, file2 := ArenaToCached(a, root, texts), ArenaToCached(b, root2, texts2);
    ChildrenAreKept(root, root2);
    forall i | 0 <= i < |a.leaves| ensures SameLeaf(a.leaves[i], texts, b.leaves[i], texts2) {
      assert file.leaves[i] == file2.leaves[i];
      ValueIsKept(a.leaves[i].value, texts, b.leaves[i].value, texts2);
    }
    forall i | 0 <= i < |a.leafValues| ensures SameLeafValue(a.leafValues[i], texts, b.leafValues[i], texts2) {
      assert file.leafValues[i] == file2.leafValues[i];
      ValueIsKept(a.leafValues[i].value, texts, b.leafValues[i].value, texts2);
    }
    forall i | 0 <= i < |a.comments| ensures a.comments[i] == b.comments[i] {
      assert file.comments[i] == file2.comments[i];
    }
  }

  // Within one table the text pins the token, so the arenas are equal outright.
  lemma SameInOneTable(texts: seq<string>, exact: map<string, Token>, a: Arena, b: Arena)
    requires SameArena(a, texts, b, texts) && ArenaIssued(texts, exact, a) && ArenaIssued(texts, exact, b)
    ensures a == b
  {
  }

  // As the table grows, issued tokens stay issued and keep their text.
  lemma ArenaStaysIssued(texts: seq<string>, exact: map<string, Token>, texts2: seq<string>,
                         exact2: map<string, Token>, a: Arena)
    requires texts <= texts2 && Extends(exact, exact2) && ArenaIssued(texts, exact, a)
    ensures ArenaIssued(texts2, exact2, a) && SameArena(a, texts, a, texts2)
  {
  }

  // Saving and loading again succeeds exactly when the arena's own references
  // are sound, and then gives the arena back: with the same texts in any table,
  // and token for token in its own.
  method SaveAndLoad(arena: Arena, root: seq<Child>, source: StringTable, target: StringTable) returns (loaded: Loaded)
    requires source.Valid() && target.Valid()
    modifies target
    ensures target.Valid()
    ensures loaded.Ok? <==> Sound(arena, root)
    ensures loaded.Ok? ==> loaded.root == root
    ensures loaded.Ok? ==> SameArena(arena, old(source.texts), loaded.arena, target.texts)
    ensures loaded.Ok? && source == target && ArenaIssued(old(source.texts), old(source.exact), arena) ==>
              loaded.arena == arena
  {
    hide Consistent, Sound, CachedSound, ArenaToCached, ArenaOf, ArenaIssued, SameArena, Extends;
    ghost var texts, exact := source.texts, source.exact;
    var file := ArenaToCached(arena, root, source.texts);
    SoundAlike(arena, root, source.texts);
    loaded := ArchivedToArena(file, target);
    if loaded.Ok? {
      SaveLoadedIsSame(target.fold, target.texts, target.exact, target.lowers, file, loaded.arena, loaded.root);
      SavedAlikeIsSame(arena, root, texts, loaded.arena, loaded.root, target.texts);
      if source == target && ArenaIssued(texts, exact, arena) {
        ArenaStaysIssued(texts, exact, target.texts, target.exact, arena);
        SameViaGrowth(arena, texts, target.texts, loaded.arena);
        SameInOneTable(target.texts, target.exact, arena, loaded.arena);
      }
    }
  }

  lemma SameViaGrowth(a: Arena, texts: seq<string>, texts2: seq<string>, b: Arena)
    requires SameArena(a, texts, a, texts2) && SameArena(a, texts, b, texts2)
    ensures SameArena(a, texts2, b, texts2)
  {
  }
}

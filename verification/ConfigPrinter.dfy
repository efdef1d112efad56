/** Text that spells a list of settings, in any layout the reader of config.rs
    accepts, and the proof that reading it gives the settings back. */
module ConfigPrinter {
  import opened Text
  import opened ConfigText

  // ---- Spelling strings, values and lines -------------------------------------------

  // A character of a basic string, as it stands or escaped.
  datatype Piece = Bare(c: char) | Escape(c: char)

  // A basic string escapes what it must; a literal one is taken as it stands.
  datatype QuotedText = Basic(pieces: seq<Piece>) | Literal(text: string)

  function Chars(pieces: seq<Piece>): string {
    seq(|pieces|, i requires 0 <= i < |pieces| => pieces[i].c)
  }

  function Unquoted(q: QuotedText): string {
    if q.Basic? then Chars(q.pieces) else q.text
  }

  function EscapeChar(c: char): string {
    if c == '"' then "\\\""
    else if c == '\\' then "\\\\"
    else if c == '\n' then "\\n"
    else if c == '\r' then "\\r"
    else if c == '\t' then "\\t"
    else [c]
  }

  function RenderPiece(p: Piece): string {
    if p.Bare? then [p.c] else EscapeChar(p.c)
  }

  function RenderPieces(pieces: seq<Piece>): string {
    if pieces == [] then "" else RenderPiece(pieces[0]) + RenderPieces(pieces[1..])
  }

  function RenderQuoted(q: QuotedText): string {
    match q
    case Basic(pieces) => "\"" + RenderPieces(pieces) + "\""
    case Literal(text) => "'" + text + "'"
  }

  // One array entry and the layout around it.
  datatype Element = Element(lead: string, text: QuotedText, trail: string)

  datatype Printed = Quote(text: QuotedText) | Flag(truth: bool)
                   | Items(elements: seq<Element>, comma: bool, close: string)

  function RenderElements(elements: seq<Element>, comma: bool, close: string): string {
    if elements == [] then close + "]"
    else
      elements[0].lead + RenderQuoted(elements[0].text) + elements[0].trail
      + (if |elements| > 1 || comma then "," else "") + RenderElements(elements[1..], comma, close)
  }

  function RenderValue(v: Printed): string {
    match v
    case Quote(text) => RenderQuoted(text)
    case Flag(truth) => if truth then "true" else "false"
    case Items(elements, comma, close) => "[" + RenderElements(elements, comma, close)
  }

  // One setting, the layout around its parts, and the comment behind it.
  datatype Line = Line(lead: string, key: string, before: string, after: string, value: Printed, tail: string,
                       comment: Option<string>)

  function RenderComment(comment: Option<string>): string {
    if comment.Some? then "#" + comment.value else ""
  }

  // `end` follows the last line's newline; without it the text ends unterminated.
  function RenderLines(lines: seq<Line>, end: Option<string>): string {
    if lines == [] then (if end.Some? then end.value else "")
    else
      lines[0].lead + lines[0].key + lines[0].before + "=" + lines[0].after + RenderValue(lines[0].value)
      + lines[0].tail + RenderComment(lines[0].comment) + Break(lines, end) + RenderLines(lines[1..], end)
  }

  function Break(lines: seq<Line>, end: Option<string>): string {
    if |lines| > 1 || end.Some? then "\n" else ""
  }

  // ---- Well-formed layout ----------------------------------------------------------------

  predicate Free(s: string, c: char) {
    forall i :: 0 <= i < |s| ==> s[i] != c
  }

  predicate Blanks(s: string) {
    forall i :: 0 <= i < |s| ==> IsBlank(s[i])
  }

  function CommentLength(s: string): (n: nat)
    ensures n <= |s| && Free(s[..n], '\n') && (n < |s| ==> s[n] == '\n')
  {
    if s == "" || s[0] == '\n' then 0
    else
      var n := 1 + CommentLength(s[1..]);
      assert s[..n] == [s[0]] + s[1..][..n - 1];
      n
  }

  // White space and comments, every comment ended by a newline.
  predicate Trivia(s: string)
    decreases |s|
  {
    s == "" || (IsWhite(s[0]) && Trivia(s[1..]))
    || (s[0] == '#' && CommentLength(s) < |s| && CommentLength(s) > 0 && Trivia(s[CommentLength(s)..]))
  }

  // White space and comments, the last of which the text's end may end.
  predicate LastTrivia(s: string)
    decreases |s|
  {
    s == "" || (IsWhite(s[0]) && LastTrivia(s[1..]))
    || (s[0] == '#' && CommentLength(s) > 0 && LastTrivia(s[CommentLength(s)..]))
  }

  predicate ValidPiece(p: Piece) {
    if p.Bare? then p.c != '"' && p.c != '\\' && p.c != '\n' else |EscapeChar(p.c)| == 2
  }

  predicate ValidQuoted(q: QuotedText) {
    match q
    case Basic(pieces) => forall i :: 0 <= i < |pieces| ==> ValidPiece(pieces[i])
    case Literal(text) => Free(text, '\'') && Free(text, '\n')
  }

  predicate ValidElement(e: Element) {
    Trivia(e.lead) && ValidQuoted(e.text) && Trivia(e.trail)
  }

  predicate ValidPrinted(v: Printed) {
    match v
    case Quote(text) => ValidQuoted(text)
    case Flag(_) => true
    case Items(elements, comma, close) => Trivia(close) && forall i :: 0 <= i < |elements| ==> ValidElement(elements[i])
  }

  predicate ValidKey(key: string) {
    key != "" && forall i :: 0 <= i < |key| ==> IsKeyChar(key[i])
  }

  // Behind a bare word every kind of space is cut off, behind other values blanks.
  predicate ValidTail(v: Printed, tail: string) {
    if v.Flag? then forall i :: 0 <= i < |tail| ==> IsSpace(tail[i]) && tail[i] != '\n' else Blanks(tail)
  }

  predicate ValidLine(l: Line) {
    Trivia(l.lead) && ValidKey(l.key) && Blanks(l.before) && Blanks(l.after) && ValidPrinted(l.value)
    && ValidTail(l.value, l.tail)
    && (l.comment.Some? ==> Free(l.comment.value, '\n'))
  }

  predicate ValidLines(lines: seq<Line>) {
    forall i :: 0 <= i < |lines| ==> ValidLine(lines[i])
  }

  predicate ValidEnd(end: Option<string>) {
    end.Some? ==> LastTrivia(end.value)
  }

  // ---- What reading it must give ------------------------------------------------------------

  // Entries of an array whose bracket closes on line n, each on the line that
  // follows from the newlines printed before it.
  function ExpectedItems(elements: seq<Element>, n: nat): seq<Listed> {
    if elements == [] then []
    else
      var e := elements[0];
      [Listed(Unquoted(e.text), n + Newlines(e.lead))]
      + ExpectedItems(elements[1..], n + Newlines(e.lead) + Newlines(e.trail))
  }

  function ExpectedValue(v: Printed, n: nat): Value {
    match v
    case Quote(text) => Str(Unquoted(text))
    case Flag(truth) => Bool(truth)
    case Items(elements, _, _) => List(ExpectedItems(elements, n))
  }

  function EntryOf(l: Line, n: nat): Entry {
    Entry(l.key, n + Newlines(l.lead), ExpectedValue(l.value, n + Newlines(l.lead)))
  }

  function ExpectedEntries(lines: seq<Line>, n: nat): seq<Entry> {
    if lines == [] then []
    else
      [EntryOf(lines[0], n)]
      + ExpectedEntries(lines[1..], n + Newlines(lines[0].lead) + Newlines(RenderValue(lines[0].value)) + 1)
  }

  // ---- Layout is passed over ------------------------------------------------------------------

  lemma {:induction false} BlanksPassed(b: string, rest: string, n: nat)
    requires Blanks(b) && (rest == "" || !IsBlank(rest[0]))
    ensures SkipBlanks(At(b + rest, n)) == At(rest, n)
  {
    if b == "" {
      assert b + rest == rest;
    } else {
      assert (b + rest)[1..] == b[1..] + rest;
      BlanksPassed(b[1..], rest, n);
    }
  }

  lemma {:induction false} CommentPassed(c: string, rest: string, n: nat)
    requires Free(c, '\n') && (rest == "" || rest[0] == '\n')
    ensures SkipComment(At(c + rest, n)) == At(rest, n)
  {
    if c == "" {
      assert c + rest == rest;
    } else {
      assert (c + rest)[1..] == c[1..] + rest;
      CommentPassed(c[1..], rest, n);
    }
  }

  lemma {:induction false} FreeHasNone(s: string)
    requires Free(s, '\n')
    ensures Newlines(s) == 0
  {
    if s != "" {
      FreeHasNone(s[1..]);
    }
  }

  // Nothing that trivia would swallow.
  predicate Solid(rest: string) {
    rest == "" || (!IsWhite(rest[0]) && rest[0] != '#')
  }

  lemma {:induction false} TriviaPassed(t: string, rest: string, n: nat)
    requires Trivia(t) && Solid(rest)
    ensures SkipTrivia(At(t + rest, n)) == At(rest, n + Newlines(t))
    decreases |t|
  {
    if t == "" {
      assert t + rest == rest;
    } else if IsWhite(t[0]) {
      assert (t + rest)[1..] == t[1..] + rest;
      TriviaPassed(t[1..], rest, Bump(At(t + rest, n)).line);
    } else {
      var k := CommentLength(t);
      var c, after := t[..k], t[k..];
      assert t + rest == c + (after + rest) && t == c + after;
      CommentPassed(c, after + rest, n);
      NewlinesConcat(c, after);
      FreeHasNone(c);
      TriviaPassed(after, rest, n);
    }
  }

  lemma {:induction false} TriviaConcat(a: string, b: string)
    requires Trivia(a) && Trivia(b)
    ensures Trivia(a + b)
    decreases |a|
  {
    if a == "" {
      assert a + b == b;
    } else if IsWhite(a[0]) {
      assert (a + b)[1..] == a[1..] + b;
      TriviaConcat(a[1..], b);
    } else {
      var k := CommentLength(a);
      CommentLengthIs(a, b);
      assert (a + b)[k..] == a[k..] + b;
      TriviaConcat(a[k..], b);
    }
  }

  lemma {:induction false} CommentLengthIs(a: string, b: string)
    requires CommentLength(a) < |a|
    ensures CommentLength(a + b) == CommentLength(a)
  {
    if a[0] != '\n' {
      assert (a + b)[1..] == a[1..] + b;
      CommentLengthIs(a[1..], b);
    }
  }

  // ---- Keys and strings read back ----------------------------------------------------------------

  lemma {:induction false} KeyLengthIs(key: string, rest: string)
    requires forall i :: 0 <= i < |key| ==> IsKeyChar(key[i])
    requires rest == "" || !IsKeyChar(rest[0])
    ensures KeyLength(key + rest) == |key|
  {
    if key == "" {
      assert key + rest == rest;
    } else {
      assert (key + rest)[1..] == key[1..] + rest;
      KeyLengthIs(key[1..], rest);
    }
  }

  lemma KeyReads(key: string, rest: string, n: nat)
    requires ValidKey(key) && rest != "" && EndsKey(rest[0])
    ensures Key(At(key + rest, n)) == Ok(key, At(rest, n))
  {
    KeyLengthIs(key, rest);
    SplitBack(key, rest);
  }

  lemma {:induction false} BasicReads(pieces: seq<Piece>, rest: string, n: nat, openLine: nat)
    requires forall i :: 0 <= i < |pieces| ==> ValidPiece(pieces[i])
    ensures StringFrom(At(RenderPieces(pieces) + "\"" + rest, n), '"', openLine) == Ok(Chars(pieces), At(rest, n))
  {
    hide ValidPiece, RenderPiece;
    var all := RenderPieces(pieces) + "\"" + rest;
    if pieces == [] {
      assert all == "\"" + rest && all[1..] == rest;
    } else {
      var tail := RenderPieces(pieces[1..]) + "\"" + rest;
      BasicReads(pieces[1..], rest, n, openLine);
      assert all == RenderPiece(pieces[0]) + tail;
      PieceReads(pieces[0], tail, n, openLine);
      assert [pieces[0].c] + Chars(pieces[1..]) == Chars(pieces);
    }
  }

  lemma PlainCharReads(c: char, tail: string, n: nat, openLine: nat)
    requires c != '"' && c != '\\' && c != '\n'
    ensures StringFrom(At([c] + tail, n), '"', openLine) == Prepend([c], StringFrom(At(tail, n), '"', openLine))
  {
    assert ([c] + tail)[1..] == tail;
  }

  lemma EscapedCharReads(e: char, c: char, tail: string, n: nat, openLine: nat)
    requires Escaped(e) == Some(c)
    ensures StringFrom(At(['\\', e] + tail, n), '"', openLine) == Prepend([c], StringFrom(At(tail, n), '"', openLine))
  {
    var all := ['\\', e] + tail;
    assert all[1..] == [e] + tail && all[1..][1..] == tail;
  }

  // A character as it stands is one step, an escape two.
  lemma PieceReads(p: Piece, tail: string, n: nat, openLine: nat)
    requires ValidPiece(p)
    ensures StringFrom(At(RenderPiece(p) + tail, n), '"', openLine)
         == Prepend([p.c], StringFrom(At(tail, n), '"', openLine))
  {
    hide StringFrom, Prepend;
    if p.Bare? {
      PlainCharReads(p.c, tail, n, openLine);
    } else {
      var e := EscapeChar(p.c)[1];
      assert Escaped(e) == Some(p.c) && EscapeChar(p.c) == ['\\', e];
      EscapedCharReads(e, p.c, tail, n, openLine);
    }
  }

  lemma {:induction false} LiteralReads(s: string, rest: string, n: nat, openLine: nat)
    requires Free(s, '\'') && Free(s, '\n')
    ensures StringFrom(At(s + "'" + rest, n), '\'', openLine) == Ok(s, At(rest, n))
  {
    var all := s + "'" + rest;
    if s == "" {
      assert all == "'" + rest && all[1..] == rest;
    } else {
      assert all[1..] == s[1..] + "'" + rest;
      LiteralReads(s[1..], rest, n, openLine);
      assert [s[0]] + s[1..] == s;
    }
  }

  lemma Opens(quote: string, body: string, rest: string)
    requires |quote| == 1
    ensures (quote + body + quote + rest)[1..] == body + quote + rest
    ensures (quote + body + quote + rest)[0] == quote[0]
  {
  }

  lemma QuotedReads(q: QuotedText, rest: string, n: nat)
    requires ValidQuoted(q)
    ensures IsQuote((RenderQuoted(q) + rest)[0])
    ensures Quoted(At(RenderQuoted(q) + rest, n)) == Ok(Unquoted(q), At(rest, n))
  {
    hide StringFrom, RenderPieces, Chars;
    match q
    case Basic(pieces) =>
      Opens("\"", RenderPieces(pieces), rest);
      BasicReads(pieces, rest, n, n);
    case Literal(text) =>
      Opens("'", text, rest);
      LiteralReads(text, rest, n, n);
  }

  lemma {:induction false} PiecesHaveNoNewline(pieces: seq<Piece>)
    requires forall i :: 0 <= i < |pieces| ==> ValidPiece(pieces[i])
    ensures Newlines(RenderPieces(pieces)) == 0
  {
    if pieces != [] {
      PiecesHaveNoNewline(pieces[1..]);
      FreeHasNone(RenderPiece(pieces[0]));
      NewlinesConcat(RenderPiece(pieces[0]), RenderPieces(pieces[1..]));
    }
  }

  // A printed string never spans lines, whatever it holds.
  lemma QuotedHasNoNewline(q: QuotedText)
    requires ValidQuoted(q)
    ensures Newlines(RenderQuoted(q)) == 0
  {
    hide Newlines;
    FreeHasNone("\"");
    FreeHasNone("'");
    match q
    case Basic(pieces) =>
      PiecesHaveNoNewline(pieces);
      NewlinesConcat("\"", RenderPieces(pieces));
      NewlinesConcat("\"" + RenderPieces(pieces), "\"");
    case Literal(text) =>
      FreeHasNone(text);
      NewlinesConcat("'", text);
      NewlinesConcat("'" + text, "'");
  }

  // ---- Arrays read back ---------------------------------------------------------------------

  lemma ElementsNewlines(elements: seq<Element>, comma: bool, close: string)
    requires elements != [] && ValidElement(elements[0])
    ensures Newlines(RenderElements(elements, comma, close))
         == Newlines(elements[0].lead) + Newlines(elements[0].trail)
            + Newlines(RenderElements(elements[1..], comma, close))
  {
    hide Newlines, RenderQuoted, ValidQuoted, Trivia;
    var e, tail := elements[0], RenderElements(elements[1..], comma, close);
    var sep := if |elements| > 1 || comma then "," else "";
    QuotedHasNoNewline(e.text);
    FreeHasNone(sep);
    NewlinesConcat(e.lead, RenderQuoted(e.text));
    NewlinesConcat(e.lead + RenderQuoted(e.text), e.trail);
    NewlinesConcat(e.lead + RenderQuoted(e.text) + e.trail, sep);
    NewlinesConcat(e.lead + RenderQuoted(e.text) + e.trail + sep, tail);
  }

  lemma ClosingNewlines(close: string)
    ensures Newlines(close + "]") == Newlines(close)
  {
    NewlinesConcat(close, "]");
    FreeHasNone("]");
  }

  // What the reader makes of the place after an entry and the trivia behind it.
  function AfterElement(item: Listed, c: State, openLine: nat): Outcome<seq<Listed>> {
    if StartsWith(c.rest, ',') then Prepend([item], ArrayFrom(Bump(c), openLine))
    else if StartsWith(c.rest, ']') then Ok([item], Bump(c))
    else if c.rest == "" then Err(openLine, UnterminatedArray)
    else Err(c.line, ExpectedComma(c.rest[0]))
  }

  // Up to the end of an entry's string, and what may come after it.
  lemma ElementReads(e: Element, rest: string, n: nat, openLine: nat)
    requires ValidElement(e)
    ensures ArrayFrom(At(e.lead + RenderQuoted(e.text) + rest, n), openLine)
         == AfterElement(Listed(Unquoted(e.text), n + Newlines(e.lead)), SkipTrivia(At(rest, n + Newlines(e.lead))),
                         openLine)
  {
    hide Newlines, RenderQuoted, Trivia, SkipTrivia, Quoted;
    QuotedReads(e.text, rest, n + Newlines(e.lead));
    TriviaPassed(e.lead, RenderQuoted(e.text) + rest, n);
    assert e.lead + RenderQuoted(e.text) + rest == e.lead + (RenderQuoted(e.text) + rest);
  }

  lemma NoElements(comma: bool, close: string)
    ensures RenderElements([], comma, close) == close + "]"
  {
  }

  // An entry with a comma behind it.
  lemma CommaReads(item: Listed, trail: string, rest: string, n: nat, openLine: nat)
    requires Trivia(trail)
    ensures AfterElement(item, SkipTrivia(At(trail + "," + rest, n)), openLine)
         == Prepend([item], ArrayFrom(At(rest, n + Newlines(trail)), openLine))
  {
    hide Newlines, Trivia, SkipTrivia, ArrayFrom;
    assert trail + "," + rest == trail + ("," + rest) && ("," + rest)[1..] == rest;
    TriviaPassed(trail, "," + rest, n);
  }

  // The last entry, with none.
  lemma CloseReads(item: Listed, trail: string, close: string, rest: string, n: nat, openLine: nat)
    requires Trivia(trail) && Trivia(close)
    ensures AfterElement(item, SkipTrivia(At(trail + close + "]" + rest, n)), openLine)
         == Ok([item], At(rest, n + Newlines(trail) + Newlines(close)))
  {
    hide Newlines, Trivia, SkipTrivia, ArrayFrom;
    TriviaConcat(trail, close);
    NewlinesConcat(trail, close);
    assert trail + close + "]" + rest == (trail + close) + ("]" + rest) && ("]" + rest)[1..] == rest;
    TriviaPassed(trail + close, "]" + rest, n);
  }

  lemma EmptyReads(close: string, rest: string, n: nat, openLine: nat)
    requires Trivia(close)
    ensures ArrayFrom(At(close + "]" + rest, n), openLine) == Ok([], At(rest, n + Newlines(close + "]")))
  {
    hide Newlines, Trivia, SkipTrivia, Quoted;
    ClosingNewlines(close);
    assert close + "]" + rest == close + ("]" + rest) && ("]" + rest)[1..] == rest;
    TriviaPassed(close, "]" + rest, n);
  }

  lemma ElementsSplit(elements: seq<Element>, comma: bool, close: string, rest: string)
    requires elements != []
    ensures var e, tail := elements[0], RenderElements(elements[1..], comma, close);
            var behind :=
              if |elements| > 1 || comma then e.trail + "," + (tail + rest) else e.trail + close + "]" + rest;
            RenderElements(elements, comma, close) + rest == e.lead + RenderQuoted(e.text) + behind
  {
  }

  lemma {:induction false} ArrayReads(elements: seq<Element>, comma: bool, close: string, rest: string, n: nat,
                                      openLine: nat)
    requires Trivia(close) && forall i :: 0 <= i < |elements| ==> ValidElement(elements[i])
    ensures var text := RenderElements(elements, comma, close);
            ArrayFrom(At(text + rest, n), openLine) == Ok(ExpectedItems(elements, n), At(rest, n + Newlines(text)))
    decreases |elements|
  {
    hide Newlines, RenderQuoted, ValidElement, Trivia, SkipTrivia, ArrayFrom, AfterElement, RenderElements;
    if elements == [] {
      assert RenderElements(elements, comma, close) == close + "]" by { NoElements(comma, close); }
      EmptyReads(close, rest, n, openLine);
    } else {
      var e, more := elements[0], elements[1..];
      var tail, here := RenderElements(more, comma, close), n + Newlines(e.lead);
      var item := Listed(Unquoted(e.text), here);
      ElementsNewlines(elements, comma, close);
      ValidParts(e);
      ElementsSplit(elements, comma, close, rest);
      if |elements| > 1 || comma {
        ElementReads(e, e.trail + "," + (tail + rest), n, openLine);
        CommaReads(item, e.trail, tail + rest, here, openLine);
        ArrayReads(more, comma, close, rest, here + Newlines(e.trail), openLine);
      } else {
        ElementReads(e, e.trail + close + "]" + rest, n, openLine);
        CloseReads(item, e.trail, close, rest, here, openLine);
        LastElement(elements, comma, close, n);
      }
    }
  }

  lemma LastElement(elements: seq<Element>, comma: bool, close: string, n: nat)
    requires |elements| == 1
    ensures ExpectedItems(elements, n) == [Listed(Unquoted(elements[0].text), n + Newlines(elements[0].lead))]
    ensures Newlines(RenderElements(elements[1..], comma, close)) == Newlines(close)
  {
    hide Newlines;
    assert elements[1..] == [];
    ClosingNewlines(close);
  }

  lemma ValidParts(e: Element)
    requires ValidElement(e)
    ensures Trivia(e.lead) && Trivia(e.trail) && ValidQuoted(e.text)
  {
  }

  // ---- Values read back -----------------------------------------------------------------------

  lemma EndOfLineReads(tail: string, rest: string, n: nat)
    requires Blanks(tail) && EndsEntry(rest)
    ensures EndOfLine(At(tail + rest, n)) == Ok((), At(rest, n))
  {
    hide SkipBlanks;
    BlanksPassed(tail, rest, n);
  }

  lemma {:induction false} WordLengthIs(word: string, rest: string)
    requires forall i :: 0 <= i < |word| ==> !EndsWord(word[i])
    requires rest == "" || EndsWord(rest[0])
    ensures WordLength(word + rest) == |word|
  {
    if word == "" {
      assert word + rest == rest;
    } else {
      assert (word + rest)[1..] == word[1..] + rest;
      WordLengthIs(word[1..], rest);
    }
  }

  lemma {:induction false} SpacesTrimmed(word: string, tail: string)
    requires (forall i :: 0 <= i < |tail| ==> IsSpace(tail[i])) && word != "" && !IsSpace(word[|word| - 1])
    ensures TrimEnd(word + tail) == word
    decreases |tail|
  {
    if tail == "" {
      assert word + tail == word;
    } else {
      var all, front := word + tail, tail[..|tail| - 1];
      assert all[..|all| - 1] == word + front && all[|all| - 1] == tail[|tail| - 1];
      SpacesTrimmed(word, front);
    }
  }

  // A value and its line's end: the reader stops where the line ends.
  lemma ValueReads(v: Printed, tail: string, rest: string, n: nat)
    requires ValidPrinted(v) && ValidTail(v, tail) && EndsEntry(rest)
    ensures var r := ReadValue(At(RenderValue(v) + tail + rest, n));
            r.Ok? && r.value == ExpectedValue(v, n)
            && EndOfLine(r.next) == Ok((), At(rest, n + Newlines(RenderValue(v))))
  {
    hide Newlines, ReadValue, EndOfLine, RenderQuoted, RenderElements, ExpectedItems, ValidQuoted, Trivia, Blanks,
         EndsEntry;
    match v
    case Quote(text) => QuoteValueReads(text, tail, rest, n);
    case Flag(truth) => FlagValueReads(truth, tail, rest, n);
    case Items(elements, comma, close) => ListValueReads(elements, comma, close, tail, rest, n);
  }

  lemma QuoteValueReads(q: QuotedText, tail: string, rest: string, n: nat)
    requires ValidQuoted(q) && Blanks(tail) && EndsEntry(rest)
    ensures ReadValue(At(RenderQuoted(q) + tail + rest, n)) == Ok(Str(Unquoted(q)), At(tail + rest, n))
    ensures EndOfLine(At(tail + rest, n)) == Ok((), At(rest, n + Newlines(RenderQuoted(q))))
  {
    hide Newlines, RenderQuoted, ValidQuoted, Quoted, EndOfLine, Blanks, Unquoted;
    QuotedReads(q, tail + rest, n);
    QuotedHasNoNewline(q);
    EndOfLineReads(tail, rest, n);
    assert RenderQuoted(q) + tail + rest == RenderQuoted(q) + (tail + rest);
  }

  lemma WordReads(word: string, tail: string, rest: string)
    requires word != "" && !IsSpace(word[|word| - 1]) && forall i :: 0 <= i < |word| ==> !EndsWord(word[i])
    requires (forall i :: 0 <= i < |tail| ==> IsSpace(tail[i]) && tail[i] != '\n') && EndsEntry(rest)
    ensures var all := word + tail + rest;
            var n := WordLength(all);
            TrimEnd(all[..n]) == word && all[n..] == rest
  {
    hide TrimEnd, WordLength;
    forall i | 0 <= i < |word + tail| ensures !EndsWord((word + tail)[i]) {
      assert i >= |word| ==> (word + tail)[i] == tail[i - |word|];
    }
    WordLengthIs(word + tail, rest);
    SplitBack(word + tail, rest);
    SpacesTrimmed(word, tail);
  }

  lemma FlagValueReads(truth: bool, tail: string, rest: string, n: nat)
    requires ValidTail(Flag(truth), tail) && EndsEntry(rest)
    ensures var word := if truth then "true" else "false";
            ReadValue(At(word + tail + rest, n)) == Ok(Bool(truth), At(rest, n))
            && EndOfLine(At(rest, n)) == Ok((), At(rest, n + Newlines(word)))
  {
    hide Newlines, EndOfLine, TrimEnd, IsSpace, WordLength, Blanks, EndsEntry;
    var word := if truth then "true" else "false";
    FreeHasNone(word);
    LettersAreNotSpace();
    WordReads(word, tail, rest);
    assert (word + tail + rest)[0] == word[0];
    NoBlanks();
    EndOfLineReads("", rest, n);
    assert "" + rest == rest;
  }

  lemma NoBlanks()
    ensures Blanks("")
  {
  }

  lemma LettersAreNotSpace()
    ensures !IsSpace('e')
  {
  }

  lemma ListDispatch(s: State)
    requires StartsWith(s.rest, '[')
    ensures var a := ArrayFrom(Bump(s), s.line);
            a.Ok? ==> ReadValue(s) == Ok(List(a.value), a.next)
  {
  }

  lemma ListValueReads(elements: seq<Element>, comma: bool, close: string, tail: string, rest: string, n: nat)
    requires ValidPrinted(Items(elements, comma, close)) && Blanks(tail) && EndsEntry(rest)
    ensures var text := "[" + RenderElements(elements, comma, close);
            ReadValue(At(text + tail + rest, n))
            == Ok(List(ExpectedItems(elements, n)), At(tail + rest, n + Newlines(text)))
            && EndOfLine(At(tail + rest, n + Newlines(text))) == Ok((), At(rest, n + Newlines(text)))
  {
    hide Newlines, EndOfLine, ValidElement, Trivia, ArrayFrom, Blanks, ReadValue, RenderElements, ExpectedItems;
    var body := RenderElements(elements, comma, close);
    var all := "[" + body + tail + rest;
    NewlinesConcat("[", body);
    FreeHasNone("[");
    ArrayReads(elements, comma, close, tail + rest, n, n);
    assert all[1..] == body + (tail + rest);
    ListDispatch(At(all, n));
    EndOfLineReads(tail, rest, n + Newlines(body));
  }

  // ---- Lines and whole texts read back ----------------------------------------------------------

  lemma EntriesAfterTrivia(a: State, b: State)
    requires SkipTrivia(a) == SkipTrivia(b)
    ensures EntriesFrom(a) == EntriesFrom(b)
  {
  }

  function LineBody(l: Line): string {
    l.before + "=" + l.after + RenderValue(l.value) + l.tail
  }

  lemma BodySplits(l: Line, rest: string)
    ensures LineBody(l) + rest == l.before + ("=" + (l.after + (RenderValue(l.value) + l.tail + rest)))
    ensures ("=" + (l.after + (RenderValue(l.value) + l.tail + rest)))[1..]
         == l.after + (RenderValue(l.value) + l.tail + rest)
  {
    hide RenderValue;
  }

  lemma BodyReads(l: Line, rest: string, n: nat)
    requires ValidLine(l) && EndsEntry(rest)
    ensures var c := SkipBlanks(At(LineBody(l) + rest, n));
            StartsWith(c.rest, '=')
            && var r := ReadValue(SkipBlanks(Bump(c)));
               r.Ok? && r.value == ExpectedValue(l.value, n)
               && EndOfLine(r.next) == Ok((), At(rest, n + Newlines(RenderValue(l.value))))
  {
    hide Newlines, ValidPrinted, ReadValue, EndOfLine, SkipBlanks, Trivia, ValidKey, ExpectedValue, LineBody,
         RenderValue, Blanks, EndsEntry;
    var value := RenderValue(l.value) + l.tail + rest;
    BodySplits(l, rest);
    BlanksPassed(l.before, "=" + (l.after + value), n);
    ValueStarts(l.value, l.tail, rest);
    BlanksPassed(l.after, value, n);
    ValueReads(l.value, l.tail, rest, n);
  }

  lemma ValueStarts(v: Printed, tail: string, rest: string)
    ensures var all := RenderValue(v) + tail + rest; all != "" && !IsBlank(all[0])
  {
  }

  lemma KeyIsSolid(key: string, rest: string)
    requires ValidKey(key)
    ensures Solid(key + rest) && (key + rest)[0] != '[' && key + rest != ""
  {
  }

  lemma BodyEndsKey(l: Line, rest: string)
    requires Blanks(l.before)
    ensures var all := LineBody(l) + rest; all != "" && EndsKey(all[0])
  {
  }

  lemma LineReads(l: Line, rest: string, n: nat)
    requires ValidLine(l) && EndsEntry(rest)
    ensures EntriesFrom(At(l.lead + l.key + LineBody(l) + rest, n))
         == Prepend([EntryOf(l, n)], EntriesFrom(At(rest, n + Newlines(l.lead) + Newlines(RenderValue(l.value)))))
  {
    hide Newlines, ValidPrinted, ReadValue, EndOfLine, SkipBlanks, SkipTrivia, Trivia, ValidKey, ExpectedValue,
         LineBody, Key, RenderValue, Solid;
    var here, body := n + Newlines(l.lead), LineBody(l) + rest;
    assert l.lead + l.key + LineBody(l) + rest == l.lead + (l.key + body);
    KeyIsSolid(l.key, body);
    TriviaPassed(l.lead, l.key + body, n);
    BodyEndsKey(l, rest);
    KeyReads(l.key, body, here);
    BodyReads(l, rest, here);
  }

  // A line's comment and newline lead on to the next line.
  lemma LineBreakPassed(comment: Option<string>, rest: string, n: nat)
    requires comment.Some? ==> Free(comment.value, '\n')
    ensures EndsEntry(RenderComment(comment) + "\n" + rest)
    ensures SkipTrivia(At(RenderComment(comment) + "\n" + rest, n)) == SkipTrivia(At(rest, n + 1))
  {
    var c := RenderComment(comment);
    assert ("\n" + rest)[1..] == rest;
    assert c + "\n" + rest == c + ("\n" + rest);
    if comment.Some? {
      CommentPassed(c, "\n" + rest, n);
    }
  }

  lemma LastCommentPassed(comment: Option<string>, n: nat)
    requires comment.Some? ==> Free(comment.value, '\n')
    ensures EndsEntry(RenderComment(comment))
    ensures SkipTrivia(At(RenderComment(comment), n)).rest == ""
  {
    var c := RenderComment(comment);
    if comment.Some? {
      CommentPassed(c, "", n);
      assert c + "" == c;
    }
  }

  lemma {:induction false} LastTriviaPassed(t: string, n: nat)
    requires LastTrivia(t)
    ensures SkipTrivia(At(t, n)).rest == ""
    decreases |t|
  {
    if t != "" {
      if IsWhite(t[0]) {
        LastTriviaPassed(t[1..], Bump(At(t, n)).line);
      } else {
        var k := CommentLength(t);
        assert t == t[..k] + t[k..];
        CommentPassed(t[..k], t[k..], n);
        LastTriviaPassed(t[k..], n);
      }
    }
  }

  lemma EndReads(end: Option<string>, n: nat)
    requires ValidEnd(end)
    ensures var r := EntriesFrom(At(RenderLines([], end), n)); r.Ok? && r.value == [] && r.next.rest == ""
  {
    hide Newlines, SkipTrivia, LastTrivia, Key, ReadValue;
    if end.Some? {
      LastTriviaPassed(end.value, n);
    } else {
      NoComment();
      LastCommentPassed(None, n);
    }
  }

  // What follows a line: the next line, or the end of the text.
  lemma AfterLine(l: Line, lines: seq<Line>, end: Option<string>, n: nat)
    requires lines != [] && l == lines[0] && ValidLine(l)
    ensures var rest := RenderComment(l.comment) + Break(lines, end) + RenderLines(lines[1..], end);
            EndsEntry(rest)
            && if Break(lines, end) == "\n" then
              EntriesFrom(At(rest, n)) == EntriesFrom(At(RenderLines(lines[1..], end), n + 1))
               else lines[1..] == [] && EntriesFrom(At(rest, n)).Ok? && EntriesFrom(At(rest, n)).value == []
                    && EntriesFrom(At(rest, n)).next.rest == ""
  {
    hide SkipTrivia, RenderValue, EndsEntry, RenderComment, LineBody, EntriesFrom;
    ValidComment(l);
    var more := RenderLines(lines[1..], end);
    if Break(lines, end) == "\n" {
      LineBreakPassed(l.comment, more, n);
      EntriesAfterTrivia(At(RenderComment(l.comment) + "\n" + more, n), At(more, n + 1));
    } else {
      assert more == "" && RenderComment(l.comment) + "" + more == RenderComment(l.comment);
      LastCommentPassed(l.comment, n);
      NothingLeft(At(RenderComment(l.comment), n));
    }
  }

  lemma NothingLeft(s: State)
    requires SkipTrivia(s).rest == ""
    ensures EntriesFrom(s) == Ok([], SkipTrivia(s))
  {
  }

  // Reading any well-formed spelling gives its keys, values and array entries in
  // order, each on its own line, and uses the text up.
  lemma {:induction false} SpelledReads(lines: seq<Line>, end: Option<string>, n: nat)
    requires ValidLines(lines) && ValidEnd(end)
    ensures var r := EntriesFrom(At(RenderLines(lines, end), n));
            r.Ok? && r.value == ExpectedEntries(lines, n) && r.next.rest == ""
    decreases |lines|
  {
    hide Newlines, ValidLine, ValidEnd, Trivia, RenderValue, EndsEntry, RenderComment, LineBody, EntriesFrom, EntryOf,
         RenderLines;
    if lines == [] {
      EndReads(end, n);
    } else {
      var l := lines[0];
      var rest := RenderComment(l.comment) + Break(lines, end) + RenderLines(lines[1..], end);
      var after := n + Newlines(l.lead) + Newlines(RenderValue(l.value));
      SpelledSplits(lines, end);
      AfterLine(l, lines, end, after);
      if Break(lines, end) == "\n" {
        SpelledReads(lines[1..], end, after + 1);
      }
      LineReads(l, rest, n);
    }
  }

  lemma NoComment()
    ensures RenderComment(None) == ""
  {
  }

  lemma ValidComment(l: Line)
    requires ValidLine(l)
    ensures l.comment.Some? ==> Free(l.comment.value, '\n')
  {
  }

  lemma Assoc(x: string, y: string, z: string)
    ensures x + y + z == x + (y + z)
  {
  }

  // Ten pieces in a row, the middle five and the last three taken together.
  lemma Regroup(x: string, b: string, e: string, f: string, v: string, t: string, c: string, r: string, m: string)
    ensures x + b + e + f + v + t + c + r + m == x + (b + e + f + v + t) + (c + r + m)
  {
    Assoc(x, b, e);
    Assoc(x, b + e, f);
    Assoc(x, b + e + f, v);
    Assoc(x, b + e + f + v, t);
    var y := x + (b + e + f + v + t);
    Assoc(y, c, r);
    Assoc(y, c + r, m);
  }

  lemma SpelledSplits(lines: seq<Line>, end: Option<string>)
    requires lines != []
    ensures RenderLines(lines, end)
         == lines[0].lead + lines[0].key + LineBody(lines[0])
            + (RenderComment(lines[0].comment) + Break(lines, end) + RenderLines(lines[1..], end))
  {
    hide RenderValue, RenderComment, Break;
    var l := lines[0];
    Regroup(l.lead + l.key, l.before, "=", l.after, RenderValue(l.value), l.tail, RenderComment(l.comment),
            Break(lines, end), RenderLines(lines[1..], end));
  }

  // ---- Byte-order marks ----------------------------------------------------------------------

  lemma {:induction false} BomsTrimmed(boms: string, text: string)
    requires (forall i :: 0 <= i < |boms| ==> boms[i] == BOM) && !StartsWith(text, BOM)
    ensures TrimBom(boms + text) == text
  {
    if boms == "" {
      assert boms + text == text;
    } else {
      assert (boms + text)[1..] == boms[1..] + text;
      BomsTrimmed(boms[1..], text);
    }
  }

  lemma SpelledHasNoBom(lines: seq<Line>, end: Option<string>)
    requires ValidLines(lines) && ValidEnd(end)
    ensures !StartsWith(RenderLines(lines, end), BOM)
  {
  }

  // However the file is laid out, and with or without byte-order marks in front,
  // reading it gives the settings it spells.
  lemma FileReads(boms: string, lines: seq<Line>, end: Option<string>)
    requires ValidLines(lines) && ValidEnd(end)
    requires forall i :: 0 <= i < |boms| ==> boms[i] == BOM
    ensures var r := EntriesFrom(At(TrimBom(boms + RenderLines(lines, end)), 1));
            r.Ok? && r.value == ExpectedEntries(lines, 1) && r.next.rest == ""
  {
    hide ValidLines, RenderLines, EntriesFrom, Trivia;
    SpelledHasNoBom(lines, end);
    BomsTrimmed(boms, RenderLines(lines, end));
    SpelledReads(lines, end, 1);
  }

  // ---- A canonical spelling --------------------------------------------------------------------

  datatype Plain = PlainStr(text: string) | PlainBool(truth: bool) | PlainList(items: seq<string>)

  datatype Setting = Setting(key: string, value: Plain)

  function NewLine(crlf: bool): string { if crlf then "\r\n" else "\n" }

  // A basic string with no more escapes than it needs.
  function Escaping(text: string): QuotedText {
    Basic(seq(|text|, i requires 0 <= i < |text| =>
      if |EscapeChar(text[i])| == 2 then Escape(text[i]) else Bare(text[i])))
  }

  // Basic strings throughout; an array's entries each on a line of their own.
  function CanonicalValue(v: Plain, crlf: bool): Printed {
    match v
    case PlainStr(text) => Quote(Escaping(text))
    case PlainBool(truth) => Flag(truth)
    case PlainList(items) =>
      var elements :=
        seq(|items|, i requires 0 <= i < |items| => Element(NewLine(crlf) + "  ", Escaping(items[i]), ""));
      Items(elements, true, NewLine(crlf))
  }

  function CanonicalLine(s: Setting, crlf: bool): Line {
    Line("", s.key, " ", " ", CanonicalValue(s.value, crlf), if crlf then "\r" else "", None)
  }

  function CanonicalLines(settings: seq<Setting>, crlf: bool): seq<Line> {
    seq(|settings|, i requires 0 <= i < |settings| => CanonicalLine(settings[i], crlf))
  }

  function Print(settings: seq<Setting>, crlf: bool): string {
    RenderLines(CanonicalLines(settings, crlf), Some(""))
  }

  // The settings behind what was read, its lines left off.
  function Texts(items: seq<Listed>): seq<string> {
    seq(|items|, i requires 0 <= i < |items| => items[i].value)
  }

  function PlainOf(v: Value): Plain {
    match v
    case Str(text) => PlainStr(text)
    case Bool(truth) => PlainBool(truth)
    case List(items) => PlainList(Texts(items))
  }

  function Settings(entries: seq<Entry>): seq<Setting> {
    seq(|entries|, i requires 0 <= i < |entries| => Setting(entries[i].key, PlainOf(entries[i].value)))
  }

  lemma {:induction false} ExpectedItemsAt(elements: seq<Element>, n: nat)
    ensures |ExpectedItems(elements, n)| == |elements|
    ensures forall i :: 0 <= i < |elements| ==> ExpectedItems(elements, n)[i].value == Unquoted(elements[i].text)
  {
    hide Newlines;
    if elements != [] {
      ExpectedItemsAt(elements[1..], n + Newlines(elements[0].lead) + Newlines(elements[0].trail));
    }
  }

  lemma {:induction false} ExpectedEntriesAt(lines: seq<Line>, n: nat)
    ensures |ExpectedEntries(lines, n)| == |lines|
    ensures forall i :: 0 <= i < |lines| ==> EntrySpells(ExpectedEntries(lines, n)[i], lines[i])
  {
    hide Newlines, RenderValue, ExpectedItems;
    if lines != [] {
      var next := n + Newlines(lines[0].lead) + Newlines(RenderValue(lines[0].value)) + 1;
      ExpectedEntriesAt(lines[1..], next);
      assert EntrySpells(EntryOf(lines[0], n), lines[0]);
    }
  }

  ghost predicate EntrySpells(e: Entry, l: Line) {
    e.key == l.key && exists n: nat :: e.value == ExpectedValue(l.value, n)
  }

  lemma CanonicalIsValid(s: Setting, crlf: bool)
    requires ValidKey(s.key)
    ensures ValidLine(CanonicalLine(s, crlf))
  {
    hide ValidKey, Trivia, ValidQuoted;
    LineBreaksAreTrivia(crlf);
    if s.value.PlainList? {
      var elements := CanonicalValue(s.value, crlf).elements;
      forall i | 0 <= i < |elements| ensures ValidElement(elements[i]) {
        assert elements[i].lead == NewLine(crlf) + "  " && elements[i].trail == "";
        EscapingIsValid(s.value.items[i]);
      }
    } else if s.value.PlainStr? {
      EscapingIsValid(s.value.text);
    }
  }

  lemma EscapingIsValid(text: string)
    ensures ValidQuoted(Escaping(text)) && Unquoted(Escaping(text)) == text
  {
    assert Unquoted(Escaping(text)) == text;
  }

  lemma LineBreaksAreTrivia(crlf: bool)
    ensures Trivia("") && Trivia(NewLine(crlf)) && Trivia(NewLine(crlf) + "  ")
  {
    TriviaOfWhite("");
    TriviaOfWhite(NewLine(crlf));
    TriviaOfWhite(NewLine(crlf) + "  ");
  }

  lemma {:induction false} TriviaOfWhite(s: string)
    requires forall i :: 0 <= i < |s| ==> IsWhite(s[i])
    ensures Trivia(s)
  {
    if s != "" {
      TriviaOfWhite(s[1..]);
    }
  }

  lemma CanonicalValueReads(v: Plain, crlf: bool, n: nat)
    ensures PlainOf(ExpectedValue(CanonicalValue(v, crlf), n)) == v
  {
    hide ExpectedItems, Escaping, Unquoted;
    if v.PlainStr? {
      EscapingIsValid(v.text);
    }
    if v.PlainList? {
      var elements := CanonicalValue(v, crlf).elements;
      ExpectedItemsAt(elements, n);
      var read := Texts(ExpectedItems(elements, n));
      forall i | 0 <= i < |read| ensures read[i] == v.items[i] {
        EscapingIsValid(v.items[i]);
        assert Unquoted(elements[i].text) == v.items[i];
      }
      assert read == v.items;
    }
  }

  // Every list of settings with valid keys, in whatever order and with whatever
  // text in its strings, survives printing and reading.
  lemma PrintedReads(settings: seq<Setting>, crlf: bool)
    requires forall i :: 0 <= i < |settings| ==> ValidKey(settings[i].key)
    ensures var r := EntriesFrom(At(TrimBom(Print(settings, crlf)), 1));
            r.Ok? && Settings(r.value) == settings
  {
    hide ValidKey, ValidLine, EntriesFrom, RenderLines, ExpectedValue, CanonicalValue, PlainOf, ExpectedEntries;
    var lines := CanonicalLines(settings, crlf);
    forall i | 0 <= i < |lines| ensures ValidLine(lines[i]) {
      CanonicalIsValid(settings[i], crlf);
    }
    assert "" + RenderLines(lines, Some("")) == RenderLines(lines, Some(""));
    FileReads("", lines, Some(""));
    ExpectedEntriesAt(lines, 1);
    var entries := ExpectedEntries(lines, 1);
    forall i | 0 <= i < |entries| ensures Settings(entries)[i] == settings[i] {
      assert EntrySpells(entries[i], lines[i]);
      var n: nat :| entries[i].value == ExpectedValue(lines[i].value, n);
      CanonicalValueReads(settings[i].value, crlf, n);
    }
  }
}

/** The reader of config.rs accepts nothing but what `ConfigPrinter` spells: from
    every text it reads, the layout and the spelling of each part are recovered. */
module ConfigGrammar {
  import opened Text
  import opened ConfigText
  import opened ConfigPrinter

  // ---- Layout recovered -----------------------------------------------------------

  lemma CutFirst(s: State)
    requires s.rest != ""
    ensures s.rest == [s.rest[0]] + Bump(s).rest && |Bump(s).rest| < |s.rest|
  {
  }

  lemma Longer(c: char, s: string)
    ensures Blanks("") && (IsBlank(c) && Blanks(s) ==> Blanks([c] + s))
    ensures Free("", '\n') && (c != '\n' && Free(s, '\n') ==> Free([c] + s, '\n'))
  {
  }

  lemma {:induction false} BlanksTaken(s: State) returns (b: string)
    ensures Blanks(b) && s.rest == b + SkipBlanks(s).rest
    decreases |s.rest|
  {
    hide Blanks, Bump, Free;
    b := "";
    Longer('x', b);
    if s.rest != "" && IsBlank(s.rest[0]) {
      CutFirst(s);
      var more := BlanksTaken(Bump(s));
      Longer(s.rest[0], more);
      b := [s.rest[0]] + more;
    }
  }

  lemma {:induction false} CommentTaken(s: State) returns (c: string)
    ensures Free(c, '\n') && s.rest == c + SkipComment(s).rest
    ensures SkipComment(s).rest == "" || SkipComment(s).rest[0] == '\n'
    decreases |s.rest|
  {
    hide Blanks, Bump, Free;
    c := "";
    Longer('x', c);
    if s.rest != "" && s.rest[0] != '\n' {
      CutFirst(s);
      var more := CommentTaken(Bump(s));
      Longer(s.rest[0], more);
      c := [s.rest[0]] + more;
    }
  }

  lemma {:induction false} CommentEnds(c: string, t: string)
    requires Free(c, '\n') && (t == "" || t[0] == '\n')
    ensures CommentLength(c + t) == |c|
  {
    if c != "" {
      assert (c + t)[1..] == c[1..] + t;
      CommentEnds(c[1..], t);
    } else {
      assert c + t == t;
    }
  }

  lemma CommentThenTrivia(c: string, t: string)
    requires Free(c, '\n') && StartsWith(c, '#') && (t == "" || t[0] == '\n')
    ensures LastTrivia(t) ==> LastTrivia(c + t)
    ensures Trivia(t) && t != "" ==> Trivia(c + t)
  {
    CommentEnds(c, t);
    SplitBack(c, t);
  }

  lemma WhiteThenTrivia(c: char, t: string)
    requires IsWhite(c)
    ensures LastTrivia(t) ==> LastTrivia([c] + t)
    ensures Trivia(t) ==> Trivia([c] + t)
  {
    assert ([c] + t)[1..] == t;
  }

  // What lies before the next token, or before the end of the text.
  lemma {:induction false} TriviaTaken(s: State) returns (t: string)
    ensures s.rest == t + SkipTrivia(s).rest
    ensures LastTrivia(t) && (SkipTrivia(s).rest != "" ==> Trivia(t))
    decreases |s.rest|
  {
    hide LastTrivia, Trivia;
    t := "";
    if s.rest != "" && IsWhite(s.rest[0]) {
      var more := TriviaTaken(Bump(s));
      WhiteThenTrivia(s.rest[0], more);
      t := [s.rest[0]] + more;
    } else if StartsWith(s.rest, '#') {
      var c := CommentTaken(s);
      var e := SkipComment(s);
      var more := TriviaTaken(e);
      if e.rest != "" {
        NewlineIsNoToken(e);
        assert more[0] == e.rest[0];
      }
      CommentThenTrivia(c, more);
      t := c + more;
      assert s.rest == c + (more + SkipTrivia(e).rest);
    } else {
      NothingIsTrivia();
    }
  }

  lemma NothingIsTrivia()
    ensures Trivia("") && LastTrivia("")
  {
  }

  lemma NewlineIsNoToken(s: State)
    requires StartsWith(s.rest, '\n')
    ensures |SkipTrivia(s).rest| < |s.rest|
  {
  }

  // ---- Strings recovered ------------------------------------------------------------

  lemma StringStep(s: State, quote: char, openLine: nat)
    requires StringFrom(s, quote, openLine).Ok?
    ensures s.rest != "" && s.rest[0] != '\n' && s.rest == [s.rest[0]] + Bump(s).rest
    ensures s.rest[0] == quote ==> StringFrom(s, quote, openLine).next == Bump(s)
    ensures s.rest[0] != quote && (s.rest[0] != '\\' || quote != '"') ==>
              var r := StringFrom(Bump(s), quote, openLine); r.Ok? && r.next == StringFrom(s, quote, openLine).next
  {
  }

  lemma EscapeStep(s: State, openLine: nat)
    requires StringFrom(s, '"', openLine).Ok? && StartsWith(s.rest, '\\')
    ensures Bump(s).rest != "" && Escaped(Bump(s).rest[0]).Some?
    ensures var r := StringFrom(Bump(Bump(s)), '"', openLine); r.Ok? && r.next == StringFrom(s, '"', openLine).next
    ensures s.rest == ['\\', Bump(s).rest[0]] + Bump(Bump(s)).rest
  {
    hide Escaped;
  }

  lemma {:induction false} BasicTaken(s: State, openLine: nat) returns (pieces: seq<Piece>)
    requires StringFrom(s, '"', openLine).Ok?
    ensures forall i :: 0 <= i < |pieces| ==> ValidPiece(pieces[i])
    ensures s.rest == RenderPieces(pieces) + "\"" + StringFrom(s, '"', openLine).next.rest
    decreases |s.rest|
  {
    hide StringFrom, Bump, ValidPiece, RenderPieces, Escaped;
    StringStep(s, '"', openLine);
    if s.rest[0] == '"' {
      pieces := [];
      NoPieces();
    } else if s.rest[0] == '\\' {
      EscapeStep(s, openLine);
      var e := Bump(s).rest[0];
      var c := Escaped(e).value;
      var more := BasicTaken(Bump(Bump(s)), openLine);
      pieces := [Escape(c)] + more;
      EscapeSpelled(e, c);
      FirstPiece(pieces);
    } else {
      var more := BasicTaken(Bump(s), openLine);
      pieces := [Bare(s.rest[0])] + more;
      BareSpelled(s.rest[0]);
      FirstPiece(pieces);
    }
  }

  lemma NoPieces()
    ensures RenderPieces([]) == ""
  {
  }

  lemma BareSpelled(c: char)
    requires c != '"' && c != '\\' && c != '\n'
    ensures ValidPiece(Bare(c))
  {
  }

  lemma EscapeSpelled(e: char, c: char)
    requires Escaped(e) == Some(c)
    ensures EscapeChar(c) == ['\\', e] && ValidPiece(Escape(c))
  {
  }

  lemma FirstPiece(pieces: seq<Piece>)
    requires pieces != []
    ensures RenderPieces(pieces) == RenderPiece(pieces[0]) + RenderPieces(pieces[1..])
  {
  }

  lemma {:induction false} LiteralTaken(s: State, openLine: nat) returns (text: string)
    requires StringFrom(s, '\'', openLine).Ok?
    ensures Free(text, '\'') && Free(text, '\n')
    ensures s.rest == text + "'" + StringFrom(s, '\'', openLine).next.rest
    decreases |s.rest|
  {
    text := "";
    if s.rest[0] == '\'' {
      assert s.rest == "'" + s.rest[1..];
    } else {
      var more := LiteralTaken(Bump(s), openLine);
      text := [s.rest[0]] + more;
      assert s.rest == [s.rest[0]] + Bump(s).rest;
    }
  }

  lemma QuotedTaken(s: State) returns (q: QuotedText)
    requires s.rest != "" && IsQuote(s.rest[0]) && Quoted(s).Ok?
    ensures ValidQuoted(q) && s.rest == RenderQuoted(q) + Quoted(s).next.rest
  {
    hide StringFrom, RenderPieces;
    var open := Bump(s);
    assert s.rest == [s.rest[0]] + open.rest;
    if s.rest[0] == '"' {
      var pieces := BasicTaken(open, open.line);
      q := Basic(pieces);
    } else {
      var text := LiteralTaken(open, open.line);
      q := Literal(text);
    }
  }

  // ---- Arrays recovered ---------------------------------------------------------------

  // Behind the trivia stands the bracket, or a string; then a comma or the bracket.
  lemma ArrayStep(s: State, openLine: nat)
    requires ArrayFrom(s, openLine).Ok?
    ensures var a := SkipTrivia(s);
            a.rest != "" && if a.rest[0] == ']' then ArrayFrom(s, openLine).next == Bump(a) else
              IsQuote(a.rest[0]) && Quoted(a).Ok?
              && var c := SkipTrivia(Quoted(a).next);
                 |c.rest| < |s.rest| && c.rest != "" && if c.rest[0] == ',' then
                   var r := ArrayFrom(Bump(c), openLine); r.Ok? && r.next == ArrayFrom(s, openLine).next
                 else
                   c.rest[0] == ']' && ArrayFrom(s, openLine).next == Bump(c)
  {
    hide SkipTrivia, Quoted;
  }

  lemma {:induction false} ArrayTaken(s: State, openLine: nat)
    returns (elements: seq<Element>, comma: bool, close: string)
    requires ArrayFrom(s, openLine).Ok?
    ensures Trivia(close) && forall i :: 0 <= i < |elements| ==> ValidElement(elements[i])
    ensures s.rest == RenderElements(elements, comma, close) + ArrayFrom(s, openLine).next.rest
    decreases |s.rest|
  {
    hide Trivia, LastTrivia, SkipTrivia, RenderQuoted, ValidQuoted, Quoted, ArrayFrom, RenderElements, Bump, IsQuote;
    ArrayStep(s, openLine);
    var lead := TriviaTaken(s);
    var a := SkipTrivia(s);
    if a.rest[0] == ']' {
      elements, comma, close := [], false, lead;
      NoElements(comma, close);
      CutFirst(a);
    } else {
      var q := QuotedTaken(a);
      var b := Quoted(a).next;
      var trail := TriviaTaken(b);
      var c := SkipTrivia(b);
      var e := Element(lead, q, trail);
      CutFirst(c);
      if c.rest[0] == ',' {
        var more;
        more, comma, close := ArrayTaken(Bump(c), openLine);
        elements := [e] + more;
        NoCommaToSpell(more, comma, close);
        comma := comma || more == [];
        CommaSpelled(e, more, comma, close);
      } else {
        elements, comma, close := [e], false, "";
        NothingIsTrivia();
        LastSpelled(e);
      }
    }
  }

  lemma NoCommaToSpell(more: seq<Element>, comma: bool, close: string)
    ensures more == [] ==> RenderElements(more, true, close) == RenderElements(more, comma, close)
  {
  }

  lemma CommaSpelled(e: Element, more: seq<Element>, comma: bool, close: string)
    requires comma || more != []
    ensures RenderElements([e] + more, comma, close)
         == e.lead + RenderQuoted(e.text) + e.trail + "," + RenderElements(more, comma, close)
  {
    assert ([e] + more)[1..] == more;
  }

  lemma LastSpelled(e: Element)
    ensures RenderElements([e], false, "") == e.lead + RenderQuoted(e.text) + e.trail + "]"
  {
    assert [e][1..] == [];
  }

  // ---- Values recovered -----------------------------------------------------------------

  lemma {:induction false} WordTaken(s: string)
    ensures forall i :: 0 <= i < WordLength(s) ==> !EndsWord(s[i])
    ensures WordLength(s) < |s| ==> EndsWord(s[WordLength(s)])
  {
    if s != "" && !EndsWord(s[0]) {
      WordTaken(s[1..]);
    }
  }

  // What trimming cuts off is space.
  lemma {:induction false} SpacesTaken(s: string) returns (spaces: string)
    ensures s == TrimEnd(s) + spaces && forall i :: 0 <= i < |spaces| ==> IsSpace(spaces[i])
  {
    hide IsSpace;
    if s != "" && IsSpace(s[|s| - 1]) {
      var more := SpacesTaken(s[..|s| - 1]);
      spaces := more + [s[|s| - 1]];
      assert s == s[..|s| - 1] + [s[|s| - 1]];
    } else {
      spaces := "";
      assert s == s + "";
    }
  }

  // A value, and what may stand behind it on its line.
  lemma FlagTaken(s: State) returns (v: Printed, tail: string)
    requires ReadValue(s).Ok? && ReadValue(s).value.Bool? && EndOfLine(ReadValue(s).next).Ok?
    ensures ValidPrinted(v) && ValidTail(v, tail) && EndsEntry(EndOfLine(ReadValue(s).next).next.rest)
    ensures s.rest == RenderValue(v) + tail + EndOfLine(ReadValue(s).next).next.rest
  {
    hide IsSpace, TrimEnd, WordLength, EndOfLine, Quoted, ArrayFrom;
    var n := WordLength(s.rest);
    var word, next := s.rest[..n], At(s.rest[n..], s.line);
    FlagIsWord(s);
    WordTaken(s.rest);
    tail := SpacesTaken(word);
    v := Flag(TrimEnd(word) == "true");
    forall i | 0 <= i < |tail| ensures tail[i] != '\n' {
      assert tail[i] == word[|TrimEnd(word)| + i];
    }
    EndsRightThere(next);
    assert s.rest == word + next.rest;
  }

  lemma FlagIsWord(s: State)
    requires ReadValue(s).Ok? && ReadValue(s).value.Bool?
    ensures var n := WordLength(s.rest);
            ReadValue(s).next == At(s.rest[n..], s.line)
            && (TrimEnd(s.rest[..n]) == "true" || TrimEnd(s.rest[..n]) == "false")
  {
    hide WordLength, TrimEnd, Quoted, ArrayFrom;
  }

  // Where a word ends no blank follows, so the line has to end there.
  lemma EndsRightThere(s: State)
    requires EndOfLine(s).Ok? && (s.rest != "" ==> EndsWord(s.rest[0]))
    ensures EndOfLine(s).next == s && EndsEntry(s.rest)
  {
  }

  lemma EndTaken(s: State) returns (tail: string)
    requires EndOfLine(s).Ok?
    ensures Blanks(tail) && s.rest == tail + EndOfLine(s).next.rest && EndsEntry(EndOfLine(s).next.rest)
  {
    hide SkipBlanks, Blanks;
    tail := BlanksTaken(s);
  }

  lemma StringValue(s: State)
    requires ReadValue(s).Ok? && ReadValue(s).value.Str?
    ensures s.rest != "" && IsQuote(s.rest[0]) && Quoted(s).Ok? && ReadValue(s).next == Quoted(s).next
  {
    hide Quoted, ArrayFrom;
  }

  lemma ListValue(s: State)
    requires ReadValue(s).Ok? && ReadValue(s).value.List?
    ensures StartsWith(s.rest, '[')
    ensures var r := ArrayFrom(Bump(s), Bump(s).line); r.Ok? && ReadValue(s).next == r.next
  {
    hide Quoted, ArrayFrom;
  }

  lemma ValueTaken(s: State) returns (v: Printed, tail: string)
    requires ReadValue(s).Ok? && EndOfLine(ReadValue(s).next).Ok?
    ensures ValidPrinted(v) && ValidTail(v, tail) && EndsEntry(EndOfLine(ReadValue(s).next).next.rest)
    ensures s.rest == RenderValue(v) + tail + EndOfLine(ReadValue(s).next).next.rest
  {
    hide ReadValue, EndOfLine, Quoted, ArrayFrom, RenderQuoted, RenderElements, ValidQuoted, ValidElement, Trivia,
         Blanks, EndsEntry, IsQuote;
    match ReadValue(s).value
    case Bool(_) => v, tail := FlagTaken(s);
    case Str(_) =>
      StringValue(s);
      var q := QuotedTaken(s);
      tail := EndTaken(ReadValue(s).next);
      v := Quote(q);
    case List(_) =>
      ListValue(s);
      var elements, comma, close := ArrayTaken(Bump(s), Bump(s).line);
      tail := EndTaken(ReadValue(s).next);
      v := Items(elements, comma, close);
      CutFirst(s);
  }

  // ---- Entries and whole texts recovered ------------------------------------------------------

  lemma {:induction false} KeyCharsTaken(s: string)
    ensures forall i :: 0 <= i < KeyLength(s) ==> IsKeyChar(s[i])
  {
    if s != "" && IsKeyChar(s[0]) {
      KeyCharsTaken(s[1..]);
    }
  }

  lemma KeyTaken(s: State)
    requires Key(s).Ok?
    ensures ValidKey(Key(s).value) && s.rest == Key(s).value + Key(s).next.rest
  {
    KeyCharsTaken(s.rest);
  }

  lemma EntryStep(a: State)
    requires ReadEntry(a).Ok?
    ensures Key(a).Ok?
    ensures var c := SkipBlanks(Key(a).next);
            StartsWith(c.rest, '=')
            && var v := ReadValue(SkipBlanks(Bump(c)));
               v.Ok? && EndOfLine(v.next).Ok? && ReadEntry(a).next == EndOfLine(v.next).next
  {
    hide Key, SkipBlanks, ReadValue, EndOfLine;
  }

  lemma EntryTaken(a: State, lead: string) returns (l: Line)
    requires ReadEntry(a).Ok? && Trivia(lead)
    ensures ValidLine(l) && l.lead == lead && l.comment == None && EndsEntry(ReadEntry(a).next.rest)
    ensures a.rest == l.key + LineBody(l) + ReadEntry(a).next.rest
  {
    hide ReadEntry, Key, SkipBlanks, ReadValue, EndOfLine, ValidKey, Blanks, ValidPrinted, ValidTail, RenderValue,
         EndsEntry, Trivia;
    EntryStep(a);
    KeyTaken(a);
    var key, b := Key(a).value, Key(a).next;
    var before := BlanksTaken(b);
    var c := SkipBlanks(b);
    CutFirst(c);
    var after := BlanksTaken(Bump(c));
    var v, tail := ValueTaken(SkipBlanks(Bump(c)));
    l := Line(lead, key, before, after, v, tail, None);
    var end := ReadEntry(a).next.rest;
    BodySplits(l, end);
    assert b.rest == before + ("=" + (after + (RenderValue(v) + tail + end)));
  }

  // The comment behind an entry, and whether a newline follows it.
  lemma CommentAfter(e: State) returns (comment: Option<string>, f: State)
    requires EndsEntry(e.rest)
    ensures comment.Some? ==> Free(comment.value, '\n')
    ensures e.rest == RenderComment(comment) + f.rest && (f.rest == "" || f.rest[0] == '\n')
    ensures SkipTrivia(e) == SkipTrivia(f)
  {
    if StartsWith(e.rest, '#') {
      var c := CommentTaken(e);
      comment, f := Some(c[1..]), SkipComment(e);
      assert c == "#" + c[1..];
    } else {
      comment, f := None, e;
    }
  }

  lemma EntriesStep(s: State)
    requires EntriesFrom(s).Ok?
    ensures var a := SkipTrivia(s);
            a.rest != "" ==> ReadEntry(a).Ok? && EntriesFrom(ReadEntry(a).next).Ok?
  {
    hide SkipTrivia, ReadEntry;
  }

  lemma OneLine(l: Line)
    ensures RenderLines([l], None) == l.lead + l.key + LineBody(l) + RenderComment(l.comment)
  {
    hide RenderComment, LineBody, RenderValue;
    SpelledSplits([l], None);
    assert [l][1..] == [] && RenderLines([], None) == "" && Break([l], None) == "";
  }

  lemma LineAndMore(l: Line, lines: seq<Line>, end: Option<string>)
    requires lines != [] || end.Some?
    ensures RenderLines([l] + lines, end)
         == l.lead + l.key + LineBody(l) + (RenderComment(l.comment) + "\n" + RenderLines(lines, end))
  {
    hide RenderComment, LineBody, RenderValue, RenderLines;
    SpelledSplits([l] + lines, end);
    assert ([l] + lines)[1..] == lines;
  }

  // Every text that reads is a spelling.
  lemma {:induction false} LinesTaken(s: State) returns (lines: seq<Line>, end: Option<string>)
    requires EntriesFrom(s).Ok?
    ensures ValidLines(lines) && ValidEnd(end) && s.rest == RenderLines(lines, end)
    decreases |s.rest|
  {
    hide SkipTrivia, ReadEntry, EntriesFrom, Trivia, LastTrivia, RenderLines, LineBody, ValidLine, EndsEntry,
         RenderComment;
    var t := TriviaTaken(s);
    var a := SkipTrivia(s);
    if a.rest == "" {
      lines, end := [], Some(t);
      OnlyTrivia(t);
    } else {
      EntriesStep(s);
      var e := ReadEntry(a).next;
      var l := EntryTaken(a, t);
      var comment, f := CommentAfter(e);
      var here := l.(comment := comment);
      WithComment(l, comment);
      if f.rest == "" {
        lines, end := [here], None;
        OneLine(here);
        assert s.rest == t + (l.key + LineBody(l) + RenderComment(comment));
      } else {
        CutFirst(f);
        NewlineSkipped(f);
        EntriesAfterTrivia(e, Bump(f));
        var more;
        more, end := LinesTaken(Bump(f));
        if more == [] && end.None? {
          end := Some("");
          NothingIsTrivia();
          OnlyTrivia("");
        }
        lines := [here] + more;
        LineAndMore(here, more, end);
        assert s.rest == t + (l.key + LineBody(l) + (RenderComment(comment) + "\n" + Bump(f).rest));
      }
    }
  }

  lemma OnlyTrivia(t: string)
    ensures RenderLines([], Some(t)) == t && RenderLines([], None) == ""
  {
  }

  lemma NewlineSkipped(f: State)
    requires StartsWith(f.rest, '\n')
    ensures SkipTrivia(f) == SkipTrivia(Bump(f))
  {
  }

  lemma WithComment(l: Line, comment: Option<string>)
    requires ValidLine(l) && (comment.Some? ==> Free(comment.value, '\n'))
    ensures ValidLine(l.(comment := comment)) && LineBody(l.(comment := comment)) == LineBody(l)
  {
  }

  // ---- What the reader accepts ------------------------------------------------------------------

  predicate Boms(s: string) {
    forall i :: 0 <= i < |s| ==> s[i] == BOM
  }

  // Byte-order marks, well-formed lines, and trivia to the end.
  ghost predicate Spells(input: string, boms: string, lines: seq<Line>, end: Option<string>) {
    Boms(boms) && ValidLines(lines) && ValidEnd(end) && input == boms + RenderLines(lines, end)
  }

  lemma {:induction false} BomsTaken(s: string) returns (boms: string)
    ensures Boms(boms) && s == boms + TrimBom(s)
  {
    boms := "";
    if StartsWith(s, BOM) {
      var more := BomsTaken(s[1..]);
      boms := [BOM] + more;
    }
  }

  // A file is accepted exactly when it is a spelling of some lines, and however
  // it is taken apart into lines, the entries and their line numbers are theirs.
  lemma AcceptsExactlySpellings(input: string)
    ensures EntriesFrom(At(TrimBom(input), 1)).Ok? <==> exists boms, lines, end :: Spells(input, boms, lines, end)
    ensures forall boms, lines, end :: Spells(input, boms, lines, end) ==>
              var r := EntriesFrom(At(TrimBom(input), 1));
              r.Ok? && r.value == ExpectedEntries(lines, 1) && r.next.rest == ""
  {
    hide EntriesFrom, TrimBom, ValidLines, ValidEnd, RenderLines, ExpectedEntries;
    forall boms, lines, end | Spells(input, boms, lines, end)
      ensures var r := EntriesFrom(At(TrimBom(input), 1));
              r.Ok? && r.value == ExpectedEntries(lines, 1) && r.next.rest == ""
    {
      FileReads(boms, lines, end);
    }
    if EntriesFrom(At(TrimBom(input), 1)).Ok? {
      var boms := BomsTaken(input);
      var lines, end := LinesTaken(At(TrimBom(input), 1));
      assert Spells(input, boms, lines, end);
    }
  }
}

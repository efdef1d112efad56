/** The reader of `cwtools.toml`, config.rs: a subset of TOML v1.0.0 (sections
    "Keys", "String" and "Array"), and the text it reads back. */
module ConfigText {
  import opened Text

  // ---- What reading yields ---------------------------------------------------------

  datatype Listed = Listed(value: string, line: nat)

  datatype Value = Str(text: string) | Bool(truth: bool) | List(items: seq<Listed>)

  datatype Entry = Entry(key: string, line: nat, value: Value)

  datatype Problem = ExpectedKey(found: char) | DottedKey(key: string) | InvalidKeyChar(key: string, c: char)
                   | ExpectedEquals(key: string) | TableHeader | InlineTable | ExpectedValue | BareWord(word: string)
                   | UnterminatedString | UnknownEscape(c: char) | UnterminatedArray | NotAString(c: char)
                   | ExpectedComma(c: char) | TrailingText(c: char)

  // The characters still to come, and the line they start on.
  datatype State = At(rest: string, line: nat)

  datatype Outcome<+T> = Ok(value: T, next: State) | Err(line: nat, problem: Problem)

  function Newlines(s: string): nat {
    if s == "" then 0 else (if s[0] == '\n' then 1 else 0) + Newlines(s[1..])
  }

  function Bump(s: State): State
    requires s.rest != ""
  {
    At(s.rest[1..], if s.rest[0] == '\n' then s.line + 1 else s.line)
  }

  // ---- Blanks, comments and line ends ------------------------------------------------

  predicate IsBlank(c: char) { c == ' ' || c == '\t' || c == '\r' }

  predicate IsWhite(c: char) { IsBlank(c) || c == '\n' }

  predicate IsQuote(c: char) { c == '"' || c == '\'' }

  predicate StartsWith(s: string, c: char) { s != "" && s[0] == c }

  function SkipBlanks(s: State): (r: State)
    ensures |r.rest| <= |s.rest|
    decreases |s.rest|
  {
    if s.rest != "" && IsBlank(s.rest[0]) then SkipBlanks(Bump(s)) else s
  }

  function SkipComment(s: State): (r: State)
    ensures |r.rest| <= |s.rest|
    ensures s.rest != "" && s.rest[0] != '\n' ==> |r.rest| < |s.rest|
    decreases |s.rest|
  {
    if s.rest != "" && s.rest[0] != '\n' then SkipComment(Bump(s)) else s
  }

  function SkipTrivia(s: State): (r: State)
    ensures |r.rest| <= |s.rest|
    decreases |s.rest|
  {
    if s.rest != "" && IsWhite(s.rest[0]) then SkipTrivia(Bump(s))
    else if StartsWith(s.rest, '#') then SkipTrivia(SkipComment(s))
    else s
  }

  function EndOfLine(s: State): (r: Outcome<()>)
    ensures r.Ok? ==> |r.next.rest| <= |s.rest|
  {
    var e := SkipBlanks(s);
    if e.rest == "" || e.rest[0] == '\n' || e.rest[0] == '#' then Ok((), e)
    else Err(e.line, TrailingText(e.rest[0]))
  }

  // ---- Keys ------------------------------------------------------------------------------

  predicate IsKeyChar(c: char) {
    'a' <= c <= 'z' || 'A' <= c <= 'Z' || '0' <= c <= '9' || c == '_' || c == '-'
  }

  // The characters that make up a key and the blanks, with their neighbours left out.
  lemma KeyCharactersAndBlanks()
    ensures forall c :: c in "azAZ09_-" ==> IsKeyChar(c)
    ensures forall c :: c in "@[`{/:.^,= \t\r\n" ==> !IsKeyChar(c)
    ensures forall c :: c in " \t\r" ==> IsBlank(c)
    ensures !IsBlank('\n') && IsWhite('\n') && forall c :: IsKeyChar(c) ==> !IsWhite(c)
    ensures forall c :: EndsWord(c) <==> c in "\n#,]"
  {
  }

  predicate EndsKey(c: char) { c == '=' || IsWhite(c) || c == '#' }

  function KeyLength(s: string): (n: nat)
    ensures n <= |s|
  {
    if s != "" && IsKeyChar(s[0]) then 1 + KeyLength(s[1..]) else 0
  }

  function Key(s: State): (r: Outcome<string>)
    ensures r.Ok? ==> |r.next.rest| < |s.rest|
  {
    var n := KeyLength(s.rest);
    var key, e := s.rest[..n], At(s.rest[n..], s.line);
    if key == "" then Err(s.line, ExpectedKey(if e.rest == "" then ' ' else e.rest[0]))
    else if StartsWith(e.rest, '.') then Err(s.line, DottedKey(key))
    else if e.rest != "" && !EndsKey(e.rest[0]) then Err(s.line, InvalidKeyChar(key, e.rest[0]))
    else Ok(key, e)
  }

  // ---- Values ----------------------------------------------------------------------------

  predicate EndsWord(c: char) { c == '\n' || c == '#' || c == ',' || c == ']' }

  function WordLength(s: string): (n: nat)
    ensures n <= |s|
  {
    if s != "" && !EndsWord(s[0]) then 1 + WordLength(s[1..]) else 0
  }

  function Escaped(c: char): Option<char> {
    if c == '"' then Some('"')
    else if c == '\\' then Some('\\')
    else if c == 'n' then Some('\n')
    else if c == 'r' then Some('\r')
    else if c == 't' then Some('\t')
    else None
  }

  function Prepend<T>(front: seq<T>, r: Outcome<seq<T>>): Outcome<seq<T>> {
    match r
    case Ok(value, next) => Ok(front + value, next)
    case Err(line, problem) => Err(line, problem)
  }

  // The rest of a string after its opening quote.
  function StringFrom(s: State, quote: char, openLine: nat): (r: Outcome<string>)
    ensures r.Ok? ==> |r.next.rest| < |s.rest|
    decreases |s.rest|
  {
    if s.rest == "" || s.rest[0] == '\n' then Err(openLine, UnterminatedString)
    else if s.rest[0] == quote then Ok("", Bump(s))
    else if s.rest[0] == '\\' && quote == '"' then
      var e := Bump(s);
      if e.rest == "" then Err(openLine, UnterminatedString)
      else
        match Escaped(e.rest[0])
        case Some(c) => Prepend([c], StringFrom(Bump(e), quote, openLine))
        case None => Err(Bump(e).line, UnknownEscape(e.rest[0]))
    else Prepend([s.rest[0]], StringFrom(Bump(s), quote, openLine))
  }

  function Quoted(s: State): (r: Outcome<string>)
    requires s.rest != "" && IsQuote(s.rest[0])
    ensures r.Ok? ==> |r.next.rest| < |s.rest|
  {
    StringFrom(Bump(s), s.rest[0], Bump(s).line)
  }

  // The rest of an array after its bracket.
  function ArrayFrom(s: State, openLine: nat): (r: Outcome<seq<Listed>>)
    ensures r.Ok? ==> |r.next.rest| < |s.rest|
    decreases |s.rest|
  {
    var a := SkipTrivia(s);
    if a.rest == "" then Err(openLine, UnterminatedArray)
    else if a.rest[0] == ']' then Ok([], Bump(a))
    else if !IsQuote(a.rest[0]) then Err(a.line, NotAString(a.rest[0]))
    else
      match Quoted(a)
      case Err(line, problem) => Err(line, problem)
      case Ok(value, b) =>
        var c := SkipTrivia(b);
        if StartsWith(c.rest, ',') then Prepend([Listed(value, a.line)], ArrayFrom(Bump(c), openLine))
        else if StartsWith(c.rest, ']') then Ok([Listed(value, a.line)], Bump(c))
        else if c.rest == "" then Err(openLine, UnterminatedArray)
        else Err(c.line, ExpectedComma(c.rest[0]))
  }

  function ReadValue(s: State): (r: Outcome<Value>)
    ensures r.Ok? ==> |r.next.rest| <= |s.rest|
  {
    if s.rest != "" && IsQuote(s.rest[0]) then
      match Quoted(s)
      case Ok(text, next) => Ok(Str(text), next)
      case Err(line, problem) => Err(line, problem)
    else if StartsWith(s.rest, '[') then
      match ArrayFrom(Bump(s), Bump(s).line)
      case Ok(items, next) => Ok(List(items), next)
      case Err(line, problem) => Err(line, problem)
    else if StartsWith(s.rest, '{') then Err(s.line, InlineTable)
    else
      var n := WordLength(s.rest);
      var word, next := TrimEnd(s.rest[..n]), At(s.rest[n..], s.line);
      if word == "true" then Ok(Bool(true), next)
      else if word == "false" then Ok(Bool(false), next)
      else if word == "" then Err(s.line, ExpectedValue)
      else Err(s.line, BareWord(word))
  }

  // A key, its value, and nothing behind it on the line.
  function ReadEntry(a: State): (r: Outcome<Entry>)
    ensures r.Ok? ==> |r.next.rest| < |a.rest|
  {
    match Key(a)
    case Err(line, problem) => Err(line, problem)
    case Ok(key, b) =>
      var c := SkipBlanks(b);
      if !StartsWith(c.rest, '=') then Err(a.line, ExpectedEquals(key))
      else
        match ReadValue(SkipBlanks(Bump(c)))
        case Err(line, problem) => Err(line, problem)
        case Ok(value, d) =>
          match EndOfLine(d)
          case Err(line, problem) => Err(line, problem)
          case Ok(_, e) => Ok(Entry(key, a.line, value), e)
  }

  function EntriesFrom(s: State): Outcome<seq<Entry>>
    decreases |s.rest|
  {
    var a := SkipTrivia(s);
    if a.rest == "" then Ok([], a)
    else if a.rest[0] == '[' then Err(a.line, TableHeader)
    else
      match ReadEntry(a)
      case Err(line, problem) => Err(line, problem)
      case Ok(entry, e) => Prepend([entry], EntriesFrom(e))
  }

  const BOM: char := '\U{FEFF}'

  function TrimBom(s: string): string {
    if StartsWith(s, BOM) then TrimBom(s[1..]) else s
  }

  // ---- Where a token stands ---------------------------------------------------------------

  function LineAt(text: string, pos: nat): nat
    requires pos <= |text|
  {
    1 + Newlines(text[..pos])
  }

  // The state is a place in `text`, and its line is 1 plus the newlines before it.
  ghost predicate Tracks(text: string, s: State) {
    |s.rest| <= |text| && s.rest == text[|text| - |s.rest|..] && s.line == LineAt(text, |text| - |s.rest|)
  }

  // The places of one array entry: where looking for it began, its quote, and
  // what follows its string and the trivia behind that.
  datatype Span = Span(from: State, open: State, close: State)

  // The item is the string that opens where the trivia after `from` ends, on the
  // line of that place.
  ghost predicate ItemAt(text: string, item: Listed, span: Span) {
    && Tracks(text, span.from) && Tracks(text, span.open) && Tracks(text, span.close)
    && span.open == SkipTrivia(span.from) && span.open.rest != "" && IsQuote(span.open.rest[0])
    && Quoted(span.open).Ok? && item == Listed(Quoted(span.open).value, span.open.line)
    && span.close == SkipTrivia(Quoted(span.open).next)
  }

  // Behind the bracket or the last entry's comma.
  ghost function Onward(spans: seq<Span>, open: State): State
    requires spans != [] ==> spans[|spans| - 1].close.rest != ""
  {
    if spans == [] then open else Bump(spans[|spans| - 1].close)
  }

  // Each item is looked for from behind the bracket or the comma of the one
  // before it, and ends at a comma.
  ghost predicate CommaItemsAt(text: string, items: seq<Listed>, spans: seq<Span>, open: State) {
    && |spans| == |items|
    && (forall i :: 0 <= i < |spans| ==> ItemAt(text, items[i], spans[i]) && StartsWith(spans[i].close.rest, ','))
    && forall i :: 0 <= i < |spans| ==> spans[i].from == Onward(spans[..i], open)
  }

  // The array opened before `open` holds these items and ends before `end`: the
  // last item's comma may be missing.
  ghost predicate ItemsAt(text: string, items: seq<Listed>, spans: seq<Span>, open: State, end: State) {
    || (CommaItemsAt(text, items, spans, open)
        && var c := SkipTrivia(Onward(spans, open)); StartsWith(c.rest, ']') && end == Bump(c))
    || (|spans| == |items| > 0
        && var last := |spans| - 1;
           CommaItemsAt(text, items[..last], spans[..last], open)
           && spans[last].from == Onward(spans[..last], open) && ItemAt(text, items[last], spans[last])
           && StartsWith(spans[last].close.rest, ']') && end == Bump(spans[last].close))
  }

  // The places of one entry: the end of the one before it, its key, its equals
  // sign, its value, the strings of its array, and its own end.
  datatype Place = Place(from: State, key: State, equals: State, value: State, items: seq<Span>, end: State)

  // The key is the token that the trivia after `from` ends at, on the line of
  // that place; behind it come the equals sign, the value, and nothing else on
  // the value's line but blanks and a comment.
  ghost predicate EntryAt(text: string, e: Entry, place: Place) {
    && Tracks(text, place.from) && Tracks(text, place.key) && Tracks(text, place.value) && Tracks(text, place.end)
    && place.key == SkipTrivia(place.from) && e.line == place.key.line
    && Key(place.key).Ok? && Key(place.key).value == e.key
    && place.equals == SkipBlanks(Key(place.key).next) && StartsWith(place.equals.rest, '=')
    && place.value == SkipBlanks(Bump(place.equals))
    && ReadValue(place.value).Ok? && ReadValue(place.value).value == e.value
    && EndOfLine(ReadValue(place.value).next).Ok? && place.end == EndOfLine(ReadValue(place.value).next).next
    && if e.value.List? then
         StartsWith(place.value.rest, '[')
         && ItemsAt(text, e.value.items, place.items, Bump(place.value), ReadValue(place.value).next)
       else place.items == []
  }

  ghost function EndOf(places: seq<Place>, start: State): State {
    if places == [] then start else places[|places| - 1].end
  }

  // Each entry is looked for from the end of the one before it, and stands on a
  // later line.
  ghost predicate EntriesAt(text: string, entries: seq<Entry>, places: seq<Place>) {
    && |places| == |entries|
    && (forall i :: 0 <= i < |entries| ==> EntryAt(text, entries[i], places[i]))
    && (forall i :: 0 <= i < |places| ==> places[i].from == EndOf(places[..i], At(text, 1)))
    && forall i, j :: 0 <= i < j < |entries| ==> entries[i].line < entries[j].line
  }

  lemma {:induction false} NewlinesConcat(a: string, b: string)
    ensures Newlines(a + b) == Newlines(a) + Newlines(b)
  {
    if a == "" {
      assert a + b == b;
    } else {
      assert (a + b)[1..] == a[1..] + b;
      NewlinesConcat(a[1..], b);
    }
  }

  lemma BumpTracks(text: string, s: State)
    requires Tracks(text, s) && s.rest != ""
    ensures Tracks(text, Bump(s))
  {
    hide Newlines;
    var pos := |text| - |s.rest|;
    assert text[pos] == s.rest[0];
    assert text[..pos + 1] == text[..pos] + [text[pos]];
    NewlinesConcat(text[..pos], [text[pos]]);
    NewlinesOfOne(text[pos]);
    assert text[pos + 1..] == s.rest[1..];
  }

  lemma NewlinesOfOne(c: char)
    ensures Newlines([c]) == if c == '\n' then 1 else 0
  {
  }

  lemma OneMoreItem(text: string, items: seq<Listed>, spans: seq<Span>, open: State, item: Listed, span: Span)
    requires CommaItemsAt(text, items, spans, open) && span.from == Onward(spans, open)
    requires ItemAt(text, item, span) && StartsWith(span.close.rest, ',')
    ensures CommaItemsAt(text, items + [item], spans + [span], open) && Onward(spans + [span], open) == Bump(span.close)
  {
    hide ItemAt, Onward;
    var now := spans + [span];
    forall i | 0 <= i < |now| ensures now[i].from == Onward(now[..i], open) {
      assert now[..i] == if i < |spans| then spans[..i] else spans;
    }
    OnwardBehind(now, open);
  }

  lemma OnwardBehind(spans: seq<Span>, open: State)
    requires spans != [] && spans[|spans| - 1].close.rest != ""
    ensures Onward(spans, open) == Bump(spans[|spans| - 1].close)
  {
  }

  lemma LastItem(text: string, items: seq<Listed>, spans: seq<Span>, open: State, item: Listed, span: Span)
    requires CommaItemsAt(text, items, spans, open) && span.from == Onward(spans, open)
    requires ItemAt(text, item, span) && StartsWith(span.close.rest, ']')
    ensures ItemsAt(text, items + [item], spans + [span], open, Bump(span.close))
  {
    hide ItemAt, CommaItemsAt, Onward;
    CommaItems(text, items, spans, open);
    assert (items + [item])[..|spans|] == items && (spans + [span])[..|spans|] == spans;
  }

  lemma CommaItems(text: string, items: seq<Listed>, spans: seq<Span>, open: State)
    requires CommaItemsAt(text, items, spans, open)
    ensures |spans| == |items| && (spans != [] ==> spans[|spans| - 1].close.rest != "")
  {
  }

  lemma NewlinesGrow(text: string, p: nat, q: nat)
    requires p <= q <= |text|
    ensures LineAt(text, q) == LineAt(text, p) + Newlines(text[p..q])
  {
    assert text[..q] == text[..p] + text[p..q];
    NewlinesConcat(text[..p], text[p..q]);
  }

  // Between the end of an entry and the next token there is a newline.
  lemma {:induction false} CommentEndsAtNewline(s: State)
    ensures var r := SkipComment(s); r.line == s.line && (r.rest == "" || r.rest[0] == '\n')
    decreases |s.rest|
  {
    if s.rest != "" && s.rest[0] != '\n' {
      CommentEndsAtNewline(Bump(s));
    }
  }

  lemma {:induction false} TriviaLines(s: State)
    ensures s.line <= SkipTrivia(s).line
    decreases |s.rest|
  {
    if s.rest != "" && IsWhite(s.rest[0]) {
      TriviaLines(Bump(s));
    } else if StartsWith(s.rest, '#') {
      CommentEndsAtNewline(s);
      TriviaLines(SkipComment(s));
    }
  }

  lemma NextTokenIsLower(s: State)
    requires EndsEntry(s.rest)
    ensures SkipTrivia(s).rest != "" ==> s.line < SkipTrivia(s).line
  {
    if s.rest != "" {
      CommentEndsAtNewline(s);
      var e := SkipComment(s);
      if e.rest != "" {
        TriviaLines(Bump(e));
      }
    }
  }

  lemma OneMoreEntry(text: string, entries: seq<Entry>, places: seq<Place>, e: Entry, place: Place)
    requires EntriesAt(text, entries, places) && EntryAt(text, e, place) && place.from == EndOf(places, At(text, 1))
    requires entries != [] ==> entries[|entries| - 1].line < e.line
    ensures EntriesAt(text, entries + [e], places + [place]) && EndOf(places + [place], At(text, 1)) == place.end
  {
    hide EntryAt;
    var now := places + [place];
    forall i | 0 <= i < |now| ensures now[i].from == EndOf(now[..i], At(text, 1)) {
      assert now[..i] == if i < |places| then places[..i] else places;
    }
  }

  // ---- The reader ----------------------------------------------------------------------------

  class Reader {
    ghost const text: string
    var rest: string
    var line: nat

    ghost function Now(): State
      reads this
    {
      At(rest, line)
    }

    ghost predicate Valid()
      reads this
    {
      Tracks(text, Now())
    }

    constructor (input: string)
      ensures Valid() && text == TrimBom(input) && Now() == At(TrimBom(input), 1)
    {
      text, rest, line := TrimBom(input), TrimBom(input), 1;
      new;
      assert text[..0] == "";
    }

    method Next() returns (c: char)
      requires Valid() && rest != ""
      modifies this
      ensures Valid() && c == old(rest)[0] && Now() == Bump(old(Now()))
    {
      BumpTracks(text, Now());
      c := rest[0];
      rest := rest[1..];
      if c == '\n' {
        line := line + 1;
      }
    }

    method PassBlanks()
      requires Valid()
      modifies this
      ensures Valid() && Now() == SkipBlanks(old(Now()))
    {
      hide Tracks;
      while rest != "" && IsBlank(rest[0])
        invariant Valid() && SkipBlanks(Now()) == SkipBlanks(old(Now()))
        decreases |rest|
      {
        var _ := Next();
      }
    }

    method PassTrivia()
      requires Valid()
      modifies this
      ensures Valid() && Now() == SkipTrivia(old(Now()))
    {
      hide Tracks, SkipComment;
      while rest != "" && (IsWhite(rest[0]) || rest[0] == '#')
        invariant Valid() && SkipTrivia(Now()) == SkipTrivia(old(Now()))
        decreases |rest|
      {
        if rest[0] == '#' {
          PassComment();
        } else {
          var _ := Next();
        }
      }
    }

    method PassComment()
      requires Valid()
      modifies this
      ensures Valid() && Now() == SkipComment(old(Now()))
    {
      hide Tracks;
      while rest != "" && rest[0] != '\n'
        invariant Valid() && SkipComment(Now()) == SkipComment(old(Now()))
        decreases |rest|
      {
        var _ := Next();
      }
    }

    method PassEndOfLine() returns (r: Outcome<()>)
      requires Valid()
      modifies this
      ensures Valid() && r == EndOfLine(old(Now())) && (r.Ok? ==> Now() == r.next)
    {
      hide Tracks, SkipBlanks;
      PassBlanks();
      if rest == "" || rest[0] == '\n' || rest[0] == '#' {
        return Ok((), At(rest, line));
      }
      return Err(line, TrailingText(rest[0]));
    }

    method TakeKey() returns (r: Outcome<string>)
      requires Valid()
      modifies this
      ensures Valid() && r == Key(old(Now())) && (r.Ok? ==> Now() == r.next && r.value + rest == old(rest))
    {
      hide Tracks, EndsKey, IsWhite;
      var key := "";
      while rest != "" && IsKeyChar(rest[0])
        invariant Valid() && line == old(line)
        invariant key + rest == old(rest) && KeyLength(old(rest)) == |key| + KeyLength(rest)
        decreases |rest|
      {
        MoveOne(key, rest);
        var c := Next();
        key := key + [c];
      }
      SplitBack(key, rest);
      if key == "" {
        return Err(line, ExpectedKey(if rest == "" then ' ' else rest[0]));
      }
      if StartsWith(rest, '.') {
        return Err(line, DottedKey(key));
      }
      if rest != "" && !EndsKey(rest[0]) {
        return Err(line, InvalidKeyChar(key, rest[0]));
      }
      return Ok(key, At(rest, line));
    }

    // A bare token, blanks behind it cut off.
    method TakeWord() returns (word: string)
      requires Valid()
      modifies this
      ensures Valid()
      ensures var n := WordLength(old(rest));
              word == TrimEnd(old(rest)[..n]) && Now() == At(old(rest)[n..], old(line))
    {
      hide Tracks, TrimEnd;
      var out := "";
      while rest != "" && !EndsWord(rest[0])
        invariant Valid() && line == old(line)
        invariant out + rest == old(rest) && WordLength(old(rest)) == |out| + WordLength(rest)
        decreases |rest|
      {
        MoveOne(out, rest);
        var c := Next();
        out := out + [c];
      }
      SplitBack(out, rest);
      word := TrimEnd(out);
    }

    method TakeString() returns (r: Outcome<string>)
      requires Valid() && rest != "" && IsQuote(rest[0])
      modifies this
      ensures Valid() && r == Quoted(old(Now())) && (r.Ok? ==> Now() == r.next)
    {
      hide Tracks;
      var quote := Next();
      var openLine := line;
      var out := "";
      PrependNothing(StringFrom(Now(), quote, openLine));
      while true
        invariant Valid()
        invariant Quoted(old(Now())) == Prepend(out, StringFrom(Now(), quote, openLine))
        decreases |rest|
      {
        if rest == "" {
          return Err(openLine, UnterminatedString);
        }
        ghost var s := Now();
        var c := Next();
        if c == '\n' {
          return Err(openLine, UnterminatedString);
        }
        if c == quote {
          assert out + "" == out;
          return Ok(out, At(rest, line));
        }
        if c == '\\' && quote == '"' {
          if rest == "" {
            return Err(openLine, UnterminatedString);
          }
          var e := Next();
          match Escaped(e) {
            case Some(x) =>
              PrependTwice(out, x, StringFrom(Now(), quote, openLine));
              out := out + [x];
            case None =>
              return Err(line, UnknownEscape(e));
          }
        } else {
          PrependTwice(out, c, StringFrom(Now(), quote, openLine));
          out := out + [c];
        }
      }
    }

    // `spans` holds the places of the strings.
    method TakeArray() returns (r: Outcome<seq<Listed>>, ghost spans: seq<Span>)
      requires Valid() && StartsWith(rest, '[')
      modifies this
      ensures Valid() && r == ArrayFrom(Bump(old(Now())), Bump(old(Now())).line)
      ensures r.Ok? ==> Now() == r.next && ItemsAt(text, r.value, spans, Bump(old(Now())), r.next)
    {
      hide Tracks, SkipTrivia, Quoted, ItemAt, CommaItemsAt, Onward, LineAt, IsWhite;
      var _ := Next();
      var openLine := line;
      ghost var start := Now();
      var out := [];
      spans := [];
      NoItems(text, start);
      PrependNothing(ArrayFrom(Now(), openLine));
      while true
        invariant Valid() && CommaItemsAt(text, out, spans, start)
        invariant (spans != [] ==> spans[|spans| - 1].close.rest != "") && Now() == Onward(spans, start)
        invariant ArrayFrom(start, openLine) == Prepend(out, ArrayFrom(Now(), openLine))
        decreases |rest|
      {
        ghost var from := Now();
        PassTrivia();
        if rest == "" {
          return Err(openLine, UnterminatedArray), spans;
        }
        if rest[0] == ']' {
          var _ := Next();
          assert out + [] == out;
          return Ok(out, At(rest, line)), spans;
        }
        if !IsQuote(rest[0]) {
          return Err(line, NotAString(rest[0])), spans;
        }
        var here := line;
        ghost var open := Now();
        var s := TakeString();
        if s.Err? {
          return Err(s.line, s.problem), spans;
        }
        PassTrivia();
        var item := Listed(s.value, here);
        ghost var span := Span(from, open, Now());
        ItemRead(text, item, span);
        if rest == "" {
          return Err(openLine, UnterminatedArray), spans;
        }
        if rest[0] == ',' {
          OneMoreItem(text, out, spans, start, item, span);
          var _ := Next();
          PrependTwice(out, item, ArrayFrom(Now(), openLine));
          out, spans := out + [item], spans + [span];
        } else if rest[0] == ']' {
          LastItem(text, out, spans, start, item, span);
          var _ := Next();
          return Ok(out + [item], At(rest, line)), spans + [span];
        } else {
          return Err(line, ExpectedComma(rest[0])), spans;
        }
      }
    }

    method TakeValue() returns (r: Outcome<Value>, ghost spans: seq<Span>)
      requires Valid()
      modifies this
      ensures Valid() && r == ReadValue(old(Now()))
      ensures r.Ok? ==>
                && Now() == r.next
                && if r.value.List? then
                     StartsWith(old(rest), '[') && ItemsAt(text, r.value.items, spans, Bump(old(Now())), r.next)
                   else spans == []
    {
      hide Tracks, Quoted, ArrayFrom, WordLength, TrimEnd, ItemsAt;
      spans := [];
      if rest != "" && IsQuote(rest[0]) {
        var s := TakeString();
        match s {
          case Ok(value, next) => return Ok(Str(value), next), [];
          case Err(l, problem) => return Err(l, problem), [];
        }
      }
      if StartsWith(rest, '[') {
        var a;
        a, spans := TakeArray();
        match a {
          case Ok(items, next) => return Ok(List(items), next), spans;
          case Err(l, problem) => return Err(l, problem), [];
        }
      }
      if StartsWith(rest, '{') {
        return Err(line, InlineTable), [];
      }
      var word := TakeWord();
      if word == "true" {
        return Ok(Bool(true), At(rest, line)), [];
      } else if word == "false" {
        return Ok(Bool(false), At(rest, line)), [];
      } else if word == "" {
        return Err(line, ExpectedValue), [];
      } else {
        return Err(line, BareWord(word)), [];
      }
    }

    // One line's entry, looked for from `from`, and its places.
    method TakeEntry(ghost from: State) returns (r: Outcome<Entry>, ghost place: Place)
      requires Valid() && Tracks(text, from) && Now() == SkipTrivia(from)
      modifies this
      ensures Valid() && r == ReadEntry(old(Now()))
      ensures r.Ok? ==> Now() == r.next && EntryAt(text, r.value, place) && place.from == from && place.end == r.next
    {
      hide Tracks, SkipTrivia, SkipBlanks, Key, ReadValue, EndOfLine, ItemsAt;
      ghost var here := Now();
      place := Place(from, here, here, here, [], here);
      var first := line;
      var key := TakeKey();
      if key.Err? {
        return Err(key.line, key.problem), place;
      }
      PassBlanks();
      if !StartsWith(rest, '=') {
        return Err(first, ExpectedEquals(key.value)), place;
      }
      ghost var equals := Now();
      var _ := Next();
      PassBlanks();
      ghost var at := Now();
      var value;
      ghost var spans;
      value, spans := TakeValue();
      if value.Err? {
        return Err(value.line, value.problem), place;
      }
      var end := PassEndOfLine();
      if end.Err? {
        return Err(end.line, end.problem), place;
      }
      place := Place(from, here, equals, at, spans, Now());
      return Ok(Entry(key.value, first, value.value), At(rest, line)), place;
    }
  }

  lemma PrependNothing<T>(r: Outcome<seq<T>>)
    ensures Prepend([], r) == r
  {
    if r.Ok? {
      assert [] + r.value == r.value;
    }
  }

  lemma MoveOne(front: string, rest: string)
    requires rest != ""
    ensures front + rest == (front + [rest[0]]) + rest[1..]
  {
  }

  lemma SplitBack(front: string, rest: string)
    ensures (front + rest)[..|front|] == front && (front + rest)[|front|..] == rest
  {
  }

  lemma PrependTwice<T>(front: seq<T>, x: T, r: Outcome<seq<T>>)
    ensures Prepend(front, Prepend([x], r)) == Prepend(front + [x], r)
  {
    if r.Ok? {
      assert front + ([x] + r.value) == front + [x] + r.value;
    }
  }

  lemma NoItems(text: string, open: State)
    ensures CommaItemsAt(text, [], [], open) && Onward([], open) == open
  {
  }

  lemma ItemRead(text: string, item: Listed, span: Span)
    requires Tracks(text, span.from) && Tracks(text, span.open) && Tracks(text, span.close)
    requires span.open == SkipTrivia(span.from) && span.open.rest != "" && IsQuote(span.open.rest[0])
    requires Quoted(span.open).Ok? && item == Listed(Quoted(span.open).value, span.open.line)
    requires span.close == SkipTrivia(Quoted(span.open).next)
    ensures ItemAt(text, item, span)
  {
  }

  predicate EndsEntry(rest: string) {
    rest == "" || rest[0] == '\n' || rest[0] == '#'
  }

  lemma EndOfLineEnds(s: State)
    requires EndOfLine(s).Ok?
    ensures EndsEntry(EndOfLine(s).next.rest)
  {
  }

  lemma LaterLine(text: string, s: State, later: State)
    requires Tracks(text, s) && Tracks(text, later) && |later.rest| <= |s.rest|
    ensures s.line <= later.line
  {
    hide LineAt;
    NewlinesGrow(text, |text| - |s.rest|, |text| - |later.rest|);
  }

  // An entry's key is above its end, and the next token on a later line.
  lemma EntryEnds(text: string, e: Entry, place: Place)
    requires EntryAt(text, e, place)
    ensures e.line <= place.end.line
    ensures SkipTrivia(place.end).rest != "" ==> place.end.line < SkipTrivia(place.end).line
  {
    hide Tracks, SkipTrivia, SkipBlanks, Key, ReadValue, EndOfLine, ItemsAt, EndsEntry;
    LaterLine(text, place.key, place.end);
    EndOfLineEnds(ReadValue(place.value).next);
    NextTokenIsLower(place.end);
  }

  lemma NextEntryIsLower(text: string, entries: seq<Entry>, places: seq<Place>)
    requires EntriesAt(text, entries, places) && entries != []
    ensures var next := SkipTrivia(EndOf(places, At(text, 1)));
            next.rest != "" ==> entries[|entries| - 1].line < next.line
  {
    hide EntryAt, SkipTrivia;
    var last := |entries| - 1;
    EntryEnds(text, entries[last], places[last]);
  }

  lemma NoEntries(text: string)
    ensures EntriesAt(text, [], []) && EndOf([], At(text, 1)) == At(text, 1)
  {
  }

  // Reading a whole file: what the specification says, and the places of every
  // key and array entry, on the lines recorded for them, up to the text's end.
  method Parse(input: string) returns (r: Outcome<seq<Entry>>, ghost places: seq<Place>)
    ensures r == EntriesFrom(At(TrimBom(input), 1))
    ensures r.Ok? ==> EntriesAt(TrimBom(input), r.value, places)
    ensures r.Ok? ==> r.next == SkipTrivia(EndOf(places, At(TrimBom(input), 1))) && r.next.rest == ""
  {
    hide Tracks, SkipTrivia, ReadEntry, EntriesAt, EntryAt, EndOf;
    var reader := new Reader(input);
    ghost var start := reader.Now();
    var entries := [];
    places := [];
    NoEntries(reader.text);
    PrependNothing(EntriesFrom(start));
    while true
      invariant reader.Valid() && reader.text == TrimBom(input)
      invariant EntriesFrom(start) == Prepend(entries, EntriesFrom(reader.Now()))
      invariant EntriesAt(reader.text, entries, places) && reader.Now() == EndOf(places, At(reader.text, 1))
      decreases |reader.rest|
    {
      ghost var ended := reader.Now();
      reader.PassTrivia();
      if reader.rest == "" {
        assert entries + [] == entries;
        return Ok(entries, At(reader.rest, reader.line)), places;
      }
      if reader.rest[0] == '[' {
        return Err(reader.line, TableHeader), places;
      }
      if entries != [] {
        NextEntryIsLower(reader.text, entries, places);
      }
      ghost var here := reader.Now();
      var entry;
      ghost var place;
      entry, place := reader.TakeEntry(ended);
      if entry.Err? {
        return Err(entry.line, entry.problem), places;
      }
      EntryLine(reader.text, here, entry.value, place);
      OneMoreEntry(reader.text, entries, places, entry.value, place);
      PrependTwice(entries, entry.value, EntriesFrom(reader.Now()));
      entries, places := entries + [entry.value], places + [place];
    }
  }

  lemma EntryLine(text: string, here: State, e: Entry, place: Place)
    requires EntryAt(text, e, place) && here == SkipTrivia(place.from)
    ensures e.line == here.line
  {
  }
}

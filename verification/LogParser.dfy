/** Parsing JSONL bytes into events, and why appended bytes may be parsed on their own. */
module LogParser {
  import opened Options
  import opened Utf8
  import opened LogText
  import opened EventChain
  import opened Positions

  /** What one line is to the JSON decoder and the event contract. */
  datatype LineOutcome =
    | Blank
    | Parsed(event: Event)
    | BadFormat(message: string)    // EventFormatError: re-raised with the line number
    | NotAnEvent(message: string)   // JSON, type or contract error: re-raised with the line number
    | InvalidRecord(message: string) // a plain ValueError: escapes without a line number

  type LineParser = string -> LineOutcome

  datatype ParseError =
    | NotUtf8
    | AtLine(number: nat, outcome: LineOutcome)
    | Record(message: string)

  type ParseResult = Result<seq<Event>, ParseError>

  function LineError(outcome: LineOutcome, number: nat): Option<ParseError> {
    match outcome
    case Blank => None
    case Parsed(_) => None
    case BadFormat(_) => Some(AtLine(number, outcome))
    case NotAnEvent(_) => Some(AtLine(number, outcome))
    case InvalidRecord(message) => Some(Record(message))
  }

  function EventsOf(outcome: LineOutcome): seq<Event> {
    if outcome.Parsed? then [outcome.event] else []
  }

  /** `number` is the file's number for the first line. */
  function ParseLines(lines: seq<string>, number: nat, parser: LineParser): ParseResult {
    if lines == [] then Ok([])
    else
      var outcome := parser(lines[0]);
      match LineError(outcome, number)
      case Some(error) => Err(error)
      case None =>
        match ParseLines(lines[1..], number + 1, parser)
        case Err(error) => Err(error)
        case Ok(rest) => Ok(EventsOf(outcome) + rest)
  }

  function ParsedText(text: Option<string>, lineOffset: nat, parser: LineParser): ParseResult {
    match text
    case None => Err(NotUtf8)
    case Some(text) => ParseLines(SplitLines(text), lineOffset + 1, parser)
  }

  function ParsedEvents(data: Bytes, lineOffset: nat, parser: LineParser): ParseResult {
    ParsedText(Decode(data), lineOffset, parser)
  }

  /** The parsing loop of the source. */
  method ParseEvents(data: Bytes, lineOffset: nat, parser: LineParser) returns (result: ParseResult)
    ensures result == ParsedEvents(data, lineOffset, parser)
  {
    var text := Decode(data);
    if text.None? {
      return Err(NotUtf8);
    }
    var lines := SplitLines(text.value);
    var events: seq<Event> := [];
    assert lines[0..] == lines;
    PrependNothing(ParseLines(lines, lineOffset + 1, parser));
    for i := 0 to |lines|
      invariant ParseLines(lines, lineOffset + 1, parser)
             == Prepend(events, ParseLines(lines[i..], lineOffset + 1 + i, parser))
    {
      var outcome := parser(lines[i]);
      assert lines[i..][1..] == lines[i + 1..];
      var error := LineError(outcome, lineOffset + 1 + i);
      if error.Some? {
        return Err(error.value);
      }
      PrependJoins(events, EventsOf(outcome), ParseLines(lines[i + 1..], lineOffset + 2 + i, parser));
      events := events + EventsOf(outcome);
    }
    assert events + [] == events;
    result := Ok(events);
  }

  // ---- What parsing lines means, said without the loop ----

  /** The line is neither blank nor an event. */
  predicate IsBad(outcome: LineOutcome) {
    outcome.BadFormat? || outcome.NotAnEvent? || outcome.InvalidRecord?
  }

  ghost function ParsedAt(lines: seq<string>, parser: LineParser): nat -> bool {
    (k: nat) => k < |lines| && parser(lines[k]).Parsed?
  }

  /** The events of the lines at some positions. */
  ghost predicate EventsAt(lines: seq<string>, parser: LineParser, at: seq<nat>, events: seq<Event>) {
    |events| == |at| && forall i :: 0 <= i < |at| ==> at[i] < |lines| && parser(lines[at[i]]) == Parsed(events[i])
  }

  ghost predicate NoneBad(lines: seq<string>, parser: LineParser, n: nat)
    requires n <= |lines|
  {
    forall j :: 0 <= j < n ==> !IsBad(parser(lines[j]))
  }

  /** The line at `k` is the first bad one. */
  ghost predicate FirstBad(lines: seq<string>, parser: LineParser, k: nat) {
    k < |lines| && IsBad(parser(lines[k])) && NoneBad(lines, parser, k)
  }

  /** Of the first n lines: none is bad and the events are those of all lines that hold one, in order; or
      the first bad one is reported. */
  ghost predicate ParsedTo(
    lines: seq<string>, number: nat, parser: LineParser, n: nat, at: seq<nat>, result: ParseResult)
    requires n <= |lines|
  {
    match result
    case Ok(events) =>
      && NoneBad(lines, parser, n)
      && PositionsOf(n, ParsedAt(lines, parser), at) && EventsAt(lines, parser, at, events)
    case Err(error) =>
      exists k: nat :: k < n && FirstBad(lines, parser, k) && error == ErrorOf(parser(lines[k]), number + k)
  }

  lemma BlankNext(lines: seq<string>, number: nat, parser: LineParser, n: nat, at: seq<nat>, events: seq<Event>)
    requires n < |lines| && ParsedTo(lines, number, parser, n, at, Ok(events)) && parser(lines[n]) == Blank
    ensures ParsedTo(lines, number, parser, n + 1, at, Ok(events))
  {
    PositionsGrow(n, ParsedAt(lines, parser), at);
  }

  lemma EventNext(
    lines: seq<string>, number: nat, parser: LineParser, n: nat, at: seq<nat>, events: seq<Event>, e: Event)
    requires n < |lines| && ParsedTo(lines, number, parser, n, at, Ok(events)) && parser(lines[n]) == Parsed(e)
    ensures ParsedTo(lines, number, parser, n + 1, at + [n], Ok(events + [e]))
  {
    var holds := ParsedAt(lines, parser);
    assert holds(n);
    PositionsGrow(n, holds, at);
    EventsGrow(lines, parser, at, events, n, e);
  }

  lemma EventsGrow(lines: seq<string>, parser: LineParser, at: seq<nat>, events: seq<Event>, n: nat, e: Event)
    requires EventsAt(lines, parser, at, events) && n < |lines| && parser(lines[n]) == Parsed(e)
    ensures EventsAt(lines, parser, at + [n], events + [e])
  {
  }

  lemma BadNext(lines: seq<string>, number: nat, parser: LineParser, n: nat, at: seq<nat>, events: seq<Event>)
    requires n < |lines| && ParsedTo(lines, number, parser, n, at, Ok(events)) && IsBad(parser(lines[n]))
    ensures ParsedTo(lines, number, parser, n + 1, at, Err(ErrorOf(parser(lines[n]), number + n)))
  {
    assert FirstBad(lines, parser, n);
  }

  /** Parsing fails exactly at the first bad line, with that line's outcome and number, or, for a record
      the event contract refuses in a plain way, with its message alone; else it gives the events of all
      lines that hold one, in order. */
  lemma {:induction false} ParsesExactly(lines: seq<string>, number: nat, parser: LineParser, n: nat)
    returns (at: seq<nat>)
    requires n <= |lines|
    ensures ParsedTo(lines, number, parser, n, at, ParseLines(lines[..n], number, parser))
  {
    if n == 0 {
      at := [];
    } else {
      at := ParsesExactly(lines, number, parser, n - 1);
      var first := ParseLines(lines[..n - 1], number, parser);
      assert lines[..n] == lines[..n - 1] + [lines[n - 1]];
      ParseLinesConcat(lines[..n - 1], [lines[n - 1]], number, parser);
      if first.Ok? {
        ParseOneLine(lines[n - 1], number + (n - 1), parser);
        match parser(lines[n - 1])
        case Blank =>
          assert first.value + [] == first.value;
          BlankNext(lines, number, parser, n - 1, at, first.value);
        case Parsed(e) =>
          EventNext(lines, number, parser, n - 1, at, first.value, e);
          at := at + [n - 1];
        case _ =>
          BadNext(lines, number, parser, n - 1, at, first.value);
      }
    }
  }

  /** How a bad line is reported. */
  ghost function ErrorOf(outcome: LineOutcome, number: nat): ParseError
    requires IsBad(outcome)
  {
    if outcome.InvalidRecord? then Record(outcome.message) else AtLine(number, outcome)
  }

  lemma ParseOneLine(line: string, number: nat, parser: LineParser)
    ensures ParseLines([line], number, parser)
         == match parser(line)
            case Blank => Ok([])
            case Parsed(event) => Ok([event])
            case _ => Err(ErrorOf(parser(line), number))
  {
    assert [line][1..] == [];
    assert ParseLines([line][1..], number + 1, parser) == Ok([]);
    assert EventsOf(parser(line)) + [] == EventsOf(parser(line));
  }

  function Prepend(events: seq<Event>, result: ParseResult): ParseResult {
    match result
    case Err(_) => result
    case Ok(rest) => Ok(events + rest)
  }

  lemma PrependJoins(a: seq<Event>, b: seq<Event>, result: ParseResult)
    ensures Prepend(a, Prepend(b, result)) == Prepend(a + b, result)
  {
    if result.Ok? { assert a + (b + result.value) == a + b + result.value; }
  }

  /** Parse `a`, then `b` after it. */
  function ParseBoth(a: seq<string>, b: seq<string>, number: nat, parser: LineParser): ParseResult {
    var first := ParseLines(a, number, parser);
    if first.Err? then first else Prepend(first.value, ParseLines(b, number + |a|, parser))
  }

  lemma PrependNothing(result: ParseResult)
    ensures Prepend([], result) == result
  {
    if result.Ok? { assert [] + result.value == result.value; }
  }

  lemma {:induction false} ParseLinesConcat(a: seq<string>, b: seq<string>, number: nat, parser: LineParser)
    ensures ParseLines(a + b, number, parser) == ParseBoth(a, b, number, parser)
  {
    if a == [] {
      assert a + b == b;
      PrependNothing(ParseLines(b, number, parser));
    } else {
      assert (a + b)[1..] == a[1..] + b;
      ParseLinesConcat(a[1..], b, number + 1, parser);
      var first, rest := ParseLines(a[1..], number + 1, parser), ParseLines(b, number + |a|, parser);
      var head := EventsOf(parser(a[0]));
      if first.Ok? && rest.Ok? {
        assert head + (first.value + rest.value) == head + first.value + rest.value;
      }
    }
  }

  /** The same result, with line numbers moved from one origin to another. */
  function Renumber(result: ParseResult, from: nat, to: nat): ParseResult
    requires result.Err? && result.error.AtLine? ==> result.error.number >= from
  {
    if result.Err? && result.error.AtLine?
    then Err(result.error.(number := result.error.number - from + to))
    else result
  }

  lemma {:induction false} ParseLinesRenumbers(lines: seq<string>, from: nat, to: nat, parser: LineParser)
    ensures var result := ParseLines(lines, from, parser);
      && (result.Err? && result.error.AtLine? ==> result.error.number >= from)
      && ParseLines(lines, to, parser) == Renumber(result, from, to)
  {
    if lines != [] && LineError(parser(lines[0]), from) == None {
      ParseLinesRenumbers(lines[1..], from + 1, to + 1, parser);
    }
  }

  /** A file's lines, for a file that decodes. */
  function FileLines(data: Bytes): seq<string>
    requires Decode(data).Some?
  {
    SplitLines(Decode(data).value)
  }

  /** Once a prefix that ends a line parsed, the whole file parses exactly as its tail does, with the
      tail's lines numbered from the prefix's line count. */
  lemma ParseSplits(prefix: Bytes, tail: Bytes, parser: LineParser)
    requires EndsLine(prefix) && ParsedEvents(prefix, 0, parser).Ok?
    ensures ParsedEvents(prefix + tail, 0, parser)
         == Prepend(ParsedEvents(prefix, 0, parser).value, ParsedEvents(tail, |FileLines(prefix)|, parser))
  {
    DecodeSplitsAtNewline(prefix, tail);
    if prefix != [] { LastCharacter(prefix); }
    DecodedTextSplits(Decode(prefix), Decode(tail), Decode(prefix + tail), parser);
  }

  lemma DecodedTextSplits(a: Option<string>, b: Option<string>, ab: Option<string>, parser: LineParser)
    requires ab == if a.Some? && b.Some? then Some(a.value + b.value) else None
    requires a.Some? && (a.value == "" || a.value[|a.value| - 1] == '\n')
    requires ParsedText(a, 0, parser).Ok?
    ensures ParsedText(ab, 0, parser)
         == Prepend(ParsedText(a, 0, parser).value, ParsedText(b, |SplitLines(a.value)|, parser))
  {
    if b.Some? {
      TextSplits(a.value, b.value, parser);
    }
  }

  lemma TextSplits(a: string, b: string, parser: LineParser)
    requires CleanJoin(a, b)
    ensures ParseLines(SplitLines(a + b), 1, parser) == ParseBoth(SplitLines(a), SplitLines(b), 1, parser)
  {
    SplitLinesConcat(a, b);
    ParseLinesConcat(SplitLines(a), SplitLines(b), 1, parser);
  }

  lemma PrefixCount(prefix: Bytes)
    requires EndsLine(prefix) && Decode(prefix).Some?
    ensures CountNewlineBytes(prefix) == |FileLines(prefix)| <==> OnlyNewlineBreaks(Decode(prefix).value)
  {
    NewlinesAgree(prefix);
    if prefix != [] { LastCharacter(prefix); }
    NewlinesNumberLines(Decode(prefix).value);
  }

  /** The tail parse of the source counts newline bytes instead of lines. Events and the kind of
      error are unaffected; a numbered error carries the file's own number exactly when every line
      break of the prefix is a newline. */
  lemma TailNumbering(prefix: Bytes, tail: Bytes, parser: LineParser)
    requires EndsLine(prefix) && ParsedEvents(prefix, 0, parser).Ok?
    ensures var events := ParsedEvents(prefix, 0, parser).value;
      var whole := ParsedEvents(prefix + tail, 0, parser);
      var extended := ParsedEvents(tail, CountNewlineBytes(prefix), parser);
      && (whole.Ok? <==> extended.Ok?)
      && (whole.Ok? ==> whole.value == events + extended.value)
      && (whole.Err? && whole.error.AtLine? <==> extended.Err? && extended.error.AtLine?)
      && (whole.Err? && !whole.error.AtLine? ==> whole == extended)
      && (whole.Err? && whole.error.AtLine? ==>
            && whole.error.outcome == extended.error.outcome
            && (whole == extended <==> OnlyNewlineBreaks(Decode(prefix).value)))
  {
    ParseSplits(prefix, tail, parser);
    PrefixCount(prefix);
    TailRenumbers(tail, CountNewlineBytes(prefix), |FileLines(prefix)|, parser);
  }

  lemma TailRenumbers(tail: Bytes, from: nat, to: nat, parser: LineParser)
    ensures var a, b := ParsedEvents(tail, from, parser), ParsedEvents(tail, to, parser);
      && (a.Err? && a.error.AtLine? ==> a.error.number > from)
      && b == (if a.Err? && a.error.AtLine? then Err(a.error.(number := a.error.number - from + to)) else a)
  {
    if Decode(tail).Some? {
      ParseLinesRenumbers(SplitLines(Decode(tail).value), from + 1, to + 1, parser);
    }
  }

  /** Such numbers part: after a line ended by a vertical tab and a newline, a bad line is the file's third
      and is reported as its second. */
  lemma MisnumberedLine(parser: LineParser) returns (prefix: Bytes, tail: Bytes)
    requires parser("") == Blank && LineError(parser("x"), 3) == Some(AtLine(3, parser("x")))
    ensures EndsLine(prefix) && ParsedEvents(prefix, 0, parser) == Ok([])
    ensures ParsedEvents(prefix + tail, 0, parser) == Err(AtLine(3, parser("x")))
    ensures ParsedEvents(tail, CountNewlineBytes(prefix), parser) == Err(AtLine(2, parser("x")))
  {
    prefix := TwoBlankLinesParse(parser);
    tail := Encode("x\n");
    BadLineParses(tail, 2, parser);
    BadLineParses(tail, 1, parser);
    ErrorOfTail(prefix, tail, AtLine(3, parser("x")), parser);
  }

  lemma ErrorOfTail(prefix: Bytes, tail: Bytes, error: ParseError, parser: LineParser)
    requires EndsLine(prefix) && ParsedEvents(prefix, 0, parser).Ok? && Decode(prefix).Some?
    requires ParsedEvents(tail, |FileLines(prefix)|, parser) == Err(error)
    ensures ParsedEvents(prefix + tail, 0, parser) == Err(error)
  {
    ParseSplits(prefix, tail, parser);
  }

  lemma BadLineParses(tail: Bytes, offset: nat, parser: LineParser)
    requires tail == Encode("x\n")
    requires LineError(parser("x"), 3) == Some(AtLine(3, parser("x")))
    ensures ParsedEvents(tail, offset, parser) == Err(AtLine(offset + 1, parser("x")))
  {
    DecodeEncode("x\n");
    assert "x" + "\n" == "x\n";
    OneLineOf("x");
    assert ["x"][0] == "x" && LineError(parser("x"), offset + 1) == Some(AtLine(offset + 1, parser("x")));
  }

  lemma TwoBlankLinesParse(parser: LineParser) returns (prefix: Bytes)
    requires parser("") == Blank
    ensures EndsLine(prefix) && Decode(prefix).Some? && |FileLines(prefix)| == 2
    ensures ParsedEvents(prefix, 0, parser) == Ok([]) && CountNewlineBytes(prefix) == 1
  {
    var text := "\U{0B}\n";
    prefix := Encode(text);
    DecodeEncode(text);
    assert text[|text| - 1] == '\n' && text[1..] == "\n" && "\n"[1..] == "";
    NewlinesAgree(prefix);
    assert CountNewlines(text) == 1;
    assert prefix != [] by { assert prefix == EncodeChar(text[0]) + Encode(text[1..]); }
    LastCharacter(prefix);
    TwoBlankLines();
    TwoBlanksParse(parser);
  }

  lemma TwoBlanksParse(parser: LineParser)
    requires parser("") == Blank
    ensures ParseLines(["", ""], 1, parser) == Ok([])
  {
    var two, one: seq<string> := ["", ""], [""];
    assert two[1..] == one && one[1..] == [];
    assert ParseLines(one[1..], 3, parser) == Ok([]);
    assert EventsOf(parser(one[0])) + [] == [];
    assert ParseLines(one, 2, parser) == Ok([]);
  }

  lemma TwoBlankLines()
    ensures SplitLines("\U{0B}\n") == ["", ""]
  {
    var s := "\U{0B}\n";
    LineLengthIs(s, 0);
    SplitInto(s, "", "\n", 0, 1);
    OneLineOf("");
    assert "" + "\n" == "\n";
  }

  lemma OneLineOf(line: string)
    requires OneLine(line)
    ensures SplitLines(line + "\n") == [line]
  {
    RenderedLineIsOneLine(line);
  }

  // ---- The last event of a suffix ----

  /** What JSON and the event contract make of lines: an empty one is blank, and text in front of an
      event's line makes it the same event (white space) or an error, since the object that closes the
      line would have to be a part of another. */
  ghost predicate ReadsWholeLine(parser: LineParser) {
    && parser("") == Blank
    && forall x, y :: parser(y).Parsed? ==> parser(x + y) == parser(y) || LineError(parser(x + y), 0).Some?
  }

  lemma SameEventsWhereverNumbered(lines: seq<string>, from: nat, to: nat, parser: LineParser)
    requires ParseLines(lines, from, parser).Ok?
    ensures ParseLines(lines, to, parser) == ParseLines(lines, from, parser)
  {
    ParseLinesRenumbers(lines, from, to, parser);
  }

  /** Lines whose first is glued to `x` give the same last event, if they parse at all. */
  lemma GluedLinesParse(x: string, lines: seq<string>, number: nat, parser: LineParser)
    requires ReadsWholeLine(parser) && lines != []
    requires ParseLines(lines, number, parser).Ok? && ParseLines(lines, number, parser).value != []
    requires ParseLines([x + lines[0]] + lines[1..], number, parser).Ok?
    ensures var events, glued := ParseLines(lines, number, parser).value,
                                 ParseLines([x + lines[0]] + lines[1..], number, parser).value;
      glued != [] && glued[|glued| - 1] == events[|events| - 1]
  {
    var all := [x + lines[0]] + lines[1..];
    assert all[1..] == lines[1..] && all[0] == x + lines[0];
    if ParseLines(lines[1..], number + 1, parser).value == [] {
      assert parser(lines[0]).Parsed?;
    }
  }

  ghost predicate EndsAlike(all: ParseResult, part: ParseResult) {
    && all.Ok? && part.Ok? && all.value != [] && part.value != []
    && all.value[|all.value| - 1] == part.value[|part.value| - 1]
  }

  lemma LastOfJoined(before: seq<string>, lines: seq<string>, parser: LineParser)
    requires ParseLines(before + lines, 1, parser).Ok?
    requires ParseLines(lines, 1, parser).Ok? && ParseLines(lines, 1, parser).value != []
    ensures EndsAlike(ParseLines(before + lines, 1, parser), ParseLines(lines, 1, parser))
  {
    ParseLinesConcat(before, lines, 1, parser);
    SameEventsWhereverNumbered(lines, 1, 1 + |before|, parser);
  }

  lemma LastOfGlued(before: seq<string>, lines: seq<string>, all: seq<string>, parser: LineParser)
    requires ReadsWholeLine(parser) && IsGlued(before, lines, all) && ParseLines(all, 1, parser).Ok?
    requires ParseLines(lines, 1, parser).Ok? && ParseLines(lines, 1, parser).value != []
    ensures EndsAlike(ParseLines(all, 1, parser), ParseLines(lines, 1, parser))
  {
    var n := |before| - 1;
    var glued := [before[n] + lines[0]] + lines[1..];
    ParseLinesConcat(before[..n], glued, 1, parser);
    SameEventsWhereverNumbered(glued, 1 + n, 1, parser);
    GluedLinesParse(before[n], lines, 1, parser);
    LastOfJoined(before[..n], glued, parser);
  }

  /** The last event of a text is that of any end of it that parses to some event, even where the cut
      is inside a line. */
  lemma LastEventOfSuffixText(a: string, b: string, parser: LineParser)
    requires ReadsWholeLine(parser) && b != "" && b[0] != '\n'
    requires ParseLines(SplitLines(a + b), 1, parser).Ok?
    requires ParseLines(SplitLines(b), 1, parser).Ok? && ParseLines(SplitLines(b), 1, parser).value != []
    ensures EndsAlike(ParseLines(SplitLines(a + b), 1, parser), ParseLines(SplitLines(b), 1, parser))
  {
    if CleanJoin(a, b) {
      SplitLinesConcat(a, b);
      LastOfJoined(SplitLines(a), SplitLines(b), parser);
    } else {
      GluedLines(a, b);
      LastOfGlued(SplitLines(a), SplitLines(b), SplitLines(a + b), parser);
    }
  }

  // ---- Writing a line that reads back ----

  /** The event model's validation of a draft, and the JSON text of an event. */
  datatype Renderer = Renderer(accepts: Event -> bool, text: Event -> string)

  /** What the log depends on: the text of a validated and then hashed draft is not empty and is read
      back as that event. */
  ghost predicate ReadsBack(render: Renderer, parser: LineParser, hash: Hasher) {
    forall draft :: render.accepts(draft) ==>
      render.text(Hashed(draft, hash)) != "" && parser(render.text(Hashed(draft, hash))) == Parsed(Hashed(draft, hash))
  }

  function LineOf(e: Event, render: Renderer): Bytes {
    Encode(render.text(e) + "\n")
  }

  lemma LineEndsLine(e: Event, render: Renderer)
    ensures LineOf(e, render) != [] && EndsLine(LineOf(e, render))
  {
    EncodeConcat(render.text(e), "\n");
    assert Encode("\n") == EncodeChar('\n') + Encode("\n"[1..]);
    assert LineOf(e, render)[|LineOf(e, render)| - 1] == NEWLINE;
  }

  /** Appending a rendered event to a file that ends a line adds exactly that event, provided the
      rendering holds no line break. */
  lemma AppendParses(data: Bytes, draft: Event, render: Renderer, parser: LineParser, hash: Hasher)
    requires ReadsBack(render, parser, hash) && render.accepts(draft)
    requires OneLine(render.text(Hashed(draft, hash)))
    requires EndsLine(data) && ParsedEvents(data, 0, parser).Ok?
    ensures ParsedEvents(data + LineOf(Hashed(draft, hash), render), 0, parser)
         == Ok(ParsedEvents(data, 0, parser).value + [Hashed(draft, hash)])
  {
    var e := Hashed(draft, hash);
    ParseSplits(data, LineOf(e, render), parser);
    DecodeEncode(render.text(e) + "\n");
    RenderedLineIsOneLine(render.text(e));
    OneParsedLine(render.text(e), |FileLines(data)| + 1, e, parser);
  }

  lemma OneParsedLine(line: string, number: nat, e: Event, parser: LineParser)
    requires parser(line) == Parsed(e)
    ensures ParseLines([line], number, parser) == Ok([e])
  {
    assert [line][1..] == [];
    assert [e] + [] == [e];
  }

  /** Whatever the bytes before it, an appended event is read as one more line exactly when the text
      before it is empty or ends a line. A file cut off before its final newline fails this. */
  lemma AppendNeedsEndedLine(data: Bytes, e: Event, render: Renderer)
    requires Decode(data).Some? && render.text(e) != "" && OneLine(render.text(e))
    ensures Decode(data + LineOf(e, render)).Some?
    ensures FileLines(data + LineOf(e, render)) == FileLines(data) + [render.text(e)]
       <==> Decode(data).value == "" || IsBreak(Decode(data).value[|Decode(data).value| - 1])
  {
    DecodeThenEncoded(data, render.text(e) + "\n");
    AppendedLineStandsAlone(Decode(data).value, render.text(e));
  }

  /** An event whose rendering holds a line break is never read back as its one line. */
  lemma BrokenRenderingIsSplit(e: Event, render: Renderer)
    ensures Decode(LineOf(e, render)).Some?
    ensures FileLines(LineOf(e, render)) == [render.text(e)] <==> OneLine(render.text(e))
  {
    DecodeEncode(render.text(e) + "\n");
    RenderedLineIsOneLine(render.text(e));
  }

  lemma {:induction false} DecodeThenEncoded(data: Bytes, s: string)
    requires Decode(data).Some?
    ensures Decode(data + Encode(s)) == Some(Decode(data).value + s)
    decreases |data|
  {
    DecodeEncode(s);
    if data == [] {
      assert data + Encode(s) == Encode(s);
      assert "" + s == s;
    } else {
      var rest := DecodeOff(data, Encode(s));
      DecodeThenEncoded(rest, s);
      CharBefore(First(data).value.0, Decode(rest).value, s);
    }
  }

  lemma CharBefore(c: char, a: string, b: string)
    ensures [c] + (a + b) == [c] + a + b
  {
  }

  /** A complete first character, and what follows it, whatever bytes come after. */
  lemma DecodeOff(data: Bytes, more: Bytes) returns (rest: Bytes)
    requires data != [] && Decode(data).Some?
    ensures First(data).Some? && |rest| < |data| && Decode(rest).Some?
    ensures Decode(data).value == [First(data).value.0] + Decode(rest).value
    ensures Decode(rest + more).Some? ==> Decode(data + more) == Some([First(data).value.0] + Decode(rest + more).value)
  {
    DecodeSteps(data);
    var w := First(data).value.1;
    rest := data[w..];
    FirstStays(data, more);
    SliceAfter(data, more, w);
    if Decode(rest + more).Some? { DecodeOneMore(data + more, Decode(rest + more).value); }
  }

  lemma FirstStays(data: Bytes, more: Bytes)
    requires data != [] && First(data).Some?
    ensures First(data + more) == First(data)
  {
    SameLead(data, more);
  }

  lemma SliceAfter(data: Bytes, more: Bytes, w: nat)
    requires w <= |data|
    ensures (data + more)[w..] == data[w..] + more
  {
  }
}

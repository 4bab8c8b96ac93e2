/** The private-key pass of the redaction: one walk over anchors and terminators with cursors that only
    move forward, against the plain rule that searches all terminators again for every anchor. */
module PrivateKeyRedaction {
  import opened Options

  /** An opening banner or field: where it starts, where the body would, and whether it is worth
      covering on its own. */
  datatype Anchor = Anchor(start: nat, bodyStart: nat, bareIsEnough: bool)

  datatype Terminator = Terminator(start: nat, end: nat)

  datatype BodyLine = BodyLine(end: nat, allHex: bool)

  /** What the regular expressions find in a text. */
  datatype Found = Found(
    text: string,
    anchors: seq<Anchor>,
    terminators: seq<Terminator>,
    header: nat -> Option<nat>,
    line: nat -> Option<BodyLine>)

  const MARKER := "[REDACTED:PRIVATE_KEY]"
  const MIN_BODY_LINES := 2

  /** Matches of one pattern do not overlap and come in text order; every header and body line match
      consumes text. */
  ghost predicate Lawful(f: Found) {
    && (forall i :: 0 <= i < |f.anchors| ==> f.anchors[i].start < f.anchors[i].bodyStart <= |f.text|)
    && (forall i, j :: 0 <= i < j < |f.anchors| ==> f.anchors[i].bodyStart <= f.anchors[j].start)
    && (forall k :: 0 <= k < |f.terminators| ==> f.terminators[k].start <= f.terminators[k].end <= |f.text|)
    && (forall k, l :: 0 <= k < l < |f.terminators| ==> f.terminators[k].end <= f.terminators[l].start)
    && (forall p: nat :: f.header(p).Some? ==> p < f.header(p).value <= |f.text|)
    && (forall p: nat :: f.line(p).Some? ==> p < f.line(p).value.end <= |f.text|)
  }

  // ---- An unterminated body ----

  function AfterHeaders(f: Found, position: nat): (r: nat)
    requires Lawful(f) && position <= |f.text|
    ensures position <= r <= |f.text|
    decreases |f.text| - position
  {
    match f.header(position)
    case None => position
    case Some(end) => AfterHeaders(f, end)
  }

  function BodyLines(f: Found, position: nat): (r: seq<BodyLine>)
    requires Lawful(f) && position <= |f.text|
    ensures forall l :: l in r ==> position < l.end <= |f.text|
    decreases |f.text| - position
  {
    match f.line(position)
    case None => []
    case Some(line) => [line] + BodyLines(f, line.end)
  }

  /** At least two whole lines of base64, not all of them hexadecimal. */
  function BodyEnd(f: Found, position: nat): (r: Option<nat>)
    requires Lawful(f) && position <= |f.text|
    ensures r.Some? ==> position < r.value <= |f.text|
  {
    var lines := BodyLines(f, AfterHeaders(f, position));
    if |lines| < MIN_BODY_LINES || forall l :: l in lines ==> l.allHex then None
    else Some(lines[|lines| - 1].end)
  }

  /** Every header match from `start` on, one after another, and none at `body`, where they end. */
  ghost predicate HeadersFrom(f: Found, start: nat, at: seq<nat>, body: nat) {
    && at != [] && at[0] == start && at[|at| - 1] == body
    && (forall k: nat :: k + 1 < |at| ==> f.header(at[k]) == Some(at[k + 1]))
    && f.header(body) == None
  }

  /** Where the first n of adjacent lines end. */
  ghost function LineEnd(body: nat, lines: seq<BodyLine>, n: nat): nat
    requires n <= |lines|
  {
    if n == 0 then body else lines[n - 1].end
  }

  /** The k-th line matches where those before it end. */
  ghost predicate Adjacent(f: Found, body: nat, lines: seq<BodyLine>, k: nat)
    requires k < |lines|
  {
    f.line(LineEnd(body, lines, k)) == Some(lines[k])
  }

  /** The longest run of adjacent line matches from `body` on. */
  ghost predicate LinesFrom(f: Found, body: nat, lines: seq<BodyLine>) {
    && (forall k: nat :: k < |lines| ==> Adjacent(f, body, lines, k))
    && f.line(LineEnd(body, lines, |lines|)) == None
  }

  /** At least two lines, not all hexadecimal: the body ends where the last of them does. */
  ghost function EndOf(body: nat, lines: seq<BodyLine>): Option<nat> {
    if |lines| >= MIN_BODY_LINES && exists l :: l in lines && !l.allHex then Some(LineEnd(body, lines, |lines|))
    else None
  }

  /** Where the body ends whose headers start at `start`: after the longest run of adjacent lines that
      follows them, if these are at least two and not all hexadecimal; otherwise there is none. */
  ghost predicate EndsBody(f: Found, start: nat, end: Option<nat>) {
    exists at: seq<nat>, body: nat, lines: seq<BodyLine> ::
      HeadersFrom(f, start, at, body) && LinesFrom(f, body, lines) && end == EndOf(body, lines)
  }

  lemma {:induction false} HeadersEnd(f: Found, start: nat, at: seq<nat>, body: nat)
    requires Lawful(f) && start <= |f.text| && HeadersFrom(f, start, at, body)
    ensures body == AfterHeaders(f, start)
    decreases |at|
  {
    if |at| > 1 {
      assert f.header(at[0]) == Some(at[0 + 1]);
      HeadersEnd(f, at[1], at[1..], body);
    }
  }

  lemma {:induction false} LinesAreRun(f: Found, body: nat, lines: seq<BodyLine>)
    requires Lawful(f) && body <= |f.text| && LinesFrom(f, body, lines)
    ensures lines == BodyLines(f, body)
    decreases |lines|
  {
    if lines != [] {
      var rest := lines[1..];
      assert Adjacent(f, body, lines, 0);
      forall k: nat | k < |rest| ensures Adjacent(f, lines[0].end, rest, k) {
        assert Adjacent(f, body, lines, k + 1);
      }
      LinesAreRun(f, lines[0].end, rest);
    }
  }

  lemma MeasuredEnd(f: Found, start: nat, at: seq<nat>, body: nat, lines: seq<BodyLine>)
    requires Lawful(f) && start <= |f.text| && HeadersFrom(f, start, at, body) && LinesFrom(f, body, lines)
    ensures EndOf(body, lines) == BodyEnd(f, start)
    ensures EndsBody(f, start, BodyEnd(f, start))
  {
    HeadersEnd(f, start, at, body);
    LinesAreRun(f, body, lines);
    SameEnd(body, lines);
  }

  lemma SameEnd(body: nat, lines: seq<BodyLine>)
    ensures EndOf(body, lines) == if |lines| < MIN_BODY_LINES || forall l :: l in lines ==> l.allHex then None
                                  else Some(lines[|lines| - 1].end)
  {
  }

  /** A body ends in one place only. */
  lemma BodyEndsOnce(f: Found, start: nat, end: Option<nat>)
    requires Lawful(f) && start <= |f.text| && EndsBody(f, start, end)
    ensures end == BodyEnd(f, start)
  {
    var at: seq<nat>, body: nat, lines: seq<BodyLine> :|
      HeadersFrom(f, start, at, body) && LinesFrom(f, body, lines) && end == EndOf(body, lines);
    MeasuredEnd(f, start, at, body, lines);
  }

  lemma LineAdded(f: Found, body: nat, lines: seq<BodyLine>, line: BodyLine)
    requires forall k: nat :: k < |lines| ==> Adjacent(f, body, lines, k)
    requires f.line(LineEnd(body, lines, |lines|)) == Some(line)
    ensures var longer := lines + [line];
      forall k: nat :: k < |longer| ==> Adjacent(f, body, longer, k)
  {
    var longer := lines + [line];
    forall k: nat | k < |longer| ensures Adjacent(f, body, longer, k) {
      assert k < |lines| ==> Adjacent(f, body, lines, k);
    }
  }

  /** The two loops: all headers, then all lines. */
  method UnterminatedBodyEnd(f: Found, start: nat) returns (end: Option<nat>)
    requires Lawful(f) && start <= |f.text|
    ensures EndsBody(f, start, end)
    ensures end == BodyEnd(f, start)
  {
    var position: nat := start;
    ghost var at: seq<nat> := [start];
    while f.header(position).Some?
      invariant position <= |f.text| && at != [] && at[0] == start && at[|at| - 1] == position
      invariant forall k: nat :: k + 1 < |at| ==> f.header(at[k]) == Some(at[k + 1])
      decreases |f.text| - position
    {
      position := f.header(position).value;
      at := at + [position];
    }
    var lines: seq<BodyLine> := [];
    ghost var body := position;
    while f.line(position).Some?
      invariant position <= |f.text| && position == LineEnd(body, lines, |lines|)
      invariant forall k: nat :: k < |lines| ==> Adjacent(f, body, lines, k)
      decreases |f.text| - position
    {
      var line := f.line(position).value;
      LineAdded(f, body, lines, line);
      lines := lines + [line];
      position := line.end;
    }
    MeasuredEnd(f, start, at, body, lines);
    SameEnd(body, lines);
    if |lines| < MIN_BODY_LINES || forall l :: l in lines ==> l.allHex {
      return None;
    }
    end := Some(position);
  }

  // ---- The plain rule ----

  datatype Span = Span(start: nat, end: nat)

  /** Search all terminators for the first at or after `from`. */
  function FirstTerminator(terminators: seq<Terminator>, from: nat): Option<Terminator> {
    if terminators == [] then None
    else if terminators[0].start >= from then Some(terminators[0])
    else FirstTerminator(terminators[1..], from)
  }

  /** A terminator closes a block only if it ends before the next anchor starts. */
  function Limit(f: Found, i: nat): nat
    requires i < |f.anchors|
  {
    if i + 1 < |f.anchors| then f.anchors[i + 1].start else |f.text|
  }

  function Stop(f: Found, i: nat): (r: Option<nat>)
    requires Lawful(f) && i < |f.anchors|
    ensures r.Some? ==> r.value <= |f.text|
  {
    var t := FirstTerminator(f.terminators, f.anchors[i].bodyStart);
    if t.Some? && t.value.end <= Limit(f, i) then
      FirstTerminatorIsFirst(f.terminators, f.anchors[i].bodyStart);
      Some(t.value.end)
    else BodyEnd(f, f.anchors[i].bodyStart)
  }

  /** What the rule replaces, from the `i`-th anchor on, for an anchor not already covered. */
  function Spans(f: Found, i: nat, cursor: nat): seq<Span>
    requires Lawful(f) && i <= |f.anchors|
    decreases |f.anchors| - i
  {
    if i == |f.anchors| then []
    else
      var a := f.anchors[i];
      if a.start < cursor then Spans(f, i + 1, cursor)
      else
        var stop := Stop(f, i);
        if stop.None? && !a.bareIsEnough then Spans(f, i + 1, cursor)
        else
          var end := stop.GetOr(a.bodyStart);
          [Span(a.start, end)] + Spans(f, i + 1, end)
  }

  /** Spans that can be cut out of the text in order from `cursor`. */
  ghost predicate InOrder(spans: seq<Span>, cursor: nat, length: nat) {
    && cursor <= length
    && (spans != [] ==> cursor <= spans[0].start < spans[0].end && InOrder(spans[1..], spans[0].end, length))
  }

  function Redacted(text: string, spans: seq<Span>, cursor: nat): string
    requires InOrder(spans, cursor, |text|)
  {
    if spans == [] then text[cursor..]
    else
      assert InOrder(spans[1..], spans[0].end, |text|);
      text[cursor..spans[0].start] + MARKER + Redacted(text, spans[1..], spans[0].end)
  }

  lemma {:induction false} FirstTerminatorIsFirst(terminators: seq<Terminator>, from: nat)
    ensures match FirstTerminator(terminators, from)
      case None => forall t :: t in terminators ==> t.start < from
      case Some(t) => exists k :: 0 <= k < |terminators| && terminators[k] == t && t.start >= from
                        && forall l :: 0 <= l < k ==> terminators[l].start < from
  {
    if terminators != [] && terminators[0].start < from {
      FirstTerminatorIsFirst(terminators[1..], from);
      match FirstTerminator(terminators[1..], from)
      case None =>
      case Some(t) =>
        var k :| 0 <= k < |terminators| - 1 && terminators[1..][k] == t
                 && forall l :: 0 <= l < k ==> terminators[1..][l].start < from;
        assert terminators[k + 1] == t;
        forall l | 0 <= l < k + 1 ensures terminators[l].start < from {
          if l > 0 { assert terminators[1..][l - 1].start < from; }
        }
    }
  }

  /** The spans are disjoint and increasing. */
  lemma {:induction false} SpansInOrder(f: Found, i: nat, cursor: nat)
    requires Lawful(f) && i <= |f.anchors| && cursor <= |f.text|
    ensures InOrder(Spans(f, i, cursor), cursor, |f.text|)
    decreases |f.anchors| - i
  {
    if i < |f.anchors| {
      var a := f.anchors[i];
      var stop := Stop(f, i);
      if a.start < cursor || (stop.None? && !a.bareIsEnough) {
        SpansInOrder(f, i + 1, cursor);
      } else {
        StopIsPastAnchor(f, i);
        SpansInOrder(f, i + 1, stop.GetOr(a.bodyStart));
        assert Spans(f, i, cursor)[1..] == Spans(f, i + 1, stop.GetOr(a.bodyStart));
      }
    }
  }

  lemma StopIsPastAnchor(f: Found, i: nat)
    requires Lawful(f) && i < |f.anchors|
    ensures Stop(f, i).Some? ==> f.anchors[i].bodyStart <= Stop(f, i).value
  {
    FirstTerminatorIsFirst(f.terminators, f.anchors[i].bodyStart);
  }

  /** The span covers the `i`-th anchor and ends as it should: at the first terminator after the body's
      start if no later anchor starts before that ends; else where its body ends; or at the body's start
      if there is none and the banner is worth covering on its own. */
  ghost predicate EndsRightly(f: Found, s: Span, i: nat)
    requires Lawful(f) && i < |f.anchors|
  {
    var bodyStart := f.anchors[i].bodyStart;
    var t := FirstTerminator(f.terminators, bodyStart);
    && s.start == f.anchors[i].start
    && (if t.Some? && forall j :: i < j < |f.anchors| ==> t.value.end <= f.anchors[j].start
        then s.end == t.value.end
        else exists end ::
          && EndsBody(f, bodyStart, end)
          && (if end.Some? then s.end == end.value else f.anchors[i].bareIsEnough && s.end == bodyStart))
  }

  lemma {:induction false} HeadersExist(f: Found, start: nat) returns (at: seq<nat>, body: nat)
    requires Lawful(f) && start <= |f.text|
    ensures HeadersFrom(f, start, at, body) && body <= |f.text|
    decreases |f.text| - start
  {
    match f.header(start)
    case None => at, body := [start], start;
    case Some(next) =>
      var rest, end := HeadersExist(f, next);
      at, body := [start] + rest, end;
      forall k: nat | k + 1 < |at| ensures f.header(at[k]) == Some(at[k + 1]) {
        if k > 0 { assert f.header(rest[k - 1]) == Some(rest[k - 1 + 1]); }
      }
  }

  lemma {:induction false} LinesExist(f: Found, body: nat) returns (lines: seq<BodyLine>)
    requires Lawful(f) && body <= |f.text|
    ensures LinesFrom(f, body, lines)
    decreases |f.text| - body
  {
    match f.line(body)
    case None => lines := [];
    case Some(line) =>
      var rest := LinesExist(f, line.end);
      lines := [line] + rest;
      LinesFollow(f, body, line, rest);
  }

  lemma LinesFollow(f: Found, body: nat, line: BodyLine, rest: seq<BodyLine>)
    requires f.line(body) == Some(line) && LinesFrom(f, line.end, rest)
    ensures LinesFrom(f, body, [line] + rest)
  {
    var lines := [line] + rest;
    forall k: nat | k < |lines| ensures Adjacent(f, body, lines, k) {
      if k > 0 { assert Adjacent(f, line.end, rest, k - 1); }
    }
  }

  /** What `BodyEnd` computes is where the body ends. */
  lemma BodyEndIsEnd(f: Found, start: nat)
    requires Lawful(f) && start <= |f.text|
    ensures forall end :: EndsBody(f, start, end) <==> end == BodyEnd(f, start)
  {
    var at, body := HeadersExist(f, start);
    var lines := LinesExist(f, body);
    MeasuredEnd(f, start, at, body, lines);
    forall end | EndsBody(f, start, end) ensures end == BodyEnd(f, start) { BodyEndsOnce(f, start, end); }
  }

  lemma StopEndsRightly(f: Found, i: nat)
    requires Lawful(f) && i < |f.anchors| && (Stop(f, i).Some? || f.anchors[i].bareIsEnough)
    ensures EndsRightly(f, Span(f.anchors[i].start, Stop(f, i).GetOr(f.anchors[i].bodyStart)), i)
  {
    FirstTerminatorIsFirst(f.terminators, f.anchors[i].bodyStart);
    BodyEndIsEnd(f, f.anchors[i].bodyStart);
    if i + 1 < |f.anchors| {
      assert forall j :: i + 1 < j < |f.anchors| ==> f.anchors[i + 1].start <= f.anchors[j].start;
    }
  }

  /** Every replaced span is an anchor's and ends as it should; one closed by a terminator thus ends
      before any later anchor starts. */
  lemma {:induction false} SpansEndRightly(f: Found, i: nat, cursor: nat, s: Span)
    requires Lawful(f) && i <= |f.anchors| && s in Spans(f, i, cursor)
    ensures exists j :: i <= j < |f.anchors| && EndsRightly(f, s, j)
    decreases |f.anchors| - i
  {
    var a := f.anchors[i];
    var stop := Stop(f, i);
    if a.start < cursor || (stop.None? && !a.bareIsEnough) {
      SpansEndRightly(f, i + 1, cursor, s);
    } else {
      var end := stop.GetOr(a.bodyStart);
      StopEndsRightly(f, i);
      if s != Span(a.start, end) { SpansEndRightly(f, i + 1, end, s); }
    }
  }

  /** The `i`-th anchor opens a block whose end is known: the first terminator after it ends before any
      later anchor starts, or it has a provable body. */
  ghost predicate Closed(f: Found, i: nat)
    requires i < |f.anchors|
  {
    var bodyStart := f.anchors[i].bodyStart;
    var t := FirstTerminator(f.terminators, bodyStart);
    || (t.Some? && forall j :: i < j < |f.anchors| ==> t.value.end <= f.anchors[j].start)
    || exists e :: EndsBody(f, bodyStart, Some(e))
  }

  lemma ClosedStops(f: Found, i: nat)
    requires Lawful(f) && i < |f.anchors| && Closed(f, i)
    ensures Stop(f, i).Some?
  {
    FirstTerminatorIsFirst(f.terminators, f.anchors[i].bodyStart);
    BodyEndIsEnd(f, f.anchors[i].bodyStart);
  }

  /** Every banner worth covering on its own lies inside a replaced span, as does every block with a
      terminator or a provable body. */
  lemma {:induction false} BannersAreCovered(f: Found, i: nat, cursor: nat, j: nat)
    requires Lawful(f) && i <= j < |f.anchors| && f.anchors[j].start >= cursor
    requires f.anchors[j].bareIsEnough || Closed(f, j)
    ensures exists s :: s in Spans(f, i, cursor) && s.start <= f.anchors[j].start < s.end
    decreases |f.anchors| - i
  {
    var a := f.anchors[i];
    var stop := Stop(f, i);
    if !f.anchors[j].bareIsEnough { ClosedStops(f, j); }
    if a.start < cursor || (stop.None? && !a.bareIsEnough) {
      assert i < j;
      BannersAreCovered(f, i + 1, cursor, j);
    } else {
      StopIsPastAnchor(f, i);
      var end := stop.GetOr(a.bodyStart);
      var spans := Spans(f, i, cursor);
      assert spans[0] in spans;
      if i < j && f.anchors[j].start >= end {
        BannersAreCovered(f, i + 1, end, j);
        var s :| s in Spans(f, i + 1, end) && s.start <= f.anchors[j].start < s.end;
        assert s in spans;
      }
    }
  }

  // ---- What is kept ----

  /** The texts between the spans, and the texts of the spans. */
  ghost function Kept(text: string, spans: seq<Span>, cursor: nat): (r: seq<string>)
    requires InOrder(spans, cursor, |text|)
    ensures |r| == |spans| + 1
  {
    if spans == [] then [text[cursor..]]
    else
      assert InOrder(spans[1..], spans[0].end, |text|) && spans[0].end <= |text|;
      [text[cursor..spans[0].start]] + Kept(text, spans[1..], spans[0].end)
  }

  ghost function Removed(text: string, spans: seq<Span>, cursor: nat): (r: seq<string>)
    requires InOrder(spans, cursor, |text|)
    ensures |r| == |spans|
  {
    if spans == [] then []
    else
      assert InOrder(spans[1..], spans[0].end, |text|) && spans[0].end <= |text|;
      [text[spans[0].start..spans[0].end]] + Removed(text, spans[1..], spans[0].end)
  }

  ghost function Interleave(kept: seq<string>, between: seq<string>): string
    requires |kept| == |between| + 1
  {
    if between == [] then kept[0] else kept[0] + between[0] + Interleave(kept[1..], between[1..])
  }

  /** The text is the kept pieces around the removed ones; the result is the same kept pieces, verbatim
      and in order, around markers. */
  lemma {:induction false} OutsideIsVerbatim(text: string, spans: seq<Span>, cursor: nat)
    requires InOrder(spans, cursor, |text|)
    ensures Interleave(Kept(text, spans, cursor), Removed(text, spans, cursor)) == text[cursor..]
    ensures Interleave(Kept(text, spans, cursor), seq(|spans|, _ => MARKER)) == Redacted(text, spans, cursor)
  {
    if spans != [] {
      var s := spans[0];
      OutsideIsVerbatim(text, spans[1..], s.end);
      assert seq(|spans|, _ => MARKER) == [MARKER] + seq(|spans[1..]|, _ => MARKER);
      var first := text[cursor..s.start];
      var rest := Kept(text, spans[1..], s.end);
      InterleaveStep(first, rest, text[s.start..s.end], Removed(text, spans[1..], s.end));
      InterleaveStep(first, rest, MARKER, seq(|spans[1..]|, _ => MARKER));
      ThreeParts(text, cursor, s.start, s.end);
    }
  }

  lemma InterleaveStep(first: string, kept: seq<string>, b: string, between: seq<string>)
    requires |kept| == |between| + 1
    ensures Interleave([first] + kept, [b] + between) == first + b + Interleave(kept, between)
  {
    assert ([first] + kept)[1..] == kept && ([b] + between)[1..] == between;
  }

  lemma ThreeParts(text: string, i: nat, j: nat, k: nat)
    requires i <= j <= k <= |text|
    ensures text[i..] == text[i..j] + text[j..k] + text[k..]
  {
  }

  // ---- The one-pass scan ----

  /** Moving the forward cursor past every terminator before the body. */
  method SkipTerminators(f: Found, nextEnd: nat, bodyStart: nat) returns (moved: nat)
    requires Lawful(f) && nextEnd <= |f.terminators|
    requires forall k :: 0 <= k < nextEnd ==> f.terminators[k].start < bodyStart
    ensures nextEnd <= moved <= |f.terminators|
    ensures forall k :: 0 <= k < moved ==> f.terminators[k].start < bodyStart
    ensures FirstTerminator(f.terminators, bodyStart)
         == if moved < |f.terminators| then Some(f.terminators[moved]) else None
  {
    moved := nextEnd;
    while moved < |f.terminators| && f.terminators[moved].start < bodyStart
      invariant nextEnd <= moved <= |f.terminators|
      invariant forall k :: 0 <= k < moved ==> f.terminators[k].start < bodyStart
    {
      moved := moved + 1;
    }
    SkippedPrefix(f.terminators, moved, bodyStart);
  }

  lemma {:induction false} SkippedPrefix(terminators: seq<Terminator>, n: nat, from: nat)
    requires n <= |terminators| && forall k :: 0 <= k < n ==> terminators[k].start < from
    requires n < |terminators| ==> terminators[n].start >= from
    ensures FirstTerminator(terminators, from) == if n < |terminators| then Some(terminators[n]) else None
  {
    if n > 0 {
      SkippedPrefix(terminators[1..], n - 1, from);
    }
  }

  /** The scan of the source equals the plain rule, and its cursors take at most one step per anchor
      and one per terminator. */
  method RedactPrivateKeys(f: Found) returns (result: string, ghost steps: nat)
    requires Lawful(f)
    ensures InOrder(Spans(f, 0, 0), 0, |f.text|)
    ensures result == Redacted(f.text, Spans(f, 0, 0), 0)
    ensures steps <= |f.anchors| + |f.terminators|
  {
    SpansInOrder(f, 0, 0);
    var pieces := "";
    var cursor: nat := 0;
    var nextEnd: nat := 0;
    steps := 0;
    for i := 0 to |f.anchors|
      invariant cursor <= |f.text| && nextEnd <= |f.terminators| && steps <= i + nextEnd
      invariant forall j, k :: i <= j < |f.anchors| && 0 <= k < nextEnd ==>
        f.terminators[k].start < f.anchors[j].bodyStart
      invariant InOrder(Spans(f, i, cursor), cursor, |f.text|)
      invariant Redacted(f.text, Spans(f, 0, 0), 0) == pieces + Redacted(f.text, Spans(f, i, cursor), cursor)
    {
      var a := f.anchors[i];
      steps := steps + 1;
      if a.start < cursor {
        continue;
      }
      var moved := SkipTerminators(f, nextEnd, a.bodyStart);
      steps, nextEnd := steps + (moved - nextEnd), moved;
      var stop: Option<nat> := None;
      if nextEnd < |f.terminators| && f.terminators[nextEnd].end <= Limit(f, i) {
        stop := Some(f.terminators[nextEnd].end);
      } else {
        stop := UnterminatedBodyEnd(f, a.bodyStart);
        if stop.None? && !a.bareIsEnough {
          continue;
        }
      }
      assert stop == Stop(f, i);
      SpanReplaced(f, i, cursor, pieces);
      pieces := pieces + f.text[cursor..a.start] + MARKER;
      cursor := stop.GetOr(a.bodyStart);
    }
    result := pieces + f.text[cursor..];
  }

  lemma SpanReplaced(f: Found, i: nat, cursor: nat, pieces: string)
    requires Lawful(f) && i < |f.anchors| && cursor <= f.anchors[i].start
    requires Stop(f, i).Some? || f.anchors[i].bareIsEnough
    requires InOrder(Spans(f, i, cursor), cursor, |f.text|)
    ensures var a := f.anchors[i];
      var end := Stop(f, i).GetOr(a.bodyStart);
      && end <= |f.text| && InOrder(Spans(f, i + 1, end), end, |f.text|)
      && pieces + Redacted(f.text, Spans(f, i, cursor), cursor)
         == pieces + f.text[cursor..a.start] + MARKER + Redacted(f.text, Spans(f, i + 1, end), end)
  {
    var a := f.anchors[i];
    var end := Stop(f, i).GetOr(a.bodyStart);
    StopIsPastAnchor(f, i);
    SpansInOrder(f, i + 1, end);
    assert Spans(f, i, cursor)[1..] == Spans(f, i + 1, end);
    PiecesJoin(pieces, f.text[cursor..a.start], Redacted(f.text, Spans(f, i + 1, end), end));
  }

  lemma PiecesJoin(a: string, b: string, c: string)
    ensures a + (b + MARKER + c) == a + b + MARKER + c
  {
  }
}

/** The persisted log: writers that resume a chain from a file and append to it one line at a time,
    re-reading the file only when its size or final line is not what they last saw. */
module JsonlEventLog {
  import opened Options
  import opened Utf8
  import opened LogText
  import opened FileTail
  import opened EventChain
  import opened ChainStates
  import opened LogParser
  import opened LogCache
  import PLC = ParsedLogCache

  /** A file's final line, once a whole line was appended, is that line. */
  lemma FinalLineOfAppended(data: Bytes, e: Event, render: Renderer)
    requires EndsLine(data) && OneLine(render.text(e))
    ensures FinalLine(data + LineOf(e, render)) == LineOf(e, render)
    ensures EndsLine(data + LineOf(e, render))
  {
    var line := LineOf(e, render);
    LineEndsLine(e, render);
    EncodeConcat(render.text(e), "\n");
    assert Encode("\n") == EncodeChar('\n') + Encode("\n"[1..]);
    assert line == Encode(render.text(e)) + [NEWLINE];
    EncodedLineHasNoNewline(render.text(e));
    var all := data + line;
    assert all[|data|..] == line && all[..|data|] == data;
    FinalLineIsUnique(all, line);
  }

  lemma {:induction false} EncodedLineHasNoNewline(s: string)
    requires OneLine(s)
    ensures NEWLINE !in Encode(s)
  {
    if s != "" {
      assert !IsBreak(s[0]);
      assert OneLine(s[1..]) by {
        forall i | 0 <= i < |s| - 1 ensures !IsBreak(s[1..][i]) { assert !IsBreak(s[i + 1]); }
      }
      EncodedLineHasNoNewline(s[1..]);
    }
  }

  // ---- What a writer remembers, and one append, as values ----

  datatype Writer = Writer(seqNo: nat, prevHash: string, size: nat, tail: Bytes)

  datatype LogError =
    | Unreadable(error: ParseError)
    | NotVerified(verdict: Verdict)
    | OtherRun(runId: string)
    | InvalidEvent        // no draft, or one the event model refused
    | WriteFailed         // opening, writing or syncing the file failed

  predicate TailUnchanged(w: Writer, data: Bytes) {
    |data| == w.size && (|data| == 0 || (|w.tail| <= |data| && data[|data| - |w.tail|..] == w.tail))
  }

  /** The file parses, verifies and belongs to the run: what resuming and appending require. */
  ghost predicate Resumable(data: Bytes, runId: string, codec: Codec) {
    var parsed := ParsedEvents(data, 0, codec.parser);
    && parsed.Ok?
    && Chained(parsed.value, codec.hash)
    && (parsed.value != [] ==> parsed.value[0].runId == runId)
  }

  ghost function EventsIn(data: Bytes, codec: Codec): seq<Event>
    requires ParsedEvents(data, 0, codec.parser).Ok?
  {
    ParsedEvents(data, 0, codec.parser).value
  }

  /** What `_restore` and `_read_tail` leave in a writer that has just read the file. */
  ghost function Restored(data: Bytes, codec: Codec): Writer
    requires ParsedEvents(data, 0, codec.parser).Ok?
  {
    var events := EventsIn(data, codec);
    Writer(|events|, HeadHash(events), |data|, FinalLine(data))
  }

  ghost predicate InStep(w: Writer, data: Bytes, runId: string, codec: Codec) {
    Resumable(data, runId, codec) && w == Restored(data, codec)
  }

  /** The writer an append works from: itself if the tail is unchanged, else one restored from disk. */
  ghost function Current(w: Writer, data: Bytes, runId: string, codec: Codec): Option<Writer> {
    if TailUnchanged(w, data) then Some(w)
    else if Resumable(data, runId, codec) then Some(Restored(data, codec))
    else None
  }

  function DraftBy(w: Writer, runId: string, name: string, body: string): Event {
    DraftOf(runId, w.seqNo, w.prevHash, name, body)
  }

  function NextOf(w: Writer, runId: string, name: string, body: string, codec: Codec): Event {
    NextEvent(runId, w.seqNo, w.prevHash, name, body, codec.hash)
  }

  /** The chain state moves before the file is opened, size and tail only after the line is synced. */
  function Advanced(w: Writer, e: Event): Writer {
    w.(seqNo := w.seqNo + 1, prevHash := e.hash.GetOr(GENESIS_HASH))
  }

  function AfterAppend(w: Writer, e: Event, line: Bytes): Writer {
    Advanced(w, e).(size := w.size + |line|, tail := line)
  }

  /** The file and the writer after an append, and the event it added to the file. */
  datatype Appending = Appending(data: Bytes, writer: Writer, written: Option<Event>)

  /** One append: refused if the file changed and no longer verifies for this run, if the event model
      refuses the draft, or before there is a draft; otherwise the line is written unless that fails. */
  ghost function AppendBy(
    known: Writer, data: Bytes, runId: string, name: string, body: string, fate: Fate, codec: Codec, render: Renderer)
    : Appending
  {
    match Current(known, data, runId, codec)
    case None => Appending(data, known, None)
    case Some(w) => AppendFrom(w, data, runId, name, body, fate, codec, render)
  }

  /** The append of a writer that need not re-read the file. */
  ghost function AppendFrom(
    w: Writer, data: Bytes, runId: string, name: string, body: string, fate: Fate, codec: Codec, render: Renderer)
    : Appending
  {
    var e := NextOf(w, runId, name, body, codec);
    var line := LineOf(e, render);
    if !render.accepts(DraftBy(w, runId, name, body)) then Appending(data, w, None)
    else match fate
      case Refused => Appending(data, w, None)
      case Completes => Appending(data + line, AfterAppend(w, e, line), Some(e))
      case NothingWritten => Appending(data, Advanced(w, e), None)
      case NotSynced => Appending(data + line, Advanced(w, e), Some(e))
  }

  /** Whatever an append writes is what it was asked to write, at the number and head it works from. */
  lemma WrittenIsAskedFor(
    known: Writer, data: Bytes, runId: string, name: string, body: string, fate: Fate, codec: Codec, render: Renderer)
    ensures var e := AppendBy(known, data, runId, name, body, fate, codec, render).written;
      e.Some? ==> AskedFor(e.value, runId, name, body)
    ensures var e := AppendBy(known, data, runId, name, body, fate, codec, render).written;
      e.Some? ==>
        var w := Current(known, data, runId, codec);
        w.Some? && e.value.seqNo == w.value.seqNo && e.value.prevHash == w.value.prevHash
  {
  }

  lemma RestoredIsUnchanged(data: Bytes, codec: Codec)
    requires ParsedEvents(data, 0, codec.parser).Ok?
    ensures TailUnchanged(Restored(data, codec), data)
  {
    FinalLineIsUnique(data, FinalLine(data));
  }

  /** An append by a writer in step with a file that ends a line adds exactly its one event, keeps
      the chain valid and of one run, and leaves the writer in step. */
  lemma AppendInStep(w: Writer, data: Bytes, runId: string, name: string, body: string, codec: Codec, render: Renderer)
    requires ReadsBack(render, codec.parser, codec.hash) && render.accepts(DraftBy(w, runId, name, body))
    requires InStep(w, data, runId, codec) && EndsLine(data)
    requires OneLine(render.text(NextOf(w, runId, name, body, codec)))
    ensures var e := NextOf(w, runId, name, body, codec);
      var after := data + LineOf(e, render);
      && EndsLine(after) && |after| > |data|
      && ParsedEvents(after, 0, codec.parser) == Ok(EventsIn(data, codec) + [e])
      && InStep(AfterAppend(w, e, LineOf(e, render)), after, runId, codec)
  {
    var e := NextOf(w, runId, name, body, codec);
    var events := EventsIn(data, codec);
    var line := LineOf(e, render);
    AppendParses(data, DraftBy(w, runId, name, body), render, codec.parser, codec.hash);
    NextEventExtendsChain(events, runId, name, body, codec.hash);
    FinalLineOfAppended(data, e, render);
    LineEndsLine(e, render);
    InStepWith(data + line, events + [e], line, runId, codec);
  }

  lemma InStepWith(data: Bytes, events: seq<Event>, tail: Bytes, runId: string, codec: Codec)
    requires ParsedEvents(data, 0, codec.parser) == Ok(events) && FinalLine(data) == tail
    requires Chained(events, codec.hash) && (events != [] ==> events[0].runId == runId)
    ensures InStep(Writer(|events|, HeadHash(events), |data|, tail), data, runId, codec)
  {
  }

  // ---- The fast path ----

  /** The line holds an event, so it is not a blank line. */
  ghost predicate HoldsEvent(tail: Bytes, codec: Codec) {
    var parsed := ParsedEvents(tail, 0, codec.parser);
    parsed.Ok? && parsed.value != []
  }

  lemma BlankLineHoldsNothing(number: nat, parser: LineParser)
    requires parser("") == Blank
    ensures ParsedEvents([NEWLINE], number, parser) == Ok([])
  {
    assert Encode("\n") == EncodeChar('\n') + Encode("\n"[1..]);
    assert Encode("\n") == [NEWLINE];
    DecodeEncode("\n");
    RenderedLineIsOneLine("");
    assert "" + "\n" == "\n";
    assert SplitLines("\n") == [""];
    OneBlankLine(number + 1, parser);
  }

  lemma OneBlankLine(number: nat, parser: LineParser)
    requires parser("") == Blank
    ensures ParseLines([""], number, parser) == Ok([])
  {
    var lines := [""];
    assert lines[1..] == [] && LineError(parser(lines[0]), number) == None;
    assert ParseLines(lines[1..], number + 1, parser) == Ok([]);
    assert EventsOf(parser(lines[0])) + [] == [];
  }

  /** A final line that holds an event begins with no newline. */
  lemma EventLineBegins(data: Bytes, codec: Codec)
    requires ReadsWholeLine(codec.parser) && HoldsEvent(FinalLine(data), codec)
    ensures FinalLine(data) != [] && FinalLine(data)[0] != NEWLINE
  {
    var tail := FinalLine(data);
    FinalLineIsUnique(data, tail);
    BlankLineHoldsNothing(0, codec.parser);
    assert tail != [] && tail != [NEWLINE];
    assert |tail| == 1 ==> tail == [tail[0]];
    var k := |data| - |tail|;
    assert IsFinalLine(data, tail) && LineStartsAt(data, k);
    assert tail[0] == data[k];
  }

  /** A file that verifies and ends in bytes that hold an event has their last event as its own. */
  lemma LastEventOfSuffix(prefix: Bytes, tail: Bytes, codec: Codec)
    requires ReadsWholeLine(codec.parser) && HoldsEvent(tail, codec) && tail != [] && tail[0] != NEWLINE
    requires ParsedEvents(prefix + tail, 0, codec.parser).Ok?
    ensures EndsAlike(ParsedEvents(prefix + tail, 0, codec.parser), ParsedEvents(tail, 0, codec.parser))
  {
    DecodeSplitsBeforeText(prefix, tail);
    DecodeSteps(tail);
    LastEventOfSuffixText(Decode(prefix).value, Decode(tail).value, codec.parser);
  }

  /** The fast path is sound against any rewriting: if the file on disk verifies and ends, at the same
      length, in the bytes the writer last saw as its final line, and these hold an event, then the file
      is the history the writer holds, event for event, and its head is the writer's. Only white space
      in front of the line can have changed; without any, the writer is in step. */
  lemma UnchangedTailMeansSameHistory(w: Writer, seen: Bytes, data: Bytes, runId: string, codec: Codec)
    requires Injective(codec.hash) && ReadsWholeLine(codec.parser)
    requires InStep(w, seen, runId, codec) && HoldsEvent(w.tail, codec)
    requires TailUnchanged(w, data) && Resumable(data, runId, codec)
    ensures EventsIn(data, codec) == EventsIn(seen, codec)
    ensures w == Restored(data, codec).(tail := w.tail)
    ensures InStep(w, data, runId, codec) <==> FinalLine(data) == w.tail
  {
    EventLineBegins(seen, codec);
    RestoredIsUnchanged(seen, codec);
    LastEventSeen(w.tail, seen, codec);
    LastEventSeen(w.tail, data, codec);
    SameEndSameEvents(data, seen, ParsedEvents(w.tail, 0, codec.parser), runId, codec);
    SameEventsRestored(w, seen, data, runId, codec);
  }

  lemma SameEndSameEvents(data: Bytes, seen: Bytes, end: ParseResult, runId: string, codec: Codec)
    requires Injective(codec.hash) && Resumable(data, runId, codec) && Resumable(seen, runId, codec)
    requires EndsAlike(ParsedEvents(data, 0, codec.parser), end) && EndsAlike(ParsedEvents(seen, 0, codec.parser), end)
    ensures EventsIn(data, codec) == EventsIn(seen, codec)
  {
    HeadCommits(EventsIn(data, codec), EventsIn(seen, codec), codec.hash);
  }

  lemma SameEventsRestored(w: Writer, seen: Bytes, data: Bytes, runId: string, codec: Codec)
    requires InStep(w, seen, runId, codec) && Resumable(data, runId, codec)
    requires EventsIn(data, codec) == EventsIn(seen, codec) && |data| == w.size
    ensures w == Restored(data, codec).(tail := w.tail)
    ensures InStep(w, data, runId, codec) <==> FinalLine(data) == w.tail
  {
  }

  lemma LastEventSeen(tail: Bytes, data: Bytes, codec: Codec)
    requires ReadsWholeLine(codec.parser) && HoldsEvent(tail, codec) && tail != [] && tail[0] != NEWLINE
    requires |tail| <= |data| && data[|data| - |tail|..] == tail && ParsedEvents(data, 0, codec.parser).Ok?
    ensures EndsAlike(ParsedEvents(data, 0, codec.parser), ParsedEvents(tail, 0, codec.parser))
  {
    var prefix := data[..|data| - |tail|];
    assert data == prefix + tail;
    LastEventOfSuffix(prefix, tail, codec);
  }

  /** A file cannot end in the writer's line, at the writer's length, as part of a longer line, unless
      the byte before it is not a newline: the suffix comparison finds the final line exactly then. */
  lemma SuffixIsFinalLine(w: Writer, seen: Bytes, data: Bytes)
    requires w.tail == FinalLine(seen) && w.size == |seen| && TailUnchanged(w, data)
    ensures FinalLine(data) == w.tail <==> EndsLine(data[..|data| - |w.tail|])
  {
    FinalLineIsUnique(seen, w.tail);
    FinalLineIsUnique(data, w.tail);
  }

  /** The documented claim that a same-length rewrite always changes the final line fails for files
      that end in a blank line: two such files of one length look alike to the writer, and where
      their heads differ its next event does not chain onto the file. */
  lemma BlankTailHidesRewrite(seen: Bytes, data: Bytes, runId: string, name: string, body: string, codec: Codec)
    requires Resumable(seen, runId, codec) && Resumable(data, runId, codec)
    requires |seen| == |data| >= 2
    requires seen[|seen| - 2..] == [NEWLINE, NEWLINE] && data[|data| - 2..] == [NEWLINE, NEWLINE]
    requires HeadHash(EventsIn(seen, codec)) != HeadHash(EventsIn(data, codec))
    ensures var w := Restored(seen, codec);
      && TailUnchanged(w, data) && Current(w, data, runId, codec) == Some(w)
      && !Chained(EventsIn(data, codec) + [NextOf(w, runId, name, body, codec)], codec.hash)
  {
    assert seen[|seen| - 2] == NEWLINE && seen[|seen| - 1] == NEWLINE && data[|data| - 1] == NEWLINE by {
      assert seen[|seen| - 2..][0] == NEWLINE && seen[|seen| - 2..][1] == NEWLINE && data[|data| - 2..][1] == NEWLINE;
    }
    FinalLineIsUnique(seen, [NEWLINE]);
    var w := Restored(seen, codec);
    var events := EventsIn(data, codec);
    var all := events + [NextOf(w, runId, name, body, codec)];
    assert all[..|events|] == events;
    assert !Linked(all, |events|, codec.hash);
  }

  /** One event and a blank line after it. */
  function BlankEnded(e: Event, render: Renderer): Bytes {
    LineOf(e, render) + [NEWLINE]
  }

  lemma BlankEndedIsResumable(runId: string, name: string, body: string, codec: Codec, render: Renderer)
    requires ReadsBack(render, codec.parser, codec.hash) && codec.parser("") == Blank
    requires render.accepts(DraftOf(runId, 0, GENESIS_HASH, name, body))
    requires var e := NextEvent(runId, 0, GENESIS_HASH, name, body, codec.hash); OneLine(render.text(e))
    ensures var e := NextEvent(runId, 0, GENESIS_HASH, name, body, codec.hash);
      var data := BlankEnded(e, render);
      && ParsedEvents(data, 0, codec.parser) == Ok([e]) && Resumable(data, runId, codec)
      && |data| >= 2 && data[|data| - 2..] == [NEWLINE, NEWLINE]
  {
    var e := NextEvent(runId, 0, GENESIS_HASH, name, body, codec.hash);
    BlankEndedParses(DraftOf(runId, 0, GENESIS_HASH, name, body), codec, render);
    NextEventExtendsChain([], runId, name, body, codec.hash);
    assert [] + [e] == [e];
  }

  lemma BlankEndedParses(draft: Event, codec: Codec, render: Renderer)
    requires ReadsBack(render, codec.parser, codec.hash) && codec.parser("") == Blank
    requires render.accepts(draft) && OneLine(render.text(Hashed(draft, codec.hash)))
    ensures var e := Hashed(draft, codec.hash);
      var data := BlankEnded(e, render);
      && ParsedEvents(data, 0, codec.parser) == Ok([e])
      && |data| >= 2 && data[|data| - 2..] == [NEWLINE, NEWLINE]
  {
    var e := Hashed(draft, codec.hash);
    var line := LineOf(e, render);
    assert ParsedEvents([], 0, codec.parser) == Ok([]);
    AppendParses([], draft, render, codec.parser, codec.hash);
    assert [] + line == line && [] + [e] == [e] && [e] + [] == [e];
    LineEndsLine(e, render);
    ParseSplits(line, [NEWLINE], codec.parser);
    BlankLineHoldsNothing(|FileLines(line)|, codec.parser);
  }

  /** Such files exist: any two first events of a run whose lines are equally long and whose bodies
      differ, each with a blank line after it. */
  lemma BlankTailWitness(runId: string, name: string, a: string, b: string, codec: Codec, render: Renderer)
    requires ReadsBack(render, codec.parser, codec.hash) && Injective(codec.hash) && codec.parser("") == Blank
    requires a != b && forall body :: body in [a, b] ==>
      var e := NextEvent(runId, 0, GENESIS_HASH, name, body, codec.hash);
      render.accepts(DraftOf(runId, 0, GENESIS_HASH, name, body)) && OneLine(render.text(e))
    requires |LineOf(NextEvent(runId, 0, GENESIS_HASH, name, a, codec.hash), render)|
          == |LineOf(NextEvent(runId, 0, GENESIS_HASH, name, b, codec.hash), render)|
    ensures var seen := BlankEnded(NextEvent(runId, 0, GENESIS_HASH, name, a, codec.hash), render);
      var data := BlankEnded(NextEvent(runId, 0, GENESIS_HASH, name, b, codec.hash), render);
      && Resumable(seen, runId, codec) && Resumable(data, runId, codec)
      && EventsIn(seen, codec) != EventsIn(data, codec)
      && Current(Restored(seen, codec), data, runId, codec) == Some(Restored(seen, codec))
      && !Chained(EventsIn(data, codec) + [NextOf(Restored(seen, codec), runId, name, a, codec)], codec.hash)
  {
    var x, y := DraftOf(runId, 0, GENESIS_HASH, name, a), DraftOf(runId, 0, GENESIS_HASH, name, b);
    assert a in [a, b] && b in [a, b];
    BlankEndedIsResumable(runId, name, a, codec, render);
    BlankEndedIsResumable(runId, name, b, codec, render);
    assert Draft(x) == x && Draft(y) == y && x != y;
    BlankTailHidesRewrite(
      BlankEnded(Hashed(x, codec.hash), render), BlankEnded(Hashed(y, codec.hash), render), runId, name, a, codec);
  }

  // ---- Several writers on one file ----

  datatype Fleet = Fleet(data: Bytes, writers: map<nat, Writer>)

  datatype Write = Write(writer: nat, name: string, body: string, fate: Fate)

  ghost function OneAppend(f: Fleet, s: Write, runId: string, codec: Codec, render: Renderer): Appending
    requires s.writer in f.writers
  {
    AppendBy(f.writers[s.writer], f.data, runId, s.name, s.body, s.fate, codec, render)
  }

  ghost function TakeWrite(f: Fleet, s: Write, runId: string, codec: Codec, render: Renderer): (g: Fleet)
    requires s.writer in f.writers
    ensures g.writers.Keys == f.writers.Keys
  {
    var a := OneAppend(f, s, runId, codec, render);
    Fleet(a.data, f.writers[s.writer := a.writer])
  }

  ghost function Written(f: Fleet, s: Write, runId: string, codec: Codec, render: Renderer): seq<Event>
    requires s.writer in f.writers
  {
    var e := OneAppend(f, s, runId, codec, render).written;
    if e.Some? then [e.value] else []
  }

  /** The event to be written holds no line break. */
  ghost predicate CleanWrite(f: Fleet, s: Write, runId: string, codec: Codec, render: Renderer)
    requires s.writer in f.writers
  {
    forall e :: e in Written(f, s, runId, codec, render) ==> OneLine(render.text(e))
  }

  /** A writer whose last write left nothing in the file, and the file has not grown since: its number
      is past the file's events although size and tail are those of the file. */
  ghost predicate Ahead(w: Writer, data: Bytes, codec: Codec) {
    var parsed := ParsedEvents(data, 0, codec.parser);
    parsed.Ok? && w.size == |data| && w.tail == FinalLine(data) && w.seqNo > |parsed.value|
  }

  /** Nobody who is ahead of the file writes to it. */
  ghost predicate SafeWrite(f: Fleet, s: Write, runId: string, codec: Codec, render: Renderer)
    requires s.writer in f.writers
  {
    Written(f, s, runId, codec, render) == [] || !Ahead(f.writers[s.writer], f.data, codec)
  }

  ghost predicate KnownWriters(f: Fleet, steps: seq<Write>) {
    forall i :: 0 <= i < |steps| ==> steps[i].writer in f.writers
  }

  ghost function RunWrites(f: Fleet, steps: seq<Write>, runId: string, codec: Codec, render: Renderer): Fleet
    requires KnownWriters(f, steps)
    decreases |steps|
  {
    if steps == [] then f
    else RunWrites(TakeWrite(f, steps[0], runId, codec, render), steps[1..], runId, codec, render)
  }

  ghost function RunWritten(f: Fleet, steps: seq<Write>, runId: string, codec: Codec, render: Renderer): seq<Event>
    requires KnownWriters(f, steps)
    decreases |steps|
  {
    if steps == [] then []
    else
      Written(f, steps[0], runId, codec, render)
      + RunWritten(TakeWrite(f, steps[0], runId, codec, render), steps[1..], runId, codec, render)
  }

  /** The writes of the run that reached the file, in order. */
  ghost function RunWrote(f: Fleet, steps: seq<Write>, runId: string, codec: Codec, render: Renderer): seq<Write>
    requires KnownWriters(f, steps)
    decreases |steps|
  {
    if steps == [] then []
    else
      (if Written(f, steps[0], runId, codec, render) == [] then [] else [steps[0]])
      + RunWrote(TakeWrite(f, steps[0], runId, codec, render), steps[1..], runId, codec, render)
  }

  /** Write by write: each event carries the type and payload its write passed. */
  ghost predicate EachAsked(events: seq<Event>, writes: seq<Write>, runId: string) {
    && |events| == |writes|
    && forall i :: 0 <= i < |events| ==>
         && AskedFor(events[i], runId, writes[i].name, writes[i].body)
         && (writes[i].fate.Completes? || writes[i].fate.NotSynced?)
  }

  lemma {:induction false} RunWritesWhatIsAsked(
    f: Fleet, steps: seq<Write>, runId: string, codec: Codec, render: Renderer)
    requires KnownWriters(f, steps)
    ensures EachAsked(
      RunWritten(f, steps, runId, codec, render), RunWrote(f, steps, runId, codec, render), runId)
    decreases |steps|
  {
    if steps != [] {
      var s := steps[0];
      var g := TakeWrite(f, s, runId, codec, render);
      WrittenIsAskedFor(f.writers[s.writer], f.data, runId, s.name, s.body, s.fate, codec, render);
      RunWritesWhatIsAsked(g, steps[1..], runId, codec, render);
      var own := if Written(f, s, runId, codec, render) == [] then [] else [s];
      assert EachAsked(Written(f, s, runId, codec, render), own, runId);
      AskedJoins(Written(f, s, runId, codec, render), own,
        RunWritten(g, steps[1..], runId, codec, render), RunWrote(g, steps[1..], runId, codec, render), runId);
    }
  }

  lemma AskedJoins(a: seq<Event>, x: seq<Write>, b: seq<Event>, y: seq<Write>, runId: string)
    requires EachAsked(a, x, runId) && EachAsked(b, y, runId)
    ensures EachAsked(a + b, x + y, runId)
  {
  }

  ghost predicate RunsClean(f: Fleet, steps: seq<Write>, runId: string, codec: Codec, render: Renderer)
    requires KnownWriters(f, steps)
    decreases |steps|
  {
    steps != [] ==>
      && CleanWrite(f, steps[0], runId, codec, render)
      && RunsClean(TakeWrite(f, steps[0], runId, codec, render), steps[1..], runId, codec, render)
  }

  ghost predicate RunsSafely(f: Fleet, steps: seq<Write>, runId: string, codec: Codec, render: Renderer)
    requires KnownWriters(f, steps)
    decreases |steps|
  {
    steps != [] ==>
      && SafeWrite(f, steps[0], runId, codec, render)
      && RunsSafely(TakeWrite(f, steps[0], runId, codec, render), steps[1..], runId, codec, render)
  }

  /** Every writer matches the file, or is behind it, which shows in its size, or is ahead of it. */
  ghost predicate FleetSound(f: Fleet, runId: string, codec: Codec) {
    && EndsLine(f.data) && Resumable(f.data, runId, codec)
    && forall k :: k in f.writers ==> WriterSound(f.writers[k], f.data, runId, codec)
  }

  ghost predicate WriterSound(w: Writer, data: Bytes, runId: string, codec: Codec) {
    InStep(w, data, runId, codec) || w.size < |data| || Ahead(w, data, codec)
  }

  /** A writer that may append works from the head of the file, unless it is ahead of it. */
  lemma CurrentOfSound(known: Writer, data: Bytes, runId: string, codec: Codec)
    requires Resumable(data, runId, codec) && WriterSound(known, data, runId, codec)
    ensures var w := Current(known, data, runId, codec);
      w.Some? && (if Ahead(known, data, codec) then w.value == known else InStep(w.value, data, runId, codec))
  {
    RestoredIsUnchanged(data, codec);
    FinalLineIsUnique(data, FinalLine(data));
  }

  /** One append by a writer that is not ahead, however its write ends: the file holds the event exactly
      if it was written, and the writer is in step, behind, or ahead after a write that left nothing. */
  lemma AppendKeepsWriter(
    known: Writer, data: Bytes, runId: string, name: string, body: string, fate: Fate, codec: Codec, render: Renderer)
    requires ReadsBack(render, codec.parser, codec.hash) && EndsLine(data) && Resumable(data, runId, codec)
    requires WriterSound(known, data, runId, codec)
    requires var e := AppendBy(known, data, runId, name, body, fate, codec, render).written;
      e.Some? ==> OneLine(render.text(e.value)) && !Ahead(known, data, codec)
    ensures var a := AppendBy(known, data, runId, name, body, fate, codec, render);
      && EndsLine(a.data) && Resumable(a.data, runId, codec)
      && WriterSound(a.writer, a.data, runId, codec)
      && (fate == NothingWritten || Ahead(known, data, codec) || !Ahead(a.writer, a.data, codec))
      && (a.written.None? ==> a.data == data)
      && (a.written.Some? ==>
            |a.data| > |data| && EventsIn(a.data, codec) == EventsIn(data, codec) + [a.written.value])
  {
    CurrentOfSound(known, data, runId, codec);
    var w := Current(known, data, runId, codec).value;
    if AppendBy(known, data, runId, name, body, fate, codec, render).written.Some? {
      AppendInStep(w, data, runId, name, body, codec, render);
    }
  }

  lemma WriteKeepsFleet(f: Fleet, s: Write, runId: string, codec: Codec, render: Renderer)
    requires ReadsBack(render, codec.parser, codec.hash) && FleetSound(f, runId, codec) && s.writer in f.writers
    requires CleanWrite(f, s, runId, codec, render) && SafeWrite(f, s, runId, codec, render)
    ensures var g := TakeWrite(f, s, runId, codec, render);
      && FleetSound(g, runId, codec)
      && EventsIn(g.data, codec) == EventsIn(f.data, codec) + Written(f, s, runId, codec, render)
  {
    var a := OneAppend(f, s, runId, codec, render);
    assert a.written.Some? ==> a.written.value in Written(f, s, runId, codec, render);
    AppendKeepsWriter(f.writers[s.writer], f.data, runId, s.name, s.body, s.fate, codec, render);
    var g := TakeWrite(f, s, runId, codec, render);
    forall k | k in g.writers ensures WriterSound(g.writers[k], g.data, runId, codec) {
      if k != s.writer {
        assert WriterSound(f.writers[k], f.data, runId, codec);
      }
    }
  }

  /** The file parses but its chain does not verify: no writer can resume it. */
  ghost predicate Broken(data: Bytes, codec: Codec) {
    var parsed := ParsedEvents(data, 0, codec.parser);
    EndsLine(data) && parsed.Ok? && !Chained(parsed.value, codec.hash)
  }

  lemma AppendedLine(data: Bytes, draft: Event, codec: Codec, render: Renderer)
    requires ReadsBack(render, codec.parser, codec.hash) && render.accepts(draft)
    requires OneLine(render.text(Hashed(draft, codec.hash)))
    requires EndsLine(data) && ParsedEvents(data, 0, codec.parser).Ok?
    ensures var e := Hashed(draft, codec.hash);
      && EndsLine(data + LineOf(e, render))
      && ParsedEvents(data + LineOf(e, render), 0, codec.parser) == Ok(EventsIn(data, codec) + [e])
  {
    AppendParses(data, draft, render, codec.parser, codec.hash);
    FinalLineOfAppended(data, Hashed(draft, codec.hash), render);
  }

  /** A write by a writer ahead of the file breaks the chain. */
  lemma AheadWriteBreaks(f: Fleet, s: Write, runId: string, codec: Codec, render: Renderer)
    requires ReadsBack(render, codec.parser, codec.hash) && FleetSound(f, runId, codec) && s.writer in f.writers
    requires CleanWrite(f, s, runId, codec, render) && !SafeWrite(f, s, runId, codec, render)
    ensures Broken(TakeWrite(f, s, runId, codec, render).data, codec)
  {
    var known := f.writers[s.writer];
    CurrentOfSound(known, f.data, runId, codec);
    var e := OneAppend(f, s, runId, codec, render).written.value;
    assert e in Written(f, s, runId, codec, render);
    AppendedLine(f.data, DraftBy(known, runId, s.name, s.body), codec, render);
    var all := EventsIn(f.data, codec) + [e];
    assert !Linked(all, |all| - 1, codec.hash);
  }

  /** A broken chain stays broken, whoever writes. */
  lemma BrokenStays(f: Fleet, s: Write, runId: string, codec: Codec, render: Renderer)
    requires ReadsBack(render, codec.parser, codec.hash) && Broken(f.data, codec) && s.writer in f.writers
    requires CleanWrite(f, s, runId, codec, render)
    ensures Broken(TakeWrite(f, s, runId, codec, render).data, codec)
  {
    var a := OneAppend(f, s, runId, codec, render);
    if a.written.Some? {
      assert a.written.value in Written(f, s, runId, codec, render);
      AppendedLine(f.data, DraftBy(f.writers[s.writer], runId, s.name, s.body), codec, render);
      var events := EventsIn(f.data, codec);
      assert (events + [a.written.value])[..|events|] == events;
      if Chained(events + [a.written.value], codec.hash) {
        ChainedPrefix(events + [a.written.value], |events|, codec.hash);
      }
    }
  }

  lemma {:induction false} RunStaysBroken(f: Fleet, steps: seq<Write>, runId: string, codec: Codec, render: Renderer)
    requires ReadsBack(render, codec.parser, codec.hash) && Broken(f.data, codec)
    requires KnownWriters(f, steps) && RunsClean(f, steps, runId, codec, render)
    ensures Broken(RunWrites(f, steps, runId, codec, render).data, codec)
    decreases |steps|
  {
    if steps != [] {
      BrokenStays(f, steps[0], runId, codec, render);
      RunStaysBroken(TakeWrite(f, steps[0], runId, codec, render), steps[1..], runId, codec, render);
    }
  }

  lemma {:induction false} SafeRunKeepsOneChain(
    f: Fleet, steps: seq<Write>, runId: string, codec: Codec, render: Renderer)
    requires ReadsBack(render, codec.parser, codec.hash) && FleetSound(f, runId, codec)
    requires KnownWriters(f, steps) && RunsClean(f, steps, runId, codec, render)
    requires RunsSafely(f, steps, runId, codec, render)
    ensures var g := RunWrites(f, steps, runId, codec, render);
      && FleetSound(g, runId, codec)
      && EventsIn(g.data, codec) == EventsIn(f.data, codec) + RunWritten(f, steps, runId, codec, render)
    decreases |steps|
  {
    if steps != [] {
      var g := TakeWrite(f, steps[0], runId, codec, render);
      WriteKeepsFleet(f, steps[0], runId, codec, render);
      SafeRunKeepsOneChain(g, steps[1..], runId, codec, render);
      JoinWritten(EventsIn(f.data, codec), Written(f, steps[0], runId, codec, render),
                  RunWritten(g, steps[1..], runId, codec, render));
    }
  }

  lemma JoinWritten(a: seq<Event>, b: seq<Event>, c: seq<Event>)
    ensures a + b + c == a + (b + c)
  {
  }

  lemma {:induction false} UnsafeRunBreaksChain(
    f: Fleet, steps: seq<Write>, runId: string, codec: Codec, render: Renderer)
    requires ReadsBack(render, codec.parser, codec.hash) && FleetSound(f, runId, codec)
    requires KnownWriters(f, steps) && RunsClean(f, steps, runId, codec, render)
    requires !RunsSafely(f, steps, runId, codec, render)
    ensures Broken(RunWrites(f, steps, runId, codec, render).data, codec)
    decreases |steps|
  {
    var g := TakeWrite(f, steps[0], runId, codec, render);
    assert RunWrites(f, steps, runId, codec, render) == RunWrites(g, steps[1..], runId, codec, render);
    if SafeWrite(f, steps[0], runId, codec, render) {
      WriteKeepsFleet(f, steps[0], runId, codec, render);
      UnsafeRunBreaksChain(g, steps[1..], runId, codec, render);
    } else {
      AheadWriteBreaks(f, steps[0], runId, codec, render);
      RunStaysBroken(g, steps[1..], runId, codec, render);
    }
  }

  /** Any interleaving of appends by any number of writers, some of whose writes fail, keeps one valid
      single-run chain that gains exactly the written events, in order, with every writer in step,
      detectably stale or ahead: exactly as long as no writer writes that is ahead of the file. Each
      event written carries the type and payload its write passed. */
  lemma EveryInterleavingKeepsOneChain(
    f: Fleet, steps: seq<Write>, runId: string, codec: Codec, render: Renderer)
    requires ReadsBack(render, codec.parser, codec.hash) && FleetSound(f, runId, codec)
    requires KnownWriters(f, steps) && RunsClean(f, steps, runId, codec, render)
    ensures var g := RunWrites(f, steps, runId, codec, render);
      if RunsSafely(f, steps, runId, codec, render) then
        && FleetSound(g, runId, codec)
        && EventsIn(g.data, codec) == EventsIn(f.data, codec) + RunWritten(f, steps, runId, codec, render)
      else Broken(g.data, codec)
    ensures EachAsked(
      RunWritten(f, steps, runId, codec, render), RunWrote(f, steps, runId, codec, render), runId)
  {
    RunWritesWhatIsAsked(f, steps, runId, codec, render);
    if RunsSafely(f, steps, runId, codec, render) {
      SafeRunKeepsOneChain(f, steps, runId, codec, render);
    } else {
      UnsafeRunBreaksChain(f, steps, runId, codec, render);
    }
  }

  /** Without a write that leaves nothing, nobody gets ahead and every run is safe. */
  lemma {:induction false} WholeWritesAreSafe(
    f: Fleet, steps: seq<Write>, runId: string, codec: Codec, render: Renderer)
    requires ReadsBack(render, codec.parser, codec.hash) && FleetSound(f, runId, codec)
    requires KnownWriters(f, steps) && RunsClean(f, steps, runId, codec, render)
    requires forall i :: 0 <= i < |steps| ==> steps[i].fate != NothingWritten
    requires forall k :: k in f.writers ==> !Ahead(f.writers[k], f.data, codec)
    ensures RunsSafely(f, steps, runId, codec, render)
    decreases |steps|
  {
    if steps != [] {
      var g := TakeWrite(f, steps[0], runId, codec, render);
      WriteKeepsFleet(f, steps[0], runId, codec, render);
      NobodyGetsAhead(f, steps[0], runId, codec, render);
      WholeWritesAreSafe(g, steps[1..], runId, codec, render);
    }
  }

  lemma NobodyGetsAhead(f: Fleet, s: Write, runId: string, codec: Codec, render: Renderer)
    requires ReadsBack(render, codec.parser, codec.hash) && FleetSound(f, runId, codec) && s.writer in f.writers
    requires CleanWrite(f, s, runId, codec, render) && s.fate != NothingWritten
    requires forall k :: k in f.writers ==> !Ahead(f.writers[k], f.data, codec)
    ensures var g := TakeWrite(f, s, runId, codec, render);
      forall k :: k in g.writers ==> !Ahead(g.writers[k], g.data, codec)
  {
    var a := OneAppend(f, s, runId, codec, render);
    assert a.written.Some? ==> a.written.value in Written(f, s, runId, codec, render);
    AppendKeepsWriter(f.writers[s.writer], f.data, runId, s.name, s.body, s.fate, codec, render);
    var g := TakeWrite(f, s, runId, codec, render);
    forall k | k in g.writers ensures !Ahead(g.writers[k], g.data, codec) {
      if k != s.writer {
        assert WriterSound(f.writers[k], f.data, runId, codec);
      }
    }
  }

  // ---- One writer and the states of its chain ----

  /** What each state says of the file and the writer's memory. */
  ghost predicate Stands(s: ChainState, w: Writer, data: Bytes, runId: string, codec: Codec) {
    match s
    case Held => EndsLine(data) && Resumable(data, runId, codec) && (InStep(w, data, runId, codec) || w.size < |data|)
    case Ahead => EndsLine(data) && Resumable(data, runId, codec) && Ahead(w, data, codec)
    case Broken => Broken(data, codec) && TailUnchanged(w, data)
    case Stuck => Broken(data, codec) && !TailUnchanged(w, data)
  }

  function Effective(fate: Fate, accepted: bool): Fate {
    if accepted then fate else Fate.Refused
  }

  /** The draft an append would make of what the writer works from. */
  ghost predicate Accepted(
    known: Writer, data: Bytes, runId: string, name: string, body: string, codec: Codec, render: Renderer)
  {
    var w := Current(known, data, runId, codec);
    w.Some? && render.accepts(DraftBy(w.value, runId, name, body))
  }

  lemma StandsVerifies(s: ChainState, w: Writer, data: Bytes, runId: string, codec: Codec)
    requires Stands(s, w, data, runId, codec)
    ensures ParsedEvents(data, 0, codec.parser).Ok?
    ensures EventsVerdict(EventsIn(data, codec), codec.hash).Valid? <==> Verifies(s)
  {
    ValidMeansChained(EventsIn(data, codec), codec.hash);
  }

  /** Every append moves file and writer from state to state as `After` says, writes its line exactly when
      `Writes` says so, and returns an event exactly when `Returns` does. */
  lemma AppendFollowsStates(
    s: ChainState, known: Writer, data: Bytes, runId: string, name: string, body: string, fate: Fate,
    codec: Codec, render: Renderer)
    requires ReadsBack(render, codec.parser, codec.hash) && Stands(s, known, data, runId, codec)
    requires var e := AppendBy(known, data, runId, name, body, fate, codec, render).written;
      e.Some? ==> OneLine(render.text(e.value))
    ensures var a := AppendBy(known, data, runId, name, body, fate, codec, render);
      var effective := Effective(fate, Accepted(known, data, runId, name, body, codec, render));
      && Stands(After(s, effective), a.writer, a.data, runId, codec)
      && (a.written.Some? <==> Writes(s, effective))
      && (a.written.Some? && fate.Completes? <==> Returns(s, effective))
  {
    if Verifies(s) {
      AppendOnVerified(s, known, data, runId, name, body, fate, codec, render);
    } else {
      AppendOnBroken(s, known, data, runId, name, body, fate, codec, render);
    }
  }

  lemma AppendOnVerified(
    s: ChainState, known: Writer, data: Bytes, runId: string, name: string, body: string, fate: Fate,
    codec: Codec, render: Renderer)
    requires ReadsBack(render, codec.parser, codec.hash) && Stands(s, known, data, runId, codec) && Verifies(s)
    requires var e := AppendBy(known, data, runId, name, body, fate, codec, render).written;
      e.Some? ==> OneLine(render.text(e.value))
    ensures var a := AppendBy(known, data, runId, name, body, fate, codec, render);
      var effective := Effective(fate, Accepted(known, data, runId, name, body, codec, render));
      && Stands(After(s, effective), a.writer, a.data, runId, codec)
      && (a.written.Some? <==> Writes(s, effective))
  {
    CurrentOfSound(known, data, runId, codec);
    var w := Current(known, data, runId, codec).value;
    if s.Held? {
      HeldAppend(w, data, runId, name, body, fate, codec, render);
    } else {
      AheadAppend(w, data, runId, name, body, fate, codec, render);
    }
  }

  lemma HeldAppend(
    w: Writer, data: Bytes, runId: string, name: string, body: string, fate: Fate, codec: Codec, render: Renderer)
    requires ReadsBack(render, codec.parser, codec.hash) && EndsLine(data) && InStep(w, data, runId, codec)
    requires var e := AppendFrom(w, data, runId, name, body, fate, codec, render).written;
      e.Some? ==> OneLine(render.text(e.value))
    ensures var a := AppendFrom(w, data, runId, name, body, fate, codec, render);
      var effective := Effective(fate, render.accepts(DraftBy(w, runId, name, body)));
      && Stands(After(ChainState.Held, effective), a.writer, a.data, runId, codec)
      && (a.written.Some? <==> Writes(ChainState.Held, effective))
  {
    if Effective(fate, render.accepts(DraftBy(w, runId, name, body))) in {Completes, NotSynced} {
      HeldWrite(w, data, runId, name, body, codec, render);
    }
  }

  lemma AheadAppend(
    w: Writer, data: Bytes, runId: string, name: string, body: string, fate: Fate, codec: Codec, render: Renderer)
    requires ReadsBack(render, codec.parser, codec.hash) && Stands(ChainState.Ahead, w, data, runId, codec)
    requires var e := AppendFrom(w, data, runId, name, body, fate, codec, render).written;
      e.Some? ==> OneLine(render.text(e.value))
    ensures var a := AppendFrom(w, data, runId, name, body, fate, codec, render);
      var effective := Effective(fate, render.accepts(DraftBy(w, runId, name, body)));
      && Stands(After(ChainState.Ahead, effective), a.writer, a.data, runId, codec)
      && (a.written.Some? <==> Writes(ChainState.Ahead, effective))
  {
    if Effective(fate, render.accepts(DraftBy(w, runId, name, body))) in {Completes, NotSynced} {
      PastEventDoesNotChain(EventsIn(data, codec), NextOf(w, runId, name, body, codec), codec);
      RestoredIsUnchanged(data, codec);
      BreakingWrite(w, data, runId, name, body, codec, render);
    }
  }

  /** A line written by a writer in step: synced or not, the chain is held. */
  lemma HeldWrite(w: Writer, data: Bytes, runId: string, name: string, body: string, codec: Codec, render: Renderer)
    requires ReadsBack(render, codec.parser, codec.hash) && render.accepts(DraftBy(w, runId, name, body))
    requires InStep(w, data, runId, codec) && EndsLine(data)
    requires OneLine(render.text(NextOf(w, runId, name, body, codec)))
    ensures var e := NextOf(w, runId, name, body, codec);
      var after := data + LineOf(e, render);
      && Stands(ChainState.Held, AfterAppend(w, e, LineOf(e, render)), after, runId, codec)
      && Stands(ChainState.Held, Advanced(w, e), after, runId, codec)
  {
    AppendInStep(w, data, runId, name, body, codec, render);
  }

  /** A line written that does not chain: synced, the writer will not notice; not synced, it will. */
  lemma BreakingWrite(w: Writer, data: Bytes, runId: string, name: string, body: string, codec: Codec, render: Renderer)
    requires ReadsBack(render, codec.parser, codec.hash) && render.accepts(DraftBy(w, runId, name, body))
    requires OneLine(render.text(NextOf(w, runId, name, body, codec)))
    requires EndsLine(data) && ParsedEvents(data, 0, codec.parser).Ok? && TailUnchanged(w, data)
    requires !Chained(EventsIn(data, codec) + [NextOf(w, runId, name, body, codec)], codec.hash)
    ensures var e := NextOf(w, runId, name, body, codec);
      var after := data + LineOf(e, render);
      && Stands(ChainState.Broken, AfterAppend(w, e, LineOf(e, render)), after, runId, codec)
      && Stands(ChainState.Stuck, Advanced(w, e), after, runId, codec)
  {
    var e := NextOf(w, runId, name, body, codec);
    AppendedLine(data, DraftBy(w, runId, name, body), codec, render);
    LineEndsLine(e, render);
    SuffixOfLonger(data, LineOf(e, render));
  }

  lemma SuffixOfLonger(data: Bytes, line: Bytes)
    ensures (data + line)[|data + line| - |line|..] == line
  {
  }

  lemma PastEventDoesNotChain(events: seq<Event>, e: Event, codec: Codec)
    requires e.seqNo > |events|
    ensures !Chained(events + [e], codec.hash)
  {
    assert !Linked(events + [e], |events|, codec.hash);
  }

  lemma AppendOnBroken(
    s: ChainState, known: Writer, data: Bytes, runId: string, name: string, body: string, fate: Fate,
    codec: Codec, render: Renderer)
    requires ReadsBack(render, codec.parser, codec.hash) && Stands(s, known, data, runId, codec) && !Verifies(s)
    requires var e := AppendBy(known, data, runId, name, body, fate, codec, render).written;
      e.Some? ==> OneLine(render.text(e.value))
    ensures var a := AppendBy(known, data, runId, name, body, fate, codec, render);
      var effective := Effective(fate, Accepted(known, data, runId, name, body, codec, render));
      && Stands(After(s, effective), a.writer, a.data, runId, codec)
      && (a.written.Some? <==> Writes(s, effective))
  {
    if s.Broken? && Effective(fate, Accepted(known, data, runId, name, body, codec, render)) in {Completes, NotSynced} {
      LongerStaysBroken(EventsIn(data, codec), NextOf(known, runId, name, body, codec), codec);
      BreakingWrite(known, data, runId, name, body, codec, render);
    }
  }

  lemma LongerStaysBroken(events: seq<Event>, e: Event, codec: Codec)
    requires !Chained(events, codec.hash)
    ensures !Chained(events + [e], codec.hash)
  {
    assert (events + [e])[..|events|] == events;
    if Chained(events + [e], codec.hash) { ChainedPrefix(events + [e], |events|, codec.hash); }
  }

  /** The breaking run: from any writer in step, one write that leaves nothing and one that completes. */
  lemma LostWriteBreaksChain(
    w: Writer, data: Bytes, runId: string, name: string, body: string, codec: Codec, render: Renderer)
    requires ReadsBack(render, codec.parser, codec.hash) && EndsLine(data) && InStep(w, data, runId, codec)
    requires var next := Advanced(w, NextOf(w, runId, name, body, codec));
      && render.accepts(DraftBy(w, runId, name, body)) && render.accepts(DraftBy(next, runId, name, body))
      && OneLine(render.text(NextOf(next, runId, name, body, codec)))
    ensures var lost := AppendBy(w, data, runId, name, body, NothingWritten, codec, render);
      var whole := AppendBy(lost.writer, lost.data, runId, name, body, Completes, codec, render);
      && lost.data == data && lost.writer == Advanced(w, NextOf(w, runId, name, body, codec))
      && whole.written.Some? && Broken(whole.data, codec)
  {
    RestoredIsUnchanged(data, codec);
    AppendFollowsStates(Held, w, data, runId, name, body, NothingWritten, codec, render);
    var next := Advanced(w, NextOf(w, runId, name, body, codec));
    CurrentOfSound(next, data, runId, codec);
    AppendFollowsStates(ChainState.Ahead, next, data, runId, name, body, Completes, codec, render);
  }

  // ---- The writer object ----

  /** The file as every writer on it sees it. */
  class LogFile {
    var data: Bytes

    constructor (data: Bytes)
      ensures this.data == data
    {
      this.data := data;
    }
  }

  class EventLog {
    const runId: string
    const codec: Codec
    const render: Renderer
    const file: LogFile
    const cache: PLC.Cache
    var seqNo: nat
    var prevHash: string
    var size: nat
    var tail: Bytes

    /** The chain state before the file is looked at; `Resume` completes the opening. */
    constructor (file: LogFile, runId: string, cache: PLC.Cache, render: Renderer)
      ensures this.file == file && this.runId == runId && this.cache == cache && this.render == render
      ensures codec == cache.codec && seqNo == 0 && prevHash == GENESIS_HASH
    {
      this.file, this.runId, this.cache, this.render := file, runId, cache, render;
      codec := cache.codec;
      seqNo, prevHash, size, tail := 0, GENESIS_HASH, 0, [];
    }

    ghost predicate Valid()
      reads this, cache, cache.Entries()
    {
      cache.Valid() && cache.codec == codec && CollisionFree(codec)
    }

    function Memory(): Writer
      reads this
    {
      Writer(seqNo, prevHash, size, tail)
    }

    /** Read and verify the file before resuming or appending to it. */
    method LoadExisting() returns (existing: Result<seq<Event>, LogError>)
      requires Valid()
      modifies cache, cache.Entries()
      ensures Valid()
      ensures existing.Ok? <==> Resumable(file.data, runId, codec)
      ensures existing.Ok? ==> existing.value == EventsIn(file.data, codec)
    {
      if |file.data| == 0 {
        assert ParsedEvents([], 0, codec.parser) == Ok([]);
        return Ok([]);
      }
      var loaded := cache.Load("path", file.data);
      if loaded.Err? {
        return Err(Unreadable(loaded.error));
      }
      var entry := loaded.value;
      var verdict := cache.Verification(entry);
      ValidMeansChained(entry.events, codec.hash);
      if verdict.Invalid? {
        return Err(NotVerified(verdict));
      }
      if entry.events != [] && entry.events[0].runId != runId {
        return Err(OtherRun(entry.events[0].runId));
      }
      existing := Ok(entry.events);
    }

    /** `__init__` on a file that exists: the chain is resumed only if the file verifies. */
    method Resume() returns (resumed: Result<Writer, LogError>)
      requires Valid() && seqNo == 0 && prevHash == GENESIS_HASH
      modifies this, cache, cache.Entries()
      ensures Valid()
      ensures resumed.Ok? <==> Resumable(file.data, runId, codec)
      ensures resumed.Ok? ==> resumed.value == Memory() && InStep(Memory(), file.data, runId, codec)
    {
      var existing := LoadExisting();
      if existing.Err? {
        return Err(existing.error);
      }
      Restore(existing.value);
      SeeTail();
      resumed := Ok(Memory());
    }

    method Restore(events: seq<Event>)
      requires Chained(events, codec.hash)
      modifies this`seqNo, this`prevHash
      ensures events != [] ==> seqNo == |events| && prevHash == HeadHash(events)
      ensures events == [] ==> seqNo == old(seqNo) && prevHash == old(prevHash)
    {
      if events != [] {
        HeadOfChain(events, codec.hash);
        seqNo := events[|events| - 1].seqNo + 1;
        prevHash := events[|events| - 1].hash.GetOr(GENESIS_HASH);
      }
    }

    /** The cheap precondition of an append: one size and one line. */
    method SeesTailUnchanged() returns (same: bool)
      ensures same == TailUnchanged(Memory(), file.data)
    {
      if |file.data| != size {
        return false;
      }
      if size == 0 {
        return true;
      }
      same := |tail| <= |file.data| && file.data[size - |tail|..] == tail;
    }

    method Reload(events: seq<Event>)
      requires Chained(events, codec.hash)
      modifies this
      ensures Memory() == Writer(|events|, HeadHash(events), |file.data|, FinalLine(file.data))
    {
      seqNo, prevHash := 0, GENESIS_HASH;
      Restore(events);
      SeeTail();
    }

    method SeeTail()
      modifies this`size, this`tail
      ensures size == |file.data| && tail == FinalLine(file.data)
    {
      size, tail := ReadTail(file.data, TAIL_CHUNK);
    }

    /** The first half of an append: re-read and re-verify only when the tail changed. */
    method Refresh() returns (ready: Result<Writer, LogError>)
      requires Valid()
      modifies this, cache, cache.Entries()
      ensures Valid()
      ensures match Current(old(Memory()), file.data, runId, codec)
        case None => ready.Err? && Memory() == old(Memory())
        case Some(w) => ready == Ok(w) && Memory() == w
    {
      var isSame := SeesTailUnchanged();
      if !isSame {
        var existing := LoadExisting();
        if existing.Err? {
          return Err(existing.error);
        }
        Reload(existing.value);
      }
      ready := Ok(Memory());
    }

    /** One append: file, writer and written event are those of `AppendBy`, and the caller gets the event
        exactly if its line was written and synced. The event carries the caller's type and payload. */
    method Append(name: string, body: string, fate: Fate) returns (result: Result<Event, LogError>)
      requires Valid()
      modifies this, file, cache, cache.Entries()
      ensures Valid()
      ensures var a := AppendBy(old(Memory()), old(file.data), runId, name, body, fate, codec, render);
        && file.data == a.data && Memory() == a.writer
        && (result.Ok? <==> a.written.Some? && fate.Completes?)
        && (result.Ok? ==> result.value == a.written.value)
        && (a.written.Some? ==> AskedFor(a.written.value, runId, name, body))
    {
      WrittenIsAskedFor(Memory(), file.data, runId, name, body, fate, codec, render);
      var ready := Refresh();
      if ready.Err? {
        return Err(ready.error);
      }
      result := AppendNext(name, body, fate);
    }

    /** The second half: build the event from the memory and write its line. */
    method AppendNext(name: string, body: string, fate: Fate) returns (result: Result<Event, LogError>)
      modifies this, file
      ensures var a := AppendFrom(old(Memory()), old(file.data), runId, name, body, fate, codec, render);
        && file.data == a.data && Memory() == a.writer
        && (result.Ok? <==> a.written.Some? && fate.Completes?)
        && (result.Ok? ==> result.value == a.written.value)
        && (a.written.Some? ==> AskedFor(a.written.value, runId, name, body))
    {
      var draft := DraftOf(runId, seqNo, prevHash, name, body);
      if fate == Fate.Refused || !render.accepts(draft) {
        return Err(InvalidEvent);
      }
      var e := Hashed(draft, codec.hash);
      seqNo, prevHash := seqNo + 1, e.hash.GetOr(GENESIS_HASH);
      var ok := WriteLine(LineOf(e, render), fate);
      result := if ok then Ok(e) else Err(WriteFailed);
    }

    /** Open, write and sync; size and tail follow only a synced line. */
    method WriteLine(line: Bytes, fate: Fate) returns (ok: bool)
      requires fate != Fate.Refused
      modifies file, this`size, this`tail
      ensures ok <==> fate == Completes
      ensures file.data == if fate == NothingWritten then old(file.data) else old(file.data) + line
      ensures if ok then size == old(size) + |line| && tail == line else size == old(size) && tail == old(tail)
    {
      if fate == NothingWritten {
        return false;
      }
      file.data := file.data + line;
      if fate == NotSynced {
        return false;
      }
      size, tail := size + |line|, line;
      ok := true;
    }
  }
}

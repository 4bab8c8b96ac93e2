/** The laws of a follow: the replies decide its outcome, and over whole replies it cannot fail. */
module FollowLaws {
  import opened Options
  import opened EventFeed
  import opened EventReading
  import opened FollowStates

  // ---- One outcome ----

  lemma CatchesOneWay(
    pages: Pages, p: Standing, q: Standing, f: Option<Failure>, r: Standing, g: Option<Failure>,
    log: seq<EventView>, terminal: Terminal)
    requires Catches(pages, p, q, f, log, terminal) && Catches(pages, p, r, g, log, terminal)
    ensures q == r && f == g
  {
    var a :| Reads(pages, p.cursor, a, f) &&
      var s := p.(held := p.held + Span(p.cursor, a));
      if f.Some? then q == s else Yields(s, q, log, terminal);
    var b :| Reads(pages, p.cursor, b, g) &&
      var s := p.(held := p.held + Span(p.cursor, b));
      if g.Some? then r == s else Yields(s, r, log, terminal);
    ReadEndsOneWay(pages, p.cursor, a, f, b, g);
  }

  lemma MergesOneWay(
    frame: Frame, p: Standing, q: Standing, f: Option<Failure>, r: Standing, g: Option<Failure>,
    log: seq<EventView>, terminal: Terminal)
    requires Merges(frame, p, q, f, log, terminal) && Merges(frame, p, r, g, log, terminal)
    ensures q == r && f == g
  {
    var n := frame.event.seqNo;
    if n > p.cursor + 1 && p.repairs < MAX_EVENT_REPAIRS {
      CatchesOneWay(
        frame.repair, p.(held := p.held + {n}, repairs := p.repairs + 1), q, f, r, g, log, terminal);
    }
  }

  lemma {:induction false} OneStreaming(
    c: Connection, a: seq<Standing>, b: seq<Standing>, p: Standing, k: nat, log: seq<EventView>, terminal: Terminal)
    requires c.Opened? && Streamed(c, a, p, log, terminal) && Streamed(c, b, p, log, terminal) && k < |a| && k < |b|
    ensures a[k] == b[k]
  {
    if k > 0 {
      OneStreaming(c, a, b, p, k - 1, log, terminal);
      assert Passes(c.frames[k - 1], a[k - 1], a[k - 1 + 1], log, terminal);
      assert Passes(c.frames[k - 1], b[k - 1], b[k - 1 + 1], log, terminal);
      MergesOneWay(c.frames[k - 1], a[k - 1], a[k - 1 + 1], None, b[k - 1 + 1], None, log, terminal);
    }
  }

  /** A stream does not end before a live event that neither fails nor ends the follow. */
  lemma StreamNotLonger(
    c: Connection, a: seq<Standing>, b: seq<Standing>, p: Standing, q: Standing, f: Option<Failure>,
    log: seq<EventView>, terminal: Terminal)
    requires c.Opened? && Streamed(c, a, p, log, terminal) && Streamed(c, b, p, log, terminal)
    requires StreamEnds(c, |a| - 1, a[|a| - 1], q, f, log, terminal)
    ensures |b| <= |a|
  {
    var k := |a| - 1;
    if |a| < |b| {
      OneStreaming(c, a, b, p, k, log, terminal);
      assert Passes(c.frames[k], b[k], b[k + 1], log, terminal);
      MergesOneWay(c.frames[k], a[k], q, f, b[k + 1], None, log, terminal);
    }
  }

  lemma StreamsOneWay(
    c: Connection, p: Standing, q: Standing, f: Option<Failure>, r: Standing, g: Option<Failure>,
    log: seq<EventView>, terminal: Terminal)
    requires c.Opened? && Streams(c, p, q, f, log, terminal) && Streams(c, p, r, g, log, terminal)
    ensures q == r && f == g
  {
    var a :| Streamed(c, a, p, log, terminal) && StreamEnds(c, |a| - 1, a[|a| - 1], q, f, log, terminal);
    var b :| Streamed(c, b, p, log, terminal) && StreamEnds(c, |b| - 1, b[|b| - 1], r, g, log, terminal);
    StreamNotLonger(c, a, b, p, q, f, log, terminal);
    StreamNotLonger(c, b, a, p, r, g, log, terminal);
    var k := |a| - 1;
    OneStreaming(c, a, b, p, k, log, terminal);
    if k < |c.frames| {
      MergesOneWay(c.frames[k], a[k], q, f, r, g, log, terminal);
    }
  }

  lemma AttemptStep(
    c: Connection, p: Standing, q: Standing, failure: Option<Failure>, log: seq<EventView>, terminal: Terminal)
    returns (m: Standing, f: Option<Failure>)
    requires c.Opened? && Attempts(c, p, q, failure, log, terminal)
    ensures Opens(c, p, m, f, log, terminal)
    ensures if f.Some? || m.done then q == m && failure == f
            else Streams(c, m.(read := true), q, failure, log, terminal)
  {
    m, f :| && Opens(c, p, m, f, log, terminal)
            && (if f.Some? || m.done then q == m && failure == f
                else Streams(c, m.(read := true), q, failure, log, terminal));
  }

  lemma AttemptsOneWay(
    c: Connection, p: Standing, q: Standing, f: Option<Failure>, r: Standing, g: Option<Failure>,
    log: seq<EventView>, terminal: Terminal)
    requires Attempts(c, p, q, f, log, terminal) && Attempts(c, p, r, g, log, terminal)
    ensures q == r && f == g
  {
    if c.Opened? {
      var m, x := AttemptStep(c, p, q, f, log, terminal);
      var n, y := AttemptStep(c, p, r, g, log, terminal);
      if !p.read && c.guarded {
        CatchesOneWay(c.history, p, m, x, n, y, log, terminal);
      }
      if !(x.Some? || m.done) {
        StreamsOneWay(c, m.(read := true), q, f, r, g, log, terminal);
      }
    }
  }

  lemma {:induction false} OneLosing(
    connections: nat -> Connection, a: seq<Standing>, b: seq<Standing>, p: Standing, k: nat,
    log: seq<EventView>, terminal: Terminal)
    requires Reconnected(connections, a, p, log, terminal) && Reconnected(connections, b, p, log, terminal)
    requires k < |a| && k < |b|
    ensures a[k] == b[k]
  {
    if k > 0 {
      OneLosing(connections, a, b, p, k - 1, log, terminal);
      var lost := Some(ConnectionLost);
      AttemptsOneWay(connections(k - 1), a[k - 1], a[k - 1 + 1], lost, b[k - 1 + 1], lost, log, terminal);
    }
  }

  lemma FollowNotLonger(
    connections: nat -> Connection, a: seq<Standing>, b: seq<Standing>, p: Standing, q: Standing, f: Option<Failure>,
    log: seq<EventView>, terminal: Terminal)
    requires Reconnected(connections, a, p, log, terminal) && Reconnected(connections, b, p, log, terminal)
    requires LastTry(connections, |a| - 1, a[|a| - 1], q, f, log, terminal)
    ensures |b| <= |a|
  {
    var k: nat := |a| - 1;
    if |a| < |b| {
      OneLosing(connections, a, b, p, k, log, terminal);
      AttemptsOneWay(connections(k), a[k], q, f, b[k + 1], Some(ConnectionLost), log, terminal);
    }
  }

  /** The connections decide how a follow ends: where it stands and how it fails, if it does. */
  lemma FollowEndsOneWay(
    connections: nat -> Connection, p: Standing, q: Standing, f: Option<Failure>,
    r: Standing, g: Option<Failure>, log: seq<EventView>, terminal: Terminal)
    requires Follows(connections, p, q, f, log, terminal) && Follows(connections, p, r, g, log, terminal)
    ensures q == r && f == g
  {
    var a :| Reconnected(connections, a, p, log, terminal) &&
      LastTry(connections, |a| - 1, a[|a| - 1], q, f, log, terminal);
    var b :| Reconnected(connections, b, p, log, terminal) &&
      LastTry(connections, |b| - 1, b[|b| - 1], r, g, log, terminal);
    FollowNotLonger(connections, a, b, p, q, f, log, terminal);
    FollowNotLonger(connections, b, a, p, r, g, log, terminal);
    var k: nat := |a| - 1;
    OneLosing(connections, a, b, p, k, log, terminal);
    AttemptsOneWay(connections(k), a[k], q, f, r, g, log, terminal);
  }

  // ---- Whole replies ----

  /** The frame takes a drained cursor from one number to another; where it leaves a gap, the read that
      repairs it ends without failure and reaches the frame's event. */
  ghost predicate Carries(frame: Frame, from: int, to: int) {
    var n := frame.event.seqNo;
    if n <= from then to == from
    else if n == from + 1 then to == n
    else exists end :: n - 1 <= end && Reads(frame.repair, from, end, None) && to == if end < n then n else end
  }

  ghost predicate IsGap(frame: Frame, cursor: int) {
    frame.event.seqNo > cursor + 1
  }

  /** The cursors along a stream whose gaps are all repaired by whole reads. */
  ghost predicate Carried(frames: seq<Frame>, at: seq<Cursor>) {
    |at| == |frames| + 1 && forall i :: 0 <= i < |frames| ==> Carries(frames[i], at[i], at[i + 1])
  }

  /** How many of the first frames leave a gap. */
  ghost function Gaps(frames: seq<Frame>, at: seq<Cursor>, n: nat): nat
    requires n <= |frames| < |at|
  {
    if n == 0 then 0 else Gaps(frames, at, n - 1) + if IsGap(frames[n - 1], at[n - 1]) then 1 else 0
  }

  /** A connection whose replies are whole: its history, if it is read, and every repair. */
  ghost predicate Whole(c: Connection, from: int, read: bool, at: seq<Cursor>) {
    && c.Opened? && Carried(c.frames, at)
    && if read || !c.guarded then at[0] == from else Reads(c.history, from, at[0], None)
  }

  /** Connections with whole replies, at most MAX_EVENT_REPAIRS gaps among them and at most
      MAX_SSE_RECONNECTS of them lost, of which the last one's stream ends at `end`. */
  ghost predicate Journey(
    connections: nat -> Connection, attempt: nat, from: int, repairs: nat, read: bool, end: int)
    decreases MAX_SSE_RECONNECTS - attempt
  {
    var c := connections(attempt);
    if c.Unreachable? then
      attempt < MAX_SSE_RECONNECTS && Journey(connections, attempt + 1, from, repairs, read, end)
    else exists at: seq<Cursor> ::
      && Whole(c, from, read, at) && repairs + Gaps(c.frames, at, |c.frames|) <= MAX_EVENT_REPAIRS
      && (match c.ending
          case EndOfStream => end == at[|c.frames|]
          case BadFrame => false
          case Dropped =>
            && attempt < MAX_SSE_RECONNECTS
            && Journey(connections, attempt + 1, at[|c.frames|], repairs + Gaps(c.frames, at, |c.frames|), true, end))
  }

  /** A read of the log's pages gets no further than the log. */
  lemma ReadsWithin(pages: Pages, after: int, end: int, failure: Option<Failure>, log: seq<EventView>)
    requires PagesFromLog(pages, log) && Reads(pages, after, end, failure)
    ensures after <= end && (end == after || end < |log|)
  {
    var cursors :| ReadsBy(pages, cursors, after, end, failure);
    CursorsWithin(pages, cursors, after, |cursors| - 1, log);
    var last := cursors[|cursors| - 1];
    if end > last { ReachedShows(pages(|cursors| - 1), last, end, log); }
  }

  lemma ReachedShows(reply: PageReply, cursor: int, end: int, log: seq<EventView>)
    requires reply.Page? && RunsTo(reply.items, cursor, end) && FromLog(reply.items, log) && end > cursor
    ensures end < |log|
  {
    assert end in Seqs(reply.items);
    var e :| e in reply.items && e.seqNo == end;
    assert Shows(e, log);
  }

  lemma {:induction false} CursorsWithin(pages: Pages, cursors: seq<int>, after: int, k: nat, log: seq<EventView>)
    requires PagesFromLog(pages, log) && Paged(pages, cursors, after) && k < |cursors|
    ensures after <= cursors[k] && (cursors[k] == after || cursors[k] < |log|)
  {
    if k > 0 {
      CursorsWithin(pages, cursors, after, k - 1, log);
      assert Sound(pages(k - 1), cursors[k - 1], cursors[k - 1 + 1]);
      if cursors[k] > cursors[k - 1] { ReachedShows(pages(k - 1), cursors[k - 1], cursors[k], log); }
    }
  }

  /** Where everything up to a number is held, yielding gets there or to a terminal event. */
  lemma YieldsAll(p: Standing, top: int, q: Standing, log: seq<EventView>, terminal: Terminal)
    requires -1 <= p.cursor <= top && (top == p.cursor || top < |log|)
    requires p.held == Span(p.cursor, top) && Yields(p, q, log, terminal)
    ensures q.done || (q.cursor == top && q.held == {})
  {
    AdvanceIsMaximal(p.held, p.cursor + 1, log, terminal);
    if !q.done {
      assert q.cursor > p.cursor ==> q.cursor in p.held;
      assert q.cursor == top;
      assert q.held == {};
    }
  }

  lemma GapCarries(
    frame: Frame, p: Standing, to: int, q: Standing, f: Option<Failure>, log: seq<EventView>, terminal: Terminal)
    requires p.held == {} && !p.done && FrameFromLog(frame, log) && IsGap(frame, p.cursor)
    requires Carries(frame, p.cursor, to) && p.repairs < MAX_EVENT_REPAIRS
    requires Merges(frame, p, q, f, log, terminal)
    ensures f.None? && to >= p.cursor && q.repairs == p.repairs + 1 && q.read == p.read
    ensures q.done || (q.cursor == to && q.held == {})
  {
    var n := frame.event.seqNo;
    assert Shows(frame.event, log);
    var r := p.(held := {n}, repairs := p.repairs + 1);
    assert p.held + {n} == {n};
    assert Catches(frame.repair, r, q, f, log, terminal);
    var end :| n - 1 <= end && Reads(frame.repair, p.cursor, end, None) && to == if end < n then n else end;
    ReadsWithin(frame.repair, p.cursor, end, None, log);
    assert r.held + Span(p.cursor, end) == Span(p.cursor, to);
    CatchCarries(frame.repair, r, end, to, q, f, log, terminal);
  }

  /** One live event over whole replies. */
  lemma MergeCarries(
    frame: Frame, p: Standing, to: int, q: Standing, f: Option<Failure>, log: seq<EventView>, terminal: Terminal)
    requires p.held == {} && !p.done && FrameFromLog(frame, log)
    requires Carries(frame, p.cursor, to) && (IsGap(frame, p.cursor) ==> p.repairs < MAX_EVENT_REPAIRS)
    requires Merges(frame, p, q, f, log, terminal)
    ensures f.None? && to >= p.cursor
    ensures q.done ||
      q == Standing(to, {}, p.repairs + if IsGap(frame, p.cursor) then 1 else 0, p.read, false)
  {
    var n := frame.event.seqNo;
    assert Shows(frame.event, log);
    assert p.held + {n} == {n};
    if IsGap(frame, p.cursor) {
      GapCarries(frame, p, to, q, f, log, terminal);
    } else if n == p.cursor + 1 {
      assert {n} == Span(p.cursor, n);
      YieldsAll(p.(held := {n}), n, q, log, terminal);
    }
  }

  lemma CatchCarries(
    pages: Pages, p: Standing, end: int, to: int, q: Standing, f: Option<Failure>,
    log: seq<EventView>, terminal: Terminal)
    requires PagesFromLog(pages, log) && Reads(pages, p.cursor, end, None)
    requires end <= to && (to == p.cursor || to < |log|) && p.held + Span(p.cursor, end) == Span(p.cursor, to)
    requires Catches(pages, p, q, f, log, terminal)
    ensures f.None? && q.repairs == p.repairs && q.read == p.read && (q.done || (q.cursor == to && q.held == {}))
  {
    var reached :| Reads(pages, p.cursor, reached, f) &&
      var r := p.(held := p.held + Span(p.cursor, reached));
      if f.Some? then q == r else Yields(r, q, log, terminal);
    ReadEndsOneWay(pages, p.cursor, end, None, reached, f);
    ReadsWithin(pages, p.cursor, end, None, log);
    YieldsAll(p.(held := Span(p.cursor, to)), to, q, log, terminal);
  }

  lemma {:induction false} GapsGrow(frames: seq<Frame>, at: seq<Cursor>, n: nat, m: nat)
    requires n <= m <= |frames| < |at|
    ensures Gaps(frames, at, n) <= Gaps(frames, at, m)
  {
    if n < m { GapsGrow(frames, at, n, m - 1); }
  }

  /** Where a follow stands before the i-th live event. */
  ghost function Along(frames: seq<Frame>, i: nat, at: seq<Cursor>, base: nat): Standing
    requires i <= |frames| < |at|
  {
    Standing(at[i], {}, base + Gaps(frames, at, i), true, false)
  }

  /** Finished, or past the last live event, with nothing held back and the connection's own ending. */
  ghost predicate EndsWhole(c: Connection, at: seq<Cursor>, base: nat, q: Standing, f: Option<Failure>)
    requires c.Opened? && |at| == |c.frames| + 1
  {
    if q.done then f.None? else q == Along(c.frames, |c.frames|, at, base) && f == EndingOf(c.ending, {})
  }

  lemma MergeAlong(
    c: Connection, i: nat, at: seq<Cursor>, base: nat, q: Standing, f: Option<Failure>,
    log: seq<EventView>, terminal: Terminal)
    requires c.Opened? && i < |c.frames| && Carried(c.frames, at) && ConnectionFromLog(c, log)
    requires base + Gaps(c.frames, at, |c.frames|) <= MAX_EVENT_REPAIRS
    requires Merges(c.frames[i], Along(c.frames, i, at, base), q, f, log, terminal)
    ensures f.None? && (q.done || q == Along(c.frames, i + 1, at, base))
  {
    assert FrameFromLog(c.frames[i], log) && Carries(c.frames[i], at[i], at[i + 1]);
    GapsGrow(c.frames, at, i + 1, |c.frames|);
    MergeCarries(c.frames[i], Along(c.frames, i, at, base), at[i + 1], q, f, log, terminal);
  }

  lemma {:induction false} StreamedAlong(
    c: Connection, ms: seq<Standing>, at: seq<Cursor>, base: nat, k: nat, log: seq<EventView>, terminal: Terminal)
    requires c.Opened? && Carried(c.frames, at) && ConnectionFromLog(c, log)
    requires base + Gaps(c.frames, at, |c.frames|) <= MAX_EVENT_REPAIRS
    requires Streamed(c, ms, Along(c.frames, 0, at, base), log, terminal) && k < |ms|
    ensures ms[k] == Along(c.frames, k, at, base)
  {
    if k > 0 {
      StreamedAlong(c, ms, at, base, k - 1, log, terminal);
      assert Passes(c.frames[k - 1], ms[k - 1], ms[k - 1 + 1], log, terminal);
      MergeAlong(c, k - 1, at, base, ms[k], None, log, terminal);
    }
  }

  /** A stream over whole replies: it ends as its connection does, or at a terminal event. */
  lemma StreamCarries(
    c: Connection, at: seq<Cursor>, base: nat, q: Standing, f: Option<Failure>, log: seq<EventView>, terminal: Terminal)
    requires c.Opened? && Carried(c.frames, at) && ConnectionFromLog(c, log)
    requires base + Gaps(c.frames, at, |c.frames|) <= MAX_EVENT_REPAIRS
    requires Streams(c, Along(c.frames, 0, at, base), q, f, log, terminal)
    ensures EndsWhole(c, at, base, q, f)
  {
    var p := Along(c.frames, 0, at, base);
    var ms: seq<Standing> :|
      Streamed(c, ms, p, log, terminal) && StreamEnds(c, |ms| - 1, ms[|ms| - 1], q, f, log, terminal);
    var k := |ms| - 1;
    StreamedAlong(c, ms, at, base, k, log, terminal);
    if k < |c.frames| {
      MergeAlong(c, k, at, base, q, f, log, terminal);
    }
  }

  lemma AttemptCarries(
    c: Connection, at: seq<Cursor>, p: Standing, q: Standing, f: Option<Failure>,
    log: seq<EventView>, terminal: Terminal)
    requires ConnectionFromLog(c, log) && p.cursor >= -1 && p.held == {} && !p.done
    requires Whole(c, p.cursor, p.read, at) && p.repairs + Gaps(c.frames, at, |c.frames|) <= MAX_EVENT_REPAIRS
    requires Attempts(c, p, q, f, log, terminal)
    ensures EndsWhole(c, at, p.repairs, q, f)
  {
    var m, x := AttemptStep(c, p, q, f, log, terminal);
    if !p.read && c.guarded {
      ReadsWithin(c.history, p.cursor, at[0], None, log);
      assert p.held + Span(p.cursor, at[0]) == Span(p.cursor, at[0]);
      CatchCarries(c.history, p, at[0], at[0], m, x, log, terminal);
    }
    if !m.done {
      assert m.(read := true) == Along(c.frames, 0, at, p.repairs);
      StreamCarries(c, at, p.repairs, q, f, log, terminal);
    }
  }

  /** On a journey every connection before the last leaves the next one on it. */
  lemma {:induction false} JourneyGoesOn(
    connections: nat -> Connection, ms: seq<Standing>, p: Standing, k: nat, end: int,
    log: seq<EventView>, terminal: Terminal)
    requires forall n: nat :: ConnectionFromLog(connections(n), log)
    requires Reconnected(connections, ms, p, log, terminal) && k < |ms| && p.held == {} && !p.done
    requires Journey(connections, 0, p.cursor, p.repairs, p.read, end)
    ensures ms[k].held == {} && !ms[k].done
    ensures Journey(connections, k, ms[k].cursor, ms[k].repairs, ms[k].read, end)
  {
    if k > 0 {
      JourneyGoesOn(connections, ms, p, k - 1, end, log, terminal);
      var c, m := connections(k - 1), ms[k - 1];
      assert Attempts(c, m, ms[k - 1 + 1], Some(ConnectionLost), log, terminal);
      if !c.Unreachable? {
        var at := JourneyStep(connections, k - 1, m.cursor, m.repairs, m.read, end);
        AttemptCarries(c, at, m, ms[k], Some(ConnectionLost), log, terminal);
      }
    }
  }

  /** Over whole replies, with no more gaps than may be repaired and no more lost connections than may be
      replaced, a follow does not fail: it gives everything up to the journey's end, or ends at a
      terminal event before it. */
  lemma WholeFollowSucceeds(
    connections: nat -> Connection, p: Standing, q: Standing, f: Option<Failure>, end: int,
    log: seq<EventView>, terminal: Terminal)
    requires forall n: nat :: ConnectionFromLog(connections(n), log)
    requires p.held == {} && !p.done && Journey(connections, 0, p.cursor, p.repairs, p.read, end)
    requires Follows(connections, p, q, f, log, terminal)
    ensures f.None? && (q.done || (q.cursor == end && q.held == {}))
  {
    var ms: seq<Standing> :| Reconnected(connections, ms, p, log, terminal) &&
      LastTry(connections, |ms| - 1, ms[|ms| - 1], q, f, log, terminal);
    var k: nat := |ms| - 1;
    JourneyGoesOn(connections, ms, p, k, end, log, terminal);
    if !connections(k).Unreachable? {
      var at := JourneyStep(connections, k, ms[k].cursor, ms[k].repairs, ms[k].read, end);
      AttemptCarries(connections(k), at, ms[k], q, f, log, terminal);
    }
  }

  /** The same for every journey from the first connection on. */
  lemma WholeFollowsSucceed(
    connections: nat -> Connection, p: Standing, q: Standing, f: Option<Failure>,
    log: seq<EventView>, terminal: Terminal)
    requires forall n: nat :: ConnectionFromLog(connections(n), log)
    requires p.held == {} && !p.done && Follows(connections, p, q, f, log, terminal)
    ensures forall end :: Journey(connections, 0, p.cursor, p.repairs, p.read, end) ==>
      f.None? && (q.done || q.cursor == end)
  {
    forall end | Journey(connections, 0, p.cursor, p.repairs, p.read, end)
      ensures f.None? && (q.done || q.cursor == end)
    {
      WholeFollowSucceeds(connections, p, q, f, end, log, terminal);
    }
  }

  lemma JourneyStep(
    connections: nat -> Connection, attempt: nat, from: int, repairs: nat, read: bool, end: int)
    returns (at: seq<Cursor>)
    requires Journey(connections, attempt, from, repairs, read, end) && !connections(attempt).Unreachable?
    ensures var c := connections(attempt);
      && Whole(c, from, read, at) && repairs + Gaps(c.frames, at, |c.frames|) <= MAX_EVENT_REPAIRS
      && !c.ending.BadFrame? && (c.ending.EndOfStream? ==> end == at[|c.frames|])
      && (c.ending.Dropped? ==>
            && attempt < MAX_SSE_RECONNECTS
            && Journey(connections, attempt + 1, at[|c.frames|], repairs + Gaps(c.frames, at, |c.frames|), true, end))
  {
    var c := connections(attempt);
    at :|
      && Whole(c, from, read, at) && repairs + Gaps(c.frames, at, |c.frames|) <= MAX_EVENT_REPAIRS
      && (match c.ending
          case EndOfStream => end == at[|c.frames|]
          case BadFrame => false
          case Dropped =>
            && attempt < MAX_SSE_RECONNECTS
            && Journey(connections, attempt + 1, at[|c.frames|], repairs + Gaps(c.frames, at, |c.frames|), true, end));
  }

  /** One gap and one page that fills it: a follow whose first live event is number n, however far ahead,
      gives everything up to it, or ends at a terminal event before it. */
  lemma OneGapIsRepaired(
    connections: nat -> Connection, since: int, n: nat, repair: Pages, next: Option<int>,
    q: Standing, f: Option<Failure>, log: seq<EventView>, terminal: Terminal)
    requires Authoritative(log) && -1 <= since && since + 1 < n < |log|
    requires forall i: nat :: ConnectionFromLog(connections(i), log)
    requires repair(0) == Page(log[..n + 1], false, next)
    requires var c := connections(0);
      c.Opened? && !c.guarded && c.frames == [Frame(log[n], repair)] && c.ending.EndOfStream?
    requires Follows(connections, Standing(since, {}, 0, false, false), q, f, log, terminal)
    ensures f.None? && (q.done || q.cursor == n)
  {
    var c := connections(0);
    var at: seq<Cursor> := [since, n];
    FullPageReads(repair, since, n, next, log);
    assert Carries(c.frames[0], since, n) && IsGap(c.frames[0], since);
    assert Gaps(c.frames, at, 1) == Gaps(c.frames, at, 0) + 1;
    assert Whole(c, since, false, at);
    assert Journey(connections, 0, since, 0, false, n);
    WholeFollowSucceeds(connections, Standing(since, {}, 0, false, false), q, f, n, log, terminal);
  }

  lemma FullPageReads(repair: Pages, since: int, n: nat, next: Option<int>, log: seq<EventView>)
    requires Authoritative(log) && -1 <= since < n < |log| && repair(0) == Page(log[..n + 1], false, next)
    ensures Reads(repair, since, n, None)
  {
    var page := log[..n + 1];
    forall k | since < k <= n ensures k in Seqs(page) { assert page[k] in page && page[k].seqNo == k; }
    assert RunsTo(page, since, n);
    assert ReadsBy(repair, [since], since, n, None);
  }
}

/** What a follow does, connection by connection, said of the replies alone. */
module FollowStates {
  import opened Options
  import opened EventFeed
  import opened EventReading

  const MAX_SSE_RECONNECTS := 1
  const MAX_EVENT_REPAIRS := 3

  /** One live event, and the history replies should it need repairing. */
  datatype Frame = Frame(event: EventView, repair: Pages)

  datatype Ending = EndOfStream | Dropped | BadFrame

  datatype Connection =
    | Unreachable
    | Declined
    | Opened(guarded: bool, history: Pages, frames: seq<Frame>, ending: Ending)

  ghost predicate FrameFromLog(frame: Frame, log: seq<EventView>) {
    Shows(frame.event, log) && PagesFromLog(frame.repair, log)
  }

  ghost predicate ConnectionFromLog(c: Connection, log: seq<EventView>) {
    c.Opened? ==>
      && PagesFromLog(c.history, log)
      && forall i :: 0 <= i < |c.frames| ==> FrameFromLog(c.frames[i], log)
  }

  type Cursor = k: int | k >= -1 witness -1

  /** Where a follow stands: its cursor, the numbers held back past it, the repairs made, whether the
      committed history was read, and whether it ended at a terminal event. */
  datatype Standing = Standing(cursor: Cursor, held: set<int>, repairs: nat, read: bool, done: bool)

  ghost function Span(cursor: int, end: int): (r: set<int>)
    ensures forall k :: k in r <==> cursor < k <= end
    decreases end - cursor
  {
    if end <= cursor then {} else Span(cursor, end - 1) + {end}
  }

  ghost function Past(held: set<int>, cursor: int): set<int> {
    set k | k in held && k > cursor
  }

  lemma IsPast(keys: set<int>, held: set<int>, cursor: int)
    requires forall k :: k in keys <==> k in held && k > cursor
    ensures keys == Past(held, cursor)
  {
    forall k ensures k in keys <==> k in Past(held, cursor) {}
  }

  /** Everything contiguous is handed out, up to a terminal event. */
  ghost predicate Yields(p: Standing, q: Standing, log: seq<EventView>, terminal: Terminal) {
    && q.cursor + 1 == Advance(p.held, p.cursor + 1, log, terminal)
    && q.held == Past(p.held, q.cursor)
    && q.repairs == p.repairs && q.read == p.read
    && (q.done <==> p.cursor < q.cursor < |log| && terminal(log[q.cursor]))
  }

  /** A read adds the numbers it reached to those held; if it does not fail, what is contiguous is yielded. */
  ghost predicate Catches(
    pages: Pages, p: Standing, q: Standing, failure: Option<Failure>, log: seq<EventView>, terminal: Terminal)
  {
    exists end :: Reads(pages, p.cursor, end, failure) &&
      var r := p.(held := p.held + Span(p.cursor, end));
      if failure.Some? then q == r else Yields(r, q, log, terminal)
  }

  /** Part of the way: some of what is contiguous is handed out. */
  ghost predicate Yielding(p: Standing, q: Standing, log: seq<EventView>, terminal: Terminal) {
    && q.cursor >= p.cursor && q.held == Past(p.held, q.cursor)
    && q.repairs == p.repairs && q.read == p.read
    && (q.done <==> p.cursor < q.cursor < |log| && terminal(log[q.cursor]))
    && Advance(p.held, p.cursor + 1, log, terminal)
       == if q.done then q.cursor + 1 else Advance(p.held, q.cursor + 1, log, terminal)
  }

  lemma YieldingNext(p: Standing, q: Standing, r: Standing, log: seq<EventView>, terminal: Terminal)
    requires Yielding(p, q, log, terminal) && !q.done
    requires q.cursor + 1 in q.held && q.cursor + 1 < |log|
    requires var next := q.cursor + 1;
      r == q.(cursor := next, held := q.held - {next}, done := terminal(log[next]))
    ensures Yielding(p, r, log, terminal)
  {
    AdvanceOver(p.held, q.cursor + 1, log, terminal);
    IsPast(r.held, p.held, r.cursor);
  }

  lemma YieldingEnds(p: Standing, q: Standing, log: seq<EventView>, terminal: Terminal)
    requires Yielding(p, q, log, terminal)
    requires q.done || q.cursor + 1 !in q.held
    ensures Yields(p, q, log, terminal)
  {
  }

  lemma CaughtUp(
    pages: Pages, p: Standing, end: int, q: Standing, failure: Option<Failure>,
    log: seq<EventView>, terminal: Terminal)
    requires Reads(pages, p.cursor, end, failure)
    requires var r := p.(held := p.held + Span(p.cursor, end));
      if failure.Some? then q == r else Yields(r, q, log, terminal)
    ensures Catches(pages, p, q, failure, log, terminal)
  {
  }

  /** One live event. It fails only past the cursor's next number, and then exactly if no repair is left
      or the read that repairs it fails. */
  ghost predicate Merges(
    frame: Frame, p: Standing, q: Standing, failure: Option<Failure>, log: seq<EventView>, terminal: Terminal)
  {
    var n := frame.event.seqNo;
    var r := p.(held := p.held + {n});
    if n <= p.cursor then failure.None? && q == p
    else if n == p.cursor + 1 then failure.None? && Yields(r, q, log, terminal)
    else if p.repairs >= MAX_EVENT_REPAIRS then
      failure == Some(UnrepairedGap) && q == r.(repairs := p.repairs + 1)
    else Catches(frame.repair, r.(repairs := p.repairs + 1), q, failure, log, terminal)
  }

  /** A live event fails exactly past the cursor's next number with no repair left or a failing read, and
      then nothing is handed out. */
  lemma MergeFailsExactly(
    frame: Frame, p: Standing, q: Standing, failure: Option<Failure>, log: seq<EventView>, terminal: Terminal)
    requires Merges(frame, p, q, failure, log, terminal)
    ensures failure.Some? <==>
      (frame.event.seqNo > p.cursor + 1 &&
       (p.repairs >= MAX_EVENT_REPAIRS || exists end, f :: Reads(frame.repair, p.cursor, end, Some(f))))
    ensures failure.Some? ==> q.cursor == p.cursor && q.done == p.done && p.held + {frame.event.seqNo} <= q.held
  {
    if frame.event.seqNo > p.cursor + 1 && p.repairs < MAX_EVENT_REPAIRS {
      var r := p.(held := p.held + {frame.event.seqNo}, repairs := p.repairs + 1);
      var end :| Reads(frame.repair, p.cursor, end, failure) &&
        var s := r.(held := r.held + Span(r.cursor, end));
        if failure.Some? then q == s else Yields(s, q, log, terminal);
      if failure.Some? {
        assert Reads(frame.repair, p.cursor, end, Some(failure.value));
      } else if e, f :| Reads(frame.repair, p.cursor, e, Some(f)) {
        ReadEndsOneWay(frame.repair, p.cursor, end, None, e, Some(f));
      }
    }
  }

  lemma MergedNext(frame: Frame, p: Standing, q: Standing, log: seq<EventView>, terminal: Terminal)
    requires frame.event.seqNo == p.cursor + 1
    requires Yields(p.(held := p.held + {frame.event.seqNo}), q, log, terminal)
    ensures Merges(frame, p, q, None, log, terminal)
  {
  }

  lemma MergedByRepair(
    frame: Frame, p: Standing, q: Standing, failure: Option<Failure>, log: seq<EventView>, terminal: Terminal)
    requires frame.event.seqNo > p.cursor + 1 && p.repairs < MAX_EVENT_REPAIRS
    requires var r := p.(held := p.held + {frame.event.seqNo}, repairs := p.repairs + 1);
      Catches(frame.repair, r, q, failure, log, terminal)
    ensures Merges(frame, p, q, failure, log, terminal)
  {
  }

  /** The history of a guarded stream, before the first live event. */
  ghost predicate Opens(
    c: Connection, p: Standing, q: Standing, failure: Option<Failure>, log: seq<EventView>, terminal: Terminal)
    requires c.Opened?
  {
    if p.read || !c.guarded then failure.None? && q == p
    else Catches(c.history, p, q, failure, log, terminal)
  }

  /** How a stream ends that is not finished: nothing may be held back. */
  function EndingOf(ending: Ending, held: set<int>): Option<Failure> {
    match ending
    case Dropped => Some(ConnectionLost)
    case BadFrame => Some(BadResponse)
    case EndOfStream => if held == {} then None else Some(UnrepairedGap)
  }

  /** A live event neither fails nor ends the follow. */
  ghost predicate Passes(frame: Frame, p: Standing, q: Standing, log: seq<EventView>, terminal: Terminal) {
    Merges(frame, p, q, None, log, terminal) && !q.done
  }

  /** The first live events of a connection, one standing after another: none fails or ends the follow. */
  ghost predicate Streamed(
    c: Connection, ms: seq<Standing>, p: Standing, log: seq<EventView>, terminal: Terminal)
    requires c.Opened?
  {
    && ms != [] && ms[0] == p && |ms| <= |c.frames| + 1
    && forall k :: 0 <= k < |ms| - 1 ==> Passes(c.frames[k], ms[k], ms[k + 1], log, terminal)
  }

  /** A stream ends at a live event that fails or is followed by a terminal one, or past the last one. */
  ghost predicate StreamEnds(
    c: Connection, k: nat, m: Standing, q: Standing, failure: Option<Failure>, log: seq<EventView>, terminal: Terminal)
    requires c.Opened? && k <= |c.frames|
  {
    if k == |c.frames| then q == m && failure == EndingOf(c.ending, m.held)
    else Merges(c.frames[k], m, q, failure, log, terminal) && (failure.Some? || q.done)
  }

  /** The live events of a connection, up to a failure, a terminal event or the end of the stream. */
  ghost predicate Streams(
    c: Connection, p: Standing, q: Standing, failure: Option<Failure>, log: seq<EventView>, terminal: Terminal)
    requires c.Opened?
  {
    exists ms ::
      Streamed(c, ms, p, log, terminal) && StreamEnds(c, |ms| - 1, ms[|ms| - 1], q, failure, log, terminal)
  }

  /** One connection. */
  ghost predicate Attempts(
    c: Connection, p: Standing, q: Standing, failure: Option<Failure>, log: seq<EventView>, terminal: Terminal)
  {
    match c
    case Unreachable => failure == Some(ConnectionLost) && q == p
    case Declined => failure == Some(BadResponse) && q == p
    case Opened(_, _, _, _) =>
      exists m: Standing, f: Option<Failure> ::
        && Opens(c, p, m, f, log, terminal)
        && (if f.Some? || m.done then q == m && failure == f
            else Streams(c, m.(read := true), q, failure, log, terminal))
  }

  /** The connections lost before the last one, which is another one only after a lost one. */
  ghost predicate Reconnected(
    connections: nat -> Connection, ms: seq<Standing>, p: Standing, log: seq<EventView>, terminal: Terminal)
  {
    && ms != [] && ms[0] == p && |ms| <= MAX_SSE_RECONNECTS + 1
    && forall k: nat :: k < |ms| - 1 ==>
         Attempts(connections(k), ms[k], ms[k + 1], Some(ConnectionLost), log, terminal)
  }

  /** The follow ends at this attempt. */
  ghost predicate LastTry(
    connections: nat -> Connection, k: nat, m: Standing, q: Standing, failure: Option<Failure>,
    log: seq<EventView>, terminal: Terminal)
  {
    && Attempts(connections(k), m, q, failure, log, terminal)
    && (failure == Some(ConnectionLost) ==> k >= MAX_SSE_RECONNECTS)
  }

  /** The whole follow: the next connection is tried exactly after a lost one, up to the limit. */
  ghost predicate Follows(
    connections: nat -> Connection, p: Standing, q: Standing, failure: Option<Failure>,
    log: seq<EventView>, terminal: Terminal)
  {
    exists ms ::
      Reconnected(connections, ms, p, log, terminal)
      && LastTry(connections, |ms| - 1, ms[|ms| - 1], q, failure, log, terminal)
  }

  lemma StreamPasses(
    c: Connection, ms: seq<Standing>, p: Standing, q: Standing, log: seq<EventView>, terminal: Terminal)
    requires c.Opened? && Streamed(c, ms, p, log, terminal) && |ms| <= |c.frames|
    requires Merges(c.frames[|ms| - 1], ms[|ms| - 1], q, None, log, terminal) && !q.done
    ensures Streamed(c, ms + [q], p, log, terminal)
  {
    var longer := ms + [q];
    forall k | 0 <= k < |longer| - 1 ensures Passes(c.frames[k], longer[k], longer[k + 1], log, terminal) {
      assert k < |ms| - 1 ==> Passes(c.frames[k], ms[k], ms[k + 1], log, terminal);
    }
  }

  lemma StreamEnded(
    c: Connection, ms: seq<Standing>, p: Standing, q: Standing, failure: Option<Failure>,
    log: seq<EventView>, terminal: Terminal)
    requires c.Opened? && Streamed(c, ms, p, log, terminal)
    requires StreamEnds(c, |ms| - 1, ms[|ms| - 1], q, failure, log, terminal)
    ensures Streams(c, p, q, failure, log, terminal)
  {
  }

  lemma ReconnectedAgain(
    connections: nat -> Connection, ms: seq<Standing>, p: Standing, q: Standing,
    log: seq<EventView>, terminal: Terminal)
    requires Reconnected(connections, ms, p, log, terminal) && |ms| <= MAX_SSE_RECONNECTS
    requires Attempts(connections(|ms| - 1), ms[|ms| - 1], q, Some(ConnectionLost), log, terminal)
    ensures Reconnected(connections, ms + [q], p, log, terminal)
  {
    var longer := ms + [q];
    forall k: nat | k < |longer| - 1
      ensures Attempts(connections(k), longer[k], longer[k + 1], Some(ConnectionLost), log, terminal)
    {
    }
  }

  lemma FollowEnded(
    connections: nat -> Connection, ms: seq<Standing>, p: Standing, q: Standing, failure: Option<Failure>,
    log: seq<EventView>, terminal: Terminal)
    requires Reconnected(connections, ms, p, log, terminal)
    requires LastTry(connections, |ms| - 1, ms[|ms| - 1], q, failure, log, terminal)
    ensures Follows(connections, p, q, failure, log, terminal)
  {
  }

  lemma AttemptStops(
    c: Connection, p: Standing, m: Standing, f: Option<Failure>, log: seq<EventView>, terminal: Terminal)
    requires c.Opened?
    requires Opens(c, p, m, f, log, terminal) && (f.Some? || m.done)
    ensures Attempts(c, p, m, f, log, terminal)
  {
  }

  lemma AttemptGoesOn(
    c: Connection, p: Standing, m: Standing, q: Standing, f: Option<Failure>, log: seq<EventView>, terminal: Terminal)
    requires c.Opened?
    requires Opens(c, p, m, None, log, terminal) && !m.done
    requires Streams(c, m.(read := true), q, f, log, terminal)
    ensures Attempts(c, p, q, f, log, terminal)
  {
  }
}

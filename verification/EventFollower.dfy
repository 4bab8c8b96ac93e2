/** The client's follower: merge paged history with a live stream, repair gaps, reconnect, and hand
    out the run's log in order whatever the transport does. */
module EventFollower {
  import opened Options
  import opened EventFeed
  import opened EventReading
  import opened FollowStates
  import opened FollowLaws

  /** What was given is the log's, in order, and ends at the first terminal event if it is finished. */
  ghost predicate Told(given: seq<EventView>, since: int, finished: bool, log: seq<EventView>, terminal: Terminal)
    requires since >= -1
  {
    && Delivered(given, since, log)
    && StopsAtTerminal(given, terminal)
    && (finished <==> EndsInTerminal(given, terminal))
  }

  ghost predicate HoldsLog(pending: map<int, EventView>, log: seq<EventView>) {
    forall k :: k in pending ==> 0 <= k < |log| && pending[k] == log[k]
  }

  ghost predicate Kept(observed: set<int>, cursor: int, held: set<int>) {
    forall k :: k in observed ==> k <= cursor || k in held
  }

  ghost predicate AllGiven(observed: set<int>, cursor: int) {
    forall k :: k in observed ==> k <= cursor
  }

  ghost predicate Seen(frames: seq<Frame>, n: nat, observed: set<int>)
    requires n <= |frames|
  {
    forall i :: 0 <= i < n ==> frames[i].event.seqNo in observed
  }

  class Follower {
    const since: Cursor
    const terminal: Terminal
    var lastSeq: Cursor
    var pending: map<int, EventView>
    var repairs: nat
    var reconnects: nat
    var historyRead: bool
    var finished: bool
    /** Everything yielded to the caller so far. */
    var given: seq<EventView>
    ghost const log: seq<EventView>
    /** The numbers of all live events merged so far. */
    ghost var observed: set<int>

    constructor (since: int, terminal: Terminal, ghost log: seq<EventView>)
      requires since >= -1 && Authoritative(log)
      ensures Valid() && Drained() && given == [] && observed == {}
      ensures pending == map[] && reconnects == 0 && Now() == Standing(since, {}, 0, false, false)
      ensures this.since == since && this.terminal == terminal && this.log == log
    {
      this.since, this.terminal, this.log := since, terminal, log;
      lastSeq, pending, repairs, reconnects := since, map[], 0, 0;
      historyRead, finished, given, observed := false, false, [], {};
    }

    /** What every step keeps: the events given are log[since+1..lastSeq], each once and in order;
        nothing was given after a terminal event; what is pending is the log's; and no observed event
        is forgotten before the terminal one. */
    ghost predicate Valid()
      reads this
    {
      && since >= -1 && Authoritative(log)
      && lastSeq == since + |given| && Told(given, since, finished, log, terminal)
      && HoldsLog(pending, log)
      && (!finished ==> Kept(observed, lastSeq, pending.Keys))
    }

    ghost function Now(): Standing
      reads this
    {
      Standing(lastSeq, pending.Keys, repairs, historyRead, finished)
    }

    /** Nothing is held back that was already given. */
    ghost predicate Pending()
      reads this
    {
      forall k :: k in pending ==> k > lastSeq
    }

    /** Between merges nothing contiguous is held back. */
    ghost predicate Drained()
      reads this
    {
      !finished ==> lastSeq + 1 !in pending && Pending()
    }

    /** Yield the next event from the pending map. */
    method YieldNext()
      requires Valid() && !finished && lastSeq + 1 in pending
      modifies this`lastSeq, this`pending, this`given, this`finished
      ensures Valid() && lastSeq == old(lastSeq) + 1
      ensures given == old(given) + [log[lastSeq]] && pending == old(pending) - {lastSeq}
      ensures finished <==> terminal(log[lastSeq])
      ensures old(Pending()) ==> Pending()
      ensures Now() == old(Now()).(cursor := lastSeq, held := old(pending.Keys) - {lastSeq}, done := finished)
    {
      var next := lastSeq + 1;
      var event := pending[next];
      DeliveredJoins(given, [event], since, log);
      pending := pending - {next};
      lastSeq, given := next, given + [event];
      finished := terminal(event);
    }

    /** `_drain_events` and `_yield_ready_events`: yield the contiguous prefix, stop after a terminal. */
    method YieldReady()
      requires Valid() && !finished && Pending()
      modifies this`lastSeq, this`pending, this`given, this`finished
      ensures Valid() && Drained()
      ensures Yields(old(Now()), Now(), log, terminal)
      ensures old(given) <= given
    {
      ghost var start := Now();
      IsPast(pending.Keys, pending.Keys, lastSeq);
      while lastSeq + 1 in pending && !finished
        invariant Valid() && Pending() && old(given) <= given
        invariant Yielding(start, Now(), log, terminal)
        decreases |log| - lastSeq
      {
        ghost var before := Now();
        YieldNext();
        YieldingNext(start, before, Now(), log, terminal);
      }
      YieldingEnds(start, Now(), log, terminal);
    }

    /** Keep history in the pending map; the same numbers hold the same events. */
    method Keep(events: seq<EventView>)
      requires Valid() && !finished && Pending() && Delivered(events, lastSeq, log)
      modifies this`pending
      ensures Valid() && Pending()
      ensures pending.Keys == old(pending.Keys) + Span(lastSeq, lastSeq + |events|)
    {
      for i := 0 to |events|
        invariant Valid() && Pending()
        invariant pending.Keys == old(pending.Keys) + Span(lastSeq, lastSeq + i)
      {
        var event := events[i];
        assert event == log[lastSeq + 1 + i] && event.seqNo == lastSeq + 1 + i;
        pending := pending[event.seqNo := event];
      }
    }

    /** History read from the cursor on, when a guarded stream opens or a gap needs it: kept, and handed
        out as far as it is contiguous. */
    method ReconcileHistory(pages: Pages) returns (failure: Option<Failure>)
      requires Valid() && !finished && Pending() && PagesFromLog(pages, log)
      modifies this`lastSeq, this`pending, this`given, this`finished
      ensures Valid() && (!finished ==> Pending())
      ensures if failure.None? then Drained() else !finished
      ensures Catches(pages, old(Now()), Now(), failure, log, terminal)
      ensures old(given) <= given
    {
      ghost var before := Now();
      var history, broken, _ := ReadEvents(lastSeq, pages, log);
      ghost var end := lastSeq + |history|;
      Keep(history);
      assert Now() == before.(held := before.held + Span(before.cursor, end));
      if broken.Some? {
        CaughtUp(pages, before, end, Now(), broken, log, terminal);
        return broken;
      }
      YieldReady();
      CaughtUp(pages, before, end, Now(), None, log, terminal);
      failure := None;
    }

    /** One live event: ignore a repeat, repair a gap from history, then yield what is ready. */
    method MergeStreamEvent(frame: Frame) returns (failure: Option<Failure>)
      requires Valid() && !finished && Pending() && FrameFromLog(frame, log)
      modifies this`lastSeq, this`pending, this`given, this`finished, this`repairs, this`observed
      ensures Valid() && (!finished ==> Pending())
      ensures failure.Some? ==> !finished
      ensures Merges(frame, old(Now()), Now(), failure, log, terminal)
      ensures old(given) <= given && observed == old(observed) + {frame.event.seqNo}
    {
      ghost var before := Now();
      var event := frame.event;
      observed := observed + {event.seqNo};
      if event.seqNo <= lastSeq {
        return None;
      }
      pending := pending[event.seqNo := event];
      assert Now() == before.(held := before.held + {event.seqNo});
      if event.seqNo > lastSeq + 1 {
        repairs := repairs + 1;
        if repairs > MAX_EVENT_REPAIRS {
          return Some(UnrepairedGap);
        }
        assert Now() == before.(held := before.held + {event.seqNo}, repairs := before.repairs + 1);
        failure := ReconcileHistory(frame.repair);
        MergedByRepair(frame, before, Now(), failure, log, terminal);
        return;
      }
      YieldReady();
      MergedNext(frame, before, Now(), log, terminal);
      failure := None;
    }

    /** One connection. It returns normally only finished, or with every event of it given. */
    method FollowAttempt(connection: Connection) returns (failure: Option<Failure>)
      requires Valid() && !finished && Pending() && ConnectionFromLog(connection, log)
      modifies this`lastSeq, this`pending, this`given, this`finished, this`repairs, this`observed, this`historyRead
      ensures Valid() && (!finished ==> Pending())
      ensures Attempts(connection, old(Now()), Now(), failure, log, terminal)
      ensures old(given) <= given && old(observed) <= observed
      ensures failure.Some? ==> !finished
      ensures failure.None? && !finished ==>
        && pending == map[] && AllGiven(observed, lastSeq)
        && Seen(connection.frames, |connection.frames|, observed)
    {
      if connection.Unreachable? {
        return Some(ConnectionLost);
      }
      if connection.Declined? {
        return Some(BadResponse);
      }
      ghost var opening := Now();
      if !historyRead && connection.guarded {
        failure := ReconcileHistory(connection.history);
        if failure.Some? || finished {
          AttemptStops(connection, opening, Now(), failure, log, terminal);
          return;
        }
      }
      ghost var ready := Now();
      historyRead := true;
      failure := FollowStream(connection);
      AttemptGoesOn(connection, opening, ready, Now(), failure, log, terminal);
    }

    /** The live events of one connection, and how its stream ends. */
    method FollowStream(connection: Connection) returns (failure: Option<Failure>)
      requires Valid() && !finished && Pending()
      requires connection.Opened? && ConnectionFromLog(connection, log)
      modifies this`lastSeq, this`pending, this`given, this`finished, this`repairs, this`observed
      ensures Valid() && (!finished ==> Pending())
      ensures Streams(connection, old(Now()), Now(), failure, log, terminal)
      ensures old(given) <= given && old(observed) <= observed
      ensures failure.Some? ==> !finished
      ensures failure.None? && !finished ==>
        && pending == map[] && AllGiven(observed, lastSeq)
        && Seen(connection.frames, |connection.frames|, observed)
    {
      ghost var start := Now();
      ghost var passed := [start];
      for i := 0 to |connection.frames|
        invariant Valid() && !finished && Pending()
        invariant old(given) <= given && old(observed) <= observed
        invariant Seen(connection.frames, i, observed)
        invariant |passed| == i + 1 && passed[i] == Now() && Streamed(connection, passed, start, log, terminal)
      {
        assert FrameFromLog(connection.frames[i], log);
        failure := MergeStreamEvent(connection.frames[i]);
        if failure.Some? || finished {
          StreamEnded(connection, passed, start, Now(), failure, log, terminal);
          return;
        }
        StreamPasses(connection, passed, start, Now(), log, terminal);
        assert Seen(connection.frames, i + 1, observed);
        passed := passed + [Now()];
      }
      match connection.ending {
        case Dropped => failure := Some(ConnectionLost);
        case BadFrame => failure := Some(BadResponse);
        case EndOfStream => failure := if pending != map[] then Some(UnrepairedGap) else None;
      }
      StreamEnded(connection, passed, start, Now(), failure, log, terminal);
    }

    /** The follow: reconnect after a lost connection, up to the limit, keeping the cursor and what is
        pending. Over any sequence of connections showing parts of one log, what the caller got is
        exactly log[since+1..lastSeq]; a terminal event is the last thing given; whether and how the
        follow fails is what the replies say; and a follow that ends without error gave every event it
        ever observed or stopped at the terminal one. */
    method FollowEvents(connections: nat -> Connection) returns (failure: Option<Failure>)
      requires Valid() && given == [] && pending == map[] && reconnects == 0
      requires Now() == Standing(since, {}, 0, false, false)
      requires forall n: nat :: ConnectionFromLog(connections(n), log)
      modifies this
      ensures Valid()
      ensures Delivered(given, since, log) && lastSeq == since + |given|
      ensures StopsAtTerminal(given, terminal) && (finished <==> EndsInTerminal(given, terminal))
      ensures Follows(connections, Standing(since, {}, 0, false, false), Now(), failure, log, terminal)
      ensures failure.None? ==> finished || AllGiven(observed, lastSeq)
      ensures forall end :: Journey(connections, 0, since, 0, false, end) ==>
        failure.None? && (finished || lastSeq == end)
      ensures failure == Some(ConnectionLost) ==> reconnects == MAX_SSE_RECONNECTS
    {
      ghost var start := Now();
      ghost var lost := [start];
      while true
        invariant Valid() && !finished && Pending()
        invariant reconnects <= MAX_SSE_RECONNECTS
        invariant |lost| == reconnects + 1 && lost[reconnects] == Now()
        invariant Reconnected(connections, lost, start, log, terminal)
        decreases MAX_SSE_RECONNECTS - reconnects
      {
        failure := FollowAttempt(connections(reconnects));
        if failure != Some(ConnectionLost) || reconnects >= MAX_SSE_RECONNECTS {
          FollowEnded(connections, lost, start, Now(), failure, log, terminal);
          WholeFollowsSucceed(connections, start, Now(), failure, log, terminal);
          return;
        }
        ReconnectedAgain(connections, lost, start, Now(), log, terminal);
        lost := lost + [Now()];
        reconnects := reconnects + 1;
      }
    }
  }
}

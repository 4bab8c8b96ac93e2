/** What ordered delivery of a run's events means, shared by the client's follower and the server's
    polling subscription. There is one authoritative log; transports show parts of it. */
module EventFeed {

  datatype EventView = EventView(seqNo: int, kind: string, payload: string)

  /** Whether an event durably closes the run or turn being observed. */
  type Terminal = EventView -> bool

  ghost predicate Authoritative(log: seq<EventView>) {
    forall i :: 0 <= i < |log| ==> log[i].seqNo == i
  }

  /** The event is the log's own event of that sequence number. */
  ghost predicate Shows(e: EventView, log: seq<EventView>) {
    0 <= e.seqNo < |log| && log[e.seqNo] == e
  }

  /** Everything a transport showed came from the log: in any order, any number of times. */
  ghost predicate FromLog(events: seq<EventView>, log: seq<EventView>) {
    forall e :: e in events ==> Shows(e, log)
  }

  function Seqs(events: seq<EventView>): set<int> {
    set e | e in events :: e.seqNo
  }

  // ---- The specification ----

  /** `given` is log[since+1..], as far as it goes: each event once, in order, none skipped. */
  ghost predicate Delivered(given: seq<EventView>, since: int, log: seq<EventView>)
    requires since >= -1
  {
    forall i :: 0 <= i < |given| ==> IsAt(given[i], since + 1 + i, log)
  }

  ghost predicate IsAt(e: EventView, k: nat, log: seq<EventView>) {
    k < |log| && log[k] == e
  }

  /** Nothing follows a terminal event. */
  ghost predicate StopsAtTerminal(given: seq<EventView>, terminal: Terminal) {
    forall i :: 0 <= i < |given| - 1 ==> !terminal(given[i])
  }

  ghost predicate EndsInTerminal(given: seq<EventView>, terminal: Terminal) {
    given != [] && terminal(given[|given| - 1])
  }

  /** The cursor after delivering every event of `have` that is contiguous from `next`, stopping
      after a terminal one. */
  ghost function Advance(have: set<int>, next: int, log: seq<EventView>, terminal: Terminal): (r: int)
    requires next >= 0
    ensures r >= next
    decreases if next < |log| then |log| - next else 0
  {
    if next in have && next < |log| then
      if terminal(log[next]) then next + 1 else Advance(have, next + 1, log, terminal)
    else next
  }

  /** Events `next` to `r` are there, and none but the last of them is terminal. */
  ghost predicate Contiguous(have: set<int>, next: int, r: int, log: seq<EventView>, terminal: Terminal)
    requires 0 <= next
  {
    forall k :: next <= k < r ==> k in have && k < |log| && (k < r - 1 ==> !terminal(log[k]))
  }

  /** Said without the recursion: everything up to the new cursor was there, nothing before the last
      of it was terminal, and the next event is missing or the last one was terminal. */
  lemma {:induction false} AdvanceIsMaximal(have: set<int>, next: int, log: seq<EventView>, terminal: Terminal)
    requires next >= 0
    ensures var r := Advance(have, next, log, terminal);
      && Contiguous(have, next, r, log, terminal)
      && (r !in have || r >= |log| || (r > next && terminal(log[r - 1])))
    decreases if next < |log| then |log| - next else 0
  {
    if next in have && next < |log| && !terminal(log[next]) {
      AdvanceIsMaximal(have, next + 1, log, terminal);
      ContiguousFrom(have, next, Advance(have, next + 1, log, terminal), log, terminal);
    }
  }

  lemma ContiguousFrom(have: set<int>, next: int, r: int, log: seq<EventView>, terminal: Terminal)
    requires 0 <= next < |log| && next in have && !terminal(log[next])
    requires Contiguous(have, next + 1, r, log, terminal)
    ensures Contiguous(have, next, r, log, terminal)
  {
  }

  lemma AdvanceOver(have: set<int>, next: int, log: seq<EventView>, terminal: Terminal)
    requires 0 <= next < |log| && next in have
    ensures Advance(have, next, log, terminal)
         == if terminal(log[next]) then next + 1 else Advance(have, next + 1, log, terminal)
  {
  }

  lemma DeliveredJoins(given: seq<EventView>, more: seq<EventView>, since: int, log: seq<EventView>)
    requires since >= -1 && Delivered(given, since, log) && Delivered(more, since + |given|, log)
    ensures Delivered(given + more, since, log)
  {
    var all := given + more;
    forall i | 0 <= i < |all| ensures IsAt(all[i], since + 1 + i, log) {
      if i >= |given| {
        assert all[i] == more[i - |given|];
      }
    }
  }

  lemma DeliveredNext(given: seq<EventView>, e: EventView, since: int, log: seq<EventView>)
    requires since >= -1 && Delivered(given, since, log) && IsAt(e, since + 1 + |given|, log)
    ensures Delivered(given + [e], since, log)
  {
    DeliveredJoins(given, [e], since, log);
  }

  // ---- Collapsing duplicates ----

  ghost predicate Ascending(events: seq<EventView>) {
    forall i, j :: 0 <= i < j < |events| ==> events[i].seqNo < events[j].seqNo
  }

  /** Put `e` at its place in ascending events, over any earlier event of its number. */
  function Place(events: seq<EventView>, e: EventView): (r: seq<EventView>)
    requires Ascending(events)
    ensures Ascending(r)
    ensures forall x :: x in r <==> x == e || (x in events && x.seqNo != e.seqNo)
  {
    if events == [] then [e]
    else if e.seqNo < events[0].seqNo then [e] + events
    else if e.seqNo == events[0].seqNo then [e] + events[1..]
    else
      var rest := Place(events[1..], e);
      assert forall x :: x in rest ==> x.seqNo > events[0].seqNo;
      assert forall x :: x in events <==> x == events[0] || x in events[1..];
      [events[0]] + rest
  }

  /** `x` is the last event of its number. */
  ghost predicate Latest(events: seq<EventView>, x: EventView) {
    exists i :: 0 <= i < |events| && events[i] == x && forall j :: i < j < |events| ==> events[j].seqNo != x.seqNo
  }

  function Deduplicated(events: seq<EventView>): (r: seq<EventView>)
    ensures Ascending(r)
  {
    if events == [] then [] else Place(Deduplicated(events[..|events| - 1]), events[|events| - 1])
  }

  /** One event per number, in order: the last observation of each. */
  lemma {:induction false} DeduplicatedKeepsLatest(events: seq<EventView>, x: EventView)
    ensures x in Deduplicated(events) <==> Latest(events, x)
  {
    if events != [] {
      var n := |events| - 1;
      var front, e := events[..n], events[n];
      assert events == front + [e];
      DeduplicatedKeepsLatest(front, x);
      LatestStep(front, e, x);
      assert Deduplicated(events) == Place(Deduplicated(front), e);
    }
  }

  lemma LatestStep(front: seq<EventView>, e: EventView, x: EventView)
    ensures Latest(front + [e], x) <==> x == e || (Latest(front, x) && x.seqNo != e.seqNo)
  {
    var events, n := front + [e], |front|;
    assert events[n] == e;
    if x != e {
      if Latest(front, x) && x.seqNo != e.seqNo {
        var i :| 0 <= i < n && front[i] == x && forall j :: i < j < n ==> front[j].seqNo != x.seqNo;
        assert events[i] == x;
        forall j | i < j < |events| ensures events[j].seqNo != x.seqNo {
          if j < n { assert front[j].seqNo != x.seqNo; }
        }
      }
      if Latest(events, x) {
        var i :| 0 <= i < |events| && events[i] == x && forall j :: i < j < |events| ==> events[j].seqNo != x.seqNo;
        assert front[i] == x;
        forall j | i < j < n ensures front[j].seqNo != x.seqNo { assert events[j].seqNo != x.seqNo; }
      }
    }
  }

  lemma {:induction false} DeduplicatedSeqs(events: seq<EventView>)
    ensures Seqs(Deduplicated(events)) == Seqs(events)
    ensures forall x :: x in Deduplicated(events) ==> x in events
  {
    if events != [] {
      var n := |events| - 1;
      DeduplicatedSeqs(events[..n]);
      var d := Deduplicated(events[..n]);
      assert events == events[..n] + [events[n]];
      forall k | k in Seqs(events) ensures k in Seqs(Deduplicated(events)) {
        if k == events[n].seqNo {
          assert events[n] in Deduplicated(events);
        } else {
          assert k in Seqs(events[..n]);
          var x :| x in d && x.seqNo == k;
          assert x in Deduplicated(events);
        }
      }
    }
  }

  /** The dictionary loop of the source. */
  method Deduplicate(events: seq<EventView>) returns (items: seq<EventView>)
    ensures items == Deduplicated(events)
    ensures Seqs(items) == Seqs(events) && Ascending(items)
  {
    items := [];
    for i := 0 to |events|
      invariant items == Deduplicated(events[..i])
    {
      assert events[..i + 1][..i] == events[..i];
      items := Place(items, events[i]);
    }
    assert events[..|events|] == events;
    DeduplicatedSeqs(events);
  }
}

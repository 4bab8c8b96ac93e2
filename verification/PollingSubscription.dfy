/** The server's subscription: poll a store that may return stale, reordered, partial or repeated
    snapshots, and hand out the log in order. */
module PollingSubscription {
  import opened Options
  import opened EventFeed

  /** Where the cursor stands after some polls; a terminal event ends the subscription. */
  ghost function AfterPolls(
    snapshots: seq<seq<EventView>>, next: int, log: seq<EventView>, terminal: Terminal): (r: int)
    requires next >= 0
    ensures r >= next
  {
    if snapshots == [] then next
    else
      var r := Advance(Seqs(snapshots[0]), next, log, terminal);
      if next < r <= |log| && terminal(log[r - 1]) then r
      else AfterPolls(snapshots[1..], r, log, terminal)
  }

  /** One poll: collapse the snapshot, then hand out what is contiguous from the cursor. */
  method DeliverSnapshot(snapshot: seq<EventView>, nextSeq: int, terminal: Terminal, ghost log: seq<EventView>)
    returns (given: seq<EventView>, next: int, stopped: bool)
    requires nextSeq >= 0 && Authoritative(log) && FromLog(snapshot, log)
    ensures next == Advance(Seqs(snapshot), nextSeq, log, terminal) == nextSeq + |given|
    ensures Delivered(given, nextSeq - 1, log) && StopsAtTerminal(given, terminal)
    ensures stopped <==> EndsInTerminal(given, terminal)
  {
    var items := Deduplicate(snapshot);
    DeduplicatedSeqs(snapshot);
    forall j | 0 <= j < |items| ensures Shows(items[j], log) {
      assert items[j] in snapshot;
    }
    given, next, stopped := DeliverItems(items, nextSeq, terminal, log, Seqs(items));
  }

  /** The inner loop over the collapsed snapshot. */
  method DeliverItems(
    items: seq<EventView>, nextSeq: int, terminal: Terminal, ghost log: seq<EventView>, ghost have: set<int>)
    returns (given: seq<EventView>, next: int, stopped: bool)
    requires nextSeq >= 0 && Authoritative(log) && Ascending(items) && have == Seqs(items)
    requires forall j :: 0 <= j < |items| ==> Shows(items[j], log)
    ensures next == Advance(have, nextSeq, log, terminal) == nextSeq + |given|
    ensures Delivered(given, nextSeq - 1, log) && StopsAtTerminal(given, terminal)
    ensures stopped <==> EndsInTerminal(given, terminal)
  {
    given, next, stopped := [], nextSeq, false;
    for i := 0 to |items|
      invariant next == nextSeq + |given|
      invariant Delivered(given, nextSeq - 1, log)
      invariant forall j :: 0 <= j < |given| ==> !terminal(given[j])
      invariant Advance(have, nextSeq, log, terminal) == Advance(have, next, log, terminal)
      invariant forall j :: 0 <= j < i ==> items[j].seqNo < next
    {
      var e := items[i];
      if e.seqNo > next {
        MissingNext(items, i, next);
        return;
      }
      if e.seqNo == next {
        AdvanceOver(have, next, log, terminal);
        DeliveredJoins(given, [e], nextSeq - 1, log);
        given, next := given + [e], e.seqNo + 1;
        if terminal(e) {
          stopped := true;
          return;
        }
      }
    }
    MissingNext(items, |items|, next);
  }

  /** Ascending items, the first `i` before the cursor and the next one past it: the cursor's own
      event is missing. */
  lemma MissingNext(items: seq<EventView>, i: nat, next: int)
    requires Ascending(items) && i <= |items| && (i < |items| ==> items[i].seqNo > next)
    requires forall j :: 0 <= j < i ==> items[j].seqNo < next
    ensures next !in Seqs(items)
  {
    forall j | 0 <= j < |items| ensures items[j].seqNo != next {
      if j > i { assert items[i].seqNo < items[j].seqNo; }
    }
  }

  /** `subscribe`, run for as many polls as there are snapshots: it hands out log[since+1..next], each
      event once and in order, nothing after the terminal event, and each poll reaches as far as
      its snapshot allows. */
  method Subscribe(snapshots: seq<seq<EventView>>, since: int, terminal: Terminal, ghost log: seq<EventView>)
    returns (outcome: Result<seq<EventView>, string>, next: int)
    requires Authoritative(log) && forall k :: 0 <= k < |snapshots| ==> FromLog(snapshots[k], log)
    ensures outcome.Err? <==> since < -1
    ensures outcome.Ok? ==>
      && next == since + 1 + |outcome.value| == AfterPolls(snapshots, since + 1, log, terminal)
      && Delivered(outcome.value, since, log)
      && StopsAtTerminal(outcome.value, terminal)
  {
    next := since + 1;
    if since < -1 {
      return Err("since must be greater than or equal to -1"), next;
    }
    var given: seq<EventView> := [];
    assert snapshots[0..] == snapshots;
    for k := 0 to |snapshots|
      invariant next == since + 1 + |given|
      invariant Delivered(given, since, log)
      invariant forall j :: 0 <= j < |given| ==> !terminal(given[j])
      invariant AfterPolls(snapshots, since + 1, log, terminal) == AfterPolls(snapshots[k..], next, log, terminal)
    {
      var more, reached, stopped := DeliverSnapshot(snapshots[k], next, terminal, log);
      assert snapshots[k..][0] == snapshots[k] && snapshots[k..][1..] == snapshots[k + 1..];
      DeliveredJoins(given, more, since, log);
      given, next := given + more, reached;
      if stopped {
        return Ok(given), next;
      }
    }
    outcome := Ok(given);
  }

  /** A snapshot that holds every event up to `k` brings the subscription to `k` or to a terminal. */
  lemma {:induction false} CompleteSnapshotCatchesUp(
    snapshot: seq<EventView>, next: int, k: int, log: seq<EventView>, terminal: Terminal)
    requires 0 <= next <= k <= |log| && forall j :: next <= j < k ==> j in Seqs(snapshot)
    ensures var r := AfterPolls([snapshot], next, log, terminal);
      r >= k || (next < r <= |log| && terminal(log[r - 1]))
  {
    AdvanceIsMaximal(Seqs(snapshot), next, log, terminal);
    assert [snapshot][1..] == [];
  }
}

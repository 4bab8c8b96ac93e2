/** What the independent reader checks of every request: said of the log, without the reader's state
    (runtime/mira/src/thymira/mira/checks/request_replay.py). */
module LedgerReading {
  import opened Options
  import opened RequestLedger

  /** The last surface operation with this event id. */
  ghost predicate LastSurface(entries: seq<Entry>, id: Id, k: nat) {
    && k < |entries| && entries[k].eventId == id && entries[k].record.SurfaceUpdated?
    && forall j :: k < j < |entries| && entries[j].eventId == id ==> !entries[j].record.SurfaceUpdated?
  }

  ghost predicate LastHeader(entries: seq<Entry>, id: Id, k: nat) {
    && k < |entries| && entries[k].eventId == id && entries[k].record.HeaderRevised?
    && forall j :: k < j < |entries| && entries[j].eventId == id ==> !entries[j].record.HeaderRevised?
  }

  /** A surface operation of the log and its position. */
  ghost predicate IsOperation(entries: seq<Entry>, id: Id, op: (Surface, nat)) {
    LastSurface(entries, id, op.1) && op.0 == entries[op.1].record.surface
  }

  ghost predicate IsHeader(entries: seq<Entry>, id: Id, h: Header) {
    exists k: nat :: LastHeader(entries, id, k) && entries[k].record.header == h
  }

  // ---- The reader's state ----

  ghost predicate HoldsOperations(st: ReplayState, entries: seq<Entry>) {
    forall id :: id in st.operations ==> IsOperation(entries, id, st.operations[id])
  }

  ghost predicate HoldsHeaders(st: ReplayState, entries: seq<Entry>) {
    forall id :: id in st.headers ==> IsHeader(entries, id, st.headers[id])
  }

  lemma OperationStays(front: seq<Entry>, e: Entry, id: Id, op: (Surface, nat))
    requires IsOperation(front, id, op) && !(e.eventId == id && e.record.SurfaceUpdated?)
    ensures IsOperation(front + [e], id, op)
  {
  }

  lemma HeaderStaysHeld(front: seq<Entry>, e: Entry, id: Id, h: Header)
    requires IsHeader(front, id, h) && !(e.eventId == id && e.record.HeaderRevised?)
    ensures IsHeader(front + [e], id, h)
  {
    var k: nat :| LastHeader(front, id, k) && front[k].record.header == h;
    assert LastHeader(front + [e], id, k);
  }

  lemma NewestIsLast(front: seq<Entry>, e: Entry)
    ensures e.record.SurfaceUpdated? ==> IsOperation(front + [e], e.eventId, (e.record.surface, |front|))
    ensures e.record.HeaderRevised? ==> IsHeader(front + [e], e.eventId, e.record.header)
  {
    if e.record.HeaderRevised? { assert LastHeader(front + [e], e.eventId, |front|); }
  }

  lemma {:induction false} StateIsLog(entries: seq<Entry>, p: Primitives)
    requires Replay(entries, p).Ok?
    ensures HoldsOperations(Replay(entries, p).value, entries)
    ensures HoldsHeaders(Replay(entries, p).value, entries)
  {
    if entries != [] {
      var n := |entries| - 1;
      var front, e := entries[..n], entries[n];
      assert entries == front + [e];
      StateIsLog(front, p);
      EntryKeepsState(Replay(front, p).value, front, e, p);
    }
  }

  lemma EntryKeepsState(st: ReplayState, front: seq<Entry>, e: Entry, p: Primitives)
    requires HoldsOperations(st, front) && HoldsHeaders(st, front) && ReadEntry(st, |front|, e, p).Ok?
    ensures var next := ReadEntry(st, |front|, e, p).value;
      HoldsOperations(next, front + [e]) && HoldsHeaders(next, front + [e])
  {
    var next := ReadEntry(st, |front|, e, p).value;
    NewestIsLast(front, e);
    forall id | id in next.operations ensures IsOperation(front + [e], id, next.operations[id]) {
      if !(e.eventId == id && e.record.SurfaceUpdated?) { OperationStays(front, e, id, st.operations[id]); }
    }
    forall id | id in next.headers ensures IsHeader(front + [e], id, next.headers[id]) {
      if !(e.eventId == id && e.record.HeaderRevised?) { HeaderStaysHeld(front, e, id, st.headers[id]); }
    }
  }

  // ---- The operations a request names ----

  /** The operations `ids` name, listed by their position in the log. */
  ghost predicate Sorts(entries: seq<Entry>, ids: seq<Id>, ops: seq<(Surface, nat)>) {
    && (forall i, j :: 0 <= i < j < |ops| ==> ops[i].1 <= ops[j].1)
    && exists named: seq<(Surface, nat)> :: Names(entries, ids, named) && multiset(named) == multiset(ops)
  }

  ghost predicate Names(entries: seq<Entry>, ids: seq<Id>, named: seq<(Surface, nat)>) {
    |named| == |ids| && forall i :: 0 <= i < |ids| ==> IsOperation(entries, ids[i], named[i])
  }

  lemma {:induction false} InsertedSorts(op: (Surface, nat), ops: seq<(Surface, nat)>)
    requires forall i, j :: 0 <= i < j < |ops| ==> ops[i].1 <= ops[j].1
    ensures var r := Inserted(op, ops);
      && multiset(r) == multiset(ops) + multiset{op}
      && (forall i, j :: 0 <= i < j < |r| ==> r[i].1 <= r[j].1)
      && (forall x :: x in r <==> x == op || x in ops)
  {
    if ops == [] || op.1 <= ops[0].1 {
    } else {
      var r := Inserted(op, ops[1..]);
      InsertedSorts(op, ops[1..]);
      assert ops == [ops[0]] + ops[1..];
      assert forall x :: x in r ==> ops[0].1 <= x.1;
      assert Inserted(op, ops) == [ops[0]] + r;
    }
  }

  lemma {:induction false} InLogOrderSorts(ids: seq<Id>, operations: map<Id, (Surface, nat)>)
    requires forall id :: id in ids ==> id in operations
    ensures var r := InLogOrder(ids, operations);
      && (forall i, j :: 0 <= i < j < |r| ==> r[i].1 <= r[j].1)
      && multiset(r) == multiset(Looked(ids, operations))
  {
    if ids != [] {
      InLogOrderSorts(ids[1..], operations);
      InsertedSorts(operations[ids[0]], InLogOrder(ids[1..], operations));
      assert Looked(ids, operations) == [operations[ids[0]]] + Looked(ids[1..], operations);
    }
  }

  ghost function Looked(ids: seq<Id>, operations: map<Id, (Surface, nat)>): (r: seq<(Surface, nat)>)
    requires forall id :: id in ids ==> id in operations
    ensures |r| == |ids| && forall i :: 0 <= i < |ids| ==> r[i] == operations[ids[i]]
  {
    if ids == [] then [] else [operations[ids[0]]] + Looked(ids[1..], operations)
  }

  // ---- The messages they leave ----

  function Together(ops: seq<(Surface, nat)>): seq<Message> {
    if ops == [] then [] else Together(ops[..|ops| - 1]) + ops[|ops| - 1].0.messages
  }

  /** The messages of the last replacing operation and of all after it; of all if none replaces. */
  ghost predicate Leaves(ops: seq<(Surface, nat)>, messages: seq<Message>) {
    exists cut: nat :: LeavesFrom(ops, cut, messages)
  }

  ghost predicate LeavesFrom(ops: seq<(Surface, nat)>, cut: nat, messages: seq<Message>) {
    && cut <= |ops| && (cut == 0 || (cut < |ops| && ops[cut].0.replace))
    && (forall i :: cut < i < |ops| ==> !ops[i].0.replace)
    && messages == Together(ops[cut..])
  }

  lemma {:induction false} SurfaceAfterLeaves(ops: seq<(Surface, nat)>) returns (cut: nat)
    ensures LeavesFrom(ops, cut, SurfaceAfter(ops))
  {
    if ops == [] {
      cut := 0;
    } else {
      var n := |ops| - 1;
      OneTogether(ops[n]);
      if ops[n].0.replace {
        cut := n;
        assert ops[n..] == [ops[n]];
      } else {
        cut := SurfaceAfterLeaves(ops[..n]);
        AppendLeaves(ops[..n], ops[n], cut, SurfaceAfter(ops[..n]));
        assert ops == ops[..n] + [ops[n]];
      }
    }
  }

  lemma OneTogether(op: (Surface, nat))
    ensures Together([op]) == op.0.messages
  {
    assert [op][..0] == [];
    assert Together([op]) == Together([op][..0]) + op.0.messages;
  }

  lemma AppendLeaves(front: seq<(Surface, nat)>, last: (Surface, nat), cut: nat, messages: seq<Message>)
    requires LeavesFrom(front, cut, messages) && !last.0.replace
    ensures LeavesFrom(front + [last], cut, messages + last.0.messages)
  {
    TogetherGrows(front[cut..], last);
    assert (front + [last])[cut..] == front[cut..] + [last];
  }

  lemma TogetherGrows(front: seq<(Surface, nat)>, last: (Surface, nat))
    ensures Together(front + [last]) == Together(front) + last.0.messages
  {
    assert (front + [last])[..|front|] == front;
  }

  // ---- What the reader accepts ----

  /** The request is what the log before it says: its model, tools, settings, schema and owners are those of
      the header it names; its messages are what the surface operations it names leave, in log order, after
      the header's system text where that stands apart. */
  ghost predicate IsRebuilt(entries: seq<Entry>, r: Request) {
    exists h, ops, messages ::
      && IsHeader(entries, r.headerEventId, h) && Sorts(entries, r.surfaceEventIds, ops) && Leaves(ops, messages)
      && IsGatewayOf(r, h, messages)
  }

  ghost predicate IsGatewayOf(r: Request, h: Header, messages: seq<Message>) {
    var f, g := h.facts, r.gateway;
    && g.model == f.model && g.tools == f.tools && g.settings == f.settings && g.outputSchema == f.outputSchema
    && r.owners == f.owners
    && g.messages == if f.systemMessages == [] && f.system != "" then [Message(System, f.system, None, [])] + messages
                     else messages
  }

  /** Every request of an accepted log is the gateway call the log before it describes, with its digest. */
  lemma AcceptedRequestIsRebuilt(entries: seq<Entry>, n: nat, p: Primitives)
    requires n < |entries| && Replay(entries, p).Ok? && entries[n].record.RequestRecorded?
    ensures IsRebuilt(entries[..n], entries[n].record.request)
    ensures entries[n].record.request.gatewayDigest == p.gateway(entries[n].record.request.gateway)
  {
    PrefixAccepted(entries, n + 1, p);
    var read := entries[..n + 1];
    LastRequestIsRebuilt(read, p);
    assert read[..n] == entries[..n] && read[n] == entries[n];
  }

  lemma LastRequestIsRebuilt(entries: seq<Entry>, p: Primitives)
    requires entries != [] && Replay(entries, p).Ok? && entries[|entries| - 1].record.RequestRecorded?
    ensures var front, r := entries[..|entries| - 1], entries[|entries| - 1].record.request;
      IsRebuilt(front, r) && r.gatewayDigest == p.gateway(r.gateway)
  {
    var front, r := entries[..|entries| - 1], entries[|entries| - 1].record.request;
    StateIsLog(front, p);
    RequestReadIsRebuilt(Replay(front, p).value, front, r, p);
  }

  lemma RequestReadIsRebuilt(st: ReplayState, front: seq<Entry>, r: Request, p: Primitives)
    requires HoldsOperations(st, front) && HoldsHeaders(st, front) && ReadRequest(st, |front|, r, p).Ok?
    ensures IsRebuilt(front, r)
  {
    var h, ops := st.headers[r.headerEventId], InLogOrder(r.surfaceEventIds, st.operations);
    InLogOrderSorts(r.surfaceEventIds, st.operations);
    var named := Looked(r.surfaceEventIds, st.operations);
    assert Names(front, r.surfaceEventIds, named);
    assert Sorts(front, r.surfaceEventIds, ops);
    var cut := SurfaceAfterLeaves(ops);
    assert Leaves(ops, SurfaceAfter(ops));
    RebuiltIsGateway(r, h, SurfaceAfter(ops));
  }

  lemma RebuiltIsGateway(r: Request, h: Header, messages: seq<Message>)
    requires r.gateway == Rebuilt(h, messages) && r.owners == h.facts.owners
    ensures IsGatewayOf(r, h, messages)
  {
    assert [] + messages == messages;
  }

  lemma {:induction false} PrefixAccepted(entries: seq<Entry>, n: nat, p: Primitives)
    requires n <= |entries| && Replay(entries, p).Ok?
    ensures Replay(entries[..n], p).Ok?
    decreases |entries|
  {
    if n == |entries| {
      assert entries[..n] == entries;
    } else {
      var m := |entries| - 1;
      assert entries[..m][..n] == entries[..n];
      PrefixAccepted(entries[..m], n, p);
    }
  }
}

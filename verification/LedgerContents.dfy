/** What the ledger's records hold: of a call's messages in a header, of a call in its request, and of
    credentials in anything written. */
module LedgerContents {
  import opened Options
  import opened ChainStates
  import opened RequestLedger
  import opened LedgerRuns
  import opened Positions

  // ---- The facts of a header ----

  /** The positions of the system messages, in order. */
  ghost predicate AtSystem(messages: seq<Message>, at: seq<nat>) {
    && Rising(at)
    && (forall k: nat :: k in at <==> k < |messages| && messages[k].role.System?)
  }

  /** `system` are the system messages of `messages`, in order. */
  ghost predicate SystemOf(messages: seq<Message>, system: seq<Message>) {
    exists at: seq<nat> :: AtSystem(messages, at) && Picked(messages, at, system)
  }

  /** The model, settings, tools, schema and owners of a call, and the text and the list of its system
      messages. */
  ghost predicate FactsFor(f: HeaderFacts, g: Gateway, owners: Owners) {
    && f.model == g.model && f.settings == g.settings && f.tools == g.tools && f.outputSchema == g.outputSchema
    && f.owners == owners
    && SystemOf(g.messages, f.systemMessages) && f.system == Joined(f.systemMessages)
  }

  lemma {:induction false} SystemMessagesJoin(a: seq<Message>, b: seq<Message>)
    ensures SystemMessages(a + b) == SystemMessages(a) + SystemMessages(b)
  {
    if a == [] {
      assert a + b == b;
    } else {
      assert (a + b)[1..] == a[1..] + b;
      SystemMessagesJoin(a[1..], b);
      Regroup(if a[0].role.System? then [a[0]] else [], SystemMessages(a[1..]), SystemMessages(b));
    }
  }

  lemma Regroup(a: seq<Message>, b: seq<Message>, c: seq<Message>)
    ensures a + (b + c) == a + b + c
  {
  }

  lemma {:induction false} SystemMessagesAt(messages: seq<Message>) returns (at: seq<nat>)
    ensures AtSystem(messages, at) && Picked(messages, at, SystemMessages(messages))
  {
    if messages == [] {
      at := [];
    } else {
      var n := |messages| - 1;
      assert messages == messages[..n] + [messages[n]];
      at := SystemMessagesAt(messages[..n]);
      OneMoreAt(messages[..n], messages[n], at);
      at := if messages[n].role.System? then at + [n] else at;
    }
  }

  lemma OneMoreAt(front: seq<Message>, last: Message, at: seq<nat>)
    requires AtSystem(front, at) && Picked(front, at, SystemMessages(front))
    ensures var longer := if last.role.System? then at + [|front|] else at;
      AtSystem(front + [last], longer) && Picked(front + [last], longer, SystemMessages(front + [last]))
  {
    SystemMessagesJoin(front, [last]);
    assert SystemMessages([last]) == if last.role.System? then [last] else [];
    SystemGrows(front, last, at);
    PickedFromLonger(front, last, at, SystemMessages(front));
    PickedGrows(front + [last], at, SystemMessages(front), |front|);
    assert SystemMessages(front) + [] == SystemMessages(front);
  }

  lemma SystemGrows(front: seq<Message>, last: Message, at: seq<nat>)
    requires AtSystem(front, at)
    ensures AtSystem(front + [last], if last.role.System? then at + [|front|] else at)
  {
    var messages, n: nat := front + [last], |front|;
    var longer := if last.role.System? then at + [n] else at;
    assert forall i :: 0 <= i < |at| ==> at[i] in at;
    assert forall k: nat :: k in longer <==> k in at || (last.role.System? && k == n);
    assert forall k: nat :: k < n ==> messages[k] == front[k];
    assert messages[n] == last;
  }

  lemma PickedFromLonger(front: seq<Message>, last: Message, at: seq<nat>, system: seq<Message>)
    requires Picked(front, at, system)
    ensures Picked(front + [last], at, system)
  {
  }

  lemma SystemOfExactly(messages: seq<Message>, system: seq<Message>)
    ensures SystemOf(messages, system) <==> system == SystemMessages(messages)
  {
    var at := SystemMessagesAt(messages);
    if SystemOf(messages, system) {
      var other: seq<nat> :| AtSystem(messages, other) && Picked(messages, other, system);
      SameRising(at, other);
      assert forall i :: 0 <= i < |at| ==> system[i] == SystemMessages(messages)[i];
    }
  }

  /** A header's facts are those of the call and nothing else. */
  lemma FactsExactly(f: HeaderFacts, g: Gateway, owners: Owners)
    ensures f == FactsOf(g, owners) <==> FactsFor(f, g, owners)
  {
    SystemOfExactly(g.messages, f.systemMessages);
  }

  /** The same messages of the system role, in the same order. */
  ghost predicate SameSystem(a: seq<Message>, b: seq<Message>) {
    exists at: seq<nat>, other: seq<nat> ::
      AtSystem(a, at) && AtSystem(b, other) && Alike(a, at, b, other)
  }

  ghost predicate Alike(a: seq<Message>, at: seq<nat>, b: seq<Message>, other: seq<nat>) {
    |at| == |other|
    && forall i :: 0 <= i < |at| ==> at[i] < |a| && other[i] < |b| && a[at[i]] == b[other[i]]
  }

  /** Two calls share a header exactly if owners, model, settings, tools, output schema and the system
      messages in order are the same. */
  lemma SameFactsExactly(a: Gateway, x: Owners, b: Gateway, y: Owners)
    ensures FactsOf(a, x) == FactsOf(b, y) <==>
      (x == y && a.model == b.model && a.settings == b.settings && a.tools == b.tools
       && a.outputSchema == b.outputSchema && SameSystem(a.messages, b.messages))
  {
    SameSystemExactly(a.messages, b.messages);
  }

  lemma SameSystemExactly(a: seq<Message>, b: seq<Message>)
    ensures SameSystem(a, b) <==> SystemMessages(a) == SystemMessages(b)
  {
    var p := SystemMessagesAt(a);
    var q := SystemMessagesAt(b);
    if SameSystem(a, b) {
      var at: seq<nat>, other: seq<nat> :| AtSystem(a, at) && AtSystem(b, other) && Alike(a, at, b, other);
      SameRising(p, at);
      SameRising(q, other);
      assert forall i :: 0 <= i < |p| ==> SystemMessages(a)[i] == SystemMessages(b)[i];
    }
    if SystemMessages(a) == SystemMessages(b) {
      assert forall i :: 0 <= i < |p| ==> SystemMessages(a)[i] == a[p[i]] && SystemMessages(b)[i] == b[q[i]];
      assert Alike(a, p, b, q);
    }
  }

  /** On a ledger in step, a call keeps the latest header exactly if the last request had the same owners,
      model, settings, tools, output schema and system messages. */
  lemma HeaderKeptExactly(log: Log, g: Gateway, owners: Owners, p: Primitives)
    requires Sound(log, p) && InStep(log)
    ensures Reuses(LatestHeader(log.entries, p).value, FactsOf(g, owners)) <==>
      (var requests := Requests(log.entries);
       requests != [] &&
       var last := requests[|requests| - 1];
       && last.owners == owners && last.gateway.model == g.model && last.gateway.settings == g.settings
       && last.gateway.tools == g.tools && last.gateway.outputSchema == g.outputSchema
       && SameSystem(last.gateway.messages, g.messages))
  {
    ReusedMeansUnchanged(log, FactsOf(g, owners), p);
    var requests := Requests(log.entries);
    if requests != [] {
      var last := requests[|requests| - 1];
      SameFactsExactly(last.gateway, last.owners, g, owners);
    }
  }

  /** Inserting, removing or replacing a message changes the facts exactly if it is a system message that
      comes, goes or changes. */
  lemma EditedMessages(g: Gateway, owners: Owners, before: seq<Message>, m: Message, n: Message, after: seq<Message>)
    ensures var without := FactsOf(g.(messages := before + after), owners);
      var with := FactsOf(g.(messages := before + [m] + after), owners);
      var other := FactsOf(g.(messages := before + [n] + after), owners);
      && (with == without <==> !m.role.System?)
      && (with == other <==> m == n || (!m.role.System? && !n.role.System?))
  {
    SystemMessagesJoin(before, after);
    EditedSystem(before, m, after);
    EditedSystem(before, n, after);
    var s, t := SystemMessages(before), SystemMessages(after);
    assert s + [] + t == s + t;
    if m.role.System? {
      assert |s + [m] + t| == |s + t| + 1;
      assert (s + [m] + t)[|s|] == m;
    }
    if n.role.System? {
      assert |s + [n] + t| == |s + t| + 1;
      assert (s + [n] + t)[|s|] == n;
    }
  }

  lemma EditedSystem(before: seq<Message>, m: Message, after: seq<Message>)
    ensures SystemMessages(before + [m] + after)
         == SystemMessages(before) + (if m.role.System? then [m] else []) + SystemMessages(after)
  {
    SystemMessagesJoin(before + [m], after);
    SystemMessagesJoin(before, [m]);
    assert SystemMessages([m]) == if m.role.System? then [m] else [];
  }

  /** The system text: nothing for no message, the content of one, and a newline wherever two lists meet. */
  lemma {:induction false} JoinedWithNewlines(a: seq<Message>, m: Message, b: seq<Message>)
    ensures Joined([]) == "" && Joined([m]) == m.content
    ensures a != [] && b != [] ==> Joined(a + b) == Joined(a) + "\n" + Joined(b)
  {
    if a != [] && b != [] {
      assert (a + b)[0] == a[0];
      if |a| == 1 {
        assert (a + b)[1..] == b;
      } else {
        assert (a + b)[1..] == a[1..] + b;
        JoinedWithNewlines(a[1..], m, b);
        JoinedStep(a, b);
      }
    }
  }

  lemma JoinedStep(a: seq<Message>, b: seq<Message>)
    requires |a| > 1 && b != [] && Joined(a[1..] + b) == Joined(a[1..]) + "\n" + Joined(b)
    ensures Joined(a + b) == Joined(a) + "\n" + Joined(b)
  {
    assert (a + b)[1..] == a[1..] + b;
    assert a[0].content + "\n" + (Joined(a[1..]) + "\n" + Joined(b))
        == a[0].content + "\n" + Joined(a[1..]) + "\n" + Joined(b);
  }

  /** A text is blank when it holds white space only. */
  lemma {:induction false} BlankIsAllSpace(s: string)
    ensures IsBlank(s) <==> forall i :: 0 <= i < |s| ==> IsSpace(s[i])
  {
    if s != "" {
      BlankIsAllSpace(s[1..]);
      var rest := s[1..];
      assert forall i :: 0 < i < |s| ==> s[i] == rest[i - 1];
      assert forall i :: 0 <= i < |rest| ==> rest[i] == s[i + 1];
    }
  }

  // ---- What one recording leaves in the log ----

  ghost predicate Holds(log: Log, id: Id, record: Record) {
    Entry(id, record) in log.entries
  }

  /** The request is the call's own: its arguments, owners, attempt, retry and digest. */
  ghost predicate IsRequestOf(r: Request, call: Call, attempt: int, retryOf: Option<Id>, p: Primitives) {
    && r.gateway == call.gateway && r.owners == call.owners && r.gatewayDigest == p.gateway(call.gateway)
    && r.attempt == attempt && r.retryOf == retryOf
  }

  /** A header in the log with the call's facts, as they are or as scrubbing left them. */
  ghost predicate IsHeaderFor(log: Log, id: Id, call: Call, p: Primitives) {
    exists h, digest, f ::
      && Holds(log, id, HeaderRevised(h, digest)) && FactsFor(f, call.gateway, call.owners)
      && (h.facts == f || h.facts == ScrubFacts(f, p))
  }

  /** A surface in the log that replaces all messages by the call's, as scrubbing left it. */
  ghost predicate IsSurfaceFor(log: Log, id: Id, call: Call, p: Primitives) {
    Holds(log, id, SurfaceUpdated(ScrubSurface(
      Surface(true, call.gateway.messages, call.owners.messages, SURFACE_REASON), p)))
  }

  /** The request is in the log, as scrubbing left it, and names a header and one surface of the call. */
  ghost predicate IsLogged(log: Log, r: Request, call: Call, p: Primitives) {
    && (exists id :: Holds(log, id, RequestRecorded(ScrubRequest(r, p))))
    && IsHeaderFor(log, r.headerEventId, call, p)
    && |r.surfaceEventIds| == 1 && IsSurfaceFor(log, r.surfaceEventIds[0], call, p)
  }

  lemma HeldOn(log: Log, next: Log, call: Call, p: Primitives)
    requires log.entries <= next.entries
    ensures forall id :: IsHeaderFor(log, id, call, p) ==> IsHeaderFor(next, id, call, p)
    ensures forall id :: IsSurfaceFor(log, id, call, p) ==> IsSurfaceFor(next, id, call, p)
  {
    forall id | IsHeaderFor(log, id, call, p) ensures IsHeaderFor(next, id, call, p) {
      var h, digest, f :|
        && Holds(log, id, HeaderRevised(h, digest)) && FactsFor(f, call.gateway, call.owners)
        && (h.facts == f || h.facts == ScrubFacts(f, p));
      assert Holds(next, id, HeaderRevised(h, digest));
    }
  }

  lemma TryExtends(j: Journal, record: Record, fate: Fate, p: Primitives)
    ensures j.log.entries <= Try(j, record, fate, p).log.entries
    ensures Writes(State(j), fate) ==> Holds(Try(j, record, fate, p).log, j.log.nextId, Scrubbed(record, p))
  {
  }

  lemma {:induction false} TryAllExtends(j: Journal, acts: seq<Act>, p: Primitives)
    ensures j.log.entries <= TryAll(j, acts, p).log.entries
    decreases |acts|
  {
    if acts != [] {
      TryExtends(j, acts[0].record, acts[0].fate, p);
      TryAllExtends(Try(j, acts[0].record, acts[0].fate, p), acts[1..], p);
    }
  }

  lemma {:induction false} LatestHeaderIsHeld(entries: seq<Entry>, p: Primitives)
    ensures var latest := LatestHeader(entries, p);
      latest.Ok? && latest.value.Some? ==>
        var (h, id) := latest.value.value;
        Entry(id, HeaderRevised(h, p.header(h))) in entries
  {
    if entries != [] && !entries[|entries| - 1].record.HeaderRevised? {
      LatestHeaderIsHeld(entries[..|entries| - 1], p);
    }
  }

  lemma HeaderPhaseHolds(
    log: Log, j: Journal, latest: Option<(Header, Id)>, call: Call, fate: Fate, p: Primitives)
    requires LatestHeader(log.entries, p) == Ok(latest) && log.entries <= j.log.entries
    ensures var (headed, headerId) := HeaderPhase(j, latest, call, fate, p);
      headerId.Some? ==> IsHeaderFor(headed.log, headerId.value, call, p)
  {
    var facts := FactsOf(call.gateway, call.owners);
    FactsExactly(facts, call.gateway, call.owners);
    LatestHeaderIsHeld(log.entries, p);
    if Reuses(latest, facts) {
      var (h, id) := latest.value;
      assert Holds(j.log, id, HeaderRevised(h, p.header(h)));
    } else {
      var header := NewHeader(j.log, latest, facts, call.reason);
      var record := HeaderRevised(header, p.header(header));
      TryExtends(DrawnFrom(j), record, fate, p);
      if Returns(State(j), fate) {
        assert Holds(Try(DrawnFrom(j), record, fate, p).log, j.log.nextId + 1,
                     HeaderRevised(ScrubHeader(header, p), p.text(p.header(header))));
      }
    }
  }

  /** Whatever others append and however its own appends end, a request that reaches the log is the call's
      own, and names a header and a surface of the log that hold the call's facts and messages. */
  lemma RecordingHoldsTheCall(
    j: Journal, call: Call, attempt: int, retryOf: Option<Id>, others: Others, endings: Endings, p: Primitives)
    ensures var r := RecordingAmid(j, call, attempt, retryOf, others, endings, p);
      r.logged.Some? ==>
        IsRequestOf(r.logged.value, call, attempt, retryOf, p) && IsLogged(r.journal.log, r.logged.value, call, p)
  {
    var admitted := Admission(j.log, call, attempt, p);
    if admitted.Ok? {
      AdmittedIsLatest(j.log, call, attempt, p);
      var begun := TryAll(j, others.beforeHeader, p);
      TryAllExtends(j, others.beforeHeader, p);
      HeaderPhaseHolds(j.log, begun, admitted.value, call, endings.header, p);
      var (headed, headerId) := HeaderPhase(begun, admitted.value, call, endings.header, p);
      if headerId.Some? {
        RecordingUnderHolds(headed, call, attempt, retryOf, headerId.value, others, endings, p);
      }
    }
  }

  lemma AdmittedIsLatest(log: Log, call: Call, attempt: int, p: Primitives)
    ensures var admitted := Admission(log, call, attempt, p);
      admitted.Ok? ==> admitted == LatestHeader(log.entries, p)
  {
  }

  lemma RecordingUnderHolds(
    headed: Journal, call: Call, attempt: int, retryOf: Option<Id>, headerId: Id, others: Others, endings: Endings,
    p: Primitives)
    requires IsHeaderFor(headed.log, headerId, call, p)
    ensures var r := RecordingUnder(headed, call, attempt, retryOf, headerId, others, endings, p);
      r.logged.Some? ==>
        IsRequestOf(r.logged.value, call, attempt, retryOf, p) && IsLogged(r.journal.log, r.logged.value, call, p)
  {
    var before := TryAll(headed, others.beforeSurface, p);
    TryAllExtends(headed, others.beforeSurface, p);
    var (surfaced, surfaceId) := SurfacePhase(before, call, endings.surface, p);
    TryExtends(before, SurfaceUpdated(EffectiveSurface(call)), endings.surface, p);
    HeldOn(headed.log, surfaced.log, call, p);
    if surfaceId.Some? {
      var ready := TryAll(surfaced, others.beforeRequest, p);
      TryAllExtends(surfaced, others.beforeRequest, p);
      HeldOn(surfaced.log, ready.log, call, p);
      var request := NewRequest(ready.log.nextId, surfaceId.value, call, attempt, retryOf, headerId, p);
      TryExtends(DrawnFrom(ready), RequestRecorded(request), endings.request, p);
      HeldOn(ready.log, RequestPhase(ready, request, endings.request, p).journal.log, call, p);
    }
  }

  // ---- What scrubbing leaves ----

  /** Every text of the record satisfies the one predicate and every JSON text the other. */
  ghost predicate AllMessages(messages: seq<Message>, text: string -> bool, json: string -> bool) {
    forall m :: m in messages ==>
      text(m.content) && (m.toolCallId.Some? ==> text(m.toolCallId.value)) && forall c :: c in m.toolCalls ==> json(c)
  }

  ghost predicate AllOwners(o: Owners, text: string -> bool) {
    text(o.model) && text(o.system) && text(o.settings) && text(o.tools) && text(o.outputSchema) && text(o.messages)
  }

  ghost predicate AllTexts(record: Record, text: string -> bool, json: string -> bool) {
    match record
    case HeaderRevised(h, digest) =>
      var f := h.facts;
      && text(digest) && text(h.reason) && text(f.model) && text(f.system) && AllOwners(f.owners, text)
      && AllMessages(f.systemMessages, text, json) && (forall t :: t in f.tools ==> json(t)) && json(f.settings)
      && (f.outputSchema.Some? ==> json(f.outputSchema.value))
    case SurfaceUpdated(s) => text(s.ownerId) && text(s.reason) && AllMessages(s.messages, text, json)
    case RequestRecorded(r) =>
      var g := r.gateway;
      && text(r.gatewayDigest) && AllOwners(r.owners, text) && text(g.model) && AllMessages(g.messages, text, json)
      && (forall t :: t in g.tools ==> json(t)) && json(g.settings)
      && (g.outputSchema.Some? ==> json(g.outputSchema.value))
    case OtherRecord(t) => text(t)
  }

  /** Whatever holds of every scrubbed string holds of every string a record leaves in the log. */
  lemma NothingEscapesScrubbing(record: Record, p: Primitives, text: string -> bool, json: string -> bool)
    requires forall s :: text(p.text(s)) && json(p.json(s))
    ensures AllTexts(Scrubbed(record, p), text, json)
  {
  }

  /** A record whose strings scrubbing leaves alone is written as it is. */
  lemma ScrubbingChangesNothingElse(record: Record, p: Primitives, text: string -> bool, json: string -> bool)
    requires forall s :: (text(s) ==> p.text(s) == s) && (json(s) ==> p.json(s) == s)
    requires AllTexts(record, text, json)
    ensures Scrubbed(record, p) == record
  {
    match record
    case HeaderRevised(h, _) =>
      CleanMessages(h.facts.systemMessages, p, text, json);
      CleanItems(h.facts.tools, p, json);
    case SurfaceUpdated(s) => CleanMessages(s.messages, p, text, json);
    case RequestRecorded(r) =>
      CleanMessages(r.gateway.messages, p, text, json);
      CleanItems(r.gateway.tools, p, json);
    case OtherRecord(_) =>
  }

  lemma CleanItems(items: seq<string>, p: Primitives, json: string -> bool)
    requires forall s :: json(s) ==> p.json(s) == s
    requires forall c :: c in items ==> json(c)
    ensures ScrubAll(items, p) == items
  {
  }

  lemma CleanMessages(messages: seq<Message>, p: Primitives, text: string -> bool, json: string -> bool)
    requires forall s :: (text(s) ==> p.text(s) == s) && (json(s) ==> p.json(s) == s)
    requires AllMessages(messages, text, json)
    ensures ScrubMessages(messages, p) == messages
  {
    forall i | 0 <= i < |messages| ensures ScrubMessage(messages[i], p) == messages[i] {
      assert messages[i] in messages;
      CleanItems(messages[i].toolCalls, p, json);
    }
  }
}

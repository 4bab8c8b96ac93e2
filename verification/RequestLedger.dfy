/** The provider request ledger: header revisions, surface replacements and requests appended to a run's
    log (runtime/agents/src/thymira/agents/request_ledger.py), and the independent reader that rebuilds
    every gateway call from them (runtime/mira/src/thymira/mira/checks/request_replay.py). */
module RequestLedger {
  import opened Options

  /** Identifiers and event ids are drawn fresh from one supply. */
  type Id = nat

  datatype Role = System | User | Assistant | Tool

  datatype Message = Message(role: Role, content: string, toolCallId: Option<string>, toolCalls: seq<string>)

  /** One owner for each model-visible fact. */
  datatype Owners = Owners(
    model: string,
    system: string,
    settings: string,
    tools: string,
    outputSchema: string,
    messages: string)

  /** Canonical wire-shaped arguments; tool schemas, settings and output schema as canonical JSON text. */
  datatype Gateway = Gateway(
    model: string,
    messages: seq<Message>,
    tools: seq<string>,
    settings: string,
    outputSchema: Option<string>)

  /** What a header records besides its id, revision and reason. */
  datatype HeaderFacts = HeaderFacts(
    model: string,
    system: string,
    systemMessages: seq<Message>,
    settings: string,
    tools: seq<string>,
    outputSchema: Option<string>,
    owners: Owners)

  datatype Header = Header(id: Id, revision: nat, facts: HeaderFacts, reason: string)

  datatype Request = Request(
    id: Id,
    attempt: int,
    retryOf: Option<Id>,
    headerEventId: Id,
    surfaceEventIds: seq<Id>,
    owners: Owners,
    gateway: Gateway,
    gatewayDigest: string)

  datatype Surface = Surface(replace: bool, messages: seq<Message>, ownerId: string, reason: string)

  datatype Record =
    | HeaderRevised(header: Header, digest: string)
    | SurfaceUpdated(surface: Surface)
    | RequestRecorded(request: Request)
    | OtherRecord(text: string)

  datatype Entry = Entry(eventId: Id, record: Record)

  /** SHA-256 over canonical JSON, of headers and of gateway arguments; and the replacement of known
      credential values that every payload goes through on its way into the log, in text and in JSON. */
  datatype Primitives = Primitives(
    header: Header -> string,
    gateway: Gateway -> string,
    text: string -> string,
    json: string -> string)

  /** Digests are collision-free and hold no credential, and no text is scrubbed to nothing. */
  ghost predicate Dependable(p: Primitives) {
    && (forall a, b :: p.header(a) == p.header(b) ==> a == b)
    && (forall a, b :: p.gateway(a) == p.gateway(b) ==> a == b)
    && (forall a :: p.text(p.header(a)) == p.header(a))
    && (forall a :: p.text(p.gateway(a)) == p.gateway(a))
    && (forall s :: LeavesText(s, p))
  }

  predicate LeavesText(s: string, p: Primitives) {
    IsBlank(p.text(s)) ==> IsBlank(s)
  }

  // ---- Scrubbing on the way into the log ----

  function ScrubMessage(m: Message, p: Primitives): Message {
    Message(m.role, p.text(m.content), if m.toolCallId.Some? then Some(p.text(m.toolCallId.value)) else None,
            ScrubAll(m.toolCalls, p))
  }

  function ScrubAll(items: seq<string>, p: Primitives): seq<string> {
    seq(|items|, i requires 0 <= i < |items| => p.json(items[i]))
  }

  function ScrubMessages(messages: seq<Message>, p: Primitives): (r: seq<Message>)
    ensures |r| == |messages|
  {
    seq(|messages|, i requires 0 <= i < |messages| => ScrubMessage(messages[i], p))
  }

  function ScrubSchema(schema: Option<string>, p: Primitives): Option<string> {
    if schema.Some? then Some(p.json(schema.value)) else None
  }

  function ScrubOwners(o: Owners, p: Primitives): Owners {
    Owners(p.text(o.model), p.text(o.system), p.text(o.settings), p.text(o.tools), p.text(o.outputSchema),
           p.text(o.messages))
  }

  function ScrubGateway(g: Gateway, p: Primitives): Gateway {
    Gateway(p.text(g.model), ScrubMessages(g.messages, p), ScrubAll(g.tools, p), p.json(g.settings),
            ScrubSchema(g.outputSchema, p))
  }

  function ScrubFacts(f: HeaderFacts, p: Primitives): HeaderFacts {
    HeaderFacts(p.text(f.model), p.text(f.system), ScrubMessages(f.systemMessages, p), p.json(f.settings),
                ScrubAll(f.tools, p), ScrubSchema(f.outputSchema, p), ScrubOwners(f.owners, p))
  }

  function ScrubHeader(h: Header, p: Primitives): Header {
    Header(h.id, h.revision, ScrubFacts(h.facts, p), p.text(h.reason))
  }

  function ScrubSurface(s: Surface, p: Primitives): Surface {
    Surface(s.replace, ScrubMessages(s.messages, p), p.text(s.ownerId), p.text(s.reason))
  }

  function ScrubRequest(r: Request, p: Primitives): Request {
    r.(owners := ScrubOwners(r.owners, p),
       gateway := ScrubGateway(r.gateway, p),
       gatewayDigest := p.text(r.gatewayDigest))
  }

  function Scrubbed(record: Record, p: Primitives): Record {
    match record
    case HeaderRevised(header, digest) => HeaderRevised(ScrubHeader(header, p), p.text(digest))
    case SurfaceUpdated(surface) => SurfaceUpdated(ScrubSurface(surface, p))
    case RequestRecorded(request) => RequestRecorded(ScrubRequest(request, p))
    case OtherRecord(text) => OtherRecord(p.text(text))
  }

  /** The log as the ledger sees it, with the supply of fresh ids. */
  datatype Log = Log(entries: seq<Entry>, nextId: Id)

  function Append(log: Log, record: Record, p: Primitives): Log {
    Log(log.entries + [Entry(log.nextId, Scrubbed(record, p))], log.nextId + 1)
  }

  function Drawn(log: Log): Log {
    Log(log.entries, log.nextId + 1)
  }

  // ---- What the closed records accept ----

  predicate IsSpace(c: char) {
    var n := c as int;
    9 <= n <= 13 || 28 <= n <= 32 || n == 0x85 || n == 0xA0 || n == 0x1680 || 0x2000 <= n <= 0x200A
    || n == 0x2028 || n == 0x2029 || n == 0x202F || n == 0x205F || n == 0x3000
  }

  /** `not s.strip()`. */
  predicate IsBlank(s: string) {
    s == "" || (IsSpace(s[0]) && IsBlank(s[1..]))
  }

  predicate Named(o: Owners) {
    !IsBlank(o.model) && !IsBlank(o.system) && !IsBlank(o.settings) && !IsBlank(o.tools) && !IsBlank(o.outputSchema)
    && !IsBlank(o.messages)
  }

  predicate ValidHeader(h: Header) {
    h.revision >= 1 && h.facts.model != "" && Named(h.facts.owners) && !IsBlank(h.reason)
  }

  predicate ValidSurface(s: Surface) {
    !IsBlank(s.ownerId) && !IsBlank(s.reason)
  }

  predicate ValidRequest(r: Request) {
    r.attempt >= 1 && r.surfaceEventIds != [] && Named(r.owners) && r.gateway.model != ""
  }

  // ---- One recording ----

  /** What a caller passes; `fault` is why the conversions of its messages, tools, schema, settings or
      owner map refuse it, if they do. */
  datatype Call = Call(gateway: Gateway, owners: Owners, reason: string, fault: Option<string>)

  function SystemMessages(messages: seq<Message>): seq<Message> {
    if messages == [] then []
    else (if messages[0].role.System? then [messages[0]] else []) + SystemMessages(messages[1..])
  }

  /** The contents, joined by newlines. */
  function Joined(messages: seq<Message>): string {
    if messages == [] then ""
    else if |messages| == 1 then messages[0].content
    else messages[0].content + "\n" + Joined(messages[1..])
  }

  function FactsOf(g: Gateway, owners: Owners): HeaderFacts {
    var system := SystemMessages(g.messages);
    HeaderFacts(g.model, Joined(system), system, g.settings, g.tools, g.outputSchema, owners)
  }

  datatype LedgerError =
    | BlankModel
    | BadAttempt
    | Refused(why: string)
    | BlankOwner
    | BlankReason
    | InvalidHeader(at: Id)
    | HeaderDigestMismatch(at: Id)
    | AppendFailed

  /** The newest header with its event id, if it validates and its digest holds. */
  function LatestHeader(entries: seq<Entry>, p: Primitives): Result<Option<(Header, Id)>, LedgerError> {
    if entries == [] then Ok(None)
    else
      var last := entries[|entries| - 1];
      if !last.record.HeaderRevised? then LatestHeader(entries[..|entries| - 1], p)
      else if !ValidHeader(last.record.header) then Err(InvalidHeader(last.eventId))
      else if last.record.digest != p.header(last.record.header) then Err(HeaderDigestMismatch(last.eventId))
      else Ok(Some((last.record.header, last.eventId)))
  }

  predicate Reuses(latest: Option<(Header, Id)>, facts: HeaderFacts) {
    latest.Some? && latest.value.0.facts == facts
  }

  function NewHeader(log: Log, latest: Option<(Header, Id)>, facts: HeaderFacts, reason: string): Header {
    Header(log.nextId, if latest.Some? then latest.value.0.revision + 1 else 1, facts, reason)
  }

  /** Keep the latest header when the model-visible facts are unchanged, else append its successor. */
  function WithHeader(
    log: Log, latest: Option<(Header, Id)>, facts: HeaderFacts, reason: string, p: Primitives): (Log, Id)
  {
    if Reuses(latest, facts) then (log, latest.value.1)
    else
      var header := NewHeader(log, latest, facts, reason);
      (Append(Drawn(log), HeaderRevised(header, p.header(header)), p), log.nextId + 1)
  }

  const SURFACE_REASON := "replace effective provider message surface"

  /** The log after each append of one recording, and the request it returns. */
  datatype Stages = Stages(headed: Log, surfaced: Log, recorded: Log, request: Request)

  function EffectiveSurface(call: Call): Surface {
    Surface(true, call.gateway.messages, call.owners.messages, SURFACE_REASON)
  }

  function NewRequest(
    id: Id, surfaceId: Id, call: Call, attempt: int, retryOf: Option<Id>, headerId: Id, p: Primitives): Request
  {
    Request(id, attempt, retryOf, headerId, [surfaceId], call.owners, call.gateway, p.gateway(call.gateway))
  }

  /** A valid surface operation or a record the ledger does not read. */
  predicate Foreign(record: Record) {
    record.OtherRecord? || (record.SurfaceUpdated? && ValidSurface(record.surface))
  }

  /** The checks of a recording, in the order they are made, and the latest header it works from. */
  function Admission(log: Log, call: Call, attempt: int, p: Primitives): Result<Option<(Header, Id)>, LedgerError> {
    if IsBlank(call.gateway.model) then Err(BlankModel)
    else if attempt < 1 then Err(BadAttempt)
    else if call.fault.Some? then Err(Refused(call.fault.value))
    else if !Named(call.owners) then Err(BlankOwner)
    else match LatestHeader(log.entries, p)
      case Err(error) => Err(error)
      case Ok(latest) => if IsBlank(call.reason) then Err(BlankReason) else Ok(latest)
  }

  /** One recording: a header if needed, the surface and the request. */
  function Recording(log: Log, call: Call, attempt: int, retryOf: Option<Id>, p: Primitives)
    : Result<Stages, LedgerError>
  {
    match Admission(log, call, attempt, p)
    case Err(error) => Err(error)
    case Ok(latest) => Ok(Staged(log, latest, call, attempt, retryOf, p))
  }

  function Staged(
    log: Log, latest: Option<(Header, Id)>, call: Call, attempt: int, retryOf: Option<Id>, p: Primitives): Stages
  {
    var (headed, headerId) := WithHeader(log, latest, FactsOf(call.gateway, call.owners), call.reason, p);
    var surfaced := Append(headed, SurfaceUpdated(EffectiveSurface(call)), p);
    var request := NewRequest(surfaced.nextId, headed.nextId, call, attempt, retryOf, headerId, p);
    Stages(headed, surfaced, Append(Drawn(surfaced), RequestRecorded(request), p), request)
  }

  /** What a caller can see of its own call: it converts, and names its model, owners and reason. */
  predicate WellFormed(call: Call) {
    !IsBlank(call.gateway.model) && call.fault.None? && Named(call.owners) && !IsBlank(call.reason)
  }

  // ---- The independent reader ----

  datatype ReplayState = ReplayState(
    headers: map<Id, Header>,
    operations: map<Id, (Surface, nat)>,
    lastRevision: nat,
    previous: Option<Header>,
    requests: seq<Request>)

  const NOTHING_READ := ReplayState(map[], map[], 0, None, [])

  datatype ReplayError =
    | BadRecord(at: nat)
    | DigestMismatch(at: nat)
    | RevisionGap(at: nat)
    | RepeatedFacts(at: nat)
    | NoHeader(id: Id)
    | NoSurface(id: Id)
    | ChangedOwners(id: Id)
    | Diverges(id: Id)
    | GatewayDigestMismatch(id: Id)
    | RecordedTwice(id: Id)
    | UnknownRetry(id: Id)

  function Inserted(op: (Surface, nat), ops: seq<(Surface, nat)>): seq<(Surface, nat)> {
    if ops == [] || op.1 <= ops[0].1 then [op] + ops else [ops[0]] + Inserted(op, ops[1..])
  }

  /** The named operations in log order. */
  function InLogOrder(ids: seq<Id>, operations: map<Id, (Surface, nat)>): seq<(Surface, nat)>
    requires forall id :: id in ids ==> id in operations
  {
    if ids == [] then [] else Inserted(operations[ids[0]], InLogOrder(ids[1..], operations))
  }

  /** The messages left by a sequence of operations. */
  function SurfaceAfter(ops: seq<(Surface, nat)>): seq<Message> {
    if ops == [] then []
    else
      var last := ops[|ops| - 1].0;
      if last.replace then last.messages else SurfaceAfter(ops[..|ops| - 1]) + last.messages
  }

  /** Gateway arguments from a header and a surface; the first payload shape kept its system text apart. */
  function Rebuilt(h: Header, surface: seq<Message>): Gateway {
    var f := h.facts;
    var system := if f.systemMessages != [] || f.system == "" then [] else [Message(System, f.system, None, [])];
    Gateway(f.model, system + surface, f.tools, f.settings, f.outputSchema)
  }

  predicate Known(requests: seq<Request>, id: Id) {
    exists i :: 0 <= i < |requests| && requests[i].id == id
  }

  function ReadHeader(
    st: ReplayState, at: nat, id: Id, h: Header, digest: string, p: Primitives): Result<ReplayState, ReplayError>
  {
    if !ValidHeader(h) then Err(BadRecord(at))
    else if digest != p.header(h) then Err(DigestMismatch(at))
    else if h.revision != st.lastRevision + 1 then Err(RevisionGap(at))
    else if st.previous.Some? && st.previous.value.facts == h.facts then Err(RepeatedFacts(at))
    else Ok(st.(headers := st.headers[id := h], lastRevision := h.revision, previous := Some(h)))
  }

  function ReadRequest(st: ReplayState, at: nat, r: Request, p: Primitives): Result<ReplayState, ReplayError> {
    if !ValidRequest(r) then Err(BadRecord(at))
    else if r.headerEventId !in st.headers then Err(NoHeader(r.id))
    else if !(forall id :: id in r.surfaceEventIds ==> id in st.operations) then Err(NoSurface(r.id))
    else
      var header := st.headers[r.headerEventId];
      var expected := Rebuilt(header, SurfaceAfter(InLogOrder(r.surfaceEventIds, st.operations)));
      if r.owners != header.facts.owners then Err(ChangedOwners(r.id))
      else if r.gateway != expected then Err(Diverges(r.id))
      else if r.gatewayDigest != p.gateway(expected) then Err(GatewayDigestMismatch(r.id))
      else if Known(st.requests, r.id) then Err(RecordedTwice(r.id))
      else if r.retryOf.Some? && !Known(st.requests, r.retryOf.value) then Err(UnknownRetry(r.id))
      else Ok(st.(requests := st.requests + [r]))
  }

  function ReadEntry(st: ReplayState, at: nat, e: Entry, p: Primitives): Result<ReplayState, ReplayError> {
    match e.record
    case HeaderRevised(header, digest) => ReadHeader(st, at, e.eventId, header, digest, p)
    case SurfaceUpdated(surface) =>
      if !ValidSurface(surface) then Err(BadRecord(at))
      else Ok(st.(operations := st.operations[e.eventId := (surface, at)]))
    case RequestRecorded(request) => ReadRequest(st, at, request, p)
    case OtherRecord(_) => Ok(st)
  }

  /** The request half of the replay of a whole log. */
  function Replay(entries: seq<Entry>, p: Primitives): Result<ReplayState, ReplayError> {
    if entries == [] then Ok(NOTHING_READ)
    else
      var n := |entries| - 1;
      match Replay(entries[..n], p)
      case Err(error) => Err(error)
      case Ok(st) => ReadEntry(st, n, entries[n], p)
  }

  // ---- What acceptance by the reader means ----

  function Headers(entries: seq<Entry>): seq<Header> {
    if entries == [] then []
    else
      var last := entries[|entries| - 1].record;
      Headers(entries[..|entries| - 1]) + if last.HeaderRevised? then [last.header] else []
  }

  function Requests(entries: seq<Entry>): seq<Request> {
    if entries == [] then []
    else
      var last := entries[|entries| - 1].record;
      Requests(entries[..|entries| - 1]) + if last.RequestRecorded? then [last.request] else []
  }

  /** Revisions 1, 2, 3, … and no two neighbours with the same facts. */
  ghost predicate Revised(headers: seq<Header>) {
    && (forall i :: 0 <= i < |headers| ==> headers[i].revision == i + 1)
    && (forall i :: 0 < i < |headers| ==> headers[i - 1].facts != headers[i].facts)
  }

  ghost predicate IsHeaderOf(h: Header, r: Request) {
    && h.facts.owners == r.owners && h.facts.model == r.gateway.model && h.facts.tools == r.gateway.tools
    && h.facts.settings == r.gateway.settings && h.facts.outputSchema == r.gateway.outputSchema
  }

  ghost predicate HasItsHeader(r: Request, headers: seq<Header>) {
    exists i :: 0 <= i < |headers| && IsHeaderOf(headers[i], r)
  }

  /** Every retry names an earlier request, and no id is used twice. */
  ghost predicate RetriesLookBack(requests: seq<Request>) {
    && (forall i, j :: 0 <= i < j < |requests| ==> requests[i].id != requests[j].id)
    && (forall i :: 0 <= i < |requests| && requests[i].retryOf.Some? ==>
         Known(requests[..i], requests[i].retryOf.value))
  }

  /** The reader's state against the headers and requests read so far: all requests in order, each with
      a recorded header of its own facts; revisions that count up by one and each change a fact;
      retries that look back. */
  ghost predicate Accounts(st: ReplayState, headers: seq<Header>, requests: seq<Request>) {
    && st.requests == requests
    && Revised(headers) && st.lastRevision == |headers|
    && st.previous == (if headers == [] then None else Some(headers[|headers| - 1]))
    && (forall id :: id in st.headers ==> st.headers[id] in headers)
    && (forall i :: 0 <= i < |requests| ==> HasItsHeader(requests[i], headers))
    && RetriesLookBack(requests)
  }

  /** Acceptance means the log is in order; it does not depend on who wrote it. */
  lemma {:induction false} AcceptedLogAccounts(entries: seq<Entry>, p: Primitives)
    requires Replay(entries, p).Ok?
    ensures Accounts(Replay(entries, p).value, Headers(entries), Requests(entries))
  {
    if entries != [] {
      var n := |entries| - 1;
      AcceptedLogAccounts(entries[..n], p);
      var st, headers, requests := Replay(entries[..n], p).value, Headers(entries[..n]), Requests(entries[..n]);
      match entries[n].record
      case HeaderRevised(header, digest) =>
        HeaderReadAccounts(st, headers, requests, n, entries[n].eventId, header, digest, p);
        assert Requests(entries) == requests;
      case RequestRecorded(request) =>
        RequestReadAccounts(st, headers, requests, n, request, p);
        assert Headers(entries) == headers;
      case _ =>
        assert Requests(entries) == requests && Headers(entries) == headers;
    }
  }

  lemma HeaderReadAccounts(
    st: ReplayState, headers: seq<Header>, requests: seq<Request>, at: nat, id: Id, h: Header, digest: string,
    p: Primitives)
    requires Accounts(st, headers, requests) && ReadHeader(st, at, id, h, digest, p).Ok?
    ensures Accounts(ReadHeader(st, at, id, h, digest, p).value, headers + [h], requests)
  {
    forall i | 0 <= i < |requests| ensures HasItsHeader(requests[i], headers + [h]) {
      HeaderStays(requests[i], headers, h);
    }
  }

  lemma HeaderStays(r: Request, headers: seq<Header>, h: Header)
    requires HasItsHeader(r, headers)
    ensures HasItsHeader(r, headers + [h])
  {
    var i :| 0 <= i < |headers| && IsHeaderOf(headers[i], r);
    assert (headers + [h])[i] == headers[i];
  }

  lemma RequestReadAccounts(
    st: ReplayState, headers: seq<Header>, requests: seq<Request>, at: nat, r: Request, p: Primitives)
    requires Accounts(st, headers, requests) && ReadRequest(st, at, r, p).Ok?
    ensures Accounts(ReadRequest(st, at, r, p).value, headers, requests + [r])
  {
    var h := st.headers[r.headerEventId];
    var i :| 0 <= i < |headers| && headers[i] == h;
    assert IsHeaderOf(headers[i], r);
    RetryAppended(requests, r);
  }

  lemma RetryAppended(requests: seq<Request>, r: Request)
    requires RetriesLookBack(requests) && !Known(requests, r.id)
    requires r.retryOf.Some? ==> Known(requests, r.retryOf.value)
    ensures RetriesLookBack(requests + [r])
  {
    var all := requests + [r];
    forall i | 0 <= i < |all| && all[i].retryOf.Some? ensures Known(all[..i], all[i].retryOf.value) {
      if i < |requests| { assert all[..i] == requests[..i]; } else { assert all[..i] == requests; }
    }
  }

  /** What was read stays read: a longer log that is accepted replays the same requests first. */
  lemma {:induction false} ReplayExtends(entries: seq<Entry>, more: seq<Entry>, p: Primitives)
    requires Replay(entries + more, p).Ok?
    ensures Replay(entries, p).Ok?
    ensures Replay(entries, p).value.requests <= Replay(entries + more, p).value.requests
  {
    if more == [] {
      assert entries + more == entries;
    } else {
      assert (entries + more)[..|entries + more| - 1] == entries + more[..|more| - 1];
      ReplayExtends(entries, more[..|more| - 1], p);
    }
  }

  // ---- What every run of the producer keeps ----

  ghost predicate LatestIs(entries: seq<Entry>, st: ReplayState, p: Primitives) {
    var latest := LatestHeader(entries, p);
    && latest.Ok?
    && st.previous == (if latest.value.Some? then Some(latest.value.value.0) else None)
    && st.lastRevision == (if latest.value.Some? then latest.value.value.0.revision else 0)
    && (latest.value.Some? ==>
          latest.value.value.1 in st.headers && st.headers[latest.value.value.1] == latest.value.value.0)
  }

  /** The reader accepts the log, and the producer and the reader agree on the latest header. */
  ghost predicate Sound(log: Log, p: Primitives) {
    var st := Replay(log.entries, p);
    && st.Ok? && LatestIs(log.entries, st.value, p)
    && (forall r :: r in st.value.requests ==> r.id < log.nextId)
    && (forall id :: id in st.value.headers ==> id < log.nextId)
  }

  /** One header per change of facts: the last header is the last request's, and their counts agree. */
  ghost predicate InStep(log: Log) {
    var headers, requests := Headers(log.entries), Requests(log.entries);
    && |headers| == Changes(requests)
    && (requests != [] ==> headers != [] && headers[|headers| - 1].facts == RequestFacts(requests[|requests| - 1]))
  }

  function RequestFacts(r: Request): HeaderFacts {
    FactsOf(r.gateway, r.owners)
  }

  /** How often a sequence of requests changes its facts, its first counting as a change. */
  function Changes(requests: seq<Request>): nat {
    if requests == [] then 0
    else
      var n := |requests| - 1;
      Changes(requests[..n]) + if n > 0 && RequestFacts(requests[n - 1]) == RequestFacts(requests[n]) then 0 else 1
  }

  /** No credential in what a new header of the call holds. */
  predicate CleanHeader(call: Call, p: Primitives) {
    var facts := FactsOf(call.gateway, call.owners);
    ScrubFacts(facts, p) == facts && p.text(call.reason) == call.reason
  }

  /** No credential in what its surface and its request hold. */
  predicate CleanRequest(call: Call, p: Primitives) {
    ScrubGateway(call.gateway, p) == call.gateway && ScrubOwners(call.owners, p) == call.owners
  }

  predicate Clean(call: Call, p: Primitives) {
    CleanHeader(call, p) && CleanRequest(call, p)
  }

  lemma AppendReads(log: Log, record: Record, p: Primitives)
    ensures var next, stored := Append(log, record, p).entries, Scrubbed(record, p);
      && next[..|log.entries|] == log.entries && |next| == |log.entries| + 1
      && next[|log.entries|] == Entry(log.nextId, stored)
      && Replay(next, p) == (match Replay(log.entries, p)
                               case Err(error) => Err(error)
                               case Ok(st) => ReadEntry(st, |log.entries|, Entry(log.nextId, stored), p))
      && (!stored.HeaderRevised? ==> LatestHeader(next, p) == LatestHeader(log.entries, p))
  {
    assert Append(log, record, p).entries[..|log.entries|] == log.entries;
  }

  lemma AppendCounts(log: Log, record: Record, p: Primitives)
    ensures var next, stored := Append(log, record, p).entries, Scrubbed(record, p);
      && Headers(next) == Headers(log.entries) + (if stored.HeaderRevised? then [stored.header] else [])
      && Requests(next) == Requests(log.entries) + (if stored.RequestRecorded? then [stored.request] else [])
  {
    assert Append(log, record, p).entries[..|log.entries|] == log.entries;
  }

  /** Surface operations and response records by anyone leave the ledger sound and in step. */
  lemma OtherAppendKeepsSound(log: Log, record: Record, p: Primitives)
    requires Sound(log, p) && Dependable(p) && Foreign(record)
    ensures var next := Append(log, record, p);
      && Sound(next, p) && (InStep(log) ==> InStep(next))
      && Headers(next.entries) == Headers(log.entries) && Requests(next.entries) == Requests(log.entries)
      && LatestHeader(next.entries, p) == LatestHeader(log.entries, p)
      && Replay(next.entries, p).value.headers == Replay(log.entries, p).value.headers
      && Replay(next.entries, p).value.requests == Replay(log.entries, p).value.requests
      && var operations := Replay(log.entries, p).value.operations;
      && Replay(next.entries, p).value.operations
         == (if record.SurfaceUpdated?
             then operations[log.nextId := (ScrubSurface(record.surface, p), |log.entries|)]
             else operations)
  {
    AppendReads(log, record, p);
    AppendCounts(log, record, p);
    var next := Append(log, record, p);
    assert Headers(next.entries) == Headers(log.entries) && Requests(next.entries) == Requests(log.entries);
    if record.SurfaceUpdated? {
      assert LeavesText(record.surface.ownerId, p) && LeavesText(record.surface.reason, p);
    }
  }

  /** What appends of others leave as it was. */
  ghost predicate Undisturbed(log: Log, next: Log, p: Primitives) {
    && Sound(next, p) && (InStep(log) ==> InStep(next)) && log.nextId <= next.nextId
    && Headers(next.entries) == Headers(log.entries) && Requests(next.entries) == Requests(log.entries)
    && LatestHeader(next.entries, p) == LatestHeader(log.entries, p)
    && Sound(log, p)
    && Replay(next.entries, p).value.headers == Replay(log.entries, p).value.headers
    && (forall id :: id in Replay(log.entries, p).value.operations && id < log.nextId ==>
          id in Replay(next.entries, p).value.operations
          && Replay(next.entries, p).value.operations[id] == Replay(log.entries, p).value.operations[id])
  }

  lemma UndisturbedJoins(a: Log, b: Log, c: Log, p: Primitives)
    requires Undisturbed(a, b, p) && Undisturbed(b, c, p)
    ensures Undisturbed(a, c, p)
  {
  }

  /** A recorded header with these facts that a request may name. */
  ghost predicate Available(log: Log, headerId: Id, facts: HeaderFacts, p: Primitives) {
    && Sound(log, p)
    && headerId in Replay(log.entries, p).value.headers
    && Replay(log.entries, p).value.headers[headerId].facts == facts
  }

  /** Between its header and its request, a recording has the header with its facts as the latest one. */
  ghost predicate Headed(log: Log, headerId: Id, facts: HeaderFacts, p: Primitives) {
    && Available(log, headerId, facts, p)
    && Headers(log.entries) != [] && Headers(log.entries)[|Headers(log.entries)| - 1].facts == facts
  }

  lemma HeaderAppendKeepsSound(
    log: Log, latest: Option<(Header, Id)>, facts: HeaderFacts, reason: string, p: Primitives)
    requires Sound(log, p) && Dependable(p) && LatestHeader(log.entries, p) == Ok(latest)
    requires Named(facts.owners) && facts.model != "" && !IsBlank(reason) && !Reuses(latest, facts)
    requires ScrubFacts(facts, p) == facts && p.text(reason) == reason
    ensures var (headed, headerId) := WithHeader(log, latest, facts, reason, p);
      && Headed(headed, headerId, facts, p)
      && |Headers(headed.entries)| == |Headers(log.entries)| + 1
      && Requests(headed.entries) == Requests(log.entries)
  {
    var header := NewHeader(log, latest, facts, reason);
    AppendReads(Drawn(log), HeaderRevised(header, p.header(header)), p);
    AppendCounts(Drawn(log), HeaderRevised(header, p.header(header)), p);
  }

  lemma CleanHeaderHeads(log: Log, call: Call, p: Primitives)
    requires Sound(log, p) && Dependable(p) && WellFormed(call)
    requires Reuses(LatestHeader(log.entries, p).value, FactsOf(call.gateway, call.owners)) || CleanHeader(call, p)
    ensures var facts := FactsOf(call.gateway, call.owners);
      var latest := LatestHeader(log.entries, p).value;
      var (headed, headerId) := WithHeader(log, latest, facts, call.reason, p);
      && Headed(headed, headerId, facts, p)
      && |Headers(headed.entries)| == |Headers(log.entries)| + (if Reuses(latest, facts) then 0 else 1)
      && Requests(headed.entries) == Requests(log.entries)
  {
    var facts := FactsOf(call.gateway, call.owners);
    var latest := LatestHeader(log.entries, p).value;
    AcceptedLogAccounts(log.entries, p);
    if !Reuses(latest, facts) {
      HeaderAppendKeepsSound(log, latest, facts, call.reason, p);
    }
  }

  /** The latest header is reused exactly when the last request, if in step, had the same facts. */
  lemma ReusedMeansUnchanged(log: Log, facts: HeaderFacts, p: Primitives)
    requires Sound(log, p) && InStep(log)
    ensures var requests := Requests(log.entries);
      Reuses(LatestHeader(log.entries, p).value, facts)
      <==> requests != [] && RequestFacts(requests[|requests| - 1]) == facts
  {
    AcceptedLogAccounts(log.entries, p);
  }

  /** A surface named alone, under a header with the facts of a call, rebuilds the call's arguments. */
  lemma CallIsRebuilt(h: Header, g: Gateway, owners: Owners)
    requires h.facts == FactsOf(g, owners)
    ensures Rebuilt(h, g.messages) == g
  {
  }

  /** The surface operation a request names alone. */
  ghost predicate Surfaced(log: Log, surfaceId: Id, messages: seq<Message>, p: Primitives)
    requires Sound(log, p)
  {
    var operations := Replay(log.entries, p).value.operations;
    surfaceId in operations && operations[surfaceId].0.replace && operations[surfaceId].0.messages == messages
  }

  lemma SurfaceAppendKeepsAvailable(log: Log, surface: Surface, headerId: Id, facts: HeaderFacts, p: Primitives)
    requires Dependable(p) && Available(log, headerId, facts, p)
    requires ValidSurface(surface) && surface.replace && ScrubMessages(surface.messages, p) == surface.messages
    ensures var surfaced := Append(log, SurfaceUpdated(surface), p);
      && Available(surfaced, headerId, facts, p) && Surfaced(surfaced, log.nextId, surface.messages, p)
      && Requests(surfaced.entries) == Requests(log.entries) && Headers(surfaced.entries) == Headers(log.entries)
  {
    OtherAppendKeepsSound(log, SurfaceUpdated(surface), p);
  }

  lemma EffectiveSurfaceIsValid(call: Call, p: Primitives)
    requires WellFormed(call)
    ensures ValidSurface(EffectiveSurface(call))
    ensures CleanRequest(call, p) ==> ScrubMessages(call.gateway.messages, p) == call.gateway.messages
  {
    assert SURFACE_REASON[0] == 'r';
    assert !IsSpace('r');
  }

  /** The reader takes a clean request whose header and surface are in place. */
  lemma RequestIsRead(st: ReplayState, at: nat, r: Request, p: Primitives)
    requires r.headerEventId in st.headers && |r.surfaceEventIds| == 1 && r.surfaceEventIds[0] in st.operations
    requires st.headers[r.headerEventId].facts == FactsOf(r.gateway, r.owners)
    requires var op := st.operations[r.surfaceEventIds[0]].0; op.replace && op.messages == r.gateway.messages
    requires ValidRequest(r) && r.gatewayDigest == p.gateway(r.gateway) && !Known(st.requests, r.id)
    requires r.retryOf.Some? ==> Known(st.requests, r.retryOf.value)
    ensures ReadRequest(st, at, r, p) == Ok(st.(requests := st.requests + [r]))
  {
    assert r.surfaceEventIds == [r.surfaceEventIds[0]];
    OneOperation(r.surfaceEventIds[0], st.operations);
    CallIsRebuilt(st.headers[r.headerEventId], r.gateway, r.owners);
  }

  lemma RequestAppendKeepsSound(
    log: Log, call: Call, attempt: int, retryOf: Option<Id>, headerId: Id, surfaceId: Id, p: Primitives)
    requires WellFormed(call) && CleanRequest(call, p) && attempt >= 1 && Dependable(p)
    requires Available(log, headerId, FactsOf(call.gateway, call.owners), p)
    requires Surfaced(log, surfaceId, call.gateway.messages, p)
    requires retryOf.Some? ==> Known(Requests(log.entries), retryOf.value)
    ensures var request := NewRequest(log.nextId, surfaceId, call, attempt, retryOf, headerId, p);
      var recorded := Append(Drawn(log), RequestRecorded(request), p);
      && Sound(recorded, p) && Requests(recorded.entries) == Requests(log.entries) + [request]
      && Headers(recorded.entries) == Headers(log.entries)
  {
    AcceptedLogAccounts(log.entries, p);
    var request := NewRequest(log.nextId, surfaceId, call, attempt, retryOf, headerId, p);
    assert ScrubRequest(request, p) == request;
    RequestIsRead(Replay(log.entries, p).value, |log.entries|, request, p);
    AppendReads(Drawn(log), RequestRecorded(request), p);
    AppendCounts(Drawn(log), RequestRecorded(request), p);
  }

  lemma OneOperation(id: Id, operations: map<Id, (Surface, nat)>)
    requires id in operations && operations[id].0.replace
    ensures SurfaceAfter(InLogOrder([id], operations)) == operations[id].0.messages
  {
    assert [id][1..] == [];
    assert InLogOrder([id], operations) == [operations[id]];
  }

  /** Surface and request of a recording, under any recorded header of its facts. */
  lemma RestKeepsSound(log: Log, call: Call, attempt: int, retryOf: Option<Id>, headerId: Id, p: Primitives)
    requires Dependable(p) && WellFormed(call) && CleanRequest(call, p) && attempt >= 1
    requires Available(log, headerId, FactsOf(call.gateway, call.owners), p)
    requires retryOf.Some? ==> Known(Requests(log.entries), retryOf.value)
    ensures var surfaced := Append(log, SurfaceUpdated(EffectiveSurface(call)), p);
      var request := NewRequest(surfaced.nextId, log.nextId, call, attempt, retryOf, headerId, p);
      var recorded := Append(Drawn(surfaced), RequestRecorded(request), p);
      && Sound(recorded, p) && Requests(recorded.entries) == Requests(log.entries) + [request]
      && Headers(recorded.entries) == Headers(log.entries)
  {
    EffectiveSurfaceIsValid(call, p);
    SurfaceAppendKeepsAvailable(log, EffectiveSurface(call), headerId, FactsOf(call.gateway, call.owners), p);
    var surfaced := Append(log, SurfaceUpdated(EffectiveSurface(call)), p);
    RequestAppendKeepsSound(surfaced, call, attempt, retryOf, headerId, log.nextId, p);
  }

  /** What a recording added: one request with the caller's own arguments, and a header exactly when the
      facts differ from the latest header's. */
  ghost predicate Records(log: Log, next: Log, request: Request, call: Call, p: Primitives) {
    var headers := Headers(next.entries);
    && Sound(next, p) && Requests(next.entries) == Requests(log.entries) + [request]
    && request.gateway == call.gateway && request.owners == call.owners
    && LatestHeader(log.entries, p).Ok?
    && |headers| == |Headers(log.entries)|
                    + (if Reuses(LatestHeader(log.entries, p).value, RequestFacts(request)) then 0 else 1)
    && headers != [] && headers[|headers| - 1].facts == RequestFacts(request)
  }

  /** One recording of a clean call on a sound log is refused only for its own faults. */
  lemma RecordingKeepsSound(log: Log, call: Call, attempt: int, retryOf: Option<Id>, p: Primitives)
    requires Sound(log, p) && Dependable(p) && Clean(call, p)
    requires retryOf.Some? ==> Known(Requests(log.entries), retryOf.value)
    ensures Recording(log, call, attempt, retryOf, p).Ok? <==> WellFormed(call) && attempt >= 1
    ensures match Recording(log, call, attempt, retryOf, p)
      case Err(_) => true
      case Ok(s) => Records(log, s.recorded, s.request, call, p)
  {
    if WellFormed(call) && attempt >= 1 {
      CleanHeaderHeads(log, call, p);
      var (headed, headerId) :=
        WithHeader(log, LatestHeader(log.entries, p).value, FactsOf(call.gateway, call.owners), call.reason, p);
      RestKeepsSound(headed, call, attempt, retryOf, headerId, p);
    }
  }

  /** A completed recording keeps one header per change of the model-visible facts. */
  lemma RecordingKeepsInStep(log: Log, next: Log, request: Request, call: Call, p: Primitives)
    requires Sound(log, p) && InStep(log) && Records(log, next, request, call, p)
    ensures InStep(next)
  {
    ReusedMeansUnchanged(log, RequestFacts(request), p);
    var requests := Requests(log.entries);
    assert (requests + [request])[..|requests|] == requests;
  }

  // ---- What a credential in a call does ----

  /** A recorded header that scrubbing changed is refused by its digest, by reader and producer alike. */
  lemma ScrubbedHeaderIsRefused(log: Log, header: Header, p: Primitives)
    requires Dependable(p) && ScrubHeader(header, p) != header
    ensures var next := Append(log, HeaderRevised(header, p.header(header)), p).entries;
      Replay(next, p).Err? && LatestHeader(next, p).Err?
  {
    AppendReads(log, HeaderRevised(header, p.header(header)), p);
  }

  /** Refusal is for ever: neither the rest of the recording nor anything else mends it. */
  lemma RefusalStays(log: Log, record: Record, p: Primitives)
    ensures var next := Append(log, record, p).entries;
      && (Replay(log.entries, p).Err? ==> Replay(next, p).Err?)
      && (!record.HeaderRevised? ==> LatestHeader(next, p) == LatestHeader(log.entries, p))
  {
    AppendReads(log, record, p);
  }

  /** A request whose recorded form differs from what its digest was taken of is refused. */
  lemma ScrubbedRequestIsRefused(st: ReplayState, at: nat, r: Request, p: Primitives)
    requires Dependable(p) && r.gatewayDigest == p.gateway(r.gateway)
    requires r.headerEventId in st.headers && st.headers[r.headerEventId].facts.owners == r.owners
    requires ScrubGateway(r.gateway, p) != r.gateway || ScrubOwners(r.owners, p) != r.owners
    ensures ReadRequest(st, at, ScrubRequest(r, p), p).Err?
  {
  }

  predicate Fits(log: Log, call: Call, p: Primitives)
    requires LatestHeader(log.entries, p).Ok?
  {
    Reuses(LatestHeader(log.entries, p).value, FactsOf(call.gateway, call.owners)) || CleanHeader(call, p)
  }

  lemma UncleanHeaderIsRefused(log: Log, call: Call, attempt: int, retryOf: Option<Id>, p: Primitives)
    requires Dependable(p) && WellFormed(call) && attempt >= 1
    requires LatestHeader(log.entries, p).Ok? && !Fits(log, call, p)
    ensures var recorded := Staged(log, LatestHeader(log.entries, p).value, call, attempt, retryOf, p).recorded.entries;
      Replay(recorded, p).Err? && LatestHeader(recorded, p).Err?
  {
    var latest := LatestHeader(log.entries, p).value;
    var s := Staged(log, latest, call, attempt, retryOf, p);
    ScrubbedHeaderIsRefused(Drawn(log), NewHeader(log, latest, FactsOf(call.gateway, call.owners), call.reason), p);
    RefusalStays(s.headed, SurfaceUpdated(EffectiveSurface(call)), p);
    RefusalStays(Drawn(s.surfaced), RequestRecorded(s.request), p);
  }

  lemma UncleanRequestIsRefused(
    headed: Log, call: Call, attempt: int, retryOf: Option<Id>, headerId: Id, p: Primitives)
    requires Dependable(p) && WellFormed(call) && !CleanRequest(call, p)
    requires Headed(headed, headerId, FactsOf(call.gateway, call.owners), p)
    ensures var surfaced := Append(headed, SurfaceUpdated(EffectiveSurface(call)), p);
      var request := NewRequest(surfaced.nextId, headed.nextId, call, attempt, retryOf, headerId, p);
      var recorded := Append(Drawn(surfaced), RequestRecorded(request), p).entries;
      Replay(recorded, p).Err? && LatestHeader(recorded, p) == LatestHeader(headed.entries, p)
  {
    EffectiveSurfaceIsValid(call, p);
    OtherAppendKeepsSound(headed, SurfaceUpdated(EffectiveSurface(call)), p);
    var surfaced := Append(headed, SurfaceUpdated(EffectiveSurface(call)), p);
    var request := NewRequest(surfaced.nextId, headed.nextId, call, attempt, retryOf, headerId, p);
    AppendReads(Drawn(surfaced), RequestRecorded(request), p);
    ScrubbedRequestIsRefused(Replay(surfaced.entries, p).value, |surfaced.entries|, request, p);
  }

  /** A fitting header: whether the reader accepts the rest is up to the surface and the request. */
  lemma FittingCallsExactly(log: Log, call: Call, attempt: int, retryOf: Option<Id>, p: Primitives)
    requires Sound(log, p) && Dependable(p) && WellFormed(call) && attempt >= 1 && Fits(log, call, p)
    requires retryOf.Some? ==> Known(Requests(log.entries), retryOf.value)
    ensures var recorded := Staged(log, LatestHeader(log.entries, p).value, call, attempt, retryOf, p).recorded;
      && (Replay(recorded.entries, p).Ok? <==> CleanRequest(call, p))
      && LatestHeader(recorded.entries, p).Ok?
  {
    CleanHeaderHeads(log, call, p);
    var (headed, headerId) :=
      WithHeader(log, LatestHeader(log.entries, p).value, FactsOf(call.gateway, call.owners), call.reason, p);
    if CleanRequest(call, p) {
      RestKeepsSound(headed, call, attempt, retryOf, headerId, p);
    } else {
      UncleanRequestIsRefused(headed, call, attempt, retryOf, headerId, p);
    }
  }

  lemma UnreadHeaderRefusesAll(log: Log, p: Primitives)
    requires LatestHeader(log.entries, p).Err?
    ensures forall next: Call, n: int, r: Option<Id> :: Recording(log, next, n, r, p).Err?
  {
  }

  /** Exactly when a well-formed call may be recorded: the reader can replay the log after it if and only
      if no credential is in what the recording writes; and once a new header holds one, no later call
      of any adapter is ever recorded again. */
  lemma CleanCallsExactly(log: Log, call: Call, attempt: int, retryOf: Option<Id>, p: Primitives)
    requires Sound(log, p) && Dependable(p) && WellFormed(call) && attempt >= 1
    requires retryOf.Some? ==> Known(Requests(log.entries), retryOf.value)
    ensures Recording(log, call, attempt, retryOf, p).Ok?
    ensures var recorded := Recording(log, call, attempt, retryOf, p).value.recorded;
      && (Replay(recorded.entries, p).Ok? <==> Fits(log, call, p) && CleanRequest(call, p))
      && (LatestHeader(recorded.entries, p).Ok? <==> Fits(log, call, p))
      && (!Fits(log, call, p) ==> forall next: Call, n: int, r: Option<Id> :: Recording(recorded, next, n, r, p).Err?)
  {
    if Fits(log, call, p) {
      FittingCallsExactly(log, call, attempt, retryOf, p);
    } else {
      UncleanHeaderIsRefused(log, call, attempt, retryOf, p);
      UnreadHeaderRefusesAll(Recording(log, call, attempt, retryOf, p).value.recorded, p);
    }
  }

  /** Such calls exist wherever scrubbing changes a model's name: recorded first, that call is the last. */
  lemma ScrubbedModelStopsLedger(model: string, owner: string, p: Primitives)
    requires Dependable(p) && !IsBlank(model) && !IsBlank(owner) && p.text(model) != model
    ensures var call := Call(Gateway(model, [], [], "{}", None), Owners(owner, owner, owner, owner, owner, owner),
                             owner, None);
      && WellFormed(call) && Recording(Log([], 0), call, 1, None, p).Ok?
      && var recorded := Recording(Log([], 0), call, 1, None, p).value.recorded;
      && Replay(recorded.entries, p).Err?
      && forall next: Call, n: int, r: Option<Id> :: Recording(recorded, next, n, r, p).Err?
  {
    var call := Call(Gateway(model, [], [], "{}", None), Owners(owner, owner, owner, owner, owner, owner), owner, None);
    CleanCallsExactly(Log([], 0), call, 1, None, p);
  }

  // ---- Two ledgers on one log ----

  /** Each ledger object has its own lock, so one recording may read the latest header, and another one
      be made in full, before it appends: the reader accepts both exactly if not both need a new header. */
  lemma UnsynchronisedExactly(
    log: Log, first: Call, second: Call, attempt: int, retryOf: Option<Id>, other: int, p: Primitives)
    requires Sound(log, p) && Dependable(p) && Clean(first, p) && Clean(second, p)
    requires WellFormed(first) && WellFormed(second) && attempt >= 1 && other >= 1
    requires retryOf.Some? ==> Known(Requests(log.entries), retryOf.value)
    ensures var latest := LatestHeader(log.entries, p).value;
      var between := Staged(log, latest, second, other, None, p).recorded;
      Replay(Staged(between, latest, first, attempt, retryOf, p).recorded.entries, p).Ok?
      <==> || Reuses(latest, FactsOf(first.gateway, first.owners))
           || Reuses(latest, FactsOf(second.gateway, second.owners))
  {
    var latest := LatestHeader(log.entries, p).value;
    RecordingKeepsSound(log, second, other, None, p);
    var between := Staged(log, latest, second, other, None, p).recorded;
    KnownLater(Requests(log.entries), Requests(between.entries), retryOf);
    if Reuses(latest, FactsOf(first.gateway, first.owners)) {
      HeadersStayAvailable(log, second, other, first, p);
      RestKeepsSound(between, first, attempt, retryOf, latest.value.1, p);
    } else if Reuses(latest, FactsOf(second.gateway, second.owners)) {
      ReuseKeepsLatest(log, second, other, p);
      RecordingKeepsSound(between, first, attempt, retryOf, p);
    } else {
      SecondRevisionIsRefused(log, first, second, attempt, retryOf, other, p);
    }
  }

  lemma KnownLater(before: seq<Request>, after: seq<Request>, id: Option<Id>)
    requires before <= after && (id.Some? ==> Known(before, id.value))
    ensures id.Some? ==> Known(after, id.value)
  {
    if id.Some? {
      var i :| 0 <= i < |before| && before[i].id == id.value;
      assert after[i].id == id.value;
    }
  }

  /** A header reused before a recording by another is still there for it. */
  lemma HeadersStayAvailable(log: Log, second: Call, other: int, first: Call, p: Primitives)
    requires Sound(log, p) && Dependable(p) && Clean(second, p) && WellFormed(second) && other >= 1
    requires Reuses(LatestHeader(log.entries, p).value, FactsOf(first.gateway, first.owners))
    ensures var latest := LatestHeader(log.entries, p).value;
      Available(Staged(log, latest, second, other, None, p).recorded, latest.value.1,
                FactsOf(first.gateway, first.owners), p)
  {
    RecordingKeepsSound(log, second, other, None, p);
    var latest := LatestHeader(log.entries, p).value;
    var s := Staged(log, latest, second, other, None, p);
    HeaderStepKeepsHeaders(log, latest, second, p);
    AppendKeepsHeaders(s.headed, SurfaceUpdated(EffectiveSurface(second)), p);
    AppendKeepsHeaders(Drawn(s.surfaced), RequestRecorded(s.request), p);
  }

  lemma AppendKeepsHeaders(log: Log, record: Record, p: Primitives)
    requires Replay(Append(log, record, p).entries, p).Ok? && !record.HeaderRevised?
    ensures Replay(log.entries, p).Ok?
    ensures Replay(Append(log, record, p).entries, p).value.headers == Replay(log.entries, p).value.headers
  {
    AppendReads(log, record, p);
  }

  lemma HeaderStepKeepsHeaders(log: Log, latest: Option<(Header, Id)>, call: Call, p: Primitives)
    requires Sound(log, p) && Dependable(p) && Clean(call, p) && WellFormed(call)
    requires LatestHeader(log.entries, p) == Ok(latest) && latest.Some? && latest.value.1 < log.nextId
    ensures var headed := WithHeader(log, latest, FactsOf(call.gateway, call.owners), call.reason, p).0;
      && Replay(headed.entries, p).Ok?
      && latest.value.1 in Replay(headed.entries, p).value.headers
      && Replay(headed.entries, p).value.headers[latest.value.1] == latest.value.0
  {
    CleanHeaderHeads(log, call, p);
    var header := NewHeader(log, latest, FactsOf(call.gateway, call.owners), call.reason);
    AppendReads(Drawn(log), HeaderRevised(header, p.header(header)), p);
  }

  lemma ReuseKeepsLatest(log: Log, call: Call, attempt: int, p: Primitives)
    requires Sound(log, p) && Dependable(p) && Clean(call, p) && WellFormed(call) && attempt >= 1
    requires Reuses(LatestHeader(log.entries, p).value, FactsOf(call.gateway, call.owners))
    ensures var latest := LatestHeader(log.entries, p).value;
      LatestHeader(Staged(log, latest, call, attempt, None, p).recorded.entries, p) == Ok(latest)
  {
    var s := Staged(log, LatestHeader(log.entries, p).value, call, attempt, None, p);
    AppendReads(log, SurfaceUpdated(EffectiveSurface(call)), p);
    AppendReads(Drawn(s.surfaced), RequestRecorded(s.request), p);
  }

  /** Two new headers drawn from one latest one have one revision, which the reader refuses. */
  lemma SecondRevisionIsRefused(
    log: Log, first: Call, second: Call, attempt: int, retryOf: Option<Id>, other: int, p: Primitives)
    requires Sound(log, p) && Dependable(p) && Clean(second, p) && WellFormed(second) && other >= 1
    requires Clean(first, p)
    requires !Reuses(LatestHeader(log.entries, p).value, FactsOf(first.gateway, first.owners))
    requires !Reuses(LatestHeader(log.entries, p).value, FactsOf(second.gateway, second.owners))
    ensures var latest := LatestHeader(log.entries, p).value;
      var between := Staged(log, latest, second, other, None, p).recorded;
      Replay(Staged(between, latest, first, attempt, retryOf, p).recorded.entries, p).Err?
  {
    var latest := LatestHeader(log.entries, p).value;
    RecordingKeepsSound(log, second, other, None, p);
    var between := Staged(log, latest, second, other, None, p).recorded;
    AcceptedLogAccounts(log.entries, p);
    WrongRevisionIsRefused(between, NewHeader(between, latest, FactsOf(first.gateway, first.owners), first.reason), p);
    var s := Staged(between, latest, first, attempt, retryOf, p);
    RefusalStays(s.headed, SurfaceUpdated(EffectiveSurface(first)), p);
    RefusalStays(Drawn(s.surfaced), RequestRecorded(s.request), p);
  }

  lemma WrongRevisionIsRefused(log: Log, header: Header, p: Primitives)
    requires Sound(log, p) && header.revision != |Headers(log.entries)| + 1
    ensures Replay(Append(Drawn(log), HeaderRevised(header, p.header(header)), p).entries, p).Err?
  {
    AcceptedLogAccounts(log.entries, p);
    RevisionGapIsRefused(Replay(log.entries, p).value, |log.entries|, log.nextId + 1, ScrubHeader(header, p),
                         p.text(p.header(header)), p);
    AppendReads(Drawn(log), HeaderRevised(header, p.header(header)), p);
  }

  lemma RevisionGapIsRefused(st: ReplayState, at: nat, id: Id, h: Header, digest: string, p: Primitives)
    requires h.revision != st.lastRevision + 1
    ensures ReadHeader(st, at, id, h, digest, p).Err?
  {
  }
}

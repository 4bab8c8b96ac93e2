/** Runs of several adapters over one ledger whose appends can fail, on one event log
    (runtime/agents/src/thymira/agents/request_ledger.py, packages/events/src/thymira/events/log.py). */
module LedgerRuns {
  import opened Options
  import opened ChainStates
  import opened RequestLedger

  /** The ledger's log, and how every append tried on it so far ended. */
  datatype Journal = Journal(log: Log, tried: seq<Fate>)

  function State(j: Journal): ChainState {
    StateAfter(j.tried)
  }

  /** The independent reader verifies the chain before it replays anything. */
  predicate Accepts(j: Journal, p: Primitives) {
    Verifies(State(j)) && Replay(j.log.entries, p).Ok?
  }

  function Try(j: Journal, record: Record, fate: Fate, p: Primitives): Journal {
    Journal(if Writes(State(j), fate) then Append(j.log, record, p) else Drawn(j.log), j.tried + [fate])
  }

  /** One append of the log: its line if it is written, an id and a fate either way. */
  lemma TryMoves(j: Journal, record: Record, fate: Fate, p: Primitives)
    ensures var next := Try(j, record, fate, p);
      && next.log.nextId == j.log.nextId + 1 && next.tried == j.tried + [fate]
      && State(next) == After(State(j), fate)
      && next.log.entries == if Writes(State(j), fate) then j.log.entries + [Entry(j.log.nextId, Scrubbed(record, p))]
                             else j.log.entries
  {
    StateStep(j.tried, fate);
  }

  function DrawnFrom(j: Journal): Journal {
    Journal(Drawn(j.log), j.tried)
  }

  /** An append of somebody else, and how it ends. */
  datatype Act = Act(record: Record, fate: Fate)

  function TryAll(j: Journal, acts: seq<Act>, p: Primitives): Journal
    decreases |acts|
  {
    if acts == [] then j else TryAll(Try(j, acts[0].record, acts[0].fate, p), acts[1..], p)
  }

  /** What others append meanwhile: only recordings hold the ledger's lock. */
  datatype Others = Others(beforeHeader: seq<Act>, beforeSurface: seq<Act>, beforeRequest: seq<Act>)

  const NO_OTHERS := Others([], [], [])

  predicate AllForeign(acts: seq<Act>) {
    forall a :: a in acts ==> Foreign(a.record)
  }

  predicate ForeignOthers(o: Others) {
    AllForeign(o.beforeHeader) && AllForeign(o.beforeSurface) && AllForeign(o.beforeRequest)
  }

  /** How the appends of a recording itself end. */
  datatype Endings = Endings(header: Fate, surface: Fate, request: Fate)

  const COMPLETE := Endings(Completes, Completes, Completes)

  /** The log after a recording, the request whose line is in it, and what the caller gets. */
  datatype Recorded = Recorded(journal: Journal, logged: Option<Request>, lease: Result<Request, LedgerError>)

  function HeaderPhase(
    j: Journal, latest: Option<(Header, Id)>, call: Call, fate: Fate, p: Primitives): (Journal, Option<Id>)
  {
    var facts := FactsOf(call.gateway, call.owners);
    if Reuses(latest, facts) then (j, Some(latest.value.1))
    else
      var header := NewHeader(j.log, latest, facts, call.reason);
      (Try(DrawnFrom(j), HeaderRevised(header, p.header(header)), fate, p),
       if Returns(State(j), fate) then Some(j.log.nextId + 1) else None)
  }

  function SurfacePhase(j: Journal, call: Call, fate: Fate, p: Primitives): (Journal, Option<Id>) {
    (Try(j, SurfaceUpdated(EffectiveSurface(call)), fate, p),
     if Returns(State(j), fate) then Some(j.log.nextId) else None)
  }

  function RequestPhase(j: Journal, request: Request, fate: Fate, p: Primitives): Recorded {
    Recorded(
      Try(DrawnFrom(j), RequestRecorded(request), fate, p),
      if Writes(State(j), fate) then Some(request) else None,
      if Returns(State(j), fate) then Ok(request) else Err(AppendFailed))
  }

  /** One recording: read the latest header, then append a header if needed, the surface and the request,
      with the appends of others in between, up to the first append of its own that fails. */
  function RecordingAmid(
    j: Journal, call: Call, attempt: int, retryOf: Option<Id>, others: Others, endings: Endings, p: Primitives)
    : Recorded
  {
    match Admission(j.log, call, attempt, p)
    case Err(error) => Recorded(j, None, Err(error))
    case Ok(latest) =>
      var (headed, headerId) := HeaderPhase(TryAll(j, others.beforeHeader, p), latest, call, endings.header, p);
      if headerId.None? then Recorded(headed, None, Err(AppendFailed))
      else RecordingUnder(headed, call, attempt, retryOf, headerId.value, others, endings, p)
  }

  function RecordingUnder(
    headed: Journal, call: Call, attempt: int, retryOf: Option<Id>, headerId: Id, others: Others, endings: Endings,
    p: Primitives): Recorded
  {
    var (surfaced, surfaceId) := SurfacePhase(TryAll(headed, others.beforeSurface, p), call, endings.surface, p);
    if surfaceId.None? then Recorded(surfaced, None, Err(AppendFailed))
    else
      var ready := TryAll(surfaced, others.beforeRequest, p);
      var request := NewRequest(ready.log.nextId, surfaceId.value, call, attempt, retryOf, headerId, p);
      RequestPhase(ready, request, endings.request, p)
  }

  /** A caller is only given a request whose line is in the log. */
  lemma LeaseIsLogged(
    j: Journal, call: Call, attempt: int, retryOf: Option<Id>, others: Others, endings: Endings, p: Primitives)
    ensures var r := RecordingAmid(j, call, attempt, retryOf, others, endings, p);
      r.lease.Ok? ==> r.logged == Some(r.lease.value)
  {
  }

  // ---- One recording on a sound ledger ----

  lemma TryIsUndisturbed(j: Journal, act: Act, p: Primitives)
    requires Sound(j.log, p) && Dependable(p) && Foreign(act.record)
    ensures Undisturbed(j.log, Try(j, act.record, act.fate, p).log, p)
  {
    OtherAppendKeepsSound(j.log, act.record, p);
  }

  lemma {:induction false} OthersLeaveUndisturbed(j: Journal, acts: seq<Act>, p: Primitives)
    requires Sound(j.log, p) && Dependable(p) && AllForeign(acts)
    ensures Undisturbed(j.log, TryAll(j, acts, p).log, p)
    decreases |acts|
  {
    if acts != [] {
      var next := Try(j, acts[0].record, acts[0].fate, p);
      TryIsUndisturbed(j, acts[0], p);
      OthersLeaveUndisturbed(next, acts[1..], p);
      UndisturbedJoins(j.log, next.log, TryAll(j, acts, p).log, p);
    }
  }

  lemma UndisturbedStaysHeaded(log: Log, next: Log, headerId: Id, facts: HeaderFacts, p: Primitives)
    requires Headed(log, headerId, facts, p) && Undisturbed(log, next, p)
    ensures Headed(next, headerId, facts, p)
  {
  }

  lemma UndisturbedStaysSurfaced(log: Log, next: Log, surfaceId: Id, messages: seq<Message>, p: Primitives)
    requires Sound(log, p) && Undisturbed(log, next, p) && surfaceId < log.nextId
    requires Surfaced(log, surfaceId, messages, p)
    ensures Surfaced(next, surfaceId, messages, p)
  {
  }

  lemma DrawnKeepsSound(log: Log, p: Primitives)
    requires Sound(log, p)
    ensures Sound(Drawn(log), p)
  {
  }

  /** The header of a recording, if it needs one and its append returns, is the latest one. */
  lemma HeaderPhaseKeepsSound(j: Journal, call: Call, fate: Fate, p: Primitives)
    requires Sound(j.log, p) && Dependable(p) && WellFormed(call) && Clean(call, p)
    ensures var facts := FactsOf(call.gateway, call.owners);
      var latest := LatestHeader(j.log.entries, p).value;
      var (headed, headerId) := HeaderPhase(j, latest, call, fate, p);
      && Sound(headed.log, p) && Requests(headed.log.entries) == Requests(j.log.entries)
      && j.log.nextId <= headed.log.nextId
      && (headerId.Some? ==>
            && Headed(headed.log, headerId.value, facts, p)
            && |Headers(headed.log.entries)| == |Headers(j.log.entries)| + (if Reuses(latest, facts) then 0 else 1))
  {
    CleanHeaderHeads(j.log, call, p);
    DrawnKeepsSound(j.log, p);
    DrawnKeepsSound(Drawn(j.log), p);
  }

  lemma SurfacePhaseKeepsSound(j: Journal, call: Call, headerId: Id, fate: Fate, p: Primitives)
    requires Dependable(p) && WellFormed(call) && Clean(call, p)
    requires Headed(j.log, headerId, FactsOf(call.gateway, call.owners), p)
    ensures var (surfaced, surfaceId) := SurfacePhase(j, call, fate, p);
      && Sound(surfaced.log, p) && Requests(surfaced.log.entries) == Requests(j.log.entries)
      && Headers(surfaced.log.entries) == Headers(j.log.entries) && j.log.nextId < surfaced.log.nextId
      && (surfaceId.Some? ==>
            && surfaceId.value < surfaced.log.nextId
            && Headed(surfaced.log, headerId, FactsOf(call.gateway, call.owners), p)
            && Surfaced(surfaced.log, surfaceId.value, call.gateway.messages, p))
  {
    if Writes(State(j), fate) {
      EffectiveSurfaceIsValid(call, p);
      SurfaceIsWritten(j.log, EffectiveSurface(call), headerId, FactsOf(call.gateway, call.owners), p);
    } else {
      DrawnKeepsSound(j.log, p);
    }
  }

  lemma SurfaceIsWritten(log: Log, surface: Surface, headerId: Id, facts: HeaderFacts, p: Primitives)
    requires Dependable(p) && Headed(log, headerId, facts, p)
    requires ValidSurface(surface) && surface.replace && ScrubMessages(surface.messages, p) == surface.messages
    ensures var surfaced := Append(log, SurfaceUpdated(surface), p);
      && Requests(surfaced.entries) == Requests(log.entries) && Headers(surfaced.entries) == Headers(log.entries)
      && Headed(surfaced, headerId, facts, p) && Surfaced(surfaced, log.nextId, surface.messages, p)
  {
    SurfaceAppendKeepsAvailable(log, surface, headerId, facts, p);
  }

  lemma RequestPhaseKeepsSound(
    j: Journal, call: Call, attempt: int, retryOf: Option<Id>, headerId: Id, surfaceId: Id, fate: Fate, p: Primitives)
    requires Dependable(p) && WellFormed(call) && Clean(call, p) && attempt >= 1
    requires Headed(j.log, headerId, FactsOf(call.gateway, call.owners), p)
    requires Surfaced(j.log, surfaceId, call.gateway.messages, p)
    requires retryOf.Some? ==> Known(Requests(j.log.entries), retryOf.value)
    ensures var request := NewRequest(j.log.nextId, surfaceId, call, attempt, retryOf, headerId, p);
      var r := RequestPhase(j, request, fate, p);
      && Sound(r.journal.log, p) && Headers(r.journal.log.entries) == Headers(j.log.entries)
      && Requests(r.journal.log.entries)
         == Requests(j.log.entries) + (if r.logged.Some? then [r.logged.value] else [])
  {
    RequestAppendKeepsSound(j.log, call, attempt, retryOf, headerId, surfaceId, p);
    DrawnKeepsSound(j.log, p);
    DrawnKeepsSound(Drawn(j.log), p);
  }

  /** What a recording leaves, however its appends and those of others end: a sound ledger with at most
      one request more, the caller's own; the caller gets a request only if it is in the log. */
  ghost predicate AddsAtMostOne(
    j: Journal, r: Recorded, call: Call, attempt: int, retryOf: Option<Id>, p: Primitives)
  {
    && Sound(r.journal.log, p) && j.log.nextId <= r.journal.log.nextId
    && Requests(r.journal.log.entries) == Requests(j.log.entries) + (if r.logged.Some? then [r.logged.value] else [])
    && (r.lease.Ok? ==> r.logged == Some(r.lease.value))
    && (r.logged.Some? ==>
          && Records(j.log, r.journal.log, r.logged.value, call, p)
          && r.logged.value.attempt == attempt && r.logged.value.retryOf == retryOf
          && j.log.nextId <= r.logged.value.id < r.journal.log.nextId)
  }

  lemma RecordingUnderKeepsSound(
    j: Journal, headed: Journal, call: Call, attempt: int, retryOf: Option<Id>, headerId: Id, others: Others,
    endings: Endings, p: Primitives)
    requires Dependable(p) && WellFormed(call) && Clean(call, p) && attempt >= 1 && ForeignOthers(others)
    requires Headed(headed.log, headerId, FactsOf(call.gateway, call.owners), p)
    requires Requests(headed.log.entries) == Requests(j.log.entries) && j.log.nextId <= headed.log.nextId
    requires LatestHeader(j.log.entries, p).Ok?
    requires |Headers(headed.log.entries)| == |Headers(j.log.entries)|
      + (if Reuses(LatestHeader(j.log.entries, p).value, FactsOf(call.gateway, call.owners)) then 0 else 1)
    requires retryOf.Some? ==> Known(Requests(j.log.entries), retryOf.value)
    ensures AddsAtMostOne(
      j, RecordingUnder(headed, call, attempt, retryOf, headerId, others, endings, p), call, attempt, retryOf, p)
  {
    var facts := FactsOf(call.gateway, call.owners);
    var under := TryAll(headed, others.beforeSurface, p);
    HeadedAmidOthers(headed, others.beforeSurface, headerId, facts, p);
    SurfacePhaseKeepsSound(under, call, headerId, endings.surface, p);
    var (surfaced, surfaceId) := SurfacePhase(under, call, endings.surface, p);
    if surfaceId.Some? {
      RequestKeepsSound(j, surfaced, call, attempt, retryOf, headerId, surfaceId.value, others, endings, p);
    }
  }

  lemma RequestKeepsSound(
    j: Journal, surfaced: Journal, call: Call, attempt: int, retryOf: Option<Id>, headerId: Id, surfaceId: Id,
    others: Others, endings: Endings, p: Primitives)
    requires Dependable(p) && WellFormed(call) && Clean(call, p) && attempt >= 1 && ForeignOthers(others)
    requires Headed(surfaced.log, headerId, FactsOf(call.gateway, call.owners), p)
    requires surfaceId < surfaced.log.nextId && Surfaced(surfaced.log, surfaceId, call.gateway.messages, p)
    requires Requests(surfaced.log.entries) == Requests(j.log.entries) && j.log.nextId <= surfaced.log.nextId
    requires LatestHeader(j.log.entries, p).Ok?
    requires |Headers(surfaced.log.entries)| == |Headers(j.log.entries)|
      + (if Reuses(LatestHeader(j.log.entries, p).value, FactsOf(call.gateway, call.owners)) then 0 else 1)
    requires retryOf.Some? ==> Known(Requests(j.log.entries), retryOf.value)
    ensures var ready := TryAll(surfaced, others.beforeRequest, p);
      var request := NewRequest(ready.log.nextId, surfaceId, call, attempt, retryOf, headerId, p);
      AddsAtMostOne(j, RequestPhase(ready, request, endings.request, p), call, attempt, retryOf, p)
  {
    var ready := TryAll(surfaced, others.beforeRequest, p);
    HeadedAmidOthers(surfaced, others.beforeRequest, headerId, FactsOf(call.gateway, call.owners), p);
    UndisturbedStaysSurfaced(surfaced.log, ready.log, surfaceId, call.gateway.messages, p);
    RequestPhaseKeepsSound(ready, call, attempt, retryOf, headerId, surfaceId, endings.request, p);
  }

  lemma HeadedAmidOthers(j: Journal, acts: seq<Act>, headerId: Id, facts: HeaderFacts, p: Primitives)
    requires Headed(j.log, headerId, facts, p) && Dependable(p) && AllForeign(acts)
    ensures Undisturbed(j.log, TryAll(j, acts, p).log, p) && Headed(TryAll(j, acts, p).log, headerId, facts, p)
  {
    OthersLeaveUndisturbed(j, acts, p);
    UndisturbedStaysHeaded(j.log, TryAll(j, acts, p).log, headerId, facts, p);
  }

  /** A recording of a clean call on a sound ledger adds at most the one request. */
  lemma RecordingAddsAtMostOne(
    j: Journal, call: Call, attempt: int, retryOf: Option<Id>, others: Others, endings: Endings, p: Primitives)
    requires Sound(j.log, p) && Dependable(p) && Clean(call, p) && ForeignOthers(others)
    requires retryOf.Some? ==> Known(Requests(j.log.entries), retryOf.value)
    ensures AddsAtMostOne(
      j, RecordingAmid(j, call, attempt, retryOf, others, endings, p), call, attempt, retryOf, p)
  {
    if Admission(j.log, call, attempt, p).Ok? {
      var latest := LatestHeader(j.log.entries, p).value;
      var ready := TryAll(j, others.beforeHeader, p);
      OthersLeaveUndisturbed(j, others.beforeHeader, p);
      HeaderPhaseKeepsSound(ready, call, endings.header, p);
      var (headed, headerId) := HeaderPhase(ready, latest, call, endings.header, p);
      if headerId.Some? {
        RecordingUnderKeepsSound(j, headed, call, attempt, retryOf, headerId.value, others, endings, p);
      }
    }
  }

  // ---- Where nothing fails ----

  predicate AllComplete(acts: seq<Act>) {
    forall a :: a in acts ==> a.fate.Completes?
  }

  /** Nothing fails before the last append of the recording. */
  predicate ReachesRequest(others: Others, endings: Endings) {
    && endings.header.Completes? && endings.surface.Completes?
    && AllComplete(others.beforeHeader) && AllComplete(others.beforeSurface) && AllComplete(others.beforeRequest)
  }

  predicate Undisrupted(others: Others, endings: Endings) {
    ReachesRequest(others, endings) && endings.request.Completes?
  }

  /** A recording that reached its request ends as the append of that does. */
  predicate EndsAs(r: Recorded, fate: Fate) {
    && State(r.journal) == After(Held, fate)
    && (r.lease.Ok? <==> Returns(Held, fate)) && (r.logged.Some? <==> Writes(Held, fate))
  }

  lemma TryCompletes(j: Journal, record: Record, p: Primitives)
    requires State(j).Held?
    ensures State(Try(j, record, Completes, p)).Held?
  {
    StateStep(j.tried, Completes);
  }

  lemma {:induction false} TryAllCompletes(j: Journal, acts: seq<Act>, p: Primitives)
    requires State(j).Held? && AllComplete(acts)
    ensures State(TryAll(j, acts, p)).Held?
    decreases |acts|
  {
    if acts != [] {
      TryCompletes(j, acts[0].record, p);
      TryAllCompletes(Try(j, acts[0].record, acts[0].fate, p), acts[1..], p);
    }
  }

  lemma RecordingUnderCompletes(
    headed: Journal, call: Call, attempt: int, retryOf: Option<Id>, headerId: Id, others: Others, endings: Endings,
    p: Primitives)
    requires State(headed).Held? && ReachesRequest(others, endings)
    ensures EndsAs(RecordingUnder(headed, call, attempt, retryOf, headerId, others, endings, p), endings.request)
  {
    var under := TryAll(headed, others.beforeSurface, p);
    TryAllCompletes(headed, others.beforeSurface, p);
    TryCompletes(under, SurfaceUpdated(EffectiveSurface(call)), p);
    var surfaced := Try(under, SurfaceUpdated(EffectiveSurface(call)), Completes, p);
    var ready := TryAll(surfaced, others.beforeRequest, p);
    TryAllCompletes(surfaced, others.beforeRequest, p);
    RequestEndsAs(
      ready, NewRequest(ready.log.nextId, under.log.nextId, call, attempt, retryOf, headerId, p), endings.request, p);
  }

  lemma RequestEndsAs(j: Journal, request: Request, fate: Fate, p: Primitives)
    requires State(j).Held?
    ensures EndsAs(RequestPhase(j, request, fate, p), fate)
  {
    StateStep(j.tried, fate);
  }

  /** On a held chain a recording in which nothing fails before its request ends as that does, or was
      refused before its first append. */
  lemma RecordingCompletes(
    j: Journal, call: Call, attempt: int, retryOf: Option<Id>, others: Others, endings: Endings, p: Primitives)
    requires State(j).Held? && ReachesRequest(others, endings)
    ensures var r := RecordingAmid(j, call, attempt, retryOf, others, endings, p);
      if Admission(j.log, call, attempt, p).Ok? then EndsAs(r, endings.request) else r.journal == j
  {
    if Admission(j.log, call, attempt, p).Ok? {
      var latest := Admission(j.log, call, attempt, p).value;
      var ready := TryAll(j, others.beforeHeader, p);
      TryAllCompletes(j, others.beforeHeader, p);
      HeaderCompletes(ready, latest, call, p);
      var (headed, headerId) := HeaderPhase(ready, latest, call, endings.header, p);
      RecordingUnderCompletes(headed, call, attempt, retryOf, headerId.value, others, endings, p);
    }
  }

  lemma HeaderCompletes(j: Journal, latest: Option<(Header, Id)>, call: Call, p: Primitives)
    requires State(j).Held?
    ensures var (headed, headerId) := HeaderPhase(j, latest, call, Completes, p);
      State(headed).Held? && headerId.Some?
  {
    var header := NewHeader(j.log, latest, FactsOf(call.gateway, call.owners), call.reason);
    TryCompletes(DrawnFrom(j), HeaderRevised(header, p.header(header)), p);
  }

  /** The reader accepts what a recording without failures leaves exactly when scrubbing leaves the call
      alone, header and request. */
  lemma CleanCallsAccepted(j: Journal, call: Call, attempt: int, retryOf: Option<Id>, p: Primitives)
    requires State(j).Held? && Sound(j.log, p) && Dependable(p) && WellFormed(call) && attempt >= 1
    requires retryOf.Some? ==> Known(Requests(j.log.entries), retryOf.value)
    ensures Accepts(RecordingAmid(j, call, attempt, retryOf, NO_OTHERS, COMPLETE, p).journal, p)
       <==> Fits(j.log, call, p) && CleanRequest(call, p)
  {
    RecordingCompletes(j, call, attempt, retryOf, NO_OTHERS, COMPLETE, p);
    CleanCallsExactly(j.log, call, attempt, retryOf, p);
    UndisruptedIsRecording(j, call, attempt, retryOf, p);
  }

  lemma UndisruptedIsRecording(j: Journal, call: Call, attempt: int, retryOf: Option<Id>, p: Primitives)
    requires State(j).Held? && Recording(j.log, call, attempt, retryOf, p).Ok?
    ensures RecordingAmid(j, call, attempt, retryOf, NO_OTHERS, COMPLETE, p).journal.log
         == Recording(j.log, call, attempt, retryOf, p).value.recorded
  {
    var latest := Admission(j.log, call, attempt, p).value;
    var header := NewHeader(j.log, latest, FactsOf(call.gateway, call.owners), call.reason);
    TryCompletes(DrawnFrom(j), HeaderRevised(header, p.header(header)), p);
    var headed := HeaderPhase(j, latest, call, Completes, p).0;
    TryCompletes(headed, SurfaceUpdated(EffectiveSurface(call)), p);
  }

  // ---- Several adapters over one ledger ----

  /** A call an adapter was given, the request its recording left in the log, if any, and whether the
      adapter was told of it. */
  datatype Outcome = Outcome(call: Call, logged: Option<Request>, told: bool)

  /** An adapter's two fields, and the history of its calls to state what they mean. */
  datatype Adapter = Adapter(attempt: nat, previous: Option<Id>, outcomes: seq<Outcome>)

  datatype Fleet = Fleet(journal: Journal, adapters: seq<Adapter>)

  /** What happens to one ledger: a call by an adapter, a surface operation by anyone, or any other record,
      such as a response chunk. */
  datatype Step =
    | Provide(adapter: nat, call: Call, others: Others, endings: Endings)
    | UpdateSurface(surface: Surface, fate: Fate)
    | OtherStep(text: string, fate: Fate)

  /** The attempt is counted before the recording, the link is made after it. */
  function Counted(a: Adapter, outcome: Outcome): Adapter {
    Adapter(a.attempt + 1,
            if outcome.told && outcome.logged.Some? then Some(outcome.logged.value.id) else a.previous,
            a.outcomes + [outcome])
  }

  function Provided(
    j: Journal, a: Adapter, call: Call, others: Others, endings: Endings, p: Primitives): (Journal, Adapter)
  {
    var r := RecordingAmid(j, call, a.attempt + 1, a.previous, others, endings, p);
    (r.journal, Counted(a, Outcome(call, r.logged, r.lease.Ok?)))
  }

  /** The two fields of an adapter after a call, read off the lease. */
  lemma ProvidedFields(j: Journal, a: Adapter, call: Call, others: Others, endings: Endings, p: Primitives)
    ensures var r := RecordingAmid(j, call, a.attempt + 1, a.previous, others, endings, p);
      var (journal, b) := Provided(j, a, call, others, endings, p);
      && journal == r.journal && b.attempt == a.attempt + 1
      && b.previous == if r.lease.Ok? then Some(r.lease.value.id) else a.previous
  {
    LeaseIsLogged(j, call, a.attempt + 1, a.previous, others, endings, p);
  }

  predicate Enabled(step: Step, adapters: nat) {
    match step
    case Provide(i, _, others, _) => i < adapters && ForeignOthers(others)
    case UpdateSurface(surface, _) => ValidSurface(surface)
    case OtherStep(_, _) => true
  }

  function Take(f: Fleet, step: Step, p: Primitives): (g: Fleet)
    requires Enabled(step, |f.adapters|)
    ensures |g.adapters| == |f.adapters|
  {
    match step
    case Provide(i, call, others, endings) =>
      var (journal, adapter) := Provided(f.journal, f.adapters[i], call, others, endings, p);
      Fleet(journal, f.adapters[i := adapter])
    case UpdateSurface(surface, fate) => f.(journal := Try(f.journal, SurfaceUpdated(surface), fate, p))
    case OtherStep(text, fate) => f.(journal := Try(f.journal, OtherRecord(text), fate, p))
  }

  function Run(f: Fleet, steps: seq<Step>, p: Primitives): Fleet
    requires forall i :: 0 <= i < |steps| ==> Enabled(steps[i], |f.adapters|)
    decreases |steps|
  {
    if steps == [] then f else Run(Take(f, steps[0], p), steps[1..], p)
  }

  predicate CleanStep(step: Step, p: Primitives) {
    step.Provide? ==> Clean(step.call, p)
  }

  predicate UndisruptedStep(step: Step) {
    match step
    case Provide(_, _, others, endings) => Undisrupted(others, endings)
    case UpdateSurface(_, fate) => fate.Completes?
    case OtherStep(_, fate) => fate.Completes?
  }

  function LastTold(outcomes: seq<Outcome>): Option<Id> {
    if outcomes == [] then None
    else
      var last := outcomes[|outcomes| - 1];
      if last.told && last.logged.Some? then Some(last.logged.value.id) else LastTold(outcomes[..|outcomes| - 1])
  }

  /** Attempts number an adapter's calls; each request in the log holds its caller's arguments and retries
      the last one the adapter was told of; a request told of is in the log; ids grow. */
  ghost predicate Linked(a: Adapter) {
    && a.attempt == |a.outcomes| && a.previous == LastTold(a.outcomes)
    && (forall k :: 0 <= k < |a.outcomes| && a.outcomes[k].logged.Some? ==> IsCall(a.outcomes, k))
    && (forall k :: 0 <= k < |a.outcomes| && a.outcomes[k].told ==> a.outcomes[k].logged.Some?)
    && IdsGrow(a.outcomes)
  }

  ghost predicate IdsGrow(outcomes: seq<Outcome>) {
    forall k, l :: 0 <= k < l < |outcomes| && outcomes[k].logged.Some? && outcomes[l].logged.Some? ==>
      outcomes[k].logged.value.id < outcomes[l].logged.value.id
  }

  ghost predicate IsCall(outcomes: seq<Outcome>, k: nat)
    requires k < |outcomes| && outcomes[k].logged.Some?
  {
    var r, call := outcomes[k].logged.value, outcomes[k].call;
    r.attempt == k + 1 && r.retryOf == LastTold(outcomes[..k]) && r.gateway == call.gateway && r.owners == call.owners
  }

  ghost predicate Belongs(a: Adapter, requests: seq<Request>, nextId: Id) {
    && (a.previous.Some? ==> Known(requests, a.previous.value))
    && (forall k :: 0 <= k < |a.outcomes| && a.outcomes[k].logged.Some? ==>
          a.outcomes[k].logged.value in requests && a.outcomes[k].logged.value.id < nextId)
  }

  ghost predicate SoundFleet(f: Fleet, p: Primitives) {
    && Sound(f.journal.log, p)
    && (forall i :: 0 <= i < |f.adapters| ==>
          Linked(f.adapters[i]) && Belongs(f.adapters[i], Requests(f.journal.log.entries), f.journal.log.nextId))
  }

  lemma CountedLinks(a: Adapter, requests: seq<Request>, nextId: Id, outcome: Outcome)
    requires Linked(a) && Belongs(a, requests, nextId) && (outcome.told ==> outcome.logged.Some?)
    requires outcome.logged.Some? ==>
               var r := outcome.logged.value;
               && r.attempt == a.attempt + 1 && r.retryOf == a.previous && nextId <= r.id
               && r.gateway == outcome.call.gateway && r.owners == outcome.call.owners
    ensures Linked(Counted(a, outcome))
  {
    var all := Counted(a, outcome).outcomes;
    assert all[..|a.outcomes|] == a.outcomes;
    forall k | 0 <= k < |all| && all[k].logged.Some? ensures IsCall(all, k) {
      if k < |a.outcomes| {
        assert IsCall(a.outcomes, k);
        assert all[..k] == a.outcomes[..k];
      }
    }
  }

  lemma BelongsLater(a: Adapter, before: seq<Request>, after: seq<Request>, nextId: Id, later: Id)
    requires Belongs(a, before, nextId) && before <= after && nextId <= later
    ensures Belongs(a, after, later)
  {
    KnownLater(before, after, a.previous);
  }

  lemma CountedBelongs(a: Adapter, requests: seq<Request>, nextId: Id, outcome: Outcome)
    requires Belongs(a, requests, nextId)
    requires outcome.logged.Some? ==> outcome.logged.value in requests && outcome.logged.value.id < nextId
    ensures Belongs(Counted(a, outcome), requests, nextId)
  {
    if outcome.told && outcome.logged.Some? {
      var i :| 0 <= i < |requests| && requests[i] == outcome.logged.value;
    }
  }

  lemma ProvidedKeeps(j: Journal, a: Adapter, call: Call, others: Others, endings: Endings, p: Primitives)
    requires Sound(j.log, p) && Dependable(p) && Clean(call, p) && ForeignOthers(others)
    requires Linked(a) && Belongs(a, Requests(j.log.entries), j.log.nextId)
    ensures var (next, b) := Provided(j, a, call, others, endings, p);
      && Sound(next.log, p) && Linked(b) && Belongs(b, Requests(next.log.entries), next.log.nextId)
      && Requests(j.log.entries) <= Requests(next.log.entries) && j.log.nextId <= next.log.nextId
  {
    var r := RecordingAmid(j, call, a.attempt + 1, a.previous, others, endings, p);
    RecordingAddsAtMostOne(j, call, a.attempt + 1, a.previous, others, endings, p);
    var outcome := Outcome(call, r.logged, r.lease.Ok?);
    CountedLinks(a, Requests(j.log.entries), j.log.nextId, outcome);
    BelongsLater(a, Requests(j.log.entries), Requests(r.journal.log.entries), j.log.nextId, r.journal.log.nextId);
    CountedBelongs(a, Requests(r.journal.log.entries), r.journal.log.nextId, outcome);
  }

  lemma ProvidedKeepsInStep(j: Journal, a: Adapter, call: Call, others: Others, endings: Endings, p: Primitives)
    requires Sound(j.log, p) && Dependable(p) && Clean(call, p) && ForeignOthers(others)
    requires Belongs(a, Requests(j.log.entries), j.log.nextId)
    requires State(j).Held? && Undisrupted(others, endings) && InStep(j.log)
    ensures var next := Provided(j, a, call, others, endings, p).0;
      State(next).Held? && InStep(next.log)
  {
    var r := RecordingAmid(j, call, a.attempt + 1, a.previous, others, endings, p);
    RecordingCompletes(j, call, a.attempt + 1, a.previous, others, endings, p);
    if Admission(j.log, call, a.attempt + 1, p).Ok? {
      RecordingAddsAtMostOne(j, call, a.attempt + 1, a.previous, others, endings, p);
      AddedKeepsInStep(j, r, call, a.attempt + 1, a.previous, p);
    }
  }

  lemma AddedKeepsInStep(
    j: Journal, r: Recorded, call: Call, attempt: int, retryOf: Option<Id>, p: Primitives)
    requires Sound(j.log, p) && InStep(j.log) && AddsAtMostOne(j, r, call, attempt, retryOf, p) && r.lease.Ok?
    ensures InStep(r.journal.log)
  {
    RecordingKeepsInStep(j.log, r.journal.log, r.logged.value, call, p);
  }

  lemma StepKeepsFleet(f: Fleet, step: Step, p: Primitives)
    requires Enabled(step, |f.adapters|) && SoundFleet(f, p) && Dependable(p) && CleanStep(step, p)
    ensures var g := Take(f, step, p);
      SoundFleet(g, p) && Requests(f.journal.log.entries) <= Requests(g.journal.log.entries)
  {
    var g := Take(f, step, p);
    var before, after := Requests(f.journal.log.entries), Requests(g.journal.log.entries);
    match step {
      case Provide(i, call, others, endings) => ProvidedKeeps(f.journal, f.adapters[i], call, others, endings, p);
      case UpdateSurface(surface, fate) => TryIsUndisturbed(f.journal, Act(SurfaceUpdated(surface), fate), p);
      case OtherStep(text, fate) => TryIsUndisturbed(f.journal, Act(OtherRecord(text), fate), p);
    }
    forall j | 0 <= j < |f.adapters| && g.adapters[j] == f.adapters[j]
      ensures Belongs(g.adapters[j], after, g.journal.log.nextId)
    {
      BelongsLater(f.adapters[j], before, after, f.journal.log.nextId, g.journal.log.nextId);
    }
  }

  lemma StepKeepsInStep(f: Fleet, step: Step, p: Primitives)
    requires Enabled(step, |f.adapters|) && SoundFleet(f, p) && Dependable(p) && CleanStep(step, p)
    requires State(f.journal).Held? && UndisruptedStep(step) && InStep(f.journal.log)
    ensures var g := Take(f, step, p); State(g.journal).Held? && InStep(g.journal.log)
  {
    match step
    case Provide(i, call, others, endings) => ProvidedKeepsInStep(f.journal, f.adapters[i], call, others, endings, p);
    case UpdateSurface(surface, fate) =>
      TryIsUndisturbed(f.journal, Act(SurfaceUpdated(surface), fate), p);
      TryCompletes(f.journal, SurfaceUpdated(surface), p);
    case OtherStep(text, fate) =>
      TryIsUndisturbed(f.journal, Act(OtherRecord(text), fate), p);
      TryCompletes(f.journal, OtherRecord(text), p);
  }

  /** Every run of any adapters over one ledger, with any of its appends and any appends of others failing
      in any way: the records alone always replay, every request ever recorded among them, each for its
      caller's own arguments; and the reader accepts the log exactly as long as no append wrote its line
      after one that left nothing, since that line does not chain. */
  lemma {:induction false} EveryRunReplays(f: Fleet, steps: seq<Step>, p: Primitives)
    requires forall i :: 0 <= i < |steps| ==> Enabled(steps[i], |f.adapters|) && CleanStep(steps[i], p)
    requires SoundFleet(f, p) && Dependable(p)
    ensures var g := Run(f, steps, p);
      && SoundFleet(g, p)
      && Replay(g.journal.log.entries, p).value.requests == Requests(g.journal.log.entries)
      && Requests(f.journal.log.entries) <= Requests(g.journal.log.entries)
      && Revised(Headers(g.journal.log.entries))
      && (Accepts(g.journal, p) <==> Unbroken(g.journal.tried))
    decreases |steps|
  {
    if steps == [] {
      AcceptedLogAccounts(f.journal.log.entries, p);
      VerifiesExactlyUnbroken(f.journal.tried);
    } else {
      StepKeepsFleet(f, steps[0], p);
      EveryRunReplays(Take(f, steps[0], p), steps[1..], p);
    }
  }

  /** Without a failing append there is exactly one header revision per change of the model-visible facts,
      and the reader accepts the log. */
  lemma {:induction false} UndisruptedRunsStayInStep(f: Fleet, steps: seq<Step>, p: Primitives)
    requires forall i :: 0 <= i < |steps| ==>
               Enabled(steps[i], |f.adapters|) && CleanStep(steps[i], p) && UndisruptedStep(steps[i])
    requires SoundFleet(f, p) && Dependable(p) && State(f.journal).Held? && InStep(f.journal.log)
    ensures var g := Run(f, steps, p); InStep(g.journal.log) && Accepts(g.journal, p)
    decreases |steps|
  {
    if steps != [] {
      StepKeepsFleet(f, steps[0], p);
      StepKeepsInStep(f, steps[0], p);
      UndisruptedRunsStayInStep(Take(f, steps[0], p), steps[1..], p);
    }
  }

  function FreshFleet(adapters: nat): Fleet {
    Fleet(Journal(Log([], 0), []), seq(adapters, _ => Adapter(0, None, [])))
  }

  /** The hypotheses of these hold of a fresh ledger. */
  lemma FreshFleetIsSound(adapters: nat, p: Primitives)
    ensures var f := FreshFleet(adapters);
      SoundFleet(f, p) && State(f.journal).Held? && InStep(f.journal.log)
  {
  }

  /** The refused run: on any log, one append that leaves nothing, and one that completes. */
  lemma LostAppendIsNotAccepted(j: Journal, lost: Record, next: Record, p: Primitives)
    ensures !Accepts(Try(Try(j, lost, NothingWritten, p), next, Completes, p), p)
  {
    var after := Try(j, lost, NothingWritten, p);
    StateStep(j.tried, NothingWritten);
    StateStep(after.tried, Completes);
  }

  // ---- An adapter's requests ----

  function Logged(outcomes: seq<Outcome>): seq<Request> {
    if outcomes == [] then []
    else
      var last := outcomes[|outcomes| - 1].logged;
      Logged(outcomes[..|outcomes| - 1]) + if last.Some? then [last.value] else []
  }

  ghost predicate RetryChain(rs: seq<Request>) {
    && (rs != [] ==> rs[0].retryOf == None)
    && (forall i :: 0 < i < |rs| ==> rs[i].retryOf == Some(rs[i - 1].id))
  }

  /** Nothing of the adapter was logged after a request it was not told of. */
  predicate UntoldIsLast(outcomes: seq<Outcome>) {
    forall k, l :: 0 <= k < l < |outcomes| && outcomes[k].logged.Some? && !outcomes[k].told ==>
      outcomes[l].logged.None?
  }

  /** Whether the adapter was told of its last request in the log. */
  predicate LastLoggedTold(outcomes: seq<Outcome>) {
    outcomes == [] ||
    var last := outcomes[|outcomes| - 1];
    if last.logged.Some? then last.told else LastLoggedTold(outcomes[..|outcomes| - 1])
  }

  lemma {:induction false} LastToldIsOneOfThem(outcomes: seq<Outcome>)
    ensures LastTold(outcomes).Some? ==>
      exists k :: 0 <= k < |outcomes| && outcomes[k].told && outcomes[k].logged.Some?
                  && outcomes[k].logged.value.id == LastTold(outcomes).value
  {
    if outcomes != [] {
      var n := |outcomes| - 1;
      LastToldIsOneOfThem(outcomes[..n]);
      if outcomes[n].told && outcomes[n].logged.Some? {
        assert outcomes[n].logged.value.id == LastTold(outcomes).value;
      } else if LastTold(outcomes).Some? {
        var k :| 0 <= k < n && outcomes[..n][k].told && outcomes[..n][k].logged.Some?
                 && outcomes[..n][k].logged.value.id == LastTold(outcomes).value;
        assert outcomes[k] == outcomes[..n][k];
      }
    }
  }

  /** The last request told of is the last one in the log exactly when that one was told of. */
  lemma {:induction false} LastToldIsLastLogged(outcomes: seq<Outcome>)
    requires IdsGrow(outcomes)
    ensures var rs := Logged(outcomes);
      if rs == [] then LastTold(outcomes) == None
      else LastTold(outcomes) == Some(rs[|rs| - 1].id) <==> LastLoggedTold(outcomes)
  {
    if outcomes != [] {
      var n := |outcomes| - 1;
      var last := outcomes[n];
      IdsGrowFront(outcomes);
      LastToldIsLastLogged(outcomes[..n]);
      if last.logged.Some? && !last.told {
        LastToldIsOneOfThem(outcomes[..n]);
        if LastTold(outcomes).Some? {
          var k :| 0 <= k < n && outcomes[..n][k].told && outcomes[..n][k].logged.Some?
                   && outcomes[..n][k].logged.value.id == LastTold(outcomes).value;
          assert outcomes[k] == outcomes[..n][k];
        }
      }
    }
  }

  lemma IdsGrowFront(outcomes: seq<Outcome>)
    requires outcomes != [] && IdsGrow(outcomes)
    ensures IdsGrow(outcomes[..|outcomes| - 1])
  {
  }

  lemma {:induction false} UntoldBeforeLast(outcomes: seq<Outcome>)
    ensures UntoldIsLast(outcomes) ==>
      (LastLoggedTold(outcomes) <==>
       forall k :: 0 <= k < |outcomes| && outcomes[k].logged.Some? ==> outcomes[k].told)
  {
    if outcomes != [] {
      var n := |outcomes| - 1;
      UntoldBeforeLast(outcomes[..n]);
      assert forall k :: 0 <= k < n ==> outcomes[..n][k] == outcomes[k];
    }
  }

  lemma UntoldIsLastStep(outcomes: seq<Outcome>)
    requires outcomes != []
    ensures var front, last := outcomes[..|outcomes| - 1], outcomes[|outcomes| - 1];
      UntoldIsLast(outcomes) <==> UntoldIsLast(front) && (last.logged.Some? ==> LastLoggedTold(front))
  {
    var n := |outcomes| - 1;
    UntoldBeforeLast(outcomes[..n]);
    assert forall k :: 0 <= k < n ==> outcomes[..n][k] == outcomes[k];
  }

  lemma RetryChainStep(rs: seq<Request>, r: Request)
    ensures RetryChain(rs + [r])
       <==> RetryChain(rs) && r.retryOf == (if rs == [] then None else Some(rs[|rs| - 1].id))
  {
    var all := rs + [r];
    assert all[|rs|] == r;
    assert forall i :: 0 <= i < |rs| ==> all[i] == rs[i];
  }

  ghost predicate RetriesLastTold(outcomes: seq<Outcome>) {
    forall k :: 0 <= k < |outcomes| && outcomes[k].logged.Some? ==>
      outcomes[k].logged.value.retryOf == LastTold(outcomes[..k])
  }

  lemma RetriesLastToldFront(outcomes: seq<Outcome>)
    requires outcomes != [] && RetriesLastTold(outcomes)
    ensures RetriesLastTold(outcomes[..|outcomes| - 1])
  {
    var front := outcomes[..|outcomes| - 1];
    forall k | 0 <= k < |front| && front[k].logged.Some?
      ensures front[k].logged.value.retryOf == LastTold(front[..k])
    {
      assert front[..k] == outcomes[..k];
    }
  }

  lemma {:induction false} RetryChainExactly(outcomes: seq<Outcome>)
    requires IdsGrow(outcomes) && RetriesLastTold(outcomes)
    ensures RetryChain(Logged(outcomes)) <==> UntoldIsLast(outcomes)
  {
    if outcomes != [] {
      IdsGrowFront(outcomes);
      RetriesLastToldFront(outcomes);
      RetryChainExactly(outcomes[..|outcomes| - 1]);
      RetryChainOutcome(outcomes);
      UntoldIsLastStep(outcomes);
    }
  }

  lemma RetryChainOutcome(outcomes: seq<Outcome>)
    requires outcomes != [] && IdsGrow(outcomes) && RetriesLastTold(outcomes)
    ensures var front, last := outcomes[..|outcomes| - 1], outcomes[|outcomes| - 1];
      RetryChain(Logged(outcomes)) <==> RetryChain(Logged(front)) && (last.logged.Some? ==> LastLoggedTold(front))
  {
    var n := |outcomes| - 1;
    var front := outcomes[..n];
    IdsGrowFront(outcomes);
    LastToldIsLastLogged(front);
    if outcomes[n].logged.Some? {
      RetryChainStep(Logged(front), outcomes[n].logged.value);
      if Logged(front) == [] { NothingLogged(front); }
    } else {
      assert Logged(outcomes) == Logged(front);
    }
  }

  lemma {:induction false} NothingLogged(outcomes: seq<Outcome>)
    requires Logged(outcomes) == []
    ensures LastLoggedTold(outcomes)
  {
    if outcomes != [] { NothingLogged(outcomes[..|outcomes| - 1]); }
  }

  /** An adapter's requests in the log form one retry chain, the first retrying nothing and each other its
      predecessor, exactly when nothing of it was logged after a request whose append then failed. */
  lemma RetriesFormOneChainExactly(a: Adapter)
    requires Linked(a)
    ensures RetryChain(Logged(a.outcomes)) <==> UntoldIsLast(a.outcomes)
  {
    forall k | 0 <= k < |a.outcomes| && a.outcomes[k].logged.Some?
      ensures a.outcomes[k].logged.value.retryOf == LastTold(a.outcomes[..k])
    {
      assert IsCall(a.outcomes, k);
    }
    RetryChainExactly(a.outcomes);
  }

  lemma {:induction false} LoggedCount(outcomes: seq<Outcome>)
    ensures |Logged(outcomes)| <= |outcomes|
    ensures |Logged(outcomes)| == |outcomes| <==> forall k :: 0 <= k < |outcomes| ==> outcomes[k].logged.Some?
  {
    if outcomes != [] { LoggedCount(outcomes[..|outcomes| - 1]); }
  }

  /** A request's attempt is its position among its adapter's requests in the log exactly when every
      earlier call of that adapter left one there: the attempt is counted even then. */
  lemma AttemptIsPositionExactly(a: Adapter, k: nat)
    requires Linked(a) && k < |a.outcomes| && a.outcomes[k].logged.Some?
    ensures a.outcomes[k].logged.value.attempt == |Logged(a.outcomes[..k])| + 1
       <==> forall j :: 0 <= j < k ==> a.outcomes[j].logged.Some?
  {
    assert IsCall(a.outcomes, k);
    LoggedCount(a.outcomes[..k]);
  }

  const FRESH := Journal(Log([], 0), [])
  const UNUSED := Adapter(0, None, [])

  lemma FreshIsSound(p: Primitives)
    ensures State(FRESH).Held? && Sound(FRESH.log, p) && Requests(FRESH.log.entries) == []
  {
  }

  /** A recording without others, up to how its request ends. */
  lemma RecordingAlone(j: Journal, call: Call, attempt: int, retryOf: Option<Id>, fate: Fate, p: Primitives)
    returns (r: Recorded)
    requires State(j).Held? && Sound(j.log, p) && Dependable(p) && Clean(call, p) && WellFormed(call)
    requires attempt >= 1 && (retryOf.Some? ==> Known(Requests(j.log.entries), retryOf.value))
    ensures r == RecordingAmid(j, call, attempt, retryOf, NO_OTHERS, Endings(Completes, Completes, fate), p)
    ensures EndsAs(r, fate) && AddsAtMostOne(j, r, call, attempt, retryOf, p)
  {
    var endings := Endings(Completes, Completes, fate);
    RecordingCompletes(j, call, attempt, retryOf, NO_OTHERS, endings, p);
    RecordingAddsAtMostOne(j, call, attempt, retryOf, NO_OTHERS, endings, p);
    r := RecordingAmid(j, call, attempt, retryOf, NO_OTHERS, endings, p);
  }

  lemma RefusedCallCounts(call: Call, why: string, p: Primitives)
    requires WellFormed(call)
    ensures Provided(FRESH, UNUSED, call.(fault := Some(why)), NO_OTHERS, COMPLETE, p)
         == (FRESH, Adapter(1, None, [Outcome(call.(fault := Some(why)), None, false)]))
  {
    var outcome := Outcome(call.(fault := Some(why)), None, false);
    assert [] + [outcome] == [outcome];
  }

  /** On a fresh ledger a refused call, and one that is then recorded, as its adapter's attempt 2. */
  lemma RefusedCallSkipsAttempt(call: Call, why: string, p: Primitives)
    returns (j: Journal, a: Adapter, r: Recorded)
    requires Dependable(p) && Clean(call, p) && WellFormed(call)
    ensures (j, a) == Provided(FRESH, UNUSED, call.(fault := Some(why)), NO_OTHERS, COMPLETE, p)
    ensures r == RecordingAmid(j, call, a.attempt + 1, a.previous, NO_OTHERS, COMPLETE, p)
    ensures r.lease.Ok? && Requests(r.journal.log.entries) == [r.lease.value] && r.lease.value.attempt == 2
  {
    FreshIsSound(p);
    RefusedCallCounts(call, why, p);
    j, a := FRESH, Adapter(1, None, [Outcome(call.(fault := Some(why)), None, false)]);
    r := RecordingAlone(j, call, 2, None, Completes, p);
  }

  lemma UnsyncedCall(call: Call, p: Primitives) returns (j: Journal, a: Adapter)
    requires Dependable(p) && Clean(call, p) && WellFormed(call)
    ensures (j, a) == Provided(FRESH, UNUSED, call, NO_OTHERS, Endings(Completes, Completes, NotSynced), p)
    ensures State(j).Held? && Sound(j.log, p) && |Requests(j.log.entries)| == 1
    ensures a.attempt == 1 && a.previous == None
  {
    FreshIsSound(p);
    var r := RecordingAlone(FRESH, call, 1, None, NotSynced, p);
    j, a := r.journal, Counted(UNUSED, Outcome(call, r.logged, r.lease.Ok?));
  }

  /** Two calls on a fresh ledger of which the first one's request is written and not synced: the reader
      accepts the log, and the second request in it retries nothing. */
  lemma UnsyncedRequestBreaksRetries(call: Call, p: Primitives) returns (j: Journal, a: Adapter, r: Recorded)
    requires Dependable(p) && Clean(call, p) && WellFormed(call)
    ensures (j, a) == Provided(FRESH, UNUSED, call, NO_OTHERS, Endings(Completes, Completes, NotSynced), p)
    ensures r == RecordingAmid(j, call, a.attempt + 1, a.previous, NO_OTHERS, COMPLETE, p)
    ensures Accepts(r.journal, p) && |Requests(j.log.entries)| == 1
    ensures r.lease.Ok? && Requests(r.journal.log.entries) == Requests(j.log.entries) + [r.lease.value]
    ensures r.lease.value.retryOf == None
  {
    j, a := UnsyncedCall(call, p);
    r := RecordingAlone(j, call, 2, None, Completes, p);
  }
}

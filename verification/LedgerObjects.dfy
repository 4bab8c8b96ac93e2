/** The producer's objects: the event log, the ledger and the adapter that records through it
    (runtime/agents/src/thymira/agents/request_ledger.py). */
module LedgerObjects {
  import opened Options
  import opened ChainStates
  import opened RequestLedger
  import opened LedgerRuns
  import opened LedgerContents

  class EventLog {
    const primitives: Primitives
    var entries: seq<Entry>
    var nextId: Id
    /** What the writer's memory and the file make of the next append. */
    var chain: ChainState
    ghost var tried: seq<Fate>

    constructor (primitives: Primitives)
      ensures this.primitives == primitives && Valid() && Now() == FRESH
    {
      this.primitives, entries, nextId, chain, tried := primitives, [], 0, Held, [];
    }

    ghost predicate Valid()
      reads this
    {
      chain == StateAfter(tried)
    }

    ghost function Now(): Journal
      reads this
    {
      Journal(Log(entries, nextId), tried)
    }

    method NewId() returns (id: Id)
      requires Valid()
      modifies this`nextId
      ensures Valid() && id == old(nextId) && Now() == DrawnFrom(old(Now()))
    {
      id := nextId;
      nextId := nextId + 1;
    }

    /** One append that ends as `fate` says; the caller gets the event's id if it completes. */
    method AppendRecord(record: Record, fate: Fate) returns (eventId: Option<Id>)
      requires Valid()
      modifies this
      ensures Valid() && Now() == Try(old(Now()), record, fate, primitives)
      ensures eventId == if Returns(old(chain), fate) then Some(old(nextId)) else None
    {
      ghost var before := Now();
      assert chain == State(before);
      TryMoves(before, record, fate, primitives);
      eventId := if Returns(chain, fate) then Some(nextId) else None;
      if Writes(chain, fate) {
        entries := entries + [Entry(nextId, Scrubbed(record, primitives))];
      }
      nextId, chain, tried := nextId + 1, After(chain, fate), tried + [fate];
    }
  }

  class Ledger {
    const log: EventLog

    constructor (log: EventLog)
      ensures this.log == log
    {
      this.log := log;
    }

    /** The newest header, searched from the end of the log. */
    method FindLatestHeader() returns (latest: Result<Option<(Header, Id)>, LedgerError>)
      ensures latest == LatestHeader(log.entries, log.primitives)
    {
      var entries := log.entries;
      var n := |entries|;
      assert entries[..n] == entries;
      while n > 0
        invariant 0 <= n <= |entries|
        invariant LatestHeader(entries, log.primitives) == LatestHeader(entries[..n], log.primitives)
      {
        var last := entries[n - 1];
        assert entries[..n][..n - 1] == entries[..n - 1];
        if last.record.HeaderRevised? {
          if !ValidHeader(last.record.header) {
            return Err(InvalidHeader(last.eventId));
          }
          if last.record.digest != log.primitives.header(last.record.header) {
            return Err(HeaderDigestMismatch(last.eventId));
          }
          return Ok(Some((last.record.header, last.eventId)));
        }
        n := n - 1;
      }
      latest := Ok(None);
    }

    method ReplaceSurface(messages: seq<Message>, ownerId: string, reason: string, fate: Fate)
      returns (eventId: Option<Id>)
      requires log.Valid()
      modifies log
      ensures log.Valid()
      ensures var surface := Surface(true, messages, ownerId, reason);
        if ValidSurface(surface) then
          && log.Now() == Try(old(log.Now()), SurfaceUpdated(surface), fate, log.primitives)
          && eventId == (if Returns(old(log.chain), fate) then Some(old(log.nextId)) else None)
        else
          eventId == None && log.Now() == old(log.Now())
    {
      eventId := UpdateSurface(Surface(true, messages, ownerId, reason), fate);
    }

    method AppendSurface(messages: seq<Message>, ownerId: string, reason: string, fate: Fate)
      returns (eventId: Option<Id>)
      requires log.Valid()
      modifies log
      ensures log.Valid()
      ensures var surface := Surface(false, messages, ownerId, reason);
        if ValidSurface(surface) then
          && log.Now() == Try(old(log.Now()), SurfaceUpdated(surface), fate, log.primitives)
          && eventId == (if Returns(old(log.chain), fate) then Some(old(log.nextId)) else None)
        else
          eventId == None && log.Now() == old(log.Now())
    {
      eventId := UpdateSurface(Surface(false, messages, ownerId, reason), fate);
    }

    method UpdateSurface(surface: Surface, fate: Fate) returns (eventId: Option<Id>)
      requires log.Valid()
      modifies log
      ensures log.Valid()
      ensures if ValidSurface(surface) then
          && log.Now() == Try(old(log.Now()), SurfaceUpdated(surface), fate, log.primitives)
          && eventId == (if Returns(old(log.chain), fate) then Some(old(log.nextId)) else None)
        else
          eventId == None && log.Now() == old(log.Now())
    {
      if !ValidSurface(surface) {
        return None;
      }
      eventId := log.AppendRecord(SurfaceUpdated(surface), fate);
    }

    /** One recording, up to the first append that fails; a refused call changes nothing. The lease is the
        call's own request, in the log with a header of the call's facts and a surface of its messages. */
    method RecordGatewayRequest(call: Call, attempt: int, retryOf: Option<Id>, endings: Endings)
      returns (lease: Result<Request, LedgerError>)
      requires log.Valid()
      modifies log
      ensures log.Valid()
      ensures var r := RecordingAmid(old(log.Now()), call, attempt, retryOf, NO_OTHERS, endings, log.primitives);
        lease == r.lease && log.Now() == r.journal
      ensures lease.Ok? ==>
        && IsRequestOf(lease.value, call, attempt, retryOf, log.primitives)
        && IsLogged(log.Now().log, lease.value, call, log.primitives)
    {
      LeaseIsLogged(log.Now(), call, attempt, retryOf, NO_OTHERS, endings, log.primitives);
      RecordingHoldsTheCall(log.Now(), call, attempt, retryOf, NO_OTHERS, endings, log.primitives);
      if IsBlank(call.gateway.model) {
        return Err(BlankModel);
      }
      if attempt < 1 {
        return Err(BadAttempt);
      }
      if call.fault.Some? {
        return Err(LedgerError.Refused(call.fault.value));
      }
      if !Named(call.owners) {
        return Err(BlankOwner);
      }
      var found := FindLatestHeader();
      if found.Err? {
        return Err(found.error);
      }
      if IsBlank(call.reason) {
        return Err(BlankReason);
      }
      var headerId := HeaderFor(found.value, call, endings.header);
      if headerId.None? {
        return Err(AppendFailed);
      }
      lease := RecordUnder(call, attempt, retryOf, headerId.value, endings);
    }

    method HeaderFor(latest: Option<(Header, Id)>, call: Call, fate: Fate) returns (headerId: Option<Id>)
      requires log.Valid()
      modifies log
      ensures log.Valid()
      ensures (log.Now(), headerId) == HeaderPhase(old(log.Now()), latest, call, fate, log.primitives)
    {
      var facts := FactsOf(call.gateway, call.owners);
      if latest.Some? && latest.value.0.facts == facts {
        return Some(latest.value.1);
      }
      var id := log.NewId();
      var header := Header(id, if latest.Some? then latest.value.0.revision + 1 else 1, facts, call.reason);
      headerId := log.AppendRecord(HeaderRevised(header, log.primitives.header(header)), fate);
    }

    method RecordUnder(call: Call, attempt: int, retryOf: Option<Id>, headerId: Id, endings: Endings)
      returns (lease: Result<Request, LedgerError>)
      requires log.Valid() && !IsBlank(call.owners.messages)
      modifies log
      ensures log.Valid()
      ensures var r :=
          RecordingUnder(old(log.Now()), call, attempt, retryOf, headerId, NO_OTHERS, endings, log.primitives);
        lease == r.lease && log.Now() == r.journal
    {
      assert SURFACE_REASON[0] == 'r' && !IsSpace('r');
      var surfaceId := ReplaceSurface(call.gateway.messages, call.owners.messages, SURFACE_REASON, endings.surface);
      if surfaceId.None? {
        return Err(AppendFailed);
      }
      lease := RecordRequest(call, attempt, retryOf, headerId, surfaceId.value, endings.request);
    }

    method RecordRequest(call: Call, attempt: int, retryOf: Option<Id>, headerId: Id, surfaceId: Id, fate: Fate)
      returns (lease: Result<Request, LedgerError>)
      requires log.Valid()
      modifies log
      ensures log.Valid()
      ensures var request :=
          NewRequest(old(log.nextId), surfaceId, call, attempt, retryOf, headerId, log.primitives);
        var r := RequestPhase(old(log.Now()), request, fate, log.primitives);
        lease == r.lease && log.Now() == r.journal
    {
      var id := log.NewId();
      var request := NewRequest(id, surfaceId, call, attempt, retryOf, headerId, log.primitives);
      var eventId := log.AppendRecord(RequestRecorded(request), fate);
      lease := if eventId.Some? then Ok(request) else Err(AppendFailed);
    }
  }

  class LedgerProvider {
    const ledger: Ledger
    var attempt: nat
    var previousRequestId: Option<Id>

    constructor (ledger: Ledger)
      ensures this.ledger == ledger && attempt == 0 && previousRequestId == None
    {
      this.ledger, attempt, previousRequestId := ledger, 0, None;
    }

    /** One recorded call: log and lease are those of the recording, and the two fields move as `Provided`
        moves them, as `ProvidedFields` says. */
    method Record(call: Call, endings: Endings) returns (lease: Result<Request, LedgerError>)
      requires ledger.log.Valid()
      modifies this, ledger.log
      ensures ledger.log.Valid()
      ensures var r := RecordingAmid(old(ledger.log.Now()), call, old(attempt) + 1, old(previousRequestId), NO_OTHERS,
                                     endings, ledger.log.primitives);
        lease == r.lease && ledger.log.Now() == r.journal
      ensures attempt == old(attempt) + 1
      ensures previousRequestId == if lease.Ok? then Some(lease.value.id) else old(previousRequestId)
    {
      attempt := attempt + 1;
      lease := ledger.RecordGatewayRequest(call, attempt, previousRequestId, endings);
      if lease.Ok? {
        previousRequestId := Some(lease.value.id);
      }
    }
  }
}

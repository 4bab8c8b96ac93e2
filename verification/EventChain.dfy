/** Hash-chained events and their stateless verification (packages/events/src/thymira/events/log.py).
    The event hash is SHA-256 over canonical JSON; here it is a parameter, and collision freedom is
    the explicit hypothesis `Injective`. */
module EventChain {
  import opened Options

  /** The format version as serialized: absent, not matching MAJOR.MINOR, or well formed. */
  datatype FormatVersion = Missing | Malformed(text: string) | Version(major: nat, minor: nat)

  /** The event type: inside the closed vocabulary or outside it. */
  datatype EventType = Known(name: string) | Unknown(text: string)

  /** `body` stands for every envelope field the chain never inspects (ids, actor, payload, ...). */
  datatype Event = Event(
    runId: string,
    seqNo: int,
    format: FormatVersion,
    kind: EventType,
    body: string,
    prevHash: string,
    hash: Option<string>)

  datatype Fault =
    | MissingFormat
    | MalformedFormat
    | UnsupportedFormat(major: nat, minor: nat)
    | UnknownType(text: string)
    | RunDiffers(found: string, expected: Option<string>)
    | BrokenSequence(seqNo: int)
    | PrevHashMismatch
    | HashMismatch

  /** `count` is the index the verification stopped at, as `event_count` is in the source. */
  datatype Verdict = Valid(count: nat) | Invalid(count: nat, fault: Fault)

  type Hasher = Event -> string

  const FORMAT_VERSION := Version(0, 3)
  const GENESIS_HASH := "0000000000000000000000000000000000000000000000000000000000000000"

  function Draft(e: Event): Event {
    e.(hash := None)
  }

  /** Events that differ in anything but their own hash field have different hashes. */
  ghost predicate Injective(hash: Hasher) {
    forall a, b :: hash(Draft(a)) == hash(Draft(b)) ==> Draft(a) == Draft(b)
  }

  function FormatFault(e: Event): Option<Fault> {
    match e.format
    case Missing => Some(MissingFormat)
    case Malformed(_) => Some(MalformedFormat)
    case Version(major, minor) =>
      if e.format != FORMAT_VERSION then Some(UnsupportedFormat(major, minor))
      else if e.kind.Unknown? then Some(UnknownType(e.kind.text))
      else None
  }

  /** The four link checks, in the order the source makes them. */
  function LinkFault(e: Event, index: nat, prevHash: string, runId: Option<string>, hash: Hasher): Option<Fault> {
    if Some(e.runId) != runId then Some(RunDiffers(e.runId, runId))
    else if e.seqNo != index then Some(BrokenSequence(e.seqNo))
    else if e.prevHash != prevHash then Some(PrevHashMismatch)
    else if e.hash != Some(hash(Draft(e))) then Some(HashMismatch)
    else None
  }

  function FormatVerdict(events: seq<Event>, offset: nat): Verdict {
    if events == [] then Valid(offset)
    else match FormatFault(events[0])
      case Some(fault) => Invalid(offset, fault)
      case None => FormatVerdict(events[1..], offset + 1)
  }

  function LinkVerdict(
    events: seq<Event>, offset: nat, prevHash: string, runId: Option<string>, hash: Hasher): Verdict
  {
    if events == [] then Valid(offset)
    else match LinkFault(events[0], offset, prevHash, runId, hash)
      case Some(fault) => Invalid(offset, fault)
      case None => LinkVerdict(events[1..], offset + 1, events[0].hash.GetOr(GENESIS_HASH), runId, hash)
  }

  /** Formats first over the whole segment, links second. */
  function ChainVerdict(
    events: seq<Event>, offset: nat, prevHash: string, runId: Option<string>, hash: Hasher): Verdict
  {
    var formats := FormatVerdict(events, offset);
    if formats.Invalid? then formats else LinkVerdict(events, offset, prevHash, runId, hash)
  }

  function RunOf(events: seq<Event>): Option<string> {
    if events == [] then None else Some(events[0].runId)
  }

  /** The hash a following event must name. */
  function HeadHash(events: seq<Event>): string {
    if events == [] then GENESIS_HASH else events[|events| - 1].hash.GetOr(GENESIS_HASH)
  }

  function EventsVerdict(events: seq<Event>, hash: Hasher): Verdict {
    ChainVerdict(events, 0, GENESIS_HASH, RunOf(events), hash)
  }

  /** Both verification loops of the source, proved against the recursive verdict. */
  method VerifyChain(events: seq<Event>, offset: nat, prevHash: string, runId: Option<string>, hash: Hasher)
    returns (verdict: Verdict)
    ensures verdict == ChainVerdict(events, offset, prevHash, runId, hash)
  {
    for i := 0 to |events|
      invariant FormatVerdict(events, offset) == FormatVerdict(events[i..], offset + i)
    {
      var fault := FormatFault(events[i]);
      if fault.Some? {
        return Invalid(offset + i, fault.value);
      }
      assert events[i..][1..] == events[i + 1..];
    }
    var head := prevHash;
    for i := 0 to |events|
      invariant LinkVerdict(events, offset, prevHash, runId, hash)
             == LinkVerdict(events[i..], offset + i, head, runId, hash)
    {
      var fault := LinkFault(events[i], offset + i, head, runId, hash);
      if fault.Some? {
        return Invalid(offset + i, fault.value);
      }
      assert events[i..][1..] == events[i + 1..];
      head := events[i].hash.GetOr(GENESIS_HASH);
    }
    verdict := Valid(offset + |events|);
  }

  method VerifyEvents(events: seq<Event>, hash: Hasher) returns (verdict: Verdict)
    ensures verdict == EventsVerdict(events, hash)
    ensures verdict.Valid? <==> Chained(events, hash)
    ensures verdict.Valid? ==> verdict.count == |events|
    ensures verdict.Invalid? ==> verdict.count < |events|
  {
    verdict := VerifyChain(events, 0, GENESIS_HASH, RunOf(events), hash);
    ValidMeansChained(events, hash);
    VerdictCount(events, 0, GENESIS_HASH, RunOf(events), hash);
  }

  // ---- What a valid chain is, said without the loops ----

  ghost predicate Linked(events: seq<Event>, i: nat, hash: Hasher)
    requires i < |events|
  {
    && events[i].runId == events[0].runId
    && events[i].seqNo == i
    && events[i].prevHash == HeadHash(events[..i])
    && events[i].hash == Some(hash(Draft(events[i])))
  }

  /** The supported format version and a type of the vocabulary. */
  predicate WellFormed(e: Event) {
    e.format == FORMAT_VERSION && e.kind.Known?
  }

  ghost predicate Formatted(events: seq<Event>) {
    forall i :: 0 <= i < |events| ==> WellFormed(events[i])
  }

  /** The format faults, one by one: the first that applies, and none exactly for a well formed event. */
  lemma FormatFaultExactly(e: Event)
    ensures FormatFault(e) == None <==> WellFormed(e)
    ensures FormatFault(e) == Some(MissingFormat) <==> e.format.Missing?
    ensures FormatFault(e) == Some(MalformedFormat) <==> e.format.Malformed?
    ensures forall major, minor :: FormatFault(e) == Some(UnsupportedFormat(major, minor)) <==>
      (e.format == Version(major, minor) && (major, minor) != (0, 3))
    ensures forall text :: FormatFault(e) == Some(UnknownType(text)) <==>
      (e.format == FORMAT_VERSION && e.kind == Unknown(text))
  {
    match e.format
    case Version(major, minor) => assert (major, minor) != (0, 3) <==> e.format != FORMAT_VERSION;
    case _ =>
  }

  ghost predicate Chained(events: seq<Event>, hash: Hasher) {
    && Formatted(events)
    && forall i: nat :: i < |events| ==> Linked(events, i, hash)
  }

  lemma {:induction false} FormatVerdictMeaning(events: seq<Event>, offset: nat)
    ensures var v := FormatVerdict(events, offset);
      if Formatted(events) then v == Valid(offset + |events|)
      else v.Invalid? && offset <= v.count < offset + |events|
           && Formatted(events[..v.count - offset]) && FormatFault(events[v.count - offset]) == Some(v.fault)
  {
    if events != [] && FormatFault(events[0]) == None {
      FormatVerdictMeaning(events[1..], offset + 1);
      var v := FormatVerdict(events, offset);
      assert forall i :: 0 <= i < |events| - 1 ==> events[1..][i] == events[i + 1];
      if Formatted(events[1..]) {
        forall i | 0 <= i < |events| ensures WellFormed(events[i]) {
          if i > 0 { assert WellFormed(events[1..][i - 1]); }
        }
      } else {
        var k := v.count - offset;
        assert !Formatted(events) by {
          var j :| 0 <= j < |events| - 1 && !WellFormed(events[1..][j]);
          assert !WellFormed(events[j + 1]);
        }
        forall i | 0 <= i < k ensures WellFormed(events[..k][i]) {
          if i > 0 { assert events[1..][..k - 1][i - 1] == events[i]; }
        }
      }
    }
  }

  lemma {:induction false} VerdictCount(
    events: seq<Event>, offset: nat, prevHash: string, runId: Option<string>, hash: Hasher)
    ensures var v := ChainVerdict(events, offset, prevHash, runId, hash);
      if v.Valid? then v.count == offset + |events| else offset <= v.count < offset + |events|
  {
    FormatVerdictMeaning(events, offset);
    LinkVerdictCount(events, offset, prevHash, runId, hash);
  }

  lemma {:induction false} LinkVerdictCount(
    events: seq<Event>, offset: nat, prevHash: string, runId: Option<string>, hash: Hasher)
    ensures var v := LinkVerdict(events, offset, prevHash, runId, hash);
      if v.Valid? then v.count == offset + |events| else offset <= v.count < offset + |events|
  {
    if events != [] && LinkFault(events[0], offset, prevHash, runId, hash) == None {
      LinkVerdictCount(events[1..], offset + 1, events[0].hash.GetOr(GENESIS_HASH), runId, hash);
    }
  }

  /** Verifying a segment and then its continuation from its head is verifying the whole. */
  lemma {:induction false} LinkVerdictComposes(
    prefix: seq<Event>, tail: seq<Event>, offset: nat, prevHash: string, runId: Option<string>, hash: Hasher)
    ensures var first := LinkVerdict(prefix, offset, prevHash, runId, hash);
      LinkVerdict(prefix + tail, offset, prevHash, runId, hash)
      == if first.Invalid? then first
         else LinkVerdict(tail, offset + |prefix|, if prefix == [] then prevHash else HeadHash(prefix), runId, hash)
  {
    if prefix == [] {
      assert prefix + tail == tail;
    } else {
      assert (prefix + tail)[1..] == prefix[1..] + tail;
      if LinkFault(prefix[0], offset, prevHash, runId, hash) == None {
        var head := prefix[0].hash.GetOr(GENESIS_HASH);
        LinkVerdictComposes(prefix[1..], tail, offset + 1, head, runId, hash);
        assert prefix[1..] != [] ==> HeadHash(prefix[1..]) == HeadHash(prefix);
        assert prefix[1..] == [] ==> HeadHash(prefix) == head;
      }
    }
  }

  lemma {:induction false} FormatVerdictComposes(prefix: seq<Event>, tail: seq<Event>, offset: nat)
    ensures var first := FormatVerdict(prefix, offset);
      FormatVerdict(prefix + tail, offset)
      == if first.Invalid? then first else FormatVerdict(tail, offset + |prefix|)
  {
    if prefix == [] {
      assert prefix + tail == tail;
    } else {
      assert (prefix + tail)[1..] == prefix[1..] + tail;
      if FormatFault(prefix[0]) == None {
        FormatVerdictComposes(prefix[1..], tail, offset + 1);
      }
    }
  }

  /** The fast path of the cache: once a non-empty prefix verified, the verdict on the appended
      events alone, started at the prefix's head, is the verdict on the whole log. */
  lemma TailVerdictIsWholeVerdict(prefix: seq<Event>, tail: seq<Event>, hash: Hasher)
    requires prefix != [] && EventsVerdict(prefix, hash).Valid?
    ensures EventsVerdict(prefix + tail, hash)
         == ChainVerdict(tail, |prefix|, HeadHash(prefix), Some(prefix[|prefix| - 1].runId), hash)
  {
    FormatVerdictComposes(prefix, tail, 0);
    LinkVerdictComposes(prefix, tail, 0, GENESIS_HASH, RunOf(prefix), hash);
    ValidMeansChained(prefix, hash);
    assert Linked(prefix, |prefix| - 1, hash);
    assert RunOf(prefix + tail) == RunOf(prefix);
    FormatVerdictMeaning(prefix, 0);
  }

  lemma {:induction false} LinkVerdictMeansLinked(events: seq<Event>, hash: Hasher)
    ensures LinkVerdict(events, 0, GENESIS_HASH, RunOf(events), hash).Valid?
       <==> forall i: nat :: i < |events| ==> Linked(events, i, hash)
  {
    if events != [] {
      var n := |events| - 1;
      var front := events[..n];
      assert events == front + [events[n]];
      var runId := RunOf(events);
      LinkVerdictComposes(front, [events[n]], 0, GENESIS_HASH, runId, hash);
      LinkVerdictCount(front, 0, GENESIS_HASH, runId, hash);
      assert [events[n]][1..] == [];
      assert Linked(events, n, hash) <==> LinkFault(events[n], n, HeadHash(front), runId, hash) == None;
      if front != [] {
        LinkVerdictMeansLinked(front, hash);
        forall i: nat | i < n ensures Linked(events, i, hash) <==> Linked(front, i, hash) {
          assert events[..i] == front[..i];
        }
      }
    }
  }

  /** The verdict is valid exactly on chained logs. */
  lemma ValidMeansChained(events: seq<Event>, hash: Hasher)
    ensures EventsVerdict(events, hash).Valid? <==> Chained(events, hash)
  {
    FormatVerdictMeaning(events, 0);
    LinkVerdictMeansLinked(events, hash);
  }

  lemma ChainedPrefix(events: seq<Event>, n: nat, hash: Hasher)
    requires Chained(events, hash) && n <= |events|
    ensures Chained(events[..n], hash)
  {
    forall i: nat | i < n ensures Linked(events[..n], i, hash) {
      assert Linked(events, i, hash);
      assert events[..n][..i] == events[..i];
    }
  }

  /** Where every format is sound, the reported position is the first broken one: everything
      before it is proven, and the event at it breaks the chain. */
  lemma FirstBrokenPosition(events: seq<Event>, hash: Hasher)
    requires Formatted(events)
    ensures var v := EventsVerdict(events, hash);
      v.Invalid? ==> v.count < |events| && Chained(events[..v.count], hash) && !Chained(events[..v.count + 1], hash)
  {
    var v := EventsVerdict(events, hash);
    if v.Invalid? {
      FormatVerdictMeaning(events, 0);
      VerdictCount(events, 0, GENESIS_HASH, RunOf(events), hash);
      LinkVerdictPrefix(events, 0, GENESIS_HASH, RunOf(events), hash);
      ValidMeansChained(events[..v.count], hash);
      ValidMeansChained(events[..v.count + 1], hash);
      FormatVerdictMeaning(events[..v.count], 0);
      FormatVerdictMeaning(events[..v.count + 1], 0);
    }
  }

  lemma {:induction false} LinkVerdictPrefix(
    events: seq<Event>, offset: nat, prevHash: string, runId: Option<string>, hash: Hasher)
    requires LinkVerdict(events, offset, prevHash, runId, hash).Invalid?
    ensures var v := LinkVerdict(events, offset, prevHash, runId, hash);
      && offset <= v.count < offset + |events|
      && LinkVerdict(events[..v.count - offset], offset, prevHash, runId, hash).Valid?
      && LinkVerdict(events[..v.count + 1 - offset], offset, prevHash, runId, hash) == v
  {
    if LinkFault(events[0], offset, prevHash, runId, hash) == None {
      var head := events[0].hash.GetOr(GENESIS_HASH);
      LinkVerdictPrefix(events[1..], offset + 1, head, runId, hash);
      var k := LinkVerdict(events, offset, prevHash, runId, hash).count - offset;
      assert events[..k][1..] == events[1..][..k - 1];
      assert events[..k + 1][1..] == events[1..][..k];
    }
  }

  /** `event_count` is documented as the number of events proven valid. It is that number exactly when
      every format is sound or no link fault comes before the first format fault. */
  lemma CountIsProvenUnlessFormatHidesLink(events: seq<Event>, hash: Hasher)
    ensures var v := EventsVerdict(events, hash);
      var links := LinkVerdict(events, 0, GENESIS_HASH, RunOf(events), hash);
      v.count <= |events| &&
      (Chained(events[..v.count], hash) <==> Formatted(events) || FormatVerdict(events, 0).count <= links.count)
  {
    if Formatted(events) {
      CountIsProvenWhenFormatted(events, hash);
    } else {
      UnformattedCount(events, hash);
      PrefixChainedUpToLinkFault(events, FormatVerdict(events, 0).count, hash);
    }
  }

  lemma UnformattedCount(events: seq<Event>, hash: Hasher)
    requires !Formatted(events)
    ensures var n := FormatVerdict(events, 0).count;
      EventsVerdict(events, hash).count == n < |events| && Formatted(events[..n])
  {
    FormatVerdictMeaning(events, 0);
  }

  lemma CountIsProvenWhenFormatted(events: seq<Event>, hash: Hasher)
    requires Formatted(events)
    ensures var v := EventsVerdict(events, hash); v.count <= |events| && Chained(events[..v.count], hash)
  {
    var v := EventsVerdict(events, hash);
    VerdictCount(events, 0, GENESIS_HASH, RunOf(events), hash);
    if v.Valid? {
      assert events[..v.count] == events;
      ValidMeansChained(events, hash);
    } else {
      FirstBrokenPosition(events, hash);
    }
  }

  lemma PrefixChainedUpToLinkFault(events: seq<Event>, n: nat, hash: Hasher)
    requires n < |events| && Formatted(events[..n])
    ensures Chained(events[..n], hash) <==> n <= LinkVerdict(events, 0, GENESIS_HASH, RunOf(events), hash).count
  {
    PrefixVerdict(events, n, hash);
    if n > 0 {
      assert RunOf(events[..n]) == RunOf(events);
      LinkVerdictMeansLinked(events[..n], hash);
    }
  }

  lemma PrefixVerdict(events: seq<Event>, n: nat, hash: Hasher)
    requires n < |events|
    ensures LinkVerdict(events[..n], 0, GENESIS_HASH, RunOf(events), hash).Valid?
       <==> n <= LinkVerdict(events, 0, GENESIS_HASH, RunOf(events), hash).count
  {
    var prefix, rest := events[..n], events[n..];
    assert events == prefix + rest;
    JoinedCount(prefix, rest, 0, GENESIS_HASH, RunOf(events), hash);
  }

  lemma JoinedCount(
    prefix: seq<Event>, rest: seq<Event>, offset: nat, prevHash: string, runId: Option<string>, hash: Hasher)
    requires rest != []
    ensures LinkVerdict(prefix, offset, prevHash, runId, hash).Valid?
       <==> offset + |prefix| <= LinkVerdict(prefix + rest, offset, prevHash, runId, hash).count
  {
    LinkVerdictComposes(prefix, rest, offset, prevHash, runId, hash);
    LinkVerdictCount(prefix, offset, prevHash, runId, hash);
    LinkVerdictCount(rest, offset + |prefix|, if prefix == [] then prevHash else HeadHash(prefix), runId, hash);
  }

  /** The documented count fails: one event with a false sequence number before one without a
      format version is reported as one proven event. */
  lemma CountOverclaims(hash: Hasher)
    ensures exists events ::
      EventsVerdict(events, hash) == Invalid(1, MissingFormat) && |events| == 2 && !Chained(events[..1], hash)
  {
    var bad := Event("run", 7, FORMAT_VERSION, Known("run.created"), "", GENESIS_HASH, None);
    var unversioned := bad.(format := Missing);
    var events := [bad, unversioned];
    assert events[1..] == [unversioned];
    assert FormatVerdict(events[1..], 1) == Invalid(1, MissingFormat);
    assert !Linked(events[..1], 0, hash);
    assert EventsVerdict(events, hash) == Invalid(1, MissingFormat);
  }

  lemma LastEventsAgree(a: seq<Event>, b: seq<Event>, hash: Hasher)
    requires Injective(hash)
    requires Chained(a, hash) && Chained(b, hash)
    requires a != [] && b != [] && a[|a| - 1].hash == b[|b| - 1].hash
    ensures |a| == |b| && a[|a| - 1] == b[|b| - 1]
  {
    assert Linked(a, |a| - 1, hash) && Linked(b, |b| - 1, hash);
    assert Draft(a[|a| - 1]) == Draft(b[|b| - 1]);
  }

  /** The last event names the head of the chain before it. */
  lemma PrefixHead(a: seq<Event>, hash: Hasher)
    requires Chained(a, hash) && |a| > 1
    ensures Chained(a[..|a| - 1], hash)
    ensures a[|a| - 2].hash == Some(a[|a| - 1].prevHash)
  {
    ChainedPrefix(a, |a| - 1, hash);
    assert Linked(a, |a| - 1, hash) && Linked(a, |a| - 2, hash);
  }

  /** The head commits to the history: verified logs with one last hash are the same log. */
  lemma {:induction false} HeadCommits(a: seq<Event>, b: seq<Event>, hash: Hasher)
    requires Injective(hash)
    requires Chained(a, hash) && Chained(b, hash)
    requires a != [] && b != [] && a[|a| - 1].hash == b[|b| - 1].hash
    ensures a == b
  {
    LastEventsAgree(a, b, hash);
    var m := |a| - 1;
    if m > 0 {
      PrefixHead(a, hash);
      PrefixHead(b, hash);
      HeadCommits(a[..m], b[..m], hash);
    }
    assert a == a[..m] + [a[m]] && b == b[..m] + [b[m]];
  }

  // ---- Building the next event ----

  /** What `_next` validates before it is hashed: run id, next sequence number, head hash. */
  function DraftOf(runId: string, seqNo: nat, prevHash: string, name: string, body: string): Event {
    Event(runId, seqNo, FORMAT_VERSION, Known(name), body, prevHash, None)
  }

  function Hashed(draft: Event, hash: Hasher): Event {
    draft.(hash := Some(hash(draft)))
  }

  /** The event carries what the caller of an append passed: its type and payload, for this run and in
      the current format. */
  predicate AskedFor(e: Event, runId: string, name: string, body: string) {
    e.kind == Known(name) && e.body == body && e.runId == runId && e.format == FORMAT_VERSION
  }

  /** The event `_next` builds from the head. */
  function NextEvent(runId: string, seqNo: nat, prevHash: string, name: string, body: string, hash: Hasher): Event {
    Hashed(DraftOf(runId, seqNo, prevHash, name, body), hash)
  }

  /** Appending the event built from a valid log's own head gives a valid log of the same run. */
  lemma NextEventExtendsChain(events: seq<Event>, runId: string, name: string, body: string, hash: Hasher)
    requires Chained(events, hash) && (events != [] ==> events[0].runId == runId)
    ensures Chained(events + [NextEvent(runId, |events|, HeadHash(events), name, body, hash)], hash)
  {
    var e := NextEvent(runId, |events|, HeadHash(events), name, body, hash);
    var all := events + [e];
    forall i: nat | i < |all| ensures Linked(all, i, hash) {
      if i < |events| {
        assert Linked(events, i, hash);
        assert all[..i] == events[..i];
      } else {
        assert all[..i] == events;
      }
    }
  }

  /** The chain head that `_restore` reads off the last event is the length and head of the log. */
  lemma HeadOfChain(events: seq<Event>, hash: Hasher)
    requires Chained(events, hash) && events != []
    ensures events[|events| - 1].seqNo + 1 == |events|
    ensures events[|events| - 1].hash == Some(HeadHash(events))
    ensures forall i :: 0 <= i < |events| ==> events[i].runId == events[0].runId
  {
    assert Linked(events, |events| - 1, hash);
    forall i: nat | i < |events| ensures events[i].runId == events[0].runId {
      assert Linked(events, i, hash);
    }
  }
}

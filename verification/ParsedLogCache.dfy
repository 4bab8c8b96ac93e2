/** The cache object itself: `_ParsedLogCache` and the `_ParsedLog` records it shares with callers. */
module ParsedLogCache {
  import opened Options
  import opened Utf8
  import opened EventChain
  import opened LogParser
  import opened LogCache

  /** One record; only its verdict is ever written after construction. */
  class LogEntry {
    const digest: string
    const size: nat
    const events: seq<Event>
    var verification: Option<Verdict>

    constructor (digest: string, size: nat, events: seq<Event>, verification: Option<Verdict>)
      ensures View() == ParsedLog(digest, size, events, verification)
    {
      this.digest, this.size, this.events, this.verification := digest, size, events, verification;
    }

    function View(): ParsedLog
      reads this
    {
      ParsedLog(digest, size, events, verification)
    }
  }

  class Cache {
    const codec: Codec
    const bounds: Bounds
    var slots: seq<Slot<LogEntry>>
    var bytes: int

    constructor (codec: Codec, bounds: Bounds)
      ensures Valid() && slots == [] && this.codec == codec && this.bounds == bounds
    {
      this.codec, this.bounds, slots, bytes := codec, bounds, [], 0;
    }

    ghost function State(): Lru<LogEntry>
      reads this
    {
      Lru(slots, bytes)
    }

    ghost function Entries(): set<LogEntry>
      reads this
    {
      set i | 0 <= i < |slots| :: slots[i].entry
    }

    ghost predicate Valid()
      reads this, Entries()
    {
      && Accounted(State()) && Within(State(), bounds)
      && forall s :: s in slots ==> s.entry in Entries() && Keeps(s)
    }

    ghost predicate Keeps(s: Slot<LogEntry>)
      reads s.entry
    {
      s.size == s.entry.size && Sound(s.entry.View(), codec)
    }

    /** The first lock section. */
    method LookUp(key: string, digest: string) returns (cached: Option<LogEntry>)
      requires Valid()
      modifies this
      ensures Valid()
      ensures var i := IndexOf(old(slots), key);
        if i.None? then cached == None && State() == old(State())
        else cached == Some(old(slots)[i.value].entry)
             && State() == if cached.value.digest == digest then Touch(old(State()), i.value) else old(State())
      ensures cached.Some? ==> Sound(cached.value.View(), codec) && cached.value in old(Entries())
    {
      var i := IndexOf(slots, key);
      if i.None? {
        return None;
      }
      cached := Some(slots[i.value].entry);
      if cached.value.digest == digest {
        TouchKeepsAccounts(State(), i.value);
        slots := Without(slots, i.value) + [slots[i.value]];
        assert slots == Touch(old(State()), i.value).slots;
      }
    }

    /** The eviction loop at the end of the second lock section. */
    method EvictOldest()
      requires Accounted(State())
      modifies this
      ensures State() == Evict(old(State()), bounds)
    {
      while slots != [] && (|slots| > bounds.maxFiles || bytes > bounds.maxBytes)
        invariant Evict(State(), bounds) == Evict(old(State()), bounds)
        decreases |slots|
      {
        bytes := bytes - slots[0].size;
        slots := slots[1..];
      }
    }

    /** The key's old entry out, the new one in if it fits at all. */
    method ReplaceEntry(key: string, entry: LogEntry)
      requires Accounted(State())
      modifies this
      ensures State() == Add(Drop(old(State()), key), Slot(key, entry.size, entry), bounds)
    {
      var i := IndexOf(slots, key);
      if i.Some? {
        TotalSizeWithout(slots, i.value);
        bytes := bytes - slots[i.value].size;
        slots := Without(slots, i.value);
      }
      if entry.size <= bounds.maxBytes {
        slots := slots + [Slot(key, entry.size, entry)];
        bytes := bytes + entry.size;
      }
    }

    /** The second lock section. */
    method PublishEntry(key: string, entry: LogEntry)
      requires Valid() && Sound(entry.View(), codec)
      modifies this
      ensures Valid()
      ensures State() == Publish(old(State()), Slot(key, entry.size, entry), bounds)
      ensures entry.size <= bounds.maxBytes && bounds.maxFiles > 0 ==>
        slots != [] && slots[|slots| - 1] == Slot(key, entry.size, entry)
    {
      ghost var before, newest := State(), Slot(key, entry.size, entry);
      PublishKeepsAccounts(before, newest, bounds);
      DropKeepsAccounts(before, key);
      AddKeepsAccounts(Drop(before, key), newest, bounds);
      ReplaceEntry(key, entry);
      EvictOldest();
      assert forall s :: s in slots ==> s in before.slots || s == newest;
    }

    /** Read, look up, parse what is new, publish. The entry describes the bytes read, and a log is
        refused exactly when parsing all of it afresh refuses it. */
    method Load(key: string, data: Bytes) returns (result: Result<LogEntry, ParseError>)
      requires Valid() && CollisionFree(codec)
      modifies this
      ensures Valid()
      ensures result.Ok? <==> ParsedEvents(data, 0, codec.parser).Ok?
      ensures result.Ok? ==> Describes(result.value.View(), data, codec)
      ensures result.Ok? ==> result.value in old(Entries()) || fresh(result.value)
    {
      var digest := codec.digest(data);
      var cached := LookUp(key, digest);
      if cached.Some? && cached.value.digest == digest {
        ghost var covered :| Describes(cached.value.View(), covered, codec);
        assert covered == data;
        return Ok(cached.value);
      }
      var known := if cached.Some? then Some(cached.value.View()) else None;
      EntryDescribesCurrentBytes(known, data, codec);
      var built := Entry(known, data, codec);
      if built.Err? {
        return Err(built.error);
      }
      var log := built.value;
      var entry := new LogEntry(log.digest, log.size, log.events, log.verification);
      assert Sound(entry.View(), codec);
      PublishEntry(key, entry);
      result := Ok(entry);
    }

    /** The verdict of a record, computed once and kept on the shared object. */
    method Verification(entry: LogEntry) returns (verdict: Verdict)
      requires Valid() && Sound(entry.View(), codec)
      modifies entry`verification
      ensures Valid() && Sound(entry.View(), codec)
      ensures verdict == EventsVerdict(entry.events, codec.hash) && entry.verification == Some(verdict)
      ensures forall data :: old(Describes(entry.View(), data, codec)) ==> Describes(entry.View(), data, codec)
    {
      ghost var covered :| Describes(entry.View(), covered, codec);
      if entry.verification.None? {
        verdict := VerifyEvents(entry.events, codec.hash);
        entry.verification := Some(verdict);
      }
      verdict := entry.verification.value;
      assert Describes(entry.View(), covered, codec);
    }
  }
}

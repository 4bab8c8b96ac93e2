/** The parse cache of the event log: an LRU with a file bound and a byte bound whose look-up and
    publish halves run under separate lock sections, and whose entries grow with their files. */
module LogCache {
  import opened Options
  import opened Utf8
  import opened EventChain
  import opened LogParser

  /** The foreign functions: SHA-256 of bytes, the line parser, and the event hash. */
  datatype Codec = Codec(digest: Bytes -> string, parser: LineParser, hash: Hasher)

  ghost predicate CollisionFree(codec: Codec) {
    forall a, b :: codec.digest(a) == codec.digest(b) ==> a == b
  }

  // ---- The cache as a value ----

  datatype Slot<+E> = Slot(key: string, size: nat, entry: E)

  /** `slots` runs from the least to the most recently used; `bytes` is the running total. */
  datatype Lru<+E> = Lru(slots: seq<Slot<E>>, bytes: int)

  datatype Bounds = Bounds(maxFiles: nat, maxBytes: nat)

  function IndexOf<E>(slots: seq<Slot<E>>, key: string): (r: Option<nat>)
    ensures r.Some? ==> r.value < |slots| && slots[r.value].key == key
    ensures r.None? ==> forall i :: 0 <= i < |slots| ==> slots[i].key != key
  {
    if slots == [] then None
    else if slots[0].key == key then Some(0)
    else match IndexOf(slots[1..], key)
      case None => assert forall i :: 1 <= i < |slots| ==> slots[i] == slots[1..][i - 1]; None
      case Some(i) => Some(i + 1)
  }

  function Without<E>(slots: seq<Slot<E>>, i: nat): seq<Slot<E>>
    requires i < |slots|
  {
    slots[..i] + slots[i + 1..]
  }

  /** `move_to_end`. */
  function Touch<E>(lru: Lru<E>, i: nat): Lru<E>
    requires i < |lru.slots|
  {
    lru.(slots := Without(lru.slots, i) + [lru.slots[i]])
  }

  function Evict<E>(lru: Lru<E>, bounds: Bounds): Lru<E>
    decreases |lru.slots|
  {
    if lru.slots != [] && (|lru.slots| > bounds.maxFiles || lru.bytes > bounds.maxBytes)
    then Evict(Lru(lru.slots[1..], lru.bytes - lru.slots[0].size), bounds)
    else lru
  }

  function Drop<E>(lru: Lru<E>, key: string): Lru<E> {
    match IndexOf(lru.slots, key)
    case None => lru
    case Some(i) => Lru(Without(lru.slots, i), lru.bytes - lru.slots[i].size)
  }

  function Add<E>(lru: Lru<E>, slot: Slot<E>, bounds: Bounds): Lru<E> {
    if slot.size <= bounds.maxBytes then Lru(lru.slots + [slot], lru.bytes + slot.size) else lru
  }

  /** The publish half: drop the key's old entry, add the new one if it fits at all, then evict. */
  function Publish<E>(lru: Lru<E>, slot: Slot<E>, bounds: Bounds): Lru<E> {
    Evict(Add(Drop(lru, slot.key), slot, bounds), bounds)
  }

  function TotalSize<E>(slots: seq<Slot<E>>): nat {
    if slots == [] then 0 else slots[0].size + TotalSize(slots[1..])
  }

  ghost predicate DistinctKeys<E>(slots: seq<Slot<E>>) {
    forall i, j :: 0 <= i < j < |slots| ==> slots[i].key != slots[j].key
  }

  ghost predicate Accounted<E>(lru: Lru<E>) {
    DistinctKeys(lru.slots) && lru.bytes == TotalSize(lru.slots)
  }

  ghost predicate Within<E>(lru: Lru<E>, bounds: Bounds) {
    |lru.slots| <= bounds.maxFiles && lru.bytes <= bounds.maxBytes
  }

  lemma {:induction false} TotalSizeConcat<E>(a: seq<Slot<E>>, b: seq<Slot<E>>)
    ensures TotalSize(a + b) == TotalSize(a) + TotalSize(b)
  {
    if a == [] {
      assert a + b == b;
    } else {
      assert (a + b)[1..] == a[1..] + b;
      TotalSizeConcat(a[1..], b);
    }
  }

  lemma TotalSizeWithout<E>(slots: seq<Slot<E>>, i: nat)
    requires i < |slots|
    ensures TotalSize(Without(slots, i)) == TotalSize(slots) - slots[i].size
  {
    TotalSizeConcat(slots[..i], slots[i..]);
    TotalSizeConcat(slots[..i], slots[i + 1..]);
    assert slots == slots[..i] + slots[i..] && slots[i..][1..] == slots[i + 1..];
  }

  lemma WithoutHolds<E>(slots: seq<Slot<E>>, i: nat)
    requires DistinctKeys(slots) && i < |slots|
    ensures DistinctKeys(Without(slots, i))
    ensures forall s :: s in slots <==> s in Without(slots, i) || s == slots[i]
    ensures forall s :: s in Without(slots, i) ==> s.key != slots[i].key
  {
    assert slots == slots[..i] + [slots[i]] + slots[i + 1..];
  }

  lemma TouchKeepsAccounts<E>(lru: Lru<E>, i: nat)
    requires Accounted(lru) && i < |lru.slots|
    ensures Accounted(Touch(lru, i)) && Touch(lru, i).bytes == lru.bytes
    ensures forall s :: s in Touch(lru, i).slots <==> s in lru.slots
  {
    TotalSizeWithout(lru.slots, i);
    TotalSizeConcat(Without(lru.slots, i), [lru.slots[i]]);
    WithoutHolds(lru.slots, i);
  }

  lemma {:induction false} EvictKeepsAccounts<E>(lru: Lru<E>, bounds: Bounds)
    requires Accounted(lru)
    ensures Accounted(Evict(lru, bounds)) && Within(Evict(lru, bounds), bounds)
    ensures forall s :: s in Evict(lru, bounds).slots ==> s in lru.slots
    ensures |lru.slots| > 0 && bounds.maxFiles > 0 && lru.slots[|lru.slots| - 1].size <= bounds.maxBytes ==>
      var kept := Evict(lru, bounds).slots;
      kept != [] && kept[|kept| - 1] == lru.slots[|lru.slots| - 1]
    decreases |lru.slots|
  {
    if lru.slots != [] && (|lru.slots| > bounds.maxFiles || lru.bytes > bounds.maxBytes) {
      var rest := Lru(lru.slots[1..], lru.bytes - lru.slots[0].size);
      EvictKeepsAccounts(rest, bounds);
      if |lru.slots| == 1 {
        assert lru.bytes == lru.slots[0].size by { assert lru.slots[1..] == []; }
      }
    }
  }

  lemma DropKeepsAccounts<E>(lru: Lru<E>, key: string)
    requires Accounted(lru)
    ensures Accounted(Drop(lru, key))
    ensures forall s :: s in Drop(lru, key).slots ==> s in lru.slots && s.key != key
  {
    var i := IndexOf(lru.slots, key);
    if i.Some? {
      TotalSizeWithout(lru.slots, i.value);
      WithoutHolds(lru.slots, i.value);
    }
  }

  lemma AddKeepsAccounts<E>(lru: Lru<E>, slot: Slot<E>, bounds: Bounds)
    requires Accounted(lru) && forall s :: s in lru.slots ==> s.key != slot.key
    ensures Accounted(Add(lru, slot, bounds))
  {
    TotalSizeConcat(lru.slots, [slot]);
  }

  /** After every publish the total is the sum of the cached sizes, both bounds hold, and the newest
      entry, if it fits the byte bound at all, has survived its own eviction loop as the most recent. */
  lemma PublishKeepsAccounts<E>(lru: Lru<E>, slot: Slot<E>, bounds: Bounds)
    requires Accounted(lru)
    ensures var next := Publish(lru, slot, bounds);
      && Accounted(next) && Within(next, bounds)
      && (forall s :: s in next.slots ==> s in lru.slots || s == slot)
      && (slot.size <= bounds.maxBytes && bounds.maxFiles > 0 ==>
            next.slots != [] && next.slots[|next.slots| - 1] == slot)
      && (slot.size > bounds.maxBytes ==> forall s :: s in next.slots ==> s.key != slot.key)
  {
    var dropped := Drop(lru, slot.key);
    var added := Add(dropped, slot, bounds);
    DropKeepsAccounts(lru, slot.key);
    AddKeepsAccounts(dropped, slot, bounds);
    EvictKeepsAccounts(added, bounds);
    assert forall s :: s in added.slots ==> s in dropped.slots || s == slot;
  }

  // ---- What an entry must say ----

  /** A parsed log: digest, size and events of some bytes, and their verdict once asked for. */
  datatype ParsedLog = ParsedLog(digest: string, size: nat, events: seq<Event>, verification: Option<Verdict>)

  /** The entry says of `data` exactly what reading and verifying `data` from scratch says. */
  ghost predicate Describes(entry: ParsedLog, data: Bytes, codec: Codec) {
    && entry.digest == codec.digest(data)
    && entry.size == |data|
    && ParsedEvents(data, 0, codec.parser) == Ok(entry.events)
    && (entry.verification.Some? ==> entry.verification.value == EventsVerdict(entry.events, codec.hash))
  }

  ghost predicate Sound(entry: ParsedLog, codec: Codec) {
    exists data :: Describes(entry, data, codec)
  }

  /** The cached entry covers a whole-line prefix of `data`: the three guards of the source. */
  predicate Extends(cached: ParsedLog, data: Bytes, codec: Codec) {
    && cached.size > 0 && |data| > cached.size && data[cached.size - 1] == NEWLINE
    && codec.digest(data[..cached.size]) == cached.digest
  }

  /** The verdict that carries over to the extended log. */
  function CarriedVerdict(cached: ParsedLog, tail: seq<Event>, hash: Hasher): Option<Verdict> {
    if cached.verification.Some? && cached.verification.value.Valid? && cached.events != [] then
      var head := cached.events[|cached.events| - 1];
      Some(ChainVerdict(tail, |cached.events|, head.hash.GetOr(GENESIS_HASH), Some(head.runId), hash))
    else None
  }

  /** Parsing the file's current bytes with an optional cached entry. */
  function Entry(cached: Option<ParsedLog>, data: Bytes, codec: Codec): Result<ParsedLog, ParseError> {
    if cached.Some? && Extends(cached.value, data, codec) then
      var c := cached.value;
      match ParsedEvents(data[c.size..], CountNewlineBytes(data[..c.size]), codec.parser)
      case Err(error) => Err(error)
      case Ok(tail) =>
        Ok(ParsedLog(codec.digest(data), |data|, c.events + tail, CarriedVerdict(c, tail, codec.hash)))
    else
      match ParsedEvents(data, 0, codec.parser)
      case Err(error) => Err(error)
      case Ok(events) => Ok(ParsedLog(codec.digest(data), |data|, events, None))
  }

  lemma CoveredPrefix(cached: ParsedLog, data: Bytes, codec: Codec)
    requires CollisionFree(codec) && Sound(cached, codec) && Extends(cached, data, codec)
    ensures Describes(cached, data[..cached.size], codec) && EndsLine(data[..cached.size])
    ensures data == data[..cached.size] + data[cached.size..]
  {
    var covered :| Describes(cached, covered, codec);
    assert codec.digest(covered) == codec.digest(data[..cached.size]);
  }

  lemma CarriedVerdictIsWhole(cached: ParsedLog, tail: seq<Event>, codec: Codec)
    requires Sound(cached, codec)
    ensures var v := CarriedVerdict(cached, tail, codec.hash);
      v.Some? ==> v.value == EventsVerdict(cached.events + tail, codec.hash)
  {
    if CarriedVerdict(cached, tail, codec.hash).Some? {
      TailVerdictIsWholeVerdict(cached.events, tail, codec.hash);
    }
  }

  /** The incremental parse is the full parse: an entry is built exactly when the current bytes
      parse, and it describes those bytes, whatever sound entry it grew from. A refusal is the full
      parse's refusal up to the number printed for a line. */
  lemma EntryDescribesCurrentBytes(cached: Option<ParsedLog>, data: Bytes, codec: Codec)
    requires CollisionFree(codec) && (cached.Some? ==> Sound(cached.value, codec))
    ensures var entry, whole := Entry(cached, data, codec), ParsedEvents(data, 0, codec.parser);
      && (entry.Ok? <==> whole.Ok?)
      && (entry.Ok? ==> Describes(entry.value, data, codec))
      && (entry.Err? && !whole.error.AtLine? ==> entry.error == whole.error)
      && (entry.Err? && whole.error.AtLine? ==> entry.error.AtLine? && entry.error.outcome == whole.error.outcome)
  {
    if cached.Some? && Extends(cached.value, data, codec) {
      var c := cached.value;
      CoveredPrefix(c, data, codec);
      TailNumbering(data[..c.size], data[c.size..], codec.parser);
      var tail := ParsedEvents(data[c.size..], CountNewlineBytes(data[..c.size]), codec.parser);
      if tail.Ok? {
        CarriedVerdictIsWhole(c, tail.value, codec);
      }
    }
  }

  /** The number is the file's own exactly when the cached prefix breaks lines only at newlines. */
  lemma EntryNumbersLines(cached: ParsedLog, data: Bytes, codec: Codec)
    requires CollisionFree(codec) && Sound(cached, codec) && Extends(cached, data, codec)
    requires var whole := ParsedEvents(data, 0, codec.parser); whole.Err? && whole.error.AtLine?
    ensures Decode(data[..cached.size]).Some?
    ensures var entry, whole := Entry(Some(cached), data, codec), ParsedEvents(data, 0, codec.parser);
      entry.Err? && (entry.error == whole.error <==> LogText.OnlyNewlineBreaks(Decode(data[..cached.size]).value))
  {
    CoveredPrefix(cached, data, codec);
    TailNumbering(data[..cached.size], data[cached.size..], codec.parser);
  }

  // ---- Threads over one cache ----

  /** A thread between reading a file and publishing, or holding the entry its call returned. */
  datatype Thread =
    | Looked(key: string, data: Bytes, cached: Option<ParsedLog>)
    | Holding(data: Bytes, entry: ParsedLog)
    | Refused(data: Bytes)

  datatype System = System(cache: Lru<ParsedLog>, threads: map<nat, Thread>)

  datatype Step =
    | LookUp(thread: nat, key: string, data: Bytes)   // read the file's current bytes, first lock section
    | Finish(thread: nat)                             // parse outside the lock, second lock section
    | Memoise(slot: nat)                              // a holder of a cached object asks for its verdict
    | Verify(thread: nat)                             // anyone asks for the verdict of the object a thread holds

  function Verified(entry: ParsedLog, hash: Hasher): ParsedLog {
    if entry.verification.Some? then entry else entry.(verification := Some(EventsVerdict(entry.events, hash)))
  }

  function Take(s: System, step: Step, codec: Codec, bounds: Bounds): System {
    match step
    case LookUp(t, key, data) =>
      var i := IndexOf(s.cache.slots, key);
      if i.Some? && s.cache.slots[i.value].entry.digest == codec.digest(data)
      then System(Touch(s.cache, i.value), s.threads[t := Holding(data, s.cache.slots[i.value].entry)])
      else s.(threads := s.threads[t := Looked(key, data,
             if i.Some? then Some(s.cache.slots[i.value].entry) else None)])
    case Finish(t) =>
      if t !in s.threads || !s.threads[t].Looked? then s
      else
        var Looked(key, data, cached) := s.threads[t];
        (match Entry(cached, data, codec)
         case Err(_) => s.(threads := s.threads[t := Refused(data)])
         case Ok(entry) => System(Publish(s.cache, Slot(key, entry.size, entry), bounds),
                                  s.threads[t := Holding(data, entry)]))
    case Memoise(i) =>
      if i >= |s.cache.slots| then s
      else
        var slot := s.cache.slots[i];
        s.(cache := s.cache.(slots := s.cache.slots[i := slot.(entry := Verified(slot.entry, codec.hash))]))
    case Verify(t) =>
      if t !in s.threads then s else s.(threads := s.threads[t := VerifiedHolding(s.threads[t], codec.hash)])
  }

  /** A record is shared, so its verdict may be filled in while a thread holds it, also between the two
      lock sections of that thread's load. */
  function VerifiedHolding(thread: Thread, hash: Hasher): Thread {
    match thread
    case Looked(key, data, Some(cached)) => Looked(key, data, Some(Verified(cached, hash)))
    case Holding(data, entry) => Holding(data, Verified(entry, hash))
    case _ => thread
  }

  function Run(s: System, steps: seq<Step>, codec: Codec, bounds: Bounds): System
    decreases |steps|
  {
    if steps == [] then s else Run(Take(s, steps[0], codec, bounds), steps[1..], codec, bounds)
  }

  ghost predicate SlotSound(slot: Slot<ParsedLog>, codec: Codec) {
    slot.size == slot.entry.size && Sound(slot.entry, codec)
  }

  ghost predicate ThreadSound(thread: Thread, codec: Codec) {
    match thread
    case Looked(_, _, cached) => cached.Some? ==> Sound(cached.value, codec)
    case Holding(data, entry) => Describes(entry, data, codec)
    case Refused(data) => ParsedEvents(data, 0, codec.parser).Err?
  }

  ghost predicate SystemSound(s: System, codec: Codec, bounds: Bounds) {
    && Accounted(s.cache) && Within(s.cache, bounds)
    && (forall i :: 0 <= i < |s.cache.slots| ==> SlotSound(s.cache.slots[i], codec))
    && (forall t :: t in s.threads ==> ThreadSound(s.threads[t], codec))
  }

  lemma VerifiedDescribes(entry: ParsedLog, data: Bytes, codec: Codec)
    requires Describes(entry, data, codec)
    ensures Describes(Verified(entry, codec.hash), data, codec)
  {
  }

  lemma {:induction false} ReplaceKeepsAccounts(slots: seq<Slot<ParsedLog>>, i: nat, slot: Slot<ParsedLog>)
    requires i < |slots| && slot.key == slots[i].key && slot.size == slots[i].size
    ensures TotalSize(slots[i := slot]) == TotalSize(slots)
  {
    if i > 0 {
      assert slots[i := slot][1..] == slots[1..][i - 1 := slot];
      ReplaceKeepsAccounts(slots[1..], i - 1, slot);
    } else {
      assert slots[0 := slot][1..] == slots[1..];
    }
  }

  lemma LookUpKeepsSound(s: System, t: nat, key: string, data: Bytes, codec: Codec, bounds: Bounds)
    requires CollisionFree(codec) && SystemSound(s, codec, bounds)
    ensures SystemSound(Take(s, LookUp(t, key, data), codec, bounds), codec, bounds)
  {
    var i := IndexOf(s.cache.slots, key);
    if i.Some? {
      assert SlotSound(s.cache.slots[i.value], codec);
      if s.cache.slots[i.value].entry.digest == codec.digest(data) {
        TouchKeepsAccounts(s.cache, i.value);
        var covered :| Describes(s.cache.slots[i.value].entry, covered, codec);
        assert covered == data;
      }
    }
  }

  lemma FinishKeepsSound(s: System, t: nat, codec: Codec, bounds: Bounds)
    requires CollisionFree(codec) && SystemSound(s, codec, bounds)
    ensures SystemSound(Take(s, Finish(t), codec, bounds), codec, bounds)
  {
    if t in s.threads && s.threads[t].Looked? {
      var Looked(key, data, cached) := s.threads[t];
      assert ThreadSound(s.threads[t], codec);
      EntryDescribesCurrentBytes(cached, data, codec);
      var entry := Entry(cached, data, codec);
      if entry.Ok? {
        var slot := Slot(key, entry.value.size, entry.value);
        assert Sound(entry.value, codec);
        assert SlotSound(slot, codec);
        PublishKeepsAccounts(s.cache, slot, bounds);
        var slots := Publish(s.cache, slot, bounds).slots;
        forall i | 0 <= i < |slots| ensures SlotSound(slots[i], codec) {
          assert slots[i] in slots;
        }
      }
    }
  }

  lemma MemoiseKeepsSound(s: System, i: nat, codec: Codec, bounds: Bounds)
    requires SystemSound(s, codec, bounds) && i < |s.cache.slots|
    ensures SystemSound(Take(s, Memoise(i), codec, bounds), codec, bounds)
  {
    var slot := s.cache.slots[i];
    var next := slot.(entry := Verified(slot.entry, codec.hash));
    assert SlotSound(slot, codec);
    var covered :| Describes(slot.entry, covered, codec);
    VerifiedDescribes(slot.entry, covered, codec);
    assert SlotSound(next, codec);
    ReplaceKeepsAccounts(s.cache.slots, i, next);
  }

  lemma VerifyKeepsThread(thread: Thread, codec: Codec)
    requires ThreadSound(thread, codec)
    ensures ThreadSound(VerifiedHolding(thread, codec.hash), codec)
  {
    match thread
    case Looked(_, _, Some(cached)) =>
      var covered :| Describes(cached, covered, codec);
      VerifiedDescribes(cached, covered, codec);
    case Holding(data, entry) => VerifiedDescribes(entry, data, codec);
    case _ =>
  }

  /** Under every interleaving of look-ups, publishes and verdict requests by any number of threads,
      over any file contents, the accounts balance, both bounds hold, and every entry a call returned
      describes the bytes that call read. */
  lemma {:induction false} EveryInterleavingIsSound(s: System, steps: seq<Step>, codec: Codec, bounds: Bounds)
    requires CollisionFree(codec) && SystemSound(s, codec, bounds)
    ensures SystemSound(Run(s, steps, codec, bounds), codec, bounds)
    decreases |steps|
  {
    if steps != [] {
      match steps[0] {
        case LookUp(t, key, data) => LookUpKeepsSound(s, t, key, data, codec, bounds);
        case Finish(t) => FinishKeepsSound(s, t, codec, bounds);
        case Memoise(i) =>
          if i < |s.cache.slots| { MemoiseKeepsSound(s, i, codec, bounds); }
        case Verify(t) =>
          if t in s.threads { VerifyKeepsThread(s.threads[t], codec); }
      }
      EveryInterleavingIsSound(Take(s, steps[0], codec, bounds), steps[1..], codec, bounds);
    }
  }

  /** The process-wide cache starts empty, so the above holds of every run of it. */
  lemma EveryRunIsSound(steps: seq<Step>, codec: Codec, bounds: Bounds)
    requires CollisionFree(codec)
    ensures SystemSound(Run(System(Lru([], 0), map[]), steps, codec, bounds), codec, bounds)
  {
    EveryInterleavingIsSound(System(Lru([], 0), map[]), steps, codec, bounds);
  }
}

# Thymira's evidence layer, modelled and proved in Dafny

Thymira keeps one append-only, hash-chained log of events for every run. Nearly everything else about a
run is read off that log: what a client has seen, what a model may still see, which work is runnable, which
provider call was made. The code that does so is fast where a simple definition would be slow: it parses
only appended bytes, re-reads a file only when its last line changed, merges pages with a live stream,
walks terminators with one cursor. This project models that code and proves that the fast form keeps what
the simple one means, over every log, every interleaving and every reply of a transport. Where the code and
what is documented of it part, the model follows the code and a lemma gives the exact condition under which
they agree.

Code that changes state step by step is modelled as classes and methods with loops, each proved against
functions and predicates about which the laws are proved as lemmas. Code made of expressions is modelled as
functions.

| module | models |
|---|---|
| `EventChain` | events, the two-phase chain verification, and what a valid chain commits to |
| `Utf8`, `LogText` | strict UTF-8 decoding and `str.splitlines`, as far as parsing a log rests on them |
| `LogParser` | parsing JSONL bytes into events, whole or from an offset |
| `LogCache`, `ParsedLogCache` | the parse cache: its accounts, its two lock sections under any interleaving, and the object itself |
| `ChainStates`, `FileTail`, `JsonlEventLog` | how failing appends leave a log, the backward scan for a final line, the writer, and any number of writers on one file |
| `EventFeed`, `PollingSubscription` | ordered delivery over an adversarial transport; the server's subscription |
| `EventReading`, `FollowStates`, `FollowLaws`, `EventFollower` | the client's follower: which pages a read accepts, what a follow does with any replies, when it cannot fail, and the object |
| `Graphs`, `RoadmapCycles` | paths and cycles; the three-colour search of the roadmap check |
| `WorkBoard` | the DAG board, its validator, `pending` and whole schedules |
| `DelegationTree` | delegation edges and the guarded tree builder |
| `OutputPruning` | head-marker-tail pruning whose marker counts itself |
| `Positions`, `Unique`, `Checkpoints` | picking items at positions, dropping repeats, checkpoint merging and recovery |
| `WriteHistory` | compaction of superseded file writes |
| `Surface` | the model's current surface of a log |
| `RequestLedger`, `LedgerReading`, `LedgerRuns`, `LedgerContents`, `LedgerObjects` | the provider request ledger and the independent reader that rebuilds every call; what the reader accepts; runs of several adapters whose appends can fail; what the records hold; the objects |
| `PrivateKeyRedaction`, `LuhnCheck` | the one-pass private-key scan and the card checksum (ISO/IEC 7812-1, Annex B) |
| `RiskOverrides` | the eleven override mutations over a risk proposal |

`dafny verify dfyconfig.toml` checks the whole project.

## Hypotheses

- Hashes, digests and the JSON reader and writer are function values. What is asked of them is stated where
  it is used. `Injective`: drafts that differ have different event hashes; the hash field itself, which the
  hash leaves out, plays no part. `CollisionFree`: the same of the digest of bytes. `ReadsBack`: the text of a
  draft that the event model validated, once hashed, is not empty and is read back as that event.
  `ReadsWholeLine`: an empty line is blank, and text in front of an event's line makes it the same event
  (white space) or an error. `Dependable`: the ledger's digests do not collide and hold no credential, and
  scrubbing leaves no text blank.
- An append adds one event if the file is empty or ends in a newline (`EndsLine`) and the rendered line holds
  no line break (`OneLine`). Nothing in the source enforces either; `AppendNeedsEndedLine` and
  `BrokenRenderingIsSplit` say that both are needed.
- Matches of one private-key pattern come in text order without overlap, and so do the anchors, which two
  patterns find; body and header lines consume text (`Lawful`). A banner and a field name cannot overlap.
- A transport shows only events of one authoritative log numbered from 0 (`Authoritative`, `FromLog`), in any
  order, any number of times and with any omissions.
- Scaling a requested head to the room left stays within the room (`ScalesWithin`). Exact arithmetic satisfies
  this (`ExactScalingIsWithin`), and so does floating point as far as its rounding errors are those of double
  precision and the room is at most 2^50 characters (`RoundedScalingIsWithin`).

## Where the code and its documentation part

- `event_count` is documented as the number of events proven valid. Formats are checked over the whole log
  before links, so a format fault behind a link fault counts unproven events (`CountOverclaims`; exact
  condition in `CountIsProvenUnlessFormatHidesLink`).
- An error in appended lines is documented to carry the file's own line number. The offset counts newline
  bytes, lines are split by `str.splitlines`, and the two agree exactly when every break of the prefix is a
  newline (`TailNumbering`, `EntryNumbersLines`; `MisnumberedLine` is a case). Which logs are refused does not depend on it.
- Every change of the log is documented to change its final line, since that line holds the head's hash. A
  file that verifies and ends in a blank line does not: two such files of one length look alike to a writer
  (`BlankTailHidesRewrite`; `BlankTailWitness` gives the files). With an event in the final line the claim
  holds (`UnchangedTailMeansSameHistory`).
- A write that fails before anything reaches the file leaves the writer's number and head one event ahead,
  while size and tail still match. Its next append breaks the chain for good, unless the file grew in between
  (`LostWriteBreaksChain`; `EveryInterleavingKeepsOneChain` is exact about it).
- The ledger is documented to keep every request reconstructible. Its records alone always replay, but the
  reader verifies the chain first and then refuses the whole log exactly if some append wrote its line after
  one that left nothing (`EveryRunReplays`, `LostAppendIsNotAccepted`).
- An adapter's requests in the log form one retry chain exactly when nothing of it was logged after a request
  whose line was written by an append that then failed, since the adapter is not told of that one
  (`RetriesFormOneChainExactly`, `UnsyncedRequestBreaksRetries`).
- A ledger's lock does not cover another ledger object on the same log. Of two recordings that work from one
  latest header the reader accepts both exactly if not both need a new one (`UnsynchronisedExactly`).
- Pruning exceeds its bound exactly when only a head is given and it is longer than the room left by a marker
  whose length depends on text and bound alone (`PruneHeadMarkerTail`, `HeadMarkerIsFinal`,
  `HeadAloneOverruns`).
- A board validates with items that lack an invocation binding, and no result can ever settle such an item
  (`BindableExactly`, `UnboundItemStaysPending`). All work can be settled exactly when the dependencies are
  acyclic and no item lacks its binding (`FinishableExactly`).
- An agent in a delegation cycle that no root reaches is left out of the tree; `LeftOutExactlyInIsolatedGroup`
  is the exact condition.
- A request's attempt is its position among its adapter's requests in the log exactly when every earlier call
  of the adapter left one there, since the counter moves before the recording (`AttemptIsPositionExactly`,
  `RefusedCallSkipsAttempt`).
- The log replaces known credential values in every payload after the ledger took its digests. A call is
  replayable exactly when that replacement leaves it alone, and once it changed a header no later call is
  recorded (`CleanCallsExactly`, `ScrubbedModelStopsLedger`).

## Model

| member | source | states |
|---|---|---|
| EventChain.VerifyEvents | packages/events/src/thymira/events/log.py:188-191 | the two verification loops answer valid exactly on chained logs (formats recognised, one run, consecutive numbers, each event naming its predecessor's hash and carrying its own), with the whole length counted |
| EventChain.VerifyChain | packages/events/src/thymira/events/log.py:194-234 | both loops, started at any offset and head, return the verdict of the recursive definition: formats over the whole segment first, links second |
| EventChain.ValidMeansChained | packages/events/src/thymira/events/log.py:188-234 | the verdict is valid if and only if the log is chained, said without the loops |
| EventChain.FormatFaultExactly | packages/events/src/thymira/events/log.py:127-148 | no format fault is found exactly for the supported version with a type of the vocabulary, and each fault exactly in its own case, the version before the type |
| EventChain.LinkVerdictComposes | packages/events/src/thymira/events/log.py:194-234 | verifying a segment and then its continuation from its head is verifying the whole, from any offset and head |
| EventChain.FormatVerdictComposes | packages/events/src/thymira/events/log.py:203-206 | the format pass composes over concatenation and reports the first fault |
| EventChain.TailVerdictIsWholeVerdict | packages/events/src/thymira/events/log.py:323-330 | the verdict on appended events alone, started at the verified prefix's head, is the verdict on the whole log, error position included |
| EventChain.FirstBrokenPosition | packages/events/src/thymira/events/log.py:208-234 | where every format is sound, everything before the reported position is proven and the event at it breaks the chain |
| EventChain.CountIsProvenUnlessFormatHidesLink | packages/events/src/thymira/events/log.py:66-73 | the documented meaning of `event_count` holds exactly when all formats are sound or no link fault comes before the first format fault |
| EventChain.CountOverclaims | packages/events/src/thymira/events/log.py:66-73 | a two-event log whose `event_count` is 1 although no event of it is proven |
| EventChain.HeadCommits | packages/events/src/thymira/events/log.py:194-234 | two verified logs with the same last hash are equal event for event, for a hash that tells drafts apart |
| EventChain.NextEventExtendsChain | packages/events/src/thymira/events/log.py:397-430 | the event built from a verified log's own head extends it to a verified log of the same run |
| EventChain.HeadOfChain | packages/events/src/thymira/events/log.py:392-395 | the chain state read off the last event is the length and the head of the whole log |
| Utf8.DecodeEncode | packages/events/src/thymira/events/log.py:346 | decoding strict UTF-8 inverts encoding, for every text |
| Utf8.EncodeDecode | packages/events/src/thymira/events/log.py:346 | decoding is strict: bytes that decode are the encoding of what they decode to, for all byte sequences |
| Utf8.DecodeSplitsAtNewline | packages/events/src/thymira/events/log.py:321 | bytes cut after a newline decode exactly when both parts do, to the concatenation |
| Utf8.DecodeSplitsBeforeText | packages/events/src/thymira/events/log.py:505-525 | bytes that decode on their own split off what precedes them, inside a line too |
| Utf8.NewlinesAgree | packages/events/src/thymira/events/log.py:321 | the newline bytes of a file are the newline characters of its text |
| LogText.SplitLinesConcat | packages/events/src/thymira/events/log.py:346 | splitting into lines distributes over concatenation when the first text ends a line and no `\r\n` straddles the join |
| LogText.GluedLines | packages/events/src/thymira/events/log.py:346 | texts joined inside a line have the lines of both, with the last of one and the first of the other made one |
| LogText.BrokenLineIsOneLine | packages/events/src/thymira/events/log.py:346 | a line followed by any break, a carriage return with its newline counting as one, is that line alone |
| LogText.RenderedLineIsOneLine | packages/events/src/thymira/events/log.py:346 | a rendered line and its newline read back as that one line exactly when no line break is inside it |
| LogText.AppendedLineStandsAlone | packages/events/src/thymira/events/log.py:592-599 | an appended line is read as one more line exactly when the text before it is empty or ends a line |
| LogText.NewlinesNumberLines | packages/events/src/thymira/events/log.py:321 | newlines never outnumber lines and equal them exactly when every break is a newline |
| LogParser.ParseEvents | packages/events/src/thymira/events/log.py:339-357 | the parsing loop returns the recursive parse: events in order, blank lines skipped, the first bad line reported with its number |
| LogParser.ParsesExactly | packages/events/src/thymira/events/log.py:339-357 | parsing fails exactly at the first line that is neither blank nor an event, with its own kind and number, or with the message alone where the event contract refuses the record; otherwise it gives the events of all lines that hold one, in order |
| LogParser.ParseSplits | packages/events/src/thymira/events/log.py:308-336 | once a prefix that ends a line parsed, the whole file parses exactly as its tail does with the prefix's events in front |
| LogParser.TailNumbering | packages/events/src/thymira/events/log.py:308-336 | with the source's newline count as offset, events and kind of error agree with the full parse, and a numbered error is the file's own exactly when every break of the prefix is a newline |
| LogParser.MisnumberedLine | packages/events/src/thymira/events/log.py:321 | a file whose third line is bad and is reported as its second when parsed as a tail |
| LogParser.LastEventOfSuffixText | packages/events/src/thymira/events/log.py:339-357 | the last event of a text is that of any end of it that holds an event, even where the cut is inside a line |
| LogParser.AppendParses | packages/events/src/thymira/events/log.py:592-599 | the text of a validated and hashed draft, appended to a file that ends a line, adds exactly that event |
| LogParser.AppendNeedsEndedLine | packages/events/src/thymira/events/log.py:592-599 | the appended event is read as one more line exactly when the text before it is empty or ends a line |
| LogParser.BrokenRenderingIsSplit | packages/events/src/thymira/events/hashing.py:23-25 | a rendering, kept non-ASCII verbatim, is one line of the file exactly when it holds no U+0085, U+2028, U+2029 or other break |
| LogCache.PublishKeepsAccounts | packages/events/src/thymira/events/log.py:288-297 | after a publish the byte total is the sum of the cached sizes, both bounds hold, and the newest entry that fits survives its own eviction as the most recent |
| LogCache.EvictKeepsAccounts | packages/events/src/thymira/events/log.py:295-297 | the eviction loop ends within both bounds, keeps the accounts and never evicts a newest entry that fits |
| LogCache.EntryDescribesCurrentBytes | packages/events/src/thymira/events/log.py:274-336 | with or without a cached prefix, an entry is built exactly when the current bytes parse from scratch, and then says of them what parsing and verifying from scratch says |
| LogCache.CarriedVerdictIsWhole | packages/events/src/thymira/events/log.py:322-336 | a verdict carried over to an extended log is the verdict of the whole log |
| LogCache.EntryNumbersLines | packages/events/src/thymira/events/log.py:321 | an error found through the cache is the full parse's exactly when the cached prefix breaks lines only at newlines |
| LogCache.EveryInterleavingIsSound | packages/events/src/thymira/events/log.py:251-305 | under every interleaving of threads' look-ups, publishes and verdict requests, the latter also for records held between the two lock sections, accounts and bounds hold and every returned entry describes the bytes that call read |
| LogCache.EveryRunIsSound | packages/events/src/thymira/events/log.py:251-272 | the same of every run from the empty process-wide cache |
| ParsedLogCache.Cache.constructor | packages/events/src/thymira/events/log.py:267-272 | the cache starts empty and in order |
| ParsedLogCache.Cache.LookUp | packages/events/src/thymira/events/log.py:280-284 | the first lock section returns the stored entry and moves it to the recent end exactly on an equal digest |
| ParsedLogCache.Cache.ReplaceEntry | packages/events/src/thymira/events/log.py:289-294 | the key's old entry is taken out of entries and total, the new one put in only if it fits the byte bound |
| ParsedLogCache.Cache.EvictOldest | packages/events/src/thymira/events/log.py:295-297 | the loop leaves the state that evicting oldest first until both bounds hold leaves |
| ParsedLogCache.Cache.PublishEntry | packages/events/src/thymira/events/log.py:288-297 | the second lock section keeps every invariant and leaves a fitting new entry most recent |
| ParsedLogCache.Cache.Load | packages/events/src/thymira/events/log.py:274-298 | a load succeeds exactly when the bytes parse from scratch, and its record describes the bytes this call read |
| ParsedLogCache.Cache.Verification | packages/events/src/thymira/events/log.py:300-305 | the memoised verdict is the full verdict, and memoising it changes nothing a holder of the record relies on |
| FileTail.ReadTail | packages/events/src/thymira/events/log.py:617-635 | the backward scan returns the size and the final line for any file and any chunk size |
| FileTail.FinalLineIsUnique | packages/events/src/thymira/events/log.py:617-635 | a suffix is the file's last line, its own newline included, exactly when it is the one the scan returns |
| JsonlEventLog.FinalLineOfAppended | packages/events/src/thymira/events/log.py:592-599 | after an append the file's final line is the line written |
| JsonlEventLog.AppendInStep | packages/events/src/thymira/events/log.py:550-600 | an append of a validated draft by a writer in step with a file that ends a line adds exactly one correctly chained event and leaves the writer in step |
| JsonlEventLog.UnchangedTailMeansSameHistory | packages/events/src/thymira/events/log.py:505-525 | if the file verifies and ends, at the same length, in the bytes last seen as its final line, and they hold an event, it is the writer's history event for event, and the writer is in step exactly if these bytes are the whole final line |
| JsonlEventLog.SuffixIsFinalLine | packages/events/src/thymira/events/log.py:505-525 | the suffix comparison finds the final line exactly when the bytes before it end a line |
| JsonlEventLog.BlankTailHidesRewrite | packages/events/src/thymira/events/log.py:505-525 | two verified files of one length that end in a blank line look alike to the writer, whose next event then does not chain |
| JsonlEventLog.BlankTailWitness | packages/events/src/thymira/events/log.py:505-525 | two one-event files of a run, equally long and ended by a blank line, between which the writer cannot tell |
| ChainStates.VerifiesExactlyUnbroken | packages/events/src/thymira/events/log.py:570-600 | after any appends, each complete, refused, lost or not synced, the chain verifies exactly when none wrote its line after one that left nothing |
| JsonlEventLog.AppendKeepsWriter | packages/events/src/thymira/events/log.py:570-600 | however its write ends, an append leaves a verified file with exactly the written event more, and its writer in step, detectably stale, or ahead of the file after a write that left nothing |
| JsonlEventLog.WriteKeepsFleet | packages/events/src/thymira/events/log.py:550-600 | one append by any writer that is not ahead of the file adds exactly the written event and leaves every writer in step, detectably stale or ahead |
| JsonlEventLog.AheadWriteBreaks | packages/events/src/thymira/events/log.py:570-600 | a write by a writer ahead of the file leaves a file that parses and does not verify |
| JsonlEventLog.LostWriteBreaksChain | packages/events/src/thymira/events/log.py:570-600 | from any writer in step, one write that leaves nothing and one that completes leave a file that does not verify |
| JsonlEventLog.EveryInterleavingKeepsOneChain | packages/events/src/thymira/events/log.py:482-600 | any interleaving of appends by any number of writers, some of whose writes fail, keeps one valid single-run chain that gains exactly the written events in order, as long as no writer ahead of the file writes; after such a write the chain is broken for good; every event written carries the type and payload, the run and the format its own write asked for |
| JsonlEventLog.RunWritesWhatIsAsked | packages/events/src/thymira/events/log.py:550-600 | over a whole run, the i-th event written carries the type and payload passed by the i-th write that reached the file, for any writers, files and failures |
| JsonlEventLog.WholeWritesAreSafe | packages/events/src/thymira/events/log.py:482-600 | without a write that leaves nothing in the file nobody gets ahead, so every run keeps the chain |
| JsonlEventLog.StandsVerifies | packages/events/src/thymira/events/log.py:505-548 | the chain on disk verifies exactly in the states held and ahead |
| JsonlEventLog.AppendFollowsStates | packages/events/src/thymira/events/log.py:550-600 | every append moves file and writer between the four states, held, ahead, broken and stuck, writes its line and returns its event exactly as the state model says |
| JsonlEventLog.EventLog.constructor | packages/events/src/thymira/events/log.py:386-390 | a new writer is at number 0 with the genesis hash |
| JsonlEventLog.EventLog.LoadExisting | packages/events/src/thymira/events/log.py:527-548 | existing bytes are accepted exactly when they parse, verify and belong to this run, and then their events are returned |
| JsonlEventLog.EventLog.Resume | packages/events/src/thymira/events/log.py:489-503 | opening succeeds exactly on such a file and leaves the writer in step with it |
| JsonlEventLog.EventLog.Restore | packages/events/src/thymira/events/log.py:392-395 | the chain state after restoring is the length and head of the restored log |
| JsonlEventLog.EventLog.SeesTailUnchanged | packages/events/src/thymira/events/log.py:505-525 | true exactly when the size is the one last seen and the file ends in the line last seen |
| JsonlEventLog.EventLog.Refresh | packages/events/src/thymira/events/log.py:571-576 | the file is re-read exactly when its tail changed; refusal changes nothing |
| JsonlEventLog.EventLog.Append | packages/events/src/thymira/events/log.py:550-600 | file, writer and written event are those of the append model for every way the write can end, refusals included; the event carries the caller's type and payload, this run's id and the current format, and is returned exactly if its line was written and synced |
| JsonlEventLog.EventLog.AppendNext | packages/events/src/thymira/events/log.py:577-600 | the event is built from the memory and carries the caller's type and payload; file, memory and result follow from how its write ends |
| JsonlEventLog.EventLog.WriteLine | packages/events/src/thymira/events/log.py:592-599 | size and tail follow only a line that was written and synced |
| EventFeed.AdvanceIsMaximal | adapters/cli/src/thymira/cli/client.py:612-634 | the cursor passes every contiguous event and stops at the first missing or terminal one |
| EventFeed.DeduplicatedKeepsLatest | adapters/cli/src/thymira/cli/client.py:1594-1601 | an event survives exactly when it is the last observed of its number |
| EventFeed.DeduplicatedSeqs | adapters/cli/src/thymira/cli/client.py:1594-1601 | collapsing loses no number and invents no event |
| EventFeed.Deduplicate | adapters/cli/src/thymira/cli/client.py:1594-1601 | the dictionary loop returns one event a number, ascending, over the same numbers |
| PollingSubscription.DeliverItems | apps/api/src/thymira/api/subscription.py:116-125 | the inner loop hands out exactly the events contiguous from the cursor, up to a terminal one |
| PollingSubscription.DeliverSnapshot | apps/api/src/thymira/api/subscription.py:111-125 | one poll advances the cursor as far as the snapshot's numbers allow, whatever their order and repeats |
| PollingSubscription.Subscribe | apps/api/src/thymira/api/subscription.py:99-129 | over any reordered, repeated, partial or stale snapshots: log[since+1..next], each once and in order, nothing after a terminal event, and refused exactly for a cursor below -1 |
| PollingSubscription.CompleteSnapshotCatchesUp | apps/api/src/thymira/api/subscription.py:99-129 | a snapshot complete up to some number brings the subscription there or to a terminal event |
| EventReading.ReadPage | adapters/cli/src/thymira/cli/client.py:461-482 | one page yields the numbers it holds from the cursor on without a hole, and then asks for the next page or ends the read, exactly as the page's own numbers, claim and next cursor say |
| EventReading.ReadItems | adapters/cli/src/thymira/cli/client.py:461-468 | a page's collapsed items yield the longest contiguous run from the cursor, and a gap is reported exactly if the page holds an event past a number it skips |
| EventReading.ReadEvents | adapters/cli/src/thymira/cli/client.py:443-482 | whatever the replies, the paging loop yields the log after the cursor, each once and in order, and reads at most one page more than it yields events; how far it gets and whether and how it fails is what the replies say; without failure it yielded every later event of its pages, up to one that claimed no more |
| EventReading.ReadFailsExactly | adapters/cli/src/thymira/cli/client.py:443-482 | a read fails if and only if it meets a reply that is lost or rejected, skips a number past the cursor, makes no progress, or names a next cursor other than the last number it leads to; that reply is the last it asks for |
| EventReading.ReadEndsOneWay | adapters/cli/src/thymira/cli/client.py:443-482 | any two descriptions of a read of the same replies agree on how far it gets and how it fails |
| FollowStates.MergeFailsExactly | adapters/cli/src/thymira/cli/client.py:584-610 | a live event fails exactly past the cursor's next number with no repair left or with a failing repair read, and then nothing is handed out and nothing kept is lost |
| FollowLaws.FollowEndsOneWay | adapters/cli/src/thymira/cli/client.py:484-634 | the connections and replies decide where a follow ends and how it fails, if it does |
| FollowLaws.WholeFollowSucceeds | adapters/cli/src/thymira/cli/client.py:484-634 | over whole replies, with at most three gaps among the connections and at most one of them lost, a follow ends without failure at the end of the last stream or at a terminal event before it |
| FollowLaws.OneGapIsRepaired | adapters/cli/src/thymira/cli/client.py:598-610 | a follow whose first live event is any number ahead of the cursor, with one page that fills the gap, gives everything up to it |
| EventFollower.Follower.constructor | adapters/cli/src/thymira/cli/client.py:168-176 | a follow starts with nothing given, pending or observed |
| EventFollower.Follower.YieldNext | adapters/cli/src/thymira/cli/client.py:1604-1610 | one drained event is the log's next one, and finishes the follow exactly if it is terminal |
| EventFollower.Follower.YieldReady | adapters/cli/src/thymira/cli/client.py:612-634 | draining advances the cursor over exactly the contiguous pending prefix, up to a terminal event, and keeps the rest pending |
| EventFollower.Follower.Keep | adapters/cli/src/thymira/cli/client.py:561-582 | history is kept under its own numbers: the pending numbers gain exactly those read past the cursor |
| EventFollower.Follower.MergeStreamEvent | adapters/cli/src/thymira/cli/client.py:584-610 | the whole new state and the failure are what the replies say: a repeat changes nothing, the next event is handed out with all that is contiguous, a gap costs one repair and one read from the cursor, and it fails exactly past the third repair or where that read fails |
| EventFollower.Follower.ReconcileHistory | adapters/cli/src/thymira/cli/client.py:561-582 | history read from the cursor keeps delivery exact, is kept as far as the read gets, and is handed out as far as it is contiguous unless the read fails |
| EventFollower.Follower.FollowAttempt | adapters/cli/src/thymira/cli/client.py:514-559 | state and failure of one connection are what its replies say, history before the first live event exactly if it is guarded and was not read; a connection that ends without failure ended finished or with every one of its events given |
| EventFollower.Follower.FollowStream | adapters/cli/src/thymira/cli/client.py:548-559 | the live events are merged in order up to a failure or a terminal event; past the last one the stream fails as it ended, or if anything is held back |
| EventFollower.Follower.FollowEvents | adapters/cli/src/thymira/cli/client.py:484-512 | for every sequence of connections: what is yielded is log[since+1..k], each once and in order, nothing after the terminal event; where it ends and how it fails is what the replies say, the next connection being tried exactly after a lost one, up to the limit; over whole replies it does not fail and gives everything |
| RoadmapCycles.TrailProvesCycle | scripts/check_roadmap.py:383-386 | a reported trail is a real path that returns into itself, so the graph has a cycle |
| RoadmapCycles.CycleSearch.Visit | scripts/check_roadmap.py:378-388 | the visit terminates on every graph, restores the trail, blackens its node and never takes back a report; exactly the trail and its node are grey meanwhile |
| RoadmapCycles.CycleSearch.Search | scripts/check_roadmap.py:376-392 | a cycle is reported if and only if the dependencies among known tasks have one, every report is a real trail whose last node occurs earlier in it, and without the edges that end the reports no cycle is left |
| RoadmapCycles.CycleSearch.FinishOrderIsRank | scripts/check_roadmap.py:378-392 | the finishing order ranks the tasks along every dependency that ends no report, so these have no cycle |
| OutputPruning.ThreeRoundsSettle | runtime/agents/src/thymira/agents/context_recovery.py:143-162 | three rounds from the first marker end on one as long as its split left room for, or on the short one in place of a longer |
| OutputPruning.ShortMarkerSwings | runtime/agents/src/thymira/agents/context_recovery.py:143-162 | when the marker swings between long and short, the third round still ends on a marker that fits |
| OutputPruning.LongerMarkerFits | runtime/agents/src/thymira/agents/context_recovery.py:156-162 | a full marker that gained a digit stays full and gains no other |
| OutputPruning.FinalPlanFits | runtime/agents/src/thymira/agents/context_recovery.py:143-162 | kept characters and marker fit the bound together and the marker prints exactly what is not kept, for every length, bound and split |
| OutputPruning.HeadMarkerIsFinal | runtime/agents/src/thymira/agents/context_recovery.py:143-162 | without a tail the final marker's length is a function of text length and bound alone |
| OutputPruning.RoundedScalingIsWithin | runtime/agents/src/thymira/agents/context_recovery.py:151-154 | scaling with the rounding errors of double precision stays within a room of up to 2^50 characters |
| OutputPruning.AssembledFits | runtime/agents/src/thymira/agents/context_recovery.py:163-176 | the output is a prefix, the marker and a suffix of the text, within the bound exactly unless a head alone overruns it, and a full marker prints the omitted characters exactly then |
| OutputPruning.PruneHeadMarkerTail | runtime/agents/src/thymira/agents/context_recovery.py:115-176 | refused exactly for a negative bound; a text within the bound is unchanged; else prefix, marker and suffix; the bound holds, and a marker other than the short one prints the characters omitted, exactly unless only a head was given beyond the room of a marker computed from text length and bound; head and tail are a division of the room the marker leaves, even to one character if no length is given, of the lengths given where they fit |
| OutputPruning.AssembledDivides | runtime/agents/src/thymira/agents/context_recovery.py:143-164 | for some room that the final marker leaves (or, for the short one, a longer marker): halves without lengths; the head asked for and the rest for a head alone; half the room and the tail asked for, or both lengths asked for, where they fit; else the room filled with the head scaled; the marker is the full one for what the split omits if that fits |
| OutputPruning.EvenSplitExample | runtime/agents/src/thymira/agents/context_recovery.py:143-164 | 200 characters under a bound of 100 keep 35 at each end of a marker of 30 |
| OutputPruning.DecimalReads | runtime/agents/src/thymira/agents/context_recovery.py:156-157 | the number a marker prints reads back digit by digit, without leading zeros |
| OutputPruning.HeadAloneOverruns | runtime/agents/src/thymira/agents/context_recovery.py:150 | a head of 60 alone under a bound of 50 overruns it |
| OutputPruning.SettlePlan | runtime/agents/src/thymira/agents/context_recovery.py:143-162 | the loop ends with the plan of at most three rounds, early when the marker's length repeats |
| Unique.UniqueAssociates | runtime/agents/src/thymira/agents/context_recovery.py:345-346 | order-preserving removal of repeats over three joined lists does not depend on the grouping |
| Unique.FirstOccurrencesAt | runtime/agents/src/thymira/agents/context_recovery.py:345-346 | what is left are the items at exactly the positions where something occurs for the first time, in order |
| Checkpoints.MergeCheckpoints | runtime/agents/src/thymira/agents/context_recovery.py:328-349 | the selecting loop and the listing by sorted key compute the merge |
| Checkpoints.MergeKeepsFacts | runtime/agents/src/thymira/agents/context_recovery.py:328-349 | every fact of either side survives under its key at no lower revision, source and value, nothing else appears, keys are distinct and sorted, the revision never falls |
| Checkpoints.MergeAssociates | runtime/agents/src/thymira/agents/context_recovery.py:328-349 | merging is associative, on every part of a checkpoint |
| Checkpoints.SelectedJoins | runtime/agents/src/thymira/agents/context_recovery.py:330-338 | selecting from two joined fact lists is joining their selections, ties to the later |
| Checkpoints.RecoverCheckpoint | runtime/agents/src/thymira/agents/context_recovery.py:352-366 | the loop merges the checkpoints of the compaction events in order, skipping missing and invalid ones |
| Checkpoints.RecoverySplits | runtime/agents/src/thymira/agents/context_recovery.py:352-366 | recovering a concatenation equals merging the recoveries of its two parts, wherever it is cut |
| Checkpoints.RecoveredExactly | runtime/agents/src/thymira/agents/context_recovery.py:328-366 | recovery is nothing exactly without a valid checkpoint in the log; otherwise it has of each section the latest text that is not empty, for each fact of any checkpoint one of its key that outranks it and no others, all sources, the greatest revision and the last continuation header |
| Checkpoints.StrLeqExactly | runtime/agents/src/thymira/agents/context_recovery.py:330-339 | the order of keys and values is by the first differing character, a prefix first |
| WorkBoard.PendingIsRunnable | packages/schemas/src/thymira/schemas/board.py:330-341 | an item is pending exactly when it is unsettled with all dependencies settled, listed by ordinal |
| WorkBoard.SettleKeepsValidExactly | runtime/core/src/thymira/core/orchestrator_board.py:398-401 | appending a result to a validated board keeps it valid exactly when it belongs to the run, is bound to an item and settles it for the first time |
| WorkBoard.BindableExactly | packages/schemas/src/thymira/schemas/board.py:252-265 | an item can be settled by some result exactly when it carries its whole invocation binding, which the validator does not ask for |
| WorkBoard.UnboundItemStaysPending | packages/schemas/src/thymira/schemas/board.py:252-265 | a valid acyclic board whose one item is pending and which has no schedule but the empty one |
| WorkBoard.SettlePendingKeepsBoard | packages/schemas/src/thymira/schemas/board.py:278-341 | settling a pending item keeps the board valid and dependency-closed and settles exactly that item |
| WorkBoard.ScheduleKeepsBoard | packages/schemas/src/thymira/schemas/board.py:278-341 | every schedule keeps the board valid, closed and free of settled items on or behind a cycle |
| WorkBoard.StuckIsBehindCycle | packages/schemas/src/thymira/schemas/board.py:330-341 | with nothing pending, whatever is unsettled is on or behind a dependency cycle |
| WorkBoard.ScheduleSettlesExactlyAcyclicWork | packages/schemas/src/thymira/schemas/board.py:278-341 | from an unsettled validated board every schedule settles only items off every cycle, and a stuck one has settled exactly those |
| WorkBoard.AcyclicWorkFinishes | packages/schemas/src/thymira/schemas/board.py:278-341 | on acyclic dependencies nothing is pending exactly after as many settlements as there are items |
| WorkBoard.FinishableExactly | packages/schemas/src/thymira/schemas/board.py:252-341 | all work can be settled exactly when the dependencies are acyclic and every item carries its invocation binding |
| WorkBoard.CycleIsNeverPending | packages/schemas/src/thymira/schemas/board.py:278-341 | items on or behind a cycle are pending in no reachable board |
| WorkBoard.SettledCount | packages/schemas/src/thymira/schemas/board.py:278-328 | one settled item per result, all exactly when there are as many results as items |
| RequestLedger.AcceptedLogAccounts | runtime/mira/src/thymira/mira/checks/request_replay.py:150-246 | a log the independent reader accepts has revisions 1, 2, 3, … each changing a fact, every request under a recorded header of its own facts, distinct request ids and retries that look back |
| LedgerReading.AcceptedRequestIsRebuilt | runtime/mira/src/thymira/mira/checks/request_replay.py:177-232 | every request of an accepted log is what the log before it says: model, tools, settings, schema and owners of the header it names, and the messages left by the surface operations it names, sorted by log position, from the last replacing one on, after the header's system text where that stands apart; and its digest is that call's |
| RequestLedger.ReplayExtends | runtime/mira/src/thymira/mira/checks/request_replay.py:150-246 | requests replayed from a log are a prefix of those replayed from any accepted extension |
| RequestLedger.RecordingKeepsSound | runtime/agents/src/thymira/agents/request_ledger.py:401-537 | a call free of credentials is refused only for its own faults; recorded, it adds one request with the caller's arguments, a header revision exactly when the facts differ from the latest header's, and leaves records that replay |
| RequestLedger.RecordingKeepsInStep | runtime/agents/src/thymira/agents/request_ledger.py:437-498 | completed recordings keep one header revision per change of the model-visible facts |
| RequestLedger.ReusedMeansUnchanged | runtime/agents/src/thymira/agents/request_ledger.py:437-463 | the latest header is reused exactly when the last request had the same facts; what facts are equal is said by `LedgerContents.SameFactsExactly` |
| LedgerContents.FactsExactly | runtime/agents/src/thymira/agents/request_ledger.py:422-459 | a header's facts are the call's model, settings, tools, schema and owners, its system-role messages at exactly their positions in order, and their joined text |
| LedgerContents.SameFactsExactly | runtime/agents/src/thymira/agents/request_ledger.py:441-463 | two calls have equal facts if and only if owners, model, settings, tools, output schema and the system-role messages in order are equal |
| LedgerContents.EditedMessages | runtime/agents/src/thymira/agents/request_ledger.py:421-423 | inserting, removing or replacing a message changes the facts exactly if a system message comes, goes or changes |
| LedgerContents.JoinedWithNewlines | runtime/agents/src/thymira/agents/request_ledger.py:423 | the system text is empty without a system message, the content of one, and has a newline wherever two lists of them meet |
| LedgerContents.HeaderKeptExactly | runtime/agents/src/thymira/agents/request_ledger.py:437-463 | on a ledger in step the latest header is kept exactly if the last request had the same owners, model, settings, tools, schema and system messages |
| LedgerContents.RecordingHoldsTheCall | runtime/agents/src/thymira/agents/request_ledger.py:401-537 | whatever others append and however its appends end, a request that reaches the log is the call's own arguments, owners, attempt, retry and digest, and names a header in the log with the call's facts and a surface in the log with its messages, each as scrubbing leaves them |
| LedgerContents.ScrubbingChangesNothingElse | packages/events/src/thymira/events/redaction.py:406-437 | a record whose strings scrubbing leaves alone is written as it is |
| LedgerContents.NothingEscapesScrubbing | packages/events/src/thymira/events/redaction.py:406-437 | whatever holds of every scrubbed string holds of every string of a written record |
| LedgerContents.BlankIsAllSpace | runtime/agents/src/thymira/agents/request_ledger.py:416 | a required text is refused as blank exactly if it holds white space only |
| RequestLedger.CleanCallsExactly | packages/events/src/thymira/events/log.py:397-430 | since payloads are scrubbed after the digests are taken, the records after a call replay exactly when scrubbing leaves its header (if new) and its request alone; after a scrubbed header no later call is ever recorded |
| RequestLedger.ScrubbedModelStopsLedger | packages/events/src/thymira/events/log.py:397-430 | any model name that scrubbing changes: a call for it is recorded, the records no longer replay, and no call is recorded again |
| RequestLedger.OtherAppendKeepsSound | runtime/agents/src/thymira/agents/request_ledger.py:330-372 | surface operations and other records by anyone leave the ledger replayable and add no header or request |
| RequestLedger.UnsynchronisedExactly | runtime/agents/src/thymira/agents/request_ledger.py:285-300 | a recording that read the latest header before another one was made in full: the records replay exactly if not both need a new header |
| LedgerRuns.OthersLeaveUndisturbed | runtime/agents/src/thymira/agents/request_ledger.py:330-372 | any appends of others, however they end, leave headers, requests, the latest header and every earlier surface operation as they were |
| LedgerRuns.RecordingAddsAtMostOne | runtime/agents/src/thymira/agents/request_ledger.py:376-537 | a recording with its own appends and those of others in between failing in any way adds at most the one request with the caller's arguments, and a header revision with it exactly when the facts changed; the caller gets a request only if it is in the log |
| LedgerRuns.CleanCallsAccepted | runtime/mira/src/thymira/mira/checks/request_replay.py:150-246 | the reader, chain and records, accepts what a recording without failures leaves exactly when scrubbing leaves the call alone |
| LedgerRuns.EveryRunReplays | runtime/agents/src/thymira/agents/request_ledger.py:376-537 | every run of any adapters over one ledger, with every append of a recording and of others refused, complete, lost or not synced: the records replay with every request in the log, each of its caller's own arguments, and the reader accepts the log exactly when no append wrote its line after one that left nothing |
| LedgerRuns.LostAppendIsNotAccepted | runtime/mira/src/thymira/mira/checks/request_replay.py:150-155 | on any log, one append that leaves nothing and one that completes: the reader refuses |
| LedgerRuns.UndisruptedRunsStayInStep | runtime/agents/src/thymira/agents/request_ledger.py:437-498 | without a failing append there is one header revision per change of the model-visible facts and the reader accepts the log |
| LedgerRuns.FreshFleetIsSound | runtime/agents/src/thymira/agents/request_ledger.py:286-290 | a fresh ledger with unused adapters satisfies the invariants of a run |
| LedgerRuns.RetriesFormOneChainExactly | runtime/agents/src/thymira/agents/request_ledger.py:773-790 | an adapter's requests in the log form one chain, the first retrying nothing and each other its predecessor, exactly when nothing of it was logged after a request it was not told of |
| LedgerRuns.UnsyncedRequestBreaksRetries | runtime/agents/src/thymira/agents/request_ledger.py:773-790 | two calls of which the first one's request is written and not synced: the log is accepted, and the second request retries nothing |
| LedgerRuns.AttemptIsPositionExactly | runtime/agents/src/thymira/agents/request_ledger.py:773-790 | a request's attempt is its position among its adapter's requests in the log exactly when every earlier call of that adapter left one there |
| LedgerRuns.RefusedCallSkipsAttempt | runtime/agents/src/thymira/agents/request_ledger.py:773-790 | a refused call on a fresh ledger makes the first recorded request attempt 2 |
| LedgerRuns.ProvidedFields | runtime/agents/src/thymira/agents/request_ledger.py:773-790 | the counter moves with every call, the link only with a lease |
| LedgerObjects.Ledger.FindLatestHeader | runtime/agents/src/thymira/agents/request_ledger.py:285-300 | the search from the end returns the newest header if it validates and its digest holds, else the matching error |
| LedgerObjects.Ledger.ReplaceSurface | runtime/agents/src/thymira/agents/request_ledger.py:330-350 | one replacing surface event is tried and ends as its append does, or the operation is refused with the log unchanged |
| LedgerObjects.Ledger.AppendSurface | runtime/agents/src/thymira/agents/request_ledger.py:352-372 | one appending surface event is tried and ends as its append does, or the operation is refused with the log unchanged |
| LedgerObjects.Ledger.HeaderFor | runtime/agents/src/thymira/agents/request_ledger.py:437-498 | the latest header is kept for equal facts, else its successor is tried |
| LedgerObjects.Ledger.RecordGatewayRequest | runtime/agents/src/thymira/agents/request_ledger.py:401-537 | the whole new log and the lease are those of one recording, up to the first append that fails; a refusal changes nothing; the lease is the call's own request, in the log with a header that holds the call's facts and a surface that holds its messages |
| LedgerObjects.LedgerProvider.Record | runtime/agents/src/thymira/agents/request_ledger.py:773-790 | log and lease are those of the recording, the attempt moves with every call, the link only with a lease |
| LedgerObjects.EventLog.AppendRecord | packages/events/src/thymira/events/log.py:550-600 | one append writes its scrubbed record and returns its id exactly as the state of the chain and the end of the write say |
| LuhnCheck.PassesLuhn | packages/events/src/thymira/events/redaction.py:356-367 | the loop over the reversed digits, separators ignored, computes the weighted sum's verdict |
| LuhnCheck.DigitsJoin | packages/events/src/thymira/events/redaction.py:358 | the digits of a candidate are its digit symbols in order; separators count for nothing |
| LuhnCheck.TotalSplits | packages/events/src/thymira/events/redaction.py:359-366 | the weighted sum of a number is that of any end of it plus that of the rest with the doubling shifted by the length of the end |
| LuhnCheck.LastTwoDigits | packages/events/src/thymira/events/redaction.py:360-366 | from the right a digit counts as it is and the next one with the digits of its double |
| LuhnCheck.SubstitutionIsRejected | packages/events/src/thymira/events/redaction.py:356-367 | every single-digit substitution in a passing number of any length is rejected |
| LuhnCheck.TranspositionIsRejectedUnless09 | packages/events/src/thymira/events/redaction.py:356-367 | an adjacent transposition in a passing number passes exactly when the digits are equal or 0 and 9 |
| LuhnCheck.OneCheckDigit | packages/events/src/thymira/events/redaction.py:356-367 | every prefix has exactly one completing check digit |
| PrivateKeyRedaction.UnterminatedBodyEnd | packages/events/src/thymira/events/redaction.py:285-300 | the result is where the longest run of adjacent line matches ends that follows all adjacent header matches, if it has at least two lines not all hexadecimal, and nothing otherwise |
| PrivateKeyRedaction.BodyEndIsEnd | packages/events/src/thymira/events/redaction.py:285-300 | every text position has exactly one such end of a body, and it is the one computed |
| PrivateKeyRedaction.SkipTerminators | packages/events/src/thymira/events/redaction.py:317-318 | the forward-only cursor stands at the terminator a search of all of them would find |
| PrivateKeyRedaction.SpansInOrder | packages/events/src/thymira/events/redaction.py:303-332 | the replaced spans are disjoint and increasing |
| PrivateKeyRedaction.SpansEndRightly | packages/events/src/thymira/events/redaction.py:319-332 | every replaced span starts at an anchor and ends at the first terminator after the body's start if no later anchor starts before that ends; else where the longest run of body lines ends; or at the body's start if there is no such run and the banner is worth covering alone |
| PrivateKeyRedaction.BannersAreCovered | packages/events/src/thymira/events/redaction.py:303-332 | every anchor worth covering alone, closed by a terminator before the next anchor, or followed by a body lies inside a replaced span |
| PrivateKeyRedaction.OutsideIsVerbatim | packages/events/src/thymira/events/redaction.py:303-332 | the text is kept pieces around removed ones, and the output the same kept pieces, in order and verbatim, around markers |
| PrivateKeyRedaction.RedactPrivateKeys | packages/events/src/thymira/events/redaction.py:303-332 | the one-pass scan equals the rule that searches all terminators for each uncovered anchor, in at most one cursor step per anchor and terminator |
| DelegationTree.CollectEdges | adapters/cli/src/thymira/cli/thy_view.py:260-285 | the loop collects exactly the delegations and agents of the events, each once, with agents, parents and every parent's children in first-seen order |
| DelegationTree.SimplePathIsShown | adapters/cli/src/thymira/cli/thy_view.py:288-300 | the ancestor guard never blocks a path that visits no node twice |
| DelegationTree.TreeShowsReachable | adapters/cli/src/thymira/cli/thy_view.py:288-300 | a tree shows exactly the agents its root reaches, on every edge relation |
| DelegationTree.ForestShowsReachable | adapters/cli/src/thymira/cli/thy_view.py:303-317 | the view shows an agent exactly when a root reaches it |
| DelegationTree.AcyclicShowsEveryAgent | adapters/cli/src/thymira/cli/thy_view.py:260-317 | when delegation has no cycle every agent seen in the log appears in some tree |
| DelegationTree.LeftOutExactlyInIsolatedGroup | adapters/cli/src/thymira/cli/thy_view.py:303-317 | a seen agent is left out exactly when it lies in a group no root belongs to and nobody outside delegates into |
| DelegationTree.CycleBesideRootIsLeftOut | adapters/cli/src/thymira/cli/thy_view.py:303-317 | three events after which two agents that delegate to each other beside a root are left out |
| WriteHistory.CompactSupersededWriteContent | runtime/agents/src/thymira/agents/history.py:117-152 | the loops empty exactly the superseded writes: completed, longer than the marker, with a later completed write to the same path |
| WriteHistory.WriteCalls | runtime/agents/src/thymira/agents/history.py:52-77 | the calls listed are exactly the usable writes, in conversation order with their positions |
| WriteHistory.SuccessfulReturnLocations | runtime/agents/src/thymira/agents/history.py:80-95 | the index holds exactly the message positions of confirmed write returns by call id |
| WriteHistory.MarkSuperseded | runtime/agents/src/thymira/agents/history.py:130-135 | the reversed loop marks exactly the completed writes with a later completed write to their path |
| WriteHistory.MarkedIsSuperseded | runtime/agents/src/thymira/agents/history.py:117-138 | what the loop marks is what the rule over the history calls superseded |
| WriteHistory.CompactMessage | runtime/agents/src/thymira/agents/history.py:145-151 | one message keeps its kind and parts, changed only at marked positions |
| WriteHistory.CompactionKeepsCalls | runtime/agents/src/thymira/agents/history.py:103-114 | positions, call ids, paths and completions are unchanged |
| WriteHistory.CompactionKeepsWorkspace | runtime/agents/src/thymira/agents/history.py:117-152 | the same write decides every path, with the same content |
| WriteHistory.OnlySupersededWritesChange | runtime/agents/src/thymira/agents/history.py:117-152 | a part changes only if it is a completed write with a later completed write to its path, and then only in its content |
| WriteHistory.CompactionIsIdempotent | runtime/agents/src/thymira/agents/history.py:117-152 | compacting twice is compacting once |
| Surface.DeriveSurface | packages/events/src/thymira/events/surface.py:40-68 | the two passes classify every number: log-only, current, or shadowed by a later compaction that names it |
| Surface.ShadowNamed | packages/events/src/thymira/events/surface.py:65-66 | one compaction shadows exactly the current events it names at lower numbers |
| Surface.CurrentSurface | packages/events/src/thymira/events/surface.py:71-78 | the surface holds the events at exactly the positions whose number is current, in log order |
| Surface.ShadowedExactly | packages/events/src/thymira/events/surface.py:40-68 | on unique numbers an event is shadowed exactly when it is model-visible and a compaction with a higher number names it, and log-only exactly when it is not visible |
| Surface.StatesOnlyShadow | packages/events/src/thymira/events/surface.py:40-68 | as the log grows a state changes only from current to shadowed, and exactly when a new compaction names it |
| Surface.SurfaceGrowth | packages/events/src/thymira/events/surface.py:71-78 | the surface of a grown log is the old one, in order, less what new compactions name, then the new events' own |
| RiskOverrides.ApplyOverrides | runtime/agents/src/thymira/agents/risk.py:394-421 | the eleven mutations in order leave exactly the level, the factors in order, the missing and unanswerable names, the review flag, the fired ids and the notes the declarative outcome prescribes |
| RiskOverrides.Working.BoundMissingInformation | runtime/agents/src/thymira/agents/risk.py:242-260 | missing names are cut to the answerable ones and the rest recorded as unanswerable, with a note; without answerable names nothing changes |
| RiskOverrides.Working.OverrideObservedMissingInformation | runtime/agents/src/thymira/agents/risk.py:263-269 | observed missing names are added and the override fires exactly if one was new |
| RiskOverrides.Working.OverrideConsequentialContextRequired | runtime/agents/src/thymira/agents/risk.py:272-297 | required context that is neither present nor listed is added and the override fires exactly if there is some |
| RiskOverrides.Working.OverrideInherentRiskFloor | runtime/agents/src/thymira/agents/risk.py:378-391 | the level is raised to the assessed one, with review, exactly when that is higher |
| RiskOverrides.AddSensitive | runtime/agents/src/thymira/agents/risk.py:321-333 | sensitive attributes add their factor if it is missing and always force review |
| RiskOverrides.AddImpact | runtime/agents/src/thymira/agents/risk.py:336-349 | impact on people adds its factor if it is missing and forces review of a low level |
| RiskOverrides.AddFloor | runtime/agents/src/thymira/agents/risk.py:352-391 | a materially different declared level forces review, and the final level is the higher of proposed and assessed |
| RiskOverrides.OutcomeTightens | runtime/agents/src/thymira/agents/risk.py:394-421 | the level is the maximum of proposed and assessed, no proposed factor, answerable missing name or review flag is lost, and anything missing forces review |
| RiskOverrides.MissingExactly | runtime/agents/src/thymira/agents/risk.py:242-297 | a name is missing in the end exactly when it was proposed and is answerable, was observed missing, or is absent context required by the activity: use, role and deployment from model development on, oversight and consequences where it has some, the population where it affects people |
| RiskOverrides.CutsInOrder | runtime/agents/src/thymira/agents/risk.py:242-297 | cutting names to the answerable ones, or to the absent ones, keeps their order and repeats |
| RiskOverrides.FiredInOrder | runtime/agents/src/thymira/agents/risk.py:93-105 | fired ids are an in-order subsequence of the override ids, each listed exactly when it applies |
| RiskOverrides.OutcomeIsMonotone | runtime/agents/src/thymira/agents/risk.py:394-421 | over two runs of one proposal, more sensitivity, more impact on people and a higher assessment never give a lower level, fewer factors or missing names, or no review where there was one |
| RiskOverrides.FailClosedLevel | runtime/agents/src/thymira/agents/risk.py:471-485 | a failed classification is at least high and at least the assessed level, and no other level than those |

## Left out

- SHA-256, canonical JSON, Pydantic validation and the JSON decoder: function values with the hypotheses above; the position inside a UTF-8 decoding error is not modelled.
- File permissions, secure creation, locks and lines written in part: a file is a byte sequence, a failing append writes its whole line or nothing, and a lock section is one step.
- The cache key's path resolution and the file read before a look-up: a look-up is given its key and bytes.
- The in-memory and Postgres logs: they share the chaining of `_next` and add storage.
- The event's own fields beyond run, number, format, type, hashes and one text body: the hash is taken of all of them alike; payload scrubbing before the hash is modelled in `RequestLedger` only.
- Which events are terminal, in client and server: a predicate parameter of both deliveries; receipts, timeouts' durations and sleeping are not modelled.
- EventReading.ReadEvents: the log has a fixed length; a server whose log grows without end can keep a reader paging, one page per event at most.
- FollowLaws.WholeFollowSucceeds: whole replies suffice and are not necessary, since a follow may end at a terminal event before it meets a faulty one; its outcome over any replies is the one `FollowStates.Follows` and `FollowEndsOneWay` give.
- EventFollower.Follower.FollowEvents: the history request made by a repair is one read with its own replies; HTTP status mapping and SSE framing are reduced to lost, rejected, unreachable, declined, end of stream and bad frame.
- The first half of `_check_dependencies` (unknown and future dependencies): one membership test per dependency.
- RoadmapCycles.CycleSearch.Search: reports are the trails themselves; their joining into a message is not modelled.
- Token estimates and digests of a pruned text: computed from the texts, whose contents are modelled.
- `build_source_checkpoint` and `render_checkpoint`: extraction of facts from payloads and rendering; merging and recovery take checkpoints as given.
- `from_work_item`, board persistence and its compare-and-swap: a settlement appends one result to the board.
- Who settles an item: a schedule is any sequence of results bound to pending items; an item without an invocation binding has none (`BindableExactly`).
- Response chunks, terminal outcomes, reasoning metadata and the runtime-skill binding of the ledger: they append other records, which the ledger and the request half of the reader ignore.
- Conversions of provider messages, tools, schemas and owner maps in the ledger: a call carries its converted form or the reason of refusal; tool schemas, settings and schemas are canonical JSON text.
- LedgerObjects.Ledger.RecordGatewayRequest: in the object nobody appends between the appends of a recording; the run model of `EveryRunReplays` has that.
- LedgerRuns.EveryRunReplays: the ledger's log has one writer object, to which an append that left nothing stays visible; several writers on one file are modelled in `JsonlEventLog` alone, and several ledgers on one log only as far as `UnsynchronisedExactly`, one recording made in full between another's read and its appends.
- RequestLedger.CleanCallsExactly: scrubbing acts on text and on JSON through two functions; identifiers and roles are not scrubbed, and scrubbing that would merge mapping keys is a failed append.
- The private-key regular expressions, and every other redaction pattern: what they find is a parameter (`Found`).
- Usage, phase and cost folds of the activity view, and usage attached to tree nodes: sums beside the tree.
- The thread lock and the message types of the conversation history beyond requests, responses, calls and returns: other parts are carried along unchanged.
- The profile, status and prompt built around the override outcome, and the wording of its notes: a note is a value with the names and levels it mentions.

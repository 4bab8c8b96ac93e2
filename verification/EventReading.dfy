/** Reading a run's history page by page: which replies of the server a read accepts, how far it gets and
    how it fails. */
module EventReading {
  import opened Options
  import opened EventFeed

  /** What the server answers to one page request. */
  datatype PageReply =
    | Lost                                   // the connection failed: a follow may reconnect
    | Rejected                               // a timeout, an HTTP error or an invalid payload: fatal
    | Page(items: seq<EventView>, hasMore: bool, nextAfterSeq: Option<int>)

  /** The replies a read will get, one request after another; the transport chooses them all. */
  type Pages = nat -> PageReply

  datatype Failure =
    | ConnectionLost
    | BadResponse
    | UnrepairedGap
    | NoCursorProgress
    | InvalidNextCursor

  ghost predicate PagesFromLog(pages: Pages, log: seq<EventView>) {
    forall n: nat :: pages(n).Page? ==> FromLog(pages(n).items, log)
  }

  // ---- Reading history pages ----

  /** Every event of the page is at or behind the cursor. */
  ghost predicate Covered(page: seq<EventView>, cursor: int) {
    forall e :: e in page ==> e.seqNo <= cursor
  }

  /** The page holds every number past the cursor up to `end`, and not the one after. */
  ghost predicate RunsTo(page: seq<EventView>, cursor: int, end: int) {
    cursor <= end && (forall k :: cursor < k <= end ==> k in Seqs(page)) && end + 1 !in Seqs(page)
  }

  /** The page holds an event past a number it should have held first. */
  ghost predicate Skips(page: seq<EventView>, cursor: int) {
    exists e, k :: e in page && cursor < k < e.seqNo && k !in Seqs(page)
  }

  /** One page's collapsed items from a cursor: the contiguous run, and whether a gap ended it. */
  method ReadItems(page: seq<EventView>, after: int, ghost log: seq<EventView>)
    returns (items: seq<EventView>, run: seq<EventView>, gap: bool)
    requires after >= -1 && Authoritative(log) && FromLog(page, log)
    ensures items == Deduplicated(page) && (items == [] <==> page == [])
    ensures Delivered(run, after, log) && RunsTo(page, after, after + |run|)
    ensures gap ==> after + |run| + 1 < |log|
    ensures gap <==> Skips(page, after)
    ensures gap <==> !Covered(page, after + |run|)
  {
    items := Deduplicate(page);
    DeduplicatedShows(page, log);
    run, gap := ReadRun(items, after, log);
    SamePage(items, page, after, after + |run|);
  }

  /** The loop over one page's collapsed items. */
  method ReadRun(items: seq<EventView>, after: int, ghost log: seq<EventView>) returns (run: seq<EventView>, gap: bool)
    requires after >= -1 && FromLog(items, log) && Ascending(items)
    ensures Delivered(run, after, log) && RunsTo(items, after, after + |run|)
    ensures gap ==> after + |run| + 1 < |log|
    ensures gap <==> !UpTo(items, |items|, after + |run|)
  {
    run, gap := [], false;
    for i := 0 to |items|
      invariant Delivered(run, after, log)
      invariant UpTo(items, i, after + |run|)
      invariant forall k :: after < k <= after + |run| ==> k in Seqs(items)
    {
      var e := items[i];
      assert Shows(e, log);
      if e.seqNo <= after + |run| {
        continue;
      }
      if e.seqNo != after + |run| + 1 {
        assert !UpTo(items, |items|, after + |run|);
        gap := true;
        return;
      }
      DeliveredNext(run, e, after, log);
      run := run + [e];
    }
  }

  /** A page runs past the cursor without skipping exactly if nothing in it is past its run. */
  lemma RunSkips(page: seq<EventView>, cursor: int, end: int)
    requires RunsTo(page, cursor, end)
    ensures Skips(page, cursor) <==> !Covered(page, end)
  {
    if e :| e in page && e.seqNo > end {
      assert e.seqNo in Seqs(page);
      assert end + 1 !in Seqs(page);
    }
  }

  ghost predicate UpTo(items: seq<EventView>, n: nat, bound: int)
    requires n <= |items|
  {
    forall j :: 0 <= j < n ==> items[j].seqNo <= bound
  }

  lemma DeduplicatedShows(page: seq<EventView>, log: seq<EventView>)
    requires FromLog(page, log)
    ensures FromLog(Deduplicated(page), log) && Seqs(Deduplicated(page)) == Seqs(page)
  {
    DeduplicatedSeqs(page);
  }

  lemma SameSeqsSameBound(items: seq<EventView>, page: seq<EventView>, bound: int)
    requires Seqs(items) == Seqs(page)
    ensures UpTo(items, |items|, bound) <==> Covered(page, bound)
  {
    if UpTo(items, |items|, bound) {
      forall e | e in page ensures e.seqNo <= bound {
        assert e.seqNo in Seqs(items);
      }
    }
    if Covered(page, bound) {
      forall j | 0 <= j < |items| ensures items[j].seqNo <= bound {
        assert items[j].seqNo in Seqs(page);
      }
    }
  }

  /** What holds of the collapsed items holds of the page. */
  lemma SamePage(items: seq<EventView>, page: seq<EventView>, cursor: int, end: int)
    requires Seqs(items) == Seqs(page) && RunsTo(items, cursor, end)
    ensures RunsTo(page, cursor, end) && (items == [] <==> page == [])
    ensures UpTo(items, |items|, end) <==> Covered(page, end)
    ensures Skips(page, cursor) <==> !Covered(page, end)
  {
    SameSeqsSameBound(items, page, end);
    RunSkips(page, cursor, end);
    if page != [] { assert page[0].seqNo in Seqs(items); }
    if items != [] { assert items[0].seqNo in Seqs(page); }
  }

  /** Every event of the page past the starting cursor was yielded. */
  ghost predicate Yielded(page: seq<EventView>, after: int, given: seq<EventView>) {
    forall e :: e in page ==> e.seqNo <= after || e in given
  }

  ghost predicate ReadWhole(pages: Pages, read: nat, after: int, given: seq<EventView>) {
    forall k: nat :: k < read ==> pages(k).Page? && Yielded(pages(k).items, after, given)
  }

  lemma CoveredIsYielded(page: seq<EventView>, after: int, given: seq<EventView>, log: seq<EventView>)
    requires after >= -1 && FromLog(page, log) && Delivered(given, after, log) && Covered(page, after + |given|)
    ensures Yielded(page, after, given)
  {
    forall e | e in page && e.seqNo > after ensures e in given {
      var i := e.seqNo - after - 1;
      assert Shows(e, log) && IsAt(given[i], after + 1 + i, log);
      assert given[i] == e;
    }
  }

  lemma PageIsYielded(
    pages: Pages, read: nat, after: int, given: seq<EventView>, run: seq<EventView>, log: seq<EventView>)
    requires after >= -1 && ReadWhole(pages, read, after, given) && pages(read).Page?
    requires FromLog(pages(read).items, log) && Delivered(given + run, after, log)
    requires Covered(pages(read).items, after + |given| + |run|)
    ensures ReadWhole(pages, read + 1, after, given + run)
  {
    CoveredIsYielded(pages(read).items, after, given + run, log);
    forall k: nat | k < read ensures Yielded(pages(k).items, after, given + run) {
      assert Yielded(pages(k).items, after, given);
    }
  }

  // ---- Which replies a read accepts ----

  /** The reply takes the cursor to `end`: a page that holds the numbers up to there and nothing past
      them, that says no more only if it moves the cursor, and then names the cursor it moved to. */
  ghost predicate Sound(reply: PageReply, cursor: int, end: int) {
    && reply.Page? && RunsTo(reply.items, cursor, end) && Covered(reply.items, end)
    && (end == cursor ==> reply.items == [] && !reply.hasMore)
    && (reply.hasMore ==> reply.nextAfterSeq == Some(end))
  }

  /** What is wrong with a reply, of which `end` is as far as it takes the cursor. */
  ghost predicate Faulty(reply: PageReply, cursor: int, end: int, failure: Failure) {
    match failure
    case ConnectionLost => reply.Lost?
    case BadResponse => reply.Rejected?
    case UnrepairedGap => reply.Page? && Skips(reply.items, cursor)
    case NoCursorProgress =>
      reply.Page? && Covered(reply.items, cursor) && (reply.items != [] || reply.hasMore)
    case InvalidNextCursor =>
      && reply.Page? && !Skips(reply.items, cursor) && !Covered(reply.items, cursor)
      && reply.hasMore && reply.nextAfterSeq != Some(end)
  }

  /** A read ends at this reply: the last page, or a faulty one. */
  ghost predicate EndsAt(reply: PageReply, cursor: int, end: int, failure: Option<Failure>) {
    match failure
    case None => Sound(reply, cursor, end) && !reply.hasMore
    case Some(f) =>
      Faulty(reply, cursor, end, f) && if reply.Page? then RunsTo(reply.items, cursor, end) else end == cursor
  }

  /** `cursors` are those of the requests made: every reply but the last took the cursor on and said more. */
  ghost predicate Paged(pages: Pages, cursors: seq<int>, after: int) {
    && cursors != [] && cursors[0] == after
    && forall k: nat :: k + 1 < |cursors| ==> Sound(pages(k), cursors[k], cursors[k + 1]) && pages(k).hasMore
  }

  /** A whole read, said of the replies alone: the requests it makes, how far it gets and how it ends. */
  ghost predicate ReadsBy(pages: Pages, cursors: seq<int>, after: int, end: int, failure: Option<Failure>) {
    Paged(pages, cursors, after) && EndsAt(pages(|cursors| - 1), cursors[|cursors| - 1], end, failure)
  }

  ghost predicate Reads(pages: Pages, after: int, end: int, failure: Option<Failure>) {
    exists cursors :: ReadsBy(pages, cursors, after, end, failure)
  }

  lemma OneRun(page: seq<EventView>, cursor: int, a: int, b: int)
    requires RunsTo(page, cursor, a) && RunsTo(page, cursor, b)
    ensures a == b
  {
    assert a < b ==> a + 1 in Seqs(page);
    assert b < a ==> b + 1 in Seqs(page);
  }

  lemma CoveredRun(page: seq<EventView>, cursor: int, end: int)
    requires RunsTo(page, cursor, end)
    ensures Covered(page, cursor) <==> Covered(page, end) && end == cursor
    ensures Skips(page, cursor) <==> !Covered(page, end)
  {
    RunSkips(page, cursor, end);
    assert end > cursor ==> end in Seqs(page);
  }

  /** A reply is sound or has exactly one fault, and takes the cursor to one place. */
  lemma OneEnding(reply: PageReply, cursor: int, a: int, x: Option<Failure>, b: int, y: Option<Failure>)
    requires EndsAt(reply, cursor, a, x)
    requires EndsAt(reply, cursor, b, y)
    ensures a == b && x == y
  {
    if reply.Page? {
      OneRun(reply.items, cursor, a, b);
      CoveredRun(reply.items, cursor, a);
    }
  }

  /** A sound page that says more is not the last one of a read. */
  lemma SoundGoesOn(reply: PageReply, cursor: int, a: int, b: int, failure: Option<Failure>)
    requires Sound(reply, cursor, a) && reply.hasMore
    ensures !EndsAt(reply, cursor, b, failure)
  {
    if EndsAt(reply, cursor, b, failure) {
      OneRun(reply.items, cursor, a, b);
      CoveredRun(reply.items, cursor, a);
    }
  }

  lemma {:induction false} OnePaging(pages: Pages, a: seq<int>, b: seq<int>, after: int, k: nat)
    requires Paged(pages, a, after) && Paged(pages, b, after) && k < |a| && k < |b|
    ensures a[k] == b[k]
  {
    if k > 0 {
      OnePaging(pages, a, b, after, k - 1);
      assert Sound(pages(k - 1), a[k - 1], a[k - 1 + 1]) && Sound(pages(k - 1), b[k - 1], b[k - 1 + 1]);
      OneRun(pages(k - 1).items, a[k - 1], a[k], b[k]);
    }
  }

  lemma NotLonger(pages: Pages, a: seq<int>, b: seq<int>, after: int, end: int, failure: Option<Failure>)
    requires ReadsBy(pages, a, after, end, failure) && Paged(pages, b, after)
    ensures |b| <= |a|
  {
    if |a| < |b| {
      var k := |a| - 1;
      OnePaging(pages, a, b, after, k);
      assert Sound(pages(k), b[k], b[k + 1]) && pages(k).hasMore;
      SoundGoesOn(pages(k), a[k], b[k + 1], end, failure);
    }
  }

  /** The replies decide how a read ends: there is one way. */
  lemma ReadEndsOneWay(pages: Pages, after: int, a: int, x: Option<Failure>, b: int, y: Option<Failure>)
    requires Reads(pages, after, a, x) && Reads(pages, after, b, y)
    ensures a == b && x == y
  {
    var p :| ReadsBy(pages, p, after, a, x);
    var q :| ReadsBy(pages, q, after, b, y);
    NotLonger(pages, p, q, after, a, x);
    NotLonger(pages, q, p, after, b, y);
    OnePaging(pages, p, q, after, |p| - 1);
    OneEnding(pages(|p| - 1), p[|p| - 1], a, x, b, y);
  }

  /** Lost or rejected; or a page that skips the cursor's next number, moves the cursor nowhere although
      it holds or claims events, or names another next cursor than the last number it leads to. */
  ghost predicate Flawed(reply: PageReply, cursor: int) {
    match reply
    case Page(page, hasMore, next) =>
      || Skips(page, cursor)
      || (Covered(page, cursor) && (page != [] || hasMore))
      || (hasMore && exists end :: RunsTo(page, cursor, end) && next != Some(end))
    case _ => true
  }

  /** A read fails exactly if it meets a flawed reply, which is then the last one it asks for. */
  lemma ReadFailsExactly(pages: Pages, cursors: seq<int>, after: int, end: int, failure: Option<Failure>)
    requires ReadsBy(pages, cursors, after, end, failure)
    ensures failure.Some? <==> exists k: nat :: k < |cursors| && Flawed(pages(k), cursors[k])
    ensures forall k: nat :: k < |cursors| - 1 ==> !Flawed(pages(k), cursors[k])
  {
    forall k: nat | k < |cursors| - 1 ensures !Flawed(pages(k), cursors[k]) {
      assert Sound(pages(k), cursors[k], cursors[k + 1]);
      SoundIsNotFlawed(pages(k), cursors[k], cursors[k + 1]);
    }
    var last: nat := |cursors| - 1;
    if failure.Some? {
      FaultyIsFlawed(pages(last), cursors[last], end, failure.value);
    } else {
      SoundIsNotFlawed(pages(last), cursors[last], end);
    }
  }

  lemma SoundIsNotFlawed(reply: PageReply, cursor: int, end: int)
    requires Sound(reply, cursor, end)
    ensures !Flawed(reply, cursor)
  {
    CoveredRun(reply.items, cursor, end);
    forall other | RunsTo(reply.items, cursor, other) ensures other == end {
      OneRun(reply.items, cursor, other, end);
    }
  }

  lemma FaultyIsFlawed(reply: PageReply, cursor: int, end: int, failure: Failure)
    requires EndsAt(reply, cursor, end, Some(failure))
    ensures Flawed(reply, cursor)
  {
  }

  lemma PagedNext(pages: Pages, cursors: seq<int>, after: int, end: int)
    requires Paged(pages, cursors, after)
    requires Sound(pages(|cursors| - 1), cursors[|cursors| - 1], end) && pages(|cursors| - 1).hasMore
    ensures Paged(pages, cursors + [end], after)
  {
    var longer := cursors + [end];
    forall k: nat | k + 1 < |longer| ensures Sound(pages(k), longer[k], longer[k + 1]) && pages(k).hasMore {
      if k + 1 < |cursors| {
        assert Sound(pages(k), cursors[k], cursors[k + 1]) && pages(k).hasMore;
      }
    }
  }

  lemma ReadEnds(pages: Pages, cursors: seq<int>, after: int, end: int, failure: Option<Failure>)
    requires Paged(pages, cursors, after)
    requires EndsAt(pages(|cursors| - 1), cursors[|cursors| - 1], end, failure)
    ensures ReadsBy(pages, cursors, after, end, failure) && Reads(pages, after, end, failure)
  {
    assert ReadsBy(pages, cursors, after, end, failure);
  }

  /** One page: its run of events, and then the checks that end the read or ask for the next page. */
  method ReadPage(reply: PageReply, cursor: int, ghost log: seq<EventView>)
    returns (run: seq<EventView>, failure: Option<Failure>, more: bool)
    requires cursor >= -1 && Authoritative(log) && reply.Page? && FromLog(reply.items, log)
    ensures Delivered(run, cursor, log)
    ensures if more then Sound(reply, cursor, cursor + |run|) && reply.hasMore && run != []
            else EndsAt(reply, cursor, cursor + |run|, failure)
  {
    var items, events, gap := ReadItems(reply.items, cursor, log);
    run := events;
    CoveredRun(reply.items, cursor, cursor + |run|);
    if gap {
      return run, Some(UnrepairedGap), false;
    }
    if items != [] && run == [] {
      return run, Some(NoCursorProgress), false;
    }
    if !reply.hasMore {
      return run, None, false;
    }
    if run == [] {
      return run, Some(NoCursorProgress), false;
    }
    if reply.nextAfterSeq != Some(cursor + |run|) {
      return run, Some(InvalidNextCursor), false;
    }
    failure, more := None, true;
  }

  /** The paging loop. Whatever the replies, what it yields is the log after the cursor; it reads at most
      one page more than it yields events, so it ends on any log; how far it gets and whether it fails,
      and how, is what the replies say; and a read without failure yielded every event past its cursor
      that the pages held, up to a page that claimed no more. */
  method ReadEvents(after: int, pages: Pages, ghost log: seq<EventView>)
    returns (given: seq<EventView>, failure: Option<Failure>, ghost cursors: seq<int>)
    requires after >= -1 && Authoritative(log) && PagesFromLog(pages, log)
    ensures Delivered(given, after, log)
    ensures 1 <= |cursors| <= |given| + 1
    ensures ReadsBy(pages, cursors, after, after + |given|, failure)
    ensures Reads(pages, after, after + |given|, failure)
    ensures failure.None? ==> ReadWhole(pages, |cursors|, after, given) && !pages(|cursors| - 1).hasMore
  {
    given, cursors := [], [after];
    var request: nat := 0;
    while true
      invariant Delivered(given, after, log) && Paged(pages, cursors, after)
      invariant |cursors| == request + 1 && cursors[request] == after + |given|
      invariant request <= |given| && ReadWhole(pages, request, after, given)
      decreases |log| - (after + |given|) + if after >= |log| then after + 1 else 1
    {
      var reply := pages(request);
      match reply {
        case Lost =>
          ReadEnds(pages, cursors, after, after + |given|, Some(ConnectionLost));
          return given, Some(ConnectionLost), cursors;
        case Rejected =>
          ReadEnds(pages, cursors, after, after + |given|, Some(BadResponse));
          return given, Some(BadResponse), cursors;
        case Page(_, _, _) =>
          var run, ended, more := ReadPage(reply, after + |given|, log);
          DeliveredJoins(given, run, after, log);
          ghost var end := after + |given| + |run|;
          if more || ended.None? { PageIsYielded(pages, request, after, given, run, log); }
          given := given + run;
          if !more {
            ReadEnds(pages, cursors, after, end, ended);
            return given, ended, cursors;
          }
          assert IsAt(run[0], after + 1 + |given| - |run|, log);
          PagedNext(pages, cursors, after, end);
          cursors := cursors + [end];
      }
      request := request + 1;
    }
  }
}

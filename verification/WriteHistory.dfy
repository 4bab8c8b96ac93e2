/** Compaction of superseded file writes in a model's conversation history
    (runtime/agents/src/thymira/agents/history.py). */
module WriteHistory {
  import opened Options

  const WRITE_FILE := "write_file"
  const SUPERSEDED := "[content omitted: superseded by a later successful write_file to the same path]"

  /** A call's decoded arguments: an object, kept as one or as its JSON text, or nothing usable.
      `path` and `content` are present when they are strings. */
  datatype Args =
    | Object(asText: bool, path: Option<string>, content: Option<string>, rest: map<string, string>)
    | Unreadable

  datatype Part =
    | Call(tool: string, callId: string, args: Args)
    | Return(tool: string, callId: string, confirmed: bool)
    | OtherPart(text: string)

  datatype Message = Request(parts: seq<Part>) | Response(parts: seq<Part>)

  type History = seq<Message>

  // ---- The rule ----

  predicate IsWrite(p: Part) {
    && p.Call? && p.tool == WRITE_FILE && p.args.Object?
    && p.args.path.Some? && p.args.path.value != "" && p.args.content.Some?
  }

  ghost predicate IsWriteAt(h: History, i: nat, j: nat) {
    i < |h| && h[i].Response? && j < |h[i].parts| && IsWrite(h[i].parts[j])
  }

  ghost function PathAt(h: History, i: nat, j: nat): string
    requires IsWriteAt(h, i, j)
  {
    h[i].parts[j].args.path.value
  }

  ghost function ContentAt(h: History, i: nat, j: nat): string
    requires IsWriteAt(h, i, j)
  {
    h[i].parts[j].args.content.value
  }

  predicate Confirms(p: Part, callId: string) {
    p.Return? && p.tool == WRITE_FILE && p.confirmed && p.callId == callId
  }

  ghost predicate ReturnAt(h: History, k: nat, callId: string) {
    k < |h| && h[k].Request? && ConfirmedIn(h[k].parts, callId)
  }

  /** A write whose call has a confirmed successful return in a later message. */
  ghost predicate Completed(h: History, i: nat, j: nat) {
    IsWriteAt(h, i, j) && exists k: nat :: k > i && ReturnAt(h, k, h[i].parts[j].callId)
  }

  predicate Before(i: nat, j: nat, i': nat, j': nat) {
    i < i' || (i == i' && j < j')
  }

  ghost predicate RewrittenAfter(h: History, i: nat, j: nat) {
    IsWriteAt(h, i, j) && exists i': nat, j': nat ::
      Before(i, j, i', j') && Completed(h, i', j') && PathAt(h, i', j') == PathAt(h, i, j)
  }

  /** A completed write is superseded when a later completed write has its exact path and its content
      is longer than the note that would replace it. */
  ghost predicate IsSuperseded(h: History, i: nat, j: nat) {
    Completed(h, i, j) && |ContentAt(h, i, j)| > |SUPERSEDED| && RewrittenAfter(h, i, j)
  }

  function Emptied(p: Part): Part
    requires IsWrite(p)
  {
    p.(args := p.args.(content := Some(SUPERSEDED)))
  }

  ghost function CompactedPart(h: History, i: nat, j: nat): Part
    requires i < |h| && j < |h[i].parts|
  {
    if IsSuperseded(h, i, j) then Emptied(h[i].parts[j]) else h[i].parts[j]
  }

  /** `r` is the history with exactly the superseded writes emptied. */
  ghost predicate IsCompacted(h: History, r: History) {
    && |r| == |h|
    && forall i: nat :: i < |h| ==>
         && r[i].Request? == h[i].Request? && |r[i].parts| == |h[i].parts|
         && forall j: nat :: j < |h[i].parts| ==> r[i].parts[j] == CompactedPart(h, i, j)
  }

  // ---- What compaction keeps ----

  /** Writes, paths, call ids and completion are where they were. */
  lemma CompactionKeepsCalls(h: History, r: History, i: nat, j: nat)
    requires IsCompacted(h, r)
    ensures IsWriteAt(r, i, j) <==> IsWriteAt(h, i, j)
    ensures IsWriteAt(h, i, j) ==> PathAt(r, i, j) == PathAt(h, i, j) && r[i].parts[j].callId == h[i].parts[j].callId
    ensures Completed(r, i, j) <==> Completed(h, i, j)
  {
    if IsWriteAt(h, i, j) {
      forall k: nat ensures ReturnAt(r, k, h[i].parts[j].callId) <==> ReturnAt(h, k, h[i].parts[j].callId) {
        CompactionKeepsReturns(h, r, k, h[i].parts[j].callId);
      }
    }
  }

  lemma CompactionKeepsReturns(h: History, r: History, k: nat, callId: string)
    requires IsCompacted(h, r)
    ensures ReturnAt(r, k, callId) <==> ReturnAt(h, k, callId)
  {
    if k < |h| && h[k].Request? {
      assert r[k].parts == h[k].parts;
    }
  }

  /** The write that decides what a path holds: completed, with no completed write to it after. */
  ghost predicate DecidesPath(h: History, i: nat, j: nat) {
    Completed(h, i, j) && !RewrittenAfter(h, i, j)
  }

  lemma CompactionKeepsRewrites(h: History, r: History, i: nat, j: nat)
    requires IsCompacted(h, r)
    ensures RewrittenAfter(r, i, j) <==> RewrittenAfter(h, i, j)
  {
    CompactionKeepsCalls(h, r, i, j);
    if RewrittenAfter(h, i, j) {
      var i': nat, j': nat :| Before(i, j, i', j') && Completed(h, i', j') && PathAt(h, i', j') == PathAt(h, i, j);
      CompactionKeepsCalls(h, r, i', j');
    }
    if RewrittenAfter(r, i, j) {
      var i': nat, j': nat :| Before(i, j, i', j') && Completed(r, i', j') && PathAt(r, i', j') == PathAt(r, i, j);
      CompactionKeepsCalls(h, r, i', j');
    }
  }

  /** The workspace the history describes is unchanged: the same write decides each path, with the
      same content. */
  lemma CompactionKeepsWorkspace(h: History, r: History, i: nat, j: nat)
    requires IsCompacted(h, r)
    ensures DecidesPath(r, i, j) <==> DecidesPath(h, i, j)
    ensures DecidesPath(h, i, j) ==> r[i].parts[j] == h[i].parts[j]
  {
    CompactionKeepsCalls(h, r, i, j);
    CompactionKeepsRewrites(h, r, i, j);
  }

  /** A part is changed only if it is a completed write with a later completed write to its path, and
      then only in its content. */
  lemma OnlySupersededWritesChange(h: History, r: History, i: nat, j: nat)
    requires IsCompacted(h, r) && i < |h| && j < |h[i].parts| && r[i].parts[j] != h[i].parts[j]
    ensures Completed(h, i, j) && RewrittenAfter(h, i, j) && |ContentAt(h, i, j)| > |SUPERSEDED|
    ensures h[i].Response? && h[i].parts[j].Call? && h[i].parts[j].tool == "write_file" && PathAt(h, i, j) != ""
    ensures r[i].parts[j] == h[i].parts[j].(args := h[i].parts[j].args.(content := Some(SUPERSEDED)))
  {
  }

  /** Compacting twice is compacting once. */
  lemma CompactionIsIdempotent(h: History, r: History, again: History)
    requires IsCompacted(h, r) && IsCompacted(r, again)
    ensures again == r
  {
    forall i: nat | i < |r| ensures again[i] == r[i] {
      forall j: nat | j < |r[i].parts| ensures again[i].parts[j] == r[i].parts[j] {
        CompactionKeepsCalls(h, r, i, j);
        CompactionKeepsRewrites(h, r, i, j);
      }
      assert again[i].parts == r[i].parts;
    }
  }

  // ---- The source's passes ----

  datatype WriteCall = WriteCall(message: nat, part: nat, callId: string, path: string, content: string)

  ghost predicate IsCallOf(c: WriteCall, h: History) {
    && IsWriteAt(h, c.message, c.part)
    && c.callId == h[c.message].parts[c.part].callId
    && c.path == PathAt(h, c.message, c.part) && c.content == ContentAt(h, c.message, c.part)
  }

  ghost predicate Listed(calls: seq<WriteCall>, i: nat, j: nat) {
    exists c :: c in calls && c.message == i && c.part == j
  }

  /** The calls are the writes before message `i`, and in it before part `j`, in conversation order. */
  ghost predicate Lists(calls: seq<WriteCall>, h: History, i: nat, j: nat) {
    && (forall c :: c in calls ==> IsCallOf(c, h) && Before(c.message, c.part, i, j))
    && (forall m: nat, n: nat :: IsWriteAt(h, m, n) && Before(m, n, i, j) ==> Listed(calls, m, n))
    && (forall a, b :: 0 <= a < b < |calls| ==>
          Before(calls[a].message, calls[a].part, calls[b].message, calls[b].part))
  }

  lemma ListsNext(calls: seq<WriteCall>, h: History, i: nat, j: nat, c: WriteCall)
    requires Lists(calls, h, i, j) && IsCallOf(c, h) && c.message == i && c.part == j
    ensures Lists(calls + [c], h, i, j + 1)
  {
    var all := calls + [c];
    assert c in all;
    forall m: nat, n: nat | IsWriteAt(h, m, n) && Before(m, n, i, j + 1) ensures Listed(all, m, n) {
      if m != i || n != j {
        assert Listed(calls, m, n);
        var d :| d in calls && d.message == m && d.part == n;
        assert d in all;
      }
    }
    forall d | d in all ensures IsCallOf(d, h) && Before(d.message, d.part, i, j + 1) {
    }
  }

  method WriteCalls(h: History) returns (calls: seq<WriteCall>)
    ensures Lists(calls, h, |h|, 0)
  {
    calls := [];
    for i := 0 to |h|
      invariant Lists(calls, h, i, 0)
    {
      if h[i].Response? {
        for j := 0 to |h[i].parts|
          invariant Lists(calls, h, i, j)
        {
          var p := h[i].parts[j];
          if IsWrite(p) {
            var c := WriteCall(i, j, p.callId, p.args.path.value, p.args.content.value);
            ListsNext(calls, h, i, j, c);
            calls := calls + [c];
          }
        }
      }
    }
  }

  /** The message indices of confirmed returns by call id, in order. */
  ghost predicate Indexes(locations: map<string, seq<nat>>, h: History, n: nat) {
    forall callId, k: nat :: Has(locations, callId, k) <==> k < n && ReturnAt(h, k, callId)
  }

  predicate Has(locations: map<string, seq<nat>>, callId: string, k: nat) {
    callId in locations && k in locations[callId]
  }

  /** As `Indexes`, with the first `j` parts of message `i` read too. */
  ghost predicate IndexesInto(locations: map<string, seq<nat>>, h: History, i: nat, j: nat)
    requires i < |h| && j <= |h[i].parts|
  {
    forall callId, k: nat ::
      (Has(locations, callId, k) <==>
       (k < i && ReturnAt(h, k, callId)) || (k == i && ConfirmedIn(h[i].parts[..j], callId)))
  }

  ghost predicate ConfirmedIn(parts: seq<Part>, callId: string) {
    exists p :: p in parts && Confirms(p, callId)
  }

  function Record(locations: map<string, seq<nat>>, callId: string, i: nat): map<string, seq<nat>> {
    locations[callId := (if callId in locations then locations[callId] else []) + [i]]
  }

  lemma IndexesStep(locations: map<string, seq<nat>>, h: History, i: nat, j: nat)
    requires i < |h| && j < |h[i].parts| && IndexesInto(locations, h, i, j)
    ensures var p := h[i].parts[j];
      IndexesInto(if p.Return? && p.tool == WRITE_FILE && p.confirmed
                  then Record(locations, p.callId, i) else locations,
                  h, i, j + 1)
  {
    var p := h[i].parts[j];
    assert h[i].parts[..j + 1] == h[i].parts[..j] + [p];
    forall callId
      ensures ConfirmedIn(h[i].parts[..j + 1], callId) <==> ConfirmedIn(h[i].parts[..j], callId) || Confirms(p, callId)
    {
      assert forall q :: q in h[i].parts[..j + 1] <==> q in h[i].parts[..j] || q == p;
    }
    if p.Return? && p.tool == WRITE_FILE && p.confirmed {
      var next := Record(locations, p.callId, i);
      forall callId, k: nat
        ensures Has(next, callId, k) <==>
          (k < i && ReturnAt(h, k, callId)) || (k == i && ConfirmedIn(h[i].parts[..j + 1], callId))
      {
        assert Has(next, callId, k) <==> Has(locations, callId, k) || (k == i && callId == p.callId);
        assert ConfirmedIn(h[i].parts[..j + 1], callId)
             <==> ConfirmedIn(h[i].parts[..j], callId) || Confirms(p, callId);
      }
    }
  }

  method SuccessfulReturnLocations(h: History) returns (locations: map<string, seq<nat>>)
    ensures Indexes(locations, h, |h|)
  {
    locations := map[];
    for i := 0 to |h|
      invariant Indexes(locations, h, i)
    {
      if h[i].Request? {
        assert forall callId :: !ConfirmedIn(h[i].parts[..0], callId);
        for j := 0 to |h[i].parts|
          invariant IndexesInto(locations, h, i, j)
        {
          var p := h[i].parts[j];
          IndexesStep(locations, h, i, j);
          if p.Return? && p.tool == WRITE_FILE && p.confirmed {
            locations := Record(locations, p.callId, i);
          }
        }
        assert h[i].parts[..|h[i].parts|] == h[i].parts;
      }
    }
  }

  predicate CompletedAfter(c: WriteCall, locations: map<string, seq<nat>>) {
    c.callId in locations && exists k :: k in locations[c.callId] && k > c.message
  }

  lemma CompletedAfterIsCompleted(c: WriteCall, locations: map<string, seq<nat>>, h: History)
    requires IsCallOf(c, h) && Indexes(locations, h, |h|)
    ensures CompletedAfter(c, locations) <==> Completed(h, c.message, c.part)
  {
    if CompletedAfter(c, locations) {
      var k :| k in locations[c.callId] && k > c.message;
      assert Has(locations, c.callId, k);
    }
    if Completed(h, c.message, c.part) {
      var k: nat :| k > c.message && ReturnAt(h, k, c.callId);
      assert Has(locations, c.callId, k);
    }
  }

  /** Some call after the `n`-th completed a write to `path`. */
  ghost predicate SeenFrom(calls: seq<WriteCall>, n: nat, locations: map<string, seq<nat>>, path: string) {
    exists m :: n <= m < |calls| && CompletedAfter(calls[m], locations) && calls[m].path == path
  }

  ghost predicate MarkedFrom(calls: seq<WriteCall>, n: nat, locations: map<string, seq<nat>>, at: (nat, nat)) {
    exists m :: n <= m < |calls| && at == (calls[m].message, calls[m].part)
      && CompletedAfter(calls[m], locations) && |calls[m].content| > |SUPERSEDED|
      && SeenFrom(calls, m + 1, locations, calls[m].path)
  }

  /** The reversed loop: remember the paths with a later completed write, mark what they supersede. */
  method MarkSuperseded(calls: seq<WriteCall>, locations: map<string, seq<nat>>) returns (marked: set<(nat, nat)>)
    ensures forall at :: at in marked <==> MarkedFrom(calls, 0, locations, at)
  {
    var seen: set<string> := {};
    marked := {};
    var n := |calls|;
    while n > 0
      invariant 0 <= n <= |calls|
      invariant forall path :: path in seen <==> SeenFrom(calls, n, locations, path)
      invariant forall at :: at in marked <==> MarkedFrom(calls, n, locations, at)
    {
      n := n - 1;
      var c := calls[n];
      SeenStep(calls, n, locations);
      MarkedStep(calls, n, locations);
      if CompletedAfter(c, locations) {
        if c.path in seen && |c.content| > |SUPERSEDED| {
          marked := marked + {(c.message, c.part)};
        }
        seen := seen + {c.path};
      }
    }
  }

  lemma SeenStep(calls: seq<WriteCall>, n: nat, locations: map<string, seq<nat>>)
    requires n < |calls|
    ensures forall path ::
      (SeenFrom(calls, n, locations, path) <==>
       SeenFrom(calls, n + 1, locations, path) || (CompletedAfter(calls[n], locations) && calls[n].path == path))
  {
  }

  lemma MarkedStep(calls: seq<WriteCall>, n: nat, locations: map<string, seq<nat>>)
    requires n < |calls|
    ensures forall at ::
      (MarkedFrom(calls, n, locations, at) <==>
       MarkedFrom(calls, n + 1, locations, at)
       || (at == (calls[n].message, calls[n].part) && CompletedAfter(calls[n], locations)
           && |calls[n].content| > |SUPERSEDED| && SeenFrom(calls, n + 1, locations, calls[n].path)))
  {
  }

  lemma MarkedThenSuperseded(calls: seq<WriteCall>, locations: map<string, seq<nat>>, h: History, i: nat, j: nat)
    requires Lists(calls, h, |h|, 0) && Indexes(locations, h, |h|)
    requires MarkedFrom(calls, 0, locations, (i, j))
    ensures IsSuperseded(h, i, j)
  {
    var m :| 0 <= m < |calls| && (i, j) == (calls[m].message, calls[m].part)
      && CompletedAfter(calls[m], locations) && |calls[m].content| > |SUPERSEDED|
      && SeenFrom(calls, m + 1, locations, calls[m].path);
    var l :| m + 1 <= l < |calls| && CompletedAfter(calls[l], locations) && calls[l].path == calls[m].path;
    assert calls[m] in calls && calls[l] in calls;
    CompletedAfterIsCompleted(calls[m], locations, h);
    CompletedAfterIsCompleted(calls[l], locations, h);
    assert Before(i, j, calls[l].message, calls[l].part);
    assert RewrittenAfter(h, i, j);
  }

  lemma SupersededThenMarked(calls: seq<WriteCall>, locations: map<string, seq<nat>>, h: History, i: nat, j: nat)
    requires Lists(calls, h, |h|, 0) && Indexes(locations, h, |h|)
    requires IsSuperseded(h, i, j)
    ensures MarkedFrom(calls, 0, locations, (i, j))
  {
    var i': nat, j': nat :| Before(i, j, i', j') && Completed(h, i', j') && PathAt(h, i', j') == PathAt(h, i, j);
    var m, l := IndexOfCall(calls, h, i, j), IndexOfCall(calls, h, i', j');
    CompletedAfterIsCompleted(calls[m], locations, h);
    CompletedAfterIsCompleted(calls[l], locations, h);
    assert l < m ==> Before(calls[l].message, calls[l].part, calls[m].message, calls[m].part);
    assert SeenFrom(calls, m + 1, locations, calls[m].path);
  }

  /** What the loop marks is what the rule calls superseded. */
  lemma MarkedIsSuperseded(calls: seq<WriteCall>, locations: map<string, seq<nat>>, h: History, i: nat, j: nat)
    requires Lists(calls, h, |h|, 0) && Indexes(locations, h, |h|)
    ensures MarkedFrom(calls, 0, locations, (i, j)) <==> IsSuperseded(h, i, j)
  {
    if MarkedFrom(calls, 0, locations, (i, j)) {
      MarkedThenSuperseded(calls, locations, h, i, j);
    } else if IsSuperseded(h, i, j) {
      SupersededThenMarked(calls, locations, h, i, j);
    }
  }

  ghost function IndexOfCall(calls: seq<WriteCall>, h: History, i: nat, j: nat): (m: nat)
    requires Lists(calls, h, |h|, 0) && IsWriteAt(h, i, j)
    ensures m < |calls| && calls[m].message == i && calls[m].part == j && calls[m] in calls
  {
    assert Listed(calls, i, j);
    var c :| c in calls && c.message == i && c.part == j;
    var m :| 0 <= m < |calls| && calls[m] == c;
    m
  }

  /** `compact_superseded_write_content`. */
  method CompactSupersededWriteContent(h: History) returns (r: History)
    ensures IsCompacted(h, r)
  {
    var calls := WriteCalls(h);
    var locations := SuccessfulReturnLocations(h);
    var marked := MarkSuperseded(calls, locations);
    forall i: nat, j: nat ensures (i, j) in marked <==> IsSuperseded(h, i, j) {
      MarkedIsSuperseded(calls, locations, h, i, j);
    }
    r := [];
    for i := 0 to |h|
      invariant |r| == i
      invariant forall m: nat :: m < i ==>
        && r[m].Request? == h[m].Request? && |r[m].parts| == |h[m].parts|
        && forall n: nat :: n < |h[m].parts| ==> r[m].parts[n] == CompactedPart(h, m, n)
    {
      var message := CompactMessage(h, i, marked);
      r := r + [message];
    }
  }

  method CompactMessage(h: History, i: nat, marked: set<(nat, nat)>) returns (message: Message)
    requires i < |h| && forall m: nat, n: nat :: (m, n) in marked <==> IsSuperseded(h, m, n)
    ensures message.Request? == h[i].Request? && |message.parts| == |h[i].parts|
    ensures forall n: nat :: n < |h[i].parts| ==> message.parts[n] == CompactedPart(h, i, n)
  {
    if h[i].Request? {
      return h[i];
    }
    var parts: seq<Part> := [];
    for j := 0 to |h[i].parts|
      invariant |parts| == j
      invariant forall n: nat :: n < j ==> parts[n] == CompactedPart(h, i, n)
    {
      var p := h[i].parts[j];
      if (i, j) in marked {
        p := Emptied(p);
      }
      parts := parts + [p];
    }
    message := Response(parts);
  }
}

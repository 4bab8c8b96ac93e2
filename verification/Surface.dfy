/** What a model currently sees of an append-only log: the surface derived from compaction events
    (packages/events/src/thymira/events/surface.py). */
module Surface {
  import opened Options
  import opened Positions

  /** One entry of a compaction's payload list: an integer, or anything else. */
  datatype Raw = Int(n: int) | Junk

  /** `compacts` is present on `context.compacted` events; a payload that is no list reads as empty. */
  datatype Event = Event(seqNo: int, modelVisible: bool, compacts: Option<seq<Raw>>)

  datatype State = Current | Shadowed | LogOnly

  /** The integers of the payload; everything else is ignored. */
  function ShadowedSeqs(raw: seq<Raw>): (r: seq<int>)
    ensures forall s :: s in r <==> Int(s) in raw
  {
    if raw == [] then []
    else (if raw[0].Int? then [raw[0].n] else []) + ShadowedSeqs(raw[1..])
  }

  /** The event is a compaction naming `s`, and `s` precedes it. */
  predicate Shadows(c: Event, s: int) {
    c.compacts.Some? && Int(s) in c.compacts.value && s < c.seqNo
  }

  predicate NamedBy(events: seq<Event>, s: int) {
    exists c :: c in events && Shadows(c, s)
  }

  predicate Occurs(events: seq<Event>, s: int) {
    exists e :: e in events && e.seqNo == s
  }

  /** The last event numbered `s` may be shown to a model. */
  ghost predicate VisibleAt(events: seq<Event>, s: int) {
    exists i :: 0 <= i < |events| && events[i].seqNo == s && events[i].modelVisible
      && forall j :: i < j < |events| ==> events[j].seqNo != s
  }

  /** The classification: shadowed exactly when visible and named by a later compaction. */
  ghost function StateOf(events: seq<Event>, s: int): State {
    if !VisibleAt(events, s) then LogOnly else if NamedBy(events, s) then Shadowed else Current
  }

  ghost predicate IsDerived(state: map<int, State>, events: seq<Event>) {
    && (forall s :: s in state <==> Occurs(events, s))
    && (forall s :: s in state ==> state[s] == StateOf(events, s))
  }

  ghost predicate UniqueSeqs(events: seq<Event>) {
    forall i, j :: 0 <= i < j < |events| ==> events[i].seqNo != events[j].seqNo
  }

  lemma VisibleStep(events: seq<Event>, e: Event, s: int)
    ensures VisibleAt(events + [e], s) <==> if e.seqNo == s then e.modelVisible else VisibleAt(events, s)
  {
    var all, n := events + [e], |events|;
    assert all[n] == e;
    if e.seqNo != s {
      if VisibleAt(events, s) {
        var i :| 0 <= i < n && events[i].seqNo == s && events[i].modelVisible
          && forall j :: i < j < n ==> events[j].seqNo != s;
        assert all[i] == events[i];
      }
      if VisibleAt(all, s) {
        var i :| 0 <= i <= n && all[i].seqNo == s && all[i].modelVisible
          && forall j :: i < j < |all| ==> all[j].seqNo != s;
        assert events[i] == all[i];
        forall j | i < j < n ensures events[j].seqNo != s { assert all[j].seqNo != s; }
      }
    }
  }

  /** The two passes of the source: classify by surface, then walk the compactions. */
  method DeriveSurface(events: seq<Event>) returns (state: map<int, State>)
    ensures IsDerived(state, events)
  {
    state := map[];
    for i := 0 to |events|
      invariant forall s :: s in state <==> Occurs(events[..i], s)
      invariant forall s :: s in state ==> state[s] == if VisibleAt(events[..i], s) then Current else LogOnly
    {
      var e := events[i];
      assert events[..i + 1] == events[..i] + [e];
      forall s
        ensures VisibleAt(events[..i + 1], s) <==> if e.seqNo == s then e.modelVisible else VisibleAt(events[..i], s)
      {
        VisibleStep(events[..i], e, s);
      }
      forall s ensures Occurs(events[..i + 1], s) <==> Occurs(events[..i], s) || e.seqNo == s {
        assert e in events[..i + 1];
      }
      state := state[e.seqNo := if e.modelVisible then Current else LogOnly];
    }
    assert events[..|events|] == events;
    for i := 0 to |events|
      invariant forall s :: s in state <==> Occurs(events, s)
      invariant forall s :: s in state ==>
        state[s] == if !VisibleAt(events, s) then LogOnly else if NamedBy(events[..i], s) then Shadowed else Current
    {
      var c := events[i];
      assert events[..i + 1] == events[..i] + [c];
      forall s ensures NamedBy(events[..i + 1], s) <==> NamedBy(events[..i], s) || Shadows(c, s) {
        assert c in events[..i + 1];
      }
      if c.compacts.Some? {
        state := ShadowNamed(state, ShadowedSeqs(c.compacts.value), c.seqNo);
      }
    }
  }

  /** One compaction's inner loop. */
  method ShadowNamed(before: map<int, State>, seqs: seq<int>, byNo: int) returns (state: map<int, State>)
    ensures state.Keys == before.Keys
    ensures forall s :: s in state ==>
      state[s] == if before[s] == Current && s in seqs && s < byNo then Shadowed else before[s]
  {
    state := before;
    for i := 0 to |seqs|
      invariant state.Keys == before.Keys
      invariant forall s :: s in state ==>
        state[s] == if before[s] == Current && s in seqs[..i] && s < byNo then Shadowed else before[s]
    {
      assert seqs[..i + 1] == seqs[..i] + [seqs[i]];
      if seqs[i] < byNo && seqs[i] in state && state[seqs[i]] == Current {
        state := state[seqs[i] := Shadowed];
      }
    }
    assert seqs[..|seqs|] == seqs;
  }

  // ---- The current surface, and the log growing ----

  /** The events of `part` that are current in the log `events`, in order. */
  ghost function CurrentIn(part: seq<Event>, events: seq<Event>): seq<Event> {
    if part == [] then []
    else
      var front := CurrentIn(part[..|part| - 1], events);
      var e := part[|part| - 1];
      if StateOf(events, e.seqNo) == Current then front + [e] else front
  }

  /** The surface is exactly the current events, in log order. */
  ghost predicate IsSurface(surface: seq<Event>, events: seq<Event>) {
    exists at: seq<nat> :: PositionsOf(|events|, CurrentAt(events), at) && Picked(events, at, surface)
  }

  /** Whether the event at a position is current. */
  ghost function CurrentAt(events: seq<Event>): nat -> bool {
    (k: nat) => k < |events| && StateOf(events, events[k].seqNo) == Current
  }

  lemma {:induction false} CurrentPositions(events: seq<Event>, holds: nat -> bool, n: nat) returns (at: seq<nat>)
    requires n <= |events| && holds == CurrentAt(events)
    ensures PositionsOf(n, holds, at) && Picked(events, at, CurrentIn(events[..n], events))
  {
    if n == 0 {
      at := [];
    } else {
      at := CurrentPositions(events, holds, n - 1);
      PositionsGrow(n - 1, holds, at);
      PickedGrows(events, at, CurrentIn(events[..n - 1], events), n - 1);
      CurrentInStep(events, holds, n - 1);
      if holds(n - 1) { at := at + [n - 1]; }
    }
  }

  lemma CurrentInStep(events: seq<Event>, holds: nat -> bool, n: nat)
    requires n < |events| && holds == CurrentAt(events)
    ensures CurrentIn(events[..n + 1], events)
         == if holds(n) then CurrentIn(events[..n], events) + [events[n]] else CurrentIn(events[..n], events)
  {
    assert events[..n + 1][..n] == events[..n];
  }

  method CurrentSurface(events: seq<Event>) returns (surface: seq<Event>)
    ensures surface == CurrentIn(events, events)
    ensures IsSurface(surface, events)
  {
    var state := DeriveSurface(events);
    surface := [];
    for i := 0 to |events|
      invariant surface == CurrentIn(events[..i], events)
    {
      assert events[..i + 1][..i] == events[..i];
      assert Occurs(events, events[i].seqNo);
      if state[events[i].seqNo] == Current {
        surface := surface + [events[i]];
      }
    }
    assert events[..|events|] == events;
    ghost var at := CurrentPositions(events, CurrentAt(events), |events|);
  }

  /** On a log with unique numbers an event is shadowed exactly when it is model-visible and some
      compaction with a higher number names it. */
  lemma ShadowedExactly(events: seq<Event>, e: Event)
    requires UniqueSeqs(events) && e in events
    ensures StateOf(events, e.seqNo) == Shadowed
       <==> e.modelVisible && exists c :: c in events && Shadows(c, e.seqNo)
    ensures StateOf(events, e.seqNo) == LogOnly <==> !e.modelVisible
  {
    var i :| 0 <= i < |events| && events[i] == e;
    assert forall j :: i < j < |events| ==> events[j].seqNo != e.seqNo;
    forall k | 0 <= k < |events| && events[k].seqNo == e.seqNo ensures k == i {
      assert k < i || k == i || i < k;
    }
  }

  /** As the log grows by events with new numbers, log-only and shadowed never revert, and a current
      event becomes shadowed exactly when a new compaction names it. */
  lemma {:induction false} StatesOnlyShadow(events: seq<Event>, more: seq<Event>, s: int)
    requires Occurs(events, s) && !Occurs(more, s)
    ensures StateOf(events + more, s)
         == if StateOf(events, s) == Current && NamedBy(more, s) then Shadowed else StateOf(events, s)
  {
    VisibleUnaffected(events, more, s);
    assert forall c :: c in events + more <==> c in events || c in more;
  }

  lemma {:induction false} VisibleUnaffected(events: seq<Event>, more: seq<Event>, s: int)
    requires !Occurs(more, s)
    ensures VisibleAt(events + more, s) <==> VisibleAt(events, s)
  {
    if more == [] {
      assert events + more == events;
    } else {
      var n := |more| - 1;
      assert events + more == (events + more[..n]) + [more[n]];
      assert more == more[..n] + [more[n]] && more[n] in more;
      VisibleUnaffected(events, more[..n], s);
      VisibleStep(events + more[..n], more[n], s);
    }
  }

  /** The events of a surface that no compaction of `more` names, in order. */
  ghost function Survivors(surface: seq<Event>, more: seq<Event>): seq<Event> {
    if surface == [] then []
    else
      var front := Survivors(surface[..|surface| - 1], more);
      var e := surface[|surface| - 1];
      if NamedBy(more, e.seqNo) then front else front + [e]
  }

  /** The surface of the grown log is the old surface, in order, less what new compactions name,
      followed by what is current among the new events. Old positions change in no other way. */
  lemma SurfaceGrowth(events: seq<Event>, more: seq<Event>)
    requires forall e :: e in events ==> !Occurs(more, e.seqNo)
    ensures CurrentIn(events + more, events + more)
         == Survivors(CurrentIn(events, events), more) + CurrentIn(more, events + more)
  {
    CurrentInConcat(events, more, events + more);
    OldSurfaceSurvives(events, events, more);
  }

  lemma {:induction false} CurrentInConcat(a: seq<Event>, b: seq<Event>, events: seq<Event>)
    ensures CurrentIn(a + b, events) == CurrentIn(a, events) + CurrentIn(b, events)
  {
    if b == [] {
      assert a + b == a;
    } else {
      var n := |b| - 1;
      assert (a + b)[..|a| + n] == a + b[..n];
      CurrentInConcat(a, b[..n], events);
    }
  }

  lemma {:induction false} OldSurfaceSurvives(part: seq<Event>, events: seq<Event>, more: seq<Event>)
    requires forall e :: e in part ==> e in events
    requires forall e :: e in events ==> !Occurs(more, e.seqNo)
    ensures CurrentIn(part, events + more) == Survivors(CurrentIn(part, events), more)
  {
    if part != [] {
      var front, e := part[..|part| - 1], part[|part| - 1];
      assert part == front + [e];
      OldSurfaceSurvives(front, events, more);
      assert e in part && Occurs(events, e.seqNo);
      StatesOnlyShadow(events, more, e.seqNo);
      var before := CurrentIn(front, events);
      assert (before + [e])[..|before|] == before;
    }
  }
}

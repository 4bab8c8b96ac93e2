/** Merging and recovering source checkpoints: facts keep their identity and never lose revision,
    however the pieces of a log are grouped (runtime/agents/src/thymira/agents/context_recovery.py). */
module Checkpoints {
  import opened Options
  import opened Unique
  import opened Positions

  // ---- The order of strings ----

  /** `a <= b` by code points. */
  predicate StrLeq(a: string, b: string) {
    a == "" || (b != "" && (a[0] < b[0] || (a[0] == b[0] && StrLeq(a[1..], b[1..]))))
  }

  lemma {:induction false} StrLeqTotal(a: string, b: string)
    ensures StrLeq(a, b) || StrLeq(b, a)
    ensures StrLeq(a, b) && StrLeq(b, a) ==> a == b
  {
    if a != "" && b != "" && a[0] == b[0] {
      StrLeqTotal(a[1..], b[1..]);
      assert a == [a[0]] + a[1..] && b == [b[0]] + b[1..];
    }
  }

  lemma {:induction false} StrLeqTransitive(a: string, b: string, c: string)
    requires StrLeq(a, b) && StrLeq(b, c)
    ensures StrLeq(a, c)
  {
    if a != "" && a[0] == b[0] && b[0] == c[0] {
      StrLeqTransitive(a[1..], b[1..], c[1..]);
    }
  }

  ghost predicate IsLeast(m: string, s: set<string>) {
    m in s && forall k :: k in s ==> StrLeq(m, k)
  }

  lemma {:induction false} FindLeast(s: set<string>) returns (m: string)
    requires s != {}
    ensures IsLeast(m, s) && forall n :: IsLeast(n, s) ==> n == m
  {
    var x :| x in s;
    m := x;
    if s == {x} {
      StrLeqTotal(x, x);
    } else {
      m := FindLeast(s - {x});
      StrLeqTotal(x, m);
      if StrLeq(x, m) {
        forall k | k in s ensures StrLeq(x, k) {
          StrLeqTotal(x, x);
          if k != x { StrLeqTransitive(x, m, k); }
        }
        m := x;
      }
    }
    forall n | IsLeast(n, s) ensures n == m { StrLeqTotal(n, m); }
  }

  lemma SomeLeast(s: set<string>)
    requires s != {}
    ensures exists m :: IsLeast(m, s)
  {
    var m := FindLeast(s);
  }

  ghost function Least(s: set<string>): (m: string)
    requires s != {}
    ensures IsLeast(m, s)
  {
    SomeLeast(s);
    var m :| IsLeast(m, s); m
  }

  /** `sorted(keys)`. */
  ghost function SortedKeys(s: set<string>): (r: seq<string>)
    ensures |r| == |s| && forall k :: k in r <==> k in s
    decreases |s|
  {
    if s == {} then [] else [Least(s)] + SortedKeys(s - {Least(s)})
  }

  ghost predicate Ascending(keys: seq<string>) {
    forall i, j :: 0 <= i < j < |keys| ==> StrLeq(keys[i], keys[j]) && keys[i] != keys[j]
  }

  lemma {:induction false} SortedKeysAscend(s: set<string>)
    ensures Ascending(SortedKeys(s))
    decreases |s|
  {
    if s != {} {
      SortedKeysAscend(s - {Least(s)});
      var r := SortedKeys(s);
      forall j | 0 < j < |r| ensures r[j] in s - {Least(s)} {
        assert r[j] in SortedKeys(s - {Least(s)});
      }
    }
  }

  // ---- Facts ----

  datatype Fact = Fact(key: string, value: string, revision: nat, sourceSeq: nat, kind: string)

  /** `(a.revision, a.source_seq, a.value) >= (b.revision, b.source_seq, b.value)`. */
  predicate AtLeast(a: Fact, b: Fact) {
    || a.revision > b.revision
    || (a.revision == b.revision &&
         (a.sourceSeq > b.sourceSeq || (a.sourceSeq == b.sourceSeq && StrLeq(b.value, a.value))))
  }

  lemma AtLeastOrders(a: Fact, b: Fact, c: Fact)
    ensures AtLeast(a, a) && (AtLeast(a, b) || AtLeast(b, a))
    ensures AtLeast(a, b) && AtLeast(b, c) ==> AtLeast(a, c)
  {
    StrLeqTotal(a.value, a.value);
    StrLeqTotal(a.value, b.value);
    if StrLeq(b.value, a.value) && StrLeq(c.value, b.value) {
      StrLeqTransitive(c.value, b.value, a.value);
    }
  }

  type Facts = map<string, Fact>

  /** One step of the selection: a later fact of a key wins ties. */
  function Select(selected: Facts, f: Fact): Facts {
    if f.key !in selected || AtLeast(f, selected[f.key]) then selected[f.key := f] else selected
  }

  function Selected(facts: seq<Fact>): (m: Facts)
    ensures forall k :: k in m ==> m[k].key == k && m[k] in facts
  {
    if facts == [] then map[]
    else
      var n := |facts| - 1;
      assert forall f :: f in facts[..n] ==> f in facts;
      Select(Selected(facts[..n]), facts[n])
  }

  /** Two selections, the right one winning ties. */
  function Join(a: Facts, b: Facts): Facts {
    map k | k in a.Keys + b.Keys ::
      if k !in a then b[k] else if k !in b then a[k] else if AtLeast(b[k], a[k]) then b[k] else a[k]
  }

  lemma JoinSelect(a: Facts, b: Facts, f: Fact)
    ensures Join(a, Select(b, f)) == Select(Join(a, b), f)
  {
    if f.key in a && f.key in b {
      AtLeastOrders(f, b[f.key], a[f.key]);
      AtLeastOrders(a[f.key], b[f.key], f);
      AtLeastOrders(f, a[f.key], b[f.key]);
      AtLeastOrders(b[f.key], a[f.key], f);
    }
  }

  lemma SelectedStep(facts: seq<Fact>, f: Fact)
    ensures Selected(facts + [f]) == Select(Selected(facts), f)
  {
    assert (facts + [f])[..|facts|] == facts;
  }

  lemma {:induction false} SelectedJoins(a: seq<Fact>, b: seq<Fact>)
    ensures Selected(a + b) == Join(Selected(a), Selected(b))
  {
    if b == [] {
      assert a + b == a;
      assert Join(Selected(a), map[]) == Selected(a);
    } else {
      var front, last := b[..|b| - 1], b[|b| - 1];
      assert b == front + [last] && a + b == (a + front) + [last];
      SelectedJoins(a, front);
      SelectedStep(a + front, last);
      SelectedStep(front, last);
      JoinSelect(Selected(a), Selected(front), last);
    }
  }

  lemma JoinAssociates(a: Facts, b: Facts, c: Facts)
    ensures Join(Join(a, b), c) == Join(a, Join(b, c))
  {
    var l, r := Join(Join(a, b), c), Join(a, Join(b, c));
    forall k | k in l ensures l[k] == r[k] {
      if k in a && k in b && k in c {
        AtLeastOrders(c[k], b[k], a[k]);
        AtLeastOrders(a[k], b[k], c[k]);
        AtLeastOrders(b[k], a[k], c[k]);
        AtLeastOrders(c[k], a[k], b[k]);
      }
    }
  }

  /** `selected[key] for key in sorted(selected)`. */
  ghost function InKeyOrder(m: Facts): (r: seq<Fact>)
    ensures |r| == |m.Keys|
  {
    var keys := SortedKeys(m.Keys);
    seq(|keys|, i requires 0 <= i < |keys| => assert keys[i] in keys; m[keys[i]])
  }

  ghost predicate Keyed(m: Facts) {
    forall k :: k in m ==> m[k].key == k
  }

  lemma InKeyOrderHolds(m: Facts)
    requires Keyed(m)
    ensures forall f :: f in InKeyOrder(m) <==> f.key in m && m[f.key] == f
    ensures forall i, j :: 0 <= i < j < |InKeyOrder(m)| ==>
         StrLeq(InKeyOrder(m)[i].key, InKeyOrder(m)[j].key) && InKeyOrder(m)[i].key != InKeyOrder(m)[j].key
  {
    var keys, r := SortedKeys(m.Keys), InKeyOrder(m);
    SortedKeysAscend(m.Keys);
    forall i | 0 <= i < |r| ensures r[i].key == keys[i] && r[i] == m[keys[i]] { assert keys[i] in keys; }
    forall f: Fact | f.key in m && m[f.key] == f ensures f in r {
      var i :| 0 <= i < |keys| && keys[i] == f.key;
      assert r[i] == f;
    }
  }

  lemma {:induction false} SelectedOfDistinct(facts: seq<Fact>)
    requires forall i, j :: 0 <= i < j < |facts| ==> facts[i].key != facts[j].key
    ensures forall f :: f in facts <==> f.key in Selected(facts) && Selected(facts)[f.key] == f
  {
    if facts != [] {
      var n := |facts| - 1;
      SelectedOfDistinct(facts[..n]);
      assert facts == facts[..n] + [facts[n]];
    }
  }

  /** Selecting from a selection listed in key order gives it back. */
  lemma SelectedInKeyOrder(m: Facts)
    requires Keyed(m)
    ensures Selected(InKeyOrder(m)) == m
  {
    InKeyOrderHolds(m);
    var r := InKeyOrder(m);
    SelectedOfDistinct(r);
    forall k | k in m ensures k in Selected(r) && Selected(r)[k] == m[k] { assert m[k] in r; }
    forall k | k in Selected(r) ensures k in m { assert Selected(r)[k] in r; }
  }

  // ---- Checkpoints ----

  /** The eight fixed sections, in their fixed order. */
  type Sections = s: seq<string> | |s| == 8 witness ["", "", "", "", "", "", "", ""]

  datatype Checkpoint = Checkpoint(
    sections: Sections,
    facts: seq<Fact>,
    sourceSeqs: seq<nat>,
    sourceEventIds: seq<string>,
    revision: nat,
    continuationHeader: string)

  function MergedSections(prior: Sections, current: Sections): Sections {
    seq(8, i requires 0 <= i < 8 => if current[i] != "" then current[i] else prior[i])
  }

  function Max(a: nat, b: nat): nat {
    if a < b then b else a
  }

  ghost function Merge(prior: Checkpoint, current: Checkpoint): Checkpoint {
    Checkpoint(
      MergedSections(prior.sections, current.sections),
      InKeyOrder(Selected(prior.facts + current.facts)),
      FirstOccurrences([], prior.sourceSeqs + current.sourceSeqs),
      FirstOccurrences([], prior.sourceEventIds + current.sourceEventIds),
      Max(prior.revision, current.revision),
      current.continuationHeader)
  }

  /** The selecting loop. */
  method SelectFacts(all: seq<Fact>) returns (selected: Facts)
    ensures selected == Selected(all)
  {
    selected := map[];
    for i := 0 to |all|
      invariant selected == Selected(all[..i])
    {
      var fact := all[i];
      assert all[..i + 1][..i] == all[..i];
      if fact.key !in selected || AtLeast(fact, selected[fact.key]) {
        selected := selected[fact.key := fact];
      }
    }
    assert all[..|all|] == all;
  }

  /** `merge_checkpoints`: the selecting loop, then the facts listed by sorted key. */
  method MergeCheckpoints(prior: Checkpoint, current: Checkpoint) returns (merged: Checkpoint)
    ensures merged == Merge(prior, current)
  {
    var selected := SelectFacts(prior.facts + current.facts);
    var facts := ListByKey(selected);
    merged := Checkpoint(
      MergedSections(prior.sections, current.sections),
      facts,
      FirstOccurrences([], prior.sourceSeqs + current.sourceSeqs),
      FirstOccurrences([], prior.sourceEventIds + current.sourceEventIds),
      Max(prior.revision, current.revision),
      current.continuationHeader);
  }

  method ListByKey(selected: Facts) returns (facts: seq<Fact>)
    requires Keyed(selected)
    ensures facts == InKeyOrder(selected)
  {
    var keys := SortKeys(selected.Keys);
    facts := [];
    for i := 0 to |keys|
      invariant |facts| == i
      invariant forall j :: 0 <= j < i ==> keys[j] in selected && facts[j] == selected[keys[j]]
    {
      assert keys[i] in keys;
      facts := facts + [selected[keys[i]]];
    }
    ListedInKeyOrder(selected, keys, facts);
  }

  method SortKeys(s: set<string>) returns (keys: seq<string>)
    ensures keys == SortedKeys(s)
  {
    var rest := s;
    keys := [];
    ghost var all := SortedKeys(s);
    assert all == [] + SortedKeys(rest);
    while rest != {}
      invariant all == keys + SortedKeys(rest)
      decreases |rest|
    {
      var least := TakeLeast(rest);
      SortedKeysStep(all, keys, rest);
      keys := keys + [least];
      rest := rest - {least};
    }
    assert keys + [] == keys;
  }

  lemma ListedInKeyOrder(m: Facts, keys: seq<string>, facts: seq<Fact>)
    requires keys == SortedKeys(m.Keys) && |facts| == |keys|
    requires forall i :: 0 <= i < |facts| ==> keys[i] in m && facts[i] == m[keys[i]]
    ensures facts == InKeyOrder(m)
  {
  }

  lemma SortedKeysStep(all: seq<string>, keys: seq<string>, rest: set<string>)
    requires rest != {} && all == keys + SortedKeys(rest)
    ensures all == keys + [Least(rest)] + SortedKeys(rest - {Least(rest)})
  {
  }

  method TakeLeast(s: set<string>) returns (least: string)
    requires s != {}
    ensures least == Least(s)
  {
    least :| least in s;
    var rest := s - {least};
    StrLeqTotal(least, least);
    while rest != {}
      invariant least in s && rest <= s && least !in rest
      invariant forall k :: k in s - rest ==> StrLeq(least, k)
      decreases |rest|
    {
      var x :| x in rest;
      StrLeqTotal(x, least);
      rest := rest - {x};
      if StrLeq(x, least) {
        StrLeqTotal(x, x);
        forall k | k in s - rest ensures StrLeq(x, k) {
          if k != x { StrLeqTransitive(x, least, k); }
        }
        least := x;
      }
    }
    var m := FindLeast(s);
    assert IsLeast(least, s);
  }

  /** Every fact of either side survives under its key at no lower revision, source and value; every
      merged fact comes from one side; keys are distinct and sorted; the revision never falls. */
  lemma MergeKeepsFacts(prior: Checkpoint, current: Checkpoint)
    ensures var m := Merge(prior, current);
      && (forall f :: f in prior.facts || f in current.facts ==>
            exists g :: g in m.facts && g.key == f.key && AtLeast(g, f))
      && (forall g :: g in m.facts ==> g in prior.facts || g in current.facts)
      && (forall i, j :: 0 <= i < j < |m.facts| ==>
            StrLeq(m.facts[i].key, m.facts[j].key) && m.facts[i].key != m.facts[j].key)
      && m.revision >= prior.revision && m.revision >= current.revision
  {
    var all := prior.facts + current.facts;
    InKeyOrderHolds(Selected(all));
    forall f | f in all
      ensures exists g :: g in Merge(prior, current).facts && g.key == f.key && AtLeast(g, f)
    {
      SelectedIsGreatest(all, f);
      assert Selected(all)[f.key] in InKeyOrder(Selected(all));
    }
  }

  lemma {:induction false} SelectedIsGreatest(facts: seq<Fact>, f: Fact)
    requires f in facts
    ensures f.key in Selected(facts) && AtLeast(Selected(facts)[f.key], f)
  {
    var n := |facts| - 1;
    assert facts == facts[..n] + [facts[n]];
    AtLeastOrders(f, f, f);
    if f in facts[..n] {
      SelectedIsGreatest(facts[..n], f);
      AtLeastOrders(facts[n], Selected(facts[..n])[f.key], f);
    } else if f.key in Selected(facts[..n]) {
      AtLeastOrders(f, Selected(facts[..n])[f.key], f);
    }
  }

  lemma MergeSelects(prior: Checkpoint, current: Checkpoint)
    ensures Selected(Merge(prior, current).facts) == Join(Selected(prior.facts), Selected(current.facts))
  {
    SelectedJoins(prior.facts, current.facts);
    SelectedInKeyOrder(Selected(prior.facts + current.facts));
  }

  /** Merging is associative, exactly: facts, sections, sources, revision and header. */
  lemma MergeAssociates(a: Checkpoint, b: Checkpoint, c: Checkpoint)
    ensures Merge(Merge(a, b), c) == Merge(a, Merge(b, c))
  {
    FactsAssociate(a, b, c);
    UniqueAssociates(a.sourceSeqs, b.sourceSeqs, c.sourceSeqs);
    UniqueAssociates(a.sourceEventIds, b.sourceEventIds, c.sourceEventIds);
    SectionsAssociate(a.sections, b.sections, c.sections);
  }

  lemma SectionsAssociate(a: Sections, b: Sections, c: Sections)
    ensures MergedSections(MergedSections(a, b), c) == MergedSections(a, MergedSections(b, c))
  {
  }

  lemma FactsAssociate(a: Checkpoint, b: Checkpoint, c: Checkpoint)
    ensures Selected(Merge(a, b).facts + c.facts) == Selected(a.facts + Merge(b, c).facts)
  {
    SelectedJoins(Merge(a, b).facts, c.facts);
    SelectedJoins(a.facts, Merge(b, c).facts);
    MergeSelects(a, b);
    MergeSelects(b, c);
    JoinAssociates(Selected(a.facts), Selected(b.facts), Selected(c.facts));
  }

  // ---- Recovery ----

  /** A log event as recovery reads it; `None` is a payload that is missing or fails the contract. */
  datatype LogEvent = Compacted(checkpoint: Option<Checkpoint>) | Other

  ghost function MergeRecovered(a: Option<Checkpoint>, b: Option<Checkpoint>): Option<Checkpoint> {
    if a.None? then b else if b.None? then a else Some(Merge(a.value, b.value))
  }

  function CheckpointOf(e: LogEvent): Option<Checkpoint> {
    if e.Compacted? then e.checkpoint else None
  }

  ghost function Recovered(events: seq<LogEvent>): Option<Checkpoint> {
    if events == [] then None
    else MergeRecovered(Recovered(events[..|events| - 1]), CheckpointOf(events[|events| - 1]))
  }

  /** `recover_checkpoint`. */
  method RecoverCheckpoint(events: seq<LogEvent>) returns (recovered: Option<Checkpoint>)
    ensures recovered == Recovered(events)
  {
    recovered := None;
    for i := 0 to |events|
      invariant recovered == Recovered(events[..i])
    {
      assert events[..i + 1][..i] == events[..i];
      var checkpoint := CheckpointOf(events[i]);
      if checkpoint.Some? {
        if recovered.None? {
          recovered := checkpoint;
        } else {
          var merged := MergeCheckpoints(recovered.value, checkpoint.value);
          recovered := Some(merged);
        }
      }
    }
    assert events[..|events|] == events;
  }

  lemma RecoveredStep(events: seq<LogEvent>)
    requires events != []
    ensures Recovered(events) == MergeRecovered(Recovered(events[..|events| - 1]), CheckpointOf(events[|events| - 1]))
  {
  }

  lemma MergeRecoveredAssociates(a: Option<Checkpoint>, b: Option<Checkpoint>, c: Option<Checkpoint>)
    ensures MergeRecovered(MergeRecovered(a, b), c) == MergeRecovered(a, MergeRecovered(b, c))
  {
    if a.Some? && b.Some? && c.Some? {
      MergeAssociates(a.value, b.value, c.value);
    }
  }

  /** Recovering a log in one pass is merging the recoveries of its two parts, wherever it is cut. */
  lemma {:induction false} RecoverySplits(xs: seq<LogEvent>, ys: seq<LogEvent>)
    ensures Recovered(xs + ys) == MergeRecovered(Recovered(xs), Recovered(ys))
  {
    if ys == [] {
      assert xs + ys == xs;
    } else {
      var n := |ys| - 1;
      RecoveredStep(xs + ys);
      RecoveredStep(ys);
      assert (xs + ys)[..|xs| + n] == xs + ys[..n];
      RecoverySplits(xs, ys[..n]);
      MergeRecoveredAssociates(Recovered(xs), Recovered(ys[..n]), CheckpointOf(ys[n]));
    }
  }

  // ---- What a recovered checkpoint holds, said of the log ----

  /** The valid checkpoints of the log, in order. */
  ghost function ValidOnes(events: seq<LogEvent>): seq<Checkpoint> {
    if events == [] then []
    else
      var own := CheckpointOf(events[|events| - 1]);
      ValidOnes(events[..|events| - 1]) + if own.Some? then [own.value] else []
  }

  ghost function ValidAt(events: seq<LogEvent>): nat -> bool {
    (k: nat) => k < |events| && events[k].Compacted? && events[k].checkpoint.Some?
  }

  ghost predicate TakenAt(events: seq<LogEvent>, at: seq<nat>, cs: seq<Checkpoint>) {
    |cs| == |at| && forall i :: 0 <= i < |at| ==> at[i] < |events| && events[at[i]] == Compacted(Some(cs[i]))
  }

  lemma ValidOnesStep(events: seq<LogEvent>, holds: nat -> bool, n: nat)
    requires 0 < n <= |events| && holds == ValidAt(events)
    ensures var e := events[n - 1];
      && (holds(n - 1) ==> e.Compacted? && e.checkpoint.Some?)
      && (holds(n - 1) <==> CheckpointOf(e).Some?)
      && Recovered(events[..n]) == MergeRecovered(Recovered(events[..n - 1]), CheckpointOf(e))
    ensures ValidOnes(events[..n]) == if holds(n - 1) then ValidOnes(events[..n - 1]) + [events[n - 1].checkpoint.value]
                                      else ValidOnes(events[..n - 1])
  {
    assert events[..n][..n - 1] == events[..n - 1];
  }

  lemma {:induction false} ValidOnesAt(events: seq<LogEvent>, holds: nat -> bool, n: nat) returns (at: seq<nat>)
    requires n <= |events| && holds == ValidAt(events)
    ensures PositionsOf(n, holds, at) && TakenAt(events, at, ValidOnes(events[..n]))
  {
    if n == 0 {
      at := [];
    } else {
      at := ValidOnesAt(events, holds, n - 1);
      var cs, last: nat := ValidOnes(events[..n - 1]), n - 1;
      PositionsGrow(last, holds, at);
      ValidOnesStep(events, holds, n);
      if holds(last) {
        TakenGrows(events, at, cs, last);
        at := at + [last];
      }
    }
  }

  lemma TakenGrows(events: seq<LogEvent>, at: seq<nat>, cs: seq<Checkpoint>, n: nat)
    requires TakenAt(events, at, cs) && n < |events| && events[n].Compacted? && events[n].checkpoint.Some?
    ensures TakenAt(events, at + [n], cs + [events[n].checkpoint.value])
  {
  }

  /** The k-th section is the latest one that is not empty, or empty if there is none. */
  ghost predicate IsLatestText(cs: seq<Checkpoint>, k: nat, text: string)
    requires k < 8
  {
    if text == "" then forall i :: 0 <= i < |cs| ==> cs[i].sections[k] == ""
    else exists i :: 0 <= i < |cs| && cs[i].sections[k] == text
           && forall j :: i < j < |cs| ==> cs[j].sections[k] == ""
  }

  /** By revision, then by source number, then by value. */
  ghost predicate Outranks(g: Fact, f: Fact) {
    || g.revision > f.revision
    || (g.revision == f.revision && g.sourceSeq > f.sourceSeq)
    || (g.revision == f.revision && g.sourceSeq == f.sourceSeq && StrLeq(f.value, g.value))
  }

  /** Only facts of the checkpoints, and for each of theirs one of its key that outranks it. */
  ghost predicate HoldsBest(cs: seq<Checkpoint>, facts: seq<Fact>) {
    && (forall i, f :: 0 <= i < |cs| && f in cs[i].facts ==> Outranked(f, facts))
    && (forall g :: g in facts ==> exists i :: 0 <= i < |cs| && g in cs[i].facts)
  }

  ghost predicate Outranked(f: Fact, facts: seq<Fact>) {
    exists g :: g in facts && g.key == f.key && Outranks(g, f)
  }

  ghost predicate HoldsSources(cs: seq<Checkpoint>, r: Checkpoint) {
    && (forall n :: n in r.sourceSeqs <==> exists i :: 0 <= i < |cs| && n in cs[i].sourceSeqs)
    && (forall id :: id in r.sourceEventIds <==> exists i :: 0 <= i < |cs| && id in cs[i].sourceEventIds)
  }

  ghost predicate IsGreatestRevision(cs: seq<Checkpoint>, revision: nat) {
    && (forall i :: 0 <= i < |cs| ==> cs[i].revision <= revision)
    && exists i :: 0 <= i < |cs| && cs[i].revision == revision
  }

  /** What merging the checkpoints, in order, leaves. */
  ghost predicate Gathers(cs: seq<Checkpoint>, r: Checkpoint) {
    && cs != [] && r.continuationHeader == cs[|cs| - 1].continuationHeader
    && (forall k: nat :: k < 8 ==> IsLatestText(cs, k, r.sections[k]))
    && HoldsBest(cs, r.facts) && HoldsSources(cs, r) && IsGreatestRevision(cs, r.revision)
  }

  lemma GathersOne(c: Checkpoint)
    ensures Gathers([c], c)
  {
    forall k: nat | k < 8 ensures IsLatestText([c], k, c.sections[k]) {
      assert [c][0].sections[k] == c.sections[k];
    }
    forall i, f | 0 <= i < |[c]| && f in [c][i].facts ensures Outranked(f, c.facts) {
      AtLeastOrders(f, f, f);
    }
    forall g | g in c.facts ensures exists i :: 0 <= i < |[c]| && g in [c][i].facts { assert g in [c][0].facts; }
    SourcesOfOne(c);
    assert [c][0].revision == c.revision;
  }

  lemma SourcesOfOne(c: Checkpoint)
    ensures HoldsSources([c], c)
  {
    forall n | n in c.sourceSeqs ensures exists i :: 0 <= i < |[c]| && n in [c][i].sourceSeqs {
      assert n in [c][0].sourceSeqs;
    }
    forall id | id in c.sourceEventIds ensures exists i :: 0 <= i < |[c]| && id in [c][i].sourceEventIds {
      assert id in [c][0].sourceEventIds;
    }
  }

  lemma GathersMore(cs: seq<Checkpoint>, r: Checkpoint, c: Checkpoint)
    requires Gathers(cs, r)
    ensures Gathers(cs + [c], Merge(r, c))
  {
    var m := Merge(r, c);
    forall k: nat | k < 8 ensures IsLatestText(cs + [c], k, m.sections[k]) { TextsMore(cs, r, c, k); }
    FactsMore(cs, r, c);
    SourcesMore(cs, r, c);
    RevisionMore(cs, r.revision, c);
  }

  lemma TextsMore(cs: seq<Checkpoint>, r: Checkpoint, c: Checkpoint, k: nat)
    requires k < 8 && IsLatestText(cs, k, r.sections[k])
    ensures IsLatestText(cs + [c], k, MergedSections(r.sections, c.sections)[k])
  {
    var all := cs + [c];
    assert all[|cs|] == c;
    if c.sections[k] == "" && r.sections[k] != "" {
      var i :| 0 <= i < |cs| && cs[i].sections[k] == r.sections[k]
        && forall j :: i < j < |cs| ==> cs[j].sections[k] == "";
      assert all[i] == cs[i];
    }
  }

  lemma FactsMore(cs: seq<Checkpoint>, r: Checkpoint, c: Checkpoint)
    requires HoldsBest(cs, r.facts)
    ensures HoldsBest(cs + [c], Merge(r, c).facts)
  {
    var all, m := cs + [c], Merge(r, c);
    MergeKeepsFacts(r, c);
    forall i, f | 0 <= i < |all| && f in all[i].facts ensures Outranked(f, m.facts) {
      var h := f;
      AtLeastOrders(f, f, f);
      if i < |cs| {
        assert Outranked(f, r.facts);
        h :| h in r.facts && h.key == f.key && Outranks(h, f);
      }
      var g :| g in m.facts && g.key == h.key && AtLeast(g, h);
      AtLeastOrders(g, h, f);
      assert Outranks(g, f);
    }
    forall g | g in m.facts ensures exists i :: 0 <= i < |all| && g in all[i].facts {
      if g in c.facts {
        assert g in all[|cs|].facts;
      } else {
        var i :| 0 <= i < |cs| && g in cs[i].facts;
        assert g in all[i].facts;
      }
    }
  }

  lemma SourcesMore(cs: seq<Checkpoint>, r: Checkpoint, c: Checkpoint)
    requires HoldsSources(cs, r)
    ensures HoldsSources(cs + [c], Merge(r, c))
  {
    SeqsMore(cs, r, c);
    EventIdsMore(cs, r, c);
  }

  lemma SeqsMore(cs: seq<Checkpoint>, r: Checkpoint, c: Checkpoint)
    requires HoldsSources(cs, r)
    ensures var all := cs + [c];
      forall n :: n in Merge(r, c).sourceSeqs <==> exists i :: 0 <= i < |all| && n in all[i].sourceSeqs
  {
    var all, m := cs + [c], Merge(r, c);
    UniqueHolds([], r.sourceSeqs + c.sourceSeqs);
    assert all[|cs|] == c && forall i :: 0 <= i < |cs| ==> all[i] == cs[i];
    forall n ensures n in m.sourceSeqs <==> exists i :: 0 <= i < |all| && n in all[i].sourceSeqs {
      assert n in m.sourceSeqs <==> n in r.sourceSeqs || n in c.sourceSeqs;
      if i :| 0 <= i < |all| && n in all[i].sourceSeqs { assert i < |cs| ==> n in cs[i].sourceSeqs; }
    }
  }

  lemma EventIdsMore(cs: seq<Checkpoint>, r: Checkpoint, c: Checkpoint)
    requires HoldsSources(cs, r)
    ensures var all := cs + [c];
      forall id :: id in Merge(r, c).sourceEventIds <==> exists i :: 0 <= i < |all| && id in all[i].sourceEventIds
  {
    var all, m := cs + [c], Merge(r, c);
    UniqueHolds([], r.sourceEventIds + c.sourceEventIds);
    assert all[|cs|] == c && forall i :: 0 <= i < |cs| ==> all[i] == cs[i];
    forall id ensures id in m.sourceEventIds <==> exists i :: 0 <= i < |all| && id in all[i].sourceEventIds {
      assert id in m.sourceEventIds <==> id in r.sourceEventIds || id in c.sourceEventIds;
      if i :| 0 <= i < |all| && id in all[i].sourceEventIds { assert i < |cs| ==> id in cs[i].sourceEventIds; }
    }
  }

  lemma RevisionMore(cs: seq<Checkpoint>, revision: nat, c: Checkpoint)
    requires IsGreatestRevision(cs, revision)
    ensures IsGreatestRevision(cs + [c], Max(revision, c.revision))
  {
    var all := cs + [c];
    var i :| 0 <= i < |cs| && cs[i].revision == revision;
    assert all[i].revision == revision && all[|cs|].revision == c.revision;
  }

  ghost predicate GathersAll(cs: seq<Checkpoint>, r: Option<Checkpoint>) {
    if cs == [] then r == None else r.Some? && Gathers(cs, r.value)
  }

  lemma GathersStep(cs: seq<Checkpoint>, r: Option<Checkpoint>, c: Checkpoint)
    requires GathersAll(cs, r)
    ensures GathersAll(cs + [c], MergeRecovered(r, Some(c)))
  {
    if cs == [] {
      assert cs + [c] == [c];
      GathersOne(c);
    } else {
      GathersMore(cs, r.value, c);
    }
  }

  lemma {:induction false} RecoveredGathers(events: seq<LogEvent>, n: nat)
    requires n <= |events|
    ensures GathersAll(ValidOnes(events[..n]), Recovered(events[..n]))
  {
    if n > 0 {
      var front, cs, r := events[..n - 1], ValidOnes(events[..n - 1]), Recovered(events[..n - 1]);
      RecoveredGathers(events, n - 1);
      ValidOnesStep(events, ValidAt(events), n);
      if CheckpointOf(events[n - 1]).Some? {
        GathersStep(cs, r, events[n - 1].checkpoint.value);
      }
    }
  }

  /** Recovery reads every valid checkpoint of the log and no other: of each section the latest text, of
      each key the fact no other outranks, of sources all, the greatest revision and the last header. */
  lemma RecoveredExactly(events: seq<LogEvent>) returns (at: seq<nat>, cs: seq<Checkpoint>)
    ensures PositionsOf(|events|, ValidAt(events), at) && TakenAt(events, at, cs)
    ensures GathersAll(cs, Recovered(events))
  {
    cs := ValidOnes(events);
    assert events[..|events|] == events;
    at := ValidOnesAt(events, ValidAt(events), |events|);
    RecoveredGathers(events, |events|);
  }

  /** The order of strings: a prefix comes first, and else the lower character at the first difference. */
  lemma {:induction false} StrLeqExactly(a: string, b: string)
    ensures StrLeq(a, b) <==> (a <= b || exists i :: FirstLower(a, b, i))
  {
    if a != "" && b != "" {
      if a[0] == b[0] {
        StrLeqExactly(a[1..], b[1..]);
        assert a == [a[0]] + a[1..] && b == [b[0]] + b[1..];
        forall i ensures FirstLower(a[1..], b[1..], i) <==> i >= 0 && FirstLower(a, b, i + 1) {
          FirstLowerShifts(a, b, i);
        }
        if i :| FirstLower(a, b, i) { assert FirstLower(a[1..], b[1..], i - 1); }
      } else {
        assert a[0] < b[0] ==> FirstLower(a, b, 0);
      }
    }
  }

  lemma FirstLowerShifts(a: string, b: string, i: int)
    requires a != "" && b != "" && a[0] == b[0]
    ensures FirstLower(a[1..], b[1..], i) <==> i >= 0 && FirstLower(a, b, i + 1)
  {
    if 0 <= i < |a| - 1 && i < |b| - 1 {
      assert a[..i + 1] == [a[0]] + a[1..][..i] && b[..i + 1] == [b[0]] + b[1..][..i];
      assert a[..i + 1][1..] == a[1..][..i] && b[..i + 1][1..] == b[1..][..i];
    }
  }

  ghost predicate FirstLower(a: string, b: string, i: int) {
    0 <= i < |a| && i < |b| && a[..i] == b[..i] && a[i] < b[i]
  }
}

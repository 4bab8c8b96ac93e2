/** The delegation tree of the activity view: edges collected from a run's events, and the recursive
    builder whose guard tests the ancestors without the node being built. */
module DelegationTree {
  import opened Options
  import opened Graphs
  import opened Unique

  const ROOT_AGENT := "thy"

  /** An event as the collector reads it; absent and empty payload strings are `None`. */
  datatype AgentEvent =
    | Ran(agent: Option<string>)                                   // started, parked or completed
    | Message(parentAgent: Option<string>, agent: Option<string>)
    | OtherEvent

  /** Parents in first-seen order, with their children in first-seen order, and every agent seen. */
  datatype Edges = Edges(parents: seq<string>, children: map<string, seq<string>>, seen: seq<string>)

  function KidsOf(children: map<string, seq<string>>, name: string): seq<string> {
    if name in children then children[name] else []
  }

  ghost function Delegations(children: map<string, seq<string>>): Graph {
    set p, c | p in children && c in children[p] :: (p, c)
  }

  // ---- Collecting ----

  ghost predicate Delegates(e: AgentEvent, parent: string, child: string) {
    e.Message? && e.agent == Some(child) && e.parentAgent.GetOr(ROOT_AGENT) == parent
  }

  ghost predicate Names(e: AgentEvent, name: string) {
    !e.OtherEvent? && e.agent == Some(name)
  }

  ghost predicate Told(events: seq<AgentEvent>, parent: string, child: string) {
    exists e :: e in events && Delegates(e, parent, child)
  }

  ghost predicate Named(events: seq<AgentEvent>, name: string) {
    exists e :: e in events && Names(e, name)
  }

  /** The collected edges say exactly what the events say, each thing once. */
  ghost predicate Collected(r: Edges, events: seq<AgentEvent>) {
    && (forall p, c :: (p, c) in Delegations(r.children) <==> Told(events, p, c))
    && (forall n :: n in r.seen <==> Named(events, n))
    && (forall p :: p in r.parents <==> p in r.children)
    && (forall p :: p in r.children ==> r.children[p] != [] && NoRepeats(r.children[p]))
    && NoRepeats(r.parents) && NoRepeats(r.seen)
  }

  /** What is listed: the agents, the parents, or the children of one parent. */
  datatype List = Agents | Parents | ChildrenOf(parent: string)

  function Mention(e: AgentEvent, list: List): Option<string> {
    if e.OtherEvent? || e.agent.None? then None
    else match list
      case Agents => e.agent
      case Parents => if e.Message? then Some(e.parentAgent.GetOr(ROOT_AGENT)) else None
      case ChildrenOf(parent) => if e.Message? && e.parentAgent.GetOr(ROOT_AGENT) == parent then e.agent else None
  }

  /** The mentions of a log in event order, of which the collected edges keep the first ones. */
  function Mentions(events: seq<AgentEvent>, list: List): seq<string> {
    if events == [] then []
    else
      var mention := Mention(events[|events| - 1], list);
      Mentions(events[..|events| - 1], list) + if mention.Some? then [mention.value] else []
  }

  /** Agents, parents and each parent's children are listed as they were first seen. */
  ghost predicate InFirstSeenOrder(r: Edges, events: seq<AgentEvent>) {
    && r.seen == FirstOccurrences([], Mentions(events, Agents))
    && r.parents == FirstOccurrences([], Mentions(events, Parents))
    && (forall p :: KidsOf(r.children, p) == FirstOccurrences([], Mentions(events, ChildrenOf(p))))
  }

  lemma CollectKeepsOrder(r: Edges, events: seq<AgentEvent>, e: AgentEvent)
    requires InFirstSeenOrder(r, events)
    ensures InFirstSeenOrder(Collect(r, e), events + [e])
  {
    MentionStep(events, e, Agents);
    MentionStep(events, e, Parents);
    ListsAfter(r, e);
    forall p ensures KidsOf(Collect(r, e).children, p) == FirstOccurrences([], Mentions(events + [e], ChildrenOf(p))) {
      MentionStep(events, e, ChildrenOf(p));
      KidsAfter(r, e, p);
    }
  }

  lemma ListsAfter(r: Edges, e: AgentEvent)
    ensures var agent, parent := Mention(e, Agents), Mention(e, Parents);
      && Collect(r, e).seen == (if agent.Some? then Add(r.seen, agent.value) else r.seen)
      && Collect(r, e).parents == (if parent.Some? then Add(r.parents, parent.value) else r.parents)
  {
  }

  lemma KidsAfter(r: Edges, e: AgentEvent, p: string)
    ensures var mention := Mention(e, ChildrenOf(p));
      KidsOf(Collect(r, e).children, p)
      == if mention.Some? then Add(KidsOf(r.children, p), mention.value) else KidsOf(r.children, p)
  {
  }

  lemma MentionStep(events: seq<AgentEvent>, e: AgentEvent, list: List)
    ensures var before := FirstOccurrences([], Mentions(events, list));
      FirstOccurrences([], Mentions(events + [e], list))
      == if Mention(e, list).Some? then Add(before, Mention(e, list).value) else before
  {
    assert (events + [e])[..|events|] == events;
    var mentions := Mentions(events, list);
    if Mention(e, list).Some? {
      assert (mentions + [Mention(e, list).value])[..|mentions|] == mentions;
    } else {
      assert mentions + [] == mentions;
    }
  }

  function Collect(r: Edges, e: AgentEvent): Edges {
    match e
    case OtherEvent => r
    case Ran(agent) => if agent.None? then r else r.(seen := Add(r.seen, agent.value))
    case Message(parentAgent, agent) =>
      if agent.None? then r
      else
        var parent := parentAgent.GetOr(ROOT_AGENT);
        Edges(Add(r.parents, parent),
              r.children[parent := Add(KidsOf(r.children, parent), agent.value)],
              Add(r.seen, agent.value))
  }

  lemma AddHolds(s: seq<string>, x: string)
    ensures forall y :: y in Add(s, x) <==> y in s || y == x
    ensures NoRepeats(s) ==> NoRepeats(Add(s, x))
  {
  }

  lemma CollectKeeps(r: Edges, events: seq<AgentEvent>, e: AgentEvent)
    requires Collected(r, events)
    ensures Collected(Collect(r, e), events + [e])
  {
    if !e.OtherEvent? && e.agent.Some? {
      AddHolds(r.seen, e.agent.value);
      if e.Message? {
        AddHolds(r.parents, e.parentAgent.GetOr(ROOT_AGENT));
        AddHolds(KidsOf(r.children, e.parentAgent.GetOr(ROOT_AGENT)), e.agent.value);
      }
    }
    DelegationsAfter(r, e);
    EventsAfter(events, e);
  }

  lemma DelegationsAfter(r: Edges, e: AgentEvent)
    ensures forall p, c ::
      ((p, c) in Delegations(Collect(r, e).children) <==> (p, c) in Delegations(r.children) || Delegates(e, p, c))
  {
  }

  lemma EventsAfter(events: seq<AgentEvent>, e: AgentEvent)
    ensures forall p, c :: Told(events + [e], p, c) <==> Told(events, p, c) || Delegates(e, p, c)
    ensures forall n :: Named(events + [e], n) <==> Named(events, n) || Names(e, n)
  {
    var all := events + [e];
    assert e in all && forall x :: x in all <==> x in events || x == e;
  }

  /** The collecting loop of the source. */
  method CollectEdges(events: seq<AgentEvent>) returns (r: Edges)
    ensures Collected(r, events) && InFirstSeenOrder(r, events)
  {
    r := Edges([], map[], []);
    for i := 0 to |events|
      invariant Collected(r, events[..i]) && InFirstSeenOrder(r, events[..i])
    {
      CollectKeeps(r, events[..i], events[i]);
      CollectKeepsOrder(r, events[..i], events[i]);
      assert events[..i + 1] == events[..i] + [events[i]];
      r := Collect(r, events[i]);
    }
    assert events[..|events|] == events;
  }

  // ---- Building ----

  datatype AgentNode = AgentNode(name: string, children: seq<AgentNode>)

  ghost function Universe(children: map<string, seq<string>>): set<string> {
    children.Keys + set p, c | p in children && c in children[p] :: c
  }

  /** How many agents are not yet ancestors; the measure the guard needs beside whether the node
      itself is one, since a node may be built below itself once. */
  ghost function Fresh(children: map<string, seq<string>>, ancestors: set<string>): nat {
    |Universe(children) - ancestors|
  }

  lemma FreshFalls(children: map<string, seq<string>>, ancestors: set<string>, name: string)
    requires name in children
    ensures name !in ancestors ==> Fresh(children, ancestors + {name}) < Fresh(children, ancestors)
    ensures name in ancestors ==> Fresh(children, ancestors + {name}) == Fresh(children, ancestors)
  {
    var u := Universe(children);
    if name in ancestors {
      assert ancestors + {name} == ancestors;
    } else {
      assert u - ancestors == (u - (ancestors + {name})) + {name};
    }
  }

  /** `_build_node`, on every edge relation: self-loops and cycles included. */
  function BuildNode(name: string, children: map<string, seq<string>>, ancestors: set<string>): AgentNode
    decreases Fresh(children, ancestors), name in ancestors, 1, 0
  {
    AgentNode(name, BuildKids(KidsOf(children, name), name, children, ancestors))
  }

  function BuildKids(
    kids: seq<string>, name: string, children: map<string, seq<string>>, ancestors: set<string>): seq<AgentNode>
    requires kids != [] ==> name in children
    decreases Fresh(children, ancestors), name in ancestors, 0, |kids|
  {
    if kids == [] then []
    else if kids[0] in ancestors then BuildKids(kids[1..], name, children, ancestors)
    else
      FreshFalls(children, ancestors, name);
      [BuildNode(kids[0], children, ancestors + {name})] + BuildKids(kids[1..], name, children, ancestors)
  }

  ghost predicate Shows(tree: AgentNode, name: string) {
    tree.name == name || ShowsAny(tree.children, name)
  }

  ghost predicate ShowsAny(trees: seq<AgentNode>, name: string) {
    trees != [] && (Shows(trees[0], name) || ShowsAny(trees[1..], name))
  }

  lemma {:induction false} ShownIsReachable(
    name: string, children: map<string, seq<string>>, ancestors: set<string>, v: string)
    requires Shows(BuildNode(name, children, ancestors), v)
    ensures Reaches(Delegations(children), name, v)
    decreases Fresh(children, ancestors), name in ancestors, 1, 0
  {
    ReachesSelf(Delegations(children), name);
    if v != name {
      ShownBelowIsReachable(KidsOf(children, name), name, children, ancestors, v);
    }
  }

  lemma {:induction false} ShownBelowIsReachable(
    kids: seq<string>, name: string, children: map<string, seq<string>>, ancestors: set<string>, v: string)
    requires kids != [] ==> name in children
    requires forall k :: k in kids ==> k in KidsOf(children, name)
    requires ShowsAny(BuildKids(kids, name, children, ancestors), v)
    ensures Reaches(Delegations(children), name, v)
    decreases Fresh(children, ancestors), name in ancestors, 0, |kids|
  {
    if kids[0] !in ancestors && Shows(BuildNode(kids[0], children, ancestors + {name}), v) {
      FreshFalls(children, ancestors, name);
      ShownIsReachable(kids[0], children, ancestors + {name}, v);
      assert kids[0] in kids;
      ReachesFirst(Delegations(children), name, kids[0], v);
    } else {
      assert kids[0] !in ancestors ==>
           BuildKids(kids, name, children, ancestors)[1..] == BuildKids(kids[1..], name, children, ancestors);
      ShownBelowIsReachable(kids[1..], name, children, ancestors, v);
    }
  }

  lemma {:induction false} KidIsShown(
    kids: seq<string>, name: string, children: map<string, seq<string>>, ancestors: set<string>, kid: string, v: string)
    requires kids != [] ==> name in children
    requires kid in kids && kid !in ancestors && Shows(BuildNode(kid, children, ancestors + {name}), v)
    ensures ShowsAny(BuildKids(kids, name, children, ancestors), v)
  {
    if kids[0] !in ancestors {
      assert BuildKids(kids, name, children, ancestors)[1..] == BuildKids(kids[1..], name, children, ancestors);
    }
    if kids[0] != kid {
      KidIsShown(kids[1..], name, children, ancestors, kid, v);
    }
  }

  /** The guard never blocks a path that visits no node twice. */
  lemma {:induction false} SimplePathIsShown(p: seq<string>, children: map<string, seq<string>>, ancestors: set<string>)
    requires IsPath(Delegations(children), p) && NoRepeats(p)
    requires forall k :: 1 <= k < |p| ==> p[k] !in ancestors
    ensures Shows(BuildNode(p[0], children, ancestors), p[|p| - 1])
    decreases |p|
  {
    if |p| > 1 {
      assert Edge(Delegations(children), p, 0);
      SubPath(Delegations(children), p, 1, |p|);
      assert p[1..|p|] == p[1..];
      SimplePathIsShown(p[1..], children, ancestors + {p[0]});
      KidIsShown(KidsOf(children, p[0]), p[0], children, ancestors, p[1], p[|p| - 1]);
    }
  }

  /** A tree shows exactly the agents its root reaches, whatever cycles the edges have. */
  lemma TreeShowsReachable(root: string, children: map<string, seq<string>>, v: string)
    ensures Shows(BuildNode(root, children, {}), v) <==> Reaches(Delegations(children), root, v)
  {
    if Shows(BuildNode(root, children, {}), v) {
      ShownIsReachable(root, children, {}, v);
    }
    if Reaches(Delegations(children), root, v) {
      var p :| IsPathFromTo(Delegations(children), p, root, v);
      var q := SimplePath(Delegations(children), p);
      SimplePathIsShown(q, children, {});
    }
  }

  // ---- The forest ----

  function AllChildren(children: map<string, seq<string>>): set<string> {
    set p, c | p in children && c in children[p] :: c
  }

  function Without(names: seq<string>, excluded: set<string>): (r: seq<string>)
    ensures forall n :: n in r <==> n in names && n !in excluded
  {
    if names == [] then []
    else (if names[0] in excluded then [] else [names[0]]) + Without(names[1..], excluded)
  }

  /** Delegators nothing delegated to, then seen agents without an edge, else the root agent. */
  function Roots(r: Edges): seq<string> {
    var delegators := Without(r.parents, AllChildren(r.children));
    var loose := Without(r.seen, AllChildren(r.children) + set d | d in delegators);
    if delegators + loose == [] then [ROOT_AGENT] else delegators + loose
  }

  function BuildAll(roots: seq<string>, children: map<string, seq<string>>): seq<AgentNode> {
    if roots == [] then [] else [BuildNode(roots[0], children, {})] + BuildAll(roots[1..], children)
  }

  function FoldTree(r: Edges): seq<AgentNode> {
    if r.seen == [] then [] else BuildAll(Roots(r), r.children)
  }

  lemma {:induction false} AllShowReachable(roots: seq<string>, children: map<string, seq<string>>, v: string)
    ensures ShowsAny(BuildAll(roots, children), v)
       <==> exists root :: root in roots && Reaches(Delegations(children), root, v)
  {
    if roots != [] {
      TreeShowsReachable(roots[0], children, v);
      AllShowReachable(roots[1..], children, v);
      assert forall x :: x in roots <==> x == roots[0] || x in roots[1..];
      assert BuildAll(roots, children)[1..] == BuildAll(roots[1..], children);
    }
  }

  /** The view shows an agent exactly when a root reaches it. */
  lemma ForestShowsReachable(r: Edges, v: string)
    requires r.seen != []
    ensures ShowsAny(FoldTree(r), v) <==> exists root :: root in Roots(r) && Reaches(Delegations(r.children), root, v)
  {
    AllShowReachable(Roots(r), r.children, v);
  }

  lemma UnreachedHasUnreachedParent(r: Edges, events: seq<AgentEvent>, unreached: set<string>, x: string)
    requires Collected(r, events)
    requires forall n :: n in unreached <==>
      (n in Universe(r.children) || n in r.seen)
      && !exists root :: root in Roots(r) && Reaches(Delegations(r.children), root, n)
    requires x in unreached
    ensures HasSuccessor(Reversed(Delegations(r.children)), unreached, x)
  {
    var g := Delegations(r.children);
    ReachesSelf(g, x);
    assert x !in Roots(r);
    assert x in AllChildren(r.children);
    var p, c :| p in r.children && c in r.children[p] && c == x;
    assert (p, x) in g && (x, p) in Reversed(g);
    if exists root :: root in Roots(r) && Reaches(g, root, p) {
      var root :| root in Roots(r) && Reaches(g, root, p);
      ReachesStep(g, root, p, x);
    }
    assert p in unreached;
  }

  /** When delegation has no cycle, every agent seen in the log appears in some tree. */
  lemma AcyclicShowsEveryAgent(r: Edges, events: seq<AgentEvent>, name: string)
    requires Collected(r, events) && name in r.seen && !Cyclic(Delegations(r.children))
    ensures ShowsAny(FoldTree(r), name)
  {
    var g := Delegations(r.children);
    var everyone := Universe(r.children) + set n | n in r.seen;
    var unreached := set n | n in everyone && !exists root :: root in Roots(r) && Reaches(g, root, n);
    ForestShowsReachable(r, name);
    if name in unreached {
      forall x | x in unreached ensures HasSuccessor(Reversed(g), unreached, x) {
        UnreachedHasUnreachedParent(r, events, unreached, x);
      }
      NoExitLeadsToCycle(Reversed(g), unreached, name);
      ReversedCycle(g);
    }
  }

  /** A group no root belongs to and nobody outside delegates into. */
  ghost predicate IsolatedGroup(group: set<string>, r: Edges) {
    forall x :: x in group ==> x !in Roots(r) && forall p :: (p, x) in Delegations(r.children) ==> p in group
  }

  lemma {:induction false} NoPathIntoGroup(group: set<string>, r: Edges, p: seq<string>)
    requires IsolatedGroup(group, r) && IsPath(Delegations(r.children), p) && p[|p| - 1] in group
    ensures p[0] in group
  {
    if |p| > 1 {
      assert Edge(Delegations(r.children), p, |p| - 2);
      SubPath(Delegations(r.children), p, 0, |p| - 1);
      NoPathIntoGroup(group, r, p[0..|p| - 1]);
    }
  }

  lemma IsolatedIsLeftOut(group: set<string>, r: Edges, name: string)
    requires r.seen != [] && name in group && IsolatedGroup(group, r)
    ensures !ShowsAny(FoldTree(r), name)
  {
    ForestShowsReachable(r, name);
    forall root | root in Roots(r) && Reaches(Delegations(r.children), root, name) ensures false {
      var p :| IsPathFromTo(Delegations(r.children), p, root, name);
      NoPathIntoGroup(group, r, p);
    }
  }

  lemma LeftOutIsIsolated(r: Edges, name: string) returns (group: set<string>)
    requires name in r.seen && !ShowsAny(FoldTree(r), name)
    ensures name in group && IsolatedGroup(group, r)
  {
    var g := Delegations(r.children);
    ForestShowsReachable(r, name);
    var everyone := Universe(r.children) + set n | n in r.seen;
    group := set n | n in everyone && !ReachedFromRoot(r, n);
    forall x | x in group
      ensures x !in Roots(r) && forall p :: (p, x) in g ==> p in group
    {
      ReachesSelf(g, x);
      forall p | (p, x) in g ensures p in group {
        if ReachedFromRoot(r, p) {
          var root :| root in Roots(r) && Reaches(g, root, p);
          ReachesStep(g, root, p, x);
        }
      }
    }
  }

  ghost predicate ReachedFromRoot(r: Edges, name: string) {
    exists root :: root in Roots(r) && Reaches(Delegations(r.children), root, name)
  }

  /** An agent that was seen is left out exactly when it lies in such a group. */
  lemma LeftOutExactlyInIsolatedGroup(r: Edges, name: string)
    requires name in r.seen
    ensures !ShowsAny(FoldTree(r), name) <==> exists group :: name in group && IsolatedGroup(group, r)
  {
    if !ShowsAny(FoldTree(r), name) {
      var group := LeftOutIsIsolated(r, name);
    } else if exists group :: name in group && IsolatedGroup(group, r) {
      var group :| name in group && IsolatedGroup(group, r);
      IsolatedIsLeftOut(group, r, name);
    }
  }

  lemma {:induction false} EveryLogCollects(events: seq<AgentEvent>) returns (r: Edges)
    ensures Collected(r, events)
  {
    r := Edges([], map[], []);
    if events != [] {
      var n := |events| - 1;
      var front := EveryLogCollects(events[..n]);
      CollectKeeps(front, events[..n], events[n]);
      assert events == events[..n] + [events[n]];
      r := Collect(front, events[n]);
    }
  }

  /** Acyclicity is needed: beside an unrelated root, two agents that delegate to each other are seen
      but left out. */
  lemma CycleBesideRootIsLeftOut() returns (events: seq<AgentEvent>, r: Edges)
    ensures Collected(r, events) && "b" in r.seen && "c" in r.seen
    ensures !ShowsAny(FoldTree(r), "b") && !ShowsAny(FoldTree(r), "c")
  {
    var e0, e1, e2 := Message(None, Some("a")), Message(Some("b"), Some("c")), Message(Some("c"), Some("b"));
    events := [e0, e1, e2];
    r := EveryLogCollects(events);
    CyclePairIsIsolated(r, events, e0, e1, e2);
    IsolatedIsLeftOut({"b", "c"}, r, "b");
    IsolatedIsLeftOut({"b", "c"}, r, "c");
  }

  lemma CyclePairIsIsolated(r: Edges, events: seq<AgentEvent>, e0: AgentEvent, e1: AgentEvent, e2: AgentEvent)
    requires Collected(r, events) && events == [e0, e1, e2]
    requires e0 == Message(None, Some("a")) && e1 == Message(Some("b"), Some("c"))
         && e2 == Message(Some("c"), Some("b"))
    ensures "b" in r.seen && "c" in r.seen
    ensures "b" in {"b", "c"} && "c" in {"b", "c"} && IsolatedGroup({"b", "c"}, r)
  {
    var g := Delegations(r.children);
    assert forall e :: e in events <==> e == e0 || e == e1 || e == e2;
    assert Names(e2, "b") && Names(e1, "c");
    assert Delegates(e0, "thy", "a") && Delegates(e1, "b", "c") && Delegates(e2, "c", "b");
    assert ("thy", "a") in g && ("b", "c") in g && ("c", "b") in g;
    forall p, x | (p, x) in g ensures x != "thy" && (x in {"b", "c"} ==> p in {"b", "c"}) {
      var e :| e in events && Delegates(e, p, x);
    }
    assert "thy" in r.parents && "thy" !in AllChildren(r.children);
    assert "b" in AllChildren(r.children) && "c" in AllChildren(r.children);
  }
}

/** Finite directed graphs over names: paths, cycles, and the walks that must contain one.
    Shared by the roadmap check, the work board and the delegation tree. */
module Graphs {

  type Graph = set<(string, string)>

  ghost predicate Edge(g: Graph, p: seq<string>, i: nat)
    requires i + 1 < |p|
  {
    (p[i], p[i + 1]) in g
  }

  ghost predicate IsPath(g: Graph, p: seq<string>) {
    && p != []
    && forall i: nat :: i + 1 < |p| ==> Edge(g, p, i)
  }

  ghost predicate IsPathFromTo(g: Graph, p: seq<string>, a: string, b: string) {
    IsPath(g, p) && p[0] == a && p[|p| - 1] == b
  }

  ghost predicate Reaches(g: Graph, a: string, b: string) {
    exists p :: IsPathFromTo(g, p, a, b)
  }

  ghost predicate IsCycle(g: Graph, p: seq<string>) {
    |p| >= 2 && IsPath(g, p) && p[0] == p[|p| - 1]
  }

  ghost predicate Cyclic(g: Graph) {
    exists p :: IsCycle(g, p)
  }

  /** On a cycle, or with a path onto one. */
  ghost predicate LeadsToCycle(g: Graph, a: string) {
    exists p, i: nat :: Lasso(g, p, i) && p[0] == a
  }

  /** A path whose last node is also its node `i`. */
  ghost predicate Lasso(g: Graph, p: seq<string>, i: nat) {
    i < |p| - 1 && IsPath(g, p) && p[i] == p[|p| - 1]
  }

  ghost predicate HasSuccessor(g: Graph, nodes: set<string>, x: string) {
    exists y :: y in nodes && (x, y) in g
  }

  lemma SubPath(g: Graph, p: seq<string>, i: nat, j: nat)
    requires IsPath(g, p) && i < j <= |p|
    ensures IsPathFromTo(g, p[i..j], p[i], p[j - 1])
  {
    forall k: nat | k + 1 < j - i ensures Edge(g, p[i..j], k) {
      assert Edge(g, p, i + k);
    }
  }

  lemma JoinPaths(g: Graph, p: seq<string>, q: seq<string>)
    requires IsPath(g, p) && IsPath(g, q) && p[|p| - 1] == q[0]
    ensures IsPathFromTo(g, p + q[1..], p[0], q[|q| - 1])
  {
    var r := p + q[1..];
    forall k: nat | k + 1 < |r| ensures Edge(g, r, k) {
      if k + 1 < |p| {
        assert Edge(g, p, k);
      } else {
        assert Edge(g, q, k - (|p| - 1));
      }
    }
  }

  lemma ExtendPath(g: Graph, p: seq<string>, next: string)
    requires IsPath(g, p) && (p[|p| - 1], next) in g
    ensures IsPathFromTo(g, p + [next], p[0], next)
  {
    var r := p + [next];
    forall k: nat | k + 1 < |r| ensures Edge(g, r, k) {
      if k + 1 < |p| {
        assert Edge(g, p, k);
      }
    }
  }

  /** A walk that returns to a node it has visited contains a cycle. */
  lemma ReturningPathIsCyclic(g: Graph, p: seq<string>, i: nat, j: nat)
    requires IsPath(g, p) && i < j < |p| && p[i] == p[j]
    ensures IsCycle(g, p[i..j + 1]) && Cyclic(g)
  {
    SubPath(g, p, i, j + 1);
    assert IsCycle(g, p[i..j + 1]);
  }

  /** A graph with a ranking that every edge lowers has no cycle. */
  lemma {:induction false} RankFallsAlongPath(g: Graph, p: seq<string>, rank: map<string, int>)
    requires IsPath(g, p) && |p| >= 2
    requires forall e :: e in g ==> e.0 in rank && e.1 in rank && rank[e.1] < rank[e.0]
    ensures p[0] in rank && p[|p| - 1] in rank && rank[p[|p| - 1]] < rank[p[0]]
  {
    assert Edge(g, p, 0);
    if |p| > 2 {
      SubPath(g, p, 1, |p|);
      assert p[1..|p|] == p[1..];
      RankFallsAlongPath(g, p[1..], rank);
    }
  }

  lemma RankedIsAcyclic(g: Graph, rank: map<string, int>)
    requires forall e :: e in g ==> e.0 in rank && e.1 in rank && rank[e.1] < rank[e.0]
    ensures !Cyclic(g)
  {
    forall p | IsCycle(g, p) ensures false {
      RankFallsAlongPath(g, p, rank);
    }
  }

  /** Pigeonhole: a sequence longer than the set it draws from repeats an element. */
  lemma {:induction false} Repeats(p: seq<string>, nodes: set<string>) returns (i: nat, j: nat)
    requires |p| > |nodes| && forall x :: x in p ==> x in nodes
    ensures i < j < |p| && p[i] == p[j]
  {
    var last := p[|p| - 1];
    var front := p[..|p| - 1];
    if last in front {
      i :| i < |front| && front[i] == last;
      j := |p| - 1;
    } else {
      i, j := Repeats(front, nodes - {last});
    }
  }

  /** In a set where every node has a successor, a walk of any length never leaves. */
  lemma {:induction false} WalkWithin(g: Graph, nodes: set<string>, a: string, n: nat) returns (p: seq<string>)
    requires a in nodes
    requires forall x :: x in nodes ==> HasSuccessor(g, nodes, x)
    ensures IsPath(g, p) && p[0] == a && |p| == n + 1 && forall x :: x in p ==> x in nodes
  {
    p := [a];
    if n > 0 {
      var q := WalkWithin(g, nodes, a, n - 1);
      assert HasSuccessor(g, nodes, q[|q| - 1]);
      var y :| y in nodes && (q[|q| - 1], y) in g;
      ExtendPath(g, q, y);
      p := q + [y];
    }
  }

  /** A finite set where every node has a successor is on or behind a cycle throughout. */
  lemma NoExitLeadsToCycle(g: Graph, nodes: set<string>, a: string)
    requires a in nodes
    requires forall x :: x in nodes ==> HasSuccessor(g, nodes, x)
    ensures LeadsToCycle(g, a) && Cyclic(g)
  {
    var p := WalkWithin(g, nodes, a, |nodes|);
    var i, j := Repeats(p, nodes);
    ReturningPathIsCyclic(g, p, i, j);
    SubPath(g, p, 0, j + 1);
    assert Lasso(g, p[0..j + 1], i);
  }

  ghost predicate NoRepeats(p: seq<string>) {
    forall i, j :: 0 <= i < j < |p| ==> p[i] != p[j]
  }

  /** Whatever is reachable is reachable without visiting a node twice. */
  lemma {:induction false} SimplePath(g: Graph, p: seq<string>) returns (q: seq<string>)
    requires IsPath(g, p)
    ensures IsPathFromTo(g, q, p[0], p[|p| - 1]) && NoRepeats(q)
    decreases |p|
  {
    if NoRepeats(p) {
      q := p;
    } else {
      var i, j :| 0 <= i < j < |p| && p[i] == p[j];
      SubPath(g, p, 0, i + 1);
      SubPath(g, p, j, |p|);
      JoinPaths(g, p[0..i + 1], p[j..|p|]);
      q := SimplePath(g, p[0..i + 1] + p[j..|p|][1..]);
    }
  }

  lemma ReachesSelf(g: Graph, a: string)
    ensures Reaches(g, a, a)
  {
    assert IsPathFromTo(g, [a], a, a);
  }

  lemma ReachesStep(g: Graph, a: string, b: string, c: string)
    requires Reaches(g, a, b) && (b, c) in g
    ensures Reaches(g, a, c)
  {
    var p :| IsPathFromTo(g, p, a, b);
    ExtendPath(g, p, c);
  }

  lemma ReachesFirst(g: Graph, a: string, b: string, c: string)
    requires (a, b) in g && Reaches(g, b, c)
    ensures Reaches(g, a, c)
  {
    var p :| IsPathFromTo(g, p, b, c);
    assert IsPath(g, [a, b]) by { assert Edge(g, [a, b], 0); }
    JoinPaths(g, [a, b], p);
  }

  ghost function Reversed(g: Graph): Graph {
    set e | e in g :: (e.1, e.0)
  }

  ghost function Backwards(p: seq<string>): (r: seq<string>)
    ensures |r| == |p| && forall i :: 0 <= i < |p| ==> r[i] == p[|p| - 1 - i]
  {
    seq(|p|, i requires 0 <= i < |p| => p[|p| - 1 - i])
  }

  lemma ReversedCycle(g: Graph)
    requires Cyclic(Reversed(g))
    ensures Cyclic(g)
  {
    var p :| IsCycle(Reversed(g), p);
    var r := Backwards(p);
    forall i: nat | i + 1 < |r| ensures Edge(g, r, i) {
      assert Edge(Reversed(g), p, |p| - 2 - i);
    }
    assert IsCycle(g, r);
  }
}

/** The dependency-cycle check of the roadmap script: a three-colour depth-first search. */
module RoadmapCycles {
  import opened Graphs

  /** Task ids in declaration order, each with its declared dependencies. */
  datatype Tasks = Tasks(ids: seq<string>, depends: map<string, seq<string>>)

  ghost predicate WellFormed(tasks: Tasks) {
    tasks.depends.Keys == set id | id in tasks.ids
  }

  /** The dependency graph restricted to known tasks. */
  ghost function Known(tasks: Tasks): Graph {
    set a, b | a in tasks.depends && b in tasks.depends[a] && b in tasks.depends :: (a, b)
  }

  /** A reported trail: a real path whose last node occurs earlier in it. */
  ghost predicate IsCycleTrail(tasks: Tasks, trail: seq<string>) {
    |trail| >= 2 && IsPath(Known(tasks), trail) && trail[|trail| - 1] in trail[..|trail| - 1]
  }

  lemma TrailProvesCycle(tasks: Tasks, trail: seq<string>)
    requires IsCycleTrail(tasks, trail)
    ensures Cyclic(Known(tasks))
  {
    var i :| 0 <= i < |trail| - 1 && trail[i] == trail[|trail| - 1];
    ReturningPathIsCyclic(Known(tasks), trail, i, |trail| - 1);
  }

  /** The edges that close the reported trails. */
  ghost function Closing(cycles: seq<seq<string>>): Graph {
    set c | c in cycles && |c| >= 2 :: (c[|c| - 2], c[|c| - 1])
  }

  lemma ClosingGrows(cycles: seq<seq<string>>, more: seq<seq<string>>)
    requires cycles <= more
    ensures Closing(cycles) <= Closing(more)
  {
    assert forall c :: c in cycles ==> c in more;
  }

  /** The `i`-th node of `order` comes after everything it depends on, reported edges apart. */
  ghost predicate AfterDependencies(g: Graph, reported: Graph, order: seq<string>, i: nat)
    requires i < |order|
  {
    forall d :: (order[i], d) in g ==> (order[i], d) in reported || d in order[..i]
  }

  datatype Colour = Grey | Black

  class CycleSearch {
    const tasks: Tasks
    /** Unvisited tasks are absent. */
    var colour: map<string, Colour>
    var cycles: seq<seq<string>>
    /** Tasks in the order they turned black. */
    ghost var finished: seq<string>

    constructor (tasks: Tasks)
      requires WellFormed(tasks)
      ensures Valid([]) && this.tasks == tasks && cycles == [] && colour == map[]
    {
      this.tasks, colour, cycles, finished := tasks, map[], [], [];
    }

    /** While the nodes of `trail` are being visited: exactly they are grey; exactly the finished ones
        are black; every report is a real trail; and every finished task's dependencies finished before
        it, except where a report ends with the edge between them. */
    ghost predicate Valid(trail: seq<string>)
      reads this
    {
      && WellFormed(tasks)
      && colour.Keys <= tasks.depends.Keys
      && (forall n :: n in colour && colour[n] == Grey <==> n in trail)
      && (forall n :: n in colour && colour[n] == Black <==> n in finished)
      && (trail != [] ==> IsPath(Known(tasks), trail))
      && (forall i, j :: 0 <= i < j < |finished| ==> finished[i] != finished[j])
      && (forall c :: c in cycles ==> IsCycleTrail(tasks, c))
      && (forall i: nat :: i < |finished| ==> AfterDependencies(Known(tasks), Closing(cycles), finished, i))
    }

    ghost function Unvisited(): set<string>
      reads this
    {
      tasks.depends.Keys - colour.Keys
    }

    /** `visit`: colour grey, walk the dependencies, colour black. */
    method Visit(node: string, trail: seq<string>)
      requires Valid(trail) && node in tasks.depends && node !in colour
      requires trail != [] ==> (trail[|trail| - 1], node) in Known(tasks)
      modifies this
      ensures Valid(trail) && node in colour && colour[node] == Black
      ensures old(colour.Keys) <= colour.Keys && old(cycles) <= cycles
      ensures forall n :: n in old(finished) ==> n in finished
      decreases Unvisited(), 0
    {
      var path := trail + [node];
      if trail != [] { ExtendPath(Known(tasks), trail, node); }
      colour := colour[node := Grey];
      assert Valid(path);
      var depends := tasks.depends[node];
      for i := 0 to |depends|
        invariant Valid(path)
        invariant old(colour.Keys) + {node} <= colour.Keys && old(cycles) <= cycles
        invariant forall n :: n in old(finished) ==> n in finished
        invariant forall j :: 0 <= j < i && depends[j] in tasks.depends ==> Settled(node, depends[j])
      {
        var dependency := depends[i];
        if dependency !in tasks.depends {
          continue;
        }
        assert (node, dependency) in Known(tasks);
        Follow(dependency, path);
      }
      Blacken(node, trail);
    }

    /** One known dependency of the last node of `path`: a grey one closes a cycle, a new one is visited. */
    method Follow(dependency: string, path: seq<string>)
      requires Valid(path) && path != [] && dependency in tasks.depends
      requires (path[|path| - 1], dependency) in Known(tasks)
      modifies this
      ensures Valid(path) && old(colour.Keys) <= colour.Keys && old(cycles) <= cycles
      ensures Settled(path[|path| - 1], dependency)
      ensures Closing(old(cycles)) <= Closing(cycles)
      ensures forall n :: n in old(finished) ==> n in finished
      decreases Unvisited(), 1
    {
      if dependency in colour && colour[dependency] == Grey {
        ReportIsTrail(path, dependency);
        var report := path + [dependency];
        assert report in cycles + [report] && report[|report| - 2] == path[|path| - 1];
        ClosingGrows(cycles, cycles + [report]);
        cycles := cycles + [report];
        forall i: nat | i < |finished| ensures AfterDependencies(Known(tasks), Closing(cycles), finished, i) {
          assert AfterDependencies(Known(tasks), Closing(old(cycles)), finished, i);
        }
      } else if dependency !in colour {
        Visit(dependency, path);
      }
      ClosingGrows(old(cycles), cycles);
    }

    /** The dependency is finished, or a report ends with it after the node. */
    ghost predicate Settled(node: string, dependency: string)
      reads this
    {
      dependency in finished || (node, dependency) in Closing(cycles)
    }

    lemma ReportIsTrail(path: seq<string>, dependency: string)
      requires Valid(path) && dependency in path && (path[|path| - 1], dependency) in Known(tasks)
      ensures IsCycleTrail(tasks, path + [dependency])
    {
      ExtendPath(Known(tasks), path, dependency);
      assert (path + [dependency])[..|path|] == path;
    }

    /** Leaving a node: each of its dependencies is finished or was reported. */
    method Blacken(node: string, trail: seq<string>)
      requires Valid(trail + [node]) && node in tasks.depends && node !in trail
      requires forall j :: 0 <= j < |tasks.depends[node]| && tasks.depends[node][j] in tasks.depends ==>
        Settled(node, tasks.depends[node][j])
      modifies this
      ensures Valid(trail) && node in colour && colour[node] == Black
      ensures colour.Keys == old(colour.Keys) && cycles == old(cycles)
      ensures forall n :: n in old(finished) ==> n in finished
    {
      assert node in trail + [node];
      colour := colour[node := Black];
      finished := finished + [node];
      if trail != [] {
        SubPath(Known(tasks), trail + [node], 0, |trail|);
        assert (trail + [node])[0..|trail|] == trail;
      }
      forall i: nat | i < |finished| ensures AfterDependencies(Known(tasks), Closing(cycles), finished, i) {
        assert finished[..i] == old(finished)[..i];
        if i < |old(finished)| { assert AfterDependencies(Known(tasks), Closing(cycles), old(finished), i); }
      }
    }

    /** The outer loop. A cycle is reported exactly when the known dependencies have one, and the reports
        name every place where one closes: without the edges they end with, there is no cycle left. */
    method Search()
      requires Valid([]) && cycles == []
      modifies this
      ensures Valid([])
      ensures cycles != [] <==> Cyclic(Known(tasks))
      ensures !Cyclic(Known(tasks) - Closing(cycles))
      ensures forall c :: c in cycles ==> IsCycleTrail(tasks, c)
      ensures forall n :: n in tasks.depends ==> n in colour && colour[n] == Black
    {
      for i := 0 to |tasks.ids|
        invariant Valid([]) && forall j :: 0 <= j < i ==> tasks.ids[j] in colour
      {
        if tasks.ids[i] !in colour {
          Visit(tasks.ids[i], []);
        }
      }
      forall n | n in tasks.depends ensures n in colour && colour[n] == Black {
        assert n in tasks.ids;
        assert colour[n] == Grey ==> n in [];
      }
      FinishOrderIsRank();
      if cycles == [] {
        assert Known(tasks) - Closing(cycles) == Known(tasks);
      } else {
        TrailProvesCycle(tasks, cycles[0]);
      }
    }

    lemma FinishOrderIsRank()
      requires Valid([]) && forall n :: n in tasks.depends ==> n in finished
      ensures !Cyclic(Known(tasks) - Closing(cycles))
    {
      var left := Known(tasks) - Closing(cycles);
      var rank := map n | n in tasks.depends :: Position(n);
      forall e | e in left ensures e.0 in rank && e.1 in rank && rank[e.1] < rank[e.0] {
        var i := Position(e.0);
        assert AfterDependencies(Known(tasks), Closing(cycles), finished, i);
        var k :| 0 <= k < i && finished[k] == e.1;
      }
      RankedIsAcyclic(left, rank);
    }

    ghost function Position(n: string): (i: nat)
      reads this
      requires n in finished
      ensures i < |finished| && finished[i] == n
    {
      var i :| 0 <= i < |finished| && finished[i] == n; i
    }
  }
}

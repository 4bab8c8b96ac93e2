/** The DAG work board: validated topology, settlements, and the runnable set derived from both
    (packages/schemas/src/thymira/schemas/board.py). */
module WorkBoard {
  import opened Options
  import opened Graphs

  datatype DagNode = DagNode(
    workId: string,
    runId: string,
    ordinal: nat,
    kind: string,
    dependencyIds: seq<string>,
    delegationDepth: nat,
    taskId: Option<string>,
    objective: Option<string>,
    agentId: Option<string>,
    agent: Option<string>,
    parentAgent: Option<string>,
    delegationKey: Option<string>)
  {
    predicate HasInvocationBinding() {
      taskId.Some? && objective.Some? && agentId.Some? && agent.Some? && parentAgent.Some? && delegationKey.Some?
    }
  }

  datatype SubagentResult = SubagentResult(
    runId: string,
    taskId: string,
    objective: string,
    delegationDepth: nat,
    agentId: string,
    agent: string,
    parentAgent: string,
    delegationKey: string)

  datatype DagBoard = DagBoard(runId: string, revision: nat, workItems: seq<DagNode>, results: seq<SubagentResult>)

  // ---- Validation ----

  predicate Distinct<T(==)>(s: seq<T>) {
    forall i, j :: 0 <= i < j < |s| ==> s[i] != s[j]
  }

  function WorkIds(b: DagBoard): set<string> {
    set n | n in b.workItems :: n.workId
  }

  function SettledTasks(b: DagBoard): set<string> {
    set r | r in b.results :: r.taskId
  }

  /** The settlement repeats every invocation fact of the node. */
  predicate Binds(r: SubagentResult, n: DagNode) {
    && n.taskId == Some(r.taskId) && n.objective == Some(r.objective)
    && n.delegationDepth == r.delegationDepth && n.agentId == Some(r.agentId)
    && n.agent == Some(r.agent) && n.parentAgent == Some(r.parentAgent)
    && n.delegationKey == Some(r.delegationKey)
  }

  predicate ValidNode(n: DagNode, b: DagBoard) {
    && n.taskId.Some? && n.objective.Some?
    && n.taskId != Some(n.workId)
    && n.runId == b.runId
    && (forall d :: d in n.dependencyIds ==> d in WorkIds(b))
    && Distinct(n.dependencyIds)
  }

  predicate ValidResult(r: SubagentResult, b: DagBoard) {
    r.runId == b.runId && exists n :: n in b.workItems && Binds(r, n)
  }

  /** `validate_projection`: every check it makes, and no check for cycles. */
  predicate Valid(b: DagBoard) {
    && (forall i, j :: 0 <= i < j < |b.workItems| ==>
          && b.workItems[i].workId != b.workItems[j].workId
          && b.workItems[i].ordinal != b.workItems[j].ordinal
          && b.workItems[i].taskId != b.workItems[j].taskId)
    && (forall n :: n in b.workItems ==> ValidNode(n, b))
    && (forall i, j :: 0 <= i < j < |b.results| ==> b.results[i].taskId != b.results[j].taskId)
    && (forall r :: r in b.results ==> ValidResult(r, b))
  }

  // ---- The runnable set ----

  function InsertByOrdinal(sorted: seq<DagNode>, n: DagNode): seq<DagNode> {
    if sorted == [] then [n]
    else if n.ordinal < sorted[0].ordinal then [n] + sorted
    else [sorted[0]] + InsertByOrdinal(sorted[1..], n)
  }

  function SortByOrdinal(items: seq<DagNode>): seq<DagNode> {
    if items == [] then [] else InsertByOrdinal(SortByOrdinal(items[..|items| - 1]), items[|items| - 1])
  }

  function SettledWork(b: DagBoard): set<string> {
    set n | n in b.workItems && n.taskId.Some? && n.taskId.value in SettledTasks(b) :: n.workId
  }

  predicate Runnable(n: DagNode, b: DagBoard) {
    && !(n.taskId.Some? && n.taskId.value in SettledTasks(b))
    && forall d :: d in n.dependencyIds ==> d in SettledWork(b)
  }

  function KeepRunnable(items: seq<DagNode>, b: DagBoard): seq<DagNode> {
    if items == [] then []
    else (if Runnable(items[0], b) then [items[0]] else []) + KeepRunnable(items[1..], b)
  }

  function Pending(b: DagBoard): seq<DagNode> {
    KeepRunnable(SortByOrdinal(b.workItems), b)
  }

  ghost predicate Ordered(items: seq<DagNode>) {
    forall i, j :: 0 <= i < j < |items| ==> items[i].ordinal <= items[j].ordinal
  }

  lemma {:induction false} InsertOrdered(sorted: seq<DagNode>, n: DagNode)
    requires Ordered(sorted)
    ensures Ordered(InsertByOrdinal(sorted, n))
    ensures forall x :: x in InsertByOrdinal(sorted, n) <==> x in sorted || x == n
    ensures |InsertByOrdinal(sorted, n)| == |sorted| + 1
  {
    if sorted != [] && n.ordinal >= sorted[0].ordinal {
      InsertOrdered(sorted[1..], n);
      var r := InsertByOrdinal(sorted, n);
      assert forall x :: x in sorted <==> x == sorted[0] || x in sorted[1..];
      forall i, j | 0 <= i < j < |r| ensures r[i].ordinal <= r[j].ordinal {
        if i == 0 { assert r[j] in InsertByOrdinal(sorted[1..], n); }
      }
    }
  }

  lemma {:induction false} SortOrders(items: seq<DagNode>)
    ensures Ordered(SortByOrdinal(items)) && |SortByOrdinal(items)| == |items|
    ensures forall x :: x in SortByOrdinal(items) <==> x in items
  {
    if items != [] {
      var n := |items| - 1;
      SortOrders(items[..n]);
      InsertOrdered(SortByOrdinal(items[..n]), items[n]);
      assert items == items[..n] + [items[n]];
    }
  }

  lemma {:induction false} KeepIsFilter(items: seq<DagNode>, b: DagBoard)
    ensures forall x :: x in KeepRunnable(items, b) <==> x in items && Runnable(x, b)
    ensures Ordered(items) ==> Ordered(KeepRunnable(items, b))
  {
    if items != [] {
      KeepIsFilter(items[1..], b);
      var r := KeepRunnable(items, b);
      assert forall x :: x in items <==> x == items[0] || x in items[1..];
      if Ordered(items) {
        forall i, j | 0 <= i < j < |r| ensures r[i].ordinal <= r[j].ordinal {
          assert r[j] in items;
          if i > 0 || !Runnable(items[0], b) { assert r[i] in KeepRunnable(items[1..], b); }
        }
      }
    }
  }

  /** `pending()` is exactly the unsettled items whose dependencies are all settled, by ordinal. */
  lemma PendingIsRunnable(b: DagBoard)
    ensures forall n :: n in Pending(b) <==> n in b.workItems && Runnable(n, b)
    ensures Ordered(Pending(b))
  {
    SortOrders(b.workItems);
    KeepIsFilter(SortByOrdinal(b.workItems), b);
  }

  // ---- Settling ----

  function Settle(b: DagBoard, r: SubagentResult): DagBoard {
    b.(revision := b.revision + 1, results := b.results + [r])
  }

  /** Every settled item's dependencies are settled. */
  ghost predicate DependencyClosed(b: DagBoard) {
    forall n, d :: n in b.workItems && n.workId in SettledWork(b) && d in n.dependencyIds ==> d in SettledWork(b)
  }

  /** A board stays valid under a settlement exactly when the settlement belongs to the run and is
      bound to an item not settled before. */
  lemma SettleKeepsValidExactly(b: DagBoard, r: SubagentResult)
    requires Valid(b)
    ensures Valid(Settle(b, r)) <==> ValidResult(r, b) && r.taskId !in SettledTasks(b)
  {
    var s := Settle(b, r);
    assert WorkIds(s) == WorkIds(b);
    forall n | n in b.workItems ensures ValidNode(n, s) <==> ValidNode(n, b) {
    }
    forall x ensures ValidResult(x, s) <==> ValidResult(x, b) {
    }
    assert forall x :: x in s.results <==> x in b.results || x == r;
    if r.taskId in SettledTasks(b) {
      var i :| 0 <= i < |b.results| && b.results[i].taskId == r.taskId;
      assert s.results[i].taskId == s.results[|b.results|].taskId;
    }
    assert s.results[|b.results|] == r;
  }

  /** A node can be settled at all exactly when it carries its whole invocation binding; the validator
      itself asks only for a task id and an objective. */
  lemma BindableExactly(n: DagNode)
    ensures n.HasInvocationBinding() <==> exists r :: Binds(r, n)
  {
    if n.HasInvocationBinding() {
      assert Binds(SubagentResult(n.runId, n.taskId.value, n.objective.value, n.delegationDepth, n.agentId.value,
                                  n.agent.value, n.parentAgent.value, n.delegationKey.value), n);
    }
  }

  lemma SettledWorkGrows(b: DagBoard, n: DagNode, r: SubagentResult)
    requires Valid(b) && n in b.workItems && Binds(r, n)
    ensures SettledWork(Settle(b, r)) == SettledWork(b) + {n.workId}
  {
    var s := Settle(b, r);
    assert SettledTasks(s) == SettledTasks(b) + {r.taskId} by {
      assert forall x :: x in s.results <==> x in b.results || x == r;
      assert r in s.results;
    }
    forall m | m in b.workItems && m.taskId == Some(r.taskId) ensures m == n {
      var i :| 0 <= i < |b.workItems| && b.workItems[i] == m;
      var j :| 0 <= j < |b.workItems| && b.workItems[j] == n;
      assert i < j || j < i || i == j;
    }
  }

  /** Settling a pending item with a bound result keeps the board valid and dependency-closed. */
  lemma SettlePendingKeepsBoard(b: DagBoard, n: DagNode, r: SubagentResult)
    requires Valid(b) && DependencyClosed(b)
    requires n in Pending(b) && Binds(r, n) && r.runId == b.runId
    ensures Valid(Settle(b, r)) && DependencyClosed(Settle(b, r))
    ensures SettledWork(Settle(b, r)) == SettledWork(b) + {n.workId} && n.workId !in SettledWork(b)
  {
    PendingIsRunnable(b);
    SettleKeepsValidExactly(b, r);
    SettledWorkGrows(b, n, r);
    forall m | m in b.workItems && m.workId == n.workId ensures m == n {
      var i :| 0 <= i < |b.workItems| && b.workItems[i] == m;
      var j :| 0 <= j < |b.workItems| && b.workItems[j] == n;
      assert i < j || j < i || i == j;
    }
  }

  // ---- Schedules ----

  ghost function Dependencies(b: DagBoard): Graph {
    set n, d | n in b.workItems && d in n.dependencyIds :: (n.workId, d)
  }

  /** Settlements, each of an item pending when it happens. */
  ghost predicate IsSchedule(b: DagBoard, rs: seq<SubagentResult>)
    decreases |rs|
  {
    rs != [] ==>
      && rs[0].runId == b.runId
      && (exists n :: n in Pending(b) && Binds(rs[0], n))
      && IsSchedule(Settle(b, rs[0]), rs[1..])
  }

  function Run(b: DagBoard, rs: seq<SubagentResult>): DagBoard
    decreases |rs|
  {
    if rs == [] then b else Run(Settle(b, rs[0]), rs[1..])
  }

  /** No settled item is on or behind a cycle. */
  ghost predicate Grounded(b: DagBoard) {
    forall id :: id in SettledWork(b) ==> !LeadsToCycle(Dependencies(b), id)
  }

  lemma DoomedHasDoomedDependency(g: Graph, a: string) returns (next: string)
    requires LeadsToCycle(g, a)
    ensures (a, next) in g && LeadsToCycle(g, next)
  {
    var p, i: nat :| Lasso(g, p, i) && p[0] == a;
    next := p[1];
    assert Edge(g, p, 0);
    SubPath(g, p, 1, |p|);
    assert p[1..|p|] == p[1..];
    if i > 0 {
      assert Lasso(g, p[1..], i - 1);
    } else {
      ExtendPath(g, p[1..], next);
      assert Lasso(g, p[1..] + [next], 0);
    }
  }

  lemma {:induction false} ScheduleKeepsBoard(b: DagBoard, rs: seq<SubagentResult>)
    requires Valid(b) && DependencyClosed(b) && Grounded(b) && IsSchedule(b, rs)
    ensures var e := Run(b, rs);
      && Valid(e) && DependencyClosed(e) && Grounded(e)
      && e.workItems == b.workItems && e.runId == b.runId && |e.results| == |b.results| + |rs|
    decreases |rs|
  {
    if rs != [] {
      var n :| n in Pending(b) && Binds(rs[0], n);
      SettlePendingKeepsBoard(b, n, rs[0]);
      PendingIsRunnable(b);
      var s := Settle(b, rs[0]);
      assert Dependencies(s) == Dependencies(b);
      if LeadsToCycle(Dependencies(b), n.workId) {
        var d := DoomedHasDoomedDependency(Dependencies(b), n.workId);
        var m :| m in b.workItems && m.workId == n.workId && d in m.dependencyIds;
        SameNode(b, m, n);
      }
      ScheduleKeepsBoard(s, rs[1..]);
    }
  }

  lemma SameNode(b: DagBoard, m: DagNode, n: DagNode)
    requires Valid(b) && m in b.workItems && n in b.workItems && m.workId == n.workId
    ensures m == n
  {
    var i :| 0 <= i < |b.workItems| && b.workItems[i] == m;
    var j :| 0 <= j < |b.workItems| && b.workItems[j] == n;
    assert i < j || j < i || i == j;
  }

  /** With nothing pending, whatever is unsettled is on or behind a dependency cycle. */
  lemma StuckIsBehindCycle(b: DagBoard, id: string)
    requires Valid(b) && Pending(b) == [] && id in WorkIds(b) - SettledWork(b)
    ensures LeadsToCycle(Dependencies(b), id)
  {
    PendingIsRunnable(b);
    var open, g := WorkIds(b) - SettledWork(b), Dependencies(b);
    forall x | x in open ensures HasSuccessor(g, open, x) {
      var n :| n in b.workItems && n.workId == x;
      assert !Runnable(n, b);
      assert ValidNode(n, b);
      var d :| d in n.dependencyIds && d !in SettledWork(b);
      assert d in open && (x, d) in g;
    }
    NoExitLeadsToCycle(g, open, id);
  }

  /** From a validated board with no settlements: every schedule keeps the board valid and
      dependency-closed and is no longer than the work, and a schedule that can go no further has
      settled exactly the items that are neither on nor behind a cycle. */
  lemma ScheduleSettlesExactlyAcyclicWork(b: DagBoard, rs: seq<SubagentResult>)
    requires Valid(b) && b.results == [] && IsSchedule(b, rs)
    ensures var e := Run(b, rs);
      && Valid(e) && DependencyClosed(e) && |rs| <= |b.workItems|
      && (forall id :: id in SettledWork(e) ==> !LeadsToCycle(Dependencies(b), id))
      && (Pending(e) == [] ==>
            SettledWork(e) == set id | id in WorkIds(b) && !LeadsToCycle(Dependencies(b), id))
  {
    ScheduleKeepsBoard(b, rs);
    var e := Run(b, rs);
    assert Dependencies(e) == Dependencies(b) && WorkIds(e) == WorkIds(b);
    SettledCount(e);
    assert SettledWork(e) <= WorkIds(e);
    if Pending(e) == [] {
      forall id | id in WorkIds(b) && !LeadsToCycle(Dependencies(b), id) ensures id in SettledWork(e) {
        if id !in SettledWork(e) { StuckIsBehindCycle(e, id); }
      }
    }
  }

  /** On acyclic dependencies work remains pending until all of it is settled: with nothing pending a
      schedule took exactly one settlement per item, and after any shorter one something is pending. */
  lemma AcyclicWorkFinishes(b: DagBoard, rs: seq<SubagentResult>)
    requires Valid(b) && b.results == [] && IsSchedule(b, rs) && !Cyclic(Dependencies(b))
    ensures Pending(Run(b, rs)) == [] <==> |rs| == |b.workItems|
  {
    ScheduleSettlesExactlyAcyclicWork(b, rs);
    ScheduleKeepsBoard(b, rs);
    var e := Run(b, rs);
    assert WorkIds(e) == WorkIds(b);
    SettledCount(e);
    forall id | LeadsToCycle(Dependencies(b), id) ensures false {
      var p, i: nat :| Lasso(Dependencies(b), p, i) && p[0] == id;
      ReturningPathIsCyclic(Dependencies(b), p, i, |p| - 1);
    }
    if Pending(e) != [] {
      SomethingUnsettled(e);
    }
  }

  ghost predicate CanFinish(b: DagBoard) {
    exists rs :: IsSchedule(b, rs) && |rs| == |b.workItems|
  }

  predicate AllBound(b: DagBoard) {
    forall n :: n in b.workItems ==> n.HasInvocationBinding()
  }

  /** All work can be settled exactly when the dependencies are acyclic and every item carries its whole
      invocation binding. */
  lemma FinishableExactly(b: DagBoard)
    requires Valid(b) && b.results == []
    ensures CanFinish(b) <==> !Cyclic(Dependencies(b)) && AllBound(b)
  {
    if CanFinish(b) {
      var rs :| IsSchedule(b, rs) && |rs| == |b.workItems|;
      FinishedIsBound(b, rs);
      FinishedIsAcyclic(b, rs);
    }
    if !Cyclic(Dependencies(b)) && AllBound(b) {
      var rs := Finish(b);
    }
  }

  lemma FinishedIsAcyclic(b: DagBoard, rs: seq<SubagentResult>)
    requires Valid(b) && b.results == [] && IsSchedule(b, rs) && |rs| == |b.workItems|
    ensures !Cyclic(Dependencies(b))
  {
    ScheduleKeepsBoard(b, rs);
    ScheduleSettlesExactlyAcyclicWork(b, rs);
    var e := Run(b, rs);
    SettledCount(e);
    assert WorkIds(e) == WorkIds(b);
    if Cyclic(Dependencies(b)) {
      var c :| IsCycle(Dependencies(b), c);
      assert Edge(Dependencies(b), c, 0);
      assert Lasso(Dependencies(b), c, 0);
      assert c[0] in WorkIds(b) && LeadsToCycle(Dependencies(b), c[0]);
    }
  }

  lemma FinishedIsBound(b: DagBoard, rs: seq<SubagentResult>)
    requires Valid(b) && b.results == [] && IsSchedule(b, rs) && |rs| == |b.workItems|
    ensures AllBound(b)
  {
    ScheduleKeepsBoard(b, rs);
    var e := Run(b, rs);
    SettledCount(e);
    forall n | n in b.workItems ensures n.HasInvocationBinding() {
      NodeSettledByTask(e, n);
      assert n.workId in WorkIds(e);
      var r :| r in e.results && n.taskId == Some(r.taskId);
      assert ValidResult(r, e);
      var m :| m in e.workItems && Binds(r, m);
      SameTask(e, m, n);
    }
  }

  lemma SameTask(b: DagBoard, m: DagNode, n: DagNode)
    requires Valid(b) && m in b.workItems && n in b.workItems && m.taskId == n.taskId
    ensures m == n
  {
    var i :| 0 <= i < |b.workItems| && b.workItems[i] == m;
    var j :| 0 <= j < |b.workItems| && b.workItems[j] == n;
    assert i < j || j < i || i == j;
  }

  /** A schedule of everything, one pending item after the other. */
  lemma Finish(b: DagBoard) returns (rs: seq<SubagentResult>)
    requires Valid(b) && DependencyClosed(b) && !Cyclic(Dependencies(b)) && AllBound(b)
    ensures IsSchedule(b, rs) && |b.results| + |rs| == |b.workItems|
    decreases |b.workItems| - |b.results|
  {
    SettledCount(b);
    if Pending(b) == [] {
      StuckIsFinished(b);
      rs := [];
    } else {
      var n := Pending(b)[0];
      assert n in Pending(b);
      PendingIsRunnable(b);
      BindableExactly(n);
      var bound :| Binds(bound, n);
      var r := bound.(runId := b.runId);
      SettlePendingKeepsBoard(b, n, r);
      var s := Settle(b, r);
      assert Dependencies(s) == Dependencies(b);
      SettledCount(s);
      var rest := Finish(s);
      rs := [r] + rest;
      assert rs[1..] == rest;
    }
  }

  lemma StuckIsFinished(b: DagBoard)
    requires Valid(b) && Pending(b) == [] && !Cyclic(Dependencies(b))
    ensures |b.results| == |b.workItems|
  {
    forall id | id in WorkIds(b) ensures id in SettledWork(b) {
      if id !in SettledWork(b) {
        StuckIsBehindCycle(b, id);
        var p, i: nat :| Lasso(Dependencies(b), p, i) && p[0] == id;
        ReturningPathIsCyclic(Dependencies(b), p, i, |p| - 1);
      }
    }
    assert SettledWork(b) <= WorkIds(b);
    SettledCount(b);
  }

  const UNBOUND := DagNode("work", "run", 0, "task", [], 0, Some("task-id"), Some("objective"), None, None, None, None)
  const UNBOUND_BOARD := DagBoard("run", 0, [UNBOUND], [])

  /** A valid acyclic board whose one item is pending for ever: it names no agent, so no result binds it. */
  lemma UnboundItemStaysPending(rs: seq<SubagentResult>)
    ensures Valid(UNBOUND_BOARD) && !Cyclic(Dependencies(UNBOUND_BOARD)) && UNBOUND in Pending(UNBOUND_BOARD)
    ensures IsSchedule(UNBOUND_BOARD, rs) ==> rs == []
  {
    var b := UNBOUND_BOARD;
    assert b.workItems[0] == UNBOUND;
    forall n | n in b.workItems ensures ValidNode(n, b) {
      assert n == UNBOUND;
      assert "work"[0] == 'w' && "task-id"[0] == 't';
    }
    assert Dependencies(b) == {};
    forall c ensures !IsCycle(Dependencies(b), c) {
      assert IsCycle(Dependencies(b), c) ==> Edge(Dependencies(b), c, 0);
    }
    PendingIsRunnable(b);
    BindableExactly(UNBOUND);
    forall n | n in Pending(b) ensures n == UNBOUND {
    }
  }

  lemma SomethingUnsettled(b: DagBoard)
    requires Valid(b) && Pending(b) != []
    ensures SettledWork(b) != WorkIds(b)
  {
    PendingIsRunnable(b);
    var n := Pending(b)[0];
    assert n in Pending(b);
    NodeSettledByTask(b, n);
    assert n.workId in WorkIds(b);
  }

  lemma NodeSettledByTask(b: DagBoard, n: DagNode)
    requires Valid(b) && n in b.workItems
    ensures n.workId in SettledWork(b) <==> n.taskId.Some? && n.taskId.value in SettledTasks(b)
  {
    forall m | m in b.workItems && m.workId == n.workId ensures m == n {
      SameNode(b, m, n);
    }
  }

  /** Items on or behind a cycle are pending in no board reachable from an unsettled one. */
  lemma CycleIsNeverPending(b: DagBoard, rs: seq<SubagentResult>, n: DagNode)
    requires Valid(b) && b.results == [] && IsSchedule(b, rs)
    requires n in b.workItems && LeadsToCycle(Dependencies(b), n.workId)
    ensures n !in Pending(Run(b, rs))
  {
    ScheduleKeepsBoard(b, rs);
    var e := Run(b, rs);
    PendingIsRunnable(e);
    assert Dependencies(e) == Dependencies(b);
    var d := DoomedHasDoomedDependency(Dependencies(b), n.workId);
    var m :| m in b.workItems && m.workId == n.workId && d in m.dependencyIds;
    SameNode(b, m, n);
  }

  // ---- Counting ----

  lemma {:induction false} DistinctCount(s: seq<string>)
    requires Distinct(s)
    ensures |(set x | x in s)| == |s|
  {
    if s != [] {
      var n := |s| - 1;
      DistinctCount(s[..n]);
      assert s == s[..n] + [s[n]];
      assert (set x | x in s) == (set x | x in s[..n]) + {s[n]};
    }
  }

  lemma {:induction false} Subset(a: set<string>, b: set<string>)
    requires a <= b
    ensures |a| <= |b| && (|a| == |b| ==> a == b)
  {
    assert b == a + (b - a);
  }

  ghost function TaskIds(b: DagBoard): set<string> {
    set n | n in b.workItems && n.taskId.Some? :: n.taskId.value
  }

  lemma TaskIdsCount(b: DagBoard)
    requires Valid(b)
    ensures |TaskIds(b)| == |b.workItems|
  {
    forall n | n in b.workItems ensures n.taskId.Some? { assert ValidNode(n, b); }
    var tasks := seq(|b.workItems|, i requires 0 <= i < |b.workItems| => b.workItems[i].taskId.value);
    DistinctCount(tasks);
    forall n | n in b.workItems ensures n.taskId.value in tasks {
      var i :| 0 <= i < |b.workItems| && b.workItems[i] == n;
      assert tasks[i] == n.taskId.value;
    }
    assert TaskIds(b) == set x | x in tasks;
  }

  lemma SettledTasksCount(b: DagBoard)
    requires Valid(b)
    ensures |SettledTasks(b)| == |b.results| && SettledTasks(b) <= TaskIds(b)
  {
    var settled := seq(|b.results|, i requires 0 <= i < |b.results| => b.results[i].taskId);
    DistinctCount(settled);
    forall r | r in b.results ensures r.taskId in settled && r.taskId in TaskIds(b) {
      var i :| 0 <= i < |b.results| && b.results[i] == r;
      assert settled[i] == r.taskId;
      assert ValidResult(r, b);
    }
    assert SettledTasks(b) == set x | x in settled;
  }

  lemma AllSettledByTasks(b: DagBoard)
    requires Valid(b)
    ensures SettledWork(b) == WorkIds(b) <==> TaskIds(b) <= SettledTasks(b)
  {
    if SettledWork(b) == WorkIds(b) {
      forall n | n in b.workItems && n.taskId.Some? ensures n.taskId.value in SettledTasks(b) {
        NodeSettledByTask(b, n);
        assert n.workId in WorkIds(b);
      }
    }
    if TaskIds(b) <= SettledTasks(b) {
      forall n | n in b.workItems ensures n.workId in SettledWork(b) {
        assert ValidNode(n, b);
        assert n.taskId.value in TaskIds(b);
      }
    }
  }

  /** One settled item per result, and all items settled exactly when there are as many results. */
  lemma SettledCount(b: DagBoard)
    requires Valid(b)
    ensures |b.results| <= |b.workItems|
    ensures SettledWork(b) == WorkIds(b) <==> |b.results| == |b.workItems|
  {
    TaskIdsCount(b);
    SettledTasksCount(b);
    AllSettledByTasks(b);
    var settled, all := SettledTasks(b), TaskIds(b);
    Subset(settled, all);
    if all <= settled { assert all == settled; }
  }
}

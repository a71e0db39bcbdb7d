/**
 The life of one task in the table (zklock/zk_balancer.go), told by its own record: what can remove
 it, and what can change its status, owner and time stamp.
 */
module BalancerLife {
  import opened BalancerProtocol

  /** The step tells that the task has been released, or finds it 120 seconds old. */
  predicate Told(s: State, a: Action, p: Path) {
    && p in s.tasks
    && ((a.Release? && p in a.paths) || (a.Timeout? && s.now - s.tasks[p].timestamp >= 120))
  }

  /** The step balances the task. */
  predicate BalancedBy(s: State, a: Action, p: Path) {
    a.Rebalance? && p in s.tasks && s.tasks[p].status in {Assigned, Init}
  }

  /** The step finds the owner of the task gone. */
  predicate OwnerGone(s: State, a: Action, p: Path) {
    a.Orphans? && p in s.tasks && s.tasks[p].owner !in s.nodes
  }

  /** Exactly the Deleting tasks that are released or 120 seconds old leave the table, and none enters it. */
  lemma TaskRemoved(s: State, a: Action, s': State, p: Path)
    requires Step(s, a, s')
    ensures p in s'.tasks <==> p in s.tasks && !(s.tasks[p].status == Deleting && Told(s, a, p))
  {
    hide Content, Written, AfterSet;
  }

  /** What a step may make of the record `t`: field by field, and each change for its reason only. */
  predicate Lives(s: State, a: Action, p: Path, t: Task, t': Task) {
    && t'.path == t.path && t'.payload == t.payload && t'.weight == t.weight
    && (BalancedBy(s, a, p) ==> p in a.assign && t'.owner == a.assign[p])
    && (OwnerGone(s, a, p) ==> t'.owner == "")
    && (!BalancedBy(s, a, p) && !OwnerGone(s, a, p) ==> t'.owner == t.owner)
    && (t'.status == Releasing && t.status != Releasing <==>
          BalancedBy(s, a, p) && t.status == Assigned && t'.owner != t.owner)
    && (t'.status == Assigned && t.status != Assigned <==>
          (BalancedBy(s, a, p) && t.status == Init) || (t.status == Releasing && Told(s, a, p)))
    && (t'.status == Init && t.status != Init <==> OwnerGone(s, a, p) && t.status != Init)
    && (t'.status == Deleting ==> t.status == Deleting)
    && (t'.timestamp == if Stamped(s, a, p) then s.now else t.timestamp)
  }

  /** Balancing, a release and the check of an Init task stamp the task with the time of the step. */
  predicate Stamped(s: State, a: Action, p: Path) {
    || BalancedBy(s, a, p)
    || (p in s.tasks && s.tasks[p].status == Releasing && Told(s, a, p))
    || (p in s.tasks && s.tasks[p].status == Init && a.Timeout?)
  }

  lemma TaskChanges(s: State, a: Action, s': State, p: Path)
    requires Step(s, a, s') && p in s.tasks && p in s'.tasks
    ensures Lives(s, a, p, s.tasks[p], s'.tasks[p])
  {
    hide Content, Written, AfterSet, Lives;
    match a
    case Rebalance(assign) => RebalanceChanges(s, assign, s', p);
    case Orphans => OrphansChange(s, s', p);
    case Release(_) => HandlerChanges(s, a, s', p);
    case Timeout => HandlerChanges(s, a, s', p);
    case _ => Unchanged(s, a, p);
  }

  lemma RebalanceChanges(s: State, assign: map<Path, Worker>, s': State, p: Path)
    requires Step(s, Rebalance(assign), s') && p in s.tasks && p in s'.tasks
    ensures Lives(s, Rebalance(assign), p, s.tasks[p], s'.tasks[p])
  {
    assert p in assign <==> p in Balanceable(s.tasks);
  }

  lemma OrphansChange(s: State, s': State, p: Path)
    requires Step(s, Orphans, s') && p in s.tasks && p in s'.tasks
    ensures Lives(s, Orphans, p, s.tasks[p], s'.tasks[p])
  {
  }

  lemma HandlerChanges(s: State, a: Action, s': State, p: Path)
    requires (a.Release? || a.Timeout?) && Step(s, a, s') && p in s.tasks && p in s'.tasks
    ensures Lives(s, a, p, s.tasks[p], s'.tasks[p])
  {
  }

  lemma Unchanged(s: State, a: Action, p: Path)
    requires !a.Rebalance? && !a.Orphans? && !a.Release? && !a.Timeout? && p in s.tasks
    ensures Lives(s, a, p, s.tasks[p], s.tasks[p])
  {
  }

  /** A task that is not Deleting is never lost in a run, and keeps its payload and weight. */
  lemma {:induction false} TaskStays(ss: seq<State>, acts: seq<Action>, i: nat, j: nat, p: Path)
    requires IsRun(ss, acts) && i <= j < |ss| && p in ss[i].tasks && ss[i].tasks[p].status != Deleting
    ensures p in ss[j].tasks && ss[j].tasks[p].status != Deleting
    ensures ss[j].tasks[p].payload == ss[i].tasks[p].payload && ss[j].tasks[p].weight == ss[i].tasks[p].weight
    decreases j
  {
    hide Step;
    if i < j {
      TaskStays(ss, acts, i, j - 1, p);
      RunSteps(ss, acts, j - 1);
      TaskRemoved(ss[j - 1], acts[j - 1], ss[j], p);
      TaskChanges(ss[j - 1], acts[j - 1], ss[j], p);
    }
  }

  /** A task leaves the table of a run only as Deleting, at a step that tells of its release or after 120 seconds. */
  lemma {:induction false} TaskLeaves(ss: seq<State>, acts: seq<Action>, i: nat, j: nat, p: Path) returns (k: nat)
    requires IsRun(ss, acts) && i <= j < |ss| && p in ss[i].tasks && p !in ss[j].tasks
    ensures i <= k < j && k < |acts| && p in ss[k].tasks && p !in ss[k + 1].tasks
    ensures ss[k].tasks[p].status == Deleting && Told(ss[k], acts[k], p)
    decreases j - i
  {
    hide Step;
    RunSteps(ss, acts, i);
    TaskRemoved(ss[i], acts[i], ss[i + 1], p);
    if p in ss[i + 1].tasks {
      k := TaskLeaves(ss, acts, i + 1, j, p);
    } else {
      k := i;
    }
  }

  // ----- the handlers' tables, task by task -----

  /** innerOnReleased: Init and Assigned stay, Releasing becomes Assigned to the same owner, Deleting goes. */
  ghost predicate ReleasedTable(before: Table, after: Table, paths: set<Path>, now: int) {
    && (forall p :: p in after <==> p in before && !(p in paths && before[p].status == Deleting))
    && (forall p <- after :: p !in paths || before[p].status == Init || before[p].status == Assigned ==>
          after[p] == before[p])
    && (forall p <- after :: p in paths && before[p].status == Releasing ==>
          after[p] == before[p].(status := Assigned, timestamp := now))
  }

  lemma ReleasedIs(before: Table, paths: set<Path>, now: int)
    ensures ReleasedTable(before, Released(before, paths, now), paths, now)
  {
  }

  /** handleReleaseTimeoutAndInitTasks: after 120 seconds Releasing becomes Assigned and Deleting goes. */
  ghost predicate TimedOutTable(before: Table, after: Table, now: int) {
    && (forall p :: p in after <==>
          p in before && !(before[p].status == Deleting && now - before[p].timestamp >= 120))
    && (forall p <- after :: before[p].status == Assigned || before[p].status == Deleting ==> after[p] == before[p])
    && (forall p <- after :: before[p].status == Init ==> after[p] == before[p].(timestamp := now))
    && (forall p <- after :: before[p].status == Releasing ==>
          after[p] == if now - before[p].timestamp >= 120 then before[p].(status := Assigned, timestamp := now)
                      else before[p])
  }

  lemma TimedOutIs(before: Table, now: int)
    ensures TimedOutTable(before, TimedOut(before, now), now)
  {
  }

  // ----- loading -----

  /** A task found in a node is Assigned to that worker if it is known and Deleting if it is not. */
  predicate Loaded(init: Table, after: Table, w: Worker, p: Path, now: int) {
    && p in after && after[p].path == p && after[p].owner == w && after[p].timestamp == now
    && after[p].status == (if p in init then Assigned else Deleting)
    && (p in init ==> after[p].payload == init[p].payload && after[p].weight == init[p].weight)
  }

  lemma {:induction false} LoadNodeOthers(tasks: Table, w: Worker, found: seq<Task>, now: int, p: Path)
    requires !HasPath(found, p)
    ensures p in LoadNode(tasks, w, found, now) <==> p in tasks
    ensures p in tasks ==> LoadNode(tasks, w, found, now)[p] == tasks[p]
    decreases |found|
  {
    if found != [] {
      assert found == [found[0]] + found[1..];
      assert HasPath(found, p) <==> found[0].path == p || HasPath(found[1..], p);
      LoadNodeOthers(LoadOne(tasks, w, found[0], now), w, found[1..], now, p);
    }
  }

  /** Each path of a node once. */
  ghost predicate DistinctPaths(found: seq<Task>) {
    forall i, j :: 0 <= i < j < |found| ==> found[i].path != found[j].path
  }

  lemma {:induction false} LoadNodeExactly(tasks: Table, w: Worker, found: seq<Task>, now: int, p: Path)
    requires Keyed(tasks) && DistinctPaths(found) && HasPath(found, p) && forall t <- found :: t.owner == w
    ensures Loaded(tasks, LoadNode(tasks, w, found, now), w, p, now)
    decreases |found|
  {
    var first := LoadOne(tasks, w, found[0], now);
    assert found == [found[0]] + found[1..];
    assert HasPath(found, p) <==> found[0].path == p || HasPath(found[1..], p);
    if found[0].path == p {
      assert !HasPath(found[1..], p);
      LoadNodeOthers(first, w, found[1..], now, p);
    } else {
      LoadNodeExactly(first, w, found[1..], now, p);
    }
  }

  ghost predicate NodesDistinct(nodes: Nodes) {
    NodesReady(nodes) && forall w <- nodes :: DistinctPaths(nodes[w])
  }

  /** The path is in none of these workers' nodes. */
  ghost predicate InNone(nodes: Nodes, workers: seq<Worker>, p: Path) {
    forall w <- workers :: !InNode(nodes, w, p)
  }

  lemma {:induction false} LoadAllOthers(tasks: Table, workers: seq<Worker>, nodes: Nodes, now: int, p: Path)
    requires InNone(nodes, workers, p)
    ensures p in LoadAll(tasks, workers, nodes, now) <==> p in tasks
    ensures p in tasks ==> LoadAll(tasks, workers, nodes, now)[p] == tasks[p]
    decreases |workers|
  {
    if workers != [] {
      var w := workers[0];
      assert !InNode(nodes, w, p);
      var next := if w in nodes then LoadNode(tasks, w, nodes[w], now) else tasks;
      if w in nodes {
        assert HasPath(nodes[w], p) ==> InNode(nodes, w, p);
        LoadNodeOthers(tasks, w, nodes[w], now, p);
      }
      LoadAllOthers(next, workers[1..], nodes, now, p);
    }
  }

  /**
   Loading all nodes: a task found in a node becomes Assigned to its worker if it was configured and
   Deleting if it was not; a task found nowhere keeps its record, and nothing else enters the table.
   */
  lemma {:induction false} LoadExactly(
    tasks: Table, workers: seq<Worker>, nodes: Nodes, now: int, w: Worker, p: Path)
    requires Keyed(tasks) && NodesDistinct(nodes) && InNode(nodes, w, p) && w in workers
    requires forall i, j :: 0 <= i < j < |workers| ==> workers[i] != workers[j]
    ensures Loaded(tasks, LoadAll(tasks, workers, nodes, now), w, p, now)
    decreases |workers|
  {
    hide LoadNode, Loaded;
    var x := workers[0];
    var rest := workers[1..];
    var next := if x in nodes then LoadNode(tasks, x, nodes[x], now) else tasks;
    if x == w {
      assert HasPath(nodes[w], p);
      LoadNodeExactly(tasks, w, nodes[w], now, p);
      assert InNone(nodes, rest, p) by {
        assert forall y <- rest :: InNode(nodes, y, p) ==> y == w;
      }
      LoadAllOthers(next, rest, nodes, now, p);
      LoadedStays(tasks, next, LoadAll(next, rest, nodes, now), w, p, now);
    } else {
      if x in nodes {
        LoadNodeKeyed(tasks, x, nodes[x], now);
        assert HasPath(nodes[x], p) ==> InNode(nodes, x, p);
        LoadNodeOthers(tasks, x, nodes[x], now, p);
      }
      LoadExactly(next, rest, nodes, now, w, p);
      LoadedSame(tasks, next, LoadAll(next, rest, nodes, now), w, p, now);
    }
  }

  lemma LoadedStays(init: Table, mid: Table, after: Table, w: Worker, p: Path, now: int)
    requires Loaded(init, mid, w, p, now) && p in after && after[p] == mid[p]
    ensures Loaded(init, after, w, p, now)
  {
  }

  lemma LoadedSame(init: Table, mid: Table, after: Table, w: Worker, p: Path, now: int)
    requires Loaded(mid, after, w, p, now) && (p in init <==> p in mid) && (p in init ==> mid[p] == init[p])
    ensures Loaded(init, after, w, p, now)
  {
  }
}

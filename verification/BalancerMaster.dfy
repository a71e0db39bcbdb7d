/**
 The master of zklock/zk_balancer.go as an object. `nodes` and `now` stand for ZooKeeper and the
 clock. Every method logs the protocol steps it performs, one per node write, so that what is
 proved about all runs of the protocol holds at every point of its execution.
 */
module BalancerMaster {
  import opened BalancerProtocol
  import opened BalancerGreedy
  import opened BalancerLife

  /** One task before and after: a balanced one has a listed owner and is Releasing exactly when it moved. */
  ghost predicate Placement(before: Task, after: Task, balanced: bool, workers: seq<Worker>) {
    if balanced then
      && after.owner in workers
      && after.status == (if before.status == Assigned && before.owner != after.owner then Releasing else Assigned)
    else after == before
  }

  /** What balanceTasks has achieved when it returns true. */
  ghost predicate Balanced(before: Table, after: Table, workers: seq<Worker>) {
    && after.Keys == before.Keys
    && (forall p <- after :: Placement(before[p], after[p], p in Balanceable(before), workers))
    && (|Balanceable(before)| >= |workers| ==> forall w <- workers :: Owns(after, w))
  }

  ghost predicate Owns(tasks: Table, w: Worker) {
    exists p <- tasks :: tasks[p].owner == w && tasks[p].status != Deleting
  }

  lemma ReassignedStatus(tasks: Table, assign: map<Path, Worker>, now: int, workers: seq<Worker>)
    requires assign.Keys == Balanceable(tasks) && forall p <- assign :: assign[p] in workers
    ensures var after := Reassigned(tasks, assign, now);
            && after.Keys == tasks.Keys
            && forall p <- after :: Placement(tasks[p], after[p], p in Balanceable(tasks), workers)
  {
  }

  lemma EveryWorkerOwns(tasks: Table, sorted: seq<Path>, workers: seq<Worker>, assign: map<Path, Worker>, now: int)
    requires assign.Keys == Balanceable(tasks) && |workers| <= |sorted|
    requires forall i :: 0 <= i < |workers| ==> sorted[i] in assign && assign[sorted[i]] == workers[i]
    ensures forall w <- workers :: Owns(Reassigned(tasks, assign, now), w)
  {
    var after := Reassigned(tasks, assign, now);
    forall w | w in workers ensures Owns(after, w) {
      var i :| 0 <= i < |workers| && workers[i] == w;
      assert after[sorted[i]].owner == w;
    }
  }

  /** No task is lost or left Init, every balanced task has a listed owner, no worker goes idle needlessly. */
  lemma DistributionBalances(
    tasks: Table, sorted: seq<Path>, workers: seq<Worker>, weights: map<Worker, int>, assign: map<Path, Worker>,
    now: int)
    requires Progress(sorted, workers, |sorted|, weights, assign)
    requires FirstOf(sorted, |sorted|) == Balanceable(tasks) && |sorted| == |Balanceable(tasks)|
    ensures assign.Keys == Balanceable(tasks)
    ensures Balanced(tasks, Reassigned(tasks, assign, now), workers)
  {
    hide Placement, Reassigned, Owns;
    ReassignedStatus(tasks, assign, now, workers);
    if |workers| <= |sorted| {
      EveryWorkerOwns(tasks, sorted, workers, assign, now);
    }
  }

  /** The part of balanceTasks that changes the task records: sorting and the assignment loops. */
  method PlanBalance(tasks: Table, workers: seq<Worker>, eligible: set<Path>, now: int)
    returns (out: Table, ghost assign: map<Path, Worker>)
    requires Distinct(workers) && workers != [] && eligible == Balanceable(tasks) && eligible != {}
    ensures assign.Keys == Balanceable(tasks) && out == Reassigned(tasks, assign, now)
    ensures Balanced(tasks, out, workers)
  {
    var sorted := SortByWeight(eligible, tasks);
    ghost var p :| p in eligible;
    assert p in sorted;
    assert FirstOf(sorted, |sorted|) == eligible;
    var weights;
    ghost var picks;
    out, weights, picks := Distribute(tasks, sorted, workers, now);
    assign := AssignAfter(sorted, picks);
    PicksProgress(tasks, sorted, workers, picks);
    DistributionBalances(tasks, sorted, workers, weights, assign, now);
  }

  /** Every listed worker's node holds exactly the tasks Assigned to it. */
  ghost predicate Filled(nodes: Nodes, tasks: Table, workers: seq<Worker>) {
    forall w <- workers :: w in nodes && Content(nodes[w], tasks, w)
  }

  /** The tasks were balanced over the live workers, and the nodes rewritten if there were any to balance. */
  ghost predicate Rebalanced(before: Table, after: Table, nodes: Nodes) {
    && (exists workers: seq<Worker> :: Distinct(workers) && Lists(workers, nodes) && Balanced(before, after, workers))
    && (Balanceable(before) != {} ==> forall w <- nodes :: Content(nodes[w], after, w))
  }

  ghost predicate Lists(workers: seq<Worker>, nodes: Nodes) {
    forall w :: w in workers <==> w in nodes
  }

  lemma RebalancedBy(before: Table, after: Table, nodes: Nodes, workers: seq<Worker>)
    requires Distinct(workers) && Lists(workers, nodes) && Balanced(before, after, workers)
    requires Balanceable(before) != {} ==> Filled(nodes, after, workers)
    ensures Rebalanced(before, after, nodes)
  {
    hide Balanced, Content, Distinct, Balanceable;
  }

  lemma NothingToBalance(tasks: Table, workers: seq<Worker>)
    requires Balanceable(tasks) == {} && workers != []
    ensures Balanced(tasks, tasks, workers)
  {
  }

  /** The owners named in a task list. */
  ghost function Owners(ts: seq<Task>): set<Worker> {
    set i | 0 <= i < |ts| :: ts[i].owner
  }

  /** Exactly the live nodes among `owners` were rewritten from the table. */
  ghost predicate OnlyRewritten(owners: set<Worker>, before: Nodes, after: Nodes, tasks: Table) {
    forall w <- after :: if w in owners then Content(after[w], tasks, w) else w in before && after[w] == before[w]
  }

  /** The node of a live worker holds exactly the tasks Assigned to it. */
  ghost predicate NodeIsCurrent(nodes: Nodes, tasks: Table, w: Worker) {
    w in nodes ==> Content(nodes[w], tasks, w)
  }

  /** Either way of following up leaves the owners' nodes current. */
  lemma OwnersServed(after: Table, tasks: Table, before: Nodes, nodes: Nodes, owners: set<Worker>, w: Worker)
    requires w in owners && Balanceable(after) != {}
    requires Rebalanced(after, tasks, nodes) || OnlyRewritten(owners, before, nodes, tasks)
    ensures NodeIsCurrent(nodes, tasks, w)
  {
    hide Content, Balanced, Balanceable;
  }

  lemma NothingRewritten(nodes: Nodes, tasks: Table)
    ensures OnlyRewritten({}, nodes, nodes, tasks)
  {
  }

  lemma RewrittenOne(nodes: Nodes, w: Worker, c: seq<Task>, tasks: Table)
    requires Content(c, tasks, w)
    ensures AfterSet(nodes, w, c).Keys == nodes.Keys
    ensures OnlyRewritten({w}, nodes, AfterSet(nodes, w, c), tasks)
  {
    hide Content;
  }

  lemma RewrittenMore(done: set<Worker>, w: Worker, first: Nodes, before: Nodes, after: Nodes, tasks: Table)
    requires before.Keys == after.Keys
    requires OnlyRewritten(done, first, before, tasks) && OnlyRewritten({w}, before, after, tasks)
    ensures OnlyRewritten(done + {w}, first, after, tasks)
  {
    hide Content;
  }

  lemma OwnerListed(ts: seq<Task>, i: nat)
    requires i < |ts|
    ensures ts[i].owner in Owners(ts)
  {
  }

  lemma NoOwners()
    ensures Owners([]) == {} && multiset(Owners([])) == multiset{}
  {
  }

  lemma AllOwners(ts: seq<Task>, done: set<Worker>)
    requires done <= Owners(ts) && forall k :: 0 <= k < |ts| ==> ts[k].owner in done
    ensures done == Owners(ts)
    ensures multiset(Owners(ts) - done) == multiset{}
  {
  }

  lemma MultisetMinus(s: set<Worker>, w: Worker)
    requires w in s
    ensures multiset(s) - multiset{w} == multiset(s - {w})
  {
  }

  lemma OwnersAppend(ts: seq<Task>, t: Task)
    ensures Owners(ts + [t]) == Owners(ts) + {t.owner}
  {
    assert forall i :: 0 <= i < |ts| ==> (ts + [t])[i] == ts[i];
    assert (ts + [t])[|ts|] == t;
    forall w | w in Owners(ts) + {t.owner} ensures w in Owners(ts + [t]) {
      if w in Owners(ts) {
        var i :| 0 <= i < |ts| && ts[i].owner == w;
        assert (ts + [t])[i].owner == w;
      }
    }
  }

  lemma ReleasedStep(tasks: Table, seen: set<Path>, p: Path, now: int)
    requires p !in seen
    ensures p in Released(tasks, seen, now) <==> p in tasks
    ensures p in tasks ==> Released(tasks, seen, now)[p] == tasks[p]
    ensures p !in tasks ==> Released(tasks, seen + {p}, now) == Released(tasks, seen, now)
    ensures ReleasedOwners(tasks, seen + {p})
         == ReleasedOwners(tasks, seen) + (if p in tasks && tasks[p].status == Releasing then {tasks[p].owner} else {})
  {
  }

  predicate HasInit(tasks: Table) {
    exists p <- tasks :: tasks[p].status == Init
  }

  /** TimedOut applied to the tasks visited so far. */
  function TimedOutPart(tasks: Table, done: set<Path>, now: int): Table {
    map p | p in tasks && !(p in done && tasks[p].status == Deleting && Expired(tasks[p], now)) ::
      if p in done then TimeOut(tasks[p], now) else tasks[p]
  }

  function PartOwners(tasks: Table, done: set<Path>, now: int): set<Worker> {
    set p | p in tasks && p in done && tasks[p].status == Releasing && Expired(tasks[p], now) :: tasks[p].owner
  }

  lemma PartStep(tasks: Table, done: set<Path>, p: Path, now: int)
    requires p in tasks && p !in done
    ensures var part, next := TimedOutPart(tasks, done, now), TimedOutPart(tasks, done + {p}, now);
            && p in part && part[p] == tasks[p]
            && next == (if tasks[p].status == Deleting && Expired(tasks[p], now) then part - {p}
                        else part[p := TimeOut(tasks[p], now)])
    ensures PartOwners(tasks, done + {p}, now)
         == PartOwners(tasks, done, now)
            + (if tasks[p].status == Releasing && Expired(tasks[p], now) then {tasks[p].owner} else {})
  {
  }

  lemma PartAll(tasks: Table, done: set<Path>, now: int)
    requires done == tasks.Keys
    ensures TimedOutPart(tasks, done, now) == TimedOut(tasks, now)
    ensures PartOwners(tasks, done, now) == TimedOutOwners(tasks, now)
    ensures (exists p <- done :: tasks[p].status == Releasing && !Expired(tasks[p], now))
        <==> !NoReleasing(TimedOut(tasks, now))
  {
    var out := TimedOut(tasks, now);
    forall p | p in tasks && tasks[p].status == Releasing && !Expired(tasks[p], now)
      ensures p in out && out[p] == tasks[p] {
    }
  }

  /** The history was only extended. */
  ghost predicate Grew(before: seq<State>, after: seq<State>) {
    before <= after
  }

  lemma GrewLaws()
    ensures forall a :: Grew(a, a)
    ensures forall a, s :: Grew(a, a + [s])
    ensures forall a, b, c :: Grew(a, b) && Grew(b, c) ==> Grew(a, c)
  {
  }

  lemma GrewTwice(a: seq<State>, b: seq<State>, c: seq<State>)
    requires Grew(a, b) && Grew(b, c)
    ensures Grew(a, c)
  {
  }

  lemma SameStart(a: seq<State>, b: seq<State>)
    requires |a| > 0 && Grew(a, b)
    ensures |b| > 0 && b[0] == a[0]
  {
  }

  lemma FirstAdded(a: seq<State>, s: State, b: seq<State>)
    requires Grew(a + [s], b)
    ensures |b| > |a| && b[|a|] == s && Grew(a, b)
  {
    assert (a + [s])[|a|] == s;
  }

  ghost predicate AllCurrent(workers: set<Worker>, nodes: Nodes, tasks: Table) {
    forall w <- workers :: NodeIsCurrent(nodes, tasks, w)
  }

  lemma NoneCurrent(nodes: Nodes, tasks: Table)
    ensures AllCurrent({}, nodes, tasks)
  {
  }

  lemma OneMoreCurrent(workers: set<Worker>, w: Worker, before: Nodes, nodes: Nodes, tasks: Table)
    requires AllCurrent(workers, before, tasks) && before.Keys == nodes.Keys
    requires OnlyRewritten({w}, before, nodes, tasks)
    ensures AllCurrent(workers + {w}, nodes, tasks)
  {
    hide Content;
  }

  lemma OwnersCurrent(nodes: Nodes, tasks: Table)
    requires AllCurrent(DeletingOwners(tasks), nodes, tasks)
    ensures forall p <- tasks :: tasks[p].status == Deleting ==>
      tasks[p].owner in DeletingOwners(tasks) && NodeIsCurrent(nodes, tasks, tasks[p].owner)
  {
    hide NodeIsCurrent;
  }

  lemma ReleasedServed(before: Table, tasks: Table, nodes0: Nodes, nodes: Nodes, paths: set<Path>, now: int)
    requires var owners, after := ReleasedOwners(before, paths), Released(before, paths, now);
             Rebalanced(after, tasks, nodes) || OnlyRewritten(owners, nodes0, nodes, tasks)
    ensures forall p <- before :: p in paths && before[p].status == Releasing ==>
      NodeIsCurrent(nodes, tasks, before[p].owner)
  {
    hide Rebalanced, OnlyRewritten, NodeIsCurrent;
    var after := Released(before, paths, now);
    forall p | p in before && p in paths && before[p].status == Releasing
      ensures NodeIsCurrent(nodes, tasks, before[p].owner)
    {
      assert p in Balanceable(after);
      OwnersServed(after, tasks, nodes0, nodes, ReleasedOwners(before, paths), before[p].owner);
    }
  }

  lemma StillReleasing(before: Table, now: int)
    ensures NoReleasing(TimedOut(before, now)) <==>
      !exists p <- before :: before[p].status == Releasing && now - before[p].timestamp < 120
    ensures HasInit(before) <==> exists p <- before :: before[p].status == Init
  {
    var after := TimedOut(before, now);
    if p :| p in before && before[p].status == Releasing && now - before[p].timestamp < 120 {
      assert after[p].status == Releasing;
    }
  }

  /** An Init task is balanced at once, or the balancing is postponed because of a Releasing one. */
  lemma InitTasksServed(before: Table, tasks: Table, nodes: Nodes, other: bool, postponed: bool, now: int)
    requires var after := TimedOut(before, now);
      if nodes.Keys != {} && NoReleasing(after) && (HasInit(before) || other)
      then Rebalanced(after, tasks, nodes)
      else HasInit(before) && !NoReleasing(after) ==> postponed
    ensures (exists p <- before :: before[p].status == Init) && nodes.Keys != {} ==>
      if exists p <- before :: before[p].status == Releasing && now - before[p].timestamp < 120
      then postponed
      else forall p <- tasks :: tasks[p].status != Init
  {
    hide Rebalanced, TimedOut, NoReleasing, HasInit;
    StillReleasing(before, now);
    if Rebalanced(TimedOut(before, now), tasks, nodes) {
      NoneInit(TimedOut(before, now), tasks, nodes);
    }
  }

  lemma NoneInit(before: Table, after: Table, nodes: Nodes)
    requires Rebalanced(before, after, nodes)
    ensures forall p <- after :: after[p].status != Init
  {
    hide Content, Distinct;
    var workers :| Distinct(workers) && Lists(workers, nodes) && Balanced(before, after, workers);
    assert forall p <- after :: Placement(before[p], after[p], p in Balanceable(before), workers);
  }

  lemma TimedOutServed(before: Table, tasks: Table, nodes0: Nodes, nodes: Nodes, now: int)
    requires var owners, after := TimedOutOwners(before, now), TimedOut(before, now);
             Rebalanced(after, tasks, nodes) || OnlyRewritten(owners, nodes0, nodes, tasks)
    ensures forall p <- before :: before[p].status == Releasing && now - before[p].timestamp >= 120 ==>
      NodeIsCurrent(nodes, tasks, before[p].owner)
  {
    hide Rebalanced, OnlyRewritten, NodeIsCurrent;
    var after := TimedOut(before, now);
    forall p | p in before && before[p].status == Releasing && now - before[p].timestamp >= 120
      ensures NodeIsCurrent(nodes, tasks, before[p].owner)
    {
      assert p in Balanceable(after);
      OwnersServed(after, tasks, nodes0, nodes, TimedOutOwners(before, now), before[p].owner);
    }
  }

  class Master {
    var tasks: Table
    var postponed: bool
    var nodes: Nodes
    var now: int

    ghost var locked: set<Worker>
    ghost var loose: multiset<Worker>
    ghost var pending: multiset<Pending>
    ghost var trace: seq<State>
    ghost var acts: seq<Action>

    ghost function Current(): State
      reads this
    {
      State(tasks, nodes, postponed, now, locked, loose, pending)
    }

    /** The trace is a run of the protocol from a good start, and nothing in it was overtaken. */
    ghost predicate Traced()
      reads `trace, `acts
    {
      IsRun(trace, acts) && InOrder(trace, acts) && Inv(trace[0]) && UpToDate(trace[0])
    }

    /** The object is at the end of its trace. */
    ghost predicate Valid()
      reads this
    {
      Traced() && trace[|trace| - 1] == Current()
    }

    /** No handler is in progress. */
    ghost predicate Idle()
      reads this
    {
      Valid() && locked == {} && pending == multiset{}
    }

    /** At no point of its execution so far was a task in two live workers' nodes. */
    lemma Safe()
      requires Valid()
      ensures forall i :: 0 <= i < |trace| ==> Exclusive(trace[i].nodes)
      ensures Keyed(tasks) && NodesReady(nodes)
      ensures locked == {} ==>
        forall w, p :: InNode(nodes, w, p) ==> p in tasks && tasks[p].status == Assigned && tasks[p].owner == w
    {
      forall i | 0 <= i < |trace| ensures Inv(trace[i]) {
        RunKeeps(trace, acts, i);
      }
    }

    lemma KeyedTable()
      requires Valid()
      ensures Keyed(tasks)
    {
      Safe();
    }

    ghost method Log(a: Action)
      requires Traced()
      requires Step(trace[|trace| - 1], a, Current())
      requires a.Rebalance? || a.Orphans? ==> pending == multiset{}
      modifies `trace, `acts
      ensures Valid()
      ensures trace == old(trace) + [Current()] && acts == old(acts) + [a]
    {
      hide Step, Inv, UpToDate, Overtakes, InOrder, IsRun;
      NotOvertaken(a);
      ExtendsRun();
      ExtendRun(trace, acts, a, Current());
      ExtendInOrder(trace, acts, a, Current());
      trace := trace + [Current()];
      acts := acts + [a];
    }

    lemma ExtendsRun()
      requires Traced()
      ensures |trace| == |acts| + 1 && trace != []
    {
    }

    lemma NotOvertaken(a: Action)
      requires Traced() && Step(trace[|trace| - 1], a, Current())
      requires a.Rebalance? || a.Orphans? ==> pending == multiset{}
      ensures !Overtakes(trace[|trace| - 1], a)
    {
    }

    // ----- node writes -----

    /** The task list of one worker, in the unknown order of Go's map iteration. */
    method Collect(worker: Worker) returns (c: seq<Task>)
      requires Keyed(tasks)
      ensures Content(c, tasks, worker)
    {
      c := [];
      var left := tasks.Keys;
      while left != {}
        invariant left <= tasks.Keys
        invariant forall t :: t in c <==>
          t.path in tasks && t.path !in left && tasks[t.path] == t && t.status == Assigned && t.owner == worker
        invariant forall i, j :: 0 <= i < j < |c| ==> c[i].path != c[j].path
        decreases |left|
      {
        var p :| p in left;
        var t := tasks[p];
        if t.owner == worker && t.status == Assigned {
          c := c + [t];
        }
        left := left - {p};
      }
    }

    /**
     assignedTasks: collect the worker's tasks and set its node, if it is still there. One step of
     the protocol under the mutex, two without it.
     */
    method AssignedTasks(worker: Worker, ghost underMutex: bool) returns (ok: bool)
      requires Valid() && pending == multiset{}
      requires if underMutex then worker in locked else worker in loose
      modifies `nodes, `locked, `loose, `pending, `trace, `acts
      ensures Valid() && Grew(old(trace), trace) && pending == multiset{}
      ensures ok <==> worker in old(nodes)
      ensures nodes.Keys == old(nodes).Keys && OnlyRewritten({worker}, old(nodes), nodes, tasks)
      ensures locked == old(locked) - (if underMutex then {worker} else {})
      ensures loose == old(loose) - (if underMutex then multiset{} else multiset{worker})
    {
      hide Valid, Content, Keyed, OnlyRewritten, Grew, AfterSet;
      KeyedTable();
      var data := Collect(worker);
      RewrittenOne(nodes, worker, data, tasks);
      BeginWrite(worker, data, underMutex);
      ghost var middle := trace;
      ok := PutNode(worker, data, underMutex);
      GrewTwice(old(trace), middle, trace);
    }

    /** ZkClient.Set. */
    method PutNode(worker: Worker, data: seq<Task>, ghost underMutex: bool) returns (ok: bool)
      requires Valid()
      requires underMutex ==> pending == multiset{} && worker in locked && Content(data, tasks, worker)
      requires !underMutex ==> pending == multiset{Pending(worker, data)}
      modifies `nodes, `locked, `pending, `trace, `acts
      ensures Valid() && Grew(old(trace), trace) && pending == multiset{}
      ensures nodes == AfterSet(old(nodes), worker, data) && (ok <==> worker in old(nodes))
      ensures locked == old(locked) - (if underMutex then {worker} else {})
    {
      hide Traced, Content, Grew;
      ok := worker in nodes;
      if ok {
        nodes := nodes[worker := data];
      }
      EndWrite(worker, data, old(nodes), underMutex);
    }

    ghost method BeginWrite(worker: Worker, data: seq<Task>, underMutex: bool)
      requires Valid() && pending == multiset{} && (underMutex || worker in loose) && Content(data, tasks, worker)
      modifies `loose, `pending, `trace, `acts
      ensures Valid() && Grew(old(trace), trace)
      ensures loose == old(loose) - (if underMutex then multiset{} else multiset{worker})
      ensures pending == if underMutex then multiset{} else multiset{Pending(worker, data)}
    {
      hide Traced, Content, Grew;
      GrewLaws();
      if !underMutex {
        LogCompute(worker, data);
      }
    }

    ghost method EndWrite(worker: Worker, data: seq<Task>, before: Nodes, underMutex: bool)
      requires Traced() && trace[|trace| - 1] == Current().(nodes := before) && nodes == AfterSet(before, worker, data)
      requires underMutex ==> pending == multiset{} && worker in locked && Content(data, tasks, worker)
      requires !underMutex ==> pending == multiset{Pending(worker, data)}
      modifies `locked, `pending, `trace, `acts
      ensures Valid() && Grew(old(trace), trace) && pending == multiset{}
      ensures locked == old(locked) - (if underMutex then {worker} else {})
    {
      hide Traced, Content, Grew;
      GrewLaws();
      if underMutex {
        LogLocked(worker, data, before);
      } else {
        LogSet(worker, data, before);
      }
    }

    ghost method LogCompute(worker: Worker, data: seq<Task>)
      requires Valid() && pending == multiset{} && worker in loose && Content(data, tasks, worker)
      modifies `loose, `pending, `trace, `acts
      ensures Valid() && trace == old(trace) + [Current()]
      ensures loose == old(loose) - multiset{worker} && pending == multiset{Pending(worker, data)}
    {
      hide Traced, Content;
      loose, pending := loose - multiset{worker}, multiset{Pending(worker, data)};
      Log(Compute(worker, data));
    }

    ghost method LogSet(worker: Worker, data: seq<Task>, before: Nodes)
      requires Traced() && trace[|trace| - 1] == Current().(nodes := before)
      requires pending == multiset{Pending(worker, data)} && nodes == AfterSet(before, worker, data)
      modifies `pending, `trace, `acts
      ensures Valid() && trace == old(trace) + [Current()] && pending == multiset{}
    {
      hide Traced, Content;
      pending := multiset{};
      Log(Set(worker, data));
    }

    ghost method LogLocked(worker: Worker, data: seq<Task>, before: Nodes)
      requires Traced() && trace[|trace| - 1] == Current().(nodes := before)
      requires worker in locked && Content(data, tasks, worker) && nodes == AfterSet(before, worker, data)
      modifies `locked, `trace, `acts
      ensures Valid() && trace == old(trace) + [Current()] && locked == old(locked) - {worker}
    {
      hide Traced, Content;
      locked := locked - {worker};
      Log(WriteLocked(worker));
    }

    // ----- global balancing -----

    /** The first loop of balanceTasks: the tasks to balance, or a Releasing one in the way. */
    method Eligible() returns (paths: set<Path>, releasing: bool)
      ensures releasing <==> !NoReleasing(tasks)
      ensures !releasing ==> paths == Balanceable(tasks)
    {
      paths, releasing := {}, false;
      var left := tasks.Keys;
      while left != {}
        invariant left <= tasks.Keys
        invariant forall p <- tasks :: p !in left ==> tasks[p].status != Releasing
        invariant paths == set p | p in tasks && p !in left && (tasks[p].status == Assigned || tasks[p].status == Init)
        decreases |left|
      {
        var p :| p in left;
        if tasks[p].status == Assigned || tasks[p].status == Init {
          paths := paths + {p};
        } else if tasks[p].status == Releasing {
          releasing := true;
          return;
        }
        left := left - {p};
      }
    }

    method SetPostponed(flag: bool)
      requires Idle()
      modifies `postponed, `trace, `acts
      ensures Idle() && trace == old(trace) + [Current()] && postponed == flag
    {
      postponed := flag;
      Log(Postpone(flag));
    }

    /** Installs a new table whose nodes are to be rewritten under the mutex. */
    method Install(table: Table, ghost assign: map<Path, Worker>)
      requires Idle() && NoReleasing(tasks) && assign.Keys == Balanceable(tasks)
      requires table == Reassigned(tasks, assign, now)
      modifies `tasks, `locked, `trace, `acts
      ensures Valid() && trace == old(trace) + [Current()] && tasks == table && locked == nodes.Keys
          && pending == multiset{}
    {
      tasks := table;
      locked := nodes.Keys;
      Log(Rebalance(assign));
    }

    /** The last loop of balanceTasks: rewrite every worker's node. */
    method WriteAll(workers: seq<Worker>)
      requires Valid() && pending == multiset{} && Distinct(workers) && locked == nodes.Keys
          && forall w :: w in workers <==> w in nodes
      modifies `nodes, `locked, `loose, `pending, `trace, `acts
      ensures Idle() && Grew(old(trace), trace) && loose == old(loose)
      ensures nodes.Keys == old(nodes).Keys
      ensures Filled(nodes, tasks, workers)
    {
      hide Traced, Content, Grew;
      GrewLaws();
      for i := 0 to |workers|
        invariant Valid() && pending == multiset{} && Grew(old(trace), trace) && loose == old(loose)
        invariant nodes.Keys == old(nodes).Keys
        invariant locked == nodes.Keys - FirstOf(workers, i)
        invariant forall k :: 0 <= k < i ==> Content(nodes[workers[k]], tasks, workers[k])
      {
        assert workers[i] in nodes;
        var _ := AssignedTasks(workers[i], true);
        assert FirstOf(workers, i + 1) == FirstOf(workers, i) + {workers[i]};
      }
      assert forall w :: w in nodes ==> w in FirstOf(workers, |workers|);
    }

    /**
     balanceTasks with a current snapshot of the workers. False means no task and no node changed;
     true means the tasks are balanced and every node holds exactly its owner's Assigned tasks.
     */
    method BalanceTasks(workers: seq<Worker>) returns (ok: bool)
      requires Idle() && Distinct(workers) && forall w :: w in workers <==> w in nodes
      modifies `tasks, `nodes, `postponed, `locked, `loose, `pending, `trace, `acts
      ensures Idle() && Grew(old(trace), trace) && loose == old(loose)
      ensures ok <==> workers != [] && NoReleasing(old(tasks))
      ensures ok <==> workers != [] && forall p <- old(tasks) :: old(tasks)[p].status != Releasing
      ensures ok ==> tasks.Keys == old(tasks).Keys && forall p <- tasks ::
        && (tasks[p].status == Deleting ==> tasks[p] == old(tasks)[p])
        && (tasks[p].status != Deleting ==> tasks[p].owner in workers && tasks[p].status in {Assigned, Releasing})
      ensures nodes.Keys == old(nodes).Keys
      ensures !ok ==> tasks == old(tasks) && nodes == old(nodes)
      ensures !ok ==> postponed == (workers != [] || old(postponed))
      ensures ok ==> !postponed && Balanced(old(tasks), tasks, workers)
      ensures ok && Balanceable(old(tasks)) != {} ==> Filled(nodes, tasks, workers)
    {
      hide Grew;
      GrewLaws();
      if workers == [] {
        return false;
      }
      var eligible, releasing := Eligible();
      if releasing {
        SetPostponed(true);
        return false;
      }
      if eligible == {} {
        NothingToBalance(tasks, workers);
        SetPostponed(false);
      } else {
        BalanceAll(workers, eligible);
      }
      ok := true;
    }

    /** balanceTasks once there is something to balance. */
    method BalanceAll(workers: seq<Worker>, eligible: set<Path>)
      requires Idle() && Distinct(workers) && workers != [] && forall w :: w in workers <==> w in nodes
      requires NoReleasing(tasks) && eligible == Balanceable(tasks) && eligible != {}
      modifies `tasks, `nodes, `postponed, `locked, `loose, `pending, `trace, `acts
      ensures Idle() && Grew(old(trace), trace) && loose == old(loose) && !postponed
      ensures nodes.Keys == old(nodes).Keys
      ensures Balanced(old(tasks), tasks, workers)
      ensures Filled(nodes, tasks, workers)
    {
      hide Traced, Balanced, Filled, Balanceable, Reassigned, Grew;
      GrewLaws();
      var table;
      ghost var assign;
      table, assign := PlanBalance(tasks, workers, eligible, now);
      Install(table, assign);
      WriteAll(workers);
      SetPostponed(false);
    }

    /** ZkClient.Children: the live workers, each once. */
    method Children() returns (workers: seq<Worker>)
      ensures Distinct(workers) && forall w :: w in workers <==> w in nodes
    {
      workers := [];
      var left := nodes.Keys;
      while left != {}
        invariant left <= nodes.Keys
        invariant Distinct(workers) && forall w :: w in workers <==> w in nodes && w !in left
        decreases |left|
      {
        var w :| w in left;
        workers := workers + [w];
        left := left - {w};
      }
    }

    // ----- orphans -----

    /** releaseOrphanTasks with a current snapshot. */
    method ReleaseOrphanTasks(workers: seq<Worker>) returns (hasOrphan: bool)
      requires Idle() && forall w :: w in workers <==> w in nodes
      modifies `tasks, `trace, `acts
      ensures Idle() && trace == old(trace) + [Current()]
      ensures tasks == Orphaned(old(tasks), nodes.Keys)
      ensures tasks.Keys == old(tasks).Keys && forall p <- tasks ::
        tasks[p] == if old(tasks)[p].owner in nodes then old(tasks)[p] else old(tasks)[p].(status := Init, owner := "")
      ensures hasOrphan <==> exists p <- old(tasks) :: old(tasks)[p].owner !in nodes
    {
      hasOrphan := MarkOrphans(workers);
      assert (set w | w in workers) == nodes.Keys;
      Log(Orphans);
    }

    /** The loop of releaseOrphanTasks. */
    method MarkOrphans(workers: seq<Worker>) returns (hasOrphan: bool)
      modifies `tasks
      ensures tasks == Orphaned(old(tasks), set w | w in workers)
      ensures hasOrphan <==> exists p <- old(tasks) :: old(tasks)[p].owner !in workers
    {
      ghost var before := tasks;
      ghost var valid := set w | w in workers;
      hasOrphan := false;
      var left := tasks.Keys;
      while left != {}
        invariant left <= tasks.Keys == before.Keys
        invariant forall p <- tasks :: tasks[p] == if p in left then before[p] else Orphan(before[p], valid)
        invariant hasOrphan <==> exists p <- before :: p !in left && before[p].owner !in workers
        decreases |left|
      {
        var p :| p in left;
        if tasks[p].owner !in workers {
          tasks := tasks[p := tasks[p].(status := Init, owner := "")];
          hasOrphan := true;
        }
        left := left - {p};
      }
    }

    // ----- released and timed-out tasks -----

    /** The owners' nodes are rewritten once each, without the mutex. */
    method WriteOwners(released: seq<Task>)
      requires Idle() && loose == multiset(Owners(released))
      modifies `nodes, `locked, `loose, `pending, `trace, `acts
      ensures Idle() && Grew(old(trace), trace) && loose == multiset{}
      ensures nodes.Keys == old(nodes).Keys
      ensures OnlyRewritten(Owners(released), old(nodes), nodes, tasks)
    {
      hide Valid, OnlyRewritten, Owners, Grew;
      GrewLaws();
      var done: set<Worker> := {};
      NothingRewritten(nodes, tasks);
      ghost var owners := Owners(released);
      for i := 0 to |released|
        invariant Idle() && Grew(old(trace), trace)
        invariant done <= owners && forall k :: 0 <= k < i ==> released[k].owner in done
        invariant loose == multiset(owners - done)
        invariant nodes.Keys == old(nodes).Keys
        invariant OnlyRewritten(done, old(nodes), nodes, tasks)
      {
        var owner := released[i].owner;
        if owner !in done {
          OwnerListed(released, i);
          MultisetMinus(owners - done, owner);
          assert owners - (done + {owner}) == (owners - done) - {owner};
          ghost var before := nodes;
          var _ := AssignedTasks(owner, false);
          RewrittenMore(done, owner, old(nodes), before, nodes, tasks);
          done := done + {owner};
        }
      }
      AllOwners(released, done);
    }

    /** A successful global balance makes the single writes unnecessary. */
    ghost method SkipLoose()
      requires Idle()
      modifies `loose, `pending, `trace, `acts
      ensures Idle() && trace == old(trace) + [Current()] && loose == multiset{}
    {
      var rest := loose;
      loose := multiset{};
      Log(Skip(rest));
    }

    /** balanceTasksOnReleased. */
    method BalanceTasksOnReleased(released: seq<Task>)
      requires Idle() && loose == multiset(Owners(released))
      modifies `tasks, `nodes, `postponed, `locked, `loose, `pending, `trace, `acts
      ensures Idle() && Grew(old(trace), trace) && loose == multiset{}
      ensures nodes.Keys == old(nodes).Keys
      ensures old(postponed) && nodes.Keys != {} && NoReleasing(old(tasks)) ==>
        !postponed && Rebalanced(old(tasks), tasks, nodes)
      ensures !(old(postponed) && nodes.Keys != {} && NoReleasing(old(tasks))) ==>
        && tasks == old(tasks) && postponed == old(postponed)
        && OnlyRewritten(Owners(released), old(nodes), nodes, tasks)
    {
      hide Traced, Content, Balanced, Balanceable, Rebalanced, Owners, Filled, Grew;
      GrewLaws();
      if postponed {
        var workers := Children();
        NonEmptySnapshot(workers);
        var ok := BalanceTasks(workers);
        if ok {
          RebalancedBy(old(tasks), tasks, nodes, workers);
          SkipLoose();
          return;
        }
      }
      WriteOwners(released);
    }

    /** innerOnReleased for the tasks named in released events. */
    method InnerOnReleased(paths: set<Path>)
      requires Idle() && loose == multiset{}
      modifies `tasks, `nodes, `postponed, `locked, `loose, `pending, `trace, `acts
      ensures Idle() && Grew(old(trace), trace) && loose == multiset{}
      ensures nodes.Keys == old(nodes).Keys
      ensures |trace| > |old(trace)| && trace[|old(trace)|].tasks == Released(old(tasks), paths, now)
      ensures ReleasedTable(old(tasks), trace[|old(trace)|].tasks, paths, now)
      ensures forall p <- old(tasks) :: p in paths && old(tasks)[p].status == Releasing ==>
        NodeIsCurrent(nodes, tasks, old(tasks)[p].owner)
      ensures var owners, after := ReleasedOwners(old(tasks), paths), Released(old(tasks), paths, now);
        if owners != {} && old(postponed) && nodes.Keys != {} && NoReleasing(after)
        then !postponed && Rebalanced(after, tasks, nodes)
        else tasks == after && postponed == old(postponed) && OnlyRewritten(owners, old(nodes), nodes, after)
    {
      hide Traced, Content, Rebalanced, Released, ReleasedOwners, Owners, Grew;
      GrewLaws();
      NoOwners();
      var need := MarkReleased(paths);
      loose := multiset(Owners(need));
      LogRelease(old(tasks), paths);
      ghost var first := trace;
      if need != [] {
        OwnerListed(need, 0);
        BalanceTasksOnReleased(need);
      }
      FirstAdded(old(trace), first[|old(trace)|], trace);
      ReleasedIs(old(tasks), paths, now);
      ReleasedServed(old(tasks), tasks, old(nodes), nodes, paths, now);
    }

    ghost method LogRelease(before: Table, paths: set<Path>)
      requires Traced() && locked == {} && pending == multiset{}
      requires trace[|trace| - 1] == Current().(tasks := before, loose := multiset{})
      requires tasks == Released(before, paths, now) && loose == multiset(ReleasedOwners(before, paths))
      modifies `trace, `acts
      ensures Idle() && trace == old(trace) + [Current()]
    {
      hide Traced;
      Log(Release(paths));
    }

    /** The loop of innerOnReleased. */
    method MarkReleased(paths: set<Path>) returns (need: seq<Task>)
      modifies `tasks
      ensures tasks == Released(old(tasks), paths, now)
      ensures Owners(need) == ReleasedOwners(old(tasks), paths)
    {
      ghost var before := tasks;
      need := [];
      var left := paths;
      assert tasks == Released(before, {}, now);
      while left != {}
        invariant left <= paths
        invariant tasks == Released(before, paths - left, now)
        invariant Owners(need) == ReleasedOwners(before, paths - left)
        decreases |left|
      {
        var p :| p in left;
        need := ReleaseOne(p, need, before, paths - left);
        assert paths - (left - {p}) == paths - left + {p};
        left := left - {p};
      }
      assert paths - left == paths;
    }

    /** The switch of innerOnReleased on one task's status. */
    method ReleaseOne(p: Path, need: seq<Task>, ghost before: Table, ghost seen: set<Path>) returns (need': seq<Task>)
      requires p !in seen && tasks == Released(before, seen, now) && Owners(need) == ReleasedOwners(before, seen)
      modifies `tasks
      ensures tasks == Released(before, seen + {p}, now)
      ensures Owners(need') == ReleasedOwners(before, seen + {p})
    {
      ReleasedStep(before, seen, p, now);
      need' := need;
      if p in tasks {
        match tasks[p].status
        case Init =>
        case Assigned =>
        case Deleting => tasks := tasks - {p};
        case Releasing =>
          var t := tasks[p].(status := Assigned, timestamp := now);
          tasks := tasks[p := t];
          need' := need + [t];
          OwnersAppend(need, t);
      }
    }

    /** handleReleaseTimeoutAndInitTasks, run every minute. */
    method HandleReleaseTimeoutAndInitTasks()
      requires Idle() && loose == multiset{}
      modifies `tasks, `nodes, `postponed, `locked, `loose, `pending, `trace, `acts
      ensures Idle() && Grew(old(trace), trace) && loose == multiset{}
      ensures |trace| > |old(trace)| && trace[|old(trace)|].tasks == TimedOut(old(tasks), now)
      ensures TimedOutTable(old(tasks), trace[|old(trace)|].tasks, now)
      ensures forall p <- old(tasks) :: old(tasks)[p].status == Releasing && now - old(tasks)[p].timestamp >= 120 ==>
        NodeIsCurrent(nodes, tasks, old(tasks)[p].owner)
      ensures nodes.Keys == old(nodes).Keys
      ensures var owners, after := TimedOutOwners(old(tasks), now), TimedOut(old(tasks), now);
        if nodes.Keys != {} && NoReleasing(after) && (HasInit(old(tasks)) || (old(postponed) && owners != {}))
        then !postponed && Rebalanced(after, tasks, nodes)
        else
          && tasks == after && OnlyRewritten(owners, old(nodes), nodes, after)
          && (postponed <==> old(postponed) || (HasInit(old(tasks)) && !NoReleasing(after)))
      ensures (exists p <- old(tasks) :: old(tasks)[p].status == Init) && nodes.Keys != {} ==>
        if exists p <- old(tasks) :: old(tasks)[p].status == Releasing && now - old(tasks)[p].timestamp < 120
        then postponed
        else forall p <- tasks :: tasks[p].status != Init
    {
      hide Idle, Grew, Rebalanced, OnlyRewritten, TimedOut, TimedOutOwners, HasInit, NoReleasing, NodeIsCurrent,
           TimedOutTable;
      CheckTasks();
      TimedOutIs(old(tasks), now);
      TimedOutServed(old(tasks), tasks, old(nodes), nodes, now);
      InitTasksServed(
        old(tasks), tasks, nodes, old(postponed) && TimedOutOwners(old(tasks), now) != {}, postponed, now);
    }

    /** The check itself: the table under the mutex, then the follow-up. */
    method CheckTasks()
      requires Idle() && loose == multiset{}
      modifies `tasks, `nodes, `postponed, `locked, `loose, `pending, `trace, `acts
      ensures Idle() && Grew(old(trace), trace) && loose == multiset{}
      ensures |trace| > |old(trace)| && trace[|old(trace)|].tasks == TimedOut(old(tasks), now)
      ensures nodes.Keys == old(nodes).Keys
      ensures var owners, after := TimedOutOwners(old(tasks), now), TimedOut(old(tasks), now);
        if nodes.Keys != {} && NoReleasing(after) && (HasInit(old(tasks)) || (old(postponed) && owners != {}))
        then !postponed && Rebalanced(after, tasks, nodes)
        else
          && tasks == after && OnlyRewritten(owners, old(nodes), nodes, after)
          && (postponed <==> old(postponed) || (HasInit(old(tasks)) && !NoReleasing(after)))
    {
      hide Traced, Content, Rebalanced, TimedOut, TimedOutOwners, Balanced, Balanceable, Filled, Owners, Grew, HasInit,
           NoReleasing, OnlyRewritten;
      GrewLaws();
      NoOwners();
      var need, hasInit, hasReleasing := MarkTimedOut();
      loose := multiset(Owners(need));
      LogTimeout(old(tasks));
      ghost var first := trace;
      AfterTimeout(need, hasInit, hasReleasing);
      FirstAdded(old(trace), first[|old(trace)|], trace);
    }

    /** What handleReleaseTimeoutAndInitTasks does once it has released the mutex. */
    method AfterTimeout(need: seq<Task>, hasInit: bool, hasReleasing: bool)
      requires Idle() && loose == multiset(Owners(need)) && (hasReleasing <==> !NoReleasing(tasks))
      modifies `tasks, `nodes, `postponed, `locked, `loose, `pending, `trace, `acts
      ensures Idle() && Grew(old(trace), trace) && loose == multiset{}
      ensures nodes.Keys == old(nodes).Keys
      ensures
        if nodes.Keys != {} && NoReleasing(old(tasks)) && (hasInit || (old(postponed) && Owners(need) != {}))
        then !postponed && Rebalanced(old(tasks), tasks, nodes)
        else
          && tasks == old(tasks) && OnlyRewritten(Owners(need), old(nodes), nodes, tasks)
          && (postponed <==> old(postponed) || (hasInit && hasReleasing))
    {
      hide Traced, Content, Rebalanced, Balanced, Balanceable, Filled, Owners, OnlyRewritten, NoReleasing, Grew;
      GrewLaws();
      NoOwners();
      NothingRewritten(nodes, tasks);
      if hasInit {
        if !hasReleasing {
          var workers := Children();
          NonEmptySnapshot(workers);
          var ok := BalanceTasks(workers);
          if ok {
            RebalancedBy(old(tasks), tasks, nodes, workers);
            SkipLoose();
            return;
          }
        } else {
          SetPostponed(true);
        }
      }
      if need != [] {
        OwnerListed(need, 0);
        BalanceTasksOnReleased(need);
      }
    }

    lemma NonEmptySnapshot(workers: seq<Worker>)
      requires forall w :: w in workers <==> w in nodes
      ensures workers != [] <==> nodes.Keys != {}
    {
      if workers != [] {
        assert workers[0] in nodes;
      }
      if nodes.Keys != {} {
        var w :| w in nodes;
        assert w in workers;
      }
    }

    ghost method LogTimeout(before: Table)
      requires Traced() && locked == {} && pending == multiset{}
      requires trace[|trace| - 1] == Current().(tasks := before, loose := multiset{})
      requires tasks == TimedOut(before, now) && loose == multiset(TimedOutOwners(before, now))
      modifies `trace, `acts
      ensures Idle() && trace == old(trace) + [Current()]
    {
      hide Traced;
      Log(Timeout);
    }

    /** The loop of handleReleaseTimeoutAndInitTasks. */
    method MarkTimedOut() returns (need: seq<Task>, hasInit: bool, hasReleasing: bool)
      modifies `tasks
      ensures tasks == TimedOut(old(tasks), now)
      ensures Owners(need) == TimedOutOwners(old(tasks), now)
      ensures hasInit <==> HasInit(old(tasks))
      ensures hasReleasing <==> !NoReleasing(tasks)
    {
      ghost var before := tasks;
      need, hasInit, hasReleasing := [], false, false;
      var left := tasks.Keys;
      while left != {}
        invariant left <= before.Keys
        invariant TimeoutProgress(before, before.Keys - left, tasks, need, hasInit, hasReleasing)
        decreases |left|
      {
        var p :| p in left;
        ghost var done := before.Keys - left;
        assert before.Keys - (left - {p}) == done + {p};
        need, hasInit, hasReleasing := TimeOutOne(p, need, hasInit, hasReleasing, before, done);
        left := left - {p};
      }
      assert before.Keys - left == before.Keys;
      PartAll(before, before.Keys, now);
    }

    ghost predicate TimeoutProgress(
      before: Table, done: set<Path>, tasks: Table, need: seq<Task>, hasInit: bool, hasReleasing: bool)
      requires done <= before.Keys
      reads `now
    {
      && tasks == TimedOutPart(before, done, now)
      && Owners(need) == PartOwners(before, done, now)
      && (hasInit <==> exists p <- done :: before[p].status == Init)
      && (hasReleasing <==> exists p <- done :: before[p].status == Releasing && !Expired(before[p], now))
    }

    /** The switch of handleReleaseTimeoutAndInitTasks on one task's status. */
    method TimeOutOne(
      p: Path, need0: seq<Task>, hasInit0: bool, hasReleasing0: bool, ghost before: Table, ghost done: set<Path>)
      returns (need: seq<Task>, hasInit: bool, hasReleasing: bool)
      requires p in before && p !in done && done <= before.Keys
      requires TimeoutProgress(before, done, tasks, need0, hasInit0, hasReleasing0)
      modifies `tasks
      ensures TimeoutProgress(before, done + {p}, tasks, need, hasInit, hasReleasing)
    {
      need, hasInit, hasReleasing := need0, hasInit0, hasReleasing0;
      PartStep(before, done, p, now);
      hide TimedOutPart, PartOwners, Owners;
      var t := tasks[p];
      match t.status {
        case Releasing =>
          if Expired(t, now) {
            var t' := t.(status := Assigned, timestamp := now);
            tasks := tasks[p := t'];
            OwnersAppend(need, t');
            need := need + [t'];
          } else {
            hasReleasing := true;
          }
        case Deleting =>
          if Expired(t, now) {
            tasks := tasks - {p};
          }
        case Init =>
          hasInit := true;
          tasks := tasks[p := t.(timestamp := now)];
        case Assigned =>
      }
    }

    // ----- the start of a term -----

    /** A process that has just become master, with its configured tasks. */
    constructor (init: Table, nodes: Nodes, now: int)
      ensures tasks == init && this.nodes == nodes && this.now == now && !postponed
    {
      tasks, this.nodes, this.now, postponed := init, nodes, now, false;
      locked, loose, pending, trace, acts := {}, multiset{}, multiset{}, [], [];
    }

    /** loadTasks and loadTasksForWorker. */
    method LoadTasks(workers: seq<Worker>)
      modifies `tasks
      ensures tasks == LoadAll(old(tasks), workers, nodes, now)
    {
      ghost var all := LoadAll(tasks, workers, nodes, now);
      assert workers[0..] == workers;
      for i := 0 to |workers|
        invariant LoadAll(tasks, workers[i..], nodes, now) == all
      {
        assert workers[i..][1..] == workers[i + 1..];
        if workers[i] in nodes {
          LoadTasksForWorker(workers[i]);
        }
      }
    }

    method LoadTasksForWorker(worker: Worker)
      requires worker in nodes
      modifies `tasks
      ensures tasks == LoadNode(old(tasks), worker, nodes[worker], now)
    {
      var found := nodes[worker];
      ghost var all := LoadNode(tasks, worker, found, now);
      assert found[0..] == found;
      for i := 0 to |found|
        invariant LoadNode(tasks, worker, found[i..], now) == all
      {
        assert found[i..][1..] == found[i + 1..];
        var wt := found[i];
        if wt.path in tasks {
          tasks := tasks[wt.path := tasks[wt.path].(owner := worker, status := Assigned, timestamp := now)];
        } else {
          tasks := tasks[wt.path := wt.(status := Deleting, timestamp := now)];
        }
      }
    }

    /** deprecateTasks: rewrite the node of every owner of a deprecated task; false if one is gone. */
    method DeprecateTasks() returns (ok: bool)
      requires Valid() && pending == multiset{} && locked == DeletingOwners(tasks)
      modifies `nodes, `locked, `loose, `pending, `trace, `acts
      ensures Idle() && Grew(old(trace), trace) && loose == old(loose)
      ensures nodes.Keys == old(nodes).Keys
      ensures ok <==> DeletingOwners(tasks) <= nodes.Keys
      ensures forall p <- tasks :: tasks[p].status == Deleting ==>
        NodeIsCurrent(nodes, tasks, tasks[p].owner) && (ok ==> tasks[p].owner in nodes)
    {
      hide Valid, OnlyRewritten, AllCurrent, DeletingOwners, Grew;
      GrewLaws();
      ok := true;
      var owners := DeletingOwners(tasks);
      var left := owners;
      NoneCurrent(nodes, tasks);
      assert owners - left == {};
      while left != {}
        invariant Valid() && pending == multiset{} && Grew(old(trace), trace) && loose == old(loose)
          && locked == left <= owners
        invariant nodes.Keys == old(nodes).Keys
        invariant ok <==> owners - left <= nodes.Keys
        invariant AllCurrent(owners - left, nodes, tasks)
        decreases |left|
      {
        var w :| w in left;
        ghost var before := nodes;
        var e := AssignedTasks(w, true);
        OneMoreCurrent(owners - left, w, before, nodes, tasks);
        assert owners - left + {w} == owners - (left - {w});
        ok := ok && e;
        left := left - {w};
      }
      assert owners - {} == owners;
      OwnersCurrent(nodes, tasks);
    }

    /** Loading ends with the first state of the term's run. */
    method Begin(workers: seq<Worker>)
      requires Keyed(tasks) && NodesReady(nodes)
      requires forall w :: w in workers <==> w in nodes
      modifies `tasks, `locked, `loose, `pending, `trace, `acts
      ensures Valid() && loose == multiset{} && pending == multiset{} && locked == DeletingOwners(tasks)
      ensures |trace| > 0 && Start(trace[0], old(tasks), workers)
      ensures tasks == LoadAll(old(tasks), workers, nodes, now)
    {
      hide LoadAll, NodesReady, Traced, DeletingOwners, Keyed, Inv, UpToDate;
      LoadTasks(workers);
      locked, loose, pending := DeletingOwners(tasks), multiset{}, multiset{};
      trace, acts := [Current()], [];
      assert (set w | w in workers) == nodes.Keys;
      StartInv(trace[0], old(tasks), workers);
      JustBegun();
    }

    lemma JustBegun()
      requires trace == [Current()] && acts == [] && Inv(Current()) && UpToDate(Current())
      ensures Valid()
    {
    }

    /** The master's part of startMaster, up to the first balancing. */
    method StartTerm(workers: seq<Worker>) returns (ok: bool)
      requires Keyed(tasks) && NodesReady(nodes)
      requires Distinct(workers) && forall w :: w in workers <==> w in nodes
      modifies this
      ensures Idle() && loose == multiset{}
      ensures |trace| > 0 && Start(trace[0], old(tasks), workers)
      ensures nodes.Keys == old(nodes).Keys
      ensures var loaded := LoadAll(old(tasks), workers, old(nodes), old(now));
        && (ok <==> DeletingOwners(loaded) <= nodes.Keys)
        && (!ok ==> tasks == loaded)
        && (ok && workers != [] && NoReleasing(Orphaned(loaded, nodes.Keys)) ==>
              !postponed && Rebalanced(Orphaned(loaded, nodes.Keys), tasks, nodes))
        && (ok && !(workers != [] && NoReleasing(Orphaned(loaded, nodes.Keys))) ==>
              tasks == Orphaned(loaded, nodes.Keys) && postponed == (workers != [] || old(postponed)))
    {
      hide Idle, Valid, Start, NodesReady, Rebalanced, Orphaned, LoadAll, DeletingOwners, NodeIsCurrent, NoReleasing,
           Grew;
      ghost var loaded := LoadAll(tasks, workers, nodes, now);
      Begin(workers);
      ghost var begun := trace;
      ok := DeprecateTasks();
      ghost var middle := trace;
      SameStart(begun, middle);
      IsIdle();
      if ok {
        OrphanAndBalance(workers);
        SameStart(middle, trace);
      }
    }

    lemma IsIdle()
      requires Idle()
      ensures Valid() && locked == {} && pending == multiset{}
    {
    }

    /** What startMaster and every change of the workers do: orphans, then balancing. */
    method OrphanAndBalance(workers: seq<Worker>)
      requires Idle() && Distinct(workers) && forall w :: w in workers <==> w in nodes
      modifies `tasks, `nodes, `postponed, `locked, `loose, `pending, `trace, `acts
      ensures Idle() && Grew(old(trace), trace) && loose == old(loose) && nodes.Keys == old(nodes).Keys
      ensures var orphaned := Orphaned(old(tasks), nodes.Keys);
        if workers != [] && NoReleasing(orphaned) then !postponed && Rebalanced(orphaned, tasks, nodes)
        else tasks == orphaned && postponed == (workers != [] || old(postponed))
    {
      hide Valid, Content, Balanced, Rebalanced, Orphaned, Balanceable, Filled, NoReleasing, Grew;
      GrewLaws();
      var _ := ReleaseOrphanTasks(workers);
      var balanced := BalanceTasks(workers);
      if balanced {
        RebalancedBy(Orphaned(old(tasks), nodes.Keys), tasks, nodes, workers);
      }
    }

    // ----- the environment -----

    method Join(w: Worker)
      requires Idle() && w !in nodes
      modifies `nodes, `trace, `acts
      ensures Idle() && trace == old(trace) + [Current()] && nodes == old(nodes)[w := []]
    {
      nodes := nodes[w := []];
      Log(Action.Join(w));
    }

    method Leave(w: Worker)
      requires Idle() && w in nodes
      modifies `nodes, `trace, `acts
      ensures Idle() && trace == old(trace) + [Current()] && nodes == old(nodes) - {w}
    {
      nodes := nodes - {w};
      Log(Action.Leave(w));
    }

    method Tick(time: int)
      requires Idle() && now <= time
      modifies `now, `trace, `acts
      ensures Idle() && trace == old(trace) + [Current()] && now == time
    {
      now := time;
      Log(Action.Tick(time));
    }
  }
}

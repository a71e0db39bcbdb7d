/**
 The task balancer as a transition system (zklock/zk_balancer.go): one master's task table, the
 ZooKeeper nodes of the live workers, and every interleaving of the master's handlers, of single
 node writes and of workers coming and going.
 */
module BalancerProtocol {

  type Path = string
  type Worker = string

  datatype Status = Init | Assigned | Releasing | Deleting

  datatype Task = Task(path: Path, payload: string, weight: int, status: Status, owner: Worker, timestamp: int)

  type Table = map<Path, Task>

  /** Contents of the live workers' nodes; a worker is live exactly when it has a node. */
  type Nodes = map<Worker, seq<Task>>

  const RELEASING_TIMEOUT := 120

  // ----- what the handlers do to the table -----

  /** tryReAssignTask. */
  function TryReassign(t: Task, w: Worker, now: int): Task {
    match t.status
    case Assigned =>
      if t.owner != w then t.(owner := w, status := Releasing, timestamp := now) else t.(timestamp := now)
    case Init => t.(owner := w, status := Assigned, timestamp := now)
    case _ => t.(timestamp := now)
  }

  function Reassigned(tasks: Table, assign: map<Path, Worker>, now: int): Table {
    map p | p in tasks :: if p in assign then TryReassign(tasks[p], assign[p], now) else tasks[p]
  }

  /** releaseOrphanTasks: a task whose owner is not listed goes back to Init. */
  function Orphan(t: Task, workers: set<Worker>): Task {
    if t.owner in workers then t else t.(status := Init, owner := "")
  }

  function Orphaned(tasks: Table, workers: set<Worker>): Table {
    map p | p in tasks :: Orphan(tasks[p], workers)
  }

  /** innerOnReleased, the part under the mutex. */
  function Released(tasks: Table, paths: set<Path>, now: int): Table {
    map p | p in tasks && !(p in paths && tasks[p].status == Deleting) ::
      if p in paths && tasks[p].status == Releasing then tasks[p].(status := Assigned, timestamp := now) else tasks[p]
  }

  function ReleasedOwners(tasks: Table, paths: set<Path>): set<Worker> {
    set p | p in tasks && p in paths && tasks[p].status == Releasing :: tasks[p].owner
  }

  predicate Expired(t: Task, now: int) {
    now - t.timestamp >= RELEASING_TIMEOUT
  }

  /** handleReleaseTimeoutAndInitTasks, the part under the mutex. */
  function TimeOut(t: Task, now: int): Task {
    match t.status
    case Releasing => if Expired(t, now) then t.(status := Assigned, timestamp := now) else t
    case Init => t.(timestamp := now)
    case _ => t
  }

  function TimedOut(tasks: Table, now: int): Table {
    map p | p in tasks && !(tasks[p].status == Deleting && Expired(tasks[p], now)) :: TimeOut(tasks[p], now)
  }

  function TimedOutOwners(tasks: Table, now: int): set<Worker> {
    set p | p in tasks && tasks[p].status == Releasing && Expired(tasks[p], now) :: tasks[p].owner
  }

  /** One task list found in a worker's node at the start of a term (loadTasksForWorker). */
  function LoadNode(tasks: Table, w: Worker, found: seq<Task>, now: int): Table
    decreases |found|
  {
    if found == [] then tasks else LoadNode(LoadOne(tasks, w, found[0], now), w, found[1..], now)
  }

  function LoadOne(tasks: Table, w: Worker, wt: Task, now: int): Table {
    if wt.path in tasks then
      tasks[wt.path := tasks[wt.path].(owner := w, status := Assigned, timestamp := now)]
    else
      tasks[wt.path := wt.(status := Deleting, timestamp := now)]
  }

  function LoadAll(tasks: Table, workers: seq<Worker>, nodes: Nodes, now: int): Table
    decreases |workers|
  {
    if workers == [] then tasks else
    var w := workers[0];
    LoadAll(if w in nodes then LoadNode(tasks, w, nodes[w], now) else tasks, workers[1..], nodes, now)
  }

  function DeletingOwners(tasks: Table): set<Worker> {
    set p | p in tasks && tasks[p].status == Deleting :: tasks[p].owner
  }

  predicate NoReleasing(tasks: Table) {
    forall p <- tasks :: tasks[p].status != Releasing
  }

  function Balanceable(tasks: Table): set<Path> {
    set p | p in tasks && (tasks[p].status == Assigned || tasks[p].status == Init)
  }

  /** What assignedTasks writes: the tasks Assigned to `w`, each once, in any order. */
  ghost predicate Content(c: seq<Task>, tasks: Table, w: Worker) {
    && (forall t :: t in c <==> t.path in tasks && tasks[t.path] == t && t.status == Assigned && t.owner == w)
    && forall i, j :: 0 <= i < j < |c| ==> c[i].path != c[j].path
  }

  // ----- the transition system -----

  /** A node content that has been computed and not yet been set. */
  datatype Pending = Pending(w: Worker, c: seq<Task>)

  /**
   `locked` are the writes balanceTasks still has to do while it holds the mutex; `loose` are the
   calls of assignedTasks that handlers still owe without it, one per handler and worker, and
   `pending` those of them that have read the table and not yet set the node.
   */
  datatype State = State(
    tasks: Table, nodes: Nodes, postponed: bool, now: int,
    locked: set<Worker>, loose: multiset<Worker>, pending: multiset<Pending>)

  datatype Action =
    | Join(w: Worker)
    | Leave(w: Worker)
    | Tick(time: int)
    | Orphans
    | Postpone(flag: bool)
    | Rebalance(assign: map<Path, Worker>)
    | WriteLocked(w: Worker)
    | Compute(w: Worker, c: seq<Task>)
    | Set(w: Worker, c: seq<Task>)
    | Skip(skipped: multiset<Worker>)
    | Release(paths: set<Path>)
    | Timeout

  /** A Set on a live node replaces its contents; on a dead one it has no effect. */
  function AfterSet(nodes: Nodes, w: Worker, c: seq<Task>): Nodes {
    if w in nodes then nodes[w := c] else nodes
  }

  /** Under the mutex the table cannot change between reading it and setting the node. */
  ghost predicate Written(s: State, w: Worker, nodes': Nodes) {
    if w in s.nodes then
      w in nodes' && Content(nodes'[w], s.tasks, w) && nodes' == s.nodes[w := nodes'[w]]
    else
      nodes' == s.nodes
  }

  ghost predicate Step(s: State, a: Action, s': State) {
    match a
    case Join(w) => w !in s.nodes && s' == s.(nodes := s.nodes[w := []])
    case Leave(w) => w in s.nodes && s' == s.(nodes := s.nodes - {w})
    case Tick(time) => s.now <= time && s' == s.(now := time)
    case Orphans => s.locked == {} && s' == s.(tasks := Orphaned(s.tasks, s.nodes.Keys))
    case Postpone(flag) => s.locked == {} && s' == s.(postponed := flag)
    case Rebalance(assign) =>
      && s.locked == {} && NoReleasing(s.tasks) && assign.Keys == Balanceable(s.tasks)
      && s' == s.(tasks := Reassigned(s.tasks, assign, s.now), locked := s.nodes.Keys)
    case WriteLocked(w) =>
      && w in s.locked && Written(s, w, s'.nodes)
      && s' == s.(nodes := s'.nodes, locked := s.locked - {w})
    case Compute(w, c) =>
      && w in s.loose && Content(c, s.tasks, w)
      && s' == s.(loose := s.loose - multiset{w}, pending := s.pending + multiset{Pending(w, c)})
    case Set(w, c) =>
      && Pending(w, c) in s.pending
      && s' == s.(nodes := AfterSet(s.nodes, w, c), pending := s.pending - multiset{Pending(w, c)})
    case Skip(skipped) => s' == s.(loose := s.loose - skipped)
    case Release(paths) =>
      && s.locked == {}
      && s' == s.(tasks := Released(s.tasks, paths, s.now), loose := s.loose + multiset(ReleasedOwners(s.tasks, paths)))
    case Timeout =>
      && s.locked == {}
      && s' == s.(tasks := TimedOut(s.tasks, s.now), loose := s.loose + multiset(TimedOutOwners(s.tasks, s.now)))
  }

  /** `ss` are the states and `acts` the actions of a run; every pair of neighbours is a step. */
  ghost predicate IsRun(ss: seq<State>, acts: seq<Action>)
    decreases |acts|
  {
    && |ss| == |acts| + 1
    && (acts != [] ==>
          var n := |acts| - 1;
          IsRun(ss[..n + 1], acts[..n]) && Step(ss[n], acts[n], ss[n + 1]))
  }

  lemma {:induction false} RunSteps(ss: seq<State>, acts: seq<Action>, i: nat)
    requires IsRun(ss, acts) && i < |acts|
    ensures Step(ss[i], acts[i], ss[i + 1])
    decreases |acts|
  {
    var n := |acts| - 1;
    if i < n {
      RunSteps(ss[..n + 1], acts[..n], i);
    }
  }

  lemma ExtendRun(ss: seq<State>, acts: seq<Action>, a: Action, s': State)
    requires ss != [] && IsRun(ss, acts) && Step(ss[|ss| - 1], a, s')
    ensures IsRun(ss + [s'], acts + [a])
  {
    hide Step;
    var n := |acts|;
    assert (ss + [s'])[..n + 1] == ss && (acts + [a])[..n] == acts;
  }

  // ----- the invariant -----

  predicate InNode(nodes: Nodes, w: Worker, p: Path) {
    w in nodes && exists t <- nodes[w] :: t.path == p
  }

  predicate HasPath(found: seq<Task>, p: Path) {
    exists t <- found :: t.path == p
  }

  /** No task path is in two live workers' nodes. */
  ghost predicate Exclusive(nodes: Nodes) {
    forall p, w, x :: InNode(nodes, w, p) && InNode(nodes, x, p) ==> w == x
  }

  /** Every task in a node names the node's worker as its owner. */
  predicate OwnNodes(nodes: Nodes) {
    forall w <- nodes :: forall t <- nodes[w] :: t.owner == w
  }

  predicate Keyed(tasks: Table) {
    forall p <- tasks :: tasks[p].path == p
  }

  predicate AssignedTo(tasks: Table, p: Path, w: Worker) {
    p in tasks && tasks[p].status == Assigned && tasks[p].owner == w
  }

  /** A locked write is about to replace the node, and the task has become Releasing or Deleting. */
  predicate AboutToGo(s: State, p: Path, w: Worker) {
    w in s.locked && p in s.tasks && s.tasks[p].status in {Releasing, Deleting}
  }

  /** A path in a node is Assigned to that node's worker, or about to go. */
  ghost predicate Recorded(s: State) {
    forall w, p :: InNode(s.nodes, w, p) ==> AssignedTo(s.tasks, p, w) || AboutToGo(s, p, w)
  }

  ghost predicate Inv(s: State) {
    Keyed(s.tasks) && OwnNodes(s.nodes) && Exclusive(s.nodes) && Recorded(s)
  }

  /** Every content waiting to be set still holds only tasks Assigned to its worker. */
  ghost predicate UpToDate(s: State) {
    OwnContents(s) && forall p :: Fresh(s, p)
  }

  ghost predicate OwnContents(s: State) {
    forall d <- s.pending :: forall t <- d.c :: t.owner == d.w
  }

  // ----- one task -----

  /** The task is in one node at most, and rightly so. */
  ghost predicate OnePlace(s: State, p: Path) {
    && (forall w, x :: InNode(s.nodes, w, p) && InNode(s.nodes, x, p) ==> w == x)
    && (forall w :: InNode(s.nodes, w, p) ==> AssignedTo(s.tasks, p, w) || AboutToGo(s, p, w))
  }

  /** Every content with the task that waits to be set is its owner's. */
  ghost predicate Fresh(s: State, p: Path) {
    forall d <- s.pending :: HasPath(d.c, p) ==> AssignedTo(s.tasks, p, d.w)
  }

  /** The step takes the task away from a worker whose content, with the task, waits to be set. */
  ghost predicate TakesAway(s: State, a: Action, p: Path) {
    match a
    case Rebalance(assign) => exists d <- s.pending :: HasPath(d.c, p) && p in assign && assign[p] != d.w
    case Orphans => exists d <- s.pending :: HasPath(d.c, p) && d.w !in s.nodes
    case _ => false
  }

  lemma InNodeAfterSet(nodes: Nodes, w: Worker, c: seq<Task>, x: Worker, p: Path)
    requires w in nodes
    ensures InNode(AfterSet(nodes, w, c), x, p) <==> if x == w then HasPath(c, p) else InNode(nodes, x, p)
  {
    if x == w && HasPath(c, p) {
      var t :| t in c && t.path == p;
      assert t in AfterSet(nodes, w, c)[w];
    }
  }

  lemma ContentHasPath(c: seq<Task>, tasks: Table, w: Worker, p: Path)
    requires Content(c, tasks, w)
    ensures HasPath(c, p) ==> AssignedTo(tasks, p, w)
    ensures Keyed(tasks) && AssignedTo(tasks, p, w) ==> HasPath(c, p)
  {
    if Keyed(tasks) && AssignedTo(tasks, p, w) {
      assert tasks[p] in c;
    }
  }

  /** A locked write is a Set of a content read just now. */
  lemma LockedIsSet(s: State, w: Worker, nodes': Nodes) returns (c: seq<Task>)
    requires Written(s, w, nodes')
    ensures nodes' == AfterSet(s.nodes, w, c) && (w in s.nodes ==> Content(c, s.tasks, w))
  {
    c := if w in s.nodes then nodes'[w] else [];
  }

  /** A node replaced by a content in which the task, if at all, is rightly the worker's. */
  lemma SetKeepsPlace(s: State, w: Worker, c: seq<Task>, s': State, p: Path)
    requires OnePlace(s, p) && s'.tasks == s.tasks && s'.nodes == AfterSet(s.nodes, w, c)
    requires s'.locked == s.locked || s'.locked == s.locked - {w}
    requires w in s.nodes && HasPath(c, p) ==> AssignedTo(s.tasks, p, w)
    ensures OnePlace(s', p)
  {
    if w in s.nodes {
      forall x
        ensures InNode(s'.nodes, x, p) <==> if x == w then HasPath(c, p) else InNode(s.nodes, x, p)
      {
        InNodeAfterSet(s.nodes, w, c, x, p);
      }
    }
  }

  /** Every step keeps the task in its place while the contents with it are fresh. */
  lemma TaskKeeps(s: State, a: Action, s': State, p: Path)
    requires OnePlace(s, p) && Fresh(s, p) && Step(s, a, s')
    ensures OnePlace(s', p)
  {
    hide Content, OnePlace, Written, AfterSet;
    match a
    case WriteLocked(w) =>
      var c := LockedIsSet(s, w, s'.nodes);
      if w in s.nodes {
        ContentHasPath(c, s.tasks, w, p);
      }
      SetKeepsPlace(s, w, c, s', p);
    case Set(w, c) =>
      assert HasPath(c, p) ==> AssignedTo(s.tasks, p, Pending(w, c).w);
      SetKeepsPlace(s, w, c, s', p);
    case Join(_) => NodesShrink(s, s', p);
    case Leave(_) => NodesShrink(s, s', p);
    case _ => TableKeeps(s, s', p);
  }

  lemma NodesShrink(s: State, s': State, p: Path)
    requires OnePlace(s, p) && s'.tasks == s.tasks && s'.locked == s.locked
    requires forall w <- s'.nodes :: if w in s.nodes then s'.nodes[w] == s.nodes[w] else s'.nodes[w] == []
    ensures OnePlace(s', p)
  {
    assert forall x :: InNode(s'.nodes, x, p) ==> InNode(s.nodes, x, p);
  }

  /** Handlers change the table and leave the nodes; a task in a node keeps its worker or is about to go. */
  lemma TableKeeps(s: State, s': State, p: Path)
    requires OnePlace(s, p) && s'.nodes == s.nodes
    requires forall w <- s.nodes :: AssignedTo(s.tasks, p, w) ==> AssignedTo(s'.tasks, p, w) || AboutToGo(s', p, w)
    requires s.locked == {} || (s'.locked == s.locked && s'.tasks == s.tasks)
    ensures OnePlace(s', p)
  {
  }

  /** A step leaves the contents with the task fresh exactly when it does not take the task away from one. */
  lemma FreshExactly(s: State, a: Action, s': State, p: Path)
    requires Fresh(s, p) && Step(s, a, s')
    ensures Fresh(s', p) <==> !TakesAway(s, a, p)
  {
    hide Content, AfterSet, Fresh, TakesAway;
    match a
    case Rebalance(assign) => RebalanceTakes(s, assign, s', p);
    case Orphans => OrphansTake(s, s', p);
    case Compute(w, c) => ComputedFresh(s, w, c, s', p);
    case _ => StaysFresh(s, a, s', p);
  }

  lemma OrphansTake(s: State, s': State, p: Path)
    requires Fresh(s, p) && Step(s, Orphans, s')
    ensures Fresh(s', p) <==> !TakesAway(s, Orphans, p)
  {
    hide HasPath;
  }

  lemma ComputedFresh(s: State, w: Worker, c: seq<Task>, s': State, p: Path)
    requires Fresh(s, p) && Step(s, Compute(w, c), s')
    ensures Fresh(s', p) && !TakesAway(s, Compute(w, c), p)
  {
    ContentHasPath(c, s.tasks, w, p);
    assert forall d <- s'.pending :: d in s.pending || d == Pending(w, c);
  }

  lemma StaysFresh(s: State, a: Action, s': State, p: Path)
    requires Fresh(s, p) && s'.pending <= s.pending && !a.Rebalance? && !a.Orphans?
    requires forall w :: AssignedTo(s.tasks, p, w) ==> AssignedTo(s'.tasks, p, w)
    ensures Fresh(s', p) && !TakesAway(s, a, p)
  {
    assert forall d <- s'.pending :: d in s.pending;
  }

  lemma RebalanceTakes(s: State, assign: map<Path, Worker>, s': State, p: Path)
    requires Fresh(s, p) && Step(s, Rebalance(assign), s')
    ensures Fresh(s', p) <==> !TakesAway(s, Rebalance(assign), p)
  {
    hide HasPath;
    if d :| d in s.pending && HasPath(d.c, p) {
      assert p in Balanceable(s.tasks);
    }
  }

  /** No step of the run takes the task away from a content that waits to be set. */
  ghost predicate KeepsOrder(ss: seq<State>, acts: seq<Action>, p: Path) {
    |ss| == |acts| + 1 && forall i :: 0 <= i < |acts| ==> !TakesAway(ss[i], acts[i], p)
  }

  lemma {:induction false} TaskRunKeeps(ss: seq<State>, acts: seq<Action>, p: Path, i: nat)
    requires IsRun(ss, acts) && KeepsOrder(ss, acts, p) && OnePlace(ss[0], p) && Fresh(ss[0], p) && i < |ss|
    ensures OnePlace(ss[i], p) && Fresh(ss[i], p)
  {
    hide OnePlace, Fresh, Step, TakesAway;
    if i > 0 {
      TaskRunKeeps(ss, acts, p, i - 1);
      RunSteps(ss, acts, i - 1);
      TaskKeeps(ss[i - 1], acts[i - 1], ss[i], p);
      FreshExactly(ss[i - 1], acts[i - 1], ss[i], p);
    }
  }

  // ----- all tasks -----

  /** The step overtakes a waiting content: it takes a task of that content away. */
  ghost predicate Overtakes(s: State, a: Action) {
    exists p :: TakesAway(s, a, p)
  }

  lemma KeyedStays(s: State, a: Action, s': State)
    requires Keyed(s.tasks) && Step(s, a, s')
    ensures Keyed(s'.tasks)
  {
    hide Content, Written, AfterSet;
  }

  lemma OwnNodesStay(s: State, a: Action, s': State)
    requires OwnNodes(s.nodes) && OwnContents(s) && Step(s, a, s')
    ensures OwnNodes(s'.nodes)
  {
    match a
    case Set(w, c) => assert forall t <- c :: t.owner == Pending(w, c).w;
    case _ =>
  }

  lemma TaskByTask(s: State)
    ensures Exclusive(s.nodes) && Recorded(s) <==> forall p :: OnePlace(s, p)
  {
    if forall p :: OnePlace(s, p) {
      forall w, x, p | InNode(s.nodes, w, p) && InNode(s.nodes, x, p)
        ensures w == x && (AssignedTo(s.tasks, p, w) || AboutToGo(s, p, w))
      {
        assert OnePlace(s, p);
      }
    }
  }

  lemma StepKeeps(s: State, a: Action, s': State)
    requires Inv(s) && UpToDate(s) && Step(s, a, s')
    ensures Inv(s')
  {
    hide OnePlace, Fresh, Step, Exclusive, Recorded, Keyed, OwnNodes;
    TaskByTask(s);
    forall p
      ensures OnePlace(s', p)
    {
      TaskKeeps(s, a, s', p);
    }
    TaskByTask(s');
    KeyedStays(s, a, s');
    OwnNodesStay(s, a, s');
  }

  /** A step leaves the waiting contents up to date exactly when it does not overtake one. */
  lemma UpToDateExactly(s: State, a: Action, s': State)
    requires UpToDate(s) && Step(s, a, s')
    ensures UpToDate(s') <==> !Overtakes(s, a)
  {
    hide Fresh, TakesAway, OwnContents;
    forall p
      ensures Fresh(s', p) <==> !TakesAway(s, a, p)
    {
      FreshExactly(s, a, s', p);
    }
    OwnContentsStay(s, a, s');
  }

  lemma OwnContentsStay(s: State, a: Action, s': State)
    requires OwnContents(s) && Step(s, a, s')
    ensures OwnContents(s')
  {
    match a
    case Compute(w, c) => assert forall d <- s'.pending :: d in s.pending || d == Pending(w, c);
    case Set(w, c) => assert forall d <- s'.pending :: d in s.pending;
    case _ =>
  }

  /** What setting `c` relies on: each task is still the worker's, or about to go and seen by nobody else. */
  ghost predicate Settable(s: State, w: Worker, c: seq<Task>) {
    w in s.nodes ==> forall p :: HasPath(c, p) ==>
      || AssignedTo(s.tasks, p, w)
      || (AboutToGo(s, p, w) && forall x :: InNode(s.nodes, x, p) ==> x == w)
  }

  /** Setting a content computed earlier keeps the invariant exactly when it is still settable. */
  lemma SetKeepsExactly(s: State, w: Worker, c: seq<Task>, s': State)
    requires Inv(s) && Step(s, Set(w, c), s') && forall t <- c :: t.owner == w
    ensures Inv(s') <==> Settable(s, w, c)
  {
    if w in s.nodes {
      forall x, p
        ensures InNode(s'.nodes, x, p) <==> if x == w then HasPath(c, p) else InNode(s.nodes, x, p)
      {
        InNodeAfterSet(s.nodes, w, c, x, p);
      }
      hide InNode, HasPath;
      if Inv(s') {
        forall p | HasPath(c, p)
          ensures forall x :: InNode(s.nodes, x, p) ==> x == w
        {
          assert InNode(s'.nodes, w, p);
        }
      }
    }
  }

  /** No rebalancing and no orphan check overtakes a content that waits to be set. */
  ghost predicate InOrder(ss: seq<State>, acts: seq<Action>) {
    |ss| == |acts| + 1 && forall i :: 0 <= i < |acts| ==> !Overtakes(ss[i], acts[i])
  }

  lemma ExtendInOrder(ss: seq<State>, acts: seq<Action>, a: Action, s': State)
    requires InOrder(ss, acts) && !Overtakes(ss[|ss| - 1], a)
    ensures InOrder(ss + [s'], acts + [a])
  {
    hide Overtakes;
  }

  /** In particular when none of them runs between a reading of the table and its Set. */
  lemma SeparateIsInOrder(ss: seq<State>, acts: seq<Action>)
    requires IsRun(ss, acts)
    requires forall i :: 0 <= i < |acts| && (acts[i].Rebalance? || acts[i].Orphans?) ==> ss[i].pending == multiset{}
    ensures InOrder(ss, acts)
  {
  }

  /** Safety: the invariant holds in every state of every run in order, so after every single node write. */
  lemma {:induction false} RunKeeps(ss: seq<State>, acts: seq<Action>, i: nat)
    requires IsRun(ss, acts) && InOrder(ss, acts) && Inv(ss[0]) && UpToDate(ss[0]) && i < |ss|
    ensures Inv(ss[i]) && UpToDate(ss[i])
  {
    hide Inv, UpToDate, Step, Overtakes;
    if i > 0 {
      RunKeeps(ss, acts, i - 1);
      RunSteps(ss, acts, i - 1);
      StepKeeps(ss[i - 1], acts[i - 1], ss[i]);
      UpToDateExactly(ss[i - 1], acts[i - 1], ss[i]);
    }
  }

  // ----- the start of a term -----

  /** What one term needs of the nodes it finds; every state of an earlier term provides it. */
  ghost predicate NodesReady(nodes: Nodes) {
    OwnNodes(nodes) && Exclusive(nodes)
  }

  /** The master has loaded all nodes into the table `init` and is about to rewrite the nodes with deprecated tasks. */
  ghost predicate Start(s: State, init: Table, workers: seq<Worker>) {
    && Keyed(init) && NodesReady(s.nodes)
    && (set w | w in workers) == s.nodes.Keys
    && s.tasks == LoadAll(init, workers, s.nodes, s.now)
    && s.locked == DeletingOwners(s.tasks) && s.loose == multiset{} && s.pending == multiset{}
  }

  /** `p` was found in the node of `w`. */
  predicate LoadedFrom(tasks: Table, w: Worker, p: Path) {
    p in tasks && tasks[p].owner == w && tasks[p].status in {Assigned, Deleting}
  }

  lemma {:induction false} LoadNodeFinds(tasks: Table, w: Worker, found: seq<Task>, now: int, x: Worker, p: Path)
    requires Keyed(tasks) && forall t <- found :: t.owner == w
    requires HasPath(found, p) ==> x == w
    requires HasPath(found, p) || LoadedFrom(tasks, x, p)
    ensures Keyed(LoadNode(tasks, w, found, now))
    ensures LoadedFrom(LoadNode(tasks, w, found, now), x, p)
    decreases |found|
  {
    if found != [] {
      var first := LoadOne(tasks, w, found[0], now);
      assert found == [found[0]] + found[1..];
      assert HasPath(found, p) <==> found[0].path == p || HasPath(found[1..], p);
      assert Keyed(first);
      LoadNodeFinds(first, w, found[1..], now, x, p);
    }
  }

  lemma {:induction false} LoadNodeKeyed(tasks: Table, w: Worker, found: seq<Task>, now: int)
    requires Keyed(tasks)
    ensures Keyed(LoadNode(tasks, w, found, now))
    decreases |found|
  {
    if found != [] {
      LoadNodeKeyed(LoadOne(tasks, w, found[0], now), w, found[1..], now);
    }
  }

  lemma {:induction false} LoadAllFinds(tasks: Table, workers: seq<Worker>, nodes: Nodes, now: int, x: Worker, p: Path)
    requires Keyed(tasks) && NodesReady(nodes) && InNode(nodes, x, p)
    requires x in workers || LoadedFrom(tasks, x, p)
    ensures LoadedFrom(LoadAll(tasks, workers, nodes, now), x, p)
    decreases |workers|
  {
    if workers != [] {
      var w := workers[0];
      var next := if w in nodes then LoadNode(tasks, w, nodes[w], now) else tasks;
      if w in nodes {
        LoadNodeKeyed(tasks, w, nodes[w], now);
        if HasPath(nodes[w], p) || LoadedFrom(tasks, x, p) {
          assert HasPath(nodes[w], p) ==> InNode(nodes, w, p);
          LoadNodeFinds(tasks, w, nodes[w], now, x, p);
        }
      }
      assert x == w ==> HasPath(nodes[w], p);
      LoadAllFinds(next, workers[1..], nodes, now, x, p);
    }
  }

  lemma {:induction false} LoadAllKeyed(tasks: Table, workers: seq<Worker>, nodes: Nodes, now: int)
    requires Keyed(tasks)
    ensures Keyed(LoadAll(tasks, workers, nodes, now))
    decreases |workers|
  {
    if workers != [] {
      var w := workers[0];
      if w in nodes {
        LoadNodeKeyed(tasks, w, nodes[w], now);
        LoadAllKeyed(LoadNode(tasks, w, nodes[w], now), workers[1..], nodes, now);
      } else {
        LoadAllKeyed(tasks, workers[1..], nodes, now);
      }
    }
  }

  lemma StartInv(s: State, init: Table, workers: seq<Worker>)
    requires Start(s, init, workers)
    ensures Inv(s) && UpToDate(s)
  {
    LoadAllKeyed(init, workers, s.nodes, s.now);
    forall w, p | InNode(s.nodes, w, p)
      ensures LoadedFrom(s.tasks, w, p) && (s.tasks[p].status == Deleting ==> w in s.locked)
    {
      assert w in (set x | x in workers);
      LoadAllFinds(init, workers, s.nodes, s.now, w, p);
      assert s.tasks[p].status == Deleting ==> s.tasks[p].owner in DeletingOwners(s.tasks);
    }
  }

  /**
   The promise of the balancer for one task. In every run of a term in which no step takes the task
   away from a content that waits to be set, whatever happens to other tasks, after every single
   node write: the task is in one live worker's node at most, and whenever no locked write is
   outstanding it is recorded as Assigned to that worker.
   */
  lemma TaskInOnePlace(ss: seq<State>, acts: seq<Action>, init: Table, workers: seq<Worker>, p: Path, i: nat)
    requires IsRun(ss, acts) && KeepsOrder(ss, acts, p) && Start(ss[0], init, workers) && i < |ss|
    ensures forall w, x :: InNode(ss[i].nodes, w, p) && InNode(ss[i].nodes, x, p) ==> w == x
    ensures ss[i].locked == {} ==> forall w :: InNode(ss[i].nodes, w, p) ==> AssignedTo(ss[i].tasks, p, w)
  {
    StartInv(ss[0], init, workers);
    assert OnePlace(ss[0], p) && Fresh(ss[0], p);
    hide Start, IsRun, KeepsOrder;
    TaskRunKeeps(ss, acts, p, i);
  }

  /**
   The promise of the balancer. In every run of a term in which no rebalancing or orphan check
   overtakes a waiting content, after every single node write, no path is in two live workers'
   nodes; whenever no locked write is outstanding, a path in w's node is recorded as Assigned to w;
   and the nodes are always fit to start the next term from.
   */
  lemma NoTaskTwice(ss: seq<State>, acts: seq<Action>, init: Table, workers: seq<Worker>, i: nat)
    requires IsRun(ss, acts) && InOrder(ss, acts) && Start(ss[0], init, workers) && i < |ss|
    ensures forall p, w, x :: InNode(ss[i].nodes, w, p) && InNode(ss[i].nodes, x, p) ==> w == x
    ensures ss[i].locked == {} ==>
      forall w, p :: InNode(ss[i].nodes, w, p) ==>
        p in ss[i].tasks && ss[i].tasks[p].status == Assigned && ss[i].tasks[p].owner == w
    ensures NodesReady(ss[i].nodes)
  {
    StartInv(ss[0], init, workers);
    RunKeeps(ss, acts, i);
  }
}

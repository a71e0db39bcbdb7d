/**
 The run in which the balancer breaks its promise (zklock/zk_balancer.go): assignedTasks, called
 without the mutex, reads the table, is overtaken by a rebalancing, and then sets a stale content.
 */
module BalancerRace {
  import opened BalancerProtocol

  const P: Path := "task"
  const B: Worker := "b"
  const C: Worker := "c"

  function TheTask(status: Status, owner: Worker): Task {
    Task(P, "", 0, status, owner, 0)
  }

  /** One task, two live workers. */
  function At(status: Status, owner: Worker, b: seq<Task>, c: seq<Task>): State {
    State(map[P := TheTask(status, owner)], map[B := b, C := c], false, 0, {}, multiset{}, multiset{})
  }

  lemma ContentOfTask(tasks: Table, status: Status, owner: Worker, w: Worker)
    requires tasks == map[P := TheTask(status, owner)]
    ensures Content(if status == Assigned && owner == w then [TheTask(status, owner)] else [], tasks, w)
  {
  }

  /** A rebalancing takes the task from one worker, and both nodes are rewritten without it. */
  lemma Move(
    ss: seq<State>, acts: seq<Action>, from: Worker, to: Worker,
    b: seq<Task>, c: seq<Task>, pending: multiset<Pending>)
    returns (ss': seq<State>, acts': seq<Action>)
    requires ss != [] && IsRun(ss, acts) && from != to
    requires ss[|ss| - 1] == At(Assigned, from, b, c).(pending := pending)
    ensures IsRun(ss', acts') && ss <= ss'
    ensures ss'[|ss'| - 1] == At(Releasing, to, [], []).(pending := pending)
  {
    hide IsRun, Step, Content;
    var s0 := ss[|ss| - 1];
    var s1 := At(Releasing, to, b, c).(pending := pending, locked := {B, C});
    var s2 := At(Releasing, to, [], c).(pending := pending, locked := {C});
    var s3 := At(Releasing, to, [], []).(pending := pending);
    MoveStep(s0, from, to, b, c, pending);
    WriteSteps(s1, s2, s3, to, b, c, pending);
    ExtendRun(ss, acts, Rebalance(map[P := to]), s1);
    ExtendRun(ss + [s1], acts + [Rebalance(map[P := to])], WriteLocked(B), s2);
    ExtendRun(ss + [s1] + [s2], acts + [Rebalance(map[P := to])] + [WriteLocked(B)], WriteLocked(C), s3);
    ss', acts' := ss + [s1] + [s2] + [s3], acts + [Rebalance(map[P := to])] + [WriteLocked(B)] + [WriteLocked(C)];
  }

  lemma MoveStep(s: State, from: Worker, to: Worker, b: seq<Task>, c: seq<Task>, pending: multiset<Pending>)
    requires s == At(Assigned, from, b, c).(pending := pending) && from != to
    ensures Step(s, Rebalance(map[P := to]), At(Releasing, to, b, c).(pending := pending, locked := {B, C}))
  {
    assert Balanceable(s.tasks) == {P};
    assert Reassigned(s.tasks, map[P := to], 0) == map[P := TheTask(Releasing, to)];
  }

  lemma WriteSteps(s1: State, s2: State, s3: State, to: Worker, b: seq<Task>, c: seq<Task>, pending: multiset<Pending>)
    requires s1 == At(Releasing, to, b, c).(pending := pending, locked := {B, C})
    requires s2 == At(Releasing, to, [], c).(pending := pending, locked := {C})
    requires s3 == At(Releasing, to, [], []).(pending := pending)
    ensures Step(s1, WriteLocked(B), s2) && Step(s2, WriteLocked(C), s3)
  {
    hide Content;
    assert B != C;
    ContentOfTask(s1.tasks, Releasing, to, B);
    ContentOfTask(s1.tasks, Releasing, to, C);
    assert s2.nodes == s1.nodes[B := []] && s3.nodes == s2.nodes[C := []];
  }

  /** The released event arrives and the new owner's content is computed. */
  lemma ReleaseAndCompute(ss: seq<State>, acts: seq<Action>, w: Worker, b: seq<Task>, c: seq<Task>)
    returns (ss': seq<State>, acts': seq<Action>)
    requires ss != [] && IsRun(ss, acts) && ss[|ss| - 1] == At(Releasing, w, b, c)
    ensures IsRun(ss', acts') && ss <= ss'
    ensures ss'[|ss'| - 1] == At(Assigned, w, b, c).(pending := multiset{Pending(w, [TheTask(Assigned, w)])})
  {
    hide IsRun, Step;
    var s0, s1 := ss[|ss| - 1], At(Assigned, w, b, c).(loose := multiset{w});
    var content := [TheTask(Assigned, w)];
    var s2 := At(Assigned, w, b, c).(pending := multiset{Pending(w, content)});
    ReleaseStep(s0, w, b, c);
    ComputeStep(s1, w, b, c);
    ExtendRun(ss, acts, Release({P}), s1);
    ExtendRun(ss + [s1], acts + [Release({P})], Compute(w, content), s2);
    ss', acts' := ss + [s1] + [s2], acts + [Release({P})] + [Compute(w, content)];
  }

  lemma ReleaseStep(s: State, w: Worker, b: seq<Task>, c: seq<Task>)
    requires s == At(Releasing, w, b, c)
    ensures Step(s, Release({P}), At(Assigned, w, b, c).(loose := multiset{w}))
  {
    assert Released(s.tasks, {P}, 0) == map[P := TheTask(Assigned, w)];
    assert ReleasedOwners(s.tasks, {P}) == {w};
    assert multiset{} + multiset({w}) == multiset{w};
  }

  lemma ComputeStep(s: State, w: Worker, b: seq<Task>, c: seq<Task>)
    requires s == At(Assigned, w, b, c).(loose := multiset{w})
    ensures var content := [TheTask(Assigned, w)];
            Step(s, Compute(w, content), At(Assigned, w, b, c).(pending := multiset{Pending(w, content)}))
  {
    hide Content;
    ContentOfTask(s.tasks, Assigned, w, w);
    assert multiset{w} - multiset{w} == multiset{};
  }

  /** A term that finds the task in B's node. */
  lemma StartAtB() returns (s: State, init: Table, workers: seq<Worker>)
    ensures s == At(Assigned, B, [TheTask(Assigned, B)], []) && Start(s, init, workers)
  {
    s := At(Assigned, B, [TheTask(Assigned, B)], []);
    init, workers := map[P := TheTask(Init, "")], [B, C];
    var found := [TheTask(Assigned, B)];
    assert s.nodes[B] == found && s.nodes[C] == [] && B != C;
    assert found[1..] == [] && workers[1..] == [C] && [C][1..] == [];
    assert LoadOne(init, B, found[0], 0) == s.tasks;
    assert LoadNode(s.tasks, B, [], 0) == s.tasks && LoadNode(s.tasks, C, [], 0) == s.tasks;
    assert LoadAll(s.tasks, [C], s.nodes, 0) == LoadAll(s.tasks, [], s.nodes, 0) == s.tasks;
    assert LoadAll(init, workers, s.nodes, 0) == LoadAll(LoadNode(init, B, found, 0), [C], s.nodes, 0);
    assert (set w | w in workers) == s.nodes.Keys;
  }

  /**
   A run of the protocol, from the start of a term, in which a rebalancing overtakes a waiting
   content. After the stale Set, with no handler holding the mutex, C's node shows the task that was
   moved to B and is still Releasing; one released event later it is in the nodes of both B and C.
   */
  lemma StaleSetBreaksPromise()
    returns (ss: seq<State>, acts: seq<Action>, init: Table, workers: seq<Worker>, i: nat)
    ensures IsRun(ss, acts) && Start(ss[0], init, workers)
    ensures i < |ss| && ss[i].locked == {} && !Recorded(ss[i])
    ensures P in ss[i].tasks && ss[i].tasks[P].status == Releasing && InNode(ss[i].nodes, C, P)
    ensures !Exclusive(ss[|ss| - 1].nodes)
  {
    hide IsRun, Step, Start, Recorded, Exclusive;
    var s0;
    s0, init, workers := StartAtB();
    ss, acts := [s0], [];
    JustStarted(s0);
    ss, acts := Move(ss, acts, B, C, s0.nodes[B], [], multiset{});
    ss, acts := ReleaseAndCompute(ss, acts, C, [], []);
    var stale := [TheTask(Assigned, C)];
    ss, acts := Move(ss, acts, C, B, [], [], multiset{Pending(C, stale)});
    var s := At(Releasing, B, [], stale);
    StaleSet(ss[|ss| - 1], s);
    ExtendRun(ss, acts, Set(C, stale), s);
    ss, acts, i := ss + [s], acts + [Set(C, stale)], |ss|;
    ss, acts := ReleaseAndCompute(ss, acts, B, [], stale);
    var last := At(Assigned, B, [TheTask(Assigned, B)], stale);
    SecondSet(ss[|ss| - 1], last);
    ExtendRun(ss, acts, Set(B, [TheTask(Assigned, B)]), last);
    ss, acts := ss + [last], acts + [Set(B, [TheTask(Assigned, B)])];
  }

  lemma JustStarted(s: State)
    ensures IsRun([s], [])
  {
  }

  lemma StaleSet(s: State, s': State)
    requires s == At(Releasing, B, [], []).(pending := multiset{Pending(C, [TheTask(Assigned, C)])})
    requires s' == At(Releasing, B, [], [TheTask(Assigned, C)])
    ensures Step(s, Set(C, [TheTask(Assigned, C)]), s') && !Recorded(s') && InNode(s'.nodes, C, P)
  {
    assert s'.nodes == AfterSet(s.nodes, C, [TheTask(Assigned, C)]);
    assert TheTask(Assigned, C) in s'.nodes[C];
    assert InNode(s'.nodes, C, P);
  }

  lemma SecondSet(s: State, s': State)
    requires s == At(Assigned, B, [], [TheTask(Assigned, C)]).(pending := multiset{Pending(B, [TheTask(Assigned, B)])})
    requires s' == At(Assigned, B, [TheTask(Assigned, B)], [TheTask(Assigned, C)])
    ensures Step(s, Set(B, [TheTask(Assigned, B)]), s') && !Exclusive(s'.nodes)
  {
    assert B != C;
    assert s'.nodes == AfterSet(s.nodes, B, [TheTask(Assigned, B)]);
    assert TheTask(Assigned, B) in s'.nodes[B] && TheTask(Assigned, C) in s'.nodes[C];
    assert InNode(s'.nodes, B, P) && InNode(s'.nodes, C, P);
  }

  // ----- every overtaking can break the promise -----

  /** Some content for a worker's node; the master can always write one. */
  lemma {:induction false} SomeContent(tasks: Table, w: Worker) returns (c: seq<Task>)
    requires Keyed(tasks)
    ensures Content(c, tasks, w)
    decreases |tasks|
  {
    if tasks == map[] {
      c := [];
    } else {
      var p :| p in tasks;
      assert (tasks - {p}).Keys == tasks.Keys - {p};
      c := SomeContent(tasks - {p}, w);
      ContentWith(tasks, p, w, c);
      if tasks[p].status == Assigned && tasks[p].owner == w {
        c := c + [tasks[p]];
      }
    }
  }

  lemma ContentWith(tasks: Table, p: Path, w: Worker, c: seq<Task>)
    requires Keyed(tasks) && p in tasks && Content(c, tasks - {p}, w)
    ensures Content(if tasks[p].status == Assigned && tasks[p].owner == w then c + [tasks[p]] else c, tasks, w)
  {
    assert forall t <- c :: t.path != p;
  }

  /** A run with its actions. */
  datatype Run = Run(ss: seq<State>, acts: seq<Action>) {

    ghost predicate Valid() {
      ss != [] && IsRun(ss, acts)
    }

    ghost function Last(): State
      requires ss != []
    {
      ss[|ss| - 1]
    }

    ghost function Then(a: Action, s: State): Run {
      Run(ss + [s], acts + [a])
    }

    /** It goes on from `r`, with steps that only write nodes or let a worker join. */
    ghost predicate QuietlyAfter(r: Run) {
      && r.ss <= ss && r.acts <= acts
      && forall k :: |r.acts| <= k < |acts| ==> acts[k].WriteLocked? || acts[k].Join? || acts[k].Set?
    }

    ghost predicate After(r: Run) {
      r.ss <= ss && r.acts <= acts
    }
  }

  lemma Extend(r: Run, a: Action, s: State)
    requires r.Valid() && Step(r.Last(), a, s)
    ensures r.Then(a, s).Valid() && r.Then(a, s).Last() == s && r.Then(a, s).After(r)
    ensures a.WriteLocked? || a.Join? || a.Set? ==> r.Then(a, s).QuietlyAfter(r)
  {
    hide Step, IsRun;
    ExtendRun(r.ss, r.acts, a, s);
  }

  /** Goes on from a state without a run before it. */
  lemma From(s: State) returns (r: Run)
    ensures r.Valid() && r.ss == [s] && r.acts == []
  {
    r := Run([s], []);
    JustStarted(s);
  }

  lemma Transitive(a: Run, b: Run, c: Run)
    requires b.After(a) && c.After(b)
    ensures c.After(a)
    ensures b.QuietlyAfter(a) && c.QuietlyAfter(b) ==> c.QuietlyAfter(a)
  {
  }

  /** The master finishes its locked writes; the table and the waiting contents stay. */
  lemma {:induction false} FinishWrites(r: Run) returns (r': Run)
    requires r.Valid() && Keyed(r.Last().tasks)
    ensures r'.Valid() && r'.QuietlyAfter(r)
    ensures var s, s' := r.Last(), r'.Last();
            && s' == s.(nodes := s'.nodes, locked := {}) && s'.nodes.Keys == s.nodes.Keys
            && forall w <- s.nodes ::
                 if w in s.locked then Content(s'.nodes[w], s.tasks, w) else s'.nodes[w] == s.nodes[w]
    decreases |r.Last().locked|
  {
    hide IsRun, Content, Keyed;
    var s := r.Last();
    if w :| w in s.locked {
      var c := SomeContent(s.tasks, w);
      var s' := s.(nodes := AfterSet(s.nodes, w, c), locked := s.locked - {w});
      Extend(r, WriteLocked(w), s');
      hide Step, Run.QuietlyAfter, Run.After;
      r' := FinishWrites(r.Then(WriteLocked(w), s'));
      QuietIsAfter(r', r.Then(WriteLocked(w), s'));
      Transitive(r, r.Then(WriteLocked(w), s'), r');
    } else {
      r' := r;
    }
  }

  lemma QuietIsAfter(a: Run, b: Run)
    requires a.QuietlyAfter(b)
    ensures a.After(b)
  {
  }

  /** A worker joins unless it is there. */
  lemma Arrive(r: Run, w: Worker) returns (r': Run)
    requires r.Valid()
    ensures r'.Valid() && r'.QuietlyAfter(r)
    ensures var s, s' := r.Last(), r'.Last();
            && s' == s.(nodes := s'.nodes) && w in s'.nodes
            && s'.nodes == if w in s.nodes then s.nodes else s.nodes[w := []]
  {
    hide IsRun;
    if w in r.Last().nodes {
      r' := r;
    } else {
      var s' := r.Last().(nodes := r.Last().nodes[w := []]);
      Extend(r, Join(w), s');
      r' := r.Then(Join(w), s');
    }
  }

  /** A waiting content is set, its worker joining again if it has left. */
  lemma SetWaiting(r: Run, d: Pending) returns (r': Run)
    requires r.Valid() && d in r.Last().pending
    ensures r'.Valid() && r'.QuietlyAfter(r)
    ensures var s, s' := r.Last(), r'.Last();
            && s' == s.(nodes := s'.nodes, pending := s.pending - multiset{d})
            && d.w in s'.nodes && s'.nodes[d.w] == d.c
            && forall w <- s.nodes :: w != d.w ==> w in s'.nodes && s'.nodes[w] == s.nodes[w]
  {
    hide IsRun, Run.QuietlyAfter, Run.After;
    var r1 := Arrive(r, d.w);
    var s := r1.Last();
    var s' := s.(nodes := s.nodes[d.w := d.c], pending := s.pending - multiset{d});
    assert d == Pending(d.w, d.c);
    Extend(r1, Set(d.w, d.c), s');
    r' := r1.Then(Set(d.w, d.c), s');
    QuietIsAfter(r1, r);
    Transitive(r, r1, r');
  }

  lemma Shown(nodes: Nodes, w: Worker, c: seq<Task>, p: Path)
    requires w in nodes && nodes[w] == c && HasPath(c, p)
    ensures InNode(nodes, w, p)
  {
  }

  /** However the run stands, a waiting content with the task can be set when the mutex is free. */
  lemma WaitingIsShown(r: Run, d: Pending, p: Path) returns (r': Run)
    requires r.Valid() && Keyed(r.Last().tasks) && d in r.Last().pending && HasPath(d.c, p)
    ensures r'.Valid() && r'.QuietlyAfter(r)
    ensures r'.Last().tasks == r.Last().tasks && r'.Last().locked == {} && InNode(r'.Last().nodes, d.w, p)
  {
    hide IsRun, Content, Keyed, HasPath, InNode, Run.QuietlyAfter, Run.After;
    var r1 := FinishWrites(r);
    r' := SetWaiting(r1, d);
    QuietIsAfter(r1, r);
    QuietIsAfter(r', r1);
    Transitive(r, r1, r');
    Shown(r'.Last().nodes, d.w, d.c, p);
  }

  /** The released event of a task arrives and its live owner's node is set. */
  lemma ReleaseShows(r: Run, p: Path, b: Worker) returns (r': Run)
    requires r.Valid() && Keyed(r.Last().tasks) && r.Last().locked == {} && b in r.Last().nodes
    requires p in r.Last().tasks && r.Last().tasks[p].status == Releasing && r.Last().tasks[p].owner == b
    ensures r'.Valid() && r'.After(r) && r'.Last().locked == {} && InNode(r'.Last().nodes, b, p)
    ensures r.Last().pending <= r'.Last().pending
  {
    hide IsRun, Content, HasPath, InNode, Run.QuietlyAfter, Run.After;
    var s := r.Last();
    var s1 := s.(tasks := Released(s.tasks, {p}, s.now), loose := s.loose + multiset(ReleasedOwners(s.tasks, {p})));
    assert Step(s, Release({p}), s1) && Keyed(s1.tasks) && AssignedTo(s1.tasks, p, b);
    assert b in ReleasedOwners(s.tasks, {p}) && b in s1.loose;
    hide Step, Keyed, Released, ReleasedOwners;
    Extend(r, Release({p}), s1);
    var c := SomeContent(s1.tasks, b);
    ContentHasPath(c, s1.tasks, b, p);
    r' := ComputeAndSet(r.Then(Release({p}), s1), b, c);
    Transitive(r, r.Then(Release({p}), s1), r');
    Shown(r'.Last().nodes, b, c, p);
  }

  lemma ComputeAndSet(r: Run, b: Worker, c: seq<Task>) returns (r': Run)
    requires r.Valid() && b in r.Last().loose && b in r.Last().nodes && Content(c, r.Last().tasks, b)
    ensures r'.Valid() && r'.After(r) && r'.Last().locked == r.Last().locked && r'.Last().pending == r.Last().pending
    ensures b in r'.Last().nodes && r'.Last().nodes[b] == c
  {
    hide IsRun, Content, Run.QuietlyAfter, Run.After;
    var s, d := r.Last(), Pending(b, c);
    var s1 := s.(loose := s.loose - multiset{b}, pending := s.pending + multiset{d});
    Extend(r, Compute(b, c), s1);
    r' := SetWaiting(r.Then(Compute(b, c), s1), d);
    QuietIsAfter(r', r.Then(Compute(b, c), s1));
    Transitive(r, r.Then(Compute(b, c), s1), r');
    assert s.pending + multiset{d} - multiset{d} == s.pending;
  }

  /** A time at which every releasing has timed out. */
  lemma {:induction false} LateEnough(tasks: Table, now: int) returns (time: int)
    ensures now <= time && forall p <- tasks :: Expired(tasks[p], time)
    decreases |tasks|
  {
    if p :| p in tasks {
      assert (tasks - {p}).Keys == tasks.Keys - {p};
      time := LateEnough(tasks - {p}, now);
      var late := tasks[p].timestamp + RELEASING_TIMEOUT;
      time := if time < late then late else time;
      assert forall q <- tasks :: q == p || q in tasks - {p};
    } else {
      time := now;
    }
  }

  /** All releasing times out, so that a rebalancing is possible. */
  lemma TimeAllOut(r: Run) returns (r': Run)
    requires r.Valid() && Keyed(r.Last().tasks) && r.Last().locked == {}
    ensures r'.Valid() && r'.After(r)
    ensures var s, s' := r.Last(), r'.Last();
            && s'.nodes == s.nodes && s'.pending == s.pending && s'.locked == {}
            && Keyed(s'.tasks) && NoReleasing(s'.tasks)
            && forall p <- s.tasks :: s.tasks[p].status == Init ==> p in s'.tasks && s'.tasks[p].status == Init
  {
    hide IsRun, Run.QuietlyAfter, Run.After;
    var s := r.Last();
    var time := LateEnough(s.tasks, s.now);
    var s1 := s.(now := time);
    Extend(r, Tick(time), s1);
    var r1 := r.Then(Tick(time), s1);
    var s2 := s1.(tasks := TimedOut(s.tasks, time), loose := s.loose + multiset(TimedOutOwners(s.tasks, time)));
    Extend(r1, Timeout, s2);
    r' := r1.Then(Timeout, s2);
    Transitive(r, r1, r');
  }

  /** A rebalancing gives everything to one live worker, and an Init task ends up in its node. */
  lemma GiveTo(r: Run, p: Path, x: Worker) returns (r': Run)
    requires r.Valid() && Keyed(r.Last().tasks) && r.Last().locked == {} && NoReleasing(r.Last().tasks)
    requires p in r.Last().tasks && r.Last().tasks[p].status == Init && x in r.Last().nodes
    ensures r'.Valid() && r'.After(r) && r'.Last().locked == {} && r'.Last().pending == r.Last().pending
    ensures InNode(r'.Last().nodes, x, p)
  {
    hide IsRun, Content, HasPath, InNode, Run.QuietlyAfter, Run.After;
    var s := r.Last();
    var assign := map q | q in Balanceable(s.tasks) :: x;
    var s1 := s.(tasks := Reassigned(s.tasks, assign, s.now), locked := s.nodes.Keys);
    assert p in Balanceable(s.tasks);
    assert Step(s, Rebalance(assign), s1) && Keyed(s1.tasks) && AssignedTo(s1.tasks, p, x);
    hide Step, Keyed, Reassigned, Balanceable, NoReleasing;
    Extend(r, Rebalance(assign), s1);
    r' := FinishWrites(r.Then(Rebalance(assign), s1));
    QuietIsAfter(r', r.Then(Rebalance(assign), s1));
    Transitive(r, r.Then(Rebalance(assign), s1), r');
    ContentHasPath(r'.Last().nodes[x], s1.tasks, x, p);
    Shown(r'.Last().nodes, x, r'.Last().nodes[x], p);
  }

  /** The task is in another worker's node when the waiting content with it is set. */
  lemma TwiceAfterSet(r: Run, d: Pending, p: Path, b: Worker) returns (r': Run)
    requires r.Valid() && r.Last().locked == {} && d in r.Last().pending && HasPath(d.c, p)
    requires b != d.w && InNode(r.Last().nodes, b, p)
    ensures r'.Valid() && r'.After(r) && r'.Last().locked == {} && TwoNodes(r'.Last().nodes, p)
  {
    hide IsRun, HasPath, Run.QuietlyAfter, Run.After;
    r' := SetWaiting(r, d);
    QuietIsAfter(r', r);
    Shown(r'.Last().nodes, d.w, d.c, p);
    assert InNode(r'.Last().nodes, b, p);
  }

  ghost predicate TwoNodes(nodes: Nodes, p: Path) {
    exists w, x :: w != x && InNode(nodes, w, p) && InNode(nodes, x, p)
  }

  lemma AfterRebalance(s: State, assign: map<Path, Worker>, s': State, p: Path, d: Pending) returns (r: Run)
    requires Keyed(s'.tasks) && Fresh(s, p) && Step(s, Rebalance(assign), s')
    requires d in s.pending && HasPath(d.c, p) && p in assign && assign[p] != d.w
    ensures r.Valid() && r.ss[0] == s' && r.Last().locked == {} && TwoNodes(r.Last().nodes, p)
  {
    assert AssignedTo(s.tasks, p, d.w);
    var b := assign[p];
    assert s'.tasks[p].status == Releasing && s'.tasks[p].owner == b && d in s'.pending;
    var r0 := From(s');
    var r1 := FinishWrites(r0);
    var r2 := Arrive(r1, b);
    var r3 := ReleaseShows(r2, p, b);
    r := TwiceAfterSet(r3, d, p, b);
  }

  lemma AfterOrphans(s: State, s': State, p: Path, d: Pending) returns (r: Run)
    requires Keyed(s'.tasks) && Fresh(s, p) && Step(s, Orphans, s')
    requires d in s.pending && HasPath(d.c, p) && d.w !in s.nodes
    ensures r.Valid() && r.ss[0] == s' && r.Last().locked == {} && TwoNodes(r.Last().nodes, p)
  {
    assert AssignedTo(s.tasks, p, d.w);
    assert p in s'.tasks && s'.tasks[p].status == Init && d in s'.pending && s'.locked == {};
    var x := d.w + "'";
    assert |x| != |d.w|;
    var r0 := From(s');
    var r1 := Arrive(r0, x);
    var r2 := TimeAllOut(r1);
    var r3 := GiveTo(r2, p, x);
    r := TwiceAfterSet(r3, d, p, x);
  }

  /**
   The condition on one task is exact: after any step that takes it away from a waiting content, the
   run can go on to a state in which no handler holds the mutex and two nodes hold the task.
   */
  lemma TakingAwayBreaks(s: State, a: Action, s': State, p: Path) returns (r: Run)
    requires Keyed(s.tasks) && Fresh(s, p) && Step(s, a, s') && TakesAway(s, a, p)
    ensures r.Valid() && r.ss[0] == s' && r.Last().locked == {} && TwoNodes(r.Last().nodes, p)
  {
    hide TwoNodes, Fresh, Step, IsRun, HasPath, Keyed;
    KeyedStays(s, a, s');
    match a
    case Rebalance(assign) =>
      var d :| d in s.pending && HasPath(d.c, p) && p in assign && assign[p] != d.w;
      r := AfterRebalance(s, assign, s', p, d);
    case Orphans =>
      var d :| d in s.pending && HasPath(d.c, p) && d.w !in s.nodes;
      r := AfterOrphans(s, s', p, d);
  }

  /** So is the condition on runs: any overtaking can lead to a task in two nodes. */
  lemma OvertakingBreaks(s: State, a: Action, s': State) returns (r: Run)
    requires Inv(s) && UpToDate(s) && Step(s, a, s') && Overtakes(s, a)
    ensures r.Valid() && r.ss[0] == s'
    ensures r.Last().locked == {} && !Recorded(r.Last()) && !Exclusive(r.Last().nodes)
  {
    hide Step, TakesAway, IsRun, Fresh, Exclusive, Recorded;
    var p :| TakesAway(s, a, p);
    assert Fresh(s, p);
    r := TakingAwayBreaks(s, a, s', p);
    TwoNodesBreak(r.Last(), p);
  }

  lemma TwoNodesBreak(s: State, p: Path)
    requires s.locked == {} && TwoNodes(s.nodes, p)
    ensures !Recorded(s) && !Exclusive(s.nodes)
  {
  }
}

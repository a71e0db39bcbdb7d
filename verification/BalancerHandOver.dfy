/**
 Handing a task over from one live worker to another (zklock/zk_balancer.go): until it is released,
 times out or its new owner leaves, nobody else may see it.
 */
module BalancerHandOver {
  import opened BalancerProtocol
  import opened BalancerRace

  /** What lets a Releasing task `t` become Assigned or Init again. */
  predicate Excused(s: State, a: Action, t: Task) {
    || (a.Release? && t.path in a.paths)
    || (a.Timeout? && s.now - t.timestamp >= 120)
    || (a.Orphans? && t.owner !in s.nodes)
  }

  /** The master moves the task `p` from the live worker `a` to another worker. */
  predicate Moved(s: State, s': State, p: Path, a: Worker) {
    && p in s.tasks && s.tasks[p].status == Assigned && s.tasks[p].owner == a && a in s.nodes
    && p in s'.tasks && s'.tasks[p].owner != a
  }

  /** Nobody but `a` sees the task, and no content that waits to be set holds it. */
  ghost predicate Clean(s: State, p: Path, a: Worker) {
    && (forall w :: InNode(s.nodes, w, p) ==> w == a)
    && (forall d <- s.pending :: !HasPath(d.c, p))
  }

  /** The record stays; only `a` may see the task, and only until its node is rewritten. */
  ghost predicate Waits(s: State, t: Task, a: Worker) {
    && t.path in s.tasks && s.tasks[t.path] == t
    && forall w :: InNode(s.nodes, w, t.path) ==> w == a && a in s.locked
  }

  /** The same, and nothing is under way that would show the task. */
  ghost predicate Held(s: State, t: Task, a: Worker) {
    t.status == Releasing && Waits(s, t, a) && forall d <- s.pending :: !HasPath(d.c, t.path)
  }

  // ----- one step -----

  lemma MoveMakesReleasing(s: State, act: Action, s': State, p: Path, a: Worker)
    requires Keyed(s.tasks) && Step(s, act, s') && Moved(s, s', p, a)
    ensures act.Rebalance? && s'.nodes == s.nodes && s'.pending == s.pending && a in s'.locked
    ensures s'.tasks[p].status == Releasing && s'.tasks[p].timestamp == s.now && s'.tasks[p].path == p
  {
    assert act.Rebalance?;
    assert p in Balanceable(s.tasks);
  }

  /** While a task is held and nothing excuses it, it stays held. */
  lemma ReleasingStays(s: State, act: Action, s': State, t: Task, a: Worker)
    requires Held(s, t, a) && Step(s, act, s') && !Excused(s, act, t)
    ensures Held(s', t, a)
  {
    hide Content, AfterSet, Written, HasPath, Waits;
    match act
    case WriteLocked(w) =>
      var c := LockedIsSet(s, w, s'.nodes);
      if w in s.nodes {
        ContentHasPath(c, s.tasks, w, t.path);
        WaitsInTable(s, t, a);
      }
      NotShown(s, w, c, s', t, a);
    case Set(w, c) =>
      assert !HasPath(Pending(w, c).c, t.path);
      assert forall d <- s'.pending :: d in s.pending;
      NotShown(s, w, c, s', t, a);
    case Compute(w, c) =>
      ContentHasPath(c, s.tasks, w, t.path);
      WaitsInTable(s, t, a);
      assert forall d <- s'.pending :: d in s.pending || d == Pending(w, c);
      HandlerWaits(s, act, s', t, a);
    case _ => HandlerWaits(s, act, s', t, a);
  }

  lemma WaitsInTable(s: State, t: Task, a: Worker)
    requires Waits(s, t, a)
    ensures t.path in s.tasks && s.tasks[t.path] == t
  {
  }

  /** Steps that set no node. */
  lemma HandlerWaits(s: State, act: Action, s': State, t: Task, a: Worker)
    requires t.status == Releasing && Waits(s, t, a) && Step(s, act, s') && !Excused(s, act, t)
    requires !act.WriteLocked? && !act.Set?
    ensures Waits(s', t, a)
  {
    hide Content;
    assert forall x :: InNode(s'.nodes, x, t.path) ==> InNode(s.nodes, x, t.path);
  }

  /** A node set to a content without the task. */
  lemma NotShown(s: State, w: Worker, c: seq<Task>, s': State, t: Task, a: Worker)
    requires Waits(s, t, a) && s'.tasks == s.tasks && s'.nodes == AfterSet(s.nodes, w, c)
    requires s'.locked == s.locked || s'.locked == s.locked - {w}
    requires w in s.nodes ==> !HasPath(c, t.path)
    ensures Waits(s', t, a)
  {
    if w in s.nodes {
      forall x
        ensures InNode(s'.nodes, x, t.path) ==> x != w && InNode(s.nodes, x, t.path)
      {
        InNodeAfterSet(s.nodes, w, c, x, t.path);
      }
    }
  }

  lemma CleanMoveHolds(s: State, act: Action, s': State, p: Path, a: Worker)
    requires Keyed(s.tasks) && Step(s, act, s') && Moved(s, s', p, a) && Clean(s, p, a)
    ensures Held(s', s'.tasks[p], a)
  {
    MoveMakesReleasing(s, act, s', p, a);
  }

  // ----- whole runs -----

  /** In every run, whatever else is overtaken: a task moved cleanly waits until it is excused. */
  lemma {:induction false} MovedTaskWaits(ss: seq<State>, acts: seq<Action>, i: nat, j: nat, p: Path, a: Worker)
    requires IsRun(ss, acts) && i < j < |ss|
    requires Keyed(ss[i].tasks) && Moved(ss[i], ss[i + 1], p, a) && Clean(ss[i], p, a)
    requires forall k :: i < k < j ==> !Excused(ss[k], acts[k], ss[i + 1].tasks[p])
    ensures Held(ss[j], ss[i + 1].tasks[p], a)
    decreases j
  {
    hide Held, Step, Clean, Excused, Keyed;
    RunSteps(ss, acts, j - 1);
    if j == i + 1 {
      CleanMoveHolds(ss[i], acts[i], ss[j], p, a);
    } else {
      MovedTaskWaits(ss, acts, i, j - 1, p, a);
      ReleasingStays(ss[j - 1], acts[j - 1], ss[j], ss[i + 1].tasks[p], a);
    }
  }

  /**
   Hand-over over whole runs. Once a task is moved from live worker A to B at time T, and at that
   moment only A sees it and no waiting content holds it, it is in no node but A's, and in A's only
   until A's pending rewrite, for as long as no released event for it is processed, no timeout check
   runs at T + 120 or later, and no orphan check finds B gone.
   */
  lemma HandOver(ss: seq<State>, acts: seq<Action>, i: nat, j: nat, p: Path, a: Worker)
    requires IsRun(ss, acts) && i < j < |ss|
    requires Keyed(ss[i].tasks) && Moved(ss[i], ss[i + 1], p, a) && Clean(ss[i], p, a)
    requires forall k :: i < k < j ==>
      && !(acts[k].Release? && p in acts[k].paths)
      && !(acts[k].Timeout? && ss[k].now >= ss[i].now + 120)
      && !(acts[k].Orphans? && ss[i + 1].tasks[p].owner !in ss[k].nodes)
    ensures p in ss[j].tasks && ss[j].tasks[p] == ss[i + 1].tasks[p] && ss[j].tasks[p].status == Releasing
    ensures forall w :: InNode(ss[j].nodes, w, p) ==> w == a && a in ss[j].locked
  {
    hide Step, Clean;
    RunSteps(ss, acts, i);
    MoveMakesReleasing(ss[i], acts[i], ss[i + 1], p, a);
    MovedTaskWaits(ss, acts, i, j, p, a);
  }

  /** In a run in order every move is clean. */
  lemma InOrderIsClean(ss: seq<State>, acts: seq<Action>, i: nat, p: Path, a: Worker)
    requires IsRun(ss, acts) && InOrder(ss, acts) && Inv(ss[0]) && UpToDate(ss[0]) && i + 1 < |ss|
    requires Moved(ss[i], ss[i + 1], p, a)
    ensures Keyed(ss[i].tasks) && Clean(ss[i], p, a)
  {
    RunKeeps(ss, acts, i);
    RunSteps(ss, acts, i);
    assert !Overtakes(ss[i], acts[i]);
    OvertakenUnlessClean(ss[i], acts[i], ss[i + 1], p, a);
  }

  lemma OvertakenUnlessClean(s: State, act: Action, s': State, p: Path, a: Worker)
    requires Inv(s) && UpToDate(s) && Step(s, act, s') && Moved(s, s', p, a) && !Overtakes(s, act)
    ensures Clean(s, p, a)
  {
    hide HasPath, InNode;
    MoveMakesReleasing(s, act, s', p, a);
    assert !TakesAway(s, act, p) && Fresh(s, p);
    assert s.locked == {} && p in act.assign && act.assign[p] != a;
  }

  /** Hand-over in runs in order, from the start of a term. */
  lemma HandOverInOrder(ss: seq<State>, acts: seq<Action>, i: nat, j: nat, p: Path, a: Worker)
    requires IsRun(ss, acts) && InOrder(ss, acts) && Inv(ss[0]) && UpToDate(ss[0]) && i < j < |ss|
    requires Moved(ss[i], ss[i + 1], p, a)
    requires forall k :: i < k < j ==> !Excused(ss[k], acts[k], ss[i + 1].tasks[p])
    ensures Held(ss[j], ss[i + 1].tasks[p], a)
  {
    hide IsRun, InOrder, Inv, UpToDate, Excused, Clean, Held;
    InOrderIsClean(ss, acts, i, p, a);
    MovedTaskWaits(ss, acts, i, j, p, a);
  }

  // ----- the exact condition -----

  ghost predicate Unexcused(ss: seq<State>, acts: seq<Action>, t: Task) {
    |ss| == |acts| + 1 && forall k :: 0 <= k < |acts| ==> !Excused(ss[k], acts[k], t)
  }

  /** However the run goes on without an excuse, the task waits. */
  ghost predicate AlwaysWaits(s: State, t: Task, a: Worker) {
    forall ss, acts :: ss != [] && IsRun(ss, acts) && ss[0] == s && Unexcused(ss, acts, t) ==> Waits(ss[|ss| - 1], t, a)
  }

  lemma {:induction false} HeldWaits(ss: seq<State>, acts: seq<Action>, t: Task, a: Worker, j: nat)
    requires IsRun(ss, acts) && Unexcused(ss, acts, t) && Held(ss[0], t, a) && j < |ss|
    ensures Held(ss[j], t, a)
  {
    hide Held, Step, Excused;
    if j > 0 {
      HeldWaits(ss, acts, t, a, j - 1);
      RunSteps(ss, acts, j - 1);
      ReleasingStays(ss[j - 1], acts[j - 1], ss[j], t, a);
    }
  }

  lemma HeldAlwaysWaits(s: State, t: Task, a: Worker)
    requires Held(s, t, a)
    ensures AlwaysWaits(s, t, a)
  {
    hide IsRun, Unexcused;
    forall ss, acts | ss != [] && IsRun(ss, acts) && ss[0] == s && Unexcused(ss, acts, t)
      ensures Waits(ss[|ss| - 1], t, a)
    {
      HeldWaits(ss, acts, t, a, |ss| - 1);
    }
  }

  /** A waiting content with the task can show it again while it is Releasing, without an excuse. */
  lemma StaleShowsMoved(s: State, t: Task, a: Worker, d: Pending) returns (r: Run)
    requires Keyed(s.tasks) && t.path in s.tasks && s.tasks[t.path] == t
    requires d in s.pending && HasPath(d.c, t.path)
    ensures r.Valid() && r.ss[0] == s && Unexcused(r.ss, r.acts, t)
    ensures r.Last().tasks == s.tasks && r.Last().locked == {} && InNode(r.Last().nodes, d.w, t.path)
    ensures !Waits(r.Last(), t, a)
  {
    var r0 := From(s);
    r := WaitingIsShown(r0, d, t.path);
  }

  /**
   The exact condition for hand-over: after a move the task waits, however the run goes on without an
   excuse, if and only if at the moment of the move only its old owner sees it and no waiting content
   holds it.
   */
  lemma HandOverExactly(s: State, act: Action, s': State, p: Path, a: Worker)
    requires Keyed(s.tasks) && Step(s, act, s') && Moved(s, s', p, a)
    ensures AlwaysWaits(s', s'.tasks[p], a) <==> Clean(s, p, a)
  {
    hide Step, Unexcused, IsRun;
    var t := s'.tasks[p];
    MoveMakesReleasing(s, act, s', p, a);
    KeyedStays(s, act, s');
    if Clean(s, p, a) {
      CleanMoveHolds(s, act, s', p, a);
      HeldAlwaysWaits(s', t, a);
    } else if d :| d in s.pending && HasPath(d.c, p) {
      var r := StaleShowsMoved(s', t, a, d);
      assert !Waits(r.ss[|r.ss| - 1], t, a);
    } else {
      NotEvenNow(s', t, a);
    }
  }

  lemma NotEvenNow(s: State, t: Task, a: Worker)
    requires !Waits(s, t, a)
    ensures !AlwaysWaits(s, t, a)
  {
    JustStarted(s);
    assert Unexcused([s], [], t);
  }
}

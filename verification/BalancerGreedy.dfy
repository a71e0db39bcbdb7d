/** How balanceTasks spreads tasks over workers: sorting, the minimum worker, the greedy loop. */
module BalancerGreedy {
  import opened BalancerProtocol

  // ----- sorting -----

  ghost predicate Distinct<T(!new)>(s: seq<T>) {
    forall i, j :: 0 <= i < j < |s| ==> s[i] != s[j]
  }

  /** tasksForSort.Less orders by falling weight; equal weights may come in any order. */
  ghost predicate FallingWeight(paths: seq<Path>, tasks: Table)
    requires forall p <- paths :: p in tasks
  {
    forall i, j :: 0 <= i < j < |paths| ==> tasks[paths[i]].weight >= tasks[paths[j]].weight
  }

  method InsertByWeight(sorted: seq<Path>, p: Path, tasks: Table) returns (out: seq<Path>)
    requires p in tasks && p !in sorted && Distinct(sorted)
    requires forall q <- sorted :: q in tasks
    requires FallingWeight(sorted, tasks)
    ensures |out| == |sorted| + 1 && Distinct(out)
    ensures forall q :: q in out <==> q in sorted || q == p
    ensures FallingWeight(out, tasks)
  {
    var i := 0;
    while i < |sorted| && tasks[sorted[i]].weight >= tasks[p].weight
      invariant i <= |sorted|
      invariant forall k :: 0 <= k < i ==> tasks[sorted[k]].weight >= tasks[p].weight
    {
      i := i + 1;
    }
    out := sorted[..i] + [p] + sorted[i..];
    Inserted(sorted, p, i);
    InsertedOrder(sorted, p, i, out, tasks);
  }

  /** Element `k` of `s` with `p` put in at `i`. */
  function ElementAfter(s: seq<Path>, p: Path, i: nat, k: nat): Path
    requires i <= |s| && k <= |s|
  {
    if k < i then s[k] else if k == i then p else s[k - 1]
  }

  lemma Inserted(s: seq<Path>, p: Path, i: nat)
    requires i <= |s|
    ensures var out := s[..i] + [p] + s[i..];
            && |out| == |s| + 1
            && (forall k :: 0 <= k < |out| ==> out[k] == ElementAfter(s, p, i, k))
            && forall q :: q in out <==> q in s || q == p
  {
    assert s == s[..i] + s[i..];
  }

  lemma InsertedOrder(s: seq<Path>, p: Path, i: nat, out: seq<Path>, tasks: Table)
    requires i <= |s| && |out| == |s| + 1
    requires forall k :: 0 <= k < |out| ==> out[k] == ElementAfter(s, p, i, k)
    requires p in tasks && p !in s && Distinct(s) && forall q <- s :: q in tasks
    requires FallingWeight(s, tasks)
    requires forall k :: 0 <= k < i ==> tasks[s[k]].weight >= tasks[p].weight
    requires i < |s| ==> tasks[s[i]].weight < tasks[p].weight
    ensures Distinct(out) && (forall q <- out :: q in tasks) && FallingWeight(out, tasks)
  {
    forall a | 0 <= a < |out| ensures out[a] in tasks {
      assert out[a] == ElementAfter(s, p, i, a);
    }
    forall a, b | 0 <= a < b < |out|
      ensures out[a] != out[b] && tasks[out[a]].weight >= tasks[out[b]].weight
    {
      assert out[a] == ElementAfter(s, p, i, a);
      assert out[b] == ElementAfter(s, p, i, b);
      if a == i {
        assert b - 1 == i || tasks[s[i]].weight >= tasks[s[b - 1]].weight;
      }
    }
  }

  /** sort.Sort over the tasks of a set; callers may rely only on the order of the weights. */
  method SortByWeight(paths: set<Path>, tasks: Table) returns (sorted: seq<Path>)
    requires paths <= tasks.Keys
    ensures Distinct(sorted) && |sorted| == |paths|
    ensures forall p :: p in sorted <==> p in paths
    ensures FallingWeight(sorted, tasks)
  {
    sorted := [];
    var left := paths;
    while left != {}
      invariant left <= paths
      invariant forall p :: p in sorted <==> p in paths && p !in left
      invariant Distinct(sorted) && |sorted| + |left| == |paths|
      invariant FallingWeight(sorted, tasks)
      decreases |left|
    {
      var p :| p in left;
      sorted := InsertByWeight(sorted, p, tasks);
      left := left - {p};
    }
  }

  // ----- the lightest worker -----

  /** minWeightWorker visiting the map in the given order; -1 marks "none yet". */
  function Scan(order: seq<Worker>, weights: map<Worker, int>): (r: (Worker, int))
    requires forall w <- order :: w in weights
    ensures order != [] ==> r.0 in order && weights[r.0] == r.1
  {
    if order == [] then ("", -1) else
    var best := Scan(order[..|order| - 1], weights);
    var w := order[|order| - 1];
    if best.1 == -1 || weights[w] < best.1 then (w, weights[w]) else best
  }

  method MinWeightWorker(order: seq<Worker>, weights: map<Worker, int>) returns (minWorker: Worker)
    requires forall w <- order :: w in weights
    ensures minWorker == Scan(order, weights).0
  {
    minWorker := "";
    var minWeight := -1;
    for i := 0 to |order|
      invariant (minWorker, minWeight) == Scan(order[..i], weights)
    {
      assert order[..i + 1][..i] == order[..i];
      if minWeight == -1 || weights[order[i]] < minWeight {
        minWorker, minWeight := order[i], weights[order[i]];
      }
    }
    assert order[..|order|] == order;
  }

  ghost predicate Lightest(w: Worker, weights: map<Worker, int>) {
    w in weights && forall x <- weights :: weights[w] <= weights[x]
  }

  /** The smallest weight is the sentinel -1 itself, and some other weight is larger. */
  ghost predicate SentinelHit(weights: map<Worker, int>) {
    && (exists w <- weights :: weights[w] == -1)
    && (forall w <- weights :: weights[w] >= -1)
    && (exists w <- weights :: weights[w] > -1)
  }

  lemma {:induction false} ScanFinds(order: seq<Worker>, weights: map<Worker, int>)
    requires order != [] && forall w <- order :: w in weights
    ensures var m := Scan(order, weights).1;
            || (forall w <- order :: m <= weights[w])
            || (m >= -1 && (exists w <- order :: weights[w] == -1) && forall w <- order :: weights[w] >= -1)
  {
    var n := |order| - 1;
    if n > 0 {
      ScanFinds(order[..n], weights);
      assert order == order[..n] + [order[n]];
    }
  }

  /** One order in which Go may visit the map: every key once. */
  ghost predicate Visits(order: seq<Worker>, weights: map<Worker, int>) {
    Distinct(order) && forall w :: w in order <==> w in weights
  }

  lemma Enumerate(s: set<Worker>) returns (r: seq<Worker>)
    ensures Distinct(r) && forall w :: w in r <==> w in s
  {
    if s == {} {
      r := [];
    } else {
      var w :| w in s;
      var rest := Enumerate(s - {w});
      r := rest + [w];
    }
  }

  lemma SentinelOrder(weights: map<Worker, int>) returns (order: seq<Worker>)
    requires SentinelHit(weights)
    ensures Visits(order, weights) && !Lightest(Scan(order, weights).0, weights)
  {
    var a :| a in weights && weights[a] == -1;
    var b :| b in weights && weights[b] > -1;
    var rest := Enumerate(weights.Keys - {a, b});
    order := rest + [a] + [b];
    assert order[..|order| - 1] == rest + [a];
    assert (rest + [a])[..|rest|] == rest;
    assert Scan(rest, weights).1 >= -1;
    assert Scan(rest + [a], weights).1 == -1;
    assert Scan(order, weights) == (b, weights[b]);
  }

  /**
   minWeightWorker finds a lightest worker whatever the map order exactly when its sentinel is not
   the smallest weight of workers that differ in weight; non-negative weights never hit it.
   */
  lemma MinWeightExact(weights: map<Worker, int>)
    requires weights != map[]
    ensures (forall order | Visits(order, weights) :: Lightest(Scan(order, weights).0, weights))
       <==> !SentinelHit(weights)
    ensures (forall w <- weights :: weights[w] >= 0) ==> !SentinelHit(weights)
  {
    if SentinelHit(weights) {
      var order := SentinelOrder(weights);
    } else {
      forall order | Visits(order, weights) ensures Lightest(Scan(order, weights).0, weights) {
        var w :| w in weights;
        assert w in order;
        ScanFinds(order, weights);
      }
    }
  }

  // ----- the greedy loop -----

  /** The first `n` tasks are known and placed. */
  ghost predicate Placed(sorted: seq<Path>, n: nat, assign: map<Path, Worker>, tasks: Table) {
    n <= |sorted| && forall i :: 0 <= i < n ==> sorted[i] in tasks && sorted[i] in assign
  }

  /** The true weight given to `w` by the first `n` tasks of this round. */
  ghost function Load(sorted: seq<Path>, n: nat, assign: map<Path, Worker>, tasks: Table, w: Worker): int
    requires Placed(sorted, n, assign, tasks)
  {
    if n == 0 then 0 else
    var p := sorted[n - 1];
    Load(sorted, n - 1, assign, tasks, w) + (if assign[p] == w then tasks[p].weight else 0)
  }

  /** Every tracked weight is at most twice any other plus the largest task weight. */
  ghost predicate Bounded(weights: map<Worker, int>, largest: int) {
    forall a, b :: a in weights && b in weights ==> weights[a] <= 2 * weights[b] + largest
  }

  predicate NonNegative(weights: map<Worker, int>) {
    forall w <- weights :: weights[w] >= 0
  }

  /** The doubling update of a lightest worker keeps the bound. */
  lemma DoublingKeepsBound(weights: map<Worker, int>, w: Worker, extra: int, largest: int)
    requires NonNegative(weights) && Bounded(weights, largest) && Lightest(w, weights) && 0 <= extra <= largest
    ensures var weights' := weights[w := weights[w] + (weights[w] + extra)];
            NonNegative(weights') && Bounded(weights', largest)
  {
    var weights' := weights[w := weights[w] + (weights[w] + extra)];
    forall a, b | a in weights' && b in weights' ensures weights'[a] <= 2 * weights'[b] + largest {
      assert weights[w] <= weights'[b];
      assert a != w ==> weights[a] <= 2 * weights[w] + largest;
    }
  }

  lemma {:induction false} LoadExtends(
    sorted: seq<Path>, n: nat, assign: map<Path, Worker>, p: Path, x: Worker, tasks: Table, w: Worker)
    requires Placed(sorted, n, assign, tasks) && forall i :: 0 <= i < n ==> sorted[i] != p
    ensures Load(sorted, n, assign[p := x], tasks, w) == Load(sorted, n, assign, tasks, w)
  {
    if n != 0 {
      LoadExtends(sorted, n - 1, assign, p, x, tasks, w);
    }
  }

  /** Go's iteration over a map: every key once, in an order the caller cannot know. */
  method VisitKeys(weights: map<Worker, int>) returns (order: seq<Worker>)
    ensures Visits(order, weights)
  {
    order := [];
    var left := weights.Keys;
    while left != {}
      invariant left <= weights.Keys
      invariant Distinct(order) && forall w :: w in order <==> w in weights && w !in left
      decreases |left|
    {
      var w :| w in left;
      order := order + [w];
      left := left - {w};
    }
  }

  ghost function FirstOf(s: seq<string>, n: nat): set<string>
    requires n <= |s|
  {
    set i | 0 <= i < n :: s[i]
  }

  function Min(a: nat, b: nat): nat {
    if a < b then a else b
  }

  /** The weights and the placement after the first `n` sorted tasks. */
  ghost predicate Progress(
    sorted: seq<Path>, workers: seq<Worker>, n: nat, weights: map<Worker, int>, assign: map<Path, Worker>)
    requires n <= |sorted|
  {
    && assign.Keys == FirstOf(sorted, n)
    && (forall p <- assign :: assign[p] in workers)
    && (forall i :: 0 <= i < Min(n, |workers|) ==> sorted[i] in assign && assign[sorted[i]] == workers[i])
    && weights.Keys == FirstOf(workers, Min(n, |workers|))
  }

  /** What the doubling bookkeeping promises when no task weighs less than nothing. */
  ghost predicate Fair(
    tasks: Table, sorted: seq<Path>, n: nat, weights: map<Worker, int>, assign: map<Path, Worker>, largest: int)
  {
    && NonNegative(weights) && Bounded(weights, largest)
    && Placed(sorted, n, assign, tasks)
    && forall w <- weights :: Load(sorted, n, assign, tasks, w) <= weights[w]
  }

  lemma LoadOfNew(sorted: seq<Path>, n: nat, assign: map<Path, Worker>, w: Worker, tasks: Table, x: Worker)
    requires n < |sorted| && Distinct(sorted) && sorted[n] in tasks && Placed(sorted, n, assign, tasks)
    ensures Placed(sorted, n + 1, assign[sorted[n] := w], tasks)
    ensures Load(sorted, n + 1, assign[sorted[n] := w], tasks, x)
         == Load(sorted, n, assign, tasks, x) + (if x == w then tasks[sorted[n]].weight else 0)
  {
    LoadExtends(sorted, n, assign, sorted[n], w, tasks, x);
  }

  lemma {:induction false} LoadElsewhere(sorted: seq<Path>, n: nat, assign: map<Path, Worker>, tasks: Table, w: Worker)
    requires Placed(sorted, n, assign, tasks) && forall i :: 0 <= i < n ==> assign[sorted[i]] != w
    ensures Load(sorted, n, assign, tasks, w) == 0
  {
    if n != 0 {
      LoadElsewhere(sorted, n - 1, assign, tasks, w);
    }
  }

  lemma FirstTaskFair(
    tasks: Table, sorted: seq<Path>, n: nat, weights: map<Worker, int>, assign: map<Path, Worker>,
    w: Worker, largest: int)
    requires n < |sorted| && Distinct(sorted) && sorted[n] in tasks
    requires Fair(tasks, sorted, n, weights, assign, largest) && 0 <= tasks[sorted[n]].weight <= largest
    requires w !in weights && forall i :: 0 <= i < n ==> assign[sorted[i]] != w
    requires forall x <- weights :: weights[x] <= largest
    ensures Fair(tasks, sorted, n + 1, weights[w := tasks[sorted[n]].weight], assign[sorted[n] := w], largest)
  {
    LoadElsewhere(sorted, n, assign, tasks, w);
    var weights', assign' := weights[w := tasks[sorted[n]].weight], assign[sorted[n] := w];
    LoadOfNew(sorted, n, assign, w, tasks, w);
    forall x | x in weights' ensures Load(sorted, n + 1, assign', tasks, x) <= weights'[x] {
      LoadOfNew(sorted, n, assign, w, tasks, x);
    }
  }

  lemma NextTaskFair(
    tasks: Table, sorted: seq<Path>, n: nat, weights: map<Worker, int>, assign: map<Path, Worker>,
    w: Worker, largest: int)
    requires n < |sorted| && Distinct(sorted) && sorted[n] in tasks
    requires Fair(tasks, sorted, n, weights, assign, largest) && 0 <= tasks[sorted[n]].weight <= largest
    requires Lightest(w, weights)
    ensures Fair(tasks, sorted, n + 1,
                 weights[w := weights[w] + (weights[w] + tasks[sorted[n]].weight)], assign[sorted[n] := w], largest)
  {
    var extra := tasks[sorted[n]].weight;
    var weights', assign' := weights[w := weights[w] + (weights[w] + extra)], assign[sorted[n] := w];
    DoublingKeepsBound(weights, w, extra, largest);
    LoadOfNew(sorted, n, assign, w, tasks, w);
    forall x | x in weights' ensures Load(sorted, n + 1, assign', tasks, x) <= weights'[x] {
      LoadOfNew(sorted, n, assign, w, tasks, x);
    }
  }

  lemma FirstOfNext(s: seq<string>, n: nat)
    requires n < |s|
    ensures FirstOf(s, n + 1) == FirstOf(s, n) + {s[n]}
  {
  }

  lemma NotAmongFirst(s: seq<string>, n: nat)
    requires n < |s| && Distinct(s)
    ensures s[n] !in FirstOf(s, n)
  {
  }

  lemma ProgressStep(
    sorted: seq<Path>, workers: seq<Worker>, n: nat,
    weights: map<Worker, int>, assign: map<Path, Worker>, w: Worker, weights': map<Worker, int>)
    requires n < |sorted| && Distinct(sorted)
    requires Progress(sorted, workers, n, weights, assign)
    requires w in workers && (n < |workers| ==> w == workers[n])
    requires weights'.Keys == if n < |workers| then weights.Keys + {w} else weights.Keys
    ensures sorted[n] !in assign
    ensures Progress(sorted, workers, n + 1, weights', assign[sorted[n] := w])
  {
    hide FirstOf, Distinct;
    FirstOfNext(sorted, n);
    NotAmongFirst(sorted, n);
    if n < |workers| {
      FirstOfNext(workers, n);
    }
  }

  ghost predicate NonNegativeTasks(tasks: Table, paths: seq<Path>)
    requires forall p <- paths :: p in tasks
  {
    forall p <- paths :: tasks[p].weight >= 0
  }

  /** The tasks of a round in the order they are placed. */
  ghost predicate Round(tasks: Table, sorted: seq<Path>, workers: seq<Worker>) {
    && sorted != [] && Distinct(sorted) && Distinct(workers)
    && (forall p <- sorted :: p in tasks)
    && FallingWeight(sorted, tasks)
  }

  ghost function Largest(tasks: Table, sorted: seq<Path>): int
    requires sorted != [] && forall p <- sorted :: p in tasks
  {
    tasks[sorted[0]].weight
  }

  /** The tracked weights after placing the first |picks| sorted tasks on the picked workers. */
  ghost function WeightsAfter(
    tasks: Table, sorted: seq<Path>, workers: seq<Worker>, picks: seq<Worker>): map<Worker, int>
    requires |picks| <= |sorted| && forall p <- sorted :: p in tasks
  {
    if picks == [] then map[] else
    var n := |picks| - 1;
    var before := WeightsAfter(tasks, sorted, workers, picks[..n]);
    var w, extra := picks[n], tasks[sorted[n]].weight;
    if n < |workers| || w !in before then before[w := extra] else before[w := before[w] + (before[w] + extra)]
  }

  ghost function AssignAfter(sorted: seq<Path>, picks: seq<Worker>): map<Path, Worker>
    requires |picks| <= |sorted|
  {
    if picks == [] then map[] else
    AssignAfter(sorted, picks[..|picks| - 1])[sorted[|picks| - 1] := picks[|picks| - 1]]
  }

  /** The picks the two loops can make: each worker once, then whatever minWeightWorker returns. */
  ghost predicate Picks(tasks: Table, sorted: seq<Path>, workers: seq<Worker>, picks: seq<Worker>)
    requires |picks| <= |sorted| && forall p <- sorted :: p in tasks
  {
    picks != [] ==>
      var n := |picks| - 1;
      && Picks(tasks, sorted, workers, picks[..n])
      && (if n < |workers| then picks[n] == workers[n]
          else MinPick(picks[n], WeightsAfter(tasks, sorted, workers, picks[..n])))
  }

  ghost predicate MinPick(w: Worker, weights: map<Worker, int>) {
    w in weights && (NonNegative(weights) ==> Lightest(w, weights))
  }

  /** After every single task: the first tasks are one on each worker, the others on tracked workers. */
  lemma {:induction false} PicksProgress(tasks: Table, sorted: seq<Path>, workers: seq<Worker>, picks: seq<Worker>)
    requires Round(tasks, sorted, workers) && |picks| <= |sorted| && Picks(tasks, sorted, workers, picks)
    ensures Progress(sorted, workers, |picks|, WeightsAfter(tasks, sorted, workers, picks), AssignAfter(sorted, picks))
  {
    hide FallingWeight, Lightest, NonNegative, Progress;
    if picks == [] {
      NoProgress(sorted, workers);
    } else {
      var n := |picks| - 1;
      var weights, assign := WeightsAfter(tasks, sorted, workers, picks[..n]), AssignAfter(sorted, picks[..n]);
      PicksProgress(tasks, sorted, workers, picks[..n]);
      if n >= |workers| {
        TrackedAreWorkers(sorted, workers, n, weights, assign, picks[n]);
      }
      ProgressStep(sorted, workers, n, weights, assign, picks[n], WeightsAfter(tasks, sorted, workers, picks));
    }
  }

  lemma NoProgress(sorted: seq<Path>, workers: seq<Worker>)
    ensures Progress(sorted, workers, 0, map[], map[])
  {
  }

  lemma TrackedAreWorkers(
    sorted: seq<Path>, workers: seq<Worker>, n: nat, weights: map<Worker, int>, assign: map<Path, Worker>, w: Worker)
    requires n <= |sorted| && Progress(sorted, workers, n, weights, assign) && w in weights
    ensures w in workers
  {
  }

  /**
   The greedy bound. However ties are broken, with non-negative weights, after every single task
   every tracked weight is at most twice the smallest plus the largest task weight, and at least
   the true weight given to that worker.
   */
  lemma {:induction false} GreedyBound(tasks: Table, sorted: seq<Path>, workers: seq<Worker>, picks: seq<Worker>)
    requires Round(tasks, sorted, workers) && |picks| <= |sorted| && Picks(tasks, sorted, workers, picks)
    requires NonNegativeTasks(tasks, sorted)
    ensures Fair(tasks, sorted, |picks|, WeightsAfter(tasks, sorted, workers, picks), AssignAfter(sorted, picks),
                 Largest(tasks, sorted))
    ensures |picks| <= |workers| ==>
      forall w <- WeightsAfter(tasks, sorted, workers, picks) ::
        WeightsAfter(tasks, sorted, workers, picks)[w] <= Largest(tasks, sorted)
  {
    if picks != [] {
      var n := |picks| - 1;
      var weights, assign := WeightsAfter(tasks, sorted, workers, picks[..n]), AssignAfter(sorted, picks[..n]);
      GreedyBound(tasks, sorted, workers, picks[..n]);
      assert 0 <= tasks[sorted[n]].weight <= Largest(tasks, sorted);
      if n < |workers| {
        NotYetUsed(tasks, sorted, workers, picks[..n]);
        FirstTaskFair(tasks, sorted, n, weights, assign, picks[n], Largest(tasks, sorted));
      } else {
        NextTaskFair(tasks, sorted, n, weights, assign, picks[n], Largest(tasks, sorted));
      }
    }
  }

  /** In the first round the next worker has no task and no tracked weight. */
  lemma NotYetUsed(tasks: Table, sorted: seq<Path>, workers: seq<Worker>, picks: seq<Worker>)
    requires Round(tasks, sorted, workers) && |picks| <= |sorted| && Picks(tasks, sorted, workers, picks)
    requires |picks| < |workers|
    ensures workers[|picks|] !in WeightsAfter(tasks, sorted, workers, picks)
    ensures forall i :: 0 <= i < |picks| ==>
      sorted[i] in AssignAfter(sorted, picks) && AssignAfter(sorted, picks)[sorted[i]] != workers[|picks|]
  {
    PicksProgress(tasks, sorted, workers, picks);
  }

  /**
   The assignment loops of balanceTasks. The first tasks go one to each worker, every later one to
   the worker minWeightWorker picks, whose tracked weight is then doubled.
   */
  method Distribute(tasks: Table, sorted: seq<Path>, workers: seq<Worker>, now: int)
    returns (out: Table, weights: map<Worker, int>, ghost picks: seq<Worker>)
    requires Round(tasks, sorted, workers) && workers != []
    ensures |picks| == |sorted| && Picks(tasks, sorted, workers, picks)
    ensures weights == WeightsAfter(tasks, sorted, workers, picks)
    ensures out == Reassigned(tasks, AssignAfter(sorted, picks), now)
    ensures weights.Keys == FirstOf(workers, Min(|sorted|, |workers|))
    ensures NonNegativeTasks(tasks, sorted) ==> Bounded(weights, Largest(tasks, sorted))
  {
    out, weights, picks := tasks, map[], [];
    assert out == Reassigned(tasks, map[], now);
    var i := 0;
    while i < |workers| && i < |sorted|
      invariant i == |picks| <= |workers| && i <= |sorted|
      invariant Picks(tasks, sorted, workers, picks)
      invariant weights == WeightsAfter(tasks, sorted, workers, picks)
      invariant out == Reassigned(tasks, AssignAfter(sorted, picks), now)
    {
      PickStep(tasks, sorted, workers, picks, workers[i]);
      weights := weights[workers[i] := tasks[sorted[i]].weight];
      out, picks := ReassignOne(tasks, out, sorted, picks, sorted[i], workers[i], now);
      i := i + 1;
    }
    if i < |sorted| {
      out, weights, picks := DistributeRest(tasks, sorted, workers, now, out, weights, picks);
    }
    DistributionFair(tasks, sorted, workers, picks);
  }

  lemma DistributionFair(tasks: Table, sorted: seq<Path>, workers: seq<Worker>, picks: seq<Worker>)
    requires Round(tasks, sorted, workers) && |picks| == |sorted| && Picks(tasks, sorted, workers, picks)
    ensures var weights := WeightsAfter(tasks, sorted, workers, picks);
            && weights.Keys == FirstOf(workers, Min(|sorted|, |workers|))
            && (NonNegativeTasks(tasks, sorted) ==> Bounded(weights, Largest(tasks, sorted)))
  {
    hide Picks, WeightsAfter, AssignAfter, Bounded, FirstOf, FallingWeight;
    PicksProgress(tasks, sorted, workers, picks);
    if NonNegativeTasks(tasks, sorted) {
      GreedyBound(tasks, sorted, workers, picks);
    }
  }

  /** The second loop. */
  method DistributeRest(
    tasks: Table, sorted: seq<Path>, workers: seq<Worker>, now: int,
    out0: Table, weights0: map<Worker, int>, ghost picks0: seq<Worker>)
    returns (out: Table, weights: map<Worker, int>, ghost picks: seq<Worker>)
    requires Round(tasks, sorted, workers) && workers != [] && |picks0| == |workers| < |sorted|
    requires Picks(tasks, sorted, workers, picks0)
    requires weights0 == WeightsAfter(tasks, sorted, workers, picks0)
    requires out0 == Reassigned(tasks, AssignAfter(sorted, picks0), now)
    ensures |picks| == |sorted| && Picks(tasks, sorted, workers, picks)
    ensures weights == WeightsAfter(tasks, sorted, workers, picks)
    ensures out == Reassigned(tasks, AssignAfter(sorted, picks), now)
  {
    hide Picks, WeightsAfter, AssignAfter, Reassigned, FallingWeight;
    out, weights, picks := out0, weights0, picks0;
    for i := |workers| to |sorted|
      invariant i == |picks| && Picks(tasks, sorted, workers, picks)
      invariant weights == WeightsAfter(tasks, sorted, workers, picks)
      invariant out == Reassigned(tasks, AssignAfter(sorted, picks), now)
    {
      Tracked(tasks, sorted, workers, picks);
      var w := Pick(weights);
      PickStep(tasks, sorted, workers, picks, w);
      weights := weights[w := weights[w] + (weights[w] + tasks[sorted[i]].weight)];
      out, picks := ReassignOne(tasks, out, sorted, picks, sorted[i], w, now);
    }
  }

  lemma PickStep(tasks: Table, sorted: seq<Path>, workers: seq<Worker>, picks: seq<Worker>, w: Worker)
    requires |picks| < |sorted| && forall p <- sorted :: p in tasks
    requires Picks(tasks, sorted, workers, picks)
    requires if |picks| < |workers| then w == workers[|picks|]
        else MinPick(w, WeightsAfter(tasks, sorted, workers, picks))
    ensures Picks(tasks, sorted, workers, picks + [w])
    ensures var before, extra := WeightsAfter(tasks, sorted, workers, picks), tasks[sorted[|picks|]].weight;
            WeightsAfter(tasks, sorted, workers, picks + [w])
            == before[w := if |picks| < |workers| then extra else before[w] + (before[w] + extra)]
  {
    assert (picks + [w])[..|picks|] == picks;
  }

  lemma Tracked(tasks: Table, sorted: seq<Path>, workers: seq<Worker>, picks: seq<Worker>)
    requires Round(tasks, sorted, workers) && workers != []
    requires |workers| <= |picks| <= |sorted| && Picks(tasks, sorted, workers, picks)
    ensures WeightsAfter(tasks, sorted, workers, picks) != map[]
  {
    PicksProgress(tasks, sorted, workers, picks);
    assert workers[0] in FirstOf(workers, |workers|);
  }

  lemma {:induction false} AssignAfterKeys(sorted: seq<Path>, picks: seq<Worker>)
    requires |picks| <= |sorted|
    ensures AssignAfter(sorted, picks).Keys == FirstOf(sorted, |picks|)
  {
    if picks != [] {
      var n := |picks| - 1;
      AssignAfterKeys(sorted, picks[..n]);
      assert FirstOf(sorted, n + 1) == FirstOf(sorted, n) + {sorted[n]};
    }
  }

  /** One call of tryReAssignTask, on the next task in line. */
  method ReassignOne(
    ghost tasks: Table, table: Table, ghost sorted: seq<Path>, ghost picks: seq<Worker>, p: Path, w: Worker, now: int)
    returns (out: Table, ghost picks': seq<Worker>)
    requires |picks| < |sorted| && Distinct(sorted) && p == sorted[|picks|] && p in tasks
    requires table == Reassigned(tasks, AssignAfter(sorted, picks), now)
    ensures picks' == picks + [w] && picks'[..|picks|] == picks
    ensures out == Reassigned(tasks, AssignAfter(sorted, picks'), now)
  {
    out := table[p := TryReassign(table[p], w, now)];
    picks' := picks + [w];
    assert picks'[..|picks|] == picks;
    AssignAfterKeys(sorted, picks);
  }

  /** minWeightWorker on a map visited in Go's unknown order. */
  method Pick(weights: map<Worker, int>) returns (w: Worker)
    requires weights != map[]
    ensures MinPick(w, weights)
  {
    var order := VisitKeys(weights);
    ghost var k :| k in weights;
    assert k in order;
    w := MinWeightWorker(order, weights);
    MinWeightExact(weights);
  }
}

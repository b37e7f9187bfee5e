/**
 * The AND/OR graph behind the build batches: every item has needs, and every need is met by the needed
 * item itself or by one of its alternatives. This module defines what "built after k rounds", "can be
 * built at all" and "stuck" mean, independently of how the batches are computed.
 */
module BuildGraph {
  import opened Sequences

  // item -> needed item -> alternatives of that needed item
  type Graph<T(==)> = map<T, map<T, set<T>>>

  /** Needs and alternatives are items of the graph, and no item needs itself. */
  ghost predicate WellFormed<T>(g: Graph<T>) {
    forall x, y :: x in g && y in g[x] ==> NeedWithin(g, x, y)
  }

  ghost predicate NeedWithin<T>(g: Graph<T>, x: T, y: T)
    requires x in g && y in g[x]
  {
    y in g && y != x && g[x][y] <= g.Keys
  }

  predicate NeedMet<T(==)>(needs: map<T, set<T>>, y: T, done: set<T>)
    requires y in needs
  {
    y in done || exists a :: a in needs[y] && a in done
  }

  predicate Ready<T(==)>(needs: map<T, set<T>>, done: set<T>) {
    forall y :: y in needs ==> NeedMet(needs, y, done)
  }

  function Layer<T(==)>(g: Graph<T>, done: set<T>): set<T> {
    set x | x in g && x !in done && Ready(g[x], done)
  }

  /** What is built once k rounds of "everything that is ready" have been taken. */
  function Built<T(==)>(g: Graph<T>, k: nat): set<T> {
    if k == 0 then {} else Built(g, k - 1) + Layer(g, Built(g, k - 1))
  }

  function UnionOf<T(==)>(plan: seq<set<T>>): set<T> {
    if plan == [] then {} else UnionOf(plan[..|plan| - 1]) + plan[|plan| - 1]
  }

  /** Any way to build items in rounds: what is built in a round has its needs met by earlier rounds. */
  ghost predicate IsSchedule<T>(g: Graph<T>, plan: seq<set<T>>) {
    forall k, x :: 0 <= k < |plan| && x in plan[k] ==> x in g && Ready(g[x], UnionOf(plan[..k]))
  }

  /** An item can be built at all if some schedule builds it. */
  ghost predicate Buildable<T(!new)>(g: Graph<T>, x: T) {
    exists plan: seq<set<T>> :: IsSchedule(g, plan) && x in UnionOf(plan)
  }

  /** Every member waits for a need that only members could meet. */
  ghost predicate Stuck<T>(g: Graph<T>, rest: set<T>) {
    forall x :: x in rest ==> Waits(g, rest, x)
  }

  ghost predicate Waits<T>(g: Graph<T>, rest: set<T>, x: T) {
    x in g && exists y :: y in g[x] && Blocks(g, rest, x, y)
  }

  ghost predicate Blocks<T>(g: Graph<T>, rest: set<T>, x: T, y: T) {
    x in g && y in g[x] && y in rest && g[x][y] <= rest
  }

  /** The k-th batch holds, once each, what is ready in round k. */
  ghost predicate AreLayers<T>(g: Graph<T>, batches: seq<seq<T>>) {
    && (forall k :: 0 <= k < |batches| ==> batches[k] != [] && NoDuplicates(batches[k]))
    && (forall k :: 0 <= k < |batches| ==> Elements(batches[k]) == Layer(g, Built(g, k)))
  }

  lemma LayersAppend<T>(g: Graph<T>, batches: seq<seq<T>>, batch: seq<T>)
    requires AreLayers(g, batches) && batch != [] && NoDuplicates(batch) && Elements(batch) == Layer(g, Built(g, |batches|))
    ensures AreLayers(g, batches + [batch]) && Built(g, |batches| + 1) == Built(g, |batches|) + Elements(batch)
  {
  }

  /** What computing the batches has to deliver, whatever the order in which items are visited. */
  ghost predicate IsBatchPlan<T>(g: Graph<T>, batches: seq<seq<T>>, leftovers: seq<T>) {
    && AreLayers(g, batches)
    && Layer(g, Built(g, |batches|)) == {}
    && NoDuplicates(leftovers)
    && Elements(leftovers) == g.Keys - Built(g, |batches|)
  }

  lemma ReadyIsMonotone<T>(needs: map<T, set<T>>, done: set<T>, more: set<T>)
    requires Ready(needs, done) && done <= more
    ensures Ready(needs, more)
  {
    forall y | y in needs ensures NeedMet(needs, y, more) {
      assert NeedMet(needs, y, done);
    }
  }

  lemma {:induction false} BuiltGrows<T>(g: Graph<T>, j: nat, k: nat)
    requires j <= k
    ensures Built(g, j) <= Built(g, k) <= g.Keys
    decreases k
  {
    if k > 0 {
      BuiltGrows(g, if j < k then j else k - 1, k - 1);
    }
  }

  /** No schedule whatsoever builds an item in an earlier round than the layers do. */
  lemma {:induction false} EarliestRound<T>(g: Graph<T>, plan: seq<set<T>>)
    requires IsSchedule(g, plan)
    ensures UnionOf(plan) <= Built(g, |plan|)
    decreases |plan|
  {
    if plan != [] {
      var n := |plan| - 1;
      var front := plan[..n];
      assert forall k :: 0 <= k < n ==> front[..k] == plan[..k];
      EarliestRound(g, front);
      forall x | x in plan[n] ensures x in Built(g, |plan|) {
        assert Ready(g[x], UnionOf(front));
        ReadyIsMonotone(g[x], UnionOf(front), Built(g, n));
      }
    }
  }

  /** The layers themselves are a schedule. */
  function Rounds<T(==)>(g: Graph<T>, k: nat): seq<set<T>> {
    if k == 0 then [] else Rounds(g, k - 1) + [Layer(g, Built(g, k - 1))]
  }

  ghost predicate MayFollow<T>(g: Graph<T>, done: set<T>, layer: set<T>) {
    forall x :: x in layer ==> x in g && Ready(g[x], done)
  }

  lemma ScheduleAppend<T>(g: Graph<T>, plan: seq<set<T>>, layer: set<T>)
    requires IsSchedule(g, plan) && MayFollow(g, UnionOf(plan), layer)
    ensures IsSchedule(g, plan + [layer]) && UnionOf(plan + [layer]) == UnionOf(plan) + layer
  {
    var more := plan + [layer];
    assert more[..|plan|] == plan;
    forall i, x | 0 <= i < |more| && x in more[i] ensures x in g && Ready(g[x], UnionOf(more[..i])) {
      assert more[..i] == plan[..i];
    }
  }

  lemma EmptySchedule<T>(g: Graph<T>)
    ensures IsSchedule(g, [])
  {
  }

  lemma RoundMayFollow<T>(g: Graph<T>, k: nat)
    ensures MayFollow(g, Built(g, k), Layer(g, Built(g, k)))
  {
  }

  lemma {:induction false} RoundsAreASchedule<T>(g: Graph<T>, k: nat)
    ensures |Rounds(g, k)| == k && IsSchedule(g, Rounds(g, k)) && UnionOf(Rounds(g, k)) == Built(g, k)
  {
    hide Layer, IsSchedule, MayFollow;
    if k == 0 {
      EmptySchedule(g);
    } else {
      RoundsAreASchedule(g, k - 1);
      RoundMayFollow(g, k - 1);
      ScheduleAppend(g, Rounds(g, k - 1), Layer(g, Built(g, k - 1)));
    }
  }

  lemma {:induction false} FixpointStays<T>(g: Graph<T>, n: nat, k: nat)
    requires Layer(g, Built(g, n)) == {} && n <= k
    ensures Built(g, k) == Built(g, n)
    decreases k
  {
    if n < k {
      FixpointStays(g, n, k - 1);
    }
  }

  /** Once a layer is empty, what has been built is exactly what can be built at all. */
  lemma {:induction false} BuiltIffBuildable<T(!new)>(g: Graph<T>, n: nat, x: T)
    requires Layer(g, Built(g, n)) == {}
    ensures x in Built(g, n) <==> Buildable(g, x)
  {
    RoundsAreASchedule(g, n);
    if Buildable(g, x) {
      var plan: seq<set<T>> :| IsSchedule(g, plan) && x in UnionOf(plan);
      EarliestRound(g, plan);
      if |plan| <= n {
        BuiltGrows(g, |plan|, n);
      } else {
        FixpointStays(g, n, |plan|);
      }
    }
  }

  lemma InBatch<T>(g: Graph<T>, batches: seq<seq<T>>, leftovers: seq<T>, k: nat, x: T)
    requires IsBatchPlan(g, batches, leftovers) && k < |batches|
    ensures x in batches[k] <==> x in Layer(g, Built(g, k))
  {
    assert x in batches[k] <==> x in Elements(batches[k]);
  }

  /** Every item is in exactly one batch or a leftover. */
  lemma {:induction false} PlanPartitions<T>(g: Graph<T>, batches: seq<seq<T>>, leftovers: seq<T>, x: T)
    requires IsBatchPlan(g, batches, leftovers) && x in g
    ensures x in leftovers <==> forall k :: 0 <= k < |batches| ==> x !in batches[k]
    ensures forall j, k :: 0 <= j < k < |batches| ==> !(x in batches[j] && x in batches[k])
  {
    var n := |batches|;
    IsLeftover(g, batches, leftovers, x);
    if x in Built(g, n) {
      var k := FindLayer(g, n, x);
      InBatch(g, batches, leftovers, k, x);
    }
    forall k: nat | k < n && x in batches[k] ensures x in Built(g, n) {
      InBatch(g, batches, leftovers, k, x);
      LayerIsBuilt(g, k, n, x);
    }
    forall j: nat, k: nat | j < k < n && x in batches[j] ensures x !in batches[k] {
      InBatch(g, batches, leftovers, j, x);
      InBatch(g, batches, leftovers, k, x);
      LayerIsBuilt(g, j, k, x);
    }
  }

  lemma IsLeftover<T>(g: Graph<T>, batches: seq<seq<T>>, leftovers: seq<T>, x: T)
    requires IsBatchPlan(g, batches, leftovers) && x in g
    ensures x in leftovers <==> x !in Built(g, |batches|)
  {
    assert x in leftovers <==> x in Elements(leftovers);
  }

  /** The round in which something was built ... */
  lemma {:induction false} FindLayer<T>(g: Graph<T>, n: nat, x: T) returns (k: nat)
    requires x in Built(g, n)
    ensures k < n && x in Layer(g, Built(g, k))
  {
    k := n - 1;
    if x in Built(g, k) {
      k := FindLayer(g, k, x);
    }
  }

  /** ... and that it stays built. */
  lemma {:induction false} LayerIsBuilt<T>(g: Graph<T>, k: nat, n: nat, x: T)
    requires k < n && x in Layer(g, Built(g, k))
    ensures x in Built(g, n)
    decreases n
  {
    if k < n - 1 {
      LayerIsBuilt(g, k, n - 1, x);
    }
  }

  /** An item's needs are met by strictly earlier batches. */
  lemma {:induction false} NeedsInEarlierBatches<T>(g: Graph<T>, batches: seq<seq<T>>, leftovers: seq<T>, k: nat, x: T, y: T)
    returns (j: nat, z: T)
    requires IsBatchPlan(g, batches, leftovers) && k < |batches| && x in batches[k] && x in g && y in g[x]
    ensures j < k && z in batches[j] && (z == y || z in g[x][y])
  {
    InBatch(g, batches, leftovers, k, x);
    assert NeedMet(g[x], y, Built(g, k));
    z :| z in Built(g, k) && (z == y || z in g[x][y]);
    j := FindLayer(g, k, z);
    InBatch(g, batches, leftovers, j, z);
  }

  /** No schedule builds an item in an earlier round than the number of its batch. */
  lemma {:induction false} BatchIsEarliest<T>(g: Graph<T>, batches: seq<seq<T>>, leftovers: seq<T>, plan: seq<set<T>>, i: nat, x: T)
    returns (k: nat)
    requires IsBatchPlan(g, batches, leftovers) && IsSchedule(g, plan) && i < |plan| && x in plan[i]
    ensures k <= i && k < |batches| && x in batches[k]
  {
    var front := plan[..i + 1];
    assert forall k :: 0 <= k <= i ==> front[..k] == plan[..k];
    EarliestRound(g, front);
    assert x in UnionOf(front) by { assert front[|front| - 1] == plan[i]; }
    k := FindLayer(g, i + 1, x);
    if k >= |batches| {
      FixpointStays(g, |batches|, k);
    }
    InBatch(g, batches, leftovers, k, x);
  }

  /** What is left over is stuck, and contains every other stuck set of items. */
  lemma {:induction false} LeftoversAreStuck<T>(g: Graph<T>, batches: seq<seq<T>>, leftovers: seq<T>)
    requires WellFormed(g) && IsBatchPlan(g, batches, leftovers)
    ensures Stuck(g, Elements(leftovers))
    ensures forall rest :: rest <= g.Keys && Stuck(g, rest) ==> rest <= Elements(leftovers)
  {
    var n := |batches|;
    var left := Elements(leftovers);
    forall x | x in left ensures Waits(g, left, x) {
      assert x !in Layer(g, Built(g, n));
      NotReadyWaits(g, Built(g, n), x);
    }
    forall rest | rest <= g.Keys && Stuck(g, rest) ensures rest <= left {
      StuckIsNeverBuilt(g, rest, n);
    }
  }

  lemma StuckIsNotReady<T>(g: Graph<T>, rest: set<T>, done: set<T>, x: T)
    requires Waits(g, rest, x) && rest !! done
    ensures !Ready(g[x], done)
  {
    var y :| y in g[x] && Blocks(g, rest, x, y);
    assert !NeedMet(g[x], y, done);
  }

  lemma {:induction false} StuckIsNeverBuilt<T>(g: Graph<T>, rest: set<T>, k: nat)
    requires Stuck(g, rest)
    ensures rest !! Built(g, k)
  {
    if k > 0 {
      StuckIsNeverBuilt(g, rest, k - 1);
      StuckIsNotInLayer(g, rest, Built(g, k - 1));
    }
  }

  lemma StuckIsNotInLayer<T>(g: Graph<T>, rest: set<T>, done: set<T>)
    requires Stuck(g, rest) && rest !! done
    ensures rest !! Layer(g, done)
  {
    forall x | x in rest ensures x !in Layer(g, done) {
      StuckIsNotReady(g, rest, done, x);
    }
  }

  lemma NotReadyWaits<T>(g: Graph<T>, done: set<T>, x: T)
    requires WellFormed(g) && x in g && !Ready(g[x], done)
    ensures Waits(g, g.Keys - done, x)
  {
    var y :| y in g[x] && !NeedMet(g[x], y, done);
    assert NeedWithin(g, x, y);
    assert Blocks(g, g.Keys - done, x, y);
  }

  /** Each element waits for the next one, and the last one for the first one. */
  ghost predicate IsCycle<T>(g: Graph<T>, rest: set<T>, cycle: seq<T>) {
    && |cycle| >= 2
    && NoDuplicates(cycle)
    && (forall i, j :: 0 <= i && j == i + 1 && j < |cycle| ==> Blocks(g, rest, cycle[i], cycle[j]))
    && Blocks(g, rest, cycle[|cycle| - 1], cycle[0])
  }

  /** Leftovers are never reported without a dependency cycle of at least two different items among them. */
  lemma {:induction false} LeftoversContainCycle<T>(g: Graph<T>, batches: seq<seq<T>>, leftovers: seq<T>) returns (cycle: seq<T>)
    requires WellFormed(g) && IsBatchPlan(g, batches, leftovers) && leftovers != []
    ensures IsCycle(g, Elements(leftovers), cycle)
  {
    LeftoversAreStuck(g, batches, leftovers);
    assert leftovers[0] in Elements(leftovers);
    cycle := WalkToCycle(g, Elements(leftovers), [leftovers[0]]);
  }

  lemma {:induction false} WalkToCycle<T>(g: Graph<T>, rest: set<T>, path: seq<T>) returns (cycle: seq<T>)
    requires WellFormed(g) && Stuck(g, rest)
    requires path != [] && NoDuplicates(path) && Elements(path) <= rest
    requires forall i, j :: 0 <= i && j == i + 1 && j < |path| ==> Blocks(g, rest, path[i], path[j])
    ensures IsCycle(g, rest, cycle)
    decreases rest - Elements(path)
  {
    hide NoDuplicates, WellFormed;
    var last := path[|path| - 1];
    assert last in Elements(path);
    var next := Blocker(g, rest, last);
    if next in path {
      var i :| 0 <= i < |path| && path[i] == next;
      cycle := path[i..];
      NoDuplicatesSuffix(path, i);
    } else {
      ElementsAppend(path, next);
      NoDuplicatesAppend(path, next);
      cycle := WalkToCycle(g, rest, path + [next]);
    }
  }

  ghost function Blocker<T>(g: Graph<T>, rest: set<T>, x: T): (y: T)
    requires WellFormed(g) && Waits(g, rest, x)
    ensures Blocks(g, rest, x, y) && y != x
  {
    var y :| y in g[x] && Blocks(g, rest, x, y);
    assert NeedWithin(g, x, y);
    y
  }
}

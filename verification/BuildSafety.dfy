/**
 * From dependencies to a finished build: computing batches and running a session over them together make
 * sure that nothing is built before what it needs.
 */
module BuildSafety {
  import opened Sequences
  import opened BuildGraph
  import opened Dependencies
  import opened NeededItems
  import opened PrepareBuild
  import opened BatchItems
  import opened BatchSession

  /** The item handed out at a place. */
  function ItemAt(plan: seq<seq<BatchItem>>, p: Position): BatchItem
    requires p.batch < |plan| && p.index < |plan[p.batch]|
  {
    plan[p.batch][p.index]
  }

  predicate WithinPlan(plan: seq<seq<BatchItem>>, places: seq<Position>) {
    forall i :: 0 <= i < |places| ==> places[i].batch < |plan| && places[i].index < |plan[places[i].batch]|
  }

  /** An item of `choice` was handed out before the i-th package and has not failed. */
  ghost predicate BuiltBefore(plan: seq<seq<BatchItem>>, places: seq<Position>, fails: nat -> bool, i: nat, choice: set<BatchItem>)
    requires i <= |places| && WithinPlan(plan, places)
  {
    exists k :: 0 <= k < i && !fails(k) && ItemAt(plan, places[k]) in choice
  }

  /** Whatever is handed out, each of its needed items or one of the alternatives has been built before. */
  ghost predicate SafeRun(g: Graph<BatchItem>, plan: seq<seq<BatchItem>>, places: seq<Position>, fails: nat -> bool) {
    && WithinPlan(plan, places)
    && forall i :: 0 <= i < |places| ==> NeedsBuiltBefore(g, plan, places, fails, i)
  }

  ghost predicate NeedsBuiltBefore(g: Graph<BatchItem>, plan: seq<seq<BatchItem>>, places: seq<Position>, fails: nat -> bool, i: nat)
    requires i < |places| && WithinPlan(plan, places)
  {
    var x := ItemAt(plan, places[i]);
    x in g && forall y :: y in g[x] ==> BuiltBefore(plan, places, fails, i, g[x][y] + {y})
  }

  /** Every place is relevant without a package filter. */
  lemma AllPlacesRelevant(plan: seq<seq<BatchItem>>, p: Position)
    requires forall k :: 0 <= k < |plan| ==> plan[k] != []
    ensures p in AllRelevant(NamesOf(plan), {}) <==> p.batch < |plan| && p.index < |plan[p.batch]|
  {
    RelevantUpToFacts(NamesOf(plan), {}, |plan|);
  }

  /** An earlier batch than that of a package handed out has been handed out completely, and without failures. */
  lemma EarlierBatchesAreBuilt(plan: seq<seq<BatchItem>>, places: seq<Position>, fails: nat -> bool, i: nat, p: Position)
    returns (k: nat)
    requires forall k :: 0 <= k < |plan| ==> plan[k] != []
    requires Covers(NamesOf(plan), {}, true, fails, places) && InOrder(places)
    requires i < |places| && p.batch < |plan| && p.index < |plan[p.batch]| && p.batch < places[i].batch
    ensures k < i && places[k] == p && !fails(k)
  {
    var all := AllRelevant(NamesOf(plan), {});
    AllPlacesRelevant(plan, p);
    assert places[i] in places && places[i] in all;
    assert p in places by {
      if f :| 0 <= f < |places| && fails(f) {
        assert StopsWithBatch(NamesOf(plan), {}, places, places[f].batch);
      }
    }
    k :| 0 <= k < |places| && places[k] == p;
  }

  /** Whole-run safety, for every pattern of failures. */
  lemma RunIsSafe(g: Graph<BatchItem>, plan: seq<seq<BatchItem>>, leftovers: seq<BatchItem>, places: seq<Position>, fails: nat -> bool)
    requires IsBatchPlan(g, plan, leftovers) && InOrder(places)
    requires Covers(NamesOf(plan), {}, true, fails, places)
    ensures SafeRun(g, plan, places, fails)
  {
    forall i | 0 <= i < |places| ensures places[i].batch < |plan| && places[i].index < |plan[places[i].batch]| {
      AllPlacesRelevant(plan, places[i]);
      assert places[i] in AllRelevant(NamesOf(plan), {});
    }
    forall i: nat | i < |places| ensures NeedsBuiltBefore(g, plan, places, fails, i) {
      NeedsAreBuiltBefore(g, plan, leftovers, places, fails, i);
    }
  }

  lemma NeedsAreBuiltBefore(g: Graph<BatchItem>, plan: seq<seq<BatchItem>>, leftovers: seq<BatchItem>, places: seq<Position>,
                            fails: nat -> bool, i: nat)
    requires IsBatchPlan(g, plan, leftovers) && InOrder(places) && WithinPlan(plan, places)
    requires Covers(NamesOf(plan), {}, true, fails, places) && i < |places|
    ensures NeedsBuiltBefore(g, plan, places, fails, i)
  {
    var x := ItemAt(plan, places[i]);
    InBatch(g, plan, leftovers, places[i].batch, x);
    forall y | y in g[x] ensures BuiltBefore(plan, places, fails, i, g[x][y] + {y}) {
      var j, z := NeedsInEarlierBatches(g, plan, leftovers, places[i].batch, x, y);
      var r :| 0 <= r < |plan[j]| && plan[j][r] == z;
      var k := EarlierBatchesAreBuilt(plan, places, fails, i, Position(j, r));
      assert ItemAt(plan, places[k]) == z;
    }
  }

  // ---------------------------------------------------------------- the whole pipeline

  /** Unless something fails, everything but the leftovers is built. */
  ghost predicate BuildsEverything(items: set<BatchItem>, plan: seq<seq<BatchItem>>, leftovers: seq<BatchItem>, places: seq<Position>)
    requires WithinPlan(plan, places)
  {
    forall x :: x in items ==> (x !in leftovers <==> exists i :: 0 <= i < |places| && ItemAt(plan, places[i]) == x)
  }

  lemma WithoutFailuresAllIsBuilt(g: Graph<BatchItem>, plan: seq<seq<BatchItem>>, leftovers: seq<BatchItem>, places: seq<Position>,
                                  fails: nat -> bool)
    requires IsBatchPlan(g, plan, leftovers) && WithinPlan(plan, places)
    requires Covers(NamesOf(plan), {}, true, fails, places) && NoneFailed(fails, |places|)
    ensures BuildsEverything(g.Keys, plan, leftovers, places)
  {
    forall x | x in g ensures x !in leftovers <==> exists i :: 0 <= i < |places| && ItemAt(plan, places[i]) == x {
      PlanPartitions(g, plan, leftovers, x);
      if x !in leftovers {
        var k :| 0 <= k < |plan| && x in plan[k];
        var r :| 0 <= r < |plan[k]| && plan[k][r] == x;
        AllPlacesRelevant(plan, Position(k, r));
        var i :| 0 <= i < |places| && places[i] == Position(k, r);
        assert ItemAt(plan, places[i]) == x;
      }
    }
  }

  /** Preparing a build and conducting it, skipping further batches after a failure. */
  method PrepareAndBuild(repos: Repositories, items: set<BatchItem>, fails: nat -> bool, asks: nat -> bool)
    returns (names: seq<string>, ghost plan: seq<seq<BatchItem>>, ghost leftovers: seq<BatchItem>, ghost places: seq<Position>)
    modifies items
    requires AllFresh(items)
    ensures AllResolved(repos, items) && IsPlanFor(items, plan, leftovers)
    ensures SafeRun(GraphOf(items), plan, places, fails)
    ensures |names| == |places| && forall i :: 0 <= i < |names| ==> names[i] == ItemAt(plan, places[i]).name
    ensures NoneFailed(fails, |places|) ==> BuildsEverything(items, plan, leftovers, places)
  {
    var preparation := new PrepareBuild();
    plan, leftovers := preparation.ComputeBatches(repos, items);
    names, places := BuildPlan(preparation.batches, fails, asks, items, plan, leftovers);
  }

  method BuildPlan(batches: seq<seq<string>>, fails: nat -> bool, asks: nat -> bool,
                   ghost items: set<BatchItem>, ghost plan: seq<seq<BatchItem>>, ghost leftovers: seq<BatchItem>)
    returns (names: seq<string>, ghost places: seq<Position>)
    requires batches == NamesOf(plan) && IsBatchPlan(GraphOf(items), plan, leftovers)
    ensures SafeRun(GraphOf(items), plan, places, fails)
    ensures |names| == |places| && forall i :: 0 <= i < |names| ==> names[i] == ItemAt(plan, places[i]).name
    ensures NoneFailed(fails, |places|) ==> BuildsEverything(items, plan, leftovers, places)
  {
    var staged;
    names, staged, places := RunBuild(batches, {}, true, fails, asks);
    RunIsSafe(GraphOf(items), plan, leftovers, places, fails);
    if NoneFailed(fails, |places|) {
      WithoutFailuresAllIsBuilt(GraphOf(items), plan, leftovers, places, fails);
    }
  }

  /** From the data of all builds to a finished run: what is handed out are the builds, except for those in dependency cycles. */
  method BuildPackages(repos: Repositories, builds: map<string, BuildData>, fails: nat -> bool, asks: nat -> bool)
    returns (names: seq<string>, ghost items: set<BatchItem>, ghost plan: seq<seq<BatchItem>>, ghost leftovers: seq<BatchItem>,
             ghost places: seq<Position>)
    ensures fresh(items) && AreItemsOf(builds, items)
    ensures AllResolved(repos, items) && IsPlanFor(items, plan, leftovers)
    ensures SafeRun(GraphOf(items), plan, places, fails)
    ensures |names| == |places| && forall i :: 0 <= i < |names| ==> names[i] == ItemAt(plan, places[i]).name
    ensures NoneFailed(fails, |places|) ==> forall name :: name in names <==> name in builds && name !in Names(leftovers)
  {
    var batchItems := PrepareBatches(builds);
    items := batchItems;
    names, plan, leftovers, places := PrepareAndBuild(repos, batchItems, fails, asks);
    if NoneFailed(fails, |places|) {
      hide AllResolved, IsPlanFor, SafeRun, OffersWhatIsProvided, RequiresItsDependencies, FirstComesFirst;
      BuildsByName(builds, items, plan, leftovers, places, names);
    }
  }

  lemma BuildsByName(builds: map<string, BuildData>, items: set<BatchItem>, plan: seq<seq<BatchItem>>, leftovers: seq<BatchItem>,
                     places: seq<Position>, names: seq<string>)
    requires AreItemsOf(builds, items) && IsBatchPlan(GraphOf(items), plan, leftovers) && WithinPlan(plan, places)
    requires |names| == |places| && forall i :: 0 <= i < |names| ==> names[i] == ItemAt(plan, places[i]).name
    requires BuildsEverything(items, plan, leftovers, places)
    ensures forall name :: name in names <==> name in builds && name !in Names(leftovers)
  {
    hide OffersWhatIsProvided, RequiresItsDependencies, FirstComesFirst, Built;
    var g := GraphOf(items);
    assert g.Keys == items;
    forall i | 0 <= i < |names| ensures ItemAt(plan, places[i]) in items {
      InBatch(g, plan, leftovers, places[i].batch, ItemAt(plan, places[i]));
    }
    assert forall item :: item in leftovers ==> item in Elements(leftovers);
    forall name ensures name in names <==> name in builds && name !in Names(leftovers) {
      NamedByOne(builds, items, plan, leftovers, places, names, name);
    }
  }

  lemma NamedByOne(builds: map<string, BuildData>, items: set<BatchItem>, plan: seq<seq<BatchItem>>, leftovers: seq<BatchItem>,
                   places: seq<Position>, names: seq<string>, name: string)
    requires AreItemsOf(builds, items) && WithinPlan(plan, places) && BuildsEverything(items, plan, leftovers, places)
    requires |names| == |places| && forall i :: 0 <= i < |names| ==> names[i] == ItemAt(plan, places[i]).name
    requires forall i :: 0 <= i < |names| ==> ItemAt(plan, places[i]) in items
    requires forall item :: item in leftovers ==> item in items
    ensures name in names <==> name in builds && name !in Names(leftovers)
  {
    hide OffersWhatIsProvided, RequiresItsDependencies, FirstComesFirst;
    if name in builds {
      assert IsNamed(items, name);
      var item :| item in items && item.name == name;
      if item in leftovers {
        var k :| 0 <= k < |leftovers| && leftovers[k] == item;
        assert Names(leftovers)[k] == name;
      } else {
        var i :| 0 <= i < |places| && ItemAt(plan, places[i]) == item;
        assert names[i] == name;
      }
      assert name in Names(leftovers) ==> item in leftovers;
      assert name in names ==> item !in leftovers;
    }
  }
}

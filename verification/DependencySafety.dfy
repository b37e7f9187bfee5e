/**
 * What a safe build means for single dependencies. The batches only look at the needed items, and an item that is
 * needed for several dependencies keeps the alternatives of the first one: so a dependency can be missed.
 */
module DependencySafety {
  import opened Sequences
  import opened VersionOrder
  import opened BuildGraph
  import opened Dependencies
  import opened Packages
  import opened NeededItems
  import opened PrepareBuild
  import opened BatchSession
  import opened BuildSafety

  /** A dependency, of the item or of something available it pulls in, that is left to other items. */
  ghost predicate Asks(repos: Repositories, items: set<BatchItem>, x: BatchItem, d: Dependency) {
    x.Seen(repos, x.Reach(repos, items), d) && !x.SelfProvided(d) && x.Offering(items, d) != {}
  }

  /** Any outcome of the search that its contract allows. */
  ghost predicate IsResolution(repos: Repositories, items: set<BatchItem>, x: BatchItem,
                               needed: map<BatchItem, set<BatchItem>>, missing: seq<MissingDependency>)
  {
    && x.Sound(repos, items, x.Reach(repos, items), needed, missing)
    && forall d :: x.Seen(repos, x.Reach(repos, items), d) ==> x.Handled(repos, items, d, x.Reach(repos, items), needed.Keys, missing)
  }

  /** Each needed item or one of its alternatives has been built: what the batches see to. */
  ghost predicate NeedsMet(needed: map<BatchItem, set<BatchItem>>, done: set<BatchItem>) {
    forall y :: y in needed ==> (needed[y] + {y}) * done != {}
  }

  /**
   * The dependency itself, or one that only items offering it offer, shares offering items with no dependency that
   * can be met by an item not offering it.
   */
  ghost predicate Settled(repos: Repositories, items: set<BatchItem>, x: BatchItem, d: Dependency) {
    exists f :: Asks(repos, items, x, f) && x.Offering(items, f) <= x.Offering(items, d) && Confined(repos, items, x, d, f)
  }

  ghost predicate Confined(repos: Repositories, items: set<BatchItem>, x: BatchItem, d: Dependency, f: Dependency) {
    forall e :: Asks(repos, items, x, e) ==> x.Offering(items, e) !! x.Offering(items, f) || x.Offering(items, e) <= x.Offering(items, d)
  }

  /** What is recorded for such a dependency can only be met by items that offer `d`. */
  lemma RecordedForDependency(repos: Repositories, items: set<BatchItem>, x: BatchItem, d: Dependency, f: Dependency,
                              needed: map<BatchItem, set<BatchItem>>, missing: seq<MissingDependency>)
    returns (y: BatchItem)
    requires IsResolution(repos, items, x, needed, missing) && Asks(repos, items, x, f) && Confined(repos, items, x, d, f)
    ensures y in needed && y in x.Offering(items, f) && needed[y] + {y} <= x.Offering(items, d)
  {
    hide BatchItem.Reach, BatchItem.Seen, BatchItem.Offering, BatchItem.Followed, Repositories.Providers, BatchItem.Justified;
    assert x.Handled(repos, items, f, x.Reach(repos, items), needed.Keys, missing);
    y :| y in needed.Keys * x.Offering(items, f);
    RecordedIsConfined(repos, items, x, d, f, y, needed[y]);
  }

  lemma RecordedIsConfined(repos: Repositories, items: set<BatchItem>, x: BatchItem, d: Dependency, f: Dependency,
                           y: BatchItem, alternatives: set<BatchItem>)
    requires Confined(repos, items, x, d, f) && y in x.Offering(items, f) && x.Justified(repos, items, x.Reach(repos, items), y, alternatives)
    ensures alternatives + {y} <= x.Offering(items, d)
  {
    hide BatchItem.Reach, BatchItem.Seen, Offered;
    var e :| x.Seen(repos, x.Reach(repos, items), e) && x.NeededFor(items, e, y, alternatives);
    assert Asks(repos, items, x, e);
  }

  lemma MetIfSettled(repos: Repositories, items: set<BatchItem>, x: BatchItem, d: Dependency,
                     needed: map<BatchItem, set<BatchItem>>, missing: seq<MissingDependency>, done: set<BatchItem>)
    requires IsResolution(repos, items, x, needed, missing) && NeedsMet(needed, done) && Settled(repos, items, x, d)
    ensures x.Offering(items, d) * done != {}
  {
    var f :| Asks(repos, items, x, f) && x.Offering(items, f) <= x.Offering(items, d) && Confined(repos, items, x, d, f);
    var y := RecordedForDependency(repos, items, x, d, f, needed, missing);
    var z :| z in (needed[y] + {y}) * done;
    assert z in x.Offering(items, d) * done;
  }

  /** `z` may be recorded for a dependency that can be met by an item not offering `d`. */
  ghost predicate HasWayOut(repos: Repositories, items: set<BatchItem>, x: BatchItem, d: Dependency, z: BatchItem) {
    exists e :: IsWayOut(repos, items, x, d, z, e)
  }

  ghost predicate IsWayOut(repos: Repositories, items: set<BatchItem>, x: BatchItem, d: Dependency, z: BatchItem, e: Dependency) {
    Asks(repos, items, x, e) && z in x.Offering(items, e) && !(x.Offering(items, e) <= x.Offering(items, d))
  }

  ghost function WayOut(repos: Repositories, items: set<BatchItem>, x: BatchItem, d: Dependency, z: BatchItem): (e: Dependency)
    requires HasWayOut(repos, items, x, d, z)
    ensures IsWayOut(repos, items, x, d, z, e)
  {
    var e :| IsWayOut(repos, items, x, d, z, e);
    e
  }

  /** The outcome of the search that avoids `d` as far as possible. */
  ghost function Avoiding(repos: Repositories, items: set<BatchItem>, x: BatchItem, d: Dependency): map<BatchItem, set<BatchItem>> {
    map z | z in items && HasWayOut(repos, items, x, d, z) :: x.Offering(items, WayOut(repos, items, x, d, z)) - {z}
  }

  /** Unless the dependency is settled, all recorded needs can be met without it. */
  lemma UnmetUnlessSettled(repos: Repositories, items: set<BatchItem>, x: BatchItem, d: Dependency, missing: seq<MissingDependency>)
    requires IsResolution(repos, items, x, x.neededItems, missing) && !Settled(repos, items, x, d)
    ensures IsResolution(repos, items, x, Avoiding(repos, items, x, d), missing)
    ensures NeedsMet(Avoiding(repos, items, x, d), items - x.Offering(items, d))
  {
    hide BatchItem.Reach, BatchItem.Seen, Offered, BatchItem.Justified, BatchItem.Handled, BatchItem.Followed, Repositories.Providers, Avoiding, Settled;
    var needed, reach := Avoiding(repos, items, x, d), x.Reach(repos, items);
    forall z | z in needed
      ensures x.Justified(repos, items, reach, z, needed[z]) && (needed[z] + {z}) * (items - x.Offering(items, d)) != {}
    {
      AvoidingIsJustified(repos, items, x, d, z);
    }
    forall f | x.Seen(repos, reach, f) ensures x.Handled(repos, items, f, reach, needed.Keys, missing) {
      AvoidingHandles(repos, items, x, d, f, missing);
    }
  }

  lemma AvoidingIsJustified(repos: Repositories, items: set<BatchItem>, x: BatchItem, d: Dependency, z: BatchItem)
    requires z in Avoiding(repos, items, x, d)
    ensures var alternatives := Avoiding(repos, items, x, d)[z];
            && x.Justified(repos, items, x.Reach(repos, items), z, alternatives)
            && (alternatives + {z}) * (items - x.Offering(items, d)) != {}
  {
    hide BatchItem.Reach, BatchItem.Seen, Offered;
    var e := WayOut(repos, items, x, d, z);
    assert x.NeededFor(items, e, z, x.Offering(items, e) - {z});
    var w :| w in x.Offering(items, e) && w !in x.Offering(items, d);
    assert w in (x.Offering(items, e) - {z} + {z}) * (items - x.Offering(items, d));
  }

  lemma AvoidingHandles(repos: Repositories, items: set<BatchItem>, x: BatchItem, d: Dependency, f: Dependency, missing: seq<MissingDependency>)
    requires IsResolution(repos, items, x, x.neededItems, missing) && !Settled(repos, items, x, d)
    requires x.Seen(repos, x.Reach(repos, items), f)
    ensures x.Handled(repos, items, f, x.Reach(repos, items), Avoiding(repos, items, x, d).Keys, missing)
  {
    hide BatchItem.Reach, BatchItem.Seen, Offered, BatchItem.Sound;
    assert x.Handled(repos, items, f, x.Reach(repos, items), x.neededItems.Keys, missing);
    if Asks(repos, items, x, f) {
      var z := OfferedElsewhere(repos, items, x, d, f);
      assert z in Avoiding(repos, items, x, d).Keys * x.Offering(items, f);
    }
  }

  lemma OfferedElsewhere(repos: Repositories, items: set<BatchItem>, x: BatchItem, d: Dependency, f: Dependency) returns (z: BatchItem)
    requires !Settled(repos, items, x, d) && Asks(repos, items, x, f)
    ensures z in x.Offering(items, f) && HasWayOut(repos, items, x, d, z)
  {
    if x.Offering(items, f) <= x.Offering(items, d) {
      var e :| Asks(repos, items, x, e) && !(x.Offering(items, e) !! x.Offering(items, f)) && !(x.Offering(items, e) <= x.Offering(items, d));
      z :| z in x.Offering(items, e) && z in x.Offering(items, f);
      assert IsWayOut(repos, items, x, d, z, e);
    } else {
      z :| z in x.Offering(items, f);
      assert IsWayOut(repos, items, x, d, z, f);
    }
  }

  /** The exact condition: whenever the recorded needs are met, so is the dependency - if and only if it is settled. */
  lemma AlwaysMetIffSettled(repos: Repositories, items: set<BatchItem>, x: BatchItem, d: Dependency)
    requires x.Resolved(repos, items)
    ensures Settled(repos, items, x, d) <==>
            forall needed, missing, done :: IsResolution(repos, items, x, needed, missing) && NeedsMet(needed, done) ==>
              x.Offering(items, d) * done != {}
  {
    if Settled(repos, items, x, d) {
      forall needed, missing, done | IsResolution(repos, items, x, needed, missing) && NeedsMet(needed, done)
        ensures x.Offering(items, d) * done != {}
      {
        MetIfSettled(repos, items, x, d, needed, missing, done);
      }
    } else {
      UnmetUnlessSettled(repos, items, x, d, x.missingDependencies);
      assert x.Offering(items, d) * (items - x.Offering(items, d)) == {};
    }
  }

  /** In a safe run, a settled dependency of what is handed out has been met before by an item that offers it. */
  lemma DependencyIsMet(repos: Repositories, items: set<BatchItem>, plan: seq<seq<BatchItem>>, places: seq<Position>,
                        fails: nat -> bool, i: nat, d: Dependency)
    requires AllResolved(repos, items) && WithinPlan(plan, places) && i < |places|
    requires ItemAt(plan, places[i]) in items && NeedsBuiltBefore(GraphOf(items), plan, places, fails, i)
    requires Settled(repos, items, ItemAt(plan, places[i]), d)
    ensures BuiltBefore(plan, places, fails, i, ItemAt(plan, places[i]).Offering(items, d))
  {
    var x := ItemAt(plan, places[i]);
    var f :| Asks(repos, items, x, f) && x.Offering(items, f) <= x.Offering(items, d) && Confined(repos, items, x, d, f);
    var y := RecordedForDependency(repos, items, x, d, f, x.neededItems, x.missingDependencies);
    assert BuiltBefore(plan, places, fails, i, GraphOf(items)[x][y] + {y});
  }

  // ---------------------------------------------------------------- an example

  function Named(name: string): Dependency {
    Dependency(name, "", Any, "")
  }

  /** 'x' needs "foo" of 'a' or 'y', and "bar" of 'y' alone; 'y' and 'b' need each other. */
  ghost predicate IsExample(a: BatchItem, x: BatchItem, y: BatchItem, b: BatchItem) {
    && a.name == "a" && x.name == "x" && y.name == "y" && b.name == "b"
    && a.specifiedIndex == x.specifiedIndex == y.specifiedIndex == b.specifiedIndex == NOT_SPECIFIED
    && a.requiredDependencies == [] && a.providedDependencies == [Named("foo")]
    && x.requiredDependencies == [Named("foo"), Named("bar")] && x.providedDependencies == []
    && y.requiredDependencies == [Named("baz")] && y.providedDependencies == [Named("foo"), Named("bar")]
    && b.requiredDependencies == [Named("bar")] && b.providedDependencies == [Named("baz")]
  }

  /** The search may come to "foo" first and record 'y' for it, with 'a' as the alternative; "bar" does not change that. */
  ghost predicate IsSearched(a: BatchItem, x: BatchItem, y: BatchItem, b: BatchItem)
    reads a, x, y, b
  {
    var items := {a, x, y, b};
    && a.neededItems == map[] && y.neededItems == map[b := {}] && b.neededItems == map[y := {}]
    && x.neededItems == BatchItem.Recorded(BatchItem.Recorded(map[], y, x.Offering(items, Named("foo")) - {y}), y, x.Offering(items, Named("bar")) - {y})
    && a.missingDependencies == x.missingDependencies == y.missingDependencies == b.missingDependencies == []
  }

  ghost const NOTHING := Repositories(map[], {}, "")

  lemma ExampleOffers(a: BatchItem, x: BatchItem, y: BatchItem, b: BatchItem)
    requires IsExample(a, x, y, b)
    ensures var items := {a, x, y, b};
            && x.Offering(items, Named("foo")) == {a, y} && x.Offering(items, Named("bar")) == {y}
            && y.Offering(items, Named("baz")) == {b} && b.Offering(items, Named("bar")) == {y}
            && !x.SelfProvided(Named("foo")) && !x.SelfProvided(Named("bar")) && !y.SelfProvided(Named("baz")) && !b.SelfProvided(Named("bar"))
  {
    forall n, m | n in {"foo", "bar", "baz"} && m in {"foo", "bar", "baz"} ensures Meets(m, "", Named(n)) <==> n == m {
    }
    forall d | d in {Named("foo"), Named("bar"), Named("baz")}
      ensures !Offered([], d) && (Offered([Named("foo")], d) <==> d.name == "foo") && (Offered([Named("baz")], d) <==> d.name == "baz")
      ensures Offered([Named("foo"), Named("bar")], d) <==> d.name != "baz"
    {
      OfferedOne(Named("foo"), d);
      OfferedOne(Named("baz"), d);
      OfferedTwo(Named("foo"), Named("bar"), d);
    }
  }

  lemma OfferedOne(p: Dependency, d: Dependency)
    ensures Offered([p], d) <==> Meets(p.name, p.version, d)
  {
    assert [p][0] == p;
  }

  lemma OfferedTwo(p: Dependency, q: Dependency, d: Dependency)
    ensures Offered([p, q], d) <==> Meets(p.name, p.version, d) || Meets(q.name, q.version, d)
  {
    assert [p, q][0] == p && [p, q][1] == q;
  }

  lemma OnlyOwnDependencies(items: set<BatchItem>, x: BatchItem)
    ensures x.Reach(NOTHING, items) == {} && forall d :: x.Seen(NOTHING, {}, d) <==> d in x.requiredDependencies
  {
  }

  lemma ResolvedIfHandled(items: set<BatchItem>, x: BatchItem)
    requires x.missingDependencies == [] && forall y :: y in x.neededItems ==> x.Justified(NOTHING, items, {}, y, x.neededItems[y])
    requires forall d :: d in x.requiredDependencies ==> x.SelfProvided(d) || x.neededItems.Keys * x.Offering(items, d) != {}
    ensures x.Resolved(NOTHING, items)
  {
    OnlyOwnDependencies(items, x);
  }

  lemma ExampleIsResolved(a: BatchItem, x: BatchItem, y: BatchItem, b: BatchItem)
    requires IsExample(a, x, y, b) && IsSearched(a, x, y, b)
    ensures AllResolved(NOTHING, {a, x, y, b})
  {
    var items := {a, x, y, b};
    ExampleOffers(a, x, y, b);
    hide BatchItem.Reach, BatchItem.Offering, Offered;
    assert {a, y} - {y} == {a};
    assert x.neededItems == map[y := {a}];
    assert x.NeededFor(items, Named("foo"), y, {a}) && y.NeededFor(items, Named("baz"), b, {}) && b.NeededFor(items, Named("bar"), y, {});
    assert y in x.neededItems.Keys && b in y.neededItems.Keys && y in b.neededItems.Keys;
    forall z | z in items ensures z.Resolved(NOTHING, items) {
      assert Named("foo") in x.requiredDependencies && Named("baz") in y.requiredDependencies && Named("bar") in b.requiredDependencies;
      ResolvedIfHandled(items, z);
    }
  }

  lemma ExampleLayers<T>(g: Graph<T>, a: T, x: T, y: T, b: T)
    requires a != x && a != y && a != b && x != y && x != b && y != b
    requires g.Keys == {a, x, y, b} && g[a] == map[] && g[x] == map[y := {a}] && g[y] == map[b := {}] && g[b] == map[y := {}]
    ensures IsBatchPlan(g, [[a], [x]], [b, y])
  {
    assert Layer(g, {}) == {a} by {
      ReadyForOne(g[x], y, {a}, {});
      ReadyForOne(g[y], b, {}, {});
      ReadyForOne(g[b], y, {}, {});
    }
    assert Built(g, 1) == {a};
    assert Layer(g, {a}) == {x} by {
      ReadyForOne(g[x], y, {a}, {a});
      ReadyForOne(g[y], b, {}, {a});
      ReadyForOne(g[b], y, {}, {a});
    }
    assert Built(g, 2) == {a, x};
    assert Layer(g, {a, x}) == {} by {
      ReadyForOne(g[y], b, {}, {a, x});
      ReadyForOne(g[b], y, {}, {a, x});
    }
  }

  lemma ReadyForOne<T>(needs: map<T, set<T>>, y: T, alternatives: set<T>, done: set<T>)
    requires needs == map[y := alternatives]
    ensures Ready(needs, done) <==> y in done || alternatives * done != {}
  {
    assert Ready(needs, done) <==> NeedMet(needs, y, done);
    if alternatives * done != {} {
      var z :| z in alternatives * done;
    }
    if z :| z in needs[y] && z in done {
      assert z in alternatives * done;
    }
  }

  lemma ExamplePlan(a: BatchItem, x: BatchItem, y: BatchItem, b: BatchItem)
    requires IsExample(a, x, y, b) && IsSearched(a, x, y, b)
    ensures IsBatchPlan(GraphOf({a, x, y, b}), [[a], [x]], [b, y])
  {
    var g := GraphOf({a, x, y, b});
    ExampleOffers(a, x, y, b);
    assert {a, y} - {y} == {a};
    ExampleLayers(g, a, x, y, b);
  }

  /** So 'x' is built after 'a', and nothing ever provides "bar". */
  method AmbiguousNeedIsNotMet() returns (a: BatchItem, x: BatchItem, y: BatchItem, b: BatchItem)
    ensures IsExample(a, x, y, b) && IsSearched(a, x, y, b)
    ensures AllResolved(NOTHING, {a, x, y, b}) && IsPlanFor({a, x, y, b}, [[a], [x]], [b, y])
    ensures Asks(NOTHING, {a, x, y, b}, x, Named("bar")) && x.Offering({a, x, y, b}, Named("bar")) == {y}
  {
    a := new BatchItem("a", NOT_SPECIFIED, [], [Named("foo")]);
    x := new BatchItem("x", NOT_SPECIFIED, [Named("foo"), Named("bar")], []);
    y := new BatchItem("y", NOT_SPECIFIED, [Named("baz")], [Named("foo"), Named("bar")]);
    b := new BatchItem("b", NOT_SPECIFIED, [Named("bar")], [Named("baz")]);
    x.neededItems, y.neededItems, b.neededItems := map[y := {a}], map[b := {}], map[y := {}];
    hide AllResolved, IsPlanFor, Asks, BatchItem.Offering, IsSearched;
    ExampleIsSearched(a, x, y, b);
    ExampleIsUnmet(a, x, y, b);
  }

  lemma ExampleIsUnmet(a: BatchItem, x: BatchItem, y: BatchItem, b: BatchItem)
    requires IsExample(a, x, y, b) && IsSearched(a, x, y, b)
    ensures var items := {a, x, y, b};
            && AllResolved(NOTHING, items) && IsPlanFor(items, [[a], [x]], [b, y])
            && Asks(NOTHING, items, x, Named("bar")) && x.Offering(items, Named("bar")) == {y}
  {
    var items := {a, x, y, b};
    hide IsSearched, IsBatchPlan, BatchItem.Offering, BatchItem.SelfProvided, Sorted, BatchItem.Reach, BatchItem.Seen, AllResolved, WellFormed, GraphOf;
    ExampleOffers(a, x, y, b);
    ExampleIsResolved(a, x, y, b);
    ExamplePlan(a, x, y, b);
    ExampleIsSorted(a, x, y, b);
    ResolvedIsWellFormed(NOTHING, items);
    OnlyOwnDependencies(items, x);
    assert Named("bar") in x.requiredDependencies;
  }

  lemma ExampleIsSorted(a: BatchItem, x: BatchItem, y: BatchItem, b: BatchItem)
    requires IsExample(a, x, y, b)
    ensures Sorted([b, y]) && Sorted([a]) && Sorted([x])
  {
  }

  lemma ExampleIsSearched(a: BatchItem, x: BatchItem, y: BatchItem, b: BatchItem)
    requires IsExample(a, x, y, b) && x.neededItems == map[y := {a}] && y.neededItems == map[b := {}] && b.neededItems == map[y := {}]
    requires a.neededItems == map[] && a.missingDependencies == x.missingDependencies == y.missingDependencies == b.missingDependencies == []
    ensures IsSearched(a, x, y, b)
  {
    ExampleOffers(a, x, y, b);
    assert {a, y} - {y} == {a};
  }
}

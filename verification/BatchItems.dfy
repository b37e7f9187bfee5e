/**
 * Build items from the data of the packages to be built: what they require and provide, collected in sets.
 */
module BatchItems {
  import opened Dependencies
  import opened Packages
  import opened NeededItems
  import opened DependencySets
  import opened PrepareBuild

  /** The sources of one build; several packages may be split from it. */
  datatype BuildData = BuildData(
    specifiedIndex: nat,
    makeDependencies: seq<Dependency>,
    checkDependencies: seq<Dependency>,
    packages: seq<Package>)

  /** All dependencies of one package, as they are gone through. */
  function RequiredBy(data: BuildData, package: Package): seq<Dependency> {
    data.makeDependencies + data.checkDependencies + package.dependencies
  }

  function SourcesOf(dependencies: seq<Dependency>, package: string): (sources: seq<Source>)
    ensures |sources| == |dependencies|
    ensures forall i :: 0 <= i < |sources| ==> sources[i] == Source(dependencies[i], package)
  {
    seq(|dependencies|, i requires 0 <= i < |dependencies| => Source(dependencies[i], package))
  }

  function Required(data: BuildData, n: nat): seq<Source>
    requires n <= |data.packages|
  {
    if n == 0 then [] else Required(data, n - 1) + SourcesOf(RequiredBy(data, data.packages[n - 1]), data.packages[n - 1].name)
  }

  function Provided(data: BuildData, n: nat): seq<Source>
    requires n <= |data.packages|
  {
    if n == 0 then [] else Provided(data, n - 1) + SourcesOf(data.packages[n - 1].provided, data.packages[n - 1].name)
  }

  method AddAll(dependencies: seq<Dependency>, package: string, into: DependencySet, ghost before: seq<Source>)
    requires into.entries == Collected(before)
    modifies into
    ensures into.entries == Collected(before + SourcesOf(dependencies, package))
  {
    hide Collected, Added;
    var sources := SourcesOf(dependencies, package);
    assert before + sources[..0] == before;
    for i := 0 to |dependencies|
      invariant into.entries == Collected(before + sources[..i])
    {
      into.Add(dependencies[i], package);
      CollectOneMore(before, sources, i);
    }
    assert sources[..|dependencies|] == sources;
  }

  lemma {:induction false} CollectOneMore(before: seq<Source>, sources: seq<Source>, i: nat)
    requires i < |sources|
    ensures Collected(before + sources[..i + 1]) == Added(Collected(before + sources[..i]), sources[i].dependency, sources[i].package)
  {
    var more := before + sources[..i + 1];
    assert more[..|more| - 1] == before + sources[..i] && more[|more| - 1] == sources[i];
  }

  /** The item offers exactly what its packages provide. */
  ghost predicate OffersWhatIsProvided(data: BuildData, item: BatchItem) {
    forall q :: Offered(item.providedDependencies, q) <==> SomePackageOffers(data.packages, q)
  }

  ghost predicate SomePackageOffers(packages: seq<Package>, q: Dependency) {
    exists k :: 0 <= k < |packages| && Offered(packages[k].provided, q)
  }

  /** Every dependency of its packages is required by name and version, with the mode it had when it came up first. */
  ghost predicate RequiresWhatIsNeeded(data: BuildData, item: BatchItem) {
    var sources := Required(data, |data.packages|);
    && (forall i :: 0 <= i < |sources| && IsFirst(sources, i) ==> Plain(sources[i].dependency) in item.requiredDependencies)
    && (forall d :: d in item.requiredDependencies ==> ComesFirst(sources, d))
  }

  function Plain(d: Dependency): Dependency {
    d.(description := "")
  }

  ghost predicate ComesFirst(sources: seq<Source>, d: Dependency) {
    exists i :: 0 <= i < |sources| && IsFirst(sources, i) && Plain(sources[i].dependency) == d
  }

  // ---------------------------------------------------------------- in terms of the three kinds of dependencies

  /** A dependency for building the packages, for checking them, or of one of the packages. */
  ghost predicate IsDependency(data: BuildData, n: nat, d: Dependency)
    requires n <= |data.packages|
  {
    n > 0 && (d in data.makeDependencies || d in data.checkDependencies || exists k :: 0 <= k < n && d in data.packages[k].dependencies)
  }

  predicate Mentions(dependencies: seq<Dependency>, d: Dependency) {
    exists i :: 0 <= i < |dependencies| && SameEntry(dependencies[i], d)
  }

  /** What is required is what the build depends on, by name and version ... */
  ghost predicate RequiresItsDependencies(data: BuildData, item: BatchItem) {
    && (forall d :: IsDependency(data, |data.packages|, d) ==> Mentions(item.requiredDependencies, d))
    && (forall e :: e in item.requiredDependencies ==> exists d :: IsDependency(data, |data.packages|, d) && SameEntry(d, e))
  }

  /** ... with the mode of what comes first: dependencies for building, then those for checking, then those of the packages. */
  ghost predicate FirstComesFirst(data: BuildData, item: BatchItem) {
    data.packages != [] ==>
      && (forall i :: 0 <= i < |data.makeDependencies| && !Mentions(data.makeDependencies[..i], data.makeDependencies[i]) ==>
            Plain(data.makeDependencies[i]) in item.requiredDependencies)
      && (forall i :: 0 <= i < |data.checkDependencies| && !Mentions(data.checkDependencies[..i], data.checkDependencies[i])
                      && !Mentions(data.makeDependencies, data.checkDependencies[i]) ==>
            Plain(data.checkDependencies[i]) in item.requiredDependencies)
      && (forall k, i :: 0 <= k < |data.packages| && IsNew(data, k, i) ==> Plain(data.packages[k].dependencies[i]) in item.requiredDependencies)
  }

  /** Nothing that comes before the i-th dependency of the k-th package has the same name and version. */
  predicate IsNew(data: BuildData, k: nat, i: int)
    requires k < |data.packages|
  {
    var dependencies := data.packages[k].dependencies;
    && 0 <= i < |dependencies| && !Mentions(dependencies[..i], dependencies[i])
    && !Mentions(data.makeDependencies, dependencies[i]) && !Mentions(data.checkDependencies, dependencies[i])
    && forall j :: 0 <= j < k ==> !Mentions(data.packages[j].dependencies, dependencies[i])
  }

  lemma {:induction false} SourcesAreDependencies(data: BuildData, n: nat, d: Dependency)
    requires n <= |data.packages|
    ensures d in DependenciesIn(Required(data, n)) <==> IsDependency(data, n, d)
  {
    if n > 0 {
      SourcesAreDependencies(data, n - 1, d);
      var front, last := Required(data, n - 1), data.packages[n - 1];
      assert DependenciesIn(Required(data, n)) == DependenciesIn(front) + RequiredBy(data, last);
      assert d in RequiredBy(data, last) <==> d in data.makeDependencies || d in data.checkDependencies || d in last.dependencies;
      assert IsDependency(data, n, d) <==> IsDependency(data, n - 1, d) || d in RequiredBy(data, last);
    }
  }

  /** Every source has the name and version of the first one that has them. */
  lemma {:induction false} FirstOfSources(sources: seq<Source>, j: nat) returns (i: nat)
    requires j < |sources|
    ensures i <= j && IsFirst(sources, i) && SameEntry(sources[i].dependency, sources[j].dependency)
    decreases j
  {
    if IsFirst(sources, j) {
      i := j;
    } else {
      var k :| 0 <= k < j && SameEntry(sources[k].dependency, sources[j].dependency);
      i := FirstOfSources(sources, k);
    }
  }

  lemma {:induction false} RequiredDependencies(data: BuildData, item: BatchItem)
    requires RequiresWhatIsNeeded(data, item)
    ensures RequiresItsDependencies(data, item)
  {
    var n, sources := |data.packages|, Required(data, |data.packages|);
    hide IsDependency, Required;
    forall d | IsDependency(data, n, d) ensures Mentions(item.requiredDependencies, d) {
      SourcesAreDependencies(data, n, d);
      var j :| 0 <= j < |sources| && DependenciesIn(sources)[j] == d;
      var i := FirstOfSources(sources, j);
      var k :| 0 <= k < |item.requiredDependencies| && item.requiredDependencies[k] == Plain(sources[i].dependency);
    }
    forall e | e in item.requiredDependencies ensures exists d :: IsDependency(data, n, d) && SameEntry(d, e) {
      assert ComesFirst(sources, e);
      var i :| 0 <= i < |sources| && IsFirst(sources, i) && Plain(sources[i].dependency) == e;
      assert DependenciesIn(sources)[i] == sources[i].dependency;
      SourcesAreDependencies(data, n, sources[i].dependency);
    }
  }

  lemma {:induction false} RequiredIsPrefix(data: BuildData, m: nat, n: nat)
    requires m <= n <= |data.packages|
    ensures Required(data, m) <= Required(data, n)
    decreases n
  {
    if m < n {
      RequiredIsPrefix(data, m, n - 1);
    }
  }

  /** The i-th source of the k-th package is the first of its name and version if nothing before it has them. */
  lemma {:induction false} FirstInChunk(data: BuildData, k: nat, i: nat)
    requires k < |data.packages| && i < |RequiredBy(data, data.packages[k])|
    requires var all := RequiredBy(data, data.packages[k]); !Mentions(all[..i], all[i])
    requires forall d :: IsDependency(data, k, d) ==> !SameEntry(d, RequiredBy(data, data.packages[k])[i])
    ensures var sources := Required(data, |data.packages|); var at := |Required(data, k)| + i;
            at < |sources| && sources[at].dependency == RequiredBy(data, data.packages[k])[i] && IsFirst(sources, at)
  {
    var all, front := RequiredBy(data, data.packages[k]), Required(data, k);
    RequiredIsPrefix(data, k + 1, |data.packages|);
    var sources, at := Required(data, |data.packages|), |front| + i;
    var upTo := Required(data, k + 1);
    assert upTo == front + SourcesOf(all, data.packages[k].name);
    assert forall j :: 0 <= j < |upTo| ==> sources[j] == upTo[j];
    hide Required, IsDependency;
    forall j | 0 <= j < at ensures !SameEntry(sources[j].dependency, sources[at].dependency) {
      if j < |front| {
        assert DependenciesIn(front)[j] == sources[j].dependency;
        SourcesAreDependencies(data, k, sources[j].dependency);
      } else {
        assert all[..i][j - |front|] == sources[j].dependency;
      }
    }
  }

  lemma {:induction false} FirstIsRequired(data: BuildData, item: BatchItem, k: nat, i: nat)
    requires RequiresWhatIsNeeded(data, item) && k < |data.packages| && i < |RequiredBy(data, data.packages[k])|
    requires var all := RequiredBy(data, data.packages[k]); !Mentions(all[..i], all[i])
    requires forall d :: IsDependency(data, k, d) ==> !SameEntry(d, RequiredBy(data, data.packages[k])[i])
    ensures Plain(RequiredBy(data, data.packages[k])[i]) in item.requiredDependencies
  {
    FirstInChunk(data, k, i);
  }

  lemma {:induction false} MentionedInFront(a: seq<Dependency>, b: seq<Dependency>, n: nat, d: Dependency)
    requires n <= |b|
    ensures Mentions((a + b)[..|a| + n], d) <==> Mentions(a, d) || Mentions(b[..n], d)
  {
    var front := (a + b)[..|a| + n];
    assert front == a + b[..n];
    if i :| 0 <= i < |a| && SameEntry(a[i], d) {
      assert front[i] == a[i];
    }
    if i :| 0 <= i < n && SameEntry(b[..n][i], d) {
      assert front[|a| + i] == b[i];
    }
  }

  lemma {:induction false} RequiredInOrder(data: BuildData, item: BatchItem)
    requires RequiresWhatIsNeeded(data, item)
    ensures FirstComesFirst(data, item)
  {
    hide RequiresWhatIsNeeded;
    var make, check := data.makeDependencies, data.checkDependencies;
    if data.packages != [] {
      var first := data.packages[0].dependencies;
      forall i | 0 <= i < |make| && !Mentions(make[..i], make[i]) ensures Plain(make[i]) in item.requiredDependencies {
        assert RequiredBy(data, data.packages[0])[..i] == make[..i];
        FirstIsRequired(data, item, 0, i);
      }
      forall i | 0 <= i < |check| && !Mentions(check[..i], check[i]) && !Mentions(make, check[i])
        ensures Plain(check[i]) in item.requiredDependencies
      {
        MentionedInFront(make, check + first, i, check[i]);
        assert (check + first)[..i] == check[..i];
        assert RequiredBy(data, data.packages[0]) == make + (check + first);
        FirstIsRequired(data, item, 0, |make| + i);
      }
      forall k, i | 0 <= k < |data.packages| && IsNew(data, k, i)
        ensures Plain(data.packages[k].dependencies[i]) in item.requiredDependencies
      {
        NewIsRequired(data, item, k, i);
      }
    }
  }

  lemma {:induction false} NewIsRequired(data: BuildData, item: BatchItem, k: nat, i: nat)
    requires RequiresWhatIsNeeded(data, item) && k < |data.packages| && IsNew(data, k, i)
    ensures Plain(data.packages[k].dependencies[i]) in item.requiredDependencies
  {
    hide RequiresWhatIsNeeded;
    var make, check, dependencies := data.makeDependencies, data.checkDependencies, data.packages[k].dependencies;
    var d := dependencies[i];
    MentionedInFront(make, check, |check|, d);
    assert (make + check)[..|make| + |check|] == make + check && check[..|check|] == check;
    MentionedInFront(make + check, dependencies, i, d);
    forall e | IsDependency(data, k, e) ensures !SameEntry(e, d) {
      EntryIsMentioned(make, e, d);
      EntryIsMentioned(check, e, d);
      if j :| 0 <= j < k && e in data.packages[j].dependencies {
        EntryIsMentioned(data.packages[j].dependencies, e, d);
      }
    }
    FirstIsRequired(data, item, k, |make| + |check| + i);
  }

  lemma {:induction false} EntryIsMentioned(dependencies: seq<Dependency>, e: Dependency, d: Dependency)
    ensures e in dependencies && SameEntry(e, d) ==> Mentions(dependencies, d)
  {
  }

  /** prepareBatches() for one build */
  method PrepareItem(name: string, data: BuildData) returns (item: BatchItem)
    ensures fresh(item) && item.name == name && item.specifiedIndex == data.specifiedIndex
    ensures item.neededItems == map[] && item.missingDependencies == [] && !item.done
    ensures OffersWhatIsProvided(data, item) && RequiresItsDependencies(data, item) && FirstComesFirst(data, item)
    ensures OneOfEach(item.requiredDependencies)
  {
    var required := new DependencySet();
    var provided := new DependencySet();
    for n := 0 to |data.packages|
      invariant fresh(required) && fresh(provided) && required != provided
      invariant required.entries == Collected(Required(data, n)) && provided.entries == Collected(Provided(data, n))
    {
      AddAll(RequiredBy(data, data.packages[n]), data.packages[n].name, required, Required(data, n));
      AddAll(data.packages[n].provided, data.packages[n].name, provided, Provided(data, n));
    }
    item := new BatchItem(name, data.specifiedIndex, AsDependencies(required.entries), AsDependencies(provided.entries));
    ItemOffers(data, item, provided.entries);
    ItemRequires(Required(data, |data.packages|), item.requiredDependencies);
    RequiredDependencies(data, item);
    RequiredInOrder(data, item);
    CollectedIsSet(Required(data, |data.packages|));
  }

  /** There is one entry per name and version. */
  predicate OneOfEach(dependencies: seq<Dependency>) {
    forall i, j :: 0 <= i < j < |dependencies| ==> !SameEntry(dependencies[i], dependencies[j])
  }

  /** The items of all builds: one each, with what it provides and requires. */
  ghost predicate AreItemsOf(builds: map<string, BuildData>, items: set<BatchItem>) {
    && (forall item :: item in items ==> item.name in builds && OffersWhatIsProvided(builds[item.name], item)
                                         && RequiresItsDependencies(builds[item.name], item) && FirstComesFirst(builds[item.name], item)
                                         && OneOfEach(item.requiredDependencies))
    && (forall name :: name in builds ==> IsNamed(items, name))
    && (forall x, y :: x in items && y in items && x.name == y.name ==> x == y)
  }

  ghost predicate IsNamed(items: set<BatchItem>, name: string) {
    exists item :: item in items && item.name == name
  }

  method PrepareBatches(builds: map<string, BuildData>) returns (items: set<BatchItem>)
    ensures fresh(items) && AllFresh(items) && AreItemsOf(builds, items)
  {
    hide OffersWhatIsProvided, RequiresItsDependencies, FirstComesFirst, OneOfEach;
    items := {};
    var rest := builds.Keys;
    while rest != {}
      invariant rest <= builds.Keys && fresh(items) && AllFresh(items)
      invariant AreItemsOf(map name | name in builds && name !in rest :: builds[name], items)
      decreases rest
    {
      var name :| name in rest;
      ghost var before := map other | other in builds && other !in rest :: builds[other];
      rest := rest - {name};
      var item := PrepareItem(name, builds[name]);
      OneMoreItem(before, items, name, builds[name], item);
      assert (map other | other in builds && other !in rest :: builds[other]) == before[name := builds[name]];
      items := items + {item};
    }
    assert (map name | name in builds && name !in rest :: builds[name]) == builds;
  }

  lemma {:induction false} OneMoreItem(builds: map<string, BuildData>, items: set<BatchItem>, name: string, data: BuildData, item: BatchItem)
    requires AreItemsOf(builds, items) && name !in builds && item.name == name
    requires OffersWhatIsProvided(data, item) && RequiresItsDependencies(data, item) && FirstComesFirst(data, item) && OneOfEach(item.requiredDependencies)
    ensures AreItemsOf(builds[name := data], items + {item})
  {
    hide OffersWhatIsProvided, RequiresItsDependencies, FirstComesFirst, OneOfEach;
    forall other | other in builds[name := data] ensures IsNamed(items + {item}, other) {
      if other != name {
        assert IsNamed(items, other);
      }
    }
  }

  lemma {:induction false} ItemOffers(data: BuildData, item: BatchItem, entries: seq<Detail>)
    requires entries == Collected(Provided(data, |data.packages|)) && item.providedDependencies == AsDependencies(entries)
    ensures OffersWhatIsProvided(data, item)
  {
    forall q ensures Offered(item.providedDependencies, q) <==> SomePackageOffers(data.packages, q) {
      CollectedOffers(Provided(data, |data.packages|), q);
      ProvidedOffer(data, |data.packages|, q);
      assert data.packages[..|data.packages|] == data.packages;
    }
  }

  lemma {:induction false} ProvidedOffer(data: BuildData, n: nat, q: Dependency)
    requires n <= |data.packages|
    ensures Offered(DependenciesIn(Provided(data, n)), q) <==> SomePackageOffers(data.packages[..n], q)
  {
    if n > 0 {
      ProvidedOffer(data, n - 1, q);
      var front, last := Provided(data, n - 1), data.packages[n - 1];
      assert data.packages[..n - 1] == data.packages[..n][..n - 1] && data.packages[..n][n - 1] == last;
      OfferedBySplit(DependenciesIn(front), last.provided, q);
      assert DependenciesIn(Provided(data, n)) == DependenciesIn(front) + last.provided;
      PackageSplit(data.packages[..n - 1], last, q);
      assert data.packages[..n] == data.packages[..n - 1] + [last];
    }
  }

  lemma {:induction false} OfferedBySplit(a: seq<Dependency>, b: seq<Dependency>, q: Dependency)
    ensures Offered(a + b, q) <==> Offered(a, q) || Offered(b, q)
  {
    hide Meets;
    if Offered(b, q) {
      var i :| 0 <= i < |b| && Meets(b[i].name, b[i].version, q);
      assert (a + b)[|a| + i] == b[i];
    }
    if Offered(a, q) {
      var i :| 0 <= i < |a| && Meets(a[i].name, a[i].version, q);
      assert (a + b)[i] == a[i];
    }
  }

  lemma {:induction false} PackageSplit(packages: seq<Package>, last: Package, q: Dependency)
    ensures SomePackageOffers(packages + [last], q) <==> SomePackageOffers(packages, q) || Offered(last.provided, q)
  {
    hide Offered;
    if SomePackageOffers(packages, q) {
      var k :| 0 <= k < |packages| && Offered(packages[k].provided, q);
      assert (packages + [last])[k] == packages[k];
    }
    assert (packages + [last])[|packages|] == last;
  }

  lemma {:induction false} ItemRequires(sources: seq<Source>, dependencies: seq<Dependency>)
    requires dependencies == AsDependencies(Collected(sources))
    ensures forall i :: 0 <= i < |sources| && IsFirst(sources, i) ==> Plain(sources[i].dependency) in dependencies
    ensures forall d :: d in dependencies ==> ComesFirst(sources, d)
  {
    forall i | 0 <= i < |sources| && IsFirst(sources, i) ensures Plain(sources[i].dependency) in dependencies {
      FirstModeWins(sources, i);
      assert dependencies[Position(Collected(sources), sources[i].dependency)] == Plain(sources[i].dependency);
    }
    forall k | 0 <= k < |dependencies| ensures ComesFirst(sources, dependencies[k]) {
      EntryComesFirst(sources, k);
    }
  }

  lemma {:induction false} EntryComesFirst(sources: seq<Source>, k: nat)
    requires k < |Collected(sources)|
    ensures ComesFirst(sources, AsDependencies(Collected(sources))[k])
  {
    var n := |sources| - 1;
    var before, last := Collected(sources[..n]), sources[n];
    assert Collected(sources) == Added(before, last.dependency, last.package);
    EntryOfAdded(before, last.dependency, last.package, k);
    hide Collected, Added;
    if k < |before| {
      EntryComesFirst(sources[..n], k);
      StillFirst(sources, n, AsDependencies(before)[k]);
    } else {
      NothingBefore(sources, n);
      assert Plain(last.dependency) == AsDependencies(Collected(sources))[k];
    }
  }

  lemma {:induction false} EntryOfAdded(entries: seq<Detail>, d: Dependency, package: string, k: nat)
    requires k < |Added(entries, d, package)|
    ensures k < |entries| ==> AsDependencies(Added(entries, d, package))[k] == AsDependencies(entries)[k]
    ensures k >= |entries| ==> AsDependencies(Added(entries, d, package))[k] == Plain(d) && Position(entries, d) == |entries|
  {
  }

  lemma {:induction false} StillFirst(sources: seq<Source>, n: nat, d: Dependency)
    requires n <= |sources| && ComesFirst(sources[..n], d)
    ensures ComesFirst(sources, d)
  {
    var i :| 0 <= i < n && IsFirst(sources[..n], i) && Plain(sources[..n][i].dependency) == d;
    assert IsFirst(sources, i) by {
      assert forall j :: 0 <= j < i ==> sources[j] == sources[..n][j];
    }
  }

  lemma {:induction false} NothingBefore(sources: seq<Source>, n: nat)
    requires n < |sources| && Position(Collected(sources[..n]), sources[n].dependency) == |Collected(sources[..n])|
    ensures IsFirst(sources, n)
  {
    forall j | 0 <= j < n ensures !SameEntry(sources[j].dependency, sources[n].dependency) {
      if SameEntry(sources[j].dependency, sources[n].dependency) {
        IsCollected(sources[..n], j);
        SamePosition(Collected(sources[..n]), sources[j].dependency, sources[n].dependency);
      }
    }
  }

  lemma {:induction false} IsCollected(sources: seq<Source>, j: nat)
    requires j < |sources|
    ensures Position(Collected(sources), sources[j].dependency) < |Collected(sources)|
    decreases |sources|
  {
    var n := |sources| - 1;
    var before := Collected(sources[..n]);
    var d := sources[j].dependency;
    if j < n {
      IsCollected(sources[..n], j);
      assert IsFor(Collected(sources)[Position(before, d)], d);
    } else {
      assert IsFor(Collected(sources)[Position(before, d)], d);
    }
  }
}

/**
 * The build order computed by a recursive topological sort over the dependencies of packages.
 */
module BuildOrder {
  import opened Wrappers
  import opened Sequences
  import opened Dependencies
  import opened Packages

  /** Dependencies for building and checking are those of the sources, if known; `hasBinary` says that there is a binary package. */
  datatype BuildPackage = BuildPackage(package: Package, makeDependencies: seq<Dependency>, checkDependencies: seq<Dependency>, hasBinary: bool)

  datatype PackageRef = PackageRef(db: nat, id: nat)

  datatype Config = Config(databases: seq<map<nat, BuildPackage>>, considerBuildDependencies: bool) {
    predicate Has(p: PackageRef) {
      p.db < |databases| && p.id in databases[p.db]
    }

    function Get(p: PackageRef): BuildPackage
      requires Has(p)
    {
      databases[p.db][p.id]
    }

    function DependenciesOf(p: PackageRef): seq<Dependency>
      requires Has(p)
    {
      Get(p).package.dependencies + if considerBuildDependencies then Get(p).makeDependencies + Get(p).checkDependencies else []
    }

    ghost function All(): set<PackageRef> {
      set db, id | 0 <= db < |databases| && id in databases[db] :: PackageRef(db, id)
    }

    ghost predicate Offers(p: PackageRef, d: Dependency) {
      Has(p) && Provides(Get(p).package, d)
    }

    ghost predicate IsUnknown(d: Dependency) {
      d.name == "" || forall p :: !Offers(p, d)
    }

    /** The loop of one database; the search ends with a package of exactly that name. */
    method FindIn(db: nat, d: Dependency, before: Option<PackageRef>) returns (found: Option<PackageRef>, exactMatch: bool)
      requires db < |databases| && d.name != ""
      ensures found.Some? ==> found == before || (found.value.db == db && Offers(found.value, d))
      ensures found == None ==> before == None && forall p: PackageRef :: p.db == db ==> !Offers(p, d)
      ensures exactMatch ==> found.Some? && found.value.db == db && Offers(found.value, d) && Get(found.value).package.name == d.name
      ensures !exactMatch ==> forall p: PackageRef :: p.db == db && Offers(p, d) ==> Get(p).package.name != d.name
    {
      found, exactMatch := before, false;
      var rest := databases[db].Keys;
      while rest != {}
        invariant rest <= databases[db].Keys
        invariant found.Some? ==> found == before || (found.value.db == db && Offers(found.value, d))
        invariant found == None ==> before == None && forall p: PackageRef :: p.db == db && p.id !in rest ==> !Offers(p, d)
        invariant forall p: PackageRef :: p.db == db && p.id !in rest && Offers(p, d) ==> Get(p).package.name != d.name
        decreases rest
      {
        var id :| id in rest;
        rest := rest - {id};
        var offers := ProvidesDependency(databases[db][id].package, d);
        if offers {
          found := Some(PackageRef(db, id));
          if databases[db][id].package.name == d.name {
            return found, true;
          }
        }
      }
    }

    /** Config::findPackage(): some package providing the dependency, one with exactly that name if there is any. */
    method FindPackage(d: Dependency) returns (found: Option<PackageRef>)
      ensures found == None <==> IsUnknown(d)
      ensures found.Some? ==> Offers(found.value, d)
      ensures found.Some? && Get(found.value).package.name != d.name ==> forall p :: Offers(p, d) ==> Get(p).package.name != d.name
    {
      found := None;
      if d.name == "" {
        return;
      }
      for db := 0 to |databases|
        invariant found.Some? ==> Offers(found.value, d)
        invariant found == None ==> forall p: PackageRef :: p.db < db ==> !Offers(p, d)
        invariant forall p: PackageRef :: p.db < db && Offers(p, d) ==> Get(p).package.name != d.name
      {
        var exactMatch;
        found, exactMatch := FindIn(db, d, found);
        if exactMatch {
          return;
        }
      }
    }
  }

  // ---------------------------------------------------------------- what the order has to deliver

  ghost predicate ProvidedBy(config: Config, items: seq<PackageRef>, d: Dependency) {
    exists p :: p in items && config.Offers(p, d)
  }

  /** An item that provides the dependency does not have to come first if it can be installed already. */
  ghost predicate HasBinary(config: Config, items: seq<PackageRef>, d: Dependency) {
    exists p :: p in items && config.Offers(p, d) && config.Get(p).hasBinary
  }

  ghost predicate IsHandled(config: Config, earlier: seq<PackageRef>, all: seq<PackageRef>, ignored: seq<string>, d: Dependency) {
    || ProvidedBy(config, earlier, d)
    || HasBinary(config, all, d)
    || (config.IsUnknown(d) && DependencyToString(d) in ignored)
  }

  ghost predicate IsSettled(config: Config, finished: seq<PackageRef>, all: seq<PackageRef>, ignored: seq<string>, i: nat)
    requires i < |finished|
  {
    && config.Has(finished[i])
    && forall d :: d in config.DependenciesOf(finished[i]) ==>
         config.Offers(finished[i], d) || IsHandled(config, finished[..i], all, ignored, d)
  }

  ghost predicate IsIgnorable(config: Config, s: string) {
    exists d :: config.IsUnknown(d) && s == DependencyToString(d)
  }

  /** Each item provides its dependencies itself, or they have been taken care of before. */
  ghost predicate IsBuildOrder(config: Config, finished: seq<PackageRef>, all: seq<PackageRef>, ignored: seq<string>) {
    && NoDuplicates(finished)
    && (forall i :: 0 <= i < |finished| ==> IsSettled(config, finished, all, ignored, i))
    && (forall s :: s in ignored ==> IsIgnorable(config, s))
  }

  /** `q` provides a dependency that `p` has and does not provide itself. */
  ghost predicate Needs(config: Config, p: PackageRef, q: PackageRef) {
    config.Has(p) && exists d :: d in config.DependenciesOf(p) && !config.Offers(p, d) && config.Offers(q, d)
  }

  ghost predicate IsChain(config: Config, chain: seq<PackageRef>) {
    && NoDuplicates(chain)
    && (forall p :: p in chain ==> config.Has(p))
    && forall i, j :: 0 <= i && j == i + 1 && j < |chain| ==> Needs(config, chain[i], chain[j])
  }

  /** A cycle that cannot be broken where it was found: there is no binary package. */
  ghost predicate IsCycle(config: Config, cycle: seq<PackageRef>) {
    cycle != [] && IsChain(config, cycle) && Needs(config, cycle[|cycle| - 1], cycle[0]) && !config.Get(cycle[0]).hasBinary
  }

  // ---------------------------------------------------------------- in terms of what the packages say

  /** A dependency of the package at run time, or for building or checking it if those are considered. */
  predicate HasDependency(config: Config, b: BuildPackage, d: Dependency) {
    d in b.package.dependencies || (config.considerBuildDependencies && (d in b.makeDependencies || d in b.checkDependencies))
  }

  predicate IsPackage(config: Config, p: PackageRef, b: BuildPackage) {
    p.db < |config.databases| && p.id in config.databases[p.db] && config.databases[p.db][p.id] == b
  }

  /** Some of the packages provides the dependency. */
  ghost predicate SomeProvides(config: Config, items: seq<PackageRef>, d: Dependency, onlyBinary: bool) {
    exists p, b :: p in items && IsPackage(config, p, b) && Provides(b.package, d) && (onlyBinary ==> b.hasBinary)
  }

  /** What an order promises for every dependency of every package in it. */
  lemma OrderMeans(config: Config, order: seq<PackageRef>, all: seq<PackageRef>, ignored: seq<string>, i: nat, b: BuildPackage, d: Dependency)
    requires IsBuildOrder(config, order, all, ignored) && i < |order| && IsPackage(config, order[i], b) && HasDependency(config, b, d)
    ensures || Provides(b.package, d) || SomeProvides(config, order[..i], d, false) || SomeProvides(config, all, d, true)
            || (DependencyToString(d) in ignored && (d.name == "" || forall p, c :: IsPackage(config, p, c) ==> !Provides(c.package, d)))
  {
    hide Provides, DependencyToString;
    assert IsSettled(config, order, all, ignored, i);
    assert d in config.DependenciesOf(order[i]);
    OffersMeans(config, order[..i], d);
    OffersMeans(config, all, d);
    assert config.Get(order[i]) == b;
    if config.IsUnknown(d) && d.name != "" {
      forall p, c | IsPackage(config, p, c) ensures !Provides(c.package, d) {
        assert !config.Offers(p, d);
      }
    }
  }

  lemma OffersMeans(config: Config, items: seq<PackageRef>, d: Dependency)
    ensures ProvidedBy(config, items, d) ==> SomeProvides(config, items, d, false)
    ensures HasBinary(config, items, d) ==> SomeProvides(config, items, d, true)
  {
    hide Provides;
    if p :| p in items && config.Offers(p, d) {
      assert IsPackage(config, p, config.Get(p));
    }
    if p :| p in items && config.Offers(p, d) && config.Get(p).hasBinary {
      assert IsPackage(config, p, config.Get(p));
    }
  }

  /** Each package of a cycle has a dependency, which it does not provide itself, that the next one provides. */
  lemma CycleMeans(config: Config, cycle: seq<PackageRef>, i: nat)
    returns (b: BuildPackage, next: BuildPackage, d: Dependency)
    requires IsCycle(config, cycle) && i < |cycle|
    ensures IsPackage(config, cycle[i], b) && IsPackage(config, cycle[(i + 1) % |cycle|], next)
    ensures HasDependency(config, b, d) && !Provides(b.package, d) && Provides(next.package, d)
    ensures i + 1 == |cycle| ==> !next.hasBinary
  {
    hide Provides;
    var j := (i + 1) % |cycle|;
    assert Needs(config, cycle[i], cycle[j]) by {
      assert i + 1 < |cycle| ==> j == i + 1;
    }
    b, next := config.Get(cycle[i]), config.Get(cycle[j]);
    d :| d in config.DependenciesOf(cycle[i]) && !config.Offers(cycle[i], d) && config.Offers(cycle[j], d);
  }

  // ---------------------------------------------------------------- the state of the search

  ghost predicate IsState(config: Config, all: seq<PackageRef>, finished: seq<PackageRef>, ignored: seq<string>, chain: seq<PackageRef>) {
    && IsBuildOrder(config, finished, all, ignored) && IsChain(config, chain)
    && (forall p :: p in all <==> p in finished || p in chain)
    && (forall p :: p in chain ==> p !in finished)
  }

  ghost predicate IsAsked(config: Config, chain: seq<PackageRef>, d: Dependency) {
    chain != [] ==> config.Has(chain[|chain| - 1]) && d in config.DependenciesOf(chain[|chain| - 1]) && !config.Offers(chain[|chain| - 1], d)
  }

  ghost predicate Grows(all: seq<PackageRef>, finished: seq<PackageRef>, ignored: seq<string>,
                        moreAll: seq<PackageRef>, moreFinished: seq<PackageRef>, moreIgnored: seq<string>) {
    && (forall p :: p in all ==> p in moreAll) && finished <= moreFinished && (forall s :: s in ignored ==> s in moreIgnored)
  }

  lemma GrowsFurther(all0: seq<PackageRef>, finished0: seq<PackageRef>, ignored0: seq<string>,
                     all1: seq<PackageRef>, finished1: seq<PackageRef>, ignored1: seq<string>,
                     all2: seq<PackageRef>, finished2: seq<PackageRef>, ignored2: seq<string>)
    requires Grows(all0, finished0, ignored0, all1, finished1, ignored1) && Grows(all1, finished1, ignored1, all2, finished2, ignored2)
    ensures Grows(all0, finished0, ignored0, all2, finished2, ignored2)
  {
  }

  lemma GrowsBy(all: seq<PackageRef>, finished: seq<PackageRef>, ignored: seq<string>, p: PackageRef, s: string)
    ensures Grows(all, finished, ignored, all, finished, ignored) && Grows(all, finished, ignored, all + [p], finished, ignored)
    ensures Grows(all, finished, ignored, all, finished + [p], ignored) && Grows(all, finished, ignored, all, finished, ignored + [s])
  {
  }

  lemma HandledGrows(config: Config, all: seq<PackageRef>, finished: seq<PackageRef>, ignored: seq<string>,
                     moreAll: seq<PackageRef>, moreFinished: seq<PackageRef>, moreIgnored: seq<string>, d: Dependency)
    requires IsHandled(config, finished, all, ignored, d) && Grows(all, finished, ignored, moreAll, moreFinished, moreIgnored)
    ensures IsHandled(config, moreFinished, moreAll, moreIgnored, d)
  {
    if ProvidedBy(config, finished, d) {
      var p :| p in finished && config.Offers(p, d);
      var i :| 0 <= i < |finished| && finished[i] == p;
      assert moreFinished[i] == p;
    }
  }

  lemma OrderGrows(config: Config, all: seq<PackageRef>, finished: seq<PackageRef>, ignored: seq<string>,
                   moreAll: seq<PackageRef>, moreIgnored: seq<string>)
    requires IsBuildOrder(config, finished, all, ignored) && Grows(all, finished, ignored, moreAll, finished, moreIgnored)
    requires forall s :: s in moreIgnored ==> IsIgnorable(config, s)
    ensures IsBuildOrder(config, finished, moreAll, moreIgnored)
  {
    forall i | 0 <= i < |finished| ensures IsSettled(config, finished, moreAll, moreIgnored, i) {
      assert IsSettled(config, finished, all, ignored, i);
      forall d | d in config.DependenciesOf(finished[i]) && !config.Offers(finished[i], d)
        ensures IsHandled(config, finished[..i], moreAll, moreIgnored, d)
      {
        HandledGrows(config, all, finished[..i], ignored, moreAll, finished[..i], moreIgnored, d);
      }
    }
  }

  lemma Ignore(config: Config, all: seq<PackageRef>, finished: seq<PackageRef>, ignored: seq<string>, chain: seq<PackageRef>, d: Dependency)
    requires IsState(config, all, finished, ignored, chain) && config.IsUnknown(d)
    ensures var more := ignored + [DependencyToString(d)];
            IsState(config, all, finished, more, chain) && IsHandled(config, finished, all, more, d)
  {
    assert IsIgnorable(config, DependencyToString(d));
    OrderGrows(config, all, finished, ignored, all, ignored + [DependencyToString(d)]);
  }

  /** What is known already but not finished is being processed. */
  lemma PendingIsInChain(config: Config, all: seq<PackageRef>, finished: seq<PackageRef>, ignored: seq<string>, chain: seq<PackageRef>,
                         p: PackageRef, d: Dependency)
    requires IsState(config, all, finished, ignored, chain) && p in all && config.Offers(p, d) && !ProvidedBy(config, finished, d)
    ensures p in chain && (config.Get(p).hasBinary ==> IsHandled(config, finished, all, ignored, d))
    ensures IsBuildOrder(config, finished, all, ignored) && IsChain(config, chain)
  {
    if config.Get(p).hasBinary {
      assert HasBinary(config, all, d);
    }
  }

  lemma CloseCycle(config: Config, chain: seq<PackageRef>, i: nat, d: Dependency)
    requires IsChain(config, chain) && i < |chain| && IsAsked(config, chain, d) && config.Offers(chain[i], d) && !config.Get(chain[i]).hasBinary
    ensures IsCycle(config, chain[i..])
  {
    var cycle := chain[i..];
    NoDuplicatesSuffix(chain, i);
    assert Needs(config, chain[|chain| - 1], chain[i]);
    forall k, l | 0 <= k && l == k + 1 && l < |cycle| ensures Needs(config, cycle[k], cycle[l]) {
      assert Needs(config, chain[i + k], chain[i + l]);
    }
  }

  lemma Push(config: Config, all: seq<PackageRef>, finished: seq<PackageRef>, ignored: seq<string>, chain: seq<PackageRef>,
             p: PackageRef, d: Dependency)
    requires IsState(config, all, finished, ignored, chain) && p !in all && config.Offers(p, d) && IsAsked(config, chain, d)
    ensures IsState(config, all + [p], finished, ignored, chain + [p])
  {
    GrowsBy(all, finished, ignored, p, "");
    OrderGrows(config, all, finished, ignored, all + [p], ignored);
    hide IsBuildOrder, IsChain;
    assert forall q :: q in all + [p] <==> q in all || q == p;
    assert forall q :: q in chain + [p] <==> q in chain || q == p;
  }

  ghost predicate DependenciesHandled(config: Config, p: PackageRef, n: nat, all: seq<PackageRef>, finished: seq<PackageRef>, ignored: seq<string>) {
    config.Has(p) && n <= |config.DependenciesOf(p)| &&
    forall k :: 0 <= k < n ==>
      config.Offers(p, config.DependenciesOf(p)[k]) || IsHandled(config, finished, all, ignored, config.DependenciesOf(p)[k])
  }

  lemma Pop(config: Config, all: seq<PackageRef>, finished: seq<PackageRef>, ignored: seq<string>, chain: seq<PackageRef>,
            p: PackageRef, d: Dependency)
    requires IsState(config, all, finished, ignored, chain + [p]) && config.Offers(p, d)
    requires DependenciesHandled(config, p, |config.DependenciesOf(p)|, all, finished, ignored)
    ensures IsState(config, all, finished + [p], ignored, chain) && IsHandled(config, finished + [p], all, ignored, d)
  {
    assert (chain + [p])[|chain|] == p;
    PopChain(config, chain, p);
    PopOrder(config, all, finished, ignored, p);
    hide IsBuildOrder, IsChain;
    assert forall q :: q in finished + [p] <==> q in finished || q == p;
    assert forall q :: q in chain + [p] <==> q in chain || q == p;
    assert ProvidedBy(config, finished + [p], d);
  }

  lemma PopChain(config: Config, chain: seq<PackageRef>, p: PackageRef)
    requires IsChain(config, chain + [p])
    ensures IsChain(config, chain) && p !in chain
  {
    var more := chain + [p];
    forall i, j | 0 <= i < j < |chain| ensures chain[i] != chain[j] {
      assert more[i] != more[j];
    }
    forall i | 0 <= i < |chain| ensures chain[i] != p {
      assert more[i] != more[|chain|];
    }
    forall i, j | 0 <= i && j == i + 1 && j < |chain| ensures Needs(config, chain[i], chain[j]) {
      assert Needs(config, more[i], more[j]);
    }
  }

  lemma PopOrder(config: Config, all: seq<PackageRef>, finished: seq<PackageRef>, ignored: seq<string>, p: PackageRef)
    requires IsBuildOrder(config, finished, all, ignored) && p !in finished
    requires config.Has(p) && DependenciesHandled(config, p, |config.DependenciesOf(p)|, all, finished, ignored)
    ensures IsBuildOrder(config, finished + [p], all, ignored)
  {
    var more := finished + [p];
    NoDuplicatesAppend(finished, p);
    forall i | 0 <= i < |more| ensures IsSettled(config, more, all, ignored, i) {
      assert more[..i] == finished[..i];
      if i < |finished| {
        assert IsSettled(config, finished, all, ignored, i);
      } else {
        assert more[..i] == finished;
        forall d | d in config.DependenciesOf(p) && !config.Offers(p, d) ensures IsHandled(config, finished, all, ignored, d) {
          var k :| 0 <= k < |config.DependenciesOf(p)| && config.DependenciesOf(p)[k] == d;
        }
      }
    }
  }

  // ---------------------------------------------------------------- the search

  class TopologicalSort {
    const config: Config
    var allItems: seq<PackageRef>
    var finishedItems: seq<PackageRef>
    var ignored: seq<string>
    var cycleTracking: seq<PackageRef>

    constructor (config: Config)
      ensures IsState(config, allItems, finishedItems, ignored, cycleTracking) && this.config == config && finishedItems == [] && ignored == [] && cycleTracking == []
    {
      this.config := config;
      allItems, finishedItems, ignored, cycleTracking := [], [], [], [];
    }

    method IsPresent(d: Dependency) returns (res: bool)
      requires IsState(config, allItems, finishedItems, ignored, cycleTracking)
      ensures res <==> ProvidedBy(config, finishedItems, d)
    {
      FinishedExist(config, allItems, finishedItems, ignored, cycleTracking);
      for i := 0 to |finishedItems|
        invariant forall k :: 0 <= k < i ==> !config.Offers(finishedItems[k], d)
      {
        var offers := ProvidesDependency(config.Get(finishedItems[i]).package, d);
        if offers {
          assert finishedItems[i] in finishedItems;
          return true;
        }
      }
      return false;
    }

    /** On success the dependency has been taken care of; otherwise the chain has become a cycle. */
    method AddDepsRecursivelyInTopoOrder(d: Dependency, onlyDependency: bool) returns (ok: bool)
      requires IsState(config, allItems, finishedItems, ignored, cycleTracking) && IsAsked(config, cycleTracking, d) && (onlyDependency <==> cycleTracking != [])
      modifies this
      ensures ok ==> IsState(config, allItems, finishedItems, ignored, cycleTracking) && cycleTracking == old(cycleTracking) && IsHandled(config, finishedItems, allItems, ignored, d)
      ensures ok ==> Grows(old(allItems), old(finishedItems), old(ignored), allItems, finishedItems, ignored)
      ensures !ok ==> IsBuildOrder(config, finishedItems, allItems, ignored) && IsCycle(config, cycleTracking)
      decreases config.All() - Elements(allItems), 0
    {
      hide IsState, IsBuildOrder, IsChain, IsCycle, Grows, IsAsked, DependenciesHandled, Provides, DependencyToString;
      GrowsBy(allItems, finishedItems, ignored, PackageRef(0, 0), DependencyToString(d));
      var present := IsPresent(d);
      if present {
        return true;
      }
      var found := config.FindPackage(d);
      if found == None {
        Ignore(config, allItems, finishedItems, ignored, cycleTracking, d);
        ignored := ignored + [DependencyToString(d)];
        return true;
      }
      var p := found.value;
      if p in allItems {
        PendingIsInChain(config, allItems, finishedItems, ignored, cycleTracking, p, d);
        if onlyDependency && config.Get(p).hasBinary {
          return true;
        }
        KeepCycle(p, d);
        return false;
      }
      Push(config, allItems, finishedItems, ignored, cycleTracking, p, d);
      MoreIsLess(config, allItems, p);
      GrowsBy(allItems, finishedItems, ignored, p, "");
      cycleTracking, allItems := cycleTracking + [p], allItems + [p];
      ok := AddDependenciesOf(p);
      if !ok {
        return;
      }
      ghost var chain := old(cycleTracking);
      Pop(config, allItems, finishedItems, ignored, chain, p, d);
      GrowsBy(allItems, finishedItems, ignored, p, "");
      GrowsFurther(old(allItems), old(finishedItems), old(ignored), old(allItems) + [p], old(finishedItems), old(ignored),
                   allItems, finishedItems, ignored);
      GrowsFurther(old(allItems), old(finishedItems), old(ignored), allItems, finishedItems, ignored,
                   allItems, finishedItems + [p], ignored);
      cycleTracking := cycleTracking[..|cycleTracking| - 1];
      assert cycleTracking == chain;
      finishedItems := finishedItems + [p];
    }

    /** Removes what leads up to the cycle. */
    method KeepCycle(p: PackageRef, ghost d: Dependency)
      requires IsChain(config, cycleTracking) && p in cycleTracking && IsAsked(config, cycleTracking, d) && config.Offers(p, d)
      requires !config.Get(p).hasBinary
      modifies this`cycleTracking
      ensures IsCycle(config, cycleTracking)
    {
      for i := 0 to |cycleTracking|
        invariant cycleTracking == old(cycleTracking) && forall k :: 0 <= k < i ==> cycleTracking[k] != p
      {
        if cycleTracking[i] == p {
          CloseCycle(config, cycleTracking, i, d);
          cycleTracking := cycleTracking[i..];
          return;
        }
      }
    }

    method AddDependenciesOf(p: PackageRef) returns (ok: bool)
      requires IsState(config, allItems, finishedItems, ignored, cycleTracking) && config.Has(p) && cycleTracking != [] && cycleTracking[|cycleTracking| - 1] == p
      modifies this
      ensures ok ==> IsState(config, allItems, finishedItems, ignored, cycleTracking) && cycleTracking == old(cycleTracking)
      ensures ok ==> DependenciesHandled(config, p, |config.DependenciesOf(p)|, allItems, finishedItems, ignored)
      ensures ok ==> Grows(old(allItems), old(finishedItems), old(ignored), allItems, finishedItems, ignored)
      ensures !ok ==> IsBuildOrder(config, finishedItems, allItems, ignored) && IsCycle(config, cycleTracking)
      decreases config.All() - Elements(allItems), 1
    {
      hide IsState, IsBuildOrder, IsChain, IsCycle, Grows, IsHandled, Provides;
      ok := true;
      var dependencies := config.DependenciesOf(p);
      GrowsBy(allItems, finishedItems, ignored, p, "");
      for k := 0 to |dependencies|
        invariant IsState(config, allItems, finishedItems, ignored, cycleTracking) && cycleTracking == old(cycleTracking)
        invariant DependenciesHandled(config, p, k, allItems, finishedItems, ignored)
        invariant Grows(old(allItems), old(finishedItems), old(ignored), allItems, finishedItems, ignored)
        invariant ok
      {
        ghost var all, finished, ignoredSoFar := allItems, finishedItems, ignored;
        var selfProvided := ProvidesDependency(config.Get(p).package, dependencies[k]);
        if !selfProvided {
          LessOrEqual(config, old(allItems), old(finishedItems), old(ignored), allItems, finishedItems, ignored);
          ok := AddDepsRecursivelyInTopoOrder(dependencies[k], true);
          if !ok {
            return;
          }
          GrowsFurther(old(allItems), old(finishedItems), old(ignored), all, finished, ignoredSoFar, allItems, finishedItems, ignored);
        } else {
          GrowsBy(allItems, finishedItems, ignored, p, "");
        }
        OneMoreHandled(config, p, k, all, finished, ignoredSoFar, allItems, finishedItems, ignored);
      }
    }
  }

  lemma FinishedExist(config: Config, all: seq<PackageRef>, finished: seq<PackageRef>, ignored: seq<string>, chain: seq<PackageRef>)
    requires IsState(config, all, finished, ignored, chain)
    ensures forall i :: 0 <= i < |finished| ==> config.Has(finished[i])
  {
    forall i | 0 <= i < |finished| ensures config.Has(finished[i]) {
      assert IsSettled(config, finished, all, ignored, i);
    }
  }

  lemma MoreIsLess(config: Config, all: seq<PackageRef>, p: PackageRef)
    requires config.Has(p) && p !in all
    ensures config.All() - Elements(all + [p]) < config.All() - Elements(all)
  {
    ElementsAppend(all, p);
    assert p in config.All() - Elements(all) by {
      assert p == PackageRef(p.db, p.id);
    }
  }

  lemma LessOrEqual(config: Config, all: seq<PackageRef>, finished: seq<PackageRef>, ignored: seq<string>,
                    moreAll: seq<PackageRef>, moreFinished: seq<PackageRef>, moreIgnored: seq<string>)
    requires Grows(all, finished, ignored, moreAll, moreFinished, moreIgnored)
    ensures config.All() - Elements(moreAll) <= config.All() - Elements(all)
  {
  }

  lemma OneMoreHandled(config: Config, p: PackageRef, k: nat, all: seq<PackageRef>, finished: seq<PackageRef>, ignored: seq<string>,
                       moreAll: seq<PackageRef>, moreFinished: seq<PackageRef>, moreIgnored: seq<string>)
    requires DependenciesHandled(config, p, k, all, finished, ignored) && k < |config.DependenciesOf(p)|
    requires Grows(all, finished, ignored, moreAll, moreFinished, moreIgnored)
    requires config.Offers(p, config.DependenciesOf(p)[k]) || IsHandled(config, moreFinished, moreAll, moreIgnored, config.DependenciesOf(p)[k])
    ensures DependenciesHandled(config, p, k + 1, moreAll, moreFinished, moreIgnored)
  {
    hide IsHandled, Grows;
    forall j | 0 <= j < k && !config.Offers(p, config.DependenciesOf(p)[j])
      ensures IsHandled(config, moreFinished, moreAll, moreIgnored, config.DependenciesOf(p)[j])
    {
      HandledGrows(config, all, finished, ignored, moreAll, moreFinished, moreIgnored, config.DependenciesOf(p)[j]);
    }
  }

  /** All dependencies asked for, up to the first cycle; what has been finished is an order in any case. */
  method ComputeBuildOrder(config: Config, dependencyDenotations: seq<string>)
    returns (order: seq<PackageRef>, cycle: seq<PackageRef>, ignored: seq<string>, success: bool, ghost all: seq<PackageRef>)
    ensures IsBuildOrder(config, order, all, ignored)
    ensures cycle == [] || IsCycle(config, cycle)
    ensures success <==> cycle == [] && ignored == []
    ensures cycle == [] ==> Elements(all) == Elements(order)
    ensures cycle == [] ==> forall k :: 0 <= k < |dependencyDenotations| ==>
              var d := ParseDependency(dependencyDenotations[k]);
              ProvidedBy(config, order, d) || (config.IsUnknown(d) && DependencyToString(d) in ignored)
  {
    var search := new TopologicalSort(config);
    cycle := [];
    for k := 0 to |dependencyDenotations|
      invariant fresh(search) && search.config == config && cycle == search.cycleTracking == []
      invariant IsState(config, search.allItems, search.finishedItems, search.ignored, [])
      invariant AllAsked(config, dependencyDenotations[..k], search.finishedItems, search.ignored)
    {
      ghost var finished, ignoredBefore := search.finishedItems, search.ignored;
      var d := DependencyFromString(dependencyDenotations[k]);
      hide IsState, IsHandled, IsChain, IsBuildOrder, Grows, AllAsked;
      var ok := search.AddDepsRecursivelyInTopoOrder(d, false);
      if !ok {
        cycle := search.cycleTracking;
        return search.finishedItems, cycle, search.ignored, false, search.allItems;
      }
      OneMoreAsked(config, dependencyDenotations, k, finished, ignoredBefore, search.allItems, search.finishedItems, search.ignored);
    }
    assert dependencyDenotations[..|dependencyDenotations|] == dependencyDenotations;
    return search.finishedItems, [], search.ignored, search.ignored == [], search.allItems;
  }

  ghost predicate AllAsked(config: Config, denotations: seq<string>, order: seq<PackageRef>, ignored: seq<string>) {
    forall k :: 0 <= k < |denotations| ==> IsDone(config, order, ignored, ParseDependency(denotations[k]))
  }

  ghost predicate IsDone(config: Config, order: seq<PackageRef>, ignored: seq<string>, d: Dependency) {
    ProvidedBy(config, order, d) || (config.IsUnknown(d) && DependencyToString(d) in ignored)
  }

  lemma OneMoreAsked(config: Config, denotations: seq<string>, k: nat, finished: seq<PackageRef>, ignored: seq<string>,
                     all: seq<PackageRef>, moreFinished: seq<PackageRef>, moreIgnored: seq<string>)
    requires k < |denotations| && AllAsked(config, denotations[..k], finished, ignored)
    requires finished <= moreFinished && (forall s :: s in ignored ==> s in moreIgnored)
    requires IsState(config, all, moreFinished, moreIgnored, [])
    requires IsHandled(config, moreFinished, all, moreIgnored, ParseDependency(denotations[k]))
    ensures AllAsked(config, denotations[..k + 1], moreFinished, moreIgnored)
  {
    forall j | 0 <= j < k ensures IsDone(config, moreFinished, moreIgnored, ParseDependency(denotations[j])) {
      assert denotations[..k][j] == denotations[j];
      assert IsDone(config, finished, ignored, ParseDependency(denotations[j]));
      if p :| p in finished && config.Offers(p, ParseDependency(denotations[j])) {
        var i :| 0 <= i < |finished| && finished[i] == p;
        assert moreFinished[i] == p;
      }
    }
  }
}

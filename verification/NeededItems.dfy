/**
 * Finding the build items another build item needs: its dependencies are followed depth-first through the
 * packages that are already available, until they lead to another item.
 */
module NeededItems {
  import opened Dependencies
  import opened Packages

  // a package of a database, identified by its storage id
  datatype PackageKey = PackageKey(db: string, arch: string, id: nat)

  datatype MissingDependency = MissingDependency(dependency: Dependency, requiredBy: string)

  /** The databases of one build: all packages, and which of them may be used. */
  datatype Repositories = Repositories(packages: map<PackageKey, Package>, requiredDbs: set<string>, arch: string) {
    predicate Usable(key: PackageKey) {
      key.db in requiredDbs && key.arch == arch
    }

    ghost predicate IsProvider(key: PackageKey, d: Dependency) {
      key in packages && d.name != "" && Provides(packages[key], d)
    }

    /** The usable packages providing a dependency. */
    ghost function Providers(d: Dependency): set<PackageKey> {
      set key | key in packages && Usable(key) && IsProvider(key, d)
    }

    /** All packages providing a dependency, as the dependency index yields them. */
    method FindPackages(d: Dependency) returns (found: seq<PackageKey>)
      ensures forall key :: key in found <==> IsProvider(key, d)
    {
      found := [];
      if d.name == "" {
        return;
      }
      var rest := packages.Keys;
      while rest != {}
        invariant rest <= packages.Keys
        invariant forall key :: key in found <==> IsProvider(key, d) && key !in rest
        decreases rest
      {
        var key :| key in rest;
        rest := rest - {key};
        var offers := ProvidesDependency(packages[key], d);
        if offers {
          found := found + [key];
        }
      }
    }
  }

  // what numeric_limits<size_t>::max() stands for
  const NOT_SPECIFIED := 0xFFFF_FFFF_FFFF_FFFF

  class BatchItem {
    const name: string
    const specifiedIndex: nat
    const requiredDependencies: seq<Dependency>
    const providedDependencies: seq<Dependency>
    var neededItems: map<BatchItem, set<BatchItem>>
    var missingDependencies: seq<MissingDependency>
    var done: bool

    constructor (name: string, specifiedIndex: nat, required: seq<Dependency>, provided: seq<Dependency>)
      ensures this.name == name && this.specifiedIndex == specifiedIndex
      ensures requiredDependencies == required && providedDependencies == provided
      ensures neededItems == map[] && missingDependencies == [] && !done
    {
      this.name, this.specifiedIndex := name, specifiedIndex;
      requiredDependencies, providedDependencies := required, provided;
      neededItems, missingDependencies, done := map[], [], false;
    }

    // -------------------------------------------------------------- specification

    ghost predicate SelfProvided(d: Dependency) {
      Offered(providedDependencies, d)
    }

    /** The other items that offer a dependency. */
    ghost function Offering(items: set<BatchItem>, d: Dependency): set<BatchItem> {
      set item | item in items && item != this && Offered(item.providedDependencies, d)
    }

    /** Whether the search has to look for available packages that provide `d`. */
    ghost predicate Followed(items: set<BatchItem>, d: Dependency) {
      !SelfProvided(d) && Offering(items, d) == {}
    }

    /** `d` is a dependency of the item itself or of a visited package. */
    ghost predicate Seen(repos: Repositories, visited: set<PackageKey>, d: Dependency) {
      d in requiredDependencies || exists p :: p in visited && p in repos.packages && d in repos.packages[p].dependencies
    }

    /** What the search owes every dependency it has seen. */
    ghost predicate Handled(repos: Repositories, items: set<BatchItem>, d: Dependency, visited: set<PackageKey>,
                            needed: set<BatchItem>, missing: seq<MissingDependency>)
    {
      || SelfProvided(d)
      || (if Offering(items, d) != {} then needed * Offering(items, d) != {}
          else if repos.Providers(d) != {} then repos.Providers(d) <= visited
          else ReportsMissing(missing, d))
    }

    ghost predicate PackageHandled(repos: Repositories, items: set<BatchItem>, p: PackageKey, visited: set<PackageKey>,
                                   needed: set<BatchItem>, missing: seq<MissingDependency>)
    {
      p in repos.packages && forall d :: d in repos.packages[p].dependencies ==> Handled(repos, items, d, visited, needed, missing)
    }

    /** Why an item is recorded as needed: it offers a dependency, and its alternatives are all others that do. */
    ghost predicate NeededFor(items: set<BatchItem>, d: Dependency, y: BatchItem, alternatives: set<BatchItem>) {
      !SelfProvided(d) && y in Offering(items, d) && alternatives == Offering(items, d) - {y}
    }

    /** unordered_map::emplace() */
    static function Recorded(needed: map<BatchItem, set<BatchItem>>, y: BatchItem, alternatives: set<BatchItem>)
      : map<BatchItem, set<BatchItem>>
    {
      if y in needed then needed else needed[y := alternatives]
    }

    ghost predicate Justified(repos: Repositories, items: set<BatchItem>, visited: set<PackageKey>, y: BatchItem, alternatives: set<BatchItem>) {
      exists d :: Seen(repos, visited, d) && NeededFor(items, d, y, alternatives)
    }

    /** Nothing is recorded without a reason. */
    ghost predicate Sound(repos: Repositories, items: set<BatchItem>, visited: set<PackageKey>,
                          needed: map<BatchItem, set<BatchItem>>, missing: seq<MissingDependency>)
    {
      && (forall y :: y in needed ==> Justified(repos, items, visited, y, needed[y]))
      && (forall m :: m in missing ==>
            AskedBy(repos, visited, m.dependency, m.requiredBy) && Followed(items, m.dependency) && repos.Providers(m.dependency) == {})
    }

    /** The item itself, or a visited package of that name, has the dependency. */
    ghost predicate AskedBy(repos: Repositories, visited: set<PackageKey>, d: Dependency, requiredBy: string) {
      || (requiredBy == name && d in requiredDependencies)
      || exists p :: p in visited && p in repos.packages && repos.packages[p].name == requiredBy && d in repos.packages[p].dependencies
    }

    // -------------------------------------------------------------- reachability

    /** Where one followed dependency of an available package leads. */
    ghost predicate Leads(repos: Repositories, items: set<BatchItem>, p: PackageKey, q: PackageKey) {
      p in repos.packages && exists d :: d in repos.packages[p].dependencies && Followed(items, d) && q in repos.Providers(d)
    }

    ghost predicate IsRoot(repos: Repositories, items: set<BatchItem>, q: PackageKey) {
      exists d :: d in requiredDependencies && Followed(items, d) && q in repos.Providers(d)
    }

    ghost predicate Closed(repos: Repositories, items: set<BatchItem>, keys: set<PackageKey>) {
      forall p, q :: p in keys && Leads(repos, items, p, q) ==> q in keys
    }

    ghost function Level(repos: Repositories, items: set<BatchItem>, n: nat): set<PackageKey> {
      if n == 0 then set q | q in repos.packages && IsRoot(repos, items, q)
      else Level(repos, items, n - 1) + set q | q in repos.packages && LeadsFrom(repos, items, Level(repos, items, n - 1), q)
    }

    ghost predicate LeadsFrom(repos: Repositories, items: set<BatchItem>, keys: set<PackageKey>, q: PackageKey) {
      exists p :: p in keys && Leads(repos, items, p, q)
    }

    /** The available packages that building the item pulls in: reachable through dependencies no item offers. */
    ghost function Reach(repos: Repositories, items: set<BatchItem>): set<PackageKey> {
      set q | q in repos.packages && exists n: nat :: q in Level(repos, items, n)
    }

    lemma ReachIsClosed(repos: Repositories, items: set<BatchItem>)
      ensures Closed(repos, items, Reach(repos, items))
      ensures forall q :: IsRoot(repos, items, q) ==> q in Reach(repos, items)
    {
      forall p, q | p in Reach(repos, items) && Leads(repos, items, p, q) ensures q in Reach(repos, items) {
        var n: nat :| p in Level(repos, items, n);
        assert LeadsFrom(repos, items, Level(repos, items, n), q);
        assert q in Level(repos, items, n + 1);
      }
      forall q | IsRoot(repos, items, q) ensures q in Reach(repos, items) {
        assert q in Level(repos, items, 0);
      }
    }

    lemma {:induction false} LevelWithin(repos: Repositories, items: set<BatchItem>, n: nat, keys: set<PackageKey>)
      requires Closed(repos, items, keys) && forall q :: IsRoot(repos, items, q) ==> q in keys
      ensures Level(repos, items, n) <= keys
    {
      if n > 0 {
        LevelWithin(repos, items, n - 1, keys);
      }
    }

    /** Reach is the smallest set of packages that contains the roots and is closed under following dependencies. */
    lemma ReachIsLeast(repos: Repositories, items: set<BatchItem>, keys: set<PackageKey>)
      requires Closed(repos, items, keys) && forall q :: IsRoot(repos, items, q) ==> q in keys
      ensures Reach(repos, items) <= keys
    {
      forall q | q in Reach(repos, items) ensures q in keys {
        var n: nat :| q in Level(repos, items, n);
        LevelWithin(repos, items, n, keys);
      }
    }

    // -------------------------------------------------------------- the search

    /** Records an item that offers `d`, with all others that do as alternatives; an item already recorded keeps its alternatives. */
    method AddNeededItemForRequiredDependency(items: set<BatchItem>, d: Dependency) returns (met: bool)
      modifies this`neededItems
      ensures met <==> !Followed(items, d)
      ensures !met || SelfProvided(d) ==> neededItems == old(neededItems)
      ensures met && !SelfProvided(d) ==>
                exists y :: y in Offering(items, d) && neededItems == Recorded(old(neededItems), y, Offering(items, d) - {y})
    {
      var selfProvided := SetProvides(providedDependencies, d);
      if selfProvided {
        return true;
      }
      var relevantItem: BatchItem? := null;
      var alternativeItems: set<BatchItem> := {};
      var rest := items;
      while rest != {}
        invariant rest <= items && relevantItem !in alternativeItems && neededItems == old(neededItems)
        invariant Offering(items - rest, d) == if relevantItem == null then {} else alternativeItems + {relevantItem}
        invariant relevantItem == null ==> alternativeItems == {}
        decreases rest
      {
        var item :| item in rest;
        ghost var before := items - rest;
        rest := rest - {item};
        assert items - rest == before + {item};
        if item == this {
          continue;
        }
        var offers := SetProvides(item.providedDependencies, d);
        if offers {
          if relevantItem == null {
            relevantItem := item;
          } else {
            alternativeItems := alternativeItems + {item};
          }
        }
      }
      assert items - rest == items;
      if relevantItem == null {
        return false;
      }
      assert alternativeItems == Offering(items, d) - {relevantItem};
      if relevantItem !in neededItems {
        neededItems := neededItems[relevantItem := alternativeItems];
      }
      return true;
    }

    /** What a step of the search does to the records, given the packages visited and the records before and after it. */
    ghost predicate Searched(repos: Repositories, items: set<BatchItem>, visited: set<PackageKey>, newVisited: set<PackageKey>,
                             needed: map<BatchItem, set<BatchItem>>, newNeeded: map<BatchItem, set<BatchItem>>,
                             missing: seq<MissingDependency>, newMissing: seq<MissingDependency>)
    {
      && visited <= newVisited && needed.Keys <= newNeeded.Keys && missing <= newMissing
      && Sound(repos, items, newVisited, newNeeded, newMissing)
      && forall p :: p in newVisited - visited ==> PackageHandled(repos, items, p, newVisited, newNeeded.Keys, newMissing)
    }

    lemma SearchedComposes(repos: Repositories, items: set<BatchItem>, v0: set<PackageKey>, v1: set<PackageKey>, v2: set<PackageKey>,
                           n0: map<BatchItem, set<BatchItem>>, n1: map<BatchItem, set<BatchItem>>, n2: map<BatchItem, set<BatchItem>>,
                           m0: seq<MissingDependency>, m1: seq<MissingDependency>, m2: seq<MissingDependency>)
      requires Searched(repos, items, v0, v1, n0, n1, m0, m1) && Searched(repos, items, v1, v2, n1, n2, m1, m2)
      ensures Searched(repos, items, v0, v2, n0, n2, m0, m2)
    {
      forall p | p in v1 - v0 ensures PackageHandled(repos, items, p, v2, n2.Keys, m2) {
        PackageHandledIsMonotone(repos, items, p, v1, n1.Keys, m1, v2, n2.Keys, m2);
      }
      assert v2 - v0 == (v1 - v0) + (v2 - v1);
      assert m0 <= m2;
    }

    lemma AddedIsJustified(repos: Repositories, items: set<BatchItem>, visited: set<PackageKey>, d: Dependency, y: BatchItem,
                           needed: map<BatchItem, set<BatchItem>>, missing: seq<MissingDependency>)
      requires Sound(repos, items, visited, needed, missing) && Seen(repos, visited, d)
      requires !SelfProvided(d) && y in Offering(items, d)
      ensures Sound(repos, items, visited, Recorded(needed, y, Offering(items, d) - {y}), missing)
    {
      var more := Recorded(needed, y, Offering(items, d) - {y});
      forall z | z in more ensures Justified(repos, items, visited, z, more[z]) {
        if z == y && y !in needed {
          assert NeededFor(items, d, y, more[y]);
        } else {
          assert Justified(repos, items, visited, z, needed[z]);
        }
      }
    }

    lemma HandledIsMonotone(repos: Repositories, items: set<BatchItem>, d: Dependency,
                            visited: set<PackageKey>, needed: set<BatchItem>, missing: seq<MissingDependency>,
                            moreVisited: set<PackageKey>, moreNeeded: set<BatchItem>, moreMissing: seq<MissingDependency>)
      requires Handled(repos, items, d, visited, needed, missing)
      requires visited <= moreVisited && needed <= moreNeeded && missing <= moreMissing
      ensures Handled(repos, items, d, moreVisited, moreNeeded, moreMissing)
    {
      if ReportsMissing(missing, d) {
        var i :| 0 <= i < |missing| && missing[i].dependency == d;
        assert moreMissing[i] == missing[i];
      }
    }

    lemma PackageHandledIsMonotone(repos: Repositories, items: set<BatchItem>, p: PackageKey,
                                   visited: set<PackageKey>, needed: set<BatchItem>, missing: seq<MissingDependency>,
                                   moreVisited: set<PackageKey>, moreNeeded: set<BatchItem>, moreMissing: seq<MissingDependency>)
      requires PackageHandled(repos, items, p, visited, needed, missing)
      requires visited <= moreVisited && needed <= moreNeeded && missing <= moreMissing
      ensures PackageHandled(repos, items, p, moreVisited, moreNeeded, moreMissing)
    {
      forall d | d in repos.packages[p].dependencies ensures Handled(repos, items, d, moreVisited, moreNeeded, moreMissing) {
        HandledIsMonotone(repos, items, d, visited, needed, missing, moreVisited, moreNeeded, moreMissing);
      }
    }

    lemma SoundIsMonotone(repos: Repositories, items: set<BatchItem>, visited: set<PackageKey>, more: set<PackageKey>,
                          needed: map<BatchItem, set<BatchItem>>, missing: seq<MissingDependency>)
      requires Sound(repos, items, visited, needed, missing) && visited <= more
      ensures Sound(repos, items, more, needed, missing)
    {
      forall y | y in needed ensures Justified(repos, items, more, y, needed[y]) {
        assert Justified(repos, items, visited, y, needed[y]);
        var d :| Seen(repos, visited, d) && NeededFor(items, d, y, needed[y]);
        assert Seen(repos, more, d);
      }
    }

    /** One dependency: met by an item, or followed into every usable package that provides it, or reported as missing. */
    method HandleDependency(repos: Repositories, items: set<BatchItem>, visited: set<PackageKey>, d: Dependency,
                            requiredBy: string, ghost reach: set<PackageKey>)
      returns (newVisited: set<PackageKey>)
      modifies this`neededItems, this`missingDependencies
      requires AskedBy(repos, visited, d, requiredBy) && Sound(repos, items, visited, neededItems, missingDependencies)
      requires Closed(repos, items, reach) && (Followed(items, d) ==> repos.Providers(d) <= reach)
      ensures Searched(repos, items, visited, newVisited, old(neededItems), neededItems, old(missingDependencies), missingDependencies)
      ensures Handled(repos, items, d, newVisited, neededItems.Keys, missingDependencies)
      ensures newVisited <= visited + reach
      decreases repos.packages.Keys - visited, 1
    {
      newVisited := visited;
      var met := AddNeededItemForRequiredDependency(items, d);
      if met {
        if !SelfProvided(d) {
          ghost var y :| y in Offering(items, d) && neededItems == Recorded(old(neededItems), y, Offering(items, d) - {y});
          AddedIsJustified(repos, items, visited, d, y, old(neededItems), missingDependencies);
          assert y in neededItems.Keys * Offering(items, d);
        }
        return;
      }
      var foundPackage := false;
      var existingPackages := repos.FindPackages(d);
      for i := 0 to |existingPackages|
        invariant Searched(repos, items, visited, newVisited, old(neededItems), neededItems, old(missingDependencies), missingDependencies)
        invariant newVisited <= visited + reach
        invariant foundPackage <==> exists k :: 0 <= k < i && repos.Usable(existingPackages[k])
        invariant forall k :: 0 <= k < i && repos.Usable(existingPackages[k]) ==> existingPackages[k] in newVisited
      {
        if !repos.Usable(existingPackages[i]) {
          continue;
        }
        ghost var v, n, m := newVisited, neededItems, missingDependencies;
        assert existingPackages[i] in existingPackages && existingPackages[i] in repos.Providers(d);
        newVisited := AddNeededBatchItemsForPackage(repos, items, newVisited, existingPackages[i], reach);
        SearchedComposes(repos, items, visited, v, newVisited, old(neededItems), n, neededItems,
                         old(missingDependencies), m, missingDependencies);
        foundPackage := true;
      }
      if !foundPackage {
        assert repos.Providers(d) == {};
        ghost var m := missingDependencies;
        missingDependencies := missingDependencies + [MissingDependency(d, requiredBy)];
        assert missingDependencies[|m|].dependency == d;
        forall p | p in newVisited - visited ensures PackageHandled(repos, items, p, newVisited, neededItems.Keys, missingDependencies) {
          PackageHandledIsMonotone(repos, items, p, newVisited, neededItems.Keys, m, newVisited, neededItems.Keys, missingDependencies);
        }
      } else {
        ghost var k :| 0 <= k < |existingPackages| && repos.Usable(existingPackages[k]);
        assert existingPackages[k] in existingPackages && existingPackages[k] in repos.Providers(d);
      }
    }

    method AddNeededBatchItemsForPackage(repos: Repositories, items: set<BatchItem>, visited: set<PackageKey>,
                                         key: PackageKey, ghost reach: set<PackageKey>)
      returns (newVisited: set<PackageKey>)
      modifies this`neededItems, this`missingDependencies
      requires key in repos.packages && key in reach && Closed(repos, items, reach)
      requires Sound(repos, items, visited, neededItems, missingDependencies)
      ensures Searched(repos, items, visited, newVisited, old(neededItems), neededItems, old(missingDependencies), missingDependencies)
      ensures key in newVisited && newVisited <= visited + reach
      decreases repos.packages.Keys - visited, 0
    {
      newVisited := visited;
      if key in visited {
        return;
      }
      newVisited := visited + {key};
      SoundIsMonotone(repos, items, visited, newVisited, neededItems, missingDependencies);
      var package := repos.packages[key];
      for i := 0 to |package.dependencies|
        invariant Searched(repos, items, visited + {key}, newVisited, old(neededItems), neededItems, old(missingDependencies), missingDependencies)
        invariant newVisited <= visited + reach
        invariant forall k :: 0 <= k < i ==>
                    Handled(repos, items, package.dependencies[k], newVisited, neededItems.Keys, missingDependencies)
      {
        var d := package.dependencies[i];
        ghost var v, n, m := newVisited, neededItems, missingDependencies;
        assert AskedBy(repos, newVisited, d, package.name);
        forall q | Followed(items, d) && q in repos.Providers(d) ensures q in reach {
          assert Leads(repos, items, key, q);
        }
        newVisited := HandleDependency(repos, items, newVisited, d, package.name, reach);
        SearchedComposes(repos, items, visited + {key}, v, newVisited, old(neededItems), n, neededItems,
                         old(missingDependencies), m, missingDependencies);
        forall k | 0 <= k < i ensures Handled(repos, items, package.dependencies[k], newVisited, neededItems.Keys, missingDependencies) {
          HandledIsMonotone(repos, items, package.dependencies[k], v, n.Keys, m, newVisited, neededItems.Keys, missingDependencies);
        }
      }
      assert PackageHandled(repos, items, key, newVisited, neededItems.Keys, missingDependencies);
    }

    /** The outcome of the whole search. */
    ghost predicate Resolved(repos: Repositories, items: set<BatchItem>)
      reads this`neededItems, this`missingDependencies
    {
      && Sound(repos, items, Reach(repos, items), neededItems, missingDependencies)
      && forall d :: Seen(repos, Reach(repos, items), d) ==>
           Handled(repos, items, d, Reach(repos, items), neededItems.Keys, missingDependencies)
    }

    /**
     * Terminates on cyclic package graphs and visits exactly the packages in reach; every dependency seen on the
     * way is handled, and nothing else is recorded.
     */
    method DetermineNeededItems(repos: Repositories, items: set<BatchItem>) returns (visited: set<PackageKey>)
      modifies this`neededItems, this`missingDependencies
      requires neededItems == map[] && missingDependencies == []
      ensures Resolved(repos, items) && visited == Reach(repos, items)
      ensures forall q :: q in visited ==> q in repos.packages && q.db in repos.requiredDbs && q.arch == repos.arch
      ensures forall d, q :: Seen(repos, visited, d) && Followed(items, d) && IsAvailable(repos, q, d) ==> q in visited
    {
      visited := {};
      ghost var reach := Reach(repos, items);
      ReachIsClosed(repos, items);
      for i := 0 to |requiredDependencies|
        invariant Searched(repos, items, {}, visited, map[], neededItems, [], missingDependencies)
        invariant visited <= reach
        invariant forall k :: 0 <= k < i ==>
                    Handled(repos, items, requiredDependencies[k], visited, neededItems.Keys, missingDependencies)
      {
        var d := requiredDependencies[i];
        ghost var v, n, m := visited, neededItems, missingDependencies;
        forall q | Followed(items, d) && q in repos.Providers(d) ensures q in reach {
          assert IsRoot(repos, items, q);
        }
        visited := HandleDependency(repos, items, visited, d, name, reach);
        SearchedComposes(repos, items, {}, v, visited, map[], n, neededItems, [], m, missingDependencies);
        forall k | 0 <= k < i ensures Handled(repos, items, requiredDependencies[k], visited, neededItems.Keys, missingDependencies) {
          HandledIsMonotone(repos, items, requiredDependencies[k], v, n.Keys, m, visited, neededItems.Keys, missingDependencies);
        }
      }
      VisitedIsClosed(repos, items, visited);
      ReachIsLeast(repos, items, visited);
      ReachIsAvailable(repos, items);
    }

    /** A package of the required databases of that architecture provides the dependency. */
    ghost predicate IsAvailable(repos: Repositories, q: PackageKey, d: Dependency) {
      && q in repos.packages && q.db in repos.requiredDbs && q.arch == repos.arch
      && d.name != "" && (Meets(repos.packages[q].name, repos.packages[q].version, d) || Offered(repos.packages[q].provided, d))
    }

    lemma ReachIsAvailable(repos: Repositories, items: set<BatchItem>)
      ensures forall q :: q in Reach(repos, items) ==> q in repos.packages && q.db in repos.requiredDbs && q.arch == repos.arch
      ensures forall d, q :: Seen(repos, Reach(repos, items), d) && Followed(items, d) && IsAvailable(repos, q, d) ==> q in Reach(repos, items)
    {
      var usable := set q | q in repos.packages && q.db in repos.requiredDbs && q.arch == repos.arch;
      ReachIsClosed(repos, items);
      ReachIsLeast(repos, items, usable);
      hide Reach, Offered, Meets;
      forall d, q | Seen(repos, Reach(repos, items), d) && Followed(items, d) && IsAvailable(repos, q, d) ensures q in Reach(repos, items) {
        assert q in repos.Providers(d);
        if d in requiredDependencies {
          assert IsRoot(repos, items, q);
        } else {
          var p :| p in Reach(repos, items) && p in repos.packages && d in repos.packages[p].dependencies;
          assert Leads(repos, items, p, q);
        }
      }
    }

    // -------------------------------------------------------------- in terms of what items and packages say

    /** An item is needed for a dependency that this item does not provide, and the alternatives are all others that do. */
    lemma NeededMeans(repos: Repositories, items: set<BatchItem>, y: BatchItem) returns (d: Dependency)
      requires Resolved(repos, items) && y in neededItems
      ensures Seen(repos, Reach(repos, items), d) && !Offered(providedDependencies, d)
      ensures y in items && y != this && Offered(y.providedDependencies, d)
      ensures forall z :: z in neededItems[y] <==> z in items && z != this && z != y && Offered(z.providedDependencies, d)
    {
      hide Reach, Offered;
      assert Justified(repos, items, Reach(repos, items), y, neededItems[y]);
      d :| Seen(repos, Reach(repos, items), d) && NeededFor(items, d, y, neededItems[y]);
    }

    /**
     * Every dependency of the item, and of everything it pulls in, is provided by the item itself or by a needed item; or no
     * other item provides it, and it is followed into all available providers or reported if there are none.
     */
    lemma ResolvedMeans(repos: Repositories, items: set<BatchItem>, d: Dependency)
      requires Resolved(repos, items)
      requires d in requiredDependencies || exists p :: p in Reach(repos, items) && p in repos.packages && d in repos.packages[p].dependencies
      ensures || Offered(providedDependencies, d) || (exists y :: y in neededItems && Offered(y.providedDependencies, d))
              || ((forall y :: y in items && y != this ==> !Offered(y.providedDependencies, d))
                  && (forall q :: IsAvailable(repos, q, d) ==> q in Reach(repos, items))
                  && ((exists q :: IsAvailable(repos, q, d)) || exists i :: 0 <= i < |missingDependencies| && missingDependencies[i].dependency == d))
    {
      hide Reach, Offered, Meets, Level;
      var reach := Reach(repos, items);
      assert Seen(repos, reach, d) && Handled(repos, items, d, reach, neededItems.Keys, missingDependencies);
      ReachIsAvailable(repos, items);
      if !SelfProvided(d) {
        if Offering(items, d) != {} {
          var y :| y in neededItems.Keys * Offering(items, d);
          assert y in neededItems && Offered(y.providedDependencies, d);
        } else {
          assert forall y :: y in items && y != this && Offered(y.providedDependencies, d) ==> y in Offering(items, d);
          if q :| q in repos.Providers(d) {
            assert IsAvailable(repos, q, d);
          }
        }
      }
    }

    /** A missing dependency is one that no item and no available package provides, reported with who has it. */
    lemma MissingMeans(repos: Repositories, items: set<BatchItem>, i: nat)
      requires Resolved(repos, items) && i < |missingDependencies|
      ensures var d, who := missingDependencies[i].dependency, missingDependencies[i].requiredBy;
              && (|| (who == name && d in requiredDependencies)
                  || exists p :: p in Reach(repos, items) && p in repos.packages && repos.packages[p].name == who && d in repos.packages[p].dependencies)
              && !Offered(providedDependencies, d) && (forall y :: y in items && y != this ==> !Offered(y.providedDependencies, d))
              && forall q :: !IsAvailable(repos, q, d)
    {
      hide Reach, Offered, Meets, Level;
      var m := missingDependencies[i];
      assert m in missingDependencies;
      assert AskedBy(repos, Reach(repos, items), m.dependency, m.requiredBy);
      forall y | y in items && y != this ensures !Offered(y.providedDependencies, m.dependency) {
        assert y !in Offering(items, m.dependency);
      }
      forall q ensures !IsAvailable(repos, q, m.dependency) {
        assert q !in repos.Providers(m.dependency);
      }
    }

    lemma VisitedIsClosed(repos: Repositories, items: set<BatchItem>, visited: set<PackageKey>)
      requires forall p :: p in visited ==> PackageHandled(repos, items, p, visited, neededItems.Keys, missingDependencies)
      requires forall d :: d in requiredDependencies ==> Handled(repos, items, d, visited, neededItems.Keys, missingDependencies)
      ensures Closed(repos, items, visited) && forall q :: IsRoot(repos, items, q) ==> q in visited
    {
    }
  }

  ghost predicate ReportsMissing(missing: seq<MissingDependency>, d: Dependency) {
    exists i :: 0 <= i < |missing| && missing[i].dependency == d
  }
}

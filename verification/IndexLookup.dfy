/**
 * Looking packages up in the inverted index, compared with a linear scan over all stored packages.
 */
module IndexLookup {
  import opened VersionOrder
  import opened Dependencies
  import opened Packages
  import opened PackageStore
  import opened DependencyTable
  import opened DependencyIndex
  import opened PackageUpdater

  // ---------------------------------------------------------------- the scan

  /** The packages that state something meeting the dependency in the given role. */
  ghost function Scan(kind: Kind, packages: Store, dependency: Dependency): set<nat> {
    set id | id in packages && States(kind, packages[id], dependency)
  }

  ghost predicate States(kind: Kind, package: Package, dependency: Dependency) {
    exists k :: k in Keys(kind, package) && Meets(k.name, k.version, dependency)
  }

  lemma ForwardScan(packages: Store, dependency: Dependency)
    requires IsStore(packages) && dependency.name != ""
    ensures Scan(ProvidedDeps, packages, dependency) == set id | id in packages && Provides(packages[id], dependency)
  {
    forall id | id in packages ensures States(ProvidedDeps, packages[id], dependency) <==> Provides(packages[id], dependency) {
      var package := packages[id];
      assert Meets(package.name, package.version, dependency) ==> Key(package.name, package.version) in Keys(ProvidedDeps, package);
      OfferedKeys(package.provided, dependency);
    }
  }

  lemma ReverseScan(packages: Store, dependency: Dependency)
    requires dependency.name != ""
    ensures Scan(RequiredDeps, packages, dependency) ==
            set id | id in packages && (Offered(packages[id].dependencies, dependency) || Offered(packages[id].optionalDependencies, dependency))
  {
    forall id | id in packages
      ensures States(RequiredDeps, packages[id], dependency) <==>
              Offered(packages[id].dependencies, dependency) || Offered(packages[id].optionalDependencies, dependency)
    {
      OfferedKeys(packages[id].dependencies, dependency);
      OfferedKeys(packages[id].optionalDependencies, dependency);
    }
  }

  lemma OfferedKeys(dependencies: seq<Dependency>, dependency: Dependency)
    ensures Offered(dependencies, dependency) <==> exists k :: k in DependencyKeys(dependencies) && Meets(k.name, k.version, dependency)
  {
    if Offered(dependencies, dependency) {
      var i :| 0 <= i < |dependencies| && Meets(dependencies[i].name, dependencies[i].version, dependency);
      assert KeyOf(dependencies[i]) in DependencyKeys(dependencies);
    }
    if k :| k in DependencyKeys(dependencies) && Meets(k.name, k.version, dependency) {
      var d :| d in dependencies && KeyOf(d) == k;
      var i :| 0 <= i < |dependencies| && dependencies[i] == d;
    }
  }

  // ---------------------------------------------------------------- the index lookup

  ghost predicate Matching(table: Table, e: nat, dependency: Dependency) {
    e in table && Meets(table[e].key.name, table[e].key.version, dependency)
  }

  ghost function Relevant(packages: Store, table: Table, dependency: Dependency): set<nat> {
    set e, id | e in table && Matching(table, e, dependency) && id in table[e].relevantPackages && id in packages :: id
  }

  lemma RelevantIsScan(kind: Kind, packages: Store, table: Table, dependency: Dependency)
    requires IsTable(kind, table, packages) && dependency.name != ""
    ensures Relevant(packages, table, dependency) == Scan(kind, packages, dependency)
  {
    hide Meets, Keys;
    forall id | id in Relevant(packages, table, dependency) ensures id in Scan(kind, packages, dependency) {
      var e :| e in table && Matching(table, e, dependency) && id in table[e].relevantPackages;
      assert Row(table[e].key, id) in Rows(table);
      assert States(kind, packages[id], dependency);
    }
    forall id | id in Scan(kind, packages, dependency) ensures id in Relevant(packages, table, dependency) {
      var k :| k in Keys(kind, packages[id]) && Meets(k.name, k.version, dependency);
      assert Row(k, id) in Expected(kind, packages);
      RowsAreListed(table, Row(k, id));
      var e :| e in table && table[e].key == k && id in table[e].relevantPackages;
      assert Matching(table, e, dependency);
    }
  }

  lemma MatchingIff(table: Table, e: nat, dependency: Dependency)
    requires e in EqualRange(table, dependency.name)
    ensures Matching(table, e, dependency) <==> Satisfies(dependency.mode, dependency.version, table[e].key.version)
  {
  }

  lemma MatchingIsInRange(table: Table, dependency: Dependency)
    ensures forall e :: Matching(table, e, dependency) ==> e in EqualRange(table, dependency.name)
  {
  }

  /** Calls of a visitor that stops the search by returning true. */
  ghost predicate IsVisit(visited: seq<nat>, all: set<nat>, stops: nat -> bool) {
    && (forall i :: 0 <= i < |visited| ==> visited[i] in all)
    && (forall i :: 0 <= i < |visited| - 1 ==> !stops(visited[i]))
    && (visited == [] || !stops(visited[|visited| - 1]) ==> forall id :: id in all ==> id in visited)
  }

  /** The inner loop over the packages of one entry. */
  method VisitEntry(packages: Store, ids: set<nat>, stops: nat -> bool, visited: seq<nat>) returns (more: seq<nat>, stopped: bool)
    requires forall i :: 0 <= i < |visited| ==> !stops(visited[i])
    ensures visited <= more
    ensures forall i :: |visited| <= i < |more| ==> more[i] in ids && more[i] in packages
    ensures forall i :: 0 <= i < |more| - 1 ==> !stops(more[i])
    ensures if stopped then more != [] && stops(more[|more| - 1])
            else (forall i :: 0 <= i < |more| ==> !stops(more[i])) && forall id :: id in ids && id in packages ==> id in more
  {
    more, stopped := visited, false;
    var rest := ids;
    while rest != {}
      invariant rest <= ids && visited <= more
      invariant forall i :: |visited| <= i < |more| ==> more[i] in ids && more[i] in packages
      invariant forall i :: 0 <= i < |more| ==> !stops(more[i])
      invariant forall id :: id in ids && id in packages ==> id in rest || id in more
      decreases rest
    {
      var id :| id in rest;
      rest := rest - {id};
      if id in packages {
        more := more + [id];
        if stops(id) {
          return more, true;
        }
      }
    }
  }

  /** Database::providingPackages() on one of the tables */
  method VisitTable(packages: Store, table: Table, dependency: Dependency, stops: nat -> bool) returns (visited: seq<nat>)
    ensures IsVisit(visited, Relevant(packages, table, dependency), stops)
  {
    hide Meets;
    MatchingIsInRange(table, dependency);
    visited := [];
    var rest := EqualRange(table, dependency.name);
    while rest != {}
      invariant rest <= EqualRange(table, dependency.name)
      invariant forall i :: 0 <= i < |visited| ==> visited[i] in Relevant(packages, table, dependency) && !stops(visited[i])
      invariant forall e, id :: Matching(table, e, dependency) && id in table[e].relevantPackages && id in packages ==>
                  e in rest || id in visited
      decreases rest
    {
      var e :| e in rest;
      rest := rest - {e};
      var matches := Matches(dependency.mode, dependency.version, table[e].key.version);
      MatchingIff(table, e, dependency);
      if !matches {
        continue;
      }
      ghost var before := visited;
      var stopped;
      visited, stopped := VisitEntry(packages, table[e].relevantPackages, stops, visited);
      assert forall id :: id in before ==> id in visited;
      if stopped {
        return;
      }
    }
  }

  /** The scan behind a forward or a reverse lookup; nothing is looked up for an empty name. */
  ghost function LinearScan(packages: Store, dependency: Dependency, reverse: bool): set<nat> {
    set id | id in packages && dependency.name != "" &&
             if reverse then Offered(packages[id].dependencies, dependency) || Offered(packages[id].optionalDependencies, dependency)
             else Provides(packages[id], dependency)
  }

  lemma LookupIsScan(tables: map<Kind, Table>, packages: Store, dependency: Dependency, reverse: bool)
    requires IsStore(packages) && IsIndex(tables, packages) && dependency.name != ""
    ensures var kind := if reverse then RequiredDeps else ProvidedDeps;
            Relevant(packages, tables[kind], dependency) == Scan(kind, packages, dependency) == LinearScan(packages, dependency, reverse)
  {
    hide IsTable;
    var kind := if reverse then RequiredDeps else ProvidedDeps;
    RelevantIsScan(kind, packages, tables[kind], dependency);
    if reverse {
      ReverseScan(packages, dependency);
    } else {
      ForwardScan(packages, dependency);
    }
  }

  /** Using the index is the same as asking every stored package. */
  method ProvidingPackages(database: Database, dependency: Dependency, reverse: bool, stops: nat -> bool) returns (visited: seq<nat>)
    requires database.Exact()
    ensures IsVisit(visited, LinearScan(database.packages, dependency, reverse), stops)
  {
    if dependency.name == "" {
      return [];
    }
    hide IsTable, IsVisit, LinearScan;
    LookupIsScan(database.tables, database.packages, dependency, reverse);
    visited := VisitTable(database.packages, database.tables[if reverse then RequiredDeps else ProvidedDeps], dependency, stops);
  }

  /** Libraries have no versions, so every entry of that name matches. */
  method ProvidingPackagesOfLibrary(database: Database, libraryName: string, reverse: bool, stops: nat -> bool) returns (visited: seq<nat>)
    requires database.Exact()
    ensures IsVisit(visited, LibraryScan(database.packages, libraryName, reverse), stops)
  {
    if libraryName == "" {
      return [];
    }
    hide IsTable, IsVisit;
    var library := Dependency(libraryName, "", Any, "");
    var kind := if reverse then RequiredLibs else ProvidedLibs;
    RelevantIsScan(kind, database.packages, database.tables[kind], library);
    LibraryScanIsScan(database.packages, libraryName, reverse);
    visited := VisitTable(database.packages, database.tables[kind], library, stops);
  }

  function LibraryScan(packages: Store, libraryName: string, reverse: bool): set<nat> {
    set id | id in packages && libraryName != "" && libraryName in if reverse then packages[id].libdepends else packages[id].libprovides
  }

  lemma LibraryScanIsScan(packages: Store, libraryName: string, reverse: bool)
    requires libraryName != ""
    ensures Scan(if reverse then RequiredLibs else ProvidedLibs, packages, Dependency(libraryName, "", Any, "")) ==
            LibraryScan(packages, libraryName, reverse)
  {
    var kind := if reverse then RequiredLibs else ProvidedLibs;
    var library := Dependency(libraryName, "", Any, "");
    forall id | id in packages
      ensures States(kind, packages[id], library) <==> libraryName in if reverse then packages[id].libdepends else packages[id].libprovides
    {
      var libraries := if reverse then packages[id].libdepends else packages[id].libprovides;
      if libraryName in libraries {
        assert Key(libraryName, "") in LibraryKeys(libraries);
        assert Meets(libraryName, "", library);
      }
    }
  }

  // ---------------------------------------------------------------- existence

  ghost predicate SomeEntryMatches(table: Table, dependency: Dependency) {
    exists e :: Matching(table, e, dependency)
  }

  /** Database::provides(): whether there is a matching entry, not whether it lists a package. */
  method AnyProvides(database: Database, dependency: Dependency, reverse: bool) returns (res: bool)
    requires database.Exact()
    ensures res <==> dependency.name != "" && SomeEntryMatches(database.tables[if reverse then RequiredDeps else ProvidedDeps], dependency)
    ensures LinearScan(database.packages, dependency, reverse) != {} ==> res
    ensures NoEmptyEntriesIn(database.tables) ==> (res <==> LinearScan(database.packages, dependency, reverse) != {})
  {
    if dependency.name == "" {
      return false;
    }
    hide IsTable, LinearScan, SomeEntryMatches, NoEmptyEntries, Relevant, Scan;
    var table := database.tables[if reverse then RequiredDeps else ProvidedDeps];
    LookupIsScan(database.tables, database.packages, dependency, reverse);
    EntriesOfScan(database.packages, table, if reverse then RequiredDeps else ProvidedDeps, dependency);
    res := AnyEntryMatches(table, dependency);
  }

  method AnyEntryMatches(table: Table, dependency: Dependency) returns (res: bool)
    ensures res <==> SomeEntryMatches(table, dependency)
  {
    hide Meets;
    MatchingIsInRange(table, dependency);
    var rest := EqualRange(table, dependency.name);
    while rest != {}
      invariant rest <= EqualRange(table, dependency.name)
      invariant forall e :: Matching(table, e, dependency) ==> e in rest
      decreases rest
    {
      var e :| e in rest;
      rest := rest - {e};
      MatchingIff(table, e, dependency);
      var matches := Matches(dependency.mode, dependency.version, table[e].key.version);
      if matches {
        return true;
      }
    }
    return false;
  }

  lemma EntriesOfScan(packages: Store, table: Table, kind: Kind, dependency: Dependency)
    requires IsTable(kind, table, packages)
    ensures Relevant(packages, table, dependency) != {} ==> SomeEntryMatches(table, dependency)
    ensures NoEmptyEntries(table) && SomeEntryMatches(table, dependency) ==> Relevant(packages, table, dependency) != {}
  {
    if NoEmptyEntries(table) && SomeEntryMatches(table, dependency) {
      var e :| Matching(table, e, dependency);
      var id :| id in table[e].relevantPackages;
      assert Row(table[e].key, id) in Rows(table);
      assert id in Relevant(packages, table, dependency);
    }
  }

  /**
   * Entries never go away in a batch that does not clear: afterwards a dependency is reported if and only if it was
   * reported before or has a provider now. So the report is wrong exactly if the last provider is gone.
   */
  method ProvidesIsSticky(database: Database, packages: seq<Package>, dependency: Dependency, reverse: bool) returns (before: bool, after: bool)
    requires database.Exact() && NothingStale(packages)
    modifies database
    ensures database.Exact() && database.contents == StoredAll(old(database.contents), packages)
    ensures after <==> before || LinearScan(database.packages, dependency, reverse) != {}
    ensures NoEmptyEntriesIn(old(database.tables)) ==> (before <==> LinearScan(old(database.packages), dependency, reverse) != {})
  {
    before := AnyProvides(database, dependency, reverse);
    ghost var tables := database.tables;
    UpdateInBatch(database, packages, false);
    after := AnyProvides(database, dependency, reverse);
    var kind := if reverse then RequiredDeps else ProvidedDeps;
    if dependency.name != "" {
      ReportedIff(tables[kind], database.packages, database.tables[kind], kind, dependency);
      LookupIsScan(database.tables, database.packages, dependency, reverse);
    }
  }

  lemma ReportedIff(before: Table, packages: Store, table: Table, kind: Kind, dependency: Dependency)
    requires KeepsEntries(before, table) && IsTable(kind, table, packages)
    ensures SomeEntryMatches(table, dependency) <==> SomeEntryMatches(before, dependency) || Relevant(packages, table, dependency) != {}
  {
    hide Meets;
    EntriesOfScan(packages, table, kind, dependency);
    if e :| Matching(table, e, dependency) {
      if IsEmpty(table, e) {
        assert Matching(before, e, dependency);
      } else {
        var id :| id in table[e].relevantPackages;
        assert Row(table[e].key, id) in Rows(table);
        assert id in Relevant(packages, table, dependency);
      }
    }
    if e :| Matching(before, e, dependency) {
      assert Matching(table, e, dependency);
    }
  }

  /** For example, "x" is still reported after the only package providing it has been updated not to. */
  method ProvidedByNobody() returns (database: Database, before: bool, after: bool)
    ensures database.Exact() && database.contents == map["p" := Package("p", "1", [], [], [], {}, {})]
    ensures before && after && LinearScan(database.packages, Dependency("x", "", Any, ""), false) == {}
  {
    hide IsStore, IsContents, IsIndex, LinearScan, Provides, NoEmptyEntriesIn, StoredAll, NothingStale;
    var x := Dependency("x", "", Any, "");
    var first, second := Package("p", "1", [x], [], [], {}, {}), Package("p", "1", [], [], [], {}, {});
    database := new Database();
    var id := database.UpdatePackage(first);
    ExampleUpdates(x, first, second);
    assert database.contents == map["p" := first] && Provides(database.contents["p"], x);
    ProvidedByContents(database.packages, database.contents, x);
    DistinctNamesAreNotStale([second]);
    before, after := ProvidesIsSticky(database, [second], x, false);
    ProvidedByContents(database.packages, database.contents, x);
  }

  lemma ExampleUpdates(x: Dependency, first: Package, second: Package)
    requires x == Dependency("x", "", Any, "")
    requires first == Package("p", "1", [x], [], [], {}, {}) && second == Package("p", "1", [], [], [], {}, {})
    ensures Provides(first, x) && !Provides(second, x)
    ensures StoredAll(map["p" := first], [second]) == map["p" := second]
  {
    assert Meets(first.provided[0].name, first.provided[0].version, x);
    assert [second][..0] == [];
  }

  /** A scan finds something if and only if one of the packages stored by name provides it. */
  lemma ProvidedByContents(packages: Store, contents: map<string, Package>, dependency: Dependency)
    requires IsStore(packages) && IsContents(packages, contents) && dependency.name != ""
    ensures LinearScan(packages, dependency, false) != {} <==> exists name :: name in contents && Provides(contents[name], dependency)
  {
    hide Provides;
    if name :| name in contents && Provides(contents[name], dependency) {
      assert HasName(packages, name);
      var id :| id in packages && packages[id].name == name;
      assert id in LinearScan(packages, dependency, false);
    }
    if id :| id in LinearScan(packages, dependency, false) {
      assert packages[id].name in contents;
    }
  }
}

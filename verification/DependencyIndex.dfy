/**
 * The inverted index of a package database, kept up to date either one package at a time or by an updater
 * that accumulates changes and commits them together.
 */
module DependencyIndex {
  import opened Wrappers
  import opened VersionOrder
  import opened Dependencies
  import opened Packages
  import opened PackageStore
  import opened DependencyTable

  // ---------------------------------------------------------------- what the index should say

  datatype Kind = ProvidedDeps | RequiredDeps | ProvidedLibs | RequiredLibs

  function AllKinds(): set<Kind> {
    {ProvidedDeps, RequiredDeps, ProvidedLibs, RequiredLibs}
  }

  function KeyOf(d: Dependency): Key {
    Key(d.name, d.version)
  }

  function DependencyKeys(dependencies: seq<Dependency>): set<Key> {
    set d | d in dependencies :: KeyOf(d)
  }

  function LibraryKeys(libraries: set<string>): set<Key> {
    set l | l in libraries :: Key(l, "")
  }

  /** The dependencies a package is to be listed under; a package provides itself in its own version. */
  function Keys(kind: Kind, package: Package): set<Key> {
    var keys := match kind
      case ProvidedDeps => {Key(package.name, package.version)} + DependencyKeys(package.provided)
      case RequiredDeps => DependencyKeys(package.dependencies) + DependencyKeys(package.optionalDependencies)
      case ProvidedLibs => LibraryKeys(package.libprovides)
      case RequiredLibs => LibraryKeys(package.libdepends);
    set k | k in keys && k.name != ""
  }

  /** The index that belongs to the stored packages. */
  ghost function Expected(kind: Kind, packages: Store): set<Row> {
    set id, k | id in packages && k in Keys(kind, packages[id]) :: Row(k, id)
  }

  ghost predicate IsTable(kind: Kind, table: Table, packages: Store) {
    UniqueEntries(table) && Rows(table) == Expected(kind, packages)
  }

  ghost predicate IsIndex(tables: map<Kind, Table>, packages: Store) {
    && tables.Keys == AllKinds()
    && forall kind :: kind in tables ==> IsTable(kind, tables[kind], packages)
  }

  // ---------------------------------------------------------------- changing all rows of a package

  /** removePackageDependencies() for one of the tables */
  method RemoveKeys(table: Table, packageID: nat, keys: set<Key>) returns (newTable: Table)
    requires UniqueEntries(table)
    ensures UniqueEntries(newTable) && (NoEmptyEntries(table) ==> NoEmptyEntries(newTable))
    ensures Rows(newTable) == set r | r in Rows(table) && !(r.id == packageID && exists k :: k in keys && k.name == r.key.name)
  {
    newTable := table;
    var rest := keys;
    while rest != {}
      invariant rest <= keys && UniqueEntries(newTable) && (NoEmptyEntries(table) ==> NoEmptyEntries(newTable))
      invariant Rows(newTable) == set r | r in Rows(table) && !(r.id == packageID && exists k :: k in keys - rest && k.name == r.key.name)
      decreases rest
    {
      var key :| key in rest;
      ghost var done := keys - rest;
      rest := rest - {key};
      assert keys - rest == done + {key};
      newTable := RemoveDependency(newTable, packageID, key.name);
    }
    assert keys - rest == keys;
  }

  /** addPackageDependencies() for one of the tables */
  method AddKeys(table: Table, packageID: nat, keys: set<Key>) returns (newTable: Table)
    requires UniqueEntries(table) && forall k :: k in keys ==> k.name != ""
    ensures UniqueEntries(newTable) && (NoEmptyEntries(table) ==> NoEmptyEntries(newTable))
    ensures Rows(newTable) == Rows(table) + set k | k in keys :: Row(k, packageID)
  {
    newTable := table;
    var rest := keys;
    while rest != {}
      invariant rest <= keys && UniqueEntries(newTable) && (NoEmptyEntries(table) ==> NoEmptyEntries(newTable))
      invariant Rows(newTable) == Rows(table) + set k | k in keys - rest :: Row(k, packageID)
      decreases rest
    {
      var key :| key in rest;
      ghost var done := keys - rest;
      rest := rest - {key};
      assert keys - rest == done + {key};
      newTable := AddDependency(newTable, packageID, key);
    }
    assert keys - rest == keys;
  }

  /** One table when a package is replaced, added (nothing old) or removed (nothing new). */
  method ReplaceRows(table: Table, id: nat, old_: set<Key>, new_: set<Key>) returns (newTable: Table)
    requires UniqueEntries(table) && forall k :: k in new_ ==> k.name != ""
    ensures UniqueEntries(newTable) && (NoEmptyEntries(table) ==> NoEmptyEntries(newTable))
    ensures Rows(newTable) ==
            (set r | r in Rows(table) && !(r.id == id && exists k :: k in old_ && k.name == r.key.name)) + set k | k in new_ :: Row(k, id)
  {
    newTable := RemoveKeys(table, id, old_);
    newTable := AddKeys(newTable, id, new_);
  }

  lemma ReplacedIsExpected(kind: Kind, packages: Store, id: nat, package: Package)
    ensures var old_ := if id in packages then Keys(kind, packages[id]) else {};
            Expected(kind, packages[id := package]) ==
            (set r | r in Expected(kind, packages) && !(r.id == id && exists k :: k in old_ && k.name == r.key.name))
            + set k | k in Keys(kind, package) :: Row(k, id)
  {
  }

  lemma RemovedIsExpected(kind: Kind, packages: Store, id: nat)
    requires id in packages
    ensures Expected(kind, packages - {id}) ==
            set r | r in Expected(kind, packages) && !(r.id == id && exists k :: k in Keys(kind, packages[id]) && k.name == r.key.name)
  {
  }

  // ---------------------------------------------------------------- updates one by one

  predicate NoEmptyEntriesIn(tables: map<Kind, Table>) {
    forall kind :: kind in tables ==> NoEmptyEntries(tables[kind])
  }

  class Database {
    var packages: Store
    var tables: map<Kind, Table>
    // the stored packages by name
    ghost var contents: map<string, Package>

    /** The store is sound and every table lists exactly what the stored packages provide and require. */
    ghost predicate Exact()
      reads this
    {
      IsStore(packages) && IsContents(packages, contents) && IsIndex(tables, packages)
    }

    constructor ()
      ensures Exact() && NoEmptyEntriesIn(tables) && contents == map[]
    {
      packages := map[];
      tables := map kind | kind in AllKinds() :: map[];
      contents := map[];
    }

    method UpdatePackage(package: Package) returns (id: nat)
      requires Exact()
      modifies this
      ensures Exact() && (NoEmptyEntriesIn(old(tables)) ==> NoEmptyEntriesIn(tables))
      ensures contents == Stored(old(contents), package)
    {
      hide IsStore, IsContents, IsIndex, NoEmptyEntriesIn;
      if package.name == "" {
        return 0;
      }
      var newPackages, oldEntry;
      newPackages, id, oldEntry := StorePackage(packages, package, contents);
      tables := UpdateTables(tables, packages, id, package, oldEntry);
      packages := newPackages;
      contents := contents[package.name := package];
    }

    method RemovePackage(name: string)
      requires Exact()
      modifies this
      ensures Exact() && (NoEmptyEntriesIn(old(tables)) ==> NoEmptyEntriesIn(tables))
      ensures contents == old(contents) - {name}
    {
      var id := FindByName(packages, name);
      if name == "" || id == 0 {
        assert !HasName(packages, name);
        return;
      }
      hide IsStore, IsContents, IsIndex, NoEmptyEntriesIn;
      RemoveOne(packages, contents, id);
      tables := CleanTables(tables, packages, id);
      packages := packages - {id};
      contents := contents - {name};
    }
  }

  /** A package without a name is not stored. */
  function Stored(contents: map<string, Package>, package: Package): map<string, Package> {
    if package.name == "" then contents else contents[package.name := package]
  }

  method UpdateTable(kind: Kind, table: Table, ghost packages: Store, id: nat, package: Package, oldEntry: Option<Package>)
    returns (newTable: Table)
    requires IsTable(kind, table, packages)
    requires oldEntry == if id in packages then Some(packages[id]) else None
    ensures IsTable(kind, newTable, packages[id := package])
    ensures NoEmptyEntries(table) ==> NoEmptyEntries(newTable)
  {
    hide NoEmptyEntries, UniqueEntries, Rows;
    newTable := ReplaceRows(table, id, if oldEntry.Some? then Keys(kind, oldEntry.value) else {}, Keys(kind, package));
    ReplacedIsExpected(kind, packages, id, package);
  }

  /** All four tables when a package is stored. */
  method UpdateTables(tables: map<Kind, Table>, ghost packages: Store, id: nat, package: Package, oldEntry: Option<Package>)
    returns (newTables: map<Kind, Table>)
    requires IsIndex(tables, packages)
    requires oldEntry == if id in packages then Some(packages[id]) else None
    ensures IsIndex(newTables, packages[id := package])
    ensures NoEmptyEntriesIn(tables) ==> NoEmptyEntriesIn(newTables)
  {
    hide IsTable, NoEmptyEntries;
    newTables := tables;
    var rest := AllKinds();
    while rest != {}
      invariant rest <= AllKinds() == newTables.Keys
      invariant forall kind :: kind in rest ==> newTables[kind] == tables[kind]
      invariant forall kind :: kind in AllKinds() - rest ==>
                  && IsTable(kind, newTables[kind], packages[id := package])
                  && (NoEmptyEntries(tables[kind]) ==> NoEmptyEntries(newTables[kind]))
      decreases rest
    {
      var kind :| kind in rest;
      rest := rest - {kind};
      var table := UpdateTable(kind, newTables[kind], packages, id, package, oldEntry);
      newTables := newTables[kind := table];
    }
  }

  method CleanTable(kind: Kind, table: Table, packages: Store, id: nat) returns (newTable: Table)
    requires IsTable(kind, table, packages) && id in packages
    ensures IsTable(kind, newTable, packages - {id})
    ensures NoEmptyEntries(table) ==> NoEmptyEntries(newTable)
  {
    hide NoEmptyEntries, UniqueEntries, Rows;
    newTable := RemoveKeys(table, id, Keys(kind, packages[id]));
    RemovedIsExpected(kind, packages, id);
  }

  /** All four tables when a package is removed. */
  method CleanTables(tables: map<Kind, Table>, packages: Store, id: nat) returns (newTables: map<Kind, Table>)
    requires IsIndex(tables, packages) && id in packages
    ensures IsIndex(newTables, packages - {id})
    ensures NoEmptyEntriesIn(tables) ==> NoEmptyEntriesIn(newTables)
  {
    hide IsTable, NoEmptyEntries;
    newTables := tables;
    var rest := AllKinds();
    while rest != {}
      invariant rest <= AllKinds() == newTables.Keys
      invariant forall kind :: kind in rest ==> newTables[kind] == tables[kind]
      invariant forall kind :: kind in AllKinds() - rest ==>
                  && IsTable(kind, newTables[kind], packages - {id})
                  && (NoEmptyEntries(tables[kind]) ==> NoEmptyEntries(newTables[kind]))
      decreases rest
    {
      var kind :| kind in rest;
      rest := rest - {kind};
      var table := CleanTable(kind, newTables[kind], packages, id);
      newTables := newTables[kind := table];
    }
  }
}

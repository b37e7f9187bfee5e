/**
 * The stored packages of a database: an id and a package each, with an index by name.
 */
module PackageStore {
  import opened Wrappers
  import opened Packages

  type Store = map<nat, Package>

  predicate IsStore(packages: Store) {
    && (forall id :: id in packages ==> id != 0 && packages[id].name != "")
    && (forall i, j :: i in packages && j in packages && packages[i].name == packages[j].name ==> i == j)
  }

  predicate HasName(packages: Store, name: string) {
    exists id :: id in packages && packages[id].name == name
  }

  /** `contents` are the stored packages by name, regardless of their ids. */
  predicate IsContents(packages: Store, contents: map<string, Package>) {
    && (forall id :: id in packages ==> packages[id].name in contents && contents[packages[id].name] == packages[id])
    && (forall name :: name in contents ==> HasName(packages, name))
  }

  method FindByName(packages: Store, name: string) returns (id: nat)
    requires IsStore(packages)
    ensures if id in packages then packages[id].name == name else id == 0 && forall i :: i in packages ==> packages[i].name != name
  {
    id := 0;
    var rest := packages.Keys;
    while rest != {}
      invariant rest <= packages.Keys && forall i :: i in packages && packages[i].name == name ==> i in rest
      decreases rest
    {
      var i :| i in rest;
      rest := rest - {i};
      if packages[i].name == name {
        return i;
      }
    }
  }

  ghost predicate StoredAt(packages: Store, package: Package, id: nat) {
    && id != 0
    && (id in packages ==> packages[id].name == package.name)
    && (id !in packages ==> forall i :: i in packages ==> packages[i].name != package.name)
  }

  lemma StoreOne(packages: Store, contents: map<string, Package>, package: Package, id: nat)
    requires IsStore(packages) && IsContents(packages, contents) && package.name != "" && StoredAt(packages, package, id)
    ensures IsStore(packages[id := package]) && IsContents(packages[id := package], contents[package.name := package])
  {
    var more := packages[id := package];
    forall name | name in contents[package.name := package] ensures HasName(more, name) {
      if name == package.name {
        assert more[id].name == name;
      } else {
        var i :| i in packages && packages[i].name == name;
        assert more[i].name == name;
      }
    }
  }

  lemma RemoveOne(packages: Store, contents: map<string, Package>, id: nat)
    requires IsStore(packages) && IsContents(packages, contents) && id in packages
    ensures IsStore(packages - {id}) && IsContents(packages - {id}, contents - {packages[id].name})
  {
    var less := packages - {id};
    forall name | name in contents && name != packages[id].name ensures HasName(less, name) {
      var i :| i in packages && packages[i].name == name;
      assert less[i].name == name;
    }
  }

  /** A package replaces the stored one of the same name, or gets a new id. */
  method StorePackage(packages: Store, package: Package, ghost contents: map<string, Package>)
    returns (newPackages: Store, id: nat, oldEntry: Option<Package>)
    requires IsStore(packages) && IsContents(packages, contents) && package.name != ""
    ensures newPackages == packages[id := package] && id != 0 && (id in packages ==> packages[id].name == package.name)
    ensures IsStore(newPackages) && IsContents(newPackages, contents[package.name := package])
    ensures oldEntry == if id in packages then Some(packages[id]) else None
  {
    id := FindByName(packages, package.name);
    oldEntry := if id in packages then Some(packages[id]) else None;
    if id == 0 {
      id := NewID(packages.Keys);
    }
    newPackages := packages[id := package];
    StoreOne(packages, contents, package, id);
  }
}

/**
 * Packages as far as dependency resolution looks at them.
 */
module Packages {
  import opened VersionOrder
  import opened Dependencies

  datatype Package = Package(
    name: string,
    version: string,
    provided: seq<Dependency>,
    dependencies: seq<Dependency>,
    optionalDependencies: seq<Dependency>,
    libprovides: set<string>,
    libdepends: set<string>)

  /** Something called `name` in version `version` meets the dependency. */
  ghost predicate Meets(name: string, version: string, dependency: Dependency) {
    name == dependency.name && Satisfies(dependency.mode, dependency.version, version)
  }

  ghost predicate Offered(provided: seq<Dependency>, dependency: Dependency) {
    exists i :: 0 <= i < |provided| && Meets(provided[i].name, provided[i].version, dependency)
  }

  /** The package meets the dependency by its own name and version or by something it provides. */
  ghost predicate Provides(package: Package, dependency: Dependency) {
    Meets(package.name, package.version, dependency) || Offered(package.provided, dependency)
  }

  /** A package or something it provides has to have the name and a version as demanded - here in numbers. */
  lemma ProvidesMeans(package: Package, dependency: Dependency)
    requires package.provided == [] && IsNumber(package.version) && IsNumber(dependency.version)
    ensures Provides(package, dependency) <==>
            package.name == dependency.name && ComparesTo(dependency.mode, Value(package.version), Value(dependency.version))
    ensures Offered([Dependency(package.name, package.version, EqualTo, "")], dependency) <==> Provides(package, dependency)
  {
    WhatModesMean(dependency.version, package.version);
    ModesCompareNumbers(dependency.version, package.version);
    var provided := [Dependency(package.name, package.version, EqualTo, "")];
    assert provided[0].name == package.name && provided[0].version == package.version;
  }

  predicate ComparesTo(mode: DependencyMode, provided: nat, required: nat) {
    match mode
    case Any => true
    case EqualTo => provided == required
    case GreaterEqual => provided >= required
    case GreaterThan => provided > required
    case LessEqual => provided <= required
    case LessThan => provided < required
  }

  /** DependencySet::provides() */
  method SetProvides(provided: seq<Dependency>, dependency: Dependency) returns (res: bool)
    ensures res <==> Offered(provided, dependency)
  {
    for i := 0 to |provided|
      invariant forall k :: 0 <= k < i ==> !Meets(provided[k].name, provided[k].version, dependency)
    {
      if provided[i].name == dependency.name {
        var matches := Matches(dependency.mode, dependency.version, provided[i].version);
        if matches {
          return true;
        }
      }
    }
    return false;
  }

  method ProvidesDependency(package: Package, dependency: Dependency) returns (res: bool)
    ensures res <==> Provides(package, dependency)
  {
    if package.name == dependency.name {
      var matches := Matches(dependency.mode, dependency.version, package.version);
      if matches {
        return true;
      }
    }
    res := SetProvides(package.provided, dependency);
  }
}

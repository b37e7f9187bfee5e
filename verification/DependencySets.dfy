/**
 * Sets of dependencies as they are collected for build items: entries by name and version, each with the
 * packages it is relevant for. Packages are known by their names here.
 */
module DependencySets {
  import opened Sequences
  import opened VersionOrder
  import opened Dependencies
  import opened Packages

  datatype Detail = Detail(name: string, version: string, mode: DependencyMode, relevantPackages: set<string>)

  /** A dependency and the package that has it. */
  datatype Source = Source(dependency: Dependency, package: string)

  predicate IsFor(e: Detail, d: Dependency) {
    e.name == d.name && e.version == d.version
  }

  predicate SameEntry(d: Dependency, e: Dependency) {
    d.name == e.name && d.version == e.version
  }

  predicate OneEntryEach(entries: seq<Detail>) {
    forall i, j :: 0 <= i < j < |entries| ==> entries[i].name != entries[j].name || entries[i].version != entries[j].version
  }

  /** The entries of a set as dependencies. */
  function AsDependencies(entries: seq<Detail>): (dependencies: seq<Dependency>)
    ensures |dependencies| == |entries|
    ensures forall i :: 0 <= i < |entries| ==> dependencies[i] == Dependency(entries[i].name, entries[i].version, entries[i].mode, "")
  {
    seq(|entries|, i requires 0 <= i < |entries| => Dependency(entries[i].name, entries[i].version, entries[i].mode, ""))
  }

  ghost predicate SetOffers(entries: seq<Detail>, d: Dependency) {
    Offered(AsDependencies(entries), d)
  }

  predicate IsAt(entries: seq<Detail>, d: Dependency, i: nat) {
    i < |entries| && IsFor(entries[i], d) && forall j :: 0 <= j < i ==> !IsFor(entries[j], d)
  }

  /** The position of the entry for a dependency; the length if there is none. */
  ghost function Position(entries: seq<Detail>, d: Dependency): (i: nat)
    ensures i <= |entries| && (i < |entries| ==> IsFor(entries[i], d))
    ensures forall j :: 0 <= j < i ==> !IsFor(entries[j], d)
  {
    if i: nat :| IsAt(entries, d, i) then i
    else
      NoneIsFor(entries, d, |entries|);
      |entries|
  }

  lemma {:induction false} NoneIsFor(entries: seq<Detail>, d: Dependency, n: nat)
    requires n <= |entries| && forall i: nat :: !IsAt(entries, d, i)
    ensures forall j :: 0 <= j < n ==> !IsFor(entries[j], d)
  {
    if n > 0 {
      NoneIsFor(entries, d, n - 1);
      assert !IsAt(entries, d, n - 1);
    }
  }

  ghost function Added(entries: seq<Detail>, d: Dependency, package: string): seq<Detail> {
    var i := Position(entries, d);
    if i < |entries| then entries[i := entries[i].(relevantPackages := entries[i].relevantPackages + {package})]
    else entries + [Detail(d.name, d.version, d.mode, {package})]
  }

  /** The package is taken out of all entries of that name, and entries without packages go away. */
  function Without(entries: seq<Detail>, name: string, package: string): seq<Detail> {
    if entries == [] then []
    else
      var less := entries[0].relevantPackages - {package};
      (if entries[0].name != name then [entries[0]] else if less == {} then [] else [entries[0].(relevantPackages := less)])
      + Without(entries[1..], name, package)
  }

  function WithoutName(entries: seq<Detail>, name: string): seq<Detail> {
    if entries == [] then [] else (if entries[0].name != name then [entries[0]] else []) + WithoutName(entries[1..], name)
  }

  class DependencySet {
    var entries: seq<Detail>

    constructor ()
      ensures entries == []
    {
      entries := [];
    }

    method FindExact(d: Dependency) returns (i: nat)
      ensures i == Position(entries, d)
    {
      i := 0;
      while i < |entries|
        invariant i <= |entries| && forall j :: 0 <= j < i ==> !IsFor(entries[j], d)
      {
        if entries[i].name == d.name && entries[i].version == d.version {
          return;
        }
        i := i + 1;
      }
    }

    /** Whether an entry of that name has a matching version. */
    method ProvidesDependency(d: Dependency) returns (res: bool)
      ensures res <==> SetOffers(entries, d)
    {
      res := SetProvides(AsDependencies(entries), d);
    }

    method Add(d: Dependency, relevantPackage: string)
      modifies this
      ensures entries == Added(old(entries), d, relevantPackage)
    {
      var i := FindExact(d);
      if i == |entries| {
        entries := entries + [Detail(d.name, d.version, d.mode, {relevantPackage})];
      } else {
        entries := entries[i := entries[i].(relevantPackages := entries[i].relevantPackages + {relevantPackage})];
      }
    }

    /** After erasing an entry the search starts again with the first one of that name. */
    method Remove(d: Dependency, relevantPackage: string)
      modifies this
      ensures entries == Without(old(entries), d.name, relevantPackage)
    {
      var i := 0;
      while i < |entries|
        invariant 0 <= i <= |entries|
        invariant Without(entries, d.name, relevantPackage) == Without(old(entries), d.name, relevantPackage)
        invariant forall j :: 0 <= j < i ==> IsClean(entries[j], d.name, relevantPackage)
        decreases |entries|, |entries| - i
      {
        if entries[i].name != d.name {
          i := i + 1;
          continue;
        }
        var less := entries[i].relevantPackages - {relevantPackage};
        if less == {} {
          WithoutErased(entries, i, d.name, relevantPackage);
          entries := entries[..i] + entries[i + 1..];
          i := 0;
        } else {
          WithoutReduced(entries, i, d.name, relevantPackage);
          entries := entries[i := entries[i].(relevantPackages := less)];
          i := i + 1;
        }
      }
      CleanStays(entries, d.name, relevantPackage);
    }
  }

  predicate IsClean(e: Detail, name: string, package: string) {
    e.name == name ==> package !in e.relevantPackages && e.relevantPackages != {}
  }

  lemma {:induction false} CleanStays(entries: seq<Detail>, name: string, package: string)
    requires forall i :: 0 <= i < |entries| ==> IsClean(entries[i], name, package)
    ensures Without(entries, name, package) == entries
  {
    if entries != [] {
      assert entries[0].name == name ==> entries[0].relevantPackages - {package} == entries[0].relevantPackages;
      CleanStays(entries[1..], name, package);
    }
  }

  lemma {:induction false} WithoutErased(entries: seq<Detail>, i: nat, name: string, package: string)
    requires i < |entries| && entries[i].name == name && entries[i].relevantPackages - {package} == {}
    ensures Without(entries[..i] + entries[i + 1..], name, package) == Without(entries, name, package)
  {
    var less := entries[..i] + entries[i + 1..];
    if i == 0 {
      assert less == entries[1..];
    } else {
      WithoutErased(entries[1..], i - 1, name, package);
      assert less[1..] == entries[1..][..i - 1] + entries[1..][i..];
    }
  }

  lemma {:induction false} WithoutReduced(entries: seq<Detail>, i: nat, name: string, package: string)
    requires i < |entries| && entries[i].name == name && entries[i].relevantPackages - {package} != {}
    ensures Without(entries[i := entries[i].(relevantPackages := entries[i].relevantPackages - {package})], name, package)
            == Without(entries, name, package)
  {
    var less := entries[i].relevantPackages - {package};
    var reduced := entries[i := entries[i].(relevantPackages := less)];
    if i == 0 {
      assert less - {package} == less;
      assert reduced[1..] == entries[1..];
    } else {
      WithoutReduced(entries[1..], i - 1, name, package);
      assert reduced[1..] == entries[1..][i - 1 := entries[1..][i - 1].(relevantPackages := less)];
    }
  }

  // ---------------------------------------------------------------- what a set is good for

  lemma {:induction false} AddKeepsEntries(entries: seq<Detail>, d: Dependency, package: string)
    requires OneEntryEach(entries)
    ensures OneEntryEach(Added(entries, d, package))
  {
  }

  lemma {:induction false} AddOffers(entries: seq<Detail>, d: Dependency, package: string, q: Dependency)
    ensures SetOffers(Added(entries, d, package), q) <==> SetOffers(entries, q) || Meets(d.name, d.version, q)
  {
    hide Meets;
    var i, more := Position(entries, d), Added(entries, d, package);
    var before, after := AsDependencies(entries), AsDependencies(more);
    assert forall j :: 0 <= j < |before| ==> after[j].name == before[j].name && after[j].version == before[j].version;
    assert after[i].name == d.name && after[i].version == d.version;
  }

  /** Removing what has just been added restores the set, if the package had nothing of that name before. */
  lemma {:induction false} RemoveUndoesAdd(entries: seq<Detail>, d: Dependency, package: string)
    requires forall i :: 0 <= i < |entries| ==> IsClean(entries[i], d.name, package)
    ensures Without(Added(entries, d, package), d.name, package) == entries
  {
    var i, more := Position(entries, d), Added(entries, d, package);
    CleanStays(entries, d.name, package);
    if i < |entries| {
      assert more[i].relevantPackages - {package} == entries[i].relevantPackages;
      WithoutReduced(more, i, d.name, package);
      assert more[i := more[i].(relevantPackages := entries[i].relevantPackages)] == entries;
    } else {
      assert more[i].relevantPackages - {package} == {};
      WithoutErased(more, i, d.name, package);
      assert more[..i] + more[i + 1..] == entries;
    }
  }

  /** The set after adding dependencies one after the other. */
  ghost function Collected(sources: seq<Source>): seq<Detail> {
    if sources == [] then []
    else
      var n := |sources| - 1;
      Added(Collected(sources[..n]), sources[n].dependency, sources[n].package)
  }

  function DependenciesIn(sources: seq<Source>): (dependencies: seq<Dependency>)
    ensures |dependencies| == |sources| && forall i :: 0 <= i < |sources| ==> dependencies[i] == sources[i].dependency
  {
    seq(|sources|, i requires 0 <= i < |sources| => sources[i].dependency)
  }

  /** A set offers exactly what the dependencies put into it offer. */
  lemma {:induction false} CollectedOffers(sources: seq<Source>, q: Dependency)
    ensures SetOffers(Collected(sources), q) <==> Offered(DependenciesIn(sources), q)
  {
    if sources != [] {
      var n := |sources| - 1;
      var all := DependenciesIn(sources);
      CollectedOffers(sources[..n], q);
      AddOffers(Collected(sources[..n]), sources[n].dependency, sources[n].package, q);
      hide Collected, SetOffers, Added;
      assert forall i :: 0 <= i < n ==> DependenciesIn(sources[..n])[i] == all[i];
      assert all[n] == sources[n].dependency;
    }
  }

  /** No dependency has been added before with the same name and version. */
  predicate IsFirst(sources: seq<Source>, i: nat)
    requires i < |sources|
  {
    forall j :: 0 <= j < i ==> !SameEntry(sources[j].dependency, sources[i].dependency)
  }

  /** The entry of a dependency carries the mode of the first one added with that name and version. */
  ghost predicate CarriesModeOf(entries: seq<Detail>, d: Dependency) {
    Position(entries, d) < |entries| && entries[Position(entries, d)].mode == d.mode
  }

  lemma {:induction false} FirstModeWins(sources: seq<Source>, i: nat)
    requires i < |sources| && IsFirst(sources, i)
    ensures OneEntryEach(Collected(sources)) && CarriesModeOf(Collected(sources), sources[i].dependency)
    decreases |sources|
  {
    var n := |sources| - 1;
    CollectedIsSet(sources);
    CollectedIsSet(sources[..n]);
    if i < n {
      assert IsFirst(sources[..n], i);
      FirstModeWins(sources[..n], i);
      AddKeepsModes(Collected(sources[..n]), sources[n].dependency, sources[n].package, sources[i].dependency);
    } else {
      NotCollected(sources[..n], sources[n].dependency);
      FirstEntry(Collected(sources[..n]), sources[n].dependency, sources[n].package);
    }
  }

  lemma {:induction false} FirstEntry(entries: seq<Detail>, d: Dependency, package: string)
    requires Position(entries, d) == |entries|
    ensures CarriesModeOf(Added(entries, d, package), d)
  {
    var more := Added(entries, d, package);
    assert more[|entries|] == Detail(d.name, d.version, d.mode, {package});
    assert forall j :: 0 <= j < |entries| ==> more[j] == entries[j];
  }

  lemma {:induction false} AddKeepsModes(entries: seq<Detail>, d: Dependency, package: string, e: Dependency)
    requires CarriesModeOf(entries, e)
    ensures CarriesModeOf(Added(entries, d, package), e)
  {
    var more, i := Added(entries, d, package), Position(entries, e);
    assert forall j :: 0 <= j < |entries| ==>
      (more[j].name == entries[j].name && more[j].version == entries[j].version && more[j].mode == entries[j].mode);
    assert Position(more, e) == i;
  }

  lemma {:induction false} CollectedIsSet(sources: seq<Source>)
    ensures OneEntryEach(Collected(sources))
  {
    if sources != [] {
      var n := |sources| - 1;
      CollectedIsSet(sources[..n]);
      AddKeepsEntries(Collected(sources[..n]), sources[n].dependency, sources[n].package);
    }
  }

  lemma {:induction false} NotCollected(sources: seq<Source>, d: Dependency)
    requires forall j :: 0 <= j < |sources| ==> !SameEntry(sources[j].dependency, d)
    ensures Position(Collected(sources), d) == |Collected(sources)|
  {
    if sources != [] {
      var n := |sources| - 1;
      var before := Collected(sources[..n]);
      NotCollected(sources[..n], d);
      var more := Added(before, sources[n].dependency, sources[n].package);
      assert forall j :: 0 <= j < |before| ==> !IsFor(before[j], d);
      assert forall j :: 0 <= j < |before| ==> more[j].name == before[j].name && more[j].version == before[j].version;
      assert forall j :: 0 <= j < |more| ==> !IsFor(more[j], d);
    }
  }

  /** A dependency is kept as it is exactly if the first one of that name and version had the same mode. */
  lemma {:induction false} KeptIffFirstAgrees(sources: seq<Source>, first: nat, i: nat)
    requires first <= i < |sources| && IsFirst(sources, first) && SameEntry(sources[first].dependency, sources[i].dependency)
    ensures CarriesModeOf(Collected(sources), sources[i].dependency) <==> sources[i].dependency.mode == sources[first].dependency.mode
  {
    FirstModeWins(sources, first);
    var entries := Collected(sources);
    SamePosition(entries, sources[first].dependency, sources[i].dependency);
  }

  lemma {:induction false} SamePosition(entries: seq<Detail>, d: Dependency, e: Dependency)
    requires SameEntry(d, e)
    ensures Position(entries, d) == Position(entries, e)
  {
    assert forall i :: 0 <= i < |entries| ==> (IsFor(entries[i], d) <==> IsFor(entries[i], e));
  }

  /** So an exact version that is required beside a minimum of the same version is lost. */
  lemma {:induction false} ConstraintIsLost(package: string)
    ensures var minimum, exact := Dependency("foo", "1", GreaterEqual, ""), Dependency("foo", "1", EqualTo, "");
            Collected([Source(minimum, package), Source(exact, package)]) == [Detail("foo", "1", GreaterEqual, {package})]
  {
    var minimum, exact := Source(Dependency("foo", "1", GreaterEqual, ""), package), Source(Dependency("foo", "1", EqualTo, ""), package);
    assert [minimum, exact][..1] == [minimum] && [minimum][..0] == [];
    assert Collected([minimum]) == [Detail("foo", "1", GreaterEqual, {package})];
    assert IsFor(Collected([minimum])[0], exact.dependency);
    assert {package} + {package} == {package};
  }
}

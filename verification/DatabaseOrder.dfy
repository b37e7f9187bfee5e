/**
 * The order of package databases by their dependencies, and the databases that require a database.
 */
module DatabaseOrder {
  import opened Wrappers
  import opened Sequences
  import opened Reachability

  // the database of the AUR is not one of those configured
  datatype Database = Database(name: string, arch: string, dependencies: seq<string>, configured: bool)

  /** All databases, identified by their position; only the configured ones can be found. */
  type Config = seq<Database>

  predicate IsNamed(db: Database, name: string, arch: string) {
    db.configured && db.name == name && (arch == "" || db.arch == arch)
  }

  function Find(config: Config, name: string, arch: string): (res: Option<nat>)
    ensures match res
            case Some(d) => d < |config| && IsNamed(config[d], name, arch) && forall i :: 0 <= i < d ==> !IsNamed(config[i], name, arch)
            case None => forall i :: 0 <= i < |config| ==> !IsNamed(config[i], name, arch)
  {
    if config == [] then None
    else match Find(config[..|config| - 1], name, arch)
      case Some(d) => Some(d)
      case None => if IsNamed(config[|config| - 1], name, arch) then Some(|config| - 1) else None
  }

  method FindDatabase(config: Config, name: string, arch: string) returns (res: Option<nat>)
    ensures res == Find(config, name, arch)
  {
    for i := 0 to |config|
      invariant forall j :: 0 <= j < i ==> !IsNamed(config[j], name, arch)
    {
      if IsNamed(config[i], name, arch) {
        return Some(i);
      }
    }
    return None;
  }

  /** From each database to those it depends on, as far as they are configured. */
  function Dependencies(config: Config): Next {
    map d: nat | 0 <= d < |config| :: DependenciesOf(config, config[d])
  }

  function DependenciesOf(config: Config, db: Database): set<nat> {
    set dependency | dependency in db.dependencies && Find(config, dependency, db.arch).Some? :: Find(config, dependency, db.arch).value
  }

  predicate IsMissing(config: Config, d: nat, dependency: string) {
    d < |config| && dependency in config[d].dependencies && Find(config, dependency, config[d].arch) == None
  }

  ghost predicate NothingMissing(config: Config, d: nat) {
    forall dependency :: !IsMissing(config, d, dependency)
  }

  datatype OrderError = Cycle(at: nat) | Missing(dependency: string, of: nat)

  /** What is reported is really wrong with something the root depends on. */
  ghost predicate IsError(config: Config, root: nat, error: OrderError) {
    match error
    case Cycle(at) => Reaches(Dependencies(config), root, at) && OnCycle(Dependencies(config), at)
    case Missing(dependency, of) => Reaches(Dependencies(config), root, of) && IsMissing(config, of, dependency)
  }

  // ---------------------------------------------------------------- the two-coloured search

  /** `done` are the finished databases in order; `stack` are those being processed. */
  ghost predicate IsState(config: Config, done: seq<nat>, visited: map<nat, bool>, stack: seq<nat>) {
    && IsOrdered(Dependencies(config), done) && NoDuplicates(done) && (forall d :: d in done ==> NothingMissing(config, d))
    && (forall d :: d in visited ==> d < |config|)
    && (forall d :: d in visited && visited[d] <==> d in done)
    && (forall d :: d in visited && !visited[d] <==> d in stack)
    && NoDuplicates(stack) && (stack == [] || IsPath(Dependencies(config), stack))
  }

  /** Everything added has been reached from `d`. */
  ghost predicate Extends(next: Next, d: nat, before: seq<nat>, after: seq<nat>) {
    forall x :: (x in before ==> x in after) && (x in after ==> x in before || Reaches(next, d, x))
  }

  lemma Enter(config: Config, done: seq<nat>, visited: map<nat, bool>, stack: seq<nat>, d: nat)
    requires IsState(config, done, visited, stack) && d < |config| && d !in visited && IsPath(Dependencies(config), stack + [d])
    ensures IsState(config, done, visited[d := false], stack + [d])
  {
  }

  lemma Leave(config: Config, done: seq<nat>, visited: map<nat, bool>, stack: seq<nat>, d: nat)
    requires d < |config| && IsState(config, done, visited, stack + [d])
    requires NothingMissing(config, d) && DependenciesOf(config, config[d]) <= Elements(done)
    ensures IsState(config, done + [d], visited[d := true], stack)
  {
    StackPop(config, stack, d);
    hide NothingMissing, IsPath, NoDuplicates, DependenciesOf, IsOrdered;
    assert (stack + [d])[|stack|] == d;
    OrderedAppend(Dependencies(config), done, d);
    assert forall x :: x in stack + [d] <==> x in stack || x == d;
    assert forall x :: x in done + [d] <==> x in done || x == d;
  }

  lemma StackPop(config: Config, stack: seq<nat>, d: nat)
    requires NoDuplicates(stack + [d]) && IsPath(Dependencies(config), stack + [d])
    ensures NoDuplicates(stack) && d !in stack && (stack == [] || IsPath(Dependencies(config), stack))
  {
    var more := stack + [d];
    forall i | 0 <= i < |stack| ensures stack[i] != d {
      assert more[i] != more[|stack|];
    }
    forall i, j | 0 <= i < j < |stack| ensures stack[i] != stack[j] {
      assert more[i] != more[j];
    }
    forall i, j | 0 <= i && j == i + 1 && j < |stack| ensures Step(Dependencies(config), stack[i], stack[j]) {
      assert Step(Dependencies(config), more[i], more[j]);
    }
  }

  /** Coming back to a database that is being processed closes a cycle. */
  lemma BackIsCycle(config: Config, stack: seq<nat>, d: nat)
    requires IsPath(Dependencies(config), stack + [d]) && d in stack
    ensures IsError(config, (stack + [d])[0], Cycle(d))
  {
    var next, path := Dependencies(config), stack + [d];
    var i :| 0 <= i < |stack| && stack[i] == d;
    PathReaches(next, path, 0, i);
    PathReaches(next, path, i + 1, |stack|);
    assert Step(next, path[i], path[i + 1]);
  }

  /** The root is left out of the result on request. */
  function Finished(result: seq<nat>, d: nat, addSelf: bool): seq<nat> {
    if addSelf then result else result + [d]
  }

  ghost function Unvisited(config: Config, visited: map<nat, bool>): set<nat> {
    Dependencies(config).Keys - visited.Keys
  }

  class DependencySearch {
    const config: Config
    var result: seq<nat>
    var visited: map<nat, bool>

    constructor (config: Config)
      ensures this.config == config && result == [] && visited == map[]
    {
      this.config, result, visited := config, [], map[];
    }

    method AddDatabaseDependencies(d: nat, addSelf: bool, ghost stack: seq<nat>) returns (error: Option<OrderError>)
      requires d < |config| && IsState(config, result, visited, stack) && IsPath(Dependencies(config), stack + [d])
      requires addSelf || visited == map[]
      modifies this
      ensures match error
              case Some(e) => IsError(config, (stack + [d])[0], e)
              case None =>
                var done := Finished(result, d, addSelf);
                && IsState(config, done, visited, stack) && d in done && Extends(Dependencies(config), d, old(result), done)
                && old(visited).Keys <= visited.Keys
      decreases Unvisited(config, visited), 0
    {
      if d in visited && visited[d] {
        return None;
      }
      if d in visited {
        BackIsCycle(config, stack, d);
        return Some(Cycle(d));
      }
      hide IsState, IsError, IsPath, Extends, NothingMissing, Dependencies, DependenciesOf;
      Enter(config, result, visited, stack, d);
      visited := visited[d := false];
      error := AddAll(d, stack);
      if error.Some? {
        return;
      }
      Leave(config, result, visited, stack, d);
      ExtendsBySelf(config, d, old(result), result);
      if addSelf {
        result := result + [d];
      }
      visited := visited[d := true];
    }

    /** The dependencies first. */
    method AddAll(d: nat, ghost stack: seq<nat>) returns (error: Option<OrderError>)
      requires d < |config| && d in visited && IsState(config, result, visited, stack + [d]) && IsPath(Dependencies(config), stack + [d])
      modifies this
      ensures match error
              case Some(e) => IsError(config, (stack + [d])[0], e)
              case None =>
                && IsState(config, result, visited, stack + [d]) && Extends(Dependencies(config), d, old(result), result)
                && old(visited).Keys <= visited.Keys
                && NothingMissing(config, d) && DependenciesOf(config, config[d]) <= Elements(result)
      decreases Unvisited(config, visited), 1
    {
      hide IsState, IsError, IsPath, Reaches, Step, Dependencies, DependenciesOf, NothingMissing, IsFound;
      error := None;
      ghost var next, start := Dependencies(config), result;
      for k := 0 to |config[d].dependencies|
        invariant error == None && IsState(config, result, visited, stack + [d]) && Extends(next, d, start, result)
        invariant old(visited).Keys <= visited.Keys
        invariant FoundUpTo(config, d, k, result)
      {
        var dependency := config[d].dependencies[k];
        var requiredDb := FindDatabase(config, dependency, config[d].arch);
        if requiredDb == None {
          MissingIsError(config, stack, d, dependency);
          return Some(Missing(dependency, d));
        }
        StepToRequired(config, stack, d, dependency);
        ghost var before := result;
        assert (stack + [d] + [requiredDb.value])[0] == (stack + [d])[0];
        error := AddDatabaseDependencies(requiredDb.value, true, stack + [d]);
        if error.Some? {
          return;
        }
        ExtendsFurther(next, d, requiredDb.value, start, before, result);
        FoundOneMore(config, d, k, before, result);
      }
      AllFound(config, d, result);
    }
  }

  lemma MissingIsError(config: Config, stack: seq<nat>, d: nat, dependency: string)
    requires IsPath(Dependencies(config), stack + [d]) && IsMissing(config, d, dependency)
    ensures IsError(config, (stack + [d])[0], Missing(dependency, d))
  {
    PathReaches(Dependencies(config), stack + [d], 0, |stack|);
  }

  lemma StepToRequired(config: Config, stack: seq<nat>, d: nat, dependency: string)
    requires IsPath(Dependencies(config), stack + [d]) && d < |config| && dependency in config[d].dependencies
    requires Find(config, dependency, config[d].arch).Some?
    ensures var e := Find(config, dependency, config[d].arch).value;
            Step(Dependencies(config), d, e) && IsPath(Dependencies(config), stack + [d] + [e])
  {
    PathAppend(Dependencies(config), stack + [d], Find(config, dependency, config[d].arch).value);
  }

  ghost predicate FoundUpTo(config: Config, d: nat, k: nat, done: seq<nat>)
    requires d < |config|
  {
    k <= |config[d].dependencies| && forall j :: 0 <= j < k ==> IsFound(config, d, config[d].dependencies[j], done)
  }

  lemma FoundOneMore(config: Config, d: nat, k: nat, before: seq<nat>, after: seq<nat>)
    requires d < |config| && k < |config[d].dependencies| && FoundUpTo(config, d, k, before)
    requires forall x :: x in before ==> x in after
    requires IsFound(config, d, config[d].dependencies[k], after)
    ensures FoundUpTo(config, d, k + 1, after)
  {
    forall j | 0 <= j < k ensures IsFound(config, d, config[d].dependencies[j], after) {
      assert IsFound(config, d, config[d].dependencies[j], before);
    }
  }

  ghost predicate IsFound(config: Config, d: nat, dependency: string, done: seq<nat>)
    requires d < |config|
  {
    Find(config, dependency, config[d].arch).Some? && Find(config, dependency, config[d].arch).value in done
  }

  lemma AllFound(config: Config, d: nat, done: seq<nat>)
    requires d < |config| && FoundUpTo(config, d, |config[d].dependencies|, done)
    ensures NothingMissing(config, d) && DependenciesOf(config, config[d]) <= Elements(done)
  {
    forall dependency | dependency in config[d].dependencies ensures IsFound(config, d, dependency, done) {
      var j :| 0 <= j < |config[d].dependencies| && config[d].dependencies[j] == dependency;
    }
  }

  lemma ExtendsBySelf(config: Config, d: nat, before: seq<nat>, after: seq<nat>)
    requires Extends(Dependencies(config), d, before, after)
    ensures Extends(Dependencies(config), d, before, after + [d]) && d in after + [d]
  {
    ReachesSelf(Dependencies(config), d);
    assert forall x :: x in after + [d] <==> x in after || x == d;
  }

  lemma ExtendsFurther(next: Next, d: nat, e: nat, before: seq<nat>, middle: seq<nat>, after: seq<nat>)
    requires Extends(next, d, before, middle) && Extends(next, e, middle, after) && Step(next, d, e)
    ensures Extends(next, d, before, after) && forall x :: x in middle ==> x in after
  {
    forall x | x in after && x !in middle ensures Reaches(next, d, x) {
      StepThenReach(next, d, e, x);
    }
  }

  /** Either an order of exactly what the database depends on, or an error that really exists. */
  method ComputeDatabaseDependencyOrder(config: Config, d: nat, addSelf: bool) returns (res: Result<seq<nat>, OrderError>)
    requires d < |config|
    ensures res.Ok? <==> forall e :: Reaches(Dependencies(config), d, e) ==> !OnCycle(Dependencies(config), e) && NothingMissing(config, e)
    ensures res.Err? ==> IsError(config, d, res.error)
    ensures res.Ok? ==>
              && NoDuplicates(res.value) && IsOrdered(Dependencies(config), Finished(res.value, d, addSelf))
              && (forall e :: e in res.value <==> Reaches(Dependencies(config), d, e) && (addSelf || e != d))
              && (forall e :: e in res.value && e != d ==> e < |config| && config[e].configured && (config[d].arch == "" || config[e].arch == config[d].arch))
  {
    hide IsPath, IsError, Extends, NothingMissing, OnCycle, Reaches, Dependencies, NoDuplicates, IsOrdered;
    var search := new DependencySearch(config);
    SearchBegins(config, d);
    var error := search.AddDatabaseDependencies(d, addSelf, []);
    if error.Some? {
      ErrorMeansNoOrder(config, d, error.value);
      return Err(error.value);
    }
    OrderIsComplete(config, d, Finished(search.result, d, addSelf), search.visited);
    ResultOfFinished(search.result, d, addSelf);
    forall e: nat | Reaches(Dependencies(config), d, e) && e != d
      ensures e < |config| && config[e].configured && (config[d].arch == "" || config[e].arch == config[d].arch)
    {
      DependenciesAreConfigured(config, d, e);
    }
    return Ok(search.result);
  }

  lemma DependenciesAreConfigured(config: Config, d: nat, e: nat)
    requires d < |config| && Reaches(Dependencies(config), d, e) && e != d
    ensures e < |config| && config[e].configured && (config[d].arch == "" || config[e].arch == config[d].arch)
  {
    var path :| IsPathFrom(Dependencies(config), path, d, e);
    DependenciesKeepArch(config, path);
  }

  lemma {:induction false} DependenciesKeepArch(config: Config, path: seq<nat>)
    requires IsPath(Dependencies(config), path) && path[0] < |config|
    ensures var first, last := path[0], path[|path| - 1];
            last < |config| && (config[first].arch == "" || config[last].arch == config[first].arch) && (|path| > 1 ==> config[last].configured)
  {
    if |path| > 1 {
      var d, e := path[|path| - 2], path[|path| - 1];
      DependenciesKeepArch(config, path[..|path| - 1]);
      assert Step(Dependencies(config), d, e);
      var dependency :| dependency in config[d].dependencies && Find(config, dependency, config[d].arch) == Some(e);
    }
  }

  /** What a database names as a dependency comes before it. */
  lemma OrderMeans(config: Config, order: seq<nat>, i: nat, dependency: string) returns (j: nat)
    requires IsOrdered(Dependencies(config), order) && i < |order| && order[i] < |config| && NothingMissing(config, order[i])
    requires dependency in config[order[i]].dependencies
    ensures j < i && order[j] < |config| && config[order[j]].name == dependency && config[order[j]].configured
    ensures config[order[i]].arch == "" || config[order[j]].arch == config[order[i]].arch
  {
    var db := config[order[i]];
    assert LeadsBack(Dependencies(config), order, i) && !IsMissing(config, order[i], dependency);
    assert Find(config, dependency, db.arch).value in DependenciesOf(config, db);
    j :| 0 <= j < i && order[j] == Find(config, dependency, db.arch).value;
  }

  lemma SearchBegins(config: Config, d: nat)
    ensures IsState(config, [], map[], []) && IsPath(Dependencies(config), [] + [d])
  {
  }

  lemma ErrorMeansNoOrder(config: Config, d: nat, error: OrderError)
    requires IsError(config, d, error)
    ensures exists e :: Reaches(Dependencies(config), d, e) && (OnCycle(Dependencies(config), e) || !NothingMissing(config, e))
  {
    match error
    case Cycle(at) =>
    case Missing(dependency, of) =>
      assert !NothingMissing(config, of) by {
        assert IsMissing(config, of, dependency);
      }
  }

  lemma ResultOfFinished(result: seq<nat>, d: nat, addSelf: bool)
    requires NoDuplicates(Finished(result, d, addSelf))
    ensures NoDuplicates(result) && forall e :: e in result <==> e in Finished(result, d, addSelf) && (addSelf || e != d)
  {
    if !addSelf {
      var done := Finished(result, d, addSelf);
      forall i | 0 <= i < |result| ensures result[i] != d {
        assert done[i] != done[|result|];
      }
      forall i, j | 0 <= i < j < |result| ensures result[i] != result[j] {
        assert done[i] != done[j];
      }
    }
  }

  lemma OrderIsComplete(config: Config, d: nat, done: seq<nat>, visited: map<nat, bool>)
    requires IsState(config, done, visited, []) && d in done && Extends(Dependencies(config), d, [], done)
    ensures IsOrdered(Dependencies(config), done) && NoDuplicates(done)
    ensures forall e :: e in done <==> Reaches(Dependencies(config), d, e)
    ensures forall e :: Reaches(Dependencies(config), d, e) ==> !OnCycle(Dependencies(config), e) && NothingMissing(config, e)
  {
    var next := Dependencies(config);
    forall e ensures e in done <==> Reaches(next, d, e) {
      OrderedIsReach(next, done, d, e);
    }
    forall e | e in done ensures !OnCycle(next, e) && NothingMissing(config, e) {
      OrderedIsAcyclic(next, done, e);
    }
  }

  // ---------------------------------------------------------------- the databases requiring a database

  /** `e` is another configured database of the same architecture that names `d` as a dependency. */
  predicate Requires(config: Config, d: nat, e: nat) {
    && d < |config| && e < |config| && d != e
    && config[e].configured && config[e].arch == config[d].arch && config[d].name in config[e].dependencies
  }

  function Requirers(config: Config): Next {
    map d: nat | 0 <= d < |config| :: RequirersOf(config, d)
  }

  function RequirersOf(config: Config, d: nat): set<nat> {
    set e: nat | 0 <= e < |config| && Requires(config, d, e)
  }

  /** What has been added is reachable, and what is reachable from it in one step is visited. */
  ghost predicate IsSearched(config: Config, d: nat, before: set<nat>, after: set<nat>) {
    && before <= after <= Requirers(config).Keys
    && forall x :: x in after - before ==> Reaches(Requirers(config), d, x) && Requirers(config)[x] <= after
  }

  class RequiringSearch {
    const config: Config
    var result: seq<nat>
    var visited: set<nat>

    constructor (config: Config)
      ensures this.config == config && result == [] && visited == {}
    {
      this.config, result, visited := config, [], {};
    }

    /** Cycles do not matter here. */
    method AddDatabasesRequiringDatabase(d: nat)
      requires d < |config| && visited <= Requirers(config).Keys && NoDuplicates(result) && Elements(result) == visited
      modifies this
      ensures NoDuplicates(result) && Elements(result) == visited
      ensures d in visited && IsSearched(config, d, old(visited), visited)
      decreases Requirers(config).Keys - visited
    {
      if d in visited {
        return;
      }
      hide Reaches, NoDuplicates;
      ghost var before := visited;
      ReachesSelf(Requirers(config), d);
      visited, result := visited + {d}, result + [d];
      for k := 0 to |config|
        invariant NoDuplicates(result) && Elements(result) == visited
        invariant before + {d} <= visited && IsSearchedBut(config, d, before, visited)
        invariant forall e: nat :: 0 <= e < k && Requires(config, d, e) ==> e in visited
      {
        if !config[k].configured || k == d || config[k].arch != config[d].arch {
          continue;
        }
        if config[d].name in config[k].dependencies {
          ghost var middle := visited;
          AddDatabasesRequiringDatabase(k);
          SearchFurther(config, d, k, before, middle, visited);
        }
      }
    }
  }

  /** While `d` itself is being processed. */
  ghost predicate IsSearchedBut(config: Config, d: nat, before: set<nat>, after: set<nat>) {
    && before <= after <= Requirers(config).Keys
    && forall x :: x in after - before ==> Reaches(Requirers(config), d, x) && (x == d || Requirers(config)[x] <= after)
  }

  lemma SearchFurther(config: Config, d: nat, k: nat, before: set<nat>, middle: set<nat>, after: set<nat>)
    requires IsSearchedBut(config, d, before, middle) && IsSearched(config, k, middle, after)
    requires Requires(config, d, k)
    ensures IsSearchedBut(config, d, before, after)
  {
    assert Step(Requirers(config), d, k);
    forall x | x in after - middle ensures Reaches(Requirers(config), d, x) {
      StepThenReach(Requirers(config), d, k, x);
    }
  }

  method ComputeDatabasesRequiringDatabase(config: Config, d: nat) returns (res: seq<nat>)
    requires d < |config|
    ensures NoDuplicates(res) && forall e :: e in res <==> Reaches(Requirers(config), d, e)
    ensures forall e :: e in res && e != d ==> e < |config| && config[e].configured && config[e].arch == config[d].arch
  {
    var search := new RequiringSearch(config);
    search.AddDatabasesRequiringDatabase(d);
    res := search.result;
    forall e ensures e in res <==> Reaches(Requirers(config), d, e) {
      SearchedIsReach(config, d, search.visited, e);
    }
    forall e: nat | e in res && e != d ensures e < |config| && config[e].configured && config[e].arch == config[d].arch {
      var path :| IsPathFrom(Requirers(config), path, d, e);
      RequirersKeepArch(config, path);
    }
  }

  lemma SearchedIsReach(config: Config, d: nat, visited: set<nat>, e: nat)
    requires d in visited && IsSearched(config, d, {}, visited)
    ensures e in visited <==> Reaches(Requirers(config), d, e)
  {
    assert visited - {} == visited;
    if Reaches(Requirers(config), d, e) {
      ReachStaysWithin(Requirers(config), visited, d, e);
    }
  }

  // ---------------------------------------------------------------- duality

  /** Naming a database as a dependency and being found to require it are the same for any two databases. */
  predicate DependenciesAreRequired(config: Config) {
    forall d: nat, e: nat :: d < |config| && e < |config| && d != e ==> (Requires(config, d, e) <==> DependsOn(config, e, d))
  }

  /** Some dependency of `e` is looked up as `d`. */
  predicate DependsOn(config: Config, e: nat, d: nat)
    requires e < |config|
  {
    exists dependency :: dependency in config[e].dependencies && Find(config, dependency, config[e].arch) == Some(d)
  }

  /** Requiring is depending backwards. */
  ghost predicate SearchesAreDual(config: Config) {
    forall x: nat, y: nat :: x < |config| && y < |config| ==>
      (Reaches(Requirers(config), x, y) <==> Reaches(Dependencies(config), y, x))
  }

  /** What is true of single dependencies is true of all that follows from them, and the other way round. */
  lemma DualIffDependenciesAreRequired(config: Config)
    ensures SearchesAreDual(config) <==> DependenciesAreRequired(config)
  {
    if DependenciesAreRequired(config) {
      forall x: nat, y: nat | x < |config| && y < |config|
        ensures Reaches(Requirers(config), x, y) <==> Reaches(Dependencies(config), y, x)
      {
        RequiredIsDual(config, x, y);
      }
    }
    if SearchesAreDual(config) {
      forall d: nat, e: nat | d < |config| && e < |config| && d != e
        ensures Requires(config, d, e) <==> DependsOn(config, e, d)
      {
        DualIsRequired(config, d, e);
      }
    }
  }

  lemma RequiredIsDual(config: Config, x: nat, y: nat)
    requires DependenciesAreRequired(config)
    ensures Reaches(Requirers(config), x, y) <==> Reaches(Dependencies(config), y, x)
  {
    forall d: nat, e: nat ensures d != e ==> (Step(Requirers(config), d, e) <==> Step(Dependencies(config), e, d)) {
      if d < |config| && e < |config| {
        assert Step(Dependencies(config), e, d) <==> DependsOn(config, e, d);
      }
    }
    Dual(Requirers(config), Dependencies(config), x, y);
  }

  lemma DualIsRequired(config: Config, d: nat, e: nat)
    requires SearchesAreDual(config) && d < |config| && e < |config| && d != e
    ensures Requires(config, d, e) <==> DependsOn(config, e, d)
  {
    var requirers, dependencies := Requirers(config), Dependencies(config);
    if Requires(config, d, e) {
      ReachesSelf(requirers, e);
      assert Step(requirers, d, e);
      StepThenReach(requirers, d, e, e);
      if !DependsOn(config, e, d) {
        ShadowedIsNotReached(config, e, d);
      }
    }
    if DependsOn(config, e, d) {
      ReachesSelf(dependencies, d);
      assert Step(dependencies, e, d);
      StepThenReach(dependencies, e, d, d);
      var path :| IsPathFrom(requirers, path, d, e);
      RequirersKeepArch(config, path);
    }
  }

  /** A database that is named but not found comes after another one of its name, and is not found by anything. */
  lemma ShadowedIsNotReached(config: Config, e: nat, d: nat)
    requires Requires(config, d, e) && !DependsOn(config, e, d)
    ensures !Reaches(Dependencies(config), e, d)
  {
    if config[d].configured {
      assert IsNamed(config[d], config[d].name, config[e].arch);
    }
    var others := Dependencies(config).Keys - {d};
    assert IsClosed(Dependencies(config), others);
    if Reaches(Dependencies(config), e, d) {
      ReachStaysWithin(Dependencies(config), others, e, d);
    }
  }

  lemma {:induction false} RequirersKeepArch(config: Config, path: seq<nat>)
    requires IsPath(Requirers(config), path) && path[0] < |config|
    ensures var last := path[|path| - 1];
            last < |config| && config[last].arch == config[path[0]].arch && (|path| > 1 ==> config[last].configured)
  {
    if |path| > 1 {
      RequirersKeepArch(config, path[..|path| - 1]);
      assert Step(Requirers(config), path[|path| - 2], path[|path| - 1]);
    }
  }

  predicate HasUniqueDatabases(config: Config) {
    && (forall d :: 0 <= d < |config| ==> config[d].configured && config[d].arch != "")
    && (forall d, e :: 0 <= d < e < |config| ==> config[d].name != config[e].name || config[d].arch != config[e].arch)
  }

  /** Unique names per architecture are enough. */
  lemma UniqueDatabasesAreDual(config: Config)
    requires HasUniqueDatabases(config)
    ensures SearchesAreDual(config)
  {
    DualIffDependenciesAreRequired(config);
  }

  /** Under that condition both searches find the same pairs, unless the order cannot be computed. */
  method CompareSearches(config: Config, x: nat, y: nat) returns (requiring: seq<nat>, order: Result<seq<nat>, OrderError>)
    requires x < |config| && y < |config|
    ensures DependenciesAreRequired(config) && order.Ok? ==> (y in requiring <==> x in order.value)
  {
    requiring := ComputeDatabasesRequiringDatabase(config, x);
    order := ComputeDatabaseDependencyOrder(config, y, true);
    if DependenciesAreRequired(config) {
      RequiredIsDual(config, x, y);
    }
  }

  /** A database without architecture may depend on any, but does not require any. */
  lemma EmptyArchitectureIsNotDual()
    ensures var config := [Database("a", "x", [], true), Database("b", "", ["a"], true)];
            Reaches(Dependencies(config), 1, 0) && !Reaches(Requirers(config), 0, 1)
  {
    var config := [Database("a", "x", [], true), Database("b", "", ["a"], true)];
    assert IsNamed(config[0], "a", "");
    assert Find(config, "a", "") == Some(0);
    assert Step(Dependencies(config), 1, 0) by {
      assert "a" in config[1].dependencies;
      assert 0 in DependenciesOf(config, config[1]);
    }
    ReachesSelf(Dependencies(config), 0);
    StepThenReach(Dependencies(config), 1, 0, 0);
    assert IsClosed(Requirers(config), {0}) by {
      assert forall e :: !Requires(config, 0, e);
    }
    if Reaches(Requirers(config), 0, 1) {
      ReachStaysWithin(Requirers(config), {0}, 0, 1);
    }
  }
}

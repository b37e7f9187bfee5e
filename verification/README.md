# Verified models of the repository manager's core

A Dafny project beside the sources of libpkg and librepomgr. It models the parts of the repository manager
whose correctness depends on more than one function, in the form the sources have - loops over cursors and maps
as methods with loops, objects that change their fields as classes - and proves what these parts promise
together. `dafny verify dfyconfig.toml` checks everything.

The modules follow the components:

| component | modules |
|---|---|
| computing build batches and conducting the build | `DependencySets`, `BatchItems`, `BuildGraph`, `NeededItems`, `PrepareBuild`, `BatchSession`, `BuildSafety`, `DependencySafety` |
| inverted dependency index, single and batched updates, lookup | `PackageStore`, `DependencyTable`, `DependencyIndex`, `PackageUpdater`, `IndexLookup` |
| package cache | `Recency`, `PackageCache` |
| scheduling of build actions | `BuildActions`, `BuildActionRuns` |
| order of package databases | `Reachability`, `DatabaseOrder` |
| versions and dependencies, compared and as text | `VersionCompare`, `VersionOrder`, `VersionText`, `Dependencies`, `Packages` |
| shared mutex with callbacks | `GlobalLock` |
| topological build order | `BuildOrder` |
| shared vocabulary | `Wrappers`, `Sequences` |

## Main results

* **A build never gets ahead of what it needs.** `BuildSafety.BuildPackages` collects the items of all builds, finds the
  needed items, computes the batches and runs a session over them. For every pattern of failures, whatever is handed out has each of its
  needed items, or one of that item's alternatives, handed out before without failing. The batches are the least
  fixpoint of an AND/OR graph (`BuildGraph.BuiltIffBuildable`), every item comes as early as any schedule could have
  it (`BatchIsEarliest`), the outcome does not depend on the order of hash maps (`PrepareBuild.PlanIsUnique`), and
  leftovers are never reported without a dependency cycle among them (`LeftoversContainCycle`).
* **Batched updates are as good as single ones, exactly under a condition.** After a commit the tables fit the
  stored packages if and only if no update of the batch superseded an earlier one that had other entries
  (`PackageUpdater.CommitIsExact`); updating each name once is enough. With the tables exact, index lookup is the
  same as asking every package (`IndexLookup.ProvidingPackages`).
* **The cache is transparent and keeps the most recently used packages** (`PackageCache.StorageCache`,
  `Recency.RecentIsByLastUse`).
* **Follow-up actions start at most once, only when they may, and at an exactly known step**: when the last of their
  predecessors succeeds, if it had been stored when they were registered (`BuildActionRuns.StartedAtMostOnce`,
  `StartIsJustified`, `StartedIffStoredBefore`, `StartedSoFarIff`, `NoLostWakeUp`).
* **A database order exists if and only if nothing reachable is missing or on a cycle**, and the search for requiring
  databases is its dual exactly if single dependencies are
  (`DatabaseOrder.ComputeDatabaseDependencyOrder`, `DualIffDependenciesAreRequired`).
* **Comparing version parts is a total preorder**, numeric on digits, and decides constraints and upgrades as it should
  (`VersionOrder.WhatModesMean`, `ModesCompareNumbers`, `VersionText.WhatComparingMeans`); printing and parsing restores exactly the
  well-formed versions and dependencies (`VersionOrder.PartOrderLaws`, `VersionText.VersionRoundTrip`,
  `Dependencies.DependencyRoundTrip`).
* **Over all interleavings the shared mutex excludes, counts and serves correctly** (`GlobalLock.RunKeepsInvariant`,
  `GrantedAtMostOnce`, `SharedIsNeverLost`, `ExclusiveIsOnlySuperseded`), and every operation does all it has to
  (`TryLockLaw`, `LockAsyncLaw`, `UnlockLaw` and their shared counterparts).

## Where the code does not do what one would expect

Each of these comes with the exact condition, and all but the last few with a concrete input.

* A needed item that is recorded for a second dependency keeps the alternatives of the first one (a FIXME in the
  code), so a dependency can be unmet although the batch order is right: `DependencySafety.AmbiguousNeedIsNotMet` has
  the items, and `AlwaysMetIffSettled` the condition, over all outcomes that the contract of the search allows - it
  leaves open which offering item is recorded, and in which order dependencies come up.
* A dependency set keeps the mode of the first dependency with a name and version, so a build item loses an exact
  constraint that comes beside a minimum of the same version: `DependencySets.ConstraintIsLost`, and `KeptIffFirstAgrees`.
* Updating a package twice in one batch leaves entries of the first update behind:
  `PackageUpdater.SecondUpdateLeavesStaleEntry`, and `CommitIsExact`. Entries that became empty in a batch are kept, so
  `Database::provides` can report what no package provides: `IndexLookup.ProvidedByNobody`, and `ProvidesIsSticky`.
* An action registered before what it starts after has been stored - even if its id has been allocated - is not known to
  it, so its success does not start the action: `BuildActionRuns.WakeUpLostForMissing`. The action is still started if the
  last of its predecessors to succeed had been stored in time: `StartedIffStoredBefore`; or after a restart:
  `StartedAfterRestart`.
* `enableStagingInNextBatch` is documented to enable staging for the next batch, but a request from inside a batch skips
  next batches of a single package: `BatchSession.StagingSkipsSingleBatch`, and `StagingOfNextBatch`. The model follows
  the code.
* `>`, `<=` and `=` do not respect the order of versions, as a repeated version with a package release counts as equal:
  `VersionOrder.GreaterThanIsNotClosedUpward`, with `GreaterThanClosedUpTo`, `AtMostClosedDownTo` and
  `EqualVersionsMatchAlike`. Comparing whole versions is not transitive when only some of them name a package release:
  `VersionText.CompareIsNotTransitive`, and `CompareComposes`.
* A database without architecture may depend on databases it is not found to require:
  `DatabaseOrder.EmptyArchitectureIsNotDual`, and `DualIffDependenciesAreRequired`; the same goes for repeated names and
  for databases that are not configured.
* A queued exclusive callback is dropped by the next one: `GlobalLock.SecondRequestSupersedes`, and
  `ExclusiveIsOnlySuperseded`.
* `hasFailuresInPreviousBatches` misses a failure of the last package of the previous batch from the second package of a
  batch on: the condition in its contract.
* The largest epoch wraps around to zero when bumped: the condition in `VersionText.EpochBumpIsUpgrade`.

## Model

| member | source | states |
|---|---|---|
| `BuildGraph.EarliestRound` | librepomgr/buildactions/preparebuild.cpp:1067-1107 | nothing any schedule builds in n rounds is missing after n rounds of the loop |
| `BuildGraph.RoundsAreASchedule` | librepomgr/buildactions/preparebuild.cpp:1484-1501 | the rounds of the loop are themselves a way to build in which every need is met by an earlier round |
| `BuildGraph.FixpointStays` | librepomgr/buildactions/preparebuild.cpp:1501-1501 | once a round adds nothing, no later round would, so stopping there loses nothing |
| `BuildGraph.BuiltIffBuildable` | librepomgr/buildactions/preparebuild.cpp:1484-1501 | when the loop stops, an item is in a batch if and only if some schedule can build it at all |
| `BuildGraph.PlanPartitions` | librepomgr/buildactions/preparebuild.cpp:1484-1514 | every item is in exactly one batch or in the leftovers |
| `BuildGraph.NeedsInEarlierBatches` | librepomgr/buildactions/preparebuild.cpp:1079-1097 | each needed item of an item in a batch, or one of its alternatives, is in an earlier batch |
| `BuildGraph.BatchIsEarliest` | librepomgr/buildactions/preparebuild.cpp:1484-1501 | no schedule can build an item in an earlier round than that of its batch |
| `BuildGraph.LeftoversAreStuck` | librepomgr/buildactions/preparebuild.cpp:1503-1514 | the leftovers are the largest set whose members each wait for a need only members could meet |
| `BuildGraph.LeftoversContainCycle` | librepomgr/buildactions/preparebuild.cpp:1503-1514 | non-empty leftovers contain a cycle of at least two different items, each blocking the one before it |
| `DependencySets.DependencySet.FindExact` | libpkg/data/package.cpp:555-574 | the first entry of that name and version |
| `DependencySets.DependencySet.ProvidesDependency` | libpkg/data/package.cpp:576-584 | true exactly if some entry of that name has a matching version |
| `DependencySets.DependencySet.Add` | libpkg/data/package.cpp:596-618 | one package more for the entry of that name and version, which is created if needed |
| `DependencySets.DependencySet.Remove` | libpkg/data/package.cpp:629-641 | the loop that starts over after erasing ends, with the package taken out of all entries of that name and entries without packages gone |
| `DependencySets.AddOffers` | libpkg/data/package.cpp:596-618 | adding a dependency makes the set offer exactly what that one offers in addition |
| `DependencySets.RemoveUndoesAdd` | libpkg/data/package.cpp:629-641 | removing what has just been added restores the set if the package had nothing of that name before |
| `DependencySets.CollectedOffers` | libpkg/data/package.cpp:596-606 | a set offers exactly what the dependencies put into it offer, merged or not |
| `DependencySets.FirstModeWins` | libpkg/data/package.cpp:596-606 | there is one entry per name and version, with the mode of the first dependency added |
| `DependencySets.KeptIffFirstAgrees` | libpkg/data/package.cpp:596-606 | a dependency is kept as it is if and only if the first one of its name and version has the same mode |
| `DependencySets.ConstraintIsLost` | libpkg/data/package.cpp:596-606 | an example of a constraint that is lost |
| `BatchItems.PrepareItem` | librepomgr/buildactions/preparebuild.cpp:1430-1449 | a new item that offers exactly what its packages provide and requires, once by name and version, exactly what is needed for building, for checking or by one of its packages, each in the form that comes first in that order |
| `BatchItems.RequiredDependencies` | librepomgr/buildactions/preparebuild.cpp:1438-1442 | required is what the three kinds of dependencies say, and nothing else |
| `BatchItems.RequiredInOrder` | librepomgr/buildactions/preparebuild.cpp:1438-1442 | the form comes from the dependencies for building first, then from those for checking, then from the packages |
| `BatchItems.PrepareBatches` | librepomgr/buildactions/preparebuild.cpp:1430-1449 | one such item for every build, none of them touched yet |
| `NeededItems.Repositories.FindPackages` | librepomgr/buildactions/preparebuild.cpp:1048-1048 | finds exactly the packages that provide a dependency, none for an empty name |
| `NeededItems.BatchItem.AddNeededItemForRequiredDependency` | librepomgr/buildactions/preparebuild.cpp:1001-1031 | a dependency is met by the item itself or by recording one of the other items offering it with all the rest as alternatives; it fails exactly if no item offers it |
| `NeededItems.BatchItem.HandleDependency` | librepomgr/buildactions/preparebuild.cpp:1038-1064 | afterwards the dependency is self-provided, met by a recorded item, followed into all available providers, or recorded as missing |
| `NeededItems.BatchItem.AddNeededBatchItemsForPackage` | librepomgr/buildactions/preparebuild.cpp:1109-1145 | the recursion ends on cyclic package graphs; every newly visited package has all its dependencies handled, and everything recorded has a reason |
| `NeededItems.BatchItem.DetermineNeededItems` | librepomgr/buildactions/preparebuild.cpp:1033-1065 | visits exactly the packages in reach, all of them from the required databases of the architecture; every such package providing a followed dependency is visited; the outcome is sound and complete for every dependency seen |
| `NeededItems.BatchItem.ReachIsClosed` | librepomgr/buildactions/preparebuild.cpp:1033-1065 | what is in reach includes the providers of the item's own dependencies and is closed under following dependencies |
| `NeededItems.BatchItem.ReachIsLeast` | librepomgr/buildactions/preparebuild.cpp:1033-1065 | ... and is the smallest such set |
| `NeededItems.BatchItem.NeededMeans` | librepomgr/buildactions/preparebuild.cpp:1010-1029 | an item is needed for a dependency seen that this item does not provide but that one does, and the alternatives are all other items providing it |
| `NeededItems.BatchItem.ResolvedMeans` | librepomgr/buildactions/preparebuild.cpp:1033-1065 | every dependency seen is provided by the item itself or a needed item, or by no other item, and then it is followed into all available providers or reported |
| `NeededItems.BatchItem.MissingMeans` | librepomgr/buildactions/preparebuild.cpp:1061-1063 | what is reported as missing is provided by no item and no available package, and is reported with who has the dependency |
| `PrepareBuild.SortedIsUnique` | librepomgr/buildactions/preparebuild.cpp:1147-1158 | two sorted lists of the same distinguishable items are equal |
| `PrepareBuild.SortBatchIsTransitive` | librepomgr/buildactions/preparebuild.cpp:1147-1158 | the comparator is transitive, as sorting requires |
| `PrepareBuild.NameOrderIsTotal` | librepomgr/buildactions/preparebuild.cpp:1156-1156 | different names are ordered one way or the other |
| `PrepareBuild.NameOrderIsLexicographic` | librepomgr/buildactions/preparebuild.cpp:1156-1156 | the first different characters decide, or the length |
| `PrepareBuild.SortedMeans` | librepomgr/buildactions/preparebuild.cpp:1147-1158 | what has been specified comes first, in the specified order; the rest is ordered by name |
| `PrepareBuild.Sort` | librepomgr/buildactions/preparebuild.cpp:1516-1520 | a sorted rearrangement without duplicates |
| `PrepareBuild.AllNeedsMet` | librepomgr/buildactions/preparebuild.cpp:1079-1100 | true if and only if every needed item or one of its alternatives is done |
| `PrepareBuild.AddItemsToBatch` | librepomgr/buildactions/preparebuild.cpp:1067-1107 | the batch is exactly the items that are ready and not done, once each; the result says whether all are done |
| `PrepareBuild.MarkDone` | librepomgr/buildactions/preparebuild.cpp:1498-1500 | exactly the items of the batch become done |
| `PrepareBuild.PeelLayer` | librepomgr/buildactions/preparebuild.cpp:1488-1501 | a round appends the next layer, or nothing if no item is ready |
| `PrepareBuild.PeelLayers` | librepomgr/buildactions/preparebuild.cpp:1484-1501 | the loop ends, with non-empty batches that are the layers of the graph and nothing ready any more |
| `PrepareBuild.NotDone` | librepomgr/buildactions/preparebuild.cpp:1503-1510 | the leftovers are exactly the items that are not done |
| `PrepareBuild.PlanBatches` | librepomgr/buildactions/preparebuild.cpp:1484-1520 | sorted batches and leftovers that are a batch plan of the graph |
| `PrepareBuild.PlanIsUnique` | librepomgr/buildactions/preparebuild.cpp:1484-1520 | there is only one such plan: map iteration order does not matter once the needed items are fixed |
| `PrepareBuild.ResolvedIsWellFormed` | librepomgr/buildactions/preparebuild.cpp:1010-1029 | needed items and alternatives are other items to be built |
| `PrepareBuild.DetermineAllNeededItems` | librepomgr/buildactions/preparebuild.cpp:1476-1479 | afterwards every item is resolved |
| `PrepareBuild.PrepareBuild.AddBatchesToResult` | librepomgr/buildactions/preparebuild.cpp:1526-1538 | the names of batches and leftovers are appended to the result |
| `PrepareBuild.PrepareBuild.ComputeBatches` | librepomgr/buildactions/preparebuild.cpp:1464-1524 | needed items resolved, batches and leftovers a plan for them, and a warning if and only if there are leftovers |
| `BatchSession.BatchProcessingSession.constructor` | librepomgr/buildactions/conductbuild.cpp:71-88 | a new session has handed out nothing and has no staging request |
| `BatchSession.BatchProcessingSession.SelectNextPackage` | librepomgr/buildactions/conductbuild.cpp:132-150 | moves past the package, into another batch only if failures do not forbid it, and updates the staging flags as specified |
| `BatchSession.BatchProcessingSession.GetCurrentPackageNameIfValidAndRelevantAndSelectNext` | librepomgr/buildactions/conductbuild.cpp:161-173 | hands out the next relevant package, or nothing exactly if the session has become invalid |
| `BatchSession.BatchProcessingSession.StepNext` | librepomgr/buildactions/conductbuild.cpp:132-150 | the flags go on meaning what they should in terms of all requests made so far |
| `BatchSession.BatchProcessingSession.EnableStagingInNextBatch` | librepomgr/buildactions/conductbuild.cpp:183-191 | a request is added and the flags are right for it, too |
| `BatchSession.BatchProcessingSession.AddResponse` | librepomgr/buildactions/conductbuild.cpp:866-866 | a failure is recorded without moving on |
| `BatchSession.BatchProcessingSession.HasFailuresInPreviousBatches` | librepomgr/buildactions/conductbuild.cpp:115-118 | while there is a next package: true if and only if something in an earlier batch has failed, where from the second package of a batch on the last package of the batch before does not count |
| `BatchSession.StagingIsMonotone` | librepomgr/buildactions/conductbuild.cpp:132-150 | once staging is active for a package it is for all later ones |
| `BatchSession.StagingOfNextBatch` | librepomgr/buildactions/conductbuild.cpp:175-191 | a request reaches the next batch if and only if it comes from the last package of its batch or the next batch has two packages |
| `BatchSession.StagingSkipsSingleBatch` | librepomgr/buildactions/conductbuild.cpp:175-191 | an example of batches where the next batch is not staged |
| `BatchSession.ProcessNext` | librepomgr/buildactions/conductbuild.cpp:845-885 | one package is handed out, its failure is reported and only then the next one is fetched; whether it is staged depends on earlier requests as specified, and failures in previous batches are only reported if there was one in an earlier batch |
| `BatchSession.EndCovers` | librepomgr/buildactions/conductbuild.cpp:95-99 | when the session has become invalid, everything relevant has been handed out, or with skipping exactly the batches up to the one with a failure |
| `BatchSession.RunBuild` | librepomgr/buildactions/conductbuild.cpp:845-885 | a whole run hands out packages in batch order, each once: exactly those that pass the filter and are neither behind an empty batch nor, with skipping, behind a batch with a failure; staging is active exactly behind a request that reaches the package |
| `BuildSafety.RunIsSafe` | librepomgr/buildactions/conductbuild.cpp:95-173 | for every failure pattern of a session that skips after failures, what is handed out has each needed item or an alternative built before |
| `BuildSafety.WithoutFailuresAllIsBuilt` | librepomgr/buildactions/conductbuild.cpp:132-150 | without failures exactly the items outside the leftovers are handed out |
| `BuildSafety.BuildPlan` | librepomgr/buildactions/conductbuild.cpp:845-885 | running a session over the names of a plan is safe and, without failures, complete |
| `BuildSafety.PrepareAndBuild` | librepomgr/buildactions/preparebuild.cpp:1464-1524 | from fresh items to a finished run: resolved, planned, built safely and completely |
| `BuildSafety.BuildPackages` | librepomgr/buildactions/preparebuild.cpp:1430-1524 | from the data of all builds to a finished run: the items are those of the builds, the run is safe, and without failures exactly the builds outside the leftovers are handed out |
| `DependencySafety.RecordedForDependency` | librepomgr/buildactions/preparebuild.cpp:1025-1029 | what is recorded for a dependency that shares offering items only with dependencies offered by items offering `d` can be met by items offering `d` only |
| `DependencySafety.UnmetUnlessSettled` | librepomgr/buildactions/preparebuild.cpp:1025-1029 | for any other dependency there is an outcome of the search whose needs can all be met while nothing offering the dependency is built |
| `DependencySafety.AlwaysMetIffSettled` | librepomgr/buildactions/preparebuild.cpp:1001-1065 | meeting the recorded needs always meets a dependency if and only if that dependency, or one offered by fewer of the same items, overlaps with no dependency that other items offer, too |
| `DependencySafety.DependencyIsMet` | librepomgr/buildactions/preparebuild.cpp:1033-1065 | in a safe run every such dependency of what is handed out has been met before by an item that offers it |
| `DependencySafety.AmbiguousNeedIsNotMet` | librepomgr/buildactions/preparebuild.cpp:1025-1029 | four items, resolved as the search may do it, of which one is built although the only item offering one of its dependencies is a leftover |
| `VersionCompare.FirstNonAlphanumericCharacter` | libpkg/parser/utils.cpp:28-37 | stops at the end of the alphanumeric run even if the end pointer lies behind the start pointer |
| `VersionCompare.CompareSegments` | libpkg/data/package.cpp:174-202 | longer after trimming zeros is newer, equal lengths are compared character by character |
| `VersionCompare.CompareParts` | libpkg/data/package.cpp:210-263 | stays in bounds, ends, and equals lexicographic comparison of epoch and segments, tolerating a package release only the first part has if asked to |
| `VersionCompare.SkipPkgRel` | libpkg/data/package.cpp:241-253 | the scan whose bound is never met ends and says whether only a package release follows |
| `VersionCompare.WalkIsSegmentsOrder` | libpkg/data/package.cpp:210-263 | the pointer walk is the comparison of the two lists of segments |
| `VersionCompare.WalkWithPkgRel` | libpkg/data/package.cpp:241-253 | allowing an implicit package release only ever turns newer into equal, at exactly the places described |
| `VersionOrder.SegmentOrderLaws` | libpkg/data/package.cpp:174-202 | comparing segments is antisymmetric, transitive and total, and equality is equality up to leading zeros |
| `VersionOrder.PartOrderLaws` | libpkg/data/package.cpp:210-263 | comparing parts is a total preorder, and parts are equal exactly if they agree in epoch and trimmed segments |
| `VersionOrder.SplitAtSeparator` | libpkg/data/package.cpp:210-263 | a part is split at everything but letters and digits, and a colon behind the first segment makes an epoch |
| `VersionOrder.FirstDifferenceDecides` | libpkg/data/package.cpp:226-262 | the first segments that differ decide; otherwise more segments are newer |
| `VersionOrder.FirstCharacterDecides` | libpkg/data/package.cpp:191-201 | between segments of the same length the first characters that differ decide |
| `VersionOrder.EpochDecides` | libpkg/data/package.cpp:218-228 | a part with an epoch is newer than any part without |
| `VersionOrder.SegmentOrderIsNumeric` | libpkg/data/package.cpp:174-202 | on digit strings of any length it is comparison of numbers |
| `VersionOrder.NumbersAreSegments` | libpkg/data/package.cpp:210-263 | ... and so is comparison of parts that are numbers |
| `VersionOrder.Matches` | libpkg/data/package.cpp:16-60 | a version matches a constraint exactly if it satisfies it |
| `VersionOrder.WhatModesMean` | libpkg/data/package.cpp:16-60 | what each of the six modes asks of a version in terms of the order of versions and of repetitions with a package release |
| `VersionOrder.ModesCompareNumbers` | libpkg/data/package.cpp:16-60 | on digit strings of any length the modes compare numbers |
| `VersionOrder.RepeatedWithPkgRel` | libpkg/data/package.cpp:241-253 | repeating a version with a package release of letters, digits and dots is such a repetition |
| `VersionOrder.AtLeastIsClosedUpward` | libpkg/data/package.cpp:16-60 | what is at least as new as a version satisfying `>=` satisfies it, and `<` is closed downward |
| `VersionOrder.GreaterThanClosedUpTo` | libpkg/data/package.cpp:16-60 | `>` is lost at exactly the newer versions that add a package release to the required version |
| `VersionOrder.AtMostClosedDownTo` | libpkg/data/package.cpp:16-60 | `<=` is lost at exactly the older versions that are newer than the required one without repeating it, and only if it held for a repetition with a package release |
| `VersionOrder.EqualVersionsMatchAlike` | libpkg/data/package.cpp:16-60 | equal versions satisfy a constraint alike if and only if its mode is none of `=`, `<=` and `>`, they are not newer than the required version, or both or none of them repeat it with a package release |
| `VersionOrder.GreaterThanIsNotClosedUpward` | libpkg/data/package.cpp:16-60 | an example of equal versions that differ in `>`, `<=` and `=` |
| `VersionText.VersionFromString` | libpkg/parser/package.cpp:170-195 | the version that the text denotes: alphanumeric epoch before a colon, package release after the last dash |
| `VersionText.DenotesIsUnique` | libpkg/parser/package.cpp:170-195 | a text denotes one version only |
| `VersionText.VersionRoundTrip` | libpkg/data/package.cpp:313-316 | printing and parsing restores a version if and only if it is well-formed |
| `VersionText.TextsOfVersions` | libpkg/parser/package.cpp:170-195 | what texts with and without epoch and package release denote |
| `VersionText.CompareIsAntisymmetric` | libpkg/data/package.cpp:278-311 | comparing the other way round flips the result |
| `VersionText.WhatComparingMeans` | libpkg/data/package.cpp:278-311 | which versions are a software upgrade, only a newer package release, the same, or older |
| `VersionText.EpochsCompareNumbers` | libpkg/data/package.cpp:281-289 | epochs compare as numbers, and no epoch is the epoch zero |
| `VersionText.CompareComposes` | libpkg/data/package.cpp:278-311 | comparison of three versions is transitive if and only if they are not the same software, one without and two with different package releases |
| `VersionText.CompareIsNotTransitive` | libpkg/data/package.cpp:278-311 | an example where it is not |
| `VersionText.Decimal` | libpkg/parser/utils.cpp:104-104 | the printed number is a digit string with that value |
| `VersionText.EpochBumpIsUpgrade` | libpkg/parser/utils.cpp:103-106 | the bumped version, printed and parsed, has the next epoch, the new upstream version and package release 1; it is a software upgrade over the existing one whatever the upstream versions, unless the epoch is the largest unsigned number |
| `VersionText.DecideBump` | librepomgr/buildactions/preparebuild.cpp:1172-1207 | the epoch is bumped exactly if some package not built from VCS is older than what exists, nothing is bumped exactly if all are newer |
| `VersionText.NoBumpIsNewer` | librepomgr/buildactions/preparebuild.cpp:1162-1162 | a package that needs no bump is considered newer when the package manager compares it with the existing one |
| `Dependencies.DependencyFromString` | libpkg/parser/package.cpp:26-130 | the cursor loop reads name, operator, version with at most one colon and trimmed description |
| `Dependencies.DependencyRoundTrip` | libpkg/parser/package.cpp:132-168 | printing and parsing restores a dependency if and only if it is well-formed |
| `Dependencies.TextsOfDependencies` | libpkg/parser/package.cpp:26-130 | what texts with each operator, without one and with a description are read as |
| `Packages.SetProvides` | libpkg/data/package.cpp:576-584 | true exactly if something in the set meets the dependency |
| `Packages.ProvidesDependency` | libpkg/data/package.cpp:106-119 | true exactly if the package itself or something it provides meets the dependency |
| `Packages.ProvidesMeans` | libpkg/data/package.cpp:106-119 | a package of that name meets a constraint exactly if its version compares as demanded, here in numbers |
| `PackageStore.StorePackage` | libpkg/data/storage.cpp:135-184 | a package replaces the stored one of its name, or gets a new id; names stay unique |
| `DependencyTable.RemoveDependency` | libpkg/data/database.cpp:182-193 | the package is no longer listed under any version of the name, nothing else changes, and no empty entry is left |
| `DependencyTable.AddDependency` | libpkg/data/database.cpp:240-261 | exactly one more package is listed under the dependency, which keeps a single entry |
| `DependencyTable.EntryChanged` | libpkg/data/database.cpp:240-261 | changing the entry of a key changes what is listed under that key only |
| `DependencyIndex.RemoveKeys` | libpkg/data/database.cpp:208-238 | the package is listed under none of its names any more |
| `DependencyIndex.AddKeys` | libpkg/data/database.cpp:280-311 | the package is listed under all its dependencies |
| `DependencyIndex.ReplacedIsExpected` | libpkg/data/database.cpp:509-523 | removing by name and adding by name and version turns the old index into that of the new store |
| `DependencyIndex.Database.UpdatePackage` | libpkg/data/database.cpp:509-523 | the package is stored and all four tables list exactly what the stored packages provide and require, without empty entries if there were none |
| `DependencyIndex.Database.RemovePackage` | libpkg/data/database.cpp:494-507 | the package is gone from the store and all four tables |
| `PackageUpdater.AddAffected` | libpkg/data/database.cpp:838-857 | what is recorded to be added or removed grows by exactly the package's dependencies |
| `PackageUpdater.Submit` | libpkg/data/database.cpp:858-887 | removed packages leave and new ones enter the one entry of the dependency, which is kept even if it becomes empty |
| `PackageUpdater.SubmitAll` | libpkg/data/database.cpp:1034-1042 | a table ends up with its rows without all removed ones and with all new ones |
| `PackageUpdater.PackageUpdater.Update` | libpkg/data/database.cpp:982-988 | one more update is handled, and what has been accumulated still accounts for all of them |
| `PackageUpdater.CommittedRows` | libpkg/data/database.cpp:1034-1042 | a committed table fits the final packages if and only if every update's entries are among those of the version stored in the end |
| `PackageUpdater.CommitIsExact` | libpkg/data/database.cpp:1019-1073 | all tables fit after a commit if and only if no update left anything stale, clearing or not |
| `PackageUpdater.Preserve` | libpkg/data/database.cpp:1024-1033 | a clearing commit keeps exactly the handled packages |
| `PackageUpdater.PackageUpdater.Commit` | libpkg/data/database.cpp:1019-1073 | the contents are those after storing all updates in order (from nothing if clearing), the database is exact if and only if nothing is stale; a clearing commit leaves no empty entry and any other deletes none |
| `PackageUpdater.DistinctNamesAreNotStale` | libpkg/data/database.cpp:838-857 | updating every name at most once leaves nothing stale |
| `PackageUpdater.StoredAllIsLast` | libpkg/data/database.cpp:982-988 | of several updates of one name the last one stays, and what is not updated does not change |
| `PackageUpdater.SecondUpdateLeavesStaleEntry` | libpkg/data/database.cpp:858-872 | an example of two updates of one package that do |
| `PackageUpdater.UpdateInBatch` | libpkg/data/database.cpp:1007-1073 | a whole batch, from creating the updater to committing: every name ends up with its last update, or without any with what was there before unless that is cleared |
| `PackageUpdater.UpdateOneByOne` | libpkg/data/database.cpp:509-523 | single updates always leave the database exact |
| `PackageUpdater.BatchRefinesSingleUpdates` | libpkg/data/database.cpp:1019-1073 | with distinct names both ways end with the same packages listed by name under the same dependencies in all tables |
| `IndexLookup.VisitTable` | libpkg/data/database.cpp:361-381 | the visitor sees packages of matching entries only, until it stops the search, and all of them if it does not |
| `IndexLookup.RelevantIsScan` | libpkg/data/database.cpp:361-381 | with an exact table these are the packages a scan finds |
| `IndexLookup.ForwardScan` | libpkg/data/package.cpp:106-119 | a package is listed as providing a dependency exactly if it provides it |
| `IndexLookup.ReverseScan` | libpkg/data/database.cpp:220-229 | ... and as requiring it exactly if one of its dependencies or optional dependencies matches |
| `IndexLookup.ProvidingPackages` | libpkg/data/database.cpp:361-381 | forward and reverse lookup visit exactly the stored packages a linear scan yields, nothing for an empty name |
| `IndexLookup.ProvidingPackagesOfLibrary` | libpkg/data/database.cpp:410-425 | the same for libraries |
| `IndexLookup.AnyProvides` | libpkg/data/database.cpp:449-462 | never misses a provider, and reports one if and only if there is one when no entry is empty |
| `IndexLookup.ProvidesIsSticky` | libpkg/data/database.cpp:858-872 | after a batch without clearing a dependency is reported as provided if and only if it was before or some package provides it now |
| `IndexLookup.ProvidedByNobody` | libpkg/data/database.cpp:449-462 | an example of a dependency that is still reported after its only provider has been updated not to provide it |
| `Recency.RecentHasNoDuplicates` | libpkg/data/storage.cpp:12-33 | the recency list holds every key used, once |
| `Recency.RecentIsByLastUse` | libpkg/data/storage.cpp:12-33 | it is ordered by last use, most recent first |
| `Recency.UseKept` | libpkg/data/storage.cpp:12-22 | using a kept key moves it to the front of what the limit keeps |
| `Recency.UseOther` | libpkg/data/storage.cpp:24-33 | using another key puts it in front and drops the last one beyond the limit |
| `PackageCache.StorageCacheEntries.FindByID` | libpkg/data/storage.cpp:12-22 | a found entry is moved to the front, otherwise nothing changes |
| `PackageCache.StorageCacheEntries.FindByName` | libpkg/data/storage.cpp:12-22 | the same by storage and name |
| `PackageCache.StorageCacheEntries.Insert` | libpkg/data/storage.cpp:24-33 | a conflicting entry is moved to the front but not replaced; a new one may drop the last one |
| `PackageCache.StorageCacheEntries.Erase` | libpkg/data/storagegeneric.h:118-121 | exactly the entry of that name is gone, the order of the others is kept |
| `PackageCache.StorageCacheEntries.Clear` | libpkg/data/storage.cpp:35-47 | exactly the entries of that storage are gone, and they are counted |
| `PackageCache.StorageCacheEntries.SetLimit` | libpkg/data/storage.cpp:49-55 | the most recent entries up to the limit are kept |
| `PackageCache.ConflictIsSame` | libpkg/data/storagegeneric.h:90-93 | with a sound cache, an entry found by id and one found by name are the same |
| `PackageCache.SoundToFront` | libpkg/data/storage.cpp:12-22 | finding keeps the cache sound and its entries the most recently used ones |
| `PackageCache.SoundInsert` | libpkg/data/storage.cpp:24-33 | so does inserting what is stored |
| `PackageCache.SoundFilter` | libpkg/data/storage.cpp:35-47 | erasing keeps the cache sound while what remains agrees with the stores |
| `PackageCache.StorageCache.Retrieve` | libpkg/data/storage.cpp:57-83 | returns what a direct lookup in the store would, whatever is cached, and counts as a use |
| `PackageCache.StorageCache.RetrieveByName` | libpkg/data/storage.cpp:91-121 | the same by name; nothing is found for an empty name |
| `PackageCache.StorageCache.Store` | libpkg/data/storage.cpp:134-180 | store and cache agree on the new package, and the previous version is returned if there was one |
| `PackageCache.StorageCache.StoreWithID` | libpkg/data/storage.cpp:186-200 | an existing package is replaced in store and cache |
| `PackageCache.PutMeans` | libpkg/data/storage.cpp:166-166 | storing changes the one package only |
| `PackageCache.StorageCache.Invalidate` | libpkg/data/storage.cpp:202-215 | the package is gone from store and cache, and the result says whether it was stored |
| `PackageCache.DropMeans` | libpkg/data/storage.cpp:208-212 | invalidating removes what has that name from the one database only |
| `PackageCache.StorageCache.InvalidateCacheOnly` | libpkg/data/storage.cpp:217-224 | the store is left alone |
| `PackageCache.StorageCache.Clear` | libpkg/data/storage.cpp:226-242 | all packages of one database are gone from store and cache, those of others stay |
| `PackageCache.StorageCache.SetLimit` | libpkg/data/storage.cpp:251-256 | the limit holds at once; recency is exact afterwards unless something dropped earlier would fit again |
| `BuildActions.BuildSetup.GetBuildAction` | librepomgr/serversetup.cpp:351-359 | running actions are found in the cache, others in the storage |
| `BuildActions.BuildSetup.GetBuildActions` | librepomgr/serversetup.cpp:361-383 | all actions with the given ids that exist, and no others |
| `BuildActions.BuildSetup.HaveSucceeded` | librepomgr/buildactions/buildaction.cpp:260-268 | true exactly if all of them that exist have succeeded |
| `BuildActions.BuildSetup.StoreBuildAction` | librepomgr/serversetup.cpp:385-428 | cache, index and storage are updated: a scheduled action is indexed under every existing predecessor that has not succeeded, any other one is taken out |
| `BuildActions.BuildSetup.FollowUpBuildActions` | librepomgr/serversetup.cpp:548-562 | exactly the existing actions indexed under the id, once each |
| `BuildActions.BuildSetup.Start` | librepomgr/buildactions/buildaction.cpp:275-347 | a scheduled action is running afterwards, or has failed if its type is invalid; anything else is left alone |
| `BuildActions.BuildSetup.StartFollowUps` | librepomgr/buildactions/buildaction.cpp:438-451 | exactly the indexed actions whose existing predecessors have all succeeded are started, whatever the order |
| `BuildActions.BuildSetup.Conclude` | librepomgr/buildactions/buildaction.cpp:431-475 | the action is finished and the ready follow-up actions are started if it succeeded |
| `BuildActions.BuildSetup.DeleteBuildAction` | librepomgr/serversetup.cpp:430-454 | the actions are gone from cache, storage and both sides of the index |
| `BuildActions.BuildSetup.RestoreState` | librepomgr/serversetup.cpp:832-845 | nothing is executing any more and every scheduled action is indexed under all it starts after |
| `BuildActions.BuildSetup.AllocateBuildActionID` | librepomgr/serversetup.cpp:342-349 | an unused id, under which an empty action is stored |
| `BuildActions.BuildSetup.Register` | librepomgr/webapi/routes_buildaction.cpp:279-286 | the action is stored and indexed; it waits, for all it starts after, if and only if all of that has been stored before |
| `BuildActions.BuildSetup.StartManually` | librepomgr/webapi/routes_buildaction.cpp:575-577 | only the started action stops waiting |
| `BuildActions.BuildSetup.Finish` | librepomgr/buildactions/buildaction.cpp:431-475 | waiting actions go on waiting unless they have just been started |
| `BuildActions.BuildSetup.Delete` | librepomgr/serversetup.cpp:430-454 | only actions that start after a deleted one may stop waiting |
| `BuildActions.BuildSetup.Restart` | librepomgr/serversetup.cpp:832-845 | everything that starts after existing actions that have not all succeeded is waiting |
| `BuildActions.RegisteredWaits` | librepomgr/serversetup.cpp:393-403 | a registered action waits exactly if all it starts after has been stored before (or succeeded) and something has not succeeded |
| `BuildActions.RegisteredPairs` | librepomgr/serversetup.cpp:393-403 | a registered action is indexed under exactly those of its predecessors that have been stored before and not succeeded |
| `BuildActions.StartsIff` | librepomgr/buildactions/buildaction.cpp:438-451 | the success of an action starts exactly those scheduled actions that are indexed under it and whose existing predecessors have all succeeded |
| `BuildActions.StartedAreJustified` | librepomgr/buildactions/buildaction.cpp:438-451 | what is started as a follow-up was scheduled, starts after the concluded action, and has all existing predecessors succeeded |
| `BuildActions.LastOneStartsIt` | librepomgr/buildactions/buildaction.cpp:438-451 | the success of the last missing predecessor starts a waiting action |
| `BuildActions.ConcludeKeepsIndex` | librepomgr/buildactions/buildaction.cpp:431-475 | the cache still holds exactly the executing actions and the index only lists scheduled ones under what they start after |
| `BuildActions.ConcludeKeepsWaiting` | librepomgr/buildactions/buildaction.cpp:438-451 | no wake-up is lost by concluding any action in any way |
| `BuildActionRuns.RunIsWellKept` | librepomgr/serversetup.cpp:385-562 | over all runs the cache is exact and the index sound |
| `BuildActionRuns.CacheMeans` | librepomgr/serversetup.cpp:385-392 | over all runs the cache holds exactly what is enqueued or running |
| `BuildActionRuns.FinishMeans` | librepomgr/buildactions/buildaction.cpp:431-475 | a concluded action is finished with the given result; apart from that only follow-up actions of a success may have been started |
| `BuildActionRuns.StartMeans` | librepomgr/buildactions/buildaction.cpp:275-347 | a started action is running, or has failed if its type is invalid, and no other changes |
| `BuildActionRuns.RestartMeans` | librepomgr/serversetup.cpp:832-845 | after a restart exactly what was enqueued or running has failed |
| `BuildActionRuns.DeleteMeans` | librepomgr/serversetup.cpp:430-454 | exactly the given actions are gone |
| `BuildActionRuns.StartedAtMostOnce` | librepomgr/buildactions/buildaction.cpp:438-451 | an action is started automatically at most once unless it has been deleted in between |
| `BuildActionRuns.StartIsJustified` | librepomgr/buildactions/buildaction.cpp:438-451 | whenever an action is started automatically, all it starts after has succeeded as far as it exists |
| `BuildActionRuns.WaitsUntilStarted` | librepomgr/serversetup.cpp:385-562 | a waiting action that nobody interferes with waits until it is started |
| `BuildActionRuns.NoLostWakeUp` | librepomgr/buildactions/buildaction.cpp:438-451 | an action whose predecessors had all been stored when it was registered has been started by the time they have succeeded, restarts or not |
| `BuildActionRuns.StartedIffStoredBefore` | librepomgr/buildactions/buildaction.cpp:438-451 | without interference, an event starts a registered action if and only if it is the success of a predecessor that had been stored when the action was registered, and all other existing ones have succeeded |
| `BuildActionRuns.StartedSoFarIff` | librepomgr/serversetup.cpp:393-403 | so an action has been started so far if and only if there was such an event |
| `BuildActionRuns.StartedAfterRestart` | librepomgr/serversetup.cpp:832-845 | after a restart the same holds for all predecessors, stored before or not |
| `BuildActionRuns.WakeUpLostForMissing` | librepomgr/serversetup.cpp:396-402 | a run at whose end an action is still scheduled although what it starts after has succeeded |
| `Reachability.OrderedIsAcyclic` | libpkg/data/config.cpp:94-126 | there is no cycle among things listed after all they lead to |
| `Reachability.Dual` | libpkg/data/config.cpp:94-170 | reachability is the same in a graph with all arrows turned around, up to loops |
| `DatabaseOrder.FindDatabase` | libpkg/algo/search.cpp:18-26 | the first configured database of that name, in that architecture if one is given |
| `DatabaseOrder.DependencySearch.AddDatabaseDependencies` | libpkg/data/config.cpp:94-127 | ends; finished databases stay in dependency order, all of them reached, or the reported error is real |
| `DatabaseOrder.BackIsCycle` | libpkg/data/config.cpp:102-104 | coming back to a database being processed is a cycle reachable from the root |
| `DatabaseOrder.ComputeDatabaseDependencyOrder` | libpkg/data/config.cpp:129-139 | there is an order if and only if nothing reachable is missing or on a cycle; it is exactly what is reachable, with or without the root, each once and after all its dependencies |
| `DatabaseOrder.OrderMeans` | libpkg/data/config.cpp:112-126 | what a database in an order names as a dependency comes before it, configured and of the same architecture |
| `DatabaseOrder.RequiringSearch.AddDatabasesRequiringDatabase` | libpkg/data/config.cpp:141-161 | ends on cycles; what has been added is reachable and everything one step further is visited |
| `DatabaseOrder.ComputeDatabasesRequiringDatabase` | libpkg/data/config.cpp:163-170 | exactly the databases that require the given one, directly or not, each once |
| `DatabaseOrder.DualIffDependenciesAreRequired` | libpkg/data/config.cpp:94-170 | requiring is depending backwards for all pairs of databases if and only if, for any two, one is found to require the other exactly if a dependency of it is looked up as that one |
| `DatabaseOrder.UniqueDatabasesAreDual` | libpkg/data/config.cpp:94-170 | unique names per architecture are enough |
| `DatabaseOrder.CompareSearches` | libpkg/data/config.cpp:94-170 | under that condition both searches find the same pairs unless the order cannot be computed |
| `DatabaseOrder.EmptyArchitectureIsNotDual` | libpkg/data/config.cpp:153-156 | an example without architecture where they do not |
| `GlobalLock.GlobalSharedMutex.Notify` | librepomgr/globallock.h:117-142 | shared callbacks first, all at once, otherwise the exclusive one if the lock is free |
| `GlobalLock.GlobalSharedMutex.TryLock` | librepomgr/globallock.h:49-57 | exclusive ownership exactly if the lock is free |
| `GlobalLock.GlobalSharedMutex.LockAsync` | librepomgr/globallock.h:59-69 | as before, or the callback replaces the queued one |
| `GlobalLock.GlobalSharedMutex.Unlock` | librepomgr/globallock.h:71-76 | ownership is given up and the queue notified |
| `GlobalLock.GlobalSharedMutex.TryLockShared` | librepomgr/globallock.h:87-95 | shared ownership exactly if there is no exclusive owner |
| `GlobalLock.GlobalSharedMutex.LockSharedAsync` | librepomgr/globallock.h:97-107 | as before, or the callback is queued |
| `GlobalLock.GlobalSharedMutex.UnlockShared` | librepomgr/globallock.h:109-115 | one owner less, and the queue is notified by the last one |
| `GlobalLock.GrantedWereWaiting` | librepomgr/globallock.h:117-142 | ownership goes to queued requests, or to the one being made, each once |
| `GlobalLock.OwnersAfter` | librepomgr/globallock.h:40-142 | owners change by exactly who unlocks and who is granted ownership |
| `GlobalLock.StepKeepsInvariant` | librepomgr/globallock.h:40-142 | every operation keeps counters, queues and exclusion right |
| `GlobalLock.StepMovesOn` | librepomgr/globallock.h:40-142 | a request moves on only by being granted, unlocked by its owner or superseded |
| `GlobalLock.TryLockLaw` | librepomgr/globallock.h:49-57 | a free lock is taken, and nothing changes otherwise |
| `GlobalLock.LockAsyncLaw` | librepomgr/globallock.h:59-69 | a free lock is taken; otherwise the request is queued in place of the one before |
| `GlobalLock.UnlockLaw` | librepomgr/globallock.h:71-76 | all shared requests in the queue become owners; if there are none, the exclusive one |
| `GlobalLock.TryLockSharedLaw` | librepomgr/globallock.h:87-95 | shared ownership is given unless there is an exclusive owner, and nothing changes otherwise |
| `GlobalLock.LockSharedAsyncLaw` | librepomgr/globallock.h:97-107 | shared ownership is given unless there is an exclusive owner; otherwise the request is queued |
| `GlobalLock.UnlockSharedLaw` | librepomgr/globallock.h:109-115 | the last shared owner lets the exclusive request in; otherwise nothing but the release happens |
| `GlobalLock.RunKeepsInvariant` | librepomgr/globallock.h:40-142 | over all interleavings: never shared and exclusive, counters equal the owners, shared requests wait only for an exclusive owner, exclusive ones only while the lock is held |
| `GlobalLock.UnlockServesTheQueue` | librepomgr/globallock.h:71-76 | an exclusive owner hands over to all waiting shared requests, or else to the waiting exclusive one |
| `GlobalLock.GrantedAtMostOnce` | librepomgr/globallock.h:117-142 | no request is granted twice |
| `GlobalLock.SharedIsNeverLost` | librepomgr/globallock.h:97-107 | a shared request is queued behind an exclusive owner or has been granted |
| `GlobalLock.ExclusiveIsOnlySuperseded` | librepomgr/globallock.h:59-69 | an exclusive request is lost only if another one was made while it was queued |
| `GlobalLock.SecondRequestSupersedes` | librepomgr/globallock.h:62-63 | ... which always loses it |
| `BuildOrder.Config.FindPackage` | libpkg/algo/search.cpp:131-149 | some package providing the dependency, one of exactly that name if there is any, nothing exactly if none provides it |
| `BuildOrder.TopologicalSort.AddDepsRecursivelyInTopoOrder` | libpkg/algo/buildorder.cpp:39-122 | ends; the dependency is provided by a finished item, ignored as unknown or left to a pending binary package, and finished items stay in order - or the chain has become a cycle |
| `BuildOrder.TopologicalSort.AddDependenciesOf` | libpkg/algo/buildorder.cpp:94-114 | all dependencies of the package are self-provided or taken care of |
| `BuildOrder.TopologicalSort.KeepCycle` | libpkg/algo/buildorder.cpp:76-84 | dropping what leads up to it leaves a real dependency cycle |
| `BuildOrder.PendingIsInChain` | libpkg/algo/buildorder.cpp:64-74 | an item that exists but is not finished is in the current chain |
| `BuildOrder.CloseCycle` | libpkg/algo/buildorder.cpp:76-84 | a dependency on something in the chain closes a cycle |
| `BuildOrder.OrderMeans` | libpkg/algo/buildorder.cpp:94-114 | every dependency of a package in an order, including those for building and checking it if considered, is provided by itself, an earlier item or a binary package, or by nothing at all |
| `BuildOrder.CycleMeans` | libpkg/algo/buildorder.cpp:76-84 | each package of a cycle has such a dependency, which it does not provide itself, that the next one provides |
| `BuildOrder.ComputeBuildOrder` | libpkg/algo/buildorder.cpp:124-157 | every dependency of a finished item is provided by itself, by an earlier item, by a binary package or is unknown; a reported cycle is real; without one everything asked for is in the order or ignored; success means neither cycle nor anything ignored |

## Left out

- PrepareBuild.PrepareBuild.ComputeBatches: being aborted between two rounds and failing to find the databases end `computeBatches` early, without any result; the model covers the other runs. Deducing batches from a specified order is not modelled.
- PackageStore.StorePackage: `addDepsAndProvidesFromOtherPackage` is not modelled, which takes over libraries and interpreter dependencies from the old package; a package given to an update stands for what is stored.
- DependencyIndex.Database.UpdatePackage: the same, and `beginUpdate` and `endUpdate` are left out.
- PackageCache.StorageCache.Store: the same.
- PackageCache.StorageCache.StoreWithID: only for a stored id and an unchanged name, which is what it is documented for.
- PackageCache.StorageCache.Clear: the index tables that are cleared as well are not part of the cache's model.
- BuildOrder.ComputeBuildOrder: all dependencies are included in the result; filtering by options and the flag it needs are left out.
- LMDB, Boost.Asio, `multi_index`, serialization, processes, files and HTTP are not modelled: a store is a map, a handler is one step, iteration over a hash container is an arbitrary choice.
- Only one package is in flight in a build session; parallel sessions are not modelled (`enqueueMakechrootpkg` reports a failure before it fetches the next package).
- The outcomes of the search for needed items are those its contract allows: iterating over the same hash container twice may give two different orders in the model.
- A batch item holds its dependency sets as sequences of entries here; the packages that an entry is relevant for are not needed any more. Entries of a set are in the order of their first addition, where the hash container has any order. `DependencySet::find` and the overload of `add` that uses it are left out.
- `DatabaseDependency::mode` is not kept in index entries; entries merge by name and version and the first mode wins. `detectUnresolvedPackages`, which relies on it, is left out.
- Library tables have the same shape as dependency tables here, with an empty version, so one set of operations covers both.
- Database and cache are two models: `DependencyIndex` reads the stored packages directly, and `PackageCache` shows that reading through the cache is the same.
- The transaction of an updater is taken to be committed; what a rolled-back one leaves in the cache is not modelled. Stored packages are not changed in place, and the cache limit is at least one.
- A build action is a value here; the running one that is shared by pointer and changed in place is modelled by changing the cache before the follow-up actions are looked at. Secrets, output and timestamps are left out, ids are allocated before an action is stored, and 32-bit limits of ids are not modelled.
- The immediate start in `storeBuildAction` is left out, as its condition is never set. Deleting does not check that an action is not executing, as the function itself does not.
- Condition variables, and the order in which blocked threads of `lock()` and `lock_shared()` wake up, are not modelled: a blocking call is a sequence of attempts. The 32-bit width of the owner counter is left out.
- Numbers that are not digit strings, and epochs beyond the unsigned limit, do not reach the epoch arithmetic in the model. The package release bump by 0.1 and the rewriting of PKGBUILDs are left out, as is `trimPackageVersion`.
- Names and versions contain no NUL character.

/**
 * The session that hands out the packages of the batches one by one, stops after a batch with failures and
 * switches staging on.
 */
module BatchSession {
  import opened Wrappers

  /** A place in the list of batches. */
  datatype Position = Position(batch: nat, index: nat)

  predicate IsRelevant(relevant: set<string>, name: string) {
    relevant == {} || name in relevant
  }

  /** The relevant places among the first n packages of batch b. */
  function RelevantIn(batches: seq<seq<string>>, relevant: set<string>, b: nat, n: nat): seq<Position>
    requires b < |batches| && n <= |batches[b]|
  {
    if n == 0 then []
    else RelevantIn(batches, relevant, b, n - 1) +
         if IsRelevant(relevant, batches[b][n - 1]) then [Position(b, n - 1)] else []
  }

  /** The relevant places of the first b batches, in batch order. */
  function RelevantUpTo(batches: seq<seq<string>>, relevant: set<string>, b: nat): seq<Position>
    requires b <= |batches|
  {
    if b == 0 then [] else RelevantUpTo(batches, relevant, b - 1) + RelevantIn(batches, relevant, b - 1, |batches[b - 1]|)
  }

  /** The relevant places before package j of batch b. */
  function RelevantBefore(batches: seq<seq<string>>, relevant: set<string>, b: nat, j: nat): seq<Position>
    requires b <= |batches| && (b < |batches| ==> j <= |batches[b]|)
  {
    RelevantUpTo(batches, relevant, b) + if b < |batches| then RelevantIn(batches, relevant, b, j) else []
  }

  lemma PassPlace(batches: seq<seq<string>>, relevant: set<string>, b: nat, j: nat, b': nat, j': nat)
    requires b < |batches| && j < |batches[b]|
    requires (b' == b && j' == j + 1) || (b' == b + 1 && j + 1 == |batches[b]| && (b' < |batches| ==> j' == 0))
    ensures RelevantBefore(batches, relevant, b', j') ==
            RelevantBefore(batches, relevant, b, j) + if IsRelevant(relevant, batches[b][j]) then [Position(b, j)] else []
  {
  }

  /** An empty batch ends a session, so only the batches before the first empty one are ever reached. */
  function Live(batches: seq<seq<string>>): (n: nat)
    ensures n <= |batches| && (n < |batches| ==> batches[n] == [])
    ensures forall k :: 0 <= k < n ==> batches[k] != []
  {
    LiveFrom(batches, 0)
  }

  function LiveFrom(batches: seq<seq<string>>, k: nat): (n: nat)
    requires k <= |batches| && forall i :: 0 <= i < k ==> batches[i] != []
    ensures k <= n <= |batches| && (n < |batches| ==> batches[n] == [])
    ensures forall i :: 0 <= i < n ==> batches[i] != []
    decreases |batches| - k
  {
    if k < |batches| && batches[k] != [] then LiveFrom(batches, k + 1) else k
  }

  // ---------------------------------------------------------------- when staging is active

  /** The place is before the iterators (b, j). */
  predicate Before(p: Position, b: nat, j: nat) {
    p.batch < b || (p.batch == b && p.index < j)
  }

  /** A package was handed out from inside batch m, after an earlier one of the same batch, or is about to be. */
  predicate MovedInside(batches: seq<seq<string>>, m: nat, b: nat, j: nat) {
    m < |batches| && |batches[m]| >= 2 && (m < b || (m == b && j >= 1))
  }

  ghost predicate MovedInsideLater(batches: seq<seq<string>>, a: Position, b: nat, j: nat) {
    exists m: nat :: a.batch < m && MovedInside(batches, m, b, j)
  }

  predicate LastOfBatch(batches: seq<seq<string>>, a: Position) {
    a.batch < |batches| && a.index + 1 == |batches[a.batch]|
  }

  /** A request has taken effect: at once if it came from the last package of its batch, otherwise inside a later batch. */
  ghost predicate Effective(batches: seq<seq<string>>, a: Position, b: nat, j: nat) {
    (LastOfBatch(batches, a) && a.batch < b && a.batch + 1 < |batches|) || MovedInsideLater(batches, a, b, j)
  }

  datatype Staging = Staging(next: bool, this_: bool, enabled: bool)

  /** What the three flags mean in terms of the requests made so far. */
  ghost predicate StagingIs(batches: seq<seq<string>>, asked: set<Position>, b: nat, j: nat, s: Staging) {
    && (forall a :: a in asked ==> a.batch < |batches| && a.index < |batches[a.batch]| && Before(a, b, j))
    && (s.next <==> asked != {})
    && (s.this_ ==> exists a :: a in asked && a.batch < b)
    && (forall a :: a in asked && a.batch < b < |batches| ==> s.this_ || s.enabled)
    && (s.enabled <==> exists a :: a in asked && Effective(batches, a, b, j))
  }

  lemma MoveInside(batches: seq<seq<string>>, asked: set<Position>, b: nat, j: nat, s: Staging)
    requires StagingIs(batches, asked, b, j, s) && b < |batches| && j + 1 < |batches[b]|
    ensures StagingIs(batches, asked, b, j + 1, s.(enabled := s.enabled || s.this_))
  {
    forall a | a in asked ensures Effective(batches, a, b, j + 1) <==> Effective(batches, a, b, j) || a.batch < b {
      if Effective(batches, a, b, j) {
        EffectiveGrows(batches, a, b, j, b, j + 1);
      }
      assert MovedInside(batches, b, b, j + 1);
    }
  }

  lemma EffectiveGrows(batches: seq<seq<string>>, a: Position, b: nat, j: nat, b': nat, j': nat)
    requires Effective(batches, a, b, j) && (b < b' || (b == b' && j <= j'))
    ensures Effective(batches, a, b', j')
  {
    if MovedInsideLater(batches, a, b, j) {
      var m: nat :| a.batch < m && MovedInside(batches, m, b, j);
      assert MovedInside(batches, m, b', j');
    }
  }

  /** Passing the last package of a batch is no move inside a batch. */
  lemma PassLast(batches: seq<seq<string>>, a: Position, b: nat, j: nat, b': nat, j': nat)
    requires b < |batches| && j + 1 == |batches[b]| && a.batch < |batches| && Before(a, b, j)
    requires (b' == b && j' == j + 1) || (b' == b + 1 && (b' < |batches| ==> j' == 0))
    ensures Effective(batches, a, b', j') <==> Effective(batches, a, b, j)
  {
    if Effective(batches, a, b, j) {
      EffectiveGrows(batches, a, b, j, b', j');
    }
    if MovedInsideLater(batches, a, b', j') {
      var m: nat :| a.batch < m && MovedInside(batches, m, b', j');
      assert MovedInside(batches, m, b, j);
    }
  }

  lemma MoveOn(batches: seq<seq<string>>, asked: set<Position>, b: nat, j: nat, s: Staging, b': nat, j': nat)
    requires StagingIs(batches, asked, b, j, s) && b < |batches| && j + 1 == |batches[b]|
    requires (b' == b && j' == j + 1) || (b' == b + 1 && (b' < |batches| ==> j' == 0))
    ensures StagingIs(batches, asked, b', j', if b < b' < |batches| then s.(this_ := s.next) else s)
  {
    forall a | a in asked ensures Effective(batches, a, b', j') <==> Effective(batches, a, b, j) {
      PassLast(batches, a, b, j, b', j');
    }
    if asked != {} {
      var a :| a in asked;
      assert a.batch < b + 1;
    }
  }

  lemma Ask(batches: seq<seq<string>>, asked: set<Position>, b: nat, j: nat, s: Staging, a: Position)
    requires StagingIs(batches, asked, b, j, s) && a.batch < |batches| && a.index < |batches[a.batch]|
    requires if b == a.batch then j == a.index + 1 else b == a.batch + 1 && LastOfBatch(batches, a) && (b < |batches| ==> j == 0)
    ensures StagingIs(batches, asked + {a}, b, j,
                      Staging(true, s.this_, s.enabled || (b < |batches| && b != 0 && j == 0)))
  {
    assert !MovedInsideLater(batches, a, b, j);
    forall c | c in asked + {a}
      ensures Effective(batches, c, b, j) <==> (c in asked && Effective(batches, c, b, j)) || (c == a && b < |batches| && b != 0 && j == 0)
    {
    }
    assert a in asked + {a};
  }

  // ---------------------------------------------------------------- which failures are noticed

  /** A failure in an earlier batch, except one of the last package of the batch before. */
  predicate Noticed(batches: seq<seq<string>>, p: Position, b: nat) {
    p.batch < b && !(p.batch + 1 == b && LastOfBatch(batches, p))
  }

  datatype Failures = Failures(any: bool, first: bool, previous: bool)

  /** What the records mean in terms of the packages that have failed so far. */
  ghost predicate FailuresAre(batches: seq<seq<string>>, failed: set<Position>, b: nat, j: nat, f: Failures) {
    && (forall p :: p in failed ==> Before(p, b, j))
    && (f.any <==> failed != {})
    && (b < |batches| && j < |batches[b]| ==> (f.first <==> j == 0) && (f.previous <==> exists p :: p in failed && Noticed(batches, p, b)))
  }

  lemma FailuresStay(batches: seq<seq<string>>, failed: set<Position>, b: nat, j: nat, f: Failures, b': nat, j': nat, f': Failures)
    requires FailuresAre(batches, failed, b, j, f) && b < |batches| && j < |batches[b]| && f'.any == f.any
    requires if j + 1 < |batches[b]| then b' == b && j' == j + 1 && !f'.first && f'.previous == f.previous
             else (b' == b && j' == j + 1) || (b' == b + 1 && (b' < |batches| ==> j' == 0 && f'.first && f'.previous == f.any))
    ensures FailuresAre(batches, failed, b', j', f')
  {
    if b' == b + 1 && failed != {} {
      var p :| p in failed;
      assert Noticed(batches, p, b');
    }
  }

  /** A failure is reported while the iterators are right behind the package. */
  lemma FailureAdded(batches: seq<seq<string>>, failed: set<Position>, b: nat, j: nat, f: Failures, p: Position)
    requires FailuresAre(batches, failed, b, j, f)
    requires if b == p.batch then j == p.index + 1 else b == p.batch + 1 && LastOfBatch(batches, p)
    ensures FailuresAre(batches, failed + {p}, b, j, f.(any := true))
  {
    assert !Noticed(batches, p, b);
    assert p in failed + {p};
    assert (exists q :: q in failed + {p} && Noticed(batches, q, b)) <==> (exists q :: q in failed && Noticed(batches, q, b));
  }

  class BatchProcessingSession {
    const batches: seq<seq<string>>
    const relevantPackages: set<string>
    const skipBatchesAfterFailure: bool
    var batchIterator: nat
    var packageIterator: nat
    var packageEnd: nat
    var allResponses: seq<string>
    var firstPackageInBatch: bool
    var failuresInPreviousBatches: bool
    var enableStagingNext: bool
    var enableStagingThis: bool
    var stagingEnabled: bool
    // which packages have requested staging, which ones have failed, and the package being processed
    ghost var asked: set<Position>
    ghost var failed: set<Position>
    ghost var inFlight: Option<Position>

    ghost predicate Valid()
      reads this
    {
      && batchIterator <= Live(batches)
      && packageIterator <= packageEnd
      && packageEnd == (if batchIterator < |batches| then |batches[batchIterator]| else packageIterator)
      && (batchIterator < |batches| && packageIterator == packageEnd > 0 ==> skipBatchesAfterFailure && allResponses != [])
    }

    ghost predicate FlagsAreRight()
      reads this
    {
      && StagingIs(batches, asked, batchIterator, packageIterator, Flags())
      && FailuresAre(batches, failed, batchIterator, packageIterator, FailureFlags())
    }

    function FailureFlags(): Failures
      reads this
    {
      Failures(allResponses != [], firstPackageInBatch, failuresInPreviousBatches)
    }

    function Flags(): Staging
      reads this
    {
      Staging(enableStagingNext, enableStagingThis, stagingEnabled)
    }

    /** The iterators are right behind the package being processed. */
    ghost predicate Processing(p: Position)
      reads this
    {
      && inFlight == Some(p) && IsPlace(batches, p)
      && if batchIterator == p.batch then packageIterator == p.index + 1
         else batchIterator == p.batch + 1 && LastOfBatch(batches, p) && (batchIterator < |batches| ==> packageIterator == 0)
    }

    /** The relevant packages before the iterators. */
    ghost function HandedOut(): seq<Position>
      requires Valid()
      reads this
    {
      RelevantBefore(batches, relevantPackages, batchIterator, packageIterator)
    }

    constructor (relevantPackages: set<string>, batches: seq<seq<string>>, skipBatchesAfterFailure: bool)
      ensures this.batches == batches && this.relevantPackages == relevantPackages
      ensures this.skipBatchesAfterFailure == skipBatchesAfterFailure
      ensures Valid() && HandedOut() == [] && allResponses == [] && batchIterator == packageIterator == 0
      ensures asked == {} && failed == {} && FlagsAreRight()
    {
      this.batches, this.relevantPackages, this.skipBatchesAfterFailure := batches, relevantPackages, skipBatchesAfterFailure;
      batchIterator, packageIterator := 0, 0;
      packageEnd := if batches != [] then |batches[0]| else 0;
      allResponses := [];
      firstPackageInBatch, failuresInPreviousBatches := true, false;
      enableStagingNext, enableStagingThis, stagingEnabled := false, false, false;
      asked, failed, inFlight := {}, {}, None;
    }

    predicate IsValid()
      reads this
    {
      packageIterator != packageEnd && (allResponses == [] || !skipBatchesAfterFailure || packageIterator != 0)
    }

    predicate IsStagingEnabled()
      reads this
    {
      stagingEnabled
    }

    /**
     * While there is a next package, reports whether something in an earlier batch has failed; from the second package of
     * a batch on, a failure of the last package of the batch before is missed.
     */
    predicate HasFailuresInPreviousBatches(): (res: bool)
      requires Valid() && FlagsAreRight()
      reads this
      ensures packageIterator != packageEnd ==>
                (res <==> exists p :: p in failed && p.batch < batchIterator && (packageIterator == 0 || Noticed(batches, p, batchIterator)))
    {
      assert packageIterator == 0 ==> forall p :: p in failed ==> p.batch < batchIterator;
      failuresInPreviousBatches || (firstPackageInBatch && allResponses != [])
    }

    method AddResponse(name: string)
      requires Valid() && FlagsAreRight() && inFlight.Some? && Processing(inFlight.value)
      modifies this`allResponses, this`failed
      ensures allResponses == old(allResponses) + [name] && Valid() && HandedOut() == old(HandedOut())
      ensures FlagsAreRight() && failed == old(failed) + {inFlight.value}
    {
      FailureAdded(batches, failed, batchIterator, packageIterator, FailureFlags(), inFlight.value);
      allResponses, failed := allResponses + [name], failed + {inFlight.value};
    }

    /** Moves to the next package; into the next batch only if failures do not forbid it. */
    method SelectNextPackage()
      requires Valid() && IsValid()
      modifies this
      ensures Valid() && allResponses == old(allResponses) && asked == old(asked) && failed == old(failed)
      ensures inFlight == Some(Position(old(batchIterator), old(packageIterator))) && Processing(inFlight.value)
      ensures batchIterator == old(batchIterator) && packageIterator < packageEnd ==>
                !firstPackageInBatch && failuresInPreviousBatches == old(failuresInPreviousBatches)
      ensures old(batchIterator) < batchIterator < |batches| ==> firstPackageInBatch && (failuresInPreviousBatches <==> allResponses != [])
      ensures var b, j, flags := old(batchIterator), old(packageIterator), old(Flags());
              Flags() == if j + 1 < |batches[b]| then flags.(enabled := flags.enabled || flags.this_)
                         else if b < batchIterator < |batches| then flags.(this_ := flags.next) else flags
      ensures batchIterator == old(batchIterator) + 1 ==> allResponses == [] || !skipBatchesAfterFailure
    {
      hide Live;
      inFlight := Some(Position(batchIterator, packageIterator));
      packageIterator := packageIterator + 1;
      if packageIterator != packageEnd {
        firstPackageInBatch := false;
        stagingEnabled := stagingEnabled || enableStagingThis;
        return;
      }
      SelectNextBatch();
    }

    /** Behind the last package of a batch. */
    method SelectNextBatch()
      requires batchIterator < Live(batches) && packageIterator == packageEnd == |batches[batchIterator]|
      modifies this
      ensures Valid() && allResponses == old(allResponses) && asked == old(asked) && failed == old(failed) && inFlight == old(inFlight)
      ensures batchIterator == old(batchIterator) ==> packageIterator == packageEnd == old(packageEnd) && Flags() == old(Flags())
      ensures batchIterator != old(batchIterator) ==> batchIterator == old(batchIterator) + 1 && (allResponses == [] || !skipBatchesAfterFailure)
      ensures batchIterator == |batches| ==> Flags() == old(Flags())
      ensures old(batchIterator) < batchIterator < |batches| ==>
                && packageIterator == 0 && Flags() == old(Flags()).(this_ := old(enableStagingNext))
                && firstPackageInBatch && (failuresInPreviousBatches <==> allResponses != [])
    {
      failuresInPreviousBatches := allResponses != [];
      if failuresInPreviousBatches && skipBatchesAfterFailure {
        return;
      }
      batchIterator := batchIterator + 1;
      if batchIterator == |batches| {
        return;
      }
      packageIterator := 0;
      packageEnd := |batches[batchIterator]|;
      firstPackageInBatch := true;
      enableStagingThis := enableStagingNext;
    }

    method EnableStagingInNextBatch()
      requires Valid() && FlagsAreRight() && inFlight.Some? && Processing(inFlight.value)
      modifies this
      ensures Valid() && FlagsAreRight() && inFlight == old(inFlight)
      ensures batchIterator == old(batchIterator) && packageIterator == old(packageIterator) && allResponses == old(allResponses)
      ensures asked == old(asked) + {inFlight.value} && failed == old(failed)
    {
      hide StagingIs, FailuresAre;
      Ask(batches, asked, batchIterator, packageIterator, Flags(), inFlight.value);
      asked := asked + {inFlight.value};
      enableStagingNext := true;
      if !stagingEnabled {
        stagingEnabled := batchIterator != |batches| && batchIterator != 0 && packageIterator == 0;
      }
    }

    /** The next relevant package, or nothing if there is none or a failure forbids going on. */
    method GetCurrentPackageNameIfValidAndRelevantAndSelectNext() returns (packageName: Option<string>)
      requires Valid() && FlagsAreRight()
      modifies this
      ensures Valid() && FlagsAreRight() && allResponses == old(allResponses) && asked == old(asked) && failed == old(failed)
      ensures packageName == None ==> HandedOut() == old(HandedOut()) && !IsValid()
      ensures packageName != None ==>
                && inFlight.Some? && Processing(inFlight.value) && old(batchIterator) <= inFlight.value.batch
                && HandedOut() == old(HandedOut()) + [inFlight.value]
                && packageName.value == batches[inFlight.value.batch][inFlight.value.index]
      ensures allResponses != [] && skipBatchesAfterFailure ==> batchIterator == old(batchIterator)
      ensures !old(IsValid()) ==> packageName == None && packageIterator == old(packageIterator) && batchIterator == old(batchIterator)
    {
      while true
        invariant old(IsValid()) ||
                  (batchIterator == old(batchIterator) && packageIterator == old(packageIterator) && IsValid() == old(IsValid()))
        invariant Valid() && FlagsAreRight() && allResponses == old(allResponses) && asked == old(asked) && failed == old(failed)
        invariant HandedOut() == old(HandedOut()) && old(batchIterator) <= batchIterator
        invariant allResponses != [] && skipBatchesAfterFailure ==> batchIterator == old(batchIterator)
        decreases |batches| - batchIterator, packageEnd - packageIterator
      {
        if !IsValid() {
          return None;
        }
        var name := batches[batchIterator][packageIterator];
        StepNext();
        if IsRelevant(relevantPackages, name) {
          return Some(name);
        }
      }
    }

    /** SelectNextPackage() as the session sees it: one more place handed out if it is relevant, and flags that stay right. */
    method StepNext()
      requires Valid() && FlagsAreRight() && IsValid()
      modifies this
      ensures Valid() && FlagsAreRight() && allResponses == old(allResponses) && asked == old(asked) && failed == old(failed)
      ensures inFlight == Some(Position(old(batchIterator), old(packageIterator))) && Processing(inFlight.value)
      ensures HandedOut() == old(HandedOut()) + if IsRelevant(relevantPackages, NameAt(batches, inFlight.value)) then [inFlight.value] else []
      ensures batchIterator == old(batchIterator) + 1 ==> allResponses == [] || !skipBatchesAfterFailure
    {
      ghost var b, j, flags, failures := batchIterator, packageIterator, Flags(), FailureFlags();
      SelectNextPackage();
      FailuresStay(batches, failed, b, j, failures, batchIterator, packageIterator, FailureFlags());
      PassPlace(batches, relevantPackages, b, j, batchIterator, packageIterator);
      if j + 1 < |batches[b]| {
        MoveInside(batches, asked, b, j, flags);
      } else {
        MoveOn(batches, asked, b, j, flags, batchIterator, packageIterator);
      }
    }
  }

  predicate IsPlace(batches: seq<seq<string>>, p: Position) {
    p.batch < |batches| && p.index < |batches[p.batch]|
  }

  function NameAt(batches: seq<seq<string>>, p: Position): string
    requires IsPlace(batches, p)
  {
    batches[p.batch][p.index]
  }

  // ---------------------------------------------------------------- facts about the places

  /** Everything a session could ever hand out, in order. */
  function AllRelevant(batches: seq<seq<string>>, relevant: set<string>): seq<Position> {
    RelevantUpTo(batches, relevant, Live(batches))
  }

  predicate Precedes(p: Position, q: Position) {
    p.batch < q.batch || (p.batch == q.batch && p.index < q.index)
  }

  predicate InOrder(places: seq<Position>) {
    forall i, k :: 0 <= i < k < |places| ==> Precedes(places[i], places[k])
  }

  lemma {:induction false} RelevantInFacts(batches: seq<seq<string>>, relevant: set<string>, b: nat, n: nat)
    requires b < |batches| && n <= |batches[b]|
    ensures var places := RelevantIn(batches, relevant, b, n);
            && InOrder(places)
            && forall p :: p in places <==> p.batch == b && p.index < n && IsRelevant(relevant, batches[b][p.index])
  {
    if n > 0 {
      RelevantInFacts(batches, relevant, b, n - 1);
    }
  }

  lemma {:induction false} RelevantUpToFacts(batches: seq<seq<string>>, relevant: set<string>, b: nat)
    requires b <= |batches|
    ensures var places := RelevantUpTo(batches, relevant, b);
            && InOrder(places)
            && forall p :: p in places <==>
                 p.batch < b && p.index < |batches[p.batch]| && IsRelevant(relevant, batches[p.batch][p.index])
  {
    if b > 0 {
      RelevantUpToFacts(batches, relevant, b - 1);
      RelevantInFacts(batches, relevant, b - 1, |batches[b - 1]|);
      AppendInOrder(RelevantUpTo(batches, relevant, b - 1), RelevantIn(batches, relevant, b - 1, |batches[b - 1]|));
    }
  }

  lemma AppendInOrder(front: seq<Position>, back: seq<Position>)
    requires InOrder(front) && InOrder(back) && forall p, q :: p in front && q in back ==> Precedes(p, q)
    ensures InOrder(front + back)
  {
  }

  lemma {:induction false} RelevantInPrefix(batches: seq<seq<string>>, relevant: set<string>, b: nat, n: nat, m: nat)
    requires b < |batches| && n <= m <= |batches[b]|
    ensures RelevantIn(batches, relevant, b, n) <= RelevantIn(batches, relevant, b, m)
    decreases m
  {
    if n < m {
      RelevantInPrefix(batches, relevant, b, n, m - 1);
    }
  }

  lemma {:induction false} RelevantUpToPrefix(batches: seq<seq<string>>, relevant: set<string>, b: nat, c: nat)
    requires b <= c <= |batches|
    ensures RelevantUpTo(batches, relevant, b) <= RelevantUpTo(batches, relevant, c)
    decreases c
  {
    if b < c {
      RelevantUpToPrefix(batches, relevant, b, c - 1);
    }
  }

  /** The place is covered by a request made earlier at `a`: from the last package of a batch, or with a batch of two in between. */
  ghost predicate StagedBy(batches: seq<seq<string>>, a: Position, t: Position) {
    && a.batch < t.batch < |batches|
    && (LastOfBatch(batches, a) || exists m :: a.batch < m <= t.batch && HasTwo(batches, m))
  }

  predicate HasTwo(batches: seq<seq<string>>, m: nat) {
    m < |batches| && |batches[m]| >= 2
  }

  /** Once active, staging stays active. */
  lemma StagingIsMonotone(batches: seq<seq<string>>, a: Position, t: Position, u: Position)
    requires StagedBy(batches, a, t) && Precedes(t, u) && IsPlace(batches, u)
    ensures StagedBy(batches, a, u)
  {
    if !LastOfBatch(batches, a) {
      var m :| a.batch < m <= t.batch && HasTwo(batches, m);
      assert a.batch < m <= u.batch;
    }
  }

  /** The next batch is staged only if the request came from the end of its batch or the next batch has two packages. */
  lemma StagingOfNextBatch(batches: seq<seq<string>>, a: Position, t: Position)
    requires IsPlace(batches, a) && IsPlace(batches, t) && t.batch == a.batch + 1
    ensures StagedBy(batches, a, t) <==> LastOfBatch(batches, a) || HasTwo(batches, t.batch)
  {
    if StagedBy(batches, a, t) && !LastOfBatch(batches, a) {
      var m :| a.batch < m <= t.batch && HasTwo(batches, m);
      assert m == t.batch;
    }
  }

  lemma StagingSkipsSingleBatch()
    ensures var batches := [["a", "b"], ["c"], ["d", "e"]];
            !StagedBy(batches, Position(0, 0), Position(1, 0)) && StagedBy(batches, Position(0, 0), Position(2, 0))
  {
    var batches := [["a", "b"], ["c"], ["d", "e"]];
    assert HasTwo(batches, 2) && !HasTwo(batches, 1);
  }

  lemma EffectiveForPlace(batches: seq<seq<string>>, a: Position, t: Position, b: nat, j: nat)
    requires Precedes(a, t) && a.batch < |batches| && t.batch < |batches| && t.index < |batches[t.batch]|
    requires if b == t.batch then j == t.index + 1 else b == t.batch + 1 && LastOfBatch(batches, t) && (b < |batches| ==> j == 0)
    ensures Effective(batches, a, b, j) <==> StagedBy(batches, a, t)
  {
    if MovedInsideLater(batches, a, b, j) {
      var m: nat :| a.batch < m && MovedInside(batches, m, b, j);
      assert HasTwo(batches, m);
    }
    if StagedBy(batches, a, t) && !LastOfBatch(batches, a) {
      var m :| a.batch < m <= t.batch && HasTwo(batches, m);
      assert MovedInside(batches, m, b, j);
    }
  }

  // ---------------------------------------------------------------- whole runs

  /** With failures and skipping, a run covers the batches up to the one with the failures; otherwise everything. */
  ghost predicate Covers(batches: seq<seq<string>>, relevant: set<string>, skip: bool, fails: nat -> bool, places: seq<Position>) {
    && places <= AllRelevant(batches, relevant)
    && ((!skip || forall i :: 0 <= i < |places| ==> !fails(i)) ==> places == AllRelevant(batches, relevant))
    && (skip ==> forall i :: 0 <= i < |places| && fails(i) ==> StopsWithBatch(batches, relevant, places, places[i].batch))
  }

  /** Exactly the relevant packages of the batches up to b are handed out. */
  ghost predicate StopsWithBatch(batches: seq<seq<string>>, relevant: set<string>, places: seq<Position>, b: nat) {
    forall q :: q in AllRelevant(batches, relevant) ==> (q in places <==> q.batch <= b)
  }

  ghost predicate NoneFailed(fails: nat -> bool, n: nat) {
    forall i :: 0 <= i < n ==> !fails(i)
  }

  ghost predicate StagedByRequest(batches: seq<seq<string>>, asks: nat -> bool, places: seq<Position>, i: nat)
    requires i < |places|
  {
    exists k :: 0 <= k < i && asks(k) && StagedBy(batches, places[k], places[i])
  }

  /** Behind a failure the session has not left the batch, or stands at the very start of the next one. */
  ghost predicate AtFailure(batches: seq<seq<string>>, p: Position, b: nat, j: nat) {
    p.batch == b || (p.batch + 1 == b && (b < |batches| ==> j == 0))
  }

  /** The session's records agree with what has been handed out so far. */
  ghost predicate Tally(responses: seq<string>, asked: set<Position>, failed: set<Position>,
                        fails: nat -> bool, asks: nat -> bool, places: seq<Position>)
  {
    (responses == [] <==> NoneFailed(fails, |places|)) && AreSome(asked, asks, places) && AreSome(failed, fails, places)
  }

  ghost predicate AreSome(some: set<Position>, which: nat -> bool, places: seq<Position>) {
    forall p :: p in some <==> exists k :: 0 <= k < |places| && which(k) && places[k] == p
  }

  ghost predicate FailuresAhead(batches: seq<seq<string>>, b: nat, j: nat, fails: nat -> bool, places: seq<Position>) {
    forall i :: 0 <= i < |places| && fails(i) ==> AtFailure(batches, places[i], b, j)
  }

  ghost predicate Running(s: BatchProcessingSession, fails: nat -> bool, asks: nat -> bool, places: seq<Position>)
    reads s
  {
    && s.Valid() && s.FlagsAreRight() && s.HandedOut() == places
    && Tally(s.allResponses, s.asked, s.failed, fails, asks, places)
    && (s.skipBatchesAfterFailure ==> FailuresAhead(s.batches, s.batchIterator, s.packageIterator, fails, places))
  }

  lemma HandedOutIsPrefix(s: BatchProcessingSession)
    requires s.Valid()
    ensures s.HandedOut() <= AllRelevant(s.batches, s.relevantPackages)
  {
    var b := s.batchIterator;
    if b < Live(s.batches) {
      RelevantInPrefix(s.batches, s.relevantPackages, b, s.packageIterator, |s.batches[b]|);
      RelevantUpToPrefix(s.batches, s.relevantPackages, b + 1, Live(s.batches));
      PrefixAppends(RelevantUpTo(s.batches, s.relevantPackages, b),
                    RelevantIn(s.batches, s.relevantPackages, b, s.packageIterator),
                    RelevantIn(s.batches, s.relevantPackages, b, |s.batches[b]|));
    }
  }

  lemma PrefixAppends(front: seq<Position>, a: seq<Position>, b: seq<Position>)
    requires a <= b
    ensures front + a <= front + b
  {
  }

  lemma PrefixFacts(batches: seq<seq<string>>, relevant: set<string>, places: seq<Position>)
    requires places <= AllRelevant(batches, relevant)
    ensures InOrder(places) && forall p :: p in places ==> p in AllRelevant(batches, relevant) && IsPlace(batches, p)
  {
    var all := AllRelevant(batches, relevant);
    RelevantUpToFacts(batches, relevant, Live(batches));
    assert forall i :: 0 <= i < |places| ==> places[i] == all[i];
  }

  lemma TallyGrows(responses: seq<string>, asked: set<Position>, failed: set<Position>, fails: nat -> bool, asks: nat -> bool,
                   places: seq<Position>, name: string, t: Position)
    requires Tally(responses, asked, failed, fails, asks, places)
    ensures var n := |places|;
            Tally(if fails(n) then responses + [name] else responses, if asks(n) then asked + {t} else asked,
                  if fails(n) then failed + {t} else failed, fails, asks, places + [t])
  {
    hide AreSome;
    var n := |places|;
    assert NoneFailed(fails, n + 1) <==> NoneFailed(fails, n) && !fails(n);
    OneMore(asked, asks, places, t);
    OneMore(failed, fails, places, t);
  }

  lemma OneMore(some: set<Position>, which: nat -> bool, places: seq<Position>, t: Position)
    requires AreSome(some, which, places)
    ensures AreSome(if which(|places|) then some + {t} else some, which, places + [t])
  {
    var more, n := places + [t], |places|;
    forall p | p in some ensures exists k :: 0 <= k < |more| && which(k) && more[k] == p {
      var k :| 0 <= k < |places| && which(k) && places[k] == p;
      assert more[k] == p;
    }
    assert more[n] == t;
  }

  lemma StagingOfPlace(s: BatchProcessingSession, asks: nat -> bool, before: seq<Position>)
    requires s.Valid() && s.FlagsAreRight() && s.inFlight.Some? && s.Processing(s.inFlight.value)
    requires s.HandedOut() == before + [s.inFlight.value] && InOrder(s.HandedOut())
    requires forall p :: p in s.HandedOut() ==> IsPlace(s.batches, p)
    requires AreSome(s.asked, asks, before)
    ensures s.stagingEnabled <==> StagedByRequest(s.batches, asks, s.HandedOut(), |before|)
  {
    var places, t := s.HandedOut(), s.inFlight.value;
    forall k | 0 <= k < |before|
      ensures Effective(s.batches, places[k], s.batchIterator, s.packageIterator) <==> StagedBy(s.batches, places[k], t)
    {
      assert places[k] in places && Precedes(places[k], places[|before|]);
      EffectiveForPlace(s.batches, places[k], t, s.batchIterator, s.packageIterator);
    }
  }

  /** Processing one package: it is handed out, its outcome is reported, and only then the next one is fetched. */
  method ProcessNext(session: BatchProcessingSession, fails: nat -> bool, asks: nat -> bool, n: nat, ghost places: seq<Position>)
    returns (packageName: Option<string>, staged: bool, failuresBefore: bool, ghost newPlaces: seq<Position>)
    modifies session
    requires Running(session, fails, asks, places) && n == |places|
    ensures Running(session, fails, asks, newPlaces)
    ensures packageName == None ==> newPlaces == places && !session.IsValid()
    ensures packageName != None ==>
              && |newPlaces| == n + 1 && newPlaces[..n] == places && IsPlace(session.batches, newPlaces[n])
              && packageName.value == NameAt(session.batches, newPlaces[n])
              && (staged <==> StagedByRequest(session.batches, asks, newPlaces, n))
              && (failuresBefore ==> FailedInEarlierBatch(fails, newPlaces, n))
  {
    hide StagingIs, FailuresAre, AreSome, RelevantBefore, AllRelevant;
    newPlaces, staged := places, false;
    failuresBefore := session.HasFailuresInPreviousBatches();
    ghost var failed, b := session.failed, session.batchIterator;
    packageName := session.GetCurrentPackageNameIfValidAndRelevantAndSelectNext();
    if packageName == None {
      return;
    }
    ghost var t := session.inFlight.value;
    newPlaces := places + [t];
    HandedOutIsPrefix(session);
    PrefixFacts(session.batches, session.relevantPackages, newPlaces);
    StagingOfPlace(session, asks, places);
    TallyGrows(session.allResponses, session.asked, session.failed, fails, asks, places, packageName.value, t);
    if failuresBefore {
      FailureWasEarlier(failed, fails, places, b, t);
    }
    assert AtFailure(session.batches, t, session.batchIterator, session.packageIterator);
    staged := session.IsStagingEnabled();
    Report(session, packageName.value, fails(n), asks(n));
  }

  ghost predicate FailedInEarlierBatch(fails: nat -> bool, places: seq<Position>, i: nat)
    requires i < |places|
  {
    exists k :: 0 <= k < i && fails(k) && places[k].batch < places[i].batch
  }

  lemma FailureWasEarlier(failed: set<Position>, fails: nat -> bool, places: seq<Position>, b: nat, t: Position)
    requires AreSome(failed, fails, places) && b <= t.batch && exists p :: p in failed && p.batch < b
    ensures FailedInEarlierBatch(fails, places + [t], |places|)
  {
    var p :| p in failed && p.batch < b;
    var k :| 0 <= k < |places| && fails(k) && places[k] == p;
    assert (places + [t])[k] == p;
  }

  method Report(session: BatchProcessingSession, name: string, failed: bool, needsStaging: bool)
    modifies session
    requires session.Valid() && session.FlagsAreRight() && session.inFlight.Some? && session.Processing(session.inFlight.value)
    ensures session.Valid() && session.FlagsAreRight() && session.HandedOut() == old(session.HandedOut())
    ensures session.batchIterator == old(session.batchIterator) && session.packageIterator == old(session.packageIterator)
    ensures session.allResponses == if failed then old(session.allResponses) + [name] else old(session.allResponses)
    ensures session.asked == if needsStaging then old(session.asked) + {old(session.inFlight.value)} else old(session.asked)
    ensures session.failed == if failed then old(session.failed) + {old(session.inFlight.value)} else old(session.failed)
  {
    if failed {
      session.AddResponse(name);
    }
    if needsStaging {
      session.EnableStagingInNextBatch();
    }
  }

  lemma EndCovers(s: BatchProcessingSession, fails: nat -> bool, asks: nat -> bool, places: seq<Position>)
    requires Running(s, fails, asks, places) && !s.IsValid()
    ensures Covers(s.batches, s.relevantPackages, s.skipBatchesAfterFailure, fails, places)
  {
    hide StagingIs, FailuresAre, AreSome, StopsWithBatch;
    var b := s.batchIterator;
    HandedOutIsPrefix(s);
    var c := if b < |s.batches| && s.packageIterator == |s.batches[b]| > 0 then b + 1 else b;
    assert places == RelevantUpTo(s.batches, s.relevantPackages, c);
    forall i | s.skipBatchesAfterFailure && 0 <= i < |places| && fails(i)
      ensures StopsWithBatch(s.batches, s.relevantPackages, places, places[i].batch)
    {
      assert AtFailure(s.batches, places[i], b, s.packageIterator);
      EndsWithBatch(s.batches, s.relevantPackages, c, i);
    }
  }

  lemma EndsWithBatch(batches: seq<seq<string>>, relevant: set<string>, c: nat, i: nat)
    requires c <= Live(batches) && i < |RelevantUpTo(batches, relevant, c)| && RelevantUpTo(batches, relevant, c)[i].batch + 1 >= c
    ensures StopsWithBatch(batches, relevant, RelevantUpTo(batches, relevant, c), RelevantUpTo(batches, relevant, c)[i].batch)
  {
    var places := RelevantUpTo(batches, relevant, c);
    RelevantUpToFacts(batches, relevant, Live(batches));
    RelevantUpToFacts(batches, relevant, c);
    assert places[i] in places;
  }

  /**
   * What a run has to hand out: what passes the filter and is not behind an empty batch - nor, if batches are skipped,
   * behind a batch with a failure.
   */
  ghost predicate IsDue(batches: seq<seq<string>>, relevant: set<string>, skip: bool, fails: nat -> bool, places: seq<Position>, p: Position) {
    && p.batch < |batches| && p.index < |batches[p.batch]| && (forall k :: 0 <= k < p.batch ==> batches[k] != [])
    && (relevant == {} || batches[p.batch][p.index] in relevant)
    && (skip ==> forall i :: 0 <= i < |places| && fails(i) ==> p.batch <= places[i].batch)
  }

  lemma CoveredIsDue(batches: seq<seq<string>>, relevant: set<string>, skip: bool, fails: nat -> bool, places: seq<Position>, p: Position)
    requires Covers(batches, relevant, skip, fails, places)
    ensures p in places <==> IsDue(batches, relevant, skip, fails, places, p)
  {
    var all := AllRelevant(batches, relevant);
    RelevantUpToFacts(batches, relevant, Live(batches));
    assert forall i :: 0 <= i < |places| ==> places[i] == all[i];
    hide AllRelevant, InOrder;
    if i :| skip && 0 <= i < |places| && fails(i) {
      assert StopsWithBatch(batches, relevant, places, places[i].batch);
      if p in all && p !in places {
        assert p.batch > places[i].batch;
      }
    }
  }

  /** The packages handed out, in order, and for which of them staging was active. */
  ghost predicate IsRecord(batches: seq<seq<string>>, asks: nat -> bool, places: seq<Position>, names: seq<string>, staged: seq<bool>) {
    && |names| == |staged| == |places|
    && (forall i :: 0 <= i < |places| ==> IsPlace(batches, places[i]) && names[i] == NameAt(batches, places[i]))
    && (forall i :: 0 <= i < |places| ==> (staged[i] <==> StagedByRequest(batches, asks, places, i)))
  }

  lemma RecordGrows(batches: seq<seq<string>>, asks: nat -> bool, places: seq<Position>, names: seq<string>, staged: seq<bool>,
                    more: seq<Position>, name: string, isStaged: bool)
    requires IsRecord(batches, asks, places, names, staged)
    requires |more| == |places| + 1 && more[..|places|] == places && IsPlace(batches, more[|places|])
    requires name == NameAt(batches, more[|places|]) && (isStaged <==> StagedByRequest(batches, asks, more, |places|))
    ensures IsRecord(batches, asks, more, names + [name], staged + [isStaged])
  {
    assert forall i :: 0 <= i < |places| ==> more[i] == places[i];
    forall i | 0 <= i < |places| ensures StagedByRequest(batches, asks, more, i) <==> StagedByRequest(batches, asks, places, i) {
      assert forall k :: 0 <= k < i ==> (StagedBy(batches, more[k], more[i]) <==> StagedBy(batches, places[k], places[i]));
    }
  }

  /**
   * A build: packages are processed one after the other; fails(i) and asks(i) say whether the i-th package
   * handed out fails and whether it turns out to need staging.
   */
  method RunBuild(batches: seq<seq<string>>, relevant: set<string>, skip: bool, fails: nat -> bool, asks: nat -> bool)
    returns (names: seq<string>, staged: seq<bool>, ghost places: seq<Position>)
    ensures InOrder(places) && Covers(batches, relevant, skip, fails, places)
    ensures IsRecord(batches, asks, places, names, staged)
    ensures forall i :: 0 <= i < |names| ==> relevant == {} || names[i] in relevant
    ensures forall p :: p in places <==> IsDue(batches, relevant, skip, fails, places, p)
  {
    names, staged, places := [], [], [];
    var session := new BatchProcessingSession(relevant, batches, skip);
    while true
      invariant session.batches == batches && session.relevantPackages == relevant && session.skipBatchesAfterFailure == skip
      invariant fresh(session) && Running(session, fails, asks, places)
      invariant IsRecord(batches, asks, places, names, staged)
      decreases |AllRelevant(batches, relevant)| - |places|
    {
      ghost var before := places;
      var packageName, isStaged, failuresBefore;
      packageName, isStaged, failuresBefore, places := ProcessNext(session, fails, asks, |names|, places);
      if packageName == None {
        break;
      }
      HandedOutIsPrefix(session);
      RecordGrows(batches, asks, before, names, staged, places, packageName.value, isStaged);
      names, staged := names + [packageName.value], staged + [isStaged];
    }
    EndCovers(session, fails, asks, places);
    PrefixFacts(batches, relevant, places);
    forall p ensures p in places <==> IsDue(batches, relevant, skip, fails, places, p) {
      CoveredIsDue(batches, relevant, skip, fails, places, p);
    }
    hide Covers, Running;
    forall i | 0 <= i < |names| ensures relevant == {} || names[i] in relevant {
      assert places[i] in places;
    }
  }
}

/**
 * Whole runs of the build service: any sequence of what can happen to build actions.
 */
module BuildActionRuns {
  import opened BuildActions

  datatype Event =
    | Allocate(newId: nat)
    | Register(action: BuildAction)
    | StartManually(action: BuildAction)
    | Finish(id: nat, result: Result)
    | Delete(ids: set<nat>)
    | Restart

  ghost predicate Enabled(s: Setup, e: Event) {
    match e
    case Allocate(id) => id !in s.store && id != INVALID_ID
    case Register(a) => a.status in {Created, AwaitingConfirmation} && a.id in s.store && s.store[a.id] == EMPTY_ACTION
    case StartManually(a) => a.status in {Created, AwaitingConfirmation} && a.id in s.store && (s.store[a.id] == a || s.store[a.id] == EMPTY_ACTION)
    case Finish(id, _) => id in s.running
    case Delete(_) => true
    case Restart => true
  }

  /** The operations of the build setup, as far as the state is concerned. */
  ghost function Step(s: Setup, e: Event): Setup
    requires Enabled(s, e)
  {
    match e
    case Allocate(id) => s.(store := s.store[id := EMPTY_ACTION])
    case Register(a) => StoredIn(s, a)
    case StartManually(a) => StoredIn(s, Launched(a))
    case Finish(id, result) => ConcludedIn(s, s.running[id], result)
    case Delete(ids) => DeletedIn(s, ids)
    case Restart => RestoredFrom(s.store)
  }

  /** The actions that an event starts as follow-up actions. */
  ghost function AutoStarted(s: Setup, e: Event): set<nat>
    requires Enabled(s, e)
  {
    match e
    case Finish(id, result) => StartedBy(s, s.running[id], result)
    case _ => {}
  }

  ghost predicate IsRun(states: seq<Setup>, events: seq<Event>) {
    && |states| == |events| + 1 && states[0] == Setup(map[], map[], {})
    && forall i {:trigger events[i]} :: 0 <= i < |events| ==> StepsTo(states[i], events[i], states[i + 1])
  }

  ghost predicate StepsTo(s: Setup, e: Event, t: Setup) {
    Enabled(s, e) && t == Step(s, e)
  }

  lemma StepKeeps(s: Setup, e: Event)
    requires WellKept(s) && Enabled(s, e)
    ensures WellKept(Step(s, e))
  {
    hide WellKept, StoredIn, ConcludedIn, DeletedIn, RestoredFrom;
    match e
    case Allocate(id) => AllocateKeeps(s, id, {});
    case Register(a) => RegisterKeeps(s, a, {});
    case StartManually(a) => StartKeeps(s, a, {});
    case Finish(id, result) => RunningHasID(s, id); ConcludeKeeps(s, s.running[id], result, {});
    case Delete(ids) => DeleteKeeps(s, ids, {});
    case Restart => RestoreKeeps(s);
  }

  lemma {:induction false} RunIsWellKept(states: seq<Setup>, events: seq<Event>, i: nat)
    requires IsRun(states, events) && i <= |events|
    ensures WellKept(states[i])
  {
    if i == 0 {
    } else {
      RunIsWellKept(states, events, i - 1);
      assert StepsTo(states[i - 1], events[i - 1], states[i]);
      StepKeeps(states[i - 1], events[i - 1]);
    }
  }

  // ---------------------------------------------------------------- what events do to the status of actions

  /** The cache holds what is enqueued or running, over all runs. */
  lemma CacheMeans(states: seq<Setup>, events: seq<Event>, i: nat, id: nat)
    requires IsRun(states, events) && i <= |events|
    ensures id in states[i].running <==> id in states[i].store && states[i].store[id].status in {Enqueued, Running}
    ensures id in states[i].running ==> states[i].running[id] == states[i].store[id]
  {
    RunIsWellKept(states, events, i);
  }

  /** What runs when it is started, and has failed if it cannot be run. */
  predicate IsStartOf(a: BuildAction, started: BuildAction) {
    && started.id == a.id && started.valid == a.valid && started.startAfter == a.startAfter
    && if a.valid then started.status == Running && started.result == a.result else started.status == Finished && started.result == Failure
  }

  /** A concluded action has the given result; follow-up actions that were only created may have been started, and that is all. */
  lemma FinishMeans(states: seq<Setup>, events: seq<Event>, i: nat, c: nat)
    requires IsRun(states, events) && i < |events| && events[i].Finish?
    ensures var id, s, t := events[i].id, states[i].store, states[i + 1].store;
            && t.Keys == s.Keys && id in s && id !in states[i + 1].running
            && t[id] == s[id].(status := Finished, result := events[i].result)
            && (c in s && c != id ==>
                  t[c] == s[c] || (events[i].result == Success && s[c].status in {Created, AwaitingConfirmation} && IsStartOf(s[c], t[c])))
            && (c in s && c != id && c in AutoStarted(states[i], events[i]) ==> IsStartOf(s[c], t[c]))
  {
    RunIsWellKept(states, events, i);
    assert StepsTo(states[i], events[i], states[i + 1]);
    var s, id := states[i], events[i].id;
    RunningHasID(s, id);
    ConcludedState(s, s.running[id], events[i].result);
    assert c in AutoStarted(s, events[i]) ==> MayStart(s, c);
  }

  lemma StartMeans(states: seq<Setup>, events: seq<Event>, i: nat)
    requires IsRun(states, events) && i < |events| && events[i].StartManually?
    ensures var a, s, t := events[i].action, states[i].store, states[i + 1].store;
            && t.Keys == s.Keys && a.id in t && IsStartOf(a, t[a.id]) && (forall c :: c in s && c != a.id ==> t[c] == s[c])
            && a.status in {Created, AwaitingConfirmation}
  {
    assert StepsTo(states[i], events[i], states[i + 1]);
  }

  /** Whatever has been running when the service ended has failed. */
  lemma RestartMeans(states: seq<Setup>, events: seq<Event>, i: nat, c: nat)
    requires IsRun(states, events) && i < |events| && events[i].Restart?
    ensures var s, t := states[i].store, states[i + 1].store;
            && t.Keys == s.Keys && states[i + 1].running == map[]
            && (c in s ==> t[c] == if s[c].status in {Enqueued, Running} then s[c].(status := Finished, result := Failure) else s[c])
  {
    assert StepsTo(states[i], events[i], states[i + 1]);
  }

  lemma DeleteMeans(states: seq<Setup>, events: seq<Event>, i: nat, c: nat)
    requires IsRun(states, events) && i < |events| && events[i].Delete?
    ensures var s, t := states[i], states[i + 1];
            && (c in t.store <==> c in s.store && c !in events[i].ids) && (c in t.running <==> c in s.running && c !in events[i].ids)
            && (c in t.store ==> t.store[c] == s.store[c])
  {
    assert StepsTo(states[i], events[i], states[i + 1]);
  }

  // ---------------------------------------------------------------- started at most once

  ghost predicate IsStored(s: Setup, c: nat) {
    c in s.store && s.store[c].id == c
  }

  /** What has been started does not get scheduled again. */
  lemma StepDoesNotReschedule(s: Setup, e: Event, c: nat)
    requires WellKept(s) && Enabled(s, e) && c in s.store && !IsScheduled(s.store[c]) && !(e.Delete? && c in e.ids)
    ensures c in Step(s, e).store && !IsScheduled(Step(s, e).store[c])
  {
    match e
    case Finish(id, result) =>
      RunningHasID(s, id);
      ConcludedState(s, s.running[id], result);
      assert c in StartedBy(s, s.running[id], result) ==> MayStart(s, c);
    case _ =>
  }

  lemma {:induction false} StaysStarted(states: seq<Setup>, events: seq<Event>, c: nat, i: nat, j: nat)
    requires IsRun(states, events) && i <= j <= |events|
    requires c in states[i].store && !IsScheduled(states[i].store[c])
    requires forall k :: i <= k < j ==> !(events[k].Delete? && c in events[k].ids)
    ensures c in states[j].store && !IsScheduled(states[j].store[c])
    decreases j - i
  {
    if i == j {
    } else {
      RunIsWellKept(states, events, i);
      StepDoesNotReschedule(states[i], events[i], c);
      StaysStarted(states, events, c, i + 1, j);
    }
  }

  /** Between two automatic starts of an action it has been deleted (and its id has been taken again). */
  lemma StartedAtMostOnce(states: seq<Setup>, events: seq<Event>, c: nat, i: nat, j: nat)
    requires IsRun(states, events) && i < j < |events|
    requires c in AutoStarted(states[i], events[i]) && c in AutoStarted(states[j], events[j])
    ensures exists k :: i < k < j && events[k].Delete? && c in events[k].ids
  {
    hide AutoStarted, Step, HasSucceeded;
    ChangesStatus(states, events, c, i);
    ChangesStatus(states, events, c, j);
    if forall k :: i < k < j ==> !(events[k].Delete? && c in events[k].ids) {
      StaysStarted(states, events, c, i + 1, j);
    }
  }

  /** Whenever an action is started automatically, all it starts after has succeeded, as far as it still exists. */
  lemma StartIsJustified(states: seq<Setup>, events: seq<Event>, c: nat, i: nat)
    requires IsRun(states, events) && i < |events| && c in AutoStarted(states[i], events[i])
    ensures IsStored(states[i], c) && IsScheduled(states[i].store[c]) && IsStored(states[i + 1], c) && !IsScheduled(states[i + 1].store[c])
    ensures states[i].store[c].status in {Created, AwaitingConfirmation} && states[i + 1].store[c].status in {Running, Finished}
    ensures forall p :: p in states[i].store[c].startAfter && p in states[i].store ==>
              states[i + 1].store[p].status == Finished && states[i + 1].store[p].result == Success
    ensures events[i].Finish? && events[i].result == Success && events[i].id in states[i].store[c].startAfter
  {
    RunIsWellKept(states, events, i);
    var s, id := states[i], events[i].id;
    RunningHasID(s, id);
    StartedAreJustified(s, s.running[id], events[i].result, c);
    ConcludedState(s, s.running[id], events[i].result);
    assert MayStart(s, c);
  }

  lemma ChangesStatus(states: seq<Setup>, events: seq<Event>, c: nat, i: nat)
    requires IsRun(states, events) && i < |events| && c in AutoStarted(states[i], events[i])
    ensures c in states[i].store && IsScheduled(states[i].store[c]) && c in states[i + 1].store && !IsScheduled(states[i + 1].store[c])
  {
    StartIsJustified(states, events, c, i);
  }

  // ---------------------------------------------------------------- no lost wake-up

  /** Neither the action nor anything it starts after is deleted, and it is not started manually. */
  ghost predicate LeavesAlone(e: Event, a: BuildAction) {
    && (e.StartManually? ==> e.action.id != a.id)
    && (e.Delete? ==> a.id !in e.ids && forall p :: p in a.startAfter ==> p !in e.ids)
  }

  lemma FinishKeepsWaiting(s: Setup, id: nat, result: Result, c: nat)
    requires WellKept(s) && id in s.running && Waits(s, c) && c !in StartedBy(s, s.running[id], result)
    ensures var t := ConcludedIn(s, s.running[id], result); Waits(t, c) && t.store[c] == s.store[c]
  {
    hide ConcludedIn, StartedBy, IndexIsConcluded, CacheIsConcluded;
    RunningHasID(s, id);
    ConcludeKeeps(s, s.running[id], result, {c});
    ConcludedState(s, s.running[id], result);
  }

  lemma StepKeepsWaiting(s: Setup, e: Event, c: nat)
    requires WellKept(s) && Enabled(s, e) && Waits(s, c) && LeavesAlone(e, s.store[c]) && c !in AutoStarted(s, e)
    ensures Waits(Step(s, e), c) && Step(s, e).store[c] == s.store[c]
  {
    hide ConcludedIn, StartedBy, IndexIsSound, CacheIsExact;
    match e
    case Allocate(id) => AllocateKeeps(s, id, {c});
    case Register(a) => RegisterKeeps(s, a, {c});
    case StartManually(a) => StartKeeps(s, a, {c});
    case Finish(id, result) => FinishKeepsWaiting(s, id, result, c);
    case Delete(ids) => DeleteKeeps(s, ids, {c});
    case Restart => RestoreKeeps(s);
  }

  /** An action that waits goes on waiting until it is started, if nobody interferes ... */
  lemma {:induction false} WaitsUntilStarted(states: seq<Setup>, events: seq<Event>, c: nat, i: nat, j: nat)
    requires IsRun(states, events) && i <= j <= |events| && Waits(states[i], c)
    requires forall k :: i <= k < j ==> LeavesAlone(events[k], states[i].store[c])
    ensures (Waits(states[j], c) && states[j].store[c] == states[i].store[c])
            || exists k :: i <= k < j && c in AutoStarted(states[k], events[k])
    decreases j - i
  {
    if i < j && c !in AutoStarted(states[i], events[i]) {
      RunIsWellKept(states, events, i);
      StepKeepsWaiting(states[i], events[i], c);
      WaitsUntilStarted(states, events, c, i + 1, j);
    }
  }

  /** ... so it has been started by the time everything it starts after has succeeded. */
  lemma NoLostWakeUp(states: seq<Setup>, events: seq<Event>, i: nat, j: nat)
    requires IsRun(states, events) && i < j <= |events| && events[i].Register? && CanBeAwaited(states[i], events[i].action)
    requires forall k :: i < k < j ==> LeavesAlone(events[k], events[i].action)
    requires forall p :: p in events[i].action.startAfter && p in states[j].store ==> HasSucceeded(states[j].store[p])
    ensures exists k :: i < k < j && events[i].action.id in AutoStarted(states[k], events[k])
  {
    var a := events[i].action;
    RunIsWellKept(states, events, i);
    RegisteredWaits(states[i], a);
    WaitsUntilStarted(states, events, a.id, i + 1, j);
  }

  // ---------------------------------------------------------------- exactly when an action is started

  /** Nobody interferes with the action, and the index is not rebuilt. */
  ghost predicate Undisturbed(e: Event, a: BuildAction) {
    LeavesAlone(e, a) && !e.Restart?
  }

  lemma StepKeepsPair(s: Setup, e: Event, c: nat, p: nat)
    requires WellKept(s) && Enabled(s, e) && IsStored(s, c) && IsScheduled(s.store[c])
    requires Undisturbed(e, s.store[c]) && c !in AutoStarted(s, e)
    ensures c in Step(s, e).store && Step(s, e).store[c] == s.store[c]
    ensures p in s.store[c].startAfter ==> (FollowUp(p, c) in Step(s, e).pairs <==> FollowUp(p, c) in s.pairs)
  {
    match e
    case Finish(id, result) =>
      RunningHasID(s, id);
      ConcludedState(s, s.running[id], result);
    case _ =>
  }

  lemma {:induction false} PairStays(states: seq<Setup>, events: seq<Event>, c: nat, p: nat, i: nat, j: nat)
    requires IsRun(states, events) && i <= j <= |events|
    requires IsStored(states[i], c) && IsScheduled(states[i].store[c])
    requires forall k :: i <= k < j ==> Undisturbed(events[k], states[i].store[c]) && c !in AutoStarted(states[k], events[k])
    ensures c in states[j].store && states[j].store[c] == states[i].store[c]
    ensures p in states[i].store[c].startAfter ==> (FollowUp(p, c) in states[j].pairs <==> FollowUp(p, c) in states[i].pairs)
    decreases j - i
  {
    if i < j {
      RunIsWellKept(states, events, i);
      StepKeepsPair(states[i], events[i], c, p);
      PairStays(states, events, c, p, i + 1, j);
    }
  }

  /** What is still scheduled has not been started in between. */
  lemma NotStartedYet(states: seq<Setup>, events: seq<Event>, c: nat, i: nat, j: nat, k: nat)
    requires IsRun(states, events) && i <= k < j <= |events|
    requires c in states[j].store && IsScheduled(states[j].store[c])
    requires forall k :: i <= k < j ==> !(events[k].Delete? && c in events[k].ids)
    ensures c !in AutoStarted(states[k], events[k])
  {
    if c in AutoStarted(states[k], events[k]) {
      ChangesStatus(states, events, c, k);
      StaysStarted(states, events, c, k + 1, j);
    }
  }

  lemma {:induction false} SuccessStays(states: seq<Setup>, events: seq<Event>, p: nat, i: nat, j: nat)
    requires IsRun(states, events) && i <= j <= |events| && p in states[i].store && HasSucceeded(states[i].store[p])
    requires forall k :: i <= k < j ==> !(events[k].Delete? && p in events[k].ids)
    ensures p in states[j].store && HasSucceeded(states[j].store[p])
    decreases j - i
  {
    if i < j {
      RunIsWellKept(states, events, i);
      StepKeepsSuccess(states[i], events[i], p);
      SuccessStays(states, events, p, i + 1, j);
    }
  }

  lemma StepKeepsSuccess(s: Setup, e: Event, p: nat)
    requires WellKept(s) && Enabled(s, e) && p in s.store && HasSucceeded(s.store[p]) && !(e.Delete? && p in e.ids)
    ensures p in Step(s, e).store && HasSucceeded(Step(s, e).store[p])
  {
    match e
    case Finish(id, result) => FinishKeepsSuccess(s, id, result, p);
    case _ =>
  }

  lemma FinishKeepsSuccess(s: Setup, id: nat, result: Result, p: nat)
    requires WellKept(s) && id in s.running && p in s.store && HasSucceeded(s.store[p])
    ensures var t := ConcludedIn(s, s.running[id], result); p in t.store && HasSucceeded(t.store[p])
  {
    hide ConcludedIn, StartedBy, IndexIsConcluded, CacheIsConcluded;
    RunningHasID(s, id);
    ConcludedState(s, s.running[id], result);
    assert p in StartedBy(s, s.running[id], result) ==> MayStart(s, p);
  }

  /** The event is the success of something the action starts after, and nothing else is missing. */
  ghost predicate CompletesPredecessors(states: seq<Setup>, events: seq<Event>, a: BuildAction, j: nat)
    requires j < |events| && |states| == |events| + 1
  {
    && events[j].Finish? && events[j].result == Success && events[j].id in a.startAfter
    && PredecessorsSucceeded(states[j + 1].store, a)
  }

  /** The step at which an action that is still scheduled is started, in terms of what the index says about it at `i`. */
  lemma StartedIffIndexed(states: seq<Setup>, events: seq<Event>, c: nat, i: nat, j: nat)
    requires IsRun(states, events) && i <= j < |events| && IsStored(states[i], c) && IsScheduled(states[i].store[c])
    requires forall k :: i <= k < j ==> Undisturbed(events[k], states[i].store[c])
    requires c in states[j].store && IsScheduled(states[j].store[c])
    ensures states[j].store[c] == states[i].store[c]
    ensures c in AutoStarted(states[j], events[j]) <==>
            CompletesPredecessors(states, events, states[i].store[c], j) && FollowUp(events[j].id, c) in states[i].pairs
  {
    var a := states[i].store[c];
    forall k | i <= k < j ensures c !in AutoStarted(states[k], events[k]) {
      NotStartedYet(states, events, c, i, j, k);
    }
    RunIsWellKept(states, events, j);
    PairStays(states, events, c, if events[j].Finish? then events[j].id else 0, i, j);
    assert StepsTo(states[j], events[j], states[j + 1]);
    if c in AutoStarted(states[j], events[j]) {
      StartIsJustified(states, events, c, j);
    }
    if events[j].Finish? && events[j].result == Success {
      RunningHasID(states[j], events[j].id);
      StartsIff(states[j], states[j].running[events[j].id], c);
    }
  }

  /**
   * As long as nobody interferes, a registered action is started at exactly the step at which something it starts
   * after succeeds, nothing else is missing, and that something had been stored when the action was registered.
   */
  lemma StartedIffStoredBefore(states: seq<Setup>, events: seq<Event>, i: nat, j: nat)
    requires IsRun(states, events) && i < j < |events| && events[i].Register?
    requires forall k :: i < k < j ==> Undisturbed(events[k], events[i].action)
    requires events[i].action.id in states[j].store && states[j].store[events[i].action.id].status in {Created, AwaitingConfirmation}
    ensures events[i].action.id in AutoStarted(states[j], events[j]) <==>
            CompletesPredecessors(states, events, events[i].action, j) && IsStored(states[i], events[j].id)
  {
    var a := events[i].action;
    RunIsWellKept(states, events, i);
    StartedIffIndexed(states, events, a.id, i + 1, j);
    if CompletesPredecessors(states, events, a, j) {
      NotSucceededBefore(states, events, a, i, j);
      RegisteredPairs(states[i], a, events[j].id);
    }
  }

  lemma NotSucceededBefore(states: seq<Setup>, events: seq<Event>, a: BuildAction, i: nat, j: nat)
    requires IsRun(states, events) && i < j < |events| && CompletesPredecessors(states, events, a, j) && events[i] == Register(a)
    requires forall k :: i < k < j ==> Undisturbed(events[k], a)
    ensures events[j].id != INVALID_ID && !(events[j].id in states[i].store && HasSucceeded(states[i].store[events[j].id]))
  {
    var p := events[j].id;
    FinishedWasRunning(states, events, j);
    if p in states[i].store && HasSucceeded(states[i].store[p]) {
      SuccessStays(states, events, p, i, j);
    }
  }

  lemma FinishedWasRunning(states: seq<Setup>, events: seq<Event>, j: nat)
    requires IsRun(states, events) && j < |events| && events[j].Finish?
    ensures var id := events[j].id; id != INVALID_ID && id in states[j].store && states[j].store[id].status in {Enqueued, Running}
  {
    RunIsWellKept(states, events, j);
    assert StepsTo(states[j], events[j], states[j + 1]);
  }

  /** So whether it has been started so far depends on what has been last to succeed. */
  lemma StartedSoFarIff(states: seq<Setup>, events: seq<Event>, i: nat, j: nat)
    requires IsRun(states, events) && i < j <= |events| && events[i].Register?
    requires forall k :: i < k < j ==> Undisturbed(events[k], events[i].action)
    ensures (exists k :: i < k < j && events[i].action.id in AutoStarted(states[k], events[k])) <==>
            exists k :: i < k < j && CompletesPredecessors(states, events, events[i].action, k) && IsStored(states[i], events[k].id)
  {
    var c := events[i].action.id;
    if k :| i < k < j && c in AutoStarted(states[k], events[k]) {
      StartIsJustified(states, events, c, k);
      StartedIffStoredBefore(states, events, i, k);
    }
    if k :| i < k < j && CompletesPredecessors(states, events, events[i].action, k) && IsStored(states[i], events[k].id) {
      StartedByThen(states, events, i, k);
    }
  }

  lemma StartedByThen(states: seq<Setup>, events: seq<Event>, i: nat, k: nat)
    requires IsRun(states, events) && i < k < |events| && events[i].Register?
    requires forall l :: i < l < k ==> Undisturbed(events[l], events[i].action)
    requires CompletesPredecessors(states, events, events[i].action, k) && IsStored(states[i], events[k].id)
    ensures exists l :: i < l <= k && events[i].action.id in AutoStarted(states[l], events[l])
  {
    var a := events[i].action;
    if forall l :: i < l < k ==> a.id !in AutoStarted(states[l], events[l]) {
      RunIsWellKept(states, events, i);
      assert StepsTo(states[i], events[i], states[i + 1]);
      PairStays(states, events, a.id, 0, i + 1, k);
      StartedIffStoredBefore(states, events, i, k);
    }
  }

  /** After a restart, it no longer matters what had been stored when the action was registered. */
  lemma StartedAfterRestart(states: seq<Setup>, events: seq<Event>, c: nat, i: nat, j: nat)
    requires IsRun(states, events) && i < j < |events| && events[i].Restart?
    requires IsStored(states[i], c) && states[i].store[c].status in {Created, AwaitingConfirmation}
    requires forall k :: i < k < j ==> Undisturbed(events[k], states[i].store[c])
    requires c in states[j].store && states[j].store[c].status in {Created, AwaitingConfirmation}
    ensures c in AutoStarted(states[j], events[j]) <==> CompletesPredecessors(states, events, states[i].store[c], j)
  {
    assert StepsTo(states[i], events[i], states[i + 1]);
    StartedIffIndexed(states, events, c, i + 1, j);
  }

  /** Starting after something that only comes to exist later: it succeeds, and nothing happens. */
  lemma WakeUpLostForMissing() returns (states: seq<Setup>, events: seq<Event>)
    ensures IsRun(states, events)
    ensures var s := states[|events|];
            1 in s.store && 2 in s.store && s.store[1].startAfter == [2] && s.store[2].status == Finished && s.store[2].result == Success && s.store[1].status == Created
  {
    hide IsRun, StepsTo;
    var late, missing := BuildAction(1, true, Created, NoResult, [2]), BuildAction(2, true, Created, NoResult, []);
    var running, done := Launched(missing), Concluded(Launched(missing), Success);
    var s0 := Setup(map[], map[], {});
    var s1 := Setup(map[1 := EMPTY_ACTION], map[], {});
    var s2 := Setup(map[1 := late], map[], {});
    var s3 := Setup(map[1 := late, 2 := EMPTY_ACTION], map[], {});
    var s4 := Setup(map[1 := late, 2 := running], map[2 := running], {});
    var s5 := Setup(map[1 := late, 2 := done], map[], {});
    AllocateAlone(s0, 1, s1);
    RegisterAlone(s1, late, s2);
    AllocateAlone(s2, 2, s3);
    LaunchAlone(s3, missing, s4);
    FinishAlone(s4, running, s5);
    states, events := [s0], [];
    NoEvents();
    states, events := Append(states, events, Allocate(1), s1);
    states, events := Append(states, events, Register(late), s2);
    states, events := Append(states, events, Allocate(2), s3);
    states, events := Append(states, events, StartManually(missing), s4);
    states, events := Append(states, events, Finish(2, Success), s5);
  }

  lemma NoEvents()
    ensures IsRun([Setup(map[], map[], {})], [])
  {
  }

  lemma Append(states: seq<Setup>, events: seq<Event>, e: Event, t: Setup) returns (newStates: seq<Setup>, newEvents: seq<Event>)
    requires IsRun(states, events) && states != [] && StepsTo(states[|states| - 1], e, t)
    ensures IsRun(newStates, newEvents) && newStates == states + [t] && newEvents == events + [e]
  {
    newStates, newEvents := states + [t], events + [e];
    forall i | 0 <= i < |newEvents| ensures StepsTo(newStates[i], newEvents[i], newStates[i + 1]) {
      if i < |events| {
        assert StepsTo(states[i], events[i], states[i + 1]);
      }
    }
  }

  lemma AllocateAlone(s: Setup, id: nat, t: Setup)
    requires id !in s.store && id != INVALID_ID && t == s.(store := s.store[id := EMPTY_ACTION])
    ensures StepsTo(s, Allocate(id), t)
  {
  }

  lemma RegisterAlone(s: Setup, a: BuildAction, t: Setup)
    requires IsScheduled(a) && a.id in s.store && s.store[a.id] == EMPTY_ACTION
    requires s.running == map[] && s.pairs == {} && forall p :: p in a.startAfter ==> p !in s.store
    requires t == Setup(s.store[a.id := a], map[], {})
    ensures StepsTo(s, Register(a), t)
  {
    assert s.running - {a.id} == map[];
    assert PairsToAdd(s, a) == {};
  }

  lemma LaunchAlone(s: Setup, a: BuildAction, t: Setup)
    requires IsScheduled(a) && a.valid && a.id in s.store && s.store[a.id] == EMPTY_ACTION && s.pairs == {}
    requires t == Setup(s.store[a.id := Launched(a)], s.running[a.id := Launched(a)], {})
    ensures StepsTo(s, StartManually(a), t)
  {
  }

  /** Concluding an action that the index does not know about. */
  lemma FinishAlone(s: Setup, a: BuildAction, t: Setup)
    requires a.id in s.running && s.running[a.id] == a && s.pairs == {} && a.startAfter == []
    requires t == Setup(s.store[a.id := Concluded(a, Success)], s.running - {a.id}, {})
    ensures StepsTo(s, Finish(a.id, Success), t)
  {
    var s1 := InPlace(s, Concluded(a, Success));
    assert ReadyFollowUps(s1, a.id) == {};
    NoneStarted(s1);
    assert s1.running - {a.id} == s.running - {a.id};
  }
}

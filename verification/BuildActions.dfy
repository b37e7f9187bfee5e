/**
 * Scheduling of build actions: actions that start after others, the index of such follow-up actions, the
 * cache of running actions and the persistent storage.
 */
module BuildActions {
  import opened Wrappers

  datatype Status = Created | AwaitingConfirmation | Enqueued | Running | Finished

  datatype Result = NoResult | Success | Failure | ConfirmationDeclined | Aborted

  /** The largest value of a 64-bit id; no action is ever stored under it. */
  const INVALID_ID: nat := 0xFFFF_FFFF_FFFF_FFFF

  /** `valid` says whether the type of the action is one that can be run. */
  datatype BuildAction = BuildAction(id: nat, valid: bool, status: Status, result: Result, startAfter: seq<nat>)

  predicate IsScheduled(a: BuildAction) {
    a.status == Created || a.status == AwaitingConfirmation
  }

  predicate IsExecuting(a: BuildAction) {
    a.status == Enqueued || a.status == Running
  }

  predicate HasSucceeded(a: BuildAction) {
    a.status == Finished && a.result == Success
  }

  /** What is stored under an id that has merely been allocated. */
  const EMPTY_ACTION := BuildAction(INVALID_ID, false, Created, NoResult, [])

  /** "When `before` succeeds, have a look at `after`." */
  datatype FollowUp = FollowUp(before: nat, after: nat)

  type FollowUps = map<nat, set<nat>>

  ghost function Pairs(followUps: FollowUps): set<FollowUp> {
    set p, c | p in followUps && c in followUps[p] :: FollowUp(p, c)
  }

  /** The state of the setup, with the index taken for what it says. */
  datatype Setup = Setup(store: map<nat, BuildAction>, running: map<nat, BuildAction>, pairs: set<FollowUp>)

  /** Running actions are found in the cache, others in the storage. */
  function Get(store: map<nat, BuildAction>, running: map<nat, BuildAction>, id: nat): Option<BuildAction> {
    if id in running then Some(running[id]) else if id in store then Some(store[id]) else None
  }

  /** Predecessors that do not exist are not waited for. */
  ghost predicate AllSucceeded(s: Setup, ids: seq<nat>) {
    forall p :: p in ids && Get(s.store, s.running, p).Some? ==> HasSucceeded(Get(s.store, s.running, p).value)
  }

  function SetOf(ids: seq<nat>): set<nat> {
    set id | id in ids
  }

  // ---------------------------------------------------------------- what the operations do

  ghost function PairsToAdd(s: Setup, a: BuildAction): set<FollowUp> {
    set p | p in a.startAfter && Get(s.store, s.running, p).Some? && !HasSucceeded(Get(s.store, s.running, p).value) ::
      FollowUp(Get(s.store, s.running, p).value.id, a.id)
  }

  ghost function PairsToRemove(a: BuildAction): set<FollowUp> {
    set p | p in a.startAfter :: FollowUp(p, a.id)
  }

  ghost function StoredIn(s: Setup, a: BuildAction): Setup {
    var running := if IsExecuting(a) then s.running[a.id := a] else s.running - {a.id};
    Setup(
      s.store[a.id := a],
      running,
      if IsScheduled(a) && a.startAfter != [] then s.pairs + PairsToAdd(s.(running := running), a) else s.pairs - PairsToRemove(a))
  }

  /** A started action is running, or has failed at once if it cannot be run. */
  function Launched(a: BuildAction): BuildAction {
    if a.valid then a.(status := Running) else a.(status := Finished, result := Failure)
  }

  ghost predicate MayStart(s: Setup, c: nat) {
    c in s.store && c !in s.running && s.store[c].id == c && IsScheduled(s.store[c])
  }

  ghost predicate AllMayStart(s: Setup, ids: set<nat>) {
    ids <= s.store.Keys && forall c :: c in ids ==> MayStart(s, c)
  }

  /** Starting some actions; the order does not matter. */
  ghost function StartedIn(s: Setup, ids: set<nat>): Setup
    requires AllMayStart(s, ids)
  {
    Setup(
      map id | id in s.store :: if id in ids then Launched(s.store[id]) else s.store[id],
      map id | id in s.running.Keys + ids && (id in ids ==> s.store[id].valid) ::
        if id in ids then Launched(s.store[id]) else s.running[id],
      set f | f in s.pairs && !(f.after in ids && f.before in s.store[f.after].startAfter))
  }

  /** The actions that start when the given one, already finished, has succeeded. */
  ghost function ReadyFollowUps(s: Setup, id: nat): (ready: set<nat>)
    ensures AllMayStart(s, ready)
  {
    set f | f in s.pairs && f.before == id && MayStart(s, f.after) && AllSucceeded(s, s.store[f.after].startAfter) :: f.after
  }

  function Concluded(a: BuildAction, result: Result): BuildAction {
    a.(status := Finished, result := result)
  }

  /** The state in which follow-up actions are looked at: the running action is changed in place. */
  ghost function InPlace(s: Setup, a: BuildAction): Setup {
    if a.id in s.running then s.(running := s.running[a.id := a]) else s
  }

  ghost function ConcludedIn(s: Setup, a: BuildAction, result: Result): Setup {
    var s1 := InPlace(s, Concluded(a, result));
    StoredIn(if result == Success then StartedIn(s1, ReadyFollowUps(s1, a.id)) else s1, Concluded(a, result))
  }

  ghost function DeletedIn(s: Setup, ids: set<nat>): Setup {
    Setup(s.store - ids, s.running - ids, set f | f in s.pairs && f.before !in ids && f.after !in ids)
  }

  function Crashed(a: BuildAction): BuildAction {
    if IsExecuting(a) then a.(status := Finished, result := Failure) else a
  }

  /** After a restart nothing is running and the index is built anew. */
  ghost function RestoredFrom(store: map<nat, BuildAction>): Setup {
    Setup(
      map id | id in store :: Crashed(store[id]),
      map[],
      set id, p | id in store && IsScheduled(store[id]) && p in store[id].startAfter :: FollowUp(p, store[id].id))
  }

  // ---------------------------------------------------------------- invariants

  /**
   * The cache holds exactly the executing actions, and the index lists an action only while it is scheduled, and only
   * under what it starts after. What has been indexed under an allocated but not yet stored action is of no use.
   */
  ghost predicate WellKept(s: Setup) {
    IdsAreRight(s.store) && CacheIsExact(s) && IndexIsSound(s)
  }

  ghost predicate IdsAreRight(store: map<nat, BuildAction>) {
    INVALID_ID !in store && forall id :: id in store ==> store[id].id == id || store[id] == EMPTY_ACTION
  }

  ghost predicate CacheIsExact(s: Setup) {
    && (forall id :: id in s.running ==> id in s.store && s.running[id] == s.store[id] && IsExecuting(s.store[id]))
    && (forall id :: id in s.store && IsExecuting(s.store[id]) ==> id in s.running)
  }

  ghost predicate IndexIsSound(s: Setup) {
    forall f :: f in s.pairs ==> f.before == INVALID_ID || IsAwaited(s, f)
  }

  ghost predicate IsAwaited(s: Setup, f: FollowUp) {
    f.after in s.store && s.store[f.after].id == f.after && IsScheduled(s.store[f.after]) && f.before in s.store[f.after].startAfter
  }

  /** The action is going to be started: something it starts after is missing, and whatever is missing knows about it. */
  ghost predicate Waits(s: Setup, c: nat) {
    && c in s.store && s.store[c].id == c && IsScheduled(s.store[c])
    && (forall p :: p in s.store[c].startAfter ==> p in s.store && (HasSucceeded(s.store[p]) || FollowUp(p, c) in s.pairs))
    && exists p :: p in s.store[c].startAfter && !HasSucceeded(s.store[p])
  }

  ghost predicate AllWait(s: Setup, waiting: set<nat>) {
    forall c :: c in waiting ==> Waits(s, c)
  }

  // ---------------------------------------------------------------- starting

  lemma StartOne(s: Setup, ids: set<nat>, c: nat)
    requires AllMayStart(s, ids) && MayStart(s, c) && c !in ids
    ensures StoredIn(StartedIn(s, ids), Launched(s.store[c])) == StartedIn(s, ids + {c})
    ensures MayStart(StartedIn(s, ids), c) && StartedIn(s, ids).store[c] == s.store[c]
  {
    StartOnePairs(s, ids, c);
    hide PairsToRemove, PairsToAdd;
    var one, all := StoredIn(StartedIn(s, ids), Launched(s.store[c])), StartedIn(s, ids + {c});
    assert one.store == all.store;
    assert one.running == all.running;
  }

  lemma StartOnePairs(s: Setup, ids: set<nat>, c: nat)
    requires AllMayStart(s, ids) && MayStart(s, c) && c !in ids
    ensures StoredIn(StartedIn(s, ids), Launched(s.store[c])).pairs == StartedIn(s, ids + {c}).pairs
  {
  }

  /** Starting an action does not make anything succeed. */
  lemma StartingChangesNoSuccess(s: Setup, ids: set<nat>, startAfter: seq<nat>)
    requires AllMayStart(s, ids)
    ensures AllSucceeded(StartedIn(s, ids), startAfter) <==> AllSucceeded(s, startAfter)
  {
    var t := StartedIn(s, ids);
    forall p ensures Get(t.store, t.running, p).Some? <==> Get(s.store, s.running, p).Some? {
    }
    forall p | Get(s.store, s.running, p).Some?
      ensures HasSucceeded(Get(t.store, t.running, p).value) <==> HasSucceeded(Get(s.store, s.running, p).value)
    {
    }
  }

  lemma StartKeeps(s: Setup, a: BuildAction, waiting: set<nat>)
    requires WellKept(s) && AllWait(s, waiting) && IsScheduled(a)
    requires a.id in s.store && (s.store[a.id] == a || s.store[a.id] == EMPTY_ACTION)
    ensures WellKept(StoredIn(s, Launched(a))) && AllWait(StoredIn(s, Launched(a)), waiting - {a.id})
  {
    hide Waits, IndexIsSound;
    StartKeepsIndex(s, a);
    forall c | c in waiting - {a.id} ensures Waits(StoredIn(s, Launched(a)), c) {
      StartKeepsWaiting(s, a, c);
    }
  }

  lemma StartKeepsIndex(s: Setup, a: BuildAction)
    requires IndexIsSound(s) && IsScheduled(a) && a.id in s.store && (s.store[a.id] == a || s.store[a.id] == EMPTY_ACTION)
    ensures IndexIsSound(StoredIn(s, Launched(a)))
  {
    var t := StoredIn(s, Launched(a));
    forall f | f in t.pairs && f.before != INVALID_ID ensures IsAwaited(t, f) {
      assert IsAwaited(s, f);
    }
  }

  lemma StartKeepsWaiting(s: Setup, a: BuildAction, c: nat)
    requires Waits(s, c) && c != a.id && IsScheduled(a) && a.id in s.store && !HasSucceeded(s.store[a.id])
    ensures Waits(StoredIn(s, Launched(a)), c)
  {
    var t := StoredIn(s, Launched(a));
    var p :| p in s.store[c].startAfter && !HasSucceeded(s.store[p]);
    assert p in t.store[c].startAfter && !HasSucceeded(t.store[p]);
  }

  // ---------------------------------------------------------------- concluding

  /** The follow-up actions started when an action is concluded. */
  ghost function StartedBy(s: Setup, a: BuildAction, result: Result): set<nat> {
    if result == Success then ReadyFollowUps(InPlace(s, Concluded(a, result)), a.id) else {}
  }

  /** An action that has been waiting for nothing else is among those started. */
  lemma LastOneStartsIt(s: Setup, a: BuildAction, c: nat)
    requires WellKept(s) && a.id in s.running && s.running[a.id] == a && Waits(s, c)
    requires forall p :: p in s.store[c].startAfter ==> p == a.id || HasSucceeded(s.store[p])
    ensures c in StartedBy(s, a, Success)
  {
    var s1 := InPlace(s, Concluded(a, Success));
    var p :| p in s.store[c].startAfter && !HasSucceeded(s.store[p]);
    assert FollowUp(a.id, c) in s1.pairs;
    assert MayStart(s1, c) && AllSucceeded(s1, s1.store[c].startAfter);
  }

  /** What is started exactly: what the concluded action knows about, once all it starts after has succeeded. */
  lemma StartsIff(s: Setup, a: BuildAction, c: nat)
    requires WellKept(s) && a.id in s.running && s.running[a.id] == a
    requires c in s.store && s.store[c].id == c && IsScheduled(s.store[c])
    ensures c in StartedBy(s, a, Success) <==>
            FollowUp(a.id, c) in s.pairs && PredecessorsSucceeded(ConcludedIn(s, a, Success).store, s.store[c])
  {
    var s1, t := InPlace(s, Concluded(a, Success)), ConcludedIn(s, a, Success);
    ConcludedState(s, a, Success);
    if c in StartedBy(s, a, Success) {
      StartedAreJustified(s, a, Success, c);
    }
    if FollowUp(a.id, c) in s.pairs && PredecessorsSucceeded(t.store, s.store[c]) {
      hide ConcludedIn, IndexIsSound, IndexIsConcluded, CacheIsConcluded;
      forall p | p in s.store[c].startAfter && Get(s1.store, s1.running, p).Some?
        ensures HasSucceeded(Get(s1.store, s1.running, p).value)
      {
        assert HasSucceeded(t.store[p]);
      }
      assert AllSucceeded(s1, s1.store[c].startAfter) && MayStart(s1, c);
    }
  }

  /** All that an action starts after has succeeded, as far as it exists. */
  predicate PredecessorsSucceeded(store: map<nat, BuildAction>, a: BuildAction) {
    forall p :: p in a.startAfter && p in store ==> HasSucceeded(store[p])
  }

  ghost predicate StoreIsConcluded(s: Setup, t: Setup, a: BuildAction, result: Result, started: set<nat>)
    requires started <= s.store.Keys
  {
    && t.store.Keys == s.store.Keys && a.id in s.store && t.store[a.id] == Concluded(a, result)
    && (forall id :: id in s.store && id != a.id ==> t.store[id] == if id in started then Launched(s.store[id]) else s.store[id])
  }

  ghost predicate CacheIsConcluded(s: Setup, t: Setup, a: BuildAction, started: set<nat>)
    requires started <= s.store.Keys
  {
    && (forall id :: id in t.running <==> id != a.id && (id in s.running || (id in started && s.store[id].valid)))
    && (forall id :: id in t.running ==> t.running[id] == if id in started then Launched(s.store[id]) else s.running[id])
  }

  ghost predicate IndexIsConcluded(s: Setup, t: Setup, a: BuildAction, started: set<nat>)
    requires started <= s.store.Keys
  {
    forall f :: f in t.pairs <==>
      f in s.pairs && !(f.after in started && f.before in s.store[f.after].startAfter) && !(f.after == a.id && f.before in a.startAfter)
  }

  lemma ConcludedState(s: Setup, a: BuildAction, result: Result)
    requires WellKept(s) && a.id in s.running && s.running[a.id] == a
    ensures var t, started := ConcludedIn(s, a, result), StartedBy(s, a, result);
            && a.id !in started && AllMayStart(s, started)
            && StoreIsConcluded(s, t, a, result, started) && CacheIsConcluded(s, t, a, started) && IndexIsConcluded(s, t, a, started)
  {
    var s1, started := InPlace(s, Concluded(a, result)), StartedBy(s, a, result);
    ConcludedAsStored(s, a, result);
    hide ConcludedIn, StartedBy, IndexIsSound, IdsAreRight;
    var t := StoredIn(StartedIn(s1, started), Concluded(a, result));
    ConcludedStoreAndCache(s, t, a, result, started);
    ConcludedIndex(s, t, a, result, started);
  }

  lemma ConcludedAsStored(s: Setup, a: BuildAction, result: Result)
    requires CacheIsExact(s) && a.id in s.running && s.running[a.id] == a
    ensures var s1, started := InPlace(s, Concluded(a, result)), StartedBy(s, a, result);
            && AllMayStart(s1, started) && AllMayStart(s, started) && a.id !in started
            && ConcludedIn(s, a, result) == StoredIn(StartedIn(s1, started), Concluded(a, result))
  {
    hide AllSucceeded;
    if result != Success {
      NoneStarted(InPlace(s, Concluded(a, result)));
    }
  }

  lemma ConcludedStoreAndCache(s: Setup, t: Setup, a: BuildAction, result: Result, started: set<nat>)
    requires CacheIsExact(s) && a.id in s.running && s.running[a.id] == a && a.id !in started
    requires AllMayStart(s, started) && AllMayStart(InPlace(s, Concluded(a, result)), started)
    requires t == StoredIn(StartedIn(InPlace(s, Concluded(a, result)), started), Concluded(a, result))
    ensures StoreIsConcluded(s, t, a, result, started) && CacheIsConcluded(s, t, a, started)
  {
    hide PairsToAdd, PairsToRemove;
  }

  lemma ConcludedIndex(s: Setup, t: Setup, a: BuildAction, result: Result, started: set<nat>)
    requires a.id in s.running && started <= s.store.Keys && AllMayStart(InPlace(s, Concluded(a, result)), started)
    requires t == StoredIn(StartedIn(InPlace(s, Concluded(a, result)), started), Concluded(a, result))
    ensures IndexIsConcluded(s, t, a, started)
  {
    forall f ensures f in PairsToRemove(Concluded(a, result)) <==> f.after == a.id && f.before in a.startAfter {
      assert f == FollowUp(f.before, f.after);
    }
  }

  lemma ConcludeKeepsIndex(s: Setup, a: BuildAction, result: Result)
    requires WellKept(s) && a.id in s.running && s.running[a.id] == a
    ensures WellKept(ConcludedIn(s, a, result))
  {
    ConcludedState(s, a, result);
    hide ConcludedIn, StartedBy;
    var t, started := ConcludedIn(s, a, result), StartedBy(s, a, result);
    ConcludeKeepsCache(s, t, a, result, started);
    ConcludeKeepsPairs(s, t, a, result, started);
  }

  lemma ConcludeKeepsCache(s: Setup, t: Setup, a: BuildAction, result: Result, started: set<nat>)
    requires IdsAreRight(s.store) && CacheIsExact(s) && a.id in s.running && s.running[a.id] == a
    requires AllMayStart(s, started) && StoreIsConcluded(s, t, a, result, started) && CacheIsConcluded(s, t, a, started)
    ensures IdsAreRight(t.store) && CacheIsExact(t)
  {
    forall id | id in t.store && IsExecuting(t.store[id]) ensures id in t.running {
      assert id in started ==> MayStart(s, id);
    }
  }

  lemma ConcludeKeepsPairs(s: Setup, t: Setup, a: BuildAction, result: Result, started: set<nat>)
    requires CacheIsExact(s) && IndexIsSound(s) && a.id in s.running && s.running[a.id] == a
    requires AllMayStart(s, started) && StoreIsConcluded(s, t, a, result, started) && IndexIsConcluded(s, t, a, started)
    ensures IndexIsSound(t)
  {
    forall f | f in t.pairs && f.before != INVALID_ID ensures IsAwaited(t, f) {
      assert IsAwaited(s, f);
    }
  }

  /** No wake-up is lost: what was going to be started still is, or has just been started. */
  lemma ConcludeKeepsWaiting(s: Setup, a: BuildAction, result: Result, c: nat)
    requires WellKept(s) && a.id in s.running && s.running[a.id] == a
    requires Waits(s, c) && c != a.id && c !in StartedBy(s, a, result)
    ensures Waits(ConcludedIn(s, a, result), c)
  {
    if result == Success && forall p :: p in s.store[c].startAfter ==> p == a.id || HasSucceeded(s.store[p]) {
      LastOneStartsIt(s, a, c);
    } else {
      ConcludedState(s, a, result);
      hide ConcludedIn, StartedBy, IndexIsSound, CacheIsConcluded;
      StillWaits(s, ConcludedIn(s, a, result), a, result, StartedBy(s, a, result), c);
    }
  }

  lemma StillWaits(s: Setup, t: Setup, a: BuildAction, result: Result, started: set<nat>, c: nat)
    requires Waits(s, c) && c != a.id && c !in started && a.id in s.store && s.store[a.id] == a && IsExecuting(a)
    requires AllMayStart(s, started) && StoreIsConcluded(s, t, a, result, started) && IndexIsConcluded(s, t, a, started)
    requires exists p :: p in s.store[c].startAfter && !HasSucceeded(s.store[p]) && (result == Success ==> p != a.id)
    ensures Waits(t, c)
  {
    forall p | p in s.store[c].startAfter ensures p in t.store && (HasSucceeded(t.store[p]) || FollowUp(p, c) in t.pairs) {
      if HasSucceeded(s.store[p]) {
        assert p in started ==> MayStart(s, p);
      }
    }
    var p :| p in s.store[c].startAfter && !HasSucceeded(s.store[p]) && (result == Success ==> p != a.id);
    assert p in t.store[c].startAfter && !HasSucceeded(t.store[p]);
  }

  lemma ConcludeKeeps(s: Setup, a: BuildAction, result: Result, waiting: set<nat>)
    requires WellKept(s) && a.id in s.running && s.running[a.id] == a && AllWait(s, waiting)
    ensures WellKept(ConcludedIn(s, a, result))
    ensures AllWait(ConcludedIn(s, a, result), waiting - {a.id} - StartedBy(s, a, result))
  {
    hide Waits, WellKept, ConcludedIn, StartedBy;
    ConcludeKeepsIndex(s, a, result);
    forall c | c in waiting - {a.id} - StartedBy(s, a, result) ensures Waits(ConcludedIn(s, a, result), c) {
      ConcludeKeepsWaiting(s, a, result, c);
    }
  }

  /** A follow-up action is only started once everything it starts after, as far as it still exists, has succeeded. */
  lemma StartedAreJustified(s: Setup, a: BuildAction, result: Result, c: nat)
    requires WellKept(s) && a.id in s.running && s.running[a.id] == a && c in StartedBy(s, a, result)
    ensures result == Success && IsScheduled(s.store[c]) && a.id in s.store[c].startAfter
    ensures forall p :: p in s.store[c].startAfter && p in s.store ==> HasSucceeded(ConcludedIn(s, a, result).store[p])
    ensures !IsScheduled(ConcludedIn(s, a, result).store[c])
  {
    ConcludedState(s, a, result);
    var s1 := InPlace(s, Concluded(a, result));
    assert FollowUp(a.id, c) in s.pairs && AllSucceeded(s1, s1.store[c].startAfter);
    assert IsAwaited(s, FollowUp(a.id, c));
    forall p | p in s.store[c].startAfter && p in s.store ensures HasSucceeded(ConcludedIn(s, a, result).store[p]) {
      assert Get(s1.store, s1.running, p).Some?;
    }
  }

  // ---------------------------------------------------------------- registering, deleting, restarting

  /** Everything to start after has been stored before, and something has not succeeded yet. */
  ghost predicate CanBeAwaited(s: Setup, a: BuildAction) {
    && (forall p :: p in a.startAfter ==> p in s.store && (s.store[p].id == p || HasSucceeded(s.store[p])))
    && exists p :: p in a.startAfter && p in s.store && !HasSucceeded(s.store[p])
  }

  /** A registered action is known to exactly those unfinished predecessors that have been stored before. */
  lemma RegisteredPairs(s: Setup, a: BuildAction, p: nat)
    requires WellKept(s) && a.id in s.store && s.store[a.id] == EMPTY_ACTION && IsScheduled(a)
    requires p in a.startAfter && p != INVALID_ID
    ensures FollowUp(p, a.id) in StoredIn(s, a).pairs <==> p in s.store && s.store[p].id == p && !HasSucceeded(s.store[p])
  {
    assert FollowUp(p, a.id) in s.pairs ==> IsAwaited(s, FollowUp(p, a.id));
    assert p in s.store ==> Get(s.store, s.running - {a.id}, p) == Some(s.store[p]);
  }

  /** Registering makes an action wait if and only if the condition holds at that moment. */
  lemma RegisteredWaits(s: Setup, a: BuildAction)
    requires WellKept(s) && a.id in s.store && s.store[a.id] == EMPTY_ACTION && IsScheduled(a)
    ensures Waits(StoredIn(s, a), a.id) <==> CanBeAwaited(s, a)
  {
    var t := StoredIn(s, a);
    forall p | p in a.startAfter && p in s.store && !HasSucceeded(s.store[p])
      ensures FollowUp(p, a.id) in t.pairs <==> s.store[p].id == p
    {
      RegisteredPairs(s, a, p);
    }
    WaitsInStore(s, t, a);
  }

  lemma WaitsInStore(s: Setup, t: Setup, a: BuildAction)
    requires a.id in s.store && s.store[a.id] == EMPTY_ACTION && IsScheduled(a) && t.store == s.store[a.id := a]
    requires forall p :: p in a.startAfter && p in s.store && !HasSucceeded(s.store[p]) ==> (FollowUp(p, a.id) in t.pairs <==> s.store[p].id == p)
    ensures Waits(t, a.id) <==> CanBeAwaited(s, a)
  {
    if CanBeAwaited(s, a) {
      var p :| p in a.startAfter && p in s.store && !HasSucceeded(s.store[p]);
      assert p in t.store[a.id].startAfter && !HasSucceeded(t.store[p]);
    }
    if Waits(t, a.id) {
      var p :| p in t.store[a.id].startAfter && !HasSucceeded(t.store[p]);
      assert p in a.startAfter && p in s.store && !HasSucceeded(s.store[p]);
    }
  }

  lemma RegisterKeeps(s: Setup, a: BuildAction, waiting: set<nat>)
    requires WellKept(s) && AllWait(s, waiting)
    requires a.id in s.store && s.store[a.id] == EMPTY_ACTION && IsScheduled(a)
    ensures WellKept(StoredIn(s, a)) && AllWait(StoredIn(s, a), waiting)
  {
    var t := StoredIn(s, a);
    forall f | f in t.pairs && f.before != INVALID_ID ensures IsAwaited(t, f) {
      if f in s.pairs {
        assert IsAwaited(s, f);
      } else {
        var p :| p in a.startAfter && f.after == a.id && Get(s.store, s.running - {a.id}, p).Some?
                 && f.before == Get(s.store, s.running - {a.id}, p).value.id;
      }
    }
    forall c | c in waiting ensures Waits(t, c) {
      assert Waits(s, c);
      var p :| p in s.store[c].startAfter && !HasSucceeded(s.store[p]);
      assert p in t.store[c].startAfter && !HasSucceeded(t.store[p]);
    }
  }

  lemma AllocateKeeps(s: Setup, id: nat, waiting: set<nat>)
    requires WellKept(s) && AllWait(s, waiting) && id !in s.store && id != INVALID_ID
    ensures WellKept(s.(store := s.store[id := EMPTY_ACTION])) && AllWait(s.(store := s.store[id := EMPTY_ACTION]), waiting)
  {
    var t := s.(store := s.store[id := EMPTY_ACTION]);
    forall f | f in t.pairs && f.before != INVALID_ID ensures IsAwaited(t, f) {
      assert IsAwaited(s, f);
    }
    forall c | c in waiting ensures Waits(t, c) {
      assert Waits(s, c);
      var p :| p in s.store[c].startAfter && !HasSucceeded(s.store[p]);
      assert p in t.store[c].startAfter && !HasSucceeded(t.store[p]);
    }
  }

  /** Those that do not start after a deleted action. */
  ghost function Unaffected(s: Setup, waiting: set<nat>, ids: set<nat>): set<nat> {
    set c | c in waiting && c !in ids && c in s.store && forall p :: p in s.store[c].startAfter ==> p !in ids
  }

  lemma DeleteKeeps(s: Setup, ids: set<nat>, waiting: set<nat>)
    requires WellKept(s) && AllWait(s, waiting)
    ensures WellKept(DeletedIn(s, ids)) && AllWait(DeletedIn(s, ids), Unaffected(s, waiting, ids))
  {
    var t := DeletedIn(s, ids);
    forall f | f in t.pairs && f.before != INVALID_ID ensures IsAwaited(t, f) {
      assert IsAwaited(s, f);
    }
    forall c | c in Unaffected(s, waiting, ids) ensures Waits(t, c) {
      assert Waits(s, c);
      var p :| p in s.store[c].startAfter && !HasSucceeded(s.store[p]);
      assert p in t.store[c].startAfter && !HasSucceeded(t.store[p]);
    }
  }

  /** A restart makes up for what went wrong before: whatever starts after something existing and not succeeded waits. */
  ghost function CanWait(store: map<nat, BuildAction>): set<nat> {
    set c | c in store && store[c].id == c && IsScheduled(store[c])
            && (forall p :: p in store[c].startAfter ==> p in store)
            && exists p :: p in store[c].startAfter && p in store && !HasSucceeded(store[p])
  }

  lemma RestoreKeeps(s: Setup)
    requires WellKept(s)
    ensures WellKept(RestoredFrom(s.store)) && AllWait(RestoredFrom(s.store), CanWait(s.store))
  {
    var t := RestoredFrom(s.store);
    forall f | f in t.pairs && f.before != INVALID_ID ensures IsAwaited(t, f) {
      var id :| id in s.store && IsScheduled(s.store[id]) && f.before in s.store[id].startAfter && f.after == s.store[id].id;
    }
    forall c | c in CanWait(s.store) ensures Waits(t, c) {
      RestoredWaits(s.store, c);
    }
  }

  lemma RestoredWaits(store: map<nat, BuildAction>, c: nat)
    requires c in CanWait(store)
    ensures Waits(RestoredFrom(store), c)
  {
    var t := RestoredFrom(store);
    var p :| p in store[c].startAfter && p in store && !HasSucceeded(store[p]);
    assert p in t.store[c].startAfter && !HasSucceeded(t.store[p]);
    forall q | q in t.store[c].startAfter ensures FollowUp(q, c) in t.pairs {
      assert IsScheduled(store[c]) && q in store[c].startAfter;
    }
  }

  // ---------------------------------------------------------------- the index

  function AddFollowUp(followUps: FollowUps, before: nat, after: nat): FollowUps {
    followUps[before := (if before in followUps then followUps[before] else {}) + {after}]
  }

  lemma AddFollowUpPairs(followUps: FollowUps, before: nat, after: nat)
    ensures Pairs(AddFollowUp(followUps, before, after)) == Pairs(followUps) + {FollowUp(before, after)}
  {
  }

  /** An entry that becomes empty is removed. */
  function RemoveFollowUp(followUps: FollowUps, before: nat, after: nat): FollowUps {
    if before !in followUps then followUps
    else if followUps[before] - {after} == {} then followUps - {before}
    else followUps[before := followUps[before] - {after}]
  }

  lemma RemoveFollowUpPairs(followUps: FollowUps, before: nat, after: nat)
    ensures Pairs(RemoveFollowUp(followUps, before, after)) == Pairs(followUps) - {FollowUp(before, after)}
  {
    var less := RemoveFollowUp(followUps, before, after);
    forall f: FollowUp ensures f in Pairs(less) <==> f in Pairs(followUps) && f != FollowUp(before, after) {
      assert f == FollowUp(f.before, f.after);
      if f in Pairs(followUps) && f != FollowUp(before, after) {
        assert f.before == before ==> f.after in followUps[before] - {after};
      }
    }
  }

  // ---------------------------------------------------------------- the build setup

  ghost predicate IsFound(store: map<nat, BuildAction>, running: map<nat, BuildAction>, ids: seq<nat>, a: BuildAction) {
    exists id :: id in ids && Get(store, running, id) == Some(a)
  }

  /** The actions with the given ids, as far as they exist. */
  ghost predicate AreActions(store: map<nat, BuildAction>, running: map<nat, BuildAction>, ids: seq<nat>, actions: seq<BuildAction>) {
    && (forall i :: 0 <= i < |actions| ==> IsFound(store, running, ids, actions[i]))
    && (forall id :: id in ids && Get(store, running, id).Some? ==> Get(store, running, id).value in actions)
  }

  lemma AreActionsAppend(store: map<nat, BuildAction>, running: map<nat, BuildAction>, ids: seq<nat>, actions: seq<BuildAction>, id: nat)
    requires AreActions(store, running, ids, actions)
    ensures AreActions(store, running, ids + [id],
              actions + if Get(store, running, id).Some? then [Get(store, running, id).value] else [])
  {
    var more := actions + if Get(store, running, id).Some? then [Get(store, running, id).value] else [];
    forall i | 0 <= i < |more| ensures IsFound(store, running, ids + [id], more[i]) {
      if i < |actions| {
        assert IsFound(store, running, ids, actions[i]);
        var k :| k in ids && Get(store, running, k) == Some(actions[i]);
        assert k in ids + [id];
      } else {
        assert id in ids + [id];
      }
    }
  }

  class BuildSetup {
    var store: map<nat, BuildAction>
    var runningActions: map<nat, BuildAction>
    var followUpActions: FollowUps
    // actions that have something to wait for and are going to be started
    ghost var waiting: set<nat>

    ghost function State(): Setup
      reads this
    {
      Setup(store, runningActions, Pairs(followUpActions))
    }

    ghost predicate Valid()
      reads this
    {
      WellKept(State()) && AllWait(State(), waiting)
    }

    constructor ()
      ensures Valid() && store == map[] && waiting == {}
    {
      store, runningActions, followUpActions, waiting := map[], map[], map[], {};
    }

    method GetBuildAction(id: nat) returns (res: Option<BuildAction>)
      ensures res == Get(store, runningActions, id)
    {
      if id in runningActions {
        return Some(runningActions[id]);
      }
      return if id in store then Some(store[id]) else None;
    }

    method GetBuildActions(ids: seq<nat>) returns (res: seq<BuildAction>)
      ensures AreActions(store, runningActions, ids, res)
    {
      res := [];
      for k := 0 to |ids|
        invariant AreActions(store, runningActions, ids[..k], res)
      {
        assert ids[..k + 1] == ids[..k] + [ids[k]];
        AreActionsAppend(store, runningActions, ids[..k], res, ids[k]);
        if ids[k] in runningActions {
          res := res + [runningActions[ids[k]]];
        } else if ids[k] in store {
          res := res + [store[ids[k]]];
        }
      }
      assert ids[..|ids|] == ids;
    }

    method HaveSucceeded(ids: seq<nat>) returns (res: bool)
      ensures res <==> AllSucceeded(State(), ids)
    {
      var actions := GetBuildActions(ids);
      res := true;
      for i := 0 to |actions|
        invariant forall j :: 0 <= j < i ==> HasSucceeded(actions[j])
      {
        if !HasSucceeded(actions[i]) {
          assert IsFound(store, runningActions, ids, actions[i]);
          return false;
        }
      }
    }

    /** Updates the cache, the index and the storage. */
    method StoreBuildAction(a: BuildAction)
      modifies this`store, this`runningActions, this`followUpActions
      ensures State() == StoredIn(old(State()), a)
    {
      if IsExecuting(a) {
        runningActions := runningActions[a.id := a];
      } else {
        runningActions := runningActions - {a.id};
      }
      if IsScheduled(a) && a.startAfter != [] {
        IndexFollowUp(a);
      } else {
        UnindexFollowUp(a);
      }
      store := store[a.id := a];
    }

    /** Adds the action under every predecessor that exists and has not succeeded. */
    method IndexFollowUp(a: BuildAction)
      modifies this`followUpActions
      ensures Pairs(followUpActions) == old(Pairs(followUpActions)) + PairsToAdd(old(State()), a)
    {
      var previous := GetBuildActions(a.startAfter);
      ghost var s := State();
      for i := 0 to |previous|
        invariant Pairs(followUpActions) == s.pairs + set j | 0 <= j < i && !HasSucceeded(previous[j]) :: FollowUp(previous[j].id, a.id)
      {
        if !HasSucceeded(previous[i]) {
          AddFollowUpPairs(followUpActions, previous[i].id, a.id);
          followUpActions := AddFollowUp(followUpActions, previous[i].id, a.id);
        }
      }
    }

    method UnindexFollowUp(a: BuildAction)
      modifies this`followUpActions
      ensures Pairs(followUpActions) == old(Pairs(followUpActions)) - PairsToRemove(a)
    {
      for k := 0 to |a.startAfter|
        invariant Pairs(followUpActions) == old(Pairs(followUpActions)) - set j | 0 <= j < k :: FollowUp(a.startAfter[j], a.id)
      {
        RemoveFollowUpPairs(followUpActions, a.startAfter[k], a.id);
        followUpActions := RemoveFollowUp(followUpActions, a.startAfter[k], a.id);
      }
    }

    // -------------------------------------------------------------- starting and concluding

    method FollowUpBuildActions(forId: nat) returns (res: seq<BuildAction>, ghost ids: seq<nat>)
      ensures IsFollowUpList(State(), forId, res, ids)
    {
      res, ids := [], [];
      if forId !in followUpActions {
        return;
      }
      var rest: set<nat> := followUpActions[forId];
      while rest != {}
        invariant rest <= followUpActions[forId] && |res| == |ids|
        invariant forall i :: 0 <= i < |ids| ==> Get(store, runningActions, ids[i]) == Some(res[i])
        invariant forall i :: 0 <= i < |ids| ==> ids[i] in followUpActions[forId] && ids[i] !in rest
        invariant forall i, k :: 0 <= i < k < |ids| ==> ids[i] != ids[k]
        invariant forall c :: c in followUpActions[forId] && c !in rest && Get(store, runningActions, c).Some? ==> c in ids
        decreases rest
      {
        var followUpId :| followUpId in rest;
        rest := rest - {followUpId};
        var a := GetBuildAction(followUpId);
        if a.Some? {
          res, ids := res + [a.value], ids + [followUpId];
        }
      }
    }

    /** Starts a scheduled action; anything else is left alone. */
    method Start(a: BuildAction)
      modifies this`store, this`runningActions, this`followUpActions
      ensures State() == if IsScheduled(a) then StoredIn(old(State()), Launched(a)) else old(State())
      decreases 1, 0
    {
      if !IsScheduled(a) {
        return;
      }
      var running := a.(status := Running);
      if !a.valid {
        Conclude(running, Failure);
      } else {
        StoreBuildAction(running);
      }
    }

    /** Finishes an action and starts the follow-up actions that have become ready. */
    method Conclude(a: BuildAction, result: Result)
      requires result == Success ==> WellKept(State()) && a.id in runningActions && runningActions[a.id] == a
      modifies this`store, this`runningActions, this`followUpActions
      ensures State() == ConcludedIn(old(State()), a, result)
      decreases if result == Success then 2 else 0, 0
    {
      ghost var s := State();
      var finished := Concluded(a, result);
      if a.id in runningActions {
        runningActions := runningActions[a.id := finished];
      }
      assert State() == InPlace(s, finished);
      if result == Success {
        StartFollowUps(a.id);
      }
      StoreBuildAction(finished);
    }

    method StartFollowUps(id: nat)
      requires forall f :: f in State().pairs && f.before == id ==> MayStart(State(), f.after)
      modifies this`store, this`runningActions, this`followUpActions
      ensures State() == StartedIn(old(State()), ReadyFollowUps(old(State()), id))
      decreases 1, 1
    {
      ghost var s := State();
      var followUps, ids := FollowUpBuildActions(id);
      ghost var started: set<nat> := {};
      NoneStarted(s);
      for i := 0 to |followUps|
        invariant AllMayStart(s, started) && State() == StartedIn(s, started)
        invariant forall c :: c in started <==> c in ids[..i] && AllSucceeded(s, s.store[c].startAfter)
      {
        var followUpAction := followUps[i];
        assert FollowUp(id, ids[i]) in s.pairs;
        assert ids[..i + 1] == ids[..i] + [ids[i]];
        var haveSucceeded := HaveSucceeded(followUpAction.startAfter);
        StartingChangesNoSuccess(s, started, followUpAction.startAfter);
        if IsScheduled(followUpAction) && haveSucceeded {
          StartOne(s, started, ids[i]);
          Start(followUpAction);
          started := started + {ids[i]};
        }
      }
      StartedAreReady(s, id, followUps, ids, started);
    }

    // -------------------------------------------------------------- deleting and restoring

    /** The loop over the whole index that forgets an action. */
    method ForgetAction(id: nat)
      modifies this`followUpActions
      ensures Pairs(followUpActions) == set f | f in old(Pairs(followUpActions)) && f.before != id && f.after != id
    {
      ghost var before := followUpActions;
      followUpActions := followUpActions - {id};
      var rest := followUpActions.Keys;
      while rest != {}
        invariant rest <= before.Keys - {id} && followUpActions == Forgotten(before, id, rest)
        decreases rest
      {
        var p :| p in rest;
        rest := rest - {p};
        var followUps := followUpActions[p] - {id};
        if followUps == {} {
          followUpActions := followUpActions - {p};
        } else {
          followUpActions := followUpActions[p := followUps];
        }
      }
      ForgottenPairs(before, id);
    }

    method DeleteBuildAction(ids: seq<nat>)
      modifies this`store, this`runningActions, this`followUpActions
      ensures State() == DeletedIn(old(State()), SetOf(ids))
    {
      ghost var s := State();
      for i := 0 to |ids|
        invariant store == s.store - SetOf(ids[..i])
        invariant runningActions == s.running - SetOf(ids[..i])
        invariant Pairs(followUpActions) == set f | f in s.pairs && f.before !in ids[..i] && f.after !in ids[..i]
      {
        assert ids[..i + 1] == ids[..i] + [ids[i]];
        runningActions := runningActions - {ids[i]};
        ForgetAction(ids[i]);
        store := store - {ids[i]};
      }
      assert ids[..|ids|] == ids;
    }

    /** What happens when the service comes up again: nothing is running, and the index has to be rebuilt. */
    method RestoreState()
      modifies this`store, this`runningActions, this`followUpActions
      ensures State() == RestoredFrom(old(store))
    {
      ghost var before := store;
      runningActions, followUpActions := map[], map[];
      var rest := store.Keys;
      while rest != {}
        invariant rest <= before.Keys && runningActions == map[]
        invariant store == map id | id in before :: if id in rest then before[id] else Crashed(before[id])
        invariant Pairs(followUpActions) ==
                  set id, p | id in before && id !in rest && IsScheduled(before[id]) && p in before[id].startAfter :: FollowUp(p, before[id].id)
        decreases rest
      {
        var id :| id in rest;
        ghost var pairs, others := Pairs(followUpActions), rest;
        rest := rest - {id};
        if IsExecuting(store[id]) {
          store := store[id := Crashed(store[id])];
        } else if IsScheduled(store[id]) {
          AddToAll(store[id]);
        }
        RestoredPairs(before, others, id, pairs, Pairs(followUpActions));
      }
    }

    method AddToAll(a: BuildAction)
      modifies this`followUpActions
      ensures Pairs(followUpActions) == old(Pairs(followUpActions)) + PairsToRemove(a)
    {
      for k := 0 to |a.startAfter|
        invariant Pairs(followUpActions) == old(Pairs(followUpActions)) + set j | 0 <= j < k :: FollowUp(a.startAfter[j], a.id)
      {
        AddFollowUpPairs(followUpActions, a.startAfter[k], a.id);
        followUpActions := AddFollowUp(followUpActions, a.startAfter[k], a.id);
      }
    }

    // -------------------------------------------------------------- everything that can happen

    /** An id is taken before the action is stored under it; ids must not have been used up. */
    method AllocateBuildActionID() returns (id: nat)
      requires Valid() && INVALID_ID - 1 !in store
      modifies this`store
      ensures Valid() && id !in old(store) && store == old(store)[id := EMPTY_ACTION]
    {
      id := NewID(store.Keys);
      AllocateKeeps(State(), id, waiting);
      store := store[id := EMPTY_ACTION];
    }

    /** Adds a new action without starting it; it waits if and only if it can be awaited. */
    method Register(a: BuildAction)
      requires Valid() && IsScheduled(a) && a.id in store && store[a.id] == EMPTY_ACTION
      modifies this
      ensures Valid() && State() == StoredIn(old(State()), a)
      ensures waiting == old(waiting) + if CanBeAwaited(old(State()), a) then {a.id} else {}
    {
      RegisterKeeps(State(), a, waiting);
      RegisteredWaits(State(), a);
      ghost var canBeAwaited := CanBeAwaited(State(), a);
      StoreBuildAction(a);
      waiting := waiting + if canBeAwaited then {a.id} else {};
    }

    /** Starts an action on request, whatever it should start after. */
    method StartManually(a: BuildAction)
      requires Valid() && IsScheduled(a) && a.id in store && (store[a.id] == a || store[a.id] == EMPTY_ACTION)
      modifies this
      ensures Valid() && State() == StoredIn(old(State()), Launched(a))
      ensures waiting == old(waiting) - {a.id}
    {
      StartKeeps(State(), a, waiting);
      Start(a);
      waiting := waiting - {a.id};
    }

    /** A running action comes to its end; exactly the follow-up actions that have become ready are started. */
    method Finish(id: nat, result: Result) returns (ghost started: set<nat>)
      requires Valid() && id in runningActions
      modifies this
      ensures Valid() && State() == ConcludedIn(old(State()), old(runningActions)[id], result)
      ensures started == StartedBy(old(State()), old(runningActions)[id], result)
      ensures waiting == old(waiting) - {id} - started
    {
      var a := runningActions[id];
      RunningHasID(State(), id);
      started := StartedBy(State(), a, result);
      ConcludeKeeps(State(), a, result, waiting);
      Conclude(a, result);
      waiting := waiting - {id} - started;
    }

    /** Whatever starts after a deleted action may have to be started manually from now on. */
    method Delete(ids: seq<nat>)
      requires Valid()
      modifies this
      ensures Valid() && State() == DeletedIn(old(State()), SetOf(ids))
      ensures waiting == Unaffected(old(State()), old(waiting), SetOf(ids))
    {
      DeleteKeeps(State(), SetOf(ids), waiting);
      ghost var s := State();
      DeleteBuildAction(ids);
      waiting := Unaffected(s, waiting, SetOf(ids));
    }

    method Restart()
      requires Valid()
      modifies this
      ensures Valid() && State() == RestoredFrom(old(store)) && waiting == CanWait(old(store))
    {
      RestoreKeeps(State());
      ghost var before := store;
      RestoreState();
      waiting := CanWait(before);
    }
  }

  /** The index while an action is forgotten; the entries in `rest` have not been looked at. */
  function Forgotten(followUps: FollowUps, id: nat, rest: set<nat>): FollowUps {
    map p | p in followUps && p != id && (p in rest || followUps[p] - {id} != {}) ::
      if p in rest then followUps[p] else followUps[p] - {id}
  }

  lemma ForgottenPairs(followUps: FollowUps, id: nat)
    ensures Pairs(Forgotten(followUps, id, {})) == set f | f in Pairs(followUps) && f.before != id && f.after != id
  {
    var less := Forgotten(followUps, id, {});
    forall f: FollowUp ensures f in Pairs(less) <==> f in Pairs(followUps) && f.before != id && f.after != id {
      assert f == FollowUp(f.before, f.after);
      if f in Pairs(followUps) && f.before != id && f.after != id {
        assert f.after in followUps[f.before] - {id};
      }
    }
  }

  lemma RestoredPairs(store: map<nat, BuildAction>, rest: set<nat>, id: nat, pairs: set<FollowUp>, more: set<FollowUp>)
    requires id in rest && rest <= store.Keys
    requires pairs == set i, p | i in store && i !in rest && IsScheduled(store[i]) && p in store[i].startAfter :: FollowUp(p, store[i].id)
    requires more == pairs + if IsScheduled(store[id]) then PairsToRemove(store[id]) else {}
    ensures more == set i, p | i in store && i !in rest - {id} && IsScheduled(store[i]) && p in store[i].startAfter :: FollowUp(p, store[i].id)
  {
  }

  lemma RunningHasID(s: Setup, id: nat)
    requires WellKept(s) && id in s.running
    ensures s.running[id].id == id
  {
  }

  ghost predicate IsFollowUpList(s: Setup, forId: nat, actions: seq<BuildAction>, ids: seq<nat>) {
    && |actions| == |ids|
    && (forall i :: 0 <= i < |ids| ==> Get(s.store, s.running, ids[i]) == Some(actions[i]) && FollowUp(forId, ids[i]) in s.pairs)
    && (forall i, k :: 0 <= i < k < |ids| ==> ids[i] != ids[k])
    && (forall f :: f in s.pairs && f.before == forId && Get(s.store, s.running, f.after).Some? ==> f.after in ids)
  }

  lemma NoneStarted(s: Setup)
    ensures AllMayStart(s, {}) && StartedIn(s, {}) == s
  {
    assert StartedIn(s, {}).store == s.store && StartedIn(s, {}).running == s.running && StartedIn(s, {}).pairs == s.pairs;
  }

  lemma StartedAreReady(s: Setup, id: nat, followUps: seq<BuildAction>, ids: seq<nat>, started: set<nat>)
    requires IsFollowUpList(s, id, followUps, ids) && AllMayStart(s, started)
    requires forall c :: c in started <==> c in ids[..|followUps|] && c in s.store && AllSucceeded(s, s.store[c].startAfter)
    requires forall f :: f in s.pairs && f.before == id ==> MayStart(s, f.after)
    ensures started == ReadyFollowUps(s, id)
  {
    hide AllSucceeded, Get;
    assert ids[..|followUps|] == ids;
    forall c | c in started ensures c in ReadyFollowUps(s, id) {
      var i :| 0 <= i < |ids| && ids[i] == c;
      assert FollowUp(id, c) in s.pairs;
    }
    forall c | c in ReadyFollowUps(s, id) ensures c in started {
      var f :| f in s.pairs && f.before == id && f.after == c;
      ExistsInStore(s, c);
    }
  }

  lemma ExistsInStore(s: Setup, c: nat)
    requires MayStart(s, c)
    ensures Get(s.store, s.running, c).Some?
  {
  }
}

/**
 * The shared mutex whose ownership is not tied to a thread. Every operation holds an inner mutex while it
 * looks at or changes the state, so it is one atomic step; callbacks run afterwards. A request is known by
 * the number of its callback or of the client making it.
 */
module GlobalLock {
  import opened Wrappers
  import opened Sequences

  datatype Mutex = Mutex(sharedOwners: nat, exclusivelyOwned: bool, sharedCallbacks: seq<nat>, exclusiveCallback: Option<nat>)

  /** Who has become an owner: callbacks invoked and calls that return successfully. */
  datatype Granted = Granted(shared: seq<nat>, exclusive: Option<nat>)

  datatype Reaction = Reaction(mutex: Mutex, granted: Granted)

  const NOBODY := Granted([], None)

  datatype Operation =
    | TryLock(client: nat) | LockAsync(client: nat) | Unlock(client: nat)
    | TryLockShared(client: nat) | LockSharedAsync(client: nat) | UnlockShared(client: nat)

  predicate IsFree(m: Mutex) {
    m.sharedOwners == 0 && !m.exclusivelyOwned
  }

  /** Shared callbacks go first, all of them; the exclusive one follows if the lock is free. */
  function Notified(m: Mutex): Reaction {
    if m.sharedCallbacks != [] && !m.exclusivelyOwned then
      Reaction(m.(sharedCallbacks := [], sharedOwners := m.sharedOwners + |m.sharedCallbacks|), Granted(m.sharedCallbacks, None))
    else if m.exclusiveCallback.Some? && IsFree(m) then
      Reaction(m.(exclusiveCallback := None, exclusivelyOwned := true), Granted([], m.exclusiveCallback))
    else Reaction(m, NOBODY)
  }

  /** A blocking lock() is a sequence of attempts, each like try_lock(). */
  function After(m: Mutex, op: Operation): Reaction
    requires op.UnlockShared? ==> m.sharedOwners > 0
  {
    match op
    case TryLock(c) =>
      if IsFree(m) then Reaction(m.(exclusivelyOwned := true), Granted([], Some(c))) else Reaction(m, NOBODY)
    case LockAsync(c) =>
      if IsFree(m) then Reaction(m.(exclusivelyOwned := true), Granted([], Some(c)))
      else Reaction(m.(exclusiveCallback := Some(c)), NOBODY)
    case Unlock(_) => Notified(m.(exclusivelyOwned := false))
    case TryLockShared(c) =>
      if m.exclusivelyOwned then Reaction(m, NOBODY) else Reaction(m.(sharedOwners := m.sharedOwners + 1), Granted([c], None))
    case LockSharedAsync(c) =>
      if m.exclusivelyOwned then Reaction(m.(sharedCallbacks := m.sharedCallbacks + [c]), NOBODY)
      else Reaction(m.(sharedOwners := m.sharedOwners + 1), Granted([c], None))
    case UnlockShared(_) =>
      var less := m.(sharedOwners := m.sharedOwners - 1);
      if less.sharedOwners == 0 then Notified(less) else Reaction(less, NOBODY)
  }

  class GlobalSharedMutex {
    var sharedOwners: nat
    var exclusivelyOwned: bool
    var sharedCallbacks: seq<nat>
    var exclusiveCallback: Option<nat>

    function State(): Mutex
      reads this
    {
      Mutex(sharedOwners, exclusivelyOwned, sharedCallbacks, exclusiveCallback)
    }

    constructor ()
      ensures State() == Mutex(0, false, [], None)
    {
      sharedOwners, exclusivelyOwned, sharedCallbacks, exclusiveCallback := 0, false, [], None;
    }

    method Notify() returns (granted: Granted)
      modifies this
      ensures Reaction(State(), granted) == Notified(old(State()))
    {
      if sharedCallbacks != [] && !exclusivelyOwned {
        granted := Granted(sharedCallbacks, None);
        sharedOwners := sharedOwners + |sharedCallbacks|;
        sharedCallbacks := [];
        return;
      }
      if exclusiveCallback.Some? {
        if sharedOwners == 0 && !exclusivelyOwned {
          granted := Granted([], exclusiveCallback);
          exclusiveCallback := None;
          exclusivelyOwned := true;
          return;
        }
      }
      return NOBODY;
    }

    method TryLock(client: nat) returns (granted: Granted)
      modifies this
      ensures Reaction(State(), granted) == After(old(State()), Operation.TryLock(client))
    {
      if sharedOwners != 0 || exclusivelyOwned {
        return NOBODY;
      }
      exclusivelyOwned := true;
      return Granted([], Some(client));
    }

    method LockAsync(callback: nat) returns (granted: Granted)
      modifies this
      ensures Reaction(State(), granted) == After(old(State()), Operation.LockAsync(callback))
    {
      if sharedOwners != 0 || exclusivelyOwned {
        exclusiveCallback := Some(callback);
        return NOBODY;
      }
      exclusivelyOwned := true;
      return Granted([], Some(callback));
    }

    method Unlock(client: nat) returns (granted: Granted)
      modifies this
      ensures Reaction(State(), granted) == After(old(State()), Operation.Unlock(client))
    {
      exclusivelyOwned := false;
      granted := Notify();
    }

    method TryLockShared(client: nat) returns (granted: Granted)
      modifies this
      ensures Reaction(State(), granted) == After(old(State()), Operation.TryLockShared(client))
    {
      if exclusivelyOwned {
        return NOBODY;
      }
      sharedOwners := sharedOwners + 1;
      return Granted([client], None);
    }

    method LockSharedAsync(callback: nat) returns (granted: Granted)
      modifies this
      ensures Reaction(State(), granted) == After(old(State()), Operation.LockSharedAsync(callback))
    {
      if exclusivelyOwned {
        sharedCallbacks := sharedCallbacks + [callback];
        return NOBODY;
      }
      sharedOwners := sharedOwners + 1;
      return Granted([callback], None);
    }

    method UnlockShared(client: nat) returns (granted: Granted)
      requires sharedOwners > 0
      modifies this
      ensures Reaction(State(), granted) == After(old(State()), Operation.UnlockShared(client))
    {
      sharedOwners := sharedOwners - 1;
      granted := NOBODY;
      if sharedOwners == 0 {
        granted := Notify();
      }
    }
  }

  // ---------------------------------------------------------------- clients of the lock

  /** What has become of a request. */
  datatype Place = QueuedShared | QueuedExclusive | HoldsShared | HoldsExclusive | Released | Superseded

  datatype World = World(mutex: Mutex, places: map<nat, Place>)

  /** Requests are new, and only owners unlock. */
  predicate Allowed(w: World, op: Operation) {
    match op
    case Unlock(c) => c in w.places && w.places[c] == HoldsExclusive
    case UnlockShared(c) => c in w.places && w.places[c] == HoldsShared && w.mutex.sharedOwners > 0
    case _ => op.client !in w.places
  }

  /** What the operation says about a request, by itself and by who becomes an owner. */
  function PlaceAfter(w: World, op: Operation, r: Reaction, c: nat): Option<Place> {
    if c in r.granted.shared then Some(HoldsShared)
    else if r.granted.exclusive == Some(c) then Some(HoldsExclusive)
    else if c == op.client && (op.Unlock? || op.UnlockShared?) then Some(Released)
    else if c == op.client && op.LockAsync? then Some(QueuedExclusive)
    else if c == op.client && op.LockSharedAsync? then Some(QueuedShared)
    else if op.LockAsync? && r.granted == NOBODY && w.mutex.exclusiveCallback == Some(c) then Some(Superseded)
    else if c in w.places then Some(w.places[c])
    else None
  }

  function Next(w: World, op: Operation): World
    requires Allowed(w, op)
  {
    var r := After(w.mutex, op);
    World(r.mutex, map c | c in w.places.Keys + {op.client} && PlaceAfter(w, op, r, c).Some? :: PlaceAfter(w, op, r, c).value)
  }

  function At(w: World, place: Place): set<nat> {
    set c | c in w.places && w.places[c] == place
  }

  /**
   * Counters equal the owners, queues hold the queued, and no callback is queued for a lock that could be taken. This is
   * not said of threads blocked in lock() and lock_shared(): they try again when they wake up, and notify() wakes only one.
   */
  ghost predicate Invariant(w: World) {
    CountersAreRight(w) && QueuesAreRight(w) && Excludes(w.mutex)
  }

  ghost predicate CountersAreRight(w: World) {
    && w.mutex.sharedOwners == |At(w, HoldsShared)|
    && |At(w, HoldsExclusive)| == if w.mutex.exclusivelyOwned then 1 else 0
  }

  ghost predicate QueuesAreRight(w: World) {
    && NoDuplicates(w.mutex.sharedCallbacks) && Elements(w.mutex.sharedCallbacks) == At(w, QueuedShared)
    && Only(w.mutex.exclusiveCallback) == At(w, QueuedExclusive)
  }

  function Only(c: Option<nat>): set<nat> {
    if c.Some? then {c.value} else {}
  }

  /** Never shared and exclusive at once; a shared request waits for an exclusive owner, an exclusive one for any. */
  predicate Excludes(m: Mutex) {
    && !(m.exclusivelyOwned && m.sharedOwners > 0)
    && (m.sharedCallbacks != [] ==> m.exclusivelyOwned)
    && (m.exclusiveCallback.Some? ==> !IsFree(m))
  }

  // ---------------------------------------------------------------- one step

  lemma StepExcludes(m: Mutex, op: Operation)
    requires Excludes(m) && (op.UnlockShared? ==> m.sharedOwners > 0)
    ensures Excludes(After(m, op).mutex)
  {
  }

  /** Only requests that are waiting or just being made are granted. */
  lemma GrantedWereWaiting(w: World, op: Operation)
    requires QueuesAreRight(w) && Allowed(w, op)
    ensures var granted := After(w.mutex, op).granted;
            && NoDuplicates(granted.shared) && Elements(granted.shared) !! Only(granted.exclusive)
            && (forall c :: c in granted.shared ==>
                  c in At(w, QueuedShared) || (c == op.client && c !in w.places && (op.TryLockShared? || op.LockSharedAsync?)))
            && (forall c :: c in Only(granted.exclusive) ==>
                  c in At(w, QueuedExclusive) || (c == op.client && c !in w.places && (op.TryLock? || op.LockAsync?)))
  {
    assert forall c :: c in w.mutex.sharedCallbacks <==> c in Elements(w.mutex.sharedCallbacks);
  }

  function PlaceOf(w: World, c: nat): Option<Place> {
    if c in w.places then Some(w.places[c]) else None
  }

  lemma NextPlaces(w: World, op: Operation)
    requires QueuesAreRight(w) && Allowed(w, op)
    ensures forall c :: PlaceOf(Next(w, op), c) == PlaceAfter(w, op, After(w.mutex, op), c)
  {
    GrantedWereWaiting(w, op);
    hide QueuesAreRight, After;
  }

  /** How the owners change ... */
  lemma OwnersAfter(w: World, op: Operation)
    requires QueuesAreRight(w) && Allowed(w, op)
    ensures var granted := After(w.mutex, op).granted;
            && At(Next(w, op), HoldsShared) == (At(w, HoldsShared) - if op.UnlockShared? then {op.client} else {}) + Elements(granted.shared)
            && At(Next(w, op), HoldsExclusive) == (At(w, HoldsExclusive) - if op.Unlock? then {op.client} else {}) + Only(granted.exclusive)
  {
    var granted := After(w.mutex, op).granted;
    NextPlaces(w, op);
    forall c
      ensures PlaceOf(Next(w, op), c) == Some(HoldsShared) <==>
                (PlaceOf(w, c) == Some(HoldsShared) && op != UnlockShared(c)) || c in Elements(granted.shared)
      ensures PlaceOf(Next(w, op), c) == Some(HoldsExclusive) <==>
                (PlaceOf(w, c) == Some(HoldsExclusive) && op != Unlock(c)) || c in Only(granted.exclusive)
    {
      OwnerAfter(w, op, c);
    }
    hide After, Next, PlaceAfter, PlaceOf, QueuesAreRight, At, Allowed;
    InPlace(w);
    InPlace(Next(w, op));
  }

  lemma OwnerAfter(w: World, op: Operation, c: nat)
    requires QueuesAreRight(w) && Allowed(w, op)
    ensures var r := After(w.mutex, op);
            && (PlaceAfter(w, op, r, c) == Some(HoldsShared) <==>
                (PlaceOf(w, c) == Some(HoldsShared) && op != UnlockShared(c)) || c in Elements(r.granted.shared))
            && (PlaceAfter(w, op, r, c) == Some(HoldsExclusive) <==>
                (PlaceOf(w, c) == Some(HoldsExclusive) && op != Unlock(c)) || c in Only(r.granted.exclusive))
  {
    GrantedWereWaiting(w, op);
    WaitingAt(w, c);
    hide After, QueuesAreRight, NoDuplicates, At;
  }

  lemma WaitingAt(w: World, c: nat)
    requires QueuesAreRight(w)
    ensures c in At(w, QueuedShared) <==> PlaceOf(w, c) == Some(QueuedShared)
    ensures c in At(w, QueuedExclusive) <==> PlaceOf(w, c) == Some(QueuedExclusive)
    ensures w.mutex.exclusiveCallback == Some(c) <==> PlaceOf(w, c) == Some(QueuedExclusive)
  {
    assert c in Only(w.mutex.exclusiveCallback) <==> c in At(w, QueuedExclusive);
  }

  /** ... and the queued requests. */
  lemma QueuedAfter(w: World, op: Operation)
    requires QueuesAreRight(w) && Allowed(w, op)
    ensures var granted := After(w.mutex, op).granted;
            && At(Next(w, op), QueuedShared) ==
               At(w, QueuedShared) - Elements(granted.shared) + (if op.LockSharedAsync? && granted == NOBODY then {op.client} else {})
            && At(Next(w, op), QueuedExclusive) ==
               if op.LockAsync? && granted == NOBODY then {op.client} else At(w, QueuedExclusive) - Only(granted.exclusive)
  {
    var granted := After(w.mutex, op).granted;
    NextPlaces(w, op);
    forall c
      ensures PlaceOf(Next(w, op), c) == Some(QueuedShared) <==>
                (PlaceOf(w, c) == Some(QueuedShared) && c !in Elements(granted.shared)) || (op == LockSharedAsync(c) && granted == NOBODY)
      ensures PlaceOf(Next(w, op), c) == Some(QueuedExclusive) <==>
                if op.LockAsync? && granted == NOBODY then c == op.client
                else PlaceOf(w, c) == Some(QueuedExclusive) && c !in Only(granted.exclusive)
    {
      QueueAfter(w, op, c);
    }
    hide After, Next, PlaceAfter, PlaceOf, QueuesAreRight, At, Allowed;
    InPlace(w);
    InPlace(Next(w, op));
  }

  lemma QueueAfter(w: World, op: Operation, c: nat)
    requires QueuesAreRight(w) && Allowed(w, op)
    ensures var r := After(w.mutex, op);
            && (PlaceAfter(w, op, r, c) == Some(QueuedShared) <==>
                (PlaceOf(w, c) == Some(QueuedShared) && c !in Elements(r.granted.shared)) || (op == LockSharedAsync(c) && r.granted == NOBODY))
            && (PlaceAfter(w, op, r, c) == Some(QueuedExclusive) <==>
                if op.LockAsync? && r.granted == NOBODY then c == op.client
                else PlaceOf(w, c) == Some(QueuedExclusive) && c !in Only(r.granted.exclusive))
  {
    GrantedWereWaiting(w, op);
    WaitingAt(w, c);
    SelfGranted(w.mutex, op);
    hide After, QueuesAreRight, NoDuplicates, At;
  }

  lemma SelfGranted(m: Mutex, op: Operation)
    requires op.UnlockShared? ==> m.sharedOwners > 0
    ensures var granted := After(m, op).granted;
            && (op.LockSharedAsync? ==> granted == NOBODY || granted == Granted([op.client], None))
            && (op.LockAsync? ==> granted == NOBODY || granted == Granted([], Some(op.client)))
  {
  }

  lemma InPlace(w: World)
    ensures forall c, place :: c in At(w, place) <==> PlaceOf(w, c) == Some(place)
  {
  }

  /** The queues of the mutex itself. */
  lemma QueuesOf(m: Mutex, op: Operation)
    requires Excludes(m) && (op.UnlockShared? ==> m.sharedOwners > 0)
    ensures var r := After(m, op);
            && r.mutex.sharedCallbacks == (if op.LockSharedAsync? && r.granted == NOBODY then m.sharedCallbacks + [op.client]
                                           else if r.granted.shared != [] && (op.Unlock? || op.UnlockShared?) then [] else m.sharedCallbacks)
            && (r.granted.shared != [] && (op.Unlock? || op.UnlockShared?) ==> r.granted.shared == m.sharedCallbacks)
            && r.mutex.exclusiveCallback == (if op.LockAsync? && r.granted == NOBODY then Some(op.client)
                                             else if r.granted.exclusive.Some? && (op.Unlock? || op.UnlockShared?) then None else m.exclusiveCallback)
            && (r.granted.exclusive.Some? && (op.Unlock? || op.UnlockShared?) ==> r.granted.exclusive == m.exclusiveCallback)
  {
  }

  lemma StepKeepsQueues(w: World, op: Operation)
    requires QueuesAreRight(w) && Excludes(w.mutex) && Allowed(w, op)
    ensures QueuesAreRight(Next(w, op))
  {
    SharedQueueFollows(w, op);
    ExclusiveQueueFollows(w, op);
    NextMutex(w, op);
  }

  lemma SharedQueueFollows(w: World, op: Operation)
    requires QueuesAreRight(w) && Excludes(w.mutex) && Allowed(w, op)
    ensures var queue := After(w.mutex, op).mutex.sharedCallbacks; NoDuplicates(queue) && Elements(queue) == At(Next(w, op), QueuedShared)
  {
    var granted := After(w.mutex, op).granted;
    QueuesOf(w.mutex, op);
    QueuedAfter(w, op);
    GrantedWereWaiting(w, op);
    hide After, PlaceAfter, At, Next, Excludes;
    if op.LockSharedAsync? && granted == NOBODY {
      ElementsAppend(w.mutex.sharedCallbacks, op.client);
      NewIsNotQueued(w, op.client);
      NoDuplicatesAppend(w.mutex.sharedCallbacks, op.client);
    }
  }

  lemma ExclusiveQueueFollows(w: World, op: Operation)
    requires QueuesAreRight(w) && Excludes(w.mutex) && Allowed(w, op)
    ensures Only(After(w.mutex, op).mutex.exclusiveCallback) == At(Next(w, op), QueuedExclusive)
  {
    QueuesOf(w.mutex, op);
    QueuedAfter(w, op);
    GrantedWereWaiting(w, op);
    SelfGranted(w.mutex, op);
    hide After, PlaceAfter, At, Next, Excludes;
  }

  lemma NewIsNotQueued(w: World, c: nat)
    requires QueuesAreRight(w) && c !in w.places
    ensures c !in w.mutex.sharedCallbacks
  {
    assert c in w.mutex.sharedCallbacks ==> c in Elements(w.mutex.sharedCallbacks);
  }

  lemma {:induction false} CountElements(s: seq<nat>)
    requires NoDuplicates(s)
    ensures |Elements(s)| == |s|
  {
    if s == [] {
      assert Elements(s) == {};
    } else {
      var n := |s| - 1;
      NoDuplicatesPrefix(s, n);
      hide NoDuplicates;
      CountElements(s[..n]);
      assert s == s[..n] + [s[n]];
      ElementsAppend(s[..n], s[n]);
    }
  }

  lemma NoDuplicatesPrefix(s: seq<nat>, n: nat)
    requires NoDuplicates(s) && n < |s|
    ensures NoDuplicates(s[..n]) && s[n] !in Elements(s[..n])
  {
  }

  lemma CountChanged(owners: set<nat>, left: set<nat>, granted: set<nat>)
    requires left <= owners && owners !! granted
    ensures |(owners - left) + granted| == |owners| - |left| + |granted|
  {
  }

  /** The counters of the mutex itself. */
  lemma CountersOf(m: Mutex, op: Operation)
    requires Excludes(m) && (op.UnlockShared? ==> m.sharedOwners > 0)
    ensures var r := After(m, op);
            && r.mutex.sharedOwners == m.sharedOwners - (if op.UnlockShared? then 1 else 0) + |r.granted.shared|
            && (r.mutex.exclusivelyOwned <==> (m.exclusivelyOwned && !op.Unlock?) || r.granted.exclusive.Some?)
            && (r.granted.exclusive.Some? ==> !m.exclusivelyOwned || op.Unlock?)
  {
  }

  lemma NextMutex(w: World, op: Operation)
    requires Allowed(w, op)
    ensures Next(w, op).mutex == After(w.mutex, op).mutex
  {
  }

  lemma StepKeepsCounters(w: World, op: Operation)
    requires Invariant(w) && Allowed(w, op)
    ensures CountersAreRight(Next(w, op))
  {
    hide After, Next, Excludes, QueuesAreRight, At, PlaceAfter, Elements;
    NextMutex(w, op);
    SharedCounterFollows(w, op);
    ExclusiveCounterFollows(w, op);
  }

  lemma SharedCounterFollows(w: World, op: Operation)
    requires Invariant(w) && Allowed(w, op)
    ensures After(w.mutex, op).mutex.sharedOwners == |At(Next(w, op), HoldsShared)|
  {
    hide After, Next, Excludes, QueuesAreRight, At, PlaceAfter, Elements;
    OwnersAfter(w, op);
    CountersOf(w.mutex, op);
    OthersHold(w, op);
    CountGranted(w, op);
    CountChanged(At(w, HoldsShared), if op.UnlockShared? then {op.client} else {}, Elements(After(w.mutex, op).granted.shared));
  }

  lemma ExclusiveCounterFollows(w: World, op: Operation)
    requires Invariant(w) && Allowed(w, op)
    ensures |At(Next(w, op), HoldsExclusive)| == if After(w.mutex, op).mutex.exclusivelyOwned then 1 else 0
  {
    hide After, Next, Excludes, QueuesAreRight, At, PlaceAfter, Elements;
    OwnersAfter(w, op);
    CountersOf(w.mutex, op);
    OthersHold(w, op);
    CountChanged(At(w, HoldsExclusive), if op.Unlock? then {op.client} else {}, Only(After(w.mutex, op).granted.exclusive));
  }

  lemma CountGranted(w: World, op: Operation)
    requires QueuesAreRight(w) && Allowed(w, op)
    ensures var shared := After(w.mutex, op).granted.shared; |Elements(shared)| == |shared|
  {
    GrantedWereWaiting(w, op);
    CountElements(After(w.mutex, op).granted.shared);
  }

  /** Owners are not granted the lock once more. */
  lemma OthersHold(w: World, op: Operation)
    requires QueuesAreRight(w) && Allowed(w, op)
    ensures At(w, HoldsShared) !! Elements(After(w.mutex, op).granted.shared)
    ensures At(w, HoldsExclusive) !! Only(After(w.mutex, op).granted.exclusive)
    ensures op.UnlockShared? ==> op.client in At(w, HoldsShared)
    ensures op.Unlock? ==> op.client in At(w, HoldsExclusive)
  {
    GrantedWereWaiting(w, op);
    hide After, QueuesAreRight, NoDuplicates;
  }

  lemma StepKeepsInvariant(w: World, op: Operation)
    requires Invariant(w) && Allowed(w, op)
    ensures Invariant(Next(w, op))
  {
    StepExcludes(w.mutex, op);
    StepKeepsQueues(w, op);
    StepKeepsCounters(w, op);
  }

  /** A request moves on only by being granted, released by its owner or, if exclusive, superseded by the next one. */
  ghost predicate MayBecome(w: World, op: Operation, c: nat, before: Place, after: Place)
    requires Allowed(w, op)
  {
    var granted := After(w.mutex, op).granted;
    match before
    case QueuedShared => after == if c in granted.shared then HoldsShared else QueuedShared
    case QueuedExclusive =>
      after == (if granted.exclusive == Some(c) then HoldsExclusive
                else if op.LockAsync? && !IsFree(w.mutex) then Superseded else QueuedExclusive)
    case HoldsShared => after == if op == UnlockShared(c) then Released else HoldsShared
    case HoldsExclusive => after == if op == Unlock(c) then Released else HoldsExclusive
    case Released => after == Released
    case Superseded => after == Superseded
  }

  lemma StepMovesOn(w: World, op: Operation, c: nat)
    requires Invariant(w) && Allowed(w, op) && c in w.places
    ensures c in Next(w, op).places && MayBecome(w, op, c, w.places[c], Next(w, op).places[c])
  {
    GrantedWereWaiting(w, op);
    if w.places[c] == QueuedExclusive {
      assert c in At(w, QueuedExclusive);
    }
    if w.places[c] != QueuedExclusive {
      assert c !in Only(w.mutex.exclusiveCallback);
    }
  }

  /** Asking for exclusive ownership while another such request is queued is the end of that one. */
  lemma SecondRequestSupersedes(w: World, c: nat, d: nat)
    requires Invariant(w) && Allowed(w, LockAsync(d)) && c in w.places && w.places[c] == QueuedExclusive
    ensures Next(w, LockAsync(d)).places[c] == Superseded
  {
    WaitingAt(w, c);
    StepMovesOn(w, LockAsync(d), c);
  }

  // ---------------------------------------------------------------- what every operation has to do

  ghost predicate SomeoneIs(places: map<nat, Place>, place: Place) {
    exists d :: d in places && places[d] == place
  }

  /** What the mutex knows about its owners and queues. */
  lemma MutexKnows(w: World)
    requires Invariant(w)
    ensures w.mutex.sharedOwners > 0 <==> SomeoneIs(w.places, HoldsShared)
    ensures w.mutex.exclusivelyOwned <==> SomeoneIs(w.places, HoldsExclusive)
    ensures w.mutex.sharedCallbacks != [] <==> SomeoneIs(w.places, QueuedShared)
    ensures w.mutex.exclusiveCallback.Some? <==> SomeoneIs(w.places, QueuedExclusive)
  {
    AtIsSomeone(w, HoldsShared);
    AtIsSomeone(w, HoldsExclusive);
    AtIsSomeone(w, QueuedShared);
    AtIsSomeone(w, QueuedExclusive);
    assert w.mutex.sharedCallbacks != [] ==> w.mutex.sharedCallbacks[0] in Elements(w.mutex.sharedCallbacks);
    assert w.mutex.exclusiveCallback.Some? ==> w.mutex.exclusiveCallback.value in Only(w.mutex.exclusiveCallback);
  }

  lemma AtIsSomeone(w: World, place: Place)
    ensures At(w, place) != {} <==> SomeoneIs(w.places, place)
  {
    if At(w, place) != {} {
      var d :| d in At(w, place);
      assert d in w.places && w.places[d] == place;
    }
    if SomeoneIs(w.places, place) {
      var d :| d in w.places && w.places[d] == place;
      assert d in At(w, place);
    }
  }

  /** A free lock is taken, and nothing happens otherwise. */
  lemma TryLockLaw(w: World, c: nat)
    requires Invariant(w) && Allowed(w, TryLock(c))
    ensures var free := !SomeoneIs(w.places, HoldsShared) && !SomeoneIs(w.places, HoldsExclusive);
            Next(w, TryLock(c)).places == if free then w.places[c := HoldsExclusive] else w.places
    ensures SomeoneIs(w.places, HoldsShared) || SomeoneIs(w.places, HoldsExclusive) ==> Next(w, TryLock(c)).mutex == w.mutex
  {
    MutexKnows(w);
    NextPlaces(w, TryLock(c));
    hide Invariant, SomeoneIs, Excludes;
    PlacesAre(w, TryLock(c), if IsFree(w.mutex) then w.places[c := HoldsExclusive] else w.places);
  }

  lemma PlacesAre(w: World, op: Operation, places: map<nat, Place>)
    requires Allowed(w, op)
    requires forall d :: PlaceOf(Next(w, op), d) == if d in places then Some(places[d]) else None
    ensures Next(w, op).places == places
  {
    hide Next;
    assert forall d :: d in Next(w, op).places <==> PlaceOf(Next(w, op), d).Some?;
  }

  /** Shared ownership is given unless someone owns the lock exclusively. */
  lemma TryLockSharedLaw(w: World, c: nat)
    requires Invariant(w) && Allowed(w, TryLockShared(c))
    ensures Next(w, TryLockShared(c)).places ==
            if SomeoneIs(w.places, HoldsExclusive) then w.places else w.places[c := HoldsShared]
    ensures SomeoneIs(w.places, HoldsExclusive) ==> Next(w, TryLockShared(c)).mutex == w.mutex
  {
    MutexKnows(w);
    NextPlaces(w, TryLockShared(c));
    hide Invariant, SomeoneIs, Excludes;
    PlacesAre(w, TryLockShared(c), if w.mutex.exclusivelyOwned then w.places else w.places[c := HoldsShared]);
  }

  /** The same with a callback, which is queued instead. */
  lemma LockSharedAsyncLaw(w: World, c: nat)
    requires Invariant(w) && Allowed(w, LockSharedAsync(c))
    ensures Next(w, LockSharedAsync(c)).places ==
            w.places[c := if SomeoneIs(w.places, HoldsExclusive) then QueuedShared else HoldsShared]
  {
    MutexKnows(w);
    NextPlaces(w, LockSharedAsync(c));
    hide Invariant, SomeoneIs, Excludes;
    PlacesAre(w, LockSharedAsync(c), w.places[c := if w.mutex.exclusivelyOwned then QueuedShared else HoldsShared]);
  }

  /** An exclusive callback is queued in place of the one before. */
  lemma LockAsyncLaw(w: World, c: nat)
    requires Invariant(w) && Allowed(w, LockAsync(c))
    ensures var free := !SomeoneIs(w.places, HoldsShared) && !SomeoneIs(w.places, HoldsExclusive);
            Next(w, LockAsync(c)).places ==
            if free then w.places[c := HoldsExclusive]
            else (map d | d in w.places :: if w.places[d] == QueuedExclusive then Superseded else w.places[d])[c := QueuedExclusive]
  {
    MutexKnows(w);
    NextPlaces(w, LockAsync(c));
    forall d: nat ensures w.mutex.exclusiveCallback == Some(d) <==> PlaceOf(w, d) == Some(QueuedExclusive) {
      WaitingAt(w, d);
    }
    hide Invariant, SomeoneIs, Excludes, QueuesAreRight;
    PlacesAre(w, LockAsync(c),
              if IsFree(w.mutex) then w.places[c := HoldsExclusive]
              else (map d | d in w.places :: if w.places[d] == QueuedExclusive then Superseded else w.places[d])[c := QueuedExclusive]);
  }

  /** Giving up exclusive ownership lets all shared requests in; if there are none, the exclusive one. */
  lemma UnlockLaw(w: World, c: nat)
    requires Invariant(w) && Allowed(w, Unlock(c))
    ensures Next(w, Unlock(c)).places ==
            (map d | d in w.places ::
               if w.places[d] == QueuedShared then HoldsShared
               else if w.places[d] == QueuedExclusive && !SomeoneIs(w.places, QueuedShared) then HoldsExclusive
               else w.places[d])[c := Released]
  {
    MutexKnows(w);
    NextPlaces(w, Unlock(c));
    OwnerIsAlone(w, c);
    forall d: nat ensures d in w.mutex.sharedCallbacks <==> PlaceOf(w, d) == Some(QueuedShared)
      ensures w.mutex.exclusiveCallback == Some(d) <==> PlaceOf(w, d) == Some(QueuedExclusive)
    {
      WaitingAt(w, d);
      assert d in w.mutex.sharedCallbacks <==> d in Elements(w.mutex.sharedCallbacks);
    }
    hide Invariant, SomeoneIs, QueuesAreRight;
    PlacesAre(w, Unlock(c),
              (map d | d in w.places ::
                 if w.places[d] == QueuedShared then HoldsShared
                 else if w.places[d] == QueuedExclusive && w.mutex.sharedCallbacks == [] then HoldsExclusive
                 else w.places[d])[c := Released]);
  }

  lemma OwnerIsAlone(w: World, c: nat)
    requires Invariant(w) && c in w.places && w.places[c] == HoldsExclusive
    ensures w.mutex.exclusivelyOwned && w.mutex.sharedOwners == 0
  {
    assert c in At(w, HoldsExclusive);
  }

  /** The last one to give up shared ownership lets the exclusive request in. */
  lemma UnlockSharedLaw(w: World, c: nat)
    requires Invariant(w) && Allowed(w, UnlockShared(c))
    ensures var others := w.places[c := Released];
            Next(w, UnlockShared(c)).places ==
            map d | d in others ::
              if others[d] == QueuedExclusive && !SomeoneIs(others, HoldsShared) then HoldsExclusive else others[d]
  {
    var others := w.places[c := Released];
    MutexKnows(w);
    NextPlaces(w, UnlockShared(c));
    OnlyOwner(w, c);
    forall d: nat ensures w.mutex.exclusiveCallback == Some(d) <==> PlaceOf(w, d) == Some(QueuedExclusive) {
      WaitingAt(w, d);
    }
    hide CountersAreRight, QueuesAreRight, SomeoneIs;
    PlacesAre(w, UnlockShared(c),
              map d | d in others :: if others[d] == QueuedExclusive && w.mutex.sharedOwners == 1 then HoldsExclusive else others[d]);
  }

  lemma OnlyOwner(w: World, c: nat)
    requires Invariant(w) && c in w.places && w.places[c] == HoldsShared
    ensures w.mutex.sharedOwners == 1 <==> !SomeoneIs(w.places[c := Released], HoldsShared)
  {
    var others := World(w.mutex, w.places[c := Released]);
    assert At(others, HoldsShared) == At(w, HoldsShared) - {c};
    AtIsSomeone(others, HoldsShared);
    assert c in At(w, HoldsShared);
    assert |At(w, HoldsShared) - {c}| == |At(w, HoldsShared)| - 1;
  }

  // ---------------------------------------------------------------- all interleavings

  ghost predicate IsRun(worlds: seq<World>, ops: seq<Operation>) {
    && |worlds| == |ops| + 1 && worlds[0] == World(Mutex(0, false, [], None), map[])
    && forall i {:trigger ops[i]} :: 0 <= i < |ops| ==> StepsTo(worlds[i], ops[i], worlds[i + 1])
  }

  ghost predicate StepsTo(w: World, op: Operation, next: World) {
    Allowed(w, op) && next == Next(w, op)
  }

  lemma {:induction false} RunKeepsInvariant(worlds: seq<World>, ops: seq<Operation>, i: nat)
    requires IsRun(worlds, ops) && i <= |ops|
    ensures Invariant(worlds[i])
  {
    if i == 0 {
      assert At(worlds[0], HoldsShared) == At(worlds[0], HoldsExclusive) == At(worlds[0], QueuedShared) == At(worlds[0], QueuedExclusive) == {};
    } else {
      RunKeepsInvariant(worlds, ops, i - 1);
      assert StepsTo(worlds[i - 1], ops[i - 1], worlds[i]);
      StepKeepsInvariant(worlds[i - 1], ops[i - 1]);
    }
  }

  /** Unlocking hands the lock to all waiting shared requests; if there are none, to the waiting exclusive one. */
  lemma UnlockServesTheQueue(w: World, c: nat)
    requires Invariant(w) && Allowed(w, Unlock(c))
    ensures var next := Next(w, Unlock(c));
            && next.mutex.sharedCallbacks == [] && At(next, HoldsShared) == At(w, QueuedShared)
            && (w.mutex.sharedCallbacks == [] ==> At(next, HoldsExclusive) == At(w, QueuedExclusive))
  {
    OwnersAfter(w, Unlock(c));
    OthersHold(w, Unlock(c));
    assert w.mutex.exclusivelyOwned && w.mutex.sharedOwners == 0 && At(w, HoldsShared) == {};
    assert At(w, HoldsExclusive) - {c} == {} by {
      assert |At(w, HoldsExclusive)| == 1;
      assert |At(w, HoldsExclusive) - {c}| == 0;
    }
    if w.mutex.sharedCallbacks == [] {
      assert Elements(w.mutex.sharedCallbacks) == {};
    }
  }

  ghost predicate IsGranted(w: World, op: Operation, c: nat)
    requires Allowed(w, op)
  {
    c in After(w.mutex, op).granted.shared || After(w.mutex, op).granted.exclusive == Some(c)
  }

  predicate IsServed(place: Place) {
    place == HoldsShared || place == HoldsExclusive || place == Released
  }

  lemma GrantedIsServed(w: World, op: Operation, c: nat)
    requires Invariant(w) && Allowed(w, op) && IsGranted(w, op, c)
    ensures c in w.places ==> !IsServed(w.places[c])
    ensures c in Next(w, op).places && IsServed(Next(w, op).places[c])
  {
    GrantedWereWaiting(w, op);
    NextPlaces(w, op);
    assert PlaceOf(Next(w, op), c) == PlaceAfter(w, op, After(w.mutex, op), c);
    assert c in Only(After(w.mutex, op).granted.exclusive) <==> After(w.mutex, op).granted.exclusive == Some(c);
  }

  lemma {:induction false} StaysServed(worlds: seq<World>, ops: seq<Operation>, c: nat, i: nat, j: nat)
    requires IsRun(worlds, ops) && i <= j <= |ops| && c in worlds[i].places && IsServed(worlds[i].places[c])
    ensures c in worlds[j].places && IsServed(worlds[j].places[c])
    decreases j - i
  {
    if i < j {
      RunKeepsInvariant(worlds, ops, i);
      StepMovesOn(worlds[i], ops[i], c);
      StaysServed(worlds, ops, c, i + 1, j);
    }
  }

  /** No request is granted twice. */
  lemma GrantedAtMostOnce(worlds: seq<World>, ops: seq<Operation>, c: nat, i: nat, j: nat)
    requires IsRun(worlds, ops) && i < |ops| && j < |ops|
    requires IsGranted(worlds[i], ops[i], c) && IsGranted(worlds[j], ops[j], c)
    ensures i == j
  {
    RunKeepsInvariant(worlds, ops, i);
    RunKeepsInvariant(worlds, ops, j);
    GrantedIsServed(worlds[i], ops[i], c);
    GrantedIsServed(worlds[j], ops[j], c);
    if i < j {
      StaysServed(worlds, ops, c, i + 1, j);
    } else if j < i {
      StaysServed(worlds, ops, c, j + 1, i);
    }
  }

  /** A shared request is either still queued, and then there is an exclusive owner, or has been granted. */
  lemma {:induction false} SharedIsNeverLost(worlds: seq<World>, ops: seq<Operation>, c: nat, i: nat, j: nat)
    requires IsRun(worlds, ops) && i < j <= |ops| && ops[i] == LockSharedAsync(c)
    ensures c in worlds[j].places
    ensures worlds[j].places[c] == HoldsShared || worlds[j].places[c] == Released
            || (worlds[j].places[c] == QueuedShared && worlds[j].mutex.exclusivelyOwned)
    decreases j
  {
    RunKeepsInvariant(worlds, ops, j);
    RunKeepsInvariant(worlds, ops, j - 1);
    assert StepsTo(worlds[j - 1], ops[j - 1], worlds[j]);
    if j == i + 1 {
      NextPlaces(worlds[i], ops[i]);
      assert PlaceOf(worlds[j], c) == PlaceAfter(worlds[i], ops[i], After(worlds[i].mutex, ops[i]), c);
    } else {
      SharedIsNeverLost(worlds, ops, c, i, j - 1);
      StepMovesOn(worlds[j - 1], ops[j - 1], c);
    }
    QueuedMeansOwned(worlds[j], c);
  }

  lemma QueuedMeansOwned(w: World, c: nat)
    requires Invariant(w) && c in w.places
    ensures w.places[c] == QueuedShared ==> w.mutex.exclusivelyOwned
    ensures w.places[c] == QueuedExclusive ==> !IsFree(w.mutex)
  {
    WaitingAt(w, c);
    if w.places[c] == QueuedShared {
      assert c in Elements(w.mutex.sharedCallbacks);
    }
  }

  /** An exclusive request is lost only if another one has been made while it was queued. */
  lemma {:induction false} ExclusiveIsOnlySuperseded(worlds: seq<World>, ops: seq<Operation>, c: nat, i: nat, j: nat)
    requires IsRun(worlds, ops) && i < j <= |ops| && ops[i] == LockAsync(c)
    ensures c in worlds[j].places
    ensures worlds[j].places[c] == HoldsExclusive || worlds[j].places[c] == Released
            || (worlds[j].places[c] == QueuedExclusive && !IsFree(worlds[j].mutex))
            || exists k :: i < k < j && ops[k].LockAsync? && !IsFree(worlds[k].mutex) && worlds[k].mutex.exclusiveCallback == Some(c)
    decreases j
  {
    RunKeepsInvariant(worlds, ops, j);
    RunKeepsInvariant(worlds, ops, j - 1);
    assert StepsTo(worlds[j - 1], ops[j - 1], worlds[j]);
    if j == i + 1 {
      NextPlaces(worlds[i], ops[i]);
      assert PlaceOf(worlds[j], c) == PlaceAfter(worlds[i], ops[i], After(worlds[i].mutex, ops[i]), c);
    } else {
      ExclusiveIsOnlySuperseded(worlds, ops, c, i, j - 1);
      WaitingAt(worlds[j - 1], c);
      StepMovesOn(worlds[j - 1], ops[j - 1], c);
    }
    QueuedMeansOwned(worlds[j], c);
  }
}

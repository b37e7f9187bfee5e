/**
 * The package cache: a bounded list of packages, most recently used first, in front of the package stores of
 * all databases. Storages are numbered here; the number stands for the address of the storage object.
 */
module PackageCache {
  import opened Wrappers
  import opened Packages
  import opened PackageStore
  import opened Recency

  datatype CacheKey = CacheKey(storage: nat, id: nat)

  datatype CacheEntry = CacheEntry(storage: nat, name: string, id: nat, package: Package)

  function KeyOf(e: CacheEntry): CacheKey {
    CacheKey(e.storage, e.id)
  }

  function KeysOf(entries: seq<CacheEntry>): (keys: seq<CacheKey>)
    ensures |keys| == |entries| && forall i :: 0 <= i < |keys| ==> keys[i] == KeyOf(entries[i])
  {
    seq(|entries|, i requires 0 <= i < |entries| => KeyOf(entries[i]))
  }

  /** The unique indexes of the container: ids and names are unique per storage. */
  predicate Conflicts(a: CacheEntry, b: CacheEntry) {
    a.storage == b.storage && (a.id == b.id || a.name == b.name)
  }

  predicate NoConflicts(entries: seq<CacheEntry>) {
    forall i, j :: 0 <= i < j < |entries| ==> !Conflicts(entries[i], entries[j])
  }

  // ---------------------------------------------------------------- the bounded list

  class StorageCacheEntries {
    var entries: seq<CacheEntry>
    var limit: nat

    constructor (limit: nat)
      ensures entries == [] && this.limit == limit
    {
      entries, this.limit := [], limit;
    }

    /** A found entry is moved to the front. */
    method FindByID(key: CacheKey) returns (found: bool, ghost at: nat)
      modifies this`entries
      ensures if found then at < |old(entries)| && KeyOf(old(entries)[at]) == key && entries == ToFront(old(entries), at)
              else entries == old(entries) && forall i :: 0 <= i < |entries| ==> KeyOf(entries[i]) != key
    {
      at := 0;
      for i := 0 to |entries|
        invariant entries == old(entries) && forall j :: 0 <= j < i ==> KeyOf(entries[j]) != key
      {
        if KeyOf(entries[i]) == key {
          entries := ToFront(entries, i);
          return true, i;
        }
      }
      return false, 0;
    }

    method FindByName(storage: nat, name: string) returns (found: bool, ghost at: nat)
      modifies this`entries
      ensures if found
              then at < |old(entries)| && IsRef(old(entries)[at], storage, name) && entries == ToFront(old(entries), at)
              else entries == old(entries) && forall i :: 0 <= i < |entries| ==> !IsRef(entries[i], storage, name)
    {
      at := 0;
      for i := 0 to |entries|
        invariant entries == old(entries) && forall j :: 0 <= j < i ==> !IsRef(entries[j], storage, name)
      {
        if IsRef(entries[i], storage, name) {
          entries := ToFront(entries, i);
          return true, i;
        }
      }
      return false, 0;
    }

    /** A conflicting entry is moved to the front but not replaced. */
    method Insert(entry: CacheEntry) returns (ghost at: nat)
      requires |entries| <= limit
      modifies this`entries
      ensures if at < |old(entries)| then Conflicts(old(entries)[at], entry) && entries == ToFront(old(entries), at)
              else entries == First([entry] + old(entries), limit) && forall i :: 0 <= i < |old(entries)| ==> !Conflicts(old(entries)[i], entry)
    {
      at := |entries|;
      for i := 0 to |entries|
        invariant entries == old(entries) && forall j :: 0 <= j < i ==> !Conflicts(entries[j], entry)
      {
        if Conflicts(entries[i], entry) {
          entries := ToFront(entries, i);
          return i;
        }
      }
      entries := [entry] + entries;
      if |entries| > limit {
        entries := entries[..|entries| - 1];
      }
    }

    method SetFront(package: Package)
      requires entries != []
      modifies this`entries
      ensures entries == old(entries)[0 := old(entries)[0].(package := package)]
    {
      entries := entries[0 := entries[0].(package := package)];
    }

    method Erase(storage: nat, name: string)
      requires NoConflicts(entries)
      modifies this`entries
      ensures entries == Filter(old(entries), (e: CacheEntry) => !IsRef(e, storage, name))
    {
      for i := 0 to |entries|
        invariant entries == old(entries) && forall j :: 0 <= j < i ==> !IsRef(entries[j], storage, name)
      {
        if IsRef(entries[i], storage, name) {
          FilterOne(entries, i, (e: CacheEntry) => !IsRef(e, storage, name));
          entries := entries[..i] + entries[i + 1..];
          return;
        }
      }
      FilterNone(entries, (e: CacheEntry) => !IsRef(e, storage, name));
    }

    method Clear(storage: nat) returns (count: nat)
      modifies this`entries
      ensures entries == Filter(old(entries), (e: CacheEntry) => e.storage != storage)
      ensures count + |entries| == |old(entries)|
    {
      ghost var keep := (e: CacheEntry) => e.storage != storage;
      count := 0;
      var i := 0;
      while i < |entries|
        invariant i <= |entries| && count + |entries| == |old(entries)|
        invariant Filter(entries, keep) == Filter(old(entries), keep)
        invariant forall j :: 0 <= j < i ==> keep(entries[j])
        decreases |entries| - i
      {
        if entries[i].storage == storage {
          FilterSkip(entries, i, keep);
          entries := entries[..i] + entries[i + 1..];
          count := count + 1;
        } else {
          i := i + 1;
        }
      }
      FilterNone(entries, keep);
    }

    method SetLimit(limit: nat)
      modifies this
      ensures this.limit == limit && entries == First(old(entries), limit)
    {
      this.limit := limit;
      while |entries| > limit
        invariant this.limit == limit && entries == old(entries)[..|entries|] && |entries| <= |old(entries)|
        invariant |entries| < |old(entries)| ==> |entries| >= limit
        decreases |entries|
      {
        entries := entries[..|entries| - 1];
      }
    }
  }

  predicate IsRef(e: CacheEntry, storage: nat, name: string) {
    e.storage == storage && e.name == name
  }

  function Filter(entries: seq<CacheEntry>, keep: CacheEntry -> bool): seq<CacheEntry> {
    if entries == [] then [] else (if keep(entries[0]) then [entries[0]] else []) + Filter(entries[1..], keep)
  }

  lemma {:induction false} FilterNone(entries: seq<CacheEntry>, keep: CacheEntry -> bool)
    requires forall i :: 0 <= i < |entries| ==> keep(entries[i])
    ensures Filter(entries, keep) == entries
  {
    if entries != [] {
      FilterNone(entries[1..], keep);
    }
  }

  lemma {:induction false} FilterSkip(entries: seq<CacheEntry>, i: nat, keep: CacheEntry -> bool)
    requires i < |entries| && !keep(entries[i])
    ensures Filter(entries[..i] + entries[i + 1..], keep) == Filter(entries, keep)
  {
    var less := entries[..i] + entries[i + 1..];
    if i == 0 {
      assert less == entries[1..];
    } else {
      FilterSkip(entries[1..], i - 1, keep);
      assert less[1..] == entries[1..][..i - 1] + entries[1..][i..];
    }
  }

  lemma FilterOne(entries: seq<CacheEntry>, i: nat, keep: CacheEntry -> bool)
    requires i < |entries| && !keep(entries[i])
    requires forall j :: 0 <= j < |entries| && j != i ==> keep(entries[j])
    ensures Filter(entries, keep) == entries[..i] + entries[i + 1..]
  {
    hide Filter;
    var less := entries[..i] + entries[i + 1..];
    assert forall j :: 0 <= j < |less| ==> less[j] == entries[if j < i then j else j + 1];
    FilterSkip(entries, i, keep);
    FilterNone(less, keep);
  }

  lemma {:induction false} FilterIsSubset(entries: seq<CacheEntry>, keep: CacheEntry -> bool)
    ensures |Filter(entries, keep)| <= |entries|
    ensures forall i :: 0 <= i < |Filter(entries, keep)| ==> Filter(entries, keep)[i] in entries && keep(Filter(entries, keep)[i])
    ensures NoConflicts(entries) ==> NoConflicts(Filter(entries, keep))
  {
    if entries != [] {
      var rest := Filter(entries[1..], keep);
      FilterIsSubset(entries[1..], keep);
      assert entries == [entries[0]] + entries[1..];
      assert forall x :: x in rest ==> x in entries[1..];
      hide NoConflicts;
      NoConflictsCons(entries[0], entries[1..]);
      NoConflictsCons(entries[0], rest);
    }
  }

  lemma NoConflictsCons(e: CacheEntry, entries: seq<CacheEntry>)
    ensures NoConflicts([e] + entries) <==> NoConflicts(entries) && forall x :: x in entries ==> !Conflicts(e, x)
  {
    var all := [e] + entries;
    assert forall i :: 0 <= i < |entries| ==> all[i + 1] == entries[i];
    if NoConflicts(all) {
      forall i, j | 0 <= i < j < |entries| ensures !Conflicts(entries[i], entries[j]) {
        assert !Conflicts(all[i + 1], all[j + 1]);
      }
      forall i | 0 <= i < |entries| ensures !Conflicts(e, entries[i]) {
        assert !Conflicts(all[0], all[i + 1]);
      }
    }
  }

  // ---------------------------------------------------------------- the cache and the stores behind it

  type Stores = map<nat, Store>

  function Put(stores: Stores, storage: nat, id: nat, package: Package): Stores
    requires storage in stores
  {
    var packages: Store := stores[storage][id := package];
    stores[storage := packages]
  }

  predicate AreStores(stores: Stores) {
    forall s :: s in stores ==> IsStore(stores[s])
  }

  predicate Agrees(stores: Stores, e: CacheEntry) {
    && e.storage in stores && e.id in stores[e.storage] && stores[e.storage][e.id] == e.package
    && e.name == e.package.name
  }

  /** Everything cached is what is stored. */
  predicate Transparent(stores: Stores, entries: seq<CacheEntry>) {
    forall i :: 0 <= i < |entries| ==> Agrees(stores, entries[i])
  }

  predicate Sound(stores: Stores, entries: seq<CacheEntry>, limit: nat) {
    AreStores(stores) && Transparent(stores, entries) && NoConflicts(entries) && |entries| <= limit && limit > 0
  }

  /** The list holds the most recently used keys, as many as the limit allows. */
  ghost predicate IsRecent(entries: seq<CacheEntry>, limit: nat, log: seq<CacheKey>) {
    KeysOf(entries) == First(Recent(log), limit)
  }

  /** With a sound cache, one and the same package is found by id and by name. */
  lemma ConflictIsSame(stores: Stores, a: CacheEntry, b: CacheEntry)
    requires AreStores(stores) && Agrees(stores, a) && Agrees(stores, b) && Conflicts(a, b)
    ensures a == b
  {
    assert IsStore(stores[a.storage]);
  }

  lemma NoConflictsToFront(entries: seq<CacheEntry>, at: nat)
    requires NoConflicts(entries) && at < |entries|
    ensures NoConflicts(ToFront(entries, at))
  {
    var front := ToFront(entries, at);
    assert forall i :: 0 <= i < |front| ==> front[i] == entries[if i == 0 then at else if i <= at then i - 1 else i];
  }

  lemma SoundToFront(stores: Stores, entries: seq<CacheEntry>, limit: nat, log: seq<CacheKey>, at: nat)
    requires Sound(stores, entries, limit) && at < |entries|
    ensures Sound(stores, ToFront(entries, at), limit) && ToFront(entries, at)[0] == entries[at]
    ensures IsRecent(entries, limit, log) ==> IsRecent(ToFront(entries, at), limit, log + [KeyOf(entries[at])])
  {
    NoConflictsToFront(entries, at);
    hide NoConflicts, Conflicts, Agrees, AreStores, Recent;
    assert KeysOf(ToFront(entries, at)) == ToFront(KeysOf(entries), at);
    if IsRecent(entries, limit, log) {
      UseKept(log, limit, at);
    }
  }

  lemma SoundInsert(stores: Stores, entries: seq<CacheEntry>, limit: nat, log: seq<CacheKey>, e: CacheEntry)
    requires Sound(stores, entries, limit) && Agrees(stores, e)
    requires forall i :: 0 <= i < |entries| ==> !Conflicts(entries[i], e)
    ensures Sound(stores, First([e] + entries, limit), limit) && First([e] + entries, limit)[0] == e
    ensures IsRecent(entries, limit, log) ==> IsRecent(First([e] + entries, limit), limit, log + [KeyOf(e)])
  {
    hide Agrees, AreStores, Recent;
    assert KeysOf(First([e] + entries, limit)) == First([KeyOf(e)] + KeysOf(entries), limit);
    if IsRecent(entries, limit, log) {
      UseOther(log, limit, KeyOf(e));
    }
  }

  /** Storing a package under the key at the front, where the entry is updated along with it. */
  lemma SoundPutFront(stores: Stores, entries: seq<CacheEntry>, limit: nat, storage: nat, id: nat, package: Package)
    requires Sound(stores, entries, limit) && entries != [] && KeyOf(entries[0]) == CacheKey(storage, id) && storage in stores
    requires IsStore(stores[storage][id := package]) && package.name == entries[0].name
    ensures var front := entries[0 := entries[0].(package := package)];
            Sound(Put(stores, storage, id, package), front, limit) && KeysOf(front) == KeysOf(entries)
  {
    var front := entries[0 := entries[0].(package := package)];
    var more := Put(stores, storage, id, package);
    forall i | 0 <= i < |entries| ensures Agrees(more, front[i]) {
      if i > 0 {
        assert Agrees(stores, entries[i]) && !Conflicts(entries[0], entries[i]);
      }
    }
  }

  /** Storing a package that is not cached. */
  lemma SoundPut(stores: Stores, entries: seq<CacheEntry>, limit: nat, storage: nat, id: nat, package: Package)
    requires Sound(stores, entries, limit) && storage in stores && IsStore(stores[storage][id := package])
    requires forall i :: 0 <= i < |entries| ==> KeyOf(entries[i]) != CacheKey(storage, id)
    ensures Sound(Put(stores, storage, id, package), entries, limit)
  {
    var more := Put(stores, storage, id, package);
    forall i | 0 <= i < |entries| ensures Agrees(more, entries[i]) {
      assert Agrees(stores, entries[i]);
    }
  }

  // ---------------------------------------------------------------- erasing

  lemma SoundFilter(stores: Stores, newStores: Stores, entries: seq<CacheEntry>, limit: nat, keep: CacheEntry -> bool)
    requires Sound(stores, entries, limit) && AreStores(newStores)
    requires forall e :: Agrees(stores, e) && keep(e) ==> Agrees(newStores, e)
    ensures Sound(newStores, Filter(entries, keep), limit)
  {
    hide Agrees, NoConflicts, AreStores;
    FilterIsSubset(entries, keep);
    var less := Filter(entries, keep);
    forall i | 0 <= i < |less| ensures Agrees(newStores, less[i]) {
      var j :| 0 <= j < |entries| && entries[j] == less[i];
    }
  }

  function Drop(stores: Stores, storage: nat, id: nat): Stores
    requires storage in stores
  {
    var packages: Store := stores[storage] - {id};
    stores[storage := packages]
  }

  function DropName(stores: Stores, storage: nat, name: string): Stores
    requires storage in stores
  {
    var packages: Store := map id | id in stores[storage] && stores[storage][id].name != name :: stores[storage][id];
    stores[storage := packages]
  }

  /** Putting changes the one package only. */
  lemma PutMeans(stores: Stores, storage: nat, id: nat, package: Package, s: nat, i: nat)
    requires storage in stores
    ensures var more := Put(stores, storage, id, package);
            && more.Keys == stores.Keys && id in more[storage] && more[storage][id] == package
            && (s in stores && (s != storage || i != id) ==>
                  (i in more[s] <==> i in stores[s]) && (i in stores[s] ==> more[s][i] == stores[s][i]))
  {
  }

  /** Dropping a name removes what is called so from the one store only. */
  lemma DropMeans(stores: Stores, storage: nat, name: string, s: nat, i: nat)
    requires storage in stores
    ensures var less := DropName(stores, storage, name);
            && less.Keys == stores.Keys
            && (s in stores ==> (i in less[s] <==> i in stores[s] && !(s == storage && stores[s][i].name == name)))
            && (s in stores && i in less[s] ==> less[s][i] == stores[s][i])
  {
  }

  lemma DropIsByName(stores: Stores, storage: nat, name: string, id: nat)
    requires AreStores(stores) && storage in stores
    requires if id in stores[storage] then stores[storage][id].name == name
             else id == 0 && forall i :: i in stores[storage] ==> stores[storage][i].name != name
    ensures Drop(stores, storage, id) == DropName(stores, storage, name)
    ensures HasName(stores[storage], name) <==> id != 0
    ensures id == 0 ==> DropName(stores, storage, name) == stores
  {
    assert IsStore(stores[storage]);
    assert stores[storage] - {id} == DropName(stores, storage, name)[storage];
    if id == 0 {
      assert DropName(stores, storage, name)[storage] == stores[storage];
    }
  }

  /** What is dropped from the store under an id is no longer found in the cache under its name. */
  lemma DropKeepsOthers(stores: Stores, storage: nat, name: string, id: nat)
    requires AreStores(stores) && storage in stores
    requires if id in stores[storage] then stores[storage][id].name == name else forall i :: i in stores[storage] ==> stores[storage][i].name != name
    ensures AreStores(Drop(stores, storage, id))
    ensures forall e :: Agrees(stores, e) && !IsRef(e, storage, name) ==> Agrees(Drop(stores, storage, id), e)
  {
    assert IsStore(stores[storage]);
  }

  // ---------------------------------------------------------------- the cache

  datatype PackageSpec = PackageSpec(id: nat, package: Option<Package>)

  /** What a lookup without any cache would return. */
  predicate IsLookup(packages: Store, res: PackageSpec) {
    match res.package
    case Some(package) => res.id in packages && packages[res.id] == package
    case None => res.id == 0
  }

  class StorageCache {
    const cache: StorageCacheEntries
    var stores: Stores
    // all uses of cached packages, and whether only the limit has ever made the cache forget one
    ghost var log: seq<CacheKey>
    ghost var onlyLimited: bool

    ghost predicate Valid()
      reads this, cache
    {
      && Sound(stores, cache.entries, cache.limit)
      && (onlyLimited ==> IsRecent(cache.entries, cache.limit, log))
    }

    constructor (stores: Stores, limit: nat)
      requires AreStores(stores) && limit > 0
      ensures Valid() && fresh(cache) && this.stores == stores && cache.limit == limit && log == [] && onlyLimited
    {
      cache := new StorageCacheEntries(limit);
      this.stores, log, onlyLimited := stores, [], true;
    }

    /** `locked` says whether the update lock could be acquired; if not, the package is not cached. */
    method Retrieve(storage: nat, storageID: nat, locked: bool) returns (res: PackageSpec)
      requires Valid() && storage in stores
      modifies this`log, cache`entries
      ensures Valid() && IsLookup(stores[storage], res)
      ensures res.id == if storageID in stores[storage] then storageID else 0
      ensures log == old(log) || log == old(log) + [CacheKey(storage, storageID)]
      ensures locked && res.package.Some? ==> log == old(log) + [CacheKey(storage, storageID)]
    {
      ghost var entries := cache.entries;
      var found, at := cache.FindByID(CacheKey(storage, storageID));
      if found {
        SoundToFront(stores, entries, cache.limit, log, at);
        log := log + [CacheKey(storage, storageID)];
        assert Agrees(stores, cache.entries[0]);
        return PackageSpec(cache.entries[0].id, Some(cache.entries[0].package));
      }
      if storageID !in stores[storage] {
        return PackageSpec(0, None);
      }
      var package := stores[storage][storageID];
      if locked {
        Populate(storage, storageID);
      }
      return PackageSpec(storageID, Some(package));
    }

    method RetrieveByName(storage: nat, entryName: string, locked: bool) returns (res: PackageSpec)
      requires Valid() && storage in stores
      modifies this`log, cache`entries
      ensures Valid() && IsLookup(stores[storage], res)
      ensures match res.package
              case Some(package) => package.name == entryName
              case None => !HasName(stores[storage], entryName)
      ensures log == old(log) || log == old(log) + [CacheKey(storage, res.id)]
      ensures locked && res.package.Some? ==> log == old(log) + [CacheKey(storage, res.id)]
    {
      assert IsStore(stores[storage]);
      if entryName == "" {
        return PackageSpec(0, None);
      }
      ghost var entries := cache.entries;
      var found, at := cache.FindByName(storage, entryName);
      if found {
        SoundToFront(stores, entries, cache.limit, log, at);
        log := log + [KeyOf(entries[at])];
        assert Agrees(stores, cache.entries[0]);
        return PackageSpec(cache.entries[0].id, Some(cache.entries[0].package));
      }
      var id := FindByName(stores[storage], entryName);
      if id == 0 {
        return PackageSpec(0, None);
      }
      var package := stores[storage][id];
      if locked {
        NotCached(stores, entries, storage, entryName, id);
        Populate(storage, id);
      }
      return PackageSpec(id, Some(package));
    }

    /** Caches a stored package that has not been found in the cache. */
    method Populate(storage: nat, id: nat)
      requires Valid() && storage in stores && id in stores[storage]
      requires forall i :: 0 <= i < |cache.entries| ==> KeyOf(cache.entries[i]) != CacheKey(storage, id)
      modifies this`log, cache`entries
      ensures Valid() && log == old(log) + [CacheKey(storage, id)]
      ensures cache.entries != [] && KeyOf(cache.entries[0]) == CacheKey(storage, id)
    {
      ghost var entries := cache.entries;
      var package := stores[storage][id];
      var entry := CacheEntry(storage, package.name, id, package);
      NoConflictWithNew(stores, entries, entry);
      var at := cache.Insert(entry);
      SoundInsert(stores, entries, cache.limit, log, entry);
      log := log + [CacheKey(storage, id)];
    }

    /** Stores a package, replacing the stored one of the same name; the cache entry is updated or created. */
    method Store(storage: nat, package: Package) returns (id: nat, oldEntry: Option<Package>)
      requires Valid() && storage in stores
      modifies this`stores, this`log, cache`entries
      ensures Valid()
      ensures package.name == "" ==> id == 0 && oldEntry == None && stores == old(stores) && log == old(log)
      ensures package.name != "" ==>
                && StoredAt(old(stores)[storage], package, id) && stores == Put(old(stores), storage, id, package)
                && oldEntry == (if id in old(stores)[storage] then Some(old(stores)[storage][id]) else None)
                && log == old(log) + [CacheKey(storage, id)]
                && cache.entries != [] && cache.entries[0] == CacheEntry(storage, package.name, id, package)
    {
      hide Agrees, Transparent, NoConflicts, Conflicts, IsStore;
      if package.name == "" {
        return 0, None;
      }
      ghost var entries := cache.entries;
      var found, at := cache.FindByName(storage, package.name);
      if found {
        SoundToFront(stores, entries, cache.limit, log, at);
        id, oldEntry := cache.entries[0].id, Some(cache.entries[0].package);
        FoundAtFront(stores, cache.entries, cache.limit, storage, package);
        SoundPutFront(stores, cache.entries, cache.limit, storage, id, package);
        cache.SetFront(package);
        stores, log := Put(stores, storage, id, package), log + [CacheKey(storage, id)];
        return;
      }
      ZeroIsNotStored(stores[storage]);
      id := FindByName(stores[storage], package.name);
      if id != 0 {
        oldEntry := Some(stores[storage][id]);
        NotCached(stores, entries, storage, package.name, id);
      } else {
        oldEntry := None;
        id := NewID(stores[storage].Keys);
        NewIsNotCached(stores, entries, storage, id);
      }
      StoreKeeps(stores[storage], package, id);
      SoundPut(stores, entries, cache.limit, storage, id, package);
      stores := Put(stores, storage, id, package);
      Populate(storage, id);
      FrontIsStored(stores, cache.entries, storage, id);
    }

    /** Updates an existing package with a known id. */
    method StoreWithID(storage: nat, storageID: nat, package: Package)
      requires Valid() && storage in stores && storageID in stores[storage] && stores[storage][storageID].name == package.name
      modifies this`stores, this`log, cache`entries
      ensures Valid() && stores == Put(old(stores), storage, storageID, package)
      ensures log == old(log) + [CacheKey(storage, storageID)]
      ensures cache.entries != [] && cache.entries[0] == CacheEntry(storage, package.name, storageID, package)
    {
      ghost var entries := cache.entries;
      // whatever package the new entry holds is overwritten below
      var entry := CacheEntry(storage, package.name, storageID, stores[storage][storageID]);
      FoundIsStored(stores, entry, package);
      hide Agrees, AreStores, Transparent, NoConflicts, IsStore, StoredAt, Conflicts, IsRecent;
      AgreesWithStore(stores, entry);
      var at := cache.Insert(entry);
      if at < |entries| {
        FrontConflict(stores, entries, at, entry);
        SoundToFront(stores, entries, cache.limit, log, at);
      } else {
        SoundInsert(stores, entries, cache.limit, log, entry);
      }
      SoundPutFront(stores, cache.entries, cache.limit, storage, storageID, package);
      cache.SetFront(package);
      stores, log := Put(stores, storage, storageID, package), log + [CacheKey(storage, storageID)];
    }

    method InvalidateCacheOnly(storage: nat, entryName: string)
      requires Valid()
      modifies this`onlyLimited, cache`entries
      ensures Valid() && cache.entries == Filter(old(cache.entries), (e: CacheEntry) => !IsRef(e, storage, entryName))
      ensures onlyLimited <==> old(onlyLimited) && cache.entries == old(cache.entries)
    {
      ghost var entries := cache.entries;
      SoundFilter(stores, stores, entries, cache.limit, (e: CacheEntry) => !IsRef(e, storage, entryName));
      cache.Erase(storage, entryName);
      onlyLimited := onlyLimited && cache.entries == entries;
    }

    /** Removes a package from the cache and the store. */
    method Invalidate(storage: nat, entryName: string) returns (res: bool)
      requires Valid() && storage in stores
      modifies this`stores, this`onlyLimited, cache`entries
      ensures Valid() && (res <==> HasName(old(stores)[storage], entryName))
      ensures stores == DropName(old(stores), storage, entryName)
      ensures cache.entries == Filter(old(cache.entries), (e: CacheEntry) => !IsRef(e, storage, entryName))
      ensures onlyLimited <==> old(onlyLimited) && cache.entries == old(cache.entries)
    {
      ghost var entries := cache.entries;
      assert IsStore(stores[storage]);
      var id := FindByName(stores[storage], entryName);
      DropIsByName(stores, storage, entryName, id);
      DropKeepsOthers(stores, storage, entryName, id);
      hide Filter, Agrees, IsStore, AreStores, Drop, DropName;
      SoundFilter(stores, Drop(stores, storage, id), entries, cache.limit, (e: CacheEntry) => !IsRef(e, storage, entryName));
      InvalidateCacheOnly(storage, entryName);
      if id == 0 {
        return false;
      }
      stores := Drop(stores, storage, id);
      return true;
    }

    method ClearCacheOnly(storage: nat)
      requires Valid()
      modifies this`onlyLimited, cache`entries
      ensures Valid() && cache.entries == Filter(old(cache.entries), (e: CacheEntry) => e.storage != storage)
      ensures onlyLimited <==> old(onlyLimited) && cache.entries == old(cache.entries)
    {
      ghost var entries := cache.entries;
      SoundFilter(stores, stores, entries, cache.limit, (e: CacheEntry) => e.storage != storage);
      var _ := cache.Clear(storage);
      onlyLimited := onlyLimited && cache.entries == entries;
    }

    /** Removes all packages of one database from the cache and the store. */
    method Clear(storage: nat)
      requires Valid() && storage in stores
      modifies this`stores, this`onlyLimited, cache`entries
      ensures Valid() && stores == old(stores)[storage := map[]]
      ensures cache.entries == Filter(old(cache.entries), (e: CacheEntry) => e.storage != storage)
      ensures onlyLimited <==> old(onlyLimited) && cache.entries == old(cache.entries)
    {
      ghost var entries := cache.entries;
      var cleared: Stores := stores[storage := map[]];
      SoundFilter(stores, cleared, entries, cache.limit, (e: CacheEntry) => e.storage != storage);
      ClearCacheOnly(storage);
      stores := cleared;
    }

    /** A larger limit does not bring back what has been dropped before. */
    method SetLimit(limit: nat)
      requires Valid() && limit > 0
      modifies this`onlyLimited, cache
      ensures Valid() && cache.limit == limit && cache.entries == First(old(cache.entries), limit)
      ensures onlyLimited <==> old(onlyLimited) && (limit <= old(cache.limit) || |old(cache.entries)| < old(cache.limit))
    {
      ghost var entries, before := cache.entries, cache.limit;
      cache.SetLimit(limit);
      SoundFirst(stores, entries, before, limit, log);
      onlyLimited := onlyLimited && (limit <= before || |entries| < before);
    }
  }

  lemma SoundFirst(stores: Stores, entries: seq<CacheEntry>, before: nat, limit: nat, log: seq<CacheKey>)
    requires Sound(stores, entries, before) && limit > 0
    ensures Sound(stores, First(entries, limit), limit)
    ensures IsRecent(entries, before, log) && (limit <= before || |entries| < before) ==> IsRecent(First(entries, limit), limit, log)
  {
    assert KeysOf(First(entries, limit)) == First(KeysOf(entries), limit);
  }

  lemma AgreesWithStore(stores: Stores, e: CacheEntry)
    requires e.storage in stores && e.id in stores[e.storage] && stores[e.storage][e.id] == e.package && e.name == e.package.name
    ensures Agrees(stores, e)
  {
  }

  lemma FrontConflict(stores: Stores, entries: seq<CacheEntry>, at: nat, e: CacheEntry)
    requires AreStores(stores) && Transparent(stores, entries) && Agrees(stores, e) && at < |entries| && Conflicts(entries[at], e)
    ensures entries[at] == e
  {
    ConflictIsSame(stores, entries[at], e);
  }

  lemma FoundIsStored(stores: Stores, e: CacheEntry, package: Package)
    requires AreStores(stores) && Agrees(stores, e) && e.name == package.name
    ensures StoredAt(stores[e.storage], package, e.id) && IsStore(stores[e.storage][e.id := package])
  {
    assert IsStore(stores[e.storage]);
  }

  lemma FoundAtFront(stores: Stores, entries: seq<CacheEntry>, limit: nat, storage: nat, package: Package)
    requires Sound(stores, entries, limit) && entries != [] && IsRef(entries[0], storage, package.name) && storage in stores
    ensures var id := entries[0].id;
            && KeyOf(entries[0]) == CacheKey(storage, id) && entries[0].name == package.name
            && id in stores[storage] && stores[storage][id] == entries[0].package
            && StoredAt(stores[storage], package, id) && IsStore(stores[storage][id := package])
  {
    assert Agrees(stores, entries[0]);
    FoundIsStored(stores, entries[0], package);
  }

  lemma ZeroIsNotStored(packages: Store)
    requires IsStore(packages)
    ensures 0 !in packages
  {
  }

  lemma StoreKeeps(packages: Store, package: Package, id: nat)
    requires IsStore(packages) && package.name != "" && StoredAt(packages, package, id)
    ensures IsStore(packages[id := package])
  {
  }

  lemma NewIsNotCached(stores: Stores, entries: seq<CacheEntry>, storage: nat, id: nat)
    requires Transparent(stores, entries) && storage in stores && id !in stores[storage]
    ensures forall i :: 0 <= i < |entries| ==> KeyOf(entries[i]) != CacheKey(storage, id)
  {
    forall i | 0 <= i < |entries| ensures KeyOf(entries[i]) != CacheKey(storage, id) {
      assert Agrees(stores, entries[i]);
    }
  }

  lemma FrontIsStored(stores: Stores, entries: seq<CacheEntry>, storage: nat, id: nat)
    requires Transparent(stores, entries) && entries != [] && KeyOf(entries[0]) == CacheKey(storage, id)
    ensures storage in stores && id in stores[storage]
    ensures entries[0] == CacheEntry(storage, stores[storage][id].name, id, stores[storage][id])
  {
    assert Agrees(stores, entries[0]);
  }

  lemma NotCached(stores: Stores, entries: seq<CacheEntry>, storage: nat, name: string, id: nat)
    requires Transparent(stores, entries) && storage in stores && id in stores[storage] && stores[storage][id].name == name
    requires forall i :: 0 <= i < |entries| ==> !IsRef(entries[i], storage, name)
    ensures forall i :: 0 <= i < |entries| ==> KeyOf(entries[i]) != CacheKey(storage, id)
  {
    forall i | 0 <= i < |entries| ensures KeyOf(entries[i]) != CacheKey(storage, id) {
      assert Agrees(stores, entries[i]);
    }
  }

  lemma NoConflictWithNew(stores: Stores, entries: seq<CacheEntry>, entry: CacheEntry)
    requires AreStores(stores) && Transparent(stores, entries) && Agrees(stores, entry)
    requires forall i :: 0 <= i < |entries| ==> KeyOf(entries[i]) != KeyOf(entry)
    ensures forall i :: 0 <= i < |entries| ==> !Conflicts(entries[i], entry)
  {
    forall i | 0 <= i < |entries| ensures !Conflicts(entries[i], entry) {
      if Conflicts(entries[i], entry) {
        ConflictIsSame(stores, entries[i], entry);
      }
    }
  }
}

/**
 * The batched way of updating a package database: changes are accumulated and committed together.
 */
module PackageUpdater {
  import opened Wrappers
  import opened Dependencies
  import opened Packages
  import opened PackageStore
  import opened DependencyTable
  import opened DependencyIndex

  // ---------------------------------------------------------------- accumulating

  datatype Affected = Affected(newPackages: set<nat>, removedPackages: set<nat>)

  type AffectedDeps = map<Key, Affected>

  ghost function NewRows(affected: AffectedDeps): set<Row> {
    set k, id | k in affected && id in affected[k].newPackages :: Row(k, id)
  }

  ghost function RemovedRows(affected: AffectedDeps): set<Row> {
    set k, id | k in affected && id in affected[k].removedPackages :: Row(k, id)
  }

  predicate Named(affected: AffectedDeps) {
    forall k :: k in affected ==> k.name != ""
  }

  method AddAffected(affected: AffectedDeps, packageID: nat, keys: set<Key>, removed: bool) returns (more: AffectedDeps)
    requires Named(affected) && forall k :: k in keys ==> k.name != ""
    ensures Named(more)
    ensures NewRows(more) == NewRows(affected) + if removed then {} else set k | k in keys :: Row(k, packageID)
    ensures RemovedRows(more) == RemovedRows(affected) + if removed then set k | k in keys :: Row(k, packageID) else {}
    ensures more == Accumulated(affected, packageID, keys, removed)
  {
    more := affected;
    var rest := keys;
    while rest != {}
      invariant rest <= keys && Named(more) && more == Accumulated(affected, packageID, keys - rest, removed)
      decreases rest
    {
      var key :| key in rest;
      ghost var done := keys - rest;
      rest := rest - {key};
      assert keys - rest == done + {key};
      var entry := if key in more then more[key] else Affected({}, {});
      more := more[key := if removed then entry.(removedPackages := entry.removedPackages + {packageID})
                          else entry.(newPackages := entry.newPackages + {packageID})];
    }
    assert keys - rest == keys;
    AccumulatedRows(affected, packageID, keys, removed);
  }

  /** The accumulated changes after some keys of a package have been added. */
  function Accumulated(affected: AffectedDeps, packageID: nat, keys: set<Key>, removed: bool): AffectedDeps {
    map k | k in affected.Keys + keys ::
      var entry := if k in affected then affected[k] else Affected({}, {});
      if k !in keys then entry
      else if removed then entry.(removedPackages := entry.removedPackages + {packageID})
      else entry.(newPackages := entry.newPackages + {packageID})
  }

  lemma AccumulatedRows(affected: AffectedDeps, packageID: nat, keys: set<Key>, removed: bool)
    ensures var more := Accumulated(affected, packageID, keys, removed);
            && NewRows(more) == NewRows(affected) + (if removed then {} else set k | k in keys :: Row(k, packageID))
            && RemovedRows(more) == RemovedRows(affected) + (if removed then set k | k in keys :: Row(k, packageID) else {})
  {
  }

  /** Every entry to be submitted adds a package, unless its dependency has been listed before. */
  ghost predicate NoneWithoutPackages(affected: AffectedDeps, rows: set<Row>) {
    forall k :: k in affected ==> affected[k].newPackages != {} || ListsSome(rows, k)
  }

  /** The dependencies are listed, or going to be. */
  ghost predicate AreKnown(affected: AffectedDeps, keys: set<Key>, rows: set<Row>) {
    forall k :: k in keys ==> (k in affected && affected[k].newPackages != {}) || ListsSome(rows, k)
  }

  lemma AccumulatedIsListed(affected: AffectedDeps, packageID: nat, keys: set<Key>, removed: bool, rows: set<Row>)
    requires NoneWithoutPackages(affected, rows) && (removed ==> AreKnown(affected, keys, rows))
    ensures NoneWithoutPackages(Accumulated(affected, packageID, keys, removed), rows)
  {
    hide ListsSome;
  }

  lemma AccumulatedKnows(affected: AffectedDeps, packageID: nat, keys: set<Key>, oldKeys: set<Key>, rows: set<Row>)
    requires AreKnown(affected, oldKeys, rows)
    ensures AreKnown(Accumulated(affected, packageID, keys, false), oldKeys, rows)
  {
    hide ListsSome;
  }

  ghost predicate ListsSome(rows: set<Row>, k: Key) {
    exists r :: r in rows && r.key == k
  }

  // ---------------------------------------------------------------- submitting

  /** No entry goes away, and a new one is not empty. */
  ghost predicate KeepsEntries(table: Table, newTable: Table) {
    KeysStay(table, newTable) && forall e :: IsEmpty(newTable, e) ==> e in table
  }

  predicate KeysStay(table: Table, newTable: Table) {
    forall e :: e in table ==> e in newTable && newTable[e].key == table[e].key
  }

  predicate IsEmpty(table: Table, e: nat) {
    e in table && table[e].relevantPackages == {}
  }

  predicate HasEntry(table: Table, key: Key) {
    exists e :: e in table && table[e].key == key
  }

  /** An existing entry loses the removed packages and gains the new ones, but is kept even if it becomes empty. */
  method Submit(table: Table, key: Key, affected: Affected) returns (newTable: Table)
    requires UniqueEntries(table) && key.name != ""
    ensures UniqueEntries(newTable)
    ensures Rows(newTable) == (Rows(table) - set id | id in affected.removedPackages :: Row(key, id))
                              + set id | id in affected.newPackages :: Row(key, id)
    ensures KeysStay(table, newTable)
    ensures affected.newPackages != {} ==> forall e :: IsEmpty(newTable, e) ==> IsEmpty(table, e)
    ensures HasEntry(table, key) ==> forall e :: IsEmpty(newTable, e) ==> IsEmpty(table, e) || (e in table && table[e].key == key)
  {
    var existing, e := FindEntry(table, key);
    ghost var before := if existing then table[e].relevantPackages else {};
    if existing {
      newTable := table[e := Entry(key, (table[e].relevantPackages - affected.removedPackages) + affected.newPackages)];
    } else {
      e := NewID(table.Keys);
      newTable := table[e := Entry(key, affected.newPackages)];
    }
    EntryChanged(table, newTable, e, key, before, newTable[e].relevantPackages);
  }

  /** Submitting one more key keeps entries if it adds a package or has been listed before. */
  lemma KeepsMoreEntries(table: Table, middle: Table, newTable: Table, key: Key, affected: Affected)
    requires KeepsEntries(table, middle) && KeysStay(middle, newTable) && UniqueEntries(middle)
    requires affected.newPackages != {} || ListsSome(Rows(table), key)
    requires affected.newPackages != {} ==> forall e :: IsEmpty(newTable, e) ==> IsEmpty(middle, e)
    requires HasEntry(middle, key) ==> forall e :: IsEmpty(newTable, e) ==> IsEmpty(middle, e) || (e in middle && middle[e].key == key)
    ensures KeepsEntries(table, newTable)
  {
    if ListsSome(Rows(table), key) {
      var r :| r in Rows(table) && r.key == key;
      RowsAreListed(table, r);
      var e :| e in table && table[e].key == key;
      assert e in middle && middle[e].key == key;
    }
  }

  method SubmitAll(table: Table, affected: AffectedDeps) returns (newTable: Table)
    requires UniqueEntries(table) && Named(affected)
    ensures UniqueEntries(newTable)
    ensures Rows(newTable) == (Rows(table) - RemovedRows(affected)) + NewRows(affected)
    ensures NoneWithoutPackages(affected, Rows(table)) ==> KeepsEntries(table, newTable)
  {
    newTable := table;
    var rest := affected.Keys;
    while rest != {}
      invariant rest <= affected.Keys && UniqueEntries(newTable)
      invariant Rows(newTable) == SubmittedSoFar(Rows(table), affected, rest)
      invariant NoneWithoutPackages(affected, Rows(table)) ==> KeepsEntries(table, newTable)
      decreases rest
    {
      var key :| key in rest;
      ghost var before := rest;
      rest := rest - {key};
      ghost var middle := newTable;
      newTable := Submit(newTable, key, affected[key]);
      if NoneWithoutPackages(affected, Rows(table)) {
        KeepsMoreEntries(table, middle, newTable, key, affected[key]);
      }
      SubmitStep(Rows(table), affected, before, key);
    }
  }

  /** The rows while keys are submitted one after the other; those in `rest` still are to be. */
  ghost function SubmittedSoFar(rows: set<Row>, affected: AffectedDeps, rest: set<Key>): set<Row> {
    (rows - set r | r in RemovedRows(affected) && r.key !in rest) + set r | r in NewRows(affected) && r.key !in rest
  }

  lemma SubmitStep(rows: set<Row>, affected: AffectedDeps, rest: set<Key>, key: Key)
    requires key in rest && rest <= affected.Keys
    ensures SubmittedSoFar(rows, affected, rest - {key}) ==
            (SubmittedSoFar(rows, affected, rest) - set id | id in affected[key].removedPackages :: Row(key, id))
            + set id | id in affected[key].newPackages :: Row(key, id)
  {
    forall r: Row ensures
      && (r in RemovedRows(affected) <==> r.key in affected && r.id in affected[r.key].removedPackages)
      && (r in NewRows(affected) <==> r.key in affected && r.id in affected[r.key].newPackages)
    {
      assert r == Row(r.key, r.id);
    }
  }

  // ---------------------------------------------------------------- what a batch of updates means

  /** The packages by name after storing a list of packages in order. */
  function StoredAll(contents: map<string, Package>, packages: seq<Package>): map<string, Package> {
    if packages == [] then contents
    else Stored(StoredAll(contents, packages[..|packages| - 1]), packages[|packages| - 1])
  }

  /** A package that is superseded within the batch has no entry that the one stored in the end lacks. */
  predicate NothingStale(packages: seq<Package>) {
    forall i, kind :: 0 <= i < |packages| && packages[i].name != "" && kind in AllKinds() ==> StaysListed(packages, i, kind)
  }

  predicate StaysListed(packages: seq<Package>, i: nat, kind: Kind)
    requires i < |packages|
  {
    var last := StoredAll(map[], packages);
    packages[i].name in last && Keys(kind, packages[i]) <= Keys(kind, last[packages[i].name])
  }

  predicate DistinctNames(packages: seq<Package>) {
    forall i, k :: 0 <= i < k < |packages| && packages[i].name != "" ==> packages[i].name != packages[k].name
  }

  lemma {:induction false} StoredAllHas(packages: seq<Package>, i: nat)
    requires i < |packages| && packages[i].name != ""
    requires forall k :: i < k < |packages| ==> packages[k].name != packages[i].name
    ensures var all := StoredAll(map[], packages); packages[i].name in all && all[packages[i].name] == packages[i]
    decreases |packages|
  {
    if i < |packages| - 1 {
      StoredAllHas(packages[..|packages| - 1], i);
    }
  }

  /** Of the updates of one name the last one stays; what is not updated does not change. */
  lemma {:induction false} StoredAllIsLast(contents: map<string, Package>, packages: seq<Package>, name: string)
    requires name != ""
    ensures var all := StoredAll(contents, packages);
            && (forall k: nat :: IsLastOf(packages, name, k) ==> name in all && all[name] == packages[k])
            && ((forall k :: 0 <= k < |packages| ==> packages[k].name != name) ==>
                  (name in all <==> name in contents) && (name in contents ==> all[name] == contents[name]))
    decreases |packages|
  {
    if packages != [] {
      var n := |packages| - 1;
      StoredAllIsLast(contents, packages[..n], name);
      forall k: nat | IsLastOf(packages, name, k) && k < n ensures IsLastOf(packages[..n], name, k) {
        assert packages[n].name != name;
      }
    }
  }

  predicate IsLastOf(packages: seq<Package>, name: string, k: nat) {
    k < |packages| && packages[k].name == name && forall l :: k < l < |packages| ==> packages[l].name != name
  }

  /** Updating every package at most once per batch is enough. */
  lemma DistinctNamesAreNotStale(packages: seq<Package>)
    requires DistinctNames(packages)
    ensures NothingStale(packages)
  {
    forall i, kind | 0 <= i < |packages| && packages[i].name != "" && kind in AllKinds() ensures StaysListed(packages, i, kind) {
      StoredAllHas(packages, i);
    }
  }

  /** Updating a package twice is not, in general: here the first version provides something the second one does not. */
  lemma SecondUpdateLeavesStaleEntry(provided: Dependency)
    requires provided.name != "" && provided.name != "p"
    ensures var first := Package("p", "1", [provided], [], [], {}, {});
            !NothingStale([first, Package("p", "1", [], [], [], {}, {})])
  {
    var first, second := Package("p", "1", [provided], [], [], {}, {}), Package("p", "1", [], [], [], {}, {});
    var packages := [first, second];
    assert packages[..1] == [first] && [first][..0] == [];
    assert StoredAll(map[], []) == map[];
    assert StoredAll(map[], [first]) == map["p" := first];
    assert StoredAll(map[], packages) == map["p" := second];
    assert KeyOf(provided) in Keys(ProvidedDeps, first) && KeyOf(provided) !in Keys(ProvidedDeps, second);
    assert !StaysListed(packages, 0, ProvidedDeps);
  }

  // ---------------------------------------------------------------- the updater

  /** An update and the id it was stored under; zero if it was ignored. */
  datatype Handled = Handled(id: nat, package: Package)

  function UpdatesOf(history: seq<Handled>): (updates: seq<Package>)
    ensures |updates| == |history|
  {
    seq(|history|, i requires 0 <= i < |history| => history[i].package)
  }

  /** The packages seen by the updater's transaction, in terms of the store before and the updates so far. */
  ghost predicate Tracks(stored: Store, packages: Store, handledIds: set<nat>, history: seq<Handled>) {
    && handledIds <= packages.Keys && stored.Keys <= packages.Keys
    && (forall id :: id in packages && id !in handledIds ==> id in stored && packages[id] == stored[id])
    && (forall h :: h in history ==> (h.id == 0 <==> h.package.name == ""))
    && (forall h :: h in history && h.id != 0 ==> h.id in handledIds && packages[h.id].name == h.package.name)
    && (forall id :: id in handledIds ==> id != 0 && Handled(id, packages[id]) in history)
  }

  /** The rows of the table that the changes will be submitted to. */
  ghost function Before(kind: Kind, clear: bool, stored: Store): set<Row> {
    if clear then {} else Expected(kind, stored)
  }

  /** What the updater has recorded for one table. */
  ghost predicate Records(kind: Kind, clear: bool, stored: Store, handledIds: set<nat>, history: seq<Handled>, affected: AffectedDeps) {
    && Named(affected) && NoneWithoutPackages(affected, Before(kind, clear, stored)) && (clear ==> RemovedRows(affected) == {})
    && (forall r :: r in NewRows(affected) <==> Adds(kind, history, r))
    && (forall r :: r in RemovedRows(affected) ==> r.id in handledIds)
    && (!clear ==> forall r :: r in Expected(kind, stored) && r.id in handledIds ==> r in RemovedRows(affected))
  }

  ghost predicate Adds(kind: Kind, history: seq<Handled>, r: Row) {
    r.id != 0 && exists h :: h in history && r.id == h.id && r.key in Keys(kind, h.package)
  }

  /** What a clearing commit leaves in the store. */
  function Kept(packages: Store, handledIds: set<nat>): Store {
    map id | id in packages && id in handledIds :: packages[id]
  }

  lemma TracksUpdate(stored: Store, packages: Store, handledIds: set<nat>, history: seq<Handled>, id: nat, package: Package)
    requires Tracks(stored, packages, handledIds, history)
    requires id != 0 && package.name != "" && (id in packages ==> packages[id].name == package.name)
    ensures Tracks(stored, packages[id := package], handledIds + {id}, history + [Handled(id, package)])
  {
  }

  lemma RecordsUpdate(kind: Kind, clear: bool, stored: Store, packages: Store, handledIds: set<nat>, history: seq<Handled>,
                      affected: AffectedDeps, more: AffectedDeps, id: nat, package: Package)
    requires Records(kind, clear, stored, handledIds, history, affected)
    requires Tracks(stored, packages, handledIds, history) && id != 0
    requires Named(more) && NoneWithoutPackages(more, Before(kind, clear, stored))
    requires NewRows(more) == NewRows(affected) + set k | k in Keys(kind, package) :: Row(k, id)
    requires RemovedRows(more) == RemovedRows(affected) +
             if !clear && id in packages then set k | k in Keys(kind, packages[id]) :: Row(k, id) else {}
    ensures Records(kind, clear, stored, handledIds + {id}, history + [Handled(id, package)], more)
  {
    var moreHistory := history + [Handled(id, package)];
    forall r ensures r in NewRows(more) <==> Adds(kind, moreHistory, r) {
      if Adds(kind, history, r) {
        var h :| h in history && r.id == h.id && r.key in Keys(kind, h.package);
        assert h in moreHistory;
      }
      if r.id == id && r.key in Keys(kind, package) {
        assert Handled(id, package) in moreHistory;
        assert r == Row(r.key, id);
      }
    }
    if !clear {
      forall r | r in Expected(kind, stored) && r.id in handledIds + {id} ensures r in RemovedRows(more) {
        if r.id !in handledIds {
          assert r == Row(r.key, id) && packages[id] == stored[id];
        }
      }
    }
  }

  lemma KeptUpdate(packages: Store, handledIds: set<nat>, contents: map<string, Package>, id: nat, package: Package)
    requires IsStore(packages) && handledIds <= packages.Keys && IsStore(packages[id := package]) && package.name != ""
    requires IsContents(Kept(packages, handledIds), contents) && (id in packages ==> packages[id].name == package.name)
    ensures IsContents(Kept(packages[id := package], handledIds + {id}), contents[package.name := package])
  {
    hide IsStore, IsContents, StoredAt;
    var kept, more := Kept(packages, handledIds), packages[id := package];
    KeptIsStore(packages, handledIds, id, package);
    StoreOne(kept, contents, package, id);
    assert Kept(more, handledIds + {id}) == kept[id := package];
  }

  lemma KeptIsStore(packages: Store, handledIds: set<nat>, id: nat, package: Package)
    requires IsStore(packages) && handledIds <= packages.Keys && IsStore(packages[id := package])
    requires id in packages ==> packages[id].name == package.name
    ensures IsStore(Kept(packages, handledIds)) && StoredAt(Kept(packages, handledIds), package, id)
  {
    var more := packages[id := package];
    forall i | i in packages && i != id ensures packages[i].name != package.name {
      assert more[i].name != more[id].name;
    }
    assert id in more;
  }

  predicate Supersedes(kind: Kind, packages: Store, h: Handled) {
    h.id in packages && Keys(kind, h.package) <= Keys(kind, packages[h.id])
  }

  predicate NothingSuperseded(kind: Kind, packages: Store, history: seq<Handled>) {
    forall h :: h in history && h.id != 0 ==> Supersedes(kind, packages, h)
  }

  /** What committing makes of the rows of one table. */
  ghost function Committed(kind: Kind, clear: bool, stored: Store, affected: AffectedDeps): set<Row> {
    (Before(kind, clear, stored) - RemovedRows(affected)) + NewRows(affected)
  }

  /** The packages after committing. */
  function FinalPackages(clear: bool, packages: Store, handledIds: set<nat>): Store {
    if clear then Kept(packages, handledIds) else packages
  }

  /** The rows of a table after committing are those of the final packages, plus those of superseded ones. */
  lemma CommittedRows(kind: Kind, clear: bool, stored: Store, packages: Store, handledIds: set<nat>, history: seq<Handled>,
                      affected: AffectedDeps, rows: set<Row>)
    requires Records(kind, clear, stored, handledIds, history, affected) && Tracks(stored, packages, handledIds, history)
    requires rows == Committed(kind, clear, stored, affected)
    ensures rows == Expected(kind, FinalPackages(clear, packages, handledIds)) <==> NothingSuperseded(kind, packages, history)
  {
    hide Records, Tracks, Committed, Adds;
    var final := FinalPackages(clear, packages, handledIds);
    forall r ensures r in Expected(kind, final) ==> r in rows {
      if r in Expected(kind, final) {
        FinalRowIsCommitted(kind, clear, stored, packages, handledIds, history, affected, r);
      }
    }
    forall r ensures r in rows && NothingSuperseded(kind, packages, history) ==> r in Expected(kind, final) {
      if r in rows && NothingSuperseded(kind, packages, history) {
        CommittedRowIsFinal(kind, clear, stored, packages, handledIds, history, affected, r);
      }
    }
    if !NothingSuperseded(kind, packages, history) {
      var h, k := StaleRow(kind, clear, stored, packages, handledIds, history, affected);
      assert Row(k, h.id) in rows && Row(k, h.id) !in Expected(kind, final);
    }
  }

  lemma FinalRowIsCommitted(kind: Kind, clear: bool, stored: Store, packages: Store, handledIds: set<nat>, history: seq<Handled>,
                            affected: AffectedDeps, r: Row)
    requires Records(kind, clear, stored, handledIds, history, affected) && Tracks(stored, packages, handledIds, history)
    requires r in Expected(kind, FinalPackages(clear, packages, handledIds))
    ensures r in Committed(kind, clear, stored, affected)
  {
    hide NewRows, RemovedRows, NoneWithoutPackages;
    assert r == Row(r.key, r.id);
    if r.id in handledIds {
      assert Handled(r.id, packages[r.id]) in history;
      assert Adds(kind, history, r);
    } else {
      assert r in Expected(kind, stored);
    }
  }

  lemma CommittedRowIsFinal(kind: Kind, clear: bool, stored: Store, packages: Store, handledIds: set<nat>, history: seq<Handled>,
                            affected: AffectedDeps, r: Row)
    requires Records(kind, clear, stored, handledIds, history, affected) && Tracks(stored, packages, handledIds, history)
    requires NothingSuperseded(kind, packages, history) && r in Committed(kind, clear, stored, affected)
    ensures r in Expected(kind, FinalPackages(clear, packages, handledIds))
  {
    hide NewRows, RemovedRows, NoneWithoutPackages;
    assert r == Row(r.key, r.id);
    if r in NewRows(affected) {
      var h :| h in history && r.id == h.id && r.key in Keys(kind, h.package);
      assert Supersedes(kind, packages, h);
    }
  }

  lemma StaleRow(kind: Kind, clear: bool, stored: Store, packages: Store, handledIds: set<nat>, history: seq<Handled>,
                 affected: AffectedDeps)
    returns (h: Handled, k: Key)
    requires Records(kind, clear, stored, handledIds, history, affected) && Tracks(stored, packages, handledIds, history)
    requires !NothingSuperseded(kind, packages, history)
    ensures Row(k, h.id) in Committed(kind, clear, stored, affected)
    ensures Row(k, h.id) !in Expected(kind, FinalPackages(clear, packages, handledIds))
  {
    hide NewRows, RemovedRows, NoneWithoutPackages;
    h :| h in history && h.id != 0 && !Supersedes(kind, packages, h);
    k :| k in Keys(kind, h.package) && k !in Keys(kind, packages[h.id]);
    assert Adds(kind, history, Row(k, h.id));
  }

  lemma NothingStaleIffSuperseded(stored: Store, packages: Store, handledIds: set<nat>, history: seq<Handled>)
    requires Tracks(stored, packages, handledIds, history)
    requires IsContents(Kept(packages, handledIds), StoredAll(map[], UpdatesOf(history)))
    ensures NothingStale(UpdatesOf(history)) <==> forall kind :: kind in AllKinds() ==> NothingSuperseded(kind, packages, history)
  {
    var updates := UpdatesOf(history);
    forall i, kind | 0 <= i < |updates| && updates[i].name != "" && kind in AllKinds()
      ensures StaysListed(updates, i, kind) <==> Supersedes(kind, packages, history[i])
    {
      StaysListedIff(stored, packages, handledIds, history, i, kind);
    }
    hide StaysListed, Supersedes, IsContents;
    if NothingStale(updates) {
      forall kind, h | kind in AllKinds() && h in history && h.id != 0 ensures Supersedes(kind, packages, h) {
        var i :| 0 <= i < |history| && history[i] == h;
        assert StaysListed(updates, i, kind);
      }
    }
    if forall kind :: kind in AllKinds() ==> NothingSuperseded(kind, packages, history) {
      forall i, kind | 0 <= i < |updates| && updates[i].name != "" && kind in AllKinds() ensures StaysListed(updates, i, kind) {
        assert history[i] in history && NothingSuperseded(kind, packages, history);
      }
    }
  }

  lemma StaysListedIff(stored: Store, packages: Store, handledIds: set<nat>, history: seq<Handled>, i: nat, kind: Kind)
    requires Tracks(stored, packages, handledIds, history) && i < |history| && history[i].package.name != ""
    requires IsContents(Kept(packages, handledIds), StoredAll(map[], UpdatesOf(history)))
    ensures StaysListed(UpdatesOf(history), i, kind) <==> Supersedes(kind, packages, history[i])
  {
    assert history[i] in history;
    assert history[i].id in Kept(packages, handledIds);
  }

  /** Everything an updater knows, relative to the database as it was when the updater was created. */
  ghost predicate IsState(stored: Store, contents: map<string, Package>, clear: bool, packages: Store, handledIds: set<nat>,
                          affected: map<Kind, AffectedDeps>, history: seq<Handled>)
  {
    && IsStore(packages) && Tracks(stored, packages, handledIds, history)
    && IsContents(packages, StoredAll(contents, UpdatesOf(history)))
    && IsContents(Kept(packages, handledIds), StoredAll(map[], UpdatesOf(history)))
    && RecordsAll(clear, stored, handledIds, history, affected)
  }

  ghost predicate RecordsAll(clear: bool, stored: Store, handledIds: set<nat>, history: seq<Handled>, affected: map<Kind, AffectedDeps>) {
    affected.Keys == AllKinds() && forall kind :: kind in AllKinds() ==> Records(kind, clear, stored, handledIds, history, affected[kind])
  }

  lemma InitialState(stored: Store, contents: map<string, Package>, clear: bool, affected: map<Kind, AffectedDeps>)
    requires IsStore(stored) && IsContents(stored, contents)
    requires affected.Keys == AllKinds() && forall kind :: kind in affected ==> affected[kind] == map[]
    ensures IsState(stored, contents, clear, stored, {}, affected, [])
  {
    hide Records;
    assert UpdatesOf([]) == [];
    assert Kept(stored, {}) == map[];
    forall kind | kind in AllKinds() ensures Records(kind, clear, stored, {}, [], affected[kind]) {
      NothingRecorded(kind, clear, stored);
    }
  }

  lemma NothingRecorded(kind: Kind, clear: bool, stored: Store)
    ensures Records(kind, clear, stored, {}, [], map[])
  {
    assert NewRows(map[]) == {} && RemovedRows(map[]) == {};
  }

  /** An update without a name is only noted. */
  lemma IgnoredUpdate(stored: Store, contents: map<string, Package>, clear: bool, packages: Store, handledIds: set<nat>,
                      affected: map<Kind, AffectedDeps>, history: seq<Handled>, package: Package)
    requires IsState(stored, contents, clear, packages, handledIds, affected, history) && package.name == ""
    ensures IsState(stored, contents, clear, packages, handledIds, affected, history + [Handled(0, package)])
  {
    hide Records, Tracks, IsStore, IsContents, Kept, StoredAll;
    var more := history + [Handled(0, package)];
    StoredAllAppends(contents, history, Handled(0, package));
    StoredAllAppends(map[], history, Handled(0, package));
    IgnoredTracks(stored, packages, handledIds, history, package);
    forall kind | kind in AllKinds() ensures Records(kind, clear, stored, handledIds, more, affected[kind]) {
      IgnoredRecords(kind, clear, stored, handledIds, history, affected[kind], package);
    }
  }

  lemma IgnoredTracks(stored: Store, packages: Store, handledIds: set<nat>, history: seq<Handled>, package: Package)
    requires Tracks(stored, packages, handledIds, history) && package.name == ""
    ensures Tracks(stored, packages, handledIds, history + [Handled(0, package)])
  {
    assert forall h :: h in history ==> h in history + [Handled(0, package)];
  }

  lemma IgnoredRecords(kind: Kind, clear: bool, stored: Store, handledIds: set<nat>, history: seq<Handled>, affected: AffectedDeps,
                       package: Package)
    requires Records(kind, clear, stored, handledIds, history, affected)
    ensures Records(kind, clear, stored, handledIds, history + [Handled(0, package)], affected)
  {
    hide NewRows, RemovedRows, NoneWithoutPackages, Expected;
    var more := history + [Handled(0, package)];
    assert forall h :: h in more <==> h in history || h == Handled(0, package);
    assert forall r :: Adds(kind, history, r) <==> Adds(kind, more, r);
  }

  lemma UpdatesAppend(history: seq<Handled>, h: Handled)
    ensures UpdatesOf(history + [h]) == UpdatesOf(history) + [h.package]
  {
  }

  lemma StoredAllAppends(contents: map<string, Package>, history: seq<Handled>, h: Handled)
    ensures StoredAll(contents, UpdatesOf(history + [h])) == Stored(StoredAll(contents, UpdatesOf(history)), h.package)
  {
    var more := UpdatesOf(history + [h]);
    assert more[..|history|] == UpdatesOf(history);
  }

  /** What is replaced has been stored before or was added in the same batch. */
  lemma OldKeysAreKnown(kind: Kind, stored: Store, packages: Store, handledIds: set<nat>, history: seq<Handled>, affected: AffectedDeps, id: nat)
    requires Records(kind, false, stored, handledIds, history, affected) && Tracks(stored, packages, handledIds, history) && id in packages
    ensures AreKnown(affected, Keys(kind, packages[id]), Expected(kind, stored))
  {
    forall k | k in Keys(kind, packages[id])
      ensures (k in affected && affected[k].newPackages != {}) || ListsSome(Expected(kind, stored), k)
    {
      if id in handledIds {
        assert Handled(id, packages[id]) in history;
        assert Adds(kind, history, Row(k, id));
      } else {
        assert Row(k, id) in Expected(kind, stored);
      }
    }
  }

  method AccumulateTable(kind: Kind, affected: AffectedDeps, clear: bool, ghost stored: Store, ghost packages: Store,
                         ghost handledIds: set<nat>, ghost history: seq<Handled>, id: nat, package: Package, oldEntry: Option<Package>)
    returns (more: AffectedDeps)
    requires Records(kind, clear, stored, handledIds, history, affected) && Tracks(stored, packages, handledIds, history) && id != 0
    requires oldEntry == if id in packages then Some(packages[id]) else None
    ensures Records(kind, clear, stored, handledIds + {id}, history + [Handled(id, package)], more)
  {
    hide Tracks, Adds, Expected, NoneWithoutPackages, ListsSome, Accumulated;
    more := AddAffected(affected, id, Keys(kind, package), false);
    AccumulatedIsListed(affected, id, Keys(kind, package), false, Before(kind, clear, stored));
    if !clear && oldEntry.Some? {
      OldKeysAreKnown(kind, stored, packages, handledIds, history, affected, id);
      AccumulatedKnows(affected, id, Keys(kind, package), Keys(kind, oldEntry.value), Expected(kind, stored));
      AccumulatedIsListed(more, id, Keys(kind, oldEntry.value), true, Expected(kind, stored));
      more := AddAffected(more, id, Keys(kind, oldEntry.value), true);
    }
    RecordsUpdate(kind, clear, stored, packages, handledIds, history, affected, more, id, package);
  }

  /** The accumulated changes of all four tables after an update; old entries do not matter if the tables are cleared. */
  method Accumulate(affected: map<Kind, AffectedDeps>, clear: bool, ghost stored: Store, ghost packages: Store,
                    ghost handledIds: set<nat>, ghost history: seq<Handled>, id: nat, package: Package, oldEntry: Option<Package>)
    returns (more: map<Kind, AffectedDeps>)
    requires RecordsAll(clear, stored, handledIds, history, affected) && Tracks(stored, packages, handledIds, history) && id != 0
    requires oldEntry == if id in packages then Some(packages[id]) else None
    ensures RecordsAll(clear, stored, handledIds + {id}, history + [Handled(id, package)], more)
  {
    hide Records, Tracks;
    more := affected;
    var rest := AllKinds();
    while rest != {}
      invariant rest <= AllKinds() == more.Keys
      invariant forall kind :: kind in rest ==> more[kind] == affected[kind]
      invariant forall kind :: kind in AllKinds() - rest ==>
                  Records(kind, clear, stored, handledIds + {id}, history + [Handled(id, package)], more[kind])
      decreases rest
    {
      var kind :| kind in rest;
      rest := rest - {kind};
      var table := AccumulateTable(kind, more[kind], clear, stored, packages, handledIds, history, id, package, oldEntry);
      more := more[kind := table];
    }
  }

  lemma StateUpdate(stored: Store, contents: map<string, Package>, clear: bool, packages: Store, handledIds: set<nat>,
                    affected: map<Kind, AffectedDeps>, history: seq<Handled>, id: nat, package: Package, more: map<Kind, AffectedDeps>)
    requires IsState(stored, contents, clear, packages, handledIds, affected, history)
    requires id != 0 && package.name != "" && (id in packages ==> packages[id].name == package.name)
    requires IsStore(packages[id := package])
    requires IsContents(packages[id := package], StoredAll(contents, UpdatesOf(history))[package.name := package])
    requires RecordsAll(clear, stored, handledIds + {id}, history + [Handled(id, package)], more)
    ensures IsState(stored, contents, clear, packages[id := package], handledIds + {id}, more, history + [Handled(id, package)])
  {
    TracksUpdate(stored, packages, handledIds, history, id, package);
    KeptUpdate(packages, handledIds, StoredAll(map[], UpdatesOf(history)), id, package);
    StoredAllAppends(contents, history, Handled(id, package));
    StoredAllAppends(map[], history, Handled(id, package));
  }

  /** Stores the package in the transaction and accumulates what changes in the tables. */
  method StoreAndAccumulate(ghost stored: Store, ghost contents: map<string, Package>, clear: bool, packages: Store,
                            ghost handledIds: set<nat>, affected: map<Kind, AffectedDeps>, ghost history: seq<Handled>, package: Package)
    returns (id: nat, newPackages: Store, more: map<Kind, AffectedDeps>)
    requires IsState(stored, contents, clear, packages, handledIds, affected, history) && package.name != ""
    ensures IsState(stored, contents, clear, newPackages, handledIds + {id}, more, history + [Handled(id, package)])
  {
    var oldEntry;
    newPackages, id, oldEntry := StorePackage(packages, package, StoredAll(contents, UpdatesOf(history)));
    more := Accumulate(affected, clear, stored, packages, handledIds, history, id, package, oldEntry);
    StateUpdate(stored, contents, clear, packages, handledIds, affected, history, id, package, more);
  }

  // ---------------------------------------------------------------- committing

  ghost predicate IsCommitted(kind: Kind, table: Table, clear: bool, stored: Store, affected: AffectedDeps) {
    UniqueEntries(table) && Rows(table) == Committed(kind, clear, stored, affected)
  }

  ghost predicate AllCommitted(tables: map<Kind, Table>, clear: bool, stored: Store, affected: map<Kind, AffectedDeps>)
    requires affected.Keys == AllKinds()
  {
    && tables.Keys == AllKinds()
    && forall kind :: kind in tables ==> IsCommitted(kind, tables[kind], clear, stored, affected[kind])
  }

  method SubmitTable(table: Table, kind: Kind, clear: bool, ghost stored: Store, ghost handledIds: set<nat>, affected: AffectedDeps,
                     ghost history: seq<Handled>)
    returns (newTable: Table)
    requires IsTable(kind, table, stored)
    requires Records(kind, clear, stored, handledIds, history, affected)
    ensures IsWritten(kind, table, newTable, clear, stored, affected)
  {
    newTable := if clear then map[] else table;
    newTable := SubmitAll(newTable, affected);
  }

  ghost predicate KeepsEntriesIn(tables: map<Kind, Table>, newTables: map<Kind, Table>) {
    forall kind :: kind in tables ==> kind in newTables && KeepsEntries(tables[kind], newTables[kind])
  }

  ghost predicate IsWritten(kind: Kind, table: Table, newTable: Table, clear: bool, stored: Store, affected: AffectedDeps) {
    IsCommitted(kind, newTable, clear, stored, affected) && if clear then NoEmptyEntries(newTable) else KeepsEntries(table, newTable)
  }

  lemma AllWritten(tables: map<Kind, Table>, newTables: map<Kind, Table>, clear: bool, stored: Store, affected: map<Kind, AffectedDeps>)
    requires tables.Keys == newTables.Keys == affected.Keys == AllKinds()
    requires forall kind :: kind in AllKinds() ==> IsWritten(kind, tables[kind], newTables[kind], clear, stored, affected[kind])
    ensures AllCommitted(newTables, clear, stored, affected)
    ensures if clear then NoEmptyEntriesIn(newTables) else KeepsEntriesIn(tables, newTables)
  {
    hide IsCommitted, NoEmptyEntries, KeepsEntries;
  }

  method CommitTables(tables: map<Kind, Table>, clear: bool, ghost stored: Store, ghost handledIds: set<nat>,
                      affected: map<Kind, AffectedDeps>, ghost history: seq<Handled>)
    returns (newTables: map<Kind, Table>)
    requires IsIndex(tables, stored) && RecordsAll(clear, stored, handledIds, history, affected)
    ensures AllCommitted(newTables, clear, stored, affected)
    ensures if clear then NoEmptyEntriesIn(newTables) else KeepsEntriesIn(tables, newTables)
  {
    hide IsTable, IsWritten, NoEmptyEntriesIn, KeepsEntriesIn, AllCommitted, Records;
    newTables := tables;
    var rest := AllKinds();
    while rest != {}
      invariant rest <= AllKinds() == newTables.Keys
      invariant forall kind :: kind in rest ==> newTables[kind] == tables[kind]
      invariant forall kind :: kind in AllKinds() - rest ==>
                  IsWritten(kind, tables[kind], newTables[kind], clear, stored, affected[kind])
      decreases rest
    {
      var kind :| kind in rest;
      rest := rest - {kind};
      assert Records(kind, clear, stored, handledIds, history, affected[kind]);
      var table := SubmitTable(newTables[kind], kind, clear, stored, handledIds, affected[kind], history);
      newTables := newTables[kind := table];
    }
    AllWritten(tables, newTables, clear, stored, affected);
  }

  /** Drops all packages that have not been handled. */
  method Preserve(packages: Store, toPreserve: set<nat>) returns (kept: Store)
    ensures kept == Kept(packages, toPreserve)
  {
    kept := packages;
    var rest := packages.Keys;
    while rest != {}
      invariant rest <= packages.Keys && kept == map id | id in packages && (id in rest || id in toPreserve) :: packages[id]
      decreases rest
    {
      var id :| id in rest;
      rest := rest - {id};
      if id !in toPreserve {
        kept := kept - {id};
      }
    }
  }

  /** The packages by name after committing. */
  function FinalContents(clear: bool, contents: map<string, Package>, updates: seq<Package>): map<string, Package> {
    StoredAll(if clear then map[] else contents, updates)
  }

  /** The last update of the name, or without any what was there before, unless that is cleared. */
  ghost predicate HoldsLast(clear: bool, before: map<string, Package>, updates: seq<Package>, name: string, after: map<string, Package>) {
    if exists k :: 0 <= k < |updates| && updates[k].name == name
    then exists k: nat :: IsLastOf(updates, name, k) && name in after && after[name] == updates[k]
    else (name in after <==> !clear && name in before) && (name in after ==> after[name] == before[name])
  }

  lemma FinalContentsHoldLast(clear: bool, before: map<string, Package>, updates: seq<Package>)
    ensures forall name :: name != "" ==> HoldsLast(clear, before, updates, name, FinalContents(clear, before, updates))
  {
    forall name | name != "" ensures HoldsLast(clear, before, updates, name, FinalContents(clear, before, updates)) {
      StoredAllIsLast(if clear then map[] else before, updates, name);
      if k :| 0 <= k < |updates| && updates[k].name == name {
        LastExists(updates, name, k);
      }
    }
  }

  lemma LastExists(updates: seq<Package>, name: string, k: nat)
    requires k < |updates| && updates[k].name == name
    ensures exists l: nat :: IsLastOf(updates, name, l)
    decreases |updates| - k
  {
    if l :| k < l < |updates| && updates[l].name == name {
      LastExists(updates, name, l);
    } else {
      assert IsLastOf(updates, name, k);
    }
  }

  lemma FinalState(stored: Store, contents: map<string, Package>, clear: bool, packages: Store, handledIds: set<nat>,
                   affected: map<Kind, AffectedDeps>, history: seq<Handled>)
    requires IsState(stored, contents, clear, packages, handledIds, affected, history)
    ensures var final := FinalPackages(clear, packages, handledIds);
            IsStore(final) && IsContents(final, FinalContents(clear, contents, UpdatesOf(history)))
  {
  }

  lemma StateRecords(stored: Store, contents: map<string, Package>, clear: bool, packages: Store, handledIds: set<nat>,
                     affected: map<Kind, AffectedDeps>, history: seq<Handled>)
    requires IsState(stored, contents, clear, packages, handledIds, affected, history)
    ensures RecordsAll(clear, stored, handledIds, history, affected)
  {
  }

  /** The tables fit the committed packages if and only if nothing stale was left behind. */
  lemma CommitIsExact(stored: Store, contents: map<string, Package>, clear: bool, packages: Store, handledIds: set<nat>,
                      affected: map<Kind, AffectedDeps>, history: seq<Handled>, tables: map<Kind, Table>)
    requires IsState(stored, contents, clear, packages, handledIds, affected, history)
    requires AllCommitted(tables, clear, stored, affected)
    ensures IsIndex(tables, FinalPackages(clear, packages, handledIds)) <==> NothingStale(UpdatesOf(history))
  {
    hide UniqueEntries, Rows, Expected, Committed, NothingSuperseded, NothingStale, IsStore, IsContents, Records, FinalPackages, Tracks;
    NothingStaleIffSuperseded(stored, packages, handledIds, history);
    forall kind | kind in AllKinds()
      ensures Rows(tables[kind]) == Expected(kind, FinalPackages(clear, packages, handledIds)) <==> NothingSuperseded(kind, packages, history)
    {
      CommittedRows(kind, clear, stored, packages, handledIds, history, affected[kind], Rows(tables[kind]));
    }
  }

  // ---------------------------------------------------------------- the class

  class PackageUpdater {
    const database: Database
    const clear: bool
    // the packages as seen by the transaction
    var packages: Store
    var handledIds: set<nat>
    var affected: map<Kind, AffectedDeps>
    // all calls of Update()
    ghost var history: seq<Handled>

    ghost predicate Valid()
      reads this, database
    {
      database.Exact() && IsState(database.packages, database.contents, clear, packages, handledIds, affected, history)
    }

    constructor (database: Database, clear: bool)
      requires database.Exact()
      ensures Valid() && this.database == database && this.clear == clear && history == []
    {
      this.database, this.clear := database, clear;
      packages, handledIds := database.packages, {};
      affected := map kind | kind in AllKinds() :: map[];
      history := [];
      new;
      hide Records, Tracks, IsContents, IsStore, IsTable;
      InitialState(database.packages, database.contents, clear, affected);
    }

    /** Stores the package in the transaction and accumulates what changes in the tables. */
    method Update(package: Package) returns (id: nat)
      requires Valid()
      modifies this
      ensures Valid() && history == old(history) + [Handled(id, package)]
    {
      hide IsState;
      if package.name == "" {
        IgnoredUpdate(database.packages, database.contents, clear, packages, handledIds, affected, history, package);
        history := history + [Handled(0, package)];
        return 0;
      }
      var newPackages, more;
      id, newPackages, more := StoreAndAccumulate(database.packages, database.contents, clear, packages, handledIds, affected, history, package);
      packages, handledIds, affected := newPackages, handledIds + {id}, more;
      history := history + [Handled(id, package)];
    }

    /** Writes the accumulated changes to the database; what was not handled is dropped if `clear` is set. */
    method Commit()
      requires Valid()
      modifies database
      ensures database.contents == FinalContents(clear, old(database.contents), UpdatesOf(history))
      ensures database.Exact() <==> NothingStale(UpdatesOf(history))
      ensures if clear then NoEmptyEntriesIn(database.tables) else KeepsEntriesIn(old(database.tables), database.tables)
    {
      hide KeepsEntriesIn, IsState, IsStore, IsContents, IsIndex, NothingStale, AllCommitted, RecordsAll, FinalContents, NoEmptyEntriesIn;
      ghost var stored, contents := database.packages, database.contents;
      FinalState(stored, contents, clear, packages, handledIds, affected, history);
      StateRecords(stored, contents, clear, packages, handledIds, affected, history);
      var newTables := CommitTables(database.tables, clear, stored, handledIds, affected, history);
      CommitIsExact(stored, contents, clear, packages, handledIds, affected, history, newTables);
      var final := packages;
      if clear {
        final := Preserve(packages, handledIds);
      }
      database.packages, database.tables := final, newTables;
      database.contents := FinalContents(clear, contents, UpdatesOf(history));
    }
  }

  method UpdateInBatch(database: Database, packages: seq<Package>, clear: bool)
    requires database.Exact()
    modifies database
    ensures database.contents == FinalContents(clear, old(database.contents), packages)
    ensures database.Exact() <==> NothingStale(packages)
    ensures forall name :: name != "" ==> HoldsLast(clear, old(database.contents), packages, name, database.contents)
    ensures if clear then NoEmptyEntriesIn(database.tables) else KeepsEntriesIn(old(database.tables), database.tables)
  {
    hide *;
    FinalContentsHoldLast(clear, database.contents, packages);
    var updater := new PackageUpdater(database, clear);
    for i := 0 to |packages|
      invariant updater.Valid() && updater.database == database && updater.clear == clear
      invariant UpdatesOf(updater.history) == packages[..i] && unchanged(database)
    {
      ghost var history := updater.history;
      var id := updater.Update(packages[i]);
      UpdatesAppend(history, Handled(id, packages[i]));
      assert packages[..i + 1] == packages[..i] + [packages[i]];
    }
    assert packages[..|packages|] == packages;
    updater.Commit();
  }

  method UpdateOneByOne(database: Database, packages: seq<Package>)
    requires database.Exact()
    modifies database
    ensures database.Exact() && database.contents == StoredAll(old(database.contents), packages)
    ensures NoEmptyEntriesIn(old(database.tables)) ==> NoEmptyEntriesIn(database.tables)
  {
    for i := 0 to |packages|
      invariant database.Exact() && database.contents == StoredAll(old(database.contents), packages[..i])
      invariant NoEmptyEntriesIn(old(database.tables)) ==> NoEmptyEntriesIn(database.tables)
    {
      assert packages[..i + 1][..i] == packages[..i];
      var id := database.UpdatePackage(packages[i]);
    }
    assert packages[..|packages|] == packages;
  }

  /** "The package called `name` is listed under `key`" does not depend on the ids in use. */
  ghost predicate ListedByName(table: Table, packages: Store, key: Key, name: string) {
    exists id :: id in packages && packages[id].name == name && Row(key, id) in Rows(table)
  }

  lemma ListedIffInContents(kind: Kind, tables: map<Kind, Table>, packages: Store, contents: map<string, Package>, key: Key, name: string)
    requires IsIndex(tables, packages) && IsStore(packages) && IsContents(packages, contents) && kind in AllKinds()
    ensures ListedByName(tables[kind], packages, key, name) <==> name in contents && key in Keys(kind, contents[name])
  {
    if name in contents {
      assert HasName(packages, name);
      var id :| id in packages && packages[id].name == name;
      assert Row(key, id) in Rows(tables[kind]) <==> key in Keys(kind, contents[name]);
    }
  }

  /**
   * A batch is as good as single updates: with every name updated at most once, both leave exactly the same
   * packages listed under the same dependencies.
   */
  method BatchRefinesSingleUpdates(batched: Database, single: Database, packages: seq<Package>)
    requires batched != single && batched.Exact() && single.Exact() && batched.contents == single.contents
    requires DistinctNames(packages)
    modifies batched, single
    ensures batched.Exact() && single.Exact() && batched.contents == single.contents
    ensures forall kind, key, name :: kind in AllKinds() ==>
              (ListedByName(batched.tables[kind], batched.packages, key, name) <==> ListedByName(single.tables[kind], single.packages, key, name))
  {
    DistinctNamesAreNotStale(packages);
    UpdateInBatch(batched, packages, false);
    UpdateOneByOne(single, packages);
    forall kind, key, name | kind in AllKinds()
      ensures ListedByName(batched.tables[kind], batched.packages, key, name) <==> ListedByName(single.tables[kind], single.packages, key, name)
    {
      ListedIffInContents(kind, batched.tables, batched.packages, batched.contents, key, name);
      ListedIffInContents(kind, single.tables, single.packages, single.contents, key, name);
    }
  }
}

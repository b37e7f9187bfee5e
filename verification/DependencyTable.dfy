/**
 * One table of the inverted dependency index: which packages provide, or require, a dependency in a version.
 * Libraries are kept in tables of the same shape, as dependencies without a version.
 */
module DependencyTable {
  import opened Wrappers

  datatype Key = Key(name: string, version: string)

  datatype Entry = Entry(key: Key, relevantPackages: set<nat>)

  /** Entries by their own storage id. */
  type Table = map<nat, Entry>

  /** "This package is listed under this dependency": what a table says, whatever its entries look like. */
  datatype Row = Row(key: Key, id: nat)

  ghost predicate Listed(table: Table, row: Row) {
    exists e :: e in table && table[e].key == row.key && row.id in table[e].relevantPackages
  }

  ghost function Rows(table: Table): set<Row> {
    set e, id | e in table && id in table[e].relevantPackages :: Row(table[e].key, id)
  }

  lemma RowsAreListed(table: Table, row: Row)
    ensures row in Rows(table) <==> Listed(table, row)
  {
  }

  /** At most one entry per dependency, and none without a name. */
  predicate UniqueEntries(table: Table) {
    && (forall e, f :: e in table && f in table && table[e].key == table[f].key ==> e == f)
    && (forall e :: e in table ==> table[e].key.name != "")
  }

  predicate NoEmptyEntries(table: Table) {
    forall e :: e in table ==> table[e].relevantPackages != {}
  }

  /** The ids an index lookup by name iterates over. */
  function EqualRange(table: Table, name: string): set<nat> {
    set e | e in table && table[e].key.name == name
  }

  ghost predicate OfPackage(row: Row, id: nat, name: string) {
    row.id == id && row.key.name == name
  }

  /** Takes the package out of all entries with that name, whatever their version; entries that become empty are deleted. */
  method RemoveDependency(table: Table, packageID: nat, name: string) returns (newTable: Table)
    requires UniqueEntries(table)
    ensures UniqueEntries(newTable) && (NoEmptyEntries(table) ==> NoEmptyEntries(newTable))
    ensures Rows(newTable) == set r | r in Rows(table) && !OfPackage(r, packageID, name)
  {
    hide Rows, OfPackage, UniqueEntries, NoEmptyEntries;
    newTable := table;
    var rest := EqualRange(table, name);
    while rest != {}
      invariant rest <= EqualRange(table, name) && newTable == Without(table, packageID, name, rest)
      decreases rest
    {
      var e :| e in rest;
      rest := rest - {e};
      var relevantPackages := newTable[e].relevantPackages - {packageID};
      if relevantPackages == {} {
        newTable := newTable - {e};
      } else {
        newTable := newTable[e := Entry(newTable[e].key, relevantPackages)];
      }
    }
    EntriesWithout(table, packageID, name);
    RowsWithout(table, packageID, name);
  }

  /** The table while the entries with that name are gone through; those in `rest` are still untouched. */
  function Without(table: Table, packageID: nat, name: string, rest: set<nat>): Table {
    map e | e in table && (e in rest || table[e].key.name != name || !(table[e].relevantPackages <= {packageID})) ::
      if e in rest || table[e].key.name != name then table[e] else Entry(table[e].key, table[e].relevantPackages - {packageID})
  }

  lemma EntriesWithout(table: Table, packageID: nat, name: string)
    requires UniqueEntries(table)
    ensures var newTable := Without(table, packageID, name, {});
            UniqueEntries(newTable) && (NoEmptyEntries(table) ==> NoEmptyEntries(newTable))
  {
  }

  lemma RowsWithout(table: Table, packageID: nat, name: string)
    ensures Rows(Without(table, packageID, name, {})) == set r | r in Rows(table) && !OfPackage(r, packageID, name)
  {
    var newTable := Without(table, packageID, name, {});
    forall r: Row ensures r in Rows(newTable) <==> r in Rows(table) && !OfPackage(r, packageID, name) {
      RowsAreListed(newTable, r);
      RowsAreListed(table, r);
      if Listed(table, r) && !OfPackage(r, packageID, name) {
        var e :| e in table && table[e].key == r.key && r.id in table[e].relevantPackages;
        assert newTable[e].key == r.key && r.id in newTable[e].relevantPackages;
      }
    }
  }

  /** Puts the package into the entry of the dependency, creating it if needed; nothing is done for an empty name. */
  method AddDependency(table: Table, packageID: nat, key: Key) returns (newTable: Table)
    requires UniqueEntries(table)
    ensures UniqueEntries(newTable) && (NoEmptyEntries(table) ==> NoEmptyEntries(newTable))
    ensures Rows(newTable) == if key.name == "" then Rows(table) else Rows(table) + {Row(key, packageID)}
  {
    newTable := table;
    if key.name == "" {
      return;
    }
    var existing, e := FindEntry(table, key);
    if existing {
      newTable := table[e := Entry(key, table[e].relevantPackages + {packageID})];
    } else {
      e := NewID(table.Keys);
      newTable := table[e := Entry(key, {packageID})];
    }
    assert Rows(newTable) == Rows(table) + {Row(key, packageID)} by {
      EntryChanged(table, newTable, e, key, if existing then table[e].relevantPackages else {}, newTable[e].relevantPackages);
    }
  }

  /** The loops over an equal range that look for the entry with the right version. */
  method FindEntry(table: Table, key: Key) returns (found: bool, e: nat)
    ensures if found then e in table && table[e].key == key else forall f :: f in table ==> table[f].key != key
  {
    found, e := false, 0;
    var rest := EqualRange(table, key.name);
    while rest != {}
      invariant forall f :: f in table && table[f].key == key ==> f in rest
      decreases rest
    {
      e :| e in rest;
      rest := rest - {e};
      if table[e].key.version == key.version {
        return true, e;
      }
    }
  }

  /** Changing, or creating, the one entry of a key changes the rows of that key only. */
  lemma EntryChanged(table: Table, newTable: Table, e: nat, key: Key, before: set<nat>, after: set<nat>)
    requires UniqueEntries(table) && newTable == table[e := Entry(key, after)]
    requires if e in table then table[e] == Entry(key, before) else before == {} && forall f :: f in table ==> table[f].key != key
    ensures Rows(newTable) == (set r | r in Rows(table) && r.key != key) + (set id | id in after :: Row(key, id))
    ensures forall id: nat :: Row(key, id) in Rows(table) <==> id in before
  {
    forall r: Row ensures r in Rows(newTable) <==> (r in Rows(table) && r.key != key) || (r.key == key && r.id in after) {
      RowsAreListed(newTable, r);
      RowsAreListed(table, r);
      if r.key == key && r.id in after {
        assert newTable[e].key == r.key;
      }
      if r.key != key && Listed(table, r) {
        var f :| f in table && table[f].key == r.key && r.id in table[f].relevantPackages;
        assert newTable[f] == table[f];
      }
    }
    forall id: nat ensures Row(key, id) in Rows(table) <==> id in before {
      RowsAreListed(table, Row(key, id));
    }
  }
}

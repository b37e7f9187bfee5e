/**
 * Sequences without duplicates, taken for the sets of their elements.
 */
module Sequences {

  function Elements<T>(s: seq<T>): set<T> {
    set x | x in s
  }

  predicate NoDuplicates<T(==)>(s: seq<T>) {
    forall i, j :: 0 <= i < j < |s| ==> s[i] != s[j]
  }

  lemma NoDuplicatesSuffix<T>(s: seq<T>, i: nat)
    requires NoDuplicates(s) && i <= |s|
    ensures NoDuplicates(s[i..])
  {
  }

  lemma NoDuplicatesAppend<T>(s: seq<T>, x: T)
    requires NoDuplicates(s) && x !in s
    ensures NoDuplicates(s + [x])
  {
  }

  lemma ElementsAppend<T>(s: seq<T>, x: T)
    ensures Elements(s + [x]) == Elements(s) + {x}
  {
  }
}

/**
 * Recency lists: the distinct keys of an access log, most recently used first.
 */
module Recency {
  import opened Sequences

  function Remove<T(==)>(s: seq<T>, k: T): seq<T> {
    if s == [] then [] else if s[0] == k then Remove(s[1..], k) else [s[0]] + Remove(s[1..], k)
  }

  function Recent<T(==)>(log: seq<T>): seq<T> {
    if log == [] then [] else [log[|log| - 1]] + Remove(Recent(log[..|log| - 1]), log[|log| - 1])
  }

  function First<T>(s: seq<T>, n: nat): seq<T> {
    if |s| <= n then s else s[..n]
  }

  function ToFront<T>(s: seq<T>, i: nat): seq<T>
    requires i < |s|
  {
    [s[i]] + s[..i] + s[i + 1..]
  }

  lemma {:induction false} RemoveAbsent<T>(s: seq<T>, k: T)
    requires k !in s
    ensures Remove(s, k) == s
  {
    if s != [] {
      RemoveAbsent(s[1..], k);
    }
  }

  lemma {:induction false} RemoveAt<T>(s: seq<T>, i: nat)
    requires NoDuplicates(s) && i < |s|
    ensures Remove(s, s[i]) == s[..i] + s[i + 1..]
  {
    if i == 0 {
      RemoveAbsent(s[1..], s[0]);
    } else {
      assert s[1..][i - 1] == s[i];
      RemoveAt(s[1..], i - 1);
      assert s[..i] + s[i + 1..] == [s[0]] + (s[1..][..i - 1] + s[1..][i..]);
    }
  }

  lemma NoDuplicatesCons<T>(x: T, s: seq<T>)
    ensures NoDuplicates([x] + s) <==> x !in s && NoDuplicates(s)
  {
    if NoDuplicates([x] + s) {
      forall i | 0 <= i < |s| ensures s[i] != x {
        assert ([x] + s)[i + 1] == s[i] && ([x] + s)[0] == x;
      }
      forall i, j | 0 <= i < j < |s| ensures s[i] != s[j] {
        assert ([x] + s)[i + 1] == s[i] && ([x] + s)[j + 1] == s[j];
      }
    }
  }

  lemma {:induction false} RemoveKeepsOthers<T>(s: seq<T>, k: T)
    ensures forall x :: x in Remove(s, k) <==> x in s && x != k
    ensures forall i :: 0 <= i < |Remove(s, k)| ==> Remove(s, k)[i] in s
    ensures NoDuplicates(s) ==> NoDuplicates(Remove(s, k))
  {
    if s != [] {
      RemoveKeepsOthers(s[1..], k);
      assert s == [s[0]] + s[1..];
      hide NoDuplicates;
      NoDuplicatesCons(s[0], s[1..]);
      NoDuplicatesCons(s[0], Remove(s[1..], k));
      assert forall i :: 0 <= i < |Remove(s, k)| ==> Remove(s, k)[i] in Remove(s, k);
    }
  }

  /** Removing a key does not reorder the others. */
  lemma {:induction false} RemoveKeepsOrder<T>(s: seq<T>, k: T, i: nat, j: nat) returns (i': nat, j': nat)
    requires i < j < |Remove(s, k)|
    ensures i' < j' < |s| && s[i'] == Remove(s, k)[i] && s[j'] == Remove(s, k)[j]
  {
    if s[0] == k {
      i', j' := RemoveKeepsOrder(s[1..], k, i, j);
      i', j' := i' + 1, j' + 1;
    } else if i > 0 {
      i', j' := RemoveKeepsOrder(s[1..], k, i - 1, j - 1);
      i', j' := i' + 1, j' + 1;
    } else {
      RemoveKeepsOthers(s[1..], k);
      assert Remove(s, k)[j] == Remove(s[1..], k)[j - 1];
      i' := 0;
      j' :| 1 <= j' < |s| && s[j'] == Remove(s, k)[j];
    }
  }

  lemma {:induction false} RecentHasNoDuplicates<T>(log: seq<T>)
    ensures NoDuplicates(Recent(log))
    ensures forall k :: k in Recent(log) <==> k in log
  {
    if log != [] {
      var prefix, k := log[..|log| - 1], log[|log| - 1];
      RecentHasNoDuplicates(prefix);
      RemoveKeepsOthers(Recent(prefix), k);
      assert log == prefix + [k];
      NoDuplicatesCons(k, Remove(Recent(prefix), k));
    }
  }

  /** The last position in the log at which a key was used. */
  function LastUse<T(==)>(log: seq<T>, k: T): (i: nat)
    requires k in log
    ensures i < |log| && log[i] == k && forall j :: i < j < |log| ==> log[j] != k
  {
    if log[|log| - 1] == k then |log| - 1 else LastUse(log[..|log| - 1], k)
  }

  /** The list is ordered by last use. */
  lemma {:induction false} RecentIsByLastUse<T>(log: seq<T>, i: nat, j: nat)
    requires i < j < |Recent(log)|
    ensures Recent(log)[i] in log && Recent(log)[j] in log
    ensures LastUse(log, Recent(log)[i]) > LastUse(log, Recent(log)[j])
  {
    var prefix, last := log[..|log| - 1], log[|log| - 1];
    assert Recent(log) == [last] + Remove(Recent(prefix), last);
    hide Recent, Remove;
    LaterThanFirst(log, j);
    if i > 0 {
      LaterThanFirst(log, i);
      var i', j' := RemoveKeepsOrder(Recent(prefix), last, i - 1, j - 1);
      RecentIsByLastUse(prefix, i', j');
    }
  }

  lemma LaterThanFirst<T>(log: seq<T>, j: nat)
    requires 0 < j < |Recent(log)|
    ensures var prefix, x := log[..|log| - 1], Recent(log)[j];
            x != log[|log| - 1] && x in prefix && LastUse(log, x) == LastUse(prefix, x)
  {
    var prefix, last, x := log[..|log| - 1], log[|log| - 1], Recent(log)[j];
    assert Recent(log) == [last] + Remove(Recent(prefix), last);
    RemovedElement(Recent(prefix), last, j - 1);
    RecentKeys(prefix, x);
  }

  lemma RemovedElement<T>(s: seq<T>, k: T, i: nat)
    requires i < |Remove(s, k)|
    ensures Remove(s, k)[i] != k && Remove(s, k)[i] in s
  {
    RemoveKeepsOthers(s, k);
    assert Remove(s, k)[i] in Remove(s, k);
  }

  lemma RecentKeys<T>(log: seq<T>, k: T)
    ensures k in Recent(log) <==> k in log
  {
    RecentHasNoDuplicates(log);
  }

  /** Using a key that is among the first n moves it to the front ... */
  lemma UseKept<T>(log: seq<T>, n: nat, i: nat)
    requires i < |First(Recent(log), n)|
    ensures First(Recent(log + [First(Recent(log), n)[i]]), n) == ToFront(First(Recent(log), n), i)
  {
    RecentAppend(log, Recent(log)[i]);
    RecentHasNoDuplicates(log);
    RemoveAt(Recent(log), i);
    FirstToFront(Recent(log), n, i);
  }

  lemma RecentAppend<T>(log: seq<T>, k: T)
    ensures Recent(log + [k]) == [k] + Remove(Recent(log), k)
  {
    assert (log + [k])[..|log|] == log;
  }

  lemma FirstToFront<T>(s: seq<T>, n: nat, i: nat)
    requires i < |First(s, n)|
    ensures First([s[i]] + (s[..i] + s[i + 1..]), n) == ToFront(First(s, n), i)
  {
  }

  /** ... and using any other key puts it there, which drops the last one if there are too many then. */
  lemma UseOther<T>(log: seq<T>, n: nat, k: T)
    requires n > 0 && k !in First(Recent(log), n)
    ensures First(Recent(log + [k]), n) == First([k] + First(Recent(log), n), n)
  {
    var recent := Recent(log);
    RecentAppend(log, k);
    RecentHasNoDuplicates(log);
    hide Recent, Remove, NoDuplicates;
    if k in recent {
      var i :| 0 <= i < |recent| && recent[i] == k;
      assert forall j :: 0 <= j < |recent| && j < n ==> recent[j] == First(recent, n)[j];
      RemoveAt(recent, i);
    } else {
      RemoveAbsent(recent, k);
    }
  }
}

/**
 * Reachability in a finite directed graph, orders in which everything comes after what it leads to, and cycles.
 */
module Reachability {
  import opened Sequences

  type Next = map<nat, set<nat>>

  predicate Step(next: Next, d: nat, e: nat) {
    d in next && e in next[d]
  }

  ghost predicate IsPath(next: Next, path: seq<nat>) {
    path != [] && forall i, j :: 0 <= i && j == i + 1 && j < |path| ==> Step(next, path[i], path[j])
  }

  ghost predicate IsPathFrom(next: Next, path: seq<nat>, d: nat, e: nat) {
    IsPath(next, path) && path[0] == d && path[|path| - 1] == e
  }

  ghost predicate Reaches(next: Next, d: nat, e: nat) {
    exists path :: IsPathFrom(next, path, d, e)
  }

  ghost predicate OnCycle(next: Next, d: nat) {
    exists e :: Step(next, d, e) && Reaches(next, e, d)
  }

  lemma ReachesSelf(next: Next, d: nat)
    ensures Reaches(next, d, d)
  {
    assert IsPathFrom(next, [d], d, d);
  }

  lemma PathAppend(next: Next, path: seq<nat>, e: nat)
    requires IsPath(next, path) && Step(next, path[|path| - 1], e)
    ensures IsPath(next, path + [e])
  {
  }

  lemma {:induction false} PathStaysWithin(next: Next, s: set<nat>, path: seq<nat>)
    requires IsPath(next, path) && path[0] in s && IsClosed(next, s)
    ensures path[|path| - 1] in s
  {
    if |path| > 1 {
      var front := path[..|path| - 1];
      PathStaysWithin(next, s, front);
      assert Step(next, path[|path| - 2], path[|path| - 1]);
    }
  }

  predicate IsClosed(next: Next, s: set<nat>) {
    forall d :: d in s && d in next ==> next[d] <= s
  }

  /** What is reachable is the least closed set. */
  lemma ReachStaysWithin(next: Next, s: set<nat>, d: nat, e: nat)
    requires d in s && IsClosed(next, s) && Reaches(next, d, e)
    ensures e in s
  {
    var path :| IsPathFrom(next, path, d, e);
    PathStaysWithin(next, s, path);
  }

  lemma StepThenReach(next: Next, d: nat, e: nat, f: nat)
    requires Step(next, d, e) && Reaches(next, e, f)
    ensures Reaches(next, d, f)
  {
    var path :| IsPathFrom(next, path, e, f);
    assert IsPathFrom(next, [d] + path, d, f);
  }

  lemma PathReaches(next: Next, path: seq<nat>, i: nat, j: nat)
    requires IsPath(next, path) && i <= j < |path|
    ensures Reaches(next, path[i], path[j])
  {
    var part := path[i..j + 1];
    assert IsPathFrom(next, part, path[i], path[j]);
  }

  // ---------------------------------------------------------------- orders

  /** Everything comes after all it leads to. */
  ghost predicate IsOrdered(next: Next, order: seq<nat>) {
    forall i :: 0 <= i < |order| ==> LeadsBack(next, order, i)
  }

  ghost predicate LeadsBack(next: Next, order: seq<nat>, i: nat)
    requires i < |order|
  {
    order[i] in next && next[order[i]] <= Elements(order[..i])
  }

  lemma OrderedAppend(next: Next, order: seq<nat>, d: nat)
    requires IsOrdered(next, order) && NoDuplicates(order) && d !in order && d in next && next[d] <= Elements(order)
    ensures IsOrdered(next, order + [d]) && NoDuplicates(order + [d]) && Elements(order + [d]) == Elements(order) + {d}
  {
    var more := order + [d];
    forall i | 0 <= i < |more| ensures LeadsBack(next, more, i) {
      assert more[..i] == order[..i];
      if i < |order| {
        assert LeadsBack(next, order, i);
      } else {
        assert order[..i] == order;
      }
    }
  }

  lemma PrefixIsClosed(next: Next, order: seq<nat>, n: nat)
    requires IsOrdered(next, order) && n <= |order|
    ensures IsClosed(next, Elements(order[..n]))
  {
    forall d | d in Elements(order[..n]) ensures d in next && next[d] <= Elements(order[..n]) {
      var i :| 0 <= i < n && order[i] == d;
      assert LeadsBack(next, order, i);
      assert forall x :: x in order[..i] ==> x in order[..n];
    }
  }

  /** There is no cycle within an order. */
  lemma OrderedIsAcyclic(next: Next, order: seq<nat>, d: nat)
    requires IsOrdered(next, order) && NoDuplicates(order) && d in order
    ensures !OnCycle(next, d)
  {
    var i :| 0 <= i < |order| && order[i] == d;
    assert LeadsBack(next, order, i);
    PrefixIsClosed(next, order, i);
    forall e | Step(next, d, e) ensures !Reaches(next, e, d) {
      if Reaches(next, e, d) {
        ReachStaysWithin(next, Elements(order[..i]), e, d);
      }
    }
  }

  /** An order ending with the root, all of it reachable, is exactly what is reachable. */
  lemma OrderedIsReach(next: Next, order: seq<nat>, root: nat, e: nat)
    requires IsOrdered(next, order) && root in order && forall x :: x in order ==> Reaches(next, root, x)
    ensures e in order <==> Reaches(next, root, e)
  {
    assert order[..|order|] == order;
    PrefixIsClosed(next, order, |order|);
    if Reaches(next, root, e) {
      ReachStaysWithin(next, Elements(order), root, e);
    }
  }

  // ---------------------------------------------------------------- turning all arrows around

  lemma {:induction false} ReversedReach(next: Next, back: Next, d: nat, path: seq<nat>)
    requires IsPath(next, path) && path[0] == d
    requires forall x, y :: Step(next, x, y) ==> x == y || Step(back, y, x)
    ensures Reaches(back, path[|path| - 1], d)
  {
    if |path| == 1 {
      ReachesSelf(back, d);
    } else {
      var n := |path| - 2;
      ReversedReach(next, back, d, path[..n + 1]);
      assert Step(next, path[n], path[n + 1]);
      if path[n] != path[n + 1] {
        StepThenReach(back, path[n + 1], path[n], d);
      }
    }
  }

  /** Steps back and forth, up to steps from something to itself. */
  lemma Dual(next: Next, back: Next, d: nat, e: nat)
    requires forall x, y :: Step(next, x, y) ==> x == y || Step(back, y, x)
    requires forall x, y :: Step(back, x, y) ==> x == y || Step(next, y, x)
    ensures Reaches(next, d, e) <==> Reaches(back, e, d)
  {
    if Reaches(next, d, e) {
      var path :| IsPathFrom(next, path, d, e);
      ReversedReach(next, back, d, path);
    }
    if Reaches(back, e, d) {
      var path :| IsPathFrom(back, path, e, d);
      ReversedReach(back, next, e, path);
    }
  }
}

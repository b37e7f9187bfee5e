/**
 * Computing build batches: items are peeled off in layers until nothing can be added any more; what remains
 * is reported as cyclic leftovers.
 */
module PrepareBuild {
  import opened Sequences
  import opened BuildGraph
  import opened NeededItems

  // ---------------------------------------------------------------- order within a batch

  predicate SortBatch(lhs: BatchItem, rhs: BatchItem) {
    if lhs.specifiedIndex != NOT_SPECIFIED && rhs.specifiedIndex != NOT_SPECIFIED then lhs.specifiedIndex < rhs.specifiedIndex
    else if lhs.specifiedIndex != NOT_SPECIFIED then true
    else if rhs.specifiedIndex != NOT_SPECIFIED then false
    else NameLess(lhs.name, rhs.name)
  }

  /** std::string's operator< */
  predicate NameLess(a: string, b: string) {
    b != "" && (a == "" || a[0] < b[0] || (a[0] == b[0] && NameLess(a[1..], b[1..])))
  }

  predicate Sorted(batch: seq<BatchItem>) {
    forall i, j :: 0 <= i < j < |batch| ==> !SortBatch(batch[j], batch[i])
  }

  lemma {:induction false} NameOrderIsTotal(a: string, b: string)
    ensures a != b ==> NameLess(a, b) || NameLess(b, a)
  {
    if a != "" && b != "" && a[0] == b[0] {
      NameOrderIsTotal(a[1..], b[1..]);
      assert a == [a[0]] + a[1..] && b == [b[0]] + b[1..];
    }
  }

  /** The first characters that differ decide; a name comes before any longer one that starts with it. */
  lemma {:induction false} NameOrderIsLexicographic(a: string, b: string, n: nat)
    requires n <= |a| && n <= |b| && a[..n] == b[..n]
    ensures n < |a| && n < |b| && a[n] != b[n] ==> (NameLess(a, b) <==> a[n] < b[n])
    ensures n == |a| ==> (NameLess(a, b) <==> |a| < |b|)
  {
    if n > 0 {
      assert a[0] == a[..n][0] && b[0] == b[..n][0];
      assert a[1..][..n - 1] == a[..n][1..] && b[1..][..n - 1] == b[..n][1..];
      NameOrderIsLexicographic(a[1..], b[1..], n - 1);
    }
  }

  /** What has been specified comes first, in the specified order; the rest is ordered by name. */
  lemma SortedMeans(batch: seq<BatchItem>, i: nat, j: nat)
    requires Sorted(batch) && i < j < |batch|
    ensures batch[j].specifiedIndex != NOT_SPECIFIED ==>
              batch[i].specifiedIndex != NOT_SPECIFIED && batch[i].specifiedIndex <= batch[j].specifiedIndex
    ensures batch[i].specifiedIndex == batch[j].specifiedIndex == NOT_SPECIFIED && batch[i].name != batch[j].name ==>
              NameLess(batch[i].name, batch[j].name)
  {
    assert !SortBatch(batch[j], batch[i]);
    NameOrderIsTotal(batch[i].name, batch[j].name);
  }

  lemma {:induction false} NameOrderIsTransitive(a: string, b: string, c: string)
    requires NameLess(a, b) && NameLess(b, c)
    ensures NameLess(a, c)
  {
    if a != "" && a[0] == b[0] == c[0] {
      NameOrderIsTransitive(a[1..], b[1..], c[1..]);
    }
  }

  lemma SortBatchIsTransitive(x: BatchItem, y: BatchItem, z: BatchItem)
    requires SortBatch(x, y) && SortBatch(y, z)
    ensures SortBatch(x, z)
  {
    if x.specifiedIndex == y.specifiedIndex == z.specifiedIndex == NOT_SPECIFIED {
      NameOrderIsTransitive(x.name, y.name, z.name);
    }
  }

  /** Names differ, and so do specified indexes; then the order is total. */
  predicate Distinguishable(items: set<BatchItem>) {
    forall x, y :: x in items && y in items && x != y ==>
      x.name != y.name && (x.specifiedIndex != NOT_SPECIFIED ==> x.specifiedIndex != y.specifiedIndex)
  }

  /** Within a batch the order does not depend on the order in which items were added. */
  lemma {:induction false} SortedIsUnique(a: seq<BatchItem>, b: seq<BatchItem>)
    requires Sorted(a) && Sorted(b) && NoDuplicates(a) && NoDuplicates(b)
    requires Elements(a) == Elements(b) && Distinguishable(Elements(a))
    ensures a == b
  {
    if a == [] {
      FirstElement(b);
    } else {
      assert a[0] in Elements(b) && b != [];
      SameFirst(a, b);
      TailElements(a);
      TailElements(b);
      SortedIsUnique(a[1..], b[1..]);
      assert a == [a[0]] + a[1..] && b == [b[0]] + b[1..];
    }
  }

  lemma FirstElement(a: seq<BatchItem>)
    ensures a != [] ==> a[0] in Elements(a)
  {
  }

  lemma SameFirst(a: seq<BatchItem>, b: seq<BatchItem>)
    requires a != [] && b != [] && Sorted(a) && Sorted(b)
    requires Elements(a) == Elements(b) && Distinguishable(Elements(a))
    ensures a[0] == b[0]
  {
    assert a[0] in Elements(b) && b[0] in Elements(a);
    var i :| 0 <= i < |a| && a[i] == b[0];
    var j :| 0 <= j < |b| && b[j] == a[0];
    NameOrderIsTotal(a[0].name, b[0].name);
  }

  lemma TailElements(a: seq<BatchItem>)
    requires a != [] && NoDuplicates(a)
    ensures Elements(a[1..]) == Elements(a) - {a[0]}
  {
    forall x | x in Elements(a) - {a[0]} ensures x in a[1..] {
      var i :| 0 <= i < |a| && a[i] == x;
      assert a[1..][i - 1] == x;
    }
  }

  /** std::sort() with sortBatch as comparator */
  method Sort(batch: seq<BatchItem>) returns (sorted: seq<BatchItem>)
    requires NoDuplicates(batch)
    ensures Sorted(sorted) && NoDuplicates(sorted) && Elements(sorted) == Elements(batch) && |sorted| == |batch|
  {
    sorted := [];
    for i := 0 to |batch|
      invariant Sorted(sorted) && NoDuplicates(sorted) && |sorted| == i && Elements(sorted) == Elements(batch[..i])
    {
      var k := 0;
      while k < |sorted| && !SortBatch(batch[i], sorted[k])
        invariant 0 <= k <= |sorted|
        invariant forall j :: 0 <= j < k ==> !SortBatch(batch[i], sorted[j])
      {
        k := k + 1;
      }
      assert batch[i] !in Elements(batch[..i]);
      InsertKeepsSorted(sorted, batch[i], k);
      InsertElements(sorted, batch[i], k);
      assert batch[..i + 1] == batch[..i] + [batch[i]];
      sorted := sorted[..k] + [batch[i]] + sorted[k..];
    }
    assert batch[..|batch|] == batch;
  }

  lemma InsertKeepsSorted(s: seq<BatchItem>, x: BatchItem, k: nat)
    requires Sorted(s) && k <= |s|
    requires forall j :: 0 <= j < k ==> !SortBatch(x, s[j])
    requires k < |s| ==> SortBatch(x, s[k])
    ensures Sorted(s[..k] + [x] + s[k..])
  {
    forall j | k <= j < |s| ensures !SortBatch(s[j], x) {
      SortBatchIsIrreflexive(s[k]);
      if SortBatch(s[j], x) {
        SortBatchIsTransitive(s[j], x, s[k]);
      }
    }
  }

  lemma InsertElements(s: seq<BatchItem>, x: BatchItem, k: nat)
    requires NoDuplicates(s) && x !in Elements(s) && k <= |s|
    ensures var t := s[..k] + [x] + s[k..]; NoDuplicates(t) && Elements(t) == Elements(s) + {x}
  {
    var t := s[..k] + [x] + s[k..];
    assert forall y :: y in t <==> y in s || y == x by {
      assert s == s[..k] + s[k..];
    }
    assert forall j :: 0 <= j < |s| ==> s[j] in Elements(s);
  }

  lemma SortBatchIsIrreflexive(x: BatchItem)
    ensures !SortBatch(x, x)
  {
    NameOrderIsIrreflexive(x.name);
  }

  lemma {:induction false} NameOrderIsIrreflexive(a: string)
    ensures !NameLess(a, a)
  {
    if a != "" {
      NameOrderIsIrreflexive(a[1..]);
    }
  }

  // ---------------------------------------------------------------- batches

  ghost function GraphOf(items: set<BatchItem>): Graph<BatchItem>
    reads items`neededItems
  {
    map item | item in items :: item.neededItems
  }

  ghost function DoneOf(items: set<BatchItem>): set<BatchItem>
    reads items`done
  {
    set item | item in items && item.done
  }

  method AllNeedsMet(item: BatchItem, items: set<BatchItem>) returns (allDepsDone: bool)
    requires forall y :: y in item.neededItems ==> y in items && item.neededItems[y] <= items
    ensures allDepsDone <==> Ready(item.neededItems, DoneOf(items))
  {
    var rest := item.neededItems.Keys;
    while rest != {}
      invariant rest <= item.neededItems.Keys
      invariant forall y :: y in item.neededItems && y !in rest ==> NeedMet(item.neededItems, y, DoneOf(items))
      decreases rest
    {
      var neededItem :| neededItem in rest;
      rest := rest - {neededItem};
      if neededItem.done {
        continue;
      }
      var oneAlternativeDone := false;
      var alternatives := item.neededItems[neededItem];
      while alternatives != {} && !oneAlternativeDone
        invariant alternatives <= item.neededItems[neededItem]
        invariant oneAlternativeDone <==> exists a :: a in item.neededItems[neededItem] && a !in alternatives && a.done
        decreases alternatives
      {
        var alternative :| alternative in alternatives;
        alternatives := alternatives - {alternative};
        oneAlternativeDone := alternative.done;
      }
      if !oneAlternativeDone {
        assert !NeedMet(item.neededItems, neededItem, DoneOf(items));
        return false;
      }
    }
    return true;
  }

  /** One round over all items that are not done yet. */
  method AddItemsToBatch(items: set<BatchItem>) returns (batch: seq<BatchItem>, allDone: bool)
    requires WellFormed(GraphOf(items))
    ensures NoDuplicates(batch) && Elements(batch) == Layer(GraphOf(items), DoneOf(items))
    ensures allDone <==> DoneOf(items) == items
  {
    batch, allDone := [], true;
    ghost var g, done := GraphOf(items), DoneOf(items);
    var rest := items;
    while rest != {}
      invariant rest <= items && NoDuplicates(batch)
      invariant Elements(batch) == Layer(g, done) - rest
      invariant allDone <==> items - rest <= done
      decreases rest
    {
      var item :| item in rest;
      ghost var before := rest;
      rest := rest - {item};
      assert items - rest == (items - before) + {item};
      if item.done {
        assert Layer(g, done) - rest == Layer(g, done) - before;
        continue;
      }
      allDone := false;
      assert item in items - rest && item !in done;
      var allDepsDone := AllNeedsMet(item, items);
      if !allDepsDone {
        assert Layer(g, done) - rest == Layer(g, done) - before;
        continue;
      }
      assert item !in Elements(batch);
      assert Layer(g, done) - rest == (Layer(g, done) - before) + {item};
      ElementsAppend(batch, item);
      batch := batch + [item];
    }
  }

  method MarkDone(batch: seq<BatchItem>, items: set<BatchItem>)
    requires Elements(batch) <= items
    modifies items`done
    ensures DoneOf(items) == old(DoneOf(items)) + Elements(batch)
  {
    for i := 0 to |batch|
      invariant DoneOf(items) == old(DoneOf(items)) + Elements(batch[..i])
    {
      assert batch[i] in Elements(batch);
      ghost var done := DoneOf(items);
      batch[i].done := true;
      assert DoneOf(items) == done + {batch[i]};
      ElementsAppend(batch[..i], batch[i]);
      assert batch[..i + 1] == batch[..i] + [batch[i]];
    }
    assert batch[..|batch|] == batch;
  }

  ghost predicate Peeled(g: Graph<BatchItem>, done: set<BatchItem>, batches: seq<seq<BatchItem>>) {
    AreLayers(g, batches) && done == Built(g, |batches|)
  }

  /** One round: a batch of everything that has become ready, unless nothing has. */
  method PeelLayer(items: set<BatchItem>, batches: seq<seq<BatchItem>>)
    returns (newBatches: seq<seq<BatchItem>>, allDone: bool, addedItems: bool)
    modifies items`done
    requires WellFormed(GraphOf(items)) && Peeled(GraphOf(items), DoneOf(items), batches)
    ensures Peeled(GraphOf(items), DoneOf(items), newBatches)
    ensures addedItems ==> items - DoneOf(items) < items - old(DoneOf(items))
    ensures !addedItems ==> DoneOf(items) == old(DoneOf(items)) && Layer(GraphOf(items), DoneOf(items)) == {}
    ensures allDone ==> !addedItems
  {
    ghost var g := GraphOf(items);
    var newBatch;
    newBatch, allDone := AddItemsToBatch(items);
    addedItems := newBatch != [];
    FirstElement(newBatch);
    newBatches := batches;
    if addedItems {
      assert newBatch[0] in items - DoneOf(items);
      LayersAppend(g, batches, newBatch);
      newBatches := batches + [newBatch];
    }
    MarkDone(newBatch, items);
  }

  /** The do-while loop of computeBatches(): rounds until a round adds nothing. */
  method PeelLayers(items: set<BatchItem>) returns (batches: seq<seq<BatchItem>>)
    modifies items`done
    requires WellFormed(GraphOf(items)) && DoneOf(items) == {}
    ensures Peeled(GraphOf(items), DoneOf(items), batches) && Layer(GraphOf(items), DoneOf(items)) == {}
  {
    batches := [];
    var allDone, addedItems := false, true;
    while !allDone && addedItems
      invariant WellFormed(GraphOf(items)) && Peeled(GraphOf(items), DoneOf(items), batches)
      invariant allDone ==> !addedItems
      invariant !addedItems ==> Layer(GraphOf(items), DoneOf(items)) == {}
      decreases items - DoneOf(items), addedItems
    {
      batches, allDone, addedItems := PeelLayer(items, batches);
    }
  }

  method NotDone(items: set<BatchItem>) returns (leftovers: seq<BatchItem>)
    ensures NoDuplicates(leftovers) && Elements(leftovers) == items - DoneOf(items)
  {
    leftovers := [];
    var rest := items;
    while rest != {}
      invariant rest <= items && NoDuplicates(leftovers)
      invariant Elements(leftovers) == items - rest - DoneOf(items)
      decreases rest
    {
      var item :| item in rest;
      rest := rest - {item};
      if !item.done {
        assert item !in Elements(leftovers);
        ElementsAppend(leftovers, item);
        leftovers := leftovers + [item];
      }
    }
  }

  function Names(batch: seq<BatchItem>): (names: seq<string>)
    ensures |names| == |batch| && forall i :: 0 <= i < |batch| ==> names[i] == batch[i].name
  {
    seq(|batch|, i requires 0 <= i < |batch| => batch[i].name)
  }

  function NamesOf(batches: seq<seq<BatchItem>>): (names: seq<seq<string>>)
    ensures |names| == |batches| && forall k :: 0 <= k < |batches| ==> names[k] == Names(batches[k])
  {
    seq(|batches|, k requires 0 <= k < |batches| => Names(batches[k]))
  }

  method SortAll(batches: seq<seq<BatchItem>>) returns (sorted: seq<seq<BatchItem>>)
    requires forall k :: 0 <= k < |batches| ==> NoDuplicates(batches[k])
    ensures |sorted| == |batches|
    ensures forall k :: 0 <= k < |sorted| ==>
              Sorted(sorted[k]) && NoDuplicates(sorted[k]) && Elements(sorted[k]) == Elements(batches[k]) && |sorted[k]| == |batches[k]|
  {
    sorted := [];
    for k := 0 to |batches|
      invariant |sorted| == k
      invariant forall j :: 0 <= j < k ==>
                  Sorted(sorted[j]) && NoDuplicates(sorted[j]) && Elements(sorted[j]) == Elements(batches[j]) && |sorted[j]| == |batches[j]|
    {
      var batch := Sort(batches[k]);
      sorted := sorted + [batch];
    }
  }

  class PrepareBuild {
    var batches: seq<seq<string>>
    var cyclicLeftovers: seq<string>
    var warnings: seq<string>

    constructor ()
      ensures batches == [] && cyclicLeftovers == [] && warnings == []
    {
      batches, cyclicLeftovers, warnings := [], [], [];
    }

    method AddBatchesToResult(newBatches: seq<seq<BatchItem>>, leftovers: seq<BatchItem>)
      modifies this`batches, this`cyclicLeftovers
      ensures batches == old(batches) + NamesOf(newBatches) && cyclicLeftovers == old(cyclicLeftovers) + Names(leftovers)
    {
      batches := batches + NamesOf(newBatches);
      cyclicLeftovers := cyclicLeftovers + Names(leftovers);
    }

    method ComputeBatches(repos: Repositories, items: set<BatchItem>)
      returns (sorted: seq<seq<BatchItem>>, leftovers: seq<BatchItem>)
      modifies this, items
      requires AllFresh(items) && batches == [] && cyclicLeftovers == []
      ensures AllResolved(repos, items) && IsPlanFor(items, sorted, leftovers)
      ensures batches == NamesOf(sorted) && cyclicLeftovers == Names(leftovers)
      ensures |warnings| > |old(warnings)| <==> leftovers != []
    {
      hide AllResolved, IsPlanFor;
      sorted, leftovers := FindNeedsAndPlan(repos, items);
      if leftovers != [] {
        warnings := warnings + ["Dependency cycles have been detected."];
      }
      AddBatchesToResult(sorted, leftovers);
    }
  }

  predicate AllFresh(items: set<BatchItem>)
    reads items
  {
    forall item :: item in items ==> item.neededItems == map[] && item.missingDependencies == [] && !item.done
  }

  ghost predicate AllResolved(repos: Repositories, items: set<BatchItem>)
    reads items`neededItems, items`missingDependencies
  {
    forall item :: item in items ==> item.Resolved(repos, items)
  }

  ghost predicate IsPlanFor(items: set<BatchItem>, batches: seq<seq<BatchItem>>, leftovers: seq<BatchItem>)
    reads items`neededItems
  {
    && WellFormed(GraphOf(items)) && IsBatchPlan(GraphOf(items), batches, leftovers)
    && (forall k :: 0 <= k < |batches| ==> Sorted(batches[k])) && Sorted(leftovers)
  }

  /** The plan is a function of the needed items: neither rounds nor batches depend on the order in which maps are gone through. */
  lemma PlanIsUnique(items: set<BatchItem>, batches: seq<seq<BatchItem>>, leftovers: seq<BatchItem>,
                     otherBatches: seq<seq<BatchItem>>, otherLeftovers: seq<BatchItem>)
    requires IsPlanFor(items, batches, leftovers) && IsPlanFor(items, otherBatches, otherLeftovers) && Distinguishable(items)
    ensures batches == otherBatches && leftovers == otherLeftovers
  {
    hide Layer, Built, Sorted, NoDuplicates, WellFormed, Distinguishable, SortBatch;
    var g := GraphOf(items);
    assert g.Keys == items;
    NoMoreRounds(g, batches, leftovers, otherBatches, otherLeftovers);
    NoMoreRounds(g, otherBatches, otherLeftovers, batches, leftovers);
    forall k | 0 <= k < |batches| ensures batches[k] == otherBatches[k] {
      LayerWithin(g, k);
      DistinguishableWithin(items, Elements(batches[k]));
      SortedIsUnique(batches[k], otherBatches[k]);
    }
    DistinguishableWithin(items, Elements(leftovers));
    SortedIsUnique(leftovers, otherLeftovers);
  }

  lemma DistinguishableWithin(items: set<BatchItem>, some: set<BatchItem>)
    requires Distinguishable(items) && some <= items
    ensures Distinguishable(some)
  {
  }

  lemma LayerWithin(g: Graph<BatchItem>, k: nat)
    ensures Layer(g, Built(g, k)) <= g.Keys
  {
  }

  lemma NoMoreRounds(g: Graph<BatchItem>, batches: seq<seq<BatchItem>>, leftovers: seq<BatchItem>,
                     otherBatches: seq<seq<BatchItem>>, otherLeftovers: seq<BatchItem>)
    requires IsBatchPlan(g, batches, leftovers) && IsBatchPlan(g, otherBatches, otherLeftovers)
    ensures |otherBatches| <= |batches|
  {
    if |batches| < |otherBatches| {
      LayerIsNotEmpty(g, otherBatches, |batches|);
    }
  }

  lemma LayerIsNotEmpty(g: Graph<BatchItem>, batches: seq<seq<BatchItem>>, k: nat)
    requires AreLayers(g, batches) && k < |batches|
    ensures Layer(g, Built(g, k)) != {}
  {
    assert batches[k][0] in Elements(batches[k]);
  }

  /** Needed items first, then the layers, then the leftovers. */
  method FindNeedsAndPlan(repos: Repositories, items: set<BatchItem>)
    returns (sorted: seq<seq<BatchItem>>, leftovers: seq<BatchItem>)
    modifies items
    requires AllFresh(items)
    ensures AllResolved(repos, items) && IsPlanFor(items, sorted, leftovers)
  {
    DetermineAllNeededItems(repos, items);
    ResolvedIsWellFormed(repos, items);
    sorted, leftovers := PlanBatches(items);
  }

  /** Batches and leftovers, each sorted, once the needed items are known. */
  method PlanBatches(items: set<BatchItem>) returns (sorted: seq<seq<BatchItem>>, leftovers: seq<BatchItem>)
    modifies items`done
    requires WellFormed(GraphOf(items)) && DoneOf(items) == {}
    ensures IsPlanFor(items, sorted, leftovers)
  {
    hide *;
    var unsorted := PeelLayers(items);
    PeeledHaveNoDuplicates(GraphOf(items), DoneOf(items), unsorted);
    leftovers := NotDone(items);
    sorted := SortAll(unsorted);
    leftovers := Sort(leftovers);
    SortedPlan(items, unsorted, sorted, leftovers);
  }

  lemma PeeledHaveNoDuplicates(g: Graph<BatchItem>, done: set<BatchItem>, batches: seq<seq<BatchItem>>)
    requires Peeled(g, done, batches)
    ensures forall k :: 0 <= k < |batches| ==> NoDuplicates(batches[k])
  {
  }

  /** Sorting the batches and the leftovers does not change what they hold. */
  lemma SortedPlan(items: set<BatchItem>, unsorted: seq<seq<BatchItem>>, sorted: seq<seq<BatchItem>>, leftovers: seq<BatchItem>)
    requires WellFormed(GraphOf(items))
    requires Peeled(GraphOf(items), DoneOf(items), unsorted) && Layer(GraphOf(items), DoneOf(items)) == {}
    requires |sorted| == |unsorted| && forall k :: 0 <= k < |sorted| ==>
               Sorted(sorted[k]) && NoDuplicates(sorted[k]) && Elements(sorted[k]) == Elements(unsorted[k]) && |sorted[k]| == |unsorted[k]|
    requires Sorted(leftovers) && NoDuplicates(leftovers) && Elements(leftovers) == items - DoneOf(items)
    ensures IsPlanFor(items, sorted, leftovers)
  {
    hide WellFormed, Sorted, NoDuplicates, Layer, Elements;
    assert GraphOf(items).Keys == items;
  }

  method DetermineAllNeededItems(repos: Repositories, items: set<BatchItem>)
    modifies items`neededItems, items`missingDependencies
    requires AllFresh(items)
    ensures AllResolved(repos, items)
  {
    var rest := items;
    while rest != {}
      invariant rest <= items
      invariant forall item :: item in rest ==> item.neededItems == map[] && item.missingDependencies == []
      invariant forall item :: item in items - rest ==> item.Resolved(repos, items)
      decreases rest
    {
      var item :| item in rest;
      rest := rest - {item};
      var _ := item.DetermineNeededItems(repos, items);
    }
  }

  /** No item is recorded as needed by itself, and needed items and alternatives are items to be built. */
  lemma ResolvedIsWellFormed(repos: Repositories, items: set<BatchItem>)
    requires AllResolved(repos, items)
    ensures WellFormed(GraphOf(items))
  {
    var g := GraphOf(items);
    forall x, y | x in g && y in g[x] ensures NeedWithin(g, x, y) {
      assert x.Resolved(repos, items);
      assert x.Justified(repos, items, x.Reach(repos, items), y, x.neededItems[y]);
    }
  }
}

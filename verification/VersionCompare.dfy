/**
 * Version part comparison. The original walks two NUL-terminated character arrays with four pointers;
 * here a pointer is an index and the terminator is readable at index |s|, so that Dafny's bounds checks
 * say that no pointer leaves its array. The specification is lexicographic comparison of segments.
 */
module VersionCompare {

  datatype PartComparison = Equal | Newer | Older

  function At(s: string, i: nat): char
    requires i <= |s|
  {
    if i < |s| then s[i] else '\0'
  }

  predicate IsDigit(c: char) {
    '0' <= c <= '9'
  }

  predicate IsAlphanumeric(c: char) {
    'a' <= c <= 'z' || 'A' <= c <= 'Z' || IsDigit(c)
  }

  predicate IsPkgRelChar(c: char) {
    IsAlphanumeric(c) || c == '.'
  }

  // ---------------------------------------------------------------- specification

  /** Where the run of alphanumeric characters starting at `pos` ends. */
  function SegmentEnd(s: string, pos: nat): (end: nat)
    requires pos <= |s|
    ensures pos <= end <= |s| && !IsAlphanumeric(At(s, end))
    ensures forall i :: pos <= i < end ==> IsAlphanumeric(s[i])
    decreases |s| - pos
  {
    if IsAlphanumeric(At(s, pos)) then SegmentEnd(s, pos + 1) else pos
  }

  /** The alphanumeric segments from `pos` on, split at every other character up to the terminator. */
  function SegmentsFrom(s: string, pos: nat): (segments: seq<string>)
    requires pos <= |s|
    ensures segments != []
    decreases |s| - pos
  {
    var end := SegmentEnd(s, pos);
    [s[pos..end]] + if At(s, end) == '\0' then [] else SegmentsFrom(s, end + 1)
  }

  predicate HasEpoch(s: string) {
    At(s, SegmentEnd(s, 0)) == ':'
  }

  function TrimZeros(segment: string): string {
    if segment != "" && segment[0] == '0' then TrimZeros(segment[1..]) else segment
  }

  function CharOrder(a: string, b: string): PartComparison
    requires |a| == |b|
  {
    if a == "" then Equal
    else if a[0] > b[0] then Newer
    else if a[0] < b[0] then Older
    else CharOrder(a[1..], b[1..])
  }

  /** The longer segment is newer; leading zeros do not count. */
  function SegmentOrder(a: string, b: string): PartComparison {
    var x, y := TrimZeros(a), TrimZeros(b);
    if |x| > |y| then Newer else if |x| < |y| then Older else CharOrder(x, y)
  }

  function SegmentsOrder(a: seq<string>, b: seq<string>): PartComparison {
    if a == [] && b == [] then Equal
    else if b == [] then Newer
    else if a == [] then Older
    else if SegmentOrder(a[0], b[0]) != Equal then SegmentOrder(a[0], b[0])
    else SegmentsOrder(a[1..], b[1..])
  }

  /** A part with an epoch is newer than one without; otherwise the segments decide. */
  function PartOrder(a: string, b: string): PartComparison {
    if HasEpoch(a) && !HasEpoch(b) then Newer
    else if HasEpoch(b) && !HasEpoch(a) then Older
    else SegmentsOrder(SegmentsFrom(a, 0), SegmentsFrom(b, 0))
  }

  /** Only '.' and alphanumeric characters between `pos` and the terminator. */
  predicate OnlyPkgRel(s: string, pos: nat)
    requires pos <= |s|
    decreases |s| - pos
  {
    At(s, pos) == '\0' || (IsPkgRelChar(s[pos]) && OnlyPkgRel(s, pos + 1))
  }

  /** `a` is `b` up to order-equality, followed by a package release that `b` does not mention. */
  ghost predicate AddsPkgRel(a: string, b: string) {
    exists dash :: 0 <= dash < |a| && a[dash] == '-' && OnlyPkgRel(a, dash + 1) && PartOrder(a[..dash], b) == Equal
  }

  /** The order with or without tolerating a package release that only the first part mentions. */
  ghost function Order(a: string, b: string, allowImplicitPkgRel: bool): PartComparison {
    if allowImplicitPkgRel && AddsPkgRel(a, b) then Equal else PartOrder(a, b)
  }

  // ---------------------------------------------------------------- the pointer loops

  method FirstNonAlphanumericCharacter(s: string, start: nat, end: nat) returns (pos: nat)
    requires start <= |s| && (end == |s| || end < start)
    ensures pos == SegmentEnd(s, start)
  {
    pos := start;
    while pos != end
      invariant start <= pos <= |s| && (end == |s| || end < start)
      invariant SegmentEnd(s, pos) == SegmentEnd(s, start)
      decreases |s| - pos
    {
      if !IsAlphanumeric(At(s, pos)) {
        return;
      }
      pos := pos + 1;
    }
  }

  method CompareSegments(s1: string, start1: nat, end1: nat, s2: string, start2: nat, end2: nat) returns (res: PartComparison)
    requires start1 <= end1 <= |s1| && start2 <= end2 <= |s2|
    ensures res == SegmentOrder(s1[start1..end1], s2[start2..end2])
  {
    var pos1, pos2 := start1, start2;
    while pos1 != end1 && s1[pos1] == '0'
      invariant start1 <= pos1 <= end1
      invariant TrimZeros(s1[pos1..end1]) == TrimZeros(s1[start1..end1])
    {
      assert s1[pos1..end1][1..] == s1[pos1 + 1..end1];
      pos1 := pos1 + 1;
    }
    while pos2 != end2 && s2[pos2] == '0'
      invariant start2 <= pos2 <= end2
      invariant TrimZeros(s2[pos2..end2]) == TrimZeros(s2[start2..end2])
    {
      assert s2[pos2..end2][1..] == s2[pos2 + 1..end2];
      pos2 := pos2 + 1;
    }
    if end1 - pos1 > end2 - pos2 {
      return Newer;
    } else if end2 - pos2 > end1 - pos1 {
      return Older;
    }
    ghost var x, y := s1[pos1..end1], s2[pos2..end2];
    while pos1 != end1
      invariant pos1 <= end1 && pos2 <= end2 && end1 - pos1 == end2 - pos2
      invariant CharOrder(s1[pos1..end1], s2[pos2..end2]) == CharOrder(x, y)
    {
      assert s1[pos1..end1][1..] == s1[pos1 + 1..end1] && s2[pos2..end2][1..] == s2[pos2 + 1..end2];
      if s1[pos1] > s2[pos2] {
        return Newer;
      } else if s2[pos2] > s1[pos1] {
        return Older;
      }
      pos1, pos2 := pos1 + 1, pos2 + 1;
    }
    return Equal;
  }

  /** In the second and later rounds the end pointers lie before the start pointers: only the terminator stops the scan. */
  method CompareParts(part1: string, part2: string, allowImplicitPkgRel: bool) returns (res: PartComparison)
    ensures res == Order(part1, part2, allowImplicitPkgRel)
  {
    hide Order, AddsPkgRel, PartOrder, SegmentOrder, OnlyPkgRel, SegmentsFrom, SegmentsOrder, SegmentEnd, Walk, HasEpoch;
    var pos1: nat, pos2: nat := 0, 0;
    var end1: nat, end2: nat := |part1|, |part2|;
    var first := true;
    ghost var walk := Walk(part1, 0, part2, 0, allowImplicitPkgRel);
    WalkIsOrder(part1, part2, allowImplicitPkgRel);
    while true
      invariant pos1 <= |part1| && (end1 == |part1| || end1 < pos1)
      invariant pos2 <= |part2| && (end2 == |part2| || end2 < pos2)
      invariant first ==> pos1 == 0 && pos2 == 0
      invariant !first ==> HasEpoch(part1) == HasEpoch(part2)
      invariant Walk(part1, pos1, part2, pos2, allowImplicitPkgRel) == walk
      decreases |part1| - pos1
    {
      WalkStep(part1, pos1, part2, pos2, allowImplicitPkgRel);
      end1 := FirstNonAlphanumericCharacter(part1, pos1, end1);
      end2 := FirstNonAlphanumericCharacter(part2, pos2, end2);
      if first {
        var part1IsEpoch := At(part1, end1) == ':';
        var part2IsEpoch := At(part2, end2) == ':';
        if part1IsEpoch && !part2IsEpoch {
          return Newer;
        } else if part2IsEpoch && !part1IsEpoch {
          return Older;
        }
      }
      var segmentComparison := CompareSegments(part1, pos1, end1, part2, pos2, end2);
      if segmentComparison != Equal {
        return segmentComparison;
      }
      if At(part1, end1) != '\0' && At(part2, end2) != '\0' {
        pos1, pos2 := end1 + 1, end2 + 1;
      } else if At(part1, end1) != '\0' {
        if allowImplicitPkgRel && At(part1, end1) == '-' {
          pos1 := SkipPkgRel(part1, end1);
          if At(part1, pos1) == '\0' {
            return Equal;
          }
        }
        return Newer;
      } else if At(part2, end2) != '\0' {
        return Older;
      } else {
        return Equal;
      }
      first := false;
    }
  }

  /** The inner loop over a trailing package release; its bound `dash` is never met. */
  method SkipPkgRel(s: string, dash: nat) returns (pos: nat)
    requires dash < |s|
    ensures pos <= |s| && (At(s, pos) == '\0' <==> OnlyPkgRel(s, dash + 1))
  {
    pos := dash + 1;
    while pos != dash
      invariant dash < pos <= |s|
      invariant OnlyPkgRel(s, pos) == OnlyPkgRel(s, dash + 1)
      decreases |s| - pos
    {
      if !IsPkgRelChar(At(s, pos)) {
        return;
      }
      pos := pos + 1;
    }
  }

  // ---------------------------------------------------------------- the loop as a recursion

  function Walk(s: string, p: nat, t: string, q: nat, implicit: bool): PartComparison
    requires p <= |s| && q <= |t|
    decreases |s| - p
  {
    var e, f := SegmentEnd(s, p), SegmentEnd(t, q);
    var order := SegmentOrder(s[p..e], t[q..f]);
    if order != Equal then order
    else if At(s, e) != '\0' && At(t, f) != '\0' then Walk(s, e + 1, t, f + 1, implicit)
    else if At(s, e) != '\0' then
      if implicit && At(s, e) == '-' && OnlyPkgRel(s, e + 1) then Equal else Newer
    else if At(t, f) != '\0' then Older
    else Equal
  }

  lemma WalkStep(s: string, p: nat, t: string, q: nat, implicit: bool)
    requires p <= |s| && q <= |t|
    ensures var e, f := SegmentEnd(s, p), SegmentEnd(t, q);
            var order := SegmentOrder(s[p..e], t[q..f]);
            Walk(s, p, t, q, implicit) ==
              if order != Equal then order
              else if At(s, e) != '\0' && At(t, f) != '\0' then Walk(s, e + 1, t, f + 1, implicit)
              else if At(s, e) != '\0' then if implicit && At(s, e) == '-' && OnlyPkgRel(s, e + 1) then Equal else Newer
              else if At(t, f) != '\0' then Older
              else Equal
    ensures HasEpoch(s) <==> At(s, SegmentEnd(s, 0)) == ':'
    ensures HasEpoch(t) <==> At(t, SegmentEnd(t, 0)) == ':'
  {
  }

  lemma SegmentsSplit(s: string, p: nat)
    requires p <= |s|
    ensures var e, segments := SegmentEnd(s, p), SegmentsFrom(s, p);
            segments[0] == s[p..e] && segments[1..] == if At(s, e) == '\0' then [] else SegmentsFrom(s, e + 1)
  {
  }

  lemma {:induction false} WalkIsSegmentsOrder(s: string, p: nat, t: string, q: nat)
    requires p <= |s| && q <= |t|
    ensures Walk(s, p, t, q, false) == SegmentsOrder(SegmentsFrom(s, p), SegmentsFrom(t, q))
    decreases |s| - p
  {
    hide SegmentOrder, OnlyPkgRel, SegmentEnd, SegmentsFrom, IsAlphanumeric;
    SegmentsSplit(s, p);
    SegmentsSplit(t, q);
    if BothContinue(s, p, t, q) {
      WalkIsSegmentsOrder(s, SegmentEnd(s, p) + 1, t, SegmentEnd(t, q) + 1);
    }
  }

  /** Allowing an implicit package release only ever turns "newer" into "equal". */
  ghost predicate DashAfter(s: string, p: nat, t: string, q: nat)
    requires p <= |s| && q <= |t|
  {
    exists dash :: p <= dash < |s| && DashAt(s, p, t, q, dash)
  }

  ghost predicate DashAt(s: string, p: nat, t: string, q: nat, dash: nat)
    requires p <= dash < |s| && q <= |t|
  {
    s[dash] == '-' && OnlyPkgRel(s, dash + 1) && Walk(s[..dash], p, t, q, false) == Equal
  }

  lemma {:induction false} SegmentEndOfPrefix(s: string, p: nat, n: nat)
    requires p <= n <= |s|
    ensures SegmentEnd(s[..n], p) == if SegmentEnd(s, p) <= n then SegmentEnd(s, p) else n
    decreases n - p
  {
    if p < n && IsAlphanumeric(s[p]) {
      SegmentEndOfPrefix(s, p + 1, n);
    }
  }

  lemma {:induction false} WalkWithPkgRel(s: string, p: nat, t: string, q: nat)
    requires p <= |s| && q <= |t|
    ensures Walk(s, p, t, q, true) == if DashAfter(s, p, t, q) then Equal else Walk(s, p, t, q, false)
    decreases |s| - p
  {
    hide SegmentOrder, OnlyPkgRel, SegmentEnd, DashAfter, IsAlphanumeric;
    if BothContinue(s, p, t, q) {
      var e, f := SegmentEnd(s, p), SegmentEnd(t, q);
      WalkWithPkgRel(s, e + 1, t, f + 1);
      DashAfterStep(s, p, t, q);
    } else {
      DashAfterEnd(s, p, t, q);
    }
  }

  predicate BothContinue(s: string, p: nat, t: string, q: nat)
    requires p <= |s| && q <= |t|
  {
    var e, f := SegmentEnd(s, p), SegmentEnd(t, q);
    SegmentOrder(s[p..e], t[q..f]) == Equal && At(s, e) != '\0' && At(t, f) != '\0'
  }

  lemma DashAfterStep(s: string, p: nat, t: string, q: nat)
    requires p <= |s| && q <= |t| && BothContinue(s, p, t, q)
    ensures DashAfter(s, p, t, q) <==> DashAfter(s, SegmentEnd(s, p) + 1, t, SegmentEnd(t, q) + 1)
  {
    var e, f := SegmentEnd(s, p), SegmentEnd(t, q);
    if DashAfter(s, p, t, q) {
      var dash :| p <= dash < |s| && DashAt(s, p, t, q, dash);
      DashStep(s, p, t, q, dash);
    }
    if DashAfter(s, e + 1, t, f + 1) {
      var dash :| e + 1 <= dash < |s| && DashAt(s, e + 1, t, f + 1, dash);
      DashStep(s, p, t, q, dash);
    }
  }

  lemma DashAfterEnd(s: string, p: nat, t: string, q: nat)
    requires p <= |s| && q <= |t| && !BothContinue(s, p, t, q)
    ensures DashAfter(s, p, t, q) ==> Walk(s, p, t, q, true) == Equal
    ensures Walk(s, p, t, q, true) != Walk(s, p, t, q, false) ==> DashAfter(s, p, t, q)
  {
    if DashAfter(s, p, t, q) {
      var dash :| p <= dash < |s| && DashAt(s, p, t, q, dash);
      DashAtEnd(s, p, t, q, dash);
    }
    if Walk(s, p, t, q, true) != Walk(s, p, t, q, false) {
      DashAtEnd(s, p, t, q, SegmentEnd(s, p));
    }
  }

  lemma DashAtEnd(s: string, p: nat, t: string, q: nat, dash: nat)
    requires p <= dash < |s| && q <= |t|
    requires !BothContinue(s, p, t, q)
    ensures DashAt(s, p, t, q, dash) ==> Walk(s, p, t, q, true) == Equal
    ensures dash == SegmentEnd(s, p) && Walk(s, p, t, q, true) != Walk(s, p, t, q, false) ==> DashAt(s, p, t, q, dash)
  {
    var e := SegmentEnd(s, p);
    SegmentEndOfPrefix(s, p, dash);
    if e <= dash {
      assert s[..dash][p..e] == s[p..e];
    } else {
      assert IsAlphanumeric(s[dash]);
    }
  }

  lemma DashStep(s: string, p: nat, t: string, q: nat, dash: nat)
    requires p <= dash < |s| && q <= |t|
    requires BothContinue(s, p, t, q)
    ensures var e, f := SegmentEnd(s, p), SegmentEnd(t, q);
            DashAt(s, p, t, q, dash) <==> e + 1 <= dash && DashAt(s, e + 1, t, f + 1, dash)
  {
    var e, f := SegmentEnd(s, p), SegmentEnd(t, q);
    SegmentEndOfPrefix(s, p, dash);
    if e <= dash {
      assert s[..dash][p..e] == s[p..e];
    } else {
      assert IsAlphanumeric(s[dash]);
    }
  }

  lemma DashAtIsPkgRel(a: string, b: string, dash: nat)
    requires dash < |a| && a[dash] == '-'
    ensures PartOrder(a[..dash], b) == Equal <==> HasEpoch(a) == HasEpoch(b) && Walk(a[..dash], 0, b, 0, false) == Equal
  {
    SegmentEndOfPrefix(a, 0, dash);
    assert SegmentEnd(a, 0) <= dash by { assert !IsAlphanumeric(a[dash]); }
    WalkIsSegmentsOrder(a[..dash], 0, b, 0);
  }

  lemma WalkIsOrder(a: string, b: string, implicit: bool)
    ensures Order(a, b, implicit) ==
            if HasEpoch(a) == HasEpoch(b) then Walk(a, 0, b, 0, implicit) else if HasEpoch(a) then Newer else Older
  {
    WalkIsSegmentsOrder(a, 0, b, 0);
    WalkWithPkgRel(a, 0, b, 0);
    forall dash | 0 <= dash < |a| && a[dash] == '-'
      ensures PartOrder(a[..dash], b) == Equal <==> HasEpoch(a) == HasEpoch(b) && Walk(a[..dash], 0, b, 0, false) == Equal
    {
      DashAtIsPkgRel(a, b, dash);
    }
    if HasEpoch(a) == HasEpoch(b) {
      assert forall dash :: 0 <= dash < |a| ==>
        (DashAt(a, 0, b, 0, dash) <==> a[dash] == '-' && OnlyPkgRel(a, dash + 1) && PartOrder(a[..dash], b) == Equal);
    }
  }
}

/**
 * What the version order promises to its callers: it is a total preorder, on digits it is the numeric
 * order, and version constraints behave accordingly.
 */
module VersionOrder {
  import opened VersionCompare

  // ---------------------------------------------------------------- total preorder

  function Flip(order: PartComparison): PartComparison {
    match order
    case Equal => Equal
    case Newer => Older
    case Older => Newer
  }

  /** How the order of a and c follows from those of a, b and b, c: the law of a total preorder. */
  predicate Composes(ab: PartComparison, bc: PartComparison, ac: PartComparison) {
    && (ab == Equal ==> ac == bc)
    && (bc == Equal ==> ac == ab)
    && (ab == bc ==> ac == ab)
  }

  lemma {:induction false} CharOrderLaws(a: string, b: string, c: string)
    requires |a| == |b| == |c|
    ensures CharOrder(b, a) == Flip(CharOrder(a, b))
    ensures CharOrder(a, b) == Equal <==> a == b
    ensures Composes(CharOrder(a, b), CharOrder(b, c), CharOrder(a, c))
  {
    if a != "" {
      CharOrderLaws(a[1..], b[1..], c[1..]);
      assert a == [a[0]] + a[1..] && b == [b[0]] + b[1..];
    }
  }

  lemma SegmentOrderLaws(a: string, b: string, c: string)
    ensures SegmentOrder(b, a) == Flip(SegmentOrder(a, b))
    ensures SegmentOrder(a, b) == Equal <==> TrimZeros(a) == TrimZeros(b)
    ensures Composes(SegmentOrder(a, b), SegmentOrder(b, c), SegmentOrder(a, c))
  {
    var x, y, z := TrimZeros(a), TrimZeros(b), TrimZeros(c);
    if |x| == |y| {
      CharOrderLaws(x, y, if |z| == |y| then z else y);
    }
  }

  function TrimAll(segments: seq<string>): seq<string> {
    seq(|segments|, i requires 0 <= i < |segments| => TrimZeros(segments[i]))
  }

  lemma TrimAllSplit(a: seq<string>)
    requires a != []
    ensures TrimAll(a)[0] == TrimZeros(a[0]) && TrimAll(a)[1..] == TrimAll(a[1..])
    ensures TrimAll(a) == [TrimZeros(a[0])] + TrimAll(a[1..])
  {
  }

  lemma {:induction false} SegmentsOrderLaws(a: seq<string>, b: seq<string>, c: seq<string>)
    ensures SegmentsOrder(b, a) == Flip(SegmentsOrder(a, b))
    ensures SegmentsOrder(a, b) == Equal <==> TrimAll(a) == TrimAll(b)
    ensures Composes(SegmentsOrder(a, b), SegmentsOrder(b, c), SegmentsOrder(a, c))
    decreases |a| + |b| + |c|
  {
    if a != [] && b != [] {
      SegmentOrderLaws(a[0], b[0], if c != [] then c[0] else b[0]);
      SegmentsOrderLaws(a[1..], b[1..], if c != [] then c[1..] else c);
      TrimAllSplit(a);
      TrimAllSplit(b);
    }
  }

  /** Two parts are equal exactly if both or neither have an epoch and their zero-trimmed segments coincide. */
  lemma PartOrderLaws(a: string, b: string, c: string)
    ensures PartOrder(b, a) == Flip(PartOrder(a, b))
    ensures PartOrder(a, b) == Equal <==>
            HasEpoch(a) == HasEpoch(b) && TrimAll(SegmentsFrom(a, 0)) == TrimAll(SegmentsFrom(b, 0))
    ensures Composes(PartOrder(a, b), PartOrder(b, c), PartOrder(a, c))
  {
    SegmentsOrderLaws(SegmentsFrom(a, 0), SegmentsFrom(b, 0), SegmentsFrom(c, 0));
  }

  // ---------------------------------------------------------------- what is compared

  predicate IsLetterOrDigit(c: char) {
    'a' <= c <= 'z' || 'A' <= c <= 'Z' || '0' <= c <= '9'
  }

  /** A part is split at everything but letters and digits. */
  lemma SplitAtSeparator(segment: string, separator: char, rest: string)
    requires forall c :: c in segment ==> IsLetterOrDigit(c)
    requires !IsLetterOrDigit(separator) && separator != '\0'
    ensures SegmentsFrom(segment, 0) == [segment]
    ensures SegmentsFrom(segment + [separator] + rest, 0) == [segment] + SegmentsFrom(rest, 0)
    ensures HasEpoch(segment + [separator] + rest) <==> separator == ':'
    ensures !HasEpoch(segment)
  {
    var s, n := segment + [separator] + rest, |segment|;
    RunEndsAt(segment, 0, n);
    RunEndsAt(s, 0, n);
    assert s[0..n] == segment && segment[0..n] == segment;
    SegmentsOfSuffix(segment + [separator], rest, 0);
    assert s == (segment + [separator]) + rest;
  }

  lemma {:induction false} RunEndsAt(s: string, pos: nat, end: nat)
    requires pos <= end <= |s| && forall i :: pos <= i < end ==> IsLetterOrDigit(s[i])
    requires !IsLetterOrDigit(At(s, end))
    ensures SegmentEnd(s, pos) == end
    decreases end - pos
  {
    if pos < end {
      RunEndsAt(s, pos + 1, end);
    }
  }

  lemma {:induction false} EndOfSuffix(front: string, s: string, pos: nat)
    requires pos <= |s|
    ensures SegmentEnd(front + s, |front| + pos) == |front| + SegmentEnd(s, pos)
    decreases |s| - pos
  {
    if pos < |s| && IsAlphanumeric(s[pos]) {
      EndOfSuffix(front, s, pos + 1);
    }
  }

  lemma {:induction false} SegmentsOfSuffix(front: string, s: string, pos: nat)
    requires pos <= |s|
    ensures SegmentsFrom(front + s, |front| + pos) == SegmentsFrom(s, pos)
    decreases |s| - pos
  {
    hide SegmentEnd;
    EndOfSuffix(front, s, pos);
    var all, end := front + s, SegmentEnd(s, pos);
    assert all[|front| + pos..|front| + end] == s[pos..end] && At(all, |front| + end) == At(s, end);
    if At(s, end) != '\0' {
      SegmentsOfSuffix(front, s, end + 1);
    }
  }

  /** The first segments that differ decide; if there are none, the part with more segments is newer. */
  lemma {:induction false} FirstDifferenceDecides(a: seq<string>, b: seq<string>, n: nat)
    requires n <= |a| && n <= |b| && forall i :: 0 <= i < n ==> SegmentOrder(a[i], b[i]) == Equal
    ensures n < |a| && n < |b| && SegmentOrder(a[n], b[n]) != Equal ==> SegmentsOrder(a, b) == SegmentOrder(a[n], b[n])
    ensures n == |a| == |b| ==> SegmentsOrder(a, b) == Equal
    ensures n == |b| < |a| ==> SegmentsOrder(a, b) == Newer
    ensures n == |a| < |b| ==> SegmentsOrder(a, b) == Older
  {
    if n > 0 {
      FirstDifferenceDecides(a[1..], b[1..], n - 1);
    }
  }

  /** Between segments of the same length without leading zeros the first characters that differ decide. */
  lemma {:induction false} FirstCharacterDecides(a: string, b: string, n: nat)
    requires |a| == |b| && n < |a| && a[..n] == b[..n] && a[n] != b[n] && a[0] != '0' && b[0] != '0'
    ensures SegmentOrder(a, b) == if a[n] > b[n] then Newer else Older
  {
    CharactersDecide(a, b, n);
  }

  lemma {:induction false} CharactersDecide(a: string, b: string, n: nat)
    requires |a| == |b| && n < |a| && a[..n] == b[..n] && a[n] != b[n]
    ensures CharOrder(a, b) == if a[n] > b[n] then Newer else Older
  {
    if n > 0 {
      assert a[0] == a[..n][0] && b[0] == b[..n][0];
      assert a[1..][..n - 1] == a[..n][1..] && b[1..][..n - 1] == b[..n][1..];
      CharactersDecide(a[1..], b[1..], n - 1);
    }
  }

  /** What has an epoch is newer than what has none, whatever else it says. */
  lemma EpochDecides(epoch: string, rest: string, b: string)
    requires forall c :: c in epoch ==> IsLetterOrDigit(c)
    requires ':' !in b
    ensures PartOrder(epoch + ":" + rest, b) == Newer && PartOrder(b, epoch + ":" + rest) == Older
  {
    SplitAtSeparator(epoch, ':', rest);
    assert epoch + ":" + rest == epoch + [':'] + rest;
  }

  // ---------------------------------------------------------------- numbers

  predicate IsNumber(s: string) {
    forall i :: 0 <= i < |s| ==> IsDigit(s[i])
  }

  function Digit(c: char): nat
    requires IsDigit(c)
  {
    (c - '0') as int
  }

  function Pow10(n: nat): nat {
    if n == 0 then 1 else 10 * Pow10(n - 1)
  }

  /** The number a digit string denotes; the empty string denotes zero. */
  function Value(s: string): nat
    requires IsNumber(s)
  {
    if s == "" then 0 else 10 * Value(s[..|s| - 1]) + Digit(s[|s| - 1])
  }

  lemma {:induction false} ValueBelow(s: string)
    requires IsNumber(s)
    ensures Value(s) < Pow10(|s|)
  {
    if s != "" {
      ValueBelow(s[..|s| - 1]);
    }
  }

  lemma {:induction false} ValueWithoutLeadingZero(s: string)
    requires IsNumber(s) && s != "" && s[0] != '0'
    ensures Value(s) >= Pow10(|s| - 1)
  {
    if |s| > 1 {
      ValueWithoutLeadingZero(s[..|s| - 1]);
    }
  }

  lemma {:induction false} LeadingZero(s: string)
    requires IsNumber(s) && s != "" && s[0] == '0'
    ensures Value(s[1..]) == Value(s)
  {
    if |s| > 1 {
      LeadingZero(s[..|s| - 1]);
      assert s[..|s| - 1][1..] == s[1..][..|s| - 2];
    }
  }

  lemma {:induction false} ValueOfTrimmed(s: string)
    requires IsNumber(s)
    ensures var t := TrimZeros(s); IsNumber(t) && Value(t) == Value(s) && (t == "" || t[0] != '0')
  {
    if s != "" && s[0] == '0' {
      LeadingZero(s);
      ValueOfTrimmed(s[1..]);
    }
  }

  lemma {:induction false} Pow10Grows(m: nat, n: nat)
    requires m <= n
    ensures 1 <= Pow10(m) <= Pow10(n)
    decreases n
  {
    if n > 0 {
      Pow10Grows(if m < n then m else n - 1, n - 1);
    }
  }

  function NumberOrder(a: nat, b: nat): PartComparison {
    if a > b then Newer else if a < b then Older else Equal
  }

  lemma {:induction false} CharOrderByPrefix(a: string, b: string)
    requires |a| == |b| > 0
    ensures var n := |a| - 1;
            var order := CharOrder(a[..n], b[..n]);
            CharOrder(a, b) == if order != Equal then order else CharOrder(a[n..], b[n..])
  {
    var n := |a| - 1;
    if n > 0 && a[0] == b[0] {
      CharOrderByPrefix(a[1..], b[1..]);
      assert a[1..][..n - 1] == a[..n][1..] && b[1..][..n - 1] == b[..n][1..];
      assert a[1..][n - 1..] == a[n..] && b[1..][n - 1..] == b[n..];
    } else if n == 0 {
      assert a[n..] == a && b[n..] == b;
    }
  }

  lemma {:induction false} CharOrderIsNumeric(a: string, b: string)
    requires |a| == |b| && IsNumber(a) && IsNumber(b)
    ensures CharOrder(a, b) == NumberOrder(Value(a), Value(b))
  {
    if a != "" {
      var n := |a| - 1;
      CharOrderByPrefix(a, b);
      CharOrderIsNumeric(a[..n], b[..n]);
      assert a[n..] == [a[n]] && b[n..] == [b[n]];
    }
  }

  /** Digit strings of any length are compared as numbers, without converting them. */
  lemma SegmentOrderIsNumeric(a: string, b: string)
    requires IsNumber(a) && IsNumber(b)
    ensures SegmentOrder(a, b) == NumberOrder(Value(a), Value(b))
  {
    var x, y := TrimZeros(a), TrimZeros(b);
    ValueOfTrimmed(a);
    ValueOfTrimmed(b);
    if |x| > |y| {
      LongerIsLarger(x, y);
    } else if |x| < |y| {
      LongerIsLarger(y, x);
    } else {
      CharOrderIsNumeric(x, y);
    }
  }

  lemma LongerIsLarger(x: string, y: string)
    requires IsNumber(x) && IsNumber(y) && |x| > |y| && x[0] != '0'
    ensures Value(x) > Value(y)
  {
    ValueWithoutLeadingZero(x);
    ValueBelow(y);
    Pow10Grows(|y|, |x| - 1);
  }

  /** A version part consisting of digits only is a single segment. */
  lemma NumbersAreSegments(a: string, b: string)
    requires IsNumber(a) && IsNumber(b)
    ensures PartOrder(a, b) == NumberOrder(Value(a), Value(b))
  {
    NumberIsOneSegment(a);
    NumberIsOneSegment(b);
    SegmentOrderIsNumeric(a, b);
    OneSegmentOrder(a, b);
  }

  lemma OneSegmentOrder(a: string, b: string)
    ensures SegmentsOrder([a], [b]) == SegmentOrder(a, b)
  {
    assert [a][1..] == [] && [b][1..] == [];
  }

  lemma NumberIsOneSegment(a: string)
    requires IsNumber(a)
    ensures SegmentEnd(a, 0) == |a| && SegmentsFrom(a, 0) == [a] && !HasEpoch(a)
  {
    assert a[0..|a|] == a;
  }

  // ---------------------------------------------------------------- version constraints

  datatype DependencyMode = Any | EqualTo | GreaterEqual | LessEqual | GreaterThan | LessThan

  /** Whether the version `provided` meets the constraint `mode required`. */
  ghost predicate Satisfies(mode: DependencyMode, required: string, provided: string) {
    var order := Order(provided, required, true);
    match mode
    case Any => true
    case EqualTo => order == Equal
    case GreaterEqual => order != Older
    case GreaterThan => order == Newer
    case LessEqual => order != Newer
    case LessThan => order == Older
  }

  method Matches(mode: DependencyMode, version1: string, version2: string) returns (res: bool)
    ensures res <==> Satisfies(mode, version1, version2)
  {
    if mode == Any {
      return true;
    }
    var order := CompareParts(version2, version1, true);
    match mode {
      case Any =>
      case EqualTo => return order == Equal;
      case GreaterEqual => return order == Equal || order == Newer;
      case GreaterThan => return order == Newer;
      case LessEqual => return order == Equal || order == Older;
      case LessThan => return order == Older;
    }
    return false;
  }

  lemma PkgRelIsNewer(a: string, b: string)
    requires AddsPkgRel(a, b)
    ensures PartOrder(a, b) != Older
  {
    WalkIsOrder(a, b, true);
    WalkIsOrder(a, b, false);
    WalkKeepsOlder(a, 0, b, 0);
  }

  lemma {:induction false} WalkKeepsOlder(s: string, p: nat, t: string, q: nat)
    requires p <= |s| && q <= |t|
    ensures Walk(s, p, t, q, true) == Older <==> Walk(s, p, t, q, false) == Older
    decreases |s| - p
  {
    if BothContinue(s, p, t, q) {
      WalkKeepsOlder(s, SegmentEnd(s, p) + 1, t, SegmentEnd(t, q) + 1);
    }
  }

  /** What every mode asks of a version, where a repetition of the required version with a package release is equal to it. */
  lemma WhatModesMean(required: string, v: string)
    ensures Satisfies(Any, required, v)
    ensures Satisfies(GreaterEqual, required, v) <==> PartOrder(v, required) != Older
    ensures Satisfies(LessThan, required, v) <==> PartOrder(v, required) == Older
    ensures Satisfies(EqualTo, required, v) <==> PartOrder(v, required) == Equal || AddsPkgRel(v, required)
    ensures Satisfies(GreaterThan, required, v) <==> PartOrder(v, required) == Newer && !AddsPkgRel(v, required)
    ensures Satisfies(LessEqual, required, v) <==> PartOrder(v, required) != Newer || AddsPkgRel(v, required)
  {
    if AddsPkgRel(v, required) {
      PkgRelIsNewer(v, required);
    }
  }

  /** Repeating a version with a package release is enough, whatever letters, digits and dots that consists of. */
  lemma RepeatedWithPkgRel(version: string, release: string)
    requires forall c :: c in release ==> IsLetterOrDigit(c) || c == '.'
    ensures AddsPkgRel(version + "-" + release, version)
  {
    var s := version + "-" + release;
    assert s[..|version|] == version && s[|version|] == '-';
    OnlyPkgRelUntilEnd(s, |version| + 1);
    PartOrderLaws(version, version, version);
  }

  lemma {:induction false} OnlyPkgRelUntilEnd(s: string, pos: nat)
    requires pos <= |s| && forall i :: pos <= i < |s| ==> IsLetterOrDigit(s[i]) || s[i] == '.'
    ensures OnlyPkgRel(s, pos)
    decreases |s| - pos
  {
    if pos < |s| {
      OnlyPkgRelUntilEnd(s, pos + 1);
    }
  }

  /** On digit strings of any length the modes compare numbers. */
  lemma ModesCompareNumbers(required: string, v: string)
    requires IsNumber(required) && IsNumber(v)
    ensures Satisfies(GreaterEqual, required, v) <==> Value(v) >= Value(required)
    ensures Satisfies(LessThan, required, v) <==> Value(v) < Value(required)
    ensures Satisfies(EqualTo, required, v) <==> Value(v) == Value(required)
    ensures Satisfies(GreaterThan, required, v) <==> Value(v) > Value(required)
    ensures Satisfies(LessEqual, required, v) <==> Value(v) <= Value(required)
  {
    NumbersAreSegments(v, required);
    forall dash | 0 <= dash < |v| ensures v[dash] != '-' {
      assert IsDigit(v[dash]);
    }
  }

  /** Whatever is at least as new as a version satisfying `>=` satisfies it, too; `<` is closed downward. */
  lemma AtLeastIsClosedUpward(required: string, low: string, high: string)
    requires PartOrder(high, low) != Older
    ensures Satisfies(GreaterEqual, required, low) ==> Satisfies(GreaterEqual, required, high)
    ensures Satisfies(LessThan, required, high) ==> Satisfies(LessThan, required, low)
  {
    PartOrderLaws(high, low, required);
    forall v | AddsPkgRel(v, required) ensures PartOrder(v, required) != Older {
      PkgRelIsNewer(v, required);
    }
  }

  /** `>` is not: it is lost at exactly the newer versions that repeat the required version and add a package release. */
  lemma GreaterThanClosedUpTo(required: string, low: string, high: string)
    requires Satisfies(GreaterThan, required, low) && PartOrder(high, low) != Older
    ensures Satisfies(GreaterThan, required, high) <==> !AddsPkgRel(high, required)
  {
    PartOrderLaws(high, low, required);
  }

  /** `<=` is not closed downward either: it holds for such a repetition, but not for older versions that only add zeros. */
  lemma AtMostClosedDownTo(required: string, low: string, high: string)
    requires Satisfies(LessEqual, required, high) && PartOrder(high, low) != Older
    ensures Satisfies(LessEqual, required, low) <==>
            !(AddsPkgRel(high, required) && PartOrder(low, required) == Newer && !AddsPkgRel(low, required))
  {
    PartOrderLaws(high, low, required);
  }

  /** Of two equal versions, `>=` and `<` hold for both or none; the other modes unless only one of them is such a repetition. */
  lemma EqualVersionsMatchAlike(mode: DependencyMode, required: string, v: string, w: string)
    requires PartOrder(v, w) == Equal
    ensures (Satisfies(mode, required, v) <==> Satisfies(mode, required, w)) <==>
            || mode in {Any, GreaterEqual, LessThan} || PartOrder(v, required) != Newer
            || (AddsPkgRel(v, required) <==> AddsPkgRel(w, required))
  {
    PartOrderLaws(v, w, required);
    forall u | AddsPkgRel(u, required) ensures PartOrder(u, required) != Older {
      PkgRelIsNewer(u, required);
    }
  }

  lemma GreaterThanIsNotClosedUpward()
    ensures Satisfies(GreaterThan, "1", "1.0") && PartOrder("1-0", "1.0") == Equal && !Satisfies(GreaterThan, "1", "1-0")
    ensures Satisfies(LessEqual, "1", "1-0") && Satisfies(EqualTo, "1", "1-0")
    ensures !Satisfies(LessEqual, "1", "1.0") && !Satisfies(EqualTo, "1", "1.0")
  {
    ExampleSegments();
    assert "1-0"[..1] == "1" && "1-0"[1] == '-';
    PartOrderLaws("1", "1", "1.0");
    PartOrderLaws("1-0", "1.0", "1");
    assert AddsPkgRel("1-0", "1");
    forall dash | 0 <= dash < 3 ensures "1.0"[dash] != '-' {
    }
    assert ["1", "0"][1..] == ["0"] && ["1"][1..] == [];
  }

  lemma ExampleSegments()
    ensures SegmentsFrom("1", 0) == ["1"] && SegmentsFrom("1.0", 0) == ["1", "0"] && SegmentsFrom("1-0", 0) == ["1", "0"]
    ensures !HasEpoch("1") && !HasEpoch("1.0") && !HasEpoch("1-0")
  {
    assert "1"[0..1] == "1" && "1.0"[0..1] == "1" && "1-0"[0..1] == "1";
    assert "1.0"[2..3] == "0" && "1-0"[2..3] == "0";
    assert SegmentsFrom("1.0", 2) == ["0"] && SegmentsFrom("1-0", 2) == ["0"];
  }
}

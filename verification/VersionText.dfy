/**
 * Versions and dependencies as text: printing, parsing, and exactly which values survive the round trip.
 */
module VersionText {
  import opened VersionCompare
  import opened VersionOrder

  // ---------------------------------------------------------------- package versions

  datatype PackageVersion = PackageVersion(epoch: string, upstream: string, package: string)

  function VersionToString(v: PackageVersion): string {
    if v.epoch == "" then v.upstream + "-" + v.package else v.epoch + ":" + v.upstream + "-" + v.package
  }

  predicate Contains(s: string, c: char) {
    exists i :: 0 <= i < |s| && s[i] == c
  }

  /** The alphanumeric epoch before ':', and what is behind it. */
  ghost function EpochOf(s: string): string {
    if At(s, SegmentEnd(s, 0)) == ':' then s[..SegmentEnd(s, 0)] else ""
  }

  ghost function RestOf(s: string): string {
    if At(s, SegmentEnd(s, 0)) == ':' then s[SegmentEnd(s, 0) + 1..] else s
  }

  /** The package release is what follows the last '-'. */
  ghost predicate IsSplit(rest: string, upstream: string, package: string) {
    !Contains(package, '-') && if Contains(rest, '-') then rest == upstream + "-" + package else rest == upstream && package == ""
  }

  ghost predicate Denotes(s: string, v: PackageVersion) {
    v.epoch == EpochOf(s) && IsSplit(RestOf(s), v.upstream, v.package)
  }

  method VersionFromString(versionString: string) returns (v: PackageVersion)
    ensures Denotes(versionString, v)
  {
    hide IsSplit, SegmentEnd, EpochOf, RestOf;
    var start, size := 0, |versionString|;
    var epoch, package := "", "";
    var firstNonAlphanumeric := FirstNonAlphanumericCharacter(versionString, 0, |versionString|);
    if At(versionString, firstNonAlphanumeric) == ':' {
      epoch := versionString[..firstNonAlphanumeric];
      size := size - (firstNonAlphanumeric + 1);
      start := firstNonAlphanumeric + 1;
    }
    var end := start + size;
    var dash := LastDash(versionString, start);
    if dash >= start {
      package := versionString[dash + 1..end];
      size := size - (end - dash);
    }
    v := PackageVersion(epoch, versionString[start..start + size], package);
    SplitAtLastDash(versionString, start, dash);
    EpochInFront(versionString, start);
  }

  lemma EpochInFront(s: string, start: nat)
    requires start == if At(s, SegmentEnd(s, 0)) == ':' then SegmentEnd(s, 0) + 1 else 0
    ensures start <= |s| && RestOf(s) == s[start..] && EpochOf(s) == if start == 0 then "" else s[..start - 1]
  {
    hide SegmentEnd;
    assert s[0..] == s;
  }

  /** The loop that searches the package release from the end; start - 1 if there is none. */
  method LastDash(s: string, start: nat) returns (i: int)
    requires start <= |s|
    ensures start - 1 <= i < |s| && (i >= start ==> s[i] == '-')
    ensures forall k :: i < k < |s| ==> s[k] != '-'
  {
    i := |s| - 1;
    while i >= start
      invariant start - 1 <= i < |s|
      invariant forall k :: i < k < |s| ==> s[k] != '-'
    {
      if s[i] == '-' {
        return;
      }
      i := i - 1;
    }
  }

  lemma SplitAtLastDash(s: string, start: nat, dash: int)
    requires start <= |s| && start - 1 <= dash < |s| && (dash >= start ==> s[dash] == '-')
    requires forall k :: dash < k < |s| ==> s[k] != '-'
    ensures dash >= start ==> IsSplit(s[start..], s[start..dash], s[dash + 1..|s|])
    ensures dash < start ==> IsSplit(s[start..], s[start..|s|], "")
  {
    if dash >= start {
      assert s[start..][dash - start] == '-';
      assert s[start..] == s[start..dash] + "-" + s[dash + 1..|s|];
    }
  }

  /** A string denotes only one version, so `Denotes` fixes the parser's result. */
  lemma DenotesIsUnique(s: string, v: PackageVersion, w: PackageVersion)
    requires Denotes(s, v) && Denotes(s, w)
    ensures v == w
  {
    var e := SegmentEnd(s, 0);
    var rest := if At(s, e) == ':' then s[e + 1..] else s;
    if Contains(rest, '-') {
      LastDashIsUnique(v.upstream, v.package, w.upstream, w.package);
    }
  }

  lemma LastDashIsUnique(a: string, b: string, c: string, d: string)
    requires a + "-" + b == c + "-" + d && !Contains(b, '-') && !Contains(d, '-')
    ensures a == c && b == d
  {
    if |a| < |c| {
      EarlierDash(a, b, c, d);
    } else if |c| < |a| {
      EarlierDash(c, d, a, b);
    } else {
      var s := a + "-" + b;
      assert s[..|a|] == a && s[..|c|] == c && s[|a| + 1..] == b && s[|c| + 1..] == d;
    }
  }

  lemma EarlierDash(a: string, b: string, c: string, d: string)
    requires a + "-" + b == c + "-" + d && |a| < |c|
    ensures Contains(b, '-')
  {
    assert (c + "-" + d)[|c|] == '-';
    assert b[|c| - |a| - 1] == (a + "-" + b)[|c|];
  }

  predicate WellFormedVersion(v: PackageVersion) {
    && (forall i :: 0 <= i < |v.epoch| ==> IsAlphanumeric(v.epoch[i]))
    && (v.epoch == "" ==> !HasEpoch(v.upstream))
    && !Contains(v.package, '-')
  }

  /** Printing and parsing restores a version exactly if it is well-formed. */
  lemma VersionRoundTrip(v: PackageVersion)
    ensures Denotes(VersionToString(v), v) <==> WellFormedVersion(v)
  {
    if v.epoch == "" {
      RoundTripWithoutEpoch(v);
    } else {
      RoundTripWithEpoch(v);
    }
  }

  lemma RoundTripWithoutEpoch(v: PackageVersion)
    requires v.epoch == ""
    ensures Denotes(VersionToString(v), v) <==> WellFormedVersion(v)
  {
    var s := VersionToString(v);
    assert Contains(s, '-') by { assert s[|v.upstream|] == '-'; }
    assert s == v.upstream + ("-" + v.package);
    SegmentEndOfConcat(v.upstream, "-" + v.package);
  }

  lemma RoundTripWithEpoch(v: PackageVersion)
    requires v.epoch != ""
    ensures Denotes(VersionToString(v), v) <==> WellFormedVersion(v)
  {
    var s, tail := VersionToString(v), v.upstream + "-" + v.package;
    assert Contains(tail, '-') by { assert tail[|v.upstream|] == '-'; }
    assert s == v.epoch + ":" + tail;
    if WellFormedVersion(v) {
      SegmentEndAfterRun(s, |v.epoch|);
      assert s[..|v.epoch|] == v.epoch && s[|v.epoch| + 1..] == tail;
    }
  }

  lemma {:induction false} SegmentEndAfterRun(s: string, n: nat)
    requires n < |s| && !IsAlphanumeric(s[n]) && forall i :: 0 <= i < n ==> IsAlphanumeric(s[i])
    ensures SegmentEnd(s, 0) == n
  {
  }

  /** A '-' appended to a string ends its first segment where the string's own end did. */
  lemma SegmentEndOfConcat(a: string, b: string)
    requires b != "" && b[0] == '-'
    ensures SegmentEnd(a + b, 0) == SegmentEnd(a, 0)
    ensures HasEpoch(a + b) == HasEpoch(a)
  {
    SegmentEndOfPrefix(a + b, 0, |a|);
    assert (a + b)[..|a|] == a;
    assert !IsAlphanumeric((a + b)[|a|]);
  }

  /** For example, what such texts denote. */
  lemma TextsOfVersions(epoch: string, upstream: string, package: string)
    requires ':' !in upstream && '-' !in package
    ensures Denotes(upstream + "-" + package, PackageVersion("", upstream, package))
    ensures '-' !in upstream ==> Denotes(upstream, PackageVersion("", upstream, ""))
    ensures epoch != "" && (forall c :: c in epoch ==> IsLetterOrDigit(c)) ==>
              Denotes(epoch + ":" + upstream + "-" + package, PackageVersion(epoch, upstream, package))
  {
    hide Denotes;
    assert !HasEpoch(upstream) by {
      assert At(upstream, SegmentEnd(upstream, 0)) != ':';
    }
    VersionRoundTrip(PackageVersion("", upstream, package));
    if epoch != "" && forall c :: c in epoch ==> IsLetterOrDigit(c) {
      assert forall i :: 0 <= i < |epoch| ==> epoch[i] in epoch;
      VersionRoundTrip(PackageVersion(epoch, upstream, package));
    }
    if '-' !in upstream {
      OnlyUpstream(upstream);
    }
  }

  lemma OnlyUpstream(upstream: string)
    requires '-' !in upstream && !HasEpoch(upstream)
    ensures Denotes(upstream, PackageVersion("", upstream, ""))
  {
  }

  // ---------------------------------------------------------------- comparing versions

  datatype VersionComparison = Same | SoftwareUpgrade | PackageUpgradeOnly | NewerThanSyncVersion

  function EpochOrder(a: string, b: string): PartComparison {
    if a != "" || b != "" then PartOrder(a, b) else Equal
  }

  /** The package release only counts if both versions specify one. */
  function PackageOrder(a: string, b: string): PartComparison {
    if a != "" && b != "" then PartOrder(a, b) else Equal
  }

  function Verdict(epochs: PartComparison, upstreams: PartComparison, packages: PartComparison): VersionComparison {
    match (epochs, upstreams, packages)
    case (Newer, _, _) => SoftwareUpgrade
    case (Older, _, _) => NewerThanSyncVersion
    case (Equal, Newer, _) => SoftwareUpgrade
    case (Equal, Older, _) => NewerThanSyncVersion
    case (Equal, Equal, Newer) => PackageUpgradeOnly
    case (Equal, Equal, Older) => NewerThanSyncVersion
    case (Equal, Equal, Equal) => Same
  }

  /** How `other` relates to `v`: a software upgrade, only a newer package release, the same, or older. */
  function Compare(v: PackageVersion, other: PackageVersion): VersionComparison {
    Verdict(EpochOrder(other.epoch, v.epoch), PartOrder(other.upstream, v.upstream), PackageOrder(other.package, v.package))
  }

  function AsOrder(c: VersionComparison): PartComparison {
    match c
    case Same => Equal
    case SoftwareUpgrade => Newer
    case PackageUpgradeOnly => Newer
    case NewerThanSyncVersion => Older
  }

  lemma EpochOrderLaws(a: string, b: string, c: string)
    ensures EpochOrder(b, a) == Flip(EpochOrder(a, b))
    ensures Composes(EpochOrder(a, b), EpochOrder(b, c), EpochOrder(a, c))
  {
    PartOrderLaws(a, b, c);
    PartOrderLaws("", "", "");
  }

  /** The versions agree in everything that is compared before the package release. */
  predicate SameSoftware(v: PackageVersion, w: PackageVersion) {
    EpochOrder(v.epoch, w.epoch) == Equal && PartOrder(v.upstream, w.upstream) == Equal
  }

  /** What each result of a comparison means. */
  lemma WhatComparingMeans(v: PackageVersion, w: PackageVersion)
    ensures Compare(v, w) == SoftwareUpgrade <==>
            || EpochOrder(w.epoch, v.epoch) == Newer
            || (EpochOrder(w.epoch, v.epoch) == Equal && PartOrder(w.upstream, v.upstream) == Newer)
    ensures Compare(v, w) == PackageUpgradeOnly <==>
            SameSoftware(v, w) && v.package != "" && w.package != "" && PartOrder(w.package, v.package) == Newer
    ensures Compare(v, w) == Same <==>
            SameSoftware(v, w) && (v.package == "" || w.package == "" || PartOrder(w.package, v.package) == Equal)
    ensures Compare(v, w) == NewerThanSyncVersion <==>
            || EpochOrder(w.epoch, v.epoch) == Older
            || (EpochOrder(w.epoch, v.epoch) == Equal && PartOrder(w.upstream, v.upstream) == Older)
            || (SameSoftware(v, w) && v.package != "" && w.package != "" && PartOrder(w.package, v.package) == Older)
  {
    EpochOrderLaws(v.epoch, w.epoch, v.epoch);
    PartOrderLaws(v.upstream, w.upstream, v.upstream);
    PartOrderLaws(v.package, w.package, v.package);
    hide PartOrder, EpochOrder;
  }

  /** Epochs are compared as parts, and no epoch at all is the epoch zero. */
  lemma EpochsCompareNumbers(a: string, b: string)
    requires IsNumber(a) && IsNumber(b)
    ensures EpochOrder(a, b) == NumberOrder(Value(a), Value(b))
  {
    NumbersAreSegments(a, b);
  }

  /** Comparing two versions the other way round flips the result. */
  lemma CompareIsAntisymmetric(v: PackageVersion, w: PackageVersion)
    ensures AsOrder(Compare(w, v)) == Flip(AsOrder(Compare(v, w)))
  {
    EpochOrderLaws(w.epoch, v.epoch, w.epoch);
    PartOrderLaws(w.upstream, v.upstream, w.upstream);
    PartOrderLaws(w.package, v.package, w.package);
  }

  /** One version names no package release, and those of the other two differ. */
  predicate ReleasesClash(a: string, b: string, c: string) {
    || (a == "" && PackageOrder(b, c) != Equal)
    || (b == "" && PackageOrder(a, c) != Equal)
    || (c == "" && PackageOrder(a, b) != Equal)
  }

  /** The comparison of three versions is transitive if and only if they are not the same software with clashing releases. */
  lemma CompareComposes(a: PackageVersion, b: PackageVersion, c: PackageVersion)
    ensures Composes(AsOrder(Compare(b, a)), AsOrder(Compare(c, b)), AsOrder(Compare(c, a))) <==>
            !(SameSoftware(a, b) && SameSoftware(b, c) && ReleasesClash(a.package, b.package, c.package))
  {
    EpochOrderLaws(a.epoch, b.epoch, c.epoch);
    PartOrderLaws(a.upstream, b.upstream, c.upstream);
    PartOrderLaws(a.package, b.package, c.package);
    hide EpochOrder, PartOrder;
  }

  /** For example, a version without a release equals both of two different releases. */
  lemma CompareIsNotTransitive()
    ensures var a, b, c := PackageVersion("", "1", "1"), PackageVersion("", "1", ""), PackageVersion("", "1", "2");
            Compare(a, b) == Same && Compare(b, c) == Same && Compare(a, c) == PackageUpgradeOnly
  {
    PartOrderLaws("1", "1", "1");
    assert Value("1") == 1 by { assert "1"[..0] == ""; }
    assert Value("2") == 2 by { assert "2"[..0] == ""; }
    NumbersAreSegments("2", "1");
  }

  // ---------------------------------------------------------------- bumping the epoch

  const UINT_LIMIT: nat := 0x1_0000_0000

  /** numberToString() of an unsigned number. */
  function Decimal(n: nat): (s: string)
    ensures IsNumber(s) && s != "" && Value(s) == n
  {
    if n < 10 then DigitString(n) else
      var s := Decimal(n / 10) + DigitString(n % 10);
      assert s[..|s| - 1] == Decimal(n / 10);
      s
  }

  function DigitString(n: nat): (s: string)
    requires n < 10
    ensures |s| == 1 && IsNumber(s) && Value(s) == n && Digit(s[0]) == n
  {
    var s := [('0' as int + n) as char];
    assert s[..0] == "";
    s
  }

  /** amendPkgbuild() with an epoch bump: the existing epoch plus one in unsigned arithmetic, and pkgrel 1. */
  function BumpEpoch(existing: PackageVersion, newVersion: PackageVersion): PackageVersion
    requires IsNumber(existing.epoch) && Value(existing.epoch) < UINT_LIMIT
  {
    PackageVersion(Decimal((Value(existing.epoch) + 1) % UINT_LIMIT), newVersion.upstream, "1")
  }

  /**
   * The bumped version, printed and read back, is an upgrade over the existing one whatever the two
   * upstream versions are - unless the existing epoch is the largest unsigned number.
   */
  lemma EpochBumpIsUpgrade(existing: PackageVersion, newVersion: PackageVersion, read: PackageVersion)
    requires IsNumber(existing.epoch) && Value(existing.epoch) < UINT_LIMIT
    requires Denotes(VersionToString(BumpEpoch(existing, newVersion)), read)
    ensures read == BumpEpoch(existing, newVersion)
    ensures read.upstream == newVersion.upstream && read.package == "1" && IsNumber(read.epoch)
    ensures Value(read.epoch) == if Value(existing.epoch) == UINT_LIMIT - 1 then 0 else Value(existing.epoch) + 1
    ensures Compare(existing, read) == SoftwareUpgrade <==> Value(existing.epoch) != UINT_LIMIT - 1
  {
    hide Denotes, VersionToString, Compare, WellFormedVersion, Value, Decimal, EpochOrder, PartOrder;
    var bumped := BumpEpoch(existing, newVersion);
    BumpIsWellFormed(existing, newVersion);
    VersionRoundTrip(bumped);
    DenotesIsUnique(VersionToString(bumped), bumped, read);
    BumpChangesEpoch(existing, newVersion);
    DifferentEpochsDecide(existing, bumped);
  }

  lemma BumpIsWellFormed(existing: PackageVersion, newVersion: PackageVersion)
    requires IsNumber(existing.epoch) && Value(existing.epoch) < UINT_LIMIT
    ensures WellFormedVersion(BumpEpoch(existing, newVersion))
  {
    var epoch := BumpEpoch(existing, newVersion).epoch;
    forall i | 0 <= i < |epoch| ensures IsAlphanumeric(epoch[i]) {
      assert IsDigit(epoch[i]);
    }
  }

  lemma BumpChangesEpoch(existing: PackageVersion, newVersion: PackageVersion)
    requires IsNumber(existing.epoch) && Value(existing.epoch) < UINT_LIMIT
    ensures var order := PartOrder(BumpEpoch(existing, newVersion).epoch, existing.epoch);
            order == if Value(existing.epoch) == UINT_LIMIT - 1 then Older else Newer
  {
    var n := Value(existing.epoch);
    var bumped := (n + 1) % UINT_LIMIT;
    assert bumped == if n == UINT_LIMIT - 1 then 0 else n + 1;
    NumbersAreSegments(Decimal(bumped), existing.epoch);
  }

  lemma DifferentEpochsDecide(v: PackageVersion, w: PackageVersion)
    requires w.epoch != "" && PartOrder(w.epoch, v.epoch) != Equal
    ensures AsOrder(Compare(v, w)) == PartOrder(w.epoch, v.epoch)
    ensures Compare(v, w) != PackageUpgradeOnly
  {
  }

  // ---------------------------------------------------------------- deciding on a bump

  datatype VersionBump = NoBump | BumpPackageRelease | BumpEpochNumber

  /**
   * The loop of bumpVersions() over the split packages of one build whose version exists already, given how
   * each new version compares to the existing one: no bump exactly if all packages are newer, an epoch bump
   * exactly if some package that is not built from VCS is older.
   */
  method DecideBump(outcomes: seq<VersionComparison>, isVcs: seq<bool>, force: bool)
    returns (bump: VersionBump, setUpstreamVersion: bool)
    requires |isVcs| == |outcomes|
    ensures bump == BumpEpochNumber <==> exists i :: 0 <= i < |outcomes| && outcomes[i] == SoftwareUpgrade && !isVcs[i]
    ensures bump == NoBump <==> !force && forall i :: 0 <= i < |outcomes| ==> outcomes[i] == NewerThanSyncVersion
    ensures bump == BumpPackageRelease ==>
              (setUpstreamVersion <==> exists i :: 0 <= i < |outcomes| && outcomes[i] == SoftwareUpgrade)
  {
    bump, setUpstreamVersion := NoBump, false;
    var i := 0;
    while i < |outcomes|
      invariant 0 <= i <= |outcomes| && bump != BumpEpochNumber
      invariant forall k :: 0 <= k < i ==> !(outcomes[k] == SoftwareUpgrade && !isVcs[k])
      invariant bump == NoBump <==> forall k :: 0 <= k < i ==> outcomes[k] == NewerThanSyncVersion
      invariant setUpstreamVersion <==> exists k :: 0 <= k < i && outcomes[k] == SoftwareUpgrade
    {
      match outcomes[i] {
        case Same => bump := BumpPackageRelease;
        case PackageUpgradeOnly => bump := BumpPackageRelease;
        case SoftwareUpgrade =>
          if isVcs[i] {
            setUpstreamVersion := true;
            bump := BumpPackageRelease;
          } else {
            bump := BumpEpochNumber;
            break;
          }
        case NewerThanSyncVersion =>
      }
      i := i + 1;
    }
    if force && bump == NoBump && !setUpstreamVersion {
      bump := BumpPackageRelease;
    }
  }

  /** Without a bump, every package is considered newer than what exists when the package manager compares them. */
  lemma NoBumpIsNewer(version: PackageVersion, existing: PackageVersion)
    ensures Compare(version, existing) == NewerThanSyncVersion <==> Compare(existing, version) in {SoftwareUpgrade, PackageUpgradeOnly}
  {
    CompareIsAntisymmetric(version, existing);
  }
}

/**
 * Dependencies of packages, and their textual form "name>=version: description".
 */
module Dependencies {
  import opened VersionOrder

  datatype Dependency = Dependency(name: string, version: string, mode: DependencyMode, description: string)

  // ---------------------------------------------------------------- specification of the text

  predicate IsSpecial(c: char) {
    c == '<' || c == '>' || c == '=' || c == ':'
  }

  /** The first operator or colon at or after `pos`. */
  function FirstSpecial(s: string, pos: nat): (n: nat)
    requires pos <= |s|
    ensures pos <= n <= |s| && (n < |s| ==> IsSpecial(s[n]))
    ensures forall i :: pos <= i < n ==> !IsSpecial(s[i])
    decreases |s| - pos
  {
    if pos < |s| && !IsSpecial(s[pos]) then FirstSpecial(s, pos + 1) else pos
  }

  /** The colon that starts the description: the second one, as the first belongs to an epoch. */
  function ConstraintEnd(s: string, pos: nat, hasEpoch: bool): (n: nat)
    requires pos <= |s|
    ensures pos <= n <= |s| && (n < |s| ==> s[n] == ':')
    decreases |s| - pos
  {
    if pos == |s| then pos
    else if s[pos] != ':' then ConstraintEnd(s, pos + 1, hasEpoch)
    else if hasEpoch then pos
    else ConstraintEnd(s, pos + 1, true)
  }

  function TrimLeft(s: string): string {
    if s != "" && s[0] == ' ' then TrimLeft(s[1..]) else s
  }

  function Description(s: string, colon: nat): string
    requires colon <= |s|
  {
    if colon == |s| then "" else TrimLeft(s[colon + 1..])
  }

  predicate HasEquals(s: string) {
    exists i :: 0 <= i < |s| && s[i] == '='
  }

  function ModeOf(operator: char, withEquals: bool): DependencyMode {
    if operator == '<' then (if withEquals then LessEqual else LessThan)
    else if operator == '>' then (if withEquals then GreaterEqual else GreaterThan)
    else EqualTo
  }

  /** An '=' anywhere behind '<' or '>' completes the operator, and then the constraint loses its first character. */
  function ParsedVersion(operator: char, constraint: string): string {
    if operator != '=' && HasEquals(constraint) then constraint[1..] else constraint
  }

  function ParsedMode(operator: char, constraint: string): DependencyMode {
    if ParsedVersion(operator, constraint) == "" then Any else ModeOf(operator, operator != '=' && HasEquals(constraint))
  }

  function ParseDependency(s: string): Dependency {
    var n := FirstSpecial(s, 0);
    if n == |s| || s[n] == ':' then Dependency(s[..n], "", Any, Description(s, n)) else
      var end := ConstraintEnd(s, n + 1, false);
      var constraint := s[n + 1..end];
      Dependency(s[..n], ParsedVersion(s[n], constraint), ParsedMode(s[n], constraint), Description(s, end))
  }

  function Operator(mode: DependencyMode): string {
    match mode
    case Any => ""
    case EqualTo => "="
    case GreaterEqual => ">="
    case LessEqual => "<="
    case GreaterThan => ">"
    case LessThan => "<"
  }

  function DependencyToString(d: Dependency): string {
    if d.description == "" && d.mode == Any then d.name
    else if d.mode == Any then d.name + ":" + " " + d.description
    else if d.description == "" then d.name + Operator(d.mode) + d.version
    else d.name + Operator(d.mode) + d.version + ":" + " " + d.description
  }

  // ---------------------------------------------------------------- the parser

  /** One pass over the characters; -1 stands for a null pointer. */
  method DependencyFromString(s: string) returns (d: Dependency)
    ensures d == ParseDependency(s)
  {
    hide ParseDependency, Description;
    var mode := Any;
    var version, description := -1, -1;
    var nameSize, versionSize, descriptionSize := 0, 0, 0;
    var hasEpoch := false;
    var c := 0;
    ghost var n := FirstSpecial(s, 0);
    ghost var end := if n < |s| && s[n] != ':' then ConstraintEnd(s, n + 1, false) else n;
    while c != |s|
      invariant 0 <= c <= |s|
      invariant if mode == Any && description == -1 then FirstSpecial(s, c) == n && nameSize == c && version == -1 && versionSize == 0 && !hasEpoch
                else nameSize == n < c
      invariant mode == Any ==> version == -1 && (description == -1 || s[n] == ':')
      invariant mode != Any ==> OperatorRead(s, n, if description == -1 then c else end, mode, version, versionSize)
      invariant mode != Any && description == -1 ==> ConstraintEnd(s, c, hasEpoch) == end
      invariant description == -1 ==> descriptionSize == 0
      invariant description != -1 ==> DescriptionRead(s, end, c, description, descriptionSize)
      decreases |s| - c
    {
      if description != -1 {
        description, descriptionSize := ReadDescription(s, end, c, description, descriptionSize);
        c := c + 1;
        continue;
      }
      if mode == Any {
        if s[c] == '<' {
          mode, version := LessThan, c + 1;
        } else if s[c] == '>' {
          mode, version := GreaterThan, c + 1;
        } else if s[c] == '=' {
          mode, version := EqualTo, c + 1;
        } else if s[c] == ':' {
          description := c + 1;
        } else {
          nameSize := nameSize + 1;
        }
      } else {
        var isSeparator;
        mode, version, versionSize, hasEpoch, isSeparator := ReadConstraint(s, n, c, mode, version, versionSize, hasEpoch);
        if isSeparator {
          description := c + 1;
        }
      }
      c := c + 1;
    }
    d := AssignParts(s, n, end, mode, nameSize, version, versionSize, description, descriptionSize);
  }

  method AssignParts(s: string, ghost n: nat, ghost end: nat, mode: DependencyMode,
                     nameSize: nat, version: int, versionSize: int, description: int, descriptionSize: int)
    returns (d: Dependency)
    requires nameSize == n == FirstSpecial(s, 0)
    requires end == if n < |s| && s[n] != ':' then ConstraintEnd(s, n + 1, false) else n
    requires if mode == Any then version == -1 && (n == |s| || s[n] == ':') else OperatorRead(s, n, end, mode, version, versionSize)
    requires if description == -1 then end == |s| else DescriptionRead(s, end, |s|, description, descriptionSize)
    ensures d == ParseDependency(s)
  {
    var versionText := if version != -1 then s[version..version + versionSize] else "";
    var descriptionText := if description != -1 then s[description..description + descriptionSize] else "";
    assert descriptionText == Description(s, end) by {
      if description != -1 {
        DescriptionIsRead(s, end, description, descriptionSize);
      }
    }
    if version != -1 {
      ConstraintIsRead(s, n, end, mode, version, versionSize);
    }
    d := Dependency(s[..nameSize], versionText, if versionText == "" then Any else mode, descriptionText);
  }

  lemma ConstraintIsRead(s: string, n: nat, end: nat, mode: DependencyMode, version: int, versionSize: int)
    requires OperatorRead(s, n, end, mode, version, versionSize)
    ensures var constraint := s[n + 1..end];
            var withEquals := s[n] != '=' && HasEquals(constraint);
            mode == ModeOf(s[n], withEquals) &&
            s[version..version + versionSize] == if withEquals then constraint[1..] else constraint
  {
  }

  /** Leading spaces are skipped, everything else belongs to the description. */
  method ReadDescription(s: string, ghost colon: nat, c: nat, start: int, size: int) returns (newStart: int, newSize: int)
    requires c < |s| && DescriptionRead(s, colon, c, start, size)
    ensures DescriptionRead(s, colon, c + 1, newStart, newSize)
  {
    newStart, newSize := start, size;
    if size == 0 && s[c] == ' ' {
      assert s[start..][1..] == s[start + 1..];
      newStart := start + 1;
    } else {
      newSize := size + 1;
    }
  }

  lemma DescriptionIsRead(s: string, colon: nat, description: int, size: int)
    requires DescriptionRead(s, colon, |s|, description, size)
    ensures s[description..description + size] == TrimLeft(s[colon + 1..])
  {
    assert s[description..] == s[description..description + size];
    TrimmedStays(s[description..]);
  }

  /** The switch cases behind an operator; only '<' and '>' can still become '<=' and '>='. */
  method ReadConstraint(s: string, ghost n: nat, c: nat, mode: DependencyMode, version: int, versionSize: int, hasEpoch: bool)
    returns (newMode: DependencyMode, newVersion: int, newVersionSize: int, newHasEpoch: bool, isSeparator: bool)
    requires n < c < |s| && mode != Any && OperatorRead(s, n, c, mode, version, versionSize)
    ensures newMode != Any && newHasEpoch == (hasEpoch || s[c] == ':')
    ensures isSeparator <==> s[c] == ':' && hasEpoch
    ensures OperatorRead(s, n, if isSeparator then c else c + 1, newMode, newVersion, newVersionSize)
  {
    EqualsStep(s, n + 1, c);
    newMode, newVersion, newVersionSize, newHasEpoch, isSeparator := mode, version, versionSize, hasEpoch, false;
    if mode == LessThan && s[c] == '=' {
      newMode, newVersion := LessEqual, version + 1;
    } else if mode == GreaterThan && s[c] == '=' {
      newMode, newVersion := GreaterEqual, version + 1;
    } else if s[c] == ':' && hasEpoch {
      isSeparator := true;
    } else {
      newHasEpoch := hasEpoch || s[c] == ':';
      newVersionSize := versionSize + 1;
    }
  }

  /** The operator at `n` and the constraint up to `c` have been taken in. */
  ghost predicate OperatorRead(s: string, n: nat, c: int, mode: DependencyMode, version: int, versionSize: int) {
    && n < c <= |s|
    && IsSpecial(s[n]) && s[n] != ':'
    && var withEquals := s[n] != '=' && HasEquals(s[n + 1..c]);
    && mode == ModeOf(s[n], withEquals)
    && version == n + 1 + (if withEquals then 1 else 0)
    && version + versionSize == c && versionSize >= 0
  }

  ghost predicate DescriptionRead(s: string, colon: nat, c: int, description: int, size: int) {
    && colon < description <= c <= |s|
    && size >= 0 && description + size == c
    && TrimLeft(s[colon + 1..]) == TrimLeft(s[description..])
    && (size > 0 ==> s[description] != ' ')
  }

  lemma EqualsStep(s: string, start: nat, c: nat)
    requires start <= c < |s|
    ensures HasEquals(s[start..c + 1]) <==> HasEquals(s[start..c]) || s[c] == '='
  {
    assert s[start..c + 1] == s[start..c] + [s[c]];
    if HasEquals(s[start..c]) {
      var i :| 0 <= i < c - start && s[start..c][i] == '=';
      assert s[start..c + 1][i] == '=';
    }
    if s[c] == '=' {
      assert s[start..c + 1][c - start] == '=';
    }
  }

  lemma TrimmedStays(s: string)
    requires s == "" || s[0] != ' '
    ensures TrimLeft(s) == s
  {
  }

  // ---------------------------------------------------------------- the round trip

  function Colons(s: string): nat {
    if s == "" then 0 else (if s[0] == ':' then 1 else 0) + Colons(s[1..])
  }

  /** Which dependencies can be printed and read back. */
  predicate WellFormedDependency(d: Dependency) {
    && FirstSpecial(d.name, 0) == |d.name|
    && (d.mode == Any <==> d.version == "")
    && (d.mode == LessThan || d.mode == GreaterThan ==> !HasEquals(d.version))
    && (d.description != "" ==> d.description[0] != ' ')
    && (d.mode != Any ==> if d.description == "" then Colons(d.version) <= 1 else Colons(d.version) == 1)
  }

  lemma {:induction false} FirstSpecialInConcat(s: string, rest: string, pos: nat)
    requires pos <= |s|
    ensures var n := FirstSpecial(s, pos);
            if n < |s| then FirstSpecial(s + rest, pos) == n
            else rest != "" && IsSpecial(rest[0]) ==> FirstSpecial(s + rest, pos) == |s|
    ensures rest == "" ==> FirstSpecial(s + rest, pos) == FirstSpecial(s, pos)
    decreases |s| - pos
  {
    if pos < |s| && !IsSpecial(s[pos]) {
      FirstSpecialInConcat(s, rest, pos + 1);
    }
    if rest == "" {
      assert s + rest == s;
    }
  }

  /** Reading a constraint `v` at `pos` that is followed by the rest of the text. */
  lemma {:induction false} ConstraintEndInText(s: string, pos: nat, v: string, hasEpoch: bool)
    requires pos + |v| <= |s| && s[pos..pos + |v|] == v
    ensures var colons := Colons(v) + if hasEpoch then 1 else 0;
            if colons <= 1 then ConstraintEnd(s, pos, hasEpoch) == ConstraintEnd(s, pos + |v|, colons == 1)
            else ConstraintEnd(s, pos, hasEpoch) < pos + |v|
    decreases |v|
  {
    if v != "" {
      assert s[pos] == v[0] && s[pos + 1..pos + 1 + |v[1..]|] == v[1..];
      if !(s[pos] == ':' && hasEpoch) {
        ConstraintEndInText(s, pos + 1, v[1..], hasEpoch || s[pos] == ':');
      }
    }
  }

  /** Exactly the well-formed dependencies survive being printed and parsed. */
  lemma DependencyRoundTrip(d: Dependency)
    ensures ParseDependency(DependencyToString(d)) == d <==> WellFormedDependency(d)
  {
    var s := DependencyToString(d);
    if FirstSpecial(d.name, 0) < |d.name| {
      assert s == d.name + s[|d.name|..];
      FirstSpecialInConcat(d.name, s[|d.name|..], 0);
    } else if d.mode == Any {
      RoundTripAny(d);
    } else {
      RoundTripConstraint(d);
    }
  }

  lemma RoundTripAny(d: Dependency)
    requires d.mode == Any && FirstSpecial(d.name, 0) == |d.name|
    ensures ParseDependency(DependencyToString(d)) == d <==> WellFormedDependency(d)
  {
    var s := DependencyToString(d);
    FirstSpecialInConcat(d.name, s[|d.name|..], 0);
    assert s == d.name + s[|d.name|..];
    if d.description != "" {
      assert s[|d.name|] == ':' && s[..|d.name|] == d.name;
      assert s[|d.name| + 1..] == " " + d.description;
      assert (" " + d.description)[1..] == d.description;
      TrimsToDescription(d.description);
    }
  }

  /** The parts of a printed dependency with a constraint: n is where the operator starts, k and m where the version starts and ends. */
  ghost predicate PrintedParts(d: Dependency, s: string, n: nat, k: nat, m: nat) {
    && n == |d.name| && k == n + |Operator(d.mode)| && m == k + |d.version| && n < k <= m <= |s|
    && s[..n] == d.name && s[n..k] == Operator(d.mode) && s[k..m] == d.version
    && s[m..] == (if d.description == "" then "" else ": " + d.description)
  }

  lemma FourParts(a: string, b: string, c: string, d: string)
    ensures var s, k, m := a + b + c + d, |a| + |b|, |a| + |b| + |c|;
            s[..|a|] == a && s[|a|..k] == b && s[k..m] == c && s[m..] == d
  {
  }

  lemma Prints(d: Dependency, s: string, n: nat, k: nat, m: nat)
    requires d.mode != Any && s == DependencyToString(d)
    requires n == |d.name| && k == n + |Operator(d.mode)| && m == k + |d.version|
    ensures PrintedParts(d, s, n, k, m)
  {
    var suffix := if d.description == "" then "" else ": " + d.description;
    assert s == d.name + Operator(d.mode) + d.version + suffix;
    FourParts(d.name, Operator(d.mode), d.version, suffix);
  }

  lemma OperatorReadBack(d: Dependency, s: string, n: nat, k: nat, m: nat)
    requires d.mode != Any && FirstSpecial(d.name, 0) == n && PrintedParts(d, s, n, k, m)
    ensures FirstSpecial(s, 0) == n && s[n] == Operator(d.mode)[0] && s[n + 1..k] == Operator(d.mode)[1..]
  {
    hide FirstSpecial;
    assert s[n] == s[n..k][0];
    assert s[n + 1..k] == s[n..k][1..];
    assert s == s[..n] + s[n..];
    FirstSpecialInConcat(d.name, s[n..], 0);
  }

  /** Where a printed constraint ends when it is read back: right behind the version, before it, or behind the colon. */
  lemma PrintedConstraint(d: Dependency, s: string, n: nat, k: nat, m: nat)
    requires d.mode != Any && PrintedParts(d, s, n, k, m)
    ensures var end := ConstraintEnd(s, n + 1, false);
            && k <= end
            && (Colons(d.version) <= 1 ==> end == ConstraintEnd(s, m, Colons(d.version) == 1))
            && (Colons(d.version) > 1 ==> end < m)
  {
    ConstraintEndAtVersion(d, s, n, k);
    ConstraintEndInText(s, k, d.version, false);
  }

  lemma ConstraintEndAtVersion(d: Dependency, s: string, n: nat, k: nat)
    requires n < k == n + |Operator(d.mode)| <= |s| && s[n..k] == Operator(d.mode)
    ensures ConstraintEnd(s, n + 1, false) == ConstraintEnd(s, k, false)
  {
    if k == n + 2 {
      assert s[n + 1] == s[n..k][1];
    }
  }

  /** The version is read back in full exactly if the text is meant to have the colons it has. */
  lemma ConstraintReadInFull(d: Dependency, s: string, n: nat, k: nat, m: nat)
    requires d.mode != Any && PrintedParts(d, s, n, k, m)
    ensures ConstraintEnd(s, n + 1, false) == m <==>
            if d.description == "" then Colons(d.version) <= 1 else Colons(d.version) == 1
  {
    PrintedConstraint(d, s, n, k, m);
    if d.description != "" {
      assert s[m] == s[m..][0];
    } else {
      assert m == |s|;
    }
  }

  lemma RoundTripConstraint(d: Dependency)
    requires d.mode != Any && FirstSpecial(d.name, 0) == |d.name|
    ensures ParseDependency(DependencyToString(d)) == d <==> WellFormedDependency(d)
  {
    var n, k, m := |d.name|, |d.name| + |Operator(d.mode)|, |d.name| + |Operator(d.mode)| + |d.version|;
    Prints(d, DependencyToString(d), n, k, m);
    RoundTripText(d, DependencyToString(d), n, k, m);
  }

  lemma RoundTripText(d: Dependency, s: string, n: nat, k: nat, m: nat)
    requires d.mode != Any && FirstSpecial(d.name, 0) == n && PrintedParts(d, s, n, k, m)
    ensures ParseDependency(s) == d <==> WellFormedDependency(d)
  {
    OperatorReadBack(d, s, n, k, m);
    ConstraintReadInFull(d, s, n, k, m);
    var end := ConstraintEnd(s, n + 1, false);
    if end == m {
      ConstraintSlice(d, s, n, k, m);
      ReadInFull(d, s, n, m, Operator(d.mode)[1..] + d.version);
    } else {
      PrintedConstraint(d, s, n, k, m);
      WrongLength(d, s, n, k, m, end);
    }
  }

  lemma ConstraintSlice(d: Dependency, s: string, n: nat, k: nat, m: nat)
    requires d.mode != Any && PrintedParts(d, s, n, k, m) && s[n + 1..k] == Operator(d.mode)[1..]
    ensures s[n + 1..m] == Operator(d.mode)[1..] + d.version
  {
    assert s[n + 1..m] == s[n + 1..k] + s[k..m];
  }

  lemma ParsedWithConstraint(d: Dependency, s: string, n: nat, end: nat, constraint: string)
    requires n == FirstSpecial(s, 0) < |s| && s[n] != ':' && end == ConstraintEnd(s, n + 1, false)
    requires s[..n] == d.name && s[n + 1..end] == constraint
    ensures ParseDependency(s) == d <==>
            && ParsedVersion(s[n], constraint) == d.version && ParsedMode(s[n], constraint) == d.mode
            && Description(s, end) == d.description
  {
  }

  lemma ReadInFull(d: Dependency, s: string, n: nat, m: nat, constraint: string)
    requires d.mode != Any && n < m <= |s| && FirstSpecial(s, 0) == n && ConstraintEnd(s, n + 1, false) == m
    requires s[..n] == d.name && s[n] == Operator(d.mode)[0] && s[n + 1..m] == constraint == Operator(d.mode)[1..] + d.version
    requires s[m..] == (if d.description == "" then "" else ": " + d.description)
    ensures ParseDependency(s) == d <==>
            && d.version != "" && (d.mode == LessThan || d.mode == GreaterThan ==> !HasEquals(d.version))
            && (d.description != "" ==> d.description[0] != ' ')
  {
    VersionReadBack(d, s[n], constraint);
    DescriptionReadBack(d, s, m);
    OperatorIsNoColon(d.mode);
    ParsedWithConstraint(d, s, n, m, constraint);
  }

  lemma OperatorIsNoColon(mode: DependencyMode)
    requires mode != Any
    ensures Operator(mode) != "" && Operator(mode)[0] != ':'
  {
  }

  lemma WrongLength(d: Dependency, s: string, n: nat, k: nat, m: nat, end: nat)
    requires d.mode != Any && PrintedParts(d, s, n, k, m) && FirstSpecial(s, 0) == n
    requires s[n] == Operator(d.mode)[0] && s[n + 1..k] == Operator(d.mode)[1..]
    requires end == ConstraintEnd(s, n + 1, false) && k <= end && end != m
    ensures ParseDependency(s).version != d.version || ParseDependency(s).mode != d.mode
  {
    hide FirstSpecial, ConstraintEnd, Description;
    var constraint := s[n + 1..end];
    if k == n + 2 {
      assert constraint[0] == s[n + 1..k][0] == '=';
    }
  }

  lemma VersionReadBack(d: Dependency, operator: char, constraint: string)
    requires d.mode != Any && operator == Operator(d.mode)[0] && constraint == Operator(d.mode)[1..] + d.version
    ensures ParsedVersion(operator, constraint) == d.version && ParsedMode(operator, constraint) == d.mode <==>
            d.version != "" && (d.mode == LessThan || d.mode == GreaterThan ==> !HasEquals(d.version))
  {
    if d.mode == GreaterEqual || d.mode == LessEqual {
      assert constraint[0] == '=' && constraint[1..] == d.version;
    } else {
      assert constraint == d.version;
    }
  }

  lemma DescriptionReadBack(d: Dependency, s: string, m: nat)
    requires m <= |s| && s[m..] == (if d.description == "" then "" else ": " + d.description)
    ensures Description(s, m) == d.description <==> (d.description != "" ==> d.description[0] != ' ')
  {
    hide TrimLeft;
    if d.description == "" {
      assert m == |s|;
    } else {
      var printed := ": " + d.description;
      assert printed[1..] == " " + d.description;
      assert s[m + 1..] == s[m..][1..];
      TrimSpace(d.description);
      TrimsToDescription(d.description);
    }
  }

  lemma {:induction false} TrimSpace(s: string)
    ensures TrimLeft(" " + s) == TrimLeft(s)
  {
    assert (" " + s)[1..] == s;
  }

  lemma {:induction false} TrimsToDescription(s: string)
    ensures TrimLeft(s) == s <==> (s != "" ==> s[0] != ' ')
  {
    if s != "" && s[0] == ' ' {
      TrimShrinks(s[1..]);
    }
  }

  lemma {:induction false} TrimShrinks(s: string)
    ensures |TrimLeft(s)| <= |s|
  {
    if s != "" {
      TrimShrinks(s[1..]);
    }
  }

  /** For example, what such texts are read as. */
  lemma TextsOfDependencies(name: string, version: string, description: string)
    requires '<' !in name && '>' !in name && '=' !in name && ':' !in name
    requires version != "" && '=' !in version && ':' !in version
    requires description != "" && description[0] != ' '
    ensures ParseDependency(name) == Dependency(name, "", Any, "")
    ensures ParseDependency(name + "=" + version) == Dependency(name, version, EqualTo, "")
    ensures ParseDependency(name + ">=" + version) == Dependency(name, version, GreaterEqual, "")
    ensures ParseDependency(name + "<=" + version) == Dependency(name, version, LessEqual, "")
    ensures ParseDependency(name + ">" + version) == Dependency(name, version, GreaterThan, "")
    ensures ParseDependency(name + "<" + version) == Dependency(name, version, LessThan, "")
    ensures ParseDependency(name + ": " + description) == Dependency(name, "", Any, description)
  {
    hide ParseDependency, WellFormedDependency, DependencyToString;
    TextWithOperator(name, version, EqualTo);
    TextWithOperator(name, version, GreaterEqual);
    TextWithOperator(name, version, LessEqual);
    TextWithOperator(name, version, GreaterThan);
    TextWithOperator(name, version, LessThan);
    TextWithoutOperator(name, description);
  }

  lemma TextWithOperator(name: string, version: string, mode: DependencyMode)
    requires '<' !in name && '>' !in name && '=' !in name && ':' !in name
    requires version != "" && '=' !in version && ':' !in version && mode != Any
    ensures ParseDependency(name + Operator(mode) + version) == Dependency(name, version, mode, "")
  {
    hide ParseDependency, Operator;
    NothingSpecial(name, 0);
    NoColons(version);
    DependencyRoundTrip(Dependency(name, version, mode, ""));
  }

  lemma TextWithoutOperator(name: string, description: string)
    requires '<' !in name && '>' !in name && '=' !in name && ':' !in name
    requires description != "" && description[0] != ' '
    ensures ParseDependency(name) == Dependency(name, "", Any, "")
    ensures ParseDependency(name + ": " + description) == Dependency(name, "", Any, description)
  {
    hide ParseDependency, Operator;
    NothingSpecial(name, 0);
    DependencyRoundTrip(Dependency(name, "", Any, ""));
    DependencyRoundTrip(Dependency(name, "", Any, description));
    assert name + ":" + " " + description == name + ": " + description;
  }

  lemma {:induction false} NothingSpecial(name: string, pos: nat)
    requires pos <= |name| && '<' !in name && '>' !in name && '=' !in name && ':' !in name
    ensures FirstSpecial(name, pos) == |name|
    decreases |name| - pos
  {
    if pos < |name| {
      NothingSpecial(name, pos + 1);
    }
  }

  lemma {:induction false} NoColons(s: string)
    requires ':' !in s
    ensures Colons(s) == 0
  {
    if s != "" {
      NoColons(s[1..]);
    }
  }
}

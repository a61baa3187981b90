/** scripts/ci/prerelease_guard.py: which release tags may follow which. */
module PrereleaseGuard {
  import opened Text

  datatype Stage = Alpha | Beta | Rc | Stable

  /** A parsed tag; a stable tag carries no number. */
  datatype Release = Release(version: string, stage: Stage, number: Option<nat>)

  /** A tag of the repository that parses. */
  datatype Entry = Entry(tag: string, release: Release)

  datatype Violation =
    | Policy | Unresolved | Unreachable | CargoUnreadable | CargoMismatch
    | NotIncreasing | NoPrerequisite | Regression

  /** `STAGE_RANK`. */
  function Rank(s: Stage): nat {
    match s case Alpha => 1 case Beta => 2 case Rc => 3 case Stable => 4
  }

  /** `required_previous_stage`: anything else in the policy file is a violation and is not used. */
  function Previous(s: Stage): Option<Stage> {
    match s case Alpha => None case Beta => Some(Alpha) case Rc => Some(Beta) case Stable => Some(Rc)
  }

  /** `stage_sort_key`: the rank, then the number. */
  function NumberOf(r: Release): nat {
    match r.number case Some(n) => n case None => 0
  }

  predicate KeyBelow(a: Release, b: Release) {
    Rank(a.stage) < Rank(b.stage) || (a.stage == b.stage && NumberOf(a) < NumberOf(b))
  }

  // ----- parse_tag -----------------------------------------------------------------------------------

  /** End of the run of digits that starts at `i`. */
  function DigitsEnd(s: string, i: nat): (e: nat)
    requires i <= |s|
    ensures i <= e <= |s|
    ensures forall k | i <= k < e :: IsDigit(s[k])
    ensures e < |s| ==> !IsDigit(s[e])
    decreases |s| - i
  {
    if i < |s| && IsDigit(s[i]) then DigitsEnd(s, i + 1) else i
  }

  /** End of `\d+\.` at `i`. */
  function DottedEnd(s: string, i: nat): (e: Option<nat>)
    requires i <= |s|
    ensures e.Some? ==> i < e.value <= |s|
  {
    var d := DigitsEnd(s, i);
    if i < d < |s| && s[d] == '.' then Some(d + 1) else None
  }

  /** End of `\d+\.\d+\.\d+` at `i`. */
  function VersionEnd(s: string, i: nat): (e: Option<nat>)
    requires i <= |s|
    ensures e.Some? ==> i < e.value <= |s|
  {
    match DottedEnd(s, i)
    case None => None
    case Some(b) =>
      match DottedEnd(s, b)
      case None => None
      case Some(c) => var e := DigitsEnd(s, c); if c < e then Some(e) else None
  }

  function StageText(s: Stage): string {
    match s case Alpha => "-alpha." case Beta => "-beta." case Rc => "-rc." case Stable => ""
  }

  predicate IsNumber(s: string) { s != [] && forall c | c in s :: IsDigit(c) }

  /** `-(alpha|beta|rc)\.\d+`. */
  function ParseSuffix(s: string): Option<(Stage, nat)> {
    if StageText(Alpha) <= s then ParseNumber(Alpha, s[7..])
    else if StageText(Beta) <= s then ParseNumber(Beta, s[6..])
    else if StageText(Rc) <= s then ParseNumber(Rc, s[4..])
    else None
  }

  function ParseNumber(stage: Stage, s: string): Option<(Stage, nat)> {
    if IsNumber(s) then Some((stage, DigitsValue(s))) else None
  }

  /** `parse_tag`; `None` is its `ValueError`. */
  function ParseTag(tag: string): Option<Release> {
    if tag == [] || tag[0] != 'v' then None else
      match VersionEnd(tag, 1)
      case None => None
      case Some(e) =>
        if e == |tag| then Some(Release(tag[1..], Stable, None)) else
          match ParseSuffix(tag[e..])
          case None => None
          case Some(p) => Some(Release(tag[1..e], p.0, Some(p.1)))
  }

  predicate IsVersion(v: string) { VersionEnd(v, 0) == Some(|v|) }

  /** The tag text of a release. */
  function Print(version: string, stage: Stage, digits: string): string {
    "v" + version + StageText(stage) + (if stage == Stable then "" else digits)
  }

  /** `s` is `v` one place to the right, and what follows it there is no digit and no dot. */
  predicate Embeds(s: string, v: string) {
    && |s| > |v| && (forall k | 0 <= k < |v| :: s[k + 1] == v[k])
    && (|v| + 1 < |s| ==> s[|v| + 1] == '-')
  }

  lemma DigitsEndIs(s: string, i: nat, e: nat)
    requires i <= e <= |s| && (forall k | i <= k < e :: IsDigit(s[k])) && (e < |s| ==> !IsDigit(s[e]))
    ensures DigitsEnd(s, i) == e
  {
    hide DigitsEnd;
  }

  lemma DigitsInside(s: string, v: string, i: nat)
    requires Embeds(s, v) && i <= |v|
    ensures DigitsEnd(s, i + 1) == DigitsEnd(v, i) + 1
  {
    hide DigitsEnd;
    assert forall k | 1 <= k <= |v| :: s[k] == v[k - 1];
    DigitsEndIs(s, i + 1, DigitsEnd(v, i) + 1);
  }

  lemma DottedInside(s: string, v: string, i: nat)
    requires Embeds(s, v) && i <= |v|
    ensures DottedEnd(v, i).None? ==> DottedEnd(s, i + 1).None?
    ensures DottedEnd(v, i).Some? ==> DottedEnd(s, i + 1) == Some(DottedEnd(v, i).value + 1)
  {
    DigitsInside(s, v, i);
  }

  /** A version is read the same inside a tag: what follows it cannot extend its last number. */
  lemma VersionInside(s: string, v: string)
    requires Embeds(s, v)
    ensures VersionEnd(s, 1) == Some(1 + |v|) <==> IsVersion(v)
  {
    hide DigitsEnd, DottedEnd;
    DottedInside(s, v, 0);
    if DottedEnd(v, 0).Some? {
      var b := DottedEnd(v, 0).value;
      DottedInside(s, v, b);
      if DottedEnd(v, b).Some? { DigitsInside(s, v, DottedEnd(v, b).value); }
    }
  }

  lemma ParseSuffixReads(stage: Stage, digits: string)
    requires stage != Stable && IsNumber(digits)
    ensures ParseSuffix(StageText(stage) + digits) == Some((stage, DigitsValue(digits)))
  {
    hide DigitsValue;
    var s := StageText(stage) + digits;
    assert s[|StageText(stage)|..] == digits;
    assert s[1] == StageText(stage)[1];
  }

  /** Printing and parsing: every version, stage and number comes back. */
  lemma ParsePrint(version: string, stage: Stage, digits: string)
    requires IsVersion(version) && IsNumber(digits)
    ensures ParseTag(Print(version, stage, digits))
         == Some(Release(version, stage, if stage == Stable then None else Some(DigitsValue(digits))))
  {
    hide VersionEnd, ParseSuffix, DigitsValue, IsNumber;
    var rest := StageText(stage) + (if stage == Stable then "" else digits);
    var tag := Print(version, stage, digits);
    assert tag == "v" + version + rest;
    VersionInside(tag, version);
    assert tag[1..1 + |version|] == version && tag[1 + |version|..] == rest;
    if stage != Stable { ParseSuffixReads(stage, digits); }
  }

  lemma SuffixIsPrinted(s: string) returns (digits: string)
    requires ParseSuffix(s).Some?
    ensures var (stage, n) := ParseSuffix(s).value;
      && stage != Stable && IsNumber(digits) && s == StageText(stage) + digits && n == DigitsValue(digits)
  {
    hide DigitsValue;
    digits := s[|StageText(ParseSuffix(s).value.0)|..];
  }

  /** Only printed tags parse. */
  lemma ParsedIsPrinted(tag: string) returns (digits: string)
    requires ParseTag(tag).Some?
    ensures var r := ParseTag(tag).value;
      && IsVersion(r.version) && IsNumber(digits) && tag == Print(r.version, r.stage, digits)
      && r.number == (if r.stage == Stable then None else Some(DigitsValue(digits)))
  {
    hide VersionEnd, DigitsValue, ParseSuffix;
    var e := VersionEnd(tag, 1).value;
    var version, rest := tag[1..e], tag[e..];
    assert tag == "v" + version + rest;
    VersionEndsAtNonDigit(tag);
    VersionInside(tag, version);
    if e == |tag| {
      digits := "0";
      assert tag == Print(version, Stable, digits);
    } else {
      digits := SuffixIsPrinted(rest);
      Assoc("v" + version, StageText(ParseSuffix(rest).value.0), digits);
    }
  }

  lemma VersionEndsAtNonDigit(tag: string)
    requires ParseTag(tag).Some?
    ensures var e := VersionEnd(tag, 1).value; e < |tag| ==> tag[e] == '-'
  {
    hide VersionEnd;
    var e := VersionEnd(tag, 1).value;
    if e < |tag| { assert tag[e..][0] == tag[e]; }
  }

  // ----- the checks of main --------------------------------------------------------------------------

  /** A tag that `git tag --list v<version>*` lists, other than `tag`, and that parses: its version
      is not looked at. */
  predicate Sibling(tag: string, version: string, x: string) {
    x != tag && "v" + version <= x && ParseTag(x).Some?
  }

  predicate BlocksNumber(r: Release, x: string) {
    && r.number.Some? && ParseTag(x).Some? && ParseTag(x).value.stage == r.stage
    && ParseTag(x).value.number.Some? && r.number.value <= ParseTag(x).value.number.value
  }

  predicate IsPrerequisite(r: Release, x: string) {
    ParseTag(x).Some? && Some(ParseTag(x).value.stage) == Previous(r.stage)
  }

  predicate IsHigher(r: Release, x: string) {
    ParseTag(x).Some? && Rank(ParseTag(x).value.stage) > Rank(r.stage)
  }

  ghost predicate NumberBlocked(tag: string, r: Release, repo: seq<string>) {
    exists x :: x in repo && Sibling(tag, r.version, x) && BlocksNumber(r, x)
  }

  ghost predicate PrerequisiteMissing(tag: string, r: Release, repo: seq<string>) {
    r.stage != Alpha && !exists x :: x in repo && Sibling(tag, r.version, x) && IsPrerequisite(r, x)
  }

  ghost predicate HigherExists(tag: string, r: Release, repo: seq<string>) {
    exists x :: x in repo && Sibling(tag, r.version, x) && IsHigher(r, x)
  }

  /** The stage checks pass for `tag` in a repository that holds the tags `repo`. */
  ghost predicate Approved(tag: string, repo: seq<string>) {
    && ParseTag(tag).Some?
    && var r := ParseTag(tag).value;
      !NumberBlocked(tag, r, repo) && !PrerequisiteMissing(tag, r, repo) && !HigherExists(tag, r, repo)
  }

  /** What git and the policy file say about the tag, outside the stage checks; `cargoVersion` is
      `None` when Cargo.toml could not be read at the tag and empty when it names no version. */
  datatype Facts = Facts(policyIsStandard: bool, resolved: bool, reachable: bool, cargoVersion: Option<string>)

  method SiblingEntries(tag: string, version: string, repo: seq<string>) returns (entries: seq<Entry>)
    ensures forall e | e in entries ::
      e.tag in repo && Sibling(tag, version, e.tag) && ParseTag(e.tag) == Some(e.release)
    ensures forall x | x in repo && Sibling(tag, version, x) :: Entry(x, ParseTag(x).value) in entries
  {
    hide ParseTag;
    entries := [];
    for i := 0 to |repo|
      invariant forall e | e in entries ::
          e.tag in repo && Sibling(tag, version, e.tag) && ParseTag(e.tag) == Some(e.release)
      invariant forall k | 0 <= k < i && Sibling(tag, version, repo[k]) ::
          Entry(repo[k], ParseTag(repo[k]).value) in entries
    {
      if repo[i] != tag && "v" + version <= repo[i] {
        match ParseTag(repo[i])
        case Some(r) => entries := entries + [Entry(repo[i], r)];
        case None =>
      }
    }
  }

  method HighestStageEntry(entries: seq<Entry>) returns (best: Option<Entry>)
    ensures best.None? <==> entries == []
    ensures best.Some? ==> best.value in entries
    ensures best.Some? ==> forall e | e in entries :: !KeyBelow(best.value.release, e.release)
  {
    if entries == [] { return None; }
    var top := entries[0];
    for i := 1 to |entries|
      invariant top in entries && forall k | 0 <= k < i :: !KeyBelow(top.release, entries[k].release)
    {
      if KeyBelow(top.release, entries[i].release) { top := entries[i]; }
    }
    best := Some(top);
  }

  method OfStage(entries: seq<Entry>, stage: Stage) returns (r: seq<Entry>)
    ensures forall e :: e in r <==> e in entries && e.release.stage == stage
  {
    r := [];
    for i := 0 to |entries|
      invariant forall e :: e in r <==> e in entries[..i] && e.release.stage == stage
    {
      if entries[i].release.stage == stage { r := r + [entries[i]]; }
    }
    assert entries[..|entries|] == entries;
  }

  /** The numbers of a stage: the largest, if any. */
  method LatestNumber(entries: seq<Entry>) returns (latest: Option<nat>)
    ensures latest.Some? ==> exists e :: e in entries && e.release.number == latest
    ensures forall e | e in entries && e.release.number.Some? :: latest.Some? && e.release.number.value <= latest.value
  {
    latest := None;
    for i := 0 to |entries|
      invariant latest.Some? ==> exists e :: e in entries && e.release.number == latest
      invariant forall k | 0 <= k < i && entries[k].release.number.Some? ::
          latest.Some? && entries[k].release.number.value <= latest.value
    {
      var n := entries[i].release.number;
      if n.Some? && (latest.None? || latest.value < n.value) {
        assert entries[i] in entries;
        latest := n;
      }
    }
  }

  /** The three stage checks, from the entries. */
  method StageViolations(tag: string, r: Release, repo: seq<string>) returns (violations: seq<Violation>)
    ensures forall v :: v in violations <==>
      || (v == NotIncreasing && NumberBlocked(tag, r, repo))
      || (v == NoPrerequisite && PrerequisiteMissing(tag, r, repo))
      || (v == Regression && HigherExists(tag, r, repo))
  {
    hide ParseTag;
    violations := [];
    var siblings := SiblingEntries(tag, r.version, repo);
    var same := OfStage(siblings, r.stage);
    var latest := LatestNumber(same);
    if r.number.Some? && latest.Some? && r.number.value <= latest.value {
      violations := violations + [NotIncreasing];
    }
    assert NotIncreasing in violations <==> NumberBlocked(tag, r, repo);
    var required := Previous(r.stage);
    if required.Some? {
      var candidates := OfStage(siblings, required.value);
      var prerequisite := HighestStageEntry(candidates);
      if prerequisite.None? { violations := violations + [NoPrerequisite]; }
      assert prerequisite.Some? ==> IsPrerequisite(r, prerequisite.value.tag);
    }
    assert NoPrerequisite in violations <==> PrerequisiteMissing(tag, r, repo);
    var highest := HighestStageEntry(siblings);
    if highest.Some? && Rank(highest.value.release.stage) > Rank(r.stage) {
      assert IsHigher(r, highest.value.tag);
      violations := violations + [Regression];
    }
    assert Regression in violations <==> HigherExists(tag, r, repo);
  }

  /** The violation applies to the tag. */
  ghost predicate Stands(v: Violation, tag: string, r: Release, repo: seq<string>, facts: Facts) {
    match v
    case Policy => !facts.policyIsStandard
    case Unresolved => !facts.resolved
    case Unreachable => facts.resolved && !facts.reachable
    case NotIncreasing => NumberBlocked(tag, r, repo)
    case NoPrerequisite => PrerequisiteMissing(tag, r, repo)
    case Regression => HigherExists(tag, r, repo)
    case CargoUnreadable => facts.resolved && facts.cargoVersion.None?
    case CargoMismatch =>
      && facts.resolved && facts.cargoVersion.Some?
      && facts.cargoVersion.value != "" && facts.cargoVersion.value != r.version
  }

  lemma NothingStands(tag: string, r: Release, repo: seq<string>, facts: Facts)
    requires ParseTag(tag) == Some(r)
    ensures (forall v :: !Stands(v, tag, r, repo, facts)) <==> Approved(tag, repo) && FactsClean(facts, r.version)
  {
    hide ParseTag, NumberBlocked, PrerequisiteMissing, HigherExists;
    if forall v :: !Stands(v, tag, r, repo, facts) {
      assert !Stands(NotIncreasing, tag, r, repo, facts) && !Stands(NoPrerequisite, tag, r, repo, facts);
      assert !Stands(Regression, tag, r, repo, facts) && !Stands(Policy, tag, r, repo, facts);
      assert !Stands(Unresolved, tag, r, repo, facts) && !Stands(Unreachable, tag, r, repo, facts);
      assert !Stands(CargoUnreadable, tag, r, repo, facts) && !Stands(CargoMismatch, tag, r, repo, facts);
    }
  }

  /** `main` of the guard: `None` for a tag that does not parse (exit code 2), else the violations. */
  method Guard(tag: string, repo: seq<string>, facts: Facts) returns (violations: Option<seq<Violation>>)
    ensures violations.None? <==> ParseTag(tag).None?
    ensures violations.Some? ==>
      forall v :: v in violations.value <==> Stands(v, tag, ParseTag(tag).value, repo, facts)
    ensures violations.Some? ==>
      (violations.value == [] <==> Approved(tag, repo) && FactsClean(facts, ParseTag(tag).value.version))
  {
    hide ParseTag, Approved, FactsClean;
    match ParseTag(tag)
    case None => violations := None;
    case Some(r) =>
      var found := Violations(tag, r, repo, facts);
      NothingStands(tag, r, repo, facts);
      hide Stands;
      assert found == [] || found[0] in found;
      violations := Some(found);
  }

  method Violations(tag: string, r: Release, repo: seq<string>, facts: Facts) returns (violations: seq<Violation>)
    ensures forall v :: v in violations <==> Stands(v, tag, r, repo, facts)
  {
    hide ParseTag, NumberBlocked, PrerequisiteMissing, HigherExists;
    var facing := FactViolations(facts);
    var stages := StageViolations(tag, r, repo);
    var cargo := CargoViolations(facts, r.version);
    violations := facing + stages + cargo;
  }

  method FactViolations(facts: Facts) returns (violations: seq<Violation>)
    ensures forall v :: v in violations <==>
      || (v == Policy && !facts.policyIsStandard)
      || (v == Unresolved && !facts.resolved)
      || (v == Unreachable && facts.resolved && !facts.reachable)
  {
    violations := if facts.policyIsStandard then [] else [Policy];
    if !facts.resolved { violations := violations + [Unresolved]; }
    if facts.resolved && !facts.reachable { violations := violations + [Unreachable]; }
  }

  method CargoViolations(facts: Facts, version: string) returns (violations: seq<Violation>)
    ensures forall v :: v in violations <==>
      || (v == CargoUnreadable && facts.resolved && facts.cargoVersion.None?)
      || (v == CargoMismatch && facts.resolved && facts.cargoVersion.Some?
          && facts.cargoVersion.value != "" && facts.cargoVersion.value != version)
  {
    violations := [];
    if facts.resolved {
      match facts.cargoVersion
      case None => violations := [CargoUnreadable];
      case Some(v) => if v != "" && v != version { violations := [CargoMismatch]; }
    }
  }

  predicate FactsClean(facts: Facts, version: string) {
    && facts.policyIsStandard && facts.resolved && facts.reachable
    && (facts.cargoVersion == Some("") || facts.cargoVersion == Some(version))
  }
}

/** scripts/ci/prerelease_guard.py: what sequences of approved tags look like. */
module ReleaseRuns {
  import opened Text
  import opened PrereleaseGuard

  /** `x` is a tag of this version. */
  predicate Own(version: string, x: string) {
    ParseTag(x).Some? && ParseTag(x).value.version == version
  }

  /** `x` is listed for this version although it is a tag of another one. */
  predicate Foreign(version: string, x: string) {
    "v" + version <= x && ParseTag(x).Some? && ParseTag(x).value.version != version
  }

  function ReleaseOf(x: string): Release
    requires ParseTag(x).Some?
  {
    ParseTag(x).value
  }

  /** The rule the guard is for, on the tags of one version: a prerelease number above the earlier
      ones of its stage, the previous stage present, no later stage present. */
  ghost predicate OwnApproved(tag: string, repo: seq<string>) {
    && ParseTag(tag).Some?
    && var r := ReleaseOf(tag);
      && (forall x | x in repo && x != tag && Own(r.version, x) :: !BlocksNumber(r, x) && !IsHigher(r, x))
      && (r.stage == Alpha || exists x :: x in repo && x != tag && Own(r.version, x) && IsPrerequisite(r, x))
  }

  lemma OwnIsListed(version: string, x: string)
    requires Own(version, x)
    ensures "v" + version <= x
  {
    hide ParseTag, IsVersion, DigitsValue;
    var digits := ParsedIsPrinted(x);
    var stage := ReleaseOf(x).stage;
    assert x == ("v" + version) + (StageText(stage) + (if stage == Stable then "" else digits));
  }

  /** The tags listed for a version: its own and the foreign ones. */
  lemma ListedIsOwnOrForeign(tag: string, version: string, x: string)
    ensures Sibling(tag, version, x) <==> x != tag && (Own(version, x) || Foreign(version, x))
  {
    hide ParseTag;
    if Own(version, x) { OwnIsListed(version, x); }
  }

  /** A version has one stable tag. */
  lemma StableTagIsUnique(x: string, y: string)
    requires ParseTag(x).Some? && ParseTag(y).Some? && ReleaseOf(x).version == ReleaseOf(y).version
    requires ReleaseOf(x).stage == Stable == ReleaseOf(y).stage
    ensures x == y
  {
    hide ParseTag, IsVersion, DigitsValue;
    var d := ParsedIsPrinted(x);
    var e := ParsedIsPrinted(y);
  }

  lemma NumbersFollowStages(x: string)
    requires ParseTag(x).Some?
    ensures ReleaseOf(x).number.None? <==> ReleaseOf(x).stage == Stable
  {
    hide ParseTag, IsVersion, DigitsValue;
    var d := ParsedIsPrinted(x);
  }

  /** The verdict on a tag does not depend on whether the tag itself is listed, nor where. */
  lemma OwnListingIsIgnored(tag: string, before: seq<string>, after: seq<string>)
    ensures Approved(tag, before + [tag] + after) <==> Approved(tag, before + after)
  {
    hide ParseTag, BlocksNumber, IsPrerequisite, IsHigher;
    var long, short := before + [tag] + after, before + after;
    assert forall x :: x in long <==> x in short || x == tag;
  }

  // ----- runs ----------------------------------------------------------------------------------------

  predicate Distinct(repo: seq<string>) {
    forall i, j | 0 <= i < j < |repo| :: repo[i] != repo[j]
  }

  /** Tags in the order they were created, every one of this version approved against the ones before. */
  ghost predicate ReleaseRun(repo: seq<string>, version: string) {
    Distinct(repo) && forall i | 0 <= i < |repo| && Own(version, repo[i]) :: Approved(repo[i], repo[..i])
  }

  predicate NoForeign(repo: seq<string>, version: string) {
    forall x | x in repo :: !Foreign(version, x)
  }

  /** Stage and number only go up, whatever other tags the repository holds. */
  lemma RunAdvances(repo: seq<string>, version: string, i: nat, j: nat)
    requires ReleaseRun(repo, version) && i < j < |repo| && Own(version, repo[i]) && Own(version, repo[j])
    ensures KeyBelow(ReleaseOf(repo[i]), ReleaseOf(repo[j]))
  {
    hide ParseTag;
    var x, tag := repo[i], repo[j];
    var before := repo[..j];
    assert x == before[i];
    var r := ReleaseOf(tag);
    OwnIsListed(version, x);
    assert Approved(tag, before);
    assert x in before && Sibling(tag, version, x);
    assert !BlocksNumber(r, x) && !IsHigher(r, x);
    NumbersFollowStages(x);
    NumbersFollowStages(tag);
    if r.stage == Stable && ReleaseOf(x).stage == Stable { StableTagIsUnique(x, tag); }
  }

  /** Nothing of a version follows its stable tag. */
  lemma StableIsLast(repo: seq<string>, version: string, i: nat, j: nat)
    requires ReleaseRun(repo, version) && i < |repo| && j < |repo| && Own(version, repo[i]) && Own(version, repo[j])
    requires ReleaseOf(repo[i]).stage == Stable
    ensures j <= i
  {
    hide ParseTag;
    NumbersFollowStages(repo[j]);
    if i < j { RunAdvances(repo, version, i, j); }
  }

  /** Every earlier stage is there before a later one. */
  lemma {:induction false} EarlierStagesPresent(repo: seq<string>, version: string, i: nat, s: Stage)
    requires ReleaseRun(repo, version) && NoForeign(repo, version)
    requires i < |repo| && Own(version, repo[i]) && Rank(s) < Rank(ReleaseOf(repo[i]).stage)
    ensures exists k :: 0 <= k < i && Own(version, repo[k]) && ReleaseOf(repo[k]).stage == s
    decreases i
  {
    hide ParseTag;
    var tag, before := repo[i], repo[..i];
    var r := ReleaseOf(tag);
    assert Approved(tag, before);
    var x :| x in before && Sibling(tag, version, x) && IsPrerequisite(r, x);
    var k :| 0 <= k < |before| && before[k] == x;
    assert repo[k] == x && x in repo;
    ListedIsOwnOrForeign(tag, version, x);
    if ReleaseOf(x).stage != s { EarlierStagesPresent(repo, version, k, s); }
  }

  // ----- when the guard applies its own rule --------------------------------------------------------------

  /** Every verdict on a new tag of this version is the one its own tags call for. */
  ghost predicate VerdictsAreOwn(repo: seq<string>, version: string) {
    forall tag | tag !in repo && Own(version, tag) :: Approved(tag, repo) <==> OwnApproved(tag, repo)
  }

  /** Some own tag has at least the key of `f`. */
  predicate Covered(repo: seq<string>, version: string, f: string)
    requires ParseTag(f).Some?
  {
    exists x :: x in repo && Own(version, x) && !KeyBelow(ReleaseOf(x), ReleaseOf(f))
  }

  /** No foreign tag is above every own tag. */
  predicate ForeignAreCovered(repo: seq<string>, version: string) {
    forall f | f in repo && Foreign(version, f) :: Covered(repo, version, f)
  }

  predicate HasStage(repo: seq<string>, version: string, s: Stage) {
    exists x :: x in repo && Own(version, x) && ReleaseOf(x).stage == s
  }

  /** The latest stage the version has reached, Alpha when it has none. */
  function Level(repo: seq<string>, version: string): (s: Stage)
    ensures s == Alpha || HasStage(repo, version, s)
    ensures forall x | x in repo && Own(version, x) :: Rank(ReleaseOf(x).stage) <= Rank(s)
  {
    if HasStage(repo, version, Stable) then Stable
    else if HasStage(repo, version, Rc) then Rc
    else if HasStage(repo, version, Beta) then Beta
    else Alpha
  }

  /** The version has reached Beta or Rc without a tag of its own at the stage before: a foreign tag
      has stood in for it. */
  predicate Orphaned(repo: seq<string>, version: string) {
    var top := Level(repo, version);
    (top == Beta || top == Rc) && !HasStage(repo, version, Previous(top).value)
  }

  lemma RunsAreNotOrphaned(repo: seq<string>, version: string)
    requires ReleaseRun(repo, version) && NoForeign(repo, version)
    ensures !Orphaned(repo, version)
  {
    hide ParseTag;
    var top := Level(repo, version);
    if top == Beta || top == Rc {
      var x :| x in repo && Own(version, x) && ReleaseOf(x).stage == top;
      var i :| 0 <= i < |repo| && repo[i] == x;
      EarlierStagesPresent(repo, version, i, Previous(top).value);
    }
  }

  lemma ApprovedIsOwn(tag: string, repo: seq<string>, version: string)
    requires Own(version, tag) && tag !in repo && !Orphaned(repo, version) && ForeignAreCovered(repo, version)
    requires Approved(tag, repo)
    ensures OwnApproved(tag, repo)
  {
    hide ParseTag;
    var r := ReleaseOf(tag);
    forall x | x in repo && Own(version, x) ensures !BlocksNumber(r, x) && !IsHigher(r, x) {
      ListedIsOwnOrForeign(tag, version, x);
      if r.stage == Stable && ReleaseOf(x).stage == Stable { StableTagIsUnique(tag, x); }
    }
    if r.stage != Alpha {
      var f :| f in repo && Sibling(tag, version, f) && IsPrerequisite(r, f);
      ListedIsOwnOrForeign(tag, version, f);
      if Foreign(version, f) {
        assert Covered(repo, version, f);
        var x :| x in repo && Own(version, x) && !KeyBelow(ReleaseOf(x), ReleaseOf(f));
        NoStableTwin(tag, repo, version);
        assert HasStage(repo, version, Previous(r.stage).value);
      }
    }
  }

  /** A new stable tag finds no stable tag of its version. */
  lemma NoStableTwin(tag: string, repo: seq<string>, version: string)
    requires Own(version, tag) && tag !in repo
    ensures ReleaseOf(tag).stage == Stable ==> !HasStage(repo, version, Stable)
  {
    hide ParseTag;
    forall x | x in repo && Own(version, x) && ReleaseOf(x).stage == Stable == ReleaseOf(tag).stage ensures false {
      StableTagIsUnique(tag, x);
    }
  }

  lemma OwnIsApproved(tag: string, repo: seq<string>, version: string)
    requires Own(version, tag) && tag !in repo && ForeignAreCovered(repo, version)
    requires OwnApproved(tag, repo)
    ensures Approved(tag, repo)
  {
    hide ParseTag;
    var r := ReleaseOf(tag);
    forall f | f in repo && Sibling(tag, version, f) ensures !BlocksNumber(r, f) && !IsHigher(r, f) {
      ListedIsOwnOrForeign(tag, version, f);
      if Foreign(version, f) {
        assert Covered(repo, version, f);
        var x :| x in repo && Own(version, x) && !KeyBelow(ReleaseOf(x), ReleaseOf(f));
        NumbersFollowStages(x);
        NumbersFollowStages(f);
      }
    }
    if r.stage != Alpha {
      var x :| x in repo && x != tag && Own(version, x) && IsPrerequisite(r, x);
      ListedIsOwnOrForeign(tag, version, x);
    }
  }

  /** A number above every number in the repository. */
  function FreshNumber(repo: seq<string>): (n: nat)
    ensures forall x | x in repo && ParseTag(x).Some? :: NumberOf(ParseTag(x).value) < n
  {
    if repo == [] then 0 else
      var rest := FreshNumber(repo[1..]);
      assert forall x | x in repo :: x == repo[0] || x in repo[1..];
      match ParseTag(repo[0])
      case None => rest
      case Some(r) => if NumberOf(r) < rest then rest else NumberOf(r) + 1
  }

  /** The tag of a version with a given stage and number. */
  lemma TagFor(version: string, stage: Stage, n: nat) returns (tag: string)
    requires IsVersion(version) && stage != Stable
    ensures ParseTag(tag) == Some(Release(version, stage, Some(n)))
  {
    hide *;
    DecimalRoundTrip(n);
    DecimalIsNumber(n);
    tag := Print(version, stage, Decimal(n));
    ParsePrint(version, stage, Decimal(n));
  }

  lemma DecimalIsNumber(n: nat)
    ensures IsNumber(Decimal(n))
  {
    hide Decimal;
  }

  /** An uncovered foreign tag makes the guard refuse some tag that its own version allows. */
  lemma UncoveredBlocks(repo: seq<string>, version: string, f: string) returns (tag: string)
    requires IsVersion(version) && !Orphaned(repo, version)
    requires f in repo && Foreign(version, f) && !Covered(repo, version, f)
    ensures tag !in repo && Own(version, tag) && OwnApproved(tag, repo) && !Approved(tag, repo)
  {
    hide ParseTag;
    var g := ReleaseOf(f);
    NumbersFollowStages(f);
    assert forall x | x in repo && Own(version, x) :: KeyBelow(ReleaseOf(x), g);
    var level := Level(repo, version);
    if g.stage == Alpha || HasStage(repo, version, g.stage) {
      tag := TagFor(version, g.stage, NumberOf(g));
    } else {
      tag := TagFor(version, level, FreshNumber(repo));
    }
    var r := ReleaseOf(tag);
    ListedIsOwnOrForeign(tag, version, f);
    assert tag !in repo;
    assert Sibling(tag, version, f) && (BlocksNumber(r, f) || IsHigher(r, f));
    assert NumberBlocked(tag, r, repo) || HigherExists(tag, r, repo);
    assert r.stage == level;
    if r.stage != Alpha { assert HasStage(repo, version, Previous(r.stage).value); }
  }

  // ----- versions without their own previous stage ---------------------------------------------------------

  predicate ForeignAbove(repo: seq<string>, version: string, s: Stage) {
    exists f :: f in repo && Foreign(version, f) && Rank(ReleaseOf(f).stage) > Rank(s)
  }

  predicate ForeignAt(repo: seq<string>, version: string, s: Stage) {
    exists f :: f in repo && Foreign(version, f) && ReleaseOf(f).stage == s
  }

  /** What the foreign tags must be like for the guard to decide by the version's own tags. */
  predicate ForeignAreHarmless(repo: seq<string>, version: string) {
    var top := Level(repo, version);
    if !Orphaned(repo, version) then ForeignAreCovered(repo, version)
    else if ForeignAbove(repo, version, top) then top == Rc
    else !ForeignAt(repo, version, Previous(top).value)
  }

  lemma HigherBlocks(tag: string, repo: seq<string>, version: string, x: string)
    requires Own(version, tag) && tag !in repo && x in repo && (Own(version, x) || Foreign(version, x))
    requires Rank(ReleaseOf(x).stage) > Rank(ReleaseOf(tag).stage)
    ensures !Approved(tag, repo) && (Own(version, x) ==> !OwnApproved(tag, repo))
  {
    hide ParseTag;
    ListedIsOwnOrForeign(tag, version, x);
    assert IsHigher(ReleaseOf(tag), x);
  }

  /** Where neither an own nor a foreign tag has the stage before, both refuse. */
  lemma MissingBlocks(tag: string, repo: seq<string>, version: string)
    requires Own(version, tag) && tag !in repo && ReleaseOf(tag).stage != Alpha
    requires var s := Previous(ReleaseOf(tag).stage).value; !HasStage(repo, version, s) && !ForeignAt(repo, version, s)
    ensures !Approved(tag, repo) && !OwnApproved(tag, repo)
  {
    hide ParseTag;
    forall x | x in repo && Sibling(tag, version, x) ensures !IsPrerequisite(ReleaseOf(tag), x) {
      ListedIsOwnOrForeign(tag, version, x);
    }
  }

  /** A stage directly above the top one, with nothing foreign in the way. */
  lemma NextIsApproved(tag: string, repo: seq<string>, version: string)
    requires Own(version, tag) && tag !in repo
    requires Level(repo, version) != Stable && HasStage(repo, version, Level(repo, version))
    requires Some(Level(repo, version)) == Previous(ReleaseOf(tag).stage)
    requires ReleaseOf(tag).stage == Stable || !ForeignAbove(repo, version, Level(repo, version))
    ensures Approved(tag, repo) && OwnApproved(tag, repo)
  {
    hide ParseTag;
    var r := ReleaseOf(tag);
    NumbersFollowStages(tag);
    forall x | x in repo && Sibling(tag, version, x) ensures !BlocksNumber(r, x) && !IsHigher(r, x) {
      ListedIsOwnOrForeign(tag, version, x);
    }
    var p :| p in repo && Own(version, p) && ReleaseOf(p).stage == Level(repo, version);
    ListedIsOwnOrForeign(tag, version, p);
    assert IsPrerequisite(r, p);
    forall x | x in repo && Own(version, x) ensures !BlocksNumber(r, x) && !IsHigher(r, x) {
      ListedIsOwnOrForeign(tag, version, x);
    }
  }

  /** An orphaned version with harmless foreign tags. */
  lemma OrphanVerdict(tag: string, repo: seq<string>, version: string)
    requires Orphaned(repo, version) && ForeignAreHarmless(repo, version) && Own(version, tag) && tag !in repo
    ensures Approved(tag, repo) <==> OwnApproved(tag, repo)
  {
    hide ParseTag, Approved, OwnApproved, ForeignAreCovered;
    var top, stage := Level(repo, version), ReleaseOf(tag).stage;
    if Rank(stage) < Rank(top) {
      var x :| x in repo && Own(version, x) && ReleaseOf(x).stage == top;
      HigherBlocks(tag, repo, version, x);
    } else if stage == top {
      OwnPreviousMissing(tag, repo, version);
      if ForeignAbove(repo, version, top) {
        var f :| f in repo && Foreign(version, f) && Rank(ReleaseOf(f).stage) > Rank(top);
        HigherBlocks(tag, repo, version, f);
      } else {
        MissingBlocks(tag, repo, version);
      }
    } else if Some(top) == Previous(stage) {
      NextIsApproved(tag, repo, version);
    } else {
      MissingBlocks(tag, repo, version);
    }
  }

  lemma OwnPreviousMissing(tag: string, repo: seq<string>, version: string)
    requires Own(version, tag) && ReleaseOf(tag).stage != Alpha
    requires !HasStage(repo, version, Previous(ReleaseOf(tag).stage).value)
    ensures !OwnApproved(tag, repo)
  {
    hide ParseTag;
    assert forall x | x in repo && Own(version, x) :: !IsPrerequisite(ReleaseOf(tag), x);
  }

  /** An orphaned version with foreign tags that do harm: one verdict differs. */
  lemma OrphanDiffers(repo: seq<string>, version: string) returns (tag: string)
    requires IsVersion(version) && Orphaned(repo, version) && !ForeignAreHarmless(repo, version)
    ensures tag !in repo && Own(version, tag) && (Approved(tag, repo) <==> !OwnApproved(tag, repo))
  {
    hide ParseTag, ForeignAreCovered;
    var top := Level(repo, version);
    if ForeignAbove(repo, version, top) {
      tag := TagFor(version, Rc, 0);
      assert tag !in repo;
      var f :| f in repo && Foreign(version, f) && Rank(ReleaseOf(f).stage) > Rank(top);
      RcRefused(tag, repo, version, f);
    } else {
      tag := TagFor(version, top, FreshNumber(repo));
      assert tag !in repo;
      StandInApproved(tag, repo, version);
      OwnPreviousMissing(tag, repo, version);
    }
  }

  /** A foreign Rc or stable tag keeps the first Rc from following an own Beta. */
  lemma RcRefused(tag: string, repo: seq<string>, version: string, f: string)
    requires Own(version, tag) && tag !in repo && ReleaseOf(tag) == Release(version, Rc, Some(0))
    requires Level(repo, version) == Beta && HasStage(repo, version, Beta)
    requires f in repo && Foreign(version, f) && Rank(ReleaseOf(f).stage) > Rank(Beta)
    ensures !Approved(tag, repo) && OwnApproved(tag, repo)
  {
    hide ParseTag;
    var r := ReleaseOf(tag);
    NumbersFollowStages(f);
    ListedIsOwnOrForeign(tag, version, f);
    assert BlocksNumber(r, f) || IsHigher(r, f);
    assert NumberBlocked(tag, r, repo) || HigherExists(tag, r, repo);
    var x :| x in repo && Own(version, x) && ReleaseOf(x).stage == Beta;
    assert IsPrerequisite(r, x);
  }

  /** A foreign tag stands in for the missing stage. */
  lemma StandInApproved(tag: string, repo: seq<string>, version: string)
    requires Own(version, tag) && tag !in repo && ReleaseOf(tag).number == Some(FreshNumber(repo))
    requires var top := Level(repo, version);
      ReleaseOf(tag).stage == top != Alpha && !ForeignAbove(repo, version, top)
      && ForeignAt(repo, version, Previous(top).value)
    ensures Approved(tag, repo)
  {
    hide ParseTag;
    var r := ReleaseOf(tag);
    forall x | x in repo && Sibling(tag, version, x) ensures !BlocksNumber(r, x) && !IsHigher(r, x) {
      ListedIsOwnOrForeign(tag, version, x);
    }
    var f :| f in repo && Foreign(version, f) && Some(ReleaseOf(f).stage) == Previous(r.stage);
    ListedIsOwnOrForeign(tag, version, f);
    assert IsPrerequisite(r, f);
  }

  /** The guard decides every new tag by its own version's tags exactly when the foreign tags are
      harmless: none above every own tag, or, for a version without its own previous stage, none at
      the previous stage and none above the stage it stands at, or a stable one above an Rc. */
  lemma VerdictsAreOwnIff(repo: seq<string>, version: string)
    requires IsVersion(version)
    ensures VerdictsAreOwn(repo, version) <==> ForeignAreHarmless(repo, version)
  {
    hide ParseTag, IsVersion, Covered, Approved, OwnApproved, Orphaned, Level;
    if Orphaned(repo, version) {
      if ForeignAreHarmless(repo, version) {
        forall tag | tag !in repo && Own(version, tag) ensures Approved(tag, repo) <==> OwnApproved(tag, repo) {
          OrphanVerdict(tag, repo, version);
        }
      } else {
        var tag := OrphanDiffers(repo, version);
      }
    } else if ForeignAreCovered(repo, version) {
      forall tag | tag !in repo && Own(version, tag) ensures Approved(tag, repo) <==> OwnApproved(tag, repo) {
        if Approved(tag, repo) { ApprovedIsOwn(tag, repo, version); }
        if OwnApproved(tag, repo) { OwnIsApproved(tag, repo, version); }
      }
    } else {
      var f :| f in repo && Foreign(version, f) && !Covered(repo, version, f);
      var tag := UncoveredBlocks(repo, version, f);
    }
  }

  /** After any approved run without foreign tags the guard goes on to apply its own rule. */
  lemma RunsAreJudgedByTheirOwn(repo: seq<string>, version: string)
    requires ReleaseRun(repo, version) && NoForeign(repo, version) && IsVersion(version)
    ensures VerdictsAreOwn(repo, version)
  {
    hide ParseTag, IsVersion, VerdictsAreOwn, Covered, Orphaned;
    RunsAreNotOrphaned(repo, version);
    VerdictsAreOwnIff(repo, version);
  }

  // ----- a foreign tag at work -------------------------------------------------------------------------------

  /** With `v1.2.30-rc.1` in the repository, `v1.2.3` is approved with no prerelease of its own, and
      its first alpha is refused. */
  lemma ForeignTagExample(repo: seq<string>)
    requires repo == ["v1.2.30-rc.1"]
    ensures Approved("v1.2.3", repo) && !OwnApproved("v1.2.3", repo)
    ensures !Approved("v1.2.3-alpha.1", repo) && OwnApproved("v1.2.3-alpha.1", repo)
  {
    hide ParseTag;
    ExampleTags();
    var f := repo[0];
    assert Sibling("v1.2.3", "1.2.3", f) && IsPrerequisite(ReleaseOf("v1.2.3"), f);
    assert Sibling("v1.2.3-alpha.1", "1.2.3", f) && IsHigher(ReleaseOf("v1.2.3-alpha.1"), f);
    assert forall x | x in repo :: x == f;
  }

  /** A run that a foreign tag has let through: with `v1.2.30-alpha.1` first, `v1.2.3-beta.1` is
      approved without an alpha of its own. No foreign tag is above every own one, and still the
      guard goes on to approve `v1.2.3-beta.2`. */
  lemma DamagedRunExample(repo: seq<string>)
    requires repo == ["v1.2.30-alpha.1", "v1.2.3-beta.1"]
    ensures ReleaseRun(repo, "1.2.3") && ForeignAreCovered(repo, "1.2.3") && Orphaned(repo, "1.2.3")
    ensures Approved("v1.2.3-beta.2", repo) && !OwnApproved("v1.2.3-beta.2", repo)
    ensures !VerdictsAreOwn(repo, "1.2.3")
  {
    hide ParseTag, Approved, OwnApproved, ReleaseRun, ForeignAreCovered, Orphaned;
    DamagedTags();
    DamagedRun(repo, repo[0], repo[1]);
    DamagedVerdict(repo, repo[0], repo[1], "v1.2.3-beta.2");
  }

  /** A Beta that rests on a foreign Alpha. */
  lemma DamagedRun(repo: seq<string>, f: string, b: string)
    requires repo == [f, b] && Foreign("1.2.3", f) && Own("1.2.3", b)
    requires ReleaseOf(f) == Release("1.2.30", Alpha, Some(1)) && ReleaseOf(b) == Release("1.2.3", Beta, Some(1))
    ensures ReleaseRun(repo, "1.2.3") && ForeignAreCovered(repo, "1.2.3") && Orphaned(repo, "1.2.3")
  {
    hide ParseTag;
    assert repo[..1] == [f];
    assert forall x | x in repo :: x == f || x == b;
    ListedIsOwnOrForeign(b, "1.2.3", f);
    assert IsPrerequisite(ReleaseOf(b), f) && f in repo[..1];
    assert Approved(b, repo[..1]);
    assert b in repo;
    assert Covered(repo, "1.2.3", f);
  }

  lemma DamagedVerdict(repo: seq<string>, f: string, b: string, next: string)
    requires repo == [f, b] && Foreign("1.2.3", f) && Own("1.2.3", b) && Own("1.2.3", next) && next !in repo
    requires ReleaseOf(f) == Release("1.2.30", Alpha, Some(1)) && ReleaseOf(b) == Release("1.2.3", Beta, Some(1))
    requires ReleaseOf(next) == Release("1.2.3", Beta, Some(2))
    ensures Approved(next, repo) && !OwnApproved(next, repo)
  {
    hide ParseTag;
    assert forall x | x in repo :: x == f || x == b;
    ListedIsOwnOrForeign(next, "1.2.3", f);
    assert IsPrerequisite(ReleaseOf(next), f) && f in repo;
  }

  lemma DamagedTags()
    ensures ParseTag("v1.2.30-alpha.1") == Some(Release("1.2.30", Alpha, Some(1)))
    ensures ParseTag("v1.2.3-beta.1") == Some(Release("1.2.3", Beta, Some(1)))
    ensures ParseTag("v1.2.3-beta.2") == Some(Release("1.2.3", Beta, Some(2)))
  {
    hide ParseTag, IsVersion, DigitsValue, Print;
    ExampleVersions();
    DamagedPrints();
    ParsePrint("1.2.30", Alpha, "1");
    ParsePrint("1.2.3", Beta, "1");
    ParsePrint("1.2.3", Beta, "2");
  }

  lemma DamagedPrints()
    ensures DigitsValue("1") == 1 && DigitsValue("2") == 2
    ensures Print("1.2.30", Alpha, "1") == "v1.2.30-alpha.1"
    ensures Print("1.2.3", Beta, "1") == "v1.2.3-beta.1" && Print("1.2.3", Beta, "2") == "v1.2.3-beta.2"
  {
  }

  lemma ExampleTags()
    ensures ParseTag("v1.2.3") == Some(Release("1.2.3", Stable, None))
    ensures ParseTag("v1.2.3-alpha.1") == Some(Release("1.2.3", Alpha, Some(1)))
    ensures ParseTag("v1.2.30-rc.1") == Some(Release("1.2.30", Rc, Some(1)))
  {
    hide ParseTag, IsVersion, DigitsValue, Print;
    ExampleVersions();
    ExamplePrints();
    ParsePrint("1.2.3", Stable, "1");
    ParsePrint("1.2.3", Alpha, "1");
    ParsePrint("1.2.30", Rc, "1");
  }

  lemma ExampleVersions()
    ensures IsVersion("1.2.3") && IsVersion("1.2.30")
  {
  }

  lemma ExamplePrints()
    ensures DigitsValue("1") == 1
    ensures Print("1.2.3", Stable, "1") == "v1.2.3"
    ensures Print("1.2.3", Alpha, "1") == "v1.2.3-alpha.1"
    ensures Print("1.2.30", Rc, "1") == "v1.2.30-rc.1"
  {
  }
}

/** Choosing upgrade targets in modpack/modpack.go, and whole runs of upgrades. */
module Planner {
  import opened Modpack
  import opened Options
  import opened Order
  import opened Text

  /** The three questions the planner asks about version strings. */
  datatype Rules = Rules(compare: (string, string) -> int,
                         isPrerelease: string -> bool,
                         equal: (string, string) -> bool)

  /** The answers of modpack.go. */
  const MODPACK := Rules((a, b) => CompareVersions(a, b), a => IsPrereleaseVersion(a), (a, b) => VersionEquals(a, b))

  /** What the planner relies on. */
  ghost predicate Sound(o: Rules) {
    TotalPreorder(o.compare) && forall v :: o.compare("", v) <= 0
  }

  lemma ModpackIsSound()
    ensures Sound(MODPACK)
  {
    CompareVersionsIsTotalPreorder();
    var o := MODPACK;
    forall a, b ensures o.compare(a, b) == CompareVersions(a, b) {}
    forall v ensures CompareVersions("", v) <= 0 {
      EmptyIsLeast(v);
    }
  }

  lemma EmptyIsLeast(v: string)
    ensures CompareVersions("", v) <= 0
  {
    EmptyIsPlain();
    assert ToLower("") == "";
  }

  predicate IsStableRelease(t: string) { t == "" || EqualFold(t, "stable") }

  predicate IsPrereleaseTarget(o: Rules, target: ModVersion) {
    if !IsStableRelease(target.releaseType) then true else o.isPrerelease(target.version)
  }

  predicate IsUpgradeTarget(o: Rules, installed: string, target: ModVersion) {
    if installed == "" || target.version == "" then false
    else if o.compare(target.version, installed) <= 0 then false
    else if o.isPrerelease(installed) then true
    else !IsPrereleaseTarget(o, target)
  }

  /** `x` replaces `y` as the best target: stable releases first, newer versions next. */
  predicate Preferred(o: Rules, x: ModVersion, y: ModVersion) {
    if IsStableRelease(x.releaseType) != IsStableRelease(y.releaseType) then IsStableRelease(x.releaseType)
    else o.compare(x.version, y.version) > 0
  }

  lemma PreferredIsStrictWeak(o: Rules, x: ModVersion, y: ModVersion, z: ModVersion)
    requires Sound(o)
    ensures Preferred(o, x, y) ==> !Preferred(o, y, x)
    ensures Preferred(o, x, y) ==> Preferred(o, x, z) || Preferred(o, z, y)
  {
  }

  // ----- the newest version -----

  /** The position of the best target among the first `n` versions, -1 if there is none. */
  function NewestIndex(o: Rules, v: seq<ModVersion>, installed: string, n: nat): (k: int)
    requires n <= |v|
    ensures -1 <= k < n
  {
    if n == 0 then -1
    else
      var k := NewestIndex(o, v, installed, n - 1);
      if IsUpgradeTarget(o, installed, v[n - 1]) && (k < 0 || Preferred(o, v[n - 1], v[k])) then n - 1 else k
  }

  function Newest(o: Rules, v: seq<ModVersion>, installed: string): Option<ModVersion> {
    var k := NewestIndex(o, v, installed, |v|);
    if k < 0 then None else Some(v[k])
  }

  const NO_VERSION := ModVersion("", "", "", [], "", [])

  method NewestVersion(o: Rules, v: seq<ModVersion>, installed: string) returns (best: ModVersion, found: bool)
    ensures Newest(o, v, installed) == if found then Some(best) else None
    ensures !found ==> best == NO_VERSION
  {
    best, found := NO_VERSION, false;
    for i := 0 to |v|
      invariant found <==> NewestIndex(o, v, installed, i) >= 0
      invariant best == if found then v[NewestIndex(o, v, installed, i)] else NO_VERSION
    {
      var x := v[i];
      if !IsUpgradeTarget(o, installed, x) {
        continue;
      }
      if !found {
        best, found := x, true;
        continue;
      }
      var bestStable, candidateStable := IsStableRelease(best.releaseType), IsStableRelease(x.releaseType);
      if candidateStable != bestStable {
        if candidateStable {
          best := x;
        }
        continue;
      }
      if o.compare(x.version, best.version) > 0 {
        best := x;
      }
    }
  }

  predicate TargetAt(o: Rules, v: seq<ModVersion>, installed: string, i: int) {
    0 <= i < |v| && IsUpgradeTarget(o, installed, v[i])
  }

  /** The first best target among the first `n`: none is preferred to it, it is preferred to all earlier ones. */
  ghost predicate FirstMaximum(o: Rules, v: seq<ModVersion>, installed: string, n: nat, k: int) {
    && k < n && TargetAt(o, v, installed, k)
    && (forall i :: i < n && TargetAt(o, v, installed, i) ==> !Preferred(o, v[i], v[k]))
    && (forall i :: i < k && TargetAt(o, v, installed, i) ==> Preferred(o, v[k], v[i]))
  }

  /** A target preferred to the best of the earlier ones is preferred to each of them. */
  lemma PreferredToAll(o: Rules, v: seq<ModVersion>, installed: string, n: nat, k: int)
    requires Sound(o) && n < |v| && FirstMaximum(o, v, installed, n, k)
    requires TargetAt(o, v, installed, n) && Preferred(o, v[n], v[k])
    ensures FirstMaximum(o, v, installed, n + 1, n)
  {
  }

  /** What NewestIndex promises. */
  ghost predicate IsNewestIndex(o: Rules, v: seq<ModVersion>, installed: string, n: nat, k: int) {
    if k < 0 then forall i :: i < n ==> !TargetAt(o, v, installed, i)
    else FirstMaximum(o, v, installed, n, k)
  }

  lemma NewestStep(o: Rules, v: seq<ModVersion>, installed: string, n: nat, k: int)
    requires Sound(o) && n < |v| && IsNewestIndex(o, v, installed, n, k)
    ensures IsNewestIndex(o, v, installed, n + 1,
                          if TargetAt(o, v, installed, n) && (k < 0 || Preferred(o, v[n], v[k])) then n else k)
  {
    if TargetAt(o, v, installed, n) {
      if k < 0 {
        PreferredIsStrictWeak(o, v[n], v[n], v[n]);
      } else if Preferred(o, v[n], v[k]) {
        PreferredToAll(o, v, installed, n, k);
      }
    }
  }

  lemma {:induction false} NewestIsFirstMaximum(o: Rules, v: seq<ModVersion>, installed: string, n: nat)
    requires Sound(o) && n <= |v|
    ensures IsNewestIndex(o, v, installed, n, NewestIndex(o, v, installed, n))
  {
    if n > 0 {
      NewestIsFirstMaximum(o, v, installed, n - 1);
      NewestStep(o, v, installed, n - 1, NewestIndex(o, v, installed, n - 1));
    }
  }

  // ----- the target -----

  /** The position of the first listed version from `i` on that equals `version`, |v| if there is none. */
  function FindVersion(o: Rules, v: seq<ModVersion>, version: string, i: nat): (k: nat)
    requires i <= |v|
    ensures i <= k <= |v|
    ensures forall j :: i <= j < k ==> !o.equal(v[j].version, version)
    ensures k < |v| ==> o.equal(v[k].version, version)
    decreases |v| - i
  {
    if i == |v| || o.equal(v[i].version, version) then i else FindVersion(o, v, version, i + 1)
  }

  function Bare(version: string): ModVersion { NO_VERSION.(version := version) }

  function SelectTarget(o: Rules, info: ModInfo, installed: string): Option<ModVersion> {
    if info.latestVersion != "" then
      var k := FindVersion(o, info.versions, info.latestVersion, 0);
      if k < |info.versions| then
        if IsUpgradeTarget(o, installed, info.versions[k]) then Some(info.versions[k])
        else Newest(o, info.versions, installed)
      else if IsUpgradeTarget(o, installed, Bare(info.latestVersion)) then Some(Bare(info.latestVersion))
      else Newest(o, info.versions, installed)
    else Newest(o, info.versions, installed)
  }

  /** The latest version is offered on its own when no listed version equals it. */
  ghost predicate LatestIsTarget(o: Rules, info: ModInfo, installed: string) {
    && info.latestVersion != ""
    && (forall i :: 0 <= i < |info.versions| ==> !o.equal(info.versions[i].version, info.latestVersion))
    && IsUpgradeTarget(o, installed, Bare(info.latestVersion))
  }

  /** A selected target is an upgrade target, listed or latest; none is selected only if there is none. */
  lemma SelectTargetSound(o: Rules, info: ModInfo, installed: string)
    requires Sound(o)
    ensures SelectTarget(o, info, installed).Some? ==>
              var t := SelectTarget(o, info, installed).value;
              IsUpgradeTarget(o, installed, t) && (t in info.versions || t == Bare(info.latestVersion))
    ensures SelectTarget(o, info, installed).None? <==>
              (forall i :: !TargetAt(o, info.versions, installed, i)) && !LatestIsTarget(o, info, installed)
  {
    NewestIsFirstMaximum(o, info.versions, installed, |info.versions|);
    var k := NewestIndex(o, info.versions, installed, |info.versions|);
    assert k >= 0 ==> TargetAt(o, info.versions, installed, k);
    var f := FindVersion(o, info.versions, info.latestVersion, 0);
    if f < |info.versions| && IsUpgradeTarget(o, installed, info.versions[f]) {
      assert TargetAt(o, info.versions, installed, f);
    }
  }

  /** The latest version, listed or not, comes first when it is a target; else the best of the listed ones. */
  lemma LatestComesFirst(o: Rules, info: ModInfo, installed: string, k: nat)
    requires info.latestVersion != ""
    ensures k < |info.versions| && o.equal(info.versions[k].version, info.latestVersion)
            && (forall j :: 0 <= j < k ==> !o.equal(info.versions[j].version, info.latestVersion)) ==>
              SelectTarget(o, info, installed) ==
              if IsUpgradeTarget(o, installed, info.versions[k]) then Some(info.versions[k])
              else Newest(o, info.versions, installed)
    ensures (forall j :: 0 <= j < |info.versions| ==> !o.equal(info.versions[j].version, info.latestVersion)) ==>
              SelectTarget(o, info, installed) ==
              if IsUpgradeTarget(o, installed, Bare(info.latestVersion))
              then Some(ModVersion("", info.latestVersion, "", [], "", []))
              else Newest(o, info.versions, installed)
    ensures SelectTarget(o, info.(latestVersion := ""), installed) == Newest(o, info.versions, installed)
  {
  }

  /**
   A released installation is offered exactly newer releases: stable by their type, when it is given,
   and by their version. A prerelease is offered every newer version, and an unknown version nothing.
   */
  lemma OffersByChannel(o: Rules, installed: string, t: ModVersion)
    ensures installed != "" && !o.isPrerelease(installed) ==>
              (IsUpgradeTarget(o, installed, t) <==>
                 && t.version != "" && o.compare(t.version, installed) > 0
                 && (t.releaseType == "" || ToLower(t.releaseType) == ToLower("stable"))
                 && !o.isPrerelease(t.version))
    ensures installed != "" && o.isPrerelease(installed) ==>
              (IsUpgradeTarget(o, installed, t) <==> t.version != "" && o.compare(t.version, installed) > 0)
    ensures installed == "" ==> !IsUpgradeTarget(o, installed, t)
  {
  }

  // ----- runs of upgrades -----

  predicate Newer(o: Rules, version: string, installed: string) { o.compare(version, installed) > 0 }

  lemma NewerTransitive(o: Rules, a: string, b: string, c: string)
    requires Sound(o)
    requires Newer(o, a, b) && o.compare(b, c) >= 0
    ensures Newer(o, a, c)
  {
  }

  lemma NotNewerThanItself(o: Rules, a: string)
    requires Sound(o)
    ensures !Newer(o, a, a)
  {
  }

  function CountNewer(o: Rules, v: seq<ModVersion>, installed: string): nat {
    if v == [] then 0
    else CountNewer(o, v[..|v| - 1], installed) + if Newer(o, v[|v| - 1].version, installed) then 1 else 0
  }

  /** How many versions the catalog still has above the installed one. */
  function Above(o: Rules, info: ModInfo, installed: string): (n: nat) {
    CountNewer(o, info.versions, installed) + if Newer(o, info.latestVersion, installed) then 1 else 0
  }

  lemma {:induction false} CountNewerShrinks(o: Rules, v: seq<ModVersion>, installed: string, next: string)
    requires Sound(o)
    requires Newer(o, next, installed)
    ensures CountNewer(o, v, next) <= CountNewer(o, v, installed) <= |v|
    ensures (exists x :: x in v && x.version == next) ==> CountNewer(o, v, next) < CountNewer(o, v, installed)
  {
    if v != [] {
      var init, last := v[..|v| - 1], v[|v| - 1];
      assert v == init + [last];
      CountNewerShrinks(o, init, installed, next);
      NotNewerThanItself(o, next);
      if Newer(o, last.version, next) { NewerTransitive(o, last.version, next, installed); }
    }
  }

  lemma UpgradeShrinks(o: Rules, info: ModInfo, installed: string)
    requires Sound(o)
    requires SelectTarget(o, info, installed).Some?
    ensures var next := SelectTarget(o, info, installed).value.version;
            Newer(o, next, installed) && Above(o, info, next) < Above(o, info, installed)
  {
    SelectTargetSound(o, info, installed);
    var t := SelectTarget(o, info, installed).value;
    CountNewerShrinks(o, info.versions, installed, t.version);
    NotNewerThanItself(o, t.version);
    if Newer(o, info.latestVersion, t.version) { NewerTransitive(o, info.latestVersion, t.version, installed); }
  }

  /** The versions installed one after another when every selected target is installed. */
  function Run(o: Rules, info: ModInfo, installed: string): seq<string>
    requires Sound(o)
    decreases Above(o, info, installed)
  {
    match SelectTarget(o, info, installed)
    case None => []
    case Some(t) =>
      UpgradeShrinks(o, info, installed);
      [t.version] + Run(o, info, t.version)
  }

  function Final(o: Rules, info: ModInfo, installed: string): string
    requires Sound(o)
  {
    var run := Run(o, info, installed);
    if run == [] then installed else run[|run| - 1]
  }

  /** A run is its first upgrade and the run from there. */
  lemma RunUnfolds(o: Rules, info: ModInfo, installed: string)
    requires Sound(o) && SelectTarget(o, info, installed).Some?
    ensures var next := SelectTarget(o, info, installed).value.version;
            && Newer(o, next, installed) && Above(o, info, next) < Above(o, info, installed)
            && Run(o, info, installed) == [next] + Run(o, info, next)
            && Final(o, info, installed) == Final(o, info, next)
            && (!o.isPrerelease(installed) ==> !o.isPrerelease(next))
  {
    SelectTargetSound(o, info, installed);
    UpgradeShrinks(o, info, installed);
  }

  lemma {:induction false} RunStops(o: Rules, info: ModInfo, installed: string)
    requires Sound(o)
    ensures |Run(o, info, installed)| <= Above(o, info, installed)
    ensures SelectTarget(o, info, Final(o, info, installed)).None?
    decreases Above(o, info, installed)
  {
    if SelectTarget(o, info, installed).Some? {
      RunUnfolds(o, info, installed);
      RunStops(o, info, SelectTarget(o, info, installed).value.version);
    }
  }

  lemma {:induction false} RunClimbs(o: Rules, info: ModInfo, installed: string)
    requires Sound(o)
    ensures var run := Run(o, info, installed);
            && (forall i :: 0 <= i < |run| ==> Newer(o, run[i], installed))
            && (forall i, j :: 0 <= i < j < |run| ==> Newer(o, run[j], run[i]))
    decreases Above(o, info, installed)
  {
    if SelectTarget(o, info, installed).Some? {
      RunUnfolds(o, info, installed);
      var next := SelectTarget(o, info, installed).value.version;
      RunClimbs(o, info, next);
      var rest := Run(o, info, next);
      forall i | 0 <= i < |rest| ensures Newer(o, rest[i], installed) {
        NewerTransitive(o, rest[i], next, installed);
      }
    }
  }

  lemma {:induction false} RunStaysReleased(o: Rules, info: ModInfo, installed: string)
    requires Sound(o) && !o.isPrerelease(installed)
    ensures var run := Run(o, info, installed);
            forall i :: 0 <= i < |run| ==> !o.isPrerelease(run[i])
    decreases Above(o, info, installed)
  {
    if SelectTarget(o, info, installed).Some? {
      RunUnfolds(o, info, installed);
      RunStaysReleased(o, info, SelectTarget(o, info, installed).value.version);
    }
  }

  /**
   Installing every selected target climbs strictly, ends within |versions| + 1 steps where there
   is no target left, and never goes back from a release to a prerelease.
   */
  lemma UpgradeRunTerminates(o: Rules, info: ModInfo, installed: string)
    requires Sound(o)
    ensures var run := Run(o, info, installed);
            && |run| <= |info.versions| + 1
            && SelectTarget(o, info, Final(o, info, installed)).None?
            && (forall i, j :: 0 <= i < j < |run| ==> Newer(o, run[j], run[i]))
            && (forall i :: 0 <= i < |run| ==> Newer(o, run[i], installed))
            && (!o.isPrerelease(installed) ==> forall i :: 0 <= i < |run| ==> !o.isPrerelease(run[i]))
  {
    RunStops(o, info, installed);
    RunClimbs(o, info, installed);
    if !o.isPrerelease(installed) { RunStaysReleased(o, info, installed); }
    CountNewerBound(o, info.versions, installed);
  }

  /** A listed version or the unlisted latest one. */
  predicate Available(o: Rules, info: ModInfo, t: ModVersion) {
    || t in info.versions
    || (t == Bare(info.latestVersion) &&
        forall i :: 0 <= i < |info.versions| ==> !o.equal(info.versions[i].version, info.latestVersion))
  }

  lemma {:induction false} RunStaysKnown(o: Rules, info: ModInfo, installed: string)
    requires Sound(o) && installed != ""
    ensures Final(o, info, installed) != ""
    decreases Above(o, info, installed)
  {
    if SelectTarget(o, info, installed).Some? {
      RunUnfolds(o, info, installed);
      SelectTargetSound(o, info, installed);
      RunStaysKnown(o, info, SelectTarget(o, info, installed).value.version);
    }
  }

  /**
   Where a run ends it is at or above every available release, and at or above every available
   version at all if it ends at a prerelease.
   */
  lemma FinalIsNewest(o: Rules, info: ModInfo, installed: string, t: ModVersion)
    requires Sound(o) && installed != "" && Available(o, info, t) && t.version != ""
    ensures var final := Final(o, info, installed);
            var release := (t.releaseType == "" || EqualFold(t.releaseType, "stable")) && !o.isPrerelease(t.version);
            release || o.isPrerelease(final) ==> o.compare(t.version, final) <= 0
  {
    RunStops(o, info, installed);
    RunStaysKnown(o, info, installed);
    var final := Final(o, info, installed);
    SelectTargetSound(o, info, final);
    OffersByChannel(o, final, t);
    if t in info.versions {
      var i :| 0 <= i < |info.versions| && info.versions[i] == t;
      assert !TargetAt(o, info.versions, final, i);
    }
  }

  lemma {:induction false} CountNewerBound(o: Rules, v: seq<ModVersion>, installed: string)
    ensures CountNewer(o, v, installed) <= |v|
  {
    if v != [] { CountNewerBound(o, v[..|v| - 1], installed); }
  }

  /** A release whose type says stable but whose version says prerelease, with a newer unstable release. */
  ghost predicate Mistyped(o: Rules, v: seq<ModVersion>, t: ModVersion) {
    && IsStableRelease(t.releaseType) && o.isPrerelease(t.version)
    && exists i :: NewerUnstableAt(o, v, t, i)
  }

  predicate NewerUnstableAt(o: Rules, v: seq<ModVersion>, t: ModVersion, i: int) {
    0 <= i < |v| && !IsStableRelease(v[i].releaseType) && Newer(o, v[i].version, t.version)
  }

  /** Installing the newest version leaves no target, unless that version is mistyped. */
  lemma OneStepFixpoint(o: Rules, v: seq<ModVersion>, installed: string)
    requires Sound(o) && Newest(o, v, installed).Some?
    ensures var t := Newest(o, v, installed).value;
            Newest(o, v, t.version).None? <==> !Mistyped(o, v, t)
  {
    var k := NewestIndex(o, v, installed, |v|);
    var t := v[k];
    NewestIsFirstMaximum(o, v, installed, |v|);
    NewestIsFirstMaximum(o, v, t.version, |v|);
    assert TargetAt(o, v, installed, k);
    var next := NewestIndex(o, v, t.version, |v|);
    if next >= 0 {
      // still a target after the installation, so it was one before, and the unstable type lost to t
      assert TargetAt(o, v, t.version, next);
      NewerTransitive(o, v[next].version, t.version, installed);
      assert TargetAt(o, v, installed, next) && !Preferred(o, v[next], t);
      assert NewerUnstableAt(o, v, t, next);
    } else if Mistyped(o, v, t) {
      var i :| NewerUnstableAt(o, v, t, i);
      assert o.compare("", t.version) <= 0;
      assert TargetAt(o, v, t.version, i);
      assert false;
    }
  }

  // ----- the planner of modpack.go -----

  lemma ModpackUpgradeRuns(info: ModInfo, installed: string)
    ensures Sound(MODPACK)
    ensures var run := Run(MODPACK, info, installed);
            && |run| <= |info.versions| + 1
            && SelectTarget(MODPACK, info, Final(MODPACK, info, installed)).None?
            && (forall i, j :: 0 <= i < j < |run| ==> CompareVersions(run[j], run[i]) > 0)
            && (!IsPrereleaseVersion(installed) ==> forall i :: 0 <= i < |run| ==> !IsPrereleaseVersion(run[i]))
  {
    ModpackIsSound();
    UpgradeRunTerminates(MODPACK, info, installed);
    var run := Run(MODPACK, info, installed);
    forall i, j | 0 <= i < j < |run| ensures CompareVersions(run[j], run[i]) > 0 {
      assert Newer(MODPACK, run[j], run[i]);
    }
    if !IsPrereleaseVersion(installed) {
      assert !MODPACK.isPrerelease(installed);
      forall i | 0 <= i < |run| ensures !IsPrereleaseVersion(run[i]) {
        assert !MODPACK.isPrerelease(run[i]);
      }
    }
  }

  /** The same of the planner's own rules: a run ends at or above every listed release. */
  lemma ModpackEndsNewest(info: ModInfo, installed: string, i: nat)
    requires installed != "" && i < |info.versions| && info.versions[i].version != ""
    ensures Sound(MODPACK)
    ensures var t, final := info.versions[i], Final(MODPACK, info, installed);
            var stable := t.releaseType == "" || EqualFold(t.releaseType, "stable");
            var release := stable && !IsPrereleaseVersion(t.version);
            release || IsPrereleaseVersion(final) ==> CompareVersions(t.version, final) <= 0
  {
    ModpackIsSound();
    FinalIsNewest(MODPACK, info, installed, info.versions[i]);
    var t, final := info.versions[i], Final(MODPACK, info, installed);
    assert MODPACK.compare(t.version, final) == CompareVersions(t.version, final);
    assert MODPACK.isPrerelease(t.version) == IsPrereleaseVersion(t.version);
    assert MODPACK.isPrerelease(final) == IsPrereleaseVersion(final);
  }
}

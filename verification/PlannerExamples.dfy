/** Catalogs on which installing the newest version leaves a target. */
module PlannerExamples {
  import opened Comparators
  import opened Options
  import opened Order
  import opened Planner
  import opened Text
  import Modpack
  import Semver

  // ----- release types -----

  /** The release type that the ModDB client reads off a version text. */
  function ReleaseType(v: string): string {
    var t := ToLower(v);
    if Contains(t, "alpha") then "alpha"
    else if Contains(t, "beta") || Contains(t, "rc") || Contains(t, "pre") then "beta"
    else "stable"
  }

  lemma ContainsLater(a: string, s: string, t: string)
    requires Contains(s, t)
    ensures Contains(a + s, t)
  {
    var i :| 0 <= i <= |s| && t <= s[i..];
    assert (a + s)[|a| + i..] == s[i..];
  }

  lemma ContainsNeeds(s: string, t: string, c: char)
    requires c in t && c !in s
    ensures !Contains(s, t)
  {
  }

  predicate TextChar(v: GameVersion, c: char) {
    IsDigit(c) || c == '.' || c == '-' || (v.channel.Some? && c in TagText(v.channel.value.0))
  }

  lemma TextChars(v: GameVersion)
    ensures forall i :: 0 <= i < |VersionText(v)| ==> TextChar(v, VersionText(v)[i])
  {
    assert All(Dec(v.x), IsDigit) && All(Dec(v.y), IsDigit) && All(Dec(v.z), IsDigit);
    if v.channel.Some? { assert All(Dec(v.channel.value.1), IsDigit); }
    var channel := ChannelText(v);
    assert forall i :: 0 <= i < |channel| ==> TextChar(v, channel[i]);
  }

  lemma TextHasTag(v: GameVersion)
    requires v.channel.Some?
    ensures Contains(VersionText(v), TagText(v.channel.value.0))
  {
    var tag, rest := TagText(v.channel.value.0), "." + Dec(v.channel.value.1);
    assert tag <= (tag + rest)[0..];
    ContainsLater("-", tag + rest, tag);
    ContainsLater(Dec(v.z), ChannelText(v), tag);
    ContainsLater(".", Dec(v.z) + ChannelText(v), tag);
    ContainsLater(Dec(v.y), "." + (Dec(v.z) + ChannelText(v)), tag);
    ContainsLater(".", Dec(v.y) + ("." + (Dec(v.z) + ChannelText(v))), tag);
    ContainsLater(Dec(v.x), "." + (Dec(v.y) + ("." + (Dec(v.z) + ChannelText(v)))), tag);
  }

  lemma TextLacks(v: GameVersion, c: char)
    requires !TextChar(v, c)
    ensures c !in VersionText(v)
  {
    TextChars(v);
  }

  lemma TextIsLower(v: GameVersion)
    ensures ToLower(VersionText(v)) == VersionText(v)
  {
    TextIsPlain(v);
  }

  lemma TypeWithoutAB(s: string)
    requires ToLower(s) == s && 'a' !in s && 'b' !in s
    ensures ReleaseType(s) == if Contains(s, "rc") || Contains(s, "pre") then "beta" else "stable"
  {
    ContainsNeeds(s, "alpha", 'a');
    ContainsNeeds(s, "beta", 'b');
  }

  /** A dev release counts as stable, like a version without a tag. */
  lemma ReleaseTypeByTag(v: GameVersion)
    ensures ReleaseType(VersionText(v)) == if v.channel.Some? && v.channel.value.0 != Dev then "beta" else "stable"
  {
    TextIsLower(v);
    TextLacks(v, 'a');
    TextLacks(v, 'b');
    TypeWithoutAB(VersionText(v));
    if v.channel.Some? && v.channel.value.0 != Dev {
      TextHasTag(v);
    } else {
      TextLacks(v, 'r');
      ContainsNeeds(VersionText(v), "rc", 'r');
      ContainsNeeds(VersionText(v), "pre", 'r');
    }
  }

  // ----- a stable type hides a newer release -----

  function Listed(v: GameVersion): Modpack.ModVersion {
    Modpack.ModVersion("", VersionText(v), ReleaseType(VersionText(v)), [], "", [])
  }

  lemma PlannerSeesPrerelease(a: GameVersion)
    ensures MODPACK.isPrerelease(VersionText(a)) <==> a.channel.Some?
  {
    ReadByModpack(a);
    Modpack.NormalizedParses(VersionText(a));
  }

  predicate Older(a: GameVersion, b: GameVersion) { Semver.VersionCmp(SemverOf(a), SemverOf(b)) < 0 }

  /** `x` is stable by its type but not by its version, and `y` is unstable and newer. */
  lemma StableTypeHidesNewer(o: Rules, x: Modpack.ModVersion, y: Modpack.ModVersion, installed: string)
    requires installed != "" && x.version != "" && y.version != ""
    requires IsStableRelease(x.releaseType) && !IsStableRelease(y.releaseType)
    requires o.isPrerelease(installed) && o.isPrerelease(x.version)
    requires o.compare(x.version, installed) > 0 && o.compare(y.version, installed) > 0
    requires o.compare(x.version, x.version) == 0 && o.compare(y.version, x.version) > 0
    ensures Newest(o, [x, y], installed) == Some(x) && Newest(o, [x, y], x.version) == Some(y)
    ensures Mistyped(o, [x, y], x)
  {
    var v := [x, y];
    assert NewestIndex(o, v, installed, 1) == 0 && NewestIndex(o, v, x.version, 1) == -1;
    assert NewerUnstableAt(o, v, x, 1);
  }

  lemma OlderChain(a: GameVersion, b: GameVersion, c: GameVersion)
    requires Older(a, b) && Older(b, c)
    ensures Semver.VersionCmp(SemverOf(b), SemverOf(a)) > 0 && Semver.VersionCmp(SemverOf(c), SemverOf(b)) > 0
    ensures Semver.VersionCmp(SemverOf(c), SemverOf(a)) > 0 && Semver.VersionCmp(SemverOf(b), SemverOf(b)) == 0
  {
    Semver.PrecedenceOrder();
    var x, y, z, cmp := SemverOf(a), SemverOf(b), SemverOf(c), Semver.VersionCmp;
    assert cmp(y, x) == -cmp(x, y) && cmp(z, y) == -cmp(y, z) && cmp(z, x) == -cmp(x, z) && cmp(y, y) == -cmp(y, y);
    assert cmp(x, z) <= 0;
    assert cmp(z, x) <= 0 ==> cmp(y, x) <= 0;
  }

  /** The two types are told apart. */
  lemma TypesDiffer()
    ensures IsStableRelease("stable") && !IsStableRelease("beta")
  {
  }

  /**
   A dev release counts as stable: an installed prerelease is sent to it, past a newer release
   candidate, which is the target after the installation.
   */
  lemma DevHidesCandidate(a: GameVersion, b: GameVersion, c: GameVersion)
    requires a.channel.Some? && b.channel.Some? && c.channel.Some?
    requires b.channel.value.0 == Dev && c.channel.value.0 != Dev && Older(a, b) && Older(b, c)
    ensures Newest(MODPACK, [Listed(b), Listed(c)], VersionText(a)) == Some(Listed(b))
    ensures Newest(MODPACK, [Listed(b), Listed(c)], VersionText(b)) == Some(Listed(c))
    ensures Mistyped(MODPACK, [Listed(b), Listed(c)], Listed(b))
  {
    OlderChain(a, b, c);
    PlannerOrder(b, a);
    PlannerOrder(c, a);
    PlannerOrder(b, b);
    PlannerOrder(c, b);
    PlannerSeesPrerelease(a);
    PlannerSeesPrerelease(b);
    TextIsPlain(a);
    TextIsPlain(b);
    TextIsPlain(c);
    ReleaseTypeByTag(b);
    ReleaseTypeByTag(c);
    TypesDiffer();
    StableTypeHidesNewer(MODPACK, Listed(b), Listed(c), VersionText(a));
  }

  /** A latest version spelt with a leading v is the listed version without one. */
  lemma LatestMayBePrefixed(v: GameVersion, id: string, installed: string)
    requires IsUpgradeTarget(MODPACK, installed, Listed(v))
    ensures SelectTarget(MODPACK, Modpack.ModInfo(id, "v" + VersionText(v), [Listed(v)]), installed) == Some(Listed(v))
  {
    PrefixIsEqual(v);
    LatestComesFirst(MODPACK, Modpack.ModInfo(id, "v" + VersionText(v), [Listed(v)]), installed, 0);
  }

  lemma PrefixIsEqual(v: GameVersion)
    ensures MODPACK.equal(VersionText(v), "v" + VersionText(v))
  {
    TextIsPlain(v);
    var s := VersionText(v);
    TrimVisible(s);
    TrimVisible("v" + s);
    assert Modpack.Prefixed("v" + s) == "v" + s == Modpack.Prefixed(s);
    ReadByModpack(v);
  }

  const INSTALLED := GameVersion(1, 0, 0, Some((Rc, 1)))
  const DEV := GameVersion(1, 2, 0, Some((Dev, 1)))
  const CANDIDATE := GameVersion(1, 3, 0, Some((Rc, 1)))

  /** For example 1.2.0-dev.1 and 1.3.0-rc.1 when 1.0.0-rc.1 is installed. */
  lemma InstallingCanLeaveTarget()
    ensures Newest(MODPACK, [Listed(DEV), Listed(CANDIDATE)], VersionText(INSTALLED)) == Some(Listed(DEV))
    ensures Newest(MODPACK, [Listed(DEV), Listed(CANDIDATE)], VersionText(DEV)) == Some(Listed(CANDIDATE))
  {
    DevHidesCandidate(INSTALLED, DEV, CANDIDATE);
  }
}
